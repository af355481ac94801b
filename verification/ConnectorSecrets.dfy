/** The secrets of a connector: moving them into a vault, listing the references
    that took their place, and stripping them, for the paths of any schema. */
module ConnectorSecrets {
  import opened Options
  import opened SecretPaths
  import opened SecretMove

  datatype Connector = Connector(clientSecret: string, clientSecretRef: string, spec: Option<Json>)

  function MoveClientSecret(env: Env, c: Connector, v: Vault): (Connector, Vault, bool) {
    if c.clientSecret == "" then (c, v, true)
    else
      var id := env.newId(v.next);
      var drawn := v.(next := v.next + 1);
      if id in env.broken then (c, drawn, false)
      else (c.(clientSecret := "", clientSecretRef := id),
            drawn.(secrets := v.secrets[id := Entry(c.clientSecret, env.owner)]), true)
  }

  /** The client secret goes first and stays moved even if the rest fails. */
  function MoveSecrets(env: Env, c: Connector, v: Vault, order: seq<Path>): (Connector, Vault, bool) {
    var (c1, v1, ok) := MoveClientSecret(env, c, v);
    if !ok || c1.spec.None? then (c1, v1, ok)
    else
      match Modify(c1.spec.value, v1, order, MoveNode(env))
      case Failed(w, _) => (c1, w, false)
      case Done(doc, w) => (c1.(spec := Some(doc)), w, true)
  }

  function SecretRefs(c: Connector, order: seq<Path>): seq<string> {
    ClientRefs(c) + SpecRefs(c.spec, order)
  }

  function ClientRefs(c: Connector): seq<string> { if c.clientSecretRef != "" then [c.clientSecretRef] else [] }

  function SpecRefs(spec: Option<Json>, order: seq<Path>): seq<string> {
    if spec.None? then [] else CollectRefs(spec.value, order)
  }

  function StripSecrets(c: Connector, order: seq<Path>): Connector {
    if c.spec.None? then Connector("", "", None)
    else
      StripSucceeds(c.spec.value, order);
      Connector("", "", Some(Modify(c.spec.value, (), order, StripNode()).doc))
  }

  class VaultService {
    var secrets: map<string, Entry>
    var next: nat

    ghost function State(): Vault
      reads this
    {
      Vault(secrets, next)
    }
  }

  class Resource {
    var clientSecret: string
    var clientSecretRef: string
    var spec: Option<Json>

    ghost function State(): Connector
      reads this
    {
      Connector(clientSecret, clientSecretRef, spec)
    }
  }

  method MoveSecretsToVault(resource: Resource, schema: Schema, vault: VaultService, env: Env)
    returns (ok: bool, ghost order: seq<Path>)
    modifies resource, vault
    ensures Enumerates(order, SecretPathsOf(schema))
    ensures (resource.State(), vault.State(), ok) == MoveSecrets(env, old(resource.State()), old(vault.State()), order)
  {
    order := SomeOrder(SecretPathsOf(schema));
    if resource.clientSecret != "" {
      var keyId := env.newId(vault.next);
      vault.next := vault.next + 1;
      if keyId in env.broken {
        return false, order;
      }
      vault.secrets := vault.secrets[keyId := Entry(resource.clientSecret, env.owner)];
      resource.clientSecret := "";
      resource.clientSecretRef := keyId;
    }
    if resource.spec.Some? {
      var updated;
      updated, order := ModifySecrets(schema, resource.spec.value, Vault(vault.secrets, vault.next), MoveNode(env));
      vault.secrets, vault.next := updated.st.secrets, updated.st.next;
      if updated.Failed? {
        return false, order;
      }
      resource.spec := Some(updated.doc);
    }
    ok := true;
  }

  /** The order in which the paths come does not matter to what is listed. */
  lemma RefsListedInAnyOrder(c: Connector, schema: Schema, a: seq<Path>, b: seq<Path>)
    requires Enumerates(a, SecretPathsOf(schema)) && Enumerates(b, SecretPathsOf(schema))
    ensures multiset(SecretRefs(c, a)) == multiset(SecretRefs(c, b))
  {
    if c.spec.Some? {
      CollectedRefs(c.spec.value, a);
      CollectedRefs(c.spec.value, b);
      RefsInAnyOrder(c.spec.value, a, b);
    }
  }

  method GetSecretRefs(resource: Resource, schema: Schema) returns (result: seq<string>, ghost order: seq<Path>)
    ensures Enumerates(order, SecretPathsOf(schema)) && result == SecretRefs(resource.State(), order)
    ensures forall p | Enumerates(p, SecretPathsOf(schema)) ::
              multiset(result) == multiset(SecretRefs(resource.State(), p))
  {
    hide Modify, CollectRefs, Lookup, Enumerates, SecretPathsOf, CollectNode;
    order := SomeOrder(SecretPathsOf(schema));
    result := [];
    if resource.clientSecretRef != "" {
      result := [resource.clientSecretRef];
    }
    if resource.spec.Some? {
      var o;
      o, order := ModifySecrets(schema, resource.spec.value, result, CollectNode());
      ListsAfter(resource.spec.value, result, order);
      result := o.st;
    } else {
      assert result + [] == result;
    }
    hide *;
    forall p | Enumerates(p, SecretPathsOf(schema))
      ensures multiset(result) == multiset(SecretRefs(resource.State(), p))
    {
      RefsListedInAnyOrder(resource.State(), schema, order, p);
    }
  }

  lemma ListsAfter(doc: Json, refs: seq<string>, order: seq<Path>)
    ensures Modify(doc, refs, order, CollectNode()).st == refs + CollectRefs(doc, order)
  {
    CollectsFrom(doc, refs, order);
    CollectedRefs(doc, order);
  }

  method StripSecretReferences(resource: Resource, schema: Schema) returns (ghost order: seq<Path>)
    modifies resource
    ensures Enumerates(order, SecretPathsOf(schema)) && resource.State() == StripSecrets(old(resource.State()), order)
    ensures resource.clientSecret == "" && resource.clientSecretRef == ""
    ensures resource.spec.Some? == old(resource.spec.Some?)
    ensures resource.spec.Some? ==>
              forall q | IsSecretPath(schema, q) && NothingAbove(order, q) ::
                EmptiedOrNulled(Lookup(old(resource.spec.value), q), Lookup(resource.spec.value, q))
  {
    order := SomeOrder(SecretPathsOf(schema));
    resource.clientSecret, resource.clientSecretRef := "", "";
    if resource.spec.Some? {
      var o;
      o, order := ModifySecrets(schema, resource.spec.value, (), StripNode());
      StripSucceeds(resource.spec.value, order);
      resource.spec := Some(o.doc);
    }
    StrippedConnectorHasNoRefs(old(resource.State()), schema, order, order);
  }

  lemma {:induction false} StripSucceeds(doc: Json, order: seq<Path>)
    ensures Modify(doc, (), order, StripNode()).Done?
    decreases |order|
  {
    if order != [] {
      var node := Lookup(doc, order[0]);
      StripSucceeds(if node.None? then doc else Replace(doc, order[0], if node.value.Obj? then Obj(map[]) else Null),
                    order[1..]);
    }
  }

  /** For every schema and every document in which no secret clashes with the
      reference of another: a successful move leaves no string at any secret path
      of the schema, and keeps all that it should. */
  lemma SchemaSecretsMove(env: Env, v: Vault, schema: Schema, doc: Json, order: seq<Path>, later: seq<Path>)
    requires FreshIds(env, v) && !Clash(doc, SecretPathsOf(schema))
    requires Enumerates(order, SecretPathsOf(schema)) && Enumerates(later, SecretPathsOf(schema))
    requires Modify(doc, v, order, MoveNode(env)).Done?
    ensures var o := Modify(doc, v, order, MoveNode(env));
            && (forall q | IsSecretPath(schema, q) :: !IsString(Lookup(o.doc, q)))
            && Kept(env, v, doc, order, later, o.doc, o.st)
  {
    var o := Modify(doc, v, order, MoveNode(env));
    DocumentSecretsMove(env, v, doc, SecretPathsOf(schema), order, later);
    EnumerationHasNoDuplicates(order, SecretPathsOf(schema));
    forall q | IsSecretPath(schema, q) ensures !IsString(Lookup(o.doc, q)) { SecretPathsAre(schema, q); }
  }

  /** What a successful move of the spec does to the vault and the references. */
  lemma SpecSecretsMove(env: Env, spec: Option<Json>, v: Vault, schema: Schema, order: seq<Path>, later: seq<Path>,
                        moved: Option<Json>, w: Vault)
    requires FreshIds(env, v) && (spec.Some? ==> !Clash(spec.value, SecretPathsOf(schema)))
    requires Enumerates(order, SecretPathsOf(schema)) && Enumerates(later, SecretPathsOf(schema))
    requires if spec.None? then moved.None? && w == v
             else moved.Some? && Modify(spec.value, v, order, MoveNode(env)) == Done(moved.value, w)
    ensures v.next <= w.next
    ensures spec.Some? ==> Kept(env, v, spec.value, order, later, moved.value, w)
    ensures moved.Some? ==> forall q | IsSecretPath(schema, q) :: !IsString(Lookup(moved.value, q))
    ensures forall id | id in v.secrets :: id in w.secrets && w.secrets[id] == v.secrets[id]
    ensures multiset(SpecRefs(moved, later)) == multiset(SpecRefs(spec, later)) + multiset(IdsFrom(env, v.next, w.next))
  {
    if spec.Some? {
      SchemaSecretsMove(env, v, schema, spec.value, order, later);
    } else {
      IdsJoin(env, v.next, v.next, v.next);
    }
  }

  /** After a successful move, no string is left at a secret path; listing the
      connector's references in any order gives the new ids and the earlier
      references that were not replaced, as a multiset; the vault has kept every
      earlier entry. */
  lemma ConnectorRefsAfterMove(env: Env, c: Connector, v: Vault, schema: Schema, order: seq<Path>, later: seq<Path>)
    requires FreshIds(env, v) && (c.spec.Some? ==> !Clash(c.spec.value, SecretPathsOf(schema)))
    requires Enumerates(order, SecretPathsOf(schema)) && Enumerates(later, SecretPathsOf(schema))
    requires MoveSecrets(env, c, v, order).2
    ensures var (d, w, _) := MoveSecrets(env, c, v, order);
            && d.clientSecret == "" && v.next <= w.next
            && (if c.clientSecret == "" then d.clientSecretRef == c.clientSecretRef
                else d.clientSecretRef !in v.secrets && d.clientSecretRef in w.secrets
                     && w.secrets[d.clientSecretRef] == Entry(c.clientSecret, env.owner))
            && d.spec.Some? == c.spec.Some?
            && (c.spec.Some? ==>
                  var v1 := MoveClientSecret(env, c, v).1;
                  Kept(env, v1, c.spec.value, order, later, d.spec.value, w))
            && (d.spec.Some? ==> forall q | IsSecretPath(schema, q) :: !IsString(Lookup(d.spec.value, q)))
            && (forall id | id in v.secrets :: id in w.secrets && w.secrets[id] == v.secrets[id])
            && multiset(SecretRefs(d, later))
               == multiset(SecretRefs(if c.clientSecret == "" then c else c.(clientSecretRef := ""), later))
                  + multiset(IdsFrom(env, v.next, w.next))
  {
    hide *;
    var (c1, v1, ok1) := MoveClientSecret(env, c, v);
    var (d, w, ok) := MoveSecrets(env, c, v, order);
    MoveInTwoParts(env, c, v, order);
    ClientSecretMoves(env, c, v);
    SpecSecretsMove(env, c.spec, v1, schema, order, later, d.spec, w);
    IdsJoin(env, v.next, v1.next, w.next);
    RefsAreTwoParts(d, later);
    RefsAreTwoParts(c, later);
    RefsAreTwoParts(c.(clientSecretRef := ""), later);
    AddRefs(ClientRefs(d), SpecRefs(c.spec, later), SpecRefs(d.spec, later), IdsFrom(env, v1.next, w.next));
  }

  /** A move that fails leaves the spec as it was. The client secret is then still
      in place if its own id could not be stored, and in the vault otherwise. */
  lemma FailedMoveKeepsTheSpec(env: Env, c: Connector, v: Vault, order: seq<Path>)
    requires FreshIds(env, v) && !MoveSecrets(env, c, v, order).2
    ensures var (d, w, _) := MoveSecrets(env, c, v, order);
            && d.spec == c.spec
            && (forall id | id in v.secrets :: id in w.secrets && w.secrets[id] == v.secrets[id])
            && (if c.clientSecret == "" then d == c
                else if env.newId(v.next) in env.broken then d == c && w.secrets == v.secrets
                else && d.clientSecret == "" && d.clientSecretRef == env.newId(v.next)
                     && d.clientSecretRef in w.secrets
                     && w.secrets[d.clientSecretRef] == Entry(c.clientSecret, env.owner))
  {
    var (c1, v1, ok1) := MoveClientSecret(env, c, v);
    if ok1 {
      ClientSecretMoves(env, c, v);
      MoveKeepsEntries(env, v1, c1.spec.value, order);
    }
    hide Modify, MoveNode;
  }

  lemma NodeMoveKeepsEntries(env: Env, v: Vault, node: Json)
    requires FreshIds(env, v)
    ensures var o := MoveNode(env)(node, v);
            && (o.Done? ==> FreshIds(env, o.st))
            && forall id | id in v.secrets :: id in o.st.secrets && o.st.secrets[id] == v.secrets[id]
  {
    FreshIdsStay(env, v, Some(node));
    assert env.newId(v.next) !in v.secrets;
    assert MoveNode(env)(node, v).Done? ==> MoveNode(env)(node, v).st == AfterOne(env, v, Some(node));
    hide FreshIds;
  }

  lemma {:induction false} MoveKeepsEntries(env: Env, v: Vault, doc: Json, order: seq<Path>)
    requires FreshIds(env, v)
    ensures var w := Modify(doc, v, order, MoveNode(env)).st;
            forall id | id in v.secrets :: id in w.secrets && w.secrets[id] == v.secrets[id]
    decreases |order|
  {
    hide FreshIds, MoveNode, Lookup, Replace;
    if order != [] {
      var node := Lookup(doc, order[0]);
      if node.None? {
        MoveKeepsEntries(env, v, doc, order[1..]);
      } else {
        var o := MoveNode(env)(node.value, v);
        NodeMoveKeepsEntries(env, v, node.value);
        if o.Done? { MoveKeepsEntries(env, o.st, Replace(doc, order[0], o.doc), order[1..]); }
      }
    }
  }

  lemma AddRefs(head: seq<string>, before: seq<string>, after: seq<string>, ids: seq<string>)
    requires multiset(after) == multiset(before) + multiset(ids)
    ensures multiset(head + after) == multiset(head + before) + multiset(ids)
    ensures multiset(head + after) == multiset([] + before) + multiset(head + ids) && [] + ids == ids
  {
    assert [] + before == before;
  }

  lemma RefsAreTwoParts(c: Connector, order: seq<Path>)
    ensures SecretRefs(c, order) == ClientRefs(c) + SpecRefs(c.spec, order)
    ensures ClientRefs(c) == if c.clientSecretRef == "" then [] else [c.clientSecretRef]
  {
  }

  lemma MoveInTwoParts(env: Env, c: Connector, v: Vault, order: seq<Path>)
    requires MoveSecrets(env, c, v, order).2
    ensures var (c1, v1, ok1) := MoveClientSecret(env, c, v);
            var (d, w, _) := MoveSecrets(env, c, v, order);
            && ok1 && d.clientSecret == c1.clientSecret && d.clientSecretRef == c1.clientSecretRef
            && if c1.spec.None? then d.spec.None? && w == v1
               else d.spec.Some? && Modify(c1.spec.value, v1, order, MoveNode(env)) == Done(d.spec.value, w)
  {
  }

  lemma ClientSecretMoves(env: Env, c: Connector, v: Vault)
    requires FreshIds(env, v) && MoveClientSecret(env, c, v).2
    ensures var (c1, v1, _) := MoveClientSecret(env, c, v);
            && FreshIds(env, v1) && v.next <= v1.next && c1.clientSecret == "" && c1.spec == c.spec
            && (forall id | id in v.secrets :: id in v1.secrets && v1.secrets[id] == v.secrets[id])
            && (if c.clientSecret == "" then c1.clientSecretRef == c.clientSecretRef && v1 == v
                else && c1.clientSecretRef != "" && IdsFrom(env, v.next, v1.next) == [c1.clientSecretRef]
                     && c1.clientSecretRef !in v.secrets && c1.clientSecretRef in v1.secrets
                     && v1.secrets[c1.clientSecretRef] == Entry(c.clientSecret, env.owner))
  {
  }

  lemma IdsJoin(env: Env, a: nat, b: nat, c: nat)
    requires a <= b <= c
    ensures IdsFrom(env, a, c) == IdsFrom(env, a, b) + IdsFrom(env, b, c)
    ensures IdsFrom(env, a, a) == []
  {
  }

  // ----- stripping

  predicate IsStripped(node: Option<Json>) { node in {None, Some(Null), Some(Obj(map[]))} }

  /** A stripped node stays stripped whatever is stripped afterwards. */
  lemma StrippedStays(doc: Json, q: Path, node: Json, p: Path)
    requires Lookup(doc, q).Some? && IsStripped(Some(node))
    requires p == q || IsStripped(Lookup(doc, p))
    ensures IsStripped(Lookup(Replace(doc, q, node), p))
  {
    var d := Replace(doc, q, node);
    ReplaceFrames(doc, q, node, p);
    if q <= p {
      LookupBelow(d, q, p[|q|..]);
      assert p == q + p[|q|..];
    } else if p <= q {
      LookupBelow(doc, p, q[|p|..]);
      assert q == p + q[|p|..] && q[|p|..] != [];
    }
  }

  /** Every path visited, and every path stripped before, ends up stripped. */
  lemma {:induction false} StripsAll(doc: Json, order: seq<Path>, p: Path)
    requires p in order || IsStripped(Lookup(doc, p))
    ensures Modify(doc, (), order, StripNode()).Done? && IsStripped(Lookup(Modify(doc, (), order, StripNode()).doc, p))
    decreases |order|
  {
    if order != [] {
      var q, rest := order[0], order[1..];
      var node := Lookup(doc, q);
      assert order == [q] + rest;
      if node.None? {
        StripsAll(doc, rest, p);
      } else {
        var n := if node.value.Obj? then Obj(map[]) else Null;
        if p == q || IsStripped(Lookup(doc, p)) { StrippedStays(doc, q, n, p); }
        hide Lookup, Replace, IsStripped;
        StripsAll(Replace(doc, q, n), rest, p);
      }
    }
  }

  lemma {:induction false} StripFrames(doc: Json, order: seq<Path>)
    ensures Modify(doc, (), order, StripNode()).Done? && Framed(doc, Modify(doc, (), order, StripNode()).doc, order)
    decreases |order|
  {
    if order == [] {
      FramedItself(doc, []);
    } else {
      var q, rest := order[0], order[1..];
      var node := Lookup(doc, q);
      var n := if node.Some? && node.value.Obj? then Obj(map[]) else Null;
      var doc1 := if node.None? then doc else Replace(doc, q, n);
      if node.None? { FramedItself(doc, [q]); } else { ReplaceIsFramed(doc, q, n); }
      hide Framed, Lookup, Replace;
      StripFrames(doc1, rest);
      FramedThen(doc, doc1, Modify(doc1, (), rest, StripNode()).doc, q, rest);
      assert order == [q] + rest;
    }
  }

  predicate NothingAbove(order: seq<Path>, q: Path) { forall p | p in order :: !(p < q) }

  /** What stripping makes of a node: an object is emptied, all else is nulled. */
  predicate EmptiedOrNulled(before: Option<Json>, after: Option<Json>) {
    && (after.None? <==> before.None?)
    && (after == Some(Obj(map[])) <==> before.Some? && before.value.Obj?)
    && (after == Some(Null) <==> before.Some? && !before.value.Obj?)
  }

  /** Stripping another path that is not above leaves an object an object, and a
      stripped node as it is. */
  lemma StripBeside(doc: Json, q: Path, node: Json, p: Path)
    requires Lookup(doc, q).Some? && !(q <= p)
    ensures SameHere(Lookup(Replace(doc, q, node), p), Lookup(doc, p))
    ensures IsStripped(Lookup(doc, p)) ==> Lookup(Replace(doc, q, node), p) == Lookup(doc, p)
  {
    ReplaceFrames(doc, q, node, p);
    if p <= q {
      LookupBelow(doc, p, q[|p|..]);
      assert q == p + q[|p|..] && q[|p|..] != [];
    }
  }

  lemma {:induction false} StripsTo(doc: Json, order: seq<Path>, p: Path)
    requires NothingAbove(order, p)
    requires p in order || EmptiedOrNulled(Lookup(doc, p), Lookup(doc, p))
    ensures Modify(doc, (), order, StripNode()).Done?
    ensures EmptiedOrNulled(Lookup(doc, p), Lookup(Modify(doc, (), order, StripNode()).doc, p))
    decreases |order|
  {
    if order != [] {
      var q, rest := order[0], order[1..];
      var node := Lookup(doc, q);
      assert order == [q] + rest && q in order && forall x | x in rest :: x in order;
      if node.None? {
        StripsTo(doc, rest, p);
      } else {
        var n := if node.value.Obj? then Obj(map[]) else Null;
        assert q <= p ==> q == p || q < p;
        if q == p { ReplaceFrames(doc, q, n, p); } else { StripBeside(doc, q, n, p); }
        StripsTo(Replace(doc, q, n), rest, p);
      }
    }
  }

  lemma {:induction false} NoRefs(doc: Json, order: seq<Path>)
    requires forall p | p in order :: IsStripped(Lookup(doc, p))
    ensures Refs(NodesAt(doc, order)) == []
  {
    if order != [] {
      NoRefs(doc, order[1..]);
      assert order[0] in order;
      assert NodesAt(doc, order) == [Lookup(doc, order[0])] + NodesAt(doc, order[1..]);
      RefsCons(Lookup(doc, order[0]), NodesAt(doc, order[1..]));
    }
  }

  /** For every schema, stripping empties the client's fields, leaves nothing but
      nulls and empty objects at the secret paths, an empty object exactly where an
      object was, changes nothing away from them, and leaves no reference. */
  lemma StrippedConnectorHasNoRefs(c: Connector, schema: Schema, order: seq<Path>, later: seq<Path>)
    requires Enumerates(order, SecretPathsOf(schema)) && Enumerates(later, SecretPathsOf(schema))
    ensures SecretRefs(StripSecrets(c, order), later) == []
    ensures var d := StripSecrets(c, order);
            d.clientSecret == "" && d.clientSecretRef == "" && d.spec.Some? == c.spec.Some?
    ensures c.spec.Some? ==>
              var doc := StripSecrets(c, order).spec.value;
              && Framed(c.spec.value, doc, order)
              && (forall q | IsSecretPath(schema, q) :: IsStripped(Lookup(doc, q)))
              && (forall q | IsSecretPath(schema, q) && NothingAbove(order, q) ::
                    EmptiedOrNulled(Lookup(c.spec.value, q), Lookup(doc, q)))
  {
    EnumerationHasNoDuplicates(order, SecretPathsOf(schema));
    EnumerationHasNoDuplicates(later, SecretPathsOf(schema));
    if c.spec.Some? {
      var doc := StripSecrets(c, order).spec.value;
      StripFrames(c.spec.value, order);
      forall p | p in order ensures IsStripped(Lookup(doc, p)) { StripsAll(c.spec.value, order, p); }
      forall q | IsSecretPath(schema, q) ensures IsStripped(Lookup(doc, q)) { SecretPathsAre(schema, q); }
      forall q | IsSecretPath(schema, q) && NothingAbove(order, q)
        ensures EmptiedOrNulled(Lookup(c.spec.value, q), Lookup(doc, q))
      {
        SecretPathsAre(schema, q);
        StripsTo(c.spec.value, order, q);
      }
      hide Lookup, Modify, EmptiedOrNulled, IsSecretPath;
      NoRefs(doc, later);
      CollectedRefs(doc, later);
    }
  }

  // ----- a secret below a secret

  const SECRET :=
    Schema([], "", [], [Schema(["string"], "password", [], [], []), Schema(["object"], "", [], [], [])], [])

  function WithField(name: string, s: Schema): Schema { Schema(["object"], "", [Property(name, s)], [], []) }

  /** A field is a secret in one alternative, and in the other an object with a
      secret field of its own. */
  function NestedSchema(key: string, inner: string): Schema {
    Schema([], "", [], [], [WithField(key, SECRET), WithField(key, WithField(inner, SECRET))])
  }

  lemma FieldPaths(name: string, s: Schema, q: Path)
    ensures IsSecretPath(WithField(name, s), q) <==> q != [] && q[0] == name && IsSecretPath(s, q[1..])
  {
    var f := WithField(name, s);
    assert f.properties[0] == Property(name, s);
  }

  lemma EitherPaths(a: Schema, b: Schema, q: Path)
    ensures IsSecretPath(Schema([], "", [], [], [a, b]), q) <==> IsSecretPath(a, q) || IsSecretPath(b, q)
  {
    var s := Schema([], "", [], [], [a, b]);
    assert s.anyOf[0] == a && s.anyOf[1] == b;
  }

  lemma SecretPath(q: Path)
    ensures IsSecretPath(SECRET, q) <==> q == []
  {
  }

  lemma NestedPaths(key: string, inner: string)
    ensures SecretPathsOf(NestedSchema(key, inner)) == {[key], [key, inner]}
  {
    var schema := NestedSchema(key, inner);
    hide IsSecretPath, SecretPathsOf;
    forall q ensures q in SecretPathsOf(schema) <==> q == [key] || q == [key, inner] {
      SecretPathsAre(schema, q);
      EitherPaths(WithField(key, SECRET), WithField(key, WithField(inner, SECRET)), q);
      FieldPaths(key, SECRET, q);
      FieldPaths(key, WithField(inner, SECRET), q);
      if q != [] {
        FieldPaths(inner, SECRET, q[1..]);
        SecretPath(q[1..]);
        assert q == [q[0]] + q[1..];
        if q[1..] != [] {
          SecretPath(q[1..][1..]);
          assert q[1..] == [q[1]] + q[1..][1..];
        }
      }
    }
  }

  lemma NestedIsClean(key: string, inner: string)
    ensures Clean({[key], [key, inner]}) <==> inner !in {"ref", "kind"}
  {
    var all := {[key], [key, inner]};
    assert [key] + ["ref"] == [key, "ref"] && [key] + ["kind"] == [key, "kind"];
    if inner in {"ref", "kind"} {
      assert IsKeyOf([key, inner], [key]);
    } else {
      assert [key, inner][1] == inner && [key, "ref"][1] == "ref" && [key, "kind"][1] == "kind";
      assert !IsKeyOf([key, inner], [key]);
    }
  }

  /** Such a schema is safe for every document if and only if the inner field is
      named neither `ref` nor `kind`. */
  lemma NestedSecretsAreSafeExactly(env: Env, v: Vault, key: string, inner: string)
    requires FreshIds(env, v) && env.broken == {} && !env.errorOnObject
    ensures (forall doc :: AlwaysKept(env, v, doc, SecretPathsOf(NestedSchema(key, inner))))
            <==> inner !in {"ref", "kind"}
  {
    hide AlwaysKept, SecretPathsOf, FreshIds, Clean;
    NestedPaths(key, inner);
    NestedIsClean(key, inner);
    PathsAreSafeExactly(env, v, SecretPathsOf(NestedSchema(key, inner)));
  }

  /** With `ref` inside, visiting the outer field first moves the new reference
      to the vault as if it were a secret, and no listing finds the id of the
      original string any more. */
  lemma NestedSecretsLoseAReference(env: Env, v: Vault, key: string, secret: string)
    requires FreshIds(env, v) && env.broken == {}
    ensures var doc := Obj(map[key := Str(secret)]);
            var order := [[key], [key, "ref"]];
            var o := Modify(doc, v, order, MoveNode(env));
            && Enumerates(order, SecretPathsOf(NestedSchema(key, "ref")))
            && o.Done? && env.newId(v.next) in o.st.secrets
            && o.st.secrets[env.newId(v.next)] == Entry(secret, env.owner)
            && CollectRefs(o.doc, order) == [env.newId(v.next + 1)] != [env.newId(v.next)]
  {
    NestedPaths(key, "ref");
    assert multiset([[key], [key, "ref"]]) == multiset({[key], [key, "ref"]});
    hide *;
    var id, id1 := env.newId(v.next), env.newId(v.next + 1);
    var ref, ref1 := Reference(env.kind, id), Reference(env.kind, id1);
    var v1 := AfterOne(env, v, Some(Str(secret)));
    NestedDocument(env, key, id, id1);
    MoveNodeIs(env, v, secret);
    MoveNodeIs(env, v1, id);
    var doc, doc1, doc2 := Obj(map[key := Str(secret)]), Obj(map[key := ref]), Nested(env, key, id1);
    OneKey(key, Str(secret), ref);
    ModifyOne(doc, v, [key], [[key, "ref"]], MoveNode(env), Str(secret), ref, v1);
    ModifyOne(doc1, v1, [key, "ref"], [], MoveNode(env), Str(id), ref1, AfterOne(env, v1, Some(Str(id))));
    ModifyNone(doc2, AfterOne(env, v1, Some(Str(id))), MoveNode(env));
    NestedRefs(env, key, id, id1);
    assert [[key], [key, "ref"]] == [[key]] + [[key, "ref"]] && [[key, "ref"]] == [[key, "ref"]] + [];
  }

  function Nested(env: Env, key: string, id1: string): Json {
    Obj(map[key := Obj(map["kind" := Str(env.kind), "ref" := Reference(env.kind, id1)])])
  }

  lemma MoveNodeIs(env: Env, v: Vault, secret: string)
    requires FreshIds(env, v) && env.broken == {}
    ensures var w := AfterOne(env, v, Some(Str(secret)));
            && MoveNode(env)(Str(secret), v) == Done(Reference(env.kind, env.newId(v.next)), w)
            && w.next == v.next + 1 && FreshIds(env, w) && env.newId(v.next) != env.newId(v.next + 1)
            && w.secrets == v.secrets[env.newId(v.next) := Entry(secret, env.owner)]
  {
  }

  lemma NestedDocument(env: Env, key: string, id: string, id1: string)
    ensures Lookup(Obj(map[key := Reference(env.kind, id)]), [key, "ref"]) == Some(Str(id))
    ensures Replace(Obj(map[key := Reference(env.kind, id)]), [key, "ref"], Reference(env.kind, id1))
            == Nested(env, key, id1)
  {
    TwoKeys(key, Reference(env.kind, id), "ref", Reference(env.kind, id1));
    assert Reference(env.kind, id).fields["ref" := Reference(env.kind, id1)]
           == map["kind" := Str(env.kind), "ref" := Reference(env.kind, id1)];
  }

  lemma NestedRefs(env: Env, key: string, id: string, id1: string)
    ensures CollectRefs(Nested(env, key, id1), [[key], [key, "ref"]]) == [id1]
  {
    hide Modify, Lookup, Replace;
    var doc, ref1 := Nested(env, key, id1), Reference(env.kind, id1);
    var inner := doc.fields[key];
    OneKey(key, inner, inner);
    TwoKeys(key, inner, "ref", ref1);
    assert inner.fields["ref" := ref1] == inner.fields;
    var none: seq<string> := [];
    assert none + RefOf(Some(inner)) == none && none + RefOf(Some(ref1)) == [id1];
    ModifyOne(doc, none, [key], [[key, "ref"]], CollectNode(), inner, inner, none);
    ModifyOne(doc, none, [key, "ref"], [], CollectNode(), ref1, ref1, [id1]);
    ModifyNone(doc, [id1], CollectNode());
    assert [[key], [key, "ref"]] == [[key]] + [[key, "ref"]] && [[key, "ref"]] == [[key, "ref"]] + [];
  }

  lemma OneKey(key: string, x: Json, y: Json)
    ensures Lookup(Obj(map[key := x]), [key]) == Some(x)
    ensures Replace(Obj(map[key := x]), [key], y) == Obj(map[key := y])
  {
    assert [key][1..] == [];
    assert map[key := x][key := y] == map[key := y];
  }

  lemma TwoKeys(key: string, x: Json, k: string, y: Json)
    requires x.Obj? && k in x.fields
    ensures Lookup(Obj(map[key := x]), [key, k]) == Some(x.fields[k])
    ensures Replace(Obj(map[key := x]), [key, k], y) == Obj(map[key := Obj(x.fields[k := y])])
  {
    assert [key, k][1..] == [k] && [k][1..] == [];
    var z := Obj(x.fields[k := y]);
    assert Lookup(x.fields[k], []) == Some(x.fields[k]);
    assert Lookup(x, [k]) == Some(x.fields[k]) && Replace(x, [k], y) == z;
    assert map[key := x][key := z] == map[key := z];
  }

  lemma ModifyOne<S>(doc: Json, st: S, p: Path, rest: seq<Path>, f: (Json, S) -> Outcome<S>,
                     node: Json, node1: Json, st1: S)
    requires Lookup(doc, p) == Some(node) && f(node, st) == Done(node1, st1)
    ensures Modify(doc, st, [p] + rest, f) == Modify(Replace(doc, p, node1), st1, rest, f)
  {
    assert ([p] + rest)[1..] == rest;
  }

  lemma ModifyNone<S>(doc: Json, st: S, f: (Json, S) -> Outcome<S>)
    ensures Modify(doc, st, [], f) == Done(doc, st)
  {
  }
}
