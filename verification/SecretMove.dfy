/** Moving the strings at the secret paths of a document into a vault, and
    listing the references that took their place. */
module SecretMove {
  import opened Options
  import opened SecretPaths

  datatype Entry = Entry(secret: string, owner: string)

  /** `next` counts the ids drawn so far. */
  datatype Vault = Vault(secrets: map<string, Entry>, next: nat)

  /** `newId` yields the ids; storing under an id in `broken` fails. */
  datatype Env = Env(newId: nat -> string, kind: string, owner: string, broken: set<string>, errorOnObject: bool)

  function Reference(kind: string, id: string): Json { Obj(map["kind" := Str(kind), "ref" := Str(id)]) }

  function MoveNode(env: Env): (Json, Vault) -> Outcome<Vault> {
    (node: Json, v: Vault) =>
      match node
      case Str(s) =>
        var id := env.newId(v.next);
        var drawn := v.(next := v.next + 1);
        if id in env.broken then Failed(drawn, "could not store connectors secrets in the vault")
        else Done(Reference(env.kind, id), drawn.(secrets := v.secrets[id := Entry(s, env.owner)]))
      case Null => Done(node, v)
      case _ => if env.errorOnObject then Failed(v, "secret field must be set to a string") else Done(node, v)
  }

  function RefOf(node: Option<Json>): seq<string> {
    if node.Some? && node.value.Obj? && "ref" in node.value.fields && node.value.fields["ref"].Str?
    then [node.value.fields["ref"].s] else []
  }

  function CollectNode(): (Json, seq<string>) -> Outcome<seq<string>> {
    (node: Json, refs: seq<string>) => Done(node, refs + RefOf(Some(node)))
  }

  function StripNode(): (Json, ()) -> Outcome<()> {
    (node: Json, st: ()) => Done(if node.Obj? then Obj(map[]) else Null, st)
  }

  // ----- on lists of nodes

  function Refs(nodes: seq<Option<Json>>): seq<string> {
    if nodes == [] then [] else RefOf(nodes[0]) + Refs(nodes[1..])
  }

  predicate IsString(node: Option<Json>) { node.Some? && node.value.Str? }

  function Strings(nodes: seq<Option<Json>>): nat {
    if nodes == [] then 0 else (if IsString(nodes[0]) then 1 else 0) + Strings(nodes[1..])
  }

  /** Ids are never empty or repeated, and those to come are new to the vault. */
  ghost predicate FreshIds(env: Env, v: Vault) {
    && (forall i: nat :: env.newId(i) != "")
    && (forall i: nat, j: nat :: env.newId(i) == env.newId(j) ==> i == j)
    && (forall i: nat :: i >= v.next ==> env.newId(i) !in v.secrets)
  }

  function IdsFrom(env: Env, from: nat, to: nat): seq<string>
    requires from <= to
  {
    seq(to - from, i requires 0 <= i < to - from => env.newId(from + i))
  }

  /** The id that the string at position `i` is moved to. */
  function IdAt(env: Env, v: Vault, nodes: seq<Option<Json>>, i: nat): string
    requires i < |nodes|
  {
    env.newId(v.next + Strings(nodes[..i]))
  }

  /** Each string gives way to the reference of its own id; all else stays. */
  predicate Placed(env: Env, v: Vault, nodes: seq<Option<Json>>, out: seq<Option<Json>>) {
    && |out| == |nodes|
    && (forall i | 0 <= i < |nodes| ::
          out[i] == if IsString(nodes[i]) then Some(Reference(env.kind, IdAt(env, v, nodes, i))) else nodes[i])
  }

  /** The vault gains one entry per string, under its id, and keeps what it had. */
  predicate Stored(env: Env, v: Vault, nodes: seq<Option<Json>>, w: Vault) {
    && w.next == v.next + Strings(nodes)
    && (forall i | 0 <= i < |nodes| && IsString(nodes[i]) ::
          var id := IdAt(env, v, nodes, i);
          id in w.secrets && w.secrets[id] == Entry(nodes[i].value.s, env.owner))
    && w.secrets.Keys == v.secrets.Keys + (set k | v.next <= k < w.next :: env.newId(k))
    && (forall id | id in v.secrets :: id in w.secrets && w.secrets[id] == v.secrets[id])
  }

  /** The references afterwards are those there were and the ids just drawn. */
  ghost predicate Referenced(env: Env, v: Vault, nodes: seq<Option<Json>>, w: Vault, out: seq<Option<Json>>) {
    v.next <= w.next
    && multiset(Refs(out)) == multiset(Refs(nodes)) + multiset(IdsFrom(env, v.next, w.next))
  }

  lemma StringsTail(nodes: seq<Option<Json>>, i: nat)
    requires 0 < i <= |nodes|
    ensures Strings(nodes[..i]) == (if IsString(nodes[0]) then 1 else 0) + Strings(nodes[1..][..i - 1])
  {
    assert nodes[..i][1..] == nodes[1..][..i - 1];
  }

  /** The vault after one node. */
  function AfterOne(env: Env, v: Vault, node: Option<Json>): Vault {
    if IsString(node) then Vault(v.secrets[env.newId(v.next) := Entry(node.value.s, env.owner)], v.next + 1) else v
  }

  function OutOne(env: Env, v: Vault, node: Option<Json>): Option<Json> {
    if IsString(node) then Some(Reference(env.kind, env.newId(v.next))) else node
  }

  lemma IdsShift(env: Env, v: Vault, node: Option<Json>, nodes: seq<Option<Json>>)
    ensures IdAt(env, v, [node] + nodes, 0) == env.newId(v.next)
    ensures forall i | 0 <= i < |nodes| ::
              IdAt(env, v, [node] + nodes, i + 1) == IdAt(env, AfterOne(env, v, node), nodes, i)
  {
    var all := [node] + nodes;
    assert all[1..] == nodes;
    forall i | 0 <= i < |nodes| ensures IdAt(env, v, all, i + 1) == IdAt(env, AfterOne(env, v, node), nodes, i) {
      StringsTail(all, i + 1);
    }
  }

  lemma PlacedOne(env: Env, v: Vault, node: Option<Json>, nodes: seq<Option<Json>>, out: seq<Option<Json>>)
    requires Placed(env, AfterOne(env, v, node), nodes, out)
    ensures Placed(env, v, [node] + nodes, [OutOne(env, v, node)] + out)
  {
    IdsShift(env, v, node, nodes);
  }

  lemma StoredOne(env: Env, v: Vault, node: Option<Json>, nodes: seq<Option<Json>>, w: Vault)
    requires FreshIds(env, v) && Stored(env, AfterOne(env, v, node), nodes, w)
    ensures Stored(env, v, [node] + nodes, w)
  {
    IdsShift(env, v, node, nodes);
    var all, v1 := [node] + nodes, AfterOne(env, v, node);
    assert all[1..] == nodes;
    assert env.newId(v.next) in v1.secrets || !IsString(node);
    forall i | 0 <= i < |all| && IsString(all[i])
      ensures var id := IdAt(env, v, all, i); id in w.secrets && w.secrets[id] == Entry(all[i].value.s, env.owner)
    {
      if i > 0 { assert all[i] == nodes[i - 1]; }
    }
    if IsString(node) {
      assert (set k | v.next <= k < w.next :: env.newId(k))
             == {env.newId(v.next)} + (set k | v1.next <= k < w.next :: env.newId(k));
    }
  }

  lemma ReferencedOne(env: Env, v: Vault, node: Option<Json>, nodes: seq<Option<Json>>,
                      w: Vault, out: seq<Option<Json>>)
    requires Referenced(env, AfterOne(env, v, node), nodes, w, out)
    ensures Referenced(env, v, [node] + nodes, w, [OutOne(env, v, node)] + out)
  {
    hide Refs;
    var first := OutOne(env, v, node);
    RefsCons(node, nodes);
    RefsCons(first, out);
    if IsString(node) {
      assert RefOf(first) == [env.newId(v.next)] && RefOf(node) == [];
      assert [] + Refs(nodes) == Refs(nodes);
      assert IdsFrom(env, v.next, w.next) == [env.newId(v.next)] + IdsFrom(env, v.next + 1, w.next);
      MultisetShift([env.newId(v.next)], IdsFrom(env, v.next + 1, w.next), Refs(nodes), Refs(out));
    } else {
      MultisetShift(RefOf(node), Refs(nodes), IdsFrom(env, v.next, w.next), Refs(out));
    }
  }

  lemma RefsCons(node: Option<Json>, nodes: seq<Option<Json>>)
    ensures Refs([node] + nodes) == RefOf(node) + Refs(nodes)
  {
    assert ([node] + nodes)[1..] == nodes;
  }

  lemma MultisetShift(x: seq<string>, a: seq<string>, b: seq<string>, c: seq<string>)
    requires multiset(c) == multiset(a) + multiset(b)
    ensures multiset(x + c) == multiset(x + a) + multiset(b)
  {
  }

  lemma MoveFirst(env: Env, v: Vault, nodes: seq<Option<Json>>)
    requires nodes != [] && OverNodes(nodes, v, MoveNode(env)).NodesDone?
    ensures var rest := OverNodes(nodes[1..], AfterOne(env, v, nodes[0]), MoveNode(env));
            && rest.NodesDone?
            && OverNodes(nodes, v, MoveNode(env)) == NodesDone([OutOne(env, v, nodes[0])] + rest.out, rest.st)
  {
  }

  lemma FreshIdsStay(env: Env, v: Vault, node: Option<Json>)
    requires FreshIds(env, v)
    ensures FreshIds(env, AfterOne(env, v, node))
  {
  }

  lemma {:induction false} MoveOver(env: Env, v: Vault, nodes: seq<Option<Json>>)
    requires FreshIds(env, v) && OverNodes(nodes, v, MoveNode(env)).NodesDone?
    ensures var r := OverNodes(nodes, v, MoveNode(env));
            Placed(env, v, nodes, r.out) && Stored(env, v, nodes, r.st) && Referenced(env, v, nodes, r.st, r.out)
    decreases |nodes|
  {
    if nodes == [] {
      assert IdsFrom(env, v.next, v.next) == [];
    } else {
      hide Placed, Stored, Referenced, OverNodes, FreshIds;
      var node, tail, v1 := nodes[0], nodes[1..], AfterOne(env, v, nodes[0]);
      MoveFirst(env, v, nodes);
      FreshIdsStay(env, v, node);
      MoveOver(env, v1, tail);
      var rest := OverNodes(tail, v1, MoveNode(env));
      assert nodes == [node] + tail;
      PlacedOne(env, v, node, tail, rest.out);
      StoredOne(env, v, node, tail, rest.st);
      ReferencedOne(env, v, node, tail, rest.st, rest.out);
    }
  }

  lemma {:induction false} LaterStringsDrawLaterIds(nodes: seq<Option<Json>>, i: nat, j: nat)
    requires i < j <= |nodes|
    ensures Strings(nodes[..i]) + (if IsString(nodes[i]) then 1 else 0) <= Strings(nodes[..j])
    decreases i
  {
    StringsTail(nodes, j);
    if i == 0 {
      assert nodes[..0] == [];
    } else {
      StringsTail(nodes, i);
      LaterStringsDrawLaterIds(nodes[1..], i - 1, j - 1);
    }
  }

  /** No two strings are moved to the same id. */
  lemma IdsAreDistinct(env: Env, v: Vault, nodes: seq<Option<Json>>, i: nat, j: nat)
    requires FreshIds(env, v) && i < j < |nodes| && IsString(nodes[i]) && IsString(nodes[j])
    ensures IdAt(env, v, nodes, i) != IdAt(env, v, nodes, j)
  {
    LaterStringsDrawLaterIds(nodes, i, j);
  }

  // ----- any iteration order

  lemma EnumerationHasNoDuplicates(paths: seq<Path>, all: set<Path>)
    requires Enumerates(paths, all)
    ensures NoDuplicates(paths) && forall p :: p in paths <==> p in all
  {
    forall p ensures p in paths <==> p in all { assert p in multiset(paths) <==> p in multiset(all); }
    forall i, j | 0 <= i < j < |paths| ensures paths[i] != paths[j] {
      assert paths == paths[..i] + [paths[i]] + paths[i + 1..j] + [paths[j]] + paths[j + 1..];
      assert multiset(paths)[paths[i]] <= 1;
    }
  }

  predicate NoDuplicates(paths: seq<Path>) { forall i, j | 0 <= i < j < |paths| :: paths[i] != paths[j] }

  lemma {:induction false} RefsSplit(a: seq<Option<Json>>, b: seq<Option<Json>>)
    ensures Refs(a + b) == Refs(a) + Refs(b)
    decreases |a|
  {
    if a == [] {
      assert a + b == b;
    } else {
      assert (a + b)[1..] == a[1..] + b;
      RefsSplit(a[1..], b);
    }
  }

  lemma NodesSplit(doc: Json, a: seq<Path>, b: seq<Path>)
    ensures NodesAt(doc, a + b) == NodesAt(doc, a) + NodesAt(doc, b)
  {
  }

  lemma RefsPullOut(doc: Json, l: seq<Path>, p: Path, r: seq<Path>)
    ensures multiset(Refs(NodesAt(doc, l + [p] + r)))
            == multiset(RefOf(Lookup(doc, p))) + multiset(Refs(NodesAt(doc, l + r)))
  {
    NodesSplit(doc, l + [p], r);
    NodesSplit(doc, l, [p]);
    NodesSplit(doc, l, r);
    var nl, nr := NodesAt(doc, l), NodesAt(doc, r);
    assert NodesAt(doc, [p]) == [Lookup(doc, p)];
    assert nl + [Lookup(doc, p)] + nr == nl + ([Lookup(doc, p)] + nr);
    hide Lookup, RefOf, Refs, NodesAt;
    RefsCons(Lookup(doc, p), nr);
    RefsSplit(nl, [Lookup(doc, p)] + nr);
    RefsSplit(nl, nr);
  }

  /** The references found do not depend on the order of the paths. */
  lemma {:induction false} RefsInAnyOrder(doc: Json, a: seq<Path>, b: seq<Path>)
    requires multiset(a) == multiset(b)
    ensures multiset(Refs(NodesAt(doc, a))) == multiset(Refs(NodesAt(doc, b)))
    decreases |a|
  {
    if a == [] {
      assert |multiset(b)| == 0;
      assert b == [];
    } else {
      hide Refs, NodesAt, Lookup, RefOf;
      var p, rest := a[0], a[1..];
      var l, r := TakeOut(a, b);
      RefsInAnyOrder(doc, rest, l + r);
      RefsPullOut(doc, [], p, rest);
      RefsPullOut(doc, l, p, r);
      assert a == [] + [p] + rest && [] + rest == rest;
    }
  }

  lemma PullOne<T>(l: seq<T>, p: T, r: seq<T>)
    ensures multiset(l + [p] + r) == multiset(l + r) + multiset{p}
  {
  }

  lemma CancelOne<T>(a: multiset<T>, b: multiset<T>, p: T)
    requires a + multiset{p} == b + multiset{p}
    ensures a == b
  {
    assert a == (a + multiset{p}) - multiset{p};
    assert b == (b + multiset{p}) - multiset{p};
  }

  lemma TakeOut<T>(a: seq<T>, b: seq<T>) returns (l: seq<T>, r: seq<T>)
    requires multiset(a) == multiset(b) && a != []
    ensures b == l + [a[0]] + r && multiset(a[1..]) == multiset(l + r)
  {
    assert a[0] in multiset(a);
    var j :| 0 <= j < |b| && b[j] == a[0];
    l, r := b[..j], b[j + 1..];
    assert b == l + [a[0]] + r;
    assert a == [] + [a[0]] + a[1..] && [] + a[1..] == a[1..];
    PullOne([], a[0], a[1..]);
    PullOne(l, a[0], r);
    CancelOne(multiset(a[1..]), multiset(l + r), a[0]);
  }

  function CollectRefs(doc: Json, order: seq<Path>): seq<string> { Modify(doc, [], order, CollectNode()).st }

  lemma {:induction false} ReplaceSame(doc: Json, p: Path)
    requires Lookup(doc, p).Some?
    ensures Replace(doc, p, Lookup(doc, p).value) == doc
    decreases |p|
  {
    if p != [] { ReplaceSame(doc.fields[p[0]], p[1..]); }
  }

  lemma {:induction false} CollectsFrom(doc: Json, refs: seq<string>, order: seq<Path>)
    ensures Modify(doc, refs, order, CollectNode()) == Done(doc, refs + Refs(NodesAt(doc, order)))
    decreases |order|
  {
    if order == [] {
      assert refs + [] == refs;
    } else {
      var p, rest := order[0], order[1..];
      var r := refs + RefOf(Lookup(doc, p));
      if Lookup(doc, p).Some? { ReplaceSame(doc, p); } else { assert refs + [] == refs; }
      CollectsFrom(doc, r, rest);
      assert NodesAt(doc, order) == [Lookup(doc, p)] + NodesAt(doc, rest);
      RefsCons(Lookup(doc, p), NodesAt(doc, rest));
      assert r + Refs(NodesAt(doc, rest)) == refs + Refs(NodesAt(doc, order));
    }
  }

  /** Listing returns the references at the paths, in visiting order. */
  lemma CollectedRefs(doc: Json, order: seq<Path>)
    ensures CollectRefs(doc, order) == Refs(NodesAt(doc, order))
  {
    CollectsFrom(doc, [], order);
    assert [] + Refs(NodesAt(doc, order)) == Refs(NodesAt(doc, order));
  }

  // ----- the strings of a document

  /** The paths, in order, at which the document holds a string, or all others. */
  function PathsBy(doc: Json, order: seq<Path>, strings: bool): seq<Path> {
    if order == [] then []
    else (if IsString(Lookup(doc, order[0])) == strings then [order[0]] else []) + PathsBy(doc, order[1..], strings)
  }

  lemma {:induction false} PathsByIs(doc: Json, order: seq<Path>, strings: bool)
    ensures forall p :: p in PathsBy(doc, order, strings) <==> p in order && IsString(Lookup(doc, p)) == strings
    ensures NoDuplicates(order) ==> NoDuplicates(PathsBy(doc, order, strings))
  {
    if order != [] {
      PathsByIs(doc, order[1..], strings);
      assert order == [order[0]] + order[1..];
    }
  }

  lemma PathsByStep(doc: Json, p: Path, rest: seq<Path>, strings: bool)
    ensures PathsBy(doc, [p] + rest, strings)
            == (if IsString(Lookup(doc, p)) == strings then [p] else []) + PathsBy(doc, rest, strings)
  {
    assert ([p] + rest)[0] == p && ([p] + rest)[1..] == rest;
  }

  lemma ConsSplit<T>(x: T, rest: seq<T>, a: seq<T>, b: seq<T>)
    requires multiset(rest) == multiset(a + b)
    ensures multiset([x] + rest) == multiset(([x] + a) + ([] + b)) == multiset(([] + a) + ([x] + b))
  {
    assert multiset([x] + rest) == multiset{x} + multiset(a) + multiset(b);
    assert [] + a == a && [] + b == b;
  }

  lemma {:induction false} PathsBySplit(doc: Json, order: seq<Path>)
    ensures multiset(order) == multiset(PathsBy(doc, order, true) + PathsBy(doc, order, false))
  {
    if order != [] {
      var p, rest := order[0], order[1..];
      PathsBySplit(doc, rest);
      hide PathsBy;
      assert order == [p] + rest;
      PathsByStep(doc, p, rest, true);
      PathsByStep(doc, p, rest, false);
      ConsSplit(p, rest, PathsBy(doc, rest, true), PathsBy(doc, rest, false));
    }
  }

  lemma {:induction false} SamePathsBy(doc: Json, doc1: Json, order: seq<Path>, strings: bool)
    requires forall p | p in order :: IsString(Lookup(doc, p)) == IsString(Lookup(doc1, p))
    ensures PathsBy(doc, order, strings) == PathsBy(doc1, order, strings)
  {
    if order != [] { SamePathsBy(doc, doc1, order[1..], strings); }
  }

  lemma {:induction false} LookupBelow(doc: Json, p: Path, r: Path)
    ensures Lookup(doc, p + r) == if Lookup(doc, p).None? then None else Lookup(Lookup(doc, p).value, r)
    decreases |p|
  {
    if p == [] {
      assert p + r == r;
    } else {
      assert (p + r)[1..] == p[1..] + r;
      if doc.Obj? && p[0] in doc.fields { LookupBelow(doc.fields[p[0]], p[1..], r); }
    }
  }

  /** Nothing lies below a string. */
  lemma BelowAString(doc: Json, p: Path, q: Path)
    requires IsString(Lookup(doc, p)) && p <= q && p != q
    ensures Lookup(doc, q).None?
  {
    LookupBelow(doc, p, q[|p|..]);
    assert q == p + q[|p|..] && q[|p|..] != [];
  }

  lemma StringPathsArePrefixFree(doc: Json, order: seq<Path>)
    requires NoDuplicates(order)
    ensures PrefixFree(PathsBy(doc, order, true))
  {
    PathsByIs(doc, order, true);
    var s := PathsBy(doc, order, true);
    forall i, j | 0 <= i < |s| && 0 <= j < |s| && i != j ensures !(s[i] <= s[j]) {
      assert s[i] in s && s[j] in s && s[i] != s[j];
      if s[i] <= s[j] { BelowAString(doc, s[i], s[j]); }
    }
  }

  /** A reference holds strings at its two keys and nothing else. */
  lemma BelowAReference(kind: string, id: string, r: Path)
    requires r != []
    ensures Lookup(Reference(kind, id), r) ==
            if r == ["ref"] then Some(Str(id)) else if r == ["kind"] then Some(Str(kind)) else None
  {
    if |r| == 1 {
      assert r == [r[0]] && r[1..] == [];
    } else {
      assert r[1..] != [];
    }
  }

  // ----- what a move does when no path of a string has a key of its reference below it

  predicate IsKeyOf(q: Path, p: Path) { q == p + ["ref"] || q == p + ["kind"] }

  predicate StringClash(doc: Json, order: seq<Path>) {
    exists p, q | p in order && q in order :: IsString(Lookup(doc, p)) && IsKeyOf(q, p)
  }

  /** Moving one string makes no other path a string or a string no longer. */
  lemma OneMoveKeepsTheStrings(doc: Json, p: Path, kind: string, id: string, q: Path)
    requires IsString(Lookup(doc, p)) && q != p && !IsKeyOf(q, p)
    ensures var d := Replace(doc, p, Reference(kind, id));
            && IsString(Lookup(d, q)) == IsString(Lookup(doc, q))
            && (IsString(Lookup(doc, q)) ==> Lookup(d, q) == Lookup(doc, q))
  {
    var d := Replace(doc, p, Reference(kind, id));
    ReplaceFrames(doc, p, Reference(kind, id), q);
    if p <= q {
      BelowAString(doc, p, q);
      var r := q[|p|..];
      assert q == p + r;
      LookupBelow(d, p, r);
      BelowAReference(kind, id, r);
    }
  }

  lemma MoveStep(env: Env, v: Vault, doc: Json, p: Path, rest: seq<Path>)
    ensures var node := Lookup(doc, p);
            Modify(doc, v, [p] + rest, MoveNode(env)) ==
            if !IsString(node) then
              if node.None? || node.value.Null? || !env.errorOnObject then Modify(doc, v, rest, MoveNode(env))
              else Failed(v, "secret field must be set to a string")
            else if env.newId(v.next) in env.broken then
              Failed(v.(next := v.next + 1), "could not store connectors secrets in the vault")
            else
              var doc1 := Replace(doc, p, Reference(env.kind, env.newId(v.next)));
              Modify(doc1, AfterOne(env, v, node), rest, MoveNode(env))
  {
    ModifyStep(doc, v, p, rest, MoveNode(env));
    if Lookup(doc, p).Some? { ReplaceSame(doc, p); }
    hide Modify, Lookup, Replace;
  }

  lemma ModifyStep<S>(doc: Json, st: S, p: Path, rest: seq<Path>, f: (Json, S) -> Outcome<S>)
    ensures var node := Lookup(doc, p);
            Modify(doc, st, [p] + rest, f) ==
            if node.None? then Modify(doc, st, rest, f)
            else var o := f(node.value, st); if o.Failed? then o else Modify(Replace(doc, p, o.doc), o.st, rest, f)
  {
    hide Lookup, Replace;
    assert ([p] + rest)[0] == p && ([p] + rest)[1..] == rest;
  }

  /** Only the strings of the original document matter to the move. */
  lemma {:induction false} MoveIsOverStrings(env: Env, v: Vault, doc: Json, order: seq<Path>)
    requires NoDuplicates(order) && !StringClash(doc, order) && Modify(doc, v, order, MoveNode(env)).Done?
    ensures Modify(doc, v, PathsBy(doc, order, true), MoveNode(env)) == Modify(doc, v, order, MoveNode(env))
    decreases |order|
  {
    if order == [] { return; }
    var p, rest := order[0], order[1..];
    assert order == [p] + rest;
    assert forall q | q in rest :: q in order && q != p;
    hide Modify, PathsBy, Lookup, Replace, MoveNode, Reference;
    MoveStep(env, v, doc, p, rest);
    PathsByStep(doc, p, rest, true);
    if IsString(Lookup(doc, p)) {
      var id := env.newId(v.next);
      var doc1 := Replace(doc, p, Reference(env.kind, id));
      forall q | q in rest
        ensures IsString(Lookup(doc1, q)) == IsString(Lookup(doc, q))
      {
        OneMoveKeepsTheStrings(doc, p, env.kind, id, q);
      }
      SamePathsBy(doc, doc1, rest, true);
      MoveIsOverStrings(env, AfterOne(env, v, Lookup(doc, p)), doc1, rest);
      MoveStep(env, v, doc, p, PathsBy(doc, rest, true));
    } else {
      assert [] + PathsBy(doc, rest, true) == PathsBy(doc, rest, true);
      MoveIsOverStrings(env, v, doc, rest);
    }
  }

  /** An object at a path has a string `ref` at another path: moving that string
      takes away a reference that could be listed before. */
  predicate HidesRef(doc: Json, order: seq<Path>, p: Path) {
    RefOf(Lookup(doc, p)) != [] && p + ["ref"] in order
  }

  predicate RefClash(doc: Json, order: seq<Path>) { exists p | p in order :: HidesRef(doc, order, p) }

  /** `doc1` is `doc` with references at some paths that held strings. */
  ghost predicate Referred(doc: Json, doc1: Json, kind: string, moved: seq<Path>) {
    && Framed(doc, doc1, moved)
    && (forall p | p in moved :: IsString(Lookup(doc, p)) && exists id :: Lookup(doc1, p) == Some(Reference(kind, id)))
  }

  lemma RefIsBelow(doc: Json, p: Path)
    ensures RefOf(Lookup(doc, p)) == var q := Lookup(doc, p + ["ref"]); if IsString(q) then [q.value.s] else []
  {
    LookupBelow(doc, p, ["ref"]);
    if Lookup(doc, p).Some? {
      var node := Lookup(doc, p).value;
      assert ["ref"][1..] == [];
      assert Lookup(node, ["ref"]) == if node.Obj? && "ref" in node.fields then Some(node.fields["ref"]) else None;
    }
  }

  /** At or below a moved string lies its reference; elsewhere nothing has changed. */
  lemma LookupReferred(doc: Json, doc1: Json, kind: string, moved: seq<Path>, q: Path)
    requires Referred(doc, doc1, kind, moved)
    ensures (forall m | m in moved :: !(m <= q)) ==> SameHere(Lookup(doc1, q), Lookup(doc, q))
    ensures q in moved ==> Lookup(doc1, q).Some? && Lookup(doc1, q).value.Obj?
    ensures forall m | m in moved && m <= q && m != q ::
              Lookup(doc, q).None? && (Lookup(doc1, q).Some? ==> IsKeyOf(q, m))
  {
    if forall m | m in moved :: !(m <= q) {
      forall i | 0 <= i < |moved| ensures !(moved[i] <= q) { assert moved[i] in moved; }
      assert SameHere(Lookup(doc1, q), Lookup(doc, q));
    }
    hide Framed, Lookup;
    if q in moved {
      var id :| Lookup(doc1, q) == Some(Reference(kind, id));
    }
    forall m | m in moved && m <= q && m != q
      ensures Lookup(doc, q).None? && (Lookup(doc1, q).Some? ==> IsKeyOf(q, m))
    {
      BelowAString(doc, m, q);
      var r := q[|m|..];
      assert q == m + r && r != [];
      var id :| Lookup(doc1, m) == Some(Reference(kind, id));
      LookupBelow(doc1, m, r);
      BelowAReference(kind, id, r);
    }
  }

  lemma LastKey(p: Path, q: Path)
    requires p <= q + ["ref"] && p != q + ["ref"]
    ensures p <= q && !(p != q && IsKeyOf(q + ["ref"], p))
  {
    assert (q + ["ref"])[..|q|] == q;
    if |p| == |q| { assert p == (q + ["ref"])[..|q|]; }
  }

  /** A path that held no string lists what it did, unless its `ref` was moved. */
  lemma OtherRefs(doc: Json, doc1: Json, kind: string, order: seq<Path>, p: Path)
    requires var moved := PathsBy(doc, order, true); Referred(doc, doc1, kind, moved)
    requires !StringClash(doc, order) && p in order && !IsString(Lookup(doc, p))
    ensures RefOf(Lookup(doc1, p)) == if HidesRef(doc, order, p) then [] else RefOf(Lookup(doc, p))
  {
    var moved := PathsBy(doc, order, true);
    PathsByIs(doc, order, true);
    var q := p + ["ref"];
    RefIsBelow(doc, p);
    RefIsBelow(doc1, p);
    LookupReferred(doc, doc1, kind, moved, q);
    hide Lookup, Framed, Referred, PathsBy, RefOf;
    if q !in moved {
      if m :| m in moved && m <= q {
        LastKey(m, p);
        assert m != p;
      }
    }
  }

  /** What a successful move of a document's secrets is for. No string is left at
      a secret path; nothing changes but at and below the paths that held one;
      every string is in the vault under an id of its own, which its path now
      refers to; and the references that can be listed are those that could be
      before and exactly the new ids. */
  ghost predicate Kept(env: Env, v: Vault, doc: Json, order: seq<Path>, later: seq<Path>, doc1: Json, w: Vault) {
    var moved := PathsBy(doc, order, true);
    var nodes := NodesAt(doc, moved);
    && (forall p | p in order :: !IsString(Lookup(doc1, p)))
    && Framed(doc, doc1, moved)
    && Placed(env, v, nodes, NodesAt(doc1, moved)) && Stored(env, v, nodes, w)
    && v.next <= w.next
    && multiset(CollectRefs(doc1, later)) == multiset(CollectRefs(doc, later)) + multiset(IdsFrom(env, v.next, w.next))
  }

  /** The same, but for the references: each path in `others` lists what is left of it. */
  lemma StringsMove(env: Env, v: Vault, doc: Json, order: seq<Path>)
    requires FreshIds(env, v) && NoDuplicates(order) && !StringClash(doc, order)
    requires Modify(doc, v, order, MoveNode(env)).Done?
    ensures var o := Modify(doc, v, order, MoveNode(env));
            var moved := PathsBy(doc, order, true);
            var nodes := NodesAt(doc, moved);
            && Framed(doc, o.doc, moved)
            && Placed(env, v, nodes, NodesAt(o.doc, moved)) && Stored(env, v, nodes, o.st)
            && Referenced(env, v, nodes, o.st, NodesAt(o.doc, moved))
            && Referred(doc, o.doc, env.kind, moved)
  {
    var o := Modify(doc, v, order, MoveNode(env));
    var moved := PathsBy(doc, order, true);
    var nodes := NodesAt(doc, moved);
    MoveIsOverStrings(env, v, doc, order);
    StringPathsArePrefixFree(doc, order);
    ModifyIsOverNodes(doc, v, moved, MoveNode(env));
    MoveOver(env, v, nodes);
    PathsByIs(doc, order, true);
    hide Framed, Stored, Referenced;
    forall p | p in moved
      ensures IsString(Lookup(doc, p)) && exists id :: Lookup(o.doc, p) == Some(Reference(env.kind, id))
    {
      var i :| 0 <= i < |moved| && moved[i] == p;
      assert nodes[i] == Lookup(doc, p) && NodesAt(o.doc, moved)[i] == Lookup(o.doc, p);
      assert Lookup(o.doc, p) == Some(Reference(env.kind, IdAt(env, v, nodes, i)));
    }
  }

  /** Without a clash no string is left, whatever the order. */
  lemma NoStringLeft(doc: Json, doc1: Json, kind: string, order: seq<Path>, p: Path)
    requires Referred(doc, doc1, kind, PathsBy(doc, order, true)) && !StringClash(doc, order) && p in order
    ensures !IsString(Lookup(doc1, p))
  {
    var moved := PathsBy(doc, order, true);
    PathsByIs(doc, order, true);
    LookupReferred(doc, doc1, kind, moved, p);
    hide Lookup, Framed, Referred, PathsBy;
    if m :| m in moved && m <= p && m != p {
      assert IsString(Lookup(doc, m)) && !IsKeyOf(p, m);
    }
  }

  lemma RefsStep(doc: Json, p: Path, rest: seq<Path>)
    ensures Refs(NodesAt(doc, [p] + rest)) == RefOf(Lookup(doc, p)) + Refs(NodesAt(doc, rest))
  {
    hide Lookup, RefOf;
    assert NodesAt(doc, [p] + rest) == [Lookup(doc, p)] + NodesAt(doc, rest);
    RefsCons(Lookup(doc, p), NodesAt(doc, rest));
  }

  lemma {:induction false} SameRefs(doc: Json, doc1: Json, paths: seq<Path>)
    requires forall p | p in paths :: RefOf(Lookup(doc1, p)) == RefOf(Lookup(doc, p))
    ensures Refs(NodesAt(doc1, paths)) == Refs(NodesAt(doc, paths))
    decreases |paths|
  {
    hide Lookup, RefOf;
    if paths != [] {
      var p, rest := paths[0], paths[1..];
      assert paths == [p] + rest;
      SameRefs(doc, doc1, rest);
      hide Refs, NodesAt;
      RefsStep(doc, p, rest);
      RefsStep(doc1, p, rest);
      assert p in paths;
    }
  }

  lemma {:induction false} FewerRefs(doc: Json, doc1: Json, paths: seq<Path>)
    requires forall p | p in paths :: RefOf(Lookup(doc1, p)) == RefOf(Lookup(doc, p)) || RefOf(Lookup(doc1, p)) == []
    ensures |Refs(NodesAt(doc1, paths))| <= |Refs(NodesAt(doc, paths))|
    ensures (exists p | p in paths :: RefOf(Lookup(doc1, p)) != RefOf(Lookup(doc, p))) ==>
              |Refs(NodesAt(doc1, paths))| < |Refs(NodesAt(doc, paths))|
    decreases |paths|
  {
    hide Lookup, RefOf;
    if paths != [] {
      var p, rest := paths[0], paths[1..];
      assert paths == [p] + rest;
      FewerRefs(doc, doc1, rest);
      hide Refs, NodesAt;
      RefsStep(doc, p, rest);
      RefsStep(doc1, p, rest);
      assert p in paths;
    }
  }

  lemma RefsInTwoParts(doc: Json, doc1: Json, order: seq<Path>, later: seq<Path>)
    requires multiset(order) == multiset(later)
    ensures multiset(CollectRefs(doc1, later))
            == multiset(Refs(NodesAt(doc1, PathsBy(doc, order, true))))
               + multiset(Refs(NodesAt(doc1, PathsBy(doc, order, false))))
  {
    var a, b := PathsBy(doc, order, true), PathsBy(doc, order, false);
    CollectedRefs(doc1, later);
    PathsBySplit(doc, order);
    RefsInAnyOrder(doc1, later, a + b);
    NodesSplit(doc1, a, b);
    RefsSplit(NodesAt(doc1, a), NodesAt(doc1, b));
  }

  /** The paths that held no string list as many references as before exactly if
      none of them has lost its own. */
  lemma OtherRefsCount(doc: Json, doc1: Json, kind: string, order: seq<Path>)
    requires Referred(doc, doc1, kind, PathsBy(doc, order, true)) && !StringClash(doc, order)
    ensures var a, b := Refs(NodesAt(doc, PathsBy(doc, order, false))), Refs(NodesAt(doc1, PathsBy(doc, order, false)));
            if RefClash(doc, order) then |b| < |a| else b == a
  {
    var others := PathsBy(doc, order, false);
    PathsByIs(doc, order, false);
    hide Referred, PathsBy, Refs, NodesAt, StringClash;
    forall p | p in others
      ensures RefOf(Lookup(doc1, p)) == if HidesRef(doc, order, p) then [] else RefOf(Lookup(doc, p))
    {
      OtherRefs(doc, doc1, kind, order, p);
    }
    if p :| p in order && HidesRef(doc, order, p) {
      assert p in others && RefOf(Lookup(doc1, p)) != RefOf(Lookup(doc, p));
      FewerRefs(doc, doc1, others);
    } else {
      SameRefs(doc, doc1, others);
    }
  }

  /** Without a clash of strings, the move keeps all it should if and only if it
      hides no reference. */
  lemma KeptExactly(env: Env, v: Vault, doc: Json, order: seq<Path>, later: seq<Path>)
    requires FreshIds(env, v) && NoDuplicates(order) && multiset(order) == multiset(later) && !StringClash(doc, order)
    requires Modify(doc, v, order, MoveNode(env)).Done?
    ensures var o := Modify(doc, v, order, MoveNode(env));
            Kept(env, v, doc, order, later, o.doc, o.st) <==> !RefClash(doc, order)
  {
    hide Modify, PathsBy, Lookup, Refs, NodesAt, Framed, Placed, Stored, Referred;
    hide StringClash, RefClash, CollectRefs, NoDuplicates;
    var o := Modify(doc, v, order, MoveNode(env));
    var moved, others := PathsBy(doc, order, true), PathsBy(doc, order, false);
    StringsMove(env, v, doc, order);
    OtherRefsCount(doc, o.doc, env.kind, order);
    forall p | p in order ensures !IsString(Lookup(o.doc, p)) { NoStringLeft(doc, o.doc, env.kind, order, p); }
    RefsInTwoParts(doc, o.doc, order, later);
    RefsInTwoParts(doc, doc, order, later);
    CountRefs(multiset(Refs(NodesAt(o.doc, moved))), multiset(Refs(NodesAt(doc, moved))),
              Refs(NodesAt(o.doc, others)), Refs(NodesAt(doc, others)), multiset(IdsFrom(env, v.next, o.st.next)));
  }

  lemma CountRefs(a1: multiset<string>, a: multiset<string>, b1: seq<string>, b: seq<string>, ids: multiset<string>)
    requires a1 == a + ids
    ensures b1 == b ==> a1 + multiset(b1) == (a + multiset(b)) + ids
    ensures |b1| < |b| ==> a1 + multiset(b1) != (a + multiset(b)) + ids
  {
    assert |a1 + multiset(b1)| == |a| + |ids| + |b1|;
    assert |(a + multiset(b)) + ids| == |a| + |ids| + |b|;
  }

  // ----- when there is a clash

  lemma {:induction false} ModifyAppend<S>(doc: Json, st: S, a: seq<Path>, b: seq<Path>, f: (Json, S) -> Outcome<S>)
    ensures Modify(doc, st, a + b, f)
            == var o := Modify(doc, st, a, f); if o.Failed? then o else Modify(o.doc, o.st, b, f)
    decreases |a|
  {
    if a == [] {
      assert a + b == b;
    } else {
      assert (a + b)[0] == a[0] && (a + b)[1..] == a[1..] + b;
      var node := Lookup(doc, a[0]);
      if node.None? {
        ModifyAppend(doc, st, a[1..], b, f);
      } else {
        var o := f(node.value, st);
        if o.Done? { ModifyAppend(Replace(doc, a[0], o.doc), o.st, a[1..], b, f); }
      }
    }
  }

  /** A string stays until its own path is visited. */
  lemma {:induction false} UnvisitedStringStays(env: Env, v: Vault, doc: Json, order: seq<Path>, p: Path)
    requires p !in order && IsString(Lookup(doc, p)) && Modify(doc, v, order, MoveNode(env)).Done?
    ensures Lookup(Modify(doc, v, order, MoveNode(env)).doc, p) == Lookup(doc, p)
    decreases |order|
  {
    if order != [] {
      var q, rest := order[0], order[1..];
      var node := Lookup(doc, q);
      assert q in order && forall x | x in rest :: x in order;
      if IsString(node) {
        var ref := Reference(env.kind, env.newId(v.next));
        ReplaceFrames(doc, q, ref, p);
        if q <= p { BelowAString(doc, q, p); } else if p <= q { BelowAString(doc, p, q); }
        UnvisitedStringStays(env, AfterOne(env, v, node), Replace(doc, q, ref), rest, p);
      } else {
        if node.Some? { ReplaceSame(doc, q); }
        UnvisitedStringStays(env, v, doc, rest, p);
      }
    }
  }

  /** Visited last, a string whose reference has a key at a secret path leaves a
      string there. */
  lemma ClashLeavesAString(env: Env, v: Vault, doc: Json, others: seq<Path>, p: Path, q: Path)
    requires p !in others && IsString(Lookup(doc, p)) && IsKeyOf(q, p)
    requires Modify(doc, v, others + [p], MoveNode(env)).Done?
    ensures IsString(Lookup(Modify(doc, v, others + [p], MoveNode(env)).doc, q))
  {
    ModifyAppend(doc, v, others, [p], MoveNode(env));
    UnvisitedStringStays(env, v, doc, others, p);
    var o := Modify(doc, v, others, MoveNode(env));
    var ref := Reference(env.kind, env.newId(o.st.next));
    assert [p][1..] == [];
    var d := Replace(o.doc, p, ref);
    assert Modify(o.doc, o.st, [p], MoveNode(env)).doc == d;
    ReplaceFrames(o.doc, p, ref, p);
    var r := q[|p|..];
    assert q == p + r;
    LookupBelow(d, p, r);
    BelowAReference(env.kind, env.newId(o.st.next), r);
  }

  /** Nothing at the paths that an `errorOnObject` move rejects. */
  predicate AcceptableAt(doc: Json, p: Path) {
    var node := Lookup(doc, p); node.None? || node.value.Null? || node.value.Str?
  }

  lemma StaysAcceptable(doc: Json, p: Path, kind: string, id: string, q: Path)
    requires IsString(Lookup(doc, p)) && AcceptableAt(doc, q) && q != p
    ensures AcceptableAt(Replace(doc, p, Reference(kind, id)), q)
  {
    var d := Replace(doc, p, Reference(kind, id));
    ReplaceFrames(doc, p, Reference(kind, id), q);
    if p <= q {
      var r := q[|p|..];
      assert q == p + r && (r == [] ==> q == p);
      LookupBelow(d, p, r);
      BelowAReference(kind, id, r);
    }
  }

  lemma {:induction false} MoveSucceeds(env: Env, v: Vault, doc: Json, order: seq<Path>)
    requires env.broken == {} && NoDuplicates(order)
    requires (env.errorOnObject ==> forall p | p in order :: AcceptableAt(doc, p))
    ensures Modify(doc, v, order, MoveNode(env)).Done?
    decreases |order|
  {
    if order == [] { return; }
    var p, rest := order[0], order[1..];
    assert p in order && forall q | q in rest :: q in order && q != p;
    assert order == [p] + rest && (env.errorOnObject ==> AcceptableAt(doc, p));
    MoveStep(env, v, doc, p, rest);
    hide Modify, Lookup, Replace, MoveNode, Reference;
    if IsString(Lookup(doc, p)) {
      var doc1 := Replace(doc, p, Reference(env.kind, env.newId(v.next)));
      forall q | env.errorOnObject && q in rest ensures AcceptableAt(doc1, q) {
        StaysAcceptable(doc, p, env.kind, env.newId(v.next), q);
      }
      hide AcceptableAt;
      MoveSucceeds(env, AfterOne(env, v, Lookup(doc, p)), doc1, rest);
    } else {
      MoveSucceeds(env, v, doc, rest);
    }
  }

  /** A move fails at the first node that it cannot store or does not accept, after
      all before it were moved; drawing the id of a string is not undone. */
  lemma {:induction false} MoveFailsAt(env: Env, v: Vault, doc: Json, order: seq<Path>)
    returns (i: nat, at: Json, before: Vault)
    requires Modify(doc, v, order, MoveNode(env)).Failed?
    ensures i < |order| && Modify(doc, v, order[..i], MoveNode(env)) == Done(at, before)
    ensures var w := Modify(doc, v, order, MoveNode(env)).st;
            var node := Lookup(at, order[i]);
            && node.Some? && !node.value.Null?
            && if node.value.Str? then env.newId(before.next) in env.broken && w == before.(next := before.next + 1)
               else env.errorOnObject && w == before
    decreases |order|
  {
    var node := Lookup(doc, order[0]);
    var o := if node.None? then Done(doc, v) else MoveNode(env)(node.value, v);
    if o.Failed? {
      i, at, before := 0, doc, v;
    } else {
      var doc1 := if node.None? then doc else Replace(doc, order[0], o.doc);
      i, at, before := MoveFailsAt(env, o.st, doc1, order[1..]);
      assert order[..i + 1][0] == order[0] && order[..i + 1][1..] == order[1..][..i];
      i := i + 1;
    }
  }

  lemma {:induction false} SomeOrder(all: set<Path>) returns (order: seq<Path>)
    ensures Enumerates(order, all)
    decreases |all|
  {
    if all == {} {
      order := [];
    } else {
      var p :| p in all;
      var rest := SomeOrder(all - {p});
      order := rest + [p];
      assert all == (all - {p}) + {p};
    }
  }

  predicate Clash(doc: Json, all: set<Path>) {
    || (exists p, q | p in all && q in all :: IsString(Lookup(doc, p)) && IsKeyOf(q, p))
    || (exists p | p in all :: RefOf(Lookup(doc, p)) != [] && p + ["ref"] in all)
  }

  /** Every move of the document, in any order and listed in any order, succeeds
      and keeps what it should. */
  ghost predicate AlwaysKept(env: Env, v: Vault, doc: Json, all: set<Path>) {
    forall order, later | Enumerates(order, all) && Enumerates(later, all) ::
      var o := Modify(doc, v, order, MoveNode(env)); o.Done? && Kept(env, v, doc, order, later, o.doc, o.st)
  }

  /** A successful move of a document without a clash keeps what it should. */
  lemma DocumentSecretsMove(env: Env, v: Vault, doc: Json, all: set<Path>, order: seq<Path>, later: seq<Path>)
    requires FreshIds(env, v) && !Clash(doc, all) && Enumerates(order, all) && Enumerates(later, all)
    requires Modify(doc, v, order, MoveNode(env)).Done?
    ensures var o := Modify(doc, v, order, MoveNode(env)); Kept(env, v, doc, order, later, o.doc, o.st)
  {
    EnumerationHasNoDuplicates(order, all);
    assert !StringClash(doc, order) && !RefClash(doc, order);
    KeptExactly(env, v, doc, order, later);
  }

  lemma RefClashIsSeen(env: Env, v: Vault, doc: Json, all: set<Path>, p: Path)
    requires FreshIds(env, v) && env.broken == {}
    requires env.errorOnObject ==> forall p | p in all :: AcceptableAt(doc, p)
    requires forall p, q | p in all && q in all :: !(IsString(Lookup(doc, p)) && IsKeyOf(q, p))
    requires p in all && RefOf(Lookup(doc, p)) != [] && p + ["ref"] in all
    ensures !AlwaysKept(env, v, doc, all)
  {
    hide Modify, Lookup, Kept, Enumerates, AcceptableAt, MoveNode, NoDuplicates, FreshIds, RefOf;
    var order := SomeOrder(all);
    EnumerationHasNoDuplicates(order, all);
    MoveSucceeds(env, v, doc, order);
    assert HidesRef(doc, order, p);
    KeptExactly(env, v, doc, order, order);
  }

  /** Exactly the documents without a clash are always moved as they should be. */
  lemma AlwaysKeptExactly(env: Env, v: Vault, doc: Json, all: set<Path>)
    requires FreshIds(env, v) && env.broken == {}
    requires env.errorOnObject ==> forall p | p in all :: AcceptableAt(doc, p)
    ensures AlwaysKept(env, v, doc, all) <==> !Clash(doc, all)
  {
    if !Clash(doc, all) {
      hide Modify, Kept, Enumerates, Clash, FreshIds;
      forall order, later | Enumerates(order, all) && Enumerates(later, all)
        ensures var o := Modify(doc, v, order, MoveNode(env)); o.Done? && Kept(env, v, doc, order, later, o.doc, o.st)
      {
        EnumerationHasNoDuplicates(order, all);
        MoveSucceeds(env, v, doc, order);
        DocumentSecretsMove(env, v, doc, all, order, later);
      }
    } else if p, q :| p in all && q in all && IsString(Lookup(doc, p)) && IsKeyOf(q, p) {
      StringClashIsSeen(env, v, doc, all, p, q);
    } else {
      var p :| p in all && RefOf(Lookup(doc, p)) != [] && p + ["ref"] in all;
      RefClashIsSeen(env, v, doc, all, p);
    }
  }

  lemma LastOrder(all: set<Path>, p: Path) returns (others: seq<Path>)
    requires p in all
    ensures p !in others && Enumerates(others + [p], all)
  {
    others := SomeOrder(all - {p});
    EnumerationHasNoDuplicates(others, all - {p});
    assert all == (all - {p}) + {p};
  }

  lemma StringClashIsSeen(env: Env, v: Vault, doc: Json, all: set<Path>, p: Path, q: Path)
    requires env.broken == {} && p in all && q in all && IsString(Lookup(doc, p)) && IsKeyOf(q, p)
    requires env.errorOnObject ==> forall p | p in all :: AcceptableAt(doc, p)
    ensures !AlwaysKept(env, v, doc, all)
  {
    hide Modify, Lookup, Kept, Enumerates, AcceptableAt, MoveNode, NoDuplicates;
    var others := LastOrder(all, p);
    var order := others + [p];
    EnumerationHasNoDuplicates(order, all);
    MoveSucceeds(env, v, doc, order);
    ClashLeavesAString(env, v, doc, others, p, q);
    var o := Modify(doc, v, order, MoveNode(env));
    AStringIsLeft(env, v, doc, order, order, o.doc, o.st, q);
  }

  lemma AStringIsLeft(env: Env, v: Vault, doc: Json, order: seq<Path>, later: seq<Path>, doc1: Json, w: Vault, q: Path)
    requires q in order && IsString(Lookup(doc1, q))
    ensures !Kept(env, v, doc, order, later, doc1, w)
  {
    hide Framed, Placed, Stored, CollectRefs;
  }

  // ----- which paths are safe for all documents

  /** No path is another one followed by a key of a reference. */
  predicate Clean(all: set<Path>) { forall p, q | p in all && q in all :: !IsKeyOf(q, p) }

  /** Paths of which none lies above another are such. */
  lemma PrefixFreeIsClean(all: set<Path>)
    requires forall p, q | p in all && q in all && p != q :: !(p <= q)
    ensures Clean(all)
  {
    forall p, q | p in all && q in all ensures !IsKeyOf(q, p) {
      assert p <= p + ["ref"] && p <= p + ["kind"] && p != p + ["ref"] && p != p + ["kind"];
    }
  }

  /** A document with one node, at `p`. */
  function Only(p: Path, node: Json): Json { if p == [] then node else Obj(map[p[0] := Only(p[1..], node)]) }

  lemma {:induction false} OnlyHolds(p: Path, node: Json)
    ensures Lookup(Only(p, node), p) == Some(node)
  {
    if p != [] { OnlyHolds(p[1..], node); }
  }

  /** Moves that accept objects keep what they should in every document if and
      only if no secret path is another one followed by `ref` or `kind`. */
  lemma PathsAreSafeExactly(env: Env, v: Vault, all: set<Path>)
    requires FreshIds(env, v) && env.broken == {} && !env.errorOnObject
    ensures (forall doc :: AlwaysKept(env, v, doc, all)) <==> Clean(all)
  {
    if Clean(all) {
      forall doc ensures AlwaysKept(env, v, doc, all) {
        assert !Clash(doc, all) by {
          assert forall p :: IsKeyOf(p + ["ref"], p);
        }
        AlwaysKeptExactly(env, v, doc, all);
      }
    } else {
      var p, q :| p in all && q in all && IsKeyOf(q, p);
      var doc := Only(p, Str("secret"));
      OnlyHolds(p, Str("secret"));
      AlwaysKeptExactly(env, v, doc, all);
      assert !AlwaysKept(env, v, doc, all);
    }
  }

  /** Moves that reject objects also bear such a pair of paths if a third lies
      above it, since then the outer one cannot hold a string. */
  lemma PathsAreSafeForStrictMovesExactly(env: Env, v: Vault, all: set<Path>)
    requires FreshIds(env, v) && env.broken == {} && env.errorOnObject
    ensures (forall doc | (forall p | p in all :: AcceptableAt(doc, p)) :: AlwaysKept(env, v, doc, all))
            <==> forall p, q | p in all && q in all && IsKeyOf(q, p) :: exists a | a in all :: a < p
  {
    if forall p, q | p in all && q in all && IsKeyOf(q, p) :: exists a | a in all :: a < p {
      forall doc | forall p | p in all :: AcceptableAt(doc, p) ensures AlwaysKept(env, v, doc, all) {
        assert !Clash(doc, all) by { AcceptableHasNoClash(doc, all); }
        AlwaysKeptExactly(env, v, doc, all);
      }
    } else {
      var p, q :| p in all && q in all && IsKeyOf(q, p) && !exists a | a in all :: a < p;
      var doc := Only(p, Str("secret"));
      OnlyHolds(p, Str("secret"));
      forall a | a in all ensures AcceptableAt(doc, a) { OnlyHoldsElsewhere(p, "secret", a); }
      AlwaysKeptExactly(env, v, doc, all);
      assert !AlwaysKept(env, v, doc, all);
    }
  }

  lemma AcceptableHasNoClash(doc: Json, all: set<Path>)
    requires forall p | p in all :: AcceptableAt(doc, p)
    requires forall p, q | p in all && q in all && IsKeyOf(q, p) :: exists a | a in all :: a < p
    ensures !Clash(doc, all)
  {
    forall p, q | p in all && q in all && IsKeyOf(q, p) ensures !IsString(Lookup(doc, p)) {
      var a :| a in all && a < p;
      LookupBelow(doc, a, p[|a|..]);
      assert p == a + p[|a|..];
    }
  }

  lemma {:induction false} OnlyHoldsElsewhere(p: Path, s: string, a: Path)
    requires !(a < p)
    ensures AcceptableAt(Only(p, Str(s)), a)
    decreases |p|
  {
    if p != [] && a != [] && a[0] == p[0] {
      assert a[1..] < p[1..] ==> a < p;
      OnlyHoldsElsewhere(p[1..], s, a[1..]);
    }
  }
}
