/** Finding the secret fields of a connector schema, and rewriting the nodes of
    a document that those fields name. */
module SecretPaths {
  import opened Options

  type Path = seq<string>

  // ----- schemas

  datatype Schema = Schema(types: seq<string>, format: string, properties: seq<Property>,
                           oneOf: seq<Schema>, anyOf: seq<Schema>)

  datatype Property = Property(name: string, schema: Schema)

  predicate IsTypeAndFormat(s: Schema, t: string, format: string) {
    s.format == format && s.types == [t]
  }

  /** A secret is one of a password string and an object, in either order. */
  predicate IsSecret(s: Schema) {
    && |s.oneOf| == 2
    && ((IsTypeAndFormat(s.oneOf[0], "string", "password") && IsTypeAndFormat(s.oneOf[1], "object", ""))
        || (IsTypeAndFormat(s.oneOf[1], "string", "password") && IsTypeAndFormat(s.oneOf[0], "object", "")))
  }

  /** Of the two alternatives one has the type `string` with the format `password`
      and the other the type `object` with no format; which comes first is the same. */
  lemma SecretEitherWay(s: Schema)
    ensures IsSecret(s) <==>
            multiset(seq(|s.oneOf|, i requires 0 <= i < |s.oneOf| => (s.oneOf[i].types, s.oneOf[i].format)))
            == multiset{(["string"], "password"), (["object"], "")}
  {
    var kinds := seq(|s.oneOf|, i requires 0 <= i < |s.oneOf| => (s.oneOf[i].types, s.oneOf[i].format));
    var password, plain := (["string"], "password"), (["object"], "");
    assert password != plain by { assert password.1 != plain.1; }
    assert |multiset{password, plain}| == 2 && |multiset(kinds)| == |kinds|;
    if |kinds| == 2 {
      assert kinds == [kinds[0], kinds[1]];
      assert multiset(kinds) == multiset{kinds[0], kinds[1]};
      if multiset(kinds) == multiset{password, plain} {
        assert password in multiset(kinds) && plain in multiset(kinds);
      }
    }
  }

  /** The walk, which adds what it finds below `p` to `results`. */
  function FindPaths(s: Schema, p: Path, results: set<Path>): set<Path>
    decreases s, 1
  {
    if IsSecret(s) then results + {p}
    else
      var r := FindInProperties(s.properties, p, results);
      var r := FindInAll(s.oneOf, p, r);
      FindInAll(s.anyOf, p, r)
  }

  function FindInProperties(props: seq<Property>, p: Path, results: set<Path>): set<Path>
    decreases props, 0
  {
    if props == [] then results
    else FindInProperties(props[1..], p, FindPaths(props[0].schema, p + [props[0].name], results))
  }

  function FindInAll(ss: seq<Schema>, p: Path, results: set<Path>): set<Path>
    decreases ss, 0
  {
    if ss == [] then results else FindInAll(ss[1..], p, FindPaths(ss[0], p, results))
  }

  /** The secret paths of a schema, read off without any walk: alternatives use
      no key, properties use one, and nothing is looked for below a secret. */
  predicate IsSecretPath(s: Schema, q: Path)
    decreases s
  {
    if IsSecret(s) then q == []
    else
      || (exists i | 0 <= i < |s.properties| ::
            q != [] && s.properties[i].name == q[0] && IsSecretPath(s.properties[i].schema, q[1..]))
      || (exists i | 0 <= i < |s.oneOf| :: IsSecretPath(s.oneOf[i], q))
      || (exists i | 0 <= i < |s.anyOf| :: IsSecretPath(s.anyOf[i], q))
  }

  ghost predicate Adds(before: set<Path>, after: set<Path>, p: Path, found: Path -> bool) {
    forall q :: q in after <==> q in before || (p <= q && found(q[|p|..]))
  }

  /** The walk finds exactly the secret paths, in whatever order it visits the
      properties, and keeps what it was given. */
  lemma {:induction false} FindsExactlyTheSecretPaths(s: Schema, p: Path, results: set<Path>)
    ensures Adds(results, FindPaths(s, p, results), p, q => IsSecretPath(s, q))
    decreases s, 1
  {
    if IsSecret(s) {
      forall q ensures q == p <==> p <= q && q[|p|..] == [] { assert p <= q && q[|p|..] == [] ==> q == p + q[|p|..]; }
    } else {
      var r1 := FindInProperties(s.properties, p, results);
      var r2 := FindInAll(s.oneOf, p, r1);
      FindsInProperties(s.properties, p, results);
      FindsInAll(s.oneOf, p, r1);
      FindsInAll(s.anyOf, p, r2);
    }
  }

  predicate SecretInProperties(props: seq<Property>, q: Path) {
    exists i | 0 <= i < |props| :: q != [] && props[i].name == q[0] && IsSecretPath(props[i].schema, q[1..])
  }

  predicate SecretInAll(ss: seq<Schema>, q: Path) { exists i | 0 <= i < |ss| :: IsSecretPath(ss[i], q) }

  lemma {:induction false} FindsInAll(ss: seq<Schema>, p: Path, results: set<Path>)
    ensures Adds(results, FindInAll(ss, p, results), p, q => SecretInAll(ss, q))
    decreases ss, 0
  {
    if ss != [] {
      var r := FindPaths(ss[0], p, results);
      FindsExactlyTheSecretPaths(ss[0], p, results);
      FindsInAll(ss[1..], p, r);
      forall q ensures SecretInAll(ss, q) <==> IsSecretPath(ss[0], q) || SecretInAll(ss[1..], q) {
        assert ss == [ss[0]] + ss[1..];
      }
    }
  }

  lemma {:induction false} FindsInProperties(props: seq<Property>, p: Path, results: set<Path>)
    ensures Adds(results, FindInProperties(props, p, results), p, q => SecretInProperties(props, q))
    decreases props, 0
  {
    if props != [] {
      var name := props[0].name;
      var r := FindPaths(props[0].schema, p + [name], results);
      FindsExactlyTheSecretPaths(props[0].schema, p + [name], results);
      FindsInProperties(props[1..], p, r);
      forall q
        ensures q in FindInProperties(props, p, results)
                <==> q in results || (p <= q && SecretInProperties(props, q[|p|..]))
      {
        assert props == [props[0]] + props[1..];
        if p <= q && q[|p|..] != [] {
          assert p + [name] <= q <==> q[|p|..][0] == name;
          assert q[|p|..][1..] == q[|p + [name]|..];
        }
      }
    }
  }

  function SecretPathsOf(schema: Schema): set<Path> { FindPaths(schema, [], {}) }

  lemma SecretPathsAre(schema: Schema, q: Path)
    ensures q in SecretPathsOf(schema) <==> IsSecretPath(schema, q)
  {
    FindsExactlyTheSecretPaths(schema, [], {});
    assert [] <= q && q[0..] == q;
  }

  /** `paths` lists the members of `all` once each, in some order. */
  ghost predicate Enumerates(paths: seq<Path>, all: set<Path>) { multiset(paths) == multiset(all) }

  /** The secret paths once each, in the order that iterating over a map happens to have. */
  method PathsToPasswordFields(schema: Schema) returns (result: seq<Path>)
    ensures Enumerates(result, SecretPathsOf(schema))
  {
    var paths := SecretPathsOf(schema);
    ghost var all := paths;
    result := [];
    while paths != {}
      invariant multiset(result) + multiset(paths) == multiset(all)
      decreases |paths|
    {
      var p :| p in paths;
      assert paths == (paths - {p}) + {p};
      paths := paths - {p};
      result := result + [p];
    }
  }

  // ----- documents

  datatype Json = Null | Bool(b: bool) | Number(n: int) | Str(s: string)
                | Arr(items: seq<Json>) | Obj(fields: map<string, Json>)

  function Lookup(doc: Json, p: Path): Option<Json>
    decreases |p|
  {
    if p == [] then Some(doc)
    else if doc.Obj? && p[0] in doc.fields then Lookup(doc.fields[p[0]], p[1..])
    else None
  }

  function Replace(doc: Json, p: Path, node: Json): Json
    requires Lookup(doc, p).Some?
    decreases |p|
  {
    if p == [] then node
    else doc.(fields := doc.fields[p[0] := Replace(doc.fields[p[0]], p[1..], node)])
  }

  /** Equal, but for what lies below: two objects with the same keys will do. */
  predicate SameHere(a: Option<Json>, b: Option<Json>) {
    a == b || (a.Some? && b.Some? && a.value.Obj? && b.value.Obj? && a.value.fields.Keys == b.value.fields.Keys)
  }

  lemma {:induction false} ReplaceFrames(doc: Json, p: Path, node: Json, q: Path)
    requires Lookup(doc, p).Some?
    ensures Lookup(Replace(doc, p, node), p) == Some(node)
    ensures !(p <= q) && !(q <= p) ==> Lookup(Replace(doc, p, node), q) == Lookup(doc, q)
    ensures !(p <= q) ==> SameHere(Lookup(Replace(doc, p, node), q), Lookup(doc, q))
    decreases |p|
  {
    if p != [] {
      ReplaceFrames(doc.fields[p[0]], p[1..], node, if q == [] then [] else q[1..]);
      if q != [] && p[0] == q[0] {
        assert p[1..] <= q[1..] <==> p <= q;
        assert q[1..] <= p[1..] <==> q <= p;
      }
    }
  }

  // ----- modifying the nodes at some paths

  /** A callback on one node, threading some state; on failure the state stays. */
  datatype Outcome<S> = Done(doc: Json, st: S) | Failed(st: S, error: string)

  function Modify<S>(doc: Json, st: S, paths: seq<Path>, f: (Json, S) -> Outcome<S>): Outcome<S>
    decreases |paths|
  {
    if paths == [] then Done(doc, st)
    else
      var node := Lookup(doc, paths[0]);
      if node.None? then Modify(doc, st, paths[1..], f)
      else
        var o := f(node.value, st);
        if o.Failed? then o
        else Modify(Replace(doc, paths[0], o.doc), o.st, paths[1..], f)
  }

  /** Runs the callback over the nodes at the secret paths of the schema, in some order. */
  method ModifySecrets<S>(schema: Schema, doc: Json, st: S, f: (Json, S) -> Outcome<S>)
    returns (o: Outcome<S>, ghost order: seq<Path>)
    ensures Enumerates(order, SecretPathsOf(schema)) && o == Modify(doc, st, order, f)
    ensures exists p :: Enumerates(p, SecretPathsOf(schema)) && o == Modify(doc, st, p, f)
  {
    var paths := PathsToPasswordFields(schema);
    order := paths;
    o := Done(doc, st);
    for i := 0 to |paths|
      invariant o.Done? && Modify(doc, st, paths, f) == Modify(o.doc, o.st, paths[i..], f)
    {
      assert paths[i..][1..] == paths[i + 1..];
      var root := o.doc;
      var node := Lookup(root, paths[i]);
      if node.Some? {
        o := f(node.value, o.st);
        if o.Failed? {
          return;
        }
        o := Done(Replace(root, paths[i], o.doc), o.st);
      }
    }
  }

  predicate PrefixFree(paths: seq<Path>) {
    forall i, j | 0 <= i < |paths| && 0 <= j < |paths| && i != j :: !(paths[i] <= paths[j])
  }

  /** The callback on a plain list of nodes, some of them absent. */
  datatype Nodes<S> = NodesDone(out: seq<Option<Json>>, st: S) | NodesFailed(st: S, error: string)

  function OverNodes<S>(nodes: seq<Option<Json>>, st: S, f: (Json, S) -> Outcome<S>): (r: Nodes<S>)
    ensures r.NodesDone? ==> |r.out| == |nodes|
    decreases |nodes|
  {
    if nodes == [] then NodesDone([], st)
    else
      var o := if nodes[0].None? then Done(Null, st) else f(nodes[0].value, st);
      if o.Failed? then NodesFailed(o.st, o.error)
      else
        var rest := OverNodes(nodes[1..], o.st, f);
        if rest.NodesFailed? then rest
        else NodesDone([if nodes[0].None? then None else Some(o.doc)] + rest.out, rest.st)
  }

  function NodesAt(doc: Json, paths: seq<Path>): seq<Option<Json>> {
    seq(|paths|, i requires 0 <= i < |paths| => Lookup(doc, paths[i]))
  }

  /** `q` lies neither above nor below any of the paths. */
  predicate Apart(paths: seq<Path>, q: Path) {
    forall i | 0 <= i < |paths| :: !(paths[i] <= q) && !(q <= paths[i])
  }

  /** Away from the given paths and everything below them nothing changes. */
  ghost predicate Framed(doc: Json, doc': Json, paths: seq<Path>) {
    forall q ::
      && (Apart(paths, q) ==> Lookup(doc', q) == Lookup(doc, q))
      && ((forall i | 0 <= i < |paths| :: !(paths[i] <= q)) ==> SameHere(Lookup(doc', q), Lookup(doc, q)))
  }

  lemma FramedThen(doc: Json, doc1: Json, doc2: Json, p: Path, rest: seq<Path>)
    requires Framed(doc, doc1, [p]) && Framed(doc1, doc2, rest)
    ensures Framed(doc, doc2, [p] + rest)
  {
    forall q
      ensures Apart([p] + rest, q) ==> Lookup(doc2, q) == Lookup(doc, q)
      ensures (forall i | 0 <= i < |[p] + rest| :: !(([p] + rest)[i] <= q))
              ==> SameHere(Lookup(doc2, q), Lookup(doc, q))
    {
      assert ([p] + rest)[0] == p;
      assert forall i | 0 <= i < |rest| :: ([p] + rest)[i + 1] == rest[i];
      assert Apart([p] + rest, q) ==> Apart([p], q) && Apart(rest, q);
    }
  }

  lemma ReplaceIsFramed(doc: Json, p: Path, node: Json)
    requires Lookup(doc, p).Some?
    ensures Framed(doc, Replace(doc, p, node), [p])
  {
    forall q
      ensures Apart([p], q) ==> Lookup(Replace(doc, p, node), q) == Lookup(doc, q)
      ensures (forall i | 0 <= i < |[p]| :: !([p][i] <= q))
              ==> SameHere(Lookup(Replace(doc, p, node), q), Lookup(doc, q))
    {
      ReplaceFrames(doc, p, node, q);
      assert [p][0] == p;
    }
  }

  /** The outcome on a document is that on its nodes at the paths. */
  ghost predicate Mirrors<S>(o: Outcome<S>, n: Nodes<S>, doc: Json, paths: seq<Path>) {
    && o.st == n.st && o.Done? == n.NodesDone? && (o.Failed? ==> o.error == n.error)
    && (o.Done? ==> NodesAt(o.doc, paths) == n.out && Framed(doc, o.doc, paths))
  }

  lemma MirrorsThen<S>(doc: Json, doc1: Json, p: Path, rest: seq<Path>, o: Outcome<S>, n: Nodes<S>)
    requires Framed(doc, doc1, [p]) && Apart(rest, p) && Mirrors(o, n, doc1, rest)
    ensures Mirrors(o, if n.NodesFailed? then n else NodesDone([Lookup(doc1, p)] + n.out, n.st), doc, [p] + rest)
  {
    hide Framed, Lookup;
    if o.Done? {
      FramedThen(doc, doc1, o.doc, p, rest);
      UnchangedWhereApart(doc1, o.doc, rest, p);
      assert NodesAt(o.doc, [p] + rest) == [Lookup(o.doc, p)] + NodesAt(o.doc, rest);
    }
  }

  lemma UnchangedWhereApart(doc: Json, doc1: Json, paths: seq<Path>, q: Path)
    requires Framed(doc, doc1, paths) && Apart(paths, q)
    ensures Lookup(doc1, q) == Lookup(doc, q)
  {
  }

  lemma NodesAway(doc: Json, doc1: Json, p: Path, rest: seq<Path>)
    requires Framed(doc, doc1, [p]) && Apart(rest, p)
    ensures NodesAt(doc1, rest) == NodesAt(doc, rest)
  {
    forall i | 0 <= i < |rest| ensures Lookup(doc1, rest[i]) == Lookup(doc, rest[i]) {
      assert Apart([p], rest[i]);
    }
  }

  /** On prefix-free paths the rewriting is the callback on the original nodes,
      one after the other, each result in its place and all else as it was. */
  lemma {:induction false} ModifyIsOverNodes<S>(doc: Json, st: S, paths: seq<Path>, f: (Json, S) -> Outcome<S>)
    requires PrefixFree(paths)
    ensures Mirrors(Modify(doc, st, paths, f), OverNodes(NodesAt(doc, paths), st, f), doc, paths)
    decreases |paths|
  {
    if paths != [] {
      var p, rest := paths[0], paths[1..];
      var node := Lookup(doc, p);
      assert NodesAt(doc, paths)[1..] == NodesAt(doc, rest);
      assert Apart(rest, p) && paths == [p] + rest;
      hide Framed, Mirrors, Lookup;
      var doc1, st1 := doc, st;
      if node.Some? {
        var one := f(node.value, st);
        if one.Failed? {
          assert Mirrors(one, NodesFailed(one.st, one.error), doc, paths) by { FailureMirrors(one, doc, paths); }
          return;
        }
        doc1, st1 := Replace(doc, p, one.doc), one.st;
        ReplaceFrames(doc, p, one.doc, []);
        ReplaceIsFramed(doc, p, one.doc);
      } else {
        assert Framed(doc, doc, [p]) by { FramedItself(doc, [p]); }
      }
      NodesAway(doc, doc1, p, rest);
      ModifyIsOverNodes(doc1, st1, rest, f);
      MirrorsThen(doc, doc1, p, rest, Modify(doc1, st1, rest, f), OverNodes(NodesAt(doc1, rest), st1, f));
    } else {
      FramedItself(doc, []);
    }
  }

  lemma FramedItself(doc: Json, paths: seq<Path>)
    ensures Framed(doc, doc, paths)
  {
  }

  lemma FailureMirrors<S>(o: Outcome<S>, doc: Json, paths: seq<Path>)
    requires o.Failed?
    ensures Mirrors(o, NodesFailed(o.st, o.error), doc, paths)
  {
  }
}
