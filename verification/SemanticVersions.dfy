/** Comparison of semantic versions: the precedence of section 11 of Semantic
    Versioning 2.0.0, extended by the build metadata of section 10. */
module SemanticVersions {

  datatype PreRelease = Numeric(n: nat) | AlphaNumeric(s: string)

  datatype Version = Version(major: nat, minor: nat, patch: nat, pre: seq<PreRelease>, build: seq<string>)

  // ----- three-way comparisons

  ghost predicate Signed<T(!new)>(cmp: (T, T) -> int) {
    forall a, b :: cmp(a, b) in {-1, 0, 1} && cmp(a, b) == -cmp(b, a)
  }

  ghost predicate Transitive<T(!new)>(cmp: (T, T) -> int) {
    forall a, b, c :: cmp(a, b) <= 0 && cmp(b, c) <= 0 ==> cmp(a, c) <= 0
  }

  /** Any two values compare, the other way round with the opposite sign, and
      not-greater is transitive. */
  ghost predicate TotalPreorder<T(!new)>(cmp: (T, T) -> int) { Signed(cmp) && Transitive(cmp) }

  /** A strict step anywhere makes the whole chain strict. */
  lemma StrictChain<T(!new)>(cmp: (T, T) -> int, a: T, b: T, c: T)
    requires TotalPreorder(cmp) && cmp(a, b) <= 0 && cmp(b, c) <= 0 && (cmp(a, b) < 0 || cmp(b, c) < 0)
    ensures cmp(a, c) < 0
  {
    assert cmp(c, a) == -cmp(a, c) && cmp(c, b) == -cmp(b, c) && cmp(b, a) == -cmp(a, b);
    assert cmp(c, a) <= 0 && cmp(a, b) <= 0 ==> cmp(c, b) <= 0;
  }

  function CompareInts(a: int, b: int): int { if a < b then -1 else if a > b then 1 else 0 }

  /** Element by element; of two lists that agree, the longer one is greater. */
  function CompareLists<T>(a: seq<T>, b: seq<T>, cmp: (T, T) -> int): int
    decreases |a|
  {
    if a == [] || b == [] then CompareInts(|a|, |b|)
    else if cmp(a[0], b[0]) != 0 then cmp(a[0], b[0])
    else CompareLists(a[1..], b[1..], cmp)
  }

  lemma {:induction false} ListsSigned<T(!new)>(cmp: (T, T) -> int, a: seq<T>, b: seq<T>)
    requires Signed(cmp)
    ensures CompareLists(a, b, cmp) in {-1, 0, 1} && CompareLists(a, b, cmp) == -CompareLists(b, a, cmp)
    decreases |a|
  {
    if a != [] && b != [] {
      assert cmp(a[0], b[0]) == -cmp(b[0], a[0]);
      ListsSigned(cmp, a[1..], b[1..]);
    }
  }

  lemma {:induction false} ListsTransitive<T(!new)>(cmp: (T, T) -> int, a: seq<T>, b: seq<T>, c: seq<T>)
    requires TotalPreorder(cmp) && CompareLists(a, b, cmp) <= 0 && CompareLists(b, c, cmp) <= 0
    ensures CompareLists(a, c, cmp) <= 0
    decreases |a|
  {
    if a != [] && b != [] && c != [] {
      var x, y, z := a[0], b[0], c[0];
      assert cmp(x, y) <= 0 && cmp(y, z) <= 0;
      if cmp(x, y) < 0 || cmp(y, z) < 0 {
        StrictChain(cmp, x, y, z);
      } else {
        assert cmp(z, y) <= 0 && cmp(y, x) <= 0;
        assert cmp(x, z) <= 0 && cmp(z, x) <= 0;
        ListsTransitive(cmp, a[1..], b[1..], c[1..]);
      }
    }
  }

  lemma ListsTotalPreorder<T(!new)>(cmp: (T, T) -> int)
    requires TotalPreorder(cmp)
    ensures TotalPreorder((a: seq<T>, b: seq<T>) => CompareLists(a, b, cmp))
  {
    forall a: seq<T>, b: seq<T>
      ensures CompareLists(a, b, cmp) in {-1, 0, 1} && CompareLists(a, b, cmp) == -CompareLists(b, a, cmp)
    {
      ListsSigned(cmp, a, b);
    }
    forall a: seq<T>, b: seq<T>, c: seq<T> | CompareLists(a, b, cmp) <= 0 && CompareLists(b, c, cmp) <= 0
      ensures CompareLists(a, c, cmp) <= 0
    {
      ListsTransitive(cmp, a, b, c);
    }
  }

  // ----- versions

  function CompareChars(a: char, b: char): int { CompareInts(a as int, b as int) }

  function CompareStrings(a: string, b: string): int { CompareLists(a, b, CompareChars) }

  function ComparePreReleases(a: PreRelease, b: PreRelease): int {
    match (a, b)
    case (Numeric(m), Numeric(n)) => CompareInts(m, n)
    case (Numeric(_), AlphaNumeric(_)) => -1
    case (AlphaNumeric(_), Numeric(_)) => 1
    case (AlphaNumeric(s), AlphaNumeric(t)) => CompareStrings(s, t)
  }

  /** A version without a pre-release is greater than one with. */
  function ComparePre(a: seq<PreRelease>, b: seq<PreRelease>): int {
    if a == [] && b == [] then 0
    else if a == [] then 1
    else if b == [] then -1
    else CompareLists(a, b, ComparePreReleases)
  }

  function Join(parts: seq<string>, sep: string): string {
    if parts == [] then "" else if |parts| == 1 then parts[0] else parts[0] + sep + Join(parts[1..], sep)
  }

  function Precedence(a: Version, b: Version): int {
    if a.major != b.major then CompareInts(a.major, b.major)
    else if a.minor != b.minor then CompareInts(a.minor, b.minor)
    else if a.patch != b.patch then CompareInts(a.patch, b.patch)
    else ComparePre(a.pre, b.pre)
  }

  function CompareBuildAware(a: Version, b: Version): int {
    var res := Precedence(a, b);
    if res != 0 then res else CompareStrings(Join(a.build, "."), Join(b.build, "."))
  }

  function CompareMajorMinor(a: Version, b: Version): int {
    if a.major < b.major then -1
    else if a.major > b.major then 1
    else if a.minor == b.minor then 0
    else if a.minor > b.minor then 1
    else -1
  }

  /** A later criterion that decides between values the first holds equal. */
  lemma ThenTotalPreorder<T(!new)>(f: (T, T) -> int, g: (T, T) -> int)
    requires TotalPreorder(f) && TotalPreorder(g)
    ensures TotalPreorder((a: T, b: T) => if f(a, b) != 0 then f(a, b) else g(a, b))
  {
    var h := (a: T, b: T) => if f(a, b) != 0 then f(a, b) else g(a, b);
    forall a, b, c | h(a, b) <= 0 && h(b, c) <= 0 ensures h(a, c) <= 0 {
      if f(a, b) < 0 || f(b, c) < 0 {
        StrictChain(f, a, b, c);
      } else {
        assert f(c, b) <= 0 && f(b, a) <= 0 && f(c, a) <= 0 && f(a, c) <= 0;
      }
    }
  }

  lemma PreReleasesTotalPreorder()
    ensures TotalPreorder(ComparePreReleases) && TotalPreorder(CompareStrings)
  {
    ListsTotalPreorder(CompareChars);
    var strings := (a: string, b: string) => CompareLists(a, b, CompareChars);
    forall a, b, c ensures
      && CompareStrings(a, b) in {-1, 0, 1} && CompareStrings(a, b) == -CompareStrings(b, a)
      && (CompareStrings(a, b) <= 0 && CompareStrings(b, c) <= 0 ==> CompareStrings(a, c) <= 0)
    {
      assert CompareStrings(a, b) == strings(a, b) && CompareStrings(b, a) == strings(b, a);
      assert CompareStrings(b, c) == strings(b, c) && CompareStrings(a, c) == strings(a, c);
    }
    forall a, b
      ensures ComparePreReleases(a, b) in {-1, 0, 1} && ComparePreReleases(a, b) == -ComparePreReleases(b, a)
    {
    }
    forall a, b, c | ComparePreReleases(a, b) <= 0 && ComparePreReleases(b, c) <= 0
      ensures ComparePreReleases(a, c) <= 0
    {
    }
  }

  lemma PreTotalPreorder()
    ensures TotalPreorder(ComparePre)
  {
    PreReleasesTotalPreorder();
    forall a, b ensures ComparePre(a, b) in {-1, 0, 1} && ComparePre(a, b) == -ComparePre(b, a) {
      ListsSigned(ComparePreReleases, a, b);
    }
    forall a, b, c | ComparePre(a, b) <= 0 && ComparePre(b, c) <= 0 ensures ComparePre(a, c) <= 0 {
      if a != [] && b != [] && c != [] { ListsTransitive(ComparePreReleases, a, b, c); }
    }
  }

  /** The build-aware comparison is a total preorder. */
  lemma BuildAwareTotalPreorder()
    ensures TotalPreorder(CompareBuildAware)
  {
    PreTotalPreorder();
    PreReleasesTotalPreorder();
    hide ComparePre, CompareStrings;
    forall a, b ensures Precedence(a, b) in {-1, 0, 1} && Precedence(a, b) == -Precedence(b, a) {
      assert ComparePre(a.pre, b.pre) == -ComparePre(b.pre, a.pre);
    }
    forall a, b, c | Precedence(a, b) <= 0 && Precedence(b, c) <= 0 ensures Precedence(a, c) <= 0 {
      assert ComparePre(a.pre, b.pre) <= 0 && ComparePre(b.pre, c.pre) <= 0 ==> ComparePre(a.pre, c.pre) <= 0;
    }
    assert TotalPreorder(Precedence);
    var build := (a: Version, b: Version) => CompareStrings(Join(a.build, "."), Join(b.build, "."));
    assert TotalPreorder(build);
    ThenTotalPreorder(Precedence, build);
    var both := (a: Version, b: Version) => if Precedence(a, b) != 0 then Precedence(a, b) else build(a, b);
    hide Precedence;
    forall a, b ensures CompareBuildAware(a, b) == both(a, b) {}
    assert Signed(CompareBuildAware);
    assert Transitive(CompareBuildAware);
  }

  /** It agrees with every major/minor comparison that tells two versions apart. */
  lemma BuildAwareAgreesWithMajorMinor(a: Version, b: Version)
    requires CompareMajorMinor(a, b) != 0
    ensures CompareBuildAware(a, b) == CompareMajorMinor(a, b)
  {
  }
}
