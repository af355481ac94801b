/** The order of versions said on their fields, without the comparisons. */
module VersionPrecedence {
  import opened Options
  import opened SemanticVersions
  import opened VersionSort

  /** `a` comes first: at the first place where the two differ it has the smaller
      element, or it ends there. */
  ghost predicate ComesFirst<T>(a: seq<T>, b: seq<T>, less: (T, T) -> bool) {
    exists i | 0 <= i <= |a| && i <= |b| ::
      && a[..i] == b[..i]
      && (if i == |a| then i < |b| else i < |b| && less(a[i], b[i]))
  }

  ghost predicate Decides<T(!new)>(cmp: (T, T) -> int, less: (T, T) -> bool) {
    forall x, y ::
      && cmp(x, y) in {-1, 0, 1}
      && (cmp(x, y) == 0 <==> x == y)
      && (cmp(x, y) == -1 <==> less(x, y))
  }

  lemma {:induction false} ListsByFirstDifference<T(!new)>(a: seq<T>, b: seq<T>, cmp: (T, T) -> int,
                                                           less: (T, T) -> bool)
    requires Decides(cmp, less)
    ensures CompareLists(a, b, cmp) in {-1, 0, 1}
    ensures CompareLists(a, b, cmp) == 0 <==> a == b
    ensures CompareLists(a, b, cmp) == -1 <==> ComesFirst(a, b, less)
    decreases |a|
  {
    if a == [] || b == [] {
      if a == [] && b != [] { assert a[..0] == b[..0]; }
    } else {
      assert cmp(a[0], b[0]) in {-1, 0, 1};
      if a[0] == b[0] {
        ListsByFirstDifference(a[1..], b[1..], cmp, less);
        FirstOfTails(a, b, less);
        assert a == [a[0]] + a[1..] && b == [b[0]] + b[1..];
      } else {
        assert a[..0] == b[..0];
        forall i | 0 < i <= |a| && i <= |b| ensures a[..i] != b[..i] {
          assert a[..i][0] == a[0] && b[..i][0] == b[0];
        }
      }
    }
  }

  lemma FirstOfTails<T>(a: seq<T>, b: seq<T>, less: (T, T) -> bool)
    requires a != [] && b != [] && a[0] == b[0] && !less(a[0], b[0])
    ensures ComesFirst(a, b, less) <==> ComesFirst(a[1..], b[1..], less)
  {
    var c, d := a[1..], b[1..];
    if ComesFirst(a, b, less) {
      var i :| 0 <= i <= |a| && i <= |b| && a[..i] == b[..i]
               && (if i == |a| then i < |b| else i < |b| && less(a[i], b[i]));
      assert i > 0;
      assert c[..i - 1] == a[..i][1..] && d[..i - 1] == b[..i][1..];
    }
    if ComesFirst(c, d, less) {
      var i :| 0 <= i <= |c| && i <= |d| && c[..i] == d[..i]
               && (if i == |c| then i < |d| else i < |d| && less(c[i], d[i]));
      assert a[..i + 1] == [a[0]] + c[..i] && b[..i + 1] == [b[0]] + d[..i];
    }
  }

  // ----- strings, identifiers, versions

  ghost predicate StringBelow(s: string, t: string) { ComesFirst(s, t, (x: char, y: char) => x < y) }

  /** Numbers as numbers, strings as strings, and any number below any string. */
  ghost predicate IdentifierBelow(a: PreRelease, b: PreRelease) {
    match (a, b)
    case (Numeric(m), Numeric(n)) => m < n
    case (Numeric(_), AlphaNumeric(_)) => true
    case (AlphaNumeric(_), Numeric(_)) => false
    case (AlphaNumeric(s), AlphaNumeric(t)) => StringBelow(s, t)
  }

  /** A pre-release is below its release; two are decided by their identifiers. */
  ghost predicate PreBelow(a: seq<PreRelease>, b: seq<PreRelease>) {
    a != [] && (b == [] || ComesFirst(a, b, (x, y) => IdentifierBelow(x, y)))
  }

  ghost predicate Below(a: Version, b: Version) {
    || a.major < b.major
    || (a.major == b.major && a.minor < b.minor)
    || (a.major == b.major && a.minor == b.minor && a.patch < b.patch)
    || (a.major == b.major && a.minor == b.minor && a.patch == b.patch && PreBelow(a.pre, b.pre))
    || (SameButBuild(a, b) && StringBelow(Join(a.build, "."), Join(b.build, ".")))
  }

  predicate SameButBuild(a: Version, b: Version) {
    a.major == b.major && a.minor == b.minor && a.patch == b.patch && a.pre == b.pre
  }

  lemma StringsCompare(s: string, t: string)
    ensures CompareStrings(s, t) in {-1, 0, 1}
    ensures CompareStrings(s, t) == 0 <==> s == t
    ensures CompareStrings(s, t) == -1 <==> StringBelow(s, t)
  {
    ListsByFirstDifference(s, t, CompareChars, (x: char, y: char) => x < y);
  }

  lemma PreReleasesCompare(a: seq<PreRelease>, b: seq<PreRelease>)
    ensures ComparePre(a, b) in {-1, 0, 1}
    ensures ComparePre(a, b) == 0 <==> a == b
    ensures ComparePre(a, b) == -1 <==> PreBelow(a, b)
  {
    var less := (x, y) => IdentifierBelow(x, y);
    forall x, y ensures
      && ComparePreReleases(x, y) in {-1, 0, 1}
      && (ComparePreReleases(x, y) == 0 <==> x == y)
      && (ComparePreReleases(x, y) == -1 <==> less(x, y))
    {
      if x.AlphaNumeric? && y.AlphaNumeric? { StringsCompare(x.s, y.s); }
    }
    ListsByFirstDifference(a, b, ComparePreReleases, less);
  }

  /** The build-aware comparison is the order of the fields: -1 exactly below, 0
      exactly when all fields agree, the build read as one dotted string. */
  lemma ComparesByFields(a: Version, b: Version)
    ensures CompareBuildAware(a, b) == -1 <==> Below(a, b)
    ensures CompareBuildAware(a, b) == 1 <==> Below(b, a)
    ensures CompareBuildAware(a, b) == 0 <==> SameButBuild(a, b) && Join(a.build, ".") == Join(b.build, ".")
  {
    ComparesOneWay(a, b);
    ComparesOneWay(b, a);
    BuildAwareTotalPreorder();
    assert CompareBuildAware(a, b) == -CompareBuildAware(b, a);
    hide CompareBuildAware;
  }

  /** The major/minor comparison looks at those two fields and no other. */
  lemma MajorMinorByFields(a: Version, b: Version)
    ensures CompareMajorMinor(a, b) == -1 <==> a.major < b.major || (a.major == b.major && a.minor < b.minor)
    ensures CompareMajorMinor(a, b) == 0 <==> a.major == b.major && a.minor == b.minor
    ensures CompareMajorMinor(a, b) == 1 <==> CompareMajorMinor(b, a) == -1
  {
  }

  lemma ComparesOneWay(a: Version, b: Version)
    ensures CompareBuildAware(a, b) == -1 <==> Below(a, b)
    ensures CompareBuildAware(a, b) == 0 <==> SameButBuild(a, b) && Join(a.build, ".") == Join(b.build, ".")
  {
    PreReleasesCompare(a.pre, b.pre);
    StringsCompare(Join(a.build, "."), Join(b.build, "."));
    if a.pre == b.pre { PreReleasesCompare(a.pre, a.pre); }
    hide ComparePre, CompareStrings, PreBelow, StringBelow;
  }

  /** Sorting puts one label before another when both parse and the fields of the
      second are not below those of the first. */
  lemma AtMostByFields(a: Label, b: Label)
    ensures AtMost(a, b) <==> a.parsed.Some? && b.parsed.Some? && !Below(b.parsed.value, a.parsed.value)
  {
    if a.parsed.Some? && b.parsed.Some? {
      ComparesByFields(a.parsed.value, b.parsed.value);
      ComparesOneWay(a.parsed.value, b.parsed.value);
      BuildAwareTotalPreorder();
      assert CompareBuildAware(a.parsed.value, b.parsed.value) in {-1, 0, 1};
      hide CompareBuildAware, Below;
    }
  }

  // ----- the build as one string

  /** The pieces between the dots. */
  function Split(s: string): (r: seq<string>)
    ensures r != []
  {
    if s == "" then [""]
    else
      var rest := Split(s[1..]);
      if s[0] == '.' then [""] + rest else [[s[0]] + rest[0]] + rest[1..]
  }

  predicate Dotless(parts: seq<string>) { forall i, j | 0 <= i < |parts| && 0 <= j < |parts[i]| :: parts[i][j] != '.' }

  /** Joining loses nothing: the pieces come back in order. */
  lemma {:induction false} JoinSplits(parts: seq<string>)
    requires parts != [] && Dotless(parts)
    ensures Split(Join(parts, ".")) == parts
    decreases |parts|
  {
    if |parts| == 1 {
      SplitPiece(parts[0], "", []);
      assert parts[0] + "" == parts[0] && parts == [parts[0]];
    } else {
      JoinSplits(parts[1..]);
      SplitPiece(parts[0], "." + Join(parts[1..], "."), parts[1..]);
      assert parts[0] + "." + Join(parts[1..], ".") == parts[0] + ("." + Join(parts[1..], "."));
      assert [parts[0]] + parts[1..] == parts;
    }
  }

  lemma {:induction false} SplitPiece(piece: string, rest: string, parts: seq<string>)
    requires forall j | 0 <= j < |piece| :: piece[j] != '.'
    requires Split(rest) == [""] + parts
    ensures Split(piece + rest) == [piece] + parts
    decreases |piece|
  {
    if piece == "" {
      assert piece + rest == rest;
    } else {
      SplitPiece(piece[1..], rest, parts);
      assert (piece + rest)[1..] == piece[1..] + rest && [piece[0]] + piece[1..] == piece;
    }
  }
}
