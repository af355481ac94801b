/** The accept patterns of the tokens as regular expressions, and letters up to
    case: what the token predicates mean, said without them. */
module QueryPatterns {
  import opened Options
  import opened QueryTokens
  import opened QueryGrammar

  // ----- regular expressions

  /** A character class: any, or none, of some ranges of characters. */
  datatype Class = AnyOf(ranges: seq<(char, char)>) | NoneOf(ranges: seq<(char, char)>)

  predicate InRanges(c: char, ranges: seq<(char, char)>) {
    exists i | 0 <= i < |ranges| :: ranges[i].0 <= c <= ranges[i].1
  }

  predicate InClass(c: char, k: Class) { if k.AnyOf? then InRanges(c, k.ranges) else !InRanges(c, k.ranges) }

  datatype Regex = Sym(k: Class) | Cat(a: Regex, b: Regex) | Alt(a: Regex, b: Regex) | Star(a: Regex)

  /** The whole string matches, as between `^` and `$`. */
  predicate Matches(r: Regex, s: string)
    decreases r, |s|
  {
    match r
    case Sym(k) => |s| == 1 && InClass(s[0], k)
    case Cat(a, b) => exists i | 0 <= i <= |s| :: Matches(a, s[..i]) && Matches(b, s[i..])
    case Alt(a, b) => Matches(a, s) || Matches(b, s)
    case Star(a) => s == "" || exists i | 0 < i <= |s| :: Matches(a, s[..i]) && Matches(r, s[i..])
  }

  function Lit(c: char): Regex { Sym(AnyOf([(c, c)])) }

  /** `[Xx]` for a letter in both cases. */
  function Letter(upper: char, lower: char): Regex { Sym(AnyOf([(upper, upper), (lower, lower)])) }

  /** A keyword letter by letter, each in both cases: `[Ii][Nn]` is `Word("IN", "in")`. */
  function Word(upper: string, lower: string): Regex
    requires |upper| == |lower| > 0
  {
    if |upper| == 1 then Letter(upper[0], lower[0])
    else Cat(Letter(upper[0], lower[0]), Word(upper[1..], lower[1..]))
  }

  /** `[A-Za-z][A-Za-z0-9_]*` */
  const COLUMN := Cat(Sym(LETTERS), Star(Sym(NAME)))
  const LETTERS := AnyOf([('A', 'Z'), ('a', 'z')])
  const NAME := AnyOf([('A', 'Z'), ('a', 'z'), ('0', '9'), ('_', '_')])

  /** `[^'][^ ^(^)]*` */
  const VALUE := Cat(Sym(NoneOf([('\'', '\'')])), Star(Sym(PLAIN)))
  const PLAIN := NoneOf([(' ', ' '), ('^', '^'), ('(', '('), (')', ')')])

  /** `'([^']|\\')*'` */
  const QUOTED := Cat(Lit('\''), Cat(Star(ESCAPED), Lit('\'')))
  const ESCAPED := Alt(Sym(NoneOf([('\'', '\'')])), Cat(Lit('\\'), Lit('\'')))

  /** The accept patterns as the token table spells them. */
  function Pattern(k: Kind): Regex
    requires !k.Start?
  {
    match k
    case OpenBrace | ListOpenBrace => Lit('(')
    case ClosedBrace => Lit(')')
    case Column => COLUMN
    case Value | ValueInList => VALUE
    case QuotedValue | QuotedValueInList => QUOTED
    case Eq => Lit('=')
    case Comma => Lit(',')
    case NotEq => Cat(Lit('<'), Lit('>'))
    case Like => Word("LIKE", "like")
    case ILike => Word("ILIKE", "ilike")
    case In => Word("IN", "in")
    case And => Word("AND", "and")
    case Or => Word("OR", "or")
    case Not => Word("NOT", "not")
  }

  lemma SymThen(k: Class, b: Regex, s: string)
    ensures Matches(Cat(Sym(k), b), s) <==> s != "" && InClass(s[0], k) && Matches(b, s[1..])
  {
    if s != "" && InClass(s[0], k) && Matches(b, s[1..]) { assert Matches(Sym(k), s[..1]) && Matches(b, s[1..]); }
  }

  lemma ThenSym(a: Regex, k: Class, s: string)
    ensures Matches(Cat(a, Sym(k)), s) <==> s != "" && Matches(a, s[..|s| - 1]) && InClass(s[|s| - 1], k)
  {
    if s != "" && Matches(a, s[..|s| - 1]) && InClass(s[|s| - 1], k) {
      assert Matches(Sym(k), s[|s| - 1..]);
    }
  }

  lemma {:induction false} StarOfClass(k: Class, s: string)
    ensures Matches(Star(Sym(k)), s) <==> forall i | 0 <= i < |s| :: InClass(s[i], k)
    decreases |s|
  {
    if s != "" {
      StarOfClass(k, s[1..]);
      assert forall i | 0 <= i < |s[1..]| :: s[1..][i] == s[i + 1];
      if Matches(Star(Sym(k)), s) {
        var i :| 0 < i <= |s| && Matches(Sym(k), s[..i]) && Matches(Star(Sym(k)), s[i..]);
        assert i == 1;
      } else if InClass(s[0], k) && Matches(Star(Sym(k)), s[1..]) {
        assert Matches(Sym(k), s[..1]);
      }
      if forall i | 0 <= i < |s| :: InClass(s[i], k) {
        assert InClass(s[0], k) && Matches(Sym(k), s[..1]);
      }
    }
  }

  lemma {:induction false} QuotedBody(s: string)
    ensures Matches(Star(ESCAPED), s) <==> IsQuotedBody(s)
    decreases |s|
  {
    if s != "" {
      QuotedBody(s[1..]);
      OneEscape(s[..1]);
      if |s| >= 2 {
        QuotedBody(s[2..]);
        OneEscape(s[..2]);
      }
      if Matches(Star(ESCAPED), s) {
        var i :| 0 < i <= |s| && Matches(ESCAPED, s[..i]) && Matches(Star(ESCAPED), s[i..]);
        OneEscape(s[..i]);
        assert i == 1 || i == 2;
      }
    }
  }

  lemma OneEscape(s: string)
    ensures Matches(ESCAPED, s) <==> (|s| == 1 && s[0] != '\'') || (|s| == 2 && s[0] == '\\' && s[1] == '\'')
  {
    SymThen(AnyOf([('\\', '\\')]), Lit('\''), s);
    assert Matches(ESCAPED, s) <==> Matches(ESCAPED.a, s) || Matches(ESCAPED.b, s);
    forall c: char ensures InClass(c, NoneOf([('\'', '\'')])) <==> c != '\'' { InOne(c, '\''); }
    forall c: char, d: char ensures InClass(c, AnyOf([(d, d)])) <==> c == d { InOne(c, d); }
  }

  lemma InOne(c: char, d: char)
    ensures InRanges(c, [(d, d)]) <==> c == d
  {
    if c == d { assert [(d, d)][0].0 <= c; }
  }

  lemma LitPattern(d: char, s: string)
    ensures Matches(Lit(d), s) <==> s == [d]
  {
    if |s| == 1 { InOne(s[0], d); }
  }

  lemma InTwo(c: char, d: char, e: char)
    ensures InRanges(c, [(d, d), (e, e)]) <==> c == d || c == e
  {
    var r := [(d, d), (e, e)];
    assert r[0] == (d, d) && r[1] == (e, e);
  }

  lemma NameClasses(c: char)
    ensures InClass(c, LETTERS) <==> IsLetter(c)
    ensures InClass(c, NAME) <==> IsNameChar(c)
  {
    var l, n := LETTERS.ranges, NAME.ranges;
    assert l[0] == ('A', 'Z') && l[1] == ('a', 'z');
    assert n[0] == ('A', 'Z') && n[1] == ('a', 'z') && n[2] == ('0', '9') && n[3] == ('_', '_');
  }

  lemma PlainClass(c: char)
    ensures InClass(c, PLAIN) <==> c !in [' ', '^', '(', ')']
  {
    var r := PLAIN.ranges;
    assert r[0] == (' ', ' ') && r[1] == ('^', '^') && r[2] == ('(', '(') && r[3] == (')', ')');
  }

  lemma ColumnPattern(s: string)
    ensures IsColumn(s) <==> Matches(COLUMN, s)
  {
    SymThen(LETTERS, Star(Sym(NAME)), s);
    forall i | 0 <= i < |s| { NameClasses(s[i]); }
    if s != "" {
      StarOfClass(NAME, s[1..]);
      assert forall i | 0 < i < |s| :: s[i] == s[1..][i - 1];
    }
  }

  lemma ValuePattern(s: string)
    ensures IsValue(s) <==> Matches(VALUE, s)
  {
    SymThen(NoneOf([('\'', '\'')]), Star(Sym(PLAIN)), s);
    forall i | 0 <= i < |s| { PlainClass(s[i]); }
    if s != "" {
      InOne(s[0], '\'');
      StarOfClass(PLAIN, s[1..]);
      assert forall i | 0 < i < |s| :: s[i] == s[1..][i - 1];
    }
  }

  lemma QuotedPattern(s: string)
    ensures IsQuoted(s) <==> Matches(QUOTED, s)
  {
    var quote := AnyOf([('\'', '\'')]);
    SymThen(quote, Cat(Star(ESCAPED), Lit('\'')), s);
    if s != "" {
      InOne(s[0], '\'');
      ThenSym(Star(ESCAPED), quote, s[1..]);
      if |s| >= 2 {
        InOne(s[|s| - 1], '\'');
        QuotedBody(s[1..|s| - 1]);
        assert s[1..][..|s| - 2] == s[1..|s| - 1];
      }
    }
  }

  // ----- keywords

  lemma {:induction false} WordPattern(upper: string, lower: string, s: string)
    requires |upper| == |lower| > 0
    ensures Matches(Word(upper, lower), s) <==>
            |s| == |lower| && forall i | 0 <= i < |s| :: s[i] == upper[i] || s[i] == lower[i]
  {
    var pair := AnyOf([(upper[0], upper[0]), (lower[0], lower[0])]);
    if s != "" { InTwo(s[0], upper[0], lower[0]); }
    if |upper| > 1 {
      SymThen(pair, Word(upper[1..], lower[1..]), s);
      if s != "" {
        WordPattern(upper[1..], lower[1..], s[1..]);
        assert forall i | 0 < i < |s| :: s[i] == s[1..][i - 1];
        assert forall i | 0 < i < |lower| :: lower[i] == lower[1..][i - 1] && upper[i] == upper[1..][i - 1];
      }
    }
  }

  /** The place of a letter in the alphabet, whatever its case. */
  function Place(c: char): Option<int> {
    if 'A' <= c <= 'Z' then Some(c as int - 'A' as int)
    else if 'a' <= c <= 'z' then Some(c as int - 'a' as int)
    else None
  }

  predicate SameLetter(c: char, d: char) { c == d || (Place(c).Some? && Place(c) == Place(d)) }

  predicate SameUpToCase(s: string, t: string) {
    |s| == |t| && forall i | 0 <= i < |s| :: SameLetter(s[i], t[i])
  }

  predicate HasNoCapital(s: string) { forall i | 0 <= i < |s| :: !('A' <= s[i] <= 'Z') }

  /** Folding to lower case leaves no capital, changes no letter but in its case,
      and sends two strings to one exactly when they differ in case alone. */
  lemma FoldsCaseOnly(s: string, t: string)
    ensures HasNoCapital(Lower(s)) && SameUpToCase(Lower(s), s)
    ensures Lower(s) == Lower(t) <==> SameUpToCase(s, t)
    ensures HasNoCapital(s) ==> Lower(s) == s
  {
    if |s| == |t| {
      forall i | 0 <= i < |s| ensures Lower(s)[i] == Lower(t)[i] <==> SameLetter(s[i], t[i]) {}
      if Lower(s) == Lower(t) {
        forall i | 0 <= i < |s| ensures SameLetter(s[i], t[i]) { assert Lower(s)[i] == Lower(t)[i]; }
      }
    }
  }

  /** A column is known exactly when its name, in any case, is a listed name in
      lower case. */
  lemma KnownInAnyCase(cfg: Config, t: string)
    ensures IsKnownColumn(cfg, t) <==>
            && Matches(COLUMN, t)
            && exists name | name in cfg.validColumns :: HasNoCapital(name) && SameUpToCase(name, t)
  {
    ColumnPattern(t);
    FoldsCaseOnly(t, t);
    forall name | name in cfg.validColumns ensures Lower(t) == name <==> HasNoCapital(name) && SameUpToCase(name, t) {
      FoldsCaseOnly(name, t);
    }
  }

  lemma KeywordPattern(upper: string, lower: string, s: string)
    requires |upper| == |lower| > 0
    requires forall i | 0 <= i < |lower| :: 'a' <= lower[i] <= 'z' && upper[i] as int == lower[i] as int - 32
    ensures Lower(s) == lower <==> Matches(Word(upper, lower), s)
  {
    WordPattern(upper, lower, s);
    if |s| == |lower| {
      forall i | 0 <= i < |s| ensures Lower(s)[i] == lower[i] <==> s[i] == upper[i] || s[i] == lower[i] {}
    }
  }

  /** Every token class is its accept pattern: all spellings it lists and no other. */
  lemma AcceptsItsPattern(k: Kind, s: string)
    requires !k.Start?
    ensures Accepts(k, s) <==> Matches(Pattern(k), s)
  {
    match k
    case OpenBrace | ListOpenBrace => LitPattern('(', s);
    case ClosedBrace => LitPattern(')', s);
    case Eq => LitPattern('=', s);
    case Comma => LitPattern(',', s);
    case Column => ColumnPattern(s);
    case Value | ValueInList => ValuePattern(s);
    case QuotedValue | QuotedValueInList => QuotedPattern(s);
    case NotEq =>
      SymThen(AnyOf([('<', '<')]), Lit('>'), s);
      if s != "" {
        InOne(s[0], '<');
        LitPattern('>', s[1..]);
      }
    case Like => KeywordPattern("LIKE", "like", s);
    case ILike => KeywordPattern("ILIKE", "ilike", s);
    case In => KeywordPattern("IN", "in", s);
    case And => KeywordPattern("AND", "and", s);
    case Or => KeywordPattern("OR", "or", s);
    case Not => KeywordPattern("NOT", "not", s);
  }
}
