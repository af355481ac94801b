/** What the emitted clause means: reading it back as SQL, with the collected
    values bound to its placeholders, gives the tree of the input. */
module QueryMeaning {
  import opened Options
  import opened QueryTokens
  import opened QueryGrammar
  import opened QueryParser

  // ----- quoted values

  /** How a client writes a value: quotes around it, each `'` as `\'`. */
  function Quote(s: string): string { "'" + Escape(s) + "'" }

  function Escape(s: string): string {
    if s == "" then "" else (if s[0] == '\'' then "\\'" else [s[0]]) + Escape(s[1..])
  }

  predicate EndsInBackslash(s: string) { s != "" && s[|s| - 1] == '\\' }

  lemma {:induction false} EscapedBodyIsAccepted(s: string)
    ensures IsQuotedBody(Escape(s))
  {
    if s != "" {
      EscapedBodyIsAccepted(s[1..]);
      var n := if s[0] == '\'' then 2 else 1;
      assert Escape(s)[n..] == Escape(s[1..]);
    }
  }

  lemma {:induction false} UnescapeQuoted(s: string)
    ensures Unescape(Escape(s) + "'") == (if EndsInBackslash(s) then s[..|s| - 1] else s) + "'"
  {
    if s == "" || s == "\\" {
      ShortUnescape();
    } else {
      var tail := Escape(s[1..]) + "'";
      UnescapeQuoted(s[1..]);
      assert s == [s[0]] + s[1..] && (EndsInBackslash(s) <==> EndsInBackslash(s[1..]));
      assert EndsInBackslash(s) ==> s[..|s| - 1] == [s[0]] + s[1..][..|s| - 2];
      if s[0] == '\'' {
        assert Escape(s) + "'" == "\\'" + tail;
        UnescapePair(tail);
      } else {
        assert Escape(s) + "'" == [s[0]] + tail;
        assert tail[0] == (if s[1..] == "" then '\'' else if s[1] == '\'' then '\\' else s[1]);
        UnescapeChar(s[0], tail);
      }
      hide Unescape, Escape;
    }
  }

  lemma ShortUnescape()
    ensures Escape("") + "'" == "'" && Unescape("'") == "'"
    ensures Escape("\\") + "'" == "\\'" && Unescape("\\'") == "'"
  {
    assert "'"[1..] == "" && "\\"[1..] == "" && "\\'"[2..] == "";
  }

  lemma UnescapePair(tail: string)
    ensures Unescape("\\'" + tail) == "'" + Unescape(tail)
  {
    assert ("\\'" + tail)[2..] == tail;
  }

  lemma UnescapeChar(c: char, tail: string)
    requires !(c == '\\' && tail != "" && tail[0] == '\'')
    ensures Unescape([c] + tail) == [c] + Unescape(tail)
  {
    assert ([c] + tail)[1..] == tail;
  }

  /** The quoted-value branch gives back exactly the strings that do not end in
      a backslash; a trailing backslash is eaten with the closing quote. */
  lemma QuoteRoundTrip(s: string)
    ensures IsQuoted(Quote(s))
    ensures LiteralValue(Quote(s)) == s <==> !EndsInBackslash(s)
  {
    var q := Quote(s);
    EscapedBodyIsAccepted(s);
    assert q[1..|q| - 1] == Escape(s);
    UnescapeQuoted(s);
    assert q[1..] == Escape(s) + "'";
    var core := if EndsInBackslash(s) then s[..|s| - 1] else s;
    assert Unescape(q) == "'" + (core + "'");
    assert Unquote(q) == core;
  }

  // ----- placeholders

  /** The number of marks the column prefix brings in, at `p` per column. */
  function PrefixMarks(e: Expr, p: nat): (r: nat)
    ensures r == 0 <==> p == 0
  {
    match e
    case One(t) => TermPrefixMarks(t, p)
    case Join(t, _, rest) => TermPrefixMarks(t, p) + PrefixMarks(rest, p)
  }

  function TermPrefixMarks(t: Term, p: nat): (r: nat)
    ensures r == 0 <==> p == 0
  {
    if t.Group? then PrefixMarks(t.e, p) else p
  }

  function Marks(s: string): nat { multiset(s)['?'] }

  lemma MarksAppend(a: string, b: string)
    ensures Marks(a + b) == Marks(a) + Marks(b)
  {
  }

  lemma NoMarks(s: string)
    ensures Marks(s) == 0 <==> '?' !in s
  {
  }

  lemma LowerKeepsNames(s: string)
    requires forall i | 0 <= i < |s| :: IsNameChar(s[i])
    ensures forall c | c in Lower(s) :: IsNameChar(c)
  {
  }

  lemma QualifiedIs(cfg: Config, col: string)
    requires IsColumn(col)
    ensures Qualified(cfg, col) == if cfg.prefix == "" then Lower(col) else cfg.prefix + "." + Lower(col)
    ensures forall c | c in Lower(col) :: IsNameChar(c)
    ensures Marks(Qualified(cfg, col)) == Marks(cfg.prefix)
  {
    var name, p := Lower(col), cfg.prefix + ".";
    assert p[|p| - 1] == '.';
    LowerKeepsNames(col);
    assert '.' !in name && '?' !in name;
  }

  lemma OperatorIsOneWord(t: string)
    requires IsJoinOp(t) || IsCompareOp(t) || Accepts(In, t) || Accepts(Not, t)
    ensures t != "" && forall i | 0 <= i < |t| :: Continues(t[0], t[i])
    ensures Marks(t) == 0
  {
    if t != "=" && t != "<>" {
      var w := Lower(t);
      assert w in ["and", "or", "like", "ilike", "in", "not"];
      assert forall i | 0 <= i < |w| :: 'a' <= w[i] <= 'z';
      forall i | 0 <= i < |t| ensures IsLetter(t[i]) { assert w[i] == LowerChar(t[i]); }
    }
    NoMarks(t);
  }

  lemma {:induction false} MarksOfVals(vs: Vals)
    ensures Marks(RenderVals(vs)) == |ListValues(vs)|
  {
    if vs.More? { MarksOfVals(vs.rest); }
  }

  lemma {:induction false} MarksOfExpr(cfg: Config, e: Expr)
    requires WellFormed(cfg, e)
    ensures Marks(Render(cfg, e)) == |ValuesOf(e)| + PrefixMarks(e, Marks(cfg.prefix))
    decreases e, 1
  {
    MarksOfTerm(cfg, e.term);
    if e.Join? {
      MarksOfExpr(cfg, e.rest);
      OperatorIsOneWord(e.op);
      MarksAppend(" " + e.op, " ");
      MarksAppend(RenderTerm(cfg, e.term) + (" " + e.op + " "), Render(cfg, e.rest));
    }
  }

  lemma {:induction false} MarksOfTerm(cfg: Config, t: Term)
    requires WellFormedTerm(cfg, t)
    ensures Marks(RenderTerm(cfg, t)) == |TermValues(t)| + TermPrefixMarks(t, Marks(cfg.prefix))
    decreases t, 0
  {
    match t
    case Group(e) =>
      MarksOfExpr(cfg, e);
      MarksAppend("(" + Render(cfg, e), ")");
      MarksAppend("(", Render(cfg, e));
    case Compare(col, op, _) =>
      QualifiedIs(cfg, col);
      OperatorIsOneWord(op);
      MarksAppend(Qualified(cfg, col), " " + op);
      MarksAppend(Qualified(cfg, col) + (" " + op), " ?");
    case Member(col, neg, inTok, vals) => MarksOfMember(cfg, t);
  }

  lemma MarksOfMember(cfg: Config, t: Term)
    requires t.Member? && WellFormedTerm(cfg, t)
    ensures Marks(RenderTerm(cfg, t)) == |TermValues(t)| + TermPrefixMarks(t, Marks(cfg.prefix))
  {
    var neg := if t.neg.Some? then " " + t.neg.value + " " else "";
    var col, op := Qualified(cfg, t.col), " " + t.inTok;
    assert Marks(neg) == 0 by {
      if t.neg.Some? {
        OperatorIsOneWord(t.neg.value);
        MarksAppend(" " + t.neg.value, " ");
      }
    }
    QualifiedIs(cfg, t.col);
    OperatorIsOneWord(t.inTok);
    MarksOfVals(t.vals);
    MarksAppend(col + neg + op + "(", RenderVals(t.vals));
    MarksAppend(col + neg + op, "(");
    MarksAppend(col + neg, op);
    MarksAppend(col, neg);
  }

  /** There is one `?` per value exactly when the column prefix holds none. */
  lemma PlaceholdersMatchValues(cfg: Config, e: Expr)
    requires WellFormed(cfg, e)
    ensures Marks(Render(cfg, e)) == |ValuesOf(e)| <==> '?' !in cfg.prefix
  {
    MarksOfExpr(cfg, e);
    NoMarks(cfg.prefix);
  }

  // ----- reading the clause back

  datatype SqlToken = Word(text: string) | Symbol(c: char) | Literal(value: string)

  predicate IsWordChar(c: char) { IsNameChar(c) || c == '.' }

  predicate IsOpChar(c: char) { c == '=' || c == '<' || c == '>' }

  /** Whether the word or operator that `c` starts goes on with `d`. */
  predicate Continues(c: char, d: char) {
    (IsWordChar(c) && IsWordChar(d)) || (IsOpChar(c) && IsOpChar(d))
  }

  function SpanFrom(q: string, c: char, n: nat): (r: nat)
    requires n <= |q|
    ensures n <= r <= |q|
    ensures forall i | n <= i < r :: Continues(c, q[i])
    ensures r < |q| ==> !Continues(c, q[r])
    decreases |q| - n
  {
    if n < |q| && Continues(c, q[n]) then SpanFrom(q, c, n + 1) else n
  }

  /** An SQL tokeniser: spaces separate, words and operators run as far as they can. */
  function Lex(q: string): seq<SqlToken>
    decreases |q|
  {
    if q == "" then []
    else if q[0] == ' ' then Lex(q[1..])
    else if Continues(q[0], q[0]) then
      var n := SpanFrom(q, q[0], 1);
      [Word(q[..n])] + Lex(q[n..])
    else [Symbol(q[0])] + Lex(q[1..])
  }

  /** Binds the values, in order, to the placeholders. */
  function Bind(tokens: seq<SqlToken>, values: seq<string>): Option<seq<SqlToken>> {
    if tokens == [] then (if values == [] then Some([]) else None)
    else if tokens[0] != Symbol('?') then
      var rest := Bind(tokens[1..], values);
      if rest.None? then None else Some([tokens[0]] + rest.value)
    else if values == [] then None
    else
      var rest := Bind(tokens[1..], values[1..]);
      if rest.None? then None else Some([Literal(values[0])] + rest.value)
  }

  /** The SQL tokens of a tree, its values written out or left as placeholders. */
  function Spell(e: Expr, bound: bool): seq<SqlToken> {
    match e
    case One(t) => SpellTerm(t, bound)
    case Join(t, op, rest) => SpellTerm(t, bound) + [Word(op)] + Spell(rest, bound)
  }

  function SpellTerm(t: Term, bound: bool): seq<SqlToken> {
    match t
    case Group(e) => [Symbol('(')] + Spell(e, bound) + [Symbol(')')]
    case Compare(col, op, val) => [Word(col), Word(op), Value(val, bound)]
    case Member(col, neg, inTok, vals) =>
      [Word(col)] + (if neg.Some? then [Word(neg.value)] else []) + [Word(inTok), Symbol('(')]
      + SpellVals(vals, bound)
  }

  function SpellVals(vs: Vals, bound: bool): seq<SqlToken> {
    [Value(vs.v, bound)]
    + if vs.Last? then [Symbol(')')] else [Symbol(',')] + SpellVals(vs.rest, bound)
  }

  function Value(v: string, bound: bool): SqlToken { if bound then Literal(v) else Symbol('?') }

  /** The input tree with columns lower-cased and prefixed and values unquoted. */
  function Translate(cfg: Config, e: Expr): Expr {
    match e
    case One(t) => One(TranslateTerm(cfg, t))
    case Join(t, op, rest) => Join(TranslateTerm(cfg, t), op, Translate(cfg, rest))
  }

  function TranslateTerm(cfg: Config, t: Term): Term {
    match t
    case Group(e) => Group(Translate(cfg, e))
    case Compare(col, op, val) => Compare(Qualified(cfg, col), op, LiteralValue(val))
    case Member(col, neg, inTok, vals) =>
      Member(Qualified(cfg, col), neg, inTok, TranslateVals(vals))
  }

  function TranslateVals(vs: Vals): Vals {
    match vs
    case Last(v) => Last(LiteralValue(v))
    case More(v, rest) => More(LiteralValue(v), TranslateVals(rest))
  }

  // ----- the tokeniser on rendered text

  predicate Separates(rest: string) { rest == "" || (!IsWordChar(rest[0]) && !IsOpChar(rest[0])) }

  lemma LexWord(w: string, rest: string)
    requires w != "" && (forall i | 0 <= i < |w| :: Continues(w[0], w[i])) && Separates(rest)
    ensures Lex(w + rest) == [Word(w)] + Lex(rest)
  {
    var q := w + rest;
    var n := SpanFrom(q, q[0], 1);
    assert q[0] == w[0] && Continues(w[0], w[0]);
    assert forall i | 0 <= i < |w| :: q[i] == w[i];
    assert rest != "" ==> q[|w|] == rest[0];
    assert q[..n] == w && q[n..] == rest;
  }

  lemma LexSpace(rest: string)
    ensures Lex(" " + rest) == Lex(rest)
  {
    assert (" " + rest)[1..] == rest;
  }

  lemma LexSymbol(c: char, rest: string)
    requires c != ' ' && !IsWordChar(c) && !IsOpChar(c)
    ensures Lex([c] + rest) == [Symbol(c)] + Lex(rest)
  {
    assert ([c] + rest)[1..] == rest;
  }

  predicate PlainPrefix(cfg: Config) { forall c | c in cfg.prefix :: IsWordChar(c) }

  lemma QualifiedIsOneWord(cfg: Config, col: string)
    requires IsColumn(col) && PlainPrefix(cfg)
    ensures Qualified(cfg, col) != "" && Qualified(cfg, col) != "("
    ensures forall i | 0 <= i < |Qualified(cfg, col)| :: Continues(Qualified(cfg, col)[0], Qualified(cfg, col)[i])
  {
    QualifiedIs(cfg, col);
    var q := Qualified(cfg, col);
    forall i | 0 <= i < |q| ensures IsWordChar(q[i]) { assert q[i] in q; }
  }

  lemma {:induction false} LexVals(vs: Vals, rest: string)
    ensures Lex(RenderVals(vs) + rest) == SpellVals(TranslateVals(vs), false) + Lex(rest)
  {
    hide Lex;
    var sep := if vs.Last? then ")" else " ,";
    var tail := if vs.Last? then rest else RenderVals(vs.rest) + rest;
    assert RenderVals(vs) + rest == " " + ("?" + (sep + tail));
    LexSpace("?" + (sep + tail));
    LexSymbol('?', sep + tail);
    if vs.Last? {
      LexSymbol(')', rest);
    } else {
      assert sep + tail == " " + ("," + tail);
      LexSpace("," + tail);
      LexSymbol(',', tail);
      LexVals(vs.rest, rest);
    }
  }

  lemma {:induction false} LexExpr(cfg: Config, e: Expr, rest: string)
    requires WellFormed(cfg, e) && PlainPrefix(cfg) && Separates(rest)
    ensures Lex(Render(cfg, e) + rest) == Spell(Translate(cfg, e), false) + Lex(rest)
    decreases e, 1
  {
    hide Lex;
    if e.One? {
      LexTerm(cfg, e.term, rest);
    } else {
      var tail := Render(cfg, e.rest) + rest;
      assert Render(cfg, e) + rest == RenderTerm(cfg, e.term) + (" " + (e.op + (" " + tail)));
      LexTerm(cfg, e.term, " " + (e.op + (" " + tail)));
      LexSpace(e.op + (" " + tail));
      OperatorIsOneWord(e.op);
      LexWord(e.op, " " + tail);
      LexSpace(tail);
      LexExpr(cfg, e.rest, rest);
    }
  }

  lemma {:induction false} LexTerm(cfg: Config, t: Term, rest: string)
    requires WellFormedTerm(cfg, t) && PlainPrefix(cfg) && Separates(rest)
    ensures Lex(RenderTerm(cfg, t) + rest) == SpellTerm(TranslateTerm(cfg, t), false) + Lex(rest)
    decreases t, 0
  {
    match t
    case Group(e) => LexGroup(cfg, e, rest);
    case Compare(_, _, _) => LexCompare(cfg, t, rest);
    case Member(_, _, _, _) => LexMember(cfg, t, rest);
  }

  lemma {:induction false} LexGroup(cfg: Config, e: Expr, rest: string)
    requires WellFormed(cfg, e) && PlainPrefix(cfg)
    ensures Lex(RenderTerm(cfg, Group(e)) + rest)
            == SpellTerm(TranslateTerm(cfg, Group(e)), false) + Lex(rest)
    decreases e, 2
  {
    hide Lex;
    var tail := ")" + rest;
    assert RenderTerm(cfg, Group(e)) + rest == "(" + (Render(cfg, e) + tail);
    LexSymbol('(', Render(cfg, e) + tail);
    LexExpr(cfg, e, tail);
    LexSymbol(')', rest);
  }

  lemma LexCompare(cfg: Config, t: Term, rest: string)
    requires t.Compare? && WellFormedTerm(cfg, t) && PlainPrefix(cfg)
    ensures Lex(RenderTerm(cfg, t) + rest) == SpellTerm(TranslateTerm(cfg, t), false) + Lex(rest)
  {
    hide Lex;
    var col := Qualified(cfg, t.col);
    var tail := " " + ("?" + rest);
    assert RenderTerm(cfg, t) + rest == col + (" " + (t.op + tail));
    QualifiedIsOneWord(cfg, t.col);
    LexWord(col, " " + (t.op + tail));
    LexSpace(t.op + tail);
    OperatorIsOneWord(t.op);
    LexWord(t.op, tail);
    LexSpace("?" + rest);
    LexSymbol('?', rest);
  }

  lemma LexMember(cfg: Config, t: Term, rest: string)
    requires t.Member? && WellFormedTerm(cfg, t) && PlainPrefix(cfg)
    ensures Lex(RenderTerm(cfg, t) + rest) == SpellTerm(TranslateTerm(cfg, t), false) + Lex(rest)
  {
    hide Lex;
    var list := RenderVals(t.vals) + rest;
    var tail := " " + (t.inTok + ("(" + list));
    var subject := Qualified(cfg, t.col) + (if t.neg.Some? then " " + t.neg.value + " " else "");
    assert RenderTerm(cfg, t) + rest == subject + tail by { hide RenderVals, Qualified, Accepts; }
    LexSubject(cfg, t, tail);
    LexListHead(t.inTok, list);
    LexVals(t.vals, rest);
    hide RenderVals, Qualified, Accepts, RenderTerm;
  }

  lemma LexListHead(inTok: string, list: string)
    requires Accepts(In, inTok)
    ensures Lex(" " + (inTok + ("(" + list))) == [Word(inTok), Symbol('(')] + Lex(list)
  {
    hide Lex;
    LexSpace(inTok + ("(" + list));
    OperatorIsOneWord(inTok);
    LexWord(inTok, "(" + list);
    LexSymbol('(', list);
  }

  lemma LexSubject(cfg: Config, t: Term, tail: string)
    requires t.Member? && WellFormedTerm(cfg, t) && PlainPrefix(cfg) && Separates(tail)
    ensures Lex(Qualified(cfg, t.col) + (if t.neg.Some? then " " + t.neg.value + " " else "") + tail)
            == [Word(Qualified(cfg, t.col))]
               + (if t.neg.Some? then [Word(t.neg.value)] else []) + Lex(tail)
  {
    hide Lex;
    var col := Qualified(cfg, t.col);
    QualifiedIsOneWord(cfg, t.col);
    if t.neg.Some? {
      var n := t.neg.value;
      assert col + (" " + n + " ") + tail == col + (" " + (n + (" " + tail)));
      LexWord(col, " " + (n + (" " + tail)));
      LexSpace(n + (" " + tail));
      OperatorIsOneWord(n);
      LexWord(n, " " + tail);
      LexSpace(tail);
    } else {
      assert col + "" + tail == col + tail;
      LexWord(col, tail);
    }
  }

  // ----- binding

  function AllValues(e: Expr): seq<string> {
    match e
    case One(t) => AllTermValues(t)
    case Join(t, _, rest) => AllTermValues(t) + AllValues(rest)
  }

  function AllTermValues(t: Term): seq<string> {
    match t
    case Group(e) => AllValues(e)
    case Compare(_, _, val) => [val]
    case Member(_, _, _, vals) => RawValues(vals)
  }

  function RawValues(vs: Vals): seq<string> {
    [vs.v] + if vs.More? then RawValues(vs.rest) else []
  }

  lemma {:induction false} BindAppend(a: seq<SqlToken>, va: seq<string>, b: seq<SqlToken>, vb: seq<string>)
    requires Bind(a, va).Some? && Bind(b, vb).Some?
    ensures Bind(a + b, va + vb) == Some(Bind(a, va).value + Bind(b, vb).value)
    decreases |a|
  {
    if a == [] {
      assert a + b == b && va + vb == vb;
      assert Bind(a, va).value + Bind(b, vb).value == Bind(b, vb).value;
    } else {
      assert (a + b)[0] == a[0] && (a + b)[1..] == a[1..] + b;
      if a[0] == Symbol('?') {
        assert (va + vb)[0] == va[0] && (va + vb)[1..] == va[1..] + vb;
        BindAppend(a[1..], va[1..], b, vb);
        var x, y := Bind(a[1..], va[1..]).value, Bind(b, vb).value;
        assert [Literal(va[0])] + (x + y) == [Literal(va[0])] + x + y;
      } else {
        BindAppend(a[1..], va, b, vb);
        var x, y := Bind(a[1..], va).value, Bind(b, vb).value;
        assert [a[0]] + (x + y) == [a[0]] + x + y;
      }
    }
  }

  lemma BindThen(a: seq<SqlToken>, va: seq<string>, oa: seq<SqlToken>,
                 b: seq<SqlToken>, vb: seq<string>, ob: seq<SqlToken>,
                 t: seq<SqlToken>, v: seq<string>, o: seq<SqlToken>)
    requires Bind(a, va) == Some(oa) && Bind(b, vb) == Some(ob)
    requires t == a + b && v == va + vb && o == oa + ob
    ensures Bind(t, v) == Some(o)
  {
    BindAppend(a, va, b, vb);
  }

  lemma BindOne(t: SqlToken)
    requires t != Symbol('?')
    ensures Bind([t], []) == Some([t])
  {
    assert [t][1..] == [] && [t] + [] == [t];
  }

  lemma BindMark(v: string)
    ensures Bind([Symbol('?')], [v]) == Some([Literal(v)])
  {
    assert [Symbol('?')][1..] == [] && [v][1..] == [] && [Literal(v)] + [] == [Literal(v)];
  }

  lemma {:induction false} BindVals(vs: Vals)
    ensures Bind(SpellVals(vs, false), RawValues(vs)) == Some(SpellVals(vs, true))
  {
    hide Bind;
    BindMark(vs.v);
    var sep := Symbol(if vs.Last? then ')' else ',');
    BindOne(sep);
    if vs.Last? {
      BindAppend([Symbol('?')], [vs.v], [sep], []);
    } else {
      BindVals(vs.rest);
      BindAppend([sep], [], SpellVals(vs.rest, false), RawValues(vs.rest));
      assert [] + RawValues(vs.rest) == RawValues(vs.rest);
      BindAppend([Symbol('?')], [vs.v], [sep] + SpellVals(vs.rest, false), RawValues(vs.rest));
    }
  }

  lemma {:induction false} BindExpr(e: Expr)
    ensures Bind(Spell(e, false), AllValues(e)) == Some(Spell(e, true))
    decreases e, 1
  {
    hide Bind;
    BindTerm(e.term);
    if e.Join? {
      var t, vt := SpellTerm(e.term, false), AllTermValues(e.term);
      BindOne(Word(e.op));
      BindAppend(t, vt, [Word(e.op)], []);
      BindExpr(e.rest);
      BindAppend(t + [Word(e.op)], vt + [], Spell(e.rest, false), AllValues(e.rest));
      assert vt + [] == vt;
    }
  }

  lemma {:induction false} BindTerm(t: Term)
    ensures Bind(SpellTerm(t, false), AllTermValues(t)) == Some(SpellTerm(t, true))
    decreases t, 0
  {
    match t
    case Group(e) =>
      BindOne(Symbol('('));
      BindOne(Symbol(')'));
      BindExpr(e);
      BindAppend([Symbol('(')], [], Spell(e, false), AllValues(e));
      assert [] + AllValues(e) == AllValues(e) && AllValues(e) + [] == AllValues(e);
      BindAppend([Symbol('(')] + Spell(e, false), AllValues(e), [Symbol(')')], []);
    case Compare(col, op, val) =>
      BindOne(Word(col));
      BindOne(Word(op));
      BindMark(val);
      var head := [Word(col), Word(op)];
      BindThen([Word(col)], [], [Word(col)], [Word(op)], [], [Word(op)], head, [], head);
      BindThen(head, [], head, [Symbol('?')], [val], [Literal(val)],
               SpellTerm(t, false), [val], SpellTerm(t, true));
    case Member(col, neg, inTok, vals) => BindMember(t);
  }

  lemma BindMember(t: Term)
    requires t.Member?
    ensures Bind(SpellTerm(t, false), AllTermValues(t)) == Some(SpellTerm(t, true))
  {
    hide Bind;
    var col, open := [Word(t.col)], [Word(t.inTok), Symbol('(')];
    var head := col + (if t.neg.Some? then [Word(t.neg.value)] else []);
    BindOne(Word(t.col));
    if t.neg.Some? {
      BindOne(Word(t.neg.value));
      BindThen(col, [], col, [Word(t.neg.value)], [], [Word(t.neg.value)], head, [], head);
    } else {
      assert head == col;
    }
    BindOne(Word(t.inTok));
    BindOne(Symbol('('));
    BindThen([Word(t.inTok)], [], [Word(t.inTok)], [Symbol('(')], [], [Symbol('(')], open, [], open);
    BindThen(head, [], head, open, [], open, head + open, [], head + open);
    BindVals(t.vals);
    BindThen(head + open, [], head + open, SpellVals(t.vals, false), RawValues(t.vals), SpellVals(t.vals, true),
             SpellTerm(t, false), RawValues(t.vals), SpellTerm(t, true));
  }

  lemma TranslatedValues(cfg: Config, e: Expr)
    ensures AllValues(Translate(cfg, e)) == ValuesOf(e)
    decreases e, 1
  {
    TranslatedTermValues(cfg, e.term);
    if e.Join? { TranslatedValues(cfg, e.rest); }
  }

  lemma TranslatedTermValues(cfg: Config, t: Term)
    ensures AllTermValues(TranslateTerm(cfg, t)) == TermValues(t)
    decreases t, 0
  {
    if t.Group? { TranslatedValues(cfg, t.e); }
    if t.Member? { TranslatedListValues(t.vals); }
  }

  lemma TranslatedListValues(vs: Vals)
    ensures RawValues(TranslateVals(vs)) == ListValues(vs)
  {
  }

  // ----- one reading only

  function Text(t: SqlToken): string {
    match t case Word(w) => w case Symbol(c) => [c] case Literal(v) => v
  }

  function Texts(ts: seq<SqlToken>): seq<string> {
    seq(|ts|, i requires 0 <= i < |ts| => Text(ts[i]))
  }

  lemma TextsAppend(a: seq<SqlToken>, b: seq<SqlToken>)
    ensures Texts(a + b) == Texts(a) + Texts(b)
  {
  }

  lemma {:induction false} SpellingIsTokens(e: Expr)
    ensures Texts(Spell(e, true)) == Tokens(e)
    decreases e, 1
  {
    SpellingIsTermTokens(e.term);
    hide Texts;
    if e.Join? {
      SpellingIsTokens(e.rest);
      TextsAppend(SpellTerm(e.term, true), [Word(e.op)]);
      TextsAppend(SpellTerm(e.term, true) + [Word(e.op)], Spell(e.rest, true));
      OneText(Word(e.op));
    }
  }

  lemma OneText(t: SqlToken)
    ensures Texts([t]) == [Text(t)] && Texts([]) == []
  {
  }

  lemma {:induction false} SpellingIsTermTokens(t: Term)
    ensures Texts(SpellTerm(t, true)) == TermTokens(t)
    decreases t, 0
  {
    match t
    case Group(e) =>
      SpellingIsTokens(e);
      hide Texts;
      TextsAppend([Symbol('(')], Spell(e, true));
      TextsAppend([Symbol('(')] + Spell(e, true), [Symbol(')')]);
      OneText(Symbol('('));
      OneText(Symbol(')'));
    case Compare(_, _, _) =>
    case Member(col, neg, inTok, vals) =>
      SpellingIsListTokens(vals);
      var head := [Word(col)] + (if neg.Some? then [Word(neg.value)] else []) + [Word(inTok), Symbol('(')];
      TextsAppend(head, SpellVals(vals, true));
      assert Texts(head) == [col] + (if neg.Some? then [neg.value] else []) + [inTok, "("];
      hide Texts;
  }

  lemma {:induction false} SpellingIsListTokens(vs: Vals)
    ensures Texts(SpellVals(vs, true)) == ValsTokens(vs)
  {
    if vs.More? { SpellingIsListTokens(vs.rest); }
  }

  lemma {:induction false} TranslationIsReadable(cfg: Config, e: Expr)
    requires WellFormed(cfg, e) && PlainPrefix(cfg)
    ensures Readable(Translate(cfg, e))
    decreases e, 1
  {
    WellFormedIsReadable(cfg, e);
    TermTranslationIsReadable(cfg, e.term);
    if e.Join? { TranslationIsReadable(cfg, e.rest); }
  }

  lemma {:induction false} TermTranslationIsReadable(cfg: Config, t: Term)
    requires WellFormedTerm(cfg, t) && PlainPrefix(cfg)
    ensures ReadableTerm(TranslateTerm(cfg, t))
    decreases t, 0
  {
    WellFormedTermIsReadable(cfg, t);
    if t.Group? { TranslationIsReadable(cfg, t.e); } else { QualifiedIsOneWord(cfg, t.col); }
  }

  // ----- rows

  /** A row by plain, lower-case column name; a column that is absent is null. */
  type Row = map<string, string>

  /** How the database matches patterns, with and without regard to case. */
  datatype Matching = Matching(like: (string, string) -> bool, ilike: (string, string) -> bool)

  predicate OpHolds(m: Matching, op: string, x: string, y: string) {
    if Accepts(Eq, op) then x == y
    else if Accepts(NotEq, op) then x != y
    else if Accepts(Like, op) then m.like(x, y)
    else Accepts(ILike, op) && m.ilike(x, y)
  }

  /** A comparison as the input writes it: on the column of that name, whatever
      its case, and on the value that the literal denotes. Nothing compares with null. */
  function InputAtom(m: Matching): (Row, Term) -> bool {
    (row: Row, t: Term) =>
      match t
      case Group(_) => false
      case Compare(col, op, val) => Lower(col) in row && OpHolds(m, op, row[Lower(col)], LiteralValue(val))
      case Member(col, neg, _, vals) => Lower(col) in row && (row[Lower(col)] in ListValues(vals)) == neg.None?
  }

  /** The column an SQL word names in the table: `name` or `table.name`. */
  function Resolve(table: string, word: string): Option<string> {
    if table != "" && HasPrefix(word, table + ".") then Some(word[|table| + 1..])
    else if '.' in word then None
    else Some(word)
  }

  /** A comparison as SQL: on the column the word resolves to, with bound values. */
  function SqlAtom(table: string, m: Matching): (Row, Term) -> bool {
    (row: Row, t: Term) =>
      match t
      case Group(_) => false
      case Compare(word, op, val) =>
        var col := Resolve(table, word);
        col.Some? && col.value in row && OpHolds(m, op, row[col.value], val)
      case Member(word, neg, _, vals) =>
        var col := Resolve(table, word);
        col.Some? && col.value in row && (row[col.value] in RawValues(vals)) == neg.None?
  }

  /** AND binds tighter than OR; `atom` says whether one comparison holds of a row. */
  predicate Holds(e: Expr, row: Row, atom: (Row, Term) -> bool, acc: bool) {
    var here := acc && TermHolds(e.term, row, atom);
    if e.One? then here
    else if Accepts(And, e.op) then Holds(e.rest, row, atom, here)
    else here || Holds(e.rest, row, atom, true)
  }

  predicate TermHolds(t: Term, row: Row, atom: (Row, Term) -> bool) {
    if t.Group? then Holds(t.e, row, atom, true) else atom(row, t)
  }

  function Select(e: Expr, table: seq<Row>, atom: (Row, Term) -> bool): seq<Row> {
    if table == [] then []
    else (if Holds(e, table[0], atom, true) then [table[0]] else []) + Select(e, table[1..], atom)
  }

  /** The word emitted for a column names that column and no other. */
  lemma QualifiedResolves(cfg: Config, col: string)
    requires IsColumn(col)
    ensures Resolve(cfg.prefix, Qualified(cfg, col)) == Some(Lower(col))
  {
    QualifiedIs(cfg, col);
    var q, p := Qualified(cfg, col), cfg.prefix + ".";
    if cfg.prefix != "" {
      assert q[..|p|] == p && q[|p|..] == Lower(col);
    } else {
      assert forall c | c in Lower(col) :: c != '.';
    }
  }

  lemma {:induction false} SameTruth(cfg: Config, e: Expr, row: Row, m: Matching, acc: bool)
    requires WellFormed(cfg, e)
    ensures Holds(Translate(cfg, e), row, SqlAtom(cfg.prefix, m), acc) == Holds(e, row, InputAtom(m), acc)
    decreases e, 1
  {
    var here := acc && TermHolds(e.term, row, InputAtom(m));
    SameTermTruth(cfg, e.term, row, m);
    if e.Join? {
      SameTruth(cfg, e.rest, row, m, here);
      SameTruth(cfg, e.rest, row, m, true);
    }
  }

  lemma {:induction false} SameTermTruth(cfg: Config, t: Term, row: Row, m: Matching)
    requires WellFormedTerm(cfg, t)
    ensures TermHolds(TranslateTerm(cfg, t), row, SqlAtom(cfg.prefix, m)) == TermHolds(t, row, InputAtom(m))
    decreases t, 0
  {
    if t.Group? {
      SameTruth(cfg, t.e, row, m, true);
    } else {
      QualifiedResolves(cfg, t.col);
      if t.Member? { TranslatedListValues(t.vals); }
      hide Resolve, Qualified, OpHolds;
    }
  }

  /** From every table, the translated tree read as SQL selects the rows that the
      input asks for. */
  lemma {:induction false} SelectsTheSameRows(cfg: Config, e: Expr, table: seq<Row>, m: Matching)
    requires WellFormed(cfg, e)
    ensures Select(Translate(cfg, e), table, SqlAtom(cfg.prefix, m)) == Select(e, table, InputAtom(m))
  {
    if table != [] {
      SameTruth(cfg, e, table[0], m, true);
      SelectsTheSameRows(cfg, e, table[1..], m);
    }
  }

  // ----- the clause of a fresh parser

  lemma RenderIsTrimmed(cfg: Config, e: Expr)
    requires WellFormed(cfg, e) && PlainPrefix(cfg)
    ensures Render(cfg, e) != "" && Render(cfg, e)[0] != ' '
    ensures Render(cfg, e)[|Render(cfg, e)| - 1] != ' '
    decreases e, 1
  {
    TermIsTrimmed(cfg, e.term);
    hide RenderTerm, WellFormedTerm;
    if e.Join? { RenderIsTrimmed(cfg, e.rest); }
  }

  lemma TermIsTrimmed(cfg: Config, t: Term)
    requires WellFormedTerm(cfg, t) && PlainPrefix(cfg)
    ensures RenderTerm(cfg, t) != "" && RenderTerm(cfg, t)[0] != ' '
    ensures RenderTerm(cfg, t)[|RenderTerm(cfg, t)| - 1] != ' '
    decreases t, 0
  {
    if !t.Group? { QualifiedIsOneWord(cfg, t.col); }
    if t.Member? { ListEndsInBrace(t.vals); }
    hide Qualified, RenderVals, Accepts;
  }

  lemma ListEndsInBrace(vs: Vals)
    ensures |RenderVals(vs)| > 0 && RenderVals(vs)[|RenderVals(vs)| - 1] == ')'
  {
  }

  /** Reading the emitted clause as SQL, with the values bound in order, gives
      one tree only, and that tree selects the rows the input asks for. */
  lemma ClauseMeansInput(cfg: Config, tokens: seq<string>, e: Expr, sql: Expr, table: seq<Row>, m: Matching)
    requires Derives(cfg, e, tokens) && PlainPrefix(cfg)
    ensures var o := Finish(Run(cfg, Initial("", []), tokens));
            && o.Going?
            && Bind(Lex(o.s.query), o.s.values) == Some(Spell(Translate(cfg, e), true))
            && (Readable(sql) && Bind(Lex(o.s.query), o.s.values) == Some(Spell(sql, true))
                ==> && sql == Translate(cfg, e)
                    && Select(sql, table, SqlAtom(cfg.prefix, m)) == Select(e, table, InputAtom(m)))
  {
    var tree := Translate(cfg, e);
    EmitsItsTree(cfg, "", [], tokens, e);
    RenderIsTrimmed(cfg, e);
    assert "" + Render(cfg, e) == Render(cfg, e) + "" == Render(cfg, e);
    assert [] + ValuesOf(e) == ValuesOf(e);
    LexExpr(cfg, e, "");
    assert Spell(tree, false) + [] == Spell(tree, false);
    BindExpr(tree);
    TranslatedValues(cfg, e);
    SelectsTheSameRows(cfg, e, table, m);
    if Readable(sql) && Spell(sql, true) == Spell(tree, true) {
      SpellingIsTokens(sql);
      SpellingIsTokens(tree);
      TranslationIsReadable(cfg, e);
      assert Tokens(sql) + [] == Tokens(tree) + [];
      ExprUnambiguous(sql, [], tree, []);
    }
  }
}
