/** The search-query parser: a state machine with a brace counter and a join
    counter that validates a token sequence and emits a WHERE clause. */
module QueryParser {
  import opened Options
  import opened QueryTokens
  import opened QueryGrammar

  datatype Error = UnexpectedToken | UnexpectedCloseBrace | TooManyJoins | InvalidColumn
                 | UnexpectedEnd | UnclosedBrace

  datatype Progress = Progress(kind: Kind, openBraces: int, complexity: nat,
                               query: string, values: seq<string>)

  /** On failure the clause built so far stays behind in the parser. */
  datatype Outcome = Going(s: Progress) | Failed(s: Progress, error: Error)

  // ----- what a token contributes to the clause

  predicate HasPrefix(s: string, p: string) { |p| <= |s| && s[..|p|] == p }

  function Qualified(cfg: Config, col: string): string {
    var name := Lower(col);
    if cfg.prefix != "" && !HasPrefix(name, cfg.prefix + ".") then cfg.prefix + "." + name else name
  }

  /** Every `\'` becomes `'`, scanning left to right. */
  function Unescape(s: string): string {
    if s == "" then ""
    else if |s| >= 2 && s[0] == '\\' && s[1] == '\'' then "'" + Unescape(s[2..])
    else [s[0]] + Unescape(s[1..])
  }

  function Unquote(v: string): string {
    var t := Unescape(v);
    if |t| > 1 then t[1..|t| - 1] else t
  }

  function LiteralValue(v: string): string { if IsQuoted(v) then Unquote(v) else v }

  // ----- the state machine

  function OnNewToken(cfg: Config, s: Progress, k: Kind, v: string): Outcome {
    var s := s.(kind := k);
    match FamilyOf(k)
    case BraceFamily =>
      var open := if v == "(" then s.openBraces + 1 else if v == ")" then s.openBraces - 1 else s.openBraces;
      if open < 0 then Failed(s.(openBraces := open), UnexpectedCloseBrace)
      else Going(s.(openBraces := open, query := s.query + v))
    case ValueFamily => Going(s.(query := s.query + " ?", values := s.values + [v]))
    case QuotedFamily => Going(s.(query := s.query + " ?", values := s.values + [Unquote(v)]))
    case LogicalFamily =>
      var s := s.(complexity := s.complexity + 1);
      if s.complexity > MAXIMUM_COMPLEXITY then Failed(s, TooManyJoins)
      else Going(s.(query := s.query + (" " + v + " ")))
    case ColumnFamily =>
      if Lower(v) !in cfg.validColumns then Failed(s, InvalidColumn)
      else Going(s.(query := s.query + Qualified(cfg, v)))
    case OpFamily | NoFamily => Going(s.(query := s.query + (" " + v)))
  }

  function Move(cfg: Config, s: Progress, v: string): Outcome {
    var next := FirstAccepting(Transitions(s.kind), v);
    if next.None? then Failed(s, UnexpectedToken) else OnNewToken(cfg, s, next.value, v)
  }

  function Run(cfg: Config, s: Progress, tokens: seq<string>): Outcome
    decreases |tokens|
  {
    if tokens == [] then Going(s)
    else
      var o := Move(cfg, s, tokens[0]);
      if o.Failed? then o else Run(cfg, o.s, tokens[1..])
  }

  /** End-of-input and balance checks, then the trim of the clause. */
  function Finish(o: Outcome): Outcome {
    if o.Failed? then o
    else if !CanEnd(o.s.kind) then Failed(o.s, UnexpectedEnd)
    else if o.s.openBraces > 0 then Failed(o.s, UnclosedBrace)
    else Going(o.s.(query := Trim(o.s.query)))
  }

  function Trim(s: string): string
    decreases |s|
  {
    if s == "" then ""
    else if s[0] == ' ' then Trim(s[1..])
    else if s[|s| - 1] == ' ' then Trim(s[..|s| - 1])
    else s
  }

  function Initial(query: string, values: seq<string>): Progress {
    Progress(Start, 0, 0, query, values)
  }

  // ----- what a tree contributes to the clause

  function Render(cfg: Config, e: Expr): string {
    match e
    case One(t) => RenderTerm(cfg, t)
    case Join(t, op, rest) => RenderTerm(cfg, t) + (" " + op + " ") + Render(cfg, rest)
  }

  function RenderTerm(cfg: Config, t: Term): string {
    match t
    case Group(e) => "(" + Render(cfg, e) + ")"
    case Compare(col, op, _) => Qualified(cfg, col) + (" " + op) + " ?"
    case Member(col, neg, inTok, vals) =>
      Qualified(cfg, col) + (if neg.Some? then " " + neg.value + " " else "")
      + (" " + inTok) + "(" + RenderVals(vals)
  }

  function RenderVals(vs: Vals): string {
    match vs
    case Last(_) => " ?" + ")"
    case More(_, rest) => " ?" + " ," + RenderVals(rest)
  }

  function ValuesOf(e: Expr): seq<string> {
    match e
    case One(t) => TermValues(t)
    case Join(t, _, rest) => TermValues(t) + ValuesOf(rest)
  }

  function TermValues(t: Term): seq<string> {
    match t
    case Group(e) => ValuesOf(e)
    case Compare(_, _, val) => [LiteralValue(val)]
    case Member(_, _, _, vals) => ListValues(vals)
  }

  function ListValues(vs: Vals): seq<string> {
    [LiteralValue(vs.v)] + if vs.More? then ListValues(vs.rest) else []
  }

  // ----- composing runs

  lemma {:induction false} RunAppend(cfg: Config, s: Progress, a: seq<string>, b: seq<string>)
    ensures Run(cfg, s, a + b) == var o := Run(cfg, s, a); if o.Failed? then o else Run(cfg, o.s, b)
    decreases |a|
  {
    if a == [] {
      assert a + b == b;
    } else {
      assert (a + b)[0] == a[0] && (a + b)[1..] == a[1..] + b;
      var o := Move(cfg, s, a[0]);
      if o.Going? { RunAppend(cfg, o.s, a[1..], b); }
    }
  }

  lemma Compose(cfg: Config, s: Progress, a: seq<string>, s1: Progress, b: seq<string>, s2: Progress)
    requires Run(cfg, s, a) == Going(s1) && Run(cfg, s1, b) == Going(s2)
    ensures Run(cfg, s, a + b) == Going(s2)
  {
    RunAppend(cfg, s, a, b);
  }

  lemma Consume(cfg: Config, s: Progress, next: Kind, v: string)
    requires next in Transitions(s.kind) && Accepts(next, v)
    ensures Run(cfg, s, [v]) == OnNewToken(cfg, s, next, v)
  {
    MovesTo(s.kind, next, v);
    var o := Move(cfg, s, v);
    assert [v][1..] == [];
    assert o.Going? ==> Run(cfg, o.s, []) == o;
  }

  predicate Expecting(k: Kind) { k.Start? || k.OpenBrace? || k.And? || k.Or? }

  // ----- from trees to runs

  function LiteralKind(v: string, inList: bool): Kind {
    if IsQuoted(v) then (if inList then QuotedValueInList else QuotedValue)
    else (if inList then ValueInList else Value)
  }

  function AfterLiteral(s: Progress, v: string, inList: bool): Progress {
    s.(kind := LiteralKind(v, inList), query := s.query + " ?", values := s.values + [LiteralValue(v)])
  }

  function EndKind(e: Expr): Kind {
    if e.Join? then EndKind(e.rest) else TermEndKind(e.term)
  }

  function TermEndKind(t: Term): Kind {
    if t.Compare? then LiteralKind(t.val, false) else ClosedBrace
  }

  function After(cfg: Config, s: Progress, e: Expr): Progress {
    Progress(EndKind(e), s.openBraces, s.complexity + Joins(e),
             s.query + Render(cfg, e), s.values + ValuesOf(e))
  }

  function AfterTerm(cfg: Config, s: Progress, t: Term): Progress {
    Progress(TermEndKind(t), s.openBraces, s.complexity + TermJoins(t),
             s.query + RenderTerm(cfg, t), s.values + TermValues(t))
  }

  function AfterVals(s: Progress, vs: Vals): Progress {
    s.(kind := ClosedBrace, openBraces := s.openBraces - 1,
       query := s.query + RenderVals(vs), values := s.values + ListValues(vs))
  }

  function AfterJoin(s: Progress, op: string): Progress {
    s.(kind := if Accepts(And, op) then And else Or, complexity := s.complexity + 1,
       query := s.query + (" " + op + " "))
  }

  lemma ConsumeLiteral(cfg: Config, s: Progress, v: string, inList: bool)
    requires IsLiteral(v)
    requires if inList then s.kind.ListOpenBrace? || s.kind.Comma?
             else s.kind.Eq? || s.kind.NotEq? || s.kind.Like? || s.kind.ILike?
    ensures Run(cfg, s, [v]) == Going(AfterLiteral(s, v, inList))
  {
    var k := LiteralKind(v, inList);
    assert k in Transitions(s.kind);
    Consume(cfg, s, k, v);
  }

  lemma ConsumeJoin(cfg: Config, s: Progress, op: string)
    requires CanEnd(s.kind) && IsJoinOp(op) && s.complexity < MAXIMUM_COMPLEXITY
    ensures Run(cfg, s, [op]) == Going(AfterJoin(s, op))
  {
    var k := AfterJoin(s, op).kind;
    assert k in Transitions(s.kind);
    Consume(cfg, s, k, op);
  }

  lemma {:induction false} RunExpr(cfg: Config, s: Progress, e: Expr)
    requires WellFormed(cfg, e) && Expecting(s.kind) && s.openBraces >= 0
    requires s.complexity + Joins(e) <= MAXIMUM_COMPLEXITY
    ensures Run(cfg, s, Tokens(e)) == Going(After(cfg, s, e))
    ensures CanEnd(After(cfg, s, e).kind)
    decreases e, 1
  {
    RunTerm(cfg, s, e.term);
    if e.Join? { RunJoin(cfg, s, e); }
  }

  lemma {:induction false} RunJoin(cfg: Config, s: Progress, e: Expr)
    requires e.Join? && WellFormed(cfg, e) && Expecting(s.kind) && s.openBraces >= 0
    requires s.complexity + Joins(e) <= MAXIMUM_COMPLEXITY
    requires Run(cfg, s, TermTokens(e.term)) == Going(AfterTerm(cfg, s, e.term))
    ensures Run(cfg, s, Tokens(e)) == Going(After(cfg, s, e))
    ensures CanEnd(After(cfg, s, e).kind)
    decreases e, 0
  {
    hide Run;
    var s1 := AfterTerm(cfg, s, e.term);
    var s2 := AfterJoin(s1, e.op);
    var s3 := After(cfg, s2, e.rest);
    ConsumeJoin(cfg, s1, e.op);
    RunExpr(cfg, s2, e.rest);
    Compose(cfg, s, TermTokens(e.term), s1, [e.op], s2);
    Compose(cfg, s, TermTokens(e.term) + [e.op], s2, Tokens(e.rest), s3);
    AfterJoined(cfg, s, e);
  }

  lemma AfterJoined(cfg: Config, s: Progress, e: Expr)
    requires e.Join?
    ensures After(cfg, AfterJoin(AfterTerm(cfg, s, e.term), e.op), e.rest) == After(cfg, s, e)
  {
    hide RenderTerm, TermValues, TermJoins, Accepts;
    Regroup4(s.query, RenderTerm(cfg, e.term), " " + e.op + " ", Render(cfg, e.rest));
    Regroup3(s.values, TermValues(e.term), ValuesOf(e.rest));
  }

  lemma Regroup3<T>(a: seq<T>, b: seq<T>, c: seq<T>)
    ensures a + b + c == a + (b + c)
  {
  }

  lemma Regroup4<T>(a: seq<T>, b: seq<T>, c: seq<T>, d: seq<T>)
    ensures a + b + c + d == a + (b + c + d)
  {
  }

  lemma {:induction false} RunTerm(cfg: Config, s: Progress, t: Term)
    requires WellFormedTerm(cfg, t) && Expecting(s.kind) && s.openBraces >= 0
    requires s.complexity + TermJoins(t) <= MAXIMUM_COMPLEXITY
    ensures Run(cfg, s, TermTokens(t)) == Going(AfterTerm(cfg, s, t))
    decreases t, 0
  {
    match t
    case Group(e) => RunGroup(cfg, s, e);
    case Compare(_, _, _) => RunCompare(cfg, s, t);
    case Member(_, _, _, _) => RunMember(cfg, s, t);
  }

  lemma {:induction false} RunGroup(cfg: Config, s: Progress, e: Expr)
    requires WellFormed(cfg, e) && Expecting(s.kind) && s.openBraces >= 0
    requires s.complexity + Joins(e) <= MAXIMUM_COMPLEXITY
    ensures Run(cfg, s, TermTokens(Group(e))) == Going(AfterTerm(cfg, s, Group(e)))
    decreases e, 2
  {
    hide Run;
    var s1 := OnNewToken(cfg, s, OpenBrace, "(").s;
    var s2 := After(cfg, s1, e);
    var s3 := OnNewToken(cfg, s2, ClosedBrace, ")").s;
    Consume(cfg, s, OpenBrace, "(");
    RunExpr(cfg, s1, e);
    Consume(cfg, s2, ClosedBrace, ")");
    Compose(cfg, s, ["("], s1, Tokens(e), s2);
    Compose(cfg, s, ["("] + Tokens(e), s2, [")"], s3);
    assert s3.query == s.query + ("(" + Render(cfg, e) + ")");
  }

  function CompareKind(op: string): Kind
    requires IsCompareOp(op)
  {
    if Accepts(Eq, op) then Eq else if Accepts(NotEq, op) then NotEq
    else if Accepts(Like, op) then Like else ILike
  }

  lemma RunCompare(cfg: Config, s: Progress, t: Term)
    requires t.Compare? && WellFormedTerm(cfg, t) && Expecting(s.kind)
    ensures Run(cfg, s, TermTokens(t)) == Going(AfterTerm(cfg, s, t))
  {
    hide Run;
    var k := CompareKind(t.op);
    var s1 := OnNewToken(cfg, s, Column, t.col).s;
    var s2 := OnNewToken(cfg, s1, k, t.op).s;
    var s3 := AfterLiteral(s2, t.val, false);
    Consume(cfg, s, Column, t.col);
    Consume(cfg, s1, k, t.op);
    ConsumeLiteral(cfg, s2, t.val, false);
    Compose(cfg, s, [t.col], s1, [t.op], s2);
    Compose(cfg, s, [t.col] + [t.op], s2, [t.val], s3);
    assert TermTokens(t) == [t.col] + [t.op] + [t.val];
    Regroup4(s.query, Qualified(cfg, t.col), " " + t.op, " ?");
  }

  /** The machine between `column [NOT]` and `IN (`. */
  function AfterSubject(cfg: Config, s: Progress, t: Term): Progress
    requires t.Member?
  {
    s.(kind := if t.neg.Some? then Not else Column, complexity := s.complexity + TermJoins(t),
       query := s.query + (Qualified(cfg, t.col) + (if t.neg.Some? then " " + t.neg.value + " " else "")))
  }

  lemma RunSubject(cfg: Config, s: Progress, t: Term)
    requires t.Member? && WellFormedTerm(cfg, t) && Expecting(s.kind)
    requires s.complexity + TermJoins(t) <= MAXIMUM_COMPLEXITY
    ensures Run(cfg, s, [t.col] + if t.neg.Some? then [t.neg.value] else [])
            == Going(AfterSubject(cfg, s, t))
  {
    hide Run;
    var s1 := OnNewToken(cfg, s, Column, t.col).s;
    Consume(cfg, s, Column, t.col);
    if t.neg.Some? {
      Consume(cfg, s1, Not, t.neg.value);
      Compose(cfg, s, [t.col], s1, [t.neg.value], AfterSubject(cfg, s, t));
    } else {
      assert [t.col] + [] == [t.col];
    }
  }

  lemma RunMember(cfg: Config, s: Progress, t: Term)
    requires t.Member? && WellFormedTerm(cfg, t) && Expecting(s.kind) && s.openBraces >= 0
    requires s.complexity + TermJoins(t) <= MAXIMUM_COMPLEXITY
    ensures Run(cfg, s, TermTokens(t)) == Going(AfterTerm(cfg, s, t))
  {
    hide Run;
    var subject := [t.col] + if t.neg.Some? then [t.neg.value] else [];
    var s2 := AfterSubject(cfg, s, t);
    var s3 := s2.(kind := In, query := s2.query + (" " + t.inTok));
    var s4 := s3.(kind := ListOpenBrace, openBraces := s.openBraces + 1, query := s3.query + "(");
    RunSubject(cfg, s, t);
    Consume(cfg, s2, In, t.inTok);
    Consume(cfg, s3, ListOpenBrace, "(");
    RunVals(cfg, s4, t.vals);
    Compose(cfg, s, subject, s2, [t.inTok], s3);
    Compose(cfg, s, subject + [t.inTok], s3, ["("], s4);
    Compose(cfg, s, subject + [t.inTok] + ["("], s4, ValsTokens(t.vals), AfterVals(s4, t.vals));
    MemberPieces(cfg, s, t);
  }

  lemma MemberPieces(cfg: Config, s: Progress, t: Term)
    requires t.Member?
    ensures TermTokens(t) == ([t.col] + if t.neg.Some? then [t.neg.value] else [])
                             + [t.inTok] + ["("] + ValsTokens(t.vals)
    ensures AfterTerm(cfg, s, t).query
            == AfterSubject(cfg, s, t).query + (" " + t.inTok) + "(" + RenderVals(t.vals)
  {
  }

  lemma {:induction false} RunVals(cfg: Config, s: Progress, vs: Vals)
    requires AllLiterals(vs) && s.openBraces >= 1 && (s.kind.ListOpenBrace? || s.kind.Comma?)
    ensures Run(cfg, s, ValsTokens(vs)) == Going(AfterVals(s, vs))
    decreases vs
  {
    RunValue(cfg, s, vs);
    hide Run, IsLiteral;
    if vs.More? {
      var s2 := AfterValue(s, vs);
      RunVals(cfg, s2, vs.rest);
      Compose(cfg, s, [vs.v] + [","], s2, ValsTokens(vs.rest), AfterVals(s2, vs.rest));
      Regroup4(s.query, " ?", " ,", RenderVals(vs.rest));
      Regroup3(s.values, [LiteralValue(vs.v)], ListValues(vs.rest));
      assert ValsTokens(vs) == [vs.v] + [","] + ValsTokens(vs.rest);
    } else {
      Regroup3(s.query, " ?", ")");
      assert ValsTokens(vs) == [vs.v] + [")"];
    }
  }

  /** The machine past the first value of a list and what follows it. */
  function AfterValue(s: Progress, vs: Vals): Progress {
    s.(kind := if vs.Last? then ClosedBrace else Comma, openBraces := s.openBraces - if vs.Last? then 1 else 0,
       query := s.query + " ?" + if vs.Last? then ")" else " ,", values := s.values + [LiteralValue(vs.v)])
  }

  lemma RunValue(cfg: Config, s: Progress, vs: Vals)
    requires IsLiteral(vs.v) && s.openBraces >= 1 && (s.kind.ListOpenBrace? || s.kind.Comma?)
    ensures Run(cfg, s, [vs.v] + [if vs.Last? then ")" else ","]) == Going(AfterValue(s, vs))
  {
    hide Run;
    var sep, k := if vs.Last? then ")" else ",", if vs.Last? then ClosedBrace else Comma;
    var s1 := AfterLiteral(s, vs.v, true);
    ConsumeLiteral(cfg, s, vs.v, true);
    Consume(cfg, s1, k, sep);
    Compose(cfg, s, [vs.v], s1, [sep], AfterValue(s, vs));
  }

  // ----- from runs to trees

  predicate Accepted(cfg: Config, s: Progress, tokens: seq<string>) {
    var o := Run(cfg, s, tokens);
    o.Going? && CanEnd(o.s.kind) && o.s.openBraces <= 0
  }

  /** The first step of an accepting run. */
  lemma Peel(cfg: Config, s: Progress, tokens: seq<string>) returns (k: Kind, s1: Progress)
    requires Accepted(cfg, s, tokens) && (tokens != [] || !CanEnd(s.kind) || s.openBraces > 0)
    ensures tokens != [] && k in Transitions(s.kind) && Accepts(k, tokens[0])
    ensures OnNewToken(cfg, s, k, tokens[0]) == Going(s1) && Accepted(cfg, s1, tokens[1..])
  {
    k := FirstAccepting(Transitions(s.kind), tokens[0]).value;
    s1 := OnNewToken(cfg, s, k, tokens[0]).s;
  }

  lemma AcceptedAfterExpr(cfg: Config, s: Progress, e: Expr, rest: seq<string>)
    requires WellFormed(cfg, e) && Expecting(s.kind) && s.openBraces >= 0
    requires s.complexity + Joins(e) <= MAXIMUM_COMPLEXITY && Accepted(cfg, s, Tokens(e) + rest)
    ensures Accepted(cfg, After(cfg, s, e), rest) && CanEnd(EndKind(e))
  {
    RunExpr(cfg, s, e);
    RunAppend(cfg, s, Tokens(e), rest);
  }

  lemma AcceptedAfterTerm(cfg: Config, s: Progress, t: Term, rest: seq<string>)
    requires WellFormedTerm(cfg, t) && Expecting(s.kind) && s.openBraces >= 0
    requires s.complexity + TermJoins(t) <= MAXIMUM_COMPLEXITY && Accepted(cfg, s, TermTokens(t) + rest)
    ensures Accepted(cfg, AfterTerm(cfg, s, t), rest) && CanEnd(TermEndKind(t))
  {
    RunTerm(cfg, s, t);
    RunAppend(cfg, s, TermTokens(t), rest);
  }

  lemma {:induction false} ReadExpr(cfg: Config, s: Progress, tokens: seq<string>)
    returns (e: Expr, rest: seq<string>)
    requires Expecting(s.kind) && s.openBraces >= 0 && s.complexity <= MAXIMUM_COMPLEXITY
    requires Accepted(cfg, s, tokens)
    ensures WellFormed(cfg, e) && tokens == Tokens(e) + rest && EndsExpr(rest)
    ensures s.complexity + Joins(e) <= MAXIMUM_COMPLEXITY
    ensures Accepted(cfg, After(cfg, s, e), rest) && CanEnd(EndKind(e))
    decreases |tokens|, 1
  {
    hide Accepted, Run;
    var t, tail := ReadTerm(cfg, s, tokens);
    if EndsExpr(tail) {
      e, rest := One(t), tail;
    } else {
      var s1 := AfterTerm(cfg, s, t);
      var k, s2 := Peel(cfg, s1, tail);
      var e2, r2 := ReadExpr(cfg, s2, tail[1..]);
      e, rest := Join(t, tail[0], e2), r2;
      JoinedTokens(t, tail, e2, r2);
    }
    AcceptedAfterExpr(cfg, s, e, rest);
  }

  lemma JoinedTokens(t: Term, tail: seq<string>, e: Expr, rest: seq<string>)
    requires tail != [] && tail[1..] == Tokens(e) + rest
    ensures TermTokens(t) + tail == Tokens(Join(t, tail[0], e)) + rest
  {
    hide TermTokens;
    assert tail == [tail[0]] + tail[1..];
    Regroup4(TermTokens(t), [tail[0]], Tokens(e), rest);
  }

  lemma {:induction false} ReadTerm(cfg: Config, s: Progress, tokens: seq<string>)
    returns (t: Term, rest: seq<string>)
    requires Expecting(s.kind) && s.openBraces >= 0 && s.complexity <= MAXIMUM_COMPLEXITY
    requires Accepted(cfg, s, tokens)
    ensures WellFormedTerm(cfg, t) && tokens == TermTokens(t) + rest && |rest| < |tokens|
    ensures s.complexity + TermJoins(t) <= MAXIMUM_COMPLEXITY
    ensures Accepted(cfg, AfterTerm(cfg, s, t), rest) && CanEnd(TermEndKind(t))
    decreases |tokens|, 0
  {
    hide Accepted, Run;
    var k, s1 := Peel(cfg, s, tokens);
    if k == OpenBrace {
      t, rest := ReadGroup(cfg, s, s1, tokens);
    } else {
      t, rest := ReadColumnTerm(cfg, s1, tokens);
    }
    AcceptedAfterTerm(cfg, s, t, rest);
  }

  lemma {:induction false} ReadGroup(cfg: Config, s: Progress, s1: Progress, tokens: seq<string>)
    returns (t: Term, rest: seq<string>)
    requires s.openBraces >= 0 && s.complexity <= MAXIMUM_COMPLEXITY && tokens != []
    requires tokens[0] == "(" && OnNewToken(cfg, s, OpenBrace, "(") == Going(s1)
    requires Accepted(cfg, s1, tokens[1..])
    ensures WellFormedTerm(cfg, t) && tokens == TermTokens(t) + rest && |rest| < |tokens|
    ensures s.complexity + TermJoins(t) <= MAXIMUM_COMPLEXITY
    decreases |tokens| - 1, 2
  {
    hide Accepted, Run;
    var e, tail := ReadExpr(cfg, s1, tokens[1..]);
    var k, s2 := Peel(cfg, After(cfg, s1, e), tail);
    t, rest := Group(e), tail[1..];
    assert tokens == ["("] + Tokens(e) + [")"] + rest;
  }

  lemma ReadColumnTerm(cfg: Config, s: Progress, tokens: seq<string>)
    returns (t: Term, rest: seq<string>)
    requires s.openBraces >= 0 && s.complexity <= MAXIMUM_COMPLEXITY && s.kind == Column
    requires tokens != [] && IsKnownColumn(cfg, tokens[0]) && Accepted(cfg, s, tokens[1..])
    ensures WellFormedTerm(cfg, t) && tokens == TermTokens(t) + rest && |rest| < |tokens|
    ensures s.complexity + TermJoins(t) <= MAXIMUM_COMPLEXITY
  {
    hide Accepted, Run;
    var k, s1 := Peel(cfg, s, tokens[1..]);
    if k == In || k == Not {
      t, rest := ReadMember(cfg, s, k, s1, tokens);
    } else {
      t, rest := ReadCompare(cfg, k, s1, tokens);
    }
  }

  lemma ReadCompare(cfg: Config, k: Kind, s1: Progress, tokens: seq<string>)
    returns (t: Term, rest: seq<string>)
    requires |tokens| >= 2 && IsKnownColumn(cfg, tokens[0]) && k in {Eq, NotEq, Like, ILike} && Accepts(k, tokens[1])
    requires s1.kind == k && Accepted(cfg, s1, tokens[2..])
    ensures WellFormedTerm(cfg, t) && tokens == TermTokens(t) + rest && |rest| < |tokens| && TermJoins(t) == 0
  {
    hide Accepted, Run, OnNewToken, IsKnownColumn;
    var k2, s2 := Peel(cfg, s1, tokens[2..]);
    assert IsLiteral(tokens[2]) && IsCompareOp(tokens[1]);
    hide Accepts, IsLiteral, IsCompareOp;
    t, rest := Compare(tokens[0], tokens[1], tokens[2]), tokens[3..];
    assert tokens == [tokens[0], tokens[1], tokens[2]] + tokens[3..];
  }

  lemma ReadMember(cfg: Config, s: Progress, k: Kind, s1: Progress, tokens: seq<string>)
    returns (t: Term, rest: seq<string>)
    requires s.openBraces >= 0 && s.complexity <= MAXIMUM_COMPLEXITY && |tokens| >= 2
    requires IsKnownColumn(cfg, tokens[0]) && k in {In, Not} && Accepts(k, tokens[1])
    requires OnNewToken(cfg, s, k, tokens[1]) == Going(s1) && Accepted(cfg, s1, tokens[2..])
    ensures WellFormedTerm(cfg, t) && tokens == TermTokens(t) + rest && |rest| < |tokens|
    ensures s.complexity + TermJoins(t) <= MAXIMUM_COMPLEXITY
  {
    hide Accepted, Run;
    var neg, n, s1 := None, 1, s1;
    if k == Not {
      neg, n := Some(tokens[1]), 2;
      var kIn, sIn := Peel(cfg, s1, tokens[2..]);
      s1 := sIn;
    }
    var k2, s2 := Peel(cfg, s1, tokens[n + 1..]);
    var vals, tail := ReadVals(cfg, s2, tokens[n + 2..]);
    t, rest := Member(tokens[0], neg, tokens[n], vals), tail;
    assert tokens == tokens[..n + 2] + (ValsTokens(vals) + rest);
    assert tokens[..n + 2] == [t.col] + (if neg.Some? then [neg.value] else []) + [t.inTok, "("];
  }

  lemma PeelValue(cfg: Config, s: Progress, tokens: seq<string>) returns (k: Kind, s2: Progress)
    requires (s.kind == ListOpenBrace || s.kind == Comma) && Accepted(cfg, s, tokens)
    ensures |tokens| >= 2 && IsLiteral(tokens[0]) && Accepted(cfg, s2, tokens[2..])
    ensures (k == ClosedBrace && tokens[1] == ")") || (k == Comma && tokens[1] == "," && s2.kind == Comma)
  {
    hide Accepted, Run;
    var k1, s1 := Peel(cfg, s, tokens);
    k, s2 := Peel(cfg, s1, tokens[1..]);
    assert tokens[1..][1..] == tokens[2..];
  }

  lemma {:induction false} ReadVals(cfg: Config, s: Progress, tokens: seq<string>)
    returns (vs: Vals, rest: seq<string>)
    requires (s.kind == ListOpenBrace || s.kind == Comma) && Accepted(cfg, s, tokens)
    ensures AllLiterals(vs) && tokens == ValsTokens(vs) + rest && |rest| < |tokens|
    decreases |tokens|
  {
    hide Accepted, Run, Accepts, IsLiteral;
    var k2, s2 := PeelValue(cfg, s, tokens);
    assert tokens == [tokens[0], tokens[1]] + tokens[2..];
    if k2 == ClosedBrace {
      vs, rest := Last(tokens[0]), tokens[2..];
    } else {
      var vs2, r2 := ReadVals(cfg, s2, tokens[2..]);
      vs, rest := More(tokens[0], vs2), r2;
      Regroup3([tokens[0], tokens[1]], ValsTokens(vs2), r2);
    }
  }

  /** The table and the two counters recognise exactly the grammar. */
  lemma RecognisesExactly(cfg: Config, query: string, values: seq<string>, tokens: seq<string>)
    ensures Finish(Run(cfg, Initial(query, values), tokens)).Going?
            <==> exists e :: Derives(cfg, e, tokens)
  {
    var s := Initial(query, values);
    if Accepted(cfg, s, tokens) {
      var e, rest := ReadExpr(cfg, s, tokens);
      if rest != [] {
        // the brace counter is back at zero, so a closing brace cannot follow
        var k, s1 := Peel(cfg, After(cfg, s, e), rest);
        assert false;
      }
      assert Tokens(e) + rest == Tokens(e);
      assert Derives(cfg, e, tokens);
    }
    if e :| Derives(cfg, e, tokens) {
      RunExpr(cfg, s, e);
    }
  }

  /** The clause of an accepted input is the rendering of its one tree. */
  lemma EmitsItsTree(cfg: Config, query: string, values: seq<string>, tokens: seq<string>, e: Expr)
    requires Derives(cfg, e, tokens)
    ensures var o := Finish(Run(cfg, Initial(query, values), tokens));
            && o.Going? && o.s.query == Trim(query + Render(cfg, e))
            && o.s.values == values + ValuesOf(e)
  {
    RunExpr(cfg, Initial(query, values), e);
  }

  /** One parser object; a second `Parse` goes on writing the same clause. */
  class Parser {
    const cfg: Config
    var query: string
    var values: seq<string>

    constructor (columnPrefix: string, columns: seq<string>)
      ensures query == "" && values == [] && cfg.prefix == columnPrefix
      ensures columns != [] ==> cfg.validColumns == columns
      ensures columns == [] ==>
                cfg.validColumns == ["region", "name", "cloud_provider", "status", "owner", "cluster_id"]
    {
      cfg := Config(if columns == [] then DEFAULT_COLUMNS else columns, columnPrefix);
      query, values := "", [];
    }

    method Parse(tokens: seq<string>) returns (error: Option<Error>)
      modifies this
      ensures error.None? <==> exists e :: Derives(cfg, e, tokens)
      ensures forall e | Derives(cfg, e, tokens) ::
                && query == Trim(old(query) + Render(cfg, e))
                && values == old(values) + ValuesOf(e)
      ensures var o := Finish(Run(cfg, Initial(old(query), old(values)), tokens));
              && query == o.s.query && values == o.s.values
              && error == if o.Failed? then Some(o.error) else None
    {
      ghost var start := Initial(query, values);
      RecognisesExactly(cfg, query, values, tokens);
      forall e | Derives(cfg, e, tokens) { EmitsItsTree(cfg, query, values, tokens, e); }
      var state := Initial(query, values);
      var i := 0;
      while i < |tokens|
        invariant 0 <= i <= |tokens|
        invariant query == state.query && values == state.values
        invariant Run(cfg, start, tokens) == Run(cfg, state, tokens[i..])
      {
        assert tokens[i..][1..] == tokens[i + 1..];
        var next := Move(cfg, state, tokens[i]);
        query, values := next.s.query, next.s.values;
        if next.Failed? {
          return Some(next.error);
        }
        state := next.s;
        i := i + 1;
      }
      if !CanEnd(state.kind) {
        return Some(UnexpectedEnd);
      }
      if state.openBraces > 0 {
        return Some(UnclosedBrace);
      }
      query := Trim(query);
      error := None;
    }
  }

  const DEFAULT_COLUMNS: seq<string> :=
    ["region", "name", "cloud_provider", "status", "owner", "cluster_id"]
}
