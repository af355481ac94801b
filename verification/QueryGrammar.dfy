/** The query language as trees, independent of the state machine. */
module QueryGrammar {
  import opened Options
  import opened QueryTokens

  /** expr := term ((AND|OR) term)* */
  datatype Expr = One(term: Term) | Join(term: Term, op: string, rest: Expr)

  /** term := '(' expr ')' | column op value | column [NOT] IN '(' v (',' v)* ')' */
  datatype Term =
    | Group(e: Expr)
    | Compare(col: string, op: string, val: string)
    | Member(col: string, neg: Option<string>, inTok: string, vals: Vals)

  datatype Vals = Last(v: string) | More(v: string, rest: Vals)

  datatype Config = Config(validColumns: seq<string>, prefix: string)

  const MAXIMUM_COMPLEXITY := 10

  // ----- well-formed trees and the tokens they spell

  predicate IsJoinOp(t: string) { Accepts(And, t) || Accepts(Or, t) }

  predicate IsCompareOp(t: string) {
    Accepts(Eq, t) || Accepts(NotEq, t) || Accepts(Like, t) || Accepts(ILike, t)
  }

  predicate IsLiteral(t: string) { IsQuoted(t) || IsValue(t) }

  predicate IsKnownColumn(cfg: Config, t: string) {
    IsColumn(t) && Lower(t) in cfg.validColumns
  }

  predicate WellFormed(cfg: Config, e: Expr) {
    match e
    case One(t) => WellFormedTerm(cfg, t)
    case Join(t, op, rest) => WellFormedTerm(cfg, t) && IsJoinOp(op) && WellFormed(cfg, rest)
  }

  predicate WellFormedTerm(cfg: Config, t: Term) {
    match t
    case Group(e) => WellFormed(cfg, e)
    case Compare(col, op, val) => IsKnownColumn(cfg, col) && IsCompareOp(op) && IsLiteral(val)
    case Member(col, neg, inTok, vals) =>
      && IsKnownColumn(cfg, col) && (neg.Some? ==> Accepts(Not, neg.value))
      && Accepts(In, inTok) && AllLiterals(vals)
  }

  predicate AllLiterals(vs: Vals) {
    IsLiteral(vs.v) && (vs.More? ==> AllLiterals(vs.rest))
  }

  function Tokens(e: Expr): (r: seq<string>)
    ensures |r| > 0
  {
    match e
    case One(t) => TermTokens(t)
    case Join(t, op, rest) => TermTokens(t) + [op] + Tokens(rest)
  }

  function TermTokens(t: Term): (r: seq<string>)
    ensures |r| > 0
  {
    match t
    case Group(e) => ["("] + Tokens(e) + [")"]
    case Compare(col, op, val) => [col, op, val]
    case Member(col, neg, inTok, vals) =>
      [col] + (if neg.Some? then [neg.value] else []) + [inTok, "("] + ValsTokens(vals)
  }

  function ValsTokens(vs: Vals): (r: seq<string>)
    ensures |r| > 0
  {
    match vs
    case Last(v) => [v, ")"]
    case More(v, rest) => [v, ","] + ValsTokens(rest)
  }

  /** The number of AND, OR and NOT tokens. */
  function Joins(e: Expr): nat {
    match e
    case One(t) => TermJoins(t)
    case Join(t, _, rest) => TermJoins(t) + 1 + Joins(rest)
  }

  function TermJoins(t: Term): nat {
    match t
    case Group(e) => Joins(e)
    case Compare(_, _, _) => 0
    case Member(_, neg, _, _) => if neg.Some? then 1 else 0
  }

  ghost predicate Derives(cfg: Config, e: Expr, tokens: seq<string>) {
    WellFormed(cfg, e) && Tokens(e) == tokens && Joins(e) <= 10
  }

  // ----- unambiguity

  /** What it takes for a tree to be readable back from its tokens; nothing is
      asked of the values, which may well be `)` or `and`. */
  predicate Readable(e: Expr) {
    match e
    case One(t) => ReadableTerm(t)
    case Join(t, op, rest) => ReadableTerm(t) && op != ")" && Readable(rest)
  }

  predicate ReadableTerm(t: Term) {
    match t
    case Group(e) => Readable(e)
    case Compare(col, op, _) => col != "(" && Lower(op) != "in" && Lower(op) != "not"
    case Member(col, neg, inTok, _) =>
      && col != "(" && Lower(inTok) == "in" && (neg.Some? ==> Lower(neg.value) == "not")
  }

  lemma WellFormedIsReadable(cfg: Config, e: Expr)
    requires WellFormed(cfg, e)
    ensures Readable(e)
  {
    WellFormedTermIsReadable(cfg, e.term);
    if e.Join? {
      WellFormedIsReadable(cfg, e.rest);
    }
  }

  lemma WellFormedTermIsReadable(cfg: Config, t: Term)
    requires WellFormedTerm(cfg, t)
    ensures ReadableTerm(t)
  {
    match t
    case Group(e) => WellFormedIsReadable(cfg, e);
    case Compare(_, op, _) =>
      forall k | k in [Eq, NotEq, Like, ILike] && Accepts(k, op)
        ensures !Accepts(In, op) && !Accepts(Not, op)
      {
        assert k in Transitions(Column);
        if Accepts(In, op) { SuccessorsAreDisjoint(Column, k, In, op); }
        if Accepts(Not, op) { SuccessorsAreDisjoint(Column, k, Not, op); }
      }
      assert Eq in [Eq, NotEq, Like, ILike] && NotEq in [Eq, NotEq, Like, ILike];
      assert Like in [Eq, NotEq, Like, ILike] && ILike in [Eq, NotEq, Like, ILike];
    case Member(_, _, _, _) =>
  }

  /** An expression ends where the tokens end or a `)` stands. */
  predicate EndsExpr(rest: seq<string>) { rest == [] || rest[0] == ")" }

  function AfterFirst(e: Expr, rest: seq<string>): seq<string> {
    if e.One? then rest else [e.op] + (Tokens(e.rest) + rest)
  }

  lemma SplitFirst(e: Expr, rest: seq<string>)
    ensures Tokens(e) + rest == TermTokens(e.term) + AfterFirst(e, rest)
  {
  }

  lemma {:induction false} ExprUnambiguous(a: Expr, ra: seq<string>, b: Expr, rb: seq<string>)
    requires Readable(a) && Readable(b) && EndsExpr(ra) && EndsExpr(rb)
    requires Tokens(a) + ra == Tokens(b) + rb
    ensures a == b && ra == rb
    decreases a, 1
  {
    var ta, tb := AfterFirst(a, ra), AfterFirst(b, rb);
    SplitFirst(a, ra);
    SplitFirst(b, rb);
    TermUnambiguous(a.term, ta, b.term, tb);
    if a.Join? && b.Join? {
      assert ta[1..] == tb[1..];
      ExprUnambiguous(a.rest, ra, b.rest, rb);
    }
  }

  lemma {:induction false} TermUnambiguous(a: Term, ra: seq<string>, b: Term, rb: seq<string>)
    requires ReadableTerm(a) && ReadableTerm(b)
    requires TermTokens(a) + ra == TermTokens(b) + rb
    ensures a == b && ra == rb
    decreases a, 0
  {
    SameShape(a, ra, b, rb);
    var all := TermTokens(a) + ra;
    match a
    case Group(e) =>
      assert all[1..] == Tokens(e) + ([")"] + ra);
      assert all[1..] == Tokens(b.e) + ([")"] + rb);
      ExprUnambiguous(e, [")"] + ra, b.e, [")"] + rb);
      assert ([")"] + ra)[1..] == ra && ([")"] + rb)[1..] == rb;
    case Compare(col, op, val) =>
      assert all[3..] == ra && all[3..] == rb;
      assert all[0] == col && all[0] == b.col && all[1] == op && all[1] == b.op && all[2] == val && all[2] == b.val;
    case Member(col, neg, inTok, vals) =>
      MemberUnambiguous(a, ra, b, rb);
  }

  /** The first two tokens tell which kind of term it is. */
  lemma SameShape(a: Term, ra: seq<string>, b: Term, rb: seq<string>)
    requires ReadableTerm(a) && ReadableTerm(b)
    requires TermTokens(a) + ra == TermTokens(b) + rb
    ensures a.Group? == b.Group? && a.Member? == b.Member?
  {
    hide Readable, Tokens, ValsTokens;
    var all := TermTokens(a) + ra;
    SecondToken(a, ra);
    SecondToken(b, rb);
    assert Lower(all[1]) == "in" || Lower(all[1]) == "not" || !(Lower(all[1]) == "in" || Lower(all[1]) == "not");
  }

  lemma SecondToken(a: Term, ra: seq<string>)
    ensures var all := TermTokens(a) + ra; all[0] == if a.Group? then "(" else a.col
    ensures a.Compare? ==> |TermTokens(a)| > 1 && (TermTokens(a) + ra)[1] == a.op
    ensures a.Member? ==> |TermTokens(a)| > 1 && (TermTokens(a) + ra)[1] == if a.neg.Some? then a.neg.value else a.inTok
  {
  }

  lemma MemberUnambiguous(a: Term, ra: seq<string>, b: Term, rb: seq<string>)
    requires a.Member? && b.Member? && ReadableTerm(a) && ReadableTerm(b)
    requires TermTokens(a) + ra == TermTokens(b) + rb
    ensures a == b && ra == rb
  {
    var all := TermTokens(a) + ra;
    SecondToken(a, ra);
    SecondToken(b, rb);
    assert Lower(all[1]) == "in" ==> |Lower(all[1])| == 2;
    assert Lower(all[1]) == "not" ==> |Lower(all[1])| == 3;
    assert a.neg == b.neg;
    MemberTail(a, ra);
    MemberTail(b, rb);
    ValsUnambiguous(a.vals, ra, b.vals, rb);
  }

  lemma MemberTail(a: Term, ra: seq<string>)
    requires a.Member?
    ensures var all, n := TermTokens(a) + ra, if a.neg.Some? then 4 else 3;
            n <= |TermTokens(a)| && all[n..] == ValsTokens(a.vals) + ra && all[n - 2] == a.inTok
  {
  }

  lemma {:induction false} ValsUnambiguous(a: Vals, ra: seq<string>, b: Vals, rb: seq<string>)
    requires ValsTokens(a) + ra == ValsTokens(b) + rb
    ensures a == b && ra == rb
  {
    var all := ValsTokens(a) + ra;
    assert all[0] == a.v && all[0] == b.v;
    assert all[1] == (if a.Last? then ")" else ",") && all[1] == (if b.Last? then ")" else ",");
    assert a.Last? == b.Last? by { assert ")"[0] != ","[0]; }
    if a.Last? {
      assert all[2..] == ra && all[2..] == rb;
    } else {
      assert all[2..] == ValsTokens(a.rest) + ra && all[2..] == ValsTokens(b.rest) + rb;
      ValsUnambiguous(a.rest, ra, b.rest, rb);
    }
  }

  /** A token sequence has at most one tree: list braces and group braces are
      never confused although both are written `(` and `)`. */
  lemma DerivationIsUnique(cfg: Config, a: Expr, b: Expr)
    requires WellFormed(cfg, a) && WellFormed(cfg, b) && Tokens(a) == Tokens(b)
    ensures a == b
  {
    WellFormedIsReadable(cfg, a);
    WellFormedIsReadable(cfg, b);
    assert Tokens(a) + [] == Tokens(b) + [];
    ExprUnambiguous(a, [], b, []);
  }
}
