/** When and why the parser stops: at the first token that no query can hold
    there, with the clause of the tokens before it left behind. */
module QueryErrors {
  import opened Options
  import opened QueryTokens
  import opened QueryGrammar
  import opened QueryPatterns
  import opened QueryParser

  // ----- viable prefixes

  predicate InList(k: Kind) { k.ListOpenBrace? || k.Comma? || k.QuotedValueInList? || k.ValueInList? }

  /** What every reached state keeps: a list is read inside its own brace. */
  predicate Balanced(s: Progress) { s.openBraces >= 0 && (InList(s.kind) ==> s.openBraces >= 1) }

  lemma {:induction false} RunStaysBalanced(cfg: Config, s: Progress, tokens: seq<string>)
    requires Balanced(s)
    ensures Run(cfg, s, tokens).Going? ==> Balanced(Run(cfg, s, tokens).s)
    decreases |tokens|
  {
    if tokens != [] {
      var o := Move(cfg, s, tokens[0]);
      if o.Going? {
        MoveStaysBalanced(cfg, s, tokens[0]);
        RunStaysBalanced(cfg, o.s, tokens[1..]);
      }
    }
  }

  lemma MoveStaysBalanced(cfg: Config, s: Progress, v: string)
    requires Balanced(s) && Move(cfg, s, v).Going?
    ensures Balanced(Move(cfg, s, v).s)
  {
    var k := FirstAccepting(Transitions(s.kind), v).value;
    assert k in Transitions(s.kind) && Accepts(k, v);
    hide FirstAccepting, IsColumn, IsValue, IsQuoted, Qualified, Unquote;
  }

  function Braces(n: nat): seq<string> { seq(n, i => ")") }

  /** A value already read, all it takes to end is to close every brace. */
  lemma {:induction false} Closes(cfg: Config, s: Progress, n: nat)
    requires s.openBraces == n && (CanEnd(s.kind) || ((s.kind.ValueInList? || s.kind.QuotedValueInList?) && n >= 1))
    ensures Finish(Run(cfg, s, Braces(n))).Going?
    decreases n
  {
    if n > 0 {
      Consume(cfg, s, ClosedBrace, ")");
      assert Braces(n)[0] == ")" && Braces(n)[1..] == Braces(n - 1);
      Closes(cfg, Move(cfg, s, ")").s, n - 1);
    }
  }

  /** How many tokens a state is away from a complete value. */
  function Missing(k: Kind): nat {
    match k
    case Start | OpenBrace | And | Or | Not => 3
    case Column | In => 2
    case Eq | NotEq | Like | ILike | ListOpenBrace | Comma => 1
    case Value | QuotedValue | ValueInList | QuotedValueInList | ClosedBrace => 0
  }

  /** A next token that always fits, given one known column. */
  function Filler(k: Kind, column: string): (r: (Kind, string))
    requires Missing(k) > 0 && IsColumn(column)
    ensures r.0 in Transitions(k) && Accepts(r.0, r.1) && Missing(r.0) < Missing(k)
    ensures InList(r.0) ==> InList(k) || r.0.ListOpenBrace?
  {
    match k
    case Start | OpenBrace | And | Or => (Column, column)
    case Column => (Eq, "=")
    case Eq | NotEq | Like | ILike => (Value, "x")
    case Not => assert Lower("in") == "in"; (In, "in")
    case In => (ListOpenBrace, "(")
    case ListOpenBrace | Comma => (ValueInList, "x")
  }

  lemma {:induction false} Completes(cfg: Config, column: string, s: Progress) returns (q: seq<string>)
    requires Balanced(s) && IsKnownColumn(cfg, column)
    ensures Finish(Run(cfg, s, q)).Going?
    decreases Missing(s.kind)
  {
    if Missing(s.kind) == 0 {
      q := Braces(s.openBraces);
      Closes(cfg, s, s.openBraces);
    } else {
      var (k, v) := Filler(s.kind, column);
      Consume(cfg, s, k, v);
      var o := OnNewToken(cfg, s, k, v);
      var rest := Completes(cfg, column, o.s);
      RunAppend(cfg, s, [v], rest);
      q := [v] + rest;
    }
  }

  /** The parser goes on exactly as long as the tokens read so far begin some
      query: it reports an error at the first token that no query has there. */
  lemma ViablePrefix(cfg: Config, column: string, query: string, values: seq<string>, tokens: seq<string>)
    requires IsKnownColumn(cfg, column)
    ensures Run(cfg, Initial(query, values), tokens).Going? <==> exists q, e :: Derives(cfg, e, tokens + q)
  {
    var s := Initial(query, values);
    if Run(cfg, s, tokens).Going? {
      RunStaysBalanced(cfg, s, tokens);
      var q := Completes(cfg, column, Run(cfg, s, tokens).s);
      RunAppend(cfg, s, tokens, q);
      RecognisesExactly(cfg, query, values, tokens + q);
    }
    if q, e :| Derives(cfg, e, tokens + q) {
      RecognisesExactly(cfg, query, values, tokens + q);
      RunAppend(cfg, s, tokens, q);
    }
  }

  // ----- which error

  /** A token fits a state as one of its successors. */
  predicate Fits(k: Kind, from: Kind, v: string) {
    k in Transitions(from) && !k.Start? && Matches(Pattern(k), v)
  }

  /** Why a token is refused, said on the patterns of the token table. */
  ghost predicate Explains(cfg: Config, s: Progress, v: string, error: Error) {
    match error
    case UnexpectedToken => forall k :: !Fits(k, s.kind, v)
    case UnexpectedCloseBrace => Fits(ClosedBrace, s.kind, v) && s.openBraces == 0
    case TooManyJoins =>
      (Fits(And, s.kind, v) || Fits(Or, s.kind, v) || Fits(Not, s.kind, v)) && s.complexity >= 10
    case InvalidColumn =>
      && Fits(Column, s.kind, v)
      && forall name | name in cfg.validColumns :: !(HasNoCapital(name) && SameUpToCase(name, v))
    case UnexpectedEnd | UnclosedBrace => false
  }

  /** At most one successor fits, and the machine takes it. */
  lemma TakesTheOneThatFits(from: Kind, v: string, k: Kind)
    ensures FirstAccepting(Transitions(from), v) == Some(k) <==> Fits(k, from, v)
  {
    if k in Transitions(from) {
      assert !k.Start?;
      AcceptsItsPattern(k, v);
      hide Transitions, Accepts, Matches, Pattern;
      if Accepts(k, v) { MovesTo(from, k, v); }
    }
  }

  lemma TakesNoneThatFits(from: Kind, v: string)
    ensures FirstAccepting(Transitions(from), v).None? <==> forall k :: !Fits(k, from, v)
  {
    var next := FirstAccepting(Transitions(from), v);
    if next.Some? { TakesTheOneThatFits(from, v, next.value); }
    forall k { TakesTheOneThatFits(from, v, k); }
  }

  /** The same for a token that does fit, as a successor `k`. */
  ghost predicate ExplainsAs(cfg: Config, s: Progress, k: Kind, v: string, error: Error) {
    match error
    case UnexpectedCloseBrace => k == ClosedBrace && s.openBraces == 0
    case TooManyJoins => (k == And || k == Or || k == Not) && s.complexity >= 10
    case InvalidColumn =>
      k == Column && forall name | name in cfg.validColumns :: !(HasNoCapital(name) && SameUpToCase(name, v))
    case UnexpectedToken | UnexpectedEnd | UnclosedBrace => false
  }

  lemma RefusesAs(cfg: Config, s: Progress, k: Kind, v: string, error: Error)
    requires s.openBraces >= 0 && Accepts(k, v)
    ensures var o := OnNewToken(cfg, s, k, v);
            && ((o.Failed? && o.error == error) <==> ExplainsAs(cfg, s, k, v, error))
            && (o.Failed? ==> o.s.query == s.query && o.s.values == s.values)
  {
    if k.Column? {
      ColumnPattern(v);
      KnownInAnyCase(cfg, v);
    }
    hide IsColumn, IsValue, IsQuoted, Lower, SameUpToCase, HasNoCapital, Qualified, Unquote, Matches;
  }

  /** A token is refused exactly when an error explains it, that error is the one
      reported, and the clause stays as it was. */
  lemma RefusesForAReason(cfg: Config, s: Progress, v: string, error: Error)
    requires s.openBraces >= 0
    ensures var o := Move(cfg, s, v);
            && ((o.Failed? && o.error == error) <==> Explains(cfg, s, v, error))
            && (o.Failed? ==> o.s.query == s.query && o.s.values == s.values)
  {
    var next := FirstAccepting(Transitions(s.kind), v);
    TakesNoneThatFits(s.kind, v);
    forall k ensures next == Some(k) <==> Fits(k, s.kind, v) { TakesTheOneThatFits(s.kind, v, k); }
    if next.Some? { RefusesAs(cfg, s, next.value, v, error); }
    hide FirstAccepting, Transitions, Fits, OnNewToken, SameUpToCase, HasNoCapital;
  }

  /** A failed parse stopped at some token that an error explains, or ran to an end
      that is no end; the clause is that of the tokens before. */
  lemma {:induction false} FailsForAReason(cfg: Config, s: Progress, tokens: seq<string>)
    returns (i: nat, at: Progress)
    requires Balanced(s) && Finish(Run(cfg, s, tokens)).Failed?
    ensures var o := Finish(Run(cfg, s, tokens));
            && i <= |tokens| && Run(cfg, s, tokens[..i]) == Going(at)
            && o.s.query == at.query && o.s.values == at.values
            && (i < |tokens| ==> Explains(cfg, at, tokens[i], o.error))
            && (i == |tokens| ==>
                  o.error == if at.kind in [Value, QuotedValue, ClosedBrace] then UnclosedBrace else UnexpectedEnd)
    decreases |tokens|
  {
    if tokens == [] {
      i, at := 0, s;
    } else {
      var o := Move(cfg, s, tokens[0]);
      if o.Failed? {
        i, at := 0, s;
        RefusesForAReason(cfg, s, tokens[0], o.error);
      } else {
        MoveStaysBalanced(cfg, s, tokens[0]);
        var j: nat;
        j, at := FailsForAReason(cfg, o.s, tokens[1..]);
        i := j + 1;
        assert tokens[..i][0] == tokens[0] && tokens[..i][1..] == tokens[1..][..j];
      }
    }
  }

  // ----- the trim of the clause

  predicate AllSpaces(s: string) { forall i | 0 <= i < |s| :: s[i] == ' ' }

  /** Trimming takes the spaces at both ends and nothing else. */
  lemma {:induction false} TrimmedEnds(s: string) returns (before: string, after: string)
    ensures s == before + Trim(s) + after && AllSpaces(before) && AllSpaces(after)
    ensures Trim(s) != "" ==> Trim(s)[0] != ' ' && Trim(s)[|Trim(s)| - 1] != ' '
    decreases |s|
  {
    before, after := "", "";
    if s != "" && s[0] == ' ' {
      before, after := TrimmedEnds(s[1..]);
      before := " " + before;
    } else if s != "" && s[|s| - 1] == ' ' {
      before, after := TrimmedEnds(s[..|s| - 1]);
      after := after + " ";
    }
  }
}
