/** What an input asks for, law by law: precedence, operators, selection. */
module QueryReading {
  import opened Options
  import opened QueryTokens
  import opened QueryGrammar
  import opened QueryPatterns
  import opened QueryParser
  import opened QueryMeaning

  // ----- AND binds tighter than OR

  function Append(a: Expr, op: string, b: Expr): Expr {
    if a.One? then Join(a.term, op, b) else Join(a.term, a.op, Append(a.rest, op, b))
  }

  /** Any OR splits the input: what stands left of it, or what stands right. */
  lemma {:induction false} OrSplits(a: Expr, op: string, b: Expr, row: Row, atom: (Row, Term) -> bool, acc: bool)
    requires Matches(Pattern(Or), op)
    ensures Holds(Append(a, op, b), row, atom, acc) <==> Holds(a, row, atom, acc) || Holds(b, row, atom, true)
    decreases a
  {
    if a.One? {
      AcceptsItsPattern(Or, op);
      AcceptsItsPattern(And, op);
      if Accepts(And, op) { SuccessorsAreDisjoint(Value, And, Or, op); }
    } else {
      OrSplits(a.rest, op, b, row, atom, acc && TermHolds(a.term, row, atom));
      OrSplits(a.rest, op, b, row, atom, true);
    }
  }

  function Terms(e: Expr): seq<Term> { [e.term] + if e.Join? then Terms(e.rest) else [] }

  predicate OnlyAnds(e: Expr) { e.Join? ==> Matches(Pattern(And), e.op) && OnlyAnds(e.rest) }

  predicate AllHold(ts: seq<Term>, row: Row, atom: (Row, Term) -> bool) {
    forall t | t in ts :: TermHolds(t, row, atom)
  }

  lemma AllHoldFrom(t: Term, ts: seq<Term>, row: Row, atom: (Row, Term) -> bool)
    ensures AllHold([t] + ts, row, atom) <==> TermHolds(t, row, atom) && AllHold(ts, row, atom)
  {
    var all := [t] + ts;
    if AllHold(all, row, atom) {
      assert t in all && forall u | u in ts :: u in all;
    }
  }

  /** Between two ORs, all comparisons have to hold. */
  lemma {:induction false} AndJoins(e: Expr, row: Row, atom: (Row, Term) -> bool, acc: bool)
    requires OnlyAnds(e)
    ensures Holds(e, row, atom, acc) <==> acc && AllHold(Terms(e), row, atom)
    decreases e
  {
    if e.Join? {
      AcceptsItsPattern(And, e.op);
      AndJoins(e.rest, row, atom, acc && TermHolds(e.term, row, atom));
      AllHoldFrom(e.term, Terms(e.rest), row, atom);
    } else {
      AllHoldFrom(e.term, [], row, atom);
    }
    hide AllHold;
  }

  // ----- one comparison

  /** An operator means what its spelling says, in any case. */
  lemma OperatorsMean(m: Matching, op: string, x: string, y: string)
    ensures op == "=" ==> (OpHolds(m, op, x, y) <==> x == y)
    ensures op == "<>" ==> (OpHolds(m, op, x, y) <==> x != y)
    ensures Matches(Pattern(Like), op) ==> (OpHolds(m, op, x, y) <==> m.like(x, y))
    ensures Matches(Pattern(ILike), op) ==> (OpHolds(m, op, x, y) <==> m.ilike(x, y))
  {
    AcceptsItsPattern(Like, op);
    AcceptsItsPattern(ILike, op);
    assert op == "<>" ==> op != "=";
    if Accepts(Like, op) || Accepts(ILike, op) {
      assert |Lower(op)| >= 4;
      assert op != "=" && op != "<>";
    }
    hide Matches, Pattern, Lower;
  }

  /** A comparison reads the column of that name, in whatever case it is written,
      and fails on a null; `IN` and `NOT IN` are each other's opposite elsewhere. */
  lemma ComparisonsMean(m: Matching, row: Row, name: string, t: Term)
    requires !t.Group? && HasNoCapital(name) && SameUpToCase(name, t.col)
    ensures name !in row ==> !InputAtom(m)(row, t)
    ensures name in row && t.Compare? ==>
              (InputAtom(m)(row, t) <==> OpHolds(m, t.op, row[name], LiteralValue(t.val)))
    ensures name in row && t.Member? && t.neg.None? ==>
              (InputAtom(m)(row, t) <==> row[name] in ListValues(t.vals))
    ensures name in row && t.Member? && t.neg.Some? ==>
              (InputAtom(m)(row, t) <==> row[name] !in ListValues(t.vals))
  {
    FoldsCaseOnly(name, t.col);
  }

  // ----- selection

  /** Every row that holds is selected as often as the table has it, and no other. */
  lemma {:induction false} SelectsWhatHolds(e: Expr, table: seq<Row>, atom: (Row, Term) -> bool, row: Row)
    ensures multiset(Select(e, table, atom))[row] == if Holds(e, row, atom, true) then multiset(table)[row] else 0
  {
    if table != [] {
      SelectsWhatHolds(e, table[1..], atom, row);
      assert table == [table[0]] + table[1..];
    }
  }
}
