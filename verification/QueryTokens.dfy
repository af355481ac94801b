/** The token grammar of the search-query language: accept patterns, the
    transition table, and the first-match rule that moves between states. */
module QueryTokens {
  import opened Options

  datatype Kind =
    | Start | OpenBrace | ClosedBrace | Column | Value | QuotedValue
    | Eq | NotEq | Like | ILike | In | ListOpenBrace | QuotedValueInList | ValueInList
    | Comma | And | Or | Not

  datatype Family = BraceFamily | OpFamily | LogicalFamily | ColumnFamily
                  | ValueFamily | QuotedFamily | NoFamily

  predicate IsLetter(c: char) { 'a' <= c <= 'z' || 'A' <= c <= 'Z' }

  predicate IsNameChar(c: char) { IsLetter(c) || '0' <= c <= '9' || c == '_' }

  function LowerChar(c: char): char {
    if 'A' <= c <= 'Z' then (c as int + 32) as char else c
  }

  function Lower(s: string): (r: string)
    ensures |r| == |s|
  {
    seq(|s|, i requires 0 <= i < |s| => LowerChar(s[i]))
  }

  /** `[A-Za-z][A-Za-z0-9_]*` */
  predicate IsColumn(v: string) {
    |v| > 0 && IsLetter(v[0]) && forall i | 0 < i < |v| :: IsNameChar(v[i])
  }

  /** `[^'][^ ^(^)]*` */
  predicate IsValue(v: string) {
    |v| > 0 && v[0] != '\'' && forall i | 0 < i < |v| :: v[i] !in [' ', '^', '(', ')']
  }

  /** `([^']|\\')*` */
  predicate IsQuotedBody(m: string) {
    || m == []
    || (m[0] != '\'' && IsQuotedBody(m[1..]))
    || (|m| >= 2 && m[0] == '\\' && m[1] == '\'' && IsQuotedBody(m[2..]))
  }

  /** `'([^']|\\')*'` */
  predicate IsQuoted(v: string) {
    |v| >= 2 && v[0] == '\'' && v[|v| - 1] == '\'' && IsQuotedBody(v[1..|v| - 1])
  }

  predicate Accepts(k: Kind, v: string) {
    match k
    case Start => v == ""
    case OpenBrace | ListOpenBrace => v == "("
    case ClosedBrace => v == ")"
    case Column => IsColumn(v)
    case Value | ValueInList => IsValue(v)
    case QuotedValue | QuotedValueInList => IsQuoted(v)
    case Eq => v == "="
    case Comma => v == ","
    case NotEq => v == "<>"
    case Like => Lower(v) == "like"
    case ILike => Lower(v) == "ilike"
    case In => Lower(v) == "in"
    case And => Lower(v) == "and"
    case Or => Lower(v) == "or"
    case Not => Lower(v) == "not"
  }

  function FamilyOf(k: Kind): Family {
    match k
    case OpenBrace | ClosedBrace | ListOpenBrace => BraceFamily
    case Column => ColumnFamily
    case Value | ValueInList => ValueFamily
    case QuotedValue | QuotedValueInList => QuotedFamily
    case Eq | NotEq | Like | ILike | In => OpFamily
    case And | Or | Not => LogicalFamily
    case Start | Comma => NoFamily
  }

  function Transitions(k: Kind): seq<Kind> {
    match k
    case Start | OpenBrace | And | Or => [Column, OpenBrace]
    case Column => [Eq, NotEq, Like, ILike, In, Not]
    case Eq | NotEq | Like | ILike => [QuotedValue, Value]
    case QuotedValue | Value | ClosedBrace => [Or, And, ClosedBrace]
    case Not => [In]
    case In => [ListOpenBrace]
    case ListOpenBrace | Comma => [QuotedValueInList, ValueInList]
    case QuotedValueInList | ValueInList => [Comma, ClosedBrace]
  }

  /** The states that list the end state among their valid transitions. */
  predicate CanEnd(k: Kind) { k.QuotedValue? || k.Value? || k.ClosedBrace? }

  /** The states are tried in list order; the first that accepts the token wins. */
  function FirstAccepting(ks: seq<Kind>, v: string): (r: Option<Kind>)
    ensures r.None? ==> forall k | k in ks :: !Accepts(k, v)
    ensures r.Some? ==> r.value in ks && Accepts(r.value, v)
  {
    if ks == [] then None
    else if Accepts(ks[0], v) then Some(ks[0])
    else FirstAccepting(ks[1..], v)
  }

  /** No token is accepted by two successors of one state, so the order of the
      transition lists never decides anything. */
  lemma SuccessorsAreDisjoint(k: Kind, a: Kind, b: Kind, v: string)
    requires a in Transitions(k) && b in Transitions(k)
    requires Accepts(a, v) && Accepts(b, v)
    ensures a == b
  {
    var w := Lower(v);
    if k.Column? {
      assert w == "like" ==> |w| == 4;
      assert w == "ilike" ==> |w| == 5;
      assert w == "in" ==> |w| == 2 && w[0] == 'i';
      assert w == "not" ==> |w| == 3;
      assert v == "<>" ==> w[0] == '<';
    } else if CanEnd(k) {
      assert w == "or" ==> |w| == 2;
      assert w == "and" ==> |w| == 3;
    }
  }

  lemma MovesTo(k: Kind, next: Kind, v: string)
    requires next in Transitions(k) && Accepts(next, v)
    ensures FirstAccepting(Transitions(k), v) == Some(next)
  {
    var r := FirstAccepting(Transitions(k), v);
    SuccessorsAreDisjoint(k, r.value, next, v);
  }
}
