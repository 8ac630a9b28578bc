/** The calculator app: a one-pass evaluator of sums and products, against the meaning of the expression. */
module Calculator {

  /** Signed 64-bit saturation. */
  function Saturate(x: int): (r: int)
    ensures -0x8000_0000_0000_0000 <= r <= 0x7FFF_FFFF_FFFF_FFFF
  {
    if x < -0x8000_0000_0000_0000 then -0x8000_0000_0000_0000
    else if x > 0x7FFF_FFFF_FFFF_FFFF then 0x7FFF_FFFF_FFFF_FFFF
    else x
  }

  /** Division that drops the remainder, as the machine divides. */
  function Quotient(a: int, b: int): int
    requires b > 0
  {
    if a >= 0 then a / b else -((-a) / b)
  }

  predicate IsDigit(c: char) { '0' <= c <= '9' }
  predicate IsOperator(c: char) { c == '+' || c == '-' || c == '*' || c == '/' }

  function Digit(c: char): (d: nat)
    requires IsDigit(c)
    ensures d <= 9
  {
    (c - '0') as nat
  }

  // Expressions.

  datatype Term = One(number: string) | Times(left: Term, number: string) | Over(left: Term, number: string)

  datatype Expr = First(negative: bool, term: Term) | Plus(left: Expr, term: Term) | Minus(left: Expr, term: Term)

  predicate IsNumber(s: string)
  {
    s != [] && forall i :: 0 <= i < |s| ==> IsDigit(s[i])
  }

  predicate WellFormedTerm(t: Term)
  {
    IsNumber(t.number) && (!t.One? ==> WellFormedTerm(t.left))
  }

  predicate WellFormed(e: Expr)
  {
    WellFormedTerm(e.term) && (!e.First? ==> WellFormed(e.left))
  }

  function PrintTerm(t: Term): string
  {
    match t
    case One(n) => n
    case Times(left, n) => PrintTerm(left) + ['*'] + n
    case Over(left, n) => PrintTerm(left) + ['/'] + n
  }

  function Print(e: Expr): string
  {
    match e
    case First(negative, t) => (if negative then ['-'] else []) + PrintTerm(t)
    case Plus(left, t) => Print(left) + ['+'] + PrintTerm(t)
    case Minus(left, t) => Print(left) + ['-'] + PrintTerm(t)
  }

  // Their meaning: products before sums, each operation saturating, a division by zero leaving the term as it is.

  function Decimal(s: string): nat
    requires forall i :: 0 <= i < |s| ==> IsDigit(s[i])
  {
    if s == [] then 0 else 10 * Decimal(s[..|s| - 1]) + Digit(s[|s| - 1])
  }

  function Number(s: string): (n: nat)
    requires forall i :: 0 <= i < |s| ==> IsDigit(s[i])
    ensures n <= 0x7FFF_FFFF_FFFF_FFFF
  {
    Saturate(Decimal(s))
  }

  function TermValue(t: Term): (v: nat)
    requires WellFormedTerm(t)
    ensures v <= 0x7FFF_FFFF_FFFF_FFFF
  {
    match t
    case One(n) => Number(n)
    case Times(left, n) => Product(TermValue(left), Number(n))
    case Over(left, n) => if Number(n) == 0 then TermValue(left) else Bounded(TermValue(left), Number(n))
  }

  function Product(a: nat, b: nat): (p: nat)
    ensures p <= 0x7FFF_FFFF_FFFF_FFFF
  {
    var p: nat := a * b;
    Saturate(p)
  }

  function Bounded(a: nat, b: nat): (q: nat)
    requires b > 0
    ensures q <= a
  {
    QuotientAtMost(a / b, b);
    a / b
  }

  lemma QuotientAtMost(q: nat, b: nat)
    requires b > 0
    ensures q <= q * b
  {
  }

  function Value(e: Expr): int
    requires WellFormed(e)
  {
    match e
    case First(negative, t) => if negative then 0 - TermValue(t) else TermValue(t)
    case Plus(left, t) => Saturate(Value(left) + TermValue(t))
    case Minus(left, t) => Saturate(Value(left) - TermValue(t))
  }

  // The evaluator's accumulators and one step of its loop.

  datatype State = State(total: int, term: int, number: int, multiply: char, add: char, haveNumber: bool)

  const INITIAL := State(0, 0, 0, '+', '+', false)

  /** The term with the number just read. */
  function Combine(s: State): int
    requires s.number >= 0
  {
    if s.multiply == '*' then Saturate(s.term * s.number)
    else if s.multiply == '/' then (if s.number != 0 then Quotient(s.term, s.number) else s.term)
    else s.number
  }

  /** The total with the term just finished. */
  function Close(s: State): int
    requires s.number >= 0
  {
    if s.add == '-' then Saturate(s.total - Combine(s)) else Saturate(s.total + Combine(s))
  }

  function Feed(s: State, c: char): (r: State)
    requires s.number >= 0
    ensures r.number >= 0
  {
    if IsDigit(c) then s.(number := Saturate(Saturate(s.number * 10) + Digit(c)), haveNumber := true)
    else if !IsOperator(c) || !s.haveNumber then
      if c == '-' && !s.haveNumber && s.term == 0 then s.(add := '-') else s
    else if c == '+' || c == '-' then State(Close(s), 0, 0, '+', c, false)
    else s.(term := Combine(s), multiply := c, number := 0, haveNumber := false)
  }

  function FeedAll(s: State, input: string): (r: State)
    requires s.number >= 0
    ensures r.number >= 0
    decreases input
  {
    if input == [] then s else FeedAll(Feed(s, input[0]), input[1..])
  }

  /** The loop over the input and a final `+`, on five accumulators. */
  method Evaluate(input: string) returns (total: int)
    ensures total == FeedAll(INITIAL, input + ['+']).total
    ensures forall e :: WellFormed(e) && Meaningful(input) == Print(e) ==> total == Value(e)
  {
    total := 0;
    var term, number, multiply, add, haveNumber := 0, 0, '+', '+', false;
    var chain := input + ['+'];
    for i := 0 to |chain|
      invariant number >= 0
      invariant FeedAll(INITIAL, chain) == FeedAll(State(total, term, number, multiply, add, haveNumber), chain[i..])
    {
      var c := chain[i];
      ghost var before := State(total, term, number, multiply, add, haveNumber);
      assert chain[i..][0] == c && chain[i..][1..] == chain[i + 1..];
      if '0' <= c <= '9' {
        number := Saturate(Saturate(number * 10) + (c - '0') as int);
        haveNumber := true;
      } else if !(c == '+' || c == '-' || c == '*' || c == '/') || !haveNumber {
        if c == '-' && !haveNumber && term == 0 {
          add := '-';
        }
      } else {
        if multiply == '*' {
          term := Saturate(term * number);
        } else if multiply == '/' {
          if number != 0 {
            term := Quotient(term, number);
          }
        } else {
          term := number;
        }
        if c == '+' || c == '-' {
          total := if add == '-' then Saturate(total - term) else Saturate(total + term);
          add, multiply, term := c, '+', 0;
        } else {
          multiply := c;
        }
        number, haveNumber := 0, false;
      }
      assert State(total, term, number, multiply, add, haveNumber) == Feed(before, c);
    }
    assert chain[|chain|..] == [];
    forall e | WellFormed(e) && Meaningful(input) == Print(e) ensures total == Value(e) {
      EvaluatesToMeaning(input, e);
    }
  }

  // From the loop to the meaning.

  lemma {:induction false} FeedAppend(s: State, a: string, b: string)
    requires s.number >= 0
    ensures FeedAll(s, a + b) == FeedAll(FeedAll(s, a), b)
    decreases a
  {
    if a == [] {
      assert a + b == b;
    } else {
      assert (a + b)[1..] == a[1..] + b;
      FeedAppend(Feed(s, a[0]), a[1..], b);
    }
  }

  lemma FeedOne(s: State, c: char)
    requires s.number >= 0
    ensures FeedAll(s, [c]) == Feed(s, c)
  {
    assert [c][1..] == [];
  }

  /** Reading digits accumulates their saturated value. */
  lemma {:induction false} FeedNumber(s: State, digits: string)
    requires s.number == 0 && IsNumber(digits)
    ensures FeedAll(s, digits) == s.(number := Number(digits), haveNumber := true)
    decreases digits
  {
    var n := |digits| - 1;
    var most := digits[..n];
    assert digits == most + [digits[n]];
    FeedAppend(s, most, [digits[n]]);
    FeedOne(FeedAll(s, most), digits[n]);
    if most != [] {
      FeedNumber(s, most);
    } else {
      assert Decimal(digits) == Digit(digits[0]);
    }
  }

  /** The state once a term has been read: its value waits to be combined. */
  lemma {:induction false} FeedTerm(s: State, t: Term)
    requires WellFormedTerm(t) && s.number == 0 && s.term == 0 && s.multiply == '+' && !s.haveNumber
    ensures var r := FeedAll(s, PrintTerm(t));
      r.haveNumber && r.total == s.total && r.add == s.add && Combine(r) == TermValue(t)
  {
    match t
    case One(n) => FeedNumber(s, n);
    case Times(left, n) =>
      FeedTerm(s, left);
      FeedAppend(s, PrintTerm(left), ['*'] + n);
      assert PrintTerm(left) + (['*'] + n) == PrintTerm(t);
      FeedFactor(FeedAll(s, PrintTerm(left)), '*', n);
    case Over(left, n) =>
      FeedTerm(s, left);
      FeedAppend(s, PrintTerm(left), ['/'] + n);
      assert PrintTerm(left) + (['/'] + n) == PrintTerm(t);
      FeedFactor(FeedAll(s, PrintTerm(left)), '/', n);
  }

  lemma FeedFactor(l: State, c: char, n: string)
    requires IsNumber(n) && (c == '*' || c == '/') && l.number >= 0 && l.haveNumber
    ensures FeedAll(l, [c] + n) == State(l.total, Combine(l), Number(n), c, l.add, true)
  {
    assert ([c] + n)[1..] == n;
    FeedNumber(Feed(l, c), n);
  }

  /** The state once an expression has been read: closing it gives its value. */
  lemma {:induction false} FeedExpr(e: Expr)
    requires WellFormed(e)
    ensures var r := FeedAll(INITIAL, Print(e)); r.haveNumber && Close(r) == Value(e)
  {
    match e
    case First(negative, t) =>
      if negative {
        FeedAppend(INITIAL, ['-'], PrintTerm(t));
        FeedOne(INITIAL, '-');
        FeedTerm(INITIAL.(add := '-'), t);
      } else {
        assert [] + PrintTerm(t) == PrintTerm(t);
        FeedTerm(INITIAL, t);
      }
    case Plus(left, t) =>
      FeedExpr(left);
      FeedOperand(left, '+', t);
    case Minus(left, t) =>
      FeedExpr(left);
      FeedOperand(left, '-', t);
  }

  lemma FeedOperand(left: Expr, c: char, t: Term)
    requires WellFormed(left) && WellFormedTerm(t) && (c == '+' || c == '-')
    requires var l := FeedAll(INITIAL, Print(left)); l.haveNumber && Close(l) == Value(left)
    ensures var r := FeedAll(INITIAL, Print(left) + [c] + PrintTerm(t));
      r.haveNumber && r.total == Value(left) && r.add == c && Combine(r) == TermValue(t)
  {
    var l := FeedAll(INITIAL, Print(left));
    FeedAppend(INITIAL, Print(left), [c]);
    FeedOne(l, c);
    FeedAppend(INITIAL, Print(left) + [c], PrintTerm(t));
    FeedTerm(Feed(l, c), t);
  }

  /** Only digits and operators matter. */
  function Meaningful(s: string): string
  {
    if s == [] then []
    else (if IsDigit(s[0]) || IsOperator(s[0]) then [s[0]] else []) + Meaningful(s[1..])
  }

  lemma {:induction false} OthersAreIgnored(s: State, input: string)
    requires s.number >= 0
    ensures FeedAll(s, input) == FeedAll(s, Meaningful(input))
    decreases input
  {
    if input != [] {
      OthersAreIgnored(Feed(s, input[0]), input[1..]);
      var kept := Meaningful(input[1..]);
      if IsDigit(input[0]) || IsOperator(input[0]) {
        assert ([input[0]] + kept)[1..] == kept;
      } else {
        assert [] + kept == kept;
      }
    }
  }

  /** Deleting everything that is neither a digit nor an operator changes no result. */
  lemma DeletingOthers(input: string)
    ensures FeedAll(INITIAL, input + ['+']).total == FeedAll(INITIAL, Meaningful(input) + ['+']).total
  {
    OthersAreIgnored(INITIAL, input);
    FeedAppend(INITIAL, input, ['+']);
    FeedAppend(INITIAL, Meaningful(input), ['+']);
  }

  /** Whatever else stands between its characters, an expression evaluates to its meaning. */
  lemma EvaluatesToMeaning(input: string, e: Expr)
    requires WellFormed(e) && Meaningful(input) == Print(e)
    ensures FeedAll(INITIAL, input + ['+']).total == Value(e)
  {
    OthersAreIgnored(INITIAL, input);
    FeedExpr(e);
    FeedAppend(INITIAL, input, ['+']);
    FeedOne(FeedAll(INITIAL, input), '+');
  }

  /** A trailing sign changes nothing, but a trailing `*` or `/` loses the last term. */
  lemma TrailingOperator(e: Expr, c: char)
    requires WellFormed(e) && IsOperator(c)
    ensures FeedAll(INITIAL, Print(e) + [c] + ['+']).total
            == if c == '+' || c == '-' then Value(e) else if e.First? then 0 else Value(e.left)
  {
    var r := FeedAll(INITIAL, Print(e));
    FeedExpr(e);
    PendingTotal(e);
    FeedAppend(INITIAL, Print(e), [c]);
    FeedOne(r, c);
    FeedAppend(INITIAL, Print(e) + [c], ['+']);
    FeedOne(Feed(r, c), '+');
  }

  /** Until a term is closed the total is the value of everything before it. */
  lemma PendingTotal(e: Expr)
    requires WellFormed(e)
    ensures FeedAll(INITIAL, Print(e)).total == if e.First? then 0 else Value(e.left)
  {
    match e
    case First(negative, t) =>
      if negative {
        FeedAppend(INITIAL, ['-'], PrintTerm(t));
        FeedOne(INITIAL, '-');
        FeedTerm(INITIAL.(add := '-'), t);
      } else {
        assert [] + PrintTerm(t) == PrintTerm(t);
        FeedTerm(INITIAL, t);
      }
    case Plus(left, t) =>
      FeedExpr(left);
      FeedOperand(left, '+', t);
    case Minus(left, t) =>
      FeedExpr(left);
      FeedOperand(left, '-', t);
  }
}
