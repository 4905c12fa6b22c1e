/**
 The dollar-bills calculator: an amount is validated, then broken down into
 $100, $50, $20, $10, $5 and $1 bills, largest first.

 The breakdown threads a running remainder through one division per
 denomination, exactly as the calculator does; it is shown to coincide with the
 generic greedy fold of module Greedy, and the fixed denomination set is shown
 to be canonical, so the breakdown uses the fewest bills and is the only one
 that does.
 */
module Bills {
  import Greedy

  /** The bill denominations above $1, largest first; $1 bills take the rest. */
  const Denominations: seq<int> := [100, 50, 20, 10, 5]

  /** How many bills of each denomination make up an amount. */
  datatype Breakdown = Breakdown(hundreds: int, fifties: int, twenties: int, tens: int, fives: int, ones: int)

  /** The dollar value of a breakdown. */
  function Total(b: Breakdown): int {
    100 * b.hundreds + 50 * b.fifties + 20 * b.twenties + 10 * b.tens + 5 * b.fives + b.ones
  }

  /** The number of bills in a breakdown. */
  function BillCount(b: Breakdown): int {
    b.hundreds + b.fifties + b.twenties + b.tens + b.fives + b.ones
  }

  /** The counts above $1, in the order of `Denominations`. */
  function Counts(b: Breakdown): seq<int> {
    [b.hundreds, b.fifties, b.twenties, b.tens, b.fives]
  }

  /** No denomination, $1 included, is used a negative number of times. */
  predicate NonNegativeBreakdown(b: Breakdown) {
    Greedy.NonNegative(Counts(b)) && b.ones >= 0
  }

  /** The verdict of validating an amount. */
  datatype AmountStatus = NegativeAmount | ZeroAmount | ValidAmount

  /**
   A negative amount is rejected; zero needs no bills; only a positive amount
   goes on to be broken down.
   */
  function ValidateAmount(amount: int): (r: AmountStatus)
    ensures r == ValidAmount <==> amount > 0
    ensures r == NegativeAmount <==> amount < 0
    ensures r == ZeroAmount <==> amount == 0
  {
    if amount < 0 then NegativeAmount
    else if amount == 0 then ZeroAmount
    else ValidAmount
  }

  /** The bills taken at one denomination, and the amount still to break down. */
  datatype BillStep = BillStep(count: int, remaining: int)

  /**
   One greedy step with C#'s integer `/` and `%`, which truncate toward zero:
   the count and the new remainder recombine to the old remainder, and for a
   non-negative remainder the count is the largest number of bills that fit.
   */
  function CalculateBillCount(remaining: int, denomination: int): (r: BillStep)
    requires denomination > 0
    ensures r.count * denomination + r.remaining == remaining
    ensures remaining >= 0 ==> r.count >= 0 && 0 <= r.remaining < denomination
    ensures remaining <= 0 ==> r.count <= 0 && -denomination < r.remaining <= 0
  {
    if remaining >= 0 then
      Greedy.DivMod(remaining, denomination);
      BillStep(remaining / denomination, remaining % denomination)
    else
      Greedy.DivMod(-remaining, denomination);
      BillStep(-((-remaining) / denomination), -((-remaining) % denomination))
  }

  /**
   The calculator's sequence of steps, largest denomination first, with the
   $1 bills taking what is left after the $5 step. The value of the breakdown
   is always the amount; for a non-negative amount every count is non-negative
   and each count below $100 is bounded by the denomination above it.
   */
  function BreakDown(amount: int): (b: Breakdown)
    ensures Total(b) == amount
    ensures amount >= 0 ==> NonNegativeBreakdown(b)
    ensures amount >= 0 ==> b.fifties <= 1 && b.twenties <= 2 && b.tens <= 1 && b.fives <= 1
    ensures amount >= 0 ==> b.ones <= 4
  {
    var hundreds := CalculateBillCount(amount, 100);
    var fifties := CalculateBillCount(hundreds.remaining, 50);
    var twenties := CalculateBillCount(fifties.remaining, 20);
    var tens := CalculateBillCount(twenties.remaining, 10);
    var fives := CalculateBillCount(tens.remaining, 5);
    Breakdown(hundreds.count, fifties.count, twenties.count, tens.count, fives.count, fives.remaining)
  }

  /** What the calculator does with an amount. */
  datatype BillsOutcome = Rejected | NoBillsNeeded | Bills(breakdown: Breakdown)

  /**
   Validation comes first: a negative amount is rejected and zero reports that
   no bills are needed, neither producing a breakdown; a positive amount yields
   its breakdown.
   */
  function CalculateBills(amount: int): (r: BillsOutcome)
    ensures r.Rejected? <==> amount < 0
    ensures r.NoBillsNeeded? <==> amount == 0
    ensures r.Bills? <==> amount > 0
    ensures r.Bills? ==> Total(r.breakdown) == amount && NonNegativeBreakdown(r.breakdown)
  {
    match ValidateAmount(amount)
    case NegativeAmount => Rejected
    case ZeroAmount => NoBillsNeeded
    case ValidAmount => Bills(BreakDown(amount))
  }

  /**
   The calculator's step sequence is the generic greedy fold over
   `Denominations`.
   */
  lemma BreakDownIsGreedyFold(amount: int)
    requires amount >= 0
    ensures Greedy.Positive(Denominations)
    ensures Greedy.Peel(amount, Denominations)
            == Greedy.Split(Counts(BreakDown(amount)), BreakDown(amount).ones)
  {
    var b := BreakDown(amount);
    var s := Greedy.Peel(amount, Denominations);
    Greedy.DivMod(amount, 100);
    var r100 := amount % 100;
    Greedy.DivMod(r100, 50);
    var r50 := r100 % 50;
    Greedy.DivMod(r50, 20);
    var r20 := r50 % 20;
    Greedy.DivMod(r20, 10);
    var r10 := r20 % 10;
    Greedy.DivMod(r10, 5);
    var r5 := r10 % 5;
    assert Denominations[1..] == [50, 20, 10, 5];
    assert Denominations[1..][1..] == [20, 10, 5];
    assert Denominations[1..][1..][1..] == [10, 5];
    assert Denominations[1..][1..][1..][1..] == [5];
    assert Denominations[1..][1..][1..][1..][1..] == [];
    var p5 := Greedy.Peel(r10, [5]);
    assert p5 == Greedy.Split([r10 / 5], r5);
    var p10 := Greedy.Peel(r20, [10, 5]);
    assert p10 == Greedy.Split([r20 / 10, r10 / 5], r5);
    var p20 := Greedy.Peel(r50, [20, 10, 5]);
    assert p20 == Greedy.Split([r50 / 20, r20 / 10, r10 / 5], r5);
    var p50 := Greedy.Peel(r100, [50, 20, 10, 5]);
    assert p50 == Greedy.Split([r100 / 50, r50 / 20, r20 / 10, r10 / 5], r5);
    assert s == Greedy.Split([amount / 100, r100 / 50, r50 / 20, r20 / 10, r10 / 5], r5);
  }

  /** The value and size of a breakdown, read through the generic fold's terms. */
  lemma BreakdownMeasures(b: Breakdown)
    ensures Greedy.Weighted(Counts(b), Denominations) + b.ones == Total(b)
    ensures Greedy.Sum(Counts(b)) + b.ones == BillCount(b)
  {
    var c := Counts(b);
    assert c[1..][1..][1..][1..] == [b.fives];
    assert c[1..][1..][1..] == [b.tens, b.fives];
    assert c[1..][1..] == [b.twenties, b.tens, b.fives];
    assert c[1..] == [b.fifties, b.twenties, b.tens, b.fives];
    assert Greedy.Weighted([b.fives], [5]) == 5 * b.fives;
    assert Greedy.Weighted([b.tens, b.fives], [10, 5]) == 10 * b.tens + 5 * b.fives;
    assert Greedy.Weighted([b.twenties, b.tens, b.fives], [20, 10, 5])
           == 20 * b.twenties + 10 * b.tens + 5 * b.fives;
    assert Greedy.Weighted(c[1..], Denominations[1..])
           == 50 * b.fifties + 20 * b.twenties + 10 * b.tens + 5 * b.fives;
    assert Greedy.Sum([b.fives]) == b.fives;
    assert Greedy.Sum(c[1..][1..][1..]) == b.tens + b.fives;
    assert Greedy.Sum(c[1..][1..]) == b.twenties + b.tens + b.fives;
    assert Greedy.Sum(c[1..]) == b.fifties + b.twenties + b.tens + b.fives;
  }

  /** The greedy count over $5 bills (and $1 bills for the rest). */
  lemma CountFives(y: int)
    requires y >= 0
    ensures Greedy.GreedyCount(y, [5]) == y / 5 + y % 5
  {
    Greedy.GreedyCountStep(y, [5]);
    assert [5][1..] == [];
  }

  /** The greedy count over $10 and smaller bills. */
  lemma CountTens(y: int)
    requires y >= 0
    ensures Greedy.GreedyCount(y, [10, 5]) == y / 10 + (y % 10) / 5 + y % 5
  {
    Greedy.GreedyCountStep(y, [10, 5]);
    assert [10, 5][1..] == [5];
    Greedy.DivMod(y, 10);
    var q, r := y / 10, y % 10;
    CountFives(r);
    Greedy.ShiftDiv(y, 5, 2 * q);
    assert y - (2 * q) * 5 == r;
    assert r % 5 == y % 5;
  }

  /** The greedy count over $20 and smaller bills. */
  lemma CountTwenties(y: int)
    requires y >= 0
    ensures Greedy.GreedyCount(y, [20, 10, 5]) == y / 20 + (y % 20) / 10 + (y % 10) / 5 + y % 5
  {
    Greedy.GreedyCountStep(y, [20, 10, 5]);
    assert [20, 10, 5][1..] == [10, 5];
    Greedy.DivMod(y, 20);
    var q, r := y / 20, y % 20;
    CountTens(r);
    Greedy.ShiftDiv(y, 10, 2 * q);
    Greedy.ShiftDiv(y, 5, 4 * q);
    assert y - (2 * q) * 10 == r && y - (4 * q) * 5 == r;
    assert r % 10 == y % 10 && r % 5 == y % 5;
  }

  /** The greedy count over $50 and smaller bills. */
  lemma CountFifties(y: int)
    requires y >= 0
    ensures Greedy.GreedyCount(y, [50, 20, 10, 5]) == y / 50 + Greedy.GreedyCount(y % 50, [20, 10, 5])
  {
    Greedy.GreedyCountStep(y, [50, 20, 10, 5]);
    assert [50, 20, 10, 5][1..] == [20, 10, 5];
  }

  /** One $5 bill fewer means five more $1 bills. */
  lemma ExchangeFive()
    ensures Greedy.Exchange(5, [])
  {
    forall y | y >= 5 ensures Greedy.ExchangeAt(y, 5, []) {
    }
  }

  /** One $10 bill fewer means two more $5 bills. */
  lemma ExchangeTen()
    ensures Greedy.Exchange(10, [5])
  {
    forall y | y >= 10 ensures Greedy.ExchangeAt(y, 10, [5]) {
      CountFives(y);
      CountFives(y - 10);
      Greedy.ShiftDiv(y, 5, 2);
    }
  }

  /** One $20 bill fewer means two more $10 bills. */
  lemma ExchangeTwenty()
    ensures Greedy.Exchange(20, [10, 5])
  {
    forall y | y >= 20 ensures Greedy.ExchangeAt(y, 20, [10, 5]) {
      CountTens(y);
      CountTens(y - 20);
      Greedy.ShiftDiv(y, 10, 2);
      Greedy.ShiftDiv(y, 5, 4);
    }
  }

  /**
   One $50 bill fewer means at least two more bills: $20 + $20 + $10 when the
   rest holds no $10 bill, otherwise $20 + $20 + $20 - $10.
   */
  lemma ExchangeFifty()
    ensures Greedy.Exchange(50, [20, 10, 5])
  {
    forall y | y >= 50 ensures Greedy.ExchangeAt(y, 50, [20, 10, 5]) {
      ExchangeFiftyAt(y);
    }
  }

  /** The exchange condition for $50 at one amount `y`. */
  lemma ExchangeFiftyAt(y: int)
    requires y >= 50
    ensures Greedy.GreedyCount(y - 50, [20, 10, 5]) + 1 < Greedy.GreedyCount(y, [20, 10, 5])
  {
    CountTwenties(y);
    CountTwenties(y - 50);
    Greedy.ShiftDiv(y, 10, 5);
    Greedy.ShiftDiv(y, 5, 10);
    Greedy.DivMod(y, 20);
    var q, r := y / 20, y % 20;
    if r >= 10 {
      Greedy.QuotientUnique(y - 50, 20, q - 2);
      assert (y - 50) / 20 == q - 2 && (y - 50) % 20 == r - 10;
      assert r / 10 == 1 && (r - 10) / 10 == 0;
    } else {
      Greedy.QuotientUnique(y - 50, 20, q - 3);
      assert (y - 50) / 20 == q - 3 && (y - 50) % 20 == r + 10;
      assert r / 10 == 0 && (r + 10) / 10 == 1;
    }
  }

  /** One $100 bill fewer means two more $50 bills. */
  lemma ExchangeHundred()
    ensures Greedy.Exchange(100, [50, 20, 10, 5])
  {
    forall y | y >= 100 ensures Greedy.ExchangeAt(y, 100, [50, 20, 10, 5]) {
      ExchangeHundredAt(y);
    }
  }

  /** The exchange condition for $100 at one amount `y`. */
  lemma ExchangeHundredAt(y: int)
    requires y >= 100
    ensures Greedy.GreedyCount(y - 100, [50, 20, 10, 5]) + 1 < Greedy.GreedyCount(y, [50, 20, 10, 5])
  {
    CountFifties(y);
    CountFifties(y - 100);
    Greedy.ShiftDiv(y, 50, 2);
    assert y - 2 * 50 == y - 100;
    assert (y - 100) / 50 == y / 50 - 2 && (y - 100) % 50 == y % 50;
  }

  /** The fixed denomination set is one for which greedy is optimal. */
  lemma DenominationsCanonical()
    ensures Greedy.Canonical(Denominations)
  {
    ExchangeHundred();
    ExchangeFifty();
    ExchangeTwenty();
    ExchangeTen();
    ExchangeFive();
    assert Denominations[1..] == [50, 20, 10, 5];
    assert Denominations[2..] == [20, 10, 5];
    assert Denominations[3..] == [10, 5];
    assert Denominations[4..] == [5];
    assert Denominations[5..] == [];
  }

  /**
   No non-negative breakdown of an amount uses fewer bills than the
   calculator's, and the only one that uses as few is the calculator's own.
   */
  lemma BreakDownIsMinimal(amount: int, b: Breakdown)
    requires amount >= 0 && NonNegativeBreakdown(b) && Total(b) == amount
    ensures BillCount(BreakDown(amount)) <= BillCount(b)
    ensures BillCount(BreakDown(amount)) == BillCount(b) ==> b == BreakDown(amount)
  {
    var g := BreakDown(amount);
    DenominationsCanonical();
    BreakdownMeasures(b);
    BreakdownMeasures(g);
    BreakDownIsGreedyFold(amount);
    Greedy.GreedyIsOptimal(amount, Denominations, Counts(b), b.ones);
    if BillCount(g) == BillCount(b) {
      assert Counts(b) == Counts(g);
      assert Counts(b)[0] == Counts(g)[0] && Counts(b)[1] == Counts(g)[1] && Counts(b)[2] == Counts(g)[2];
      assert Counts(b)[3] == Counts(g)[3] && Counts(b)[4] == Counts(g)[4];
    }
  }

  /** The calculator's default amount, $247, is two $100, two $20, one $5 and two $1 bills. */
  lemma DefaultAmount()
    ensures CalculateBills(247) == Bills(Breakdown(2, 0, 2, 0, 1, 2))
  {
  }
}
