/**
 A greedy breakdown of a non-negative amount over a list of positive
 denominations, taken in list order, with an implicit unit denomination that
 takes whatever is left. Nothing requires the list to be descending; the
 optimality theorem instead assumes an exchange condition.

 The module proves that the greedy breakdown uses the fewest pieces, and is the
 only breakdown that does, for every denomination list satisfying an exchange
 condition: at each position, giving up one piece of the current denomination
 costs the greedy breakdown of the smaller denominations at least two extra
 pieces.
 */
module Greedy {

  /** Every denomination is a positive value. */
  predicate Positive(denoms: seq<int>) {
    forall i :: 0 <= i < |denoms| ==> denoms[i] > 0
  }

  /** Every count is non-negative. */
  predicate NonNegative(counts: seq<int>) {
    forall i :: 0 <= i < |counts| ==> counts[i] >= 0
  }

  /** The value of `counts[i]` pieces of `denoms[i]`, summed over all positions. */
  function Weighted(counts: seq<int>, denoms: seq<int>): int
    requires |counts| == |denoms|
  {
    if counts == [] then 0 else counts[0] * denoms[0] + Weighted(counts[1..], denoms[1..])
  }

  /** The number of pieces in `counts`. */
  function Sum(counts: seq<int>): int {
    if counts == [] then 0 else counts[0] + Sum(counts[1..])
  }

  /** A breakdown: one count per denomination, plus the units left over. */
  datatype Split = Split(counts: seq<int>, ones: int)

  /**
   The greedy breakdown: take as many pieces of the first denomination as fit,
   then break the remainder down over the rest of the list.
   */
  function Peel(amount: int, denoms: seq<int>): (s: Split)
    requires amount >= 0 && Positive(denoms)
    ensures |s.counts| == |denoms|
    ensures NonNegative(s.counts) && s.ones >= 0
    ensures Weighted(s.counts, denoms) + s.ones == amount
    ensures |denoms| > 0 ==> s.counts[0] * denoms[0] <= amount
    ensures |denoms| > 0 ==> s.ones < denoms[|denoms| - 1]
    ensures Bounded(s.counts, denoms)
    decreases |denoms|
  {
    if denoms == [] then Split([], amount)
    else
      var d := denoms[0];
      DivMod(amount, d);
      var q, rest := amount / d, Peel(amount % d, denoms[1..]);
      var s := Split([q] + rest.counts, rest.ones);
      assert s.counts[1..] == rest.counts;
      assert Weighted(s.counts, denoms) == q * d + Weighted(rest.counts, denoms[1..]);
      BoundedCons(q, rest.counts, denoms);
      s
  }

  /**
   Below the first position, each count's value is less than the next larger
   denomination: the greedy step before it left less than that.
   */
  predicate Bounded(counts: seq<int>, denoms: seq<int>)
    requires |counts| == |denoms|
  {
    forall i :: 0 < i < |denoms| ==> counts[i] * denoms[i] < denoms[i - 1]
  }

  /** Putting a count in front keeps the bound when the old front fits below the new denomination. */
  lemma BoundedCons(q: int, counts: seq<int>, denoms: seq<int>)
    requires |denoms| == |counts| + 1
    requires Bounded(counts, denoms[1..])
    requires |counts| > 0 ==> counts[0] * denoms[1] < denoms[0]
    ensures Bounded([q] + counts, denoms)
  {
    var c := [q] + counts;
    forall i | 0 < i < |denoms| ensures c[i] * denoms[i] < denoms[i - 1] {
      assert c[i] == counts[i - 1] && denoms[i] == denoms[1..][i - 1];
      if i > 1 {
        assert denoms[i - 1] == denoms[1..][i - 2];
      }
    }
  }

  /** The quotient and remainder of a non-negative amount by a positive divisor. */
  lemma DivMod(a: int, d: int)
    requires a >= 0 && d > 0
    ensures a / d >= 0 && 0 <= a % d < d && (a / d) * d + a % d == a
    ensures (a / d) * d <= a
  {
  }

  /** The number of pieces in the greedy breakdown. */
  function GreedyCount(amount: int, denoms: seq<int>): int
    requires amount >= 0 && Positive(denoms)
  {
    var s := Peel(amount, denoms);
    Sum(s.counts) + s.ones
  }

  /**
   Giving up one piece of `d` leaves at least two more pieces for the greedy
   breakdown over `rest`: `GreedyCount(y - d, rest) + 1 < GreedyCount(y, rest)`.
   */
  ghost predicate Exchange(d: int, rest: seq<int>)
    requires d > 0 && Positive(rest)
  {
    forall y :: y >= d ==> ExchangeAt(y, d, rest)
  }

  /** The exchange condition for one amount `y`. */
  ghost predicate ExchangeAt(y: int, d: int, rest: seq<int>)
    requires y >= d > 0 && Positive(rest)
  {
    GreedyCount(y - d, rest) + 1 < GreedyCount(y, rest)
  }

  /** The exchange condition holds at every position of the list. */
  ghost predicate Canonical(denoms: seq<int>) {
    && Positive(denoms)
    && forall k :: 0 <= k < |denoms| ==> Exchange(denoms[k], denoms[k + 1..])
  }

  /** One unfolding of `GreedyCount`. */
  lemma GreedyCountStep(amount: int, denoms: seq<int>)
    requires amount >= 0 && Positive(denoms) && |denoms| > 0
    ensures GreedyCount(amount, denoms)
            == amount / denoms[0] + GreedyCount(amount % denoms[0], denoms[1..])
  {
    var rest := Peel(amount % denoms[0], denoms[1..]);
    assert Peel(amount, denoms).counts == [amount / denoms[0]] + rest.counts;
    assert ([amount / denoms[0]] + rest.counts)[1..] == rest.counts;
  }

  /** Non-negative counts of positive denominations add up to a non-negative value. */
  lemma {:induction false} WeightedNonNegative(counts: seq<int>, denoms: seq<int>)
    requires |counts| == |denoms| && NonNegative(counts) && Positive(denoms)
    ensures Weighted(counts, denoms) >= 0
  {
    if counts != [] {
      WeightedNonNegative(counts[1..], denoms[1..]);
      assert counts[0] >= 0 && denoms[0] > 0;
      assert counts[0] * denoms[0] >= 0;
    }
  }

  /** `k * d <= a < (k + 1) * d` pins `k` down as the quotient. */
  lemma QuotientUnique(a: int, d: int, k: int)
    requires d > 0 && k * d <= a < k * d + d
    ensures k == a / d && a - k * d == a % d
  {
    var q := a / d;
    assert (q + 1 - k) * d == q * d + d - k * d;
    SignOfProduct(q + 1 - k, d);
    assert (k + 1 - q) * d == k * d + d - q * d;
    SignOfProduct(k + 1 - q, d);
  }

  /** Taking `k` multiples of `d` away lowers the quotient by `k` and keeps the remainder. */
  lemma ShiftDiv(y: int, d: int, k: int)
    requires d > 0
    ensures (y - k * d) / d == y / d - k && (y - k * d) % d == y % d
  {
    var q := y / d;
    assert (q - k) * d == q * d - k * d;
    QuotientUnique(y - k * d, d, q - k);
  }

  /** A positive product with a positive factor has a positive co-factor. */
  lemma SignOfProduct(m: int, d: int)
    requires d > 0 && m * d > 0
    ensures m > 0
  {
  }

  /**
   Taking `k` pieces of `d` and breaking the rest down greedily over `rest`
   never beats taking the greedy `amount / d` pieces, and ties only when `k`
   is that greedy count.
   */
  lemma {:induction false} Descend(amount: int, d: int, rest: seq<int>, k: int)
    requires d > 0 && Positive(rest) && Exchange(d, rest)
    requires 0 <= k && k * d <= amount
    ensures amount / d + GreedyCount(amount % d, rest) <= k + GreedyCount(amount - k * d, rest)
    ensures amount / d + GreedyCount(amount % d, rest) == k + GreedyCount(amount - k * d, rest)
            ==> k == amount / d
    decreases amount - k * d
  {
    var y := amount - k * d;
    if y < d {
      QuotientUnique(amount, d, k);
    } else {
      assert ExchangeAt(y, d, rest);
      assert (k + 1) * d == k * d + d;
      assert y - d == amount - (k + 1) * d;
      Descend(amount, d, rest, k + 1);
    }
  }

  /**
   Over a canonical denomination list, no breakdown of `amount` into
   non-negative counts uses fewer pieces than the greedy one, and any that uses
   as few IS the greedy one.
   */
  lemma {:induction false} GreedyIsOptimal(amount: int, denoms: seq<int>, counts: seq<int>, ones: int)
    requires Canonical(denoms) && amount >= 0
    requires |counts| == |denoms| && NonNegative(counts) && ones >= 0
    requires Weighted(counts, denoms) + ones == amount
    ensures GreedyCount(amount, denoms) <= Sum(counts) + ones
    ensures GreedyCount(amount, denoms) == Sum(counts) + ones
            ==> Peel(amount, denoms) == Split(counts, ones)
    decreases |denoms|
  {
    if denoms == [] {
      assert counts == [];
    } else {
      var d, ds := denoms[0], denoms[1..];
      var c, cs := counts[0], counts[1..];
      CanonicalTail(denoms);
      NonNegativeTail(counts);
      var rest := amount - c * d;
      assert Weighted(cs, ds) + ones == rest;
      WeightedNonNegative(cs, ds);
      GreedyIsOptimal(rest, ds, cs, ones);
      Descend(amount, d, ds, c);
      GreedyCountStep(amount, denoms);
      assert Sum(counts) + ones == c + (Sum(cs) + ones);
      if GreedyCount(amount, denoms) == Sum(counts) + ones {
        assert c == amount / d && rest == amount % d;
        assert Peel(rest, ds) == Split(cs, ones);
        assert Peel(amount, denoms).counts == [c] + cs;
        assert counts == [c] + cs;
      }
    }
  }

  /** The tail of a canonical list is canonical, and its head meets the exchange condition. */
  lemma CanonicalTail(denoms: seq<int>)
    requires Canonical(denoms) && |denoms| > 0
    ensures Positive(denoms[1..]) && Canonical(denoms[1..])
    ensures Exchange(denoms[0], denoms[1..])
  {
    var ds := denoms[1..];
    assert Positive(ds) by {
      forall i | 0 <= i < |ds| ensures ds[i] > 0 {
        assert ds[i] == denoms[i + 1];
      }
    }
    forall k | 0 <= k < |ds| ensures Exchange(ds[k], ds[k + 1..]) {
      assert ds[k] == denoms[k + 1];
      assert ds[k + 1..] == denoms[k + 2..];
      assert Exchange(denoms[k + 1], denoms[k + 2..]);
    }
    assert Exchange(denoms[0], denoms[0 + 1..]);
  }

  /** The tail of non-negative counts is non-negative. */
  lemma NonNegativeTail(counts: seq<int>)
    requires NonNegative(counts) && |counts| > 0
    ensures NonNegative(counts[1..]) && counts[0] >= 0
  {
    forall i | 0 <= i < |counts| - 1 ensures counts[1..][i] >= 0 {
      assert counts[1..][i] == counts[i + 1];
    }
  }
}
