/**
 * Ranking of the merged records: LINQ `OrderByDescending` on the amount,
 * which is a stable sort, followed by taking the first `positions` records.
 */
module Ranking {
  import opened Inventory

  /** Amounts never increase from left to right. */
  ghost predicate SortedDescending(s: seq<SimplifiedInventoryItem>) {
    forall i, j :: 0 <= i < j < |s| ==> s[i].amount >= s[j].amount
  }

  /** The records of `s` whose amount is `a`, in their order in `s`. */
  function WithAmount(s: seq<SimplifiedInventoryItem>, a: int): seq<SimplifiedInventoryItem> {
    if s == [] then []
    else (if s[0].amount == a then [s[0]] else []) + WithAmount(s[1..], a)
  }

  /** Puts `x` into a descending list, in front of every record with the same amount. */
  function InsertDescending(x: SimplifiedInventoryItem, s: seq<SimplifiedInventoryItem>): seq<SimplifiedInventoryItem> {
    if s == [] || x.amount >= s[0].amount then [x] + s
    else [s[0]] + InsertDescending(x, s[1..])
  }

  /** The records ordered by descending amount; records with equal amounts keep their input order. */
  function SortByAmountDescending(s: seq<SimplifiedInventoryItem>): seq<SimplifiedInventoryItem> {
    if s == [] then [] else InsertDescending(s[0], SortByAmountDescending(s[1..]))
  }

  /** No amount in `s` exceeds `bound`. */
  ghost predicate AtMost(s: seq<SimplifiedInventoryItem>, bound: int) {
    forall k :: 0 <= k < |s| ==> s[k].amount <= bound
  }

  lemma {:induction false} InsertAtMost(x: SimplifiedInventoryItem, s: seq<SimplifiedInventoryItem>, bound: int)
    requires AtMost(s, bound) && x.amount <= bound
    ensures AtMost(InsertDescending(x, s), bound)
  {
    if s != [] && x.amount < s[0].amount {
      InsertAtMost(x, s[1..], bound);
    }
  }

  lemma {:induction false} InsertKeepsSorted(x: SimplifiedInventoryItem, s: seq<SimplifiedInventoryItem>)
    requires SortedDescending(s)
    ensures SortedDescending(InsertDescending(x, s))
  {
    if s != [] && x.amount < s[0].amount {
      var t := InsertDescending(x, s[1..]);
      InsertKeepsSorted(x, s[1..]);
      InsertAtMost(x, s[1..], s[0].amount);
      assert InsertDescending(x, s) == [s[0]] + t;
    }
  }

  lemma {:induction false} InsertPermutes(x: SimplifiedInventoryItem, s: seq<SimplifiedInventoryItem>)
    ensures multiset(InsertDescending(x, s)) == multiset(s) + multiset{x}
  {
    if s != [] && x.amount < s[0].amount {
      InsertPermutes(x, s[1..]);
      assert s == [s[0]] + s[1..];
    }
  }

  lemma {:induction false} InsertWithAmount(x: SimplifiedInventoryItem, s: seq<SimplifiedInventoryItem>, a: int)
    ensures WithAmount(InsertDescending(x, s), a) == (if x.amount == a then [x] else []) + WithAmount(s, a)
  {
    var xs := if x.amount == a then [x] else [];
    if s != [] && x.amount < s[0].amount {
      var t := InsertDescending(x, s[1..]);
      var heads := if s[0].amount == a then [s[0]] else [];
      InsertWithAmount(x, s[1..], a);
      assert InsertDescending(x, s) == [s[0]] + t;
      assert ([s[0]] + t)[1..] == t;
      assert WithAmount(InsertDescending(x, s), a) == heads + (xs + WithAmount(s[1..], a));
      assert xs == [] || heads == [];
      assert WithAmount(s, a) == heads + WithAmount(s[1..], a);
    } else {
      assert ([x] + s)[1..] == s;
    }
  }

  /**
   * The sort orders by descending amount, is a permutation of its input
   * and is stable: for every amount, the records with that amount appear
   * in the same order as in the input.
   */
  lemma {:induction false} SortIsStableDescending(s: seq<SimplifiedInventoryItem>)
    ensures SortedDescending(SortByAmountDescending(s))
    ensures multiset(SortByAmountDescending(s)) == multiset(s)
    ensures forall a :: WithAmount(SortByAmountDescending(s), a) == WithAmount(s, a)
  {
    if s != [] {
      SortIsStableDescending(s[1..]);
      InsertKeepsSorted(s[0], SortByAmountDescending(s[1..]));
      InsertPermutes(s[0], SortByAmountDescending(s[1..]));
      assert s == [s[0]] + s[1..];
      forall a ensures WithAmount(SortByAmountDescending(s), a) == WithAmount(s, a) {
        InsertWithAmount(s[0], SortByAmountDescending(s[1..]), a);
      }
    }
  }

  /** How many records the report shows: the smaller of the record count and `positions`. */
  function DisplayedCount(count: int, positions: int): (displayed: int)
    ensures displayed <= count && displayed <= positions
    ensures displayed == count || displayed == positions
  {
    if count < positions then count else positions
  }

  /** The records the report shows: the first `DisplayedCount` records of the sorted list. */
  function TopN(s: seq<SimplifiedInventoryItem>, positions: int): seq<SimplifiedInventoryItem> {
    var sorted := SortByAmountDescending(s);
    var displayed := DisplayedCount(|sorted|, positions);
    if displayed <= 0 then [] else sorted[..displayed]
  }

  lemma {:induction false} SortLength(s: seq<SimplifiedInventoryItem>)
    ensures |SortByAmountDescending(s)| == |s|
  {
    SortIsStableDescending(s);
    assert |multiset(SortByAmountDescending(s))| == |multiset(s)|;
  }

  /**
   * The report shows `min(|s|, positions)` records (none when `positions` is
   * not positive); they are a leading part of the stable descending order, a
   * sub-multiset of the input, and every shown amount is at least every
   * amount left out.
   */
  lemma {:induction false} TopNSelectsLargest(s: seq<SimplifiedInventoryItem>, positions: int)
    ensures var t, sorted := TopN(s, positions), SortByAmountDescending(s);
      && |t| == (if positions <= 0 then 0 else if |s| < positions then |s| else positions)
      && t == sorted[..|t|]
      && SortedDescending(t)
      && multiset(t) <= multiset(s)
      && (forall i, j :: 0 <= i < |t| <= j < |sorted| ==> t[i].amount >= sorted[j].amount)
  {
    var sorted, t := SortByAmountDescending(s), TopN(s, positions);
    TopNPrefix(s, positions);
    SortIsStableDescending(s);
    assert multiset(t) <= multiset(s) by {
      assert sorted == t + sorted[|t|..];
      assert multiset(sorted) == multiset(t) + multiset(sorted[|t|..]);
    }
  }

  /** The shown records are the first DisplayedCount records of the sorted list. */
  lemma {:induction false} TopNPrefix(s: seq<SimplifiedInventoryItem>, positions: int)
    ensures var t, sorted := TopN(s, positions), SortByAmountDescending(s);
      && |t| == (if positions <= 0 then 0 else if |s| < positions then |s| else positions)
      && |t| <= |sorted| && t == sorted[..|t|]
  {
    SortLength(s);
  }

  /** Every shown record is one of the merged records. */
  lemma {:induction false} TopNDrawsFrom(s: seq<SimplifiedInventoryItem>, positions: int)
    ensures forall i :: 0 <= i < |TopN(s, positions)| ==> TopN(s, positions)[i] in s
  {
    var t := TopN(s, positions);
    TopNSelectsLargest(s, positions);
    forall i | 0 <= i < |t| ensures t[i] in s {
      assert t[i] in multiset(t);
    }
  }

}
