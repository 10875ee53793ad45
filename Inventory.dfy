/**
 * Item records of the cargo report: the engine's item stacks, the
 * simplified (type, amount) records the script converts them to, and the
 * merge that sums all records of the same subtype into one.
 */
module Inventory {
  import opened IntCasts

  /** An item type as the engine reports it; only the subtype id is used as a grouping key. */
  datatype ItemType = ItemType(typeId: string, subtypeId: string)

  /** Number of raw units in one whole unit of an engine fixed-point amount. */
  const FixedPointScale: int := 1000000

  /** An engine fixed-point amount, stored as a whole number of millionths. */
  datatype FixedPoint = FixedPoint(raw: int)

  /** An item stack as the engine lists it. */
  datatype InventoryItem = InventoryItem(itemType: ItemType, amount: FixedPoint)

  /** The script's own record: a type and a whole-unit amount. */
  datatype SimplifiedInventoryItem = SimplifiedInventoryItem(itemType: ItemType, amount: int)

  /** The cast of a fixed-point amount to a whole number, fractions dropped toward zero. */
  function WholeUnits(amount: FixedPoint): (n: int)
    ensures amount.raw >= 0 ==> 0 <= n * FixedPointScale <= amount.raw < (n + 1) * FixedPointScale
    ensures amount.raw <= 0 ==> (n - 1) * FixedPointScale < amount.raw <= n * FixedPointScale <= 0
  {
    TruncatingDiv(amount.raw, FixedPointScale)
  }

  /** The record built for one stack. */
  function Simplify(item: InventoryItem): SimplifiedInventoryItem {
    SimplifiedInventoryItem(item.itemType, WholeUnits(item.amount))
  }

  /** The records built for a list of stacks, one per stack, in order. */
  function SimplifyAll(items: seq<InventoryItem>): seq<SimplifiedInventoryItem> {
    seq(|items|, i requires 0 <= i < |items| => Simplify(items[i]))
  }

  /** Converts every stack into a record of its type and its whole-unit amount. */
  method ConvertToSimplifiedInventory(listToConvert: seq<InventoryItem>) returns (convertedList: seq<SimplifiedInventoryItem>)
    ensures |convertedList| == |listToConvert|
    ensures forall i :: 0 <= i < |listToConvert| ==>
              convertedList[i].itemType == listToConvert[i].itemType &&
              convertedList[i].amount == WholeUnits(listToConvert[i].amount)
    ensures convertedList == SimplifyAll(listToConvert)
  {
    convertedList := [];
    for k := 0 to |listToConvert|
      invariant |convertedList| == k
      invariant forall i :: 0 <= i < k ==>
                  convertedList[i].itemType == listToConvert[i].itemType &&
                  convertedList[i].amount == WholeUnits(listToConvert[i].amount)
    {
      var listElement := listToConvert[k];
      convertedList := convertedList + [SimplifiedInventoryItem(listElement.itemType, WholeUnits(listElement.amount))];
    }
    assert forall i :: 0 <= i < |listToConvert| ==> convertedList[i] == SimplifyAll(listToConvert)[i];
  }

  // ---------------------------------------------------------------------
  // Reference definitions over a list of records, read left to right.
  // ---------------------------------------------------------------------

  /** The grouping key of a record. */
  function Key(item: SimplifiedInventoryItem): string {
    item.itemType.subtypeId
  }

  /** The keys of a list, position by position. */
  function Keys(items: seq<SimplifiedInventoryItem>): (keys: seq<string>)
    ensures |keys| == |items|
    ensures forall i :: 0 <= i < |items| ==> keys[i] == Key(items[i])
  {
    if items == [] then [] else [Key(items[0])] + Keys(items[1..])
  }

  ghost predicate Distinct(keys: seq<string>) {
    forall i, j :: 0 <= i < j < |keys| ==> keys[i] != keys[j]
  }

  /** The sum of the amounts of all records with key `k`. */
  function SumOf(items: seq<SimplifiedInventoryItem>, k: string): int {
    if items == [] then 0
    else
      var last := items[|items| - 1];
      SumOf(items[..|items| - 1], k) + (if Key(last) == k then last.amount else 0)
  }

  /** The sum of all amounts. */
  function TotalAmount(items: seq<SimplifiedInventoryItem>): int {
    if items == [] then 0 else TotalAmount(items[..|items| - 1]) + items[|items| - 1].amount
  }

  /** Position of the first record with key `k`. */
  function FirstIndex(items: seq<SimplifiedInventoryItem>, k: string): (r: nat)
    requires k in Keys(items)
    ensures r < |items| && Key(items[r]) == k
    ensures forall j :: 0 <= j < r ==> Key(items[j]) != k
  {
    var front := items[..|items| - 1];
    KeysSnoc(items);
    if k in Keys(front) then FirstIndex(front, k) else |items| - 1
  }

  // ---------------------------------------------------------------------
  // The merge: LINQ GroupBy on the subtype id, then one record per group.
  // ---------------------------------------------------------------------

  /** Adds one record to a list of groups: into the group with its key, or as a new last group. */
  function AddToGroups(groups: seq<SimplifiedInventoryItem>, item: SimplifiedInventoryItem): (r: seq<SimplifiedInventoryItem>)
    ensures |groups| <= |r| <= |groups| + 1
  {
    if groups == [] then [item]
    else if Key(groups[0]) == Key(item) then [groups[0].(amount := groups[0].amount + item.amount)] + groups[1..]
    else [groups[0]] + AddToGroups(groups[1..], item)
  }

  /**
   * One record per distinct subtype id, in order of first occurrence,
   * carrying the summed amount and the type of the group's first record.
   */
  function MergeItemsOfSameType(listToMerge: seq<SimplifiedInventoryItem>): seq<SimplifiedInventoryItem> {
    if listToMerge == [] then []
    else AddToGroups(MergeItemsOfSameType(listToMerge[..|listToMerge| - 1]), listToMerge[|listToMerge| - 1])
  }

  lemma {:induction false} KeysSnoc(items: seq<SimplifiedInventoryItem>)
    requires items != []
    ensures Keys(items) == Keys(items[..|items| - 1]) + [Key(items[|items| - 1])]
  {
    var front, keys := items[..|items| - 1], Keys(items);
    forall i | 0 <= i < |items|
      ensures keys[i] == (Keys(front) + [Key(items[|items| - 1])])[i]
    {
      if i < |front| {
        assert front[i] == items[i];
      }
    }
  }

  lemma {:induction false} SumOfAbsent(items: seq<SimplifiedInventoryItem>, k: string)
    requires k !in Keys(items)
    ensures SumOf(items, k) == 0
  {
    if items != [] {
      KeysSnoc(items);
      SumOfAbsent(items[..|items| - 1], k);
    }
  }

  /** What adding one record does to a list of groups whose keys are distinct. */
  lemma {:induction false} AddToGroupsEffect(groups: seq<SimplifiedInventoryItem>, item: SimplifiedInventoryItem)
    requires Distinct(Keys(groups))
    ensures Key(item) in Keys(groups) ==> Keys(AddToGroups(groups, item)) == Keys(groups)
    ensures Key(item) !in Keys(groups) ==>
              Keys(AddToGroups(groups, item)) == Keys(groups) + [Key(item)] && AddToGroups(groups, item)[|groups|] == item
    ensures forall i :: 0 <= i < |groups| ==>
              AddToGroups(groups, item)[i] ==
                if Key(groups[i]) == Key(item) then groups[i].(amount := groups[i].amount + item.amount) else groups[i]
  {
    AddToGroupsShape(groups, item);
    AddToGroupsValues(groups, item);
  }

  /** Adding a record keeps the keys, or appends the record when its key is new. */
  lemma {:induction false} AddToGroupsShape(groups: seq<SimplifiedInventoryItem>, item: SimplifiedInventoryItem)
    ensures Key(item) in Keys(groups) ==> Keys(AddToGroups(groups, item)) == Keys(groups)
    ensures Key(item) !in Keys(groups) ==>
              Keys(AddToGroups(groups, item)) == Keys(groups) + [Key(item)] && AddToGroups(groups, item)[|groups|] == item
  {
    if Key(item) in Keys(groups) {
      AddToGroupsExisting(groups, item);
    } else {
      AddToGroupsNew(groups, item);
    }
  }

  lemma {:induction false} AddToGroupsExisting(groups: seq<SimplifiedInventoryItem>, item: SimplifiedInventoryItem)
    requires Key(item) in Keys(groups)
    ensures Keys(AddToGroups(groups, item)) == Keys(groups)
  {
    var rest, r := groups[1..], AddToGroups(groups, item);
    assert Keys(groups) == [Key(groups[0])] + Keys(rest);
    if Key(groups[0]) == Key(item) {
      assert r[1..] == rest;
      assert Keys(r) == [Key(r[0])] + Keys(rest);
    } else {
      AddToGroupsExisting(rest, item);
      assert r[1..] == AddToGroups(rest, item);
      assert Keys(r) == [Key(groups[0])] + Keys(AddToGroups(rest, item));
    }
  }

  lemma {:induction false} AddToGroupsNew(groups: seq<SimplifiedInventoryItem>, item: SimplifiedInventoryItem)
    requires Key(item) !in Keys(groups)
    ensures Keys(AddToGroups(groups, item)) == Keys(groups) + [Key(item)] && AddToGroups(groups, item)[|groups|] == item
  {
    AddToGroupsAppends(groups, item);
    var r := groups + [item];
    assert r[..|r| - 1] == groups;
    KeysSnoc(r);
  }

  /** A record whose key is new becomes the last group. */
  lemma {:induction false} AddToGroupsAppends(groups: seq<SimplifiedInventoryItem>, item: SimplifiedInventoryItem)
    requires Key(item) !in Keys(groups)
    ensures AddToGroups(groups, item) == groups + [item]
  {
    if groups != [] {
      var rest := groups[1..];
      assert Keys(groups) == [Key(groups[0])] + Keys(rest);
      AddToGroupsAppends(rest, item);
      assert groups + [item] == [groups[0]] + (rest + [item]);
    }
  }

  /** With distinct keys, only the record sharing the added key changes, by the added amount. */
  lemma {:induction false} AddToGroupsValues(groups: seq<SimplifiedInventoryItem>, item: SimplifiedInventoryItem)
    requires Distinct(Keys(groups))
    ensures forall i :: 0 <= i < |groups| ==>
              AddToGroups(groups, item)[i] ==
                if Key(groups[i]) == Key(item) then groups[i].(amount := groups[i].amount + item.amount) else groups[i]
  {
    if groups != [] {
      var rest, r, keys := groups[1..], AddToGroups(groups, item), Keys(groups);
      if Key(groups[0]) == Key(item) {
        forall i | 0 < i < |groups|
          ensures r[i] == groups[i] && Key(groups[i]) != Key(item)
        {
          assert keys[0] != keys[i];
        }
      } else {
        assert Distinct(Keys(rest)) by {
          forall i, j | 0 <= i < j < |rest|
            ensures Keys(rest)[i] != Keys(rest)[j]
          {
            assert keys[i + 1] != keys[j + 1];
          }
        }
        AddToGroupsValues(rest, item);
        forall i | 0 < i < |groups|
          ensures r[i] == AddToGroups(rest, item)[i - 1]
        {
        }
      }
    }
  }

  /** Every key of the merged list is a key of the input, and the other way round. */
  ghost predicate SameKeys(m: seq<SimplifiedInventoryItem>, l: seq<SimplifiedInventoryItem>) {
    forall k :: k in Keys(m) <==> k in Keys(l)
  }

  /** Every record of `m` has a key that occurs in `l`. */
  ghost predicate KeysIn(m: seq<SimplifiedInventoryItem>, l: seq<SimplifiedInventoryItem>) {
    forall i :: 0 <= i < |m| ==> Key(m[i]) in Keys(l)
  }

  /** The keys of `m` occur in `l` and appear in `m` in order of their first occurrence in `l`. */
  ghost predicate FirstOccurrenceOrder(m: seq<SimplifiedInventoryItem>, l: seq<SimplifiedInventoryItem>) {
    && KeysIn(m, l)
    && (forall i, j :: 0 <= i < j < |m| ==> FirstIndex(l, Key(m[i])) < FirstIndex(l, Key(m[j])))
  }

  /** Each record of `m` carries the summed amount of its key in `l` and the type of its first record there. */
  ghost predicate GroupTotals(m: seq<SimplifiedInventoryItem>, l: seq<SimplifiedInventoryItem>)
    requires KeysIn(m, l)
  {
    forall i :: 0 <= i < |m| ==>
      m[i].amount == SumOf(l, Key(m[i])) && m[i].itemType == l[FirstIndex(l, Key(m[i]))].itemType
  }

  /** The merged list has exactly one record per distinct subtype id of the input. */
  lemma {:induction false} MergeKeys(listToMerge: seq<SimplifiedInventoryItem>)
    ensures Distinct(Keys(MergeItemsOfSameType(listToMerge)))
    ensures SameKeys(MergeItemsOfSameType(listToMerge), listToMerge)
  {
    if listToMerge != [] {
      var n := |listToMerge|;
      var front, x := listToMerge[..n - 1], listToMerge[n - 1];
      var m', m := MergeItemsOfSameType(front), MergeItemsOfSameType(listToMerge);
      assert m == AddToGroups(m', x);
      MergeKeys(front);
      AddToGroupsEffect(m', x);
      KeysSnoc(listToMerge);
      if Key(x) in Keys(m') {
        assert Keys(m) == Keys(m');
      } else {
        assert Keys(m) == Keys(m') + [Key(x)];
      }
    }
  }

  /** Extending a list at the end moves no first occurrence of a key it already has. */
  lemma {:induction false} FirstIndexSnoc(items: seq<SimplifiedInventoryItem>, k: string)
    requires items != []
    ensures k in Keys(items[..|items| - 1]) ==> k in Keys(items) && FirstIndex(items, k) == FirstIndex(items[..|items| - 1], k)
    ensures k !in Keys(items[..|items| - 1]) && k == Key(items[|items| - 1]) ==> k in Keys(items) && FirstIndex(items, k) == |items| - 1
  {
    KeysSnoc(items);
  }

  /** Adding one record keeps the key of every existing group at its place. */
  lemma {:induction false} AddToGroupsKeys(groups: seq<SimplifiedInventoryItem>, item: SimplifiedInventoryItem)
    requires Distinct(Keys(groups))
    ensures |AddToGroups(groups, item)| == if Key(item) in Keys(groups) then |groups| else |groups| + 1
    ensures forall i :: 0 <= i < |groups| ==> Key(AddToGroups(groups, item)[i]) == Key(groups[i])
    ensures Key(item) !in Keys(groups) ==> Key(AddToGroups(groups, item)[|groups|]) == Key(item)
  {
    AddToGroupsEffect(groups, item);
  }

  /** The merged records appear in order of the first occurrence of their subtype id in the input. */
  lemma {:induction false} MergeKeepsFirstOccurrenceOrder(listToMerge: seq<SimplifiedInventoryItem>)
    ensures FirstOccurrenceOrder(MergeItemsOfSameType(listToMerge), listToMerge)
  {
    if listToMerge != [] {
      var n := |listToMerge|;
      var front, x := listToMerge[..n - 1], listToMerge[n - 1];
      assert MergeItemsOfSameType(listToMerge) == AddToGroups(MergeItemsOfSameType(front), x);
      assert listToMerge == front + [x];
      MergeKeys(front);
      MergeKeepsFirstOccurrenceOrder(front);
      OrderStep(MergeItemsOfSameType(front), front, x);
    }
  }

  /** Adding one record to groups in first-occurrence order of `l` keeps that order for `l + [x]`. */
  lemma {:induction false} OrderStep(groups: seq<SimplifiedInventoryItem>, l: seq<SimplifiedInventoryItem>, x: SimplifiedInventoryItem)
    requires Distinct(Keys(groups)) && SameKeys(groups, l) && FirstOccurrenceOrder(groups, l)
    ensures FirstOccurrenceOrder(AddToGroups(groups, x), l + [x])
  {
    var l', r := l + [x], AddToGroups(groups, x);
    assert l'[..|l'| - 1] == l;
    AddToGroupsKeys(groups, x);
    forall i | 0 <= i < |groups|
      ensures Key(r[i]) in Keys(l') && FirstIndex(l', Key(r[i])) == FirstIndex(l, Key(groups[i]))
    {
      FirstIndexSnoc(l', Key(groups[i]));
    }
    if Key(x) !in Keys(groups) {
      FirstIndexSnoc(l', Key(x));
    }
    forall i, j | 0 <= i < j < |r|
      ensures FirstIndex(l', Key(r[i])) < FirstIndex(l', Key(r[j]))
    {
      if j == |groups| {
        assert FirstIndex(l', Key(r[j])) == |l|;
      }
    }
  }

  /** Adding a record to a group that already has its key keeps that group's totals right. */
  lemma {:induction false} ExistingGroupStep(groups: seq<SimplifiedInventoryItem>, l: seq<SimplifiedInventoryItem>, x: SimplifiedInventoryItem, i: nat)
    requires Distinct(Keys(groups)) && KeysIn(groups, l) && GroupTotals(groups, l)
    requires i < |groups|
    ensures var r, l' := AddToGroups(groups, x), l + [x];
      i < |r| && Key(r[i]) in Keys(l') &&
      r[i].amount == SumOf(l', Key(r[i])) && r[i].itemType == l'[FirstIndex(l', Key(r[i]))].itemType
  {
    var l', r, k := l + [x], AddToGroups(groups, x), Key(groups[i]);
    assert l'[..|l'| - 1] == l;
    AddToGroupsValues(groups, x);
    assert Key(r[i]) == k && k in Keys(l);
    FirstIndexSnoc(l', k);
    assert SumOf(l', k) == SumOf(l, k) + (if Key(x) == k then x.amount else 0);
    assert l'[FirstIndex(l, k)] == l[FirstIndex(l, k)];
  }

  /** Adding a record with a new key makes a last group whose totals are right. */
  lemma {:induction false} NewGroupStep(groups: seq<SimplifiedInventoryItem>, l: seq<SimplifiedInventoryItem>, x: SimplifiedInventoryItem)
    requires Distinct(Keys(groups)) && SameKeys(groups, l)
    requires Key(x) !in Keys(groups)
    ensures var r, l' := AddToGroups(groups, x), l + [x];
      |groups| < |r| && Key(r[|groups|]) in Keys(l') &&
      r[|groups|].amount == SumOf(l', Key(x)) && r[|groups|].itemType == l'[FirstIndex(l', Key(x))].itemType
  {
    var l' := l + [x];
    assert l'[..|l'| - 1] == l;
    AddToGroupsEffect(groups, x);
    SumOfAbsent(l, Key(x));
    FirstIndexSnoc(l', Key(x));
  }

  /**
   * Each merged record carries the sum of the input amounts with its subtype id
   * and the type of the first input record with that subtype id.
   */
  lemma {:induction false} MergeSumsGroups(listToMerge: seq<SimplifiedInventoryItem>)
    ensures KeysIn(MergeItemsOfSameType(listToMerge), listToMerge)
    ensures GroupTotals(MergeItemsOfSameType(listToMerge), listToMerge)
  {
    if listToMerge != [] {
      var n := |listToMerge|;
      var front, x := listToMerge[..n - 1], listToMerge[n - 1];
      assert MergeItemsOfSameType(listToMerge) == AddToGroups(MergeItemsOfSameType(front), x);
      assert listToMerge == front + [x];
      MergeKeys(front);
      MergeSumsGroups(front);
      GroupTotalsStep(MergeItemsOfSameType(front), front, x);
    }
  }

  /** Adding one record to correctly summed groups of `l` gives correctly summed groups of `l + [x]`. */
  lemma {:induction false} GroupTotalsStep(groups: seq<SimplifiedInventoryItem>, l: seq<SimplifiedInventoryItem>, x: SimplifiedInventoryItem)
    requires Distinct(Keys(groups)) && SameKeys(groups, l) && KeysIn(groups, l) && GroupTotals(groups, l)
    ensures KeysIn(AddToGroups(groups, x), l + [x])
    ensures GroupTotals(AddToGroups(groups, x), l + [x])
  {
    var r := AddToGroups(groups, x);
    forall i | 0 <= i < |r|
      ensures Key(r[i]) in Keys(l + [x])
      ensures r[i].amount == SumOf(l + [x], Key(r[i]))
      ensures r[i].itemType == (l + [x])[FirstIndex(l + [x], Key(r[i]))].itemType
    {
      GroupStepAt(groups, l, x, i);
    }
  }

  /** GroupTotalsStep for the record at one index of the new groups. */
  lemma {:induction false} GroupStepAt(groups: seq<SimplifiedInventoryItem>, l: seq<SimplifiedInventoryItem>, x: SimplifiedInventoryItem, i: nat)
    requires Distinct(Keys(groups)) && SameKeys(groups, l) && KeysIn(groups, l) && GroupTotals(groups, l)
    requires i < |AddToGroups(groups, x)|
    ensures var r, l' := AddToGroups(groups, x), l + [x];
      Key(r[i]) in Keys(l') &&
      r[i].amount == SumOf(l', Key(r[i])) && r[i].itemType == l'[FirstIndex(l', Key(r[i]))].itemType
  {
    AddToGroupsKeys(groups, x);
    if i < |groups| {
      ExistingGroupStep(groups, l, x, i);
    } else {
      assert Key(x) !in Keys(groups) && i == |groups|;
      NewGroupStep(groups, l, x);
    }
  }

  lemma {:induction false} TotalAmountCons(item: SimplifiedInventoryItem, items: seq<SimplifiedInventoryItem>)
    ensures TotalAmount([item] + items) == item.amount + TotalAmount(items)
  {
    if items != [] {
      var n := |items|;
      assert ([item] + items)[..n] == [item] + items[..n - 1];
      TotalAmountCons(item, items[..n - 1]);
    }
  }

  lemma {:induction false} AddToGroupsTotal(groups: seq<SimplifiedInventoryItem>, item: SimplifiedInventoryItem)
    ensures TotalAmount(AddToGroups(groups, item)) == TotalAmount(groups) + item.amount
  {
    if groups != [] {
      var g := groups[0];
      assert groups == [g] + groups[1..];
      TotalAmountCons(g, groups[1..]);
      if Key(g) == Key(item) {
        TotalAmountCons(g.(amount := g.amount + item.amount), groups[1..]);
      } else {
        AddToGroupsTotal(groups[1..], item);
        TotalAmountCons(g, AddToGroups(groups[1..], item));
      }
    } else {
      assert [item][..0] == [];
    }
  }

  /** Merging moves amounts between records but neither creates nor loses any. */
  lemma {:induction false} MergeConservesTotal(listToMerge: seq<SimplifiedInventoryItem>)
    ensures TotalAmount(MergeItemsOfSameType(listToMerge)) == TotalAmount(listToMerge)
  {
    if listToMerge != [] {
      var n := |listToMerge|;
      MergeConservesTotal(listToMerge[..n - 1]);
      AddToGroupsTotal(MergeItemsOfSameType(listToMerge[..n - 1]), listToMerge[n - 1]);
    }
  }
}
