/**
 * The "top items" text of the cargo report: a header saying how many item
 * types are shown, then one line per shown record.
 */
module Report {
  import opened Inventory
  import opened Ranking

  /** The decimal digits of a natural number, most significant first. */
  function NatToString(n: nat): (s: string)
    ensures |s| > 0
    ensures forall i :: 0 <= i < |s| ==> '0' <= s[i] <= '9'
  {
    var digit := ['0' + (n % 10) as char];
    if n < 10 then digit else NatToString(n / 10) + digit
  }

  /** The number a string of decimal digits spells, read from the most significant digit. */
  function DigitsValue(s: string): int {
    if s == [] then 0 else DigitsValue(s[..|s| - 1]) * 10 + (s[|s| - 1] as int - '0' as int)
  }

  /** The digits of `n` spell `n`, with no leading zero. */
  lemma {:induction false} NatToStringValue(n: nat)
    ensures DigitsValue(NatToString(n)) == n
    ensures n >= 10 ==> NatToString(n)[0] != '0'
  {
    var s, digit := NatToString(n), ['0' + (n % 10) as char];
    if n < 10 {
      assert s[..|s| - 1] == [];
    } else {
      NatToStringValue(n / 10);
      assert s == NatToString(n / 10) + digit;
      assert s[..|s| - 1] == NatToString(n / 10);
    }
  }

  /** An integer as C# interpolation writes it: an optional minus sign and its digits. */
  function IntToString(n: int): (s: string)
    ensures '\n' !in s
  {
    if n < 0 then "-" + NatToString(-n) else NatToString(n)
  }

  /** A non-negative integer is written as its digits; a negative one as a minus sign and the digits of its magnitude. */
  lemma {:induction false} IntToStringSpells(n: int)
    ensures n >= 0 ==> IntToString(n) == NatToString(n) && DigitsValue(IntToString(n)) == n
    ensures n < 0 ==> IntToString(n) == "-" + NatToString(-n) && IntToString(n)[0] == '-' && DigitsValue(IntToString(n)[1..]) == -n
  {
    if n < 0 {
      NatToStringValue(-n);
      assert IntToString(n)[1..] == NatToString(-n);
    } else {
      NatToStringValue(n);
    }
  }

  /** The header line: "Top N item in cargo:" for one record, "Top N items in cargo:" otherwise. */
  function Header(displayedItems: int): string {
    "Top " + IntToString(displayedItems) + (if displayedItems == 1 then " item in cargo:" else " items in cargo:")
  }

  /** One listed record: a line break, its subtype id, an en dash and its formatted amount. */
  function ItemLine(item: SimplifiedInventoryItem, format: int -> string): string {
    "\n" + item.itemType.subtypeId + " \U{2013} " + format(item.amount)
  }

  /** The lines of all shown records, in order. */
  function ItemLines(shown: seq<SimplifiedInventoryItem>, format: int -> string): string {
    if shown == [] then ""
    else ItemLines(shown[..|shown| - 1], format) + ItemLine(shown[|shown| - 1], format)
  }

  lemma {:induction false} ItemLinesSnoc(s: seq<SimplifiedInventoryItem>, i: nat, format: int -> string)
    requires i < |s|
    ensures ItemLines(s[..i + 1], format) == ItemLines(s[..i], format) + ItemLine(s[i], format)
  {
    assert s[..i + 1][..i] == s[..i];
  }

  /** The whole top-items text for the merged records. */
  function TopItemsText(merged: seq<SimplifiedInventoryItem>, positions: int, format: int -> string): string {
    Header(DisplayedCount(|merged|, positions)) + ItemLines(TopN(merged, positions), format)
  }

  /**
   * Builds the top-items text from the stacks found in the cargo blocks:
   * convert, merge by subtype, sort by descending amount, then list the
   * first `displayedItems`. `format` stands for the culture-dependent
   * thousands formatter.
   */
  method BuildInfoStringTopMass(itemsInCargo: seq<InventoryItem>, positions: int, format: int -> string)
    returns (result: string)
    ensures result == TopItemsText(MergeItemsOfSameType(SimplifyAll(itemsInCargo)), positions, format)
  {
    var simplifiedItemsInCargo := ConvertToSimplifiedInventory(itemsInCargo);
    simplifiedItemsInCargo := MergeItemsOfSameType(simplifiedItemsInCargo);
    result := ListTopItems(simplifiedItemsInCargo, positions, format);
  }

  /** The sorting and counting part of BuildInfoStringTopMass. */
  method ListTopItems(merged: seq<SimplifiedInventoryItem>, positions: int, format: int -> string)
    returns (result: string)
    ensures result == TopItemsText(merged, positions, format)
  {
    var sortedItemsInCargo := SortByAmountDescending(merged);
    SortLength(merged);
    var displayedItems := if |sortedItemsInCargo| < positions then |sortedItemsInCargo| else positions;
    result := Header(displayedItems);
    result := AppendItemLines(result, sortedItemsInCargo, displayedItems, format);
  }

  /** The loop of BuildInfoStringTopMass: one line for each of the first `displayed` records. */
  method AppendItemLines(start: string, sorted: seq<SimplifiedInventoryItem>, displayed: int, format: int -> string)
    returns (result: string)
    requires displayed <= |sorted|
    ensures result == start + ItemLines(sorted[..if displayed <= 0 then 0 else displayed], format)
  {
    result := start;
    var i := 0;
    while i < displayed
      invariant 0 <= i <= |sorted|
      invariant displayed > 0 ==> i <= displayed
      invariant displayed <= 0 ==> i == 0
      invariant result == start + ItemLines(sorted[..i], format)
    {
      ItemLinesSnoc(sorted, i, format);
      result := result + ItemLine(sorted[i], format);
      i := i + 1;
    }
  }

  /** `s` ends with `suffix`. */
  predicate EndsWith(s: string, suffix: string) {
    |suffix| <= |s| && s[|s| - |suffix|..] == suffix
  }

  /** The number of occurrences of `c` in `s`. */
  function Count(s: string, c: char): nat {
    if s == [] then 0 else (if s[0] == c then 1 else 0) + Count(s[1..], c)
  }

  lemma {:induction false} CountAppend(a: string, b: string, c: char)
    ensures Count(a + b, c) == Count(a, c) + Count(b, c)
  {
    if a == [] {
      assert a + b == b;
    } else {
      assert (a + b)[1..] == a[1..] + b;
      CountAppend(a[1..], b, c);
    }
  }

  lemma {:induction false} CountAbsent(s: string, c: char)
    requires c !in s
    ensures Count(s, c) == 0
  {
    if s != [] {
      CountAbsent(s[1..], c);
    }
  }

  /** The header says "item" for exactly one shown record and "items" for any other count. */
  lemma {:induction false} HeaderWording(displayedItems: int)
    ensures displayedItems == 1 ==> Header(displayedItems) == "Top 1 item in cargo:"
    ensures displayedItems == 1 <==> EndsWith(Header(displayedItems), " item in cargo:")
    ensures displayedItems != 1 <==> EndsWith(Header(displayedItems), " items in cargo:")
  {
    if displayedItems == 1 {
      HeaderOfOne();
    } else {
      HeaderOfOther(displayedItems);
    }
  }

  /** The header opens with "Top " followed by the written count, which spells the count by IntToStringSpells. */
  lemma {:induction false} HeaderShowsCount(displayedItems: int)
    ensures var h, n := Header(displayedItems), IntToString(displayedItems);
      4 + |n| <= |h| && h[..4] == "Top " && h[4..4 + |n|] == n
  {
    var n := IntToString(displayedItems);
    assert ("Top " + n)[4..] == n;
  }

  lemma {:induction false} HeaderOfOne()
    ensures Header(1) == "Top 1 item in cargo:"
    ensures EndsWith(Header(1), " item in cargo:") && !EndsWith(Header(1), " items in cargo:")
  {
    assert IntToString(1) == "1";
    assert "Top " + "1" == "Top 1";
    SingularSuffix("Top 1");
    assert "Top 1" + " item in cargo:" == "Top 1 item in cargo:";
  }

  lemma {:induction false} HeaderOfOther(displayedItems: int)
    requires displayedItems != 1
    ensures EndsWith(Header(displayedItems), " items in cargo:") && !EndsWith(Header(displayedItems), " item in cargo:")
  {
    PluralSuffix("Top " + IntToString(displayedItems));
  }

  /** Text ending in " item in cargo:" after a non-space does not end in " items in cargo:". */
  lemma {:induction false} SingularSuffix(prefix: string)
    requires prefix != [] && prefix[|prefix| - 1] != ' '
    ensures var h := prefix + " item in cargo:";
      EndsWith(h, " item in cargo:") && !EndsWith(h, " items in cargo:")
  {
    var h := prefix + " item in cargo:";
    assert h[|h| - 15..] == " item in cargo:";
    assert h[|h| - 16] == prefix[|prefix| - 1];
    assert " items in cargo:"[0] == ' ';
  }

  /** Text ending in " items in cargo:" does not end in " item in cargo:". */
  lemma {:induction false} PluralSuffix(prefix: string)
    ensures var h := prefix + " items in cargo:";
      EndsWith(h, " items in cargo:") && !EndsWith(h, " item in cargo:")
  {
    var h := prefix + " items in cargo:";
    assert h[|h| - 16..] == " items in cargo:";
    assert h[|h| - 15] == 'i';
    assert " item in cargo:"[0] == ' ';
  }

  /** The header holds no line break. */
  lemma {:induction false} HeaderOnOneLine(displayedItems: int)
    ensures '\n' !in Header(displayedItems)
  {
    var n, words := IntToString(displayedItems), if displayedItems == 1 then " item in cargo:" else " items in cargo:";
    assert forall c :: c in "Top " + n + words ==> c in "Top " || c in n || c in words;
  }

  /**
   * When no subtype id and no formatted amount contains a line break, the
   * text has exactly one line break per shown record: the header is one line
   * and every shown record adds one.
   */
  lemma {:induction false} ItemLinesCount(shown: seq<SimplifiedInventoryItem>, format: int -> string)
    requires forall i :: 0 <= i < |shown| ==> '\n' !in shown[i].itemType.subtypeId
    requires forall a :: '\n' !in format(a)
    ensures Count(ItemLines(shown, format), '\n') == |shown|
  {
    if shown != [] {
      var last := shown[|shown| - 1];
      ItemLinesCount(shown[..|shown| - 1], format);
      CountAppend(ItemLines(shown[..|shown| - 1], format), ItemLine(last, format), '\n');
      var sub, amount := last.itemType.subtypeId, format(last.amount);
      CountAppend("\n" + sub + " \U{2013} ", amount, '\n');
      CountAppend("\n" + sub, " \U{2013} ", '\n');
      CountAppend("\n", sub, '\n');
      CountAbsent(sub, '\n');
      CountAbsent(amount, '\n');
      CountAbsent(" \U{2013} ", '\n');
      assert Count("\n", '\n') == 1;
    }
  }

  /** The whole top-items text has one line break per shown record and no other. */
  lemma {:induction false} TopItemsLineCount(merged: seq<SimplifiedInventoryItem>, positions: int, format: int -> string)
    requires forall i :: 0 <= i < |merged| ==> '\n' !in merged[i].itemType.subtypeId
    requires forall a :: '\n' !in format(a)
    ensures Count(TopItemsText(merged, positions, format), '\n') == |TopN(merged, positions)|
  {
    var shown := TopN(merged, positions);
    var header := Header(DisplayedCount(|merged|, positions));
    TopNDrawsFrom(merged, positions);
    ItemLinesCount(shown, format);
    CountAppend(header, ItemLines(shown, format), '\n');
    HeaderOnOneLine(DisplayedCount(|merged|, positions));
    CountAbsent(header, '\n');
  }
}
