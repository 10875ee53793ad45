# Cargo report of a ship-capacity script, modelled in Dafny

The script runs in a programmable block of a Space Engineers ship. Each
run it writes a short report to a cockpit screen. The report has three
parts:

- a capacity bar, `{` then one `|` per filled segment, one `'` per empty
  segment, then `}`;
- the item types with the largest amounts in cargo, one line each, under
  a header such as `Top 3 items in cargo:`;
- a font colour chosen from the load percentage (low, medium, high).

This project models the logic behind that report.

- `IntCasts` defines C# truncating division. The `(int)` and `(long)`
  casts round toward zero, whereas Dafny's `/` is Euclidean.
- `Inventory` covers item records. It defines the engine's item stacks
  and the script's `SimplifiedInventoryItem` record. It also holds
  `ConvertToSimplifiedInventory`, the loop that turns stacks into
  records, and `MergeItemsOfSameType`, the group-by-subtype-and-sum.
- `Ranking` holds the stable descending sort by amount and the choice
  of the first `positions` records.
- `Report` builds the top-items text. `BuildInfoStringTopMass` converts,
  merges, sorts and then appends one line per shown record. It is split
  into `ListTopItems` (sort and count) and `AppendItemLines` (the loop).
- `ProgressBar` holds `CreateProgressBar` with its two counting-down
  loops, and the layout of the bar it draws.
- `LoadState` sorts the load percentage into the three bands.

The loops are methods. Each is proved against a specification function
(`SimplifyAll`, `TopItemsText`, `Bar`), and the properties the script
relies on are lemmas about those functions.

- The merge is a fold. It adds each record in turn to the group with its
  key, or starts a new last group.
- The merge is proved against independent definitions of the key list,
  the first occurrence of a key and the sum of a key's amounts.
- The sort is an insertion sort. Stability is stated as: for every
  amount, the records with that amount keep their input order.

Modelling choices:

- The culture-dependent thousands formatter `"{0:#,##0}"` is the
  uninterpreted parameter `format`.
- The engine's fixed-point amount is a whole number of millionths.
- A `(long)` cast of that amount drops the fraction toward zero.
- The bar length (`barLength`, 50 in the script's configuration) and the
  number of shown positions (`topPositions`, 3) are parameters.

## Model

| member | source | states |
|---|---|---|
| IntCasts.TruncatingDiv | Program.cs:74 | the quotient rounds toward zero: for a non-negative dividend the remainder lies in [0, b), for a non-positive one in (-b, 0] |
| Inventory.WholeUnits | Program.cs:312 | the `(long)` cast of a fixed-point amount is the whole number of units, truncated toward zero, on both sides of zero |
| Inventory.ConvertToSimplifiedInventory | Program.cs:306-316 | the output has one record per input stack in the same order; record i has stack i's type and the cast of its amount; the whole list equals `SimplifyAll` of the input |
| Inventory.Simplify | Program.cs:312 | the record built for one stack; stated through ConvertToSimplifiedInventory |
| Inventory.SimplifyAll | Program.cs:310-313 | one record per stack in order; the loop of ConvertToSimplifiedInventory is proved equal to it |
| Inventory.MergeItemsOfSameType | Program.cs:289-303 | the merge as a fold over the input; its result is pinned down by MergeKeys, MergeKeepsFirstOccurrenceOrder, MergeSumsGroups and MergeConservesTotal |
| Inventory.Keys | Program.cs:294 | the key list has one entry per record, and entry i is record i's subtype id |
| Inventory.FirstIndex | Program.cs:298 | for a key that occurs, the index of its first record: that record has the key and no earlier record has it |
| Inventory.AddToGroups | Program.cs:293-300 | adding one record to the groups keeps their number or adds exactly one |
| Inventory.AddToGroupsAppends | Program.cs:293-300 | a record whose subtype id is new becomes the last group, unchanged |
| Inventory.AddToGroupsValues | Program.cs:297 | with distinct keys, adding a record changes only the group with its subtype id, by adding its amount |
| Inventory.MergeKeys | Program.cs:293-300 | the merged list has exactly one record per distinct subtype id; a subtype id occurs in the merged list exactly when it occurs in the input |
| Inventory.MergeKeepsFirstOccurrenceOrder | Program.cs:294-300 | merged records appear in the order in which their subtype ids first occur in the input |
| Inventory.MergeSumsGroups | Program.cs:295-299 | every merged record's amount is the sum of the input amounts with its subtype id, and its type is that of the first input record with that subtype id |
| Inventory.MergeConservesTotal | Program.cs:297 | the total amount over the merged list equals the total over the input |
| Ranking.SortByAmountDescending | Program.cs:259 | the stable descending sort; its properties are stated by SortIsStableDescending |
| Ranking.SortIsStableDescending | Program.cs:259 | the sorted list is in non-increasing amount order, is a permutation of the input, and keeps the input order of records with equal amounts |
| Ranking.DisplayedCount | Program.cs:262 | the displayed count is the smaller of the record count and `positions` |
| Ranking.TopN | Program.cs:262-264 | the records the loop lists; its properties are stated by TopNSelectsLargest and TopNDrawsFrom |
| Ranking.TopNSelectsLargest | Program.cs:259-264 | the shown records number min(count, positions), or none when `positions` is not positive; they are the leading part of the sorted list, sorted and drawn from the input, and every shown amount is at least every amount not shown |
| Ranking.TopNDrawsFrom | Program.cs:264-266 | every shown record is one of the merged records |
| Report.NatToString | Program.cs:263 | the decimal form of a count is non-empty and made of digits only |
| Report.NatToStringValue | Program.cs:263 | read from the most significant digit, the decimal form of `n` spells `n`, and it has no leading zero |
| Report.IntToString | Program.cs:263 | an interpolated integer holds no line break |
| Report.IntToStringSpells | Program.cs:263 | a non-negative integer is written as its digits, a negative one as `-` and the digits of its magnitude, and those digits spell the value |
| Report.Header | Program.cs:263 | the header line; its properties are stated by HeaderShowsCount, HeaderWording and HeaderOnOneLine |
| Report.HeaderShowsCount | Program.cs:263 | the header starts with "Top " followed by the written displayed count |
| Report.BuildInfoStringTopMass | Program.cs:227-271 | the returned text is the header for min(count, positions) records followed by one line per shown record of the converted, merged and sorted stacks |
| Report.ListTopItems | Program.cs:259-267 | for merged records, sorting, counting and listing give exactly the header and the lines of the shown records |
| Report.AppendItemLines | Program.cs:264-267 | the loop appends one `"\n" + subtype id + " – " + formatted amount` line for each of the first `displayed` sorted records, and nothing when `displayed` is not positive |
| Report.ItemLine | Program.cs:266 | one listed line; stated by ItemLinesSnoc and ItemLinesCount |
| Report.ItemLines | Program.cs:264-267 | the lines of all shown records in order; stated by ItemLinesSnoc and ItemLinesCount |
| Report.TopItemsText | Program.cs:262-267 | the whole top-items text, header and then the lines of TopN; its line count is stated by TopItemsLineCount |
| Report.ItemLinesSnoc | Program.cs:264-267 | the loop step of AppendItemLines: the lines of the first i + 1 records are the lines of the first i followed by record i's line, as the `+=` in each iteration appends it |
| Report.HeaderWording | Program.cs:263 | the header reads "Top 1 item in cargo:" for one record; it ends in " item in cargo:" exactly when the count is 1 and in " items in cargo:" exactly when it is not |
| Report.HeaderOnOneLine | Program.cs:263 | the header holds no line break |
| Report.ItemLinesCount | Program.cs:264-267 | when no subtype id or formatted amount holds a line break, the listed lines hold one line break per shown record |
| Report.TopItemsLineCount | Program.cs:263-267 | under the same condition, the whole text holds exactly one line break per shown record |
| ProgressBar.Repeat | Program.cs:79-88 | `n` copies of one character; none when `n` is not positive, as a loop counting down from `n` appends none |
| ProgressBar.FilledBars | Program.cs:74 | the filled count, `barLength * fillPercentage / 100` truncated toward zero in exact arithmetic; stated by FilledBarsInRange and FilledBarsAbove |
| ProgressBar.Bar | Program.cs:69-91 | the bar for a percentage; stated by BarLayout, BarAtZero, BarAtHundred and BarOverflow |
| ProgressBar.CreateProgressBar | Program.cs:64-94 | the built string is `{`, the filled bars, the empty segments and `}`, for any integer percentage, with counts computed by exact truncating arithmetic on unbounded integers (32-bit wrap admitted below) and negative counts drawing nothing |
| ProgressBar.SegmentsLayout | Program.cs:79-91 | character by character: `{`, then `filled` bars, then `empty` empty segments, then `}` |
| ProgressBar.FilledBarsInRange | Program.cs:74-76 | from 0 to 100 percent the filled count lies between 0 and the bar length and is the exact share rounded down |
| ProgressBar.BarLayout | Program.cs:69-91 | from 0 to 100 percent the bar is `barLength + 2` characters long, starts with `{`, ends with `}`, and holds exactly the filled count of `|` before all the `'` |
| ProgressBar.BarAtZero | Program.cs:74-88 | at 0 percent the bar holds only empty segments |
| ProgressBar.BarAtHundred | Program.cs:74-88 | at 100 percent the bar holds only filled bars |
| ProgressBar.FilledBarsAbove | Program.cs:74-76 | above 100 percent the filled count is at least the bar length, and exceeds it exactly when the product reaches the next hundred |
| ProgressBar.BarOverflow | Program.cs:76-91 | above 100 percent no `'` is drawn, the bar is `{`, the filled bars and `}`, and it is longer than `barLength + 2` exactly when more than `barLength` bars are filled |
| LoadState.CargoState | Program.cs:55-58 | the state is low for at most 30 percent, medium above 30 up to 80, high above 80; exactly 30 is low and exactly 80 is medium |

## Left out

- Block discovery, inventory reading and screen output are engine calls and are not part of this model. This covers `ValidateConfig`, `DoDiagnostics`, `DetectShipTools`, `GetItemsInBlocks`, `DisplayInCockpit` (which maps the states to green, yellow and red) and the `Program()` constructor with its update frequency. The list of stacks the engine returns is a parameter of `BuildInfoStringTopMass`.
- `CalculateCapacity` and `BuildInfoStringCapacity` are left out. They are floating-point summation and division, including an unguarded division by a zero maximum capacity. The resulting percentage is a parameter: an `int` for the bar and a `real` for the bands. Not-a-number and infinite percentages are not modelled.
- ProgressBar.FilledBars: the script computes `(int)(barLength * ((float)fillPercentage / 100))` in single precision; the model uses exact integer arithmetic. Where single-precision rounding lands just short of a whole number, the script's truncated value is one closer to zero than the model's: one less for a positive percentage, one more for a negative one. For a 50-character bar the two agree from 0 to 100 percent; outside that range they differ at scattered percentages, the first being ±106 and ±118. Other bar lengths can differ inside 0 to 100 percent as well, for example a 100-character bar at 53 and 59 percent.
- ProgressBar.CreateProgressBar: the filled and empty counts are unbounded integers here, but 32-bit `int` in the script. A 50-character bar never overflows for any `int` percentage. From 100 characters up, extreme percentages overflow: either the `(int)` cast of an out-of-range float, whose result C# leaves unspecified, or `barLength - filledBars`. For example, with 100 characters at `int.MinValue` percent, the script's empty count wraps negative and it draws `{}`.
- ProgressBar.BarOverflow: the bar is not always longer than `barLength + 2` above 100 percent. At 101 percent with a 50-character bar exactly 50 bars are filled. The lemma states the exact condition under which the bar is longer.
- The thousands formatter `"{0:#,##0}"` is culture-dependent. It is the uninterpreted parameter `format`, and `SimplifiedInventoryItem.ToString`, which only uses it, is left out.
- `Echo` and `DebugEcho` logging and the `try`/`catch` abort in `Main` are output and exception flow.
- The concatenation of the capacity text and the top-items text in `Main` is left out. It is one string append of the left-out capacity text and the modelled top-items text.
- Inventory.WholeUnits: the engine's fixed-point type is not part of this model. It is taken to hold millionths, and its cast to `long` is taken to drop the fraction toward zero.
- Inventory.MergeSumsGroups: amounts are unbounded integers. The `long` overflow that LINQ `Sum` would report as an exception is not modelled.
- Ranking.SortIsStableDescending: `OrderByDescending` is modelled by what it produces (a stable descending order), not by the library's algorithm.
