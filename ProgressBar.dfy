/**
 * The capacity bar of the cargo report: `{`, then one `|` per filled
 * segment, then one `'` per empty segment, then `}`.
 */
module ProgressBar {
  import opened IntCasts

  /** `n` copies of `c`; none when `n` is not positive. */
  function Repeat(c: char, n: int): (s: string)
    ensures |s| == if n > 0 then n else 0
    ensures forall i :: 0 <= i < |s| ==> s[i] == c
    decreases n
  {
    if n <= 0 then [] else Repeat(c, n - 1) + [c]
  }

  /** The number of filled segments: `barLength * fillPercentage / 100`, truncated toward zero. */
  function FilledBars(fillPercentage: int, barLength: int): int {
    TruncatingDiv(barLength * fillPercentage, 100)
  }

  /** `{`, `filled` bars, `empty` empty segments, `}`; a negative count draws nothing. */
  function Segments(filled: int, empty: int): string {
    "{" + Repeat('|', filled) + Repeat('\'', empty) + "}"
  }

  /** The bar the script draws for a percentage. */
  function Bar(fillPercentage: int, barLength: int): string {
    var filledBars := FilledBars(fillPercentage, barLength);
    Segments(filledBars, barLength - filledBars)
  }

  /** Builds the bar by appending the filled and then the empty segments, each counted down. */
  method CreateProgressBar(fillPercentage: int, barLength: int) returns (createdBar: string)
    ensures createdBar == Bar(fillPercentage, barLength)
  {
    var barFull, barEmpty, barStart, barEnd := "|", "'", "{", "}";
    createdBar := barStart;

    var filledBars := TruncatingDiv(barLength * fillPercentage, 100);
    var emptyBars := barLength - filledBars;

    var i := filledBars;
    while i > 0
      invariant (filledBars > 0 && 0 <= i <= filledBars) || (filledBars <= 0 && i == filledBars)
      invariant createdBar == barStart + Repeat('|', filledBars - i)
    {
      createdBar := createdBar + barFull;
      i := i - 1;
    }
    ghost var filledPart := createdBar;

    i := emptyBars;
    while i > 0
      invariant (emptyBars > 0 && 0 <= i <= emptyBars) || (emptyBars <= 0 && i == emptyBars)
      invariant createdBar == filledPart + Repeat('\'', emptyBars - i)
    {
      createdBar := createdBar + barEmpty;
      i := i - 1;
    }

    createdBar := createdBar + barEnd;
  }

  /** Character by character, a bar with non-negative segment counts. */
  lemma {:induction false} SegmentsLayout(filled: int, empty: int)
    requires filled >= 0 && empty >= 0
    ensures var bar := Segments(filled, empty);
      && |bar| == filled + empty + 2
      && (forall i :: 0 <= i < |bar| ==>
            bar[i] == if i == 0 then '{' else if i <= filled then '|' else if i <= filled + empty then '\'' else '}')
  {
    var bars, empties := Repeat('|', filled), Repeat('\'', empty);
    var bar := Segments(filled, empty);
    assert bar == "{" + bars + empties + "}";
    forall i | 0 <= i < |bar|
      ensures bar[i] == if i == 0 then '{' else if i <= filled then '|' else if i <= filled + empty then '\'' else '}'
    {
      if 0 < i <= filled {
        assert bar[i] == bars[i - 1];
      } else if filled < i <= filled + empty {
        assert bar[i] == empties[i - 1 - filled];
      }
    }
  }

  /** For 0 to 100 percent, the filled count is the rounded-down exact share and stays within the bar. */
  lemma {:induction false} FilledBarsInRange(fillPercentage: int, barLength: int)
    requires 0 <= fillPercentage <= 100 && barLength >= 0
    ensures var filled := FilledBars(fillPercentage, barLength);
      && 0 <= filled <= barLength
      && filled * 100 <= barLength * fillPercentage < filled * 100 + 100
  {
    ScaleMonotone(barLength, 0, fillPercentage);
    ScaleMonotone(barLength, fillPercentage, 100);
    HundredthsWithin(barLength * fillPercentage, barLength);
  }

  /** Scaling by a non-negative factor keeps an ordering. */
  lemma {:induction false} ScaleMonotone(factor: int, lo: int, hi: int)
    requires factor >= 0 && lo <= hi
    ensures factor * lo <= factor * hi
  {
    assert factor * hi - factor * lo == factor * (hi - lo);
  }

  /** Truncated hundredths of a non-negative product no greater than `100 * bound`. */
  lemma {:induction false} HundredthsWithin(product: int, bound: int)
    requires 0 <= product <= 100 * bound
    ensures var q := TruncatingDiv(product, 100);
      0 <= q <= bound && q * 100 <= product < q * 100 + 100
  {
  }

  /**
   * For a percentage from 0 to 100 the bar is `barLength + 2` characters:
   * `{`, then `filled` bars, then `barLength - filled` empty segments, then `}`,
   * where `filled` is the exact quotient `barLength * fillPercentage / 100`
   * rounded down; so every `|` comes before every `'`.
   */
  lemma {:induction false} BarLayout(fillPercentage: int, barLength: int)
    requires 0 <= fillPercentage <= 100 && barLength >= 0
    ensures var filled, bar := FilledBars(fillPercentage, barLength), Bar(fillPercentage, barLength);
      && 0 <= filled <= barLength
      && filled * 100 <= barLength * fillPercentage < filled * 100 + 100
      && |bar| == barLength + 2
      && (forall i :: 0 <= i < |bar| ==>
            bar[i] == if i == 0 then '{' else if i <= filled then '|' else if i <= barLength then '\'' else '}')
  {
    var filled := FilledBars(fillPercentage, barLength);
    FilledBarsInRange(fillPercentage, barLength);
    SegmentsLayout(filled, barLength - filled);
  }

  lemma {:induction false} BarOfFilled(fillPercentage: int, barLength: int, filled: int)
    requires FilledBars(fillPercentage, barLength) == filled
    ensures Bar(fillPercentage, barLength) == Segments(filled, barLength - filled)
  {
  }

  /** At 0% the bar is all empty segments. */
  lemma {:induction false} BarAtZero(barLength: int)
    requires barLength >= 0
    ensures Bar(0, barLength) == "{" + Repeat('\'', barLength) + "}"
  {
    BarOfFilled(0, barLength, 0);
    assert Repeat('|', 0) == [];
  }

  /** At 100% the bar is all filled segments. */
  lemma {:induction false} BarAtHundred(barLength: int)
    requires barLength >= 0
    ensures Bar(100, barLength) == "{" + Repeat('|', barLength) + "}"
  {
    assert FilledBars(100, barLength) == barLength by {
      assert barLength * 100 - FilledBars(100, barLength) * 100 < 100;
    }
    BarOfFilled(100, barLength, barLength);
    assert Repeat('\'', 0) == [];
  }

  /** Above 100% the filled count reaches the bar length, and exceeds it exactly when the product reaches the next hundred. */
  lemma {:induction false} FilledBarsAbove(fillPercentage: int, barLength: int)
    requires fillPercentage > 100 && barLength >= 0
    ensures var filled := FilledBars(fillPercentage, barLength);
      && filled >= barLength
      && (filled > barLength <==> barLength * fillPercentage >= 100 * (barLength + 1))
  {
    ScaleMonotone(barLength, 100, fillPercentage);
    HundredthsAbove(barLength * fillPercentage, barLength);
  }

  /** Truncated hundredths of a product of at least `100 * bound`. */
  lemma {:induction false} HundredthsAbove(product: int, bound: int)
    requires 0 <= 100 * bound <= product
    ensures var q := TruncatingDiv(product, 100);
      q >= bound && (q > bound <==> product >= 100 * (bound + 1))
  {
  }

  /**
   * Above 100% the empty count is negative, so no `'` is drawn and the bar
   * is `{`, `filled` bars and `}`; it is longer than `barLength + 2` exactly
   * when the percentage yields more than `barLength` filled segments.
   */
  lemma {:induction false} BarOverflow(fillPercentage: int, barLength: int)
    requires fillPercentage > 100 && barLength >= 0
    ensures var filled, bar := FilledBars(fillPercentage, barLength), Bar(fillPercentage, barLength);
      && filled >= barLength
      && bar == "{" + Repeat('|', filled) + "}"
      && '\'' !in bar
      && |bar| == filled + 2
      && (|bar| > barLength + 2 <==> barLength * fillPercentage >= 100 * (barLength + 1))
  {
    var filled := FilledBars(fillPercentage, barLength);
    FilledBarsAbove(fillPercentage, barLength);
    BarOfFilled(fillPercentage, barLength, filled);
    assert Segments(filled, barLength - filled) == "{" + Repeat('|', filled) + "}" by {
      assert Repeat('\'', barLength - filled) == [];
    }
    SegmentsLayout(filled, 0);
  }
}
