/** The two value converters of the seeding script: the 1-10 game rating
    computed from vote counts, and the average of an owners range such as
    "100,000 .. 200,000". */
module Seed {
  import opened Wrappers
  import opened Text
  import opened Numerals

  /** Nearest integer to `x`, a tie going to the even one (Python's `round`). */
  function RoundHalfEven(x: real): (k: int)
    ensures x - 0.5 <= k as real <= x + 0.5
    ensures (k as real - x == 0.5 || x - k as real == 0.5) ==> k % 2 == 0
  {
    var f := x.Floor;
    var frac := x - f as real;
    if frac < 0.5 then f
    else if frac > 0.5 then f + 1
    else if f % 2 == 0 then f
    else f + 1
  }

  /** `round(x, 1)`: the nearest whole number of tenths. */
  function RoundTenths(x: real): (r: real)
    ensures (10.0 * r).Floor as real == 10.0 * r
    ensures -0.05 <= r - x <= 0.05
    ensures (10.0 * r - 10.0 * x == 0.5 || 10.0 * x - 10.0 * r == 0.5) ==> (10.0 * r).Floor % 2 == 0
  {
    var k := RoundHalfEven(10.0 * x);
    var r := k as real / 10.0;
    assert 10.0 * r == k as real;
    assert (k as real).Floor == k;
    r
  }

  /** Rounding to tenths stays within whole-tenth bounds of its argument. */
  lemma RoundTenthsWithin(x: real, lo: int, hi: int)
    requires lo as real <= 10.0 * x <= hi as real
    ensures lo as real <= 10.0 * RoundTenths(x) <= hi as real
  {
    var y := 10.0 * x;
    var f := y.Floor;
    assert lo <= f <= hi;
    var k := RoundHalfEven(y);
    assert f == hi ==> y == f as real;
    assert lo <= k <= hi;
    assert 10.0 * RoundTenths(x) == k as real;
  }

  /** What rounding the scaled share of positive votes yields in the cases
      the seeding script cares about. */
  lemma ScaledRatingBounds(positive: int, negative: int)
    requires positive + negative != 0
    ensures var r := RoundTenths(1.0 + 9.0 * (positive as real / (positive + negative) as real));
      && (positive >= 0 && negative >= 0 ==> 1.0 <= r <= 10.0)
      && (positive > 0 && negative == 0 ==> r == 10.0)
      && (positive == 0 ==> r == 1.0)
  {
    var total := (positive + negative) as real;
    var share := positive as real / total;
    var scaled := 1.0 + 9.0 * share;
    ShareOfTotal(positive as real, total);
    if positive >= 0 && negative >= 0 {
      assert 0.0 <= share <= 1.0;
      RoundTenthsWithin(scaled, 10, 100);
    }
    if negative == 0 {
      assert share == 1.0;
      RoundTenthsWithin(scaled, 100, 100);
    }
    if positive == 0 {
      assert share == 0.0;
      RoundTenthsWithin(scaled, 10, 10);
    }
  }

  /** `calculate_game_rating`: 5.0 without votes, otherwise the share of
      positive votes mapped linearly onto 1..10 and rounded to one decimal. */
  function CalculateGameRating(positive: int, negative: int): (r: real)
    ensures positive + negative == 0 ==> r == 5.0
    ensures positive + negative != 0 ==> (10.0 * r).Floor as real == 10.0 * r
    ensures positive + negative != 0 ==>
      -0.05 <= r - (1.0 + 9.0 * (positive as real / (positive + negative) as real)) <= 0.05
    ensures positive >= 0 && negative >= 0 && positive + negative > 0 ==> 1.0 <= r <= 10.0
    ensures positive > 0 && negative == 0 ==> r == 10.0
    ensures positive == 0 && negative != 0 ==> r == 1.0
  {
    var total := positive + negative;
    if total == 0 then 5.0
    else
      ScaledRatingBounds(positive, negative);
      RoundTenths(1.0 + 9.0 * (positive as real / total as real))
  }

  /** One side of an owners range: thousands separators removed, blanks
      stripped, then `int()`. */
  function OwnerCount(part: string): (r: Option<int>)
    ensures r.Some? ==> exists k :: 0 <= k < |part| && IsDigit(part[k])
  {
    var t := Strip(RemoveChar(part, ','));
    var r := ParseInt(t);
    if r.Some? then
      ParseIntHasDigit(t);
      var j :| 0 <= j < |t| && IsDigit(t[j]);
      assert t[j] in t;
      r
    else r
  }

  /** `parse_average_owners`: the floored mean of the two sides of
      "lo .. hi", and 0 whenever that parse raises. */
  function ParseAverageOwners(ownersRange: string): (r: int)
    ensures (forall k :: 0 <= k < |ownersRange| ==> !OccursAt(ownersRange, "..", k)) ==> r == 0
  {
    var parts := SplitOn(ownersRange, "..");
    if |parts| != 2 then 0
    else match (OwnerCount(parts[0]), OwnerCount(parts[1]))
      case (Some(lo), Some(hi)) => FloorMean(lo, hi)
      case _ => 0
  }

  /** A numeral written with thousands separators, such as "100,000". */
  predicate IsGroupedNumeral(x: string) {
    && (forall k :: 0 <= k < |x| ==> IsDigit(x[k]) || x[k] == ',')
    && exists k :: 0 <= k < |x| && IsDigit(x[k])
  }

  function GroupedValue(x: string): nat
    requires IsGroupedNumeral(x)
  {
    var d := RemoveChar(x, ',');
    assert forall k :: 0 <= k < |d| ==> d[k] in d;
    DigitsValue(d)
  }

  lemma {:induction false} RemoveCharAppend(a: string, b: string, c: char)
    ensures RemoveChar(a + b, c) == RemoveChar(a, c) + RemoveChar(b, c)
  {
    if |a| > 0 {
      assert (a + b)[1..] == a[1..] + b;
      RemoveCharAppend(a[1..], b, c);
    } else {
      assert a + b == b;
    }
  }

  /** The digits of a grouped numeral, once the separators are gone. */
  lemma GroupedDigits(x: string)
    requires IsGroupedNumeral(x)
    ensures var d := RemoveChar(x, ','); |d| > 0 && AllDigits(d) && IsStripped(d)
  {
    var d := RemoveChar(x, ',');
    var k :| 0 <= k < |x| && IsDigit(x[k]);
    assert x[k] in d;
    assert forall j :: 0 <= j < |d| ==> d[j] in d;
  }

  /** A blank after a grouped numeral is stripped once the separators are
      gone. */
  lemma GroupedBlankAfter(x: string)
    requires IsGroupedNumeral(x)
    ensures Strip(RemoveChar(x + " ", ',')) == RemoveChar(x, ',')
  {
    var d := RemoveChar(x, ',');
    GroupedDigits(x);
    RemoveCharAppend(x, " ", ',');
    assert RemoveChar(" ", ',') == " ";
    StripIs(d + " ", 0, |d|);
    assert (d + " ")[0..|d|] == d;
  }

  /** A blank before a grouped numeral is stripped once the separators are
      gone. */
  lemma GroupedBlankBefore(x: string)
    requires IsGroupedNumeral(x)
    ensures Strip(RemoveChar(" " + x, ',')) == RemoveChar(x, ',')
  {
    var d := RemoveChar(x, ',');
    GroupedDigits(x);
    RemoveCharAppend(" ", x, ',');
    assert RemoveChar(" ", ',') == " ";
    StripAfterSpace(' ', d);
  }

  /** A grouped numeral of at most `MaxStrDigits` digits followed by a blank
      reads as its value. */
  lemma OwnerCountBefore(lo: string)
    requires IsGroupedNumeral(lo) && |RemoveChar(lo, ',')| <= MaxStrDigits
    ensures OwnerCount(lo + " ") == Some(GroupedValue(lo))
  {
    var a := RemoveChar(lo, ',');
    GroupedDigits(lo);
    GroupedBlankAfter(lo);
    ParseIntDigits(a, a);
  }

  /** A grouped numeral of at most `MaxStrDigits` digits after a blank reads
      as its value. */
  lemma OwnerCountAfter(hi: string)
    requires IsGroupedNumeral(hi) && |RemoveChar(hi, ',')| <= MaxStrDigits
    ensures OwnerCount(" " + hi) == Some(GroupedValue(hi))
  {
    var b := RemoveChar(hi, ',');
    GroupedDigits(hi);
    GroupedBlankBefore(hi);
    ParseIntDigits(b, b);
  }

  /** A grouped numeral of more than `MaxStrDigits` digits is rejected by
      `int()`, alone or with a blank on either side. */
  lemma OwnerCountTooManyDigits(x: string)
    requires IsGroupedNumeral(x) && |RemoveChar(x, ',')| > MaxStrDigits
    ensures OwnerCount(x) == None
    ensures OwnerCount(x + " ") == None && OwnerCount(" " + x) == None
  {
    var d := RemoveChar(x, ',');
    GroupedDigits(x);
    GroupedBlankAfter(x);
    GroupedBlankBefore(x);
    ParseIntTooManyDigits(d);
  }

  /** "lo .. hi" with grouped numerals of at most `MaxStrDigits` digits on
      both sides parses to the floored mean of the two counts. */
  lemma ParseAverageOwnersOfRange(lo: string, hi: string)
    requires IsGroupedNumeral(lo) && IsGroupedNumeral(hi)
    requires |RemoveChar(lo, ',')| <= MaxStrDigits && |RemoveChar(hi, ',')| <= MaxStrDigits
    ensures ParseAverageOwners(lo + " .. " + hi) == FloorMean(GroupedValue(lo), GroupedValue(hi))
  {
    var left, right := lo + " ", " " + hi;
    assert lo + " .. " + hi == left + ".." + right;
    assert '.' !in left && '.' !in right;
    SplitOnTwo(left, "..", right);
    OwnerCountBefore(lo);
    OwnerCountAfter(hi);
  }

  /** "lo .. hi" with a side of more than `MaxStrDigits` digits gives 0. */
  lemma ParseAverageOwnersTooManyDigits(lo: string, hi: string)
    requires IsGroupedNumeral(lo) && IsGroupedNumeral(hi)
    requires |RemoveChar(lo, ',')| > MaxStrDigits || |RemoveChar(hi, ',')| > MaxStrDigits
    ensures ParseAverageOwners(lo + " .. " + hi) == 0
  {
    var left, right := lo + " ", " " + hi;
    assert lo + " .. " + hi == left + ".." + right;
    assert '.' !in left && '.' !in right;
    if |RemoveChar(lo, ',')| > MaxStrDigits {
      OwnerCountTooManyDigits(lo);
    } else {
      OwnerCountTooManyDigits(hi);
    }
    ParseAverageOwnersBadSide(left, right);
  }

  /** Two or more separators, as in "1 .. 2 .. 3", make the unpacking into
      two sides fail: popularity 0. */
  lemma ParseAverageOwnersTooManyParts(a: string, b: string, rest: string)
    requires '.' !in a && '.' !in b
    ensures ParseAverageOwners(a + ".." + b + ".." + rest) == 0
  {
    assert a + ".." + b + ".." + rest == a + ".." + (b + ".." + rest);
    SplitOnCons(a, "..", b + ".." + rest);
    SplitOnCons(b, "..", rest);
  }

  /** A side `int()` rejects, as in "N/A .. 5", gives popularity 0. */
  lemma ParseAverageOwnersBadSide(lo: string, hi: string)
    requires '.' !in lo && '.' !in hi
    requires OwnerCount(lo) == None || OwnerCount(hi) == None
    ensures ParseAverageOwners(lo + ".." + hi) == 0
  {
    SplitOnTwo(lo, "..", hi);
  }

  /** A side holding a character that can be neither digit, sign, underscore,
      blank nor thousands separator is rejected. */
  lemma OwnerCountRejects(part: string, k: nat)
    requires k < |part| && part[k] != ','
    requires !IsDigit(part[k]) && !IsSpace(part[k]) && part[k] !in "_+-"
    ensures OwnerCount(part) == None
  {
    var d := RemoveChar(part, ',');
    assert part[k] in d;
    var j :| 0 <= j < |d| && d[j] == part[k];
    StripKeeps(d, j);
    var t := Strip(d);
    var i :| 0 <= i < |t| && t[i] == part[k];
    ParseIntRejects(t, i);
  }
}
