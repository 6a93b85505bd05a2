/** The value converters of the game uploader: the average of an owners range
    written "lo-hi", and the 0-10 rating computed from vote counts. */
module GameUploader {
  import opened Wrappers
  import opened Text
  import opened Numerals

  /** `extract_average_owners`: the floored mean of the two sides of "lo-hi",
      each read by `int()` as it stands (thousands separators are not
      removed), and 0 whenever that raises `ValueError`. */
  function ExtractAverageOwners(ownersRange: string): (r: int)
    ensures Count(ownersRange, '-') != 1 ==> r == 0
  {
    var parts := Split(ownersRange, '-');
    if |parts| != 2 then 0
    else match (ParseInt(parts[0]), ParseInt(parts[1]))
      case (Some(lo), Some(hi)) => FloorMean(lo, hi)
      case _ => 0
  }

  /** A range written with thousands separators, such as "20,000-50,000",
      gives 0. */
  lemma ExtractAverageOwnersRejectsComma(ownersRange: string, k: nat)
    requires k < |ownersRange| && ownersRange[k] == ','
    ensures ExtractAverageOwners(ownersRange) == 0
  {
    var parts := Split(ownersRange, '-');
    if |parts| == 2 {
      var p, q := parts[0], parts[1];
      assert ownersRange == p + "-" + q;
      if k < |p| {
        assert p[k] == ',';
        ParseIntRejects(p, k);
      } else {
        assert k != |p|;
        assert q[k - |p| - 1] == ',';
        ParseIntRejects(q, k - |p| - 1);
      }
    }
  }

  /** An information separator (U+001C to U+001F) on either side, such as in
      "\x1c5-10", gives 0: `int()` does not skip it as a blank, and no
      `strip()` runs first. */
  lemma ExtractAverageOwnersRejectsInformationSeparator(p: string, q: string, k: nat)
    requires '-' !in p && '-' !in q
    requires k < |p| + |q| && IsInformationSeparator(if k < |p| then p[k] else q[k - |p|])
    ensures ExtractAverageOwners(p + "-" + q) == 0
  {
    SplitFirst(p, '-', q);
    assert Split(q, '-') == [q] by {
      var rest := Split(q, '-');
      assert |rest| == 1 && Join(rest, "-") == q;
    }
    if k < |p| {
      ParseIntRejectsInformationSeparator(p, k);
    } else {
      ParseIntRejectsInformationSeparator(q, k - |p|);
    }
  }

  /** "a-b" for natural numbers a and b of at most `MaxStrDigits` digits
      gives the floored mean of a and b, which lies between them when
      a <= b. */
  lemma ExtractAverageOwnersOfRange(a: nat, b: nat)
    requires |Show(a)| <= MaxStrDigits && |Show(b)| <= MaxStrDigits
    ensures ExtractAverageOwners(Show(a) + "-" + Show(b)) == FloorMean(a, b)
  {
    var x, y := Show(a), Show(b);
    assert '-' !in x && '-' !in y;
    SplitFirst(x, '-', y);
    var rest := Split(y, '-');
    assert |rest| == 1 && Join(rest, "-") == y;
    ParseShow(a);
    ParseShow(b);
  }

  /** "p-q" with digit runs p and q, one of more than `MaxStrDigits` digits,
      gives 0: `int()` raises on the long side. */
  lemma ExtractAverageOwnersTooManyDigits(p: string, q: string)
    requires |p| > 0 && |q| > 0 && AllDigits(p) && AllDigits(q)
    requires |p| > MaxStrDigits || |q| > MaxStrDigits
    ensures ExtractAverageOwners(p + "-" + q) == 0
  {
    assert '-' !in p && '-' !in q by {
      assert forall k :: 0 <= k < |p| ==> p[k] != '-';
      assert forall k :: 0 <= k < |q| ==> q[k] != '-';
    }
    SplitFirst(p, '-', q);
    var rest := Split(q, '-');
    assert |rest| == 1 && Join(rest, "-") == q;
    assert IsStripped(p) && IsStripped(q);
    if |p| > MaxStrDigits {
      ParseIntTooManyDigits(p);
    } else {
      ParseIntTooManyDigits(q);
    }
  }

  /** The rating the uploader stores: the share of positive votes when there
      are votes, 0 otherwise, times 10. */
  function IngestedRating(positive: int, negative: int): (r: real)
    ensures positive + negative <= 0 ==> r == 0.0
    ensures positive + negative > 0 ==> r * (positive + negative) as real == 10.0 * positive as real
    ensures positive >= 0 && negative >= 0 ==> 0.0 <= r <= 10.0
    ensures positive > 0 && negative == 0 ==> r == 10.0
  {
    var total := positive + negative;
    var rating := if total > 0 then positive as real / total as real else 0.0;
    if total > 0 then
      ShareOfTotal(positive as real, total as real);
      rating * 10.0
    else rating * 10.0
  }
}
