/** The few Python `str` operations the ingestion and scoring code relies on:
    `isspace`, `strip`, `lower`, `split` (on one character and on a longer
    separator), `', '.join(...)` and `replace(c, '')`. */
module Text {

  /** Python's `str.isspace()` for one character: the ASCII controls 9-13 and
      28-31, the space, and the Unicode spaces Python also strips. */
  predicate IsSpace(c: char) {
    var n := c as int;
    n == 32 || 9 <= n <= 13 || 28 <= n <= 31 || n == 0x85 || n == 0xA0 || n == 0x1680
    || 0x2000 <= n <= 0x200A || n == 0x2028 || n == 0x2029 || n == 0x202F || n == 0x205F
    || n == 0x3000
  }

  /** No whitespace at either end: what `strip()` leaves behind. */
  predicate IsStripped(s: string) {
    |s| == 0 || (!IsSpace(s[0]) && !IsSpace(s[|s| - 1]))
  }

  predicate AllSpace(s: string) {
    forall i :: 0 <= i < |s| ==> IsSpace(s[i])
  }

  /** Index of the first non-blank character at or after `i`, or `|s|`. */
  function SkipSpaces(s: string, i: nat): (r: nat)
    requires i <= |s|
    ensures i <= r <= |s|
    ensures forall k :: i <= k < r ==> IsSpace(s[k])
    ensures r < |s| ==> !IsSpace(s[r])
    decreases |s| - i
  {
    if i < |s| && IsSpace(s[i]) then SkipSpaces(s, i + 1) else i
  }

  /** End of `s[lo..j]` once its trailing blanks are dropped. */
  function SkipSpacesBack(s: string, lo: nat, j: nat): (r: nat)
    requires lo <= j <= |s|
    ensures lo <= r <= j
    ensures forall k :: r <= k < j ==> IsSpace(s[k])
    ensures r > lo ==> !IsSpace(s[r - 1])
    decreases j
  {
    if j > lo && IsSpace(s[j - 1]) then SkipSpacesBack(s, lo, j - 1) else j
  }

  /** `s.strip()`: the infix of `s` left once its leading and trailing
      whitespace is cut away. */
  function Strip(s: string): (r: string)
    ensures IsStripped(r)
    ensures IsStripped(s) ==> r == s
    ensures r == [] <==> AllSpace(s)
    ensures forall c :: c in r ==> c in s
  {
    var i := SkipSpaces(s, 0);
    var j := SkipSpacesBack(s, i, |s|);
    assert IsStripped(s) && |s| > 0 ==> i == 0 && j == |s|;
    s[i..j]
  }

  /** `strip()` gives back exactly the infix `s[i..j]` when everything
      before `i` and from `j` on is blank and `s[i..j]` has no blank end. */
  lemma StripIs(s: string, i: nat, j: nat)
    requires i <= j <= |s|
    requires forall k :: 0 <= k < i ==> IsSpace(s[k])
    requires forall k :: j <= k < |s| ==> IsSpace(s[k])
    requires i < j ==> !IsSpace(s[i]) && !IsSpace(s[j - 1])
    ensures Strip(s) == (if i < j then s[i..j] else [])
  {
    var a := SkipSpaces(s, 0);
    if i < j {
      assert a == i;
      assert SkipSpacesBack(s, a, |s|) == j;
    } else {
      assert AllSpace(s) by {
        forall k | 0 <= k < |s| ensures IsSpace(s[k]) {
          if k < i {} else {}
        }
      }
    }
  }

  /** Every non-blank character of `s` survives `strip()`. */
  lemma StripKeeps(s: string, k: nat)
    requires k < |s| && !IsSpace(s[k])
    ensures s[k] in Strip(s)
  {
    var i := SkipSpaces(s, 0);
    var j := SkipSpacesBack(s, i, |s|);
    assert i <= k < j;
    assert Strip(s)[k - i] == s[k];
  }

  lemma {:induction false} SkipSpacesShift(c: char, t: string, k: nat)
    requires k <= |t|
    ensures SkipSpaces([c] + t, k + 1) == 1 + SkipSpaces(t, k)
    decreases |t| - k
  {
    if k < |t| && IsSpace(t[k]) {
      assert ([c] + t)[k + 1] == t[k];
      SkipSpacesShift(c, t, k + 1);
    } else if k < |t| {
      assert ([c] + t)[k + 1] == t[k];
    }
  }

  lemma {:induction false} SkipSpacesBackShift(c: char, t: string, lo: nat, j: nat)
    requires lo <= j <= |t|
    ensures SkipSpacesBack([c] + t, lo + 1, j + 1) == 1 + SkipSpacesBack(t, lo, j)
    decreases j
  {
    if j > lo {
      assert ([c] + t)[j] == t[j - 1];
      if IsSpace(t[j - 1]) {
        SkipSpacesBackShift(c, t, lo, j - 1);
      }
    }
  }

  lemma ShiftedSlice(c: char, t: string, i: nat, j: nat)
    requires i <= j <= |t|
    ensures ([c] + t)[i + 1..j + 1] == t[i..j]
  {
  }

  lemma StripBetween(s: string, i: nat, j: nat)
    requires i == SkipSpaces(s, 0) && j == SkipSpacesBack(s, i, |s|)
    ensures Strip(s) == s[i..j]
  {
  }

  /** A leading blank moves the first non-blank position on by one. */
  lemma SkipLeadingSpace(c: char, t: string)
    requires IsSpace(c)
    ensures SkipSpaces([c] + t, 0) == SkipSpaces(t, 0) + 1
  {
    assert ([c] + t)[0] == c;
    SkipSpacesShift(c, t, 0);
  }

  /** Leading whitespace makes no difference to `strip()`. */
  lemma StripAfterSpace(c: char, t: string)
    requires IsSpace(c)
    ensures Strip([c] + t) == Strip(t)
  {
    var i := SkipSpaces(t, 0);
    var j := SkipSpacesBack(t, i, |t|);
    assert Strip([c] + t) == ([c] + t)[i + 1..j + 1] by {
      SkipLeadingSpace(c, t);
      SkipSpacesBackShift(c, t, i, |t|);
      StripBetween([c] + t, i + 1, j + 1);
    }
    assert Strip(t) == t[i..j] by {
      StripBetween(t, i, j);
    }
    ShiftedSlice(c, t, i, j);
  }

  function LowerChar(c: char): char {
    if 'A' <= c <= 'Z' then (c as int + 32) as char else c
  }

  /** `s.lower()` on ASCII letters. */
  function Lower(s: string): (r: string)
    ensures |r| == |s|
    ensures forall i :: 0 <= i < |s| ==> r[i] == LowerChar(s[i]) && !('A' <= r[i] <= 'Z')
  {
    seq(|s|, i requires 0 <= i < |s| => LowerChar(s[i]))
  }

  /** Lower-casing neither adds nor removes a comma. */
  lemma LowerComma(s: string)
    ensures ',' in Lower(s) <==> ',' in s
  {
    var r := Lower(s);
    if ',' in r {
      var i :| 0 <= i < |r| && r[i] == ',';
      assert s[i] in s;
    }
    if ',' in s {
      var i :| 0 <= i < |s| && s[i] == ',';
      assert r[i] in r;
    }
  }

  /** Occurrences of `c` in `s`. */
  function Count(s: string, c: char): (n: nat)
    ensures n == 0 <==> c !in s
    ensures n <= |s|
  {
    if |s| == 0 then 0 else (if s[0] == c then 1 else 0) + Count(s[1..], c)
  }

  lemma {:induction false} CountAppend(a: string, b: string, c: char)
    ensures Count(a + b, c) == Count(a, c) + Count(b, c)
  {
    if |a| > 0 {
      assert (a + b)[1..] == a[1..] + b;
      CountAppend(a[1..], b, c);
    } else {
      assert a + b == b;
    }
  }

  /** Position of the first `c` in `s` at or after `i`, or `|s|` when there is none. */
  function IndexFrom(s: string, c: char, i: nat): (r: nat)
    requires i <= |s|
    ensures i <= r <= |s|
    ensures forall k :: i <= k < r ==> s[k] != c
    ensures r < |s| ==> s[r] == c
    decreases |s| - i
  {
    if i == |s| || s[i] == c then i else IndexFrom(s, c, i + 1)
  }

  /** `sep.join(parts)`. */
  function Join(parts: seq<string>, sep: string): string
  {
    if |parts| == 0 then ""
    else if |parts| == 1 then parts[0]
    else parts[0] + sep + Join(parts[1..], sep)
  }

  /** A character of `sep.join(parts)` comes from one of the parts or, when
      there are two parts or more, from the separator. */
  lemma {:induction false} JoinChars(parts: seq<string>, sep: string, c: char)
    ensures c in Join(parts, sep) <==>
      (exists k :: 0 <= k < |parts| && c in parts[k]) || (|parts| > 1 && c in sep)
    decreases |parts|
  {
    if |parts| > 1 {
      var rest := parts[1..];
      JoinChars(rest, sep, c);
      assert forall k :: 1 <= k < |parts| ==> parts[k] == rest[k - 1];
      if c in rest[0] {
        assert c in parts[1];
      }
    }
  }

  /** `s.split(d)` for a one-character separator: one more piece than there
      are separators, no piece holds a separator, and joining the pieces
      back with `d` gives `s`. */
  function Split(s: string, d: char): (r: seq<string>)
    ensures |r| == Count(s, d) + 1
    ensures forall k :: 0 <= k < |r| ==> d !in r[k]
    ensures Join(r, [d]) == s
    decreases |s|
  {
    var i := IndexFrom(s, d, 0);
    assert forall k :: 0 <= k < i ==> s[..i][k] == s[k];
    if i == |s| then
      assert s[..i] == s;
      [s]
    else
      var rest := Split(s[i + 1..], d);
      assert s == s[..i] + [d] + s[i + 1..];
      CountAppend(s[..i] + [d], s[i + 1..], d);
      CountAppend(s[..i], [d], d);
      [s[..i]] + rest
  }

  /** Splitting right after a separator-free first piece. */
  lemma SplitFirst(x: string, d: char, rest: string)
    requires d !in x
    ensures Split(x + [d] + rest, d) == [x] + Split(rest, d)
  {
    var s := x + [d] + rest;
    assert s[|x|] == d;
    assert forall k :: 0 <= k < |x| ==> s[k] == x[k];
    assert IndexFrom(s, d, 0) == |x|;
    assert s[..|x|] == x && s[|x| + 1..] == rest;
  }

  /** `split` undoes `join` when no piece holds the separator. */
  lemma {:induction false} SplitJoin(parts: seq<string>, d: char)
    requires |parts| > 0
    requires forall k :: 0 <= k < |parts| ==> d !in parts[k]
    ensures Split(Join(parts, [d]), d) == parts
    decreases |parts|
  {
    if |parts| == 1 {
      var i := IndexFrom(parts[0], d, 0);
      assert i == |parts[0]|;
    } else {
      SplitJoin(parts[1..], d);
      SplitFirst(parts[0], d, Join(parts[1..], [d]));
      assert parts[0] + [d] + Join(parts[1..], [d]) == Join(parts, [d]);
      assert [parts[0]] + parts[1..] == parts;
    }
  }

  /** `sep` starts at position `k` of `s`. */
  predicate OccursAt(s: string, sep: string, k: nat) {
    k + |sep| <= |s| && s[k..k + |sep|] == sep
  }

  /** Position of the first occurrence of `sep` in `s` at or after `i`, or
      `|s|` when there is none. */
  function FindFrom(s: string, sep: string, i: nat): (r: nat)
    requires |sep| > 0 && i <= |s|
    ensures i <= r <= |s|
    ensures r < |s| ==> OccursAt(s, sep, r)
    ensures forall k :: i <= k < r ==> !OccursAt(s, sep, k)
    decreases |s| - i
  {
    if i + |sep| > |s| then
      assert forall k :: i <= k ==> !OccursAt(s, sep, k);
      |s|
    else if OccursAt(s, sep, i) then i
    else FindFrom(s, sep, i + 1)
  }

  /** `s.split(sep)` for a separator of several characters, cutting at each
      leftmost non-overlapping occurrence. */
  function SplitOn(s: string, sep: string): (r: seq<string>)
    requires |sep| > 0
    ensures |r| > 0
    ensures Join(r, sep) == s
    ensures |r| == 1 <==> forall k :: 0 <= k < |s| ==> !OccursAt(s, sep, k)
    decreases |s|
  {
    var i := FindFrom(s, sep, 0);
    if i == |s| then [s]
    else
      var rest := SplitOn(s[i + |sep|..], sep);
      var r := [s[..i]] + rest;
      assert r[0] == s[..i] && r[1..] == rest;
      assert s[..i] + sep + s[i + |sep|..] == s by {
        assert s[i..i + |sep|] == sep;
        assert s == s[..i] + s[i..i + |sep|] + s[i + |sep|..];
      }
      r
  }

  /** A separator whose first character is missing from `s` occurs nowhere in `s`. */
  lemma NotOccurring(s: string, sep: string)
    requires |sep| > 0 && sep[0] !in s
    ensures forall k :: 0 <= k < |s| ==> !OccursAt(s, sep, k)
  {
    forall k | 0 <= k < |s| ensures !OccursAt(s, sep, k) {
      if k + |sep| <= |s| {
        assert s[k..k + |sep|][0] == s[k];
      }
    }
  }

  /** When the separator's first character does not occur in `p`, splitting
      `p + sep + rest` yields `p` followed by the pieces of `rest`. */
  lemma SplitOnCons(p: string, sep: string, rest: string)
    requires |sep| > 0 && sep[0] !in p
    ensures SplitOn(p + sep + rest, sep) == [p] + SplitOn(rest, sep)
  {
    var s := p + sep + rest;
    assert s[|p|..|p| + |sep|] == sep;
    assert OccursAt(s, sep, |p|);
    forall k | 0 <= k < |p| ensures !OccursAt(s, sep, k) {
      assert s[k] == p[k];
      if k + |sep| <= |s| {
        assert s[k..k + |sep|][0] == s[k];
      }
    }
    assert FindFrom(s, sep, 0) == |p|;
    assert s[..|p|] == p && s[|p| + |sep|..] == rest;
  }

  /** Splitting `p + sep + q`, when the separator's first character occurs in
      neither `p` nor `q`, gives exactly the two pieces. */
  lemma SplitOnTwo(p: string, sep: string, q: string)
    requires |sep| > 0 && sep[0] !in p && sep[0] !in q
    ensures SplitOn(p + sep + q, sep) == [p, q]
  {
    SplitOnCons(p, sep, q);
    NotOccurring(q, sep);
    assert FindFrom(q, sep, 0) == |q|;
  }

  /** `s.replace(c, '')`. */
  function RemoveChar(s: string, c: char): (r: string)
    ensures c !in r
    ensures forall x :: x in r <==> x in s && x != c
    ensures c !in s ==> r == s
  {
    if |s| == 0 then ""
    else if s[0] == c then RemoveChar(s[1..], c)
    else
      assert s == [s[0]] + s[1..];
      [s[0]] + RemoveChar(s[1..], c)
  }
}
