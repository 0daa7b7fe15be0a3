/** The handful of Python `str` operations the service relies on, over ASCII:
    `strip`, `lower`, `split`/`join`, `startswith`, `in` (substring), `isdigit`
    and `int` of a digit string. Non-ASCII whitespace, digits and case
    mappings are outside this model. */
module Text {

  // ---------------------------------------------------------------------------
  // Whitespace and strip()
  // ---------------------------------------------------------------------------

  /** The ASCII characters for which Python's `str.isspace` holds:
      space, \t \n \v \f \r (9..13) and the separators 0x1C..0x1F. */
  predicate IsSpace(c: char) {
    c == ' ' || 9 <= c as int <= 13 || 28 <= c as int <= 31
  }

  /** `s.lstrip()` */
  function TrimStart(s: string): (r: string)
    ensures |r| <= |s| && r == s[|s| - |r|..]
    ensures r == [] || !IsSpace(r[0])
    ensures forall k :: 0 <= k < |s| - |r| ==> IsSpace(s[k])
  {
    if s != [] && IsSpace(s[0]) then TrimStart(s[1..]) else s
  }

  /** `s.rstrip()` */
  function TrimEnd(s: string): (r: string)
    ensures |r| <= |s| && r == s[..|r|]
    ensures r == [] || !IsSpace(r[|r| - 1])
    ensures forall k :: |r| <= k < |s| ==> IsSpace(s[k])
  {
    if s != [] && IsSpace(s[|s| - 1]) then TrimEnd(s[..|s| - 1]) else s
  }

  /** `s.strip()`: neither end of the result is whitespace. */
  function Strip(s: string): (r: string)
    ensures |r| <= |s|
    ensures r == [] || (!IsSpace(r[0]) && !IsSpace(r[|r| - 1]))
  {
    TrimEnd(TrimStart(s))
  }

  /** A string whose ends are not whitespace. */
  predicate IsStripped(s: string) {
    s == [] || (!IsSpace(s[0]) && !IsSpace(s[|s| - 1]))
  }

  lemma {:induction false} TrimStartExact(s: string, i: nat)
    requires i <= |s|
    requires forall k :: 0 <= k < i ==> IsSpace(s[k])
    requires i < |s| ==> !IsSpace(s[i])
    ensures TrimStart(s) == s[i..]
    decreases i
  {
    if i > 0 {
      assert IsSpace(s[0]);
      TrimStartExact(s[1..], i - 1);
      assert s[1..][i - 1..] == s[i..];
    }
  }

  lemma {:induction false} TrimEndExact(s: string, j: nat)
    requires j <= |s|
    requires forall k :: j <= k < |s| ==> IsSpace(s[k])
    requires j > 0 ==> !IsSpace(s[j - 1])
    ensures TrimEnd(s) == s[..j]
    decreases |s| - j
  {
    if j < |s| {
      assert IsSpace(s[|s| - 1]);
      TrimEndExact(s[..|s| - 1], j);
      assert s[..|s| - 1][..j] == s[..j];
    }
  }

  /** `strip` removes exactly the maximal whitespace run at each end: whenever
      s[i..j] has non-space ends and everything outside it is whitespace,
      Strip(s) is s[i..j]. */
  lemma StripExact(s: string, i: nat, j: nat)
    requires i <= j <= |s|
    requires forall k :: 0 <= k < i ==> IsSpace(s[k])
    requires forall k :: j <= k < |s| ==> IsSpace(s[k])
    requires i < j ==> !IsSpace(s[i]) && !IsSpace(s[j - 1])
    ensures Strip(s) == s[i..j]
  {
    if i < j {
      TrimStartExact(s, i);
      TrimEndOfSlice(s, i, j);
    } else {
      TrimStartExact(s, |s|);
    }
  }

  lemma TrimEndOfSlice(s: string, i: nat, j: nat)
    requires i < j <= |s|
    requires forall k :: j <= k < |s| ==> IsSpace(s[k])
    requires !IsSpace(s[j - 1])
    ensures TrimEnd(s[i..]) == s[i..j]
  {
    var t := s[i..];
    forall k | j - i <= k < |t| ensures IsSpace(t[k]) {
      assert t[k] == s[k + i];
    }
    TrimEndExact(t, j - i);
    assert t[..j - i] == s[i..j];
  }

  /** A string without whitespace at its ends is left alone by `strip`. */
  lemma StripOfStripped(s: string)
    requires IsStripped(s)
    ensures Strip(s) == s
  {
    StripExact(s, 0, |s|);
  }

  /** `strip` is idempotent. */
  lemma StripIdempotent(s: string)
    ensures Strip(Strip(s)) == Strip(s)
  {
    StripOfStripped(Strip(s));
  }

  // ---------------------------------------------------------------------------
  // lower()
  // ---------------------------------------------------------------------------

  predicate IsUpper(c: char) { 'A' <= c <= 'Z' }

  function LowerChar(c: char): char {
    if IsUpper(c) then (c as int + 32) as char else c
  }

  /** `s.lower()` over ASCII: every upper-case letter is mapped to its
      lower-case partner, every other character is kept. */
  function Lower(s: string): (r: string)
    ensures |r| == |s|
    ensures forall k :: 0 <= k < |s| ==> r[k] == LowerChar(s[k])
  {
    seq(|s|, k requires 0 <= k < |s| => LowerChar(s[k]))
  }

  /** `lower` leaves no upper-case letter, is idempotent and keeps every
      whitespace character where it was (and every other one non-space). */
  lemma LowerProperties(s: string)
    ensures forall k :: 0 <= k < |s| ==> !IsUpper(Lower(s)[k])
    ensures Lower(Lower(s)) == Lower(s)
    ensures forall k :: 0 <= k < |s| ==> (IsSpace(Lower(s)[k]) <==> IsSpace(s[k]))
  {
  }

  // ---------------------------------------------------------------------------
  // split(sep) and sep.join(parts)
  // ---------------------------------------------------------------------------

  /** `s.split(c)` for a one-character separator: the texts between
      separators, in order (a string without `c` gives one part). */
  function SplitOn(s: string, c: char): (parts: seq<string>)
    ensures |parts| >= 1
    ensures forall k :: 0 <= k < |parts| ==> c !in parts[k]
    ensures |parts| == 1 <==> c !in s
  {
    if s == [] then [""]
    else
      var rest := SplitOn(s[1..], c);
      if s[0] == c then [""] + rest
      else [[s[0]] + rest[0]] + rest[1..]
  }

  /** `c.join(parts)`: the parts in order with one `c` between neighbours.
      It starts with the first part and ends with the last, and when no part
      holds `c` the result holds it exactly when there are two parts or
      more. */
  function JoinOn(parts: seq<string>, c: char): (r: string)
    ensures parts == [] ==> r == ""
    ensures parts != [] ==> StartsWith(r, parts[0]) && EndsWith(r, parts[|parts| - 1])
  {
    if |parts| == 0 then ""
    else if |parts| == 1 then parts[0]
    else parts[0] + [c] + JoinOn(parts[1..], c)
  }

  function Last<T>(s: seq<T>): T
    requires s != []
  {
    s[|s| - 1]
  }

  /** Joining the parts of a split gives back the original string. */
  lemma {:induction false} JoinSplit(s: string, c: char)
    ensures JoinOn(SplitOn(s, c), c) == s
  {
    if s != [] {
      var rest := SplitOn(s[1..], c);
      JoinSplit(s[1..], c);
      if s[0] == c {
        JoinOnEmptyHead(rest, c);
      } else {
        JoinOnHeadExtend([s[0]], rest, c);
      }
    }
  }

  /** An empty first part contributes only its separator. */
  lemma JoinOnEmptyHead(parts: seq<string>, c: char)
    requires parts != []
    ensures JoinOn([""] + parts, c) == [c] + JoinOn(parts, c)
  {
    assert ([""] + parts)[1..] == parts;
  }

  /** Extending the first part extends the join at its front. */
  lemma JoinOnHeadExtend(x: string, parts: seq<string>, c: char)
    requires parts != []
    ensures JoinOn([x + parts[0]] + parts[1..], c) == x + JoinOn(parts, c)
  {
    var ps := [x + parts[0]] + parts[1..];
    assert ps[0] == x + parts[0];
    if |parts| > 1 {
      assert ps[1..] == parts[1..];
      var tail := JoinOn(parts[1..], c);
      calc {
        JoinOn(ps, c);
        (x + parts[0]) + [c] + tail;
        x + (parts[0] + [c] + tail);
        x + JoinOn(parts, c);
      }
    }
  }

  lemma {:induction false} SplitWithoutSeparator(s: string, c: char)
    requires c !in s
    ensures SplitOn(s, c) == [s]
  {
    if s != [] {
      SplitWithoutSeparator(s[1..], c);
      assert [s[0]] + s[1..] == s;
    }
  }

  lemma {:induction false} SplitAfterPart(p: string, t: string, c: char)
    requires c !in p
    ensures SplitOn(p + [c] + t, c) == [p] + SplitOn(t, c)
  {
    var s := p + [c] + t;
    if p == [] {
      assert s[1..] == t;
    } else {
      assert s[1..] == p[1..] + [c] + t;
      SplitAfterPart(p[1..], t, c);
      assert [p[0]] + p[1..] == p;
    }
  }

  /** Splitting a join gives back the parts, when no part holds the
      separator: together with JoinSplit, split and join are inverse. */
  lemma {:induction false} SplitJoin(parts: seq<string>, c: char)
    requires |parts| >= 1
    requires forall k :: 0 <= k < |parts| ==> c !in parts[k]
    ensures SplitOn(JoinOn(parts, c), c) == parts
  {
    if |parts| == 1 {
      SplitWithoutSeparator(parts[0], c);
    } else {
      SplitJoin(parts[1..], c);
      SplitAfterPart(parts[0], JoinOn(parts[1..], c), c);
    }
  }

  /** `s.split(c)[0]` is the text before the first `c` (all of s if none). */
  lemma {:induction false} SplitFirst(s: string, c: char)
    ensures var f := SplitOn(s, c)[0];
            |f| <= |s| && f == s[..|f|] && (|f| < |s| ==> s[|f|] == c)
  {
    if s != [] {
      SplitFirst(s[1..], c);
    }
  }

  /** `s.split(c)[-1]` is the text after the last `c` (all of s if none). */
  lemma {:induction false} SplitLast(s: string, c: char)
    ensures var l := Last(SplitOn(s, c));
            |l| <= |s| && l == s[|s| - |l|..] && (|l| < |s| ==> s[|s| - |l| - 1] == c)
  {
    var parts := SplitOn(s, c);
    JoinSplit(s, c);
    if |parts| > 1 {
      JoinOnLast(parts, c);
    }
  }

  lemma {:induction false} JoinOnLast(parts: seq<string>, c: char)
    requires |parts| >= 2
    ensures JoinOn(parts, c) == JoinOn(parts[..|parts| - 1], c) + [c] + Last(parts)
  {
    if |parts| > 2 {
      var tail := parts[1..];
      JoinOnLast(tail, c);
      assert parts[..|parts| - 1][1..] == tail[..|tail| - 1];
    }
  }

  /** `" ".join(parts)` of non-empty, already stripped parts is itself
      stripped (so a further `strip()` changes nothing), and it is empty
      exactly when there are no parts. */
  lemma {:induction false} JoinOfStrippedParts(parts: seq<string>)
    requires forall k :: 0 <= k < |parts| ==> parts[k] != "" && IsStripped(parts[k])
    ensures Strip(JoinOn(parts, ' ')) == JoinOn(parts, ' ')
    ensures JoinOn(parts, ' ') == "" <==> parts == []
  {
    if parts != [] {
      JoinEnds(parts, ' ');
      StripOfStripped(JoinOn(parts, ' '));
    }
  }

  /** A join of non-empty parts starts with the first part's first character
      and ends with the last part's last character. */
  lemma {:induction false} JoinEnds(parts: seq<string>, c: char)
    requires parts != []
    requires parts[0] != [] && Last(parts) != []
    ensures var j := JoinOn(parts, c);
            j != [] && j[0] == parts[0][0] && j[|j| - 1] == Last(parts)[|Last(parts)| - 1]
  {
    if |parts| > 1 {
      JoinOnLast(parts, c);
    }
  }

  // ---------------------------------------------------------------------------
  // startswith and `in` on strings
  // ---------------------------------------------------------------------------

  predicate StartsWith(s: string, prefix: string) {
    |prefix| <= |s| && s[..|prefix|] == prefix
  }

  predicate EndsWith(s: string, suffix: string) {
    |suffix| <= |s| && s[|s| - |suffix|..] == suffix
  }

  /** `needle` occurs in `s` at offset i. */
  predicate OccursAt(s: string, needle: string, i: nat) {
    i + |needle| <= |s| && s[i..i + |needle|] == needle
  }

  /** Python's `needle in s` for strings: a substring test, true exactly
      when `needle` occurs at some offset of `s`. */
  predicate Contains(s: string, needle: string)
    ensures Contains(s, needle) <==> exists i: nat :: OccursAt(s, needle, i)
  {
    if StartsWith(s, needle) then
      assert OccursAt(s, needle, 0);
      true
    else if s == [] then
      assert forall i: nat :: !OccursAt(s, needle, i);
      false
    else
      var rest := Contains(s[1..], needle);
      OccursShift(s, needle);
      assert !OccursAt(s, needle, 0);
      assert rest ==> exists i: nat :: OccursAt(s, needle, i) by {
        if rest {
          var j: nat :| OccursAt(s[1..], needle, j);
          assert OccursAt(s, needle, j + 1);
        }
      }
      assert (exists i: nat :: OccursAt(s, needle, i)) ==> rest by {
        if i: nat :| OccursAt(s, needle, i) {
          assert i != 0;
          assert OccursAt(s[1..], needle, i - 1);
        }
      }
      rest
  }

  /** Occurrences in `s[1..]` are those in `s` shifted by one, except at 0. */
  lemma OccursShift(s: string, needle: string)
    requires s != []
    ensures forall i: nat :: OccursAt(s[1..], needle, i) <==> OccursAt(s, needle, i + 1)
  {
    forall i: nat ensures OccursAt(s[1..], needle, i) <==> OccursAt(s, needle, i + 1) {
      if i + |needle| <= |s[1..]| {
        assert s[1..][i..i + |needle|] == s[i + 1..i + 1 + |needle|];
      }
    }
  }

  // ---------------------------------------------------------------------------
  // isdigit() and int() of a digit string
  // ---------------------------------------------------------------------------

  predicate IsDigit(c: char) { '0' <= c <= '9' }

  /** Python's `s.isdigit()`: non-empty and every character a digit. Unlike
      `int()`, it refuses a sign and surrounding whitespace. */
  predicate IsDigits(s: string)
    ensures IsDigits(s) ==> s != [] && IsStripped(s) && s[0] != '+' && s[0] != '-'
  {
    s != [] && AllDigits(s)
  }

  predicate AllDigits(s: string) {
    forall k :: 0 <= k < |s| ==> IsDigit(s[k])
  }

  function Pow10(k: nat): (p: nat)
    ensures p >= 1
  {
    if k == 0 then 1 else 10 * Pow10(k - 1)
  }

  /** `int(s)` of a string of decimal digits: a number with at most |s|
      digits, and exactly |s| when `s` has no leading zero. */
  function DecimalValue(s: string): (v: nat)
    requires AllDigits(s)
    ensures v < Pow10(|s|)
    ensures s != [] && s[0] != '0' ==> v >= Pow10(|s| - 1)
  {
    if s == [] then 0
    else DecimalValue(s[..|s| - 1]) * 10 + (s[|s| - 1] as int - '0' as int)
  }

  function DigitChar(d: nat): char
    requires d < 10
  {
    ('0' as int + d) as char
  }

  /** `str(n)` for a natural number: its decimal digits, no leading zero. */
  function DecimalString(n: nat): (s: string)
    ensures IsDigits(s)
    ensures s[0] == '0' ==> n == 0
  {
    if n < 10 then [DigitChar(n)] else DecimalString(n / 10) + [DigitChar(n % 10)]
  }

  /** `int(str(n)) == n` */
  lemma {:induction false} DecimalRoundTrip(n: nat)
    ensures DecimalValue(DecimalString(n)) == n
  {
    var s := DecimalString(n);
    if n >= 10 {
      DecimalRoundTrip(n / 10);
      assert s[..|s| - 1] == DecimalString(n / 10);
    }
  }

  /** `str(int(s)) == s` for a digit string without a leading zero (or the
      single digit "0"). */
  lemma {:induction false} DigitsRoundTrip(s: string)
    requires IsDigits(s) && (s[0] != '0' || |s| == 1)
    ensures DecimalString(DecimalValue(s)) == s
  {
    var v := DecimalValue(s);
    var front := s[..|s| - 1];
    var d := s[|s| - 1] as int - '0' as int;
    assert v == DecimalValue(front) * 10 + d;
    assert DigitChar(d) == s[|s| - 1];
    if |s| >= 2 {
      assert front[0] == s[0];
      DigitsRoundTrip(front);
      assert Pow10(|s| - 1) >= 10;
      assert v / 10 == DecimalValue(front) && v % 10 == d;
      assert DecimalString(v) == DecimalString(v / 10) + [DigitChar(v % 10)];
      assert s == front + [s[|s| - 1]];
    } else {
      assert DecimalValue(front) == 0;
      assert DecimalString(v) == [DigitChar(d)];
    }
  }
}
