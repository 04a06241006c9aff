/** String operations of JavaScript used by the model, on `seq<char>` with ASCII case mapping. */
module Text {
  import opened Wrappers

  predicate IsUpperAscii(c: char) { 'A' <= c <= 'Z' }
  predicate IsLowerAscii(c: char) { 'a' <= c <= 'z' }

  function LowerChar(c: char): (r: char)
    ensures !IsUpperAscii(r)
    ensures IsUpperAscii(c) ==> r as int == c as int + 32
    ensures !IsUpperAscii(c) ==> r == c
  {
    if IsUpperAscii(c) then (c as int + 32) as char else c
  }

  function UpperChar(c: char): (r: char)
    ensures !IsLowerAscii(r)
    ensures IsLowerAscii(c) ==> r as int == c as int - 32
    ensures !IsLowerAscii(c) ==> r == c
  {
    if IsLowerAscii(c) then (c as int - 32) as char else c
  }

  /** `String.prototype.toLowerCase`, restricted to ASCII letters. */
  function Lower(s: string): (r: string)
    ensures |r| == |s|
    ensures forall i :: 0 <= i < |s| ==> r[i] == LowerChar(s[i])
  {
    seq(|s|, i requires 0 <= i < |s| => LowerChar(s[i]))
  }

  /** Lower-casing twice is lower-casing once. */
  lemma LowerIdempotent(s: string)
    ensures Lower(Lower(s)) == Lower(s)
  {
  }

  /** `t` occurs in `s` starting at index `i`. */
  predicate OccursAt(s: string, t: string, i: nat) {
    i + |t| <= |s| && s[i..i + |t|] == t
  }

  /** `String.prototype.includes`: `t` is a substring of `s` (the empty string is in every string). */
  function Includes(s: string, t: string): (b: bool)
    ensures |t| > |s| ==> !b
  {
    t <= s || (s != [] && Includes(s[1..], t))
  }

  /** `Includes` holds exactly when `t` occurs somewhere in `s`. */
  lemma {:induction false} IncludesIff(s: string, t: string)
    ensures Includes(s, t) <==> exists i: nat :: OccursAt(s, t, i)
  {
    if t <= s {
      assert OccursAt(s, t, 0);
    } else if s == [] {
      forall i: nat ensures !OccursAt(s, t, i) {
      }
    } else {
      IncludesIff(s[1..], t);
      if Includes(s[1..], t) {
        var i: nat :| OccursAt(s[1..], t, i);
        assert s[1..][i..i + |t|] == s[i + 1..i + 1 + |t|];
        assert OccursAt(s, t, i + 1);
      } else {
        forall i: nat ensures !OccursAt(s, t, i) {
          if i == 0 {
            assert !(t <= s);
          } else {
            OccursShift(s, t, i);
          }
        }
      }
    }
  }

  /** An occurrence at a positive index is an occurrence in the tail, one index earlier. */
  lemma OccursShift(s: string, t: string, j: nat)
    requires s != [] && j > 0
    ensures OccursAt(s, t, j) <==> OccursAt(s[1..], t, j - 1)
  {
    if j + |t| <= |s| {
      assert s[1..][j - 1..j - 1 + |t|] == s[j..j + |t|];
    }
  }

  /** No occurrence before `k` in the tail and none at 0 means none before `k + 1` in `s`. */
  lemma NoEarlierOccurrence(s: string, t: string, k: nat)
    requires s != [] && !OccursAt(s, t, 0)
    requires forall j: nat :: j < k ==> !OccursAt(s[1..], t, j)
    ensures forall j: nat :: j < k + 1 ==> !OccursAt(s, t, j)
  {
    forall j: nat | j < k + 1
      ensures !OccursAt(s, t, j)
    {
      if j > 0 {
        OccursShift(s, t, j);
        var j': nat := j - 1;
        assert !OccursAt(s[1..], t, j');
      }
    }
  }

  /** Index of the first occurrence of `t` in `s`, when there is one. */
  function FirstOccurrence(s: string, t: string): (i: nat)
    requires Includes(s, t)
    ensures OccursAt(s, t, i)
    ensures forall j: nat :: j < i ==> !OccursAt(s, t, j)
  {
    if t <= s then 0
    else
      var k := FirstOccurrence(s[1..], t);
      OccursShift(s, t, k + 1);
      NoEarlierOccurrence(s, t, k);
      k + 1
  }

  /** `String.prototype.replace` with a string pattern: only the first occurrence of `pat` is replaced
      (`ReplaceFirstAbsent` and `ReplaceFirstOccurrence` state what it does). */
  function ReplaceFirst(s: string, pat: string, rep: string): string {
    if pat <= s then rep + s[|pat|..]
    else if s == [] then s
    else [s[0]] + ReplaceFirst(s[1..], pat, rep)
  }

  /** A string without the pattern is left as it is. */
  lemma {:induction false} ReplaceFirstAbsent(s: string, pat: string, rep: string)
    requires !Includes(s, pat)
    ensures ReplaceFirst(s, pat, rep) == s
  {
    if s != [] {
      ReplaceFirstAbsent(s[1..], pat, rep);
      assert [s[0]] + s[1..] == s;
    }
  }

  /** A string holding the pattern has its first occurrence, and only that one, replaced. */
  lemma {:induction false} ReplaceFirstOccurrence(s: string, pat: string, rep: string)
    requires Includes(s, pat)
    ensures
      var i := FirstOccurrence(s, pat);
      ReplaceFirst(s, pat, rep) == s[..i] + rep + s[i + |pat|..]
  {
    if pat <= s {
      assert FirstOccurrence(s, pat) == 0;
      ReplaceAtStart(s, pat, rep);
    } else {
      assert s != [] && Includes(s[1..], pat);
      ReplaceFirstOccurrence(s[1..], pat, rep);
      var k := FirstOccurrence(s[1..], pat);
      assert FirstOccurrence(s, pat) == k + 1;
      ReplaceBehind(s, pat, rep, k);
    }
  }

  /** The base case of `ReplaceFirstOccurrence`: a pattern at the start is replaced there. */
  lemma ReplaceAtStart(s: string, pat: string, rep: string)
    requires pat <= s
    ensures ReplaceFirst(s, pat, rep) == s[..0] + rep + s[|pat|..]
  {
    assert s[..0] + rep + s[|pat|..] == rep + s[|pat|..];
  }

  /** The recursive step of `ReplaceFirstOccurrence`: a replacement at `k` in the tail is one at
      `k + 1` in the string. */
  lemma ReplaceBehind(s: string, pat: string, rep: string, k: nat)
    requires s != [] && !(pat <= s) && k + |pat| <= |s| - 1
    requires ReplaceFirst(s[1..], pat, rep) == s[1..][..k] + rep + s[1..][k + |pat|..]
    ensures ReplaceFirst(s, pat, rep) == s[..k + 1] + rep + s[k + 1 + |pat|..]
  {
    var t := s[1..];
    var before, after := t[..k], t[k + |pat|..];
    assert ReplaceFirst(s, pat, rep) == [s[0]] + (before + rep + after);
    assert [s[0]] + (before + rep + after) == ([s[0]] + before) + rep + after;
    assert s[..k + 1] == [s[0]] + before;
    assert s[k + 1 + |pat|..] == after;
  }

  /** A pattern whose first character does not occur in `s` is not in `s`. */
  lemma {:induction false} FirstCharAbsent(s: string, t: string)
    requires |t| > 0 && t[0] !in s
    ensures !Includes(s, t)
  {
    if s != [] {
      assert s[0] != t[0];
      FirstCharAbsent(s[1..], t);
    }
  }

  /** When the pattern occurs at `i` and its first character occurs nowhere before `i`, the replacement
      happens at `i`. */
  lemma ReplaceFirstAt(s: string, pat: string, rep: string, i: nat)
    requires |pat| > 0 && OccursAt(s, pat, i) && pat[0] !in s[..i]
    ensures ReplaceFirst(s, pat, rep) == s[..i] + rep + s[i + |pat|..]
  {
    IncludesIff(s, pat);
    ReplaceFirstOccurrence(s, pat, rep);
    var k := FirstOccurrence(s, pat);
    assert !(i < k);
  }

  /** Replacing a whole string that is exactly the pattern yields the replacement. */
  lemma ReplaceWhole(pat: string, rep: string)
    ensures ReplaceFirst(pat, pat, rep) == rep
  {
    assert pat[|pat|..] == [];
  }

  /** `s.split(sep).pop()`: the text after the last `sep`, or all of `s` if it holds no `sep`. */
  function LastSegment(s: string, sep: char): (r: string)
    ensures |r| <= |s| && r == s[|s| - |r|..]
    ensures sep !in r
    ensures |r| < |s| ==> s[|s| - |r| - 1] == sep
  {
    if s == [] then []
    else if s[|s| - 1] == sep then []
    else LastSegment(s[..|s| - 1], sep) + [s[|s| - 1]]
  }

  /** A string without the separator is its own last segment. */
  lemma LastSegmentOfPlain(s: string, sep: char)
    requires sep !in s
    ensures LastSegment(s, sep) == s
  {
  }

  /** Text after the last separator: appending a separator and a separator-free `t` makes `t` the
      last segment, whatever came before. */
  lemma {:induction false} LastSegmentAfter(s: string, sep: char, t: string)
    requires sep !in t
    ensures LastSegment(s + [sep] + t, sep) == t
  {
    if t == [] {
      assert s + [sep] + t == s + [sep];
    } else {
      var u := t[..|t| - 1];
      assert t == u + [t[|t| - 1]];
      assert (s + [sep] + t)[..|s + [sep] + t| - 1] == s + [sep] + u;
      LastSegmentAfter(s, sep, u);
    }
  }

  /** `parseInt(v) || d`: the number parsed, unless nothing was parsed (`NaN`) or it is 0. */
  function IntOr(parsed: Option<int>, d: int): (r: int)
    ensures parsed.Some? && parsed.value != 0 ==> r == parsed.value
    ensures parsed.None? || parsed == Some(0) ==> r == d
  {
    match parsed
    case Some(n) => if n != 0 then n else d
    case None => d
  }

  /** `v || d` on a string that may be undefined: the value unless it is missing or empty. */
  function StringOr(v: Option<string>, d: string): (r: string)
    ensures v.Some? && v.value != "" ==> r == v.value
    ensures v.None? || v == Some("") ==> r == d
  {
    match v
    case Some(x) => if x != "" then x else d
    case None => d
  }

  predicate IsDigit(c: char) { '0' <= c <= '9' }

  /** The decimal digits of `n`, without leading zeros: how a template literal renders a whole number. */
  function NatToDecimal(n: nat): (r: string)
    ensures |r| >= 1
    ensures forall i :: 0 <= i < |r| ==> IsDigit(r[i])
    ensures |r| > 1 ==> r[0] != '0'
    decreases n
  {
    var d := [(('0' as int) + n % 10) as char];
    if n < 10 then d else NatToDecimal(n / 10) + d
  }

  /** The number that a string of decimal digits denotes. */
  function DecimalValue(s: string): nat
    requires forall i :: 0 <= i < |s| ==> IsDigit(s[i])
  {
    if s == [] then 0
    else
      assert IsDigit(s[|s| - 1]);
      10 * DecimalValue(s[..|s| - 1]) + (s[|s| - 1] as int - '0' as int)
  }

  /** Rendering a whole number and reading it back gives the number. */
  lemma {:induction false} DecimalRoundTrip(n: nat)
    ensures DecimalValue(NatToDecimal(n)) == n
  {
    var r := NatToDecimal(n);
    if n >= 10 {
      DecimalRoundTrip(n / 10);
      assert r[..|r| - 1] == NatToDecimal(n / 10);
    }
  }

  /** How a template literal renders an integer: a leading minus sign exactly for a negative number,
      then digits that denote its magnitude. */
  function IntToDecimal(n: int): (r: string)
    ensures |r| >= 1 && (r[0] == '-' <==> n < 0)
    ensures forall i :: (if n < 0 then 1 else 0) <= i < |r| ==> IsDigit(r[i])
    ensures DecimalValue(r[(if n < 0 then 1 else 0)..]) == if n < 0 then -n else n
  {
    if n < 0 then
      var digits := NatToDecimal(-n);
      DecimalRoundTrip(-n);
      assert ("-" + digits)[1..] == digits;
      "-" + digits
    else
      DecimalRoundTrip(n);
      assert NatToDecimal(n)[0..] == NatToDecimal(n);
      NatToDecimal(n)
  }
}
