/**
 * The few Python text builtins the reference generator relies on, over
 * strings as sequences of characters:
 *   - `str(n)` for an integer (decimal digits, a leading '-' when negative),
 *   - `int(s)` for a string (an optional sign followed by ASCII digits),
 *   - `s.zfill(width)` (left padding with '0', after a sign, never truncating),
 *   - `s.split("/")[-1]` (the text after the last '/').
 */
module Text {
  import opened Wrappers

  predicate IsDigit(c: char) { '0' <= c <= '9' }

  /** A non-empty run of ASCII digits. */
  predicate IsDigits(s: string) {
    |s| > 0 && forall i :: 0 <= i < |s| ==> IsDigit(s[i])
  }

  function DigitChar(d: nat): char
    requires d < 10
  {
    ('0' as int + d) as char
  }

  /** The number that a string of digits denotes, read most significant first. */
  function DigitsValue(s: string): nat
    requires forall i :: 0 <= i < |s| ==> IsDigit(s[i])
  {
    if s == [] then 0
    else
      assert IsDigit(s[|s| - 1]);
      DigitsValue(s[..|s| - 1]) * 10 + (s[|s| - 1] as int - '0' as int)
  }

  /** `str(n)` for n >= 0: the shortest decimal spelling of n. */
  function NatToString(n: nat): (r: string)
    ensures IsDigits(r) && DigitsValue(r) == n
    ensures r[0] == '0' ==> r == "0"
  {
    if n < 10 then [DigitChar(n)]
    else
      var front := NatToString(n / 10);
      assert (front + [DigitChar(n % 10)])[..|front|] == front;
      front + [DigitChar(n % 10)]
  }

  /** `str(n)` for any integer. */
  function IntToString(n: int): (r: string)
    ensures n >= 0 ==> IsDigits(r) && DigitsValue(r) == n && (r[0] == '0' ==> r == "0")
    ensures n < 0 ==> |r| > 1 && r[0] == '-' && IsDigits(r[1..]) && DigitsValue(r[1..]) == -n && r[1] != '0'
  {
    if n < 0 then "-" + NatToString(-n) else NatToString(n)
  }

  /**
   * `int(s)`: an optional '+' or '-' followed by at least one ASCII digit;
   * anything else is a ValueError, here None.
   */
  function ParseInt(s: string): (r: Option<int>)
    ensures r.Some? <==> IsDigits(s) || (|s| > 1 && (s[0] == '+' || s[0] == '-') && IsDigits(s[1..]))
    ensures IsDigits(s) ==> r == Some(DigitsValue(s))
    ensures |s| > 1 && s[0] == '+' && IsDigits(s[1..]) ==> r == Some(DigitsValue(s[1..]))
    ensures |s| > 1 && s[0] == '-' && IsDigits(s[1..]) ==> r == Some(-(DigitsValue(s[1..]) as int))
  {
    if |s| > 0 && (s[0] == '+' || s[0] == '-') then
      if IsDigits(s[1..]) then
        Some(if s[0] == '-' then -(DigitsValue(s[1..]) as int) else DigitsValue(s[1..]))
      else None
    else if IsDigits(s) then Some(DigitsValue(s))
    else None
  }

  function Zeros(k: nat): (r: string)
    ensures |r| == k && forall i :: 0 <= i < k ==> r[i] == '0'
  {
    seq(k, _ => '0')
  }

  /** `s.zfill(width)`: pad with '0' on the left, after a leading sign. */
  function ZFill(s: string, width: nat): (r: string)
    ensures |s| >= width ==> r == s
    ensures |r| == if |s| >= width then |s| else width
    ensures |s| < width && |s| > 0 && (s[0] == '+' || s[0] == '-') ==>
              r[0] == s[0] && r[1..] == Zeros(width - |s|) + s[1..]
    ensures |s| < width && !(|s| > 0 && (s[0] == '+' || s[0] == '-')) ==>
              r == Zeros(width - |s|) + s
  {
    if |s| >= width then s
    else if |s| > 0 && (s[0] == '+' || s[0] == '-') then
      [s[0]] + Zeros(width - |s|) + s[1..]
    else Zeros(width - |s|) + s
  }

  /** `s.split("/")[-1]`: everything after the last '/', or all of s. */
  function LastSegment(s: string): (r: string)
    ensures '/' !in r
    ensures |r| <= |s|
  {
    if s == [] then []
    else if s[|s| - 1] == '/' then []
    else LastSegment(s[..|s| - 1]) + [s[|s| - 1]]
  }

  lemma {:induction false} ZerosAreWorthless(k: nat)
    ensures DigitsValue(Zeros(k)) == 0
  {
    if k > 0 {
      assert Zeros(k)[..k - 1] == Zeros(k - 1);
      ZerosAreWorthless(k - 1);
    }
  }

  /** Leading zeros do not change the value of a digit string. */
  lemma {:induction false} LeadingZeros(k: nat, d: string)
    requires forall i :: 0 <= i < |d| ==> IsDigit(d[i])
    ensures forall i :: 0 <= i < |Zeros(k) + d| ==> IsDigit((Zeros(k) + d)[i])
    ensures DigitsValue(Zeros(k) + d) == DigitsValue(d)
  {
    var z := Zeros(k) + d;
    if d == [] {
      assert z == Zeros(k);
      ZerosAreWorthless(k);
    } else {
      var front := d[..|d| - 1];
      LeadingZeros(k, front);
      assert z[..|z| - 1] == Zeros(k) + front;
    }
  }

  /** Padding the decimal spelling of n to width four and parsing it gives n back. */
  lemma PaddedNumberRoundTrip(n: int)
    ensures ParseInt(ZFill(IntToString(n), 4)) == Some(n)
  {
    var s := IntToString(n);
    var r := ZFill(s, 4);
    if n >= 0 {
      assert s[0] != '+' && s[0] != '-';
      if |s| < 4 {
        LeadingZeros(4 - |s|, s);
      }
    } else {
      if |s| < 4 {
        LeadingZeros(4 - |s|, s[1..]);
      }
    }
  }

  /** A padded number is spelled with digits and signs only, so it holds no '/'. */
  lemma PaddedNumberHasNoSlash(n: int)
    ensures '/' !in ZFill(IntToString(n), 4)
  {
    var s := IntToString(n);
    var r := ZFill(s, 4);
    if |s| < 4 && n < 0 {
      assert r == [s[0]] + Zeros(4 - |s|) + s[1..];
    }
    assert forall i :: 0 <= i < |r| ==> IsDigit(r[i]) || r[i] == '-';
  }

  /**
   * The last segment is exactly the text after the last '/': a suffix of s
   * that is all of s when s holds no '/', and is preceded by a '/' otherwise.
   */
  lemma {:induction false} LastSegmentIsTail(s: string)
    ensures var r := LastSegment(s);
      && r == s[|s| - |r|..]
      && (|r| < |s| ==> s[|s| - |r| - 1] == '/')
      && ('/' !in s ==> r == s)
  {
    if s != [] && s[|s| - 1] != '/' {
      var front := s[..|s| - 1];
      LastSegmentIsTail(front);
      assert s == front + [s[|s| - 1]];
    }
  }

  /** The last '/'-segment of `p + "/" + t` is t when t holds no '/'. */
  lemma {:induction false} LastSegmentAfterSlash(p: string, t: string)
    requires '/' !in t
    ensures LastSegment(p + "/" + t) == t
  {
    var s := p + "/" + t;
    if t != [] {
      var front := t[..|t| - 1];
      LastSegmentAfterSlash(p, front);
      assert s[..|s| - 1] == p + "/" + front;
    }
  }
}
