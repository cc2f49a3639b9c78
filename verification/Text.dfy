/** The string operations of the checkers. */
module Text {
  import opened Options

  /** White space as `str.strip` sees it. */
  predicate IsSpace(c: char) {
    || '\t' <= c <= '\r'
    || '\U{1c}' <= c <= ' '
    || c == '\U{85}' || c == '\U{a0}' || c == '\U{1680}'
    || '\U{2000}' <= c <= '\U{200a}'
    || c == '\U{2028}' || c == '\U{2029}' || c == '\U{202f}' || c == '\U{205f}' || c == '\U{3000}'
  }

  function LStrip(s: string): string {
    if s != [] && IsSpace(s[0]) then LStrip(s[1..]) else s
  }

  function RStrip(s: string): string {
    if s != [] && IsSpace(s[|s| - 1]) then RStrip(s[..|s| - 1]) else s
  }

  function Strip(s: string): string {
    RStrip(LStrip(s))
  }

  predicate StartsWith(s: string, prefix: string) {
    prefix <= s
  }

  lemma {:induction false} RStripKeeps(s: string, i: nat)
    requires i < |s| && !IsSpace(s[i])
    ensures i < |RStrip(s)| <= |s| && RStrip(s) == s[..|RStrip(s)|]
  {
    if IsSpace(s[|s| - 1]) {
      RStripKeeps(s[..|s| - 1], i);
      assert s[..|s| - 1][..|RStrip(s)|] == s[..|RStrip(s)|];
    } else {
      assert s == s[..|s|];
    }
  }

  lemma {:induction false} LStripKeeps(s: string, i: nat)
    requires i < |s| && !IsSpace(s[i])
    ensures |s| - i <= |LStrip(s)| <= |s| && LStrip(s) == s[|s| - |LStrip(s)|..]
  {
    if IsSpace(s[0]) {
      LStripKeeps(s[1..], i - 1);
      assert s[1..][|s| - 1 - |LStrip(s)|..] == s[|s| - |LStrip(s)|..];
    } else {
      assert s == s[0..];
    }
  }

  /** A first character that is not white space survives stripping. */
  lemma StripKeepsFirst(s: string)
    requires s != [] && !IsSpace(s[0])
    ensures Strip(s) != [] && Strip(s)[0] == s[0]
  {
    RStripKeeps(s, 0);
  }

  /** Two characters that are not white space stay as far apart. */
  lemma StripSpans(s: string, i: nat, j: nat)
    requires i <= j < |s| && !IsSpace(s[i]) && !IsSpace(s[j])
    ensures |Strip(s)| > j - i
  {
    LStripKeeps(s, i);
    var t := LStrip(s);
    assert t[|t| - |s| + j] == s[j];
    RStripKeeps(t, |t| - |s| + j);
  }

  predicate AllSpace(s: string) {
    forall i :: 0 <= i < |s| ==> IsSpace(s[i])
  }

  /** Stripping on the left takes off white space and stops in front of
      anything else. */
  lemma {:induction false} LStripMeans(s: string) returns (w: string)
    ensures AllSpace(w) && s == w + LStrip(s) && (LStrip(s) != [] ==> !IsSpace(LStrip(s)[0]))
  {
    w := [];
    if s != [] && IsSpace(s[0]) {
      w := LStripMeans(s[1..]);
      assert s == [s[0]] + s[1..];
      w := [s[0]] + w;
    }
  }

  lemma {:induction false} RStripMeans(s: string) returns (w: string)
    ensures AllSpace(w) && s == RStrip(s) + w && (RStrip(s) != [] ==> !IsSpace(RStrip(s)[|RStrip(s)| - 1]))
  {
    w := [];
    if s != [] && IsSpace(s[|s| - 1]) {
      w := RStripMeans(s[..|s| - 1]);
      assert s == s[..|s| - 1] + [s[|s| - 1]];
      w := w + [s[|s| - 1]];
    }
  }

  lemma {:induction false} LStripOf(w: string, t: string)
    requires AllSpace(w) && (t != [] ==> !IsSpace(t[0]))
    ensures LStrip(w + t) == t
  {
    if w == [] {
      assert w + t == t;
    } else {
      assert (w + t)[1..] == w[1..] + t && (w + t)[0] == w[0];
      LStripOf(w[1..], t);
    }
  }

  lemma {:induction false} RStripOf(t: string, w: string)
    requires AllSpace(w) && (t != [] ==> !IsSpace(t[|t| - 1]))
    ensures RStrip(t + w) == t
  {
    if w == [] {
      assert t + w == t;
    } else {
      var s := t + w;
      assert s[..|s| - 1] == t + w[..|w| - 1] && s[|s| - 1] == w[|w| - 1];
      RStripOf(t, w[..|w| - 1]);
    }
  }

  /** What stands between white space and has none at its ends is what stripping
      leaves. */
  lemma StripOf(w1: string, core: string, w3: string)
    requires AllSpace(w1) && AllSpace(w3)
    requires core != [] && !IsSpace(core[0]) && !IsSpace(core[|core| - 1])
    ensures Strip(w1 + (core + w3)) == core
  {
    assert (core + w3)[0] == core[0];
    LStripOf(w1, core + w3);
    RStripOf(core, w3);
  }

  // ---- decimal numbers

  predicate IsDigit(c: char) {
    '0' <= c <= '9'
  }

  function Dec(n: nat): string {
    if n < 10 then ['0' + n as char] else Dec(n / 10) + ['0' + (n % 10) as char]
  }

  function Value(s: string): nat {
    if s == [] then 0
    else
      var c := s[|s| - 1];
      Value(s[..|s| - 1]) * 10 + (if IsDigit(c) then c as int - '0' as int else 0)
  }

  function LeadingDigits(s: string): string {
    if s != [] && IsDigit(s[0]) then [s[0]] + LeadingDigits(s[1..]) else []
  }

  predicate AllDigits(s: string) {
    forall i :: 0 <= i < |s| ==> IsDigit(s[i])
  }

  lemma {:induction false} DecRoundTrip(n: nat)
    ensures Dec(n) != [] && AllDigits(Dec(n)) && Value(Dec(n)) == n
  {
    if n >= 10 {
      DecRoundTrip(n / 10);
      assert Dec(n)[..|Dec(n)| - 1] == Dec(n / 10);
    } else {
      assert Dec(n)[..0] == [];
    }
  }

  lemma {:induction false} LeadingDigitsStop(digits: string, rest: string)
    requires AllDigits(digits) && (rest == [] || !IsDigit(rest[0]))
    ensures LeadingDigits(digits + rest) == digits
  {
    if digits == [] {
      assert digits + rest == rest;
    } else {
      assert (digits + rest)[1..] == digits[1..] + rest;
      LeadingDigitsStop(digits[1..], rest);
    }
  }

  /** The number after the first plus sign that a digit follows. */
  function NumberAfterPlus(s: string): Option<nat> {
    if s == [] then None
    else if s[0] == '+' && |s| > 1 && IsDigit(s[1]) then Some(Value(LeadingDigits(s[1..])))
    else NumberAfterPlus(s[1..])
  }

  lemma {:induction false} NumberFound(left: string, n: nat, rest: string)
    requires '+' !in left && (rest == [] || !IsDigit(rest[0]))
    ensures NumberAfterPlus(left + "+" + Dec(n) + rest) == Some(n)
  {
    var s := left + "+" + Dec(n) + rest;
    if left == [] {
      DecRoundTrip(n);
      assert s[1..] == Dec(n) + rest;
      LeadingDigitsStop(Dec(n), rest);
      assert s[1] == Dec(n)[0];
    } else {
      assert s[1..] == left[1..] + "+" + Dec(n) + rest;
      NumberFound(left[1..], n, rest);
    }
  }
}
