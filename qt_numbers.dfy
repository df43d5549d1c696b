/** QString::toLong and QString::toInt in base 10: surrounding white space is
    ignored, an optional '+' or '-' is followed by at least one ASCII digit,
    and a text that is not such a number, or whose value does not fit the
    result type (64-bit `long`, 32-bit `int`), converts to 0. */
module QtNumbers {

  import opened Options
  import opened QtText

  const LongMin: int := -0x8000_0000_0000_0000
  const LongMax: int := 0x7FFF_FFFF_FFFF_FFFF
  const IntMin: int := -0x8000_0000
  const IntMax: int := 0x7FFF_FFFF

  predicate IsDigit(c: char) {
    '0' <= c <= '9'
  }

  /** Every character of `s[lo..hi]` is a digit. */
  predicate DigitsIn(s: string, lo: nat, hi: nat)
    requires lo <= hi <= |s|
    decreases hi - lo
  {
    if lo == hi then true else DigitsIn(s, lo, hi - 1) && IsDigit(s[hi - 1])
  }

  /** The value of the digits `s[lo..hi]`, most significant first. */
  function DigitsValueIn(s: string, lo: nat, hi: nat): (v: nat)
    requires lo <= hi <= |s| && DigitsIn(s, lo, hi)
    decreases hi - lo
  {
    if lo == hi then 0
    else DigitsValueIn(s, lo, hi - 1) * 10 + (s[hi - 1] as int - '0' as int)
  }

  predicate AllDigits(s: string) {
    DigitsIn(s, 0, |s|)
  }

  function DigitsValue(s: string): nat
    requires AllDigits(s)
  {
    DigitsValueIn(s, 0, |s|)
  }

  lemma {:induction false} DigitsInEach(s: string, lo: nat, hi: nat)
    requires lo <= hi <= |s|
    ensures DigitsIn(s, lo, hi) <==> (forall k :: lo <= k < hi ==> IsDigit(s[k]))
    decreases hi - lo
  {
    if lo < hi {
      DigitsInEach(s, lo, hi - 1);
    }
  }

  lemma AllDigitsEach(s: string)
    ensures AllDigits(s) <==> (forall k :: 0 <= k < |s| ==> IsDigit(s[k]))
  {
    DigitsInEach(s, 0, |s|);
  }

  /** The digits of a range depend only on the characters in it. */
  lemma {:induction false} DigitsInSame(s: string, t: string, lo: nat, hi: nat)
    requires lo <= hi <= |s| && hi <= |t|
    requires forall k :: lo <= k < hi ==> s[k] == t[k]
    ensures DigitsIn(s, lo, hi) == DigitsIn(t, lo, hi)
    ensures DigitsIn(s, lo, hi) ==> DigitsValueIn(s, lo, hi) == DigitsValueIn(t, lo, hi)
    decreases hi - lo
  {
    if lo < hi {
      DigitsInSame(s, t, lo, hi - 1);
    }
  }

  /** An optionally signed decimal numeral, or None. */
  function ParseDecimal(s: string): Option<int> {
    if |s| > 0 && (s[0] == '+' || s[0] == '-') then
      if |s| > 1 && DigitsIn(s, 1, |s|) then
        var v: int := DigitsValueIn(s, 1, |s|);
        Some(if s[0] == '-' then -v else v)
      else None
    else if |s| > 0 && AllDigits(s) then Some(DigitsValue(s))
    else None
  }

  /** The conversion shared by toLong and toInt, for the range [lo, hi]. */
  function ToIntegral(s: string, lo: int, hi: int): (r: int)
    requires lo <= 0 <= hi
    ensures lo <= r <= hi
  {
    var p := ParseDecimal(Trimmed(s));
    if p.Some? && lo <= p.value <= hi then p.value else 0
  }

  /** QString::toLong on a 64-bit `long`. */
  function ToLong(s: string): (r: int)
    ensures LongMin <= r <= LongMax
  {
    ToIntegral(s, LongMin, LongMax)
  }

  /** QString::toInt. */
  function ToInt(s: string): (r: int)
    ensures IntMin <= r <= IntMax
  {
    ToIntegral(s, IntMin, IntMax)
  }

  /** The decimal numeral of a natural number, without leading zeros. */
  function DecimalString(n: nat): (s: string)
    ensures |s| > 0 && AllDigits(s)
  {
    if n < 10 then ['0' + (n as char)]
    else
      var p := DecimalString(n / 10);
      var s := p + ['0' + ((n % 10) as char)];
      DigitsInSame(s, p, 0, |p|);
      s
  }

  /** Reading back the numeral of `n` gives `n`. */
  lemma {:induction false} DecimalValue(n: nat)
    ensures DigitsValue(DecimalString(n)) == n
  {
    var s := DecimalString(n);
    if n >= 10 {
      var p := DecimalString(n / 10);
      DecimalValue(n / 10);
      var c := '0' + ((n % 10) as char);
      assert s == p + [c];
      DigitsInSame(s, p, 0, |p|);
      assert DigitsValueIn(s, 0, |s|) == DigitsValueIn(s, 0, |p|) * 10 + (c as int - '0' as int);
      assert c as int - '0' as int == n % 10;
    }
  }

  /** toLong and toInt read back every numeral that fits their range, also
      with white space around it. */
  lemma ConvertsDecimal(n: nat, pad: string)
    requires forall k :: 0 <= k < |pad| ==> IsSpace(pad[k])
    ensures n <= LongMax ==> ToLong(pad + DecimalString(n) + pad) == n
    ensures n <= IntMax ==> ToInt(pad + DecimalString(n) + pad) == n
  {
    var d := DecimalString(n);
    DecimalValue(n);
    AllDigitsEach(d);
    TrimmedPadded(pad, d, pad);
    assert Trimmed(pad + d + pad) == d;
    assert ParseDecimal(d) == Some(n) by {
      AllDigitsEach(d);
      assert IsDigit(d[0]);
    }
  }

  /** A numeral with a character after its digits does not convert. */
  lemma RejectsTrailingText(n: nat, c: char)
    requires !IsDigit(c) && !IsSpace(c)
    ensures ToLong(DecimalString(n) + [c]) == 0
  {
    var s := DecimalString(n) + [c];
    AllDigitsEach(DecimalString(n));
    assert !IsSpace(s[0]) && !IsSpace(s[|s| - 1]);
    TrimmedNoop(s);
    assert !DigitsIn(s, 1, |s|) && !AllDigits(s) by { assert s[|s| - 1] == c; }
  }
}
