/** `int.TryParse(string, out int)` as the service uses it to read the SMTP
    port: optional surrounding white space, an optional sign, one or more
    decimal digits, and a value that fits a signed 32-bit integer.  A
    rendering function is the partner that the round-trip lemmas connect to
    the parser. */
module Int32Text {
  import opened Wrappers

  const Int32Min: int := -0x8000_0000
  const Int32Max: int := 0x7FFF_FFFF

  predicate InInt32(n: int) {
    Int32Min <= n <= Int32Max
  }

  /** White space `NumberStyles.Integer` admits before and after a number. */
  predicate IsNumberWhite(c: char) {
    c == ' ' || ('\t' <= c <= '\r')
  }

  predicate AllNumberWhite(s: string) {
    forall i :: 0 <= i < |s| ==> IsNumberWhite(s[i])
  }

  predicate IsDigit(c: char) {
    '0' <= c <= '9'
  }

  predicate AllDigits(s: string) {
    forall i :: 0 <= i < |s| ==> IsDigit(s[i])
  }

  function DigitValue(c: char): (d: nat)
    requires IsDigit(c)
    ensures d < 10
  {
    (c as int) - ('0' as int)
  }

  function DigitChar(d: nat): (c: char)
    requires d < 10
    ensures IsDigit(c) && DigitValue(c) == d
  {
    (('0' as int) + d) as char
  }

  /** Value of a run of decimal digits, most significant digit first. */
  function DigitsValue(s: string): nat
    requires AllDigits(s)
  {
    if |s| == 0 then 0 else DigitsValue(s[..|s| - 1]) * 10 + DigitValue(s[|s| - 1])
  }

  /** Drops leading number white space. */
  function TrimStart(s: string): (r: string)
    ensures |r| <= |s| && r == s[|s| - |r|..]
    ensures AllNumberWhite(s[..|s| - |r|])
    ensures |r| > 0 ==> !IsNumberWhite(r[0])
  {
    if |s| > 0 && IsNumberWhite(s[0]) then TrimStart(s[1..]) else s
  }

  /** Drops trailing number white space. */
  function TrimEnd(s: string): (r: string)
    ensures |r| <= |s| && r == s[..|r|]
    ensures AllNumberWhite(s[|r|..])
    ensures |r| > 0 ==> !IsNumberWhite(r[|r| - 1])
  {
    if |s| > 0 && IsNumberWhite(s[|s| - 1]) then TrimEnd(s[..|s| - 1]) else s
  }

  /** The digits after an optional leading sign. */
  function Unsigned(core: string): string {
    if |core| > 0 && (core[0] == '-' || core[0] == '+') then core[1..] else core
  }

  /** `int.TryParse`: `None` when it returns false, `Some(n)` when it stores `n`. */
  function ParseInt32(s: Option<string>): (r: Option<int>)
    ensures s.None? ==> r.None?
    ensures r.Some? ==> InInt32(r.value)
  {
    match s
    case None => None
    case Some(t) =>
      ParseTrimmed(TrimEnd(TrimStart(t)))
  }

  /** The sign-and-digits part of `int.TryParse`, once white space is gone. */
  function ParseTrimmed(core: string): (r: Option<int>)
    ensures r.Some? ==> InInt32(r.value)
  {
    var digits := Unsigned(core);
    if |digits| == 0 || !AllDigits(digits) then None
    else
      var magnitude: int := DigitsValue(digits);
      var v := if core[0] == '-' then -magnitude else magnitude;
      if InInt32(v) then Some(v) else None
  }

  /** The value of `digits` under an optional sign (`""`, `"+"` or `"-"`). */
  function SignedValue(sign: string, digits: string): int
    requires AllDigits(digits)
  {
    var m: int := DigitsValue(digits);
    if sign == "-" then -m else m
  }

  /** Shortest decimal rendering of a natural number. */
  function Decimal(n: nat): (s: string)
    ensures |s| > 0 && AllDigits(s)
  {
    if n < 10 then [DigitChar(n)] else Decimal(n / 10) + [DigitChar(n % 10)]
  }

  /** `int.ToString()` in the invariant culture, for any integer. */
  function Render(n: int): string {
    if n < 0 then "-" + Decimal(-n) else Decimal(n)
  }

  lemma {:induction false} DecimalValue(n: nat)
    ensures DigitsValue(Decimal(n)) == n
  {
    if n >= 10 {
      var s := Decimal(n);
      assert s[..|s| - 1] == Decimal(n / 10);
      DecimalValue(n / 10);
    }
  }

  lemma TrimRender(n: int)
    ensures TrimEnd(TrimStart(Render(n))) == Render(n)
  {
    var s := Render(n);
    assert !IsNumberWhite(s[0]);
    assert TrimStart(s) == s;
    assert !IsNumberWhite(s[|s| - 1]);
  }

  /** Parsing a rendered integer gives it back exactly when it fits in 32
      bits; an out-of-range rendering is rejected rather than wrapped. */
  lemma ParseRender(n: int)
    ensures ParseInt32(Some(Render(n))) == if InInt32(n) then Some(n) else None
  {
    TrimRender(n);
    ParseTrimmedRender(n);
  }

  lemma ParseTrimmedRender(n: int)
    ensures ParseTrimmed(Render(n)) == if InInt32(n) then Some(n) else None
  {
    if n < 0 {
      DecimalValue(-n);
      ParseSignedValue("-", Decimal(-n), n);
    } else {
      DecimalValue(n);
      assert Render(n) == "" + Decimal(n);
      ParseSignedValue("", Decimal(n), n);
    }
  }

  lemma ParseSignedValue(sign: string, digits: string, v: int)
    requires sign == "" || sign == "-" || sign == "+"
    requires |digits| > 0 && AllDigits(digits)
    requires v == SignedValue(sign, digits)
    ensures ParseTrimmed(sign + digits) == if InInt32(v) then Some(v) else None
  {
    var core := sign + digits;
    if sign == "-" {
      assert core[0] == '-' && core[1..] == digits;
    } else if sign == "+" {
      assert core[0] == '+' && core[1..] == digits;
    } else {
      assert core == digits;
      assert IsDigit(core[0]) && core[0] != '-' && core[0] != '+';
    }
    assert Unsigned(core) == digits;
  }

  lemma {:induction false} TrimStartWhitePrefix(w: string, s: string)
    requires AllNumberWhite(w)
    ensures TrimStart(w + s) == TrimStart(s)
  {
    if |w| > 0 {
      assert (w + s)[1..] == w[1..] + s;
      TrimStartWhitePrefix(w[1..], s);
    } else {
      assert w + s == s;
    }
  }

  lemma {:induction false} TrimEndWhiteSuffix(s: string, w: string)
    requires AllNumberWhite(w)
    ensures TrimEnd(s + w) == TrimEnd(s)
  {
    if |w| > 0 {
      assert (s + w)[..|s + w| - 1] == s + w[..|w| - 1];
      TrimEndWhiteSuffix(s, w[..|w| - 1]);
    } else {
      assert s + w == s;
    }
  }

  /** Trimming the start of `s + w` either trims into `s` and keeps `w`, or
      swallows all of `s` when `s` is nothing but white space. */
  lemma {:induction false} TrimStartAppend(s: string, w: string)
    ensures AllNumberWhite(s) ==> TrimStart(s + w) == TrimStart(w)
    ensures !AllNumberWhite(s) ==> TrimStart(s + w) == TrimStart(s) + w
  {
    if |s| == 0 {
      assert s + w == w;
    } else if IsNumberWhite(s[0]) {
      assert (s + w)[0] == s[0];
      assert (s + w)[1..] == s[1..] + w;
      assert AllNumberWhite(s) <==> AllNumberWhite(s[1..]) by {
        assert forall i :: 0 < i < |s| ==> s[i] == s[1..][i - 1];
      }
      TrimStartAppend(s[1..], w);
    } else {
      assert (s + w)[0] == s[0];
    }
  }

  /** White space around the text does not change what `int.TryParse` reads. */
  lemma ParsePaddingInsensitive(lead: string, s: string, trail: string)
    requires AllNumberWhite(lead) && AllNumberWhite(trail)
    ensures ParseInt32(Some(lead + s + trail)) == ParseInt32(Some(s))
  {
    assert lead + s + trail == lead + (s + trail);
    TrimStartWhitePrefix(lead, s + trail);
    TrimStartAppend(s, trail);
    if AllNumberWhite(s) {
      TrimStartWhitePrefix(s, "");
      assert s + "" == s;
      TrimStartWhitePrefix(trail, "");
      assert trail + "" == trail;
    } else {
      TrimEndWhiteSuffix(TrimStart(s), trail);
    }
  }

  /** Every text of the form white space, optional sign, one or more
      digits, white space is read as its signed value when that fits in 32
      bits, and rejected when it does not. */
  lemma {:induction false} ParseSignedDigits(lead: string, sign: string, digits: string, trail: string)
    requires AllNumberWhite(lead) && AllNumberWhite(trail)
    requires sign == "" || sign == "+" || sign == "-"
    requires |digits| > 0 && AllDigits(digits)
    ensures var v := SignedValue(sign, digits);
            ParseInt32(Some(lead + sign + digits + trail)) == if InInt32(v) then Some(v) else None
  {
    var core := sign + digits;
    assert lead + sign + digits + trail == lead + core + trail;
    ParsePaddingInsensitive(lead, core, trail);
    SignedDigitsUntrimmed(sign, digits, core);
    ParseSignedValue(sign, digits, SignedValue(sign, digits));
  }

  /** An optional sign followed by digits has no white space to trim. */
  lemma {:induction false} SignedDigitsUntrimmed(sign: string, digits: string, core: string)
    requires sign == "" || sign == "+" || sign == "-"
    requires |digits| > 0 && AllDigits(digits)
    requires core == sign + digits
    ensures TrimEnd(TrimStart(core)) == core
  {
    assert !IsNumberWhite(core[0]) by {
      if sign == "" { assert core[0] == digits[0]; }
    }
    assert TrimStart(core) == core;
    assert core[|core| - 1] == digits[|digits| - 1];
  }

  /** Conversely, every text `int.TryParse` accepts has that form.  With
      `trimmed` the text without its leading white space and `core` that
      without its trailing white space: the text is white space, an optional
      sign, one or more digits and white space, and the value read is the
      signed value of the digits.  So text with any other character in it,
      or with no digit, is rejected. */
  lemma {:induction false} ParseInt32Accepted(s: string, trimmed: string, core: string)
    requires trimmed == TrimStart(s) && core == TrimEnd(trimmed)
    ensures ParseInt32(Some(s)).Some? ==>
              var lead := |s| - |trimmed|;
              var digits := Unsigned(core);
              var sign := core[..|core| - |digits|];
              && lead + |core| <= |s|
              && AllNumberWhite(s[..lead])
              && s[lead..lead + |core|] == sign + digits
              && AllNumberWhite(s[lead + |core|..])
              && (sign == "" || sign == "+" || sign == "-")
              && |digits| > 0 && AllDigits(digits)
              && ParseInt32(Some(s)).value == SignedValue(sign, digits)
  {
    if ParseInt32(Some(s)).Some? {
      assert ParseInt32(Some(s)) == ParseTrimmed(core);
      SplitAround(s, trimmed, core);
      SignSplit(core);
    }
  }

  /** `ParseInt32Accepted` for a text alone: every accepted text splits at
      some `i <= j <= k` into white space `s[..i]`, a sign `s[i..j]` that is
      empty, "+" or "-", one or more digits `s[j..k]` and white space
      `s[k..]`, and the value read is the signed value of those digits. */
  lemma {:induction false} ParseInt32AcceptedShape(s: string)
    ensures ParseInt32(Some(s)).Some? ==> AcceptedShape(s, ParseInt32(Some(s)).value)
  {
    var trimmed := TrimStart(s);
    var core := TrimEnd(trimmed);
    var r := ParseInt32(Some(s));
    assert r == ParseTrimmed(core);
    if r.Some? {
      TrimmedShape(s, trimmed, core, r.value);
    }
  }

  /** The shape of a text that is white space, a `core` that `ParseTrimmed`
      reads as `v`, and white space; `trimmed` is the text from `core` on. */
  lemma {:induction false} TrimmedShape(s: string, trimmed: string, core: string, v: int)
    requires |trimmed| <= |s| && trimmed == s[|s| - |trimmed|..] && AllNumberWhite(s[..|s| - |trimmed|])
    requires |core| <= |trimmed| && core == trimmed[..|core|] && AllNumberWhite(trimmed[|core|..])
    requires ParseTrimmed(core) == Some(v)
    ensures AcceptedShape(s, v)
  {
    var lead := |s| - |trimmed|;
    var digits := Unsigned(core);
    var sign := core[..|core| - |digits|];
    assert lead + |core| <= |s| && AllNumberWhite(s[..lead])
        && s[lead..lead + |core|] == core && AllNumberWhite(s[lead + |core|..]) by {
      SplitAround(s, trimmed, core);
    }
    assert && core == sign + digits && (sign == "" || sign == "+" || sign == "-")
           && |digits| > 0 && AllDigits(digits) && v == SignedValue(sign, digits) by {
      SignSplit(core);
    }
    ShapeWitness(s, lead, core, sign, digits, v);
  }

  /** `s` splits at some `i <= j < k` into white space `s[..i]`, a sign
      `s[i..j]` that is empty, "+" or "-", one or more digits `s[j..k]` and
      white space `s[k..]`, whose signed value is `v`. */
  predicate AcceptedShape(s: string, v: int) {
    exists i, j, k :: 0 <= i <= j < k <= |s|
      && AllNumberWhite(s[..i])
      && (s[i..j] == "" || s[i..j] == "+" || s[i..j] == "-")
      && AllDigits(s[j..k])
      && AllNumberWhite(s[k..])
      && v == SignedValue(s[i..j], s[j..k])
  }

  lemma {:induction false} ShapeWitness(s: string, lead: nat, core: string, sign: string, digits: string, v: int)
    requires lead + |core| <= |s|
    requires AllNumberWhite(s[..lead]) && s[lead..lead + |core|] == core && AllNumberWhite(s[lead + |core|..])
    requires core == sign + digits
    requires sign == "" || sign == "+" || sign == "-"
    requires |digits| > 0 && AllDigits(digits)
    requires v == SignedValue(sign, digits)
    ensures AcceptedShape(s, v)
  {
    var i, j, k := lead, lead + |sign|, lead + |core|;
    assert s[i..j] == core[..|sign|] == sign;
    assert s[j..k] == core[|sign|..] == digits;
  }

  /** `s` is its leading white space (`s[..lead]`), the `core` left after
      trimming, and its trailing white space. */
  lemma {:induction false} SplitAround(s: string, trimmed: string, core: string)
    requires |trimmed| <= |s| && trimmed == s[|s| - |trimmed|..] && AllNumberWhite(s[..|s| - |trimmed|])
    requires |core| <= |trimmed| && core == trimmed[..|core|] && AllNumberWhite(trimmed[|core|..])
    ensures var lead := |s| - |trimmed|;
            && lead + |core| <= |s|
            && AllNumberWhite(s[..lead]) && s[lead..lead + |core|] == core && AllNumberWhite(s[lead + |core|..])
  {
    var lead := |s| - |trimmed|;
    assert s[lead + |core|..] == trimmed[|core|..];
  }

  /** A core that `ParseTrimmed` accepts is an optional sign followed by its
      digits, and the value read is their signed value. */
  lemma {:induction false} SignSplit(core: string)
    requires ParseTrimmed(core).Some?
    ensures var digits := Unsigned(core);
            var sign := core[..|core| - |digits|];
            && core == sign + digits
            && (sign == "" || sign == "+" || sign == "-")
            && |digits| > 0 && AllDigits(digits)
            && ParseTrimmed(core).value == SignedValue(sign, digits)
  {
    var digits := Unsigned(core);
    var sign := core[..|core| - |digits|];
    if |core| > 0 && (core[0] == '-' || core[0] == '+') {
      assert sign == [core[0]];
      assert core == sign + digits;
    } else {
      assert sign == "";
      assert core == sign + digits;
    }
  }
}
