/** Decimal and hexadecimal numerals: reading them the way Python's `int`
  does, and writing them the way `str(n)` and the `U+XXXX` notation do.
 */
module Numbers {
  import opened Results
  import opened Text

  predicate IsDigit(c: char) {
    '0' <= c <= '9'
  }

  predicate IsHexDigit(c: char) {
    IsDigit(c) || ('a' <= c <= 'f') || ('A' <= c <= 'F')
  }

  predicate AllDigits(s: string) {
    forall i :: 0 <= i < |s| ==> IsDigit(s[i])
  }

  predicate AllHexDigits(s: string) {
    forall i :: 0 <= i < |s| ==> IsHexDigit(s[i])
  }

  function DigitValue(c: char): nat
    requires IsHexDigit(c)
  {
    if IsDigit(c) then c as int - '0' as int
    else if 'a' <= c <= 'f' then c as int - 'a' as int + 10
    else c as int - 'A' as int + 10
  }

  /** The value of a numeral in base `base`, most significant digit first. */
  function Value(ds: string, base: nat): nat
    requires AllHexDigits(ds)
  {
    if |ds| == 0 then 0
    else Value(ds[..|ds| - 1], base) * base + DigitValue(ds[|ds| - 1])
  }

  function DecimalValue(ds: string): nat
    requires AllDigits(ds)
  {
    Value(ds, 10)
  }

  function HexValue(ds: string): nat
    requires AllHexDigits(ds)
  {
    Value(ds, 16)
  }

  /** The digit for `d`; letters are upper-case, as in `U+4E00`. */
  function UpperDigit(d: nat): (c: char)
    requires d < 16
    ensures IsHexDigit(c) && DigitValue(c) == d
    ensures d < 10 ==> IsDigit(c)
  {
    if d < 10 then ('0' as int + d) as char else ('A' as int + d - 10) as char
  }

  /** Appending a digit multiplies by the base and adds the digit. */
  lemma ValueSnoc(ds: string, c: char, base: nat)
    requires AllHexDigits(ds) && IsHexDigit(c)
    ensures AllHexDigits(ds + [c])
    ensures Value(ds + [c], base) == Value(ds, base) * base + DigitValue(c)
  {
    assert (ds + [c])[..|ds|] == ds;
  }

  /** `str(n)` for a natural number: its shortest decimal numeral. */
  function ShowNat(n: nat): (r: string)
    ensures |r| > 0 && AllDigits(r)
    ensures DecimalValue(r) == n
    ensures r[0] == '0' ==> r == "0"
  {
    if n < 10 then
      ValueSnoc("", UpperDigit(n), 10);
      assert "" + [UpperDigit(n)] == [UpperDigit(n)];
      [UpperDigit(n)]
    else
      var prefix := ShowNat(n / 10);
      ValueSnoc(prefix, UpperDigit(n % 10), 10);
      prefix + [UpperDigit(n % 10)]
  }

  /** `str(n)` for an integer, which is also how `json.dumps` writes it. */
  function ShowInt(n: int): string {
    if n < 0 then "-" + ShowNat(-n) else ShowNat(n)
  }

  /** The shortest hexadecimal numeral of `n`, upper-case. */
  function ShowHex(n: nat): (r: string)
    ensures |r| > 0 && AllHexDigits(r)
    ensures HexValue(r) == n
  {
    if n < 16 then
      ValueSnoc("", UpperDigit(n), 16);
      assert "" + [UpperDigit(n)] == [UpperDigit(n)];
      [UpperDigit(n)]
    else
      var prefix := ShowHex(n / 16);
      ValueSnoc(prefix, UpperDigit(n % 16), 16);
      prefix + [UpperDigit(n % 16)]
  }

  /** A leading zero does not change the value of a numeral. */
  lemma {:induction false} ValueLeadingZero(ds: string, base: nat)
    requires AllHexDigits(ds)
    ensures AllHexDigits("0" + ds)
    ensures Value("0" + ds, base) == Value(ds, base)
    decreases |ds|
  {
    var z := "0" + ds;
    if |ds| > 0 {
      assert z[..|z| - 1] == "0" + ds[..|ds| - 1];
      ValueLeadingZero(ds[..|ds| - 1], base);
    }
  }

  /** Left-pads a numeral with zeros to at least `width` digits. */
  function PadZeros(ds: string, width: nat): (r: string)
    requires AllHexDigits(ds)
    ensures AllHexDigits(r) && |r| >= |ds| && |r| >= width
    ensures forall base: nat :: Value(r, base) == Value(ds, base)
    decreases width - |ds|
  {
    if |ds| >= width then ds
    else
      ValueLeadingZeroAll(ds);
      PadZeros("0" + ds, width)
  }

  lemma ValueLeadingZeroAll(ds: string)
    requires AllHexDigits(ds)
    ensures AllHexDigits("0" + ds)
    ensures forall base: nat :: Value("0" + ds, base) == Value(ds, base)
  {
    forall base: nat ensures Value("0" + ds, base) == Value(ds, base) {
      ValueLeadingZero(ds, base);
    }
  }

  /** The whitespace `int` skips around the numeral of an ASCII text: tab,
      line feed, vertical tab, form feed, carriage return and space. Unlike
      `str.split()`, it does not skip the separators U+001C..U+001F. */
  predicate IsIntSpace(c: char) {
    var n := c as int;
    (9 <= n <= 13) || n == 32
  }

  predicate AllIntSpace(s: string) {
    forall i :: 0 <= i < |s| ==> IsIntSpace(s[i])
  }

  /** The text `int` reads: `s` without the whitespace it skips at either end. */
  function IntStrip(s: string): (r: string)
    ensures |r| <= |s|
    ensures |r| == 0 || (!IsIntSpace(r[0]) && !IsIntSpace(r[|r| - 1]))
    decreases |s|
  {
    if |s| > 0 && IsIntSpace(s[0]) then IntStrip(s[1..])
    else if |s| > 0 && IsIntSpace(s[|s| - 1]) then IntStrip(s[..|s| - 1])
    else s
  }

  /** `r` sits in `s` at offset `k` with only skipped whitespace around it. */
  predicate MiddleAt(s: string, r: string, k: nat) {
    k + |r| <= |s| && r == s[k..k + |r|] && AllIntSpace(s[..k]) && AllIntSpace(s[k + |r|..])
  }

  /** What stripping keeps is a middle part of the text with only skipped
      whitespace on either side. */
  lemma {:induction false} IntStripParts(s: string)
    ensures exists k :: MiddleAt(s, IntStrip(s), k)
    decreases |s|
  {
    var r := IntStrip(s);
    if |s| > 0 && IsIntSpace(s[0]) {
      IntStripParts(s[1..]);
      var k :| MiddleAt(s[1..], r, k);
      MiddleAtCons(s, r, k);
    } else if |s| > 0 && IsIntSpace(s[|s| - 1]) {
      IntStripParts(s[..|s| - 1]);
      var k :| MiddleAt(s[..|s| - 1], r, k);
      MiddleAtSnoc(s, r, k);
    } else {
      assert s[..0] == "" && s[|s|..] == "" && s[0..|s|] == s;
      assert MiddleAt(s, r, 0);
    }
  }

  lemma MiddleAtCons(s: string, r: string, k: nat)
    requires |s| > 0 && IsIntSpace(s[0]) && MiddleAt(s[1..], r, k)
    ensures MiddleAt(s, r, k + 1)
  {
    assert s[k + 1..k + 1 + |r|] == s[1..][k..k + |r|];
    assert s[..k + 1] == [s[0]] + s[1..][..k];
    assert s[k + 1 + |r|..] == s[1..][k + |r|..];
  }

  lemma MiddleAtSnoc(s: string, r: string, k: nat)
    requires |s| > 0 && IsIntSpace(s[|s| - 1]) && MiddleAt(s[..|s| - 1], r, k)
    ensures MiddleAt(s, r, k)
  {
    var u := s[..|s| - 1];
    assert s[k..k + |r|] == u[k..k + |r|];
    assert s[..k] == u[..k];
    assert s[k + |r|..] == u[k + |r|..] + [s[|s| - 1]];
  }

  /** Stripping removes exactly the whitespace around the text and nothing else. */
  lemma {:induction false} IntStripSurrounded(pre: string, t: string, post: string)
    requires AllIntSpace(pre) && AllIntSpace(post)
    requires |t| == 0 || (!IsIntSpace(t[0]) && !IsIntSpace(t[|t| - 1]))
    ensures IntStrip(pre + t + post) == t
    decreases |pre|
  {
    var s := pre + t + post;
    if |pre| > 0 {
      assert s[0] == pre[0];
      assert s[1..] == pre[1..] + t + post;
      IntStripSurrounded(pre[1..], t, post);
    } else {
      assert s == t + post;
      IntStripTrailing(t, post);
    }
  }

  lemma {:induction false} IntStripTrailing(t: string, post: string)
    requires AllIntSpace(post)
    requires |t| == 0 || (!IsIntSpace(t[0]) && !IsIntSpace(t[|t| - 1]))
    ensures IntStrip(t + post) == t
    decreases |post|
  {
    var s := t + post;
    if |post| == 0 {
      assert s == t;
    } else if |t| == 0 {
      assert s == post && s[1..] == "" + post[1..];
      IntStripTrailing(t, post[1..]);
    } else {
      assert s[0] == t[0] && s[|s| - 1] == post[|post| - 1];
      assert s[..|s| - 1] == t + post[..|post| - 1];
      IntStripTrailing(t, post[..|post| - 1]);
    }
  }

  /** The numeral Python's `int` reads after stripping: an optional sign, then digits. */
  predicate IsIntLiteral(t: string) {
    var digits := if |t| > 0 && (t[0] == '+' || t[0] == '-') then t[1..] else t;
    |digits| > 0 && AllDigits(digits)
  }

  /** `int(s)` on a string: surrounding whitespace is ignored, an optional
      sign is honoured, anything else is an error quoting the whole text. */
  function ParseInt(s: string): (r: Result<int>)
    ensures r.Ok? <==> IsIntLiteral(IntStrip(s))
    ensures r.Ok? ==> ReadLiteral(IntStrip(s)) == Some(r.value)
    ensures r.Err? ==> r.error == InvalidInt(s)
  {
    match ReadLiteral(IntStrip(s))
    case Some(n) => Ok(n)
    case None => Err(InvalidInt(s))
  }

  /** The value of a stripped integer literal. */
  function ReadLiteral(t: string): (r: Option<int>)
    ensures r.Some? <==> IsIntLiteral(t)
  {
    var negative := |t| > 0 && t[0] == '-';
    var digits := if |t| > 0 && (t[0] == '+' || t[0] == '-') then t[1..] else t;
    if |digits| > 0 && AllDigits(digits) then
      var n: int := DecimalValue(digits);
      Some(if negative then -n else n)
    else None
  }

  /** Every literal is an optional sign followed by digits; its value is the
      digits' decimal value, negated after a minus sign, leading zeros and
      all. */
  lemma ReadSignedDigits(sign: string, digits: string)
    requires sign == "" || sign == "+" || sign == "-"
    requires |digits| > 0 && AllDigits(digits)
    ensures ReadLiteral(sign + digits)
         == Some(if sign == "-" then -(DecimalValue(digits) as int) else DecimalValue(digits) as int)
  {
    var t := sign + digits;
    if sign == "" {
      assert t == digits;
    } else {
      assert t[0] == sign[0] && t[1..] == digits;
    }
  }

  lemma ReadShownLiteral(n: int)
    ensures ReadLiteral(ShowInt(n)) == Some(n)
  {
    var shown := ShowInt(n);
    if n < 0 {
      assert shown[1..] == ShowNat(-n);
    } else {
      assert IsDigit(shown[0]);
    }
  }

  /** `int` on whitespace, an optional sign, digits and whitespace gives the
      signed decimal value of the digits. */
  lemma ParseSignedDigits(pre: string, sign: string, digits: string, post: string)
    requires AllIntSpace(pre) && AllIntSpace(post)
    requires sign == "" || sign == "+" || sign == "-"
    requires |digits| > 0 && AllDigits(digits)
    ensures ParseInt(pre + (sign + digits) + post)
         == Ok(if sign == "-" then -(DecimalValue(digits) as int) else DecimalValue(digits) as int)
  {
    var t := sign + digits;
    assert t[0] == (if sign == "" then digits[0] else sign[0]);
    assert IsDigit(t[|t| - 1]);
    IntStripSurrounded(pre, t, post);
    ReadSignedDigits(sign, digits);
  }

  /** Zero-padded numerals, as in the database's telegraph codes (`0001`),
      read as their value. */
  lemma ParsePaddedInt(pre: string, sign: string, n: nat, width: nat, post: string)
    requires AllIntSpace(pre) && AllIntSpace(post)
    requires sign == "" || sign == "+" || sign == "-"
    ensures ParseInt(pre + (sign + PadZeros(ShowNat(n), width)) + post) == Ok(if sign == "-" then -(n as int) else n as int)
  {
    var digits := PadZeros(ShowNat(n), width);
    assert AllDigits(digits) by {
      PadZerosDigits(ShowNat(n), width);
    }
    assert DecimalValue(digits) == n;
    ParseSignedDigits(pre, sign, digits, post);
  }

  /** Padding decimal digits with zeros keeps them decimal. */
  lemma {:induction false} PadZerosDigits(ds: string, width: nat)
    requires AllDigits(ds)
    ensures AllDigits(PadZeros(ds, width))
    decreases width - |ds|
  {
    if |ds| < width {
      PadZerosDigits("0" + ds, width);
    }
  }

  /** `int` reads back what `str` writes, whatever whitespace surrounds it. */
  lemma ParseShowInt(pre: string, n: int, post: string)
    requires AllIntSpace(pre) && AllIntSpace(post)
    ensures ParseInt(pre + ShowInt(n) + post) == Ok(n)
  {
    var shown := ShowInt(n);
    var digits := ShowNat(if n < 0 then -n else n);
    assert shown == if n < 0 then "-" + digits else digits;
    assert IsDigit(digits[0]) && IsDigit(digits[|digits| - 1]);
    assert !IsIntSpace(shown[0]) && !IsIntSpace(shown[|shown| - 1]);
    IntStripSurrounded(pre, shown, post);
    ReadShownLiteral(n);
  }
}
