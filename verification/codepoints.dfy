/** Decoding of the `U+XXXX` code-point notation used throughout the
  Unihan database: one token, or a whitespace-separated list of them.
 */
module Codepoints {
  import opened Results
  import opened Text
  import opened Numbers

  /** Code points that are Unicode scalar values, the values a `char` holds. */
  predicate IsScalar(n: int) {
    (0 <= n < 0xD800) || (0xE000 <= n < 0x11_0000)
  }

  /** The largest value `chr` accepts as a C `int`; a larger one overflows. */
  const IntMax := 0x7FFF_FFFF

  /** Where the notation's digit run may end: at the end of the token, or
      just before a single line feed that ends it (the `$` anchor of the
      pattern also matches there). */
  function DropFinalNewline(s: string): (r: string)
    ensures s == r || s == r + "\n"
  {
    if |s| > 0 && s[|s| - 1] == '\n' then s[..|s| - 1] else s
  }

  /** `parse_unicode_point`: `U+` and one or more hex digits of either case,
      naming the character with that code point. A token of the right shape
      whose value exceeds `IntMax` makes `chr` overflow. */
  function ParseUnicodePoint(token: string): (r: Result<char>)
    ensures r.Err? ==> r.error == InvalidUnicodePoint(token) || r.error == CodePointOverflow(token)
    ensures r.Ok? ==>
      exists digits :: |digits| > 0 && AllHexDigits(digits)
        && (token == "U+" + digits || token == "U+" + digits + "\n")
        && HexValue(digits) == r.value as int
    ensures r == Err(CodePointOverflow(token)) ==>
      exists digits :: |digits| > 0 && AllHexDigits(digits)
        && (token == "U+" + digits || token == "U+" + digits + "\n")
        && HexValue(digits) > IntMax
  {
    if |token| >= 2 && token[..2] == "U+" then
      var digits := DropFinalNewline(token[2..]);
      if |digits| > 0 && AllHexDigits(digits) then
        assert token == "U+" + token[2..];
        if IsScalar(HexValue(digits)) then Ok(HexValue(digits) as char)
        else if HexValue(digits) > IntMax then Err(CodePointOverflow(token))
        else Err(InvalidUnicodePoint(token))
      else Err(InvalidUnicodePoint(token))
    else Err(InvalidUnicodePoint(token))
  }

  /** The notation the database writes: `U+` and at least four upper-case hex digits. */
  function ShowUnicodePoint(c: char): string {
    "U+" + PadZeros(ShowHex(c as int), 4)
  }

  /** Every well-formed token is accepted, whatever the case of its digits,
      and yields the character with that code point. */
  lemma ParseNotation(digits: string, newline: bool)
    requires |digits| > 0 && AllHexDigits(digits)
    requires IsScalar(HexValue(digits))
    ensures ParseUnicodePoint("U+" + digits + (if newline then "\n" else "")) == Ok(HexValue(digits) as char)
  {
    var token := "U+" + digits + (if newline then "\n" else "");
    assert token[..2] == "U+";
    var tail := token[2..];
    assert tail == digits + (if newline then "\n" else "");
    if newline {
      assert tail[..|tail| - 1] == digits;
    } else {
      assert IsHexDigit(tail[|tail| - 1]);
    }
    assert DropFinalNewline(tail) == digits;
  }

  /** A well-formed token naming a value beyond `IntMax` overflows `chr`. */
  lemma ParseOverflow(digits: string, newline: bool)
    requires |digits| > 0 && AllHexDigits(digits)
    requires HexValue(digits) > IntMax
    ensures ParseUnicodePoint("U+" + digits + (if newline then "\n" else "")) == Err(CodePointOverflow("U+" + digits + (if newline then "\n" else "")))
  {
    var token := "U+" + digits + (if newline then "\n" else "");
    assert token[..2] == "U+";
    var tail := token[2..];
    assert tail == digits + (if newline then "\n" else "");
    if newline {
      assert tail[..|tail| - 1] == digits;
    } else {
      assert IsHexDigit(tail[|tail| - 1]);
    }
    assert DropFinalNewline(tail) == digits;
  }

  /** Decoding the database's own notation gives back the character. */
  lemma ParseShowUnicodePoint(c: char)
    ensures ParseUnicodePoint(ShowUnicodePoint(c)) == Ok(c)
  {
    var digits := PadZeros(ShowHex(c as int), 4);
    assert HexValue(digits) == c as int;
    ParseNotation(digits, false);
    assert "U+" + digits + "" == ShowUnicodePoint(c);
  }

  /** `parse_unicode_points`: one character per whitespace-separated token,
      in order; any bad token fails the whole list. The first bad token
      decides the error: the handler catches only `ValueError`, so it quotes
      the entire input unless that token overflowed, which passes through. */
  function ParseUnicodePoints(text: string): (r: Result<seq<char>>)
    ensures r.Ok? <==> forall i :: 0 <= i < |Split(text)| ==> ParseUnicodePoint(Split(text)[i]).Ok?
    ensures r.Ok? ==> |r.value| == |Split(text)|
    ensures r.Ok? ==> forall i :: 0 <= i < |r.value| ==> ParseUnicodePoint(Split(text)[i]) == Ok(r.value[i])
    ensures r.Err? ==>
      exists k :: FirstBadToken(Split(text), k) && r.error == ListError(text, Split(text)[k])
    ensures AllSpace(text) ==> r == Ok([])
  {
    match MapAll(ParseUnicodePoint, Split(text))
    case Ok(cs) => Ok(cs)
    case Err(CodePointOverflow(token)) => Err(CodePointOverflow(token))
    case Err(_) => Err(InvalidUnicodePoints(text))
  }

  /** The error a bad token makes the list parser raise. */
  function ListError(text: string, token: string): Error
    requires ParseUnicodePoint(token).Err?
  {
    if ParseUnicodePoint(token).error.CodePointOverflow? then ParseUnicodePoint(token).error
    else InvalidUnicodePoints(text)
  }

  /** `tokens[k]` is the first token that does not decode. */
  predicate FirstBadToken(tokens: seq<string>, k: int) {
    0 <= k < |tokens| && ParseUnicodePoint(tokens[k]).Err?
    && forall j :: 0 <= j < k ==> ParseUnicodePoint(tokens[j]).Ok?
  }

  /** Characters written in the database's notation, separated by spaces,
      decode back to the same characters in the same order. */
  lemma ParseShowUnicodePoints(cs: seq<char>)
    ensures ParseUnicodePoints(Join(seq(|cs|, i requires 0 <= i < |cs| => ShowUnicodePoint(cs[i])), " ")) == Ok(cs)
  {
    var tokens := seq(|cs|, i requires 0 <= i < |cs| => ShowUnicodePoint(cs[i]));
    forall i | 0 <= i < |tokens|
      ensures IsWord(tokens[i]) && ParseUnicodePoint(tokens[i]) == Ok(cs[i])
    {
      ShowUnicodePointWord(cs[i]);
      ParseShowUnicodePoint(cs[i]);
    }
    SplitJoin(tokens);
    ParseUnicodePointsOk(Join(tokens, " "), cs);
  }

  /** Tokens that each decode make the list decode to their characters. */
  lemma ParseUnicodePointsOk(text: string, cs: seq<char>)
    requires |Split(text)| == |cs|
    requires forall i :: 0 <= i < |cs| ==> ParseUnicodePoint(Split(text)[i]) == Ok(cs[i])
    ensures ParseUnicodePoints(text) == Ok(cs)
  {
    var r := ParseUnicodePoints(text);
    assert r.Ok?;
    assert r.value == cs;
  }

  /** The notation is a single word for `split()`. */
  lemma ShowUnicodePointWord(c: char)
    ensures IsWord(ShowUnicodePoint(c))
  {
    var digits := PadZeros(ShowHex(c as int), 4);
    forall j | 0 <= j < |digits| ensures !IsSpace(digits[j]) {
      assert IsHexDigit(digits[j]);
    }
    assert ShowUnicodePoint(c) == "U+" + digits;
  }

  /** The database's notation holds no tab. */
  lemma ShowUnicodePointNoTab(c: char)
    ensures '\t' !in ShowUnicodePoint(c)
  {
    var digits := PadZeros(ShowHex(c as int), 4);
    assert ShowUnicodePoint(c) == "U+" + digits;
    forall j | 0 <= j < |digits| ensures digits[j] != '\t' {
      assert IsHexDigit(digits[j]);
    }
  }
}
