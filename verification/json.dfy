/** The JSON text `json.dumps(value, ensure_ascii=False)` produces for the
  values the converter emits: strings, integers, lists and dictionaries
  with string keys, written with the default separators `", "` and `": "`.
 */
module Json {
  import opened Text
  import opened Numbers

  datatype Json =
    | JString(text: string)
    | JInt(number: int)
    | JArray(items: seq<Json>)
    | JObject(members: seq<(string, Json)>)

  /** Characters below U+0020, which JSON strings may not hold literally. */
  predicate IsControl(c: char) {
    c as int < 0x20
  }

  /** Text with no control character in it, so in particular on one line. */
  predicate NoControl(s: string) {
    forall i :: 0 <= i < |s| ==> !IsControl(s[i])
  }

  /** Lower-case hex digit, as the `\u00XX` escapes are written. */
  function LowerDigit(d: nat): (c: char)
    requires d < 16
    ensures IsHexDigit(c) && DigitValue(c) == d
  {
    if d < 10 then ('0' as int + d) as char else ('a' as int + d - 10) as char
  }

  /** How one character of a string is written: the two-character escapes
      for quote, backslash, backspace, form feed, newline, carriage return
      and tab, `\u00XX` for the remaining control characters, and any other
      character (non-ASCII included) as itself. */
  function EscapeChar(c: char): (r: string)
    ensures |r| > 0 && r[0] != '"' && NoControl(r)
  {
    if c == '"' then "\\\""
    else if c == '\\' then "\\\\"
    else if c as int == 0x08 then "\\b"
    else if c as int == 0x0C then "\\f"
    else if c == '\n' then "\\n"
    else if c == '\r' then "\\r"
    else if c == '\t' then "\\t"
    else if IsControl(c) then "\\u00" + [LowerDigit(c as int / 16), LowerDigit(c as int % 16)]
    else [c]
  }

  function Escape(s: string): string {
    if |s| == 0 then "" else EscapeChar(s[0]) + Escape(s[1..])
  }

  /** A string as a JSON string literal. */
  function Quote(s: string): (r: string)
    ensures |r| >= 2 && r[0] == '"' 
  {
    "\"" + Escape(s) + "\""
  }

  /** `json.dumps(j, ensure_ascii=False)`: starts with the character that
      announces the kind of value. */
  function Dumps(j: Json): (r: string)
    ensures |r| > 0
    ensures j.JString? ==> r[0] == '"'
    ensures j.JInt? ==> r[0] == '-' || IsDigit(r[0])
    ensures j.JArray? ==> r[0] == '['
    ensures j.JObject? ==> r[0] == '{'
    decreases j, 1
  {
    match j
    case JString(s) => Quote(s)
    case JInt(n) =>
      var digits := ShowNat(if n < 0 then -n else n);
      assert IsDigit(digits[0]);
      ShowInt(n)
    case JArray(items) => "[" + DumpsItems(items) + "]"
    case JObject(members) => "{" + MembersText(members, ": ", ", ") + "}"
  }

  /** The elements of a list, separated by `", "`. */
  function DumpsItems(items: seq<Json>): string
    decreases items
  {
    if |items| == 0 then ""
    else if |items| == 1 then Dumps(items[0])
    else Dumps(items[0]) + ", " + DumpsItems(items[1..])
  }

  /** `"key" colon value` pairs separated by `comma`: the inside of a
      dictionary as `json.dumps` writes it (colon `": "`, comma `", "`),
      and equally the inside of a converter output document. */
  function MembersText(members: seq<(string, Json)>, colon: string, comma: string): string
    decreases members
  {
    if |members| == 0 then ""
    else
      var pair := members[0];
      assert pair in members && pair.1 < pair;
      var member := Quote(pair.0) + colon + Dumps(pair.1);
      if |members| == 1 then member
      else member + comma + MembersText(members[1..], colon, comma)
  }

  lemma NoControlConcat(a: string, b: string)
    requires NoControl(a) && NoControl(b)
    ensures NoControl(a + b)
  {
    forall i | 0 <= i < |a + b| ensures !IsControl((a + b)[i]) {
      if i >= |a| { assert (a + b)[i] == b[i - |a|]; }
    }
  }

  lemma {:induction false} EscapeNoControl(s: string)
    ensures NoControl(Escape(s))
    decreases |s|
  {
    if |s| > 0 {
      EscapeNoControl(s[1..]);
      NoControlConcat(EscapeChar(s[0]), Escape(s[1..]));
    }
  }

  lemma QuoteNoControl(s: string)
    ensures NoControl(Quote(s))
  {
    EscapeNoControl(s);
    NoControlConcat("\"", Escape(s));
    NoControlConcat("\"" + Escape(s), "\"");
  }

  /** What `json.dumps` writes never holds a control character, so in
      particular never spans lines: every control character in a string
      is escaped. */
  lemma {:induction false} DumpsNoControl(j: Json)
    ensures NoControl(Dumps(j))
    decreases j, 1
  {
    match j
    case JString(s) => QuoteNoControl(s);
    case JInt(n) =>
      var digits := ShowNat(if n < 0 then -n else n);
      assert forall i :: 0 <= i < |digits| ==> IsDigit(digits[i]);
      if n < 0 { NoControlConcat("-", digits); }
    case JArray(items) =>
      DumpsItemsNoControl(items);
      NoControlConcat("[", DumpsItems(items));
      NoControlConcat("[" + DumpsItems(items), "]");
    case JObject(members) =>
      MembersTextNoControl(members, ": ", ", ");
      NoControlConcat("{", MembersText(members, ": ", ", "));
      NoControlConcat("{" + MembersText(members, ": ", ", "), "}");
  }

  lemma {:induction false} DumpsItemsNoControl(items: seq<Json>)
    ensures NoControl(DumpsItems(items))
    decreases items
  {
    if |items| == 1 {
      DumpsNoControl(items[0]);
    } else if |items| > 1 {
      DumpsNoControl(items[0]);
      DumpsItemsNoControl(items[1..]);
      NoControlConcat(Dumps(items[0]), ", ");
      NoControlConcat(Dumps(items[0]) + ", ", DumpsItems(items[1..]));
    }
  }

  /** Members written with separators free of control characters are free of them too. */
  lemma {:induction false} MembersTextNoControl(members: seq<(string, Json)>, colon: string, comma: string)
    requires NoControl(colon) && NoControl(comma)
    ensures NoControl(MembersText(members, colon, comma))
    decreases members
  {
    if |members| > 0 {
      var pair := members[0];
      assert pair in members && pair.1 < pair;
      QuoteNoControl(pair.0);
      DumpsNoControl(pair.1);
      NoControlConcat(Quote(pair.0), colon);
      NoControlConcat(Quote(pair.0) + colon, Dumps(pair.1));
      if |members| > 1 {
        var member := Quote(pair.0) + colon + Dumps(pair.1);
        MembersTextNoControl(members[1..], colon, comma);
        NoControlConcat(member, comma);
        NoControlConcat(member + comma, MembersText(members[1..], colon, comma));
      }
    }
  }
}
