/** A reader for JSON text, used as the partner of the writer: whatever
  `Dumps` writes, `Parse` reads back as the same value. It accepts the
  usual JSON whitespace between tokens and every string escape; numbers
  are read as an optional minus sign followed by a run of digits.
 */
module JsonRead {
  import opened Results
  import opened Numbers
  import opened Codepoints
  import opened Json

  predicate IsJsonSpace(c: char) {
    c == ' ' || c == '\t' || c == '\n' || c == '\r'
  }

  predicate AllJsonSpace(s: string) {
    forall i :: 0 <= i < |s| ==> IsJsonSpace(s[i])
  }

  /** Whatever can follow a number without being read as more of it. */
  predicate Delimited(rest: string) {
    |rest| == 0 || !IsDigit(rest[0])
  }

  function SkipSpace(s: string): (r: string)
    ensures |r| <= |s|
    ensures |r| == 0 || !IsJsonSpace(r[0])
  {
    if |s| > 0 && IsJsonSpace(s[0]) then SkipSpace(s[1..]) else s
  }

  /** Length of the leading run of decimal digits. */
  function DigitRun(s: string): (n: nat)
    ensures n <= |s| && AllDigits(s[..n])
    ensures n == |s| || !IsDigit(s[n])
  {
    if |s| == 0 || !IsDigit(s[0]) then 0
    else
      var n := DigitRun(s[1..]);
      assert s[..n + 1] == [s[0]] + s[1..][..n];
      1 + n
  }

  function ReadNumber(s: string): (r: Option<(int, string)>)
    ensures r.Some? ==> |r.value.1| < |s|
  {
    var negative := |s| > 0 && s[0] == '-';
    var body := if negative then s[1..] else s;
    var n := DigitRun(body);
    if n == 0 then None
    else
      var magnitude: int := DecimalValue(body[..n]);
      Some((if negative then -magnitude else magnitude, body[n..]))
  }

  /** One character of a string literal other than its closing quote. */
  function ReadChar(s: string): (r: Option<(char, string)>)
    ensures r.Some? ==> |r.value.1| < |s|
  {
    if |s| == 0 || s[0] == '"' || IsControl(s[0]) then None
    else if s[0] != '\\' then Some((s[0], s[1..]))
    else if |s| < 2 then None
    else
      match s[1]
      case '"' => Some(('"', s[2..]))
      case '\\' => Some(('\\', s[2..]))
      case '/' => Some(('/', s[2..]))
      case 'b' => Some((0x08 as char, s[2..]))
      case 'f' => Some((0x0C as char, s[2..]))
      case 'n' => Some(('\n', s[2..]))
      case 'r' => Some(('\r', s[2..]))
      case 't' => Some(('\t', s[2..]))
      case 'u' =>
        if |s| >= 6 && AllHexDigits(s[2..6]) && IsScalar(HexValue(s[2..6]))
        then Some((HexValue(s[2..6]) as char, s[6..]))
        else None
      case _ => None
  }

  /** The rest of a string literal after its opening quote. */
  function ReadStringBody(s: string): (r: Option<(string, string)>)
    ensures r.Some? ==> |r.value.1| < |s|
    decreases |s|
  {
    if |s| > 0 && s[0] == '"' then Some(("", s[1..]))
    else
      match ReadChar(s)
      case None => None
      case Some((c, rest)) =>
        match ReadStringBody(rest)
        case None => None
        case Some((t, after)) => Some(([c] + t, after))
  }

  function ReadValue(s: string): (r: Option<(Json, string)>)
    ensures r.Some? ==> |r.value.1| < |s|
    decreases |s|, 0
  {
    if |s| == 0 then None
    else if s[0] == '"' then
      match ReadStringBody(s[1..])
      case None => None
      case Some((t, rest)) => Some((JString(t), rest))
    else if s[0] == '[' then
      match ReadArray(s[1..])
      case None => None
      case Some((items, rest)) => Some((JArray(items), rest))
    else if s[0] == '{' then
      match ReadObject(s[1..])
      case None => None
      case Some((members, rest)) => Some((JObject(members), rest))
    else
      match ReadNumber(s)
      case None => None
      case Some((n, rest)) => Some((JInt(n), rest))
  }

  /** The rest of a list after its `[`. */
  function ReadArray(s: string): (r: Option<(seq<Json>, string)>)
    ensures r.Some? ==> |r.value.1| < |s|
    decreases |s|, 2
  {
    var t := SkipSpace(s);
    if |t| > 0 && t[0] == ']' then Some(([], t[1..])) else ReadElements(t)
  }

  /** One or more elements, then the closing `]`. */
  function ReadElements(s: string): (r: Option<(seq<Json>, string)>)
    ensures r.Some? ==> |r.value.1| < |s|
    decreases |s|, 1
  {
    match ReadValue(s)
    case None => None
    case Some((v, rest)) =>
      var t := SkipSpace(rest);
      if |t| > 0 && t[0] == ',' then
        match ReadElements(SkipSpace(t[1..]))
        case None => None
        case Some((vs, after)) => Some(([v] + vs, after))
      else if |t| > 0 && t[0] == ']' then Some(([v], t[1..]))
      else None
  }

  /** The rest of an object after its `{`. */
  function ReadObject(s: string): (r: Option<(seq<(string, Json)>, string)>)
    ensures r.Some? ==> |r.value.1| < |s|
    decreases |s|, 3
  {
    var t := SkipSpace(s);
    if |t| > 0 && t[0] == '}' then Some(([], t[1..])) else ReadMembers(t)
  }

  /** One or more members, then the closing `}`. */
  function ReadMembers(s: string): (r: Option<(seq<(string, Json)>, string)>)
    ensures r.Some? ==> |r.value.1| < |s|
    decreases |s|, 2
  {
    match ReadMember(s)
    case None => None
    case Some((m, rest)) =>
      var u := SkipSpace(rest);
      if |u| > 0 && u[0] == ',' then
        match ReadMembers(SkipSpace(u[1..]))
        case None => None
        case Some((ms, after)) => Some(([m] + ms, after))
      else if |u| > 0 && u[0] == '}' then Some(([m], u[1..]))
      else None
  }

  /** One `"key": value` member. */
  function ReadMember(s: string): (r: Option<((string, Json), string)>)
    ensures r.Some? ==> |r.value.1| < |s|
    decreases |s|, 1
  {
    if |s| == 0 || s[0] != '"' then None
    else
      match ReadStringBody(s[1..])
      case None => None
      case Some((key, rest)) =>
        var t := SkipSpace(rest);
        if |t| == 0 || t[0] != ':' then None
        else
          match ReadValue(SkipSpace(t[1..]))
          case None => None
          case Some((v, after)) => Some(((key, v), after))
  }

  /** A whole JSON text: one value, with only whitespace around it. */
  function Parse(text: string): Option<Json> {
    match ReadValue(SkipSpace(text))
    case None => None
    case Some((v, rest)) => if SkipSpace(rest) == "" then Some(v) else None
  }

  // ---------------------------------------------------------------------
  // Reading back what the writer writes
  // ---------------------------------------------------------------------

  lemma {:induction false} SkipSpaceOver(ws: string, s: string)
    requires AllJsonSpace(ws)
    requires |s| == 0 || !IsJsonSpace(s[0])
    ensures SkipSpace(ws + s) == s
    decreases |ws|
  {
    if |ws| > 0 {
      assert (ws + s)[1..] == ws[1..] + s;
      SkipSpaceOver(ws[1..], s);
    } else {
      assert ws + s == s;
    }
  }

  /** The four hex digits of a control character's `\u00XX` escape
      denote its code point. */
  lemma ControlEscapeDigits(c: char)
    requires IsControl(c)
    ensures var hex := "00" + [LowerDigit(c as int / 16), LowerDigit(c as int % 16)];
      AllHexDigits(hex) && HexValue(hex) == c as int
  {
    var hi := LowerDigit(c as int / 16);
    var lo := LowerDigit(c as int % 16);
    ValueSnoc("", '0', 16);
    assert "" + ['0'] == "0";
    ValueSnoc("0", '0', 16);
    assert "0" + ['0'] == "00";
    ValueSnoc("00", hi, 16);
    ValueSnoc("00" + [hi], lo, 16);
    assert "00" + [hi] + [lo] == "00" + [hi, lo];
  }

  lemma ReadEscapeChar(c: char, rest: string)
    ensures ReadChar(EscapeChar(c) + rest) == Some((c, rest))
  {
    var e := EscapeChar(c);
    var s := e + rest;
    if c == '"' || c == '\\' || c as int == 0x08 || c as int == 0x0C || c == '\n' || c == '\r' || c == '\t' {
      assert |e| == 2 && s[2..] == rest;
    } else if IsControl(c) {
      ControlEscapeDigits(c);
      assert s[2..6] == "00" + [LowerDigit(c as int / 16), LowerDigit(c as int % 16)];
      assert s[6..] == rest;
    } else {
      assert s[1..] == rest;
    }
  }

  /** A quoted string reads back as the string it quotes. */
  lemma {:induction false} ReadEscaped(t: string, rest: string)
    ensures ReadStringBody(Escape(t) + "\"" + rest) == Some((t, rest))
    decreases |t|
  {
    var s := Escape(t) + "\"" + rest;
    if |t| == 0 {
      assert s == "\"" + rest;
      assert s[1..] == rest;
    } else {
      var e := EscapeChar(t[0]);
      var tail := Escape(t[1..]) + "\"" + rest;
      assert s == e + tail;
      ReadEscapeChar(t[0], tail);
      ReadEscaped(t[1..], rest);
      assert [t[0]] + t[1..] == t;
    }
  }

  lemma ReadQuote(t: string, rest: string)
    ensures ReadValue(Quote(t) + rest) == Some((JString(t), rest))
  {
    var s := Quote(t) + rest;
    assert s[1..] == Escape(t) + "\"" + rest;
    ReadEscaped(t, rest);
  }

  /** A digit run stops exactly where the digits do. */
  lemma {:induction false} DigitRunOf(digits: string, rest: string)
    requires AllDigits(digits) && Delimited(rest)
    ensures DigitRun(digits + rest) == |digits|
    decreases |digits|
  {
    if |digits| > 0 {
      assert (digits + rest)[1..] == digits[1..] + rest;
      DigitRunOf(digits[1..], rest);
    } else {
      assert digits + rest == rest;
    }
  }

  lemma ReadUnsigned(digits: string, rest: string)
    requires |digits| > 0 && AllDigits(digits) && Delimited(rest)
    ensures ReadNumber(digits + rest) == Some((DecimalValue(digits) as int, rest))
  {
    var body := digits + rest;
    DigitRunOf(digits, rest);
    assert body[..|digits|] == digits && body[|digits|..] == rest;
    assert IsDigit(body[0]);
  }

  lemma ReadNegative(digits: string, rest: string)
    requires |digits| > 0 && AllDigits(digits) && Delimited(rest)
    ensures ReadNumber("-" + digits + rest) == Some((-(DecimalValue(digits) as int), rest))
  {
    var body := digits + rest;
    var s := "-" + digits + rest;
    Assoc("-", digits, rest);
    assert s[1..] == body;
    DigitRunOf(digits, rest);
    assert body[..|digits|] == digits && body[|digits|..] == rest;
  }

  lemma ReadShowInt(n: int, rest: string)
    requires Delimited(rest)
    ensures ReadNumber(ShowInt(n) + rest) == Some((n, rest))
  {
    if n < 0 {
      ReadNegative(ShowNat(-n), rest);
    } else {
      ReadUnsigned(ShowNat(n), rest);
    }
  }

  /** What `Dumps` writes never begins with whitespace. */
  lemma DumpsStart(j: Json)
    ensures !IsJsonSpace(Dumps(j)[0])
  {
  }

  // One reading step at a time: each lemma unfolds one reader once.

  lemma ValueArrayStep(s: string, items: seq<Json>, rest: string)
    requires |s| > 0 && s[0] == '[' && ReadArray(s[1..]) == Some((items, rest))
    ensures ReadValue(s) == Some((JArray(items), rest))
  {
  }

  lemma ValueObjectStep(s: string, members: seq<(string, Json)>, rest: string)
    requires |s| > 0 && s[0] == '{' && ReadObject(s[1..]) == Some((members, rest))
    ensures ReadValue(s) == Some((JObject(members), rest))
  {
  }

  lemma ElementsLastStep(s: string, v: Json, afterValue: string)
    requires ReadValue(s) == Some((v, afterValue))
    requires |SkipSpace(afterValue)| > 0 && SkipSpace(afterValue)[0] == ']'
    ensures ReadElements(s) == Some(([v], SkipSpace(afterValue)[1..]))
  {
  }

  lemma ElementsMoreStep(s: string, v: Json, afterValue: string, vs: seq<Json>, rest: string)
    requires ReadValue(s) == Some((v, afterValue))
    requires |SkipSpace(afterValue)| > 0 && SkipSpace(afterValue)[0] == ','
    requires ReadElements(SkipSpace(SkipSpace(afterValue)[1..])) == Some((vs, rest))
    ensures ReadElements(s) == Some(([v] + vs, rest))
  {
  }

  lemma MembersLastStep(s: string, m: (string, Json), afterMember: string)
    requires ReadMember(s) == Some((m, afterMember))
    requires |SkipSpace(afterMember)| > 0 && SkipSpace(afterMember)[0] == '}'
    ensures ReadMembers(s) == Some(([m], SkipSpace(afterMember)[1..]))
  {
  }

  lemma MembersMoreStep(s: string, m: (string, Json), afterMember: string, ms: seq<(string, Json)>, rest: string)
    requires ReadMember(s) == Some((m, afterMember))
    requires |SkipSpace(afterMember)| > 0 && SkipSpace(afterMember)[0] == ','
    requires ReadMembers(SkipSpace(SkipSpace(afterMember)[1..])) == Some((ms, rest))
    ensures ReadMembers(s) == Some(([m] + ms, rest))
  {
  }

  /** `Dumps` text followed by anything that cannot continue it reads back as the value. */
  lemma {:induction false} ReadDumps(j: Json, rest: string)
    requires Delimited(rest)
    ensures ReadValue(Dumps(j) + rest) == Some((j, rest))
    decreases j, 2
  {
    match j
    case JString(t) =>
      ReadQuote(t, rest);
    case JInt(n) =>
      ReadShowInt(n, rest);
      var s := Dumps(j) + rest;
      assert s[0] == '-' || IsDigit(s[0]);
    case JArray(items) =>
      var inner := DumpsItems(items) + "]" + rest;
      ReadArrayDumps(items, rest);
      Assoc("[" + DumpsItems(items), "]", rest);
      Assoc("[", DumpsItems(items), "]" + rest);
      Assoc(DumpsItems(items), "]", rest);
      assert Dumps(j) + rest == "[" + inner;
      ValueArrayStep("[" + inner, items, rest);
    case JObject(members) =>
      var text := MembersText(members, ": ", ", ");
      var inner := text + "}" + rest;
      ReadObjectDumps(members, rest);
      Assoc("{" + text, "}", rest);
      Assoc("{", text, "}" + rest);
      Assoc(text, "}", rest);
      assert Dumps(j) + rest == "{" + inner;
      ValueObjectStep("{" + inner, members, rest);
  }

  lemma {:induction false} ReadArrayDumps(items: seq<Json>, rest: string)
    requires Delimited(rest)
    ensures ReadArray(DumpsItems(items) + "]" + rest) == Some((items, rest))
    decreases items, 1
  {
    var s := DumpsItems(items) + "]" + rest;
    if |items| == 0 {
      assert s == "]" + rest && s[1..] == rest;
    } else {
      DumpsItemsStart(items);
      DumpsStart(items[0]);
      ReadItems(items, rest);
    }
  }

  lemma {:induction false} ReadObjectDumps(members: seq<(string, Json)>, rest: string)
    requires Delimited(rest)
    ensures ReadObject(MembersText(members, ": ", ", ") + "}" + rest) == Some((members, rest))
    decreases members, 2
  {
    var text := MembersText(members, ": ", ", ");
    var s := text + "}" + rest;
    if |members| == 0 {
      assert s == "}" + rest && s[1..] == rest;
    } else {
      assert "" + ":" + " " == ": ";
      assert "" + "," + " " == ", ";
      Assoc(text, "}", rest);
      assert "" + "}" + rest == "}" + rest;
      MembersTextStart(members, ": ", ", ");
      ReadMembersText(members, "", " ", "", " ", "", rest);
    }
  }

  lemma DumpsItemsStart(items: seq<Json>)
    requires |items| > 0
    ensures |DumpsItems(items)| > 0 && DumpsItems(items)[0] == Dumps(items[0])[0]
  {
  }

  lemma MembersTextStart(members: seq<(string, Json)>, colon: string, comma: string)
    requires |members| > 0
    ensures |MembersText(members, colon, comma)| > 0 && MembersText(members, colon, comma)[0] == '"'
  {
  }

  /** A non-empty list's elements, then `]`, read back as the list. */
  lemma {:induction false} ReadItems(items: seq<Json>, rest: string)
    requires |items| > 0 && Delimited(rest)
    ensures ReadElements(DumpsItems(items) + "]" + rest) == Some((items, rest))
    decreases items, 0
  {
    var first := items[0];
    var s := DumpsItems(items) + "]" + rest;
    if |items| == 1 {
      Assoc(Dumps(first), "]", rest);
      assert s == Dumps(first) + ("]" + rest);
      ReadDumps(first, "]" + rest);
      assert ("]" + rest)[1..] == rest;
      ElementsLastStep(s, first, "]" + rest);
      assert items == [first];
    } else {
      var tail := items[1..];
      var next := DumpsItems(tail) + "]" + rest;
      var after := ", " + next;
      Assoc(Dumps(first) + ", " + DumpsItems(tail), "]", rest);
      Assoc(Dumps(first) + ", ", DumpsItems(tail), "]" + rest);
      Assoc(Dumps(first), ", ", DumpsItems(tail) + ("]" + rest));
      Assoc(DumpsItems(tail), "]", rest);
      assert s == Dumps(first) + after;
      ReadDumps(first, after);
      assert after[1..] == " " + next;
      DumpsItemsStart(tail);
      DumpsStart(tail[0]);
      SkipSpaceOver(" ", next);
      ReadItems(tail, rest);
      ElementsMoreStep(s, first, after, tail, rest);
      assert [first] + tail == items;
    }
  }

  /** Reading a member, one token at a time. */
  lemma MemberStep(s: string, key: string, afterKey: string, value: Json, after: string)
    requires |s| > 0 && s[0] == '"'
    requires ReadStringBody(s[1..]) == Some((key, afterKey))
    requires |SkipSpace(afterKey)| > 0 && SkipSpace(afterKey)[0] == ':'
    requires ReadValue(SkipSpace(SkipSpace(afterKey)[1..])) == Some((value, after))
    ensures ReadMember(s) == Some(((key, value), after))
  {
  }

  /** One `"key" colon value` member, with any whitespace around the colon,
      reads back as that member. */
  lemma ReadOneMember(key: string, value: Json, ws1: string, ws2: string, after: string)
    requires AllJsonSpace(ws1) && AllJsonSpace(ws2) && Delimited(after)
    ensures ReadMember(Quote(key) + (ws1 + ":" + ws2) + Dumps(value) + after) == Some(((key, value), after))
    decreases value, 3
  {
    var v := Dumps(value) + after;
    var x := ws2 + v;
    var c := ":" + x;
    var b := ws1 + c;
    var s := "\"" + (Escape(key) + "\"" + b);
    ReadEscaped(key, b);
    assert s[1..] == Escape(key) + "\"" + b;
    SkipSpaceOver(ws1, c);
    assert c[1..] == x;
    DumpsStart(value);
    SkipSpaceOver(ws2, v);
    ReadDumps(value, after);
    MemberStep(s, key, b, value, after);
    var q := "\"" + Escape(key);
    calc {
      Quote(key) + (ws1 + ":" + ws2) + Dumps(value) + after;
      { Assoc(Quote(key) + (ws1 + ":" + ws2), Dumps(value), after); }
      Quote(key) + (ws1 + ":" + ws2) + v;
      { Assoc(Quote(key), ws1 + ":" + ws2, v); }
      Quote(key) + ((ws1 + ":" + ws2) + v);
      { Assoc(ws1 + ":", ws2, v); Assoc(ws1, ":", x); }
      Quote(key) + b;
      { Assoc(q, "\"", b); }
      q + ("\"" + b);
      { Assoc("\"", Escape(key), "\"" + b); Assoc(Escape(key), "\"", b); }
      s;
    }
  }

  lemma Assoc(a: string, b: string, c: string)
    ensures a + b + c == a + (b + c)
  {
  }

  /** A closing bracket after whitespace: skipping the whitespace finds
      the bracket, and what follows it is `rest`. */
  lemma ClosingSpace(ws: string, close: string, rest: string)
    requires AllJsonSpace(ws) && |close| == 1 && !IsJsonSpace(close[0])
    ensures var t := SkipSpace(ws + close + rest);
      |t| > 0 && t[0] == close[0] && t[1..] == rest
  {
    Assoc(ws, close, rest);
    SkipSpaceOver(ws, close + rest);
    assert (close + rest)[1..] == rest;
  }

  /** A separator with whitespace on both sides, then a token that does
      not start with whitespace. */
  lemma SeparatorSpace(ws: string, sep: string, ws': string, next: string)
    requires AllJsonSpace(ws) && AllJsonSpace(ws') && |sep| == 1 && !IsJsonSpace(sep[0])
    requires |next| > 0 && !IsJsonSpace(next[0])
    ensures var t := SkipSpace(ws + sep + ws' + next);
      |t| > 0 && t[0] == sep[0] && SkipSpace(t[1..]) == next
  {
    Assoc(ws + sep, ws', next);
    Assoc(ws, sep, ws' + next);
    SkipSpaceOver(ws, sep + (ws' + next));
    assert (sep + (ws' + next))[1..] == ws' + next;
    SkipSpaceOver(ws', next);
  }

  /** A non-empty sequence of members written with any whitespace around
      their `:` and `,` and before the closing `}` reads back as those
      members, in order. */
  lemma {:induction false} ReadMembersText(members: seq<(string, Json)>,
                                           ws1: string, ws2: string, ws3: string, ws4: string, ws5: string,
                                           rest: string)
    requires |members| > 0 && Delimited(rest)
    requires AllJsonSpace(ws1) && AllJsonSpace(ws2) && AllJsonSpace(ws3) && AllJsonSpace(ws4) && AllJsonSpace(ws5)
    ensures ReadMembers(MembersText(members, ws1 + ":" + ws2, ws3 + "," + ws4) + (ws5 + "}" + rest))
         == Some((members, rest))
    decreases members, 1
  {
    var colon := ws1 + ":" + ws2;
    var comma := ws3 + "," + ws4;
    var pair := members[0];
    assert pair in members && pair.1 < pair;
    var member := Quote(pair.0) + colon + Dumps(pair.1);
    var tail := members[1..];
    var closing := ws5 + "}" + rest;
    var s := MembersText(members, colon, comma) + closing;
    if |members| == 1 {
      ReadLastMember(members, ws1, ws2, ws3, ws4, ws5, rest);
    } else {
      var text := MembersText(tail, colon, comma);
      var next := text + closing;
      var after := comma + next;
      assert after[0] == comma[0];
      Assoc(member + comma, text, closing);
      Assoc(member, comma, next);
      assert s == member + after;
      ReadOneMember(pair.0, pair.1, ws1, ws2, after);
      MembersTextStart(tail, colon, comma);
      SeparatorSpace(ws3, ",", ws4, next);
      ReadMembersText(tail, ws1, ws2, ws3, ws4, ws5, rest);
      MembersMoreStep(s, pair, after, tail, rest);
      assert [pair] + tail == members;
    }
  }

  lemma ReadLastMember(members: seq<(string, Json)>,
                       ws1: string, ws2: string, ws3: string, ws4: string, ws5: string,
                       rest: string)
    requires |members| == 1 && Delimited(rest)
    requires AllJsonSpace(ws1) && AllJsonSpace(ws2) && AllJsonSpace(ws5)
    ensures ReadMembers(MembersText(members, ws1 + ":" + ws2, ws3 + "," + ws4) + (ws5 + "}" + rest))
         == Some((members, rest))
    decreases members, 0
  {
    var pair := members[0];
    assert pair in members && pair.1 < pair;
    var closing := ws5 + "}" + rest;
    var s := MembersText(members, ws1 + ":" + ws2, ws3 + "," + ws4) + closing;
    assert closing[0] == '}' || IsJsonSpace(closing[0]);
    assert s == Quote(pair.0) + (ws1 + ":" + ws2) + Dumps(pair.1) + closing;
    ReadOneMember(pair.0, pair.1, ws1, ws2, closing);
    ClosingSpace(ws5, "}", rest);
    MembersLastStep(s, pair, closing);
    assert members == [pair];
  }

  /** `json.loads(json.dumps(j)) == j` for the values the converter writes. */
  lemma ParseDumps(j: Json)
    ensures Parse(Dumps(j)) == Some(j)
  {
    DumpsStart(j);
    ReadDumps(j, "");
    assert Dumps(j) + "" == Dumps(j);
  }
}
