/** The value parsers: how the text of a property's value becomes the JSON
  value written for it. Each parser either yields a value or raises; the
  table `PropParsers` chooses the parser by property name, and a property
  it does not name keeps its value as a plain string.
 */
module ValueParsers {
  import opened Results
  import opened Text
  import opened Numbers
  import opened OrderedMaps
  import opened Codepoints
  import opened Json

  /** A word is its own stripped form: `int` skips no more than `split()` does. */
  lemma StripWord(w: string)
    requires IsWord(w)
    ensures IntStrip(w) == w
  {
    IntStripSurrounded("", w, "");
    assert "" + w + "" == w;
  }

  // ---------------------------------------------------------------------
  // parse_ints
  // ---------------------------------------------------------------------

  /** On text with nothing to strip, `int` reads the literal as it stands. */
  lemma ParseIntStripped(w: string)
    requires IntStrip(w) == w
    ensures ParseInt(w).Ok? <==> IsIntLiteral(w)
    ensures ParseInt(w).Ok? ==> ReadLiteral(w) == Some(ParseInt(w).value)
  {
    assert ParseInt(w).Ok? <==> IsIntLiteral(IntStrip(w));
  }

  /** On a single word, `int` needs no stripping. */
  lemma ParseIntWord(w: string)
    requires IsWord(w)
    ensures ParseInt(w).Ok? <==> IsIntLiteral(w)
    ensures ParseInt(w).Ok? ==> ReadLiteral(w) == Some(ParseInt(w).value)
  {
    StripWord(w);
    ParseIntStripped(w);
  }

  predicate AllIntLiterals(words: seq<string>) {
    forall i :: 0 <= i < |words| ==> IsIntLiteral(words[i])
  }

  /** `parse_ints`: one integer per whitespace-separated word; the first
      word `int` rejects fails the whole value. */
  function ParseInts(entries: string): (r: Result<seq<int>>)
    ensures r.Ok? <==> AllIntLiterals(Split(entries))
    ensures r.Ok? ==> |r.value| == |Split(entries)|
    ensures r.Ok? ==> forall i :: 0 <= i < |r.value| ==> ReadLiteral(Split(entries)[i]) == Some(r.value[i])
    ensures r.Err? ==> exists k :: 0 <= k < |Split(entries)| && r.error == InvalidInt(Split(entries)[k])
                                   && !IsIntLiteral(Split(entries)[k]) && AllIntLiterals(Split(entries)[..k])
  {
    var words := Split(entries);
    var r := MapAll(ParseInt, words);
    ParseIntsOfWords(words, r);
    r
  }

  lemma ParseIntsOfWords(words: seq<string>, r: Result<seq<int>>)
    requires forall i :: 0 <= i < |words| ==> IsWord(words[i])
    requires r == MapAll(ParseInt, words)
    ensures r.Ok? <==> AllIntLiterals(words)
    ensures r.Ok? ==> forall i :: 0 <= i < |r.value| ==> ReadLiteral(words[i]) == Some(r.value[i])
    ensures r.Err? ==> exists k :: 0 <= k < |words| && r.error == InvalidInt(words[k]) && !IsIntLiteral(words[k])
                                   && AllIntLiterals(words[..k])
  {
    match r
    case Err(e) =>
      var k :| 0 <= k < |words| && ParseInt(words[k]) == Err(e) && forall j :: 0 <= j < k ==> ParseInt(words[j]).Ok?;
      ParseIntWord(words[k]);
      forall j | 0 <= j < k ensures IsIntLiteral(words[..k][j]) {
        ParseIntWord(words[j]);
      }
    case Ok(ns) =>
      forall i | 0 <= i < |words| ensures IsIntLiteral(words[i]) && ReadLiteral(words[i]) == Some(ns[i]) {
        assert ParseInt(words[i]) == Ok(ns[i]);
        ParseIntWord(words[i]);
      }
  }

  lemma ShowIntWord(n: int)
    ensures IsWord(ShowInt(n))
  {
    var digits := ShowNat(if n < 0 then -n else n);
    assert forall i :: 0 <= i < |digits| ==> IsDigit(digits[i]);
  }

  /** Integers written with `str` and separated by spaces read back as themselves. */
  lemma ParseShowInts(ns: seq<int>)
    ensures ParseInts(Join(seq(|ns|, i requires 0 <= i < |ns| => ShowInt(ns[i])), " ")) == Ok(ns)
  {
    var words := seq(|ns|, i requires 0 <= i < |ns| => ShowInt(ns[i]));
    forall i | 0 <= i < |words| ensures IsWord(words[i]) && ReadLiteral(words[i]) == Some(ns[i]) {
      ShowIntWord(ns[i]);
      ReadShownLiteral(ns[i]);
    }
    SplitJoin(words);
    var r := ParseInts(Join(words, " "));
    assert r.Ok?;
    assert r.value == ns;
  }

  // ---------------------------------------------------------------------
  // parse_hangul
  // ---------------------------------------------------------------------

  /** One `key:value` entry, split at its first colon. */
  function HangulPair(entry: string): (r: Result<(string, string)>)
    ensures r.Ok? <==> ':' in entry
    ensures r.Ok? ==> entry == r.value.0 + ":" + r.value.1 && ':' !in r.value.0
    ensures r.Err? ==> r.error == MalformedEntry(entry)
  {
    match SplitFirst(entry, ':')
    case None => Err(MalformedEntry(entry))
    case Some(pair) => Ok(pair)
  }

  predicate AllContain(words: seq<string>, c: char) {
    forall i :: 0 <= i < |words| ==> c in words[i]
  }

  /** `parse_hangul`: a dictionary from the `key:value` words of the value,
      the last value winning for a repeated key. */
  function ParseHangul(entries: string): (r: Result<Assoc<string, string>>)
    ensures r.Ok? <==> AllContain(Split(entries), ':')
    ensures r.Ok? ==> r.value == FromPairs(Values(HangulPair, Split(entries)))
    ensures r.Ok? ==> DistinctKeys(r.value)
    ensures r.Err? ==> exists k :: 0 <= k < |Split(entries)| && r.error == MalformedEntry(Split(entries)[k])
                                   && ':' !in Split(entries)[k] && AllContain(Split(entries)[..k], ':')
  {
    var words := Split(entries);
    match MapAll(HangulPair, words)
    case Err(e) =>
      ColonFirstBad(HangulPair, words);
      Err(e)
    case Ok(pairs) =>
      MapAllValues(HangulPair, words);
      ColonAllOk(HangulPair, words);
      Ok(FromPairs(pairs))
  }

  /** The entry parsers that split at a colon fail exactly on the words without one. */
  ghost predicate SplitsAtColon<B>(f: string -> Result<B>) {
    forall w :: (f(w).Ok? <==> ':' in w) && (f(w).Err? ==> f(w).error == MalformedEntry(w))
  }

  lemma ColonFirstBad<B>(f: string -> Result<B>, words: seq<string>)
    requires SplitsAtColon(f) && MapAll(f, words).Err?
    ensures exists k :: 0 <= k < |words| && MapAll(f, words).error == MalformedEntry(words[k])
                        && ':' !in words[k] && AllContain(words[..k], ':')
  {
    MapAllFirst(f, words);
    var k :| 0 <= k < |words| && f(words[k]) == Err(MapAll(f, words).error) && AllOk(f, words[..k]);
    assert AllContain(words[..k], ':') by {
      forall j | 0 <= j < k ensures ':' in words[..k][j] {
        assert f(words[..k][j]).Ok?;
      }
    }
  }

  lemma ColonAllOk<B>(f: string -> Result<B>, words: seq<string>)
    requires SplitsAtColon(f) && AllOk(f, words)
    ensures AllContain(words, ':')
  {
    forall i | 0 <= i < |words| ensures ':' in words[i] {
      assert f(words[i]).Ok?;
    }
  }

  predicate NoSpace(s: string) {
    forall i :: 0 <= i < |s| ==> !IsSpace(s[i])
  }

  /** The words `key:value` of `pairs`, separated by spaces. */
  function HangulText(pairs: seq<(string, string)>): string {
    Join(seq(|pairs|, i requires 0 <= i < |pairs| => pairs[i].0 + ":" + pairs[i].1), " ")
  }

  lemma ColonWord(a: string, b: string)
    requires NoSpace(a) && NoSpace(b)
    ensures IsWord(a + ":" + b) && ':' in a + ":" + b
  {
    assert (a + ":" + b)[|a|] == ':';
  }

  /** Entries written `key:value` read back as the dictionary built from
      them: with `FromPairsLookup` and `FromPairsKeys`, the last value of a
      repeated key wins and keys keep their first position. */
  lemma ParseHangulText(pairs: seq<(string, string)>)
    requires forall i :: 0 <= i < |pairs| ==> NoSpace(pairs[i].0) && ':' !in pairs[i].0 && NoSpace(pairs[i].1)
    ensures ParseHangul(HangulText(pairs)) == Ok(FromPairs(pairs))
  {
    var words := seq(|pairs|, i requires 0 <= i < |pairs| => pairs[i].0 + ":" + pairs[i].1);
    forall i | 0 <= i < |words| ensures IsWord(words[i]) && HangulPair(words[i]) == Ok(pairs[i]) {
      ColonWord(pairs[i].0, pairs[i].1);
      SplitFirstAt(pairs[i].0, ':', pairs[i].1);
    }
    SplitJoin(words);
    var parsed := MapAll(HangulPair, words);
    assert parsed.Ok?;
    assert parsed.value == pairs;
  }

  // ---------------------------------------------------------------------
  // HANYU_PINLU_RE and parse_hanyu_pinlu
  // ---------------------------------------------------------------------

  predicate NoParens(s: string) {
    '(' !in s && ')' !in s
  }

  /** A match of `^([^()]+)[(]([0-9]+)[)]$`: a reading with no parentheses,
      then a frequency in parentheses; as everywhere in Python's `re`, the
      `$` also matches just before one final line feed. */
  function PinluEntry(entry: string): (r: Result<(string, int)>)
    ensures r.Ok? ==> |r.value.0| > 0 && NoParens(r.value.0) && r.value.1 >= 0
    ensures r.Ok? ==> exists digits :: |digits| > 0 && AllDigits(digits) && DecimalValue(digits) == r.value.1
                        && (entry == r.value.0 + "(" + digits + ")" || entry == r.value.0 + "(" + digits + ")" + "\n")
    ensures r.Err? ==> r.error == MalformedEntry(entry)
  {
    match SplitFirst(entry, '(')
    case None => Err(MalformedEntry(entry))
    case Some((reading, tail)) =>
      var t := DropFinalNewline(tail);
      if |reading| > 0 && ')' !in reading && |t| >= 2 && t[|t| - 1] == ')' && AllDigits(t[..|t| - 1]) then
        var digits := t[..|t| - 1];
        assert t == digits + ")";
        assert entry == reading + "(" + digits + ")" || entry == reading + "(" + digits + ")" + "\n";
        Ok((reading, DecimalValue(digits)))
      else Err(MalformedEntry(entry))
  }

  /** Every text of the pattern's shape matches, and its groups are the
      reading and the decimal frequency. */
  lemma PinluEntryOf(reading: string, digits: string, newline: bool)
    requires |reading| > 0 && NoParens(reading)
    requires |digits| > 0 && AllDigits(digits)
    ensures PinluEntry(reading + "(" + digits + ")" + (if newline then "\n" else ""))
         == Ok((reading, DecimalValue(digits) as int))
  {
    var nl := if newline then "\n" else "";
    var tail := digits + ")" + nl;
    assert reading + "(" + digits + ")" + nl == reading + ['('] + tail;
    SplitFirstAt(reading, '(', tail);
    var t := DropFinalNewline(tail);
    if newline {
      assert tail[..|tail| - 1] == digits + ")";
    }
    assert t == digits + ")";
    assert t[..|t| - 1] == digits;
  }

  predicate AllPinluEntries(words: seq<string>) {
    AllOk(PinluEntry, words)
  }

  /** `parse_hanyu_pinlu`: a dictionary from reading to frequency; a word
      that does not match the pattern fails the whole value. */
  function ParseHanyuPinlu(entries: string): (r: Result<Assoc<string, int>>)
    ensures r.Ok? <==> AllPinluEntries(Split(entries))
    ensures r.Ok? ==> DistinctKeys(r.value)
    ensures r.Ok? ==> r.value == FromPairs(Values(PinluEntry, Split(entries)))
    ensures r.Ok? ==> forall i :: 0 <= i < |r.value| ==> r.value[i].1 >= 0 && |r.value[i].0| > 0
    ensures r.Err? ==> exists k :: 0 <= k < |Split(entries)| && r.error == MalformedEntry(Split(entries)[k])
                                   && !PinluEntry(Split(entries)[k]).Ok? && AllPinluEntries(Split(entries)[..k])
  {
    var words := Split(entries);
    match MapAll(PinluEntry, words)
    case Err(e) =>
      PinluFirstBad(words, e);
      Err(e)
    case Ok(pairs) =>
      PinluPairs(words, pairs);
      Ok(FromPairs(pairs))
  }

  lemma PinluFirstBad(words: seq<string>, e: Error)
    requires MapAll(PinluEntry, words) == Err(e)
    ensures exists k :: 0 <= k < |words| && e == MalformedEntry(words[k])
                        && !PinluEntry(words[k]).Ok? && AllPinluEntries(words[..k])
  {
    MapAllFirst(PinluEntry, words);
  }

  lemma PinluPairs(words: seq<string>, pairs: seq<(string, int)>)
    requires MapAll(PinluEntry, words) == Ok(pairs)
    ensures AllPinluEntries(words) && pairs == Values(PinluEntry, words)
    ensures forall i :: 0 <= i < |FromPairs(pairs)| ==> FromPairs(pairs)[i].1 >= 0 && |FromPairs(pairs)[i].0| > 0
  {
    MapAllValues(PinluEntry, words);
    var m := FromPairs(pairs);
    FromPairsFrom(pairs);
    forall i | 0 <= i < |m| ensures m[i].1 >= 0 && |m[i].0| > 0 {
      assert m[i] in pairs;
      var j :| 0 <= j < |pairs| && pairs[j] == m[i];
      assert PinluEntry(words[j]) == Ok(pairs[j]);
    }
  }

  /** The words `reading(frequency)` of `pairs`, separated by spaces. */
  function PinluText(pairs: seq<(string, nat)>): string {
    Join(seq(|pairs|, i requires 0 <= i < |pairs| => pairs[i].0 + "(" + ShowNat(pairs[i].1) + ")"), " ")
  }

  lemma PinluWord(reading: string, n: nat)
    requires |reading| > 0 && NoParens(reading) && NoSpace(reading)
    ensures IsWord(reading + "(" + ShowNat(n) + ")")
    ensures PinluEntry(reading + "(" + ShowNat(n) + ")") == Ok((reading, n as int))
  {
    var digits := ShowNat(n);
    var word := reading + "(" + digits + ")";
    PinluEntryOf(reading, digits, false);
    assert word == reading + "(" + digits + ")" + "";
    forall j | 0 <= j < |word| ensures !IsSpace(word[j]) {
      if j < |reading| {
        assert word[j] == reading[j];
      } else if j > |reading| && j < |word| - 1 {
        assert word[j] == digits[j - |reading| - 1];
      }
    }
  }

  /** Readings with their frequencies, written as the database writes them,
      read back as the dictionary built from them. */
  lemma ParsePinluText(pairs: seq<(string, nat)>)
    requires forall i :: 0 <= i < |pairs| ==> |pairs[i].0| > 0 && NoParens(pairs[i].0) && NoSpace(pairs[i].0)
    ensures ParseHanyuPinlu(PinluText(pairs))
         == Ok(FromPairs(seq(|pairs|, i requires 0 <= i < |pairs| => (pairs[i].0, pairs[i].1 as int))))
  {
    var words := seq(|pairs|, i requires 0 <= i < |pairs| => pairs[i].0 + "(" + ShowNat(pairs[i].1) + ")");
    var expected := seq(|pairs|, i requires 0 <= i < |pairs| => (pairs[i].0, pairs[i].1 as int));
    forall i | 0 <= i < |words| ensures IsWord(words[i]) && PinluEntry(words[i]) == Ok(expected[i]) {
      PinluWord(pairs[i].0, pairs[i].1);
    }
    SplitJoin(words);
    var parsed := MapAll(PinluEntry, words);
    assert parsed.Ok?;
    assert parsed.value == expected;
  }

  // ---------------------------------------------------------------------
  // parse_hanyu_pinyin
  // ---------------------------------------------------------------------

  /** One `location:reading,reading,...` entry. */
  function PinyinEntry(entry: string): (r: Result<(string, seq<string>)>)
    ensures r.Ok? <==> ':' in entry
    ensures r.Ok? ==> entry == r.value.0 + ":" + Join(r.value.1, ",") && ':' !in r.value.0
    ensures r.Ok? ==> |r.value.1| > 0 && forall i :: 0 <= i < |r.value.1| ==> ',' !in r.value.1[i]
    ensures r.Err? ==> r.error == MalformedEntry(entry)
  {
    match SplitFirst(entry, ':')
    case None => Err(MalformedEntry(entry))
    case Some((location, readings)) => Ok((location, SplitAll(readings, ',')))
  }

  /** `parse_hanyu_pinyin`: a dictionary from location to its readings. */
  function ParseHanyuPinyin(entries: string): (r: Result<Assoc<string, seq<string>>>)
    ensures r.Ok? <==> AllContain(Split(entries), ':')
    ensures r.Ok? ==> DistinctKeys(r.value)
    ensures r.Ok? ==> r.value == FromPairs(Values(PinyinEntry, Split(entries)))
    ensures r.Ok? ==> forall i :: 0 <= i < |r.value| ==> |r.value[i].1| > 0
    ensures r.Err? ==> exists k :: 0 <= k < |Split(entries)| && r.error == MalformedEntry(Split(entries)[k])
                                   && ':' !in Split(entries)[k] && AllContain(Split(entries)[..k], ':')
  {
    var words := Split(entries);
    match MapAll(PinyinEntry, words)
    case Err(e) =>
      ColonFirstBad(PinyinEntry, words);
      Err(e)
    case Ok(pairs) =>
      MapAllValues(PinyinEntry, words);
      ColonAllOk(PinyinEntry, words);
      PinyinPairs(words, pairs);
      Ok(FromPairs(pairs))
  }

  lemma PinyinPairs(words: seq<string>, pairs: seq<(string, seq<string>)>)
    requires |pairs| == |words| && forall i :: 0 <= i < |words| ==> PinyinEntry(words[i]) == Ok(pairs[i])
    ensures forall i :: 0 <= i < |FromPairs(pairs)| ==> |FromPairs(pairs)[i].1| > 0
  {
    var m := FromPairs(pairs);
    FromPairsFrom(pairs);
    forall i | 0 <= i < |m| ensures |m[i].1| > 0 {
      assert m[i] in pairs;
      var j :| 0 <= j < |pairs| && pairs[j] == m[i];
      assert PinyinEntry(words[j]) == Ok(pairs[j]);
    }
  }

  /** The words `location:r1,r2,...` of `entries`, separated by spaces. */
  function PinyinText(entries: seq<(string, seq<string>)>): string {
    Join(seq(|entries|, i requires 0 <= i < |entries| => entries[i].0 + ":" + Join(entries[i].1, ",")), " ")
  }

  lemma {:induction false} JoinNoSpace(parts: seq<string>, sep: string)
    requires NoSpace(sep) && forall i :: 0 <= i < |parts| ==> NoSpace(parts[i])
    ensures NoSpace(Join(parts, sep))
    decreases |parts|
  {
    if |parts| > 1 {
      JoinNoSpace(parts[1..], sep);
      var rest := Join(parts[1..], sep);
      var s := parts[0] + sep + rest;
      forall i | 0 <= i < |s| ensures !IsSpace(s[i]) {
        if i < |parts[0]| {
          assert s[i] == parts[0][i];
        } else if i < |parts[0]| + |sep| {
          assert s[i] == sep[i - |parts[0]|];
        } else {
          assert s[i] == rest[i - |parts[0]| - |sep|];
        }
      }
    }
  }

  /** Locations with their readings, written as the database writes them,
      read back as the dictionary built from them. */
  lemma ParsePinyinText(entries: seq<(string, seq<string>)>)
    requires forall i :: 0 <= i < |entries| ==> NoSpace(entries[i].0) && ':' !in entries[i].0
    requires forall i :: 0 <= i < |entries| ==> |entries[i].1| > 0
    requires forall i, j :: 0 <= i < |entries| && 0 <= j < |entries[i].1| ==>
               NoSpace(entries[i].1[j]) && ',' !in entries[i].1[j]
    ensures ParseHanyuPinyin(PinyinText(entries)) == Ok(FromPairs(entries))
  {
    var words := seq(|entries|, i requires 0 <= i < |entries| => entries[i].0 + ":" + Join(entries[i].1, ","));
    forall i | 0 <= i < |words| ensures IsWord(words[i]) && PinyinEntry(words[i]) == Ok(entries[i]) {
      var (location, readings) := entries[i];
      JoinNoSpace(readings, ",");
      ColonWord(location, Join(readings, ","));
      SplitFirstAt(location, ':', Join(readings, ","));
      SplitAllJoin(readings, ',');
    }
    SplitJoin(words);
    var parsed := MapAll(PinyinEntry, words);
    assert parsed.Ok?;
    assert parsed.value == entries;
  }

  // ---------------------------------------------------------------------
  // PROP_PARSERS
  // ---------------------------------------------------------------------

  /** The parsers a property can be registered with. `Str` is the default
      (the value unchanged), `Int` is `int`, `Words` is `str.split`. */
  datatype Parser =
    | Str
    | Int
    | Words
    | Ints
    | Hangul
    | HanyuPinlu
    | HanyuPinyin
    | UnicodePoints

  /** `PROP_PARSERS`, in the order the source lists it. */
  const PropParsers: Assoc<string, Parser> := [
    ("kAccountingNumeric", Int),
    ("kCantonese", Words),
    ("kFrequency", Int),
    ("kGB0", Int),
    ("kGB1", Int),
    ("kGB3", Int),
    ("kGB5", Int),
    ("kGB7", Int),
    ("kGB8", Int),
    ("kGradeLevel", Int),
    ("kHangul", Hangul),
    ("kHanyuPinlu", HanyuPinlu),
    ("kHanyuPinyin", HanyuPinyin),
    ("kJapaneseKun", Words),
    ("kJapaneseOn", Words),
    ("kLau", Ints),
    ("kNelson", Ints),
    ("kOtherNumeric", Int),
    ("kPrimaryNumeric", Int),
    ("kSimplifiedVariant", UnicodePoints),
    ("kTaiwanTelegraph", Int),
    ("kTang", Words),
    ("kTotalStrokes", Ints),
    ("kTraditionalVariant", UnicodePoints),
    ("kVietnamese", Words)
  ]

  /** `PROP_PARSERS.get(prop, str)` */
  function ParserFor(prop: string): (p: Parser)
    ensures prop !in Keys(PropParsers) ==> p == Str
    ensures prop in Keys(PropParsers) ==> Lookup(PropParsers, prop) == Some(p) && (prop, p) in PropParsers
  {
    match Lookup(PropParsers, prop)
    case None => Str
    case Some(p) =>
      LookupFound(PropParsers, prop);
      p
  }

  // ---------------------------------------------------------------------
  // From parsed values to JSON
  // ---------------------------------------------------------------------

  function Strings(ss: seq<string>): (j: Json)
    ensures j.JArray? && |j.items| == |ss|
    ensures forall i :: 0 <= i < |ss| ==> j.items[i] == JString(ss[i])
  {
    JArray(seq(|ss|, i requires 0 <= i < |ss| => JString(ss[i])))
  }

  function Integers(ns: seq<int>): (j: Json)
    ensures j.JArray? && |j.items| == |ns|
    ensures forall i :: 0 <= i < |ns| ==> j.items[i] == JInt(ns[i])
  {
    JArray(seq(|ns|, i requires 0 <= i < |ns| => JInt(ns[i])))
  }

  /** A dictionary with its values converted by `f`, keys and order kept. */
  function Object<V>(m: Assoc<string, V>, f: V -> Json): (j: Json)
    ensures j.JObject? && Keys(j.members) == Keys(m)
    ensures forall i :: 0 <= i < |m| ==> j.members[i].1 == f(m[i].1)
  {
    JObject(seq(|m|, i requires 0 <= i < |m| => (m[i].0, f(m[i].1))))
  }

  /** The JSON shape each parser promises: a string, an integer, a list of
      strings, of integers or of one-character strings, or a dictionary with
      distinct keys whose values are strings, integers or non-empty lists
      of strings. */
  predicate Conforms(p: Parser, j: Json) {
    match p
    case Str => j.JString?
    case Int => j.JInt?
    case Words => j.JArray? && forall i :: 0 <= i < |j.items| ==> j.items[i].JString?
    case Ints => j.JArray? && forall i :: 0 <= i < |j.items| ==> j.items[i].JInt?
    case UnicodePoints => j.JArray? && forall i :: 0 <= i < |j.items| ==> j.items[i].JString? && |j.items[i].text| == 1
    case Hangul =>
      j.JObject? && DistinctKeys(j.members)
      && forall i :: 0 <= i < |j.members| ==> j.members[i].1.JString?
    case HanyuPinlu =>
      j.JObject? && DistinctKeys(j.members)
      && forall i :: 0 <= i < |j.members| ==> j.members[i].1.JInt?
    case HanyuPinyin =>
      j.JObject? && DistinctKeys(j.members)
      && forall i :: 0 <= i < |j.members| ==> j.members[i].1.JArray? && |j.members[i].1.items| > 0
  }

  function StringJson(s: string): Json {
    JString(s)
  }

  function IntJson(n: int): Json {
    JInt(n)
  }

  /** A list of characters, as `json.dumps` sees a list of one-character strings. */
  function CharsJson(cs: seq<char>): Json {
    Strings(seq(|cs|, i requires 0 <= i < |cs| => [cs[i]]))
  }

  function HangulJson(m: Assoc<string, string>): Json {
    Object(m, StringJson)
  }

  function PinluJson(m: Assoc<string, int>): Json {
    Object(m, IntJson)
  }

  function PinyinJson(m: Assoc<string, seq<string>>): Json {
    Object(m, Strings)
  }

  /** `r` is what the parse `s` gives once its value is turned into JSON
      by `f`; a failed parse fails `r` with the same error. */
  predicate Converts<A>(r: Result<Json>, s: Result<A>, f: A -> Json) {
    match s
    case Ok(v) => r == Ok(f(v))
    case Err(e) => r == Err(e)
  }

  /** Runs parser `p` on a value's text: each registered parser is the
      function modelling it, its result converted to the JSON value
      `json.dumps` is given, and its error passed on. Only the plain string
      and the word list never fail; every result has the parser's shape. */
  function Apply(p: Parser, value: string): (r: Result<Json>)
    ensures r.Ok? ==> Conforms(p, r.value)
    ensures p == Str ==> r == Ok(JString(value))
    ensures p == Words ==> r == Ok(Strings(Split(value)))
    ensures p == Int ==> Converts(r, ParseInt(value), IntJson)
    ensures p == Ints ==> Converts(r, ParseInts(value), Integers)
    ensures p == UnicodePoints ==> Converts(r, ParseUnicodePoints(value), CharsJson)
    ensures p == Hangul ==> Converts(r, ParseHangul(value), HangulJson)
    ensures p == HanyuPinlu ==> Converts(r, ParseHanyuPinlu(value), PinluJson)
    ensures p == HanyuPinyin ==> Converts(r, ParseHanyuPinyin(value), PinyinJson)
  {
    match p
    case Str => Ok(JString(value))
    case Int =>
      var n :- ParseInt(value);
      Ok(IntJson(n))
    case Words => Ok(Strings(Split(value)))
    case Ints =>
      var ns :- ParseInts(value);
      Ok(Integers(ns))
    case UnicodePoints =>
      var cs :- ParseUnicodePoints(value);
      Ok(CharsJson(cs))
    case Hangul =>
      var m :- ParseHangul(value);
      Ok(HangulJson(m))
    case HanyuPinlu =>
      var m :- ParseHanyuPinlu(value);
      Ok(PinluJson(m))
    case HanyuPinyin =>
      var m :- ParseHanyuPinyin(value);
      Ok(PinyinJson(m))
  }

  /** A property absent from the table is written as its value's text, unchanged. */
  lemma UnregisteredIsString(prop: string, value: string)
    requires prop !in Keys(PropParsers)
    ensures Apply(ParserFor(prop), value) == Ok(JString(value))
  {
  }
}
