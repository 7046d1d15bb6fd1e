# unihan-json converter core, in Dafny

This project models the core of `process.py`, the converter that turns the
Unihan database's text files into one JSON document per property.

The converter reads database lines of the form
`U+XXXX<TAB>kProperty<TAB>value`. Feeding (`PropWriter.feed_line`) ignores
blank and `#` comment lines and rejects a line with fewer than three
fields. Every other line is spilled, without its line terminator, into a
per-property temporary file. Properties keep the order in which they were
first seen.

Flushing (`PropWriter.flush`) replays each property's spill file. For each
replayed line it:
- splits the line into its three fields again;
- decodes the code point with `parse_unicode_point`;
- parses the value with the property's parser from `PROP_PARSERS`. The
  plain string is used for unregistered properties.

It then writes a document `{`, one `"char":value` entry per line, `}`. The
value parsers are:
- `parse_ints`;
- `parse_unicode_points`;
- `parse_hangul`;
- `parse_hanyu_pinlu` (with `HANYU_PINLU_RE`);
- `parse_hanyu_pinyin`;
- `int`;
- `str.split`.

The model is purely functional:
- Feeding a line returns the next writer value.
- Flushing returns the documents written in full, in order, and, when a
  line fails, the unfinished document it leaves and the error.
- Python exceptions become `Result` values carrying an `Error` that names
  the offending text.

Python's built-ins are modelled on `seq<char>`:
- `str.split`, `split(sep, n)`, `lstrip` and `rstrip('\r\n')` (module `Text`);
- `int`, with the whitespace it strips itself, and hexadecimal `int(.., 16)` (module `Numbers`);
- the insertion-ordered `dict` (module `OrderedMaps`);
- `json.dumps(.., ensure_ascii=False)` (module `Json`);
- `print` into a text-mode temporary file, and line iteration over it
  with universal newlines (module `Spill`).

The JSON reader in `JsonRead` is an independent partner of the writer. It
proves that whatever `Dumps` writes reads back as the same value, and that
every document the flush finishes is a JSON object holding exactly its
entries (module `Documents`).

Three behaviours of the code a reader might not expect, which the model
follows:
- Flushing does not release a property's spill file. The files are closed
  only when the context manager exits. `Flush` therefore leaves the writer
  unchanged.
- Feeding never decodes the code point. Only flushing does, so a bad code
  point is reported by the flush, not by `feed_line`.
- A failure in the middle of a flush leaves a partial file on disk: `{`
  and the entries before the failing line. `Partial` models that file.
  The exit handler calls `flush` even when the body of the `with` block
  failed.

## Model

| member | source | states |
|---|---|---|
| `Results.MapAllFirst` | process.py:27 | a failed comprehension fails at an element before which every element succeeded |
| `Results.MapAll` | process.py:27 | a comprehension over a list succeeds exactly when the element expression succeeds on every element; the results are pointwise and in order; the error is that of the first failing element |
| `Results.MapWhileOk` | process.py:146-161 | a loop that writes as it goes keeps the outputs of the elements before the first failure, and reports that failure for the very next element |
| `Results.MapWhileOkAll` | process.py:146-161 | the interrupted loop runs to the end exactly when the comprehension succeeds; it then produces the same list, and otherwise the same error |
| `Results.RunUntilFailure` | process.py:136-162 | running one step per element until a step fails keeps every earlier output; the run is cut short exactly when some step fails, and then reports that step's output and error |
| `Results.StoppedRun` | process.py:146-152 | a stopped or finished run over one list decides the comprehension over a second list whose elements the step treats alike |
| `Text.Split` | process.py:27 | `str.split()` yields only non-empty whitespace-free words, and none exactly when the text is all whitespace |
| `Text.SplitWord` | process.py:27 | a word ended by whitespace or by the end of the text is the first word `split()` yields, and the rest of the text is split on its own |
| `Text.SplitSpaced` | process.py:27 | words separated by runs of whitespace, with any whitespace before and after, split into exactly those words in order |
| `Text.SplitJoin` | process.py:27 | words joined by spaces split back into the same words |
| `Text.SplitSkipsSpace` | process.py:59 | leading whitespace does not change the split |
| `Text.SplitFirst` | process.py:33 | `split(c, 1)` fails to unpack exactly when `c` is absent; otherwise the text is the head, `c` and the tail, with no `c` in the head |
| `Text.SplitFirstAt` | process.py:54 | splitting at the first `c` recovers a head free of `c` and an arbitrary tail |
| `Text.SplitAll` | process.py:52 | `split(',')` gives one more piece than there are separators; no piece holds one; joining the pieces gives the text back |
| `Text.SplitAllJoin` | process.py:52 | pieces free of the separator, joined by it, split back into the same pieces |
| `Text.LStrip` | process.py:121 | `lstrip()` removes exactly a leading run of whitespace and leaves text that does not start with whitespace |
| `Text.LStripSpace` | process.py:121 | whitespace before a non-space start is removed and nothing else is |
| `Text.RStripNewlines` | process.py:133 | `rstrip('\r\n')` drops exactly a trailing run of carriage returns and line feeds and keeps the rest as a prefix |
| `Text.RStripNewlinesTerminated` | process.py:148 | line terminators after text that does not end in one are removed, and only they are |
| `Text.RStripNewlinesAfter` | process.py:133 | stripping line terminators never reaches past a character that is not a line break |
| `Numbers.ShowNat` | process.py:161 | the decimal digits of a number are non-empty digits of that value without a leading zero |
| `Numbers.ShowHex` | process.py:15-22 | the hexadecimal digits of a number have that value in base 16 |
| `Numbers.IntStrip` | process.py:59 | `int` strips leading and trailing tab, line feed, vertical tab, form feed, carriage return and space, and nothing else, before reading |
| `Numbers.IntStripParts` | process.py:59 | the text `int` reads is the original with only such whitespace cut off both ends |
| `Numbers.IntStripSurrounded` | process.py:59 | text that neither starts nor ends with such whitespace is read as itself, however much of it surrounds the text |
| `Numbers.ParseInt` | process.py:59 | `int(entry)` succeeds exactly when the stripped text is an optionally signed run of decimal digits, and then gives the value of that literal; otherwise it fails quoting the text |
| `Numbers.ReadLiteral` | process.py:59 | an integer literal is read exactly when the text is an optional sign and one or more digits; `ReadSignedDigits` gives the value of every such text |
| `Numbers.ReadSignedDigits` | process.py:59 | a run of digits with no sign or a `+` reads as the digits' decimal value, and with a `-` as its negation, leading zeros included |
| `Numbers.ParseSignedDigits` | process.py:59 | `int` of such a literal surrounded by `int`'s whitespace gives its value, so `0001` is 1, `+5` is 5 and `-0` is 0 |
| `Numbers.ParsePaddedInt` | process.py:59 | a number written with any count of leading zeros, signed or not and surrounded by whitespace, parses as that number |
| `Numbers.ReadShownLiteral` | process.py:59 | an integer written in decimal reads back as itself |
| `Numbers.ParseShowInt` | process.py:59 | an integer written in decimal and surrounded by the whitespace `int` strips parses back as itself |
| `OrderedMaps.Lookup` | process.py:129 | the lookup finds a value exactly when the key is present |
| `OrderedMaps.Put` | process.py:132 | storing a key keeps the key order and appends a new key at the end; the key then maps to the stored value |
| `OrderedMaps.PutOther` | process.py:132 | storing one key leaves every other key's value unchanged |
| `OrderedMaps.PutDistinct` | process.py:132 | storing never duplicates a key |
| `OrderedMaps.LookupAt` | process.py:136 | iterating a dict with distinct keys pairs each key with the value it looks up |
| `OrderedMaps.FromPairs` | process.py:33 | `dict(pairs)` has distinct keys |
| `OrderedMaps.FromPairsLookup` | process.py:33 | in `dict(pairs)` each key maps to the value of its last pair |
| `OrderedMaps.FromPairsKeys` | process.py:33 | the keys of `dict(pairs)` come in the order each was first seen |
| `OrderedMaps.FirstSeenMembers` | process.py:33 | the first-seen order holds exactly the keys present |
| `OrderedMaps.FromDistinctPairs` | process.py:43-47 | without repeated keys the dictionary holds every pair as given, in order |
| `OrderedMaps.PutNew` | process.py:131-132 | storing an absent key appends the pair |
| `Codepoints.ParseUnicodePoint` | process.py:15-22 | a token is accepted only as `U+` and one or more hex digits of either case, optionally followed by one final line feed (which `$` also matches); the character has that code point; a value too large for `chr`'s C int fails as an overflow, any other rejected token as an invalid code point, both quoting the token |
| `Codepoints.ParseNotation` | process.py:15-22 | every well-formed token naming a scalar value is accepted, with or without a final line feed, and decodes to that character |
| `Codepoints.ParseOverflow` | process.py:22 | a well-formed token whose value exceeds 0x7FFFFFFF fails as an overflow, not as an invalid code point |
| `Codepoints.ParseShowUnicodePoint` | process.py:15-22 | decoding the database's own `U+XXXX` notation of a character gives the character back |
| `Codepoints.ShowUnicodePointNoTab` | process.py:125 | the notation holds no tab, so it is always a whole first field |
| `Codepoints.ParseUnicodePoints` | process.py:25-29 | the list decodes exactly when every whitespace-separated token does, giving one character per token in order; the first token that fails decides the error: an overflow passes through quoting that token, any other failure is replaced by one quoting the whole input |
| `Codepoints.ParseShowUnicodePoints` | process.py:25-29 | characters written in the notation and separated by spaces decode back to the same characters |
| `Json.EscapeChar` | process.py:159 | every character is written without a control character and never as a bare quote |
| `Json.Dumps` | process.py:159-161 | `json.dumps` output is non-empty and starts with the character announcing its kind |
| `Json.DumpsNoControl` | process.py:159-161 | `json.dumps` output never holds a control character, so an entry never spans lines |
| `Json.MembersTextNoControl` | process.py:153-161 | the entries written with separators free of control characters hold none |
| `JsonRead.ReadShowInt` | process.py:161 | an integer as `json.dumps` writes it reads back as itself |
| `JsonRead.ReadQuote` | process.py:159 | a string as `json.dumps` writes it reads back as itself |
| `JsonRead.ReadDumps` | process.py:159-161 | any value as `json.dumps` writes it reads back as itself when a delimiter or the end of the text follows it |
| `JsonRead.ParseDumps` | process.py:159-161 | `json.loads(json.dumps(v)) == v` for every value the converter emits |
| `Documents.ParseComplete` | process.py:144-162 | a finished document is JSON: it reads back as the object of its entries, in order |
| `Documents.ParsePartial` | process.py:144-161 | a document cut short by a failing line, once closed the way the flush would have closed it, reads back as the entries written before the failure |
| `Documents.CompleteLines` | process.py:144-162 | a finished document's lines are `{`, one tab-indented `"char":value` line per entry with a comma after all but the last, `}` and the empty rest after the final line feed |
| `Documents.PartialLines` | process.py:144-161 | an unfinished document's lines are `{` and the entry lines written before the failure, the last without a trailing comma or line feed |
| `Documents.EntryLinesSingle` | process.py:158-161 | no entry line holds a line feed, so each entry takes exactly one line of the file |
| `Documents.TabMembers` | process.py:153-161 | the entry lines joined by line feeds are the members written with `:` and `,\n\t` after a leading tab |
| `Spill.ReadLines` | process.py:146 | iterating the spill file yields non-empty lines; each line is one line, and every line but the last ends in a line feed |
| `Spill.ReplayContent` | process.py:133-146 | lines free of line breaks come back from the spill file one for one, in order, each with a line feed |
| `Spill.ReplayBrokenLine` | process.py:133-146 | a spilled line with a line break inside comes back as two lines |
| `ValueParsers.ParseInts` | process.py:58-59 | `parse_ints` succeeds exactly when every word is an integer literal; it gives one value per word, in order; otherwise the error quotes the first word that is not a literal |
| `ValueParsers.ParseShowInts` | process.py:58-59 | integers written in decimal and joined by spaces parse back as the same list |
| `ValueParsers.HangulPair` | process.py:33 | an entry splits into key and value exactly when it holds a colon; the key holds none |
| `ValueParsers.ParseHangul` | process.py:32-33 | the value parses exactly when every word holds a colon, into `dict` of the words' `key:value` pairs in order (so distinct keys, the last value winning); otherwise the error names the first word without a colon |
| `ValueParsers.ParseHangulText` | process.py:32-33 | `key:value` words separated by spaces parse as `dict` of the pairs: last value wins, keys in first-seen order |
| `ValueParsers.PinluEntry` | process.py:36-38 | an entry matches only as a non-empty parenthesis-free reading and a parenthesised run of digits; the frequency is the digits' value |
| `ValueParsers.PinluEntryOf` | process.py:36-38 | every text of that shape matches, with or without one final line feed, and yields the reading and the value of the digits |
| `ValueParsers.ParseHanyuPinlu` | process.py:41-47 | the value parses exactly when every word matches, into the dictionary of the words' (reading, frequency) groups in order; readings are non-empty and distinct and frequencies non-negative; otherwise the error names the first word that does not match |
| `ValueParsers.ParsePinluText` | process.py:41-47 | `reading(n)` words separated by spaces parse as the dictionary of the pairs |
| `ValueParsers.PinyinEntry` | process.py:52-54 | an entry splits exactly when it holds a colon, into a key with no colon and a non-empty list of comma-free readings that join back to the rest |
| `ValueParsers.ParseHanyuPinyin` | process.py:50-55 | the value parses exactly when every word holds a colon, into the dictionary of the words' (location, readings) entries in order; keys are distinct and every reading list is non-empty; otherwise the error names the first word without a colon |
| `ValueParsers.ParsePinyinText` | process.py:50-55 | `key:r1,r2` words separated by spaces parse as the dictionary of the entries |
| `ValueParsers.ParserFor` | process.py:62-89 | a registered property gets the parser its table entry names, and any other property the plain string |
| `ValueParsers.Apply` | process.py:62-89 | each registered parser is the function modelling it: `int` gives the integer `ParseInt` reads, `str.split` the list of words, `parse_ints`, `parse_unicode_points` and the three dictionary parsers their results as JSON lists and objects; a failing parser's error passes through unchanged; the plain string and word list never fail, and every value has its parser's shape |
| `ValueParsers.UnregisteredIsString` | process.py:141 | an unregistered property's value is written as its text, unchanged |
| `PropWriter.FileNameLength` | process.py:139 | a file name is the literal text plus one copy of the property per slot |
| `PropWriter.FileNameInjective` | process.py:139 | with a slot in the format, distinct properties get distinct file names |
| `PropWriter.DefaultFileName` | process.py:94 | the default format names each file `<property>.json` |
| `PropWriter.SplitRecord` | process.py:125-127 | `split('\t', 2)` unpacks into three fields exactly when the line holds at least two tabs; the fields joined by tabs give the line back; only the value may hold a tab |
| `PropWriter.SplitRecordOf` | process.py:125 | tab-free code and property fields, joined with any value, split back into those fields |
| `PropWriter.SplitStrippedRecord` | process.py:133 | stripping the line terminator touches only the value field |
| `PropWriter.NewWriter` | process.py:96-101 | a new writer has no buffers and is valid |
| `PropWriter.FeedLine` | process.py:120-133 | blank and comment lines leave the writer unchanged; a line with fewer than three fields fails quoting the line; every record is accepted; directory and format never change |
| `PropWriter.FeedLineBucket` | process.py:128-133 | a record's line, without its terminator, is appended to its property's buffer; a new property joins the end of the order |
| `PropWriter.FeedLineOther` | process.py:128-133 | feeding a line leaves every other property's buffer unchanged |
| `PropWriter.FeedLineValid` | process.py:120-133 | feeding keeps one non-empty buffer per property, holding only that property's lines, none ending in a line break |
| `PropWriter.FeedLines` | process.py:116-118 | feeding a file succeeds exactly when every line is skipped or a record; otherwise the error quotes the first line that is neither |
| `PropWriter.FeedLinesValid` | process.py:116-118 | feeding a whole file keeps the writer valid |
| `PropWriter.FeedLinesKeys` | process.py:116-133 | after feeding a file to a new writer, the buffers are the properties in the order first seen |
| `PropWriter.FeedLinesLookup` | process.py:116-133 | after feeding a file to a new writer, each property's buffer holds exactly its lines, stripped, in input order |
| `PropWriter.ReadEntry` | process.py:147-152 | a replayed line that does not split fails quoting the line; otherwise it reads exactly when its code decodes and its value parses, the key being the one character of the code and the value the parser's; a bad code fails with the code's error before the value is parsed, and a good code with a bad value fails with the parser's error |
| `PropWriter.ReadEntryOf` | process.py:147-152 | a line in the database's notation reads back as its character keyed to the parsed value, or fails exactly as the parser fails |
| `PropWriter.ReadEntryTerminated` | process.py:148 | a stored line reads the same with the line feed the spill file adds |
| `PropWriter.ValueParser` | process.py:141 | `PROP_PARSERS.get(prop, str)`: a registered property's values go through its table entry; an unregistered property's values are returned as their text |
| `PropWriter.WriteDocument` | process.py:139-162 | a property's document goes to its own path; a finished one reads as the object of one entry per replayed line; an unfinished one holds the entries before the first failing line, and that line's error is reported; the text is exactly the finished or the unfinished layout of those entries |
| `PropWriter.Flush` | process.py:135-162 | documents are written in full in buffer order until one fails; the flush stops there, reporting that document and its error, and no later property gets a file |
| `PropWriter.FlushDistinctPaths` | process.py:136-139 | with a slot in the format, distinct properties of a valid writer's flush get distinct (directory, file name) pairs |
| `PropWriter.WrittenEntries` | process.py:146-152 | with one-line buffers, a document is finished exactly when every stored line reads as an entry, and it then holds exactly those entries |
| `PropWriter.ReplayedEntries` | process.py:133-148 | replayed from the spill file, each stored one-line record reads as it did when stored |
| `PropWriter.LinesOfOneLine` | process.py:117-133 | lines that are single lines stay single lines in their buffer |
| `PropWriter.FedBucket` | process.py:116-136 | after feeding a file, the i-th buffer flushed is the i-th property first seen, holding exactly its lines |
| `PropWriter.FeedAndFlush` | process.py:116-162 | after feeding a file and flushing, each finished document belongs to the next property in first-seen order and goes to its path; it is the JSON object of that property's lines in input order, each read as an entry |
| `PropWriter.FeedAndFlushComplete` | process.py:116-162 | after feeding a file, the flush finishes every document exactly when every property's lines all read as entries |

## Left out

- Logging, `main`, the command line, directory creation and the `with` protocol (`__enter__`, `__exit__`) are not modelled. They only sequence the modelled operations and report progress.
- The generator's laziness is not modelled. `flush` yields each `(prop, path)` pair before the document is written, so a caller that stops iterating stops the flush. The model returns all documents at once.
- File I/O is left out: the file system, temporary-file creation, encodings, the platform line separator (taken as `\n`) and `pathlib` joining. A path is the pair of directory and file name.
- The file name format is modelled as literal pieces and slots filled with the property. Python's format mini-language (conversions, format specs, indexes other than 0) is not modelled.
- Exception types and messages are reduced to an `Error` value naming the offending text. The source's `ValueError` for a bad record, and the `AttributeError` that `parse_hanyu_pinlu` raises on an entry that does not match, are both plain errors here.
- `Text.Split`: whitespace is Python's ASCII whitespace (tab to carriage return, 0x1C-0x1F and space). The non-ASCII whitespace `str.split()` also honours (U+0085, U+00A0, U+2000 and others) is not modelled.
- `Numbers.ParseInt`: models `int()` on ASCII text, which strips only tab to carriage return and space. When the text holds any non-ASCII character, Python first turns every Unicode whitespace character (U+001C-U+001F included) into a space and every Unicode decimal digit into its ASCII digit; that conversion is not modelled. Underscores between digits are not accepted.
- `Text.LStrip`: skips ASCII whitespace only. `lstrip()` also skips non-ASCII whitespace, so a line such as `"\u3000# x"` is a comment to the source but is taken as a record (and rejected for lack of tabs) by the model.
- `Codepoints.ParseUnicodePoint`: rejects surrogate code points (U+D800-U+DFFF). Python's `chr` accepts them, and the failure only comes later when the document is written as UTF-8. A Dafny `char` cannot hold them.
- `ValueParsers.ParserFor`: the table is not proved free of repeated properties, so a registered property is promised the parser of the first row naming it. Python's dict literal would keep the last such row. The source's table names each property once, in alphabetical order, so the two agree.
- `Json.Dumps`: models `json.dumps` only for the values the converter emits (strings, integers, lists, dictionaries with string keys). Floats, booleans and `None` never occur.
- `PropWriter.FeedAndFlush` and `PropWriter.FeedAndFlushComplete`: assume each fed line holds no line break before its terminator, as file iteration guarantees. `Spill.ReplayBrokenLine` shows what happens to a line that does: it comes back as two lines.
- `PropWriter.FlushDistinctPaths`: distinct (directory, file name) pairs need not be distinct files. `pathlib` folds `./x.json` into `x.json`, an absolute file name leaves the directory, and a case-insensitive file system merges `kA.json` and `ka.json`. The model's paths are not resolved against a file system.
- `PropWriter.Flush`: does not release the spill files, following the code. Closing them when the context manager exits is left out with the `with` protocol.
