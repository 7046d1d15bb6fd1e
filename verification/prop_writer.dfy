/** `PropWriter`: the converter's core. It reads database lines of the
  form `U+XXXX<TAB>property<TAB>value`, spills each line into a buffer
  kept per property (in the order properties are first seen), and on
  flush writes one JSON document per property, mapping each character to
  its parsed value.

  The writer is a value here: feeding a line yields the next writer, and
  flushing yields the documents the flush writes, in order.
 */
module PropWriter {
  import opened Results
  import opened Text
  import opened OrderedMaps
  import opened Codepoints
  import opened Json
  import opened JsonRead
  import opened Spill
  import opened ValueParsers
  import opened Documents

  // ---------------------------------------------------------------------
  // Output paths
  // ---------------------------------------------------------------------

  /** A file name format, already parsed: literal text, and slots that
      `str.format` fills with the property name. */
  datatype Piece = Lit(text: string) | Slot

  type Template = seq<Piece>

  /** `DEFAULT_FILENAME_FORMAT`, i.e. `'{0}.json'`. */
  const DefaultTemplate: Template := [Slot, Lit(".json")]

  /** `filename_format.format(prop)` */
  function FileName(template: Template, prop: string): string {
    if |template| == 0 then ""
    else
      (match template[0] case Lit(text) => text case Slot => prop) + FileName(template[1..], prop)
  }

  /** `directory_path / name` */
  datatype Path = Path(directory: string, name: string)

  function LiteralLength(template: Template): nat {
    if |template| == 0 then 0
    else (match template[0] case Lit(text) => |text| case Slot => 0) + LiteralLength(template[1..])
  }

  function SlotCount(template: Template): nat {
    if |template| == 0 then 0
    else (if template[0].Slot? then 1 else 0) + SlotCount(template[1..])
  }

  /** A name is the literal text plus one copy of the property per slot. */
  lemma {:induction false} FileNameLength(template: Template, prop: string)
    ensures |FileName(template, prop)| == LiteralLength(template) + SlotCount(template) * |prop|
    decreases |template|
  {
    if |template| > 0 {
      FileNameLength(template[1..], prop);
      var k := SlotCount(template[1..]);
      if template[0].Slot? {
        assert (1 + k) * |prop| == |prop| + k * |prop|;
      }
    }
  }

  lemma {:induction false} SlotCounted(template: Template)
    requires Slot in template
    ensures SlotCount(template) > 0
    decreases |template|
  {
    if template[0] != Slot {
      assert Slot in template[1..];
      SlotCounted(template[1..]);
    }
  }

  lemma {:induction false} FileNameSameLength(template: Template, p: string, q: string)
    requires Slot in template && |p| == |q|
    requires FileName(template, p) == FileName(template, q)
    ensures p == q
    decreases |template|
  {
    var head := match template[0] case Lit(text) => text case Slot => "";
    if template[0] == Slot {
      assert FileName(template, p)[..|p|] == p;
      assert FileName(template, q)[..|q|] == q;
    } else {
      assert Slot in template[1..];
      var np := FileName(template[1..], p);
      var nq := FileName(template[1..], q);
      assert FileName(template, p) == head + np && FileName(template, q) == head + nq;
      assert np == (head + np)[|head|..] && nq == (head + nq)[|head|..];
      FileNameSameLength(template[1..], p, q);
    }
  }

  /** With a slot in the format, distinct properties get distinct files, so
      no document overwrites another. */
  lemma FileNameInjective(template: Template, p: string, q: string)
    requires Slot in template
    requires FileName(template, p) == FileName(template, q)
    ensures p == q
  {
    FileNameLength(template, p);
    FileNameLength(template, q);
    SlotCounted(template);
    MulCancel(SlotCount(template), |p|, |q|);
    FileNameSameLength(template, p, q);
  }

  lemma MulCancel(k: int, a: int, b: int)
    requires k > 0 && k * a == k * b
    ensures a == b
  {
    assert k * (a - b) == k * a - k * b;
  }

  /** The default format names each file after its property. */
  lemma DefaultFileName(prop: string)
    ensures FileName(DefaultTemplate, prop) == prop + ".json"
  {
    var rest := DefaultTemplate[1..];
    assert rest[1..] == [];
    assert FileName(rest, prop) == ".json" + FileName(rest[1..], prop);
  }

  // ---------------------------------------------------------------------
  // Records
  // ---------------------------------------------------------------------

  /** The three fields of a database line. */
  datatype Record = Record(code: string, prop: string, value: string)

  /** `code, prop, value = line.split('\t', 2)`: the first two tabs separate
      the fields; the value keeps any further tabs. None where Python's
      unpacking raises, i.e. with fewer than two tabs. */
  function SplitRecord(line: string): (r: Option<Record>)
    ensures r.Some? <==> multiset(line)['\t'] >= 2
    ensures r.Some? ==> line == r.value.code + "\t" + r.value.prop + "\t" + r.value.value
    ensures r.Some? ==> '\t' !in r.value.code && '\t' !in r.value.prop
  {
    match SplitFirst(line, '\t')
    case None => None
    case Some((code, rest)) =>
      CountAround(code, '\t', rest);
      match SplitFirst(rest, '\t')
      case None =>
        CountAround(code, '\t', rest);
        None
      case Some((prop, value)) =>
        CountAround(prop, '\t', value);
        JoinFields(line, code, rest, prop, value);
        Some(Record(code, prop, value))
  }

  lemma JoinFields(line: string, code: string, rest: string, prop: string, value: string)
    requires line == code + ['\t'] + rest && rest == prop + ['\t'] + value
    ensures line == code + "\t" + prop + "\t" + value
  {
    calc {
      line;
      code + ['\t'] + (prop + ['\t'] + value);
      { assert prop + ['\t'] + value == prop + (['\t'] + value); }
      code + ['\t'] + (prop + (['\t'] + value));
      code + ['\t'] + prop + ['\t'] + value;
    }
  }

  /** Occurrences of `c` on either side of one `c`, where the left side has none. */
  lemma CountAround(a: string, c: char, b: string)
    requires c !in a
    ensures multiset(a + [c] + b)[c] == 1 + multiset(b)[c]
  {
    assert multiset(a + [c] + b) == multiset(a) + multiset([c]) + multiset(b);
    assert multiset(a)[c] == 0;
  }

  /** Fields without tabs, joined by tabs, split back into those fields. */
  lemma SplitRecordOf(code: string, prop: string, value: string)
    requires '\t' !in code && '\t' !in prop
    ensures SplitRecord(code + "\t" + prop + "\t" + value) == Some(Record(code, prop, value))
  {
    var line := code + "\t" + prop + "\t" + value;
    assert line == code + ['\t'] + (prop + "\t" + value);
    SplitFirstAt(code, '\t', prop + "\t" + value);
    assert prop + "\t" + value == prop + ['\t'] + value;
    SplitFirstAt(prop, '\t', value);
  }

  /** Dropping trailing line breaks touches only the value. */
  lemma SplitStrippedRecord(line: string)
    requires SplitRecord(line).Some?
    ensures var r := SplitRecord(line).value;
      SplitRecord(RStripNewlines(line)) == Some(Record(r.code, r.prop, RStripNewlines(r.value)))
  {
    var r := SplitRecord(line).value;
    var head := r.code + "\t" + r.prop;
    assert line == head + ['\t'] + r.value;
    RStripNewlinesAfter(head, '\t', r.value);
    assert RStripNewlines(line) == r.code + "\t" + r.prop + "\t" + RStripNewlines(r.value);
    SplitRecordOf(r.code, r.prop, RStripNewlines(r.value));
  }

  // ---------------------------------------------------------------------
  // Feeding lines
  // ---------------------------------------------------------------------

  /** The converter's state: where documents go, how they are named, and
      the spilled lines of each property, in first-seen order. */
  datatype Writer = Writer(directory: string, template: Template, buckets: Assoc<string, seq<string>>)

  /** `PropWriter(directory_path, filename_format)` */
  function NewWriter(directory: string, template: Template): (w: Writer)
    ensures Valid(w) && Keys(w.buckets) == []
  {
    Writer(directory, template, [])
  }

  /** Blank lines and `#` comments, after leading whitespace, are ignored. */
  predicate Skipped(line: string) {
    var t := LStrip(line);
    |t| == 0 || t[0] == '#'
  }

  /** A spilled line of property `prop`: it splits into three fields, the
      second being `prop`, and has no line break at its end. */
  predicate SpilledFor(prop: string, stored: string) {
    && SplitRecord(stored).Some?
    && SplitRecord(stored).value.prop == prop
    && (|stored| == 0 || !IsLineBreak(stored[|stored| - 1]))
  }

  predicate BucketFor(prop: string, stored: seq<string>) {
    |stored| > 0 && forall j :: 0 <= j < |stored| ==> SpilledFor(prop, stored[j])
  }

  /** What feeding maintains: one buffer per property, never empty, holding
      only that property's lines. */
  predicate Valid(w: Writer) {
    DistinctKeys(w.buckets) &&
    forall i :: 0 <= i < |w.buckets| ==> BucketFor(w.buckets[i].0, w.buckets[i].1)
  }

  /** `feed_line`: ignores blank and comment lines, rejects a line with fewer
      than three fields, and otherwise appends the line, without its
      trailing line breaks, to its property's buffer, creating the buffer
      at the end of the order the first time the property is seen. */
  function FeedLine(w: Writer, line: string): (r: Result<Writer>)
    ensures Skipped(line) ==> r == Ok(w)
    ensures !Skipped(line) && SplitRecord(line).None? ==> r == Err(MalformedRecord(line))
    ensures SplitRecord(line).Some? ==> r.Ok?
    ensures r.Ok? ==> r.value.directory == w.directory && r.value.template == w.template
  {
    if Skipped(line) then Ok(w)
    else
      match SplitRecord(line)
      case None => Err(MalformedRecord(line))
      case Some(record) =>
        var bucket := Lookup(w.buckets, record.prop).GetOr([]);
        Ok(w.(buckets := Put(w.buckets, record.prop, bucket + [RStripNewlines(line)])))
  }

  /** A fed line goes to the end of its property's buffer, and the
      property joins the end of the order if it is new. */
  lemma FeedLineBucket(w: Writer, line: string)
    requires !Skipped(line) && SplitRecord(line).Some?
    ensures var prop := SplitRecord(line).value.prop;
      var r := FeedLine(w, line).value;
      && Keys(r.buckets) == (if prop in Keys(w.buckets) then Keys(w.buckets) else Keys(w.buckets) + [prop])
      && Lookup(r.buckets, prop) == Some(Lookup(w.buckets, prop).GetOr([]) + [RStripNewlines(line)])
  {
  }

  /** Feeding a line leaves every other property's buffer as it was. */
  lemma FeedLineOther(w: Writer, line: string, other: string)
    requires FeedLine(w, line).Ok?
    requires Skipped(line) || SplitRecord(line).value.prop != other
    ensures Lookup(FeedLine(w, line).value.buckets, other) == Lookup(w.buckets, other)
  {
    if !Skipped(line) {
      var record := SplitRecord(line).value;
      PutOther(w.buckets, record.prop, Lookup(w.buckets, record.prop).GetOr([]) + [RStripNewlines(line)], other);
    }
  }

  /** Feeding keeps the writer valid. */
  lemma FeedLineValid(w: Writer, line: string)
    requires Valid(w) && FeedLine(w, line).Ok?
    ensures Valid(FeedLine(w, line).value)
  {
    if !Skipped(line) {
      var record := SplitRecord(line).value;
      var stored := RStripNewlines(line);
      var bucket := Lookup(w.buckets, record.prop).GetOr([]);
      StoredSpilled(line);
      if Lookup(w.buckets, record.prop).Some? {
        LookupFound(w.buckets, record.prop);
        BucketOfPair(w.buckets, (record.prop, bucket));
      }
      BucketSnoc(record.prop, bucket, stored);
      PutValid(w, record.prop, bucket + [stored]);
    }
  }

  /** The line as spilled still splits, with the same property. */
  lemma StoredSpilled(line: string)
    requires SplitRecord(line).Some?
    ensures SpilledFor(SplitRecord(line).value.prop, RStripNewlines(line))
  {
    SplitStrippedRecord(line);
  }

  lemma BucketSnoc(prop: string, bucket: seq<string>, stored: string)
    requires |bucket| == 0 || BucketFor(prop, bucket)
    requires SpilledFor(prop, stored)
    ensures BucketFor(prop, bucket + [stored])
  {
    var b := bucket + [stored];
    forall j | 0 <= j < |b| ensures SpilledFor(prop, b[j]) {
      if j < |bucket| { assert b[j] == bucket[j]; }
    }
  }

  lemma BucketOfPair(m: Assoc<string, seq<string>>, pair: (string, seq<string>))
    requires forall i :: 0 <= i < |m| ==> BucketFor(m[i].0, m[i].1)
    requires pair in m
    ensures BucketFor(pair.0, pair.1)
  {
    var i :| 0 <= i < |m| && m[i] == pair;
  }

  lemma PutValid(w: Writer, prop: string, bucket: seq<string>)
    requires Valid(w) && BucketFor(prop, bucket)
    ensures Valid(w.(buckets := Put(w.buckets, prop, bucket)))
  {
    var m := w.buckets;
    var m' := Put(m, prop, bucket);
    PutDistinct(m, prop, bucket);
    PutFrom(m, prop, bucket);
    forall i | 0 <= i < |m'| ensures BucketFor(m'[i].0, m'[i].1) {
      assert m'[i] in m';
      if m'[i] != (prop, bucket) {
        BucketOfPair(m, m'[i]);
      }
    }
  }

  /** `feed_file`: feeds the lines in order; the first malformed line stops
      the run with its error. */
  function FeedLines(w: Writer, lines: seq<string>): (r: Result<Writer>)
    ensures r.Ok? <==> AllRecords(lines)
    ensures r.Ok? ==> r.value.directory == w.directory && r.value.template == w.template
    ensures r.Err? ==> Rejects(lines, r.error)
    decreases |lines|
  {
    if |lines| == 0 then Ok(w)
    else
      var prev := FeedLines(w, lines[..|lines| - 1]);
      var r := if prev.Err? then prev else FeedLine(prev.value, lines[|lines| - 1]);
      FeedLinesStep(w, lines, prev, r);
      r
  }

  /** The contract of `FeedLines` carries over from all lines but the last
      to all lines. */
  lemma FeedLinesStep(w: Writer, lines: seq<string>, prev: Result<Writer>, r: Result<Writer>)
    requires |lines| > 0
    requires prev.Ok? <==> AllRecords(lines[..|lines| - 1])
    requires prev.Ok? ==> prev.value.directory == w.directory && prev.value.template == w.template
    requires prev.Err? ==> Rejects(lines[..|lines| - 1], prev.error)
    requires r == if prev.Err? then prev else FeedLine(prev.value, lines[|lines| - 1])
    ensures r.Ok? <==> AllRecords(lines)
    ensures r.Ok? ==> r.value.directory == w.directory && r.value.template == w.template
    ensures r.Err? ==> Rejects(lines, r.error)
  {
    if prev.Err? {
      RejectsSnoc(lines, prev.error);
    } else {
      FeedLastLine(lines, prev.value, r);
    }
  }

  /** Feeding the last line after an accepted prefix. */
  lemma FeedLastLine(lines: seq<string>, w: Writer, r: Result<Writer>)
    requires |lines| > 0 && AllRecords(lines[..|lines| - 1])
    requires r == FeedLine(w, lines[|lines| - 1])
    ensures r.Ok? <==> AllRecords(lines)
    ensures r.Err? ==> Rejects(lines, r.error)
  {
    var init, last := lines[..|lines| - 1], lines[|lines| - 1];
    AllRecordsSnoc(init, last);
    assert init + [last] == lines;
    if !IsRecordOrSkipped(last) {
      assert r == Err(MalformedRecord(last));
      assert lines[..|init|] == init;
    }
  }

  /** The first line of `lines` that is neither skipped nor a record is
      the one `e` reports. */
  predicate Rejects(lines: seq<string>, e: Error) {
    exists k :: 0 <= k < |lines| && e == MalformedRecord(lines[k]) && !IsRecordOrSkipped(lines[k])
                && AllRecords(lines[..k])
  }

  /** A rejected prefix rejects the whole file, which then is not all records. */
  lemma RejectsSnoc(lines: seq<string>, e: Error)
    requires |lines| > 0 && Rejects(lines[..|lines| - 1], e)
    ensures Rejects(lines, e) && !AllRecords(lines)
  {
    var init := lines[..|lines| - 1];
    var k :| 0 <= k < |init| && e == MalformedRecord(init[k]) && !IsRecordOrSkipped(init[k]) && AllRecords(init[..k]);
    assert lines[k] == init[k];
    assert lines[..k] == init[..k];
  }

  /** A line `feed_line` accepts. */
  predicate IsRecordOrSkipped(line: string) {
    Skipped(line) || SplitRecord(line).Some?
  }

  predicate AllRecords(lines: seq<string>) {
    forall i :: 0 <= i < |lines| ==> IsRecordOrSkipped(lines[i])
  }

  lemma AllRecordsSnoc(init: seq<string>, last: string)
    ensures AllRecords(init + [last]) <==> AllRecords(init) && IsRecordOrSkipped(last)
  {
    var lines := init + [last];
    if AllRecords(init) && IsRecordOrSkipped(last) {
      forall i | 0 <= i < |lines| ensures IsRecordOrSkipped(lines[i]) {
        if i < |init| { assert lines[i] == init[i]; }
      }
    }
    if AllRecords(lines) {
      forall i | 0 <= i < |init| ensures IsRecordOrSkipped(init[i]) {
        assert lines[i] == init[i];
      }
      assert lines[|init|] == last;
    }
  }

  lemma {:induction false} FeedLinesValid(w: Writer, lines: seq<string>)
    requires Valid(w) && FeedLines(w, lines).Ok?
    ensures Valid(FeedLines(w, lines).value)
    decreases |lines|
  {
    if |lines| > 0 {
      var init := lines[..|lines| - 1];
      FeedLinesValid(w, init);
      FeedLineValid(FeedLines(w, init).value, lines[|lines| - 1]);
    }
  }

  // ---------------------------------------------------------------------
  // Feeding groups lines by property
  // ---------------------------------------------------------------------

  /** The properties of the lines that are not skipped, in order, repeats included. */
  function PropsOf(lines: seq<string>): seq<string>
    requires AllRecords(lines)
  {
    if |lines| == 0 then []
    else
      var init := lines[..|lines| - 1];
      var last := lines[|lines| - 1];
      assert forall i :: 0 <= i < |init| ==> init[i] == lines[i];
      if Skipped(last) then PropsOf(init) else PropsOf(init) + [SplitRecord(last).value.prop]
  }

  /** The lines of property `prop`, in order, as they are spilled. */
  function LinesOf(lines: seq<string>, prop: string): seq<string>
    requires AllRecords(lines)
  {
    if |lines| == 0 then []
    else
      var init := lines[..|lines| - 1];
      var last := lines[|lines| - 1];
      assert forall i :: 0 <= i < |init| ==> init[i] == lines[i];
      if !Skipped(last) && SplitRecord(last).value.prop == prop then LinesOf(init, prop) + [RStripNewlines(last)]
      else LinesOf(init, prop)
  }

  lemma {:induction false} LinesOfAbsent(lines: seq<string>, prop: string)
    requires AllRecords(lines)
    requires prop !in PropsOf(lines)
    ensures LinesOf(lines, prop) == []
    decreases |lines|
  {
    if |lines| > 0 {
      var init := lines[..|lines| - 1];
      assert forall i :: 0 <= i < |init| ==> init[i] == lines[i];
      assert prop !in PropsOf(init);
      LinesOfAbsent(init, prop);
    }
  }

  /** Starting from a new writer, the buffers are the lines grouped by
      property: the properties in the order first seen, ... */
  lemma {:induction false} FeedLinesKeys(directory: string, template: Template, lines: seq<string>)
    requires AllRecords(lines)
    ensures Keys(FeedLines(NewWriter(directory, template), lines).value.buckets) == FirstSeen(PropsOf(lines))
    decreases |lines|
  {
    if |lines| > 0 {
      var init := lines[..|lines| - 1];
      var last := lines[|lines| - 1];
      assert forall i :: 0 <= i < |init| ==> init[i] == lines[i];
      FeedLinesKeys(directory, template, init);
      FirstSeenMembers(PropsOf(init));
      if !Skipped(last) {
        var props := PropsOf(init) + [SplitRecord(last).value.prop];
        assert props[..|props| - 1] == PropsOf(init);
      }
    }
  }

  /** ... and each property's buffer holds exactly its lines, in input order. */
  lemma {:induction false} FeedLinesLookup(directory: string, template: Template, lines: seq<string>, prop: string)
    requires AllRecords(lines)
    ensures Lookup(FeedLines(NewWriter(directory, template), lines).value.buckets, prop)
         == if prop in PropsOf(lines) then Some(LinesOf(lines, prop)) else None
    decreases |lines|
  {
    if |lines| > 0 {
      var init := lines[..|lines| - 1];
      var last := lines[|lines| - 1];
      assert forall i :: 0 <= i < |init| ==> init[i] == lines[i];
      FeedLinesLookup(directory, template, init, prop);
      var w := FeedLines(NewWriter(directory, template), init).value;
      if Skipped(last) || SplitRecord(last).value.prop != prop {
        FeedLineOther(w, last, prop);
      } else if prop !in PropsOf(init) {
        LinesOfAbsent(init, prop);
      }
    }
  }

  // ---------------------------------------------------------------------
  // Flushing
  // ---------------------------------------------------------------------

  /** One spilled line as the flush reads it back: the line without its
      line breaks splits into three fields (else the flush stops with the
      line quoted), the code becomes the entry's one-character key, and
      `parse`, the property's value parser, turns the value into the
      entry's value. */
  function ReadEntry(parse: string -> Result<Json>, line: string): (r: Result<(string, Json)>)
    ensures SplitRecord(RStripNewlines(line)).None? ==> r == Err(MalformedRecord(line))
    ensures r.Ok? ==> |r.value.0| == 1
    ensures r.Ok? ==> var record := SplitRecord(RStripNewlines(line)).value;
      ParseUnicodePoint(record.code) == Ok(r.value.0[0]) && parse(record.value) == Ok(r.value.1)
    ensures SplitRecord(RStripNewlines(line)).Some? ==> var record := SplitRecord(RStripNewlines(line)).value;
      r.Ok? <==> ParseUnicodePoint(record.code).Ok? && parse(record.value).Ok?
    ensures SplitRecord(RStripNewlines(line)).Some? ==> var record := SplitRecord(RStripNewlines(line)).value;
      ParseUnicodePoint(record.code).Err? ==> r == Err(ParseUnicodePoint(record.code).error)
    ensures SplitRecord(RStripNewlines(line)).Some? ==> var record := SplitRecord(RStripNewlines(line)).value;
      ParseUnicodePoint(record.code).Ok? && parse(record.value).Err? ==> r == Err(parse(record.value).error)
  {
    match SplitRecord(RStripNewlines(line))
    case None => Err(MalformedRecord(line))
    case Some(record) =>
      var c :- ParseUnicodePoint(record.code);
      var v :- parse(record.value);
      Ok(([c], v))
  }

  /** A line in the database's notation reads back as its character keyed
      to the parsed value, or fails exactly as the parser fails. */
  lemma ReadEntryOf(parse: string -> Result<Json>, c: char, prop: string, value: string)
    requires '\t' !in prop && (|value| == 0 || !IsLineBreak(value[|value| - 1]))
    ensures ReadEntry(parse, ShowUnicodePoint(c) + "\t" + prop + "\t" + value + "\n")
         == match parse(value) case Ok(v) => Ok(([c], v)) case Err(e) => Err(e)
  {
    SpilledFields(ShowUnicodePoint(c), prop, value);
    ParseShowUnicodePoint(c);
  }

  /** A line as replayed, fields and line feed, splits back into its fields. */
  lemma SpilledFields(code: string, prop: string, value: string)
    requires '\t' !in code && '\t' !in prop && (|value| == 0 || !IsLineBreak(value[|value| - 1]))
    ensures SplitRecord(RStripNewlines(code + "\t" + prop + "\t" + value + "\n")) == Some(Record(code, prop, value))
  {
    var fields := code + "\t" + prop + "\t" + value;
    RStripNewlinesTerminated(fields, "\n");
    SplitRecordOf(code, prop, value);
  }

  /** A stored line reads the same once the spill file has given it back
      with its line feed. */
  lemma ReadEntryTerminated(parse: string -> Result<Json>, stored: string)
    requires |stored| == 0 || !IsLineBreak(stored[|stored| - 1])
    ensures ReadEntry(parse, stored + "\n").Ok? <==> ReadEntry(parse, stored).Ok?
    ensures ReadEntry(parse, stored + "\n").Ok? ==> ReadEntry(parse, stored + "\n") == ReadEntry(parse, stored)
  {
    RStripNewlinesTerminated(stored, "\n");
    RStripNewlinesTerminated(stored, "");
    assert stored + "" == stored;
  }

  /** `PROP_PARSERS.get(prop, str)`, as the function the flush applies to
      each value of `prop`. */
  function ValueParser(prop: string): (parse: string -> Result<Json>)
    ensures prop !in Keys(PropParsers) ==> forall value :: parse(value) == Ok(JString(value))
    ensures prop in Keys(PropParsers) ==> forall value :: parse(value) == Apply(Lookup(PropParsers, prop).value, value)
  {
    value => Apply(ParserFor(prop), value)
  }

  /** An output file: the property, where it goes, and what it holds. */
  datatype Document = Document(prop: string, path: Path, text: string)

  /** The document one property's flush writes, `parse` being the
      property's value parser: its lines replayed from the spill file are
      read one by one and written out as they go; the first line that
      fails stops the document, leaving what was written so far. Returns
      the document, the entries it holds, and the failure. */
  function WriteDocument(directory: string, template: Template, prop: string,
                         parse: string -> Result<Json>, bucket: seq<string>)
    : (r: (Document, seq<(string, Json)>, Option<Error>))
    ensures r.0.prop == prop && r.0.path == Path(directory, FileName(template, prop))
    ensures var lines := ReadLines(Content(bucket));
      && |r.1| <= |lines|
      && (forall i :: 0 <= i < |r.1| ==> ReadEntry(parse, lines[i]) == Ok(r.1[i]))
      && (r.2.None? ==> |r.1| == |lines| && Parse(r.0.text) == Some(JObject(r.1)))
      && (r.2.Some? ==> |r.1| < |lines| && ReadEntry(parse, lines[|r.1|]) == Err(r.2.value))
      && (r.2.Some? ==> Parse(r.0.text + "\n}\n") == Some(JObject(r.1)))
    ensures r.2.None? ==> r.0.text == Complete(r.1)
    ensures r.2.Some? ==> r.0.text == Partial(r.1)
  {
    var decoded := MapWhileOk(line => ReadEntry(parse, line), ReadLines(Content(bucket)));
    var entries := decoded.0;
    if decoded.1.None? then
      ParseComplete(entries);
      (Document(prop, Path(directory, FileName(template, prop)), Complete(entries)), entries, None)
    else
      ParsePartial(entries);
      (Document(prop, Path(directory, FileName(template, prop)), Partial(entries)), entries, decoded.1)
  }

  /** How a flush ends: the documents written in full, in order, and, if a
      line failed, the document it left unfinished and the error. */
  datatype Flushed = Flushed(written: seq<Document>, aborted: Option<(Document, Error)>)

  /** `flush`: writes the properties' documents in first-seen order; an
      error stops the flush, and the properties after it get no file. */
  function Flush(w: Writer): (r: Flushed)
    ensures |r.written| <= |w.buckets|
    ensures r.aborted.None? <==> |r.written| == |w.buckets|
    ensures forall i :: 0 <= i < |r.written| ==>
      var d := WriteDocument(w.directory, w.template, w.buckets[i].0, ValueParser(w.buckets[i].0), w.buckets[i].1);
      d.2.None? && r.written[i] == d.0
    ensures r.aborted.Some? ==>
      var d := WriteDocument(w.directory, w.template, w.buckets[|r.written|].0, ValueParser(w.buckets[|r.written|].0), w.buckets[|r.written|].1);
      d.2.Some? && r.aborted.value == (d.0, d.2.value)
  {
    var run := RunUntilFailure(
      (bucket: (string, seq<string>)) =>
        var d := WriteDocument(w.directory, w.template, bucket.0, ValueParser(bucket.0), bucket.1); (d.0, d.2),
      w.buckets);
    Flushed(run.0, run.1)
  }

  // ---------------------------------------------------------------------
  // What the flush writes
  // ---------------------------------------------------------------------

  /** No document overwrites another: with a slot in the name format, the
      documents of a valid writer's flush go to distinct paths. */
  lemma FlushDistinctPaths(w: Writer, i: nat, j: nat)
    requires Valid(w) && Slot in w.template
    requires i < j < |Flush(w).written|
    ensures Flush(w).written[i].path != Flush(w).written[j].path
  {
    var written := Flush(w).written;
    assert Keys(w.buckets)[i] != Keys(w.buckets)[j];
    if written[i].path == written[j].path {
      FileNameInjective(w.template, w.buckets[i].0, w.buckets[j].0);
    }
  }

  /** Spilled lines free of line breaks come back from the spill file one
      for one, so a property's document is complete exactly when each of
      its stored lines reads as an entry, and then holds those entries. */
  lemma WrittenEntries(directory: string, template: Template, prop: string,
                       parse: string -> Result<Json>, bucket: seq<string>)
    requires SingleLines(bucket)
    ensures var d := WriteDocument(directory, template, prop, parse, bucket);
      var all := MapAll(line => ReadEntry(parse, line), bucket);
      (d.2.None? <==> all.Ok?) && (all.Ok? ==> d.1 == all.value)
  {
    var d := WriteDocument(directory, template, prop, parse, bucket);
    ReplayedEntries(parse, bucket);
    StoppedRun(line => ReadEntry(parse, line), ReadLines(Content(bucket)), bucket, d.1, d.2.Some?);
  }

  /** Replayed from the spill file, each stored line reads as it did when stored. */
  lemma ReplayedEntries(parse: string -> Result<Json>, bucket: seq<string>)
    requires SingleLines(bucket)
    ensures var lines := ReadLines(Content(bucket));
      && |lines| == |bucket|
      && forall j :: 0 <= j < |bucket| ==>
        && (ReadEntry(parse, lines[j]).Ok? <==> ReadEntry(parse, bucket[j]).Ok?)
        && (ReadEntry(parse, lines[j]).Ok? ==> ReadEntry(parse, lines[j]) == ReadEntry(parse, bucket[j]))
  {
    var lines := ReadLines(Content(bucket));
    ReplayContent(bucket);
    forall j | 0 <= j < |bucket|
      ensures ReadEntry(parse, lines[j]).Ok? <==> ReadEntry(parse, bucket[j]).Ok?
      ensures ReadEntry(parse, lines[j]).Ok? ==> ReadEntry(parse, lines[j]) == ReadEntry(parse, bucket[j])
    {
      assert lines[j] == bucket[j] + "\n";
      ReadEntryTerminated(parse, bucket[j]);
    }
  }

  /** Each line, once its terminator is stripped, is a single line. */
  predicate OneLineEach(lines: seq<string>) {
    forall k :: 0 <= k < |lines| ==> NoLineBreak(RStripNewlines(lines[k]))
  }

  lemma {:induction false} LinesOfOneLine(lines: seq<string>, prop: string)
    requires AllRecords(lines) && OneLineEach(lines)
    ensures SingleLines(LinesOf(lines, prop))
    decreases |lines|
  {
    if |lines| > 0 {
      var init := lines[..|lines| - 1];
      var last := lines[|lines| - 1];
      assert forall k :: 0 <= k < |init| ==> init[k] == lines[k];
      assert AllRecords(init) && OneLineEach(init);
      LinesOfOneLine(init, prop);
      if !Skipped(last) && SplitRecord(last).value.prop == prop {
        SingleLinesSnoc(LinesOf(init, prop), RStripNewlines(last));
      }
    }
  }

  lemma SingleLinesSnoc(stored: seq<string>, line: string)
    requires SingleLines(stored) && NoLineBreak(line)
    ensures SingleLines(stored + [line])
  {
    var s := stored + [line];
    forall j | 0 <= j < |s| ensures NoLineBreak(s[j]) {
      if j < |stored| { assert s[j] == stored[j]; }
    }
  }

  /** After feeding a file's lines to a new writer, the i-th bucket is the
      i-th property first seen, holding exactly that property's lines. */
  lemma FedBucket(directory: string, template: Template, lines: seq<string>, i: nat)
    requires AllRecords(lines)
    requires i < |FeedLines(NewWriter(directory, template), lines).value.buckets|
    ensures var w := FeedLines(NewWriter(directory, template), lines).value;
      var props := FirstSeen(PropsOf(lines));
      i < |props| && w.buckets[i] == (props[i], LinesOf(lines, props[i]))
  {
    var w := FeedLines(NewWriter(directory, template), lines).value;
    var props := FirstSeen(PropsOf(lines));
    FeedLinesKeys(directory, template, lines);
    FeedLinesValid(NewWriter(directory, template), lines);
    assert Keys(w.buckets)[i] == props[i];
    LookupAt(w.buckets, i);
    FirstSeenMembers(PropsOf(lines));
    FeedLinesLookup(directory, template, lines, props[i]);
  }

  /** Feeding a file and flushing: every document written in full belongs
      to the next property in first-seen order, goes to that property's
      path, and is the JSON object of that property's lines in input
      order, each line read as an entry. */
  lemma FeedAndFlush(directory: string, template: Template, lines: seq<string>, i: nat)
    requires AllRecords(lines) && OneLineEach(lines)
    requires i < |Flush(FeedLines(NewWriter(directory, template), lines).value).written|
    ensures var props := FirstSeen(PropsOf(lines));
      var doc := Flush(FeedLines(NewWriter(directory, template), lines).value).written[i];
      && i < |props|
      && doc.prop == props[i] && doc.path == Path(directory, FileName(template, props[i]))
      && var all := MapAll(line => ReadEntry(ValueParser(props[i]), line), LinesOf(lines, props[i]));
         all.Ok? && Parse(doc.text) == Some(JObject(all.value))
  {
    var w := FeedLines(NewWriter(directory, template), lines).value;
    var props := FirstSeen(PropsOf(lines));
    FedBucket(directory, template, lines, i);
    LinesOfOneLine(lines, props[i]);
    WrittenEntries(directory, template, props[i], ValueParser(props[i]), LinesOf(lines, props[i]));
  }

  /** ... and the flush writes every document in full exactly when every
      property's lines all read as entries. */
  lemma FeedAndFlushComplete(directory: string, template: Template, lines: seq<string>)
    requires AllRecords(lines) && OneLineEach(lines)
    ensures var props := FirstSeen(PropsOf(lines));
      Flush(FeedLines(NewWriter(directory, template), lines).value).aborted.None?
      <==> forall i :: 0 <= i < |props| ==> MapAll(line => ReadEntry(ValueParser(props[i]), line), LinesOf(lines, props[i])).Ok?
  {
    var w := FeedLines(NewWriter(directory, template), lines).value;
    var props := FirstSeen(PropsOf(lines));
    var r := Flush(w);
    FeedLinesKeys(directory, template, lines);
    assert |props| == |w.buckets|;
    forall i | 0 <= i < |props|
      ensures WriteDocument(directory, template, props[i], ValueParser(props[i]), LinesOf(lines, props[i])).2.None?
          <==> MapAll(line => ReadEntry(ValueParser(props[i]), line), LinesOf(lines, props[i])).Ok?
      ensures w.buckets[i] == (props[i], LinesOf(lines, props[i]))
    {
      FedBucket(directory, template, lines, i);
      LinesOfOneLine(lines, props[i]);
      WrittenEntries(directory, template, props[i], ValueParser(props[i]), LinesOf(lines, props[i]));
    }
  }
}

