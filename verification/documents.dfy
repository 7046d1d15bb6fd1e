/** The layout of the converter's output documents: one JSON object per
  property, opened with `{`, one entry per line, closed with `}` and a
  line feed. The reader in `JsonRead` shows each is valid JSON.
 */
module Documents {
  import opened Results
  import opened Text
  import opened Json
  import opened JsonRead

  /** Between the braces of an output document: each entry on its own
      line, indented by a tab, `"key":value` with no space, separated by
      commas at the line ends. */
  function Body(entries: seq<(string, Json)>): string {
    if |entries| == 0 then "" else "\n\t" + MembersText(entries, ":", ",\n\t")
  }

  /** A document the flush finished. */
  function Complete(entries: seq<(string, Json)>): string {
    "{" + Body(entries) + "\n}\n"
  }

  /** What is left of a document whose flush stopped at a bad line: the
      opening brace and the entries before that line. */
  function Partial(entries: seq<(string, Json)>): string {
    "{" + Body(entries)
  }

  /** The flush's output is JSON: reading a finished document gives back
      an object with exactly its entries, in order. */
  lemma ParseComplete(entries: seq<(string, Json)>)
    ensures Parse(Complete(entries)) == Some(JObject(entries))
  {
    var text := Complete(entries);
    assert text == "{" + (Body(entries) + "\n}\n");
    assert text[0] == '{' && SkipSpace(text) == text;
    assert text[1..] == Body(entries) + "\n}\n";
    ReadObjectBody(entries);
    ValueObjectStep(text, entries, "\n");
    assert SkipSpace("\n") == "" by {
      assert "\n"[1..] == "";
    }
  }

  /** Everything after the opening brace reads as the entries, leaving the final line feed. */
  lemma ReadObjectBody(entries: seq<(string, Json)>)
    ensures ReadObject(Body(entries) + "\n}\n") == Some((entries, "\n"))
  {
    if |entries| == 0 {
      assert Body(entries) + "\n}\n" == "\n" + "}" + "\n";
      ClosingSpace("\n", "}", "\n");
    } else {
      ReadMembersBody(entries);
    }
  }

  lemma ReadMembersBody(entries: seq<(string, Json)>)
    requires |entries| > 0
    ensures ReadObject(Body(entries) + "\n}\n") == Some((entries, "\n"))
  {
    var m := MembersText(entries, ":", ",\n\t");
    var close := "\n}\n";
    assert close == "\n" + "}" + "\n";
    var x := m + close;
    ReadMembersLayout(entries);
    MembersTextStart(entries, ":", ",\n\t");
    assert x[0] == '"';
    Assoc("\n\t", m, close);
    SkipSpaceOver("\n\t", x);
  }

  /** The entries with the document's separators read as the object's members. */
  lemma ReadMembersLayout(entries: seq<(string, Json)>)
    requires |entries| > 0
    ensures ReadMembers(MembersText(entries, ":", ",\n\t") + ("\n" + "}" + "\n")) == Some((entries, "\n"))
  {
    var colon, comma := "" + ":" + "", "" + "," + "\n\t";
    assert colon == ":";
    assert comma == ",\n\t";
    assert AllJsonSpace("\n\t");
    ReadMembersText(entries, "", "", "", "\n\t", "\n", "\n");
    assert MembersText(entries, colon, comma) == MembersText(entries, ":", ",\n\t");
  }

  /** A partial document closed the way the flush would have closed it
      reads as the entries written before the failure. */
  lemma ParsePartial(entries: seq<(string, Json)>)
    ensures Parse(Partial(entries) + "\n}\n") == Some(JObject(entries))
  {
    assert Partial(entries) + "\n}\n" == Complete(entries);
    ParseComplete(entries);
  }

  // ---------------------------------------------------------------------
  // Line by line
  // ---------------------------------------------------------------------

  /** One entry as its line shows it: a tab, the key as a JSON string, a
      colon and the value. */
  function EntryLine(entry: (string, Json)): string {
    "\t" + Quote(entry.0) + ":" + Dumps(entry.1)
  }

  /** The entry lines of a document, every one but the last followed by a
      comma. */
  function EntryLines(entries: seq<(string, Json)>): seq<string> {
    seq(|entries|, i requires 0 <= i < |entries| => EntryLine(entries[i]) + (if i < |entries| - 1 then "," else ""))
  }

  /** A finished document, split at its line feeds: the opening brace, one
      line per entry in order, the closing brace, and nothing after the
      final line feed. */
  lemma CompleteLines(entries: seq<(string, Json)>)
    ensures SplitAll(Complete(entries), '\n') == ["{"] + EntryLines(entries) + ["}", ""]
  {
    var pieces := ["{"] + EntryLines(entries) + ["}", ""];
    CompleteJoin(entries);
    EntryLinesSingle(entries);
    assert forall i :: 0 <= i < |pieces| ==> '\n' !in pieces[i] by {
      forall i | 0 <= i < |pieces| ensures '\n' !in pieces[i] {
        if 0 < i <= |EntryLines(entries)| {
          assert pieces[i] == EntryLines(entries)[i - 1];
        }
      }
    }
    SplitAllJoin(pieces, '\n');
  }

  lemma CompleteJoin(entries: seq<(string, Json)>)
    ensures Join(["{"] + EntryLines(entries) + ["}", ""], "\n") == Complete(entries)
  {
    var lines := EntryLines(entries);
    var pieces := ["{"] + lines + ["}", ""];
    var close := ["}", ""];
    assert Join(close, "\n") == "}\n";
    if |entries| == 0 {
      assert pieces == ["{"] + close;
      JoinAppend(["{"], close, "\n");
      assert Complete(entries) == "{" + "\n}\n";
    } else {
      var m := MembersText(entries, ":", ",\n\t");
      TabMembers(entries);
      JoinAppend(lines, close, "\n");
      JoinAppend(["{"], lines + close, "\n");
      assert pieces == ["{"] + (lines + close);
      calc {
        Join(pieces, "\n");
        "{" + "\n" + (("\t" + m) + "\n" + "}\n");
        { BraceJoin(m); }
        Complete(entries);
      }
    }
  }

  lemma BraceJoin(m: string)
    ensures "{" + "\n" + (("\t" + m) + "\n" + "}\n") == "{" + ("\n\t" + m) + "\n}\n"
  {
  }

  /** A document cut short, split at its line feeds: the opening brace and
      one line per entry written; the last of them has no comma yet. */
  lemma PartialLines(entries: seq<(string, Json)>)
    ensures SplitAll(Partial(entries), '\n') == ["{"] + EntryLines(entries)
  {
    var lines := EntryLines(entries);
    var pieces := ["{"] + lines;
    PartialJoin(entries);
    EntryLinesSingle(entries);
    assert forall i :: 0 <= i < |pieces| ==> '\n' !in pieces[i] by {
      forall i | 0 <= i < |pieces| ensures '\n' !in pieces[i] {
        if 0 < i {
          assert pieces[i] == lines[i - 1];
        }
      }
    }
    SplitAllJoin(pieces, '\n');
  }

  lemma PartialJoin(entries: seq<(string, Json)>)
    ensures Join(["{"] + EntryLines(entries), "\n") == Partial(entries)
  {
    var lines := EntryLines(entries);
    var pieces := ["{"] + lines;
    if |entries| == 0 {
      assert pieces == ["{"];
      assert Partial(entries) == "{";
    } else {
      var m := MembersText(entries, ":", ",\n\t");
      TabMembers(entries);
      JoinAppend(["{"], lines, "\n");
      calc {
        Join(pieces, "\n");
        "{" + "\n" + Join(lines, "\n");
        "{" + "\n" + ("\t" + m);
        { BraceOpen(m); }
        "{" + ("\n\t" + m);
        { assert Body(entries) == "\n\t" + m; }
        Partial(entries);
      }
    }
  }

  lemma BraceOpen(m: string)
    ensures "{" + "\n" + ("\t" + m) == "{" + ("\n\t" + m)
  {
  }

  /** Joined by line feeds, the entry lines are the body after its first line feed. */
  lemma {:induction false} TabMembers(entries: seq<(string, Json)>)
    requires |entries| > 0
    ensures Join(EntryLines(entries), "\n") == "\t" + MembersText(entries, ":", ",\n\t")
    decreases |entries|
  {
    var line := EntryLine(entries[0]);
    var member := MemberOf(entries);
    if |entries| == 1 {
      EntryLinesOne(entries);
      assert MembersText(entries, ":", ",\n\t") == member;
    } else {
      var rest := entries[1..];
      var tail := MembersText(rest, ":", ",\n\t");
      EntryLinesCons(entries);
      TabMembers(rest);
      assert MembersText(entries, ":", ",\n\t") == member + ",\n\t" + tail;
      calc {
        Join(EntryLines(entries), "\n");
        (line + ",") + "\n" + Join(EntryLines(rest), "\n");
        (line + ",") + "\n" + ("\t" + tail);
        { TabJoin(line, member, tail); }
        "\t" + (member + ",\n\t" + tail);
      }
    }
  }

  /** The first entry as `MembersText` writes it. */
  function MemberOf(entries: seq<(string, Json)>): (m: string)
    requires |entries| > 0
    ensures EntryLine(entries[0]) == "\t" + m
  {
    var pair := entries[0];
    Quote(pair.0) + ":" + Dumps(pair.1)
  }

  lemma TabJoin(line: string, member: string, tail: string)
    requires line == "\t" + member
    ensures (line + ",") + "\n" + ("\t" + tail) == "\t" + (member + ",\n\t" + tail)
  {
  }

  lemma EntryLinesOne(entries: seq<(string, Json)>)
    requires |entries| == 1
    ensures EntryLines(entries) == [EntryLine(entries[0])]
  {
    var lines := EntryLines(entries);
    assert |lines| == 1;
    assert lines[0] == EntryLine(entries[0]) + "";
    assert EntryLine(entries[0]) + "" == EntryLine(entries[0]);
  }

  lemma EntryLinesCons(entries: seq<(string, Json)>)
    requires |entries| > 1
    ensures |EntryLines(entries)| > 1
    ensures EntryLines(entries)[0] == EntryLine(entries[0]) + ","
    ensures EntryLines(entries)[1..] == EntryLines(entries[1..])
  {
  }

  /** Joining two non-empty lists puts one separator between them. */
  lemma {:induction false} JoinAppend(a: seq<string>, b: seq<string>, sep: string)
    requires |a| > 0 && |b| > 0
    ensures Join(a + b, sep) == Join(a, sep) + sep + Join(b, sep)
    decreases |a|
  {
    if |a| == 1 {
      assert (a + b)[1..] == b;
    } else {
      assert (a + b)[1..] == a[1..] + b;
      JoinAppend(a[1..], b, sep);
    }
  }

  /** No line of a document holds a line feed. */
  lemma EntryLinesSingle(entries: seq<(string, Json)>)
    ensures forall i :: 0 <= i < |EntryLines(entries)| ==> '\n' !in EntryLines(entries)[i]
  {
    forall i | 0 <= i < |entries| ensures '\n' !in EntryLines(entries)[i] {
      QuoteNoControl(entries[i].0);
      DumpsNoControl(entries[i].1);
      NoLineFeed(Quote(entries[i].0));
      NoLineFeed(Dumps(entries[i].1));
    }
  }

  lemma NoLineFeed(s: string)
    requires NoControl(s)
    ensures '\n' !in s
  {
  }
}
