/** The per-property spill files: a text-mode temporary file that the
  converter writes lines into with `print` while it reads the database,
  then rewinds and iterates line by line when it writes the output.

  Writing appends the line and a line feed (the platform's line
  separator is taken to be a line feed). Reading back uses universal
  newlines: a carriage return, a line feed, or the pair of them ends a
  line, and each line read ends in a line feed except possibly the last.
 */
module Spill {
  import opened Text

  predicate NoLineBreak(s: string) {
    forall i :: 0 <= i < |s| ==> !IsLineBreak(s[i])
  }

  /** Lines each free of line breaks. */
  predicate SingleLines(written: seq<string>) {
    forall i :: 0 <= i < |written| ==> NoLineBreak(written[i])
  }

  /** What a file holds after `print(line, file=f)` for each line in turn. */
  function Content(written: seq<string>): string {
    if |written| == 0 then "" else written[0] + "\n" + Content(written[1..])
  }

  /** Position of the first line break, or the length if there is none. */
  function BreakAt(s: string): (n: nat)
    ensures n <= |s| && NoLineBreak(s[..n])
    ensures n == |s| || IsLineBreak(s[n])
  {
    if |s| == 0 || IsLineBreak(s[0]) then 0
    else
      var n := BreakAt(s[1..]);
      assert s[..n + 1] == [s[0]] + s[1..][..n];
      n + 1
  }

  /** One line as universal-newline iteration yields it: text with no line
      break, then a line feed unless it is the unterminated last line. */
  predicate IsReadLine(line: string) {
    |line| > 0 &&
    (NoLineBreak(line) || (line[|line| - 1] == '\n' && NoLineBreak(line[..|line| - 1])))
  }

  /** `for line in f` on a text file opened with universal newlines. */
  function ReadLines(content: string): (lines: seq<string>)
    ensures forall i :: 0 <= i < |lines| ==> IsReadLine(lines[i])
    ensures forall i :: 0 <= i < |lines| - 1 ==> |lines[i]| > 0 && lines[i][|lines[i]| - 1] == '\n'
    ensures |lines| == 0 <==> |content| == 0
    decreases |content|
  {
    if |content| == 0 then []
    else
      var n := BreakAt(content);
      if n == |content| then
        assert content[..n] == content;
        [content]
      else
        var skip := if content[n] == '\r' && n + 1 < |content| && content[n + 1] == '\n' then 2 else 1;
        var line := content[..n] + "\n";
        assert line[..|line| - 1] == content[..n];
        [line] + ReadLines(content[n + skip..])
  }

  lemma {:induction false} BreakAtOf(a: string, b: string)
    requires NoLineBreak(a)
    requires |b| == 0 || IsLineBreak(b[0])
    ensures BreakAt(a + b) == |a|
    decreases |a|
  {
    if |a| > 0 {
      assert (a + b)[1..] == a[1..] + b;
      BreakAtOf(a[1..], b);
    } else {
      assert a + b == b;
    }
  }

  /** Lines free of line breaks come back as written, each with its line feed. */
  lemma {:induction false} ReplayContent(written: seq<string>)
    requires SingleLines(written)
    ensures |ReadLines(Content(written))| == |written|
    ensures forall i :: 0 <= i < |written| ==> ReadLines(Content(written))[i] == written[i] + "\n"
    decreases |written|
  {
    if |written| > 0 {
      var first := written[0];
      var tail := written[1..];
      var rest := Content(tail);
      var content := Content(written);
      assert content == first + ("\n" + rest);
      BreakAtOf(first, "\n" + rest);
      assert content[|first|] == '\n';
      assert content[..|first|] == first;
      assert content[|first| + 1..] == rest;
      assert ReadLines(content) == [first + "\n"] + ReadLines(rest);
      assert forall i :: 0 <= i < |tail| ==> tail[i] == written[i + 1];
      ReplayContent(tail);
    }
  }

  /** A line with a break inside it comes back as two lines: the spill file
      does not preserve it. */
  lemma ReplayBrokenLine(a: string, c: char, b: string)
    requires NoLineBreak(a) && NoLineBreak(b) && |b| > 0 && IsLineBreak(c)
    ensures ReadLines(Content([a + [c] + b])) == [a + "\n", b + "\n"]
  {
    var content := Content([a + [c] + b]);
    assert content == a + ([c] + b + "\n");
    BreakAtOf(a, [c] + b + "\n");
    assert content[..|a|] == a;
    assert content[|a| + 1] == b[0];
    var tail := content[|a| + 1..];
    assert tail == b + "\n";
    BreakAtOf(b, "\n");
    assert tail[..|b|] == b;
    assert tail[|b| + 1..] == "";
  }
}
