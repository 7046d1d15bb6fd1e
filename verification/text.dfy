/** The string operations of Python's `str` that the converter relies on:
  `split()` with no argument, `split(sep, 1)`, `split(sep)`, `lstrip()`
  and `rstrip('\r\n')`, and `sep.join(parts)`.

  Python's whitespace is Unicode's; this model uses the ASCII characters
  Python counts as whitespace: tab, line feed, vertical tab, form feed,
  carriage return, the four separators U+001C..U+001F, and space.
 */
module Text {
  import opened Results

  predicate IsSpace(c: char) {
    var n := c as int;
    (9 <= n <= 13) || (28 <= n <= 32)
  }

  predicate AllSpace(s: string) {
    forall i :: 0 <= i < |s| ==> IsSpace(s[i])
  }

  /** A non-empty run of non-whitespace characters: what `split()` yields. */
  predicate IsWord(s: string) {
    |s| > 0 && forall i :: 0 <= i < |s| ==> !IsSpace(s[i])
  }

  predicate IsLineBreak(c: char) {
    c == '\r' || c == '\n'
  }

  /** `sep.join(parts)` */
  function Join(parts: seq<string>, sep: string): string {
    if |parts| == 0 then ""
    else if |parts| == 1 then parts[0]
    else parts[0] + sep + Join(parts[1..], sep)
  }

  /** Length of the leading run of non-whitespace characters of `s`. */
  function WordEnd(s: string): (n: nat)
    ensures n <= |s|
    ensures forall i :: 0 <= i < n ==> !IsSpace(s[i])
    ensures n == |s| || IsSpace(s[n])
  {
    if |s| == 0 || IsSpace(s[0]) then 0 else 1 + WordEnd(s[1..])
  }

  /** `s.split()`: the maximal runs of non-whitespace characters, in order. */
  function Split(s: string): (r: seq<string>)
    ensures forall i :: 0 <= i < |r| ==> IsWord(r[i])
    ensures |r| == 0 <==> AllSpace(s)
    decreases |s|
  {
    if |s| == 0 then []
    else if IsSpace(s[0]) then Split(s[1..])
    else
      var n := WordEnd(s);
      [s[..n]] + Split(s[n..])
  }

  /** `s.split(c, 1)`, answering None where Python returns the one-element list. */
  function SplitFirst(s: string, c: char): (r: Option<(string, string)>)
    ensures r.None? <==> c !in s
    ensures r.Some? ==> s == r.value.0 + [c] + r.value.1 && c !in r.value.0
  {
    if |s| == 0 then None
    else if s[0] == c then Some(([], s[1..]))
    else
      match SplitFirst(s[1..], c)
      case None => None
      case Some((a, b)) =>
        assert s == [s[0]] + s[1..];
        Some(([s[0]] + a, b))
  }

  /** `s.split(c)`: every piece between occurrences of `c`, empty ones included. */
  function SplitAll(s: string, c: char): (r: seq<string>)
    ensures |r| == multiset(s)[c] + 1
    ensures forall i :: 0 <= i < |r| ==> c !in r[i]
    ensures Join(r, [c]) == s
    decreases |s|
  {
    match SplitFirst(s, c)
    case None => [s]
    case Some((a, b)) =>
      var rest := SplitAll(b, c);
      assert multiset(s)[c] == multiset(a)[c] + 1 + multiset(b)[c];
      [a] + rest
  }

  /** `s.lstrip()` */
  function LStrip(s: string): (r: string)
    ensures |r| <= |s| && r == s[|s| - |r|..]
    ensures AllSpace(s[..|s| - |r|])
    ensures |r| == 0 || !IsSpace(r[0])
  {
    if |s| > 0 && IsSpace(s[0]) then LStrip(s[1..]) else s
  }

  /** `s.rstrip('\r\n')`: drops the trailing run of carriage returns and line feeds. */
  function RStripNewlines(s: string): (r: string)
    ensures |r| <= |s| && r == s[..|r|]
    ensures forall i :: |r| <= i < |s| ==> IsLineBreak(s[i])
    ensures |r| == 0 || !IsLineBreak(r[|r| - 1])
  {
    if |s| > 0 && IsLineBreak(s[|s| - 1]) then RStripNewlines(s[..|s| - 1]) else s
  }

  // ---------------------------------------------------------------------
  // Inverses and characterisations
  // ---------------------------------------------------------------------

  /** A word followed by whitespace (or nothing) is read as exactly that word. */
  lemma {:induction false} WordEndOfWord(w: string, rest: string)
    requires IsWord(w)
    requires |rest| == 0 || IsSpace(rest[0])
    ensures WordEnd(w + rest) == |w|
    decreases |w|
  {
    var s := w + rest;
    if |w| > 1 {
      assert s[1..] == w[1..] + rest;
      WordEndOfWord(w[1..], rest);
    } else {
      assert s[1..] == rest;
    }
  }

  /** Leading whitespace does not change what `split()` yields. */
  lemma {:induction false} SplitSkipsSpace(ws: string, s: string)
    requires AllSpace(ws)
    ensures Split(ws + s) == Split(s)
    decreases |ws|
  {
    if |ws| > 0 {
      assert (ws + s)[1..] == ws[1..] + s;
      SplitSkipsSpace(ws[1..], s);
    } else {
      assert ws + s == s;
    }
  }

  /** A word ended by whitespace or by the end of the text is the first word
      `split()` yields; the rest is split on its own. With `SplitSkipsSpace`
      this fixes `split()` on every text. */
  lemma SplitWord(w: string, rest: string)
    requires IsWord(w)
    requires |rest| == 0 || IsSpace(rest[0])
    ensures Split(w + rest) == [w] + Split(rest)
  {
    var s := w + rest;
    WordEndOfWord(w, rest);
    assert s[..|w|] == w;
    assert s[|w|..] == rest;
  }

  /** Words laid out between runs of whitespace: `gaps[0]`, `words[0]`,
      `gaps[1]`, ..., `gaps[|words|]`. */
  function Spaced(words: seq<string>, gaps: seq<string>): string
    requires |gaps| == |words| + 1
  {
    if |words| == 0 then gaps[0] else gaps[0] + words[0] + Spaced(words[1..], gaps[1..])
  }

  /** `split()` yields exactly the words, in order, however much whitespace
      separates and surrounds them. */
  lemma {:induction false} SplitSpaced(words: seq<string>, gaps: seq<string>)
    requires |gaps| == |words| + 1
    requires forall i :: 0 <= i < |words| ==> IsWord(words[i])
    requires forall i :: 0 <= i < |gaps| ==> AllSpace(gaps[i])
    requires forall i :: 0 < i < |words| ==> |gaps[i]| > 0
    ensures Split(Spaced(words, gaps)) == words
    decreases |words|
  {
    if |words| == 0 {
      assert AllSpace(gaps[0]);
    } else {
      var rest := Spaced(words[1..], gaps[1..]);
      assert Spaced(words, gaps) == gaps[0] + (words[0] + rest);
      SplitSkipsSpace(gaps[0], words[0] + rest);
      SpacedStart(words[1..], gaps[1..]);
      SplitWord(words[0], rest);
      SplitSpaced(words[1..], gaps[1..]);
    }
  }

  /** Laid out words start with their first gap, so with whitespace or not at all. */
  lemma SpacedStart(words: seq<string>, gaps: seq<string>)
    requires |gaps| == |words| + 1
    requires AllSpace(gaps[0])
    requires |words| == 0 || |gaps[0]| > 0
    ensures |Spaced(words, gaps)| == 0 || IsSpace(Spaced(words, gaps)[0])
  {
    if |words| > 0 {
      assert Spaced(words, gaps)[0] == gaps[0][0];
    }
  }

  /** `split()` undoes `" ".join` on words: order and duplicates are kept. */
  lemma {:induction false} SplitJoin(words: seq<string>)
    requires forall i :: 0 <= i < |words| ==> IsWord(words[i])
    ensures Split(Join(words, " ")) == words
    decreases |words|
  {
    if |words| == 0 {
    } else if |words| == 1 {
      var w := words[0];
      WordEndOfWord(w, "");
      assert w + "" == w;
      assert w[|w|..] == "";
      assert w[..|w|] == w;
    } else {
      var w := words[0];
      var rest := Join(words[1..], " ");
      var s := w + " " + rest;
      assert s == w + (" " + rest);
      WordEndOfWord(w, " " + rest);
      assert s[..|w|] == w;
      assert s[|w|..] == " " + rest;
      SplitSkipsSpace(" ", rest);
      SplitJoin(words[1..]);
    }
  }

  /** `split(c, 1)` cuts at the first `c`, whatever follows it. */
  lemma {:induction false} SplitFirstAt(a: string, c: char, b: string)
    requires c !in a
    ensures SplitFirst(a + [c] + b, c) == Some((a, b))
    decreases |a|
  {
    var s := a + [c] + b;
    if |a| > 0 {
      assert s[1..] == a[1..] + [c] + b;
      SplitFirstAt(a[1..], c, b);
      assert [a[0]] + a[1..] == a;
    }
  }

  /** `split(c)` undoes `c.join` on pieces that do not contain `c`. */
  lemma {:induction false} SplitAllJoin(pieces: seq<string>, c: char)
    requires |pieces| > 0
    requires forall i :: 0 <= i < |pieces| ==> c !in pieces[i]
    ensures SplitAll(Join(pieces, [c]), c) == pieces
    decreases |pieces|
  {
    if |pieces| == 1 {
      assert SplitFirst(pieces[0], c).None?;
    } else {
      var rest := Join(pieces[1..], [c]);
      assert Join(pieces, [c]) == pieces[0] + [c] + rest;
      SplitFirstAt(pieces[0], c, rest);
      SplitAllJoin(pieces[1..], c);
    }
  }

  /** `lstrip()` removes exactly the leading whitespace. */
  lemma {:induction false} LStripSpace(ws: string, s: string)
    requires AllSpace(ws)
    requires |s| == 0 || !IsSpace(s[0])
    ensures LStrip(ws + s) == s
    decreases |ws|
  {
    if |ws| > 0 {
      assert (ws + s)[1..] == ws[1..] + s;
      LStripSpace(ws[1..], s);
    } else {
      assert ws + s == s;
    }
  }

  /** `rstrip('\r\n')` drops a line terminator and nothing else, provided
      the text before it does not itself end in one. */
  lemma {:induction false} RStripNewlinesTerminated(s: string, t: string)
    requires |s| == 0 || !IsLineBreak(s[|s| - 1])
    requires forall i :: 0 <= i < |t| ==> IsLineBreak(t[i])
    ensures RStripNewlines(s + t) == s
    decreases |t|
  {
    if |t| > 0 {
      var u := s + t;
      assert u[..|u| - 1] == s + t[..|t| - 1];
      RStripNewlinesTerminated(s, t[..|t| - 1]);
    } else {
      assert s + t == s;
    }
  }

  /** `rstrip('\r\n')` leaves alone whatever precedes a character that is not a line break. */
  lemma RStripNewlinesAfter(a: string, c: char, b: string)
    requires !IsLineBreak(c)
    ensures RStripNewlines(a + [c] + b) == a + [c] + RStripNewlines(b)
  {
    var u := a + [c] + b;
    var rb := RStripNewlines(b);
    assert u == (a + [c] + rb) + b[|rb|..];
    RStripNewlinesTerminated(a + [c] + rb, b[|rb|..]);
  }
}
