/** Failure-carrying results for the conversion pipeline.

  Every exception the converter can raise on bad input is one `Error`
  value here; the Python exception classes (ValueError, AttributeError)
  are not distinguished, only what went wrong and the text that caused it.
 */
module Results {

  datatype Option<+T> = None | Some(value: T) {

    predicate IsFailure() {
      None?
    }

    function PropagateFailure<U>(): Option<U>
      requires None?
    {
      None
    }

    function Extract(): T
      requires Some?
    {
      value
    }

    function GetOr(default: T): T {
      match this
      case Some(v) => v
      case None => default
    }
  }

  /** What a malformed input line, token or value is rejected with. */
  datatype Error =
    /** a non-blank, non-comment line with fewer than three tab-separated fields */
    | MalformedRecord(line: string)
    /** a token that is not `U+` followed by hex digits, or names no character */
    | InvalidUnicodePoint(token: string)
    /** a well-formed token whose value is too large for the C `int` that
        `chr` takes; Python raises `OverflowError`, not `ValueError` */
    | CodePointOverflow(token: string)
    /** a list of code points with a bad token; carries the WHOLE list text */
    | InvalidUnicodePoints(text: string)
    /** text that the integer constructor rejects */
    | InvalidInt(text: string)
    /** a `key:value` or `reading(freq)` entry of the wrong shape */
    | MalformedEntry(entry: string)

  datatype Result<+T> = Ok(value: T) | Err(error: Error) {

    predicate IsFailure() {
      Err?
    }

    function PropagateFailure<U>(): Result<U>
      requires Err?
    {
      Err(error)
    }

    function Extract(): T
      requires Ok?
    {
      value
    }
  }

  /** Applies `f` to each element in order, stopping at the first failure:
      a list comprehension whose element expression may raise. */
  function MapAll<A, B>(f: A -> Result<B>, xs: seq<A>): (r: Result<seq<B>>)
    ensures r.Ok? <==> forall i :: 0 <= i < |xs| ==> f(xs[i]).Ok?
    ensures r.Ok? ==> |r.value| == |xs| && forall i :: 0 <= i < |xs| ==> f(xs[i]) == Ok(r.value[i])
    ensures r.Err? ==> exists k :: 0 <= k < |xs| && f(xs[k]) == Err(r.error) && forall j :: 0 <= j < k ==> f(xs[j]).Ok?
  {
    if |xs| == 0 then Ok([])
    else
      match f(xs[0])
      case Err(e) => Err(e)
      case Ok(y) =>
        match MapAll(f, xs[1..])
        case Err(e) =>
          ghost var k :| 0 <= k < |xs[1..]| && f(xs[1..][k]) == Err(e) && forall j :: 0 <= j < k ==> f(xs[1..][j]).Ok?;
          assert f(xs[k + 1]) == Err(e);
          Err(e)
        case Ok(ys) => Ok([y] + ys)
  }

  /** What `f` makes of each element, when it fails on none. */
  function Values<A, B>(f: A -> Result<B>, xs: seq<A>): (ys: seq<B>)
    requires forall i :: 0 <= i < |xs| ==> f(xs[i]).Ok?
    ensures |ys| == |xs| && forall i :: 0 <= i < |xs| ==> f(xs[i]) == Ok(ys[i])
  {
    seq(|xs|, i requires 0 <= i < |xs| => f(xs[i]).value)
  }

  predicate AllOk<A, B>(f: A -> Result<B>, xs: seq<A>) {
    forall i :: 0 <= i < |xs| ==> f(xs[i]).Ok?
  }

  /** A failed comprehension fails at an element before which every element succeeds. */
  lemma MapAllFirst<A, B>(f: A -> Result<B>, xs: seq<A>)
    requires MapAll(f, xs).Err?
    ensures exists k :: 0 <= k < |xs| && f(xs[k]) == Err(MapAll(f, xs).error) && AllOk(f, xs[..k])
  {
    var k :| 0 <= k < |xs| && f(xs[k]) == Err(MapAll(f, xs).error) && forall j :: 0 <= j < k ==> f(xs[j]).Ok?;
    assert forall j :: 0 <= j < k ==> xs[..k][j] == xs[j];
  }

  /** A successful comprehension gives every element's value. */
  lemma MapAllValues<A, B>(f: A -> Result<B>, xs: seq<A>)
    requires MapAll(f, xs).Ok?
    ensures AllOk(f, xs) && MapAll(f, xs).value == Values(f, xs)
  {
  }

  /** Applies `f` to each element in order and keeps what it produced up
      to the first failure, together with that failure: a loop that
      writes as it goes and is interrupted by an exception. */
  function MapWhileOk<A, B>(f: A -> Result<B>, xs: seq<A>): (r: (seq<B>, Option<Error>))
    ensures |r.0| <= |xs|
    ensures forall i :: 0 <= i < |r.0| ==> f(xs[i]) == Ok(r.0[i])
    ensures r.1.None? ==> |r.0| == |xs|
    ensures r.1.Some? ==> |r.0| < |xs| && f(xs[|r.0|]) == Err(r.1.value)
    decreases |xs|
  {
    if |xs| == 0 then ([], None)
    else
      match f(xs[0])
      case Err(e) => ([], Some(e))
      case Ok(y) =>
        var rest := MapWhileOk(f, xs[1..]);
        assert forall i :: 0 < i < |xs| ==> xs[1..][i - 1] == xs[i];
        ([y] + rest.0, rest.1)
  }

  /** The interrupted loop runs to the end exactly when the comprehension
      succeeds, and then produces the same list; otherwise both stop with
      the same error. */
  lemma MapWhileOkAll<A, B>(f: A -> Result<B>, xs: seq<A>)
    ensures var r := MapWhileOk(f, xs);
      var all := MapAll(f, xs);
      && (r.1.None? <==> all.Ok?)
      && (all.Ok? ==> all.value == r.0)
      && (all.Err? ==> r.1 == Some(all.error))
  {
    var r := MapWhileOk(f, xs);
    var all := MapAll(f, xs);
    if r.1.Some? {
      assert !f(xs[|r.0|]).Ok?;
      var k :| 0 <= k < |xs| && f(xs[k]) == Err(all.error) && forall j :: 0 <= j < k ==> f(xs[j]).Ok?;
    } else {
      assert forall i :: 0 <= i < |xs| ==> f(xs[i]) == Ok(r.0[i]);
      assert all.value == r.0;
    }
  }

  /** Runs `f` on each element in order, keeping each output, until one
      reports a failure: the outputs before it, and the failing output
      with its failure. */
  function RunUntilFailure<A, B>(f: A -> (B, Option<Error>), xs: seq<A>): (r: (seq<B>, Option<(B, Error)>))
    ensures |r.0| <= |xs|
    ensures r.1.None? <==> |r.0| == |xs|
    ensures forall i :: 0 <= i < |r.0| ==> f(xs[i]).1.None? && r.0[i] == f(xs[i]).0
    ensures r.1.Some? ==> f(xs[|r.0|]).1.Some? && r.1.value == (f(xs[|r.0|]).0, f(xs[|r.0|]).1.value)
    decreases |xs|
  {
    if |xs| == 0 then ([], None)
    else
      var (out, failure) := f(xs[0]);
      if failure.Some? then ([], Some((out, failure.value)))
      else
        var rest := RunUntilFailure(f, xs[1..]);
        assert forall i :: 0 < i < |xs| ==> xs[1..][i - 1] == xs[i];
        ([out] + rest.0, rest.1)
  }

  /** A run over `xs` that stopped at the first failure, or did not stop,
      decides the comprehension over `ys` when `f` treats corresponding
      elements of the two lists alike. */
  lemma StoppedRun<A, B>(f: A -> Result<B>, xs: seq<A>, ys: seq<A>, done: seq<B>, stopped: bool)
    requires |xs| == |ys|
    requires forall j :: 0 <= j < |xs| ==> (f(xs[j]).Ok? <==> f(ys[j]).Ok?) && (f(xs[j]).Ok? ==> f(xs[j]) == f(ys[j]))
    requires |done| <= |xs| && forall i :: 0 <= i < |done| ==> f(xs[i]) == Ok(done[i])
    requires !stopped ==> |done| == |xs|
    requires stopped ==> |done| < |xs| && f(xs[|done|]).Err?
    ensures var all := MapAll(f, ys);
      (!stopped <==> all.Ok?) && (all.Ok? ==> done == all.value)
  {
    var all := MapAll(f, ys);
    if stopped {
      assert !f(ys[|done|]).Ok?;
    } else {
      assert forall j :: 0 <= j < |ys| ==> f(ys[j]) == Ok(done[j]);
      assert all.value == done;
    }
  }
}
