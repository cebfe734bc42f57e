/**
 The reporter object: an output mode, an error counter and a buffer of
 collected payloads. In normal mode successes and errors are printed as they
 arrive; in json mode successes are buffered and `flush` prints them once,
 as one value or as an array, provided no error was ever reported.

 Console output is a sequence of emissions; colour and the exact
 `JSON.stringify` layout are not modelled. `D` is the payload type.
 */
module Reporter {
  import opened Text
  import opened Locations
  import opened Lines

  datatype Mode = Normal | Json

  /** A YAML-style `problem_mark`: where in the document the problem sits. */
  datatype Mark = Mark(line: nat, column: nat)

  /** The error object handed to `error`: a message and perhaps a `problem_mark`. */
  datatype ErrorInfo = ErrorInfo(message: string, problemMark: Option<Mark>)

  /** One `console.log` call: a text line, a single JSON value, or a JSON array. */
  datatype Emission<D> = Line(text: string) | JsonValue(item: D) | JsonArray(items: seq<D>)

  /** The closure's three variables. */
  datatype State<D> = State(mode: Mode, errorCount: nat, collectedData: seq<D>)

  /** The state after an operation, and what the operation printed. */
  datatype Step<D> = Step(state: State<D>, out: seq<Emission<D>>)

  /** A fresh reporter: normal mode, no errors, nothing collected. */
  function Init<D>(): State<D> {
    State(Normal, 0, [])
  }

  /** `getErrorCount`. */
  function GetErrorCount<D>(s: State<D>): nat {
    s.errorCount
  }

  /** Only "normal" and "json", in any letter case, select a mode; anything else is ignored. */
  function SetMode<D>(s: State<D>, val: string): (r: State<D>)
    ensures ToLower(val) == "normal" ==> r.mode == Normal
    ensures ToLower(val) == "json" ==> r.mode == Json
    ensures ToLower(val) != "normal" && ToLower(val) != "json" ==> r == s
    ensures r.errorCount == s.errorCount && r.collectedData == s.collectedData
  {
    var v := ToLower(val);
    if v == "normal" then s.(mode := Normal)
    else if v == "json" then s.(mode := Json)
    else s
  }

  /** `setMode('json')` selects json mode and touches nothing else. */
  lemma SetModeJson<D>(s: State<D>)
    ensures SetMode(s, "json") == s.(mode := Json)
  {
    assert ToLower("json") == "json";
  }

  /** Setting a mode depends on the value only up to letter case. */
  lemma SetModeIgnoresCase<D>(s: State<D>, a: string, b: string)
    requires ToLower(a) == ToLower(b)
    ensures SetMode(s, a) == SetMode(s, b)
  {
  }

  /** Setting the same mode twice is setting it once. */
  lemma SetModeIdempotent<D>(s: State<D>, val: string)
    ensures SetMode(SetMode(s, val), val) == SetMode(s, val)
  {
  }

  /** A valid document: buffered in json mode, printed at once in normal mode. */
  function Success<D>(s: State<D>, name: string, data: D): (r: Step<D>)
    ensures s.mode == Json ==> r.out == [] && r.state == s.(collectedData := s.collectedData + [data])
    ensures s.mode == Normal ==> r.out == [Line(ValidLine(name))] && r.state == s
  {
    if s.mode == Json then Step(s.(collectedData := s.collectedData + [data]), [])
    else Step(s, [Line(ValidLine(name))])
  }

  /** The bracketed label of an error line: the name, located when a problem mark is present. */
  function ErrorLabel(name: string, err: ErrorInfo): (tag: string)
    ensures err.problemMark.None? ==> tag == name
    ensures err.problemMark.Some? ==>
      SplitLocatedSrc(tag) == Some(Location(name, err.problemMark.value.line, err.problemMark.value.column))
  {
    match err.problemMark
    case None => name
    case Some(m) =>
      SplitLocatedSrcRoundTrip(name, m.line, m.column);
      LocatedSrc(name, m.line, m.column)
  }

  /** `[name] ERROR message`, or `[name:line:column] ERROR message` with a problem mark. */
  function ErrorLine(name: string, err: ErrorInfo): (line: string)
    ensures var tag := ErrorLabel(name, err);
      && |line| == |tag| + |err.message| + 9
      && line[0] == '[' && line[1..|tag| + 1] == tag
      && line[|tag| + 1..|tag| + 9] == "] ERROR " && line[|tag| + 9..] == err.message
  {
    var tag := ErrorLabel(name, err);
    var line := BracketLine(tag, "ERROR " + err.message);
    assert line[|tag| + 1..|tag| + 9] == line[|tag| + 1..|tag| + 3] + line[|tag| + 3..][..6];
    line
  }

  /** An error is counted and printed at once, in either mode. */
  function Error<D>(s: State<D>, name: string, err: ErrorInfo): (r: Step<D>)
    ensures r.state == s.(errorCount := s.errorCount + 1)
    ensures r.out == [Line(ErrorLine(name, err))]
  {
    Step(s.(errorCount := s.errorCount + 1), [Line(ErrorLine(name, err))])
  }

  /** The guard of `flush`. */
  predicate FlushEmits<D>(s: State<D>) {
    s.mode == Json && |s.collectedData| > 0 && s.errorCount == 0
  }

  /**
   Prints the buffer when in json mode, non-empty and error-free, as the one
   collected value or as the whole array; otherwise nothing happens.
   */
  function Flush<D>(s: State<D>): (r: Step<D>)
    ensures !FlushEmits(s) ==> r == Step(s, [])
    ensures FlushEmits(s) ==> r.state == State(Json, 0, []) && |r.out| == 1
    ensures FlushEmits(s) && |s.collectedData| == 1 ==> r.out == [JsonValue(s.collectedData[0])]
    ensures FlushEmits(s) && |s.collectedData| > 1 ==> r.out == [JsonArray(s.collectedData)]
  {
    if s.mode == Json && |s.collectedData| > 0 && s.errorCount == 0 then
      var out := if |s.collectedData| == 1 then JsonValue(s.collectedData[0]) else JsonArray(s.collectedData);
      Step(s.(errorCount := 0, collectedData := []), [out])
    else Step(s, [])
  }

  /** A second `flush` right after the first prints nothing and changes nothing. */
  lemma FlushTwiceEmitsOnce<D>(s: State<D>)
    ensures Flush(Flush(s).state) == Step(Flush(s).state, [])
  {
  }

  /** One call on the reporter object. */
  datatype Call<D> =
    | SetModeCall(val: string)
    | SuccessCall(name: string, data: D)
    | ErrorCall(name: string, err: ErrorInfo)
    | FlushCall

  /** Dispatches one call to its operation. */
  function Apply<D>(s: State<D>, c: Call<D>): (r: Step<D>)
    ensures r.state.errorCount == s.errorCount + (if c.ErrorCall? then 1 else 0)
    ensures s.errorCount > 0 ==> TextOnly(r.out)
  {
    match c
    case SetModeCall(val) => Step(SetMode(s, val), [])
    case SuccessCall(name, data) => Success(s, name, data)
    case ErrorCall(name, err) => Error(s, name, err)
    case FlushCall => Flush(s)
  }

  /** A sequence of calls, in order; the output is everything printed, in order. */
  function Replay<D>(s: State<D>, calls: seq<Call<D>>): Step<D>
    decreases |calls|
  {
    if calls == [] then Step(s, [])
    else
      var first := Apply(s, calls[0]);
      var rest := Replay(first.state, calls[1..]);
      Step(rest.state, first.out + rest.out)
  }

  /** The number of `error` calls in a call sequence. */
  function ErrorCalls<D>(calls: seq<Call<D>>): nat {
    if calls == [] then 0
    else (if calls[0].ErrorCall? then 1 else 0) + ErrorCalls(calls[1..])
  }

  /** The counter grows by exactly one per `error` call: the reset in `flush` only ever writes 0 over 0. */
  lemma {:induction false} ReplayCountsErrors<D>(s: State<D>, calls: seq<Call<D>>)
    ensures Replay(s, calls).state.errorCount == s.errorCount + ErrorCalls(calls)
    decreases |calls|
  {
    if calls != [] {
      ReplayCountsErrors(Apply(s, calls[0]).state, calls[1..]);
    }
  }

  /** `getErrorCount` on a fresh reporter returns the number of `error` calls made so far. */
  lemma GetErrorCountIsErrorCalls<D>(calls: seq<Call<D>>)
    ensures GetErrorCount(Replay(Init<D>(), calls).state) == ErrorCalls(calls)
  {
    ReplayCountsErrors(Init<D>(), calls);
  }

  /** The counter never decreases along any call sequence. */
  lemma ErrorCountNeverDecreases<D>(s: State<D>, calls: seq<Call<D>>, i: nat)
    requires i <= |calls|
    ensures Replay(s, calls[..i]).state.errorCount <= Replay(s, calls).state.errorCount
  {
    ReplayCountsErrors(s, calls[..i]);
    ReplayCountsErrors(s, calls);
    ErrorCallsPrefix(calls, i);
  }

  /** A prefix of a call sequence holds no more `error` calls than the whole. */
  lemma {:induction false} ErrorCallsPrefix<D>(calls: seq<Call<D>>, i: nat)
    requires i <= |calls|
    ensures ErrorCalls(calls[..i]) <= ErrorCalls(calls)
  {
    if i > 0 {
      assert calls[..i][0] == calls[0];
      assert calls[..i][1..] == calls[1..][..i - 1];
      ErrorCallsPrefix(calls[1..], i - 1);
    }
  }

  /** Output holding text lines only. */
  predicate TextOnly<D>(out: seq<Emission<D>>) {
    forall k :: 0 <= k < |out| ==> out[k].Line?
  }

  /** Once an error has been counted, no JSON is ever printed again. */
  lemma {:induction false} ErrorsSilenceJson<D>(s: State<D>, calls: seq<Call<D>>)
    requires s.errorCount > 0
    ensures TextOnly(Replay(s, calls).out)
    decreases |calls|
  {
    if calls != [] {
      var first := Apply(s, calls[0]);
      ErrorsSilenceJson(first.state, calls[1..]);
      var rest := Replay(first.state, calls[1..]);
      assert Replay(s, calls).out == first.out + rest.out;
      assert forall k :: 0 <= k < |first.out| ==> (first.out + rest.out)[k] == first.out[k];
      assert forall k :: |first.out| <= k < |first.out| + |rest.out| ==> (first.out + rest.out)[k] == rest.out[k - |first.out|];
    }
  }

  /** The payloads carried by a sequence of `success` calls. */
  function DataOf<D>(calls: seq<Call<D>>): (ds: seq<D>)
    requires forall k :: 0 <= k < |calls| ==> calls[k].SuccessCall?
    ensures |ds| == |calls|
  {
    seq(|calls|, k requires 0 <= k < |calls| && calls[k].SuccessCall? => calls[k].data)
  }

  /** In json mode, successes are buffered in call order and print nothing. */
  lemma {:induction false} JsonSuccessesAppend<D>(s: State<D>, calls: seq<Call<D>>)
    requires s.mode == Json
    requires forall k :: 0 <= k < |calls| ==> calls[k].SuccessCall?
    ensures Replay(s, calls) == Step(s.(collectedData := s.collectedData + DataOf(calls)), [])
    decreases |calls|
  {
    if calls == [] {
      assert s.collectedData + DataOf(calls) == s.collectedData;
    } else {
      var d := calls[0].data;
      var rest := calls[1..];
      var first := Apply(s, calls[0]);
      assert first == Step(s.(collectedData := s.collectedData + [d]), []);
      JsonSuccessesAppend(first.state, rest);
      assert DataOf(calls) == [d] + DataOf(rest);
      assert (s.collectedData + [d]) + DataOf(rest) == s.collectedData + DataOf(calls);
    }
  }

  /** Replaying a concatenation replays the second part from where the first left off. */
  lemma {:induction false} ReplayAppend<D>(s: State<D>, a: seq<Call<D>>, b: seq<Call<D>>)
    ensures Replay(s, a + b).state == Replay(Replay(s, a).state, b).state
    ensures Replay(s, a + b).out == Replay(s, a).out + Replay(Replay(s, a).state, b).out
    decreases |a|
  {
    if a == [] {
      assert a + b == b;
    } else {
      var first := Apply(s, a[0]);
      assert (a + b)[0] == a[0];
      assert (a + b)[1..] == a[1..] + b;
      ReplayAppend(first.state, a[1..], b);
      var ra := Replay(first.state, a[1..]);
      var rb := Replay(ra.state, b);
      assert first.out + (ra.out + rb.out) == (first.out + ra.out) + rb.out;
    }
  }

  /** Replaying a single call is applying it. */
  lemma ReplayOne<D>(s: State<D>, c: Call<D>)
    ensures Replay(s, [c]) == Apply(s, c)
  {
    var one := [c];
    assert one[1..] == [];
    assert Apply(s, c).out + [] == Apply(s, c).out;
  }

  /** `setMode('json')` on a fresh reporter followed by successes only buffers their payloads. */
  lemma JsonRunCollects<D>(calls: seq<Call<D>>, pre: seq<Call<D>>)
    requires forall k :: 0 <= k < |calls| ==> calls[k].SuccessCall?
    requires pre == [SetModeCall("json")] + calls
    ensures Replay(Init<D>(), pre) == Step(State(Json, 0, DataOf(calls)), [])
  {
    var json: State<D> := State(Json, 0, []);
    SetModeJson(Init<D>());
    assert pre[0] == SetModeCall("json");
    assert pre[1..] == calls;
    JsonSuccessesAppend(json, calls);
    assert [] + DataOf(calls) == DataOf(calls);
  }

  /**
   An error-free json run prints exactly once at the flush: the single payload
   when there was one valid document, else the array of all, in order.
   */
  lemma JsonRunFlushesCollected<D>(calls: seq<Call<D>>, run: seq<Call<D>>)
    requires |calls| > 0
    requires forall k :: 0 <= k < |calls| ==> calls[k].SuccessCall?
    requires run == [SetModeCall("json")] + calls + [FlushCall]
    ensures Replay(Init<D>(), run).state == State(Json, 0, [])
    ensures |calls| == 1 ==> Replay(Init<D>(), run).out == [JsonValue(calls[0].data)]
    ensures |calls| > 1 ==> Replay(Init<D>(), run).out == [JsonArray(DataOf(calls))]
  {
    var collected: State<D> := State(Json, 0, DataOf(calls));
    var pre := [SetModeCall("json")] + calls;
    JsonRunCollects(calls, pre);
    ReplayAppend(Init<D>(), pre, [FlushCall]);
    ReplayOne(collected, FlushCall);
    assert FlushEmits(collected);
    var flushed := Flush(collected);
    assert [] + flushed.out == flushed.out;
    if |calls| == 1 {
      assert DataOf(calls)[0] == calls[0].data;
    }
  }
}
