/** The remote runnable: `astream` and `ainvoke` over the reply frames, and the replies a worker sends. */
module Remote {
  import opened Json
  import opened Frames
  import opened FrameStreams
  import opened Seqs

  // ---- consuming frames ----

  /** How a call ends. `Transient` is a closed-before-reply or timeout error, which may be retried; `Fatal` every
      other exception; `Pending` has not ended. */
  datatype Outcome = Completed | Transient | Fatal | Pending

  /** An `ok: false` frame: it raises. */
  predicate Refused(f: Json) {
    f.Obj? && Get(f.fields, "ok") == Some(Lit("false"))
  }

  function Result(f: Json): Json {
    if f.Obj? && Get(f.fields, "result").Some? then Get(f.fields, "result").value else Lit("null")
  }

  function ResultOf(f: Json): seq<Json> {
    if Result(f) == Lit("null") then [] else [Result(f)]
  }

  /** The non-null results before the first refusal and up to the last frame. */
  function Results(frames: seq<Json>): seq<Json> {
    if frames == [] || Refused(frames[0]) then []
    else if IsDone(frames[0]) then ResultOf(frames[0])
    else ResultOf(frames[0]) + Results(frames[1..])
  }

  function EndOutcome(end: End): Outcome {
    match end
    case Finished => Completed
    case NoReply => Transient
    case TimedOut => Transient
    case Crashed => Fatal
    case Running => Pending
  }

  function OutcomeOf(frames: seq<Json>, end: End): Outcome {
    if frames == [] then EndOutcome(end)
    else if Refused(frames[0]) then Fatal
    else if IsDone(frames[0]) then Completed
    else OutcomeOf(frames[1..], end)
  }

  /** The exception classes for error replies; `Generic` is the common base. */
  datatype Kind = HandlerNotFound | Unauthorized | HandlerError | RateLimited | Generic

  datatype RemoteError = RemoteError(kind: Kind, message: Json)

  function KindOf(name: Json): Kind {
    if name == Str("handler_not_found") then HandlerNotFound
    else if name == Str("unauthorized") then Unauthorized
    else if name == Str("handler_error") then HandlerError
    else if name == Str("rate_limited") then RateLimited
    else Generic
  }

  /** `reply.get(key) or otherwise` */
  function GetOr(f: Json, key: string, otherwise: string): Json {
    if f.Obj? && Get(f.fields, key).Some? && Truthy(Get(f.fields, key).value) then Get(f.fields, key).value
    else Str(otherwise)
  }

  /** `from_reply` */
  function FromReply(f: Json): RemoteError {
    RemoteError(KindOf(GetOr(f, "error_type", "remote_error")), GetOr(f, "error", "remote error"))
  }

  /** The error that consuming the frames raises for a refusal, if they hold one before a last frame. */
  function ErrorIn(frames: seq<Json>): Option<RemoteError> {
    if frames == [] then None
    else if Refused(frames[0]) then Some(FromReply(frames[0]))
    else if IsDone(frames[0]) then None
    else ErrorIn(frames[1..])
  }

  /** One dial: it fails, times out, or reads a feed of chunks. */
  datatype Call = DialFailed | DialTimedOut | Connected(feed: seq<Read>)

  function SeenIn(call: Call): Seen {
    match call
    case DialFailed => Seen([], Crashed)
    case DialTimedOut => Seen([], TimedOut)
    case Connected(feed) => AFrames([], false, feed)
  }

  function Yielded(call: Call): seq<Json> {
    Results(SeenIn(call).frames)
  }

  function Ended(call: Call): Outcome {
    OutcomeOf(SeenIn(call).frames, SeenIn(call).end)
  }

  lemma ConsumeEnd(end: End)
    ensures Results([]) == [] && OutcomeOf([], end) == EndOutcome(end) && ErrorIn([]) == None
  {
  }

  lemma ConsumeStep(frames: seq<Json>, i: nat, end: End, got: seq<Json>)
    requires i < |frames|
    ensures var f := frames[i];
            && Results(frames[i..]) ==
                (if Refused(f) then [] else if IsDone(f) then ResultOf(f) else ResultOf(f) + Results(frames[i + 1..]))
            && OutcomeOf(frames[i..], end) ==
                (if Refused(f) then Fatal else if IsDone(f) then Completed else OutcomeOf(frames[i + 1..], end))
            && ErrorIn(frames[i..]) ==
                (if Refused(f) then Some(FromReply(f)) else if IsDone(f) then None else ErrorIn(frames[i + 1..]))
            && got + (ResultOf(f) + Results(frames[i + 1..])) == got + ResultOf(f) + Results(frames[i + 1..])
  {
    hide IsDone, Refused, ResultOf, FromReply;
    assert frames[i..][0] == frames[i] && frames[i..][1..] == frames[i + 1..];
  }

  /** `_attempt_stream`, with `chunks` as it is on entry. */
  method AttemptStream(seen: Seen, chunks: seq<Json>) 
    returns (all: seq<Json>, outcome: Outcome, error: Option<RemoteError>)
    ensures all == chunks + Results(seen.frames)
    ensures outcome == OutcomeOf(seen.frames, seen.end) && error == ErrorIn(seen.frames)
  {
    hide IsDone, Refused, ResultOf, Result, Results, OutcomeOf, ErrorIn, FromReply;
    error := None;
    ConsumeEnd(seen.end);
    all := chunks;
    var frames := seen.frames;
    for i := 0 to |frames|
      invariant chunks + Results(frames) == all + Results(frames[i..])
      invariant OutcomeOf(frames, seen.end) == OutcomeOf(frames[i..], seen.end)
      invariant ErrorIn(frames) == ErrorIn(frames[i..])
    {
      var f := frames[i];
      ConsumeStep(frames, i, seen.end, all);
      if Refused(f) {
        return all, Fatal, Some(FromReply(f));
      }
      all := all + ResultOf(f);
      if IsDone(f) {
        return all, Completed, None;
      }
    }
    assert frames[|frames|..] == [];
    outcome := EndOutcome(seen.end);
  }

  /** Whatever handler run the call read from, the values are the first of its values. */
  ghost predicate FromOneRun(call: Call, values: seq<Json>) {
    forall run :: Sendable(run) && Receives(call, Reply(run)) ==> values <= Values(run)
  }

  lemma YieldsFromOneRun(call: Call)
    ensures FromOneRun(call, Yielded(call))
  {
    hide Sendable, Receives, Reply, Values, Yielded;
    forall run | Sendable(run) && Receives(call, Reply(run)) ensures Yielded(call) <= Values(run) {
      HandlerToCaller(run, call);
    }
  }

  /** Nothing comes before the stop: the dial times out, or the first read does, or the stream is at its end at once. */
  predicate Cold(call: Call) {
    call.DialTimedOut? || (call.Connected? && call.feed != [] && (call.feed[0].Expired? || call.feed[0].text == []))
  }

  lemma ColdIsTransient(call: Call)
    requires Cold(call)
    ensures Yielded(call) == [] && Ended(call) == Transient
  {
  }

  lemma FailedDialIsFatal()
    ensures Yielded(DialFailed) == [] && Ended(DialFailed) == Fatal
  {
  }

  /** What `astream` gives: everything it yields comes from one attempt, the last it makes; every earlier one yielded
      nothing and failed for a transient reason, and only the third ends that way. */
  predicate FromLastAttempt(calls: nat -> Call, yielded: seq<Json>, outcome: Outcome, error: Option<RemoteError>,
                            used: nat)
  {
    && 1 <= used <= 3
    && yielded == Yielded(calls(used - 1)) && outcome == Ended(calls(used - 1))
    && error == ErrorIn(SeenIn(calls(used - 1)).frames)
    && (forall i :: 0 <= i < used - 1 ==> Yielded(calls(i)) == [] && Ended(calls(i)) == Transient)
    && (outcome == Transient && yielded == [] ==> used == 3)
  }

  /** In terms of the calls alone: cold attempts are made again, up to the third; a failed dial is not, and neither is
      an attempt that yielded a value, however it stops. */
  predicate RetriesCold(calls: nat -> Call, yielded: seq<Json>, outcome: Outcome, used: nat)
    requires used >= 1
  {
    && (Cold(calls(0)) ==> used >= 2)
    && (Cold(calls(0)) && Cold(calls(1)) ==> used == 3)
    && (calls(0).DialFailed? || Yielded(calls(0)) != [] ==> used == 1)
    && (calls(used - 1).DialFailed? ==> outcome == Fatal && yielded == [])
  }

  lemma LastAttemptRetries(calls: nat -> Call, yielded: seq<Json>, outcome: Outcome, error: Option<RemoteError>,
                           used: nat)
    requires FromLastAttempt(calls, yielded, outcome, error, used)
    ensures RetriesCold(calls, yielded, outcome, used)
  {
    hide Yielded, Ended, SeenIn, ErrorIn, Cold;
    FailedDialIsFatal();
    if Cold(calls(0)) {
      ColdIsTransient(calls(0));
    }
    if Cold(calls(1)) {
      ColdIsTransient(calls(1));
    }
  }

  /** `astream` */
  method AStream(calls: nat -> Call)
    returns (yielded: seq<Json>, outcome: Outcome, error: Option<RemoteError>, used: nat)
    ensures FromLastAttempt(calls, yielded, outcome, error, used)
    ensures RetriesCold(calls, yielded, outcome, used)
    ensures FromOneRun(calls(used - 1), yielded)
  {
    hide Yielded, Ended, SeenIn, Results, OutcomeOf, FromOneRun, ErrorIn, RetriesCold;
    yielded := [];
    used := 0;
    while true
      invariant used < 3 && yielded == []
      invariant forall i :: 0 <= i < used ==> Yielded(calls(i)) == [] && Ended(calls(i)) == Transient
      decreases 3 - used
    {
      yielded, outcome, error := AttemptStream(SeenIn(calls(used)), yielded);
      CallEnds(calls(used));
      used := used + 1;
      if outcome != Transient || yielded != [] || used == 3 {
        YieldsFromOneRun(calls(used - 1));
        LastAttemptRetries(calls, yielded, outcome, error, used);
        return;
      }
    }
  }

  lemma CallEnds(call: Call)
    ensures Yielded(call) == [] + Results(SeenIn(call).frames) == Results(SeenIn(call).frames)
    ensures Ended(call) == OutcomeOf(SeenIn(call).frames, SeenIn(call).end)
  {
  }

  function LastOf(results: seq<Json>): Json {
    if results == [] then Lit("null") else results[|results| - 1]
  }

  /** `_ainvoke_once`: the last non-null result. */
  method AInvokeOnce(call: Call) returns (result: Json, outcome: Outcome)
    ensures outcome == Ended(call)
    ensures result == LastOf(Yielded(call))
    ensures var values := Yielded(call); values != [] ==> result == values[|values| - 1]
    ensures Yielded(call) == [] ==> result == Lit("null")
  {
    hide IsDone, Refused, Result, SeenIn, EndOutcome, Yielded, Ended, Results, OutcomeOf;
    ConsumeEnd(SeenIn(call).end);
    var seen := SeenIn(call);
    CallEnds(call);
    var frames := seen.frames;
    result := Lit("null");
    ghost var got := [];
    for i := 0 to |frames|
      invariant Results(frames) == got + Results(frames[i..])
      invariant OutcomeOf(frames, seen.end) == OutcomeOf(frames[i..], seen.end)
      invariant result == LastOf(got)
    {
      var f := frames[i];
      ConsumeStep(frames, i, seen.end, got);
      if Refused(f) {
        return result, Fatal;
      }
      if Result(f) != Lit("null") {
        result := Result(f);
      }
      got := got + ResultOf(f);
      if IsDone(f) {
        return result, Completed;
      }
    }
    assert frames[|frames|..] == [];
    outcome := EndOutcome(seen.end);
  }

  // ---- what was sent and what is yielded ----

  lemma {:induction false} ResultsPrefix(a: seq<Json>, b: seq<Json>)
    requires a <= b
    ensures Results(a) <= Results(b)
  {
    hide IsDone, Refused, ResultOf;
    if a != [] && !Refused(a[0]) && !IsDone(a[0]) {
      ResultsPrefix(a[1..], b[1..]);
    }
  }

  lemma {:induction false} ResultsUpToDone(fs: seq<Json>)
    ensures Results(UpToDone(fs)) == Results(fs)
  {
    hide IsDone, Refused, ResultOf;
    if fs != [] && !IsDone(fs[0]) {
      ResultsUpToDone(fs[1..]);
      assert UpToDone(fs)[1..] == UpToDone(fs[1..]);
    }
  }

  lemma {:induction false} OutcomeUpToDone(fs: seq<Json>, end: End)
    requires HasDone(fs)
    ensures OutcomeOf(UpToDone(fs), end) == OutcomeOf(fs, Finished)
  {
    hide IsDone, Refused;
    if fs != [] && !IsDone(fs[0]) {
      assert HasDone(fs[1..]) by {
        var i :| 0 <= i < |fs| && IsDone(fs[i]);
        assert IsDone(fs[1..][i - 1]);
      }
      OutcomeUpToDone(fs[1..], end);
      assert UpToDone(fs)[1..] == UpToDone(fs[1..]);
    }
  }

  /** The call reads some of what the worker sent to it, cut and truncated anywhere. */
  predicate Receives(call: Call, sent: seq<Json>) {
    AllFrames(sent) && (call.Connected? ==> Text(call.feed) <= Sent(sent))
  }

  /** A stream's values are the leading results of one worker run. */
  lemma YieldsArePrefix(call: Call, sent: seq<Json>)
    requires Receives(call, sent)
    ensures Yielded(call) <= Results(sent)
  {
    hide Print, IsDone, AFrames, Text, Sent, UpToDone, AllFrames, Refused, ResultOf;
    SeenPrefix(call, sent);
    ResultsPrefix(SeenIn(call).frames, UpToDone(sent));
    ResultsUpToDone(sent);
  }

  lemma StartsWaiting(sent: seq<Json>)
    requires AllFrames(sent)
    ensures Waiting(sent, [])
  {
    hide Print, Printable;
    if sent != [] {
      assert IsFrame(sent[0]);
      JsonText.FirstChar(sent[0]);
    }
  }

  /** Wholly delivered, with no chunk that ends before an inner frame's newline: the same values and the same end
      as the worker's run. */
  lemma YieldsAreAll(chunks: seq<string>, more: seq<Read>, sent: seq<Json>)
    requires AllFrames(sent) && HasDone(sent) && NonEmpty(chunks) && Concat(chunks) == Sent(sent)
    requires NeverBad(sent, [], chunks)
    ensures Yielded(Connected(Reads(chunks) + more)) == Results(sent)
    ensures Ended(Connected(Reads(chunks) + more)) == OutcomeOf(sent, Finished)
  {
    hide Print, IsDone, AFrames, Sent, UpToDone, AllFrames, Refused, ResultOf, Results, NeverBad, HasDone, Concat,
        NonEmpty, Reads;
    ReplyIsWholeIff(sent, chunks, more);
    ResultsUpToDone(sent);
    OutcomeUpToDone(sent, Finished);
  }

  // ---- what the worker sends ----

  function ResultFrame(v: Json, done: bool): Json {
    Obj([("ok", Lit("true")), ("result", v), ("done", Lit(if done then "true" else "false"))])
  }

  function ErrorFrame(kind: string, error: string): Json {
    Obj([("ok", Lit("false")), ("error_type", Str(kind)), ("error", Str(error)), ("done", Lit("true"))])
  }

  /** A handler's run: one result, a stream of items to its end, or items (perhaps none) and then an error; a gate's
      refusal is an error without items. */
  datatype Run =
    | Returned(result: Json)
    | Streamed(items: seq<Json>)
    | Raised(items: seq<Json>, kind: string, error: string)

  function ItemFrames(items: seq<Json>): seq<Json> {
    Map(items, v => ResultFrame(v, false))
  }

  /** The frames `_handle_one` sends. */
  function Reply(run: Run): seq<Json> {
    match run
    case Returned(v) => [ResultFrame(v, true)]
    case Streamed(items) => ItemFrames(items) + [ResultFrame(Lit("null"), true)]
    case Raised(items, kind, error) => ItemFrames(items) + [ErrorFrame(kind, error)]
  }

  predicate Present(v: Json) {
    v != Lit("null")
  }

  function Values(run: Run): seq<Json> {
    Filter(if run.Returned? then [run.result] else run.items, Present)
  }

  predicate Sendable(run: Run) {
    match run
    case Returned(v) => Printable(v)
    case Streamed(items) => AllPrintable(items)
    case Raised(items, _, _) => AllPrintable(items)
  }

  lemma FilterOne(v: Json)
    ensures Filter([v], Present) == if Present(v) then [v] else []
  {
    assert [v][1..] == [];
  }

  lemma GetLast(fields: seq<(string, Json)>, k: string, v: Json, key: string)
    ensures Get(fields + [(k, v)], key) == if k == key then Some(v) else Get(fields, key)
  {
    assert (fields + [(k, v)])[..|fields|] == fields;
  }

  lemma ResultFrameFields(v: Json, done: bool)
    ensures var f := ResultFrame(v, done);
            !Refused(f) && Result(f) == v && IsDone(f) == done && (Printable(v) ==> IsFrame(f))
  {
    hide Get;
    var a, b, c := ("ok", Lit("true")), ("result", v), ("done", Lit(if done then "true" else "false"));
    var f := ResultFrame(v, done);
    assert f.fields == [] + [a] + [b] + [c];
    GetLast([], a.0, a.1, "ok");
    GetLast([] + [a], b.0, b.1, "ok");
    GetLast([] + [a], b.0, b.1, "result");
    GetLast([] + [a] + [b], c.0, c.1, "ok");
    GetLast([] + [a] + [b], c.0, c.1, "result");
    GetLast([] + [a] + [b], c.0, c.1, "done");
    if Printable(v) {
      FieldsPrintableStep(c, []);
      assert [c] + [] == [c];
      FieldsPrintableStep(b, [c]);
      FieldsPrintableStep(a, [b, c]);
      assert f.fields == [a] + [b, c] && [b, c] == [b] + [c];
    }
  }

  lemma FieldsPrintableStep(f: (string, Json), rest: seq<(string, Json)>)
    requires FieldPrintable(f) && FieldsPrintable(rest)
    ensures FieldsPrintable([f] + rest)
  {
    assert ([f] + rest)[1..] == rest;
  }

  lemma ErrorFrameFields(kind: string, error: string)
    ensures var f := ErrorFrame(kind, error); Refused(f) && IsDone(f) && IsFrame(f)
  {
    hide Get;
    var a, b, c, d := ("ok", Lit("false")), ("error_type", Str(kind)), ("error", Str(error)), ("done", Lit("true"));
    var f := ErrorFrame(kind, error);
    assert f.fields == [] + [a] + [b] + [c] + [d];
    GetLast([], a.0, a.1, "ok");
    GetLast([] + [a], b.0, b.1, "ok");
    GetLast([] + [a] + [b], c.0, c.1, "ok");
    GetLast([] + [a] + [b] + [c], d.0, d.1, "ok");
    GetLast([] + [a] + [b] + [c], d.0, d.1, "done");
    FieldsPrintableStep(d, []);
    assert [d] + [] == [d];
    FieldsPrintableStep(c, [d]);
    FieldsPrintableStep(b, [c, d]);
    FieldsPrintableStep(a, [b, c, d]);
    assert f.fields == [a] + [b, c, d] && [b, c, d] == [b] + [c, d] && [c, d] == [c] + [d];
  }

  lemma {:induction false} ItemsThen(items: seq<Json>, last: Json)
    requires AllPrintable(items) && IsFrame(last) && IsDone(last)
    ensures var fs := ItemFrames(items) + [last];
            && AllFrames(fs) && HasDone(fs)
            && Results(fs) == Filter(items, Present) + (if Refused(last) then [] else ResultOf(last))
            && OutcomeOf(fs, Finished) == if Refused(last) then Fatal else Completed
  {
    hide IsFrame, IsDone, Refused, Result, ResultFrame;
    var fs := ItemFrames(items) + [last];
    assert fs[|items|] == last;
    if items == [] {
      assert fs == [last] && fs[1..] == [];
    } else {
      var v, rest := items[0], ItemFrames(items[1..]) + [last];
      ResultFrameFields(v, false);
      ItemsThen(items[1..], last);
      assert fs[0] == ResultFrame(v, false);
      assert fs[1..] == rest;
      assert AllFrames(fs) by { assert forall i :: 0 < i < |fs| ==> fs[i] == rest[i - 1]; }
    }
  }

  /** A worker's frames carry the handler's values and how it ended. */
  lemma ReplyCarries(run: Run)
    requires Sendable(run)
    ensures AllFrames(Reply(run)) && HasDone(Reply(run))
    ensures Results(Reply(run)) == Values(run)
    ensures OutcomeOf(Reply(run), Finished) == if run.Raised? then Fatal else Completed
  {
    hide IsFrame, IsDone, Refused, Result, ResultFrame, ErrorFrame, AllPrintable;
    match run
    case Returned(v) =>
      ResultFrameFields(v, true);
      assert Reply(run)[0] == ResultFrame(v, true);
      assert Values(run) == ResultOf(ResultFrame(v, true)) by { FilterOne(v); }
    case Streamed(items) =>
      ResultFrameFields(Lit("null"), true);
      ItemsThen(items, ResultFrame(Lit("null"), true));
    case Raised(items, kind, error) =>
      ErrorFrameFields(kind, error);
      ItemsThen(items, ErrorFrame(kind, error));
  }

  /** From handler to caller: the values seen are the first of one run's values; all of them, and its end, when the
      reply is delivered whole and no chunk ends before an inner newline. */
  lemma HandlerToCaller(run: Run, call: Call)
    requires Sendable(run) && Receives(call, Reply(run))
    ensures Yielded(call) <= Values(run)
  {
    hide *;
    ReplyCarries(run);
    YieldsArePrefix(call, Reply(run));
  }

  // ---- a call that completes without having it all ----

  /** Only the last frame of a reply says it is last, and only that can be a refusal. */
  lemma LastIsLast(run: Run)
    ensures Reply(run) != []
    ensures forall i :: 0 <= i < |Reply(run)| ==> (IsDone(Reply(run)[i]) <==> i == |Reply(run)| - 1)
    ensures forall i :: 0 <= i < |Reply(run)| - 1 ==> !Refused(Reply(run)[i])
  {
    hide IsDone, Refused, ResultFrame, ErrorFrame;
    match run
    case Returned(v) => ResultFrameFields(v, true);
    case Streamed(items) =>
      ResultFrameFields(Lit("null"), true);
      ItemsAreInner(items);
    case Raised(items, kind, error) =>
      ErrorFrameFields(kind, error);
      ItemsAreInner(items);
  }

  lemma ItemsAreInner(items: seq<Json>)
    ensures forall i :: 0 <= i < |items| ==> !IsDone(ItemFrames(items)[i]) && !Refused(ItemFrames(items)[i])
  {
    hide IsDone, Refused, ResultFrame;
    forall i | 0 <= i < |items| ensures !IsDone(ItemFrames(items)[i]) && !Refused(ItemFrames(items)[i]) {
      ResultFrameFields(items[i], false);
    }
  }

  lemma {:induction false} FinishedSawSome(buf: string, feed: seq<Read>)
    requires AFrames(buf, false, feed).end == Finished
    ensures AFrames(buf, false, feed).frames != []
    decreases |feed|
  {
    hide DrainLines;
    var d := Digest(buf + feed[0].text);
    FinishedDrain(buf + feed[0].text);
    if d.end == Running && d.frames == [] {
      FinishedSawSome(d.buf, feed[1..]);
    }
  }

  lemma {:induction false} FinishedDrain(buf: string)
    ensures DrainLines(buf).end == Finished ==> DrainLines(buf).frames != []
    decreases |buf|
  {
    hide Loads, IsDone, IndexOf;
    if '\n' in buf {
      FinishedDrain(buf[IndexOf(buf, '\n') + 1..]);
    }
  }

  lemma {:induction false} ResultsSplit(a: seq<Json>, b: seq<Json>)
    requires forall i :: 0 <= i < |a| ==> !IsDone(a[i]) && !Refused(a[i])
    ensures Results(a + b) == Results(a) + Results(b)
  {
    hide IsDone, Refused, ResultOf;
    if a == [] {
      assert a + b == b;
    } else {
      assert (a + b)[0] == a[0] && (a + b)[1..] == a[1..] + b;
      ResultsSplit(a[1..], b);
      assert Results(a + b) == ResultOf(a[0]) + Results(a[1..] + b);
      assert Results(a) == ResultOf(a[0]) + Results(a[1..]);
      hide Results;
      Associate(ResultOf(a[0]), Results(a[1..]), Results(b));
    }
  }

  /** Frames that are neither last nor a refusal leave the outcome to how the reading ends. */
  lemma {:induction false} InnerOutcome(frames: seq<Json>, end: End)
    requires forall i :: 0 <= i < |frames| ==> !IsDone(frames[i]) && !Refused(frames[i])
    ensures OutcomeOf(frames, end) == EndOutcome(end)
  {
    hide IsDone, Refused, EndOutcome;
    if frames != [] {
      InnerOutcome(frames[1..], end);
    }
  }

  lemma {:induction false} UpToLast(fs: seq<Json>)
    requires fs != [] && forall i :: 0 <= i < |fs| ==> (IsDone(fs[i]) <==> i == |fs| - 1)
    ensures UpToDone(fs) == fs
  {
    hide IsDone;
    if |fs| > 1 {
      forall i | 0 <= i < |fs| - 1 ensures IsDone(fs[1..][i]) <==> i == |fs| - 2 {
        assert fs[1..][i] == fs[i + 1];
      }
      UpToLast(fs[1..]);
    }
  }

  /** The values a call lacks are the results of the frames it has not seen. */
  lemma SeenLacks(run: Run, call: Call)
    requires Sendable(run) && Receives(call, Reply(run))
    ensures var seen, reply := SeenIn(call).frames, Reply(run); var n := |seen|;
            && n <= |reply| && seen == reply[..n]
            && Values(run) == Yielded(call) + Results(reply[n..])
            && (n < |reply| ==> Ended(call) == EndOutcome(SeenIn(call).end))
            && (n == |reply| ==> Ended(call) == if run.Raised? then Fatal else Completed)
            && (n > 0 ==> (IsDone(seen[n - 1]) <==> n == |reply|))
  {
    hide *;
    ReplyCarries(run);
    LastIsLast(run);
    var seen, reply := SeenIn(call).frames, Reply(run);
    UpToLast(reply);
    SeenPrefix(call, reply);
    CallEnds(call);
    var n := |seen|;
    if n < |reply| {
      assert forall i :: 0 <= i < n ==> seen[i] == reply[i];
      ResultsSplit(seen, reply[n..]);
      assert reply == seen + reply[n..];
      InnerOutcome(seen, SeenIn(call).end);
    } else {
      assert seen == reply && reply[n..] == [];
      ConsumeEnd(Finished);
      OutcomeUpToDone(reply, SeenIn(call).end);
      assert Results(reply) + [] == Results(reply);
    }
  }

  /** A reply delivered whole, in any chunks: the caller has all its frames, and so all the handler's values and how it
      ended, if and only if no chunk ends before an inner newline; otherwise it is told of success in any case. */
  lemma HandlerToCallerWhole(run: Run, chunks: seq<string>, more: seq<Read>)
    requires Sendable(run) && NonEmpty(chunks) && Concat(chunks) == Sent(Reply(run))
    ensures var call, clean := Connected(Reads(chunks) + more), NeverBad(Reply(run), [], chunks);
            && (SeenIn(call).frames == Reply(run) <==> clean)
            && (clean ==> Yielded(call) == Values(run))
            && Ended(call) == if clean && run.Raised? then Fatal else Completed
  {
    hide *;
    ReplyCarries(run);
    LastIsLast(run);
    var reply, call := Reply(run), Connected(Reads(chunks) + more);
    UpToLast(reply);
    ReplyIsWholeIff(reply, chunks, more);
    ConnectedSees(Reads(chunks) + more);
    var seen := SeenIn(call).frames;
    if NeverBad(reply, [], chunks) {
      YieldsAreAll(chunks, more, reply);
    } else {
      assert |seen| < |reply|;
      assert forall i :: 0 <= i < |seen| ==> seen[i] == reply[i];
      InnerOutcome(seen, Finished);
      CallEnds(call);
      EndCompleted();
    }
  }

  lemma ConnectedSees(feed: seq<Read>)
    ensures SeenIn(Connected(feed)) == AFrames([], false, feed)
  {
  }

  lemma EndCompleted()
    ensures EndOutcome(Finished) == Completed
  {
  }

  lemma SeenPrefix(call: Call, sent: seq<Json>)
    requires Receives(call, sent)
    ensures SeenIn(call).frames <= UpToDone(sent)
  {
    hide Print, IsDone, AFrames, Text, Sent, UpToDone, AllFrames;
    if call.Connected? {
      StartsWaiting(sent);
      assert [] + Text(call.feed) == Text(call.feed);
      FramesArePrefix(sent, [], false, call.feed);
    }
  }

  lemma SawSome(call: Call)
    requires SeenIn(call).end == Finished
    ensures SeenIn(call).frames != []
  {
    hide AFrames;
    FinishedSawSome([], call.feed);
  }
}
