/** How a remote call ends, and what it has, from what was delivered to it. */
module Outcomes {
  import opened Json
  import opened Frames
  import opened FrameStreams
  import opened Deliveries
  import opened Remote
  import opened Seqs

  /** The call reads these chunks, and then its feed stops. By `EveryFeedSplits` every connected call is one. */
  function CallOf(chunks: seq<string>, tail: seq<Read>): Call {
    Connected(Reads(chunks) + tail)
  }

  /** The chunks are a part of the reply to this run. */
  predicate Delivers(run: Run, chunks: seq<string>, tail: seq<Read>) {
    Sendable(run) && NonEmpty(chunks) && Stops(tail) && Concat(chunks) <= Sent(Reply(run))
  }

  lemma ReplyShape(run: Run)
    requires Sendable(run)
    ensures Reply(run) != [] && AllFrames(Reply(run)) && HasDone(Reply(run)) && Waiting(Reply(run), [])
    ensures UpToDone(Reply(run)) == Reply(run)
  {
    hide *;
    ReplyCarries(run);
    LastIsLast(run);
    UpToLast(Reply(run));
    StartsWaiting(Reply(run));
  }

  lemma TextOfChunks(chunks: seq<string>, tail: seq<Read>)
    requires NonEmpty(chunks) && Stops(tail)
    ensures Text(Reads(chunks) + tail) == Concat(chunks)
    decreases |chunks|
  {
    var feed := Reads(chunks) + tail;
    if chunks == [] {
      NoReads(tail);
    } else {
      NonEmptyParts(chunks);
      TextOfChunks(chunks[1..], tail);
      assert feed[0] == Chunk(chunks[0]) && feed[1..] == Reads(chunks[1..]) + tail;
    }
  }

  lemma SeenByCall(run: Run, chunks: seq<string>, tail: seq<Read>)
    requires Delivers(run, chunks, tail)
    ensures Reply(run) != []
    ensures Receives(CallOf(chunks, tail), Reply(run))
    ensures UpToDone(Reply(run)) == Reply(run)
    ensures SeenAs(Reply(run), [], false, chunks, tail, SeenIn(CallOf(chunks, tail)))
  {
    hide Sendable, NonEmpty, Stops, Concat, Sent, Reply, Reads, AFrames, SeenAs, AllFrames, HasDone, Waiting, UpToDone,
        Text;
    ReplyShape(run);
    TextOfChunks(chunks, tail);
    assert [] + Concat(chunks) == Concat(chunks);
    SeenOfDelivered(Reply(run), [], false, chunks, tail);
  }

  lemma SeenFacts(fs: seq<Json>, chunks: seq<string>, tail: seq<Read>, s: Seen)
    requires fs != [] && UpToDone(fs) == fs && Stops(tail) && SeenAs(fs, [], false, chunks, tail, s)
    ensures Shown(fs, [], chunks) <= |fs| && s.frames == fs[..Shown(fs, [], chunks)]
    ensures s.frames == fs <==> Whole(fs, [], chunks)
    ensures !Whole(fs, [], chunks) ==>
              s.end == if !NeverBad(fs, [], chunks) then Finished else StopEnd(tail, Print(fs[0]) <= Concat(chunks))
  {
    hide Print, Concat, NeverBad, LastText, Shown, UpToDone, StopEnd;
    assert [] + Concat(chunks) == Concat(chunks);
  }

  /** For every run, every part of its reply, every chunking and every way the feed stops. The call that got the last
      frame ends as the run did. One that was cut before an inner newline is reported as completed; so is one whose
      stream ended after the first frame. A timeout, and an end of the stream before the first frame, are transient;
      and a feed that has nothing more is still waited for. */
  lemma HowCallsEnd(run: Run, chunks: seq<string>, tail: seq<Read>)
    requires Delivers(run, chunks, tail)
    ensures var reply := Reply(run);
            && reply != []
            && Ended(CallOf(chunks, tail)) ==
               if Whole(reply, [], chunks) then (if run.Raised? then Fatal else Completed)
               else if !NeverBad(reply, [], chunks) then Completed
               else if tail == [] then Pending
               else if tail[0].Expired? then Transient
               else if Print(reply[0]) <= Concat(chunks) then Completed
               else Transient
  {
    hide *;
    SeenByCall(run, chunks, tail);
    var reply, call := Reply(run), CallOf(chunks, tail);
    DeliversStops(run, chunks, tail);
    SeenFacts(reply, chunks, tail, SeenIn(call));
    SeenLacks(run, call);
    PrefixIsWhole(reply, |SeenIn(call).frames|);
    FinishedIsCompleted(Finished);
    StopOutcome(tail, Print(reply[0]) <= Concat(chunks));
  }

  lemma StopOutcome(tail: seq<Read>, saw: bool)
    requires Stops(tail)
    ensures EndOutcome(StopEnd(tail, saw)) ==
            if tail == [] then Pending else if tail[0].Expired? then Transient else if saw then Completed else Transient
  {
  }

  /** Before the first frame's text is delivered a timeout and an end of the stream yield nothing and are transient, so
      `astream` tries again; once a value is out, it does not, and a timeout then surfaces. */
  lemma RetriedBeforeFrames(run: Run, chunks: seq<string>, tail: seq<Read>)
    requires Delivers(run, chunks, tail) && tail != [] && Reply(run) != [] && !(Print(Reply(run)[0]) <= Concat(chunks))
    ensures var call := CallOf(chunks, tail); Yielded(call) == [] && Ended(call) == Transient
  {
    hide *;
    HowCallsEnd(run, chunks, tail);
    SeenByCall(run, chunks, tail);
    DeliversStops(run, chunks, tail);
    var reply := Reply(run);
    NothingSeen(reply, chunks, tail, SeenIn(CallOf(chunks, tail)));
    CallEnds(CallOf(chunks, tail));
    ConsumeEnd(Finished);
  }

  lemma NothingSeen(fs: seq<Json>, chunks: seq<string>, tail: seq<Read>, s: Seen)
    requires fs != [] && UpToDone(fs) == fs && Stops(tail) && SeenAs(fs, [], false, chunks, tail, s)
    requires !(Print(fs[0]) <= Concat(chunks))
    ensures s.frames == [] && !Whole(fs, [], chunks) && NeverBad(fs, [], chunks)
  {
    hide Print, Concat, NeverBad, LastText, UpToDone, StopEnd, BadEnd;
    assert [] + Concat(chunks) == Concat(chunks);
    if !NeverBad(fs, [], chunks) {
      BadShowsFirst(fs, [], chunks);
    }
  }

  /** A chunk that ends badly has at least the first frame's text before its end. */
  lemma BadShowsFirst(fs: seq<Json>, buf: string, chunks: seq<string>)
    requires fs != [] && !NeverBad(fs, buf, chunks)
    ensures Print(fs[0]) <= buf + Concat(chunks)
  {
    hide Print, BadEnd;
    var k :| 0 < k <= |chunks| && BadEnd(fs, buf + Concat(chunks[..k]));
    BadHasFirst(fs, buf + Concat(chunks[..k]));
    ConcatSplit(chunks, k);
    Associate(buf, Concat(chunks[..k]), Concat(chunks[k..]));
  }

  lemma BadHasFirst(fs: seq<Json>, t: string)
    requires BadEnd(fs, t)
    ensures Print(fs[0]) <= t
  {
    hide Print, IsDone;
  }

  lemma {:induction false} ConcatSplit(chunks: seq<string>, k: nat)
    requires k <= |chunks|
    ensures Concat(chunks) == Concat(chunks[..k]) + Concat(chunks[k..])
    decreases k
  {
    if k == 0 {
      assert chunks[..0] == [] && chunks[0..] == chunks;
    } else {
      ConcatSplit(chunks[1..], k - 1);
      assert chunks[..k][0] == chunks[0] && chunks[..k][1..] == chunks[1..][..k - 1];
      assert chunks[1..][k - 1..] == chunks[k..];
      assert Concat(chunks) == chunks[0] + Concat(chunks[1..]);
      assert Concat(chunks[..k]) == chunks[0] + Concat(chunks[1..][..k - 1]);
      hide Concat;
      Associate(chunks[0], Concat(chunks[1..][..k - 1]), Concat(chunks[k..]));
    }
  }

  /** A frame that is no object ends the call for good. */
  lemma NonObjectIsFatal(v: Json, more: seq<Read>)
    requires Printable(v) && !v.Obj?
    ensures var call := Connected([Chunk(Print(v) + "\n")] + more); Yielded(call) == [] && Ended(call) == Fatal
  {
    hide *;
    JsonText.LoadsPrint(v);
    JsonText.FirstChar(v);
    PrintOneLine(v);
    var t := Print(v) + "\n";
    assert t == Print(v) + "\n" + [];
    FirstLine(Print(v), [], t);
    BadLine(t, v, |Print(v)|);
    BadChunk(t, more);
    var call := Connected([Chunk(t)] + more);
    ConnectedSees([Chunk(t)] + more);
    CallEnds(call);
    ConsumeEnd(Crashed);
    CrashedIsFatal();
  }

  lemma CrashedIsFatal()
    ensures EndOutcome(Crashed) == Fatal
  {
  }

  lemma BadLine(t: string, v: Json, n: nat)
    requires '\n' in t && IndexOf(t, '\n') == n < |t| && t[..n] != [] && Loads(t[..n]) == Loaded(v) && !v.Obj?
    ensures DrainLines(t) == Drained([], t[n + 1..], Crashed)
  {
    hide Loads, IsDone;
  }

  lemma BadChunk(t: string, more: seq<Read>)
    requires t != [] && DrainLines(t).frames == [] && DrainLines(t).end == Crashed
    ensures AFrames([], false, [Chunk(t)] + more) == Seen([], Crashed)
  {
    hide DrainLines;
    var feed := [Chunk(t)] + more;
    assert feed[0] == Chunk(t) && [] + t == t;
  }

  /** A handler's error arrives as its typed exception exactly when its frame does. */
  lemma TypedErrorArrives(items: seq<Json>, kind: string, error: string, chunks: seq<string>, tail: seq<Read>)
    requires Delivers(Raised(items, kind, error), chunks, tail)
    ensures var seen := SeenIn(CallOf(chunks, tail)).frames;
            ErrorIn(seen) ==
              if !Whole(Reply(Raised(items, kind, error)), [], chunks) then None
              else Some(RemoteError(
                if kind == "handler_not_found" then HandlerNotFound
                else if kind == "unauthorized" then Unauthorized
                else if kind == "handler_error" then HandlerError
                else if kind == "rate_limited" then RateLimited
                else Generic,
                Str(if error == "" then "remote error" else error)))
  {
    hide *;
    var run := Raised(items, kind, error);
    var reply, seen := Reply(run), SeenIn(CallOf(chunks, tail)).frames;
    WhatCallsHave(run, chunks, tail);
    LastIsLast(run);
    RaisedShape(items, kind, error);
    var n := |items|;
    if Whole(reply, [], chunks) {
      PrefixIsWhole(reply, |seen|);
      InnerNoError(reply, n);
      RaisedLast(items, kind, error);
      ErrorFrameReads(kind, error);
      RefusalIsError(ErrorFrame(kind, error));
      NamedKinds(kind);
    } else {
      assert forall i :: 0 <= i < |seen| ==> seen[i] == reply[i];
      assert seen + [] == seen && seen[..|seen|] == seen;
      InnerErrors(seen, []);
      ConsumeEnd(Finished);
    }
  }

  lemma RaisedLast(items: seq<Json>, kind: string, error: string)
    ensures var reply := Reply(Raised(items, kind, error));
            |reply| == |items| + 1 && reply[|items|..] == [ErrorFrame(kind, error)]
  {
  }

  lemma RefusalIsError(f: Json)
    requires Refused(f)
    ensures ErrorIn([f]) == Some(FromReply(f))
  {
    hide Refused, FromReply;
  }

  lemma NamedKinds(kind: string)
    ensures KindOf(Str(if kind == "" then "remote_error" else kind)) ==
            if kind == "handler_not_found" then HandlerNotFound
            else if kind == "unauthorized" then Unauthorized
            else if kind == "handler_error" then HandlerError
            else if kind == "rate_limited" then RateLimited
            else Generic
  {
  }

  lemma InnerNoError(reply: seq<Json>, n: nat)
    requires n < |reply| && forall i :: 0 <= i < n ==> !IsDone(reply[i]) && !Refused(reply[i])
    ensures ErrorIn(reply) == ErrorIn(reply[n..])
  {
    hide IsDone, Refused;
    var front := reply[..n];
    assert forall i :: 0 <= i < n ==> front[i] == reply[i];
    InnerErrors(front, reply[n..]);
    assert reply == front + reply[n..];
  }

  lemma {:induction false} InnerErrors(front: seq<Json>, rest: seq<Json>)
    requires forall i :: 0 <= i < |front| ==> !IsDone(front[i]) && !Refused(front[i])
    ensures ErrorIn(front + rest) == ErrorIn(rest)
  {
    hide IsDone, Refused, FromReply;
    if front == [] {
      assert front + rest == rest;
    } else {
      assert (front + rest)[0] == front[0] && (front + rest)[1..] == front[1..] + rest;
      InnerErrors(front[1..], rest);
    }
  }

  lemma ErrorFrameReads(kind: string, error: string)
    ensures var f := ErrorFrame(kind, error);
            && Refused(f)
            && FromReply(f).message == Str(if error == "" then "remote error" else error)
            && FromReply(f).kind == KindOf(Str(if kind == "" then "remote_error" else kind))
  {
    hide Get;
    ErrorFrameFields(kind, error);
    var a, b, c, d := ("ok", Lit("false")), ("error_type", Str(kind)), ("error", Str(error)), ("done", Lit("true"));
    assert ErrorFrame(kind, error).fields == [] + [a] + [b] + [c] + [d];
    GetLast([] + [a], b.0, b.1, "error_type");
    GetLast([] + [a] + [b], c.0, c.1, "error_type");
    GetLast([] + [a] + [b] + [c], d.0, d.1, "error_type");
    GetLast([] + [a] + [b], c.0, c.1, "error");
    GetLast([] + [a] + [b] + [c], d.0, d.1, "error");
  }

  lemma DeliversStops(run: Run, chunks: seq<string>, tail: seq<Read>)
    requires Delivers(run, chunks, tail)
    ensures Stops(tail) && Sendable(run)
  {
  }

  lemma PrefixIsWhole(fs: seq<Json>, n: nat)
    requires n <= |fs|
    ensures fs[..n] == fs <==> n == |fs|
  {
    assert fs[..|fs|] == fs;
  }

  /** What such a call has: the frames its chunks show, all of them exactly when they are whole, and the results of
      those; so it has all the values exactly when the others carry none. */
  lemma WhatCallsHave(run: Run, chunks: seq<string>, tail: seq<Read>)
    requires Delivers(run, chunks, tail)
    ensures var reply, call := Reply(run), CallOf(chunks, tail); var n := Shown(reply, [], chunks);
            && n <= |reply| && SeenIn(call).frames == reply[..n]
            && (n == |reply| <==> Whole(reply, [], chunks))
            && Values(run) == Yielded(call) + Results(reply[n..])
            && (Yielded(call) == Values(run) <==> Results(reply[n..]) == [])
  {
    hide *;
    SeenByCall(run, chunks, tail);
    var reply, call := Reply(run), CallOf(chunks, tail);
    DeliversStops(run, chunks, tail);
    SeenFacts(reply, chunks, tail, SeenIn(call));
    SeenLacks(run, call);
    PrefixIsWhole(reply, |SeenIn(call).frames|);
    NothingMore(Yielded(call), Results(reply[Shown(reply, [], chunks)..]));
  }

  lemma NothingMore(a: seq<Json>, b: seq<Json>)
    ensures a == a + b <==> b == []
  {
    assert a + [] == a;
  }

  /** Some chunk ends before an inner newline. */
  ghost predicate CutShort(run: Run, chunks: seq<string>) {
    !NeverBad(Reply(run), [], chunks)
  }

  /** The stream ends after the first frame and before the last. */
  ghost predicate BreaksOff(run: Run, chunks: seq<string>, tail: seq<Read>) {
    && !CutShort(run, chunks) && !Whole(Reply(run), [], chunks)
    && tail != [] && tail[0].Chunk? && Reply(run) != [] && Print(Reply(run)[0]) <= Concat(chunks)
  }

  /** Exactly when a call reports success: a whole reply of a run that did not raise; a reply cut short; or one that
      breaks off. In the last two cases frames are missing, and if the run raised nobody is told. */
  lemma CompletedIff(run: Run, chunks: seq<string>, tail: seq<Read>)
    requires Delivers(run, chunks, tail)
    ensures var call, whole := CallOf(chunks, tail), Whole(Reply(run), [], chunks);
            var lost := CutShort(run, chunks) || BreaksOff(run, chunks, tail);
            && !(whole && lost)
            && (Ended(call) == Completed <==> (whole && !run.Raised?) || lost)
            && (Ended(call) == Completed ==> (SeenIn(call).frames == Reply(run) <==> !lost))
            && (run.Raised? ==> (Ended(call) == Completed <==> lost))
  {
    hide *;
    HowCallsEnd(run, chunks, tail);
    WhatCallsHave(run, chunks, tail);
    DeliversStops(run, chunks, tail);
    PrefixIsWhole(Reply(run), Shown(Reply(run), [], chunks));
    LostCases(run, chunks, tail);
  }

  lemma LostCases(run: Run, chunks: seq<string>, tail: seq<Read>)
    requires Stops(tail) && Reply(run) != []
    ensures var reply, whole := Reply(run), Whole(Reply(run), [], chunks);
            && (CutShort(run, chunks) <==> !NeverBad(reply, [], chunks))
            && (whole ==> !CutShort(run, chunks) && !BreaksOff(run, chunks, tail))
            && (!whole && !CutShort(run, chunks) ==>
                  (BreaksOff(run, chunks, tail) <==> tail != [] && tail[0].Chunk? && Print(reply[0]) <= Concat(chunks)))
  {
    hide Reply, NeverBad, LastText, Print, Concat;
  }

  /** The caller can tell: a completed call has seen a frame, and has them all exactly when the last one it saw says
      it is last. */
  lemma CompletedTells(run: Run, call: Call)
    requires Sendable(run) && Receives(call, Reply(run)) && Ended(call) == Completed
    ensures var seen := SeenIn(call).frames;
            && seen != []
            && (IsDone(seen[|seen| - 1]) <==> seen == Reply(run))
            && (IsDone(seen[|seen| - 1]) ==> !run.Raised? && Yielded(call) == Values(run))
  {
    hide *;
    SeenLacks(run, call);
    ReplyShape(run);
    var seen, reply := SeenIn(call).frames, Reply(run);
    if |seen| < |reply| {
      FinishedIsCompleted(SeenIn(call).end);
      SawSome(call);
    } else {
      assert seen == reply && reply[|seen|..] == [];
      ConsumeEnd(Finished);
      assert Yielded(call) + [] == Yielded(call);
    }
  }

  lemma FinishedIsCompleted(end: End)
    ensures EndOutcome(end) == Completed <==> end == Finished
  {
  }

  /** A handler that raises after some items, and whose error frame is lost: the caller is told of success, with the
      items it has, whatever the items and wherever after the first the stream ends. */
  lemma HiddenRaise(items: seq<Json>, kind: string, error: string, n: nat)
    requires AllPrintable(items) && 0 < n <= |items|
    ensures var run := Raised(items, kind, error); var reply := Reply(run);
            var call := Connected([Chunk(Sent(reply[..n])), Chunk([])]);
            Ended(call) == Completed && SeenIn(call).frames == reply[..n]
  {
    hide *;
    var run := Raised(items, kind, error);
    var reply := Reply(run);
    RaisedShape(items, kind, error);
    ReplyCarries(run);
    LastIsLast(run);
    var seen := reply[..n];
    assert forall i :: 0 <= i < n ==> seen[i] == reply[i];
    NoneIsDone(seen);
    BrokenOff(reply, n);
    var feed := [Chunk(Sent(seen)), Chunk([])];
    ConnectedSees(feed);
    CallEnds(Connected(feed));
    InnerOutcome(seen, Finished);
    EndCompleted();
  }

  lemma RaisedShape(items: seq<Json>, kind: string, error: string)
    ensures |Reply(Raised(items, kind, error))| == |items| + 1
    ensures AllPrintable(items) ==> Sendable(Raised(items, kind, error))
  {
  }

  lemma NoneIsDone(fs: seq<Json>)
    requires forall i :: 0 <= i < |fs| ==> !IsDone(fs[i])
    ensures NoneDone(fs)
  {
    hide IsDone;
  }

  // ---- legacy replies ----

  /** A legacy reply, in every chunking: only an `ok` that is false raises, and a result that is there and not null is
      yielded. */
  lemma LegacyCall(f: Json, chunks: seq<string>, more: seq<Read>)
    requires f.Obj? && Printable(f) && NonEmpty(chunks) && Concat(chunks) == Print(f)
    ensures var call, ok, result := Connected(Reads(chunks) + more), Get(f.fields, "ok"), Get(f.fields, "result");
            && Ended(call) == (if ok == Some(Lit("false")) then Fatal else Completed)
            && Yielded(call) ==
               if ok == Some(Lit("false")) || result == None || result == Some(Lit("null")) then [] else [result.value]
  {
    hide *;
    JsonText.FirstChar(f);
    assert [] + Concat(chunks) == Print(f);
    LegacyReplyArrives(f, [], false, chunks, more);
    var call := Connected(Reads(chunks) + more);
    ConnectedSees(Reads(chunks) + more);
    CallEnds(call);
    var g := SeenIn(call).frames[0];
    assert SeenIn(call).frames == [g];
    SameFields(f, g);
    OneFrame(g);
  }

  lemma SameFields(f: Json, g: Json)
    requires SameButDone(f, g)
    ensures f.Obj? && g.Obj? && Get(g.fields, "ok") == Get(f.fields, "ok")
    ensures Get(g.fields, "result") == Get(f.fields, "result")
  {
    hide Get;
  }

  lemma OneFrame(g: Json)
    requires g.Obj?
    ensures var ok, result := Get(g.fields, "ok"), Get(g.fields, "result");
            && OutcomeOf([g], Finished) == (if ok == Some(Lit("false")) then Fatal else Completed)
            && Results([g]) ==
               if ok == Some(Lit("false")) || result == None || result == Some(Lit("null")) then [] else [result.value]
  {
    hide Get, IsDone;
    assert [g][1..] == [];
    assert Results([]) == [] && OutcomeOf([], Finished) == Completed;
    assert ResultOf(g) + [] == ResultOf(g);
  }
}
