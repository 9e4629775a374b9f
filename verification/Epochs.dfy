/** Connection epochs of the reconnecting subscription: which events the queue gets from which stream. */
module Epochs {
  import opened Wire
  import opened Seqs
  import opened EventCodec
  import opened Reconnect
  import Utf8

  /** One connection epoch: the buffer it inherits, and the bytes its stream delivers. */
  datatype Epoch = Epoch(start: bytes, bytes: bytes)

  const FIRST := Epoch([], [])

  /** The epochs of a run, given the current one and the buffer so far. */
  function EpochsOf(e: Epoch, buf: bytes, rounds: seq<Round>): (es: seq<Epoch>)
    ensures es != []
    decreases |rounds|
  {
    if rounds == [] then [e]
    else
      var r, d := rounds[0], DrainStream(buf, rounds[0].chunks);
      var now := e.(bytes := e.bytes + Concat(r.chunks));
      var kept := AfterAttempt(d.buf, r.attempt);
      match r.attempt
      case Closed => [now]
      case NoStream => EpochsOf(now, kept, rounds[1..])
      case _ => [now] + EpochsOf(Epoch(kept, []), kept, rounds[1..])
  }

  /** The events of a byte string up to the first incomplete or bad one. */
  function GoodEvents(b: bytes): seq<RawEvent> {
    if FrontOf(b).Complete? then [FrontOf(b).event] + GoodEvents(b[FrontOf(b).size..]) else []
  }

  /** What one epoch contributes: a prefix of its own events; all of them when it starts with an empty buffer and its
      bytes do not go bad. */
  predicate Contribution(part: seq<Event>, e: Epoch) {
    && part <= FromRaws(GoodEvents(e.bytes))
    && (e.start == [] && SplitAll(e.bytes).Parsed? ==> part == FromRaws(GoodEvents(e.bytes)))
  }

  const LONGEST: nat := 2 + MAX_TOPIC + 4 + MAX_PAYLOAD

  function Zeros(n: nat): bytes {
    seq(n, i => 0)
  }

  /** The buffer raises already, or every continuation makes it raise: filled up with the smallest bytes, its first
      event is refused. */
  predicate Dead(buf: bytes) {
    SplitAll(buf).Raised? || FrontOf(buf + Zeros(LONGEST)).Bad?
  }

  /** The epoch is silent, or what it inherits can make no event. */
  predicate Harmless(e: Epoch) {
    e.bytes == [] || e.start == [] || Dead(e.start)
  }

  predicate AllHarmless(es: seq<Epoch>) {
    forall i :: 0 <= i < |es| ==> Harmless(es[i])
  }

  /** The queue of a run is one part for each epoch, in order, each decoded from the bytes of that epoch alone. */
  ghost predicate ByEpoch(parts: seq<seq<Event>>, queue: seq<Event>, es: seq<Epoch>) {
    && |parts| == |es| && queue == Concat(parts)
    && forall i :: 0 <= i < |parts| ==> Contribution(parts[i], es[i])
  }

  lemma {:induction false} GoodOfParsed(b: bytes)
    ensures SplitAll(b).Parsed? ==> GoodEvents(b) == SplitAll(b).events
  {
    hide FrontOf;
    if FrontOf(b).Complete? {
      GoodOfParsed(b[FrontOf(b).size..]);
    }
  }

  lemma {:induction false} GoodOfEncoded(es: seq<RawEvent>, b: bytes)
    requires AllSendable(es)
    ensures GoodEvents(EncodeRaws(es) + b) == es + GoodEvents(b)
  {
    hide FrontOf, EncodeRaw;
    if es == [] {
      assert EncodeRaws(es) + b == b;
    } else {
      var x, y := EncodeRaw(es[0]), EncodeRaws(es[1..]) + b;
      assert EncodeRaws(es) + b == x + y;
      FrontOfEncoded(es[0], y);
      assert (x + y)[|x|..] == y;
      GoodOfEncoded(es[1..], b);
      assert es + GoodEvents(b) == [es[0]] + (es[1..] + GoodEvents(b));
    }
  }

  lemma {:induction false} GoodGrows(a: bytes, b: bytes)
    ensures GoodEvents(a) <= GoodEvents(a + b)
  {
    FrontStable(a, b);
    hide FrontOf;
    if FrontOf(a).Complete? {
      var n := FrontOf(a).size;
      GoodGrows(a[n..], b);
      assert (a + b)[n..] == a[n..] + b;
    }
  }

  /** After a drain nothing complete is left in the buffer. */
  predicate Quiet(buf: bytes) {
    SplitAll(buf).Raised? || SplitAll(buf) == Parsed([], buf)
  }

  /** Where an epoch stands: `part` was queued from it, and its bytes are those events and then the buffer --
      unless the buffer is bad, and then later bytes may be unread. */
  predicate InEpoch(part: seq<Event>, raws: seq<RawEvent>, epoch: bytes, buf: bytes) {
    && AllSendable(raws) && part == FromRaws(raws)
    && EncodeRaws(raws) + buf <= epoch
    && (epoch == EncodeRaws(raws) + buf || SplitAll(buf).Raised?)
  }

  lemma {:induction false} DrainWithin(part: seq<Event>, raws: seq<RawEvent>, epoch: bytes, buf: bytes,
      chunks: seq<Chunk>)
    returns (more: seq<RawEvent>)
    requires InEpoch(part, raws, epoch, buf)
    ensures var d := DrainStream(buf, chunks);
            InEpoch(part + d.events, more, epoch + Concat(chunks), d.buf) && Quiet(d.buf)
    decreases |chunks|
  {
    hide FrontOf, EncodeRaws, FromRaw, SplitAll;
    if SplitAll(buf).Raised? {
      more := raws;
    } else {
      var es, rest := SplitAll(buf).events, SplitAll(buf).rest;
      SplitLosesNothing(buf);
      LeftoverIsPartial(buf);
      EncodeRawsAppend(raws, es);
      SendableAppend(raws, es);
      assert EncodeRaws(raws) + (EncodeRaws(es) + rest) == EncodeRaws(raws) + EncodeRaws(es) + rest;
      FromRawsAppend(raws, es);
      if chunks == [] {
        more := raws + es;
        assert epoch + Concat(chunks) == epoch;
      } else {
        var c := chunks[0];
        assert EncodeRaws(raws + es) + rest + c == EncodeRaws(raws + es) + (rest + c);
        more := DrainWithin(part + FromRaws(es), raws + es, epoch + c, rest + c, chunks[1..]);
        assert epoch + c + Concat(chunks[1..]) == epoch + Concat(chunks);
        var d := DrainStream(rest + c, chunks[1..]);
        assert part + FromRaws(es) + d.events == part + (FromRaws(es) + d.events);
      }
    }
  }

  lemma SendableAppend(a: seq<RawEvent>, b: seq<RawEvent>)
    requires AllSendable(a) && AllSendable(b)
    ensures AllSendable(a + b)
  {
  }

  lemma EpochDone(part: seq<Event>, raws: seq<RawEvent>, epoch: bytes, buf: bytes)
    requires InEpoch(part, raws, epoch, buf) && Quiet(buf)
    ensures Contribution(part, Epoch([], epoch))
  {
    hide FrontOf, EncodeRaws, FromRaw, SplitAll;
    var read := EncodeRaws(raws) + buf;
    GoodOfEncoded(raws, buf);
    GoodGrows(read, epoch[|read|..]);
    assert read + epoch[|read|..] == epoch;
    FromRawsPrefix(raws, GoodEvents(epoch));
    SplitEncoded(raws, buf);
    if SplitAll(epoch).Parsed? {
      if SplitAll(buf).Raised? {
        SplitHomomorphism(read, epoch[|read|..]);
        assert false;
      }
      GoodOfParsed(buf);
      assert raws + [] == raws;
    }
  }

  lemma FromRawsPrefix(a: seq<RawEvent>, b: seq<RawEvent>)
    requires a <= b
    ensures FromRaws(a) <= FromRaws(b)
  {
  }

  // ---- buffers that can make no event ----

  lemma LongEnough(b: bytes)
    requires |b| >= LONGEST
    ensures !FrontOf(b).Partial?
  {
    hide GetU16, GetU32;
  }

  lemma U16Least(k: bytes, c: bytes, z: bytes)
    requires |k + c| >= 2 && |k + z| >= 2 && forall i :: 0 <= i < |z| ==> z[i] == 0
    ensures GetU16(k + z, 0) <= GetU16(k + c, 0)
    ensures |k| >= 2 ==> GetU16(k + z, 0) == GetU16(k + c, 0)
  {
    var x, y := k + z, k + c;
    assert x[0] <= y[0] && x[1] <= y[1];
  }

  lemma U32Least(k: bytes, c: bytes, z: bytes, at: nat)
    requires |k + c| >= at + 4 && |k + z| >= at + 4 && forall i :: 0 <= i < |z| ==> z[i] == 0
    ensures GetU32(k + z, at) <= GetU32(k + c, at)
    ensures |k| <= at ==> GetU32(k + z, at) == 0
  {
    var x, y := k + z, k + c;
    assert x[at] <= y[at] && x[at + 1] <= y[at + 1] && x[at + 2] <= y[at + 2] && x[at + 3] <= y[at + 3];
  }

  /** Zeros are the smallest continuation: where they are refused, every other is. */
  lemma DeadFront(k: bytes, c: bytes)
    requires FrontOf(k + Zeros(LONGEST)).Bad?
    ensures !FrontOf(k + c).Complete?
  {
    hide GetU16, GetU32, Zeros;
    var z := Zeros(LONGEST);
    AllZero(LONGEST);
    if FrontOf(k + c).Complete? {
      U16Least(k, c, z);
      var t := GetU16(k + z, 0);
      if |k| >= 2 {
        U32Least(k, c, z, 2 + t);
      } else {
        U32Least(k, z, z, 2 + t);
      }
    }
  }

  lemma AllZero(n: nat)
    ensures |Zeros(n)| == n && forall i :: 0 <= i < n ==> Zeros(n)[i] == 0
  {
  }

  lemma DeadGrows(k: bytes, c: bytes)
    requires Dead(k) && SplitAll(k) == Parsed([], k)
    ensures Dead(k + c) && Quiet(k + c)
  {
    hide FrontOf, Zeros;
    AllZero(LONGEST);
    var z := Zeros(LONGEST);
    DeadFront(k, c);
    DeadFront(k, c + z);
    assert k + (c + z) == k + c + z;
    LongEnough(k + c + z);
  }

  lemma {:induction false} DeadDrain(buf: bytes, chunks: seq<Chunk>)
    requires Dead(buf) && Quiet(buf)
    ensures var d := DrainStream(buf, chunks); d.events == [] && Dead(d.buf) && Quiet(d.buf)
    decreases |chunks|
  {
    hide SplitAll, FrontOf, Dead, FromRaw;
    if SplitAll(buf).Parsed? && chunks != [] {
      DeadGrows(buf, chunks[0]);
      DeadDrain(buf + chunks[0], chunks[1..]);
    }
  }

  // ---- the queue by epochs ----

  /** Where the current epoch stands: it began clean, or is silent so far, or can make no event. */
  predicate Standing(part: seq<Event>, raws: seq<RawEvent>, e: Epoch, buf: bytes) {
    || (e.start == [] && InEpoch(part, raws, e.bytes, buf))
    || (part == [] && e.bytes == [] && buf == e.start)
    || (part == [] && e.start != [] && Dead(buf))
  }

  lemma StandingDone(part: seq<Event>, raws: seq<RawEvent>, e: Epoch, buf: bytes)
    requires Standing(part, raws, e, buf) && Quiet(buf)
    ensures Contribution(part, e)
  {
    hide FrontOf, InEpoch, Dead, FromRaw;
    if e.start == [] && InEpoch(part, raws, e.bytes, buf) {
      EpochDone(part, raws, e.bytes, buf);
    } else if e.bytes == [] {
      NothingGood();
    }
  }

  lemma NothingGood()
    ensures GoodEvents([]) == [] && FromRaws([]) == []
  {
  }

  /** One drain of the current epoch; `whole` is what the epoch delivers in the end. */
  lemma StandingDrain(part: seq<Event>, raws: seq<RawEvent>, e: Epoch, buf: bytes, chunks: seq<Chunk>, whole: Epoch)
    returns (more: seq<RawEvent>)
    requires Standing(part, raws, e, buf) && Quiet(buf)
    requires Harmless(whole) && whole.start == e.start && e.bytes + Concat(chunks) <= whole.bytes
    ensures var d := DrainStream(buf, chunks);
            Standing(part + d.events, more, e.(bytes := e.bytes + Concat(chunks)), d.buf) && Quiet(d.buf)
  {
    hide FrontOf, InEpoch, Dead, FromRaw, DrainStream, Quiet, EncodeRaws;
    more := raws;
    if e.start == [] && InEpoch(part, raws, e.bytes, buf) {
      more := DrainWithin(part, raws, e.bytes, buf, chunks);
    } else if part == [] && e.start != [] && Dead(buf) {
      DeadDrain(buf, chunks);
      assert part + [] == [];
    } else if chunks == [] {
      MuteDrain(buf);
      assert part + [] == [] && e.bytes + Concat(chunks) == [];
    } else {
      ChunksNotEmpty(chunks);
      assert whole.bytes != [];
      FreshEpoch();
      more := DrainWithin([], [], [], [], chunks);
    }
  }

  lemma ChunksNotEmpty(chunks: seq<Chunk>)
    requires chunks != []
    ensures Concat(chunks) != []
  {
    var c: Chunk := chunks[0];
    assert |Concat(chunks)| >= |c|;
  }

  lemma FreshEpoch()
    ensures InEpoch([], [], [], []) && Quiet([])
  {
  }

  lemma MuteDrain(buf: bytes)
    requires Quiet(buf)
    ensures DrainStream(buf, []) == Drain(buf, [])
  {
  }

  lemma {:induction false} FirstEpochGrows(e: Epoch, buf: bytes, rounds: seq<Round>)
    ensures var whole := EpochsOf(e, buf, rounds)[0]; whole.start == e.start && e.bytes <= whole.bytes
    decreases |rounds|
  {
    hide DrainStream;
    if rounds != [] {
      var d := DrainStream(buf, rounds[0].chunks);
      if rounds[0].attempt == NoStream {
        FirstEpochGrows(e.(bytes := e.bytes + Concat(rounds[0].chunks)), d.buf, rounds[1..]);
      }
    }
  }

  /** The first round: its epoch, and where the run goes on. */
  lemma EpochsStep(e: Epoch, buf: bytes, rounds: seq<Round>)
    requires rounds != []
    ensures var r, d := rounds[0], DrainStream(buf, rounds[0].chunks);
            var now, kept := e.(bytes := e.bytes + Concat(r.chunks)), AfterAttempt(d.buf, r.attempt);
            && EpochsOf(e, buf, rounds) == (
                 if r.attempt == Closed then [now]
                 else if r.attempt == NoStream then EpochsOf(now, kept, rounds[1..])
                 else [now] + EpochsOf(Epoch(kept, []), kept, rounds[1..]))
            && Loop(buf, rounds) == (if r.attempt == Closed then d.events else d.events + Loop(kept, rounds[1..]))
            && now.start == EpochsOf(e, buf, rounds)[0].start && now.bytes <= EpochsOf(e, buf, rounds)[0].bytes
  {
    hide DrainStream;
    var r, d := rounds[0], DrainStream(buf, rounds[0].chunks);
    if r.attempt == NoStream {
      FirstEpochGrows(e.(bytes := e.bytes + Concat(r.chunks)), d.buf, rounds[1..]);
    }
  }

  lemma ByEpochOne(part: seq<Event>, e: Epoch)
    requires Contribution(part, e)
    ensures ByEpoch([part], part, [e])
  {
    hide Contribution;
    ConcatOne(part);
  }

  lemma ByEpochMore(part: seq<Event>, e: Epoch, parts: seq<seq<Event>>, queue: seq<Event>, es: seq<Epoch>)
    requires Contribution(part, e) && ByEpoch(parts, queue, es)
    ensures ByEpoch([part] + parts, part + queue, [e] + es)
  {
    hide Contribution;
    var all, epochs := [part] + parts, [e] + es;
    assert all[0] == part && all[1..] == parts;
    forall i | 0 <= i < |all| ensures Contribution(all[i], epochs[i]) {
      if i > 0 {
        assert all[i] == parts[i - 1] && epochs[i] == es[i - 1];
      }
    }
  }

  lemma AllHarmlessTail(e: Epoch, es: seq<Epoch>)
    requires AllHarmless([e] + es)
    ensures AllHarmless(es)
  {
    hide Harmless;
    forall i | 0 <= i < |es| ensures Harmless(es[i]) {
      assert ([e] + es)[i + 1] == es[i];
    }
  }

  /** From the middle of any epoch, over every run of drops and failed reconnects in which no epoch builds on another's
      bytes: the queue is one part for each epoch, decoded wholly from that epoch. */
  lemma {:induction false} QueueByEpoch(part: seq<Event>, raws: seq<RawEvent>, e: Epoch, buf: bytes, rounds: seq<Round>)
    returns (parts: seq<seq<Event>>)
    requires Quiet(buf) && Standing(part, raws, e, buf) && AllHarmless(EpochsOf(e, buf, rounds))
    ensures ByEpoch(parts, part + Loop(buf, rounds), EpochsOf(e, buf, rounds))
    decreases |rounds|
  {
    hide *;
    if rounds == [] {
      StandingDone(part, raws, e, buf);
      ByEpochOne(part, e);
      NoRounds(part, e, buf);
      parts := [part];
    } else {
      EpochsStep(e, buf, rounds);
      var r, d := rounds[0], DrainStream(buf, rounds[0].chunks);
      var all := EpochsOf(e, buf, rounds);
      FirstHarmless(all);
      var more := StandingDrain(part, raws, e, buf, r.chunks, all[0]);
      var now, kept := e.(bytes := e.bytes + Concat(r.chunks)), AfterAttempt(d.buf, r.attempt);
      var sofar, later := part + d.events, Loop(kept, rounds[1..]);
      KeptBuffer(d.buf, r.attempt);
      Associate(part, d.events, later);
      if r.attempt == NoStream {
        parts := QueueByEpoch(sofar, more, now, kept, rounds[1..]);
      } else {
        StandingDone(sofar, more, now, d.buf);
        if r.attempt == Closed {
          ByEpochOne(sofar, now);
          parts := [sofar];
        } else {
          var rest := EpochsOf(Epoch(kept, []), kept, rounds[1..]);
          AllHarmlessTail(now, rest);
          StandsFresh(kept);
          var tail := QueueByEpoch([], [], Epoch(kept, []), kept, rounds[1..]);
          assert [] + later == later;
          ByEpochMore(sofar, now, tail, later, rest);
          parts := [sofar] + tail;
        }
      }
    }
  }

  lemma NoRounds(part: seq<Event>, e: Epoch, buf: bytes)
    ensures EpochsOf(e, buf, []) == [e] && part + Loop(buf, []) == part
  {
  }

  lemma FirstHarmless(es: seq<Epoch>)
    requires es != [] && AllHarmless(es)
    ensures Harmless(es[0])
  {
  }

  lemma KeptBuffer(buf: bytes, a: Attempt)
    requires Quiet(buf)
    ensures Quiet(AfterAttempt(buf, a)) && (a == NoStream ==> AfterAttempt(buf, a) == buf)
  {
    FreshEpoch();
    hide Quiet;
  }

  lemma StandsFresh(kept: bytes)
    ensures Standing([], [], Epoch(kept, []), kept)
  {
    hide InEpoch, Dead;
  }

  /** The run of a channel from its first subscription. */
  lemma QueueIsEpochs(rounds: seq<Round>) returns (parts: seq<seq<Event>>)
    requires AllHarmless(EpochsOf(FIRST, [], rounds))
    ensures ByEpoch(parts, Loop([], rounds), EpochsOf(FIRST, [], rounds))
  {
    hide EpochsOf, Loop, ByEpoch, AllHarmless;
    FreshEpoch();
    parts := QueueByEpoch([], [], FIRST, [], rounds);
    assert [] + Loop([], rounds) == Loop([], rounds);
  }

  // ---- exactly which inherited buffers are harmless ----

  /** The start of an event, cut anywhere, yields nothing and stays whole. */
  lemma CutEvent(e: RawEvent, a: bytes, b: bytes)
    requires Sendable(e) && EncodeRaw(e) == a + b && b != []
    ensures SplitAll(a) == Parsed([], a)
  {
    hide FrontOf, EncodeRaw, SplitAll, EncodeRaws;
    OneEvent(e);
    SplitHomomorphism(a, b);
    var es, r := SplitAll(a).events, SplitAll(a).rest;
    SplitLosesNothing(a);
    FirstOfParsed(e, es, SplitAll(r + b));
    LongerThanFirst(es);
    NoRaws();
    assert es == [];
    assert [] + r == r;
  }

  lemma OneEvent(e: RawEvent)
    requires Sendable(e)
    ensures SplitAll(EncodeRaw(e)) == Parsed([e], [])
  {
    hide FrontOf, EncodeRaw, SplitAll;
    var es := [e];
    assert es[1..] == [] && es + [] == es;
    NoRaws();
    assert EncodeRaws(es) + [] == EncodeRaw(e);
    SplitEncoded(es, []);
  }

  lemma NoRaws()
    ensures EncodeRaws([]) == [] && SplitAll([]) == Parsed([], [])
  {
  }

  lemma FirstOfParsed(e: RawEvent, es: seq<RawEvent>, rest: Split)
    requires rest.Prepend(es) == Parsed([e], [])
    ensures es != [] ==> es[0] == e
  {
    assert es != [] ==> (es + rest.events)[0] == es[0];
  }

  lemma LongerThanFirst(es: seq<RawEvent>)
    requires AllPackable(es)
    ensures es != [] ==> |EncodeRaws(es)| >= |EncodeRaw(es[0])|
  {
    hide EncodeRaw;
  }

  lemma DrainOne(buf: bytes, c: Chunk)
    requires SplitAll(buf) == Parsed([], buf) && SplitAll(buf + c).Parsed?
    ensures DrainStream(buf, [c]) == Drain(SplitAll(buf + c).rest, FromRaws(SplitAll(buf + c).events))
  {
    hide SplitAll;
    FromRawsNone();
    assert [c][1..] == [];
    assert DrainStream(buf + c, []) == Drain(SplitAll(buf + c).rest, FromRaws(SplitAll(buf + c).events));
  }

  lemma FromRawsNone()
    ensures FromRaws([]) == []
  {
  }

  lemma FromRawsOne(e: RawEvent)
    ensures FromRaws([e]) == [FromRaw(e)]
  {
    hide FromRaw;
  }

  /** If the new stream delivers bytes although its subscribe write failed, an event of which neither epoch has more
      than a part is queued. */
  lemma SplicedAcrossEpochs(e: RawEvent, a: Chunk, b: Chunk)
    requires Sendable(e) && EncodeRaw(e) == a + b
    ensures var rounds := [Round([a], NoSubscribe), Round([b], Resubscribed)];
            && Loop([], rounds) == [FromRaw(e)]
            && EpochsOf(FIRST, [], rounds) == [Epoch([], a), Epoch(a, b), FIRST]
            && GoodEvents(a) == [] && !Harmless(Epoch(a, b))
  {
    hide FrontOf, EncodeRaw, SplitAll, FromRaw, Loop, EpochsOf, DrainStream, GoodEvents;
    var y, z := Round([a], NoSubscribe), Round([b], Resubscribed);
    NoRaws();
    CutEvent(e, a, b);
    GoodOfParsed(a);
    NothingGood();
    assert [] + a == a;
    DrainOne([], a);
    EpochsStep(FIRST, [], [y, z]);
    assert [y, z][1..] == [z];
    ConcatOne(a);
    assert [] + Concat([a]) == a;
    Spliced(a, e, b);
    assert [Epoch([], a)] + [Epoch(a, b), FIRST] == [Epoch([], a), Epoch(a, b), FIRST];
    assert [] + [FromRaw(e)] == [FromRaw(e)];
    NotDead(a, e, b);
  }

  /** From an inherited front of an event: its completion is queued as that event. */
  lemma Spliced(k: bytes, e: RawEvent, b: Chunk)
    requires Sendable(e) && EncodeRaw(e) == k + b
    ensures var rounds := [Round([b], Resubscribed)];
            Loop(k, rounds) == [FromRaw(e)] && EpochsOf(Epoch(k, []), k, rounds) == [Epoch(k, b), FIRST]
  {
    hide FrontOf, EncodeRaw, SplitAll, FromRaw, Loop, EpochsOf, DrainStream;
    var z := Round([b], Resubscribed);
    CutEvent(e, k, b);
    OneEvent(e);
    DrainOne(k, b);
    FromRawsOne(e);
    EpochsStep(Epoch(k, []), k, [z]);
    assert [z][1..] == [];
    NoRounds([], FIRST, []);
    ConcatOne(b);
    assert [] + Concat([b]) == b;
    assert [FromRaw(e)] + [] == [FromRaw(e)];
    assert [Epoch(k, b)] + [FIRST] == [Epoch(k, b), FIRST];
    LoopOver([], []);
  }

  lemma NotDead(k: bytes, e: RawEvent, b: bytes)
    requires Sendable(e) && EncodeRaw(e) == k + b && b != []
    ensures !Dead(k)
  {
    hide FrontOf, EncodeRaw, SplitAll;
    CutEvent(e, k, b);
    assert EncodeRaw(e) + [] == EncodeRaw(e);
    FrontOfEncoded(e, []);
    if FrontOf(k + Zeros(LONGEST)).Bad? {
      DeadFront(k, b);
    }
  }

  lemma FrontWithin(x: bytes, y: bytes)
    requires FrontOf(x + y).Complete? && FrontOf(x + y).size <= |x|
    ensures FrontOf(x).Complete?
  {
    assert GetU16(x + y, 0) == GetU16(x, 0);
    var t := GetU16(x, 0);
    assert GetU32(x + y, 2 + t) == GetU32(x, 2 + t);
  }

  /** A buffer between reads that is not dead is the front of an event, completed by zeros. */
  lemma Completion(k: bytes) returns (e: RawEvent, n: nat)
    requires Quiet(k) && !Dead(k)
    ensures n > 0 && Sendable(e) && EncodeRaw(e) == k + Zeros(n)
  {
    hide EncodeRaw, GetU16, GetU32, Zeros;
    var z := Zeros(LONGEST);
    AllZero(LONGEST);
    LongEnough(k + z);
    QuietIsPartial(k);
    hide FrontOf;
    var f := FrontOf(k + z);
    FrontIsEncoded(k + z);
    e := f.event;
    if f.size <= |k| {
      FrontWithin(k, z);
    }
    n := f.size - |k|;
    ZerosPrefix(k, n);
  }

  lemma QuietIsPartial(k: bytes)
    requires Quiet(k) && !SplitAll(k).Raised?
    ensures FrontOf(k).Partial?
  {
    hide FrontOf;
  }

  lemma ZerosPrefix(k: bytes, n: nat)
    requires n <= LONGEST
    ensures (k + Zeros(LONGEST))[..|k| + n] == k + Zeros(n)
  {
  }

  /** Zeros alone carry empty events only, and are too short for one as short as the event they completed. */
  lemma ZerosDiffer(k: bytes, e: RawEvent, n: nat)
    requires k != [] && n > 0 && Sendable(e) && EncodeRaw(e) == k + Zeros(n)
    ensures !([FromRaw(e)] <= FromRaws(GoodEvents(Zeros(n))))
  {
    hide U32, U16, GetU32, GetU16;
    ZeroFront(n);
    hide FrontOf;
    if n >= 6 {
      EncodedSize(e);
      assert |e.topic| + |e.payload| > 0;
      DecodedNotEmpty(e.topic);
      var g := GoodEvents(Zeros(n));
      assert g[0] == RawEvent([], []);
      assert FromRaws(g)[0] == Event([], []);
    }
  }

  lemma EncodedSize(e: RawEvent)
    requires Sendable(e)
    ensures |EncodeRaw(e)| == 6 + |e.topic| + |e.payload|
  {
  }

  lemma DecodedNotEmpty(b: bytes)
    ensures Utf8.Decode(b) == [] <==> b == []
  {
  }

  lemma ZeroFront(n: nat)
    ensures n < 6 ==> !FrontOf(Zeros(n)).Complete?
    ensures n >= 6 ==> FrontOf(Zeros(n)) == Complete(RawEvent([], []), 6)
  {
    if n >= 6 {
      var z := Zeros(n);
      assert GetU16(z, 0) == 0 && GetU32(z, 2) == 0;
      assert z[2..2] == [] && z[6..6] == [];
    }
  }

  /** Every continuation in which only this epoch could build on foreign bytes. */
  ghost predicate KeepsApart(k: bytes) {
    forall rounds: seq<Round> :: AllHarmless(EpochsOf(Epoch(k, []), k, rounds)[1..]) ==>
      exists parts :: ByEpoch(parts, Loop(k, rounds), EpochsOf(Epoch(k, []), k, rounds))
  }

  /** A stream in place whose subscribe write failed inherits the buffer `k`: whatever it delivers, and however the run
      goes on, its events stay within its epoch if and only if `k` is empty or can make no event. */
  lemma KeepsApartIff(k: bytes)
    requires Quiet(k)
    ensures KeepsApart(k) <==> k == [] || Dead(k)
  {
    hide Quiet, Dead, EpochsOf, Loop, ByEpoch, Harmless, EncodeRaw, Zeros;
    if k == [] || Dead(k) {
      forall rounds: seq<Round> | AllHarmless(EpochsOf(Epoch(k, []), k, rounds)[1..])
        ensures exists parts :: ByEpoch(parts, Loop(k, rounds), EpochsOf(Epoch(k, []), k, rounds))
      {
        StartsHarmless(k, rounds);
        StandsFresh(k);
        var parts := QueueByEpoch([], [], Epoch(k, []), k, rounds);
        assert [] + Loop(k, rounds) == Loop(k, rounds);
      }
    } else {
      var e, n := Completion(k);
      AllZero(n);
      var b: Chunk := Zeros(n);
      var rounds := [Round([b], Resubscribed)];
      Spliced(k, e, b);
      ZerosDiffer(k, e, n);
      NoParts(k, e, n);
      SecondHarmless(Epoch(k, b));
    }
  }

  lemma StartsHarmless(k: bytes, rounds: seq<Round>)
    requires (k == [] || Dead(k)) && AllHarmless(EpochsOf(Epoch(k, []), k, rounds)[1..])
    ensures AllHarmless(EpochsOf(Epoch(k, []), k, rounds))
  {
    hide EpochsOf, Dead;
    FirstEpochGrows(Epoch(k, []), k, rounds);
    var es := EpochsOf(Epoch(k, []), k, rounds);
    forall i | 0 <= i < |es| ensures Harmless(es[i]) {
      if i > 0 {
        assert es[i] == es[1..][i - 1];
      }
    }
  }

  lemma SecondHarmless(e: Epoch)
    ensures AllHarmless([e, FIRST][1..])
  {
    assert [e, FIRST][1..] == [FIRST];
  }

  lemma NoParts(k: bytes, e: RawEvent, n: nat)
    requires !([FromRaw(e)] <= FromRaws(GoodEvents(Zeros(n))))
    ensures !exists parts :: ByEpoch(parts, [FromRaw(e)], [Epoch(k, Zeros(n)), FIRST])
  {
    hide FromRaw, FrontOf, Zeros, SplitAll;
    forall parts | ByEpoch(parts, [FromRaw(e)], [Epoch(k, Zeros(n)), FIRST]) ensures false {
      NothingGood();
      var es := [Epoch(k, Zeros(n)), FIRST];
      assert Contribution(parts[0], es[0]) && Contribution(parts[1], es[1]);
      assert parts == [parts[0], parts[1]];
      ConcatTwo(parts[0], parts[1]);
    }
  }

  /** Dead is more than raising: a first length byte of 5 is no error yet, but every length it can become is. */
  lemma DeadBeforeItRaises()
    ensures Quiet([5]) && SplitAll([5]).Parsed? && Dead([5])
  {
    var b := [5] + Zeros(LONGEST);
    assert b[0] == 5 && GetU16(b, 0) >= 1280;
  }

  // ---- when every reconnect subscribes ----

  predicate AllFresh(es: seq<Epoch>) {
    forall i :: 0 <= i < |es| ==> es[i].start == []
  }

  /** A successful reconnect starts with an empty buffer; so unless a subscribe write fails, every epoch does. */
  lemma {:induction false} EpochsAreFresh(e: Epoch, buf: bytes, rounds: seq<Round>)
    requires e.start == [] && forall i :: 0 <= i < |rounds| ==> rounds[i].attempt != NoSubscribe
    ensures AllFresh(EpochsOf(e, buf, rounds))
    decreases |rounds|
  {
    hide DrainStream;
    if rounds != [] {
      var d, rest := DrainStream(buf, rounds[0].chunks), rounds[1..];
      assert forall i :: 0 <= i < |rest| ==> rest[i] == rounds[i + 1];
      EpochsStep(e, buf, rounds);
      if rounds[0].attempt == NoStream {
        EpochsAreFresh(e.(bytes := e.bytes + Concat(rounds[0].chunks)), d.buf, rest);
      } else if rounds[0].attempt == Resubscribed {
        EpochsAreFresh(FIRST, [], rest);
      }
    }
  }

  /** Then the queue is, epoch by epoch and in order, all the events of each epoch whose bytes do not go bad, and a
      prefix of them where they do. */
  lemma QueueWithoutFailedSubscribes(rounds: seq<Round>) returns (parts: seq<seq<Event>>)
    requires forall i :: 0 <= i < |rounds| ==> rounds[i].attempt != NoSubscribe
    ensures var es := EpochsOf(FIRST, [], rounds);
            && |parts| == |es| && Loop([], rounds) == Concat(parts)
            && forall i :: 0 <= i < |parts| ==>
                 && parts[i] <= FromRaws(GoodEvents(es[i].bytes))
                 && (SplitAll(es[i].bytes).Parsed? ==> parts[i] == FromRaws(GoodEvents(es[i].bytes)))
  {
    hide EpochsOf, Loop, SplitAll, GoodEvents, FromRaw, Dead;
    EpochsAreFresh(FIRST, [], rounds);
    parts := QueueIsEpochs(rounds);
    var es := EpochsOf(FIRST, [], rounds);
    forall i | 0 <= i < |parts|
      ensures parts[i] <= FromRaws(GoodEvents(es[i].bytes))
      ensures SplitAll(es[i].bytes).Parsed? ==> parts[i] == FromRaws(GoodEvents(es[i].bytes))
    {
      assert Contribution(parts[i], es[i]) && es[i].start == [];
    }
  }
}
