/** `PilotChannel.recv` without auto-reconnect: pull one event at a time out of a byte stream that arrives in
    chunks of any size, pushing surplus events back by encoding them again. */
module Channel {
  import opened Wire
  import opened EventCodec
  import Utf8

  /** One wait on the stream: a chunk (empty at end of stream), or a deadline that passed first. */
  datatype Read = Data(chunk: bytes) | Expired

  /** How a call of `recv` ends. `Waiting` is a call still blocked when the run stops. */
  datatype Outcome = Got(event: Event) | EndOfStream | TimedOut | Broken(fault: Fault) | Waiting

  datatype Call = Call(outcome: Outcome, buf: bytes, used: nat)

  /** Re-encoding after decoding: what the push-back does to a topic. */
  function Echo(r: RawEvent): RawEvent {
    ToRaw(FromRaw(r))
  }

  /** The event survives the push-back: its topic, decoded and encoded again, is still short enough. */
  predicate Echoable(r: RawEvent) {
    |Echo(r).topic| <= MAX_TOPIC
  }

  function Echoes(rs: seq<RawEvent>): (es: seq<RawEvent>)
    ensures |es| == |rs|
    ensures forall i :: 0 <= i < |rs| ==> es[i] == Echo(rs[i])
  {
    seq(|rs|, i requires 0 <= i < |rs| => Echo(rs[i]))
  }

  lemma EchoesPackable(rs: seq<RawEvent>)
    requires AllSendable(rs)
    ensures AllPackable(Echoes(rs))
    ensures forall i :: 0 <= i < |rs| ==> Packable(ToRaw(FromRaws(rs)[i]))
    ensures EncodeEvents(FromRaws(rs)) == EncodeRaws(Echoes(rs))
  {
    forall i | 0 <= i < |rs| ensures Packable(Echo(rs[i])) {
      assert Sendable(rs[i]);
      Utf8.ReencodedLength(rs[i].topic);
    }
    if rs != [] {
      EchoesPackable(rs[1..]);
      assert FromRaws(rs)[1..] == FromRaws(rs[1..]);
      assert Echoes(rs)[1..] == Echoes(rs[1..]);
    }
  }

  /** What a call does to the buffer, given what the stream will answer. */
  function RecvCall(buf: bytes, feed: seq<Read>): (c: Call)
    ensures c.used <= |feed|
    decreases |feed|
  {
    match SplitAll(buf)
    case Raised(f) => Call(Broken(f), buf, 0)
    case Parsed(es, rest) =>
      if es != [] then
        SplitLosesNothing(buf);
        EchoesPackable(es[1..]);
        Call(Got(FromRaw(es[0])), EncodeRaws(Echoes(es[1..])) + rest, 0)
      else if feed == [] then Call(Waiting, rest, 0)
      else if feed[0].Expired? then Call(TimedOut, rest, 1)
      else if feed[0].chunk == [] then Call(EndOfStream, rest, 1)
      else
        var c := RecvCall(rest + feed[0].chunk, feed[1..]);
        c.(used := c.used + 1)
  }

  class PilotChannel {
    var buf: bytes

    constructor ()
      ensures buf == []
    {
      buf := [];
    }

    /** `recv`: the loop of split, push back, read. */
    method Recv(feed: seq<Read>) returns (outcome: Outcome, used: nat)
      modifies this
      ensures Call(outcome, buf, used) == RecvCall(old(buf), feed)
    {
      used := 0;
      while true
        invariant used <= |feed|
        invariant var c := RecvCall(buf, feed[used..]);
                  RecvCall(old(buf), feed) == c.(used := c.used + used)
        decreases |feed| - used
      {
        hide SplitAll, EncodeRaw, FromRaw;
        var split := SplitEvents(buf);
        if split.ValueError? {
          return Broken(split.fault), used;
        }
        SplitLosesNothing(buf);
        ghost var raws := SplitAll(buf).events;
        var events := split.events;
        buf := split.leftover;
        if events != [] {
          EchoesPackable(raws[1..]);
          assert events[1..] == FromRaws(raws[1..]);
          if |events| > 1 {
            buf := EncodeEvents(events[1..]) + buf;
          } else {
            assert EncodeRaws(Echoes(raws[1..])) + buf == buf;
          }
          return Got(events[0]), used;
        }
        if used == |feed| {
          return Waiting, used;
        }
        var read := feed[used];
        ghost var before := feed[used..];
        used := used + 1;
        assert before[0] == read && before[1..] == feed[used..];
        if read.Expired? {
          return TimedOut, used;
        }
        if read.chunk == [] {
          return EndOfStream, used;
        }
        buf := buf + read.chunk;
      }
    }
  }

  // ---- one call ----

  /** The bytes a run of reads delivers. */
  function Received(feed: seq<Read>): bytes {
    if feed == [] then []
    else (if feed[0].Data? then feed[0].chunk else []) + Received(feed[1..])
  }

  /** The bytes of a sequence of events arrive as a prefix: what is complete in it are the first of them. */
  lemma SplitOfPrefix(buf: bytes, more: bytes, rs: seq<RawEvent>) returns (k: nat)
    requires AllSendable(rs) && buf + more == EncodeRaws(rs)
    ensures k <= |rs| && SplitAll(buf).Parsed? && SplitAll(buf).events == rs[..k]
    ensures SplitAll(buf).rest + more == EncodeRaws(rs[k..])
  {
    SplitEncoded(rs, []);
    assert EncodeRaws(rs) + [] == EncodeRaws(rs);
    assert SplitAll([]) == Parsed([], []);
    assert rs + [] == rs;
    SplitHomomorphism(buf, more);
    var s := SplitAll(buf);
    assert s.Parsed?;
    k := |s.events|;
    var t := SplitAll(s.rest + more);
    assert rs == s.events + t.events;
    assert rs[..k] == s.events && rs[k..] == t.events;
    SplitLosesNothing(s.rest + more);
    assert EncodeRaws(t.events) + t.rest == EncodeRaws(t.events);
  }

  predicate AllEchoable(rs: seq<RawEvent>) {
    forall i :: 0 <= i < |rs| ==> Echoable(rs[i])
  }

  lemma EchoLaws(r: RawEvent)
    requires Sendable(r)
    ensures FromRaw(Echo(r)) == FromRaw(r) && Echo(Echo(r)) == Echo(r)
    ensures Echoable(r) ==> Sendable(Echo(r)) && Echoable(Echo(r))
    ensures Utf8.WellFormed(r.topic) <==> Echo(r) == r
  {
    Utf8.DecodeEncode(Utf8.Decode(r.topic));
    Utf8.ReencodingIsIdentityIff(r.topic);
  }

  /** `rs` are events the push-back carries: all but the first may be pushed back. */
  predicate Carried(rs: seq<RawEvent>)
    ensures Carried(rs) ==> AllSendable(rs) && AllPackable(rs)
  {
    AllSendable(rs) && (rs == [] || AllEchoable(rs[1..]))
  }

  predicate AllWellFormed(rs: seq<RawEvent>) {
    forall i :: 0 <= i < |rs| ==> Utf8.WellFormed(rs[i].topic)
  }

  lemma EchoesOfWellFormed(rs: seq<RawEvent>)
    requires AllSendable(rs) && AllWellFormed(rs)
    ensures Echoes(rs) == rs && AllEchoable(rs)
  {
    forall i | 0 <= i < |rs| ensures Echo(rs[i]) == rs[i] && Echoable(rs[i]) {
      assert Sendable(rs[i]);
      EchoLaws(rs[i]);
    }
  }

  lemma EchoesOfEchoable(rs: seq<RawEvent>)
    requires AllSendable(rs) && AllEchoable(rs)
    ensures AllSendable(Echoes(rs)) && AllEchoable(Echoes(rs)) && FromRaws(Echoes(rs)) == FromRaws(rs)
  {
    forall i | 0 <= i < |rs|
      ensures var e := Echoes(rs)[i]; Sendable(e) && Echoable(e) && FromRaw(e) == FromRaw(rs[i])
    {
      assert Sendable(rs[i]) && Echoable(rs[i]);
      EchoLaws(rs[i]);
    }
  }

  lemma CarriedSlices(rs: seq<RawEvent>, k: nat)
    requires Carried(rs) && 0 < k <= |rs|
    ensures rs[1..] == rs[1..k] + rs[k..]
    ensures AllSendable(rs[1..k]) && AllSendable(rs[k..]) && AllEchoable(rs[1..k]) && AllEchoable(rs[k..])
  {
    hide Echoable, Sendable;
    var tail := rs[1..];
    assert rs[1..k] == tail[..k - 1] && rs[k..] == tail[k - 1..];
  }

  lemma WellFormedSlice(rs: seq<RawEvent>, i: nat, j: nat)
    requires AllWellFormed(rs) && i <= j <= |rs|
    ensures AllWellFormed(rs[i..j]) && AllWellFormed(rs[i..])
  {
    hide Utf8.WellFormed;
    assert forall k :: 0 <= k < j - i ==> rs[i..j][k] == rs[i + k];
    assert forall k :: 0 <= k < |rs| - i ==> rs[i..][k] == rs[i + k];
  }

  lemma EchoableIsCarried(a: seq<RawEvent>, b: seq<RawEvent>)
    requires AllSendable(a) && AllSendable(b) && AllEchoable(a) && AllEchoable(b)
    ensures Carried(a + b)
  {
    hide Echoable, Sendable;
    assert AllSendable(a + b) && AllEchoable(a + b);
  }

  /** Pushing back all complete events but the first leaves a stream of the same events. */
  lemma PushBackCarries(rs: seq<RawEvent>, k: nat, rest: bytes, tail: bytes) returns (after: seq<RawEvent>)
    requires Carried(rs) && 0 < k <= |rs| && rest + tail == EncodeRaws(rs[k..])
    ensures Carried(after) && FromRaws(after) == FromRaws(rs[1..])
    ensures AllWellFormed(rs) ==> after == rs[1..]
    ensures AllPackable(Echoes(rs[1..k])) && EncodeRaws(Echoes(rs[1..k])) + rest + tail == EncodeRaws(after)
  {
    hide *;
    var a, b := rs[1..k], rs[k..];
    CarriedSlices(rs, k);
    EchoesOfEchoable(a);
    after := Echoes(a) + b;
    if AllWellFormed(rs) {
      WellFormedSlice(rs, 1, k);
      EchoesOfWellFormed(a);
    }
    EchoableIsCarried(Echoes(a), b);
    FromRawsAppend(a, b);
    FromRawsAppend(Echoes(a), b);
    EncodeRawsAppend(Echoes(a), b);
    assert EncodeRaws(Echoes(a)) + rest + tail == EncodeRaws(Echoes(a)) + (rest + tail);
  }

  lemma NothingComplete(buf: bytes, rs: seq<RawEvent>)
    requires AllSendable(rs) && buf + ([] + []) == EncodeRaws(rs) && SplitAll(buf).Parsed? && SplitAll(buf).events == []
    ensures rs == []
  {
    hide FrontOf, EncodeRaws;
    SplitEncoded(rs, []);
    assert buf + ([] + []) == EncodeRaws(rs) + [] == buf;
  }

  /** One call over a stream of events: it returns the first of them or none, never breaks, and leaves a buffer
      that continues the stream of the same events. */
  lemma {:induction false} CallInStream(buf: bytes, feed: seq<Read>, more: bytes, rs: seq<RawEvent>)
    returns (after: seq<RawEvent>)
    requires Carried(rs) && buf + (Received(feed) + more) == EncodeRaws(rs)
    ensures var c := RecvCall(buf, feed);
            && !c.outcome.Broken?
            && (c.outcome.Got? ==> rs != [] && c.outcome.event == FromRaw(rs[0]))
            && (c.outcome.Got? ==> FromRaws(after) == FromRaws(rs[1..]))
            && (c.outcome.Got? && AllWellFormed(rs) ==> after == rs[1..])
            && (c.outcome == Waiting ==> c.used == |feed| && (more == [] ==> after == []))
            && (c.outcome == Waiting || c.outcome.Got? || c.used > 0)
            && (!c.outcome.Got? ==> after == rs)
            && Carried(after) && c.buf + (Received(feed[c.used..]) + more) == EncodeRaws(after)
    decreases |feed|
  {
    hide EncodeRaws, SplitAll, FromRaw, Echo, AllSendable, AllEchoable;
    var k := SplitOfPrefix(buf, Received(feed) + more, rs);
    var rest := SplitAll(buf).rest;
    if k > 0 {
      assert rs[..k][1..] == rs[1..k];
      after := PushBackCarries(rs, k, rest, Received(feed) + more);
      assert feed[0..] == feed;
    } else {
      assert rs[0..] == rs;
      after := rs;
      if feed == [] {
        if more == [] && rs != [] {
          NothingComplete(buf, rs);
        }
      } else if feed[0].Expired? || feed[0].chunk == [] {
        assert Received(feed) == Received(feed[1..]);
      } else {
        var chunk := feed[0].chunk;
        assert rest + chunk + (Received(feed[1..]) + more) == rest + (chunk + Received(feed[1..]) + more);
        after := CallInStream(rest + chunk, feed[1..], more, rs);
        assert feed[1..][RecvCall(rest + chunk, feed[1..]).used..] ==
            feed[RecvCall(rest + chunk, feed[1..]).used + 1..];
      }
    }
  }

  // ---- whole sessions ----

  datatype Run = Run(outcomes: seq<Outcome>, buf: bytes, unread: seq<Read>)

  /** `calls` successive calls over one stream. */
  function Session(buf: bytes, feed: seq<Read>, calls: nat): Run
    decreases calls
  {
    if calls == 0 then Run([], buf, feed)
    else
      var c := RecvCall(buf, feed);
      var r := Session(c.buf, feed[c.used..], calls - 1);
      Run([c.outcome] + r.outcomes, r.buf, r.unread)
  }

  function Returned(outcomes: seq<Outcome>): seq<Event> {
    if outcomes == [] then []
    else (if outcomes[0].Got? then [outcomes[0].event] else []) + Returned(outcomes[1..])
  }

  predicate NoneBroken(outcomes: seq<Outcome>) {
    forall i :: 0 <= i < |outcomes| ==> !outcomes[i].Broken?
  }

  /** The calls returned the first of the events, in order, each once, and none broke. */
  predicate Exact(rs: seq<RawEvent>, outcomes: seq<Outcome>) {
    Returned(outcomes) <= FromRaws(rs) && NoneBroken(outcomes)
  }

  /** The calls returned the events of `rs` up to those of `after`. */
  predicate Delivers(rs: seq<RawEvent>, outcomes: seq<Outcome>, after: seq<RawEvent>) {
    && NoneBroken(outcomes) && FromRaws(rs) == Returned(outcomes) + FromRaws(after)
    && |after| <= |rs|
    && (AllWellFormed(rs) ==> after == rs[|rs| - |after|..])
  }

  lemma DeliversCons(o: Outcome, outcomes: seq<Outcome>, rs: seq<RawEvent>, mid: seq<RawEvent>, after: seq<RawEvent>)
    requires !o.Broken? && Delivers(mid, outcomes, after)
    requires o.Got? ==>
               rs != [] && o.event == FromRaw(rs[0]) && FromRaws(mid) == FromRaws(rs[1..]) &&
                   (AllWellFormed(rs) ==> mid == rs[1..])
    requires !o.Got? ==> mid == rs
    ensures Delivers(rs, [o] + outcomes, after)
  {
    hide Utf8.WellFormed, FromRaw;
    var all := [o] + outcomes;
    assert all[1..] == outcomes;
    if o.Got? {
      assert rs == [rs[0]] + rs[1..];
      FromRawsAppend([rs[0]], rs[1..]);
      assert FromRaws([rs[0]]) == [FromRaw(rs[0])];
      assert |mid| == |FromRaws(mid)| == |rs| - 1;
      assert [o.event] + Returned(outcomes) + FromRaws(after) == [o.event] + (Returned(outcomes) + FromRaws(after));
      if AllWellFormed(rs) {
        WellFormedSlice(rs, 1, |rs|);
        assert rs[1..][|rs| - 1 - |after|..] == rs[|rs| - |after|..];
      }
    }
  }

  lemma {:induction false} SessionInStream(buf: bytes, feed: seq<Read>, more: bytes, rs: seq<RawEvent>, calls: nat)
    returns (after: seq<RawEvent>)
    requires Carried(rs) && buf + (Received(feed) + more) == EncodeRaws(rs)
    ensures var s := Session(buf, feed, calls);
            && Delivers(rs, s.outcomes, after) && Carried(after)
            && s.buf + (Received(s.unread) + more) == EncodeRaws(after)
    ensures more == [] && calls >= |rs| + |feed| ==> after == []
    decreases calls
  {
    hide Carried, EncodeRaws, FromRaw, Received, AllWellFormed, RecvCall, Delivers;
    if calls == 0 {
      after := rs;
      DeliversNothing(rs);
    } else {
      var c := RecvCall(buf, feed);
      var mid := CallInStream(buf, feed, more, rs);
      after := SessionInStream(c.buf, feed[c.used..], more, mid, calls - 1);
      DeliversCons(c.outcome, Session(c.buf, feed[c.used..], calls - 1).outcomes, rs, mid, after);
      DeliversShrinks(mid, Session(c.buf, feed[c.used..], calls - 1).outcomes, after);
      if c.outcome.Got? {
        assert |mid| == |FromRaws(mid)| == |rs| - 1;
      }
    }
  }

  lemma DeliversNothing(rs: seq<RawEvent>)
    ensures Delivers(rs, [], rs)
  {
  }

  lemma DeliversShrinks(rs: seq<RawEvent>, outcomes: seq<Outcome>, after: seq<RawEvent>)
    requires Delivers(rs, outcomes, after)
    ensures |after| <= |rs| && Exact(rs, outcomes)
  {
  }

  /** For every stream of sendable events, however it is cut into chunks and however many calls time out:
      successive calls return exactly its events, in order, with no loss and no duplication, and none breaks --
      for all chunkings if and only if every event but the first keeps a topic of at most 1024 bytes when
      decoded and encoded again. */
  lemma RecvIsExactIff(rs: seq<RawEvent>)
    requires AllSendable(rs)
    ensures (forall feed: seq<Read>, calls: nat :: Received(feed) <= EncodeRaws(rs) ==>
               Exact(rs, Session([], feed, calls).outcomes))
            <==> Carried(rs)
  {
    if Carried(rs) {
      forall feed: seq<Read>, calls: nat | Received(feed) <= EncodeRaws(rs)
        ensures Exact(rs, Session([], feed, calls).outcomes)
      {
        RecvIsExact(rs, feed, calls);
      }
    } else {
      OneChunkBreaks(rs);
    }
  }

  lemma RecvIsExact(rs: seq<RawEvent>, feed: seq<Read>, calls: nat)
    requires Carried(rs) && Received(feed) <= EncodeRaws(rs)
    ensures Exact(rs, Session([], feed, calls).outcomes)
  {
    hide *;
    var more := EncodeRaws(rs)[|Received(feed)|..];
    assert [] + (Received(feed) + more) == EncodeRaws(rs);
    var after := SessionInStream([], feed, more, rs, calls);
    DeliversShrinks(rs, Session([], feed, calls).outcomes, after);
  }

  /** When the whole stream has arrived, enough calls return all of it. */
  lemma RecvDeliversAll(rs: seq<RawEvent>, feed: seq<Read>, calls: nat)
    requires Carried(rs) && Received(feed) == EncodeRaws(rs) && calls >= |rs| + |feed|
    ensures Returned(Session([], feed, calls).outcomes) == FromRaws(rs)
  {
    hide EncodeRaws, Received, Session, Carried, AllWellFormed;
    assert [] + (Received(feed) + []) == EncodeRaws(rs);
    var after := SessionInStream([], feed, [], rs, calls);
    assert FromRaws([]) == [];
  }

  lemma DeliversPrefix(rs: seq<RawEvent>, outcomes: seq<Outcome>, after: seq<RawEvent>) returns (k: nat)
    requires Delivers(rs, outcomes, after) && AllWellFormed(rs)
    ensures k <= |rs| && after == rs[k..] && rs == rs[..k] + rs[k..] && Returned(outcomes) == FromRaws(rs[..k])
  {
    hide Utf8.WellFormed, FromRaw;
    k := |rs| - |after|;
    assert rs == rs[..k] + rs[k..];
    FromRawsAppend(rs[..k], rs[k..]);
    Cancel(FromRaws(rs[..k]), Returned(outcomes), FromRaws(rs[k..]));
  }

  lemma PackableSlices(rs: seq<RawEvent>, k: nat)
    requires AllPackable(rs) && k <= |rs|
    ensures AllPackable(rs[..k]) && AllPackable(rs[k..])
  {
  }

  lemma WellFormedIsCarried(rs: seq<RawEvent>)
    requires AllSendable(rs) && AllWellFormed(rs)
    ensures Carried(rs)
  {
    hide Echoable;
    EchoesOfWellFormed(rs);
  }

  /** With topics that are valid UTF-8: the encoding of the returned events followed by the buffer is, at every
      moment, all the bytes read so far. */
  lemma RecvConserves(rs: seq<RawEvent>, feed: seq<Read>, calls: nat) returns (k: nat)
    requires AllSendable(rs) && AllWellFormed(rs) && Received(feed) <= EncodeRaws(rs)
    ensures var s := Session([], feed, calls);
            && k <= |rs| && Returned(s.outcomes) == FromRaws(rs[..k])
            && AllPackable(rs[..k]) && EncodeRaws(rs[..k]) + s.buf + Received(s.unread) == Received(feed)
  {
    hide *;
    WellFormedIsCarried(rs);
    var more := EncodeRaws(rs)[|Received(feed)|..];
    assert [] + (Received(feed) + more) == EncodeRaws(rs) == Received(feed) + more;
    var after := SessionInStream([], feed, more, rs, calls);
    var s := Session([], feed, calls);
    k := DeliversPrefix(rs, s.outcomes, after);
    PackableSlices(rs, k);
    EncodeRawsAppend(rs[..k], rs[k..]);
    var head, left := EncodeRaws(rs[..k]), Received(s.unread);
    assert head + s.buf + left + more == head + (s.buf + (left + more));
    Cancel(head + s.buf + left, Received(feed), more);
  }

  lemma Cancel<T>(a: seq<T>, b: seq<T>, c: seq<T>)
    requires a + c == b + c
    ensures a == b
  {
    assert |a| == |b|;
    assert a == (a + c)[..|a|] && b == (b + c)[..|b|];
  }

  lemma LongTopicFront(r: RawEvent, b: bytes)
    requires Packable(r) && |r.topic| > MAX_TOPIC
    ensures FrontOf(EncodeRaw(r) + b) == Bad(TopicTooLong)
  {
    hide GetU16, U32, GetU32;
    var w := EncodeRaw(r) + b;
    assert w[0..2] == U16(|r.topic|);
    U16Get(w, 0, |r.topic|);
  }

  /** A topic that grew too long breaks the whole buffer it is pushed back into. */
  lemma {:induction false} LongTopicRaises(ps: seq<RawEvent>, i: nat, b: bytes)
    requires AllPackable(ps) && i < |ps| && |ps[i].topic| > MAX_TOPIC
    requires forall j :: 0 <= j < |ps| ==> |ps[j].payload| <= MAX_PAYLOAD
    ensures SplitAll(EncodeRaws(ps) + b) == Raised(TopicTooLong)
  {
    hide FrontOf, EncodeRaw;
    var x, y := EncodeRaw(ps[0]), EncodeRaws(ps[1..]) + b;
    assert EncodeRaws(ps) + b == x + y;
    if Sendable(ps[0]) {
      FrontOfEncoded(ps[0], y);
      SplitComplete(x + y);
      assert (x + y)[|x|..] == y;
      assert ps[i] == ps[1..][i - 1];
      LongTopicRaises(ps[1..], i - 1, b);
    } else {
      LongTopicFront(ps[0], y);
    }
  }

  /** The whole stream in one chunk: the second call breaks when some later event cannot be pushed back. */
  lemma OneChunkBreaks(rs: seq<RawEvent>)
    requires AllSendable(rs) && !Carried(rs)
    ensures var feed := [Data(EncodeRaws(rs))];
            Received(feed) <= EncodeRaws(rs) && !Exact(rs, Session([], feed, 2).outcomes)
  {
    var all := EncodeRaws(rs);
    var feed := [Data(all)];
    assert Received(feed) == all by { assert feed[1..] == []; assert all + [] == all; }
    var i :| 0 <= i < |rs[1..]| && !Echoable(rs[1..][i]);
    EchoesPackable(rs[1..]);
    var pushed := EncodeRaws(Echoes(rs[1..])) + [];
    LongTopicRaises(Echoes(rs[1..]), i, []);
    FirstCallTakesAll(rs);
    hide EncodeRaws, RecvCall, Echoes, FromRaw;
    var outcomes := Session([], feed, 2).outcomes;
    assert feed[1..] == [];
    SecondCallBreaks(pushed);
    assert outcomes == [RecvCall([], feed).outcome, RecvCall(pushed, []).outcome];
    assert outcomes[1].Broken?;
  }

  lemma SecondCallBreaks(buf: bytes)
    requires SplitAll(buf).Raised?
    ensures RecvCall(buf, []).outcome.Broken?
  {
  }

  lemma FirstCallTakesAll(rs: seq<RawEvent>)
    requires AllSendable(rs) && rs != []
    ensures var c := RecvCall([], [Data(EncodeRaws(rs))]);
            AllPackable(Echoes(rs[1..])) && c == Call(Got(FromRaw(rs[0])), EncodeRaws(Echoes(rs[1..])) + [], 1)
  {
    hide EncodeRaws, Echoes, FromRaw, FrontOf;
    var all := EncodeRaws(rs);
    EchoesPackable(rs[1..]);
    EncodedNotEmpty(rs);
    assert SplitAll([]) == Parsed([], []) by { assert FrontOf([]).Partial? by { PartialOfNothing(); } }
    SplitEncoded(rs, []);
    assert all + [] == all && [] + all == all && rs + [] == rs;
    assert RecvCall([] + all, []) == Call(Got(FromRaw(rs[0])), EncodeRaws(Echoes(rs[1..])) + [], 0);
    var feed := [Data(all)];
    assert feed[1..] == [] && feed[0] == Data(all);
  }

  lemma PartialOfNothing()
    ensures FrontOf([]).Partial?
  {
  }

  lemma EncodedNotEmpty(rs: seq<RawEvent>)
    requires AllPackable(rs) && rs != []
    ensures EncodeRaws(rs) != []
  {
  }

  lemma {:induction false} JunkTriples(n: nat)
    ensures |Utf8.Encode(Utf8.Decode(seq(n, i => 0xFF)))| == 3 * n
  {
    if n > 0 {
      var b: bytes := seq(n, i => 0xFF);
      assert b[1..] == seq(n - 1, i => 0xFF);
      JunkTriples(n - 1);
      assert Utf8.Decode(b) == [Utf8.REPLACEMENT] + Utf8.Decode(b[1..]);
    }
  }

  /** Such an event exists: a topic of 342 bytes 0xFF is accepted, and is 1026 bytes long once pushed back. */
  lemma PushBackCanOutgrow()
    ensures var r := RawEvent(seq(342, i => 0xFF), []);
            Sendable(r) && !Echoable(r) && AllSendable([r, r]) && !Carried([r, r])
  {
    var r := RawEvent(seq(342, i => 0xFF), []);
    JunkTriples(342);
    assert [r, r][1..] == [r];
    assert !AllEchoable([r]) by { assert [r][0] == r; }
  }

  /** The push-back is the identity on bytes exactly when the topics pushed back are well-formed UTF-8. */
  lemma {:induction false} PushBackIsIdentityIff(rs: seq<RawEvent>)
    requires AllSendable(rs)
    ensures AllPackable(Echoes(rs)) && (EncodeRaws(Echoes(rs)) == EncodeRaws(rs) <==> AllWellFormed(rs))
  {
    EchoesPackable(rs);
    if AllWellFormed(rs) {
      EchoesOfWellFormed(rs);
    } else if EncodeRaws(Echoes(rs)) == EncodeRaws(rs) {
      SameBytesSameEvents(Echoes(rs), rs);
      var i :| 0 <= i < |rs| && !Utf8.WellFormed(rs[i].topic);
      EchoLaws(rs[i]);
      assert false;
    }
  }

  lemma {:induction false} SameBytesSameEvents(a: seq<RawEvent>, b: seq<RawEvent>)
    requires AllPackable(a) && AllPackable(b) && |a| == |b| && EncodeRaws(a) == EncodeRaws(b)
    ensures a == b
  {
    if a != [] {
      SameHead(a[0], EncodeRaws(a[1..]), b[0], EncodeRaws(b[1..]));
      SameBytesSameEvents(a[1..], b[1..]);
      assert a == [a[0]] + a[1..] && b == [b[0]] + b[1..];
    }
  }

  lemma LengthOfWords(r: RawEvent)
    requires Packable(r)
    ensures |U16(|r.topic|)| == 2 && |U32(|r.payload|)| == 4
  {
  }

  lemma SameHead(r: RawEvent, x: bytes, s: RawEvent, y: bytes)
    requires Packable(r) && Packable(s) && EncodeRaw(r) + x == EncodeRaw(s) + y
    ensures r == s && x == y
  {
    hide GetU16, GetU32, U16, U32;
    LengthOfWords(r);
    LengthOfWords(s);
    var w := EncodeRaw(r) + x;
    var t := |r.topic|;
    assert w[0..2] == U16(t) == U16(|s.topic|);
    U16Get(w, 0, t);
    U16Get(w, 0, |s.topic|);
    assert r.topic == w[2..2 + t] == s.topic;
    assert w[2 + t..6 + t] == U32(|r.payload|) == U32(|s.payload|);
    U32Get(w, 2 + t, |r.payload|);
    U32Get(w, 2 + t, |s.payload|);
    assert r.payload == w[6 + t..6 + t + |r.payload|] == s.payload;
    assert x == w[|EncodeRaw(r)|..] == y;
  }

  // ---- how a call stops ----

  /** Without a whole event a deadline that passes is a timeout, the end of the stream its end, and both keep the
      buffer. */
  lemma StopsWithoutEvent(buf: bytes, more: seq<Read>)
    requires SplitAll(buf) == Parsed([], buf)
    ensures RecvCall(buf, [Expired] + more) == Call(TimedOut, buf, 1)
    ensures RecvCall(buf, [Data([])] + more) == Call(EndOfStream, buf, 1)
    ensures RecvCall(buf, []) == Call(Waiting, buf, 0)
  {
    hide SplitAll;
    assert ([Expired] + more)[0] == Expired && ([Data([])] + more)[0] == Data([]);
  }

  /** A bad buffer raises its fault and is kept. */
  lemma StopsOnFault(buf: bytes, feed: seq<Read>)
    requires SplitAll(buf).Raised?
    ensures RecvCall(buf, feed) == Call(Broken(SplitAll(buf).fault), buf, 0)
  {
    hide SplitAll;
  }
}
