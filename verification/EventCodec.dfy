/** The event-stream codec of the broker: `[2B topic_len][topic][4B payload_len][payload]`. */
module EventCodec {
  import opened Wire
  import Utf8
  import Seqs

  const MAX_TOPIC: nat := 1024
  const MAX_PAYLOAD: nat := 0x100_0000

  datatype Event = Event(topic: string, payload: bytes)

  /** An event as it stands on the wire, its topic not decoded. */
  datatype RawEvent = RawEvent(topic: bytes, payload: bytes)

  predicate Packable(r: RawEvent) {
    |r.topic| < 0x1_0000 && |r.payload| < 0x1_0000_0000
  }

  /** What `split_events` accepts. */
  predicate Sendable(r: RawEvent) {
    |r.topic| <= MAX_TOPIC && |r.payload| <= MAX_PAYLOAD
  }

  predicate AllSendable(rs: seq<RawEvent>)
    ensures AllSendable(rs) ==> AllPackable(rs)
  {
    forall i :: 0 <= i < |rs| ==> Sendable(rs[i])
  }

  function EncodeRaw(r: RawEvent): bytes
    requires Packable(r)
  {
    U16(|r.topic|) + r.topic + U32(|r.payload|) + r.payload
  }

  function ToRaw(e: Event): RawEvent {
    RawEvent(Utf8.Encode(e.topic), e.payload)
  }

  function FromRaw(r: RawEvent): Event {
    Event(Utf8.Decode(r.topic), r.payload)
  }

  /** `encode_event`; `struct.pack` raises on what is not packable. */
  function EncodeEvent(e: Event): bytes
    requires Packable(ToRaw(e))
  {
    EncodeRaw(ToRaw(e))
  }

  predicate AllPackable(rs: seq<RawEvent>) {
    forall i :: 0 <= i < |rs| ==> Packable(rs[i])
  }

  function EncodeRaws(rs: seq<RawEvent>): bytes
    requires AllPackable(rs)
  {
    if rs == [] then [] else EncodeRaw(rs[0]) + EncodeRaws(rs[1..])
  }

  /** `b"".join(encode_event(e.topic, e.payload) for e in es)` */
  function EncodeEvents(es: seq<Event>): bytes
    requires forall i :: 0 <= i < |es| ==> Packable(ToRaw(es[i]))
  {
    if es == [] then [] else EncodeEvent(es[0]) + EncodeEvents(es[1..])
  }

  datatype Fault = TopicTooLong | PayloadTooLarge

  /** What stands at the front of a buffer. */
  datatype Front = Complete(event: RawEvent, size: nat) | Partial | Bad(fault: Fault)

  function FrontOf(b: bytes): (f: Front)
    ensures f.Complete? ==> 6 <= f.size <= |b| && f.size == 6 + |f.event.topic| + |f.event.payload|
    ensures f.Complete? ==> |f.event.topic| <= MAX_TOPIC && |f.event.payload| <= MAX_PAYLOAD
  {
    if |b| < 2 then Partial
    else
      var t := GetU16(b, 0);
      if t > MAX_TOPIC then Bad(TopicTooLong)
      else if |b| < 2 + t + 4 then Partial
      else
        var p := GetU32(b, 2 + t);
        if p > MAX_PAYLOAD then Bad(PayloadTooLarge)
        else if |b| < 6 + t + p then Partial
        else Complete(RawEvent(b[2..2 + t], b[6 + t..6 + t + p]), 6 + t + p)
  }

  datatype Split = Parsed(events: seq<RawEvent>, rest: bytes) | Raised(fault: Fault) {
    function Prepend(es: seq<RawEvent>): Split {
      if Parsed? then Parsed(es + events, rest) else this
    }
  }

  /** What `split_events` gives, event by event from the front. */
  function SplitAll(b: bytes): Split {
    match FrontOf(b)
    case Partial => Parsed([], b)
    case Bad(f) => Raised(f)
    case Complete(e, n) => SplitAll(b[n..]).Prepend([e])
  }

  function FromRaws(rs: seq<RawEvent>): (es: seq<Event>)
    ensures |es| == |rs|
  {
    seq(|rs|, i requires 0 <= i < |rs| => FromRaw(rs[i]))
  }

  datatype SplitResult = Events(events: seq<Event>, leftover: bytes) | ValueError(fault: Fault)

  function Decoded(s: Split): SplitResult {
    match s
    case Parsed(es, r) => Events(FromRaws(es), r)
    case Raised(f) => ValueError(f)
  }

  /** `split_events`: one pass over the buffer by position. */
  method SplitEvents(buf: bytes) returns (r: SplitResult)
    ensures r == Decoded(SplitAll(buf))
  {
    hide FrontOf, GetU16, GetU32, Utf8.Decode;
    var events: seq<Event> := [];
    ghost var raws: seq<RawEvent> := [];
    var pos := 0;
    StartOfSplit(buf);
    while pos + 2 <= |buf|
      invariant 0 <= pos <= |buf|
      invariant SplitAll(buf) == SplitAll(buf[pos..]).Prepend(raws)
      invariant events == FromRaws(raws)
    {
      FrontAt(buf, pos);
      var topicLen := GetU16(buf, pos);
      if topicLen > MAX_TOPIC {
        return ValueError(TopicTooLong);
      }
      if pos + 2 + topicLen + 4 > |buf| {
        break;
      }
      var payloadLen := GetU32(buf, pos + 2 + topicLen);
      if payloadLen > MAX_PAYLOAD {
        return ValueError(PayloadTooLarge);
      }
      var end := pos + 2 + topicLen + 4 + payloadLen;
      if end > |buf| {
        break;
      }
      var topic := buf[pos + 2..pos + 2 + topicLen];
      var payload := buf[pos + 2 + topicLen + 4..end];
      SplitAdvance(buf, pos, end, RawEvent(topic, payload), raws);
      FromRawsSnoc(raws, RawEvent(topic, payload));
      events := events + [Event(Utf8.Decode(topic), payload)];
      raws := raws + [RawEvent(topic, payload)];
      pos := end;
    }
    FrontAt(buf, pos);
    assert raws + [] == raws;
    return Events(events, buf[pos..]);
  }

  lemma StartOfSplit(b: bytes)
    ensures SplitAll(b) == SplitAll(b[0..]).Prepend([])
  {
    assert b[0..] == b;
    assert SplitAll(b).Parsed? ==> [] + SplitAll(b).events == SplitAll(b).events;
  }

  /** The front of the buffer from `pos` on, in terms of positions of the whole buffer. */
  lemma FrontAt(b: bytes, pos: nat)
    requires pos <= |b|
    ensures |b| < pos + 2 ==> FrontOf(b[pos..]).Partial?
    ensures pos + 2 <= |b| ==>
              var t := GetU16(b, pos);
              && (t > MAX_TOPIC ==> FrontOf(b[pos..]) == Bad(TopicTooLong))
              && (t <= MAX_TOPIC && |b| < pos + 6 + t ==> FrontOf(b[pos..]).Partial?)
              && (t <= MAX_TOPIC && pos + 6 + t <= |b| ==>
                    var p := GetU32(b, pos + 2 + t);
                    && (p > MAX_PAYLOAD ==> FrontOf(b[pos..]) == Bad(PayloadTooLarge))
                    && (p <= MAX_PAYLOAD && |b| < pos + 6 + t + p ==> FrontOf(b[pos..]).Partial?)
                    && (p <= MAX_PAYLOAD && pos + 6 + t + p <= |b| ==>
                          FrontOf(b[pos..]) ==
                          Complete(RawEvent(b[pos + 2..pos + 2 + t], b[pos + 6 + t..pos + 6 + t + p]), 6 + t + p)))
  {
    var tail := b[pos..];
    if pos + 2 <= |b| {
      var t := GetU16(b, pos);
      assert GetU16(tail, 0) == t;
      if t <= MAX_TOPIC && pos + 6 + t <= |b| {
        var p := GetU32(b, pos + 2 + t);
        assert GetU32(tail, 2 + t) == p;
        if pos + 6 + t + p <= |b| {
          assert tail[2..2 + t] == b[pos + 2..pos + 2 + t];
          assert tail[6 + t..6 + t + p] == b[pos + 6 + t..pos + 6 + t + p];
        }
      }
    }
  }

  lemma SplitComplete(b: bytes)
    requires FrontOf(b).Complete?
    ensures SplitAll(b) == SplitAll(b[FrontOf(b).size..]).Prepend([FrontOf(b).event])
  {
  }

  lemma SplitAdvance(b: bytes, pos: nat, end: nat, e: RawEvent, before: seq<RawEvent>)
    requires pos <= end <= |b| && FrontOf(b[pos..]) == Complete(e, end - pos)
    ensures SplitAll(b[pos..]).Prepend(before) == SplitAll(b[end..]).Prepend(before + [e])
  {
    hide *;
    var tail := b[pos..];
    SplitComplete(tail);
    assert tail[end - pos..] == b[end..];
    PrependPrepend(SplitAll(b[end..]), before, [e]);
  }

  lemma FromRawsSnoc(rs: seq<RawEvent>, r: RawEvent)
    ensures FromRaws(rs + [r]) == FromRaws(rs) + [FromRaw(r)]
  {
  }

  lemma PrependPrepend(s: Split, a: seq<RawEvent>, b: seq<RawEvent>)
    ensures s.Prepend(b).Prepend(a) == s.Prepend(a + b)
  {
    if s.Parsed? {
      assert a + (b + s.events) == a + b + s.events;
    }
  }

  // ---- streaming ----

  /** More bytes never change what already stands complete, or bad, at the front. */
  lemma FrontStable(a: bytes, b: bytes)
    ensures !FrontOf(a).Partial? ==> FrontOf(a + b) == FrontOf(a)
  {
    var ab := a + b;
    if |a| >= 2 {
      assert GetU16(ab, 0) == GetU16(a, 0);
      var t := GetU16(a, 0);
      if t <= MAX_TOPIC && 2 + t + 4 <= |a| {
        assert GetU32(ab, 2 + t) == GetU32(a, 2 + t);
        var p := GetU32(a, 2 + t);
        if 6 + t + p <= |a| {
          assert ab[2..2 + t] == a[2..2 + t];
          assert ab[6 + t..6 + t + p] == a[6 + t..6 + t + p];
        }
      }
    }
  }

  /** `split_events` is a streaming homomorphism: the events of `a`, then the result on the leftover followed
      by `b`; and a buffer that raises keeps raising. */
  lemma {:induction false} SplitHomomorphism(a: bytes, b: bytes)
    ensures SplitAll(a).Parsed? ==>
              SplitAll(a + b) == SplitAll(SplitAll(a).rest + b).Prepend(SplitAll(a).events)
    ensures SplitAll(a).Raised? ==> SplitAll(a + b) == SplitAll(a)
  {
    FrontStable(a, b);
    match FrontOf(a)
    case Partial =>
      var s := SplitAll(a + b);
      assert s.Parsed? ==> [] + s.events == s.events;
    case Bad(_) =>
    case Complete(e, n) =>
      SplitHomomorphism(a[n..], b);
      assert (a + b)[n..] == a[n..] + b;
      if SplitAll(a).Parsed? {
        PrependPrepend(SplitAll(SplitAll(a).rest + b), [e], SplitAll(a[n..]).events);
      }
  }

  /** A leftover is an event in progress: splitting it again yields nothing, it is a suffix of the buffer, and
      it is shorter than the longest event. */
  lemma {:induction false} LeftoverIsPartial(b: bytes)
    requires SplitAll(b).Parsed?
    ensures var r := SplitAll(b).rest;
            && FrontOf(r).Partial? && SplitAll(r) == Parsed([], r)
            && |r| < 2 + 1024 + 4 + 0x100_0000
            && |r| <= |b| && r == b[|b| - |r|..]
  {
    if FrontOf(b).Complete? {
      LeftoverIsPartial(b[FrontOf(b).size..]);
    }
  }

  lemma EncodeCons(e: RawEvent, es: seq<RawEvent>)
    requires Packable(e) && AllPackable(es)
    ensures AllPackable([e] + es) && EncodeRaws([e] + es) == EncodeRaw(e) + EncodeRaws(es)
  {
    assert ([e] + es)[1..] == es;
  }

  lemma EncodeRawsAppend(a: seq<RawEvent>, b: seq<RawEvent>)
    requires AllPackable(a) && AllPackable(b)
    ensures AllPackable(a + b) && EncodeRaws(a + b) == EncodeRaws(a) + EncodeRaws(b)
  {
    hide EncodeRaw, Packable;
    if a == [] {
      assert a + b == b;
    } else {
      EncodeRawsAppend(a[1..], b);
      EncodeCons(a[0], a[1..] + b);
      assert a + b == [a[0]] + (a[1..] + b);
      assert EncodeRaws(a) == EncodeRaw(a[0]) + EncodeRaws(a[1..]);
      hide EncodeRaws;
      Seqs.Associate(EncodeRaw(a[0]), EncodeRaws(a[1..]), EncodeRaws(b));
    }
  }

  lemma FromRawsAppend(a: seq<RawEvent>, b: seq<RawEvent>)
    ensures FromRaws(a + b) == FromRaws(a) + FromRaws(b)
  {
  }

  /** The bytes of the buffer are the events it yields, encoded, and then the leftover. */
  lemma {:induction false} SplitLosesNothing(b: bytes)
    requires SplitAll(b).Parsed?
    ensures AllSendable(SplitAll(b).events)
    ensures b == EncodeRaws(SplitAll(b).events) + SplitAll(b).rest
  {
    if FrontOf(b).Complete? {
      var e, n := FrontOf(b).event, FrontOf(b).size;
      SplitComplete(b);
      SplitLosesNothing(b[n..]);
      var s := SplitAll(b[n..]);
      FrontIsEncoded(b);
      EncodeCons(e, s.events);
      Glue(b, n, EncodeRaw(e), EncodeRaws(s.events), s.rest);
    }
  }

  lemma Glue(b: bytes, n: nat, x: bytes, y: bytes, z: bytes)
    requires n <= |b| && b[..n] == x && b[n..] == y + z
    ensures b == x + y + z
  {
    assert b == b[..n] + b[n..];
  }

  lemma FrontIsEncoded(b: bytes)
    requires FrontOf(b).Complete?
    ensures Packable(FrontOf(b).event) && b[..FrontOf(b).size] == EncodeRaw(FrontOf(b).event)
  {
    hide U16, U32, GetU16, GetU32;
    var n := FrontOf(b).size;
    var t := GetU16(b, 0);
    U16Put(b, 0);
    U32Put(b, 2 + t);
    assert b[..n] == b[0..2] + b[2..2 + t] + b[2 + t..6 + t] + b[6 + t..n];
  }

  // ---- round trip ----

  lemma FrontOfEncoded(r: RawEvent, b: bytes)
    requires Sendable(r)
    ensures FrontOf(EncodeRaw(r) + b) == Complete(r, |EncodeRaw(r)|)
  {
    hide GetU16, GetU32;
    var w := EncodeRaw(r) + b;
    var t := |r.topic|;
    assert w[0..2] == U16(t);
    U16Get(w, 0, t);
    assert w[2..2 + t] == r.topic;
    assert w[2 + t..6 + t] == U32(|r.payload|);
    U32Get(w, 2 + t, |r.payload|);
    assert w[6 + t..6 + t + |r.payload|] == r.payload;
  }

  /** Splitting the encoding of sendable events, whatever follows it, yields those events first. */
  lemma {:induction false} SplitEncoded(rs: seq<RawEvent>, b: bytes)
    requires AllSendable(rs)
    ensures SplitAll(EncodeRaws(rs) + b) == SplitAll(b).Prepend(rs)
  {
    hide FrontOf, EncodeRaw;
    if rs == [] {
      StartOfSplit(b);
      assert EncodeRaws(rs) + b == b[0..];
    } else {
      var x, y := EncodeRaw(rs[0]), EncodeRaws(rs[1..]) + b;
      assert EncodeRaws(rs) + b == x + y;
      FrontOfEncoded(rs[0], y);
      SplitComplete(x + y);
      assert (x + y)[|x|..] == y;
      SplitEncoded(rs[1..], b);
      PrependPrepend(SplitAll(b), [rs[0]], rs[1..]);
      assert [rs[0]] + rs[1..] == rs;
    }
  }

  /** The encoding of a run of sendable events has one reading. */
  lemma EncodeRawsInjective(a: seq<RawEvent>, b: seq<RawEvent>)
    requires AllSendable(a) && AllSendable(b)
    requires EncodeRaws(a) == EncodeRaws(b)
    ensures a == b
  {
    SplitEncoded(a, []);
    SplitEncoded(b, []);
    assert SplitAll([]) == Parsed([], []);
    assert EncodeRaws(a) + [] == EncodeRaws(b) + [];
    assert a + [] == a && b + [] == b;
  }

  /** Which of the encodable events a reader accepts: topics of at most 1024 bytes and payloads of at most 2^24. */
  lemma AcceptedIff(r: RawEvent, b: bytes)
    requires Packable(r)
    ensures FrontOf(EncodeRaw(r) + b) ==
            if |r.topic| > 1024 then Bad(TopicTooLong)
            else if |r.payload| > 0x100_0000 then Bad(PayloadTooLarge)
            else Complete(r, |EncodeRaw(r)|)
  {
    if Sendable(r) {
      FrontOfEncoded(r, b);
    } else {
      hide U16, U32, GetU16, GetU32;
      LengthsOfWords(r);
      var x := EncodeRaw(r) + b;
      var t := |r.topic|;
      assert x[0..2] == U16(t);
      U16Get(x, 0, t);
      assert x[2 + t..6 + t] == U32(|r.payload|);
      U32Get(x, 2 + t, |r.payload|);
    }
  }

  lemma LengthsOfWords(r: RawEvent)
    requires Packable(r)
    ensures |U16(|r.topic|)| == 2 && |U32(|r.payload|)| == 4
  {
  }
}
