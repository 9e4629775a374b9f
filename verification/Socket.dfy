/** The length-prefixed frames of the daemon socket: `Stream.write` cuts data into them, the read loop takes them
    apart, and writers on different connection ids interleave. */
module Socket {
  import opened Wire
  import opened Seqs

  const MAX_MESSAGE_SIZE: nat := 0x10_0000
  const MAX_SEND_CHUNK: nat := MAX_MESSAGE_SIZE - 64
  const CMD_SEND: byte := 6

  function Frame(payload: bytes): bytes
    requires |payload| < 0x1_0000_0000
  {
    U32(|payload|) + payload
  }

  function EncodeSend(id: nat, data: bytes): bytes
    requires id < 0x1_0000_0000
  {
    [CMD_SEND] + U32(id) + data
  }

  /** The connection id and data of a send message. */
  function ParseSend(msg: bytes): Option<(nat, bytes)> {
    if |msg| < 5 || msg[0] != CMD_SEND then None else Some((GetU32(msg, 1), msg[5..]))
  }

  predicate Fits(msg: bytes) {
    1 <= |msg| <= MAX_MESSAGE_SIZE
  }

  // ---- the read loop ----

  /** Whole messages, the bytes of an unfinished one, and whether a length was refused. */
  datatype Deframed = Deframed(msgs: seq<bytes>, rest: bytes, invalid: bool)

  function Deframe(b: bytes): Deframed
    decreases |b|
  {
    if |b| < 4 then Deframed([], b, false)
    else
      var length := GetU32(b, 0);
      if length == 0 || length > MAX_MESSAGE_SIZE then Deframed([], b, true)
      else if |b| < 4 + length then Deframed([], b, false)
      else
        var d := Deframe(b[4 + length..]);
        d.(msgs := [b[4..4 + length]] + d.msgs)
  }

  /** The framing part of `_read_loop` over all the bytes that arrive. */
  method ReadLoop(b: bytes) returns (d: Deframed)
    ensures d == Deframe(b)
  {
    hide GetU32;
    var msgs, at := [], 0;
    while true
      invariant 0 <= at <= |b|
      invariant var r := Deframe(b[at..]); Deframe(b) == r.(msgs := msgs + r.msgs)
      decreases |b| - at
    {
      var left := b[at..];
      if |left| < 4 {
        return Deframed(msgs, left, false);
      }
      var length := GetU32(left, 0);
      if length == 0 || length > MAX_MESSAGE_SIZE {
        return Deframed(msgs, left, true);
      }
      if |left| < 4 + length {
        return Deframed(msgs, left, false);
      }
      ghost var before := msgs;
      msgs := msgs + [left[4..4 + length]];
      at := at + 4 + length;
      assert left[4 + length..] == b[at..];
      assert before + ([left[4..4 + length]] + Deframe(b[at..]).msgs) == msgs + Deframe(b[at..]).msgs;
    }
  }

  lemma DeframeFirst(msg: bytes, more: bytes)
    requires Fits(msg)
    ensures Deframe(Frame(msg) + more) == var d := Deframe(more); d.(msgs := [msg] + d.msgs)
  {
    hide GetU32, U32;
    var b := Frame(msg) + more;
    U32Length(|msg|);
    assert b == U32(|msg|) + (msg + more);
    assert b[0..4] == U32(|msg|);
    U32Get(b, 0, |msg|);
    assert b[4..4 + |msg|] == msg && b[4 + |msg|..] == more;
  }

  lemma U32Length(n: nat)
    requires n < 0x1_0000_0000
    ensures |U32(n)| == 4
  {
  }

  /** Appending one frame to whole frames appends its message. */
  lemma {:induction false} DeframeSnoc(b: bytes, msg: bytes)
    requires Fits(msg) && !Deframe(b).invalid && Deframe(b).rest == []
    ensures Deframe(b + Frame(msg)) == Deframed(Deframe(b).msgs + [msg], [], false)
    decreases |b|
  {
    hide GetU32, U32;
    var f := Frame(msg);
    if b == [] {
      DeframeFirst(msg, []);
      assert f + [] == f && b + f == f;
    } else {
      var n := GetU32(b, 0);
      SameU32(b, f);
      assert (b + f)[4 + n..] == b[4 + n..] + f;
      assert (b + f)[4..4 + n] == b[4..4 + n];
      DeframeSnoc(b[4 + n..], msg);
    }
  }

  lemma SameU32(b: bytes, f: bytes)
    requires |b| >= 4
    ensures GetU32(b + f, 0) == GetU32(b, 0)
  {
  }

  lemma ParseEncoded(id: nat, data: bytes)
    requires id < 0x1_0000_0000
    ensures ParseSend(EncodeSend(id, data)) == Some((id, data))
    ensures |EncodeSend(id, data)| == 5 + |data|
  {
    hide GetU32, U32;
    U32Length(id);
    var msg := EncodeSend(id, data);
    assert msg[1..5] == U32(id) && msg[5..] == data;
    U32Get(msg, 1, id);
  }

  // ---- one write ----

  /** The messages of `Stream.write`. */
  function Messages(id: nat, data: bytes): seq<bytes>
    requires id < 0x1_0000_0000
    decreases |data|
  {
    if data == [] then []
    else [EncodeSend(id, Take(data, MAX_SEND_CHUNK))] + Messages(id, data[|Take(data, MAX_SEND_CHUNK)|..])
  }

  predicate AllFit(msgs: seq<bytes>) {
    forall i :: 0 <= i < |msgs| ==> Fits(msgs[i])
  }

  function Frames(msgs: seq<bytes>): bytes
    requires AllFit(msgs)
  {
    if msgs == [] then []
    else
      assert Fits(msgs[0]);
      Frame(msgs[0]) + Frames(msgs[1..])
  }

  function DataIn(msg: bytes, id: nat): bytes {
    if ParseSend(msg).Some? && ParseSend(msg).value.0 == id then ParseSend(msg).value.1 else []
  }

  /** The bytes sent on one connection id. */
  function DataFor(msgs: seq<bytes>, id: nat): bytes {
    if msgs == [] then [] else DataIn(msgs[0], id) + DataFor(msgs[1..], id)
  }

  lemma {:induction false} MessagesFit(id: nat, data: bytes)
    requires id < 0x1_0000_0000
    ensures AllFit(Messages(id, data))
    decreases |data|
  {
    if data != [] {
      var chunk := Take(data, MAX_SEND_CHUNK);
      ParseEncoded(id, chunk);
      MessagesFit(id, data[|chunk|..]);
    }
  }

  class PilotConnection {
    var wire: bytes

    constructor ()
      ensures wire == []
    {
      wire := [];
    }

    /** `_send_raw`: on a wire of whole frames, the other side reads it as the next message. */
    method SendRaw(payload: bytes)
      requires |payload| < 0x1_0000_0000
      modifies this
      ensures wire == old(wire) + Frame(payload)
      ensures Fits(payload) && !Deframe(old(wire)).invalid && Deframe(old(wire)).rest == [] ==>
                Deframe(wire) == Deframed(Deframe(old(wire)).msgs + [payload], [], false)
    {
      hide Deframe, U32;
      if Fits(payload) && !Deframe(wire).invalid && Deframe(wire).rest == [] {
        DeframeSnoc(wire, payload);
      }
      wire := wire + (U32(|payload|) + payload);
    }

    /** `Stream.write`: nothing when the stream is closed. */
    method Write(id: nat, data: bytes, closed: bool) returns (ok: bool)
      requires id < 0x1_0000_0000
      modifies this
      ensures ok == !closed
      ensures AllFit(Messages(id, data))
      ensures wire == old(wire) + if ok then Frames(Messages(id, data)) else []
    {
      hide *;
      MessagesFit(id, data);
      WriteEnd(id, wire);
      if closed {
        return false;
      }
      var i := 0;
      assert data[0..] == data;
      while i < |data|
        invariant 0 <= i <= |data|
        invariant AllFit(Messages(id, data[i..]))
        invariant wire + Frames(Messages(id, data[i..])) == old(wire) + Frames(Messages(id, data))
      {
        var chunk := Take(data[i..], MAX_SEND_CHUNK);
        WriteStep(id, data, i, wire);
        SendRaw(EncodeSend(id, chunk));
        i := i + |chunk|;
      }
      assert data[i..] == [];
      WriteEnd(id, wire);
      return true;
    }
  }

  lemma WriteEnd(id: nat, wire: bytes)
    requires id < 0x1_0000_0000
    ensures AllFit(Messages(id, [])) && wire + Frames(Messages(id, [])) == wire && wire + [] == wire
  {
  }

  lemma WriteStep(id: nat, data: bytes, i: nat, wire: bytes)
    requires id < 0x1_0000_0000 && i < |data| && AllFit(Messages(id, data[i..]))
    ensures var chunk := Take(data[i..], MAX_SEND_CHUNK); var j := i + |chunk|;
            && i < j <= |data|
            && Fits(EncodeSend(id, chunk)) && |EncodeSend(id, chunk)| < 0x1_0000_0000
            && AllFit(Messages(id, data[j..]))
            && wire + Frames(Messages(id, data[i..])) ==
                wire + Frame(EncodeSend(id, chunk)) + Frames(Messages(id, data[j..]))
  {
    hide EncodeSend, Frame;
    var chunk := Take(data[i..], MAX_SEND_CHUNK);
    ParseEncoded(id, chunk);
    var j := i + |chunk|;
    assert data[i..][|chunk|..] == data[j..];
    MessagesFit(id, data[j..]);
    var ms := Messages(id, data[i..]);
    assert ms[0] == EncodeSend(id, chunk) && ms[1..] == Messages(id, data[j..]);
  }

  lemma {:induction false} FramesDeframe(msgs: seq<bytes>)
    requires AllFit(msgs)
    ensures Deframe(Frames(msgs)) == Deframed(msgs, [], false)
  {
    hide Frame, Fits;
    if msgs != [] {
      assert Fits(msgs[0]) && AllFit(msgs[1..]);
      DeframeFirst(msgs[0], Frames(msgs[1..]));
      FramesDeframe(msgs[1..]);
      assert [msgs[0]] + msgs[1..] == msgs;
    }
  }

  /** A write's messages are legal, survive the socket, and carry its data to its own id alone. */
  lemma {:induction false} WriteRoundTrip(id: nat, data: bytes, other: nat)
    requires id < 0x1_0000_0000
    ensures AllFit(Messages(id, data))
    ensures Deframe(Frames(Messages(id, data))) == Deframed(Messages(id, data), [], false)
    ensures DataFor(Messages(id, data), other) == if other == id then data else []
    decreases |data|
  {
    hide EncodeSend, Deframe, Frames, ParseSend;
    MessagesFit(id, data);
    FramesDeframe(Messages(id, data));
    if data != [] {
      var chunk := Take(data, MAX_SEND_CHUNK);
      ParseEncoded(id, chunk);
      WriteRoundTrip(id, data[|chunk|..], other);
      assert chunk + data[|chunk|..] == data;
      var ms := Messages(id, data);
      assert ms[0] == EncodeSend(id, chunk) && ms[1..] == Messages(id, data[|chunk|..]);
    }
  }

  // ---- writers interleave ----

  /** A task begins a write, emits the next chunk of one it has begun, or some other message is sent. */
  datatype Step = Begin(id: nat, data: bytes) | Emit(id: nat) | Other(msg: bytes)

  /** The bytes written so far, and what each begun write still has to send. */
  datatype Net = Net(wire: bytes, todo: map<nat, bytes>)

  function Left(s: Net, id: nat): bytes {
    if id in s.todo then s.todo[id] else []
  }

  /** Writes on one id do not overlap, and other messages are no data messages. */
  predicate Legal(s: Net, a: Step) {
    match a
    case Begin(id, _) => id < 0x1_0000_0000 && Left(s, id) == []
    case Emit(id) => id < 0x1_0000_0000 && Left(s, id) != []
    case Other(msg) => Fits(msg) && msg[0] != CMD_SEND
  }

  function Apply(s: Net, a: Step): Net
    requires Legal(s, a)
  {
    match a
    case Begin(id, data) => s.(todo := s.todo[id := data])
    case Emit(id) =>
      var chunk := Take(s.todo[id], MAX_SEND_CHUNK);
      ParseEncoded(id, chunk);
      Net(s.wire + Frame(EncodeSend(id, chunk)), s.todo[id := s.todo[id][|chunk|..]])
    case Other(msg) => s.(wire := s.wire + Frame(msg))
  }

  predicate LegalRun(s: Net, steps: seq<Step>)
    decreases |steps|
  {
    steps != [] ==> Legal(s, steps[0]) && LegalRun(Apply(s, steps[0]), steps[1..])
  }

  function Run(s: Net, steps: seq<Step>): Net
    requires LegalRun(s, steps)
    decreases |steps|
  {
    if steps == [] then s else Run(Apply(s, steps[0]), steps[1..])
  }

  /** All the data whose write on `id` was begun. */
  function Asked(steps: seq<Step>, id: nat): bytes {
    if steps == [] then []
    else (if steps[0].Begin? && steps[0].id == id then steps[0].data else []) + Asked(steps[1..], id)
  }

  predicate Clean(wire: bytes) {
    var d := Deframe(wire);
    !d.invalid && d.rest == [] && AllFit(d.msgs)
  }

  function OnWire(wire: bytes, id: nat): bytes {
    DataFor(Deframe(wire).msgs, id)
  }

  lemma {:induction false} DataForSnoc(msgs: seq<bytes>, msg: bytes, id: nat)
    ensures DataFor(msgs + [msg], id) == DataFor(msgs, id) + DataIn(msg, id)
  {
    hide DataIn;
    if msgs == [] {
      assert [msg][1..] == [] && [] + [msg] == [msg];
    } else {
      assert (msgs + [msg])[0] == msgs[0] && (msgs + [msg])[1..] == msgs[1..] + [msg];
      DataForSnoc(msgs[1..], msg, id);
      assert DataFor(msgs, id) == DataIn(msgs[0], id) + DataFor(msgs[1..], id);
      assert DataFor(msgs + [msg], id) == DataIn(msgs[0], id) + DataFor(msgs[1..] + [msg], id);
      hide DataFor;
      Associate(DataIn(msgs[0], id), DataFor(msgs[1..], id), DataIn(msg, id));
    }
  }

  lemma SendOne(wire: bytes, msg: bytes, id: nat)
    requires Clean(wire) && Fits(msg)
    ensures Clean(wire + Frame(msg))
    ensures OnWire(wire + Frame(msg), id) == OnWire(wire, id) + DataIn(msg, id)
  {
    hide Deframe, DataIn, DataFor, Frame;
    DeframeSnoc(wire, msg);
    DataForSnoc(Deframe(wire).msgs, msg, id);
  }

  /** One step moves bytes from a begun write to the wire, in order, and touches no other connection. */
  lemma StepConserves(s: Net, a: Step, id: nat)
    requires Clean(s.wire) && Legal(s, a)
    ensures var t := Apply(s, a);
            && Clean(t.wire)
            && OnWire(t.wire, id) + Left(t, id) == OnWire(s.wire, id) + Left(s, id) + Asked([a], id)
  {
    hide Clean, OnWire, EncodeSend, Frame, ParseSend;
    assert Asked([a], id) == if a.Begin? && a.id == id then a.data else [] by { assert [a][1..] == []; }
    match a
    case Begin(i, data) =>
    case Emit(i) =>
      var chunk := Take(s.todo[i], MAX_SEND_CHUNK);
      ParseEncoded(i, chunk);
      SendOne(s.wire, EncodeSend(i, chunk), id);
      assert s.todo[i] == chunk + s.todo[i][|chunk|..];
    case Other(msg) =>
      SendOne(s.wire, msg, id);
      OtherHasNoData(msg, id);
  }

  lemma OtherHasNoData(msg: bytes, id: nat)
    requires Fits(msg) && msg[0] != CMD_SEND
    ensures DataIn(msg, id) == []
  {
  }

  /** For every interleaving: the socket deframes into messages of legal length, and what each connection id's
      messages carry is the data asked to be written on it, in order, short of what is still to be sent. */
  lemma {:induction false} WritersInterleave(s: Net, steps: seq<Step>, id: nat)
    requires Clean(s.wire) && LegalRun(s, steps)
    ensures var t := Run(s, steps);
            && Clean(t.wire)
            && OnWire(t.wire, id) + Left(t, id) == OnWire(s.wire, id) + Left(s, id) + Asked(steps, id)
    decreases |steps|
  {
    hide Clean, OnWire, Left, Legal, Apply;
    if steps != [] {
      var a, t := steps[0], Apply(s, steps[0]);
      StepConserves(s, a, id);
      assert Asked([a], id) + Asked(steps[1..], id) == Asked(steps, id) by { assert [a][1..] == []; }
      WritersInterleave(t, steps[1..], id);
      assert OnWire(s.wire, id) + Left(s, id) + Asked([a], id) + Asked(steps[1..], id)
        == OnWire(s.wire, id) + Left(s, id) + (Asked([a], id) + Asked(steps[1..], id));
    }
  }

  /** When no write is pending, each stream's bytes are all there, in order. */
  lemma StreamsAreSeparate(steps: seq<Step>)
    requires LegalRun(Net([], map[]), steps)
    ensures var t := Run(Net([], map[]), steps);
            && Clean(t.wire)
            && forall id :: Left(t, id) == [] ==> OnWire(t.wire, id) == Asked(steps, id)
  {
    hide OnWire, Left, Asked, Run, LegalRun;
    var s := Net([], map[]);
    assert Clean([]);
    WritersInterleave(s, steps, 0);
    forall id | Left(Run(s, steps), id) == [] ensures OnWire(Run(s, steps).wire, id) == Asked(steps, id) {
      WritersInterleave(s, steps, id);
      NothingYet(id);
      assert [] + [] + Asked(steps, id) == Asked(steps, id);
    }
  }

  lemma NothingYet(id: nat)
    ensures OnWire([], id) == [] && Left(Net([], map[]), id) == []
  {
  }

  // ---- sizes and layout on the wire ----

  /** A send message is the byte 6, the connection id and the data. */
  lemma SendLayout(id: nat, data: bytes)
    requires id < 0x1_0000_0000
    ensures EncodeSend(id, data)[0] == 6 && EncodeSend(id, data)[1..5] == U32(id) && EncodeSend(id, data)[5..] == data
  {
    hide U32;
    U32Length(id);
  }

  /** A write is cut every 2^20 - 64 bytes, and nowhere else. */
  lemma {:induction false} MessageAt(id: nat, data: bytes, i: nat)
    requires id < 0x1_0000_0000 && i < |Messages(id, data)|
    ensures var low, high := i * 1048512, (i + 1) * 1048512;
            low < |data| && Messages(id, data)[i] == EncodeSend(id, data[low..if high < |data| then high else |data|])
    decreases i
  {
    hide EncodeSend;
    if i == 0 {
      assert Take(data, MAX_SEND_CHUNK) == data[0..if 1048512 < |data| then 1048512 else |data|];
    } else {
      var rest := data[|Take(data, MAX_SEND_CHUNK)|..];
      MessageAt(id, rest, i - 1);
      assert |data| > 1048512;
      var low, high := i * 1048512, (i + 1) * 1048512;
      var end := if high < |data| then high else |data|;
      assert rest[low - 1048512..end - 1048512] == data[low..end];
    }
  }

  /** The read loop refuses a length of 0, and one above 2^20. */
  lemma RefusedIff(n: nat, more: bytes)
    requires n < 0x1_0000_0000 && |more| == n
    ensures Deframe(U32(n) + more) ==
            if n == 0 || n > 0x10_0000 then Deframed([], U32(n) + more, true) else Deframed([more], [], false)
  {
    hide U32, GetU32;
    U32Length(n);
    var b := U32(n) + more;
    assert b[0..4] == U32(n);
    U32Get(b, 0, n);
    if 0 < n <= 0x10_0000 {
      DeframeFirst(more, []);
      assert Frame(more) + [] == b;
      assert [more] + [] == [more];
      assert Deframe([]) == Deframed([], [], false);
      assert Deframe(b) == Deframed([more], [], false);
    } else {
      assert Deframe(b) == Deframed([], b, true);
    }
  }
}
