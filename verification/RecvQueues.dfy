/** Receive queues: frames for a connection id are queued, or buffered until the queue is registered. */
module RecvQueues {
  import opened Wire
  import opened Seqs

  datatype Item = Data(bytes: bytes) | Eof

  /** `live` is `_stream_recv_queues` and `pending` is `_pending_recv`. Queue objects are numbered as they are made;
      one outlives its place in the dict, because its stream holds it. */
  datatype Hub = Hub(live: map<nat, nat>, pending: map<nat, seq<Item>>, queues: seq<seq<Item>>)

  const EMPTY := Hub(map[], map[], [])

  function Buffered(h: Hub, id: nat): seq<Item> {
    if id in h.pending then h.pending[id] else []
  }

  function Put(h: Hub, q: nat, item: Item): Hub
    requires q < |h.queues|
  {
    h.(queues := h.queues[q := h.queues[q] + [item]])
  }

  function Defer(h: Hub, id: nat, item: Item): Hub {
    h.(pending := h.pending[id := Buffered(h, id) + [item]])
  }

  predicate Sound(h: Hub) {
    && (forall id <- h.live :: h.live[id] < |h.queues|)
    && (forall a <- h.live, b <- h.live :: h.live[a] == h.live[b] ==> a == b)
    && (forall id <- h.live :: id !in h.pending)
  }

  /** What the connection and its streams do. `Recv` and `CloseOk` arrive from the daemon; `Get` is a reader taking
      the next item of a queue; `Close` is the local close of a stream. */
  datatype Step = Recv(id: nat, data: bytes) | CloseOk(id: nat) | Register(id: nat) | Get(q: nat) | Close(id: nat)

  predicate Enabled(h: Hub, a: Step) {
    a.Get? ==> a.q < |h.queues| && h.queues[a.q] != []
  }

  function Apply(h: Hub, a: Step): Hub
    requires Sound(h) && Enabled(h, a)
  {
    match a
    case Recv(id, data) => if id in h.live then Put(h, h.live[id], Data(data)) else Defer(h, id, Data(data))
    case CloseOk(id) => if id in h.live then Put(h, h.live[id], Eof).(live := h.live - {id}) else Defer(h, id, Eof)
    case Register(id) => Hub(h.live[id := |h.queues|], h.pending - {id}, h.queues + [Buffered(h, id)])
    case Get(q) => h.(queues := h.queues[q := h.queues[q][1..]])
    case Close(id) => h.(live := h.live - {id})
  }

  /** In every reachable state no id has both a live queue and a pending buffer, and no two ids share a queue. */
  lemma SoundStep(h: Hub, a: Step)
    requires Sound(h) && Enabled(h, a)
    ensures Sound(Apply(h, a)) && |h.queues| <= |Apply(h, a).queues|
  {
  }

  class PilotConnection {
    var live: map<nat, nat>
    var pending: map<nat, seq<Item>>
    var queues: seq<seq<Item>>

    function State(): Hub
      reads this
    {
      Hub(live, pending, queues)
    }

    constructor ()
      ensures State() == EMPTY && Sound(State())
    {
      live, pending, queues := map[], map[], [];
    }

    /** The `CMD_RECV` branch of the read loop. */
    method OnRecv(id: nat, data: bytes)
      requires Sound(State())
      modifies this
      ensures State() == Apply(old(State()), Recv(id, data)) && Sound(State())
    {
      SoundStep(State(), Recv(id, data));
      if id in live {
        queues := queues[live[id] := queues[live[id]] + [Data(data)]];
      } else {
        if id !in pending {
          pending := pending[id := []];
        }
        pending := pending[id := pending[id] + [Data(data)]];
      }
    }

    /** The `CMD_CLOSE_OK` branch. */
    method OnCloseOk(id: nat)
      requires Sound(State())
      modifies this
      ensures State() == Apply(old(State()), CloseOk(id)) && Sound(State())
    {
      SoundStep(State(), CloseOk(id));
      if id in live {
        var q := live[id];
        live := live - {id};
        queues := queues[q := queues[q] + [Eof]];
      } else {
        if id !in pending {
          pending := pending[id := []];
        }
        pending := pending[id := pending[id] + [Eof]];
      }
    }

    /** `_register_recv_queue` */
    method RegisterRecvQueue(id: nat) returns (q: nat)
      requires Sound(State())
      modifies this
      ensures State() == Apply(old(State()), Register(id)) && Sound(State()) && q == |old(queues)|
    {
      SoundStep(State(), Register(id));
      q := |queues|;
      queues := queues + [[]];
      live := live[id := q];
      if id in pending {
        var items := pending[id];
        pending := pending - {id};
        ghost var before := queues;
        for i := 0 to |items|
          invariant |queues| == |before| && queues == before[q := items[..i]]
          invariant live == old(live)[id := q] && pending == old(pending) - {id}
        {
          assert items[..i + 1] == items[..i] + [items[i]];
          queues := queues[q := queues[q] + [items[i]]];
        }
        assert items[..|items|] == items;
      } else {
        assert pending - {id} == pending;
      }
    }

    /** `Stream.read`: the next item, with EOF as no bytes; `None` while there is none. */
    method Read(q: nat) returns (r: Option<bytes>)
      requires Sound(State()) && q < |queues|
      modifies this
      ensures r.None? <==> old(queues)[q] == []
      ensures r.None? ==> State() == old(State())
      ensures r.Some? ==> State() == Apply(old(State()), Get(q)) && r.value == Chunk(old(queues)[q][0])
      ensures Sound(State())
    {
      if queues[q] == [] {
        return None;
      }
      SoundStep(State(), Get(q));
      r := Some(Chunk(queues[q][0]));
      queues := queues[q := queues[q][1..]];
    }

    /** `Stream.close`, after the close message is sent. */
    method CloseStream(id: nat)
      requires Sound(State())
      modifies this
      ensures State() == Apply(old(State()), Close(id)) && Sound(State())
      ensures id !in live && queues == old(queues) && pending == old(pending)
      ensures forall i :: i != id ==> (i in live <==> i in old(live)) && (i in live ==> live[i] == old(live)[i])
    {
      SoundStep(State(), Close(id));
      live := live - {id};
    }
  }

  function Chunk(item: Item): bytes {
    match item
    case Data(b) => b
    case Eof => []
  }

  // ---- runs ----

  predicate LegalRun(h: Hub, steps: seq<Step>)
    requires Sound(h)
    decreases |steps|
  {
    steps != [] ==> Enabled(h, steps[0]) && (SoundStep(h, steps[0]); LegalRun(Apply(h, steps[0]), steps[1..]))
  }

  function Run(h: Hub, steps: seq<Step>): (r: Hub)
    requires Sound(h) && LegalRun(h, steps)
    ensures Sound(r)
    decreases |steps|
  {
    if steps == [] then h else (SoundStep(h, steps[0]); Run(Apply(h, steps[0]), steps[1..]))
  }

  /** The items readers take from queue `q` over a run. */
  function Taken(h: Hub, steps: seq<Step>, q: nat): seq<Item>
    requires Sound(h) && LegalRun(h, steps)
    decreases |steps|
  {
    if steps == [] then []
    else
      SoundStep(h, steps[0]);
      (if steps[0] == Get(q) then [h.queues[q][0]] else []) + Taken(Apply(h, steps[0]), steps[1..], q)
  }

  function Arrival(a: Step, id: nat): seq<Item> {
    match a
    case Recv(i, data) => if i == id then [Data(data)] else []
    case CloseOk(i) => if i == id then [Eof] else []
    case _ => []
  }

  /** What arrives for one id: its data frames in order, and the end of the stream. */
  function Arrivals(steps: seq<Step>, id: nat): seq<Item> {
    if steps == [] then []
    else Arrival(steps[0], id) + Arrivals(steps[1..], id)
  }

  predicate Touches(a: Step, id: nat) {
    a == Register(id) || a == Close(id)
  }

  /** `id` is neither registered nor closed locally. */
  predicate Untouched(steps: seq<Step>, id: nat) {
    forall i :: 0 <= i < |steps| ==> !Touches(steps[i], id)
  }

  /** A live queue leaves the dict with its first EOF, so later arrivals pass it by. */
  function UpToEof(items: seq<Item>): seq<Item> {
    if items == [] then [] else if items[0].Eof? then [Eof] else [items[0]] + UpToEof(items[1..])
  }

  /** The daemon sends nothing for an id after its close-ack. */
  predicate EofLast(items: seq<Item>) {
    forall i :: 0 <= i < |items| - 1 ==> items[i].Data?
  }

  /** What a queue has given and still holds. */
  function Through(h: Hub, steps: seq<Step>, q: nat): seq<Item>
    requires Sound(h) && LegalRun(h, steps) && q < |Run(h, steps).queues|
  {
    Taken(h, steps, q) + Run(h, steps).queues[q]
  }

  lemma {:induction false} QueuesStay(h: Hub, steps: seq<Step>)
    requires Sound(h) && LegalRun(h, steps)
    ensures |h.queues| <= |Run(h, steps).queues|
    decreases |steps|
  {
    hide Sound, Apply, Enabled;
    if steps != [] {
      SoundStep(h, steps[0]);
      QueuesStay(Apply(h, steps[0]), steps[1..]);
    }
  }

  lemma ThroughStep(h: Hub, steps: seq<Step>, q: nat)
    requires Sound(h) && LegalRun(h, steps) && steps != [] && q < |h.queues|
    ensures Enabled(h, steps[0]) && (steps[0] == Get(q) ==> h.queues[q] != [])
    ensures q < |Run(h, steps).queues| && Sound(Apply(h, steps[0])) && LegalRun(Apply(h, steps[0]), steps[1..])
    ensures q < |Run(Apply(h, steps[0]), steps[1..]).queues|
    ensures Through(h, steps, q) ==
      (if steps[0] == Get(q) then [h.queues[q][0]] else []) + Through(Apply(h, steps[0]), steps[1..], q)
  {
    hide Sound, Apply;
    SoundStep(h, steps[0]);
    QueuesStay(h, steps);
  }

  // ---- a queue nobody feeds ----

  predicate Detached(h: Hub, q: nat) {
    q < |h.queues| && forall id <- h.live :: h.live[id] != q
  }

  lemma DetachedStep(h: Hub, a: Step, q: nat)
    requires Sound(h) && Enabled(h, a) && Detached(h, q)
    ensures Detached(Apply(h, a), q)
    ensures Apply(h, a).queues[q] == if a == Get(q) then h.queues[q][1..] else h.queues[q]
  {
  }

  /** A queue that left the dict only drains. */
  lemma {:induction false} DetachedDrains(h: Hub, steps: seq<Step>, q: nat)
    requires Sound(h) && LegalRun(h, steps) && q < |h.queues| && Detached(h, q)
    ensures q < |Run(h, steps).queues| && Through(h, steps, q) == h.queues[q]
    decreases |steps|
  {
    hide Sound, Apply, Enabled, Detached, Through, Run, LegalRun;
    if steps == [] {
      NoSteps(h, q);
    } else {
      ThroughStep(h, steps, q);
      SoundStep(h, steps[0]);
      DetachedStep(h, steps[0], q);
      DetachedDrains(Apply(h, steps[0]), steps[1..], q);
      GetFirst(h.queues[q]);
    }
  }

  lemma NoSteps(h: Hub, q: nat)
    requires Sound(h) && q < |h.queues|
    ensures LegalRun(h, []) && Run(h, []) == h && Through(h, [], q) == h.queues[q]
  {
  }

  lemma GetFirst(s: seq<Item>)
    ensures s != [] ==> [s[0]] + s[1..] == s
  {
  }

  // ---- a live queue ----

  lemma LiveStep(h: Hub, a: Step, id: nat, q: nat)
    requires Sound(h) && Enabled(h, a) && id in h.live && h.live[id] == q && !Touches(a, id)
    ensures var t := Apply(h, a);
            && q < |h.queues| <= |t.queues|
            && t.queues[q] == (if a == Get(q) then h.queues[q][1..] else h.queues[q]) + Arrival(a, id)
            && (if a == CloseOk(id) then Detached(t, q) else id in t.live && t.live[id] == q)
  {
  }

  /** What a registered queue has given and still holds: what it held, and what arrives for its id up to EOF. */
  lemma {:induction false} LiveRun(h: Hub, steps: seq<Step>, id: nat, q: nat)
    requires Sound(h) && LegalRun(h, steps) && id in h.live && h.live[id] == q && q < |h.queues|
    requires Untouched(steps, id)
    ensures q < |Run(h, steps).queues| && Through(h, steps, q) == h.queues[q] + UpToEof(Arrivals(steps, id))
    decreases |steps|
  {
    hide Sound, Apply, Enabled, Detached, Through, Run, LegalRun, Arrivals, Arrival, UpToEof;
    if steps == [] {
      NoSteps(h, q);
      NoArrivals(id);
    } else {
      var a, rest := steps[0], steps[1..];
      ThroughStep(h, steps, q);
      LiveStep(h, a, id, q);
      var t := Apply(h, a);
      SoundStep(h, a);
      ArrivalsStep(steps, id);
      if a == CloseOk(id) {
        DetachedDrains(t, rest, q);
      } else {
        LiveRun(t, rest, id, q);
      }
      GetFirst(h.queues[q]);
    }
  }

  lemma ArrivalsStep(steps: seq<Step>, id: nat)
    requires steps != []
    ensures Arrivals(steps, id) == Arrival(steps[0], id) + Arrivals(steps[1..], id)
    ensures UpToEof(Arrivals(steps, id)) ==
            Arrival(steps[0], id) + if steps[0] == CloseOk(id) then [] else UpToEof(Arrivals(steps[1..], id))
  {
    var first, rest := Arrival(steps[0], id), Arrivals(steps[1..], id);
    if first != [] {
      assert (first + rest)[0] == first[0] && (first + rest)[1..] == rest;
    } else {
      assert first + rest == rest;
    }
  }

  lemma NoArrivals(id: nat)
    ensures Arrivals([], id) == [] && UpToEof([]) == []
  {
  }

  lemma {:induction false} UpToEofWhole(items: seq<Item>)
    requires EofLast(items)
    ensures UpToEof(items) == items
  {
    if items != [] {
      var rest := items[1..];
      forall i | 0 <= i < |rest| - 1 ensures rest[i].Data? {
        assert rest[i] == items[i + 1];
      }
      UpToEofWhole(rest);
      assert items == [items[0]] + rest;
    }
  }

  lemma {:induction false} UpToEofKeepsEof(items: seq<Item>)
    ensures Eof in UpToEof(items) <==> Eof in items
  {
    if items != [] && !items[0].Eof? {
      UpToEofKeepsEof(items[1..]);
    }
  }

  // ---- an id without a queue ----

  lemma PendingStep(h: Hub, a: Step, id: nat)
    requires Sound(h) && Enabled(h, a) && id !in h.live && !Touches(a, id)
    ensures id !in Apply(h, a).live && Buffered(Apply(h, a), id) == Buffered(h, id) + Arrival(a, id)
  {
  }

  lemma {:induction false} PendingRun(h: Hub, steps: seq<Step>, id: nat)
    requires Sound(h) && LegalRun(h, steps) && id !in h.live && Untouched(steps, id)
    ensures id !in Run(h, steps).live && Buffered(Run(h, steps), id) == Buffered(h, id) + Arrivals(steps, id)
    decreases |steps|
  {
    hide Sound, Apply, Enabled, Buffered, Arrival, Touches;
    if steps != [] {
      SoundStep(h, steps[0]);
      PendingStep(h, steps[0], id);
      PendingRun(Apply(h, steps[0]), steps[1..], id);
      var x, y, z := Buffered(h, id), Arrival(steps[0], id), Arrivals(steps[1..], id);
      assert x + y + z == x + (y + z);
    }
  }

  // ---- where the queue is registered does not matter ----

  lemma {:induction false} RunSplit(h: Hub, a: seq<Step>, b: seq<Step>)
    requires Sound(h) && LegalRun(h, a + b)
    ensures LegalRun(h, a) && LegalRun(Run(h, a), b) && Run(h, a + b) == Run(Run(h, a), b)
    decreases |a|
  {
    hide Sound, Apply, Enabled;
    if a == [] {
      assert a + b == b;
    } else {
      assert (a + b)[0] == a[0] && (a + b)[1..] == a[1..] + b;
      SoundStep(h, a[0]);
      RunSplit(Apply(h, a[0]), a[1..], b);
    }
  }

  lemma {:induction false} ArrivalsSplit(a: seq<Step>, b: seq<Step>, id: nat)
    ensures Arrivals(a + b, id) == Arrivals(a, id) + Arrivals(b, id)
  {
    hide Arrival;
    if a == [] {
      assert a + b == b;
    } else {
      assert (a + b)[0] == a[0] && (a + b)[1..] == a[1..] + b;
      ArrivalsSplit(a[1..], b, id);
      assert Arrivals(a + b, id) == Arrival(a[0], id) + Arrivals(a[1..] + b, id);
      assert Arrivals(a, id) == Arrival(a[0], id) + Arrivals(a[1..], id);
      hide Arrivals;
      Associate(Arrival(a[0], id), Arrivals(a[1..], id), Arrivals(b, id));
    }
  }

  /** For every run and every point in it at which the queue is registered: the reader has taken, and the queue still
      holds, what was pending at the start, what arrived before, and what arrives after up to EOF, in order. */
  lemma RegistrationPointIsFree(h: Hub, before: seq<Step>, after: seq<Step>, id: nat)
    requires Sound(h) && id !in h.live
    requires LegalRun(h, before + ([Register(id)] + after))
    requires Untouched(before, id) && Untouched(after, id)
    ensures LegalRun(h, before)
    ensures var m, q := Run(h, before), |Run(h, before).queues|;
            && LegalRun(m, [Register(id)] + after)
            && q < |Run(m, [Register(id)] + after).queues|
            && Through(m, [Register(id)] + after, q) ==
               Buffered(h, id) + Arrivals(before, id) + UpToEof(Arrivals(after, id))
            && Arrivals(before + ([Register(id)] + after), id) == Arrivals(before, id) + Arrivals(after, id)
  {
    hide Sound, LegalRun, Run, Untouched, UpToEof, Taken, Arrivals, Buffered;
    var rest := [Register(id)] + after;
    RunSplit(h, before, rest);
    PendingRun(h, before, id);
    var m, q := Run(h, before), |Run(h, before).queues|;
    RegisterStep(m, after, id);
    ArrivalsSplit(before, rest, id);
    ArrivalsStep(rest, id);
    assert rest[1..] == after;
    assert Arrivals(rest, id) == [] + Arrivals(after, id) == Arrivals(after, id);
    LiveRun(Apply(m, Register(id)), after, id, q);
  }

  /** With a daemon that sends nothing after a close-ack, the reader gets exactly what arrives for the id, wherever
      the queue is registered, if and only if nothing was pending for it. */
  lemma ReadsArrivalsIff(h: Hub, before: seq<Step>, after: seq<Step>, id: nat)
    requires Sound(h) && id !in h.live
    requires LegalRun(h, before + ([Register(id)] + after))
    requires Untouched(before, id) && Untouched(after, id) && EofLast(Arrivals(after, id))
    ensures LegalRun(h, before)
    ensures var m, q := Run(h, before), |Run(h, before).queues|;
            && LegalRun(m, [Register(id)] + after)
            && q < |Run(m, [Register(id)] + after).queues|
            && (Through(m, [Register(id)] + after, q) == Arrivals(before + ([Register(id)] + after), id)
                <==> Buffered(h, id) == [])
  {
    hide *;
    RegistrationPointIsFree(h, before, after, id);
    UpToEofWhole(Arrivals(after, id));
    FrontIsExtra(Buffered(h, id), Arrivals(before, id), Arrivals(after, id));
  }

  lemma FrontIsExtra(a: seq<Item>, b: seq<Item>, c: seq<Item>)
    ensures a + b + c == b + c <==> a == []
  {
    assert |a + b + c| == |a| + |b + c|;
  }

  lemma RegisterStep(m: Hub, after: seq<Step>, id: nat)
    requires Sound(m) && LegalRun(m, [Register(id)] + after)
    ensures var t, q := Apply(m, Register(id)), |m.queues|;
            && Sound(t) && LegalRun(t, after) && q < |t.queues| && id in t.live && t.live[id] == q
            && t.queues[q] == Buffered(m, id)
            && Run(m, [Register(id)] + after) == Run(t, after)
            && Taken(m, [Register(id)] + after, q) == Taken(t, after, q)
  {
    hide Sound, Buffered;
    var rest := [Register(id)] + after;
    assert rest[0] == Register(id) && rest[1..] == after;
    SoundStep(m, Register(id));
  }

  // ---- local close ----

  /** The queue is the id's, or nobody feeds it. */
  predicate OwnOrDetached(h: Hub, id: nat, q: nat) {
    q < |h.queues| && forall i <- h.live :: h.live[i] == q ==> i == id
  }

  lemma OwnStep(h: Hub, a: Step, id: nat, q: nat)
    requires Sound(h) && Enabled(h, a) && OwnOrDetached(h, id, q)
    ensures OwnOrDetached(Apply(h, a), id, q)
    ensures a == Close(id) ==> Detached(Apply(h, a), q) && Apply(h, a).queues[q] == h.queues[q]
  {
  }

  lemma {:induction false} OwnRun(h: Hub, steps: seq<Step>, id: nat, q: nat)
    requires Sound(h) && LegalRun(h, steps) && OwnOrDetached(h, id, q)
    ensures OwnOrDetached(Run(h, steps), id, q)
    decreases |steps|
  {
    hide Sound, Apply, Enabled, OwnOrDetached;
    if steps != [] {
      SoundStep(h, steps[0]);
      OwnStep(h, steps[0], id, q);
      OwnRun(Apply(h, steps[0]), steps[1..], id, q);
    }
  }

  lemma {:induction false} TakenSplit(h: Hub, a: seq<Step>, b: seq<Step>, q: nat)
    requires Sound(h) && LegalRun(h, a + b)
    ensures LegalRun(h, a) && LegalRun(Run(h, a), b)
    ensures Taken(h, a + b, q) == Taken(h, a, q) + Taken(Run(h, a), b, q)
    decreases |a|
  {
    hide Sound, Apply, Enabled;
    if a == [] {
      assert a + b == b;
    } else {
      assert (a + b)[0] == a[0] && (a + b)[1..] == a[1..] + b;
      SoundStep(h, a[0]);
      TakenSplit(Apply(h, a[0]), a[1..], b, q);
    }
  }

  /** A locally closed stream keeps what arrived before the close and gets nothing after, whatever happens then. */
  lemma CloseCutsOff(h: Hub, before: seq<Step>, after: seq<Step>, id: nat, q: nat)
    requires Sound(h) && q < |h.queues| && id in h.live && h.live[id] == q
    requires LegalRun(h, before + ([Close(id)] + after))
    requires Untouched(before, id)
    ensures q < |Run(h, before + ([Close(id)] + after)).queues|
    ensures Through(h, before + ([Close(id)] + after), q) == h.queues[q] + UpToEof(Arrivals(before, id))
  {
    hide Enabled, LegalRun, Run, Untouched, UpToEof, Taken, Arrivals, Apply, Arrival;
    var rest := [Close(id)] + after;
    OwnOf(h, id, q);
    hide Sound;
    RunSplit(h, before, rest);
    TakenSplit(h, before, rest, q);
    var m := Run(h, before);
    OwnRun(h, before, id, q);
    assert rest[0] == Close(id) && rest[1..] == after;
    ThroughStep(m, rest, q);
    OwnStep(m, Close(id), id, q);
    DetachedDrains(Apply(m, Close(id)), after, q);
    LiveRun(h, before, id, q);
    assert [] + m.queues[q] == m.queues[q];
    var x, y, z := Taken(h, before, q), Taken(m, rest, q), Run(m, rest).queues[q];
    assert x + y + z == x + (y + z);
  }

  lemma OwnOf(h: Hub, id: nat, q: nat)
    requires Sound(h) && q < |h.queues| && id in h.live && h.live[id] == q
    ensures OwnOrDetached(h, id, q)
  {
  }

  /** A local close leaves the close-ack that answers it in the pending buffer, so the next stream to get this id
      ends before it begins. */
  lemma StaleCloseAck(h: Hub, id: nat)
    requires Sound(h) && id in h.live
    ensures var steps := [Close(id), CloseOk(id), Register(id)];
            LegalRun(h, steps) && Run(h, steps).queues == h.queues + [[Eof]]
  {
    var a, b, c := Close(id), CloseOk(id), Register(id);
    SoundStep(h, a);
    var h1 := Apply(h, a);
    assert Buffered(h1, id) == [];
    SoundStep(h1, b);
    var h2 := Apply(h1, b);
    assert Buffered(h2, id) == [] + [Eof] == [Eof];
    SoundStep(h2, c);
    var h3 := Apply(h2, c);
    assert h3.queues == h.queues + [[Eof]];
    assert [a, b, c][1..] == [b, c] && [b, c][1..] == [c] && [c][1..] == [];
    hide Apply, Sound, Buffered;
    assert LegalRun(h3, []) && Run(h3, []) == h3;
    assert LegalRun(h2, [c]) && Run(h2, [c]) == h3;
    assert LegalRun(h1, [b, c]) && Run(h1, [b, c]) == h3;
  }

  /** An id used again after a local close: the new queue has what arrives after its registration, up to EOF, if and
      only if nothing for the id, the ack included, arrived in between; and an ack that arrives at all, sooner or
      later, ends the new stream. */
  lemma ReuseIsCleanIff(h: Hub, mid: seq<Step>, after: seq<Step>, id: nat)
    requires Sound(h) && id in h.live && LegalRun(h, [Close(id)] + (mid + ([Register(id)] + after)))
    requires Untouched(mid, id) && Untouched(after, id)
    ensures LegalRun(h, [Close(id)] + mid)
    ensures var m, q := Run(h, [Close(id)] + mid), |Run(h, [Close(id)] + mid).queues|;
            && LegalRun(m, [Register(id)] + after)
            && q < |Run(m, [Register(id)] + after).queues|
            && var got := Through(m, [Register(id)] + after, q);
            && got == Arrivals(mid, id) + UpToEof(Arrivals(after, id))
            && (got == UpToEof(Arrivals(after, id)) <==> Arrivals(mid, id) == [])
            && (Eof in got <==> Eof in Arrivals(mid, id) || Eof in Arrivals(after, id))
  {
    hide LegalRun, Run, Untouched, UpToEof, Arrivals, Through, Apply, Sound;
    var rest := mid + ([Register(id)] + after);
    ClosedStart(h, id, rest);
    var h1 := Apply(h, Close(id));
    RegistrationPointIsFree(h1, mid, after, id);
    ClosedStart(h, id, mid);
    var a, b := Arrivals(mid, id), UpToEof(Arrivals(after, id));
    FrontIsExtra(a, [], b);
    assert a + [] + b == [] + a + b == a + b && [] + b == b;
    UpToEofKeepsEof(Arrivals(after, id));
  }

  lemma ClosedStart(h: Hub, id: nat, more: seq<Step>)
    requires Sound(h) && id in h.live
    ensures var t := Apply(h, Close(id));
            && Sound(t) && id !in t.live && Buffered(t, id) == []
            && LegalRun(h, [Close(id)] + more) == LegalRun(t, more)
            && (LegalRun(t, more) ==> Run(h, [Close(id)] + more) == Run(t, more))
  {
    SoundStep(h, Close(id));
    assert ([Close(id)] + more)[0] == Close(id) && ([Close(id)] + more)[1..] == more;
  }

  /** In every reachable state, ids reused or not: no id has both a live queue and a pending buffer. */
  lemma NeverLiveAndPending(steps: seq<Step>, id: nat)
    requires LegalRun(EMPTY, steps)
    ensures !(id in Run(EMPTY, steps).live && id in Run(EMPTY, steps).pending)
  {
    hide Run, LegalRun;
    var r := Run(EMPTY, steps);
    assert Sound(r);
  }

  // ---- reading to the end ----

  function Datas(frames: seq<bytes>): seq<Item> {
    Map(frames, b => Data(b))
  }

  /** The chunks before the first empty one: an empty data frame reads like the end. */
  function UntilEmpty(frames: seq<bytes>): seq<bytes> {
    if frames == [] || frames[0] == [] then [] else [frames[0]] + UntilEmpty(frames[1..])
  }

  /** `Stream.read_until_eof` over what its queue yields; `None` if it blocks. */
  method ReadUntilEof(items: seq<Item>) returns (r: Option<bytes>)
    ensures r.None? <==> forall i :: 0 <= i < |items| ==> Chunk(items[i]) != []
    ensures r.Some? ==> r.value == Concat(UntilEmpty(Map(items, Chunk)))
  {
    var chunks := [];
    for i := 0 to |items|
      invariant forall k :: 0 <= k < i ==> Chunk(items[k]) != []
      invariant UntilEmpty(Map(items, Chunk)) == chunks + UntilEmpty(Map(items, Chunk)[i..])
    {
      var chunk := Chunk(items[i]);
      ghost var all, before := Map(items, Chunk), chunks;
      assert all[i..][0] == chunk && all[i..][1..] == all[i + 1..];
      if chunk == [] {
        assert chunks + [] == chunks;
        return Some(Concat(chunks));
      }
      chunks := chunks + [chunk];
      assert before + ([chunk] + UntilEmpty(all[i + 1..])) == chunks + UntilEmpty(all[i + 1..]);
    }
    return None;
  }

  /** Nothing but empty frames follows an empty frame. */
  predicate EmptyOnlyAtEnd(frames: seq<bytes>) {
    forall i, j :: 0 <= i < j < |frames| && frames[i] == [] ==> frames[j] == []
  }

  lemma {:induction false} ConcatEmptyIff(frames: seq<bytes>)
    ensures Concat(frames) == [] <==> forall i :: 0 <= i < |frames| ==> frames[i] == []
  {
    if frames != [] {
      ConcatEmptyIff(frames[1..]);
      assert forall i :: 0 < i < |frames| ==> frames[i] == frames[1..][i - 1];
    }
  }

  lemma {:induction false} UntilEmptyIff(frames: seq<bytes>)
    ensures Concat(UntilEmpty(frames)) == Concat(frames) <==> EmptyOnlyAtEnd(frames)
  {
    if frames != [] {
      var f, rest := frames[0], frames[1..];
      assert forall i :: 0 < i < |frames| ==> frames[i] == rest[i - 1];
      if f == [] {
        ConcatEmptyIff(frames);
        assert EmptyOnlyAtEnd(frames) <==> forall i :: 0 <= i < |frames| ==> frames[i] == [];
      } else {
        UntilEmptyIff(rest);
        assert ([f] + UntilEmpty(rest))[1..] == UntilEmpty(rest);
        SamePrefix(f, Concat(UntilEmpty(rest)), Concat(rest));
        EmptyOnlyTail(frames);
      }
    }
  }

  lemma EmptyOnlyTail(frames: seq<bytes>)
    requires frames != [] && frames[0] != []
    ensures EmptyOnlyAtEnd(frames) <==> EmptyOnlyAtEnd(frames[1..])
  {
    var rest := frames[1..];
    if EmptyOnlyAtEnd(rest) {
      forall i, j | 0 <= i < j < |frames| && frames[i] == [] ensures frames[j] == [] {
        assert rest[i - 1] == [] && rest[j - 1] == frames[j];
      }
    }
    if EmptyOnlyAtEnd(frames) {
      forall i, j | 0 <= i < j < |rest| && rest[i] == [] ensures rest[j] == [] {
        assert frames[i + 1] == [] && frames[j + 1] == rest[j];
      }
    }
  }

  lemma {:induction false} UntilEmptyEnds(frames: seq<bytes>, more: seq<bytes>)
    ensures UntilEmpty(frames + ([[]] + more)) == UntilEmpty(frames)
  {
    var all := frames + ([[]] + more);
    if frames != [] {
      assert all[0] == frames[0] && all[1..] == frames[1..] + ([[]] + more);
      UntilEmptyEnds(frames[1..], more);
    }
  }

  /** Reading a stream of data frames to its end gives all its bytes if and only if nothing but empty frames follows
      an empty frame. */
  lemma ReadsWholeStreamIff(frames: seq<bytes>)
    ensures Concat(UntilEmpty(Map(Datas(frames) + [Eof], Chunk))) == Concat(frames) <==> EmptyOnlyAtEnd(frames)
  {
    hide Concat, UntilEmpty, EmptyOnlyAtEnd;
    assert Map(Datas(frames) + [Eof], Chunk) == frames + ([[]] + []);
    UntilEmptyEnds(frames, []);
    UntilEmptyIff(frames);
  }

  /** An empty frame hides everything behind it; behind an empty first frame the reader finds no bytes at all. */
  lemma EmptyFrameHidesRest(frames: seq<bytes>, more: seq<bytes>, b: bytes)
    requires b != []
    ensures UntilEmpty(Map(Datas(frames + ([[]] + more)) + [Eof], Chunk)) == UntilEmpty(frames)
    ensures Concat(UntilEmpty(Map(Datas([[], b]) + [Eof], Chunk))) == [] && Concat([[], b]) == b
  {
    var all := frames + ([[]] + more);
    assert Map(Datas(all) + [Eof], Chunk) == frames + ([[]] + (more + [[]]));
    UntilEmptyEnds(frames, more + [[]]);
    assert Map(Datas([[], b]) + [Eof], Chunk)[0] == [];
    assert [[], b][1..] == [b] && [b][1..] == [];
  }
}
