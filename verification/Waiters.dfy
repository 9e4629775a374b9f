/** Requests multiplexed over one socket: the per-reply waiter queues of the connection, against a daemon that
    answers each reply type in the order of its requests. */
module Waiters {
  import opened Wire
  import opened Seqs

  type Cmd = nat

  datatype Future = Waiting | Result(payload: bytes) | Failed(error: string) | Cancelled | TimedOut

  /** `_waiters`, a dict of deques in insertion order; futures are numbered as they are created. */
  datatype Table = Table(queues: map<Cmd, seq<nat>>, order: seq<Cmd>, futures: seq<Future>)

  const EMPTY := Table(map[], [], [])

  function Queue(queues: map<Cmd, seq<nat>>, c: Cmd): seq<nat> {
    if c in queues then queues[c] else []
  }

  /** A future is settled once. */
  function Settle(futures: seq<Future>, f: nat, outcome: Future): (r: seq<Future>)
    ensures |r| == |futures|
  {
    if f < |futures| && futures[f].Waiting? then futures[f := outcome] else futures
  }

  function Enqueue(t: Table, c: Cmd): Table {
    Table(t.queues[c := Queue(t.queues, c) + [|t.futures|]],
          if c in t.queues then t.order else t.order + [c],
          t.futures + [Waiting])
  }

  function Pop(t: Table, c: Cmd, outcome: Future): Table {
    var q := Queue(t.queues, c);
    if q == [] then t
    else Table(t.queues[c := q[1..]], t.order, Settle(t.futures, q[0], outcome))
  }

  /** The first reply type, in dict order, that somebody waits for. */
  function FirstBusy(queues: map<Cmd, seq<nat>>, order: seq<Cmd>): (first: Option<Cmd>)
    ensures first.Some? ==> first.value in order && Queue(queues, first.value) != []
    ensures first.None? ==> forall c :: c in order ==> Queue(queues, c) == []
  {
    if order == [] then None
    else if Queue(queues, order[0]) != [] then Some(order[0])
    else FirstBusy(queues, order[1..])
  }

  /** Queue `i` of the order is the first that is not empty. */
  predicate FirstInLine(queues: map<Cmd, seq<nat>>, order: seq<Cmd>, i: nat) {
    i < |order| && Queue(queues, order[i]) != [] && forall j :: 0 <= j < i ==> Queue(queues, order[j]) == []
  }

  predicate InFront(queues: map<Cmd, seq<nat>>, order: seq<Cmd>, c: Cmd) {
    exists i :: 0 <= i < |order| && order[i] == c && FirstInLine(queues, order, i)
  }

  predicate NobodyInLine(queues: map<Cmd, seq<nat>>, order: seq<Cmd>) {
    forall i :: 0 <= i < |order| ==> Queue(queues, order[i]) == []
  }

  lemma {:induction false} FirstInLineIsBusy(queues: map<Cmd, seq<nat>>, order: seq<Cmd>, i: nat)
    requires FirstInLine(queues, order, i)
    ensures FirstBusy(queues, order) == Some(order[i])
  {
    hide Queue;
    if i > 0 {
      assert Queue(queues, order[0]) == [];
      assert forall j :: 0 <= j < i - 1 ==> order[1..][j] == order[j + 1];
      FirstInLineIsBusy(queues, order[1..], i - 1);
    }
  }

  lemma {:induction false} BusyIsFirstInLine(queues: map<Cmd, seq<nat>>, order: seq<Cmd>) returns (i: nat)
    requires FirstBusy(queues, order).Some?
    ensures FirstInLine(queues, order, i) && order[i] == FirstBusy(queues, order).value
  {
    hide Queue;
    if Queue(queues, order[0]) != [] {
      i := 0;
    } else {
      var k := BusyIsFirstInLine(queues, order[1..]);
      i := k + 1;
      forall j | 0 <= j < i ensures Queue(queues, order[j]) == [] {
        if j > 0 {
          assert order[1..][j - 1] == order[j];
        }
      }
    }
  }

  /** The busy queue that an error takes from is exactly the first non-empty one of the order. */
  lemma FirstBusyIff(queues: map<Cmd, seq<nat>>, order: seq<Cmd>, c: Cmd)
    ensures FirstBusy(queues, order) == Some(c) <==> InFront(queues, order, c)
    ensures FirstBusy(queues, order) == None <==> NobodyInLine(queues, order)
  {
    hide FirstBusy, Queue;
    if FirstBusy(queues, order).Some? {
      var i := BusyIsFirstInLine(queues, order);
      assert 0 <= i < |order|;
    }
    if InFront(queues, order, c) {
      var i :| 0 <= i < |order| && order[i] == c && FirstInLine(queues, order, i);
      FirstInLineIsBusy(queues, order, i);
    }
    assert forall i :: 0 <= i < |order| ==> order[i] in order;
  }

  function FailFirst(t: Table, error: string): Table {
    match FirstBusy(t.queues, t.order)
    case None => t
    case Some(c) => Pop(t, c, Failed(error))
  }

  function Forget(t: Table, c: Cmd, f: nat): Table {
    Table(t.queues[c := RemoveFirst(Queue(t.queues, c), f)], t.order, Settle(t.futures, f, TimedOut))
  }

  /** `f` is in one of the first `n` queues. */
  predicate QueuedIn(t: Table, f: nat, n: nat)
    requires n <= |t.order|
  {
    exists i :: 0 <= i < n && f in Queue(t.queues, t.order[i])
  }

  const CONNECTION_CLOSED := "connection closed"

  /** Everybody still waiting in a queue fails. */
  function CloseAll(t: Table): Table {
    Table(map c | c in t.queues :: [], t.order,
          seq(|t.futures|, f requires 0 <= f < |t.futures| =>
            if t.futures[f].Waiting? && QueuedIn(t, f, |t.order|) then Failed(CONNECTION_CLOSED) else t.futures[f]))
  }

  /** The head of queue `i` has left it and, if it waited, has failed; everything else is as it was. */
  predicate HeadFailed(t: Table, u: Table, i: nat, error: string)
    requires FirstInLine(t.queues, t.order, i)
  {
    var c, f := t.order[i], Queue(t.queues, t.order[i])[0];
    && u.order == t.order && u.queues == t.queues[c := Queue(t.queues, c)[1..]] && |u.futures| == |t.futures|
    && forall g :: 0 <= g < |t.futures| ==>
         u.futures[g] == if g == f && t.futures[g].Waiting? then Failed(error) else t.futures[g]
  }

  lemma FailsFirstInLine(t: Table, error: string)
    ensures NobodyInLine(t.queues, t.order) ==> FailFirst(t, error) == t
    ensures forall i: nat :: FirstInLine(t.queues, t.order, i) ==> HeadFailed(t, FailFirst(t, error), i, error)
  {
    hide FirstBusy, FirstInLine;
    FirstBusyIff(t.queues, t.order, 0);
    forall i: nat | FirstInLine(t.queues, t.order, i) ensures HeadFailed(t, FailFirst(t, error), i, error) {
      FirstInLineIsBusy(t.queues, t.order, i);
    }
  }

  // ---- the connection's methods ----

  class PilotConnection {
    var queues: map<Cmd, seq<nat>>
    var order: seq<Cmd>
    var futures: seq<Future>

    ghost predicate Valid()
      reads this
    {
      (forall c :: c in order <==> c in queues) && NoDup(order)
    }

    function State(): Table
      reads this
    {
      Table(queues, order, futures)
    }

    constructor ()
      ensures Valid() && State() == EMPTY
    {
      queues, order, futures := map[], [], [];
    }

    /** `_request` up to its await: the future joins the queue in the same step as the bytes are written. */
    method Request(kind: Cmd) returns (f: nat)
      requires Valid()
      modifies this
      ensures Valid() && State() == Enqueue(old(State()), kind) && f == |old(futures)|
    {
      f := |futures|;
      futures := futures + [Waiting];
      if kind !in queues {
        queues := queues[kind := []];
        order := order + [kind];
      }
      queues := queues[kind := queues[kind] + [f]];
    }

    /** `_deliver_to_waiter` */
    method DeliverToWaiter(cmd: Cmd, payload: bytes)
      requires Valid()
      modifies this
      ensures Valid() && State() == Pop(old(State()), cmd, Result(payload))
    {
      if cmd !in queues || queues[cmd] == [] {
        return;
      }
      var f := queues[cmd][0];
      queues := queues[cmd := queues[cmd][1..]];
      futures := Settle(futures, f, Result(payload));
    }

    /** `_fail_oldest_waiter` */
    method FailOldestWaiter(error: string)
      requires Valid()
      modifies this
      ensures Valid() && State() == FailFirst(old(State()), error)
      ensures NobodyInLine(old(queues), old(order)) ==> State() == old(State())
      ensures forall i: nat :: FirstInLine(old(queues), old(order), i) ==> HeadFailed(old(State()), State(), i, error)
    {
      hide FirstBusy, HeadFailed;
      FailsFirstInLine(State(), error);
      for i := 0 to |order|
        invariant State() == old(State())
        invariant forall j :: 0 <= j < i ==> Queue(queues, order[j]) == []
      {
        var c := order[i];
        if queues[c] != [] {
          FirstInLineIsBusy(queues, order, i);
          var f := queues[c][0];
          queues := queues[c := queues[c][1..]];
          futures := Settle(futures, f, Failed(error));
          return;
        }
      }
    }

    /** The task that awaits the future is cancelled. */
    method Cancel(f: nat)
      requires Valid()
      modifies this
      ensures Valid() && State() == old(State()).(futures := Settle(old(futures), f, Cancelled))
    {
      futures := Settle(futures, f, Cancelled);
    }

    /** `wait_for` expires: the future is taken out of its queue. */
    method TimeOut(kind: Cmd, f: nat)
      requires Valid() && kind in queues
      modifies this
      ensures Valid() && State() == Forget(old(State()), kind, f)
      ensures NoDup(old(queues)[kind]) ==> forall g :: g in queues[kind] <==> g in old(queues)[kind] && g != f
      ensures forall c :: c != kind ==> Queue(queues, c) == Queue(old(queues), c)
    {
      if NoDup(queues[kind]) {
        RemoveFirstIsWithout(queues[kind], f);
      }
      futures := Settle(futures, f, TimedOut);
      queues := queues[kind := RemoveFirst(queues[kind], f)];
    }

    /** The inner loop of `close`. */
    method FailAll(cmd: Cmd)
      requires Valid() && cmd in queues
      modifies this
      ensures Valid() && order == old(order) && queues == old(queues)[cmd := []] && |futures| == |old(futures)|
      ensures forall f :: 0 <= f < |futures| ==>
        var was := old(futures)[f];
        futures[f] == if was.Waiting? && f in old(queues)[cmd] then Failed(CONNECTION_CLOSED) else was
    {
      ghost var done := [];
      while queues[cmd] != []
        invariant Valid() && order == old(order) && cmd in queues && |futures| == |old(futures)|
        invariant queues == old(queues)[cmd := queues[cmd]] && old(queues)[cmd] == done + queues[cmd]
        invariant forall f :: 0 <= f < |futures| ==>
          futures[f] == if old(futures)[f].Waiting? && f in done then Failed(CONNECTION_CLOSED) else old(futures)[f]
        decreases |queues[cmd]|
      {
        done := done + [queues[cmd][0]];
        futures := Settle(futures, queues[cmd][0], Failed(CONNECTION_CLOSED));
        queues := queues[cmd := queues[cmd][1..]];
      }
    }

    /** `close`, as far as the waiters go. */
    method Close()
      requires Valid()
      modifies this
      ensures Valid() && State() == CloseAll(old(State()))
    {
      ghost var t := State();
      for i := 0 to |order|
        invariant Valid() && order == t.order && queues.Keys == t.queues.Keys && |futures| == |t.futures|
        invariant forall k :: 0 <= k < i ==> queues[order[k]] == []
        invariant forall k :: i <= k < |order| ==> queues[order[k]] == t.queues[order[k]]
        invariant forall f :: 0 <= f < |futures| ==>
          futures[f] == if t.futures[f].Waiting? && QueuedIn(t, f, i) then Failed(CONNECTION_CLOSED) else t.futures[f]
      {
        assert order[i] in order;
        FailAll(order[i]);
      }
      assert queues == CloseAll(t).queues;
    }
  }

  // ---- the connection and its daemon ----

  /** `owed` holds the requests the daemon has not answered, per reply type and oldest first. */
  datatype System = System(table: Table, owed: map<Cmd, seq<nat>>, expects: seq<Cmd>)

  /** `Reply` and `Error` name the request the daemon answers; `Push` is a message nobody requested, and `Stray` an
      error that answers no request, such as one about a failed send. */
  datatype Step =
    | Request(kind: Cmd)
    | Cancel(f: nat)
    | TimeOut(f: nat)
    | Reply(f: nat, payload: bytes)
    | Error(f: nat, error: string)
    | Push(cmd: Cmd, payload: bytes)
    | Stray(error: string)

  const START := System(EMPTY, map[], [])

  /** The daemon answers the oldest request of a reply type; nobody ever waits for a pushed type. */
  predicate Legal(s: System, a: Step) {
    match a
    case Request(_) => true
    case Cancel(f) => f < |s.expects|
    case TimeOut(f) => f < |s.expects| && f < |s.table.futures| && s.table.futures[f].Waiting?
    case Reply(f, _) => Answers(s, f)
    case Error(f, _) => Answers(s, f)
    case Push(cmd, _) => cmd !in s.expects
    case Stray(_) => true
  }

  predicate Answers(s: System, f: nat) {
    f < |s.expects| && var q := Queue(s.owed, s.expects[f]); q != [] && q[0] == f
  }

  function Answered(s: System, f: nat): map<Cmd, seq<nat>>
    requires Answers(s, f)
  {
    s.owed[s.expects[f] := Queue(s.owed, s.expects[f])[1..]]
  }

  function Apply(s: System, a: Step): System
    requires Legal(s, a)
  {
    match a
    case Request(c) => System(Enqueue(s.table, c), s.owed[c := Queue(s.owed, c) + [|s.table.futures|]], s.expects + [c])
    case Cancel(f) => s.(table := s.table.(futures := Settle(s.table.futures, f, Cancelled)))
    case TimeOut(f) => s.(table := Forget(s.table, s.expects[f], f))
    case Reply(f, p) => s.(table := Pop(s.table, s.expects[f], Result(p)), owed := Answered(s, f))
    case Error(f, e) => s.(table := FailFirst(s.table, e), owed := Answered(s, f))
    case Push(c, p) => s.(table := Pop(s.table, c, Result(p)))
    case Stray(e) => s.(table := FailFirst(s.table, e))
  }

  // ---- alignment ----

  predicate Lapsed(futures: seq<Future>, f: nat) {
    f < |futures| && futures[f].TimedOut?
  }

  /** The requests of a queue that have not timed out. */
  function Live(q: seq<nat>, futures: seq<Future>): seq<nat> {
    if q == [] then []
    else (if Lapsed(futures, q[0]) then [] else [q[0]]) + Live(q[1..], futures)
  }

  /** Distinct requests of one reply type. */
  predicate OfType(q: seq<nat>, c: Cmd, expects: seq<Cmd>) {
    NoDup(q) && forall i :: 0 <= i < |q| ==> q[i] < |expects| && expects[q[i]] == c
  }

  ghost predicate OwedOk(owed: map<Cmd, seq<nat>>, expects: seq<Cmd>) {
    forall c :: OfType(Queue(owed, c), c, expects)
  }

  predicate OrderOk(t: Table) {
    (forall c <- t.order :: c in t.queues) && (forall c <- t.queues :: c in t.order) && NoDup(t.order)
  }

  /** What holds of every reachable state, aligned or not. */
  ghost predicate Booked(s: System) {
    && |s.expects| == |s.table.futures| && OrderOk(s.table) && OwedOk(s.owed, s.expects)
    && forall c <- s.expects :: c in s.table.queues
  }

  /** Each waiter queue holds exactly the live requests the daemon still owes, in the same order. */
  ghost predicate Aligned(s: System) {
    forall c :: Queue(s.table.queues, c) == Live(Queue(s.owed, c), s.table.futures)
  }

  /** When an answer cannot reach a stranger: a reply to a timed-out request finds its queue empty; an error's own
      queue is the first busy one, or nobody waits at all; an error that answers nothing finds nobody waiting. */
  predicate Safe(s: System, a: Step) {
    match a
    case Reply(f, _) => Lapsed(s.table.futures, f) && f < |s.expects| ==> Queue(s.table.queues, s.expects[f]) == []
    case Error(f, _) =>
      if Lapsed(s.table.futures, f) || f >= |s.expects| then NobodyInLine(s.table.queues, s.table.order)
      else InFront(s.table.queues, s.table.order, s.expects[f])
    case Stray(_) => NobodyInLine(s.table.queues, s.table.order)
    case _ => true
  }

  predicate LegalRun(s: System, steps: seq<Step>)
    decreases |steps|
  {
    steps != [] ==> Legal(s, steps[0]) && LegalRun(Apply(s, steps[0]), steps[1..])
  }

  function Run(s: System, steps: seq<Step>): System
    requires LegalRun(s, steps)
    decreases |steps|
  {
    if steps == [] then s else Run(Apply(s, steps[0]), steps[1..])
  }

  /** Every step is safe in the state it meets. */
  predicate SafeRun(s: System, steps: seq<Step>)
    requires LegalRun(s, steps)
    decreases |steps|
  {
    steps != [] ==> Safe(s, steps[0]) && SafeRun(Apply(s, steps[0]), steps[1..])
  }

  ghost predicate AlignedThroughout(s: System, steps: seq<Step>)
    requires LegalRun(s, steps)
    decreases |steps|
  {
    Aligned(s) && (steps != [] ==> AlignedThroughout(Apply(s, steps[0]), steps[1..]))
  }

  /** What a step means for future `f` alone: its own cancellation, timeout or answer. */
  function Means(a: Step, f: nat, now: Future): Future {
    if !now.Waiting? then now
    else match a
      case Cancel(g) => if g == f then Cancelled else now
      case TimeOut(g) => if g == f then TimedOut else now
      case Reply(g, p) => if g == f then Result(p) else now
      case Error(g, e) => if g == f then Failed(e) else now
      case _ => now
  }

  /** How future `f` should end: by the first of its own cancellation, timeout and answer. */
  function Fate(steps: seq<Step>, f: nat, now: Future): Future {
    if steps == [] then now else Fate(steps[1..], f, Means(steps[0], f, now))
  }

  function Now(futures: seq<Future>, f: nat): Future {
    if f < |futures| then futures[f] else Waiting
  }

  // ---- live requests ----

  lemma {:induction false} LiveAppend(a: seq<nat>, b: seq<nat>, futures: seq<Future>)
    ensures Live(a + b, futures) == Live(a, futures) + Live(b, futures)
  {
    hide Lapsed;
    if a == [] {
      assert a + b == b;
    } else {
      LiveAppend(a[1..], b, futures);
      var ab := a + b;
      assert ab[0] == a[0] && ab[1..] == a[1..] + b;
      var head := if Lapsed(futures, a[0]) then [] else [a[0]];
      assert Live(ab, futures) == head + Live(a[1..] + b, futures);
      assert Live(a, futures) == head + Live(a[1..], futures);
      hide Live;
      Associate(head, Live(a[1..], futures), Live(b, futures));
    }
  }

  lemma {:induction false} LiveSame(q: seq<nat>, a: seq<Future>, b: seq<Future>)
    requires forall i :: 0 <= i < |q| ==> Lapsed(a, q[i]) == Lapsed(b, q[i])
    ensures Live(q, a) == Live(q, b)
  {
    hide Lapsed;
    if q != [] {
      assert forall i :: 0 <= i < |q| - 1 ==> q[1..][i] == q[i + 1];
      LiveSame(q[1..], a, b);
    }
  }

  lemma {:induction false} LiveMembers(q: seq<nat>, futures: seq<Future>)
    ensures forall x :: x in Live(q, futures) <==> x in q && !Lapsed(futures, x)
  {
    hide Lapsed;
    if q != [] {
      LiveMembers(q[1..], futures);
      var rest := Live(q[1..], futures);
      assert Live(q, futures) == if Lapsed(futures, q[0]) then rest else [q[0]] + rest;
      forall x ensures x in Live(q, futures) <==> x in q && !Lapsed(futures, x) {
        assert x in q <==> x == q[0] || x in q[1..];
        assert x in rest <==> x in q[1..] && !Lapsed(futures, x);
        assert x in [q[0]] + rest <==> x == q[0] || x in rest;
      }
    }
  }

  lemma {:induction false} LiveNoDup(q: seq<nat>, futures: seq<Future>)
    requires NoDup(q)
    ensures NoDup(Live(q, futures))
  {
    hide Lapsed;
    if q != [] {
      var rest := Live(q[1..], futures);
      LiveNoDup(q[1..], futures);
      LiveMembers(q[1..], futures);
      assert q[0] !in q[1..];
      assert q[0] !in rest;
      assert Live(q, futures) == if Lapsed(futures, q[0]) then rest else [q[0]] + rest;
    }
  }

  lemma {:induction false} LiveTimeOut(q: seq<nat>, futures: seq<Future>, f: nat)
    requires f < |futures|
    ensures Live(q, futures[f := TimedOut]) == Without(Live(q, futures), f)
  {
    if q != [] {
      LiveTimeOut(q[1..], futures, f);
      var head := if Lapsed(futures, q[0]) then [] else [q[0]];
      WithoutAppend(head, Live(q[1..], futures), f);
      assert [q[0]][1..] == [];
    }
  }

  lemma SettleKeepsLive(q: seq<nat>, futures: seq<Future>, f: nat, outcome: Future)
    requires !outcome.TimedOut?
    ensures Live(q, Settle(futures, f, outcome)) == Live(q, futures)
  {
    LiveSame(q, Settle(futures, f, outcome), futures);
  }

  // ---- one step ----

  lemma OfTypeMore(q: seq<nat>, c: Cmd, expects: seq<Cmd>, d: Cmd)
    requires OfType(q, c, expects)
    ensures OfType(q, c, expects + [d])
    ensures OfType(q + [|expects|], c, expects + [c])
  {
  }

  lemma OwedMore(owed: map<Cmd, seq<nat>>, expects: seq<Cmd>, c: Cmd)
    requires OwedOk(owed, expects)
    ensures OwedOk(owed[c := Queue(owed, c) + [|expects|]], expects + [c])
  {
    hide OfType;
    var more := owed[c := Queue(owed, c) + [|expects|]];
    forall k ensures OfType(Queue(more, k), k, expects + [c]) {
      OfTypeMore(Queue(owed, k), k, expects, c);
    }
  }

  lemma OwedLess(s: System, f: nat)
    requires OwedOk(s.owed, s.expects) && Answers(s, f)
    ensures OwedOk(Answered(s, f), s.expects)
  {
    forall k ensures OfType(Queue(Answered(s, f), k), k, s.expects) {
      assert OfType(Queue(s.owed, k), k, s.expects);
    }
  }

  lemma BookedStep(s: System, a: Step)
    requires Booked(s) && Legal(s, a)
    ensures Booked(Apply(s, a))
  {
    hide OwedOk, Settle, FirstBusy;
    match a
    case Request(c) => OwedMore(s.owed, s.expects, c);
    case Reply(f, _) => OwedLess(s, f);
    case Error(f, _) => OwedLess(s, f);
    case TimeOut(f) => assert s.expects[f] in s.expects;
    case _ =>
  }

  /** What an answer leaves owed: one live request fewer, unless its request had timed out. */
  lemma AnsweredLive(s: System, f: nat, futures: seq<Future>)
    requires Answers(s, f)
    ensures forall c :: (var q := Live(Queue(s.owed, c), futures);
      Live(Queue(Answered(s, f), c), futures) == if c == s.expects[f] && !Lapsed(futures, f) then q[1..] else q)
    ensures !Lapsed(futures, f) ==>
              var q := Live(Queue(s.owed, s.expects[f]), futures); q != [] && q[0] == f
  {
    hide Lapsed;
  }

  lemma RequestAligned(s: System, c: Cmd)
    requires Booked(s) && Aligned(s)
    ensures Aligned(Apply(s, Request(c)))
  {
    var n, t := |s.table.futures|, Apply(s, Request(c));
    forall k ensures Queue(t.table.queues, k) == Live(Queue(t.owed, k), t.table.futures) {
      assert OfType(Queue(s.owed, k), k, s.expects);
      LiveSame(Queue(s.owed, k), s.table.futures, t.table.futures);
      LiveAppend(Queue(s.owed, c), [n], t.table.futures);
      assert [n][1..] == [];
    }
  }

  lemma TimeOutAligned(s: System, f: nat)
    requires Booked(s) && Aligned(s) && Legal(s, TimeOut(f))
    ensures Aligned(Apply(s, TimeOut(f)))
  {
    hide Live;
    var c, t := s.expects[f], Apply(s, TimeOut(f));
    forall k ensures Queue(t.table.queues, k) == Live(Queue(t.owed, k), t.table.futures) {
      assert OfType(Queue(s.owed, k), k, s.expects);
      var q := Live(Queue(s.owed, k), s.table.futures);
      LiveTimeOut(Queue(s.owed, k), s.table.futures, f);
      LiveMembers(Queue(s.owed, k), s.table.futures);
      LiveNoDup(Queue(s.owed, k), s.table.futures);
      RemoveFirstIsWithout(q, f);
      if k != c {
        WithoutAbsent(q, f);
      }
    }
  }

  /** Popping the head of the queue `c` for an answer to `f` keeps alignment exactly when that head is `f`. */
  lemma PopAlignedIff(s: System, c: Cmd, f: nat, outcome: Future)
    requires Booked(s) && Aligned(s) && Answers(s, f) && !outcome.TimedOut?
    requires Queue(s.table.queues, c) != []
    ensures Aligned(s.(table := Pop(s.table, c, outcome), owed := Answered(s, f)))
       <==> c == s.expects[f] && !Lapsed(s.table.futures, f)
  {
    hide Live, Settle, Lapsed;
    var t := s.(table := Pop(s.table, c, outcome), owed := Answered(s, f));
    AnsweredLive(s, f, s.table.futures);
    forall k ensures Live(Queue(t.owed, k), t.table.futures) == Live(Queue(t.owed, k), s.table.futures) {
      SettleKeepsLive(Queue(t.owed, k), s.table.futures, Queue(s.table.queues, c)[0], outcome);
    }
    assert |Queue(t.table.queues, c)| == |Queue(s.table.queues, c)| - 1;
    var own := c == s.expects[f] && !Lapsed(s.table.futures, f);
    assert |Live(Queue(t.owed, c), t.table.futures)| == |Queue(s.table.queues, c)| - if own then 1 else 0;
  }

  /** An error that answers nothing takes somebody out of line as soon as there is somebody. */
  lemma StrayMisaligns(s: System, c: Cmd, outcome: Future)
    requires Aligned(s) && !outcome.TimedOut? && Queue(s.table.queues, c) != []
    ensures !Aligned(s.(table := Pop(s.table, c, outcome)))
  {
    hide Live, Settle;
    var t := Pop(s.table, c, outcome);
    SettleKeepsLive(Queue(s.owed, c), s.table.futures, Queue(s.table.queues, c)[0], outcome);
    assert |Queue(t.queues, c)| == |Queue(s.table.queues, c)| - 1;
  }

  /** A step keeps the waiters aligned with what the daemon owes if and only if it is safe. */
  lemma StepAlignedIff(s: System, a: Step)
    requires Booked(s) && Aligned(s) && Legal(s, a)
    ensures Aligned(Apply(s, a)) <==> Safe(s, a)
  {
    hide Live, Settle, FirstBusy, Lapsed, FirstInLine, InFront, NobodyInLine;
    match a
    case Request(c) => RequestAligned(s, c);
    case TimeOut(f) => TimeOutAligned(s, f);
    case Cancel(f) =>
      forall k ensures Live(Queue(s.owed, k), Apply(s, a).table.futures) == Live(Queue(s.owed, k), s.table.futures) {
        SettleKeepsLive(Queue(s.owed, k), s.table.futures, f, Cancelled);
      }
    case Reply(f, p) =>
      AnsweredLive(s, f, s.table.futures);
      if Queue(s.table.queues, s.expects[f]) != [] {
        PopAlignedIff(s, s.expects[f], f, Result(p));
      }
    case Error(f, e) =>
      AnsweredLive(s, f, s.table.futures);
      var first := FirstBusy(s.table.queues, s.table.order);
      FirstBusyIff(s.table.queues, s.table.order, s.expects[f]);
      if first.Some? {
        PopAlignedIff(s, first.value, f, Failed(e));
      } else {
        NobodyWaits(s.table);
      }
    case Push(c, p) => PushedHasNoQueue(s, c);
    case Stray(e) =>
      var first := FirstBusy(s.table.queues, s.table.order);
      FirstBusyIff(s.table.queues, s.table.order, 0);
      if first.Some? {
        StrayMisaligns(s, first.value, Failed(e));
      }
  }

  lemma NobodyWaits(t: Table)
    requires OrderOk(t) && FirstBusy(t.queues, t.order).None?
    ensures forall c :: Queue(t.queues, c) == []
  {
    hide FirstBusy;
  }

  lemma PushedHasNoQueue(s: System, c: Cmd)
    requires Booked(s) && Aligned(s) && c !in s.expects
    ensures Queue(s.table.queues, c) == []
  {
    assert OfType(Queue(s.owed, c), c, s.expects);
    TypeKnown(Queue(s.owed, c), c, s.expects);
  }

  lemma TypeKnown(q: seq<nat>, c: Cmd, expects: seq<Cmd>)
    requires OfType(q, c, expects)
    ensures q != [] ==> c in expects
  {
    if q != [] {
      assert expects[q[0]] == c;
    }
  }

  lemma SafeBusy(s: System, a: Step)
    requires Legal(s, a) && Safe(s, a)
    ensures a.Stray? || (a.Error? && Lapsed(s.table.futures, a.f)) ==> FirstBusy(s.table.queues, s.table.order) == None
    ensures a.Error? && !Lapsed(s.table.futures, a.f) ==>
              FirstBusy(s.table.queues, s.table.order) == Some(s.expects[a.f])
  {
    hide FirstBusy, InFront, NobodyInLine, Queue;
    FirstBusyIff(s.table.queues, s.table.order, if a.Error? then s.expects[a.f] else 0);
  }

  lemma UnsafeBusy(s: System, a: Step)
    requires Legal(s, a) && !Safe(s, a)
    ensures a.Stray? || (a.Error? && Lapsed(s.table.futures, a.f)) ==> FirstBusy(s.table.queues, s.table.order) != None
    ensures a.Error? && !Lapsed(s.table.futures, a.f) ==>
              FirstBusy(s.table.queues, s.table.order) != Some(s.expects[a.f])
  {
    hide FirstBusy, InFront, NobodyInLine, Queue;
    FirstBusyIff(s.table.queues, s.table.order, if a.Error? then s.expects[a.f] else 0);
  }

  lemma PopMeans(t: Table, c: Cmd, outcome: Future, f: nat)
    requires f < |t.futures|
    ensures var u := Pop(t, c, outcome);
            |u.futures| == |t.futures| &&
            u.futures[f] ==
              if Queue(t.queues, c) != [] && Queue(t.queues, c)[0] == f && t.futures[f].Waiting? then outcome
              else t.futures[f]
  {
  }

  /** A safe step does to each future exactly what it means for it. */
  lemma StepMeans(s: System, a: Step, f: nat)
    requires Booked(s) && Aligned(s) && Legal(s, a) && Safe(s, a) && f < |Apply(s, a).table.futures|
    ensures Apply(s, a).table.futures[f] == Means(a, f, Now(s.table.futures, f))
  {
    SafeBusy(s, a);
    match a
    case Reply(g, p) =>
      AnswerAtHead(s, g);
      hide Live, Aligned, Pop, OwedOk, OrderOk, Booked;
      PopKeepsCount(s.table, s.expects[g], Result(p));
      PopMeans(s.table, s.expects[g], Result(p), f);
    case Error(g, e) =>
      AnswerAtHead(s, g);
      hide Live, Aligned, Pop, OwedOk, OrderOk, Booked, FirstBusy, InFront, NobodyInLine, Safe;
      PopKeepsCount(s.table, s.expects[g], Failed(e));
      if !Lapsed(s.table.futures, g) {
        PopMeans(s.table, s.expects[g], Failed(e), f);
      }
    case Push(c, p) =>
      PushedHasNoQueue(s, c);
      hide Live, Aligned, Pop, OwedOk, OrderOk, Booked;
      PopKeepsCount(s.table, c, Result(p));
      PopMeans(s.table, c, Result(p), f);
    case Stray(_) => hide Live, Aligned, OwedOk, OrderOk, Booked, FirstBusy, InFront, NobodyInLine, Safe;
    case _ => hide Live, Aligned, OwedOk, OrderOk, FirstBusy;
  }

  lemma AnswerAtHead(s: System, f: nat)
    requires Aligned(s) && Answers(s, f)
    ensures !Lapsed(s.table.futures, f) ==>
              Queue(s.table.queues, s.expects[f]) != [] && Queue(s.table.queues, s.expects[f])[0] == f
  {
    hide Live;
    AnsweredLive(s, f, s.table.futures);
  }

  lemma PopKeepsCount(t: Table, c: Cmd, outcome: Future)
    ensures |Pop(t, c, outcome).futures| == |t.futures|
  {
  }

  // ---- whole runs ----

  /** In every interleaving, the waiters stay aligned with what the daemon owes if and only if every step is safe. */
  lemma {:induction false} AlignedIffSafe(s: System, steps: seq<Step>)
    requires Booked(s) && Aligned(s) && LegalRun(s, steps)
    ensures AlignedThroughout(s, steps) <==> SafeRun(s, steps)
    decreases |steps|
  {
    hide Booked, Aligned, Legal, Apply, Safe;
    if steps != [] {
      var t := Apply(s, steps[0]);
      BookedStep(s, steps[0]);
      StepAlignedIff(s, steps[0]);
      if Aligned(t) {
        AlignedIffSafe(t, steps[1..]);
      }
    }
  }

  /** And then every request ends by its own cancellation, timeout or answer, whatever the other requests do. */
  lemma {:induction false} EveryFateIsOwn(s: System, steps: seq<Step>, f: nat)
    requires Booked(s) && Aligned(s) && LegalRun(s, steps) && SafeRun(s, steps)
    ensures Now(Run(s, steps).table.futures, f) == Fate(steps, f, Now(s.table.futures, f))
    decreases |steps|
  {
    hide Booked, Aligned, Legal, Apply, Safe, Means;
    if steps != [] {
      var t := Apply(s, steps[0]);
      BookedStep(s, steps[0]);
      StepAlignedIff(s, steps[0]);
      NowMeans(s, steps[0], f);
      EveryFateIsOwn(t, steps[1..], f);
    }
  }

  lemma NowMeans(s: System, a: Step, f: nat)
    requires Booked(s) && Aligned(s) && Legal(s, a) && Safe(s, a)
    ensures Now(Apply(s, a).table.futures, f) == Means(a, f, Now(s.table.futures, f))
  {
    hide Aligned, Safe, Live, FirstBusy, Settle;
    if f < |Apply(s, a).table.futures| {
      StepMeans(s, a, f);
    } else {
      BookedStep(s, a);
    }
  }

  /** `u` is `t` with `g` taken from the head of its queue and, if it was waiting, settled. */
  predicate Takes(t: Table, u: Table, g: nat) {
    exists i :: 0 <= i < |t.order| &&
      var c := t.order[i];
      Queue(t.queues, c) != [] && Queue(t.queues, c)[0] == g
      && Queue(u.queues, c) == Queue(t.queues, c)[1..]
      && (Now(t.futures, g).Waiting? ==> !Now(u.futures, g).Waiting?)
  }

  lemma PopTakes(s: System, c: Cmd, outcome: Future)
    requires Booked(s) && Aligned(s) && Queue(s.table.queues, c) != [] && !outcome.Waiting?
    ensures var g := Queue(s.table.queues, c)[0];
            && g < |s.expects| && s.expects[g] == c && !Lapsed(s.table.futures, g)
            && Takes(s.table, Pop(s.table, c, outcome), g)
  {
    hide Live;
    var g, t := Queue(s.table.queues, c)[0], s.table;
    LiveMembers(Queue(s.owed, c), t.futures);
    assert OfType(Queue(s.owed, c), c, s.expects);
    assert g in Live(Queue(s.owed, c), t.futures);
    assert g in Queue(s.owed, c);
    assert c in t.order;
    var i :| 0 <= i < |t.order| && t.order[i] == c;
    assert t.order[i] == c;
  }

  /** An unsafe answer is a stranger's: the future it settles, if it was waiting, was not the one answered. */
  lemma UnsafeHitsStranger(s: System, a: Step)
    requires Booked(s) && Aligned(s) && Legal(s, a) && !Safe(s, a)
    ensures a.Reply? || a.Error? || a.Stray?
    ensures exists g: nat :: (a.Stray? || g != a.f) && Takes(s.table, Apply(s, a).table, g)
  {
    UnsafeBusy(s, a);
    hide Live, FirstBusy, InFront, NobodyInLine, Takes, Aligned, OwedOk, Pop;
    match a
    case Reply(f, p) =>
      PopTakes(s, s.expects[f], Result(p));
      StrangerTaken(s, a, s.expects[f], Result(p));
    case Error(f, e) =>
      AnsweredInOrder(s, f);
      var c := FirstBusy(s.table.queues, s.table.order).value;
      PopTakes(s, c, Failed(e));
      StrangerTaken(s, a, c, Failed(e));
    case Stray(e) =>
      var c := FirstBusy(s.table.queues, s.table.order).value;
      PopTakes(s, c, Failed(e));
      StrangerTaken(s, a, c, Failed(e));
  }

  lemma StrangerTaken(s: System, a: Step, c: Cmd, outcome: Future)
    requires Legal(s, a) && Queue(s.table.queues, c) != [] && Apply(s, a).table == Pop(s.table, c, outcome)
    requires Takes(s.table, Pop(s.table, c, outcome), Queue(s.table.queues, c)[0])
    requires a.Stray? || ((a.Reply? || a.Error?) && Queue(s.table.queues, c)[0] != a.f)
    ensures exists g: nat :: (a.Stray? || g != a.f) && Takes(s.table, Apply(s, a).table, g)
  {
    hide *;
    assert Takes(s.table, Apply(s, a).table, Queue(s.table.queues, c)[0]);
  }

  /** While its answer is owed a live request keeps its queue busy. */
  lemma AnsweredInOrder(s: System, f: nat)
    requires Booked(s) && Aligned(s) && Answers(s, f)
    ensures !Lapsed(s.table.futures, f) ==> FirstBusy(s.table.queues, s.table.order).Some?
  {
    hide FirstBusy, Live;
    AnsweredLive(s, f, s.table.futures);
    assert s.expects[f] in s.table.order;
  }

  // ---- when runs are safe ----

  /** No request timeout; the daemon answers with an error only while every request it owes expects the same reply type,
      and sends an error that answers nothing only while it owes none. */
  ghost predicate Tame(s: System, a: Step) {
    && !a.TimeOut? && (a.Stray? ==> forall c :: Queue(s.owed, c) == [])
    && (a.Error? && a.f < |s.expects| ==> forall c :: c != s.expects[a.f] ==> Queue(s.owed, c) == [])
  }

  ghost predicate TameRun(s: System, steps: seq<Step>)
    requires LegalRun(s, steps)
    decreases |steps|
  {
    steps != [] ==> Tame(s, steps[0]) && TameRun(Apply(s, steps[0]), steps[1..])
  }

  predicate NoneLapsed(s: System) {
    forall f :: 0 <= f < |s.table.futures| ==> !s.table.futures[f].TimedOut?
  }

  lemma StillNoneLapsed(s: System, a: Step)
    requires Legal(s, a) && NoneLapsed(s) && !a.TimeOut?
    ensures NoneLapsed(Apply(s, a))
  {
    hide FirstBusy, Queue;
  }

  lemma TameIsSafe(s: System, a: Step)
    requires Booked(s) && Aligned(s) && Legal(s, a) && NoneLapsed(s) && Tame(s, a)
    ensures Safe(s, a)
  {
    hide Live, FirstBusy, OwedOk, InFront, NobodyInLine, FirstInLine;
    if a.Error? {
      AnsweredLive(s, a.f, s.table.futures);
      OnlyBusy(s, a.f);
    } else if a.Stray? {
      NobodyOwed(s);
    }
  }

  lemma NobodyOwed(s: System)
    requires Aligned(s) && forall c :: Queue(s.owed, c) == []
    ensures NobodyInLine(s.table.queues, s.table.order)
  {
    assert Live([], s.table.futures) == [];
  }

  lemma OnlyBusy(s: System, f: nat)
    requires Aligned(s) && OrderOk(s.table) && f < |s.expects|
    requires Queue(s.table.queues, s.expects[f]) != []
    requires forall c :: c != s.expects[f] ==> Queue(s.owed, c) == []
    ensures InFront(s.table.queues, s.table.order, s.expects[f])
  {
    forall k | k != s.expects[f] ensures Queue(s.table.queues, k) == [] {
      assert Live([], s.table.futures) == [];
    }
    assert s.expects[f] in s.table.order;
    var i :| 0 <= i < |s.table.order| && s.table.order[i] == s.expects[f];
    assert FirstInLine(s.table.queues, s.table.order, i);
  }

  /** For every interleaving of requests, cancellations and daemon answers of that kind: each future ends as its own
      steps say. A reply resolves the request it answers, an error fails the request it answers, and a cancelled
      request swallows only its own answer. */
  lemma {:induction false} TameRunsRouteRight(s: System, steps: seq<Step>)
    requires Booked(s) && Aligned(s) && NoneLapsed(s) && LegalRun(s, steps) && TameRun(s, steps)
    ensures SafeRun(s, steps)
    decreases |steps|
  {
    hide Booked, Aligned, Legal, Apply, Safe, NoneLapsed, Tame;
    if steps != [] {
      TameIsSafe(s, steps[0]);
      NotTimeOut(s, steps[0]);
      BookedStep(s, steps[0]);
      StepAlignedIff(s, steps[0]);
      TameRunsRouteRight(Apply(s, steps[0]), steps[1..]);
    }
  }

  lemma NotTimeOut(s: System, a: Step)
    requires Legal(s, a) && NoneLapsed(s) && Tame(s, a)
    ensures NoneLapsed(Apply(s, a))
  {
    hide NoneLapsed, Legal, Apply;
    StillNoneLapsed(s, a);
  }

  lemma RepliesFindTheirRequests(steps: seq<Step>, f: nat)
    requires LegalRun(START, steps) && TameRun(START, steps)
    ensures AlignedThroughout(START, steps)
    ensures Now(Run(START, steps).table.futures, f) == Fate(steps, f, Waiting)
  {
    hide AlignedThroughout, SafeRun, TameRun, Run, Fate;
    StartOk();
    TameRunsRouteRight(START, steps);
    AlignedIffSafe(START, steps);
    EveryFateIsOwn(START, steps, f);
  }

  lemma StartOk()
    ensures Booked(START) && Aligned(START) && NoneLapsed(START)
  {
  }

  // ---- closing ----

  /** Nobody waits outside a queue. */
  ghost predicate Held(t: Table, expects: seq<Cmd>) {
    forall f :: 0 <= f < |t.futures| && f < |expects| && t.futures[f].Waiting? ==> f in Queue(t.queues, expects[f])
  }

  lemma PopHeld(t: Table, expects: seq<Cmd>, c: Cmd, outcome: Future)
    requires Held(t, expects) && !outcome.Waiting? && |expects| == |t.futures|
    requires InRange(t)
    ensures Held(Pop(t, c, outcome), expects) && InRange(Pop(t, c, outcome))
  {
    var q, u := Queue(t.queues, c), Pop(t, c, outcome);
    if q != [] {
      assert q == [q[0]] + q[1..];
      forall f | 0 <= f < |t.futures| && u.futures[f].Waiting? ensures f in Queue(u.queues, expects[f]) {
        assert f in Queue(t.queues, expects[f]);
      }
      forall k, x | x in Queue(u.queues, k) ensures x < |u.futures| {
        assert x in Queue(t.queues, k);
      }
    }
  }

  ghost predicate InRange(t: Table) {
    forall c, f :: f in Queue(t.queues, c) ==> f < |t.futures|
  }

  lemma RemoveFirstKeeps(q: seq<nat>, f: nat)
    ensures forall x :: x in q && x != f ==> x in RemoveFirst(q, f)
    ensures forall x :: x in RemoveFirst(q, f) ==> x in q
  {
    if f in q {
      var i := IndexOf(q, f);
      assert q == q[..i] + [f] + q[i + 1..];
    }
  }

  lemma EnqueueHeld(s: System, c: Cmd)
    requires Booked(s) && Held(s.table, s.expects) && InRange(s.table)
    ensures Held(Enqueue(s.table, c), s.expects + [c]) && InRange(Enqueue(s.table, c))
  {
    hide OwedOk;
    var t, u := s.table, Enqueue(s.table, c);
    forall k, x | x in Queue(u.queues, k) ensures x < |u.futures| {
      assert x in Queue(t.queues, k) || x == |t.futures|;
    }
    forall x | 0 <= x < |u.futures| && u.futures[x].Waiting? ensures x in Queue(u.queues, (s.expects + [c])[x]) {
      if x < |t.futures| {
        assert x in Queue(t.queues, s.expects[x]);
      }
    }
  }

  lemma ForgetHeld(s: System, f: nat)
    requires Booked(s) && Legal(s, TimeOut(f)) && Held(s.table, s.expects) && InRange(s.table)
    ensures Held(Apply(s, TimeOut(f)).table, s.expects) && InRange(Apply(s, TimeOut(f)).table)
  {
    hide FirstBusy, OwedOk, RemoveFirst;
    var c, t, u := s.expects[f], s.table, Apply(s, TimeOut(f)).table;
    RemoveFirstKeeps(Queue(t.queues, c), f);
    forall k, x | x in Queue(u.queues, k) ensures x < |u.futures| {
      assert x in Queue(t.queues, k);
    }
    forall x | 0 <= x < |u.futures| && u.futures[x].Waiting? ensures x in Queue(u.queues, s.expects[x]) {
      assert x in Queue(t.queues, s.expects[x]);
    }
  }

  /** In every run at all, safe or not, nobody waits outside a queue. */
  lemma HeldStep(s: System, a: Step)
    requires Booked(s) && Legal(s, a) && Held(s.table, s.expects) && InRange(s.table)
    ensures Held(Apply(s, a).table, Apply(s, a).expects) && InRange(Apply(s, a).table)
  {
    hide FirstBusy, OwedOk;
    match a
    case Request(c) => EnqueueHeld(s, c);
    case Cancel(f) =>
    case TimeOut(f) => ForgetHeld(s, f);
    case Reply(f, p) => PopHeld(s.table, s.expects, s.expects[f], Result(p));
    case Error(f, e) =>
      var first := FirstBusy(s.table.queues, s.table.order);
      if first.Some? {
        PopHeld(s.table, s.expects, first.value, Failed(e));
      }
    case Push(c, p) => PopHeld(s.table, s.expects, c, Result(p));
    case Stray(e) =>
      var first := FirstBusy(s.table.queues, s.table.order);
      if first.Some? {
        PopHeld(s.table, s.expects, first.value, Failed(e));
      }
  }

  lemma {:induction false} HeldRun(s: System, steps: seq<Step>)
    requires Booked(s) && LegalRun(s, steps) && Held(s.table, s.expects) && InRange(s.table)
    ensures var t := Run(s, steps); Booked(t) && Held(t.table, t.expects)
    decreases |steps|
  {
    hide Booked, Legal, Apply, Held, InRange;
    if steps != [] {
      BookedStep(s, steps[0]);
      HeldStep(s, steps[0]);
      HeldRun(Apply(s, steps[0]), steps[1..]);
    }
  }

  /** Whatever the run, with timeouts and misrouted errors too, `close` leaves nobody waiting, and changes nothing
      that had ended. */
  lemma CloseEndsEveryWait(steps: seq<Step>, f: nat)
    requires LegalRun(START, steps) && f < |Run(START, steps).table.futures|
    ensures var before, after := Run(START, steps).table, CloseAll(Run(START, steps).table);
            after.futures[f] == if before.futures[f].Waiting? then Failed(CONNECTION_CLOSED) else before.futures[f]
  {
    hide Run, LegalRun, OwedOk;
    StartOk();
    HeldRun(START, steps);
    var s := Run(START, steps);
    var t := s.table;
    if t.futures[f].Waiting? {
      assert f in Queue(t.queues, s.expects[f]);
      assert s.expects[f] in t.order;
      var i :| 0 <= i < |t.order| && t.order[i] == s.expects[f];
      assert QueuedIn(t, f, |t.order|);
    }
  }

  // ---- where the guarantee ends ----

  /** Two requests of different types; the daemon refuses the second. The first is failed: neither the oldest nor
      the refused one need come first in the dict. */
  lemma ErrorHitsFirstInDict(info: Cmd, dial: Cmd, e: string)
    requires info != dial
    ensures var steps := [Request(info), Request(dial), Error(1, e)];
            LegalRun(START, steps) &&
            Run(START, steps).table.futures == [Failed(e), Waiting] &&
            Fate(steps, 0, Waiting) == Waiting && Fate(steps, 1, Waiting) == Failed(e)
  {
    var a, b, c := Request(info), Request(dial), Step.Error(1, e);
    FirstRequest(info);
    var s1, q, o := Apply(START, a), map[info := [0], dial := [1]], [info, dial];
    var s2 := System(Table(q, o, [Waiting, Waiting]), q, o);
    assert Apply(s1, b) == s2 by {
      assert [] + [1] == [1];
      assert map[info := [0]][dial := [1]] == q && [info] + [dial] == o && [Waiting] + [Waiting] == [Waiting, Waiting];
    }
    assert Queue(q, info) == [0] && Queue(q, dial) == [1];
    assert FirstBusy(q, o) == Some(info);
    assert Apply(s2, c).table.futures == [Failed(e), Waiting];
    hide Run, LegalRun, Apply, Legal, Enqueue;
    RunStep(s2, c, []);
    RunStep(s1, b, [c]);
    RunStep(START, a, [b, c]);
    RunNone(Apply(s2, c));
    assert [c] + [] == [c] && [b] + [c] == [b, c] && [a] + [b, c] == [a, b, c];
    FatesOf3(a, b, c, 0);
    FatesOf3(a, b, c, 1);
  }

  lemma RunStep(s: System, a: Step, more: seq<Step>)
    requires Legal(s, a) && LegalRun(Apply(s, a), more)
    ensures LegalRun(s, [a] + more) && Run(s, [a] + more) == Run(Apply(s, a), more)
  {
    hide Legal, Apply;
    assert ([a] + more)[0] == a && ([a] + more)[1..] == more;
  }

  lemma RunNone(s: System)
    ensures LegalRun(s, []) && Run(s, []) == s
  {
  }

  lemma FatesOf3(a: Step, b: Step, c: Step, f: nat)
    ensures Fate([a, b, c], f, Waiting) == Means(c, f, Means(b, f, Means(a, f, Waiting)))
  {
    hide Means;
    assert [a, b, c][1..] == [b, c] && [b, c][1..] == [c] && [c][1..] == [];
    var last := Means(b, f, Means(a, f, Waiting));
    assert Fate([c], f, last) == Means(c, f, last);
    assert Fate([b, c], f, Means(a, f, Waiting)) == Fate([c], f, last);
  }

  lemma FirstRequest(c: Cmd)
    ensures Apply(START, Request(c)) == System(Table(map[c := [0]], [c], [Waiting]), map[c := [0]], [c])
  {
    assert [] + [0] == [0] && [] + [c] == [c] && [] + [Waiting] == [Waiting];
    var none: map<Cmd, seq<nat>> := map[];
    assert none[c := [0]] == map[c := [0]];
  }

  /** A request times out; its late reply resolves the next request of that type. */
  lemma LateReplyHitsNext(c: Cmd, late: bytes)
    ensures var steps := [Request(c), Request(c), TimeOut(0), Reply(0, late)];
            LegalRun(START, steps) &&
            Run(START, steps).table.futures == [TimedOut, Result(late)] &&
            Fate(steps, 1, Waiting) == Waiting
  {
    var a, b, d := Request(c), Step.TimeOut(0), Reply(0, late);
    FirstRequest(c);
    var s1, q := Apply(START, a), map[c := [0, 1]];
    var s2 := System(Table(q, [c], [Waiting, Waiting]), q, [c, c]);
    assert Apply(s1, a) == s2 by {
      assert [0] + [1] == [0, 1];
      assert map[c := [0]][c := [0, 1]] == q && [c] + [c] == [c, c] && [Waiting] + [Waiting] == [Waiting, Waiting];
    }
    var s3 := System(Table(map[c := [1]], [c], [TimedOut, Waiting]), q, [c, c]);
    assert Apply(s2, b) == s3 by {
      assert RemoveFirst([0, 1], 0) == [1];
      assert q[c := [1]] == map[c := [1]];
    }
    assert Apply(s3, d).table.futures == [TimedOut, Result(late)];
    hide Run, LegalRun, Apply, Legal, Enqueue;
    RunStep(s3, d, []);
    RunStep(s2, b, [d]);
    RunStep(s1, a, [b, d]);
    RunStep(START, a, [a, b, d]);
    RunNone(Apply(s3, d));
    assert [d] + [] == [d] && [b] + [d] == [b, d] && [a] + [b, d] == [a, b, d] && [a] + [a, b, d] == [a, a, b, d];
    assert [a, a, b, d][1..] == [a, b, d];
    FatesOf3(a, b, d, 1);
  }
}
