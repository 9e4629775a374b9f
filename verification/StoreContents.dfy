/** What the stores return, read off the operations that were put into them. */
module StoreContents {
  import opened Seqs
  import opened CheckpointStore
  import opened StoreBisimulation
  import opened RetriedStore

  // ---- the operations' own account ----

  /** A missing namespace is the empty one. */
  predicate Names(given: Option<string>, ns: string) {
    given == Some(ns) || (given == None && ns == "")
  }

  predicate PutsTo(op: Op, thread: string, ns: string) {
    op.Put? && op.thread == thread && Names(op.ns, ns)
  }

  predicate WritesTo(op: Op, thread: string, ns: string, cid: string) {
    op.PutWrites? && op.thread == thread && Names(op.ns, ns) && op.cid == cid
  }

  /** The last put to the thread and namespace. */
  function NewestPut(ops: seq<Op>, thread: string, ns: string): Option<Op> {
    if ops == [] then None
    else
      var op := ops[|ops| - 1];
      if PutsTo(op, thread, ns) then Some(op) else NewestPut(ops[..|ops| - 1], thread, ns)
  }

  /** The last put of that id. */
  function PutOf(ops: seq<Op>, thread: string, ns: string, cid: string): Option<Op> {
    if ops == [] then None
    else
      var op := ops[|ops| - 1];
      if PutsTo(op, thread, ns) && op.cid == cid then Some(op) else PutOf(ops[..|ops| - 1], thread, ns, cid)
  }

  predicate IsWrite(op: Op, thread: string, ns: string, cid: string, taskId: string, taskPath: string) {
    WritesTo(op, thread, ns, cid) && op.taskId == taskId && op.taskPath == taskPath
  }

  /** Whether the task has a write there. */
  predicate HasWritten(ops: seq<Op>, thread: string, ns: string, cid: string, taskId: string, taskPath: string) {
    exists i :: 0 <= i < |ops| && IsWrite(ops[i], thread, ns, cid, taskId, taskPath)
  }

  /** Each task's first write, in order. */
  function FirstWrites(ops: seq<Op>, thread: string, ns: string, cid: string): seq<Op> {
    if ops == [] then []
    else
      var before, op := ops[..|ops| - 1], ops[|ops| - 1];
      FirstWrites(before, thread, ns, cid) +
      if WritesTo(op, thread, ns, cid) && !HasWritten(before, thread, ns, cid, op.taskId, op.taskPath) then [op] else []
  }

  function PendingOf(ops: seq<Op>, thread: string, ns: string, cid: string): seq<Pending> {
    var ws := FirstWrites(ops, thread, ns, cid);
    AllWrites(ops, thread, ns, cid);
    seq(|ws|, i requires 0 <= i < |ws| => Pending(ws[i].taskId, "", ws[i].value))
  }

  lemma {:induction false} AllWrites(ops: seq<Op>, thread: string, ns: string, cid: string)
    ensures forall i :: 0 <= i < |FirstWrites(ops, thread, ns, cid)| ==> FirstWrites(ops, thread, ns, cid)[i].PutWrites?
  {
    if ops != [] {
      AllWrites(ops[..|ops| - 1], thread, ns, cid);
    }
  }

  /** The last put of each id, the newest first. */
  function Puts(ops: seq<Op>, thread: string, ns: string): seq<Op> {
    if ops == [] then []
    else
      var before, op := ops[..|ops| - 1], ops[|ops| - 1];
      if PutsTo(op, thread, ns) then [op] + Others(Puts(before, thread, ns), op.cid) else Puts(before, thread, ns)
  }

  /** The puts of other ids. */
  function Others(ps: seq<Op>, cid: string): seq<Op> {
    if ps == [] then []
    else (if ps[0].cid == cid then [] else [ps[0]]) + Others(ps[1..], cid)
  }

  function Cids(ps: seq<Op>): seq<string> {
    Map(ps, (op: Op) => op.cid)
  }

  // ---- the in-memory store keeps it ----

  predicate SameRecord(r: Record, p: Op) {
    p.Put? && r.parent == p.parent && r.checkpoint == p.checkpoint && r.metadata == p.metadata
  }

  /** The records under one key are the last puts of their ids. */
  ghost predicate RecordsKept(m: Mem, ops: seq<Op>, thread: string, ns: string) {
    forall cid ::
      var p := PutOf(ops, thread, ns, cid);
      if cid in m.Records(Key(thread, ns)) then p.Some? && SameRecord(m.Records(Key(thread, ns))[cid], p.value)
      else p.None?
  }

  predicate OrderKept(m: Mem, ops: seq<Op>, thread: string, ns: string) {
    Reverse(m.Order(Key(thread, ns))) == Cids(Puts(ops, thread, ns))
  }

  predicate SameWrite(w: Write, op: Op) {
    op.PutWrites? && w.taskId == op.taskId && w.taskPath == op.taskPath && w.value == op.value
  }

  predicate SameWrites(ws: seq<Write>, ops: seq<Op>) {
    |ws| == |ops| && forall i :: 0 <= i < |ws| ==> SameWrite(ws[i], ops[i])
  }

  /** The writes of one id are each task's first. */
  ghost predicate WritesKept(m: Mem, ops: seq<Op>, thread: string, ns: string) {
    forall cid ::
      && SameWrites(m.Writes(Key(thread, ns), cid), FirstWrites(ops, thread, ns, cid))
      && forall taskId, taskPath ::
           HasWrite(m.Writes(Key(thread, ns), cid), taskId, taskPath) <==>
           HasWritten(ops, thread, ns, cid, taskId, taskPath)
  }

  ghost predicate Keeps(m: Mem, ops: seq<Op>, thread: string, ns: string) {
    RecordsKept(m, ops, thread, ns) && OrderKept(m, ops, thread, ns) && WritesKept(m, ops, thread, ns)
  }

  lemma KeyIs(op: Op, thread: string, ns: string)
    ensures KeyOf(op) == Key(thread, ns) <==> op.thread == thread && Names(op.ns, ns)
  {
  }

  lemma Snoc(ops: seq<Op>, op: Op)
    ensures (ops + [op])[..|ops + [op]| - 1] == ops && (ops + [op])[|ops + [op]| - 1] == op
  {
  }

  lemma RecordsStep(m: Mem, ops: seq<Op>, op: Op, thread: string, ns: string)
    requires RecordsKept(m, ops, thread, ns)
    ensures RecordsKept(MemStep(m, op), ops + [op], thread, ns)
  {
    hide RemoveFirst, HasWrite;
    Snoc(ops, op);
    KeyIs(op, thread, ns);
    hide KeyOf, NsOf;
    var t, key := MemStep(m, op), Key(thread, ns);
    forall cid
      ensures var p := PutOf(ops + [op], thread, ns, cid);
              if cid in t.Records(key) then p.Some? && SameRecord(t.Records(key)[cid], p.value) else p.None?
    {
    }
  }

  lemma {:induction false} ReverseWithout(s: seq<string>, x: string)
    ensures Reverse(Without(s, x)) == Without(Reverse(s), x)
  {
    if s == [] {
      assert Reverse(s) == [];
    } else {
      var rest := s[1..];
      ReverseWithout(rest, x);
      var head := if s[0] == x then [] else [s[0]];
      assert Reverse(s) == Reverse(rest) + [s[0]];
      WithoutAppend(Reverse(rest), [s[0]], x);
      assert [s[0]][1..] == [];
      assert Reverse(head + Without(rest, x)) == Reverse(Without(rest, x)) + head;
    }
  }

  lemma {:induction false} OthersCids(ps: seq<Op>, cid: string)
    ensures Cids(Others(ps, cid)) == Without(Cids(ps), cid)
  {
    if ps != [] {
      OthersCids(ps[1..], cid);
      assert Cids(ps)[1..] == Cids(ps[1..]);
      var head := if ps[0].cid == cid then [] else [ps[0]];
      assert Cids(head + Others(ps[1..], cid)) == Cids(head) + Cids(Others(ps[1..], cid));
    } else {
      assert Cids(ps) == [];
    }
  }

  lemma OrderStep(m: Mem, ops: seq<Op>, op: Op, thread: string, ns: string)
    requires MemValid(m) && OrderKept(m, ops, thread, ns)
    ensures OrderKept(MemStep(m, op), ops + [op], thread, ns)
  {
    hide MemValid, Reverse, RemoveFirst, HasWrite, Without;
    Snoc(ops, op);
    KeyIs(op, thread, ns);
    hide KeyOf, NsOf;
    if PutsTo(op, thread, ns) {
      var order, ps := m.Order(Key(thread, ns)), Puts(ops, thread, ns);
      NoDupOf(m, Key(thread, ns));
      RemoveFirstIsWithout(order, op.cid);
      ReverseWithout(order, op.cid);
      OthersCids(ps, op.cid);
      ReverseSnoc(Without(order, op.cid), op.cid);
      assert Cids([op] + Others(ps, op.cid)) == [op.cid] + Cids(Others(ps, op.cid));
    }
  }

  lemma ReverseSnoc(s: seq<string>, x: string)
    ensures Reverse(s + [x]) == [x] + Reverse(s)
  {
  }

  lemma WritesStep(m: Mem, ops: seq<Op>, op: Op, thread: string, ns: string)
    requires WritesKept(m, ops, thread, ns)
    ensures WritesKept(MemStep(m, op), ops + [op], thread, ns)
  {
    hide RemoveFirst;
    Snoc(ops, op);
    KeyIs(op, thread, ns);
    hide KeyOf, NsOf, HasWrite, HasWritten;
    var t, key := MemStep(m, op), Key(thread, ns);
    forall cid
      ensures SameWrites(t.Writes(key, cid), FirstWrites(ops + [op], thread, ns, cid))
      ensures forall taskId, taskPath ::
                HasWrite(t.Writes(key, cid), taskId, taskPath) <==>
                HasWritten(ops + [op], thread, ns, cid, taskId, taskPath)
    {
      var ws := m.Writes(key, cid);
      forall taskId, taskPath
        ensures HasWrite(t.Writes(key, cid), taskId, taskPath) <==>
                HasWritten(ops + [op], thread, ns, cid, taskId, taskPath)
      {
        WrittenSnoc(ops, op, thread, ns, cid, taskId, taskPath);
        if WritesTo(op, thread, ns, cid) {
          HasWriteMore(ws, Write(op.taskId, op.taskPath, op.value), taskId, taskPath);
        }
      }
    }
  }

  lemma HasWriteMore(ws: seq<Write>, w: Write, taskId: string, taskPath: string)
    ensures HasWrite(ws + [w], taskId, taskPath) <==>
            HasWrite(ws, taskId, taskPath) || (w.taskId == taskId && w.taskPath == taskPath)
  {
    var all := ws + [w];
    assert all[|ws|] == w;
    if HasWrite(ws, taskId, taskPath) {
      var i :| 0 <= i < |ws| && ws[i].taskId == taskId && ws[i].taskPath == taskPath;
      assert all[i] == ws[i];
    }
    if HasWrite(all, taskId, taskPath) {
      var i :| 0 <= i < |all| && all[i].taskId == taskId && all[i].taskPath == taskPath;
      assert i < |ws| ==> all[i] == ws[i];
    }
  }

  lemma WrittenSnoc(ops: seq<Op>, op: Op, thread: string, ns: string, cid: string, taskId: string, taskPath: string)
    ensures HasWritten(ops + [op], thread, ns, cid, taskId, taskPath) <==>
            HasWritten(ops, thread, ns, cid, taskId, taskPath) || IsWrite(op, thread, ns, cid, taskId, taskPath)
  {
    hide IsWrite;
    var all := ops + [op];
    assert all[|ops|] == op;
    if HasWritten(ops, thread, ns, cid, taskId, taskPath) {
      var i :| 0 <= i < |ops| && IsWrite(ops[i], thread, ns, cid, taskId, taskPath);
      assert all[i] == ops[i];
    }
  }

  lemma {:induction false} StoreKeeps(ops: seq<Op>, thread: string, ns: string)
    ensures Keeps(MemRun(EMPTY_MEM, ops), ops, thread, ns)
  {
    hide MemStep, RecordsKept, OrderKept, WritesKept, MemValid, MemRun;
    if ops == [] {
      EmptyKeeps(thread, ns);
    } else {
      var before, op := ops[..|ops| - 1], ops[|ops| - 1];
      assert ops == before + [op];
      StoreKeeps(before, thread, ns);
      MemRunAppend(EMPTY_MEM, before, [op]);
      var m := MemRun(EMPTY_MEM, before);
      MemRunOne(m, op);
      EmptyMatches();
      ValidRun(EMPTY_MEM, before);
      EmptyValid();
      RecordsStep(m, before, op, thread, ns);
      OrderStep(m, before, op, thread, ns);
      WritesStep(m, before, op, thread, ns);
    }
  }

  lemma EmptyValid()
    ensures MemValid(EMPTY_MEM)
  {
  }

  lemma EmptyKeeps(thread: string, ns: string)
    ensures Keeps(MemRun(EMPTY_MEM, []), [], thread, ns)
  {
  }

  // ---- replies ----

  /** What a put and the writes to its id make of a reply. */
  function ReplyFor(p: Option<Op>, ops: seq<Op>, thread: string, ns: string): Tuple
    requires p.Some? ==> p.value.Put?
  {
    if p.None? then NotFound
    else Found(p.value.cid, p.value.parent, p.value.checkpoint, p.value.metadata,
               PendingOf(ops, thread, ns, p.value.cid))
  }

  function ItemFor(p: Op, thread: string, ns: string): Item
    requires p.Put?
  {
    Item(thread, ns, p.cid, p.parent, p.checkpoint, p.metadata)
  }

  lemma {:induction false} PutShape(ops: seq<Op>, thread: string, ns: string, cid: string)
    ensures var p := PutOf(ops, thread, ns, cid); p.Some? ==> PutsTo(p.value, thread, ns) && p.value.cid == cid
    ensures var p := NewestPut(ops, thread, ns); p.Some? ==> PutsTo(p.value, thread, ns)
  {
    if ops != [] {
      PutShape(ops[..|ops| - 1], thread, ns, cid);
    }
  }

  lemma {:induction false} NewestIsFirst(ops: seq<Op>, thread: string, ns: string)
    ensures var p, ps := NewestPut(ops, thread, ns), Puts(ops, thread, ns);
            && (p.None? <==> ps == [])
            && (p.Some? ==> ps[0] == p.value && PutOf(ops, thread, ns, p.value.cid) == p)
  {
    hide Names;
    if ops != [] {
      var before, op := ops[..|ops| - 1], ops[|ops| - 1];
      NewestIsFirst(before, thread, ns);
    }
  }

  lemma PendingSame(ws: seq<Write>, ops: seq<Op>, thread: string, ns: string, cid: string)
    requires SameWrites(ws, FirstWrites(ops, thread, ns, cid))
    ensures Map(ws, ToPending) == PendingOf(ops, thread, ns, cid)
  {
    hide FirstWrites;
  }

  /** `get_tuple` by id, in both stores and after any run: the last put of that id under the thread and namespace, with
      its own parent, checkpoint and metadata, and each task's first written value in order; nothing if there is
      none. */
  lemma GetsWhatWasPut(ops: seq<Op>, q: GetQuery, ns: string)
    requires q.cid.Some? && Names(q.ns, ns)
    ensures var p := PutOf(ops, q.thread, ns, q.cid.value);
            && (p.Some? ==> p.value.Put?)
            && MemGet(MemRun(EMPTY_MEM, ops), q) == ReplyFor(p, ops, q.thread, ns)
            && SqlGet(SqlRun(EMPTY_SQL, ops), q) == ReplyFor(p, ops, q.thread, ns)
  {
    hide *;
    var m, key, cid := MemRun(EMPTY_MEM, ops), Key(q.thread, ns), q.cid.value;
    StoreKeeps(ops, q.thread, ns);
    PutShape(ops, q.thread, ns, cid);
    PutIsPut(ops, q.thread, ns, cid);
    StoresAgree(ops, q, ListQuery(None, None, None, None));
    NsIs(q.ns, ns);
    ByIdOf(m, q);
    var p := PutOf(ops, q.thread, ns, cid);
    ReplyIs(p, ops, q.thread, ns);
    if p.Some? {
      KnownRecord(m, ops, q.thread, ns, cid);
      PendingSame(m.Writes(key, cid), ops, q.thread, ns, cid);
      TupleIs(p.value, m.Records(key)[cid], m.Writes(key, cid));
    } else {
      NoRecord(m, ops, q.thread, ns, cid);
    }
  }

  lemma PutIsPut(ops: seq<Op>, thread: string, ns: string, cid: string)
    ensures var p := PutOf(ops, thread, ns, cid); p.Some? ==> p.value.Put?
  {
    hide PutOf;
    PutShape(ops, thread, ns, cid);
  }

  lemma ByIdOf(m: Mem, q: GetQuery)
    requires q.cid.Some?
    ensures var key, cid := Key(q.thread, NsOf(q.ns)), q.cid.value;
            MemGet(m, q) ==
            if cid in m.Records(key) then ToTuple(cid, m.Records(key)[cid], m.Writes(key, cid)) else NotFound
  {
    hide NsOf, ToTuple;
  }

  lemma NoRecord(m: Mem, ops: seq<Op>, thread: string, ns: string, cid: string)
    requires Keeps(m, ops, thread, ns) && PutOf(ops, thread, ns, cid).None?
    ensures cid !in m.Records(Key(thread, ns))
  {
    hide PutOf, SameRecord, OrderKept, WritesKept;
  }

  lemma NsIs(given: Option<string>, ns: string)
    requires Names(given, ns)
    ensures NsOf(given) == ns
  {
  }

  /** `get_tuple` of the latest: the last put to the thread and namespace. */
  lemma GetsTheLatestPut(ops: seq<Op>, q: GetQuery, ns: string)
    requires q.cid.None? && Names(q.ns, ns)
    ensures var p := NewestPut(ops, q.thread, ns);
            && (p.Some? ==> p.value.Put?)
            && MemGet(MemRun(EMPTY_MEM, ops), q) == ReplyFor(p, ops, q.thread, ns)
            && SqlGet(SqlRun(EMPTY_SQL, ops), q) == ReplyFor(p, ops, q.thread, ns)
  {
    hide *;
    var m, key := MemRun(EMPTY_MEM, ops), Key(q.thread, ns);
    var p := NewestPut(ops, q.thread, ns);
    StoreKeeps(ops, q.thread, ns);
    NewestIsFirst(ops, q.thread, ns);
    NewestIsPut(ops, q.thread, ns);
    StoresAgree(ops, q, ListQuery(None, None, None, None));
    EmptyMatches();
    RunsMatch(EMPTY_MEM, EMPTY_SQL, ops);
    MatchesValid(m, SqlRun(EMPTY_SQL, ops));
    NsIs(q.ns, ns);
    KeptAt(m, ops, q.thread, ns);
    LastOfOrder(m.Order(key), Puts(ops, q.thread, ns));
    LatestOf(m, q);
    ReplyIs(p, ops, q.thread, ns);
    if p.Some? {
      KnownRecord(m, ops, q.thread, ns, p.value.cid);
      PendingSame(m.Writes(key, p.value.cid), ops, q.thread, ns, p.value.cid);
      TupleIs(p.value, m.Records(key)[p.value.cid], m.Writes(key, p.value.cid));
    }
  }

  lemma NewestIsPut(ops: seq<Op>, thread: string, ns: string)
    ensures var p := NewestPut(ops, thread, ns); p.Some? ==> p.value.Put?
  {
    hide NewestPut;
    PutShape(ops, thread, ns, "");
  }

  /** The latest is the record under the last id of the order. */
  lemma LatestOf(m: Mem, q: GetQuery)
    requires q.cid.None? && MemValid(m)
    ensures var key := Key(q.thread, NsOf(q.ns));
            var order := m.Order(key);
            MemGet(m, q) ==
            if order == [] then NotFound
            else
              var cid := order[|order| - 1];
              if cid in m.Records(key) then ToTuple(cid, m.Records(key)[cid], m.Writes(key, cid)) else NotFound
  {
    var key := Key(q.thread, NsOf(q.ns));
    RecordsIffOrder(m, key);
    hide MemValid, NsOf, ToTuple;
  }

  lemma ReplyIs(p: Option<Op>, ops: seq<Op>, thread: string, ns: string)
    requires p.Some? ==> p.value.Put?
    ensures p.None? ==> ReplyFor(p, ops, thread, ns) == NotFound
    ensures p.Some? ==>
              ReplyFor(p, ops, thread, ns) ==
              Found(p.value.cid, p.value.parent, p.value.checkpoint, p.value.metadata,
                    PendingOf(ops, thread, ns, p.value.cid))
  {
  }

  lemma TupleIs(p: Op, r: Record, ws: seq<Write>)
    requires SameRecord(r, p)
    ensures p.Put? && ToTuple(p.cid, r, ws) == Found(p.cid, p.parent, p.checkpoint, p.metadata, Map(ws, ToPending))
  {
    hide Map;
  }

  lemma KnownRecord(m: Mem, ops: seq<Op>, thread: string, ns: string, cid: string)
    requires Keeps(m, ops, thread, ns) && PutOf(ops, thread, ns, cid).Some?
    ensures cid in m.Records(Key(thread, ns))
    ensures SameRecord(m.Records(Key(thread, ns))[cid], PutOf(ops, thread, ns, cid).value)
    ensures SameWrites(m.Writes(Key(thread, ns), cid), FirstWrites(ops, thread, ns, cid))
  {
    hide *;
    KeptAt(m, ops, thread, ns);
  }

  lemma KeptAt(m: Mem, ops: seq<Op>, thread: string, ns: string)
    requires Keeps(m, ops, thread, ns)
    ensures Reverse(m.Order(Key(thread, ns))) == Cids(Puts(ops, thread, ns))
    ensures forall cid :: SameWrites(m.Writes(Key(thread, ns), cid), FirstWrites(ops, thread, ns, cid))
    ensures forall cid :: PutOf(ops, thread, ns, cid).Some? ==>
              cid in m.Records(Key(thread, ns)) &&
              SameRecord(m.Records(Key(thread, ns))[cid], PutOf(ops, thread, ns, cid).value)
  {
    hide PutOf, FirstWrites, SameWrites, SameRecord, Puts, HasWrite, HasWritten;
  }

  lemma LastOfOrder(order: seq<string>, ps: seq<Op>)
    requires Reverse(order) == Cids(ps)
    ensures |order| == |ps|
    ensures ps != [] ==> order[|order| - 1] == ps[0].cid
  {
    assert |Reverse(order)| == |Cids(ps)|;
    if ps != [] {
      assert Reverse(order)[0] == Cids(ps)[0];
    }
  }

  // ---- listings ----

  /** The puts behind the one of that id. */
  function Behind(ps: seq<Op>, cid: string): seq<Op> {
    if ps == [] then [] else if ps[0].cid == cid then ps[1..] else Behind(ps[1..], cid)
  }

  /** What a cursor leaves; an absent, empty or unknown one leaves all. */
  function BehindCursor(ps: seq<Op>, before: Option<string>): seq<Op> {
    if before.Some? && before.value != "" && (exists i :: 0 <= i < |ps| && ps[i].cid == before.value)
    then Behind(ps, before.value) else ps
  }

  /** The puts that a listing shows. */
  function Listed(ops: seq<Op>, thread: string, ns: string, before: Option<string>, limit: Option<int>): seq<Op> {
    var ps := BehindCursor(Puts(ops, thread, ns), before);
    if limit.Some? && 0 <= limit.value < |ps| then ps[..limit.value] else ps
  }

  lemma {:induction false} OthersMembers(ps: seq<Op>, cid: string)
    ensures forall p :: p in Others(ps, cid) <==> p in ps && p.cid != cid
  {
    if ps != [] {
      OthersMembers(ps[1..], cid);
      assert ps == [ps[0]] + ps[1..];
      var rest := Others(ps[1..], cid);
      assert Others(ps, cid) == if ps[0].cid == cid then rest else [ps[0]] + rest;
    }
  }

  /** Each listed put is the last of its id. */
  lemma {:induction false} PutsAreLast(ops: seq<Op>, thread: string, ns: string)
    ensures forall p :: p in Puts(ops, thread, ns) ==>
              PutsTo(p, thread, ns) && PutOf(ops, thread, ns, p.cid) == Some(p)
  {
    hide Others, PutsTo;
    if ops != [] {
      var before, op := ops[..|ops| - 1], ops[|ops| - 1];
      PutsAreLast(before, thread, ns);
      OthersMembers(Puts(before, thread, ns), op.cid);
      IsPut(op, thread, ns);
    }
  }

  lemma IsPut(op: Op, thread: string, ns: string)
    ensures PutsTo(op, thread, ns) ==> op.Put?
  {
  }

  lemma {:induction false} BehindIs(ps: seq<Op>, cid: string)
    requires cid in Cids(ps)
    ensures Cids(ps)[IndexOf(Cids(ps), cid) + 1..] == Cids(Behind(ps, cid))
    ensures forall p :: p in Behind(ps, cid) ==> p in ps
  {
    var ids := Cids(ps);
    assert ids[1..] == Cids(ps[1..]);
    if ps[0].cid != cid {
      BehindIs(ps[1..], cid);
      var i := IndexOf(ids[1..], cid);
      assert ids[i + 2..] == ids[1..][i + 1..];
      assert IndexOf(ids, cid) == i + 1;
    }
  }

  lemma CursorLeaves(ps: seq<Op>, before: Option<string>)
    ensures AfterCursor(Cids(ps), before) == Cids(BehindCursor(ps, before))
    ensures forall p :: p in BehindCursor(ps, before) ==> p in ps
  {
    hide IndexOf, Behind;
    if before.Some? && before.value != "" {
      if before.value in Cids(ps) {
        var i :| 0 <= i < |ps| && Cids(ps)[i] == before.value;
        assert ps[i].cid == before.value;
        BehindIs(ps, before.value);
      } else {
        assert forall i :: 0 <= i < |ps| ==> Cids(ps)[i] == ps[i].cid;
      }
    }
  }

  lemma {:induction false} ItemsAre(ps: seq<Op>, thread: string, ns: string, records: map<string, Record>)
    requires forall p :: p in ps ==> p.Put? && p.cid in records && SameRecord(records[p.cid], p)
    ensures |ItemsOf(Key(thread, ns), Cids(ps), records)| == |ps|
    ensures forall i :: 0 <= i < |ps| ==>
              ps[i].Put? && ItemsOf(Key(thread, ns), Cids(ps), records)[i] == ItemFor(ps[i], thread, ns)
  {
    if ps != [] {
      assert ps[0] in ps && forall p :: p in ps[1..] ==> p in ps;
      assert Cids(ps)[1..] == Cids(ps[1..]);
      ItemsAre(ps[1..], thread, ns, records);
      var rest := ItemsOf(Key(thread, ns), Cids(ps[1..]), records);
      assert ItemsOf(Key(thread, ns), Cids(ps), records) == [ItemFor(ps[0], thread, ns)] + rest;
      hide ItemsOf;
      forall i | 0 < i < |ps|
        ensures ps[i].Put? && ([ItemFor(ps[0], thread, ns)] + rest)[i] == ItemFor(ps[i], thread, ns)
      {
        assert ps[i] == ps[1..][i - 1];
      }
    }
  }

  lemma ListedAreKnown(m: Mem, ops: seq<Op>, thread: string, ns: string, ps: seq<Op>)
    requires RecordsKept(m, ops, thread, ns) && forall p :: p in ps ==> p in Puts(ops, thread, ns)
    ensures forall p :: p in ps ==>
              p.Put? && p.cid in m.Records(Key(thread, ns)) && SameRecord(m.Records(Key(thread, ns))[p.cid], p)
  {
    hide Puts, PutOf;
    PutsAreLast(ops, thread, ns);
  }

  /** A scoped listing of either store, after any run: the last put of each id under the thread and namespace, the
      newest first, from behind the cursor and within the limit, each with its own fields. */
  lemma ListsThePuts(ops: seq<Op>, q: ListQuery, thread: string, ns: string)
    requires Scoped(q) && q.thread == Some(thread) && q.ns == Some(ns)
    ensures var items, ps := MemList(MemRun(EMPTY_MEM, ops), q), Listed(ops, thread, ns, q.before, q.limit);
            && SqlList(SqlRun(EMPTY_SQL, ops), q) == items
            && |items| == |ps|
            && forall i :: 0 <= i < |ps| ==> ps[i].Put? && items[i] == ItemFor(ps[i], thread, ns)
  {
    hide *;
    var m, key := MemRun(EMPTY_MEM, ops), Key(thread, ns);
    StoresAgree(ops, GetQuery("", None, None), q);
    NsOfGiven(ns);
    MemListScoped(m, q, key);
    KeyItemsAre(ops, thread, ns, q.before);
    LimitTakes(KeyItems(m, key, q.before), q);
    ListedIs(ops, thread, ns, q.before, q.limit);
  }

  lemma ListedIs(ops: seq<Op>, thread: string, ns: string, before: Option<string>, limit: Option<int>)
    ensures var ps := BehindCursor(Puts(ops, thread, ns), before);
            Listed(ops, thread, ns, before, limit) ==
            if limit.Some? && 0 <= limit.value < |ps| then ps[..limit.value] else ps
  {
    hide BehindCursor, Puts;
  }

  lemma NsOfGiven(ns: string)
    ensures NsOf(Some(ns)) == ns
  {
  }

  lemma LimitTakes(items: seq<Item>, q: ListQuery)
    requires Scoped(q)
    ensures Limit(items, q.limit) ==
            if q.limit.Some? && 0 <= q.limit.value < |items| then items[..q.limit.value] else items
  {
  }

  /** All that the key lists behind the cursor. */
  lemma KeyItemsAre(ops: seq<Op>, thread: string, ns: string, before: Option<string>)
    ensures var items := KeyItems(MemRun(EMPTY_MEM, ops), Key(thread, ns), before);
            var ps := BehindCursor(Puts(ops, thread, ns), before);
            && |items| == |ps|
            && forall i :: 0 <= i < |ps| ==> ps[i].Put? && items[i] == ItemFor(ps[i], thread, ns)
  {
    var m, key := MemRun(EMPTY_MEM, ops), Key(thread, ns);
    StoreKeeps(ops, thread, ns);
    var all, ps := Puts(ops, thread, ns), BehindCursor(Puts(ops, thread, ns), before);
    CursorLeaves(all, before);
    ListedAreKnown(m, ops, thread, ns, ps);
    KeptAt(m, ops, thread, ns);
    hide MemRun, RecordsKept, WritesKept, OrderKept, Puts, PutOf, FirstWrites, BehindCursor, ItemsOf, AfterCursor;
    hide SameRecord, SameWrites, Cids, Reverse, Keeps;
    ItemsAre(ps, thread, ns, m.Records(key));
  }

  // ---- the SQL cursor of any query ----

  /** With a thread, a cursor names a row of that thread under the given namespace, or the empty one if none is given;
      without such a row, and without a thread, there is no cursor. */
  lemma CursorIsRow(s: Sql, q: ListQuery, ns: string)
    requires Names(q.ns, ns)
    ensures var cursor := CursorSeq(s, q);
            && (cursor.Some? ==>
                  exists r :: r in s.checkpoints.rows && r.seqno == cursor.value && IsRow(r, q, ns))
            && (cursor.None? ==> forall r :: r in s.checkpoints.rows ==> !IsRow(r, q, ns))
  {
    NsIs(q.ns, ns);
    if q.thread.Some? && q.before.Some? && q.before.value != "" {
      var p := OfRow(Key(q.thread.value, ns), q.before.value);
      FilterMembers(s.checkpoints.rows, p);
      var hit := Filter(s.checkpoints.rows, p);
      if hit != [] {
        assert hit[0] in hit;
        assert IsRow(hit[0], q, ns);
      } else {
        forall r | r in s.checkpoints.rows ensures !IsRow(r, q, ns) {
          assert r !in hit;
          assert !p(r);
        }
      }
    }
  }

  predicate IsRow(r: Row<CkRow>, q: ListQuery, ns: string) {
    && q.thread == Some(r.data.key.thread) && r.data.key.ns == ns
    && q.before == Some(r.data.cid) && r.data.cid != ""
  }
}
