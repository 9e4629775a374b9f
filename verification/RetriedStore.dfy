/** What retries leave in the checkpoint store. */
module RetriedStore {
  import opened Seqs
  import opened CheckpointStore
  import opened StoreBisimulation
  import opened Retry

  lemma {:induction false} MemRunAppend(m: Mem, a: seq<Op>, b: seq<Op>)
    ensures MemRun(m, a + b) == MemRun(MemRun(m, a), b)
    decreases |a|
  {
    hide MemStep;
    if a == [] {
      assert a + b == b;
    } else {
      MemRunAppend(MemStep(m, a[0]), a[1..], b);
      assert (a + b)[0] == a[0] && (a + b)[1..] == a[1..] + b;
    }
  }

  lemma MemRunOne(m: Mem, op: Op)
    ensures MemRun(m, [op]) == MemStep(m, op)
  {
    assert [op][1..] == [] && MemRun(MemStep(m, op), []) == MemStep(m, op);
  }

  // ---- put_writes ----

  /** The task's write is in the store. */
  predicate Written(m: Mem, op: Op)
    requires op.PutWrites?
  {
    (KeyOf(op), op.cid) in m.writes && HasWrite(m.writes[(KeyOf(op), op.cid)], op.taskId, op.taskPath)
  }

  lemma HasWriteSnoc(ws: seq<Write>, w: Write, taskId: string, taskPath: string)
    ensures HasWrite(ws, taskId, taskPath) ==> HasWrite(ws + [w], taskId, taskPath)
    ensures HasWrite(ws + [w], w.taskId, w.taskPath)
  {
    var all := ws + [w];
    assert all[|ws|] == w;
    if HasWrite(ws, taskId, taskPath) {
      var i :| 0 <= i < |ws| && ws[i].taskId == taskId && ws[i].taskPath == taskPath;
      assert all[i] == ws[i];
    }
  }

  lemma WrittenStays(m: Mem, op: Op, step: Op)
    requires op.PutWrites?
    ensures Written(m, op) ==> Written(MemStep(m, step), op) && MemStep(m, op) == m
    ensures Written(MemStep(m, op), op)
  {
    hide HasWrite;
    HasWriteSnoc(m.Writes(KeyOf(op), op.cid), Write(op.taskId, op.taskPath, op.value), op.taskId, op.taskPath);
    if Written(m, op) {
      assert m.writes[(KeyOf(op), op.cid) := m.writes[(KeyOf(op), op.cid)]] == m.writes;
    }
    if step.PutWrites? {
      HasWriteSnoc(m.Writes(KeyOf(step), step.cid), Write(step.taskId, step.taskPath, step.value), op.taskId,
          op.taskPath);
    }
  }

  lemma {:induction false} WrittenStaysOver(m: Mem, op: Op, steps: seq<Op>)
    requires op.PutWrites? && Written(m, op)
    ensures Written(MemRun(m, steps), op)
    decreases |steps|
  {
    hide Written, MemStep;
    if steps != [] {
      WrittenStays(m, op, steps[0]);
      WrittenStaysOver(MemStep(m, steps[0]), op, steps[1..]);
    }
  }

  /** A repeated `put_writes` changes nothing, whatever other clients did in between. */
  lemma {:induction false} WritesOnce(m: Mem, script: Script<Op>, op: Op, from: nat, end: nat, done: bool)
    requires op.PutWrites? && from <= end && (done ==> Written(m, op))
    ensures MemRun(m, Executed(script, op, from, end)) == MemRun(m, FirstOnly(script, op, from, end, done))
    decreases end - from
  {
    hide Written, MemStep;
    if from < end {
      var a := script(from);
      var mine := if a.executed then [op] else [];
      var kept := if a.executed && !done then [op] else [];
      var m1 := MemRun(m, a.others);
      if done { WrittenStaysOver(m, op, a.others); }
      WrittenStays(m1, op, op);
      MemRunOne(m1, op);
      assert MemRun(m1, mine) == MemRun(m1, kept);
      var rest, first := Executed(script, op, from + 1, end), FirstOnly(script, op, from + 1, end, done || a.executed);
      WritesOnce(MemRun(m1, mine), script, op, from + 1, end, done || a.executed);
      RunThree(m, a.others, mine, rest);
      RunThree(m, a.others, kept, first);
    }
  }

  lemma RunThree(m: Mem, a: seq<Op>, b: seq<Op>, c: seq<Op>)
    ensures MemRun(m, a + b + c) == MemRun(MemRun(MemRun(m, a), b), c)
  {
    MemRunAppend(m, a + b, c);
    MemRunAppend(m, a, b);
  }

  /** The executions of a retried call, as one run of the store from its first day on, and what follows. */
  lemma SameRepliesAfter(before: seq<Op>, a: seq<Op>, b: seq<Op>, later: seq<Op>, get: GetQuery, list: ListQuery)
    requires MemRun(MemRun(EMPTY_MEM, before), a) == MemRun(MemRun(EMPTY_MEM, before), b)
    ensures SqlGet(SqlRun(EMPTY_SQL, before + a + later), get) == SqlGet(SqlRun(EMPTY_SQL, before + b + later), get)
    ensures Scoped(list) ==>
              SqlList(SqlRun(EMPTY_SQL, before + a + later), list) ==
                  SqlList(SqlRun(EMPTY_SQL, before + b + later), list)
  {
    hide *;
    RunThree(EMPTY_MEM, before, a, later);
    RunThree(EMPTY_MEM, before, b, later);
    StoresAgree(before + a + later, get, list);
    StoresAgree(before + b + later, get, list);
  }

  /** For every pattern of lost requests and lost replies over both loops, and whatever else interleaves: the
      attempts of `aput_writes` leave the store as if only the first executed one had run -- the in-memory state
      is the same, and the SQL store gives the same replies ever after. There are at most `attempts` times
      `1 + max_retries` of them, and a success means that one was executed. */
  lemma RetriedWritesOnce(before: seq<Op>, script: Script<Op>, op: Op, maxRetries: int, attempts: nat,
                          later: seq<Op>, get: GetQuery, list: ListQuery)
    requires op.PutWrites? && attempts >= 1 && Honest(script)
    ensures var used := LastOuter(script, 0, maxRetries, attempts) + 1;
            var all, once := Executed(script, op, 0, used), FirstOnly(script, op, 0, used, false);
            && used <= MaxTrips(maxRetries, attempts)
            && MemRun(MemRun(EMPTY_MEM, before), all) == MemRun(MemRun(EMPTY_MEM, before), once)
            && SqlGet(SqlRun(EMPTY_SQL, before + all + later), get) ==
                SqlGet(SqlRun(EMPTY_SQL, before + once + later), get)
            && (Scoped(list) ==>
                  SqlList(SqlRun(EMPTY_SQL, before + all + later), list) ==
                  SqlList(SqlRun(EMPTY_SQL, before + once + later), list))
            && (script(used - 1).result.Ok? ==> op in once)
  {
    hide MemRun, SqlRun, SqlGet, SqlList, Executed, FirstOnly, LastOuter, MaxTrips;
    var used := LastOuter(script, 0, maxRetries, attempts) + 1;
    RoundTripBound(script, 0, maxRetries, attempts);
    WritesOnce(MemRun(EMPTY_MEM, before), script, op, 0, used, false);
    SameRepliesAfter(before, Executed(script, op, 0, used), FirstOnly(script, op, 0, used, false), later, get, list);
    if script(used - 1).result.Ok? {
      assert script(used - 1).executed;
      FirstIsKept(script, op, 0, used);
    }
  }

  lemma {:induction false} FirstIsKept(script: Script<Op>, op: Op, from: nat, end: nat)
    requires from < end && script(end - 1).executed
    ensures op in FirstOnly(script, op, from, end, false)
    decreases end - from
  {
    var a := script(from);
    var rest := FirstOnly(script, op, from + 1, end, a.executed);
    if a.executed {
      assert op in [op];
    } else {
      FirstIsKept(script, op, from + 1, end);
    }
  }

  // ---- put ----

  /** Two stores that differ at most in where, and with what, the checkpoint of `op` stands. */
  ghost predicate AlikeBut(a: Mem, b: Mem, op: Op) {
    var key := KeyOf(op);
    && a.keys == b.keys && a.writes == b.writes
    && key in a.order && key in b.order && key in a.records && key in b.records
    && a.order - {key} == b.order - {key} && a.records - {key} == b.records - {key}
    && Without(a.order[key], op.cid) == Without(b.order[key], op.cid)
    && a.records[key] - {op.cid} == b.records[key] - {op.cid}
  }

  lemma PutOrder(m: Mem, op: Op)
    requires MemValid(m) && op.Put?
    ensures MemPut(m, op).order == m.order[KeyOf(op) := Without(m.Order(KeyOf(op)), op.cid) + [op.cid]]
    ensures MemValid(MemPut(m, op))
  {
    MemPutValid(m, op);
    NoDupOf(m, KeyOf(op));
    RemoveFirstIsWithout(m.Order(KeyOf(op)), op.cid);
  }

  lemma NoDupOf(m: Mem, key: Key)
    requires MemValid(m)
    ensures NoDup(m.Order(key))
  {
  }

  lemma {:induction false} WithoutCommutes(s: seq<string>, x: string, y: string)
    ensures Without(Without(s, x), y) == Without(Without(s, y), x)
  {
    if s != [] {
      WithoutCommutes(s[1..], x, y);
      var a, b := Without(s[1..], x), Without(s[1..], y);
      assert ([s[0]] + a)[1..] == a && ([s[0]] + b)[1..] == b;
      assert [] + a == a && [] + b == b;
    }
  }

  lemma WithoutTwice(s: seq<string>, x: string)
    ensures Without(Without(s, x), x) == Without(s, x)
    ensures Without(Without(s, x) + [x], x) == Without(s, x)
  {
    WithoutAbsent(Without(s, x), x);
    WithoutAppend(Without(s, x), [x], x);
    assert Without([x], x) == [] by { assert [x][1..] == []; }
  }

  lemma WithoutOther(s: seq<string>, x: string, y: string)
    requires x != y
    ensures Without(Without(s, x) + [x], y) == Without(Without(s, y), x) + [x]
  {
    WithoutAppend(Without(s, x), [x], y);
    assert Without([x], y) == [x] by { assert [x][1..] == []; }
    WithoutCommutes(s, x, y);
  }

  /** Putting `op` makes alike stores equal. */
  lemma PutLevels(a: Mem, b: Mem, op: Op)
    requires MemValid(a) && MemValid(b) && op.Put? && AlikeBut(a, b, op)
    ensures MemPut(a, op) == MemPut(b, op)
  {
    hide MemValid, Without;
    PutOrder(a, op);
    PutOrder(b, op);
    var key := KeyOf(op);
    SetOver(a.records[key], op.cid, RecordOf(op));
    SetOver(b.records[key], op.cid, RecordOf(op));
    SetOver(a.records, key, a.records[key][op.cid := RecordOf(op)]);
    SetOver(b.records, key, b.records[key][op.cid := RecordOf(op)]);
    SetOver(a.order, key, Without(a.order[key], op.cid) + [op.cid]);
    SetOver(b.order, key, Without(b.order[key], op.cid) + [op.cid]);
    KeyKnown(a, key);
    KeyKnown(b, key);
  }

  lemma SetOver<K, V>(m: map<K, V>, key: K, v: V)
    ensures m[key := v] == (m - {key})[key := v]
  {
  }

  /** Putting `op` on one of two alike stores keeps them alike. */
  lemma PutKeepsAlike(a: Mem, b: Mem, op: Op)
    requires MemValid(a) && MemValid(b) && op.Put? && AlikeBut(a, b, op)
    ensures AlikeBut(MemPut(a, op), b, op) && MemValid(MemPut(a, op))
  {
    hide MemValid, Without;
    PutOrder(a, op);
    var key, c := KeyOf(op), MemPut(a, op);
    WithoutTwice(a.order[key], op.cid);
    assert c.order - {key} == a.order - {key};
    assert c.records - {key} == a.records - {key};
    assert c.records[key] - {op.cid} == a.records[key] - {op.cid};
    KeyKnown(a, key);
  }

  lemma KeyKnown(m: Mem, key: Key)
    requires MemValid(m)
    ensures key in m.records <==> key in m.keys
    ensures key in m.records <==> key in m.order
  {
  }

  /** Any other step keeps alike stores alike. */
  lemma StepKeepsAlike(a: Mem, b: Mem, op: Op, step: Op)
    requires MemValid(a) && MemValid(b) && op.Put? && AlikeBut(a, b, op)
    ensures AlikeBut(MemStep(a, step), MemStep(b, step), op)
    ensures MemValid(MemStep(a, step)) && MemValid(MemStep(b, step))
  {
    hide MemValid, Without;
    var key := KeyOf(op);
    if step.PutWrites? {
      SameRecords(a, MemStep(a, step), []);
      SameRecords(b, MemStep(b, step), []);
    } else {
      PutOrder(a, step);
      PutOrder(b, step);
      var k := KeyOf(step);
      KeyKnown(a, k);
      KeyKnown(b, k);
      var c, d := MemPut(a, step), MemPut(b, step);
      if k != key {
        assert k in a.order <==> k in a.order - {key};
        assert k in b.order <==> k in b.order - {key};
        OtherKeyAlike(a.order, b.order, key, k);
        OtherKeyAlike(a.records, b.records, key, k);
        SetElsewhere(a.order, key, k, c.order[k]);
        SetElsewhere(b.order, key, k, d.order[k]);
        SetElsewhere(a.records, key, k, c.records[k]);
        SetElsewhere(b.records, key, k, d.records[k]);
      } else {
        SetHere(a.order, key, c.order[key]);
        SetHere(b.order, key, d.order[key]);
        SetHere(a.records, key, c.records[key]);
        SetHere(b.records, key, d.records[key]);
        if step.cid == op.cid {
          WithoutTwice(a.order[key], op.cid);
          WithoutTwice(b.order[key], op.cid);
          SetHere(a.records[key], op.cid, RecordOf(step));
          SetHere(b.records[key], op.cid, RecordOf(step));
        } else {
          WithoutOther(a.order[key], step.cid, op.cid);
          WithoutOther(b.order[key], step.cid, op.cid);
          SetElsewhere(a.records[key], op.cid, step.cid, RecordOf(step));
          SetElsewhere(b.records[key], op.cid, step.cid, RecordOf(step));
        }
      }
    }
  }

  lemma OtherKeyAlike<K, V>(a: map<K, V>, b: map<K, V>, key: K, k: K)
    requires a - {key} == b - {key} && k != key
    ensures k in a <==> k in b
    ensures k in a ==> a[k] == b[k]
  {
    assert k in a <==> k in a - {key};
    assert k in b <==> k in b - {key};
    assert k in a ==> a[k] == (a - {key})[k];
  }

  lemma SetElsewhere<K, V>(m: map<K, V>, key: K, k: K, v: V)
    requires k != key
    ensures m[k := v] - {key} == (m - {key})[k := v]
    ensures key in m ==> m[k := v][key] == m[key]
  {
  }

  lemma SetHere<K, V>(m: map<K, V>, key: K, v: V)
    ensures m[key := v] - {key} == m - {key}
  {
  }

  lemma {:induction false} RunKeepsAlike(a: Mem, b: Mem, op: Op, steps: seq<Op>)
    requires MemValid(a) && MemValid(b) && op.Put? && AlikeBut(a, b, op)
    ensures AlikeBut(MemRun(a, steps), MemRun(b, steps), op)
    ensures MemValid(MemRun(a, steps)) && MemValid(MemRun(b, steps))
    decreases |steps|
  {
    hide MemValid, AlikeBut, MemStep;
    if steps != [] {
      StepKeepsAlike(a, b, op, steps[0]);
      RunKeepsAlike(MemStep(a, steps[0]), MemStep(b, steps[0]), op, steps[1..]);
    }
  }

  /** One round trip of what is executed, and of the same with only the first execution kept. */
  lemma ExecutedStep(m: Mem, script: Script<Op>, op: Op, from: nat, end: nat, done: bool)
    requires from < end
    ensures var t := script(from);
            var m1 := MemRun(m, t.others);
            && MemRun(m, Executed(script, op, from, end)) ==
               MemRun(if t.executed then MemStep(m1, op) else m1, Executed(script, op, from + 1, end))
            && MemRun(m, FirstOnly(script, op, from, end, done)) ==
               MemRun(if t.executed && !done then MemStep(m1, op) else m1,
                      FirstOnly(script, op, from + 1, end, done || t.executed))
  {
    hide MemStep, MemRun;
    var t := script(from);
    var m1 := MemRun(m, t.others);
    MemRunOne(m1, op);
    MemRunNone(m1);
    RunThree(m, t.others, if t.executed then [op] else [], Executed(script, op, from + 1, end));
    RunThree(m, t.others, if t.executed && !done then [op] else [],
        FirstOnly(script, op, from + 1, end, done || t.executed));
  }

  lemma MemRunNone(m: Mem)
    ensures MemRun(m, []) == m
  {
  }

  lemma NothingExecuted(script: Script<Op>, op: Op, at: nat, done: bool)
    ensures Executed(script, op, at, at) == [] && FirstOnly(script, op, at, at, done) == []
  {
  }

  /** Once `op` has run, repeating it any number of times and a last time is doing it once more at the end. */
  lemma {:induction false} RepeatsFold(a: Mem, b: Mem, script: Script<Op>, op: Op, from: nat, end: nat)
    requires MemValid(a) && MemValid(b) && op.Put? && AlikeBut(a, b, op)
    requires from < end && script(end - 1).executed
    ensures MemRun(a, Executed(script, op, from, end)) == MemPut(MemRun(b, FirstOnly(script, op, from, end, true)), op)
    decreases end - from
  {
    hide *;
    var t := script(from);
    RunKeepsAlike(a, b, op, t.others);
    var a1, b1 := MemRun(a, t.others), MemRun(b, t.others);
    PutIsStep(a1, op);
    ExecutedStep(a, script, op, from, end, true);
    ExecutedStep(b, script, op, from, end, true);
    if from + 1 == end {
      PutLevels(a1, b1, op);
      NothingExecuted(script, op, end, true);
      MemRunNone(MemPut(a1, op));
      MemRunNone(b1);
    } else if t.executed {
      PutKeepsAlike(a1, b1, op);
      RepeatsFold(MemPut(a1, op), b1, script, op, from + 1, end);
    } else {
      RepeatsFold(a1, b1, script, op, from + 1, end);
    }
  }

  lemma PutIsStep(m: Mem, op: Op)
    requires op.Put?
    ensures MemStep(m, op) == MemPut(m, op)
  {
  }

  /** What a retried `aput` leaves: the as-if-once store with the put applied once more. */
  lemma {:induction false} PutsFold(m: Mem, script: Script<Op>, op: Op, from: nat, end: nat)
    requires MemValid(m) && op.Put? && from < end && script(end - 1).executed
    ensures MemRun(m, Executed(script, op, from, end)) == MemPut(MemRun(m, FirstOnly(script, op, from, end, false)), op)
    decreases end - from
  {
    hide *;
    var t := script(from);
    ValidRun(m, t.others);
    var m1 := MemRun(m, t.others);
    PutIsStep(m1, op);
    ExecutedStep(m, script, op, from, end, false);
    if t.executed {
      AfterPut(m1, op);
      if from + 1 == end {
        PutTwice(m1, op);
        NothingExecuted(script, op, end, true);
        MemRunNone(MemPut(m1, op));
      } else {
        RepeatsFold(MemPut(m1, op), MemPut(m1, op), script, op, from + 1, end);
      }
    } else {
      PutsFold(m1, script, op, from + 1, end);
    }
  }

  lemma AfterPut(m: Mem, op: Op)
    requires MemValid(m) && op.Put?
    ensures MemValid(MemPut(m, op)) && AlikeBut(MemPut(m, op), MemPut(m, op), op)
  {
    hide MemValid, Without;
    PutOrder(m, op);
  }

  lemma PutTwice(m: Mem, op: Op)
    requires MemValid(m) && op.Put?
    ensures MemPut(MemPut(m, op), op) == MemPut(m, op)
  {
    PutOrder(m, op);
    LastPutStands(MemPut(m, op), op);
  }

  lemma {:induction false} ValidRun(m: Mem, steps: seq<Op>)
    requires MemValid(m)
    ensures MemValid(MemRun(m, steps))
    decreases |steps|
  {
    hide MemValid, MemPut, MemPutWrites;
    if steps != [] {
      if steps[0].Put? { MemPutValid(m, steps[0]); } else { ValidPutWrites(m, steps[0]); }
      ValidRun(MemStep(m, steps[0]), steps[1..]);
    }
  }

  lemma ValidPutWrites(m: Mem, op: Op)
    requires MemValid(m) && op.PutWrites?
    ensures MemValid(MemPutWrites(m, op))
  {
    SameRecords(m, MemPutWrites(m, op), []);
  }

  /** The checkpoint of `op` is the newest of its key, with that very record. */
  predicate Stands(m: Mem, op: Op)
    requires op.Put?
  {
    var order := m.Order(KeyOf(op));
    && order != [] && order[|order| - 1] == op.cid
    && op.cid in m.Records(KeyOf(op)) && m.Records(KeyOf(op))[op.cid] == RecordOf(op)
  }

  lemma LastPutStands(m: Mem, op: Op)
    requires MemValid(m) && op.Put?
    ensures MemPut(m, op) == m <==> Stands(m, op)
  {
    hide Without, MemValid;
    var key := KeyOf(op);
    PutStandsIff(m, op, op);
    PutOrder(m, op);
    KeyKnown(m, key);
    if Stands(m, op) {
      NewestLast(m, key, op.cid);
      assert m.records[key][op.cid := RecordOf(op)] == m.records[key];
      SetSame(m.order, key);
      SetSame(m.records, key);
    }
  }

  lemma SetSame<K, V>(m: map<K, V>, key: K)
    requires key in m
    ensures m[key := m[key]] == m
  {
  }

  lemma NewestLast(m: Mem, key: Key, cid: string)
    requires MemValid(m) && m.Order(key) != [] && m.Order(key)[|m.Order(key)| - 1] == cid
    ensures Without(m.Order(key), cid) + [cid] == m.Order(key)
  {
    var order := m.Order(key);
    var init := order[..|order| - 1];
    NoDupOf(m, key);
    assert order == init + [cid] && cid !in init;
    WithoutAppend(init, [cid], cid);
    WithoutAbsent(init, cid);
    assert Without([cid], cid) == [] by { assert [cid][1..] == []; }
  }

  /** Right after a put to its key, `op` stands exactly if that put was the same. */
  lemma PutStandsIff(m: Mem, last: Op, op: Op)
    requires MemValid(m) && last.Put? && op.Put? && KeyOf(last) == KeyOf(op)
    ensures Stands(MemPut(m, last), op) <==> SamePut(last, op)
  {
    hide Without, MemValid, RecordOf;
    PutOrder(m, last);
  }

  lemma StandsElsewhere(m: Mem, step: Op, op: Op)
    requires op.Put? && !(step.Put? && KeyOf(step) == KeyOf(op))
    ensures Stands(MemStep(m, step), op) <==> Stands(m, op)
  {
    hide RecordOf, HasWrite, RemoveFirst;
    var n := MemStep(m, step);
    assert n.Order(KeyOf(op)) == m.Order(KeyOf(op));
    assert n.Records(KeyOf(op)) == m.Records(KeyOf(op));
  }

  /** The last put a run makes to one key. */
  function LastPut(ops: seq<Op>, key: Key): Option<Op> {
    if ops == [] then None
    else
      var last := ops[|ops| - 1];
      if last.Put? && KeyOf(last) == key then Some(last) else LastPut(ops[..|ops| - 1], key)
  }

  /** The same checkpoint id with the same record. */
  predicate SamePut(a: Op, b: Op) {
    a.Put? && b.Put? && KeyOf(a) == KeyOf(b) && a.cid == b.cid && RecordOf(a) == RecordOf(b)
  }

  lemma {:induction false} LastPutRules(m: Mem, ops: seq<Op>, op: Op)
    requires MemValid(m) && op.Put? && LastPut(ops, KeyOf(op)).Some?
    ensures Stands(MemRun(m, ops), op) <==> SamePut(LastPut(ops, KeyOf(op)).value, op)
    decreases |ops|
  {
    hide MemValid, Stands, SamePut, MemPut, MemPutWrites, MemRun;
    var init, last := ops[..|ops| - 1], ops[|ops| - 1];
    assert ops == init + [last];
    MemRunAppend(m, init, [last]);
    var before := MemRun(m, init);
    MemRunOne(before, last);
    ValidRun(m, init);
    if last.Put? && KeyOf(last) == KeyOf(op) {
      PutStandsIff(before, last, op);
    } else {
      LastPutRules(m, init, op);
      StandsElsewhere(before, last, op);
    }
  }

  lemma {:induction false} LastPutSnoc(a: seq<Op>, b: seq<Op>, key: Key)
    ensures LastPut(a + b, key) == if LastPut(b, key).Some? then LastPut(b, key) else LastPut(a, key)
    decreases |b|
  {
    if b == [] {
      assert a + b == a;
    } else {
      assert (a + b)[..|a + b| - 1] == a + b[..|b| - 1];
      LastPutSnoc(a, b[..|b| - 1], key);
    }
  }

  lemma {:induction false} KeptPutIsThere(script: Script<Op>, op: Op, from: nat, end: nat)
    requires op.Put? && from < end && script(end - 1).executed
    ensures LastPut(FirstOnly(script, op, from, end, false), KeyOf(op)).Some?
    decreases end - from
  {
    var t := script(from);
    var mine := if t.executed then [op] else [];
    var rest := FirstOnly(script, op, from + 1, end, t.executed);
    LastPutSnoc(t.others + mine, rest, KeyOf(op));
    if t.executed {
      assert (t.others + [op])[..|t.others + [op]| - 1] == t.others;
    } else {
      KeptPutIsThere(script, op, from + 1, end);
    }
  }

  /** Whether a successful `aput` that was retried leaves the store as if only its first executed attempt had run:
      exactly when the last put to its thread and namespace, in that as-if run, is that same put. */
  lemma RetriedPutOnceIff(m: Mem, script: Script<Op>, op: Op, maxRetries: int, attempts: nat)
    requires MemValid(m) && op.Put? && attempts >= 1 && Honest(script)
    requires script(LastOuter(script, 0, maxRetries, attempts)).result.Ok?
    ensures var used := LastOuter(script, 0, maxRetries, attempts) + 1;
            var once := FirstOnly(script, op, 0, used, false);
            && LastPut(once, KeyOf(op)).Some?
            && (MemRun(m, Executed(script, op, 0, used)) == MemRun(m, once) <==>
                SamePut(LastPut(once, KeyOf(op)).value, op))
  {
    hide MemRun, Executed, FirstOnly, LastPut, MemPut, MemValid;
    var used := LastOuter(script, 0, maxRetries, attempts) + 1;
    var once := FirstOnly(script, op, 0, used, false);
    assert script(used - 1).executed;
    PutsFold(m, script, op, 0, used);
    KeptPutIsThere(script, op, 0, used);
    ValidRun(m, once);
    LastPutStands(MemRun(m, once), op);
    LastPutRules(m, once, op);
  }

  /** No other put to the same thread and namespace got in after the first executed attempt. */
  predicate Undisturbed(script: Script<Op>, op: Op, from: nat, end: nat, done: bool)
    requires from <= end
    decreases end - from
  {
    from < end ==>
      && (done ==> LastPut(script(from).others, KeyOf(op)).None?)
      && Undisturbed(script, op, from + 1, end, done || script(from).executed)
  }

  lemma {:induction false} UndisturbedLast(script: Script<Op>, op: Op, from: nat, end: nat, done: bool)
    requires op.Put? && from <= end && Undisturbed(script, op, from, end, done)
    requires done || (from < end && script(end - 1).executed)
    ensures LastPut(FirstOnly(script, op, from, end, done), KeyOf(op)) == if done then None else Some(op)
    decreases end - from
  {
    if from < end {
      var t := script(from);
      var mine := if t.executed && !done then [op] else [];
      var rest := FirstOnly(script, op, from + 1, end, done || t.executed);
      UndisturbedLast(script, op, from + 1, end, done || t.executed);
      LastPutSnoc(t.others + mine, rest, KeyOf(op));
      LastPutSnoc(t.others, mine, KeyOf(op));
      if mine != [] {
        assert [op][..0] == [];
      }
    }
  }

  /** Without such an interloper a retried `aput` is done once, in both stores. */
  lemma RetriedPutOnce(before: seq<Op>, script: Script<Op>, op: Op, maxRetries: int, attempts: nat,
                       later: seq<Op>, get: GetQuery, list: ListQuery)
    requires op.Put? && attempts >= 1 && Honest(script)
    requires script(LastOuter(script, 0, maxRetries, attempts)).result.Ok?
    requires Undisturbed(script, op, 0, LastOuter(script, 0, maxRetries, attempts) + 1, false)
    ensures var used := LastOuter(script, 0, maxRetries, attempts) + 1;
            var all, once := Executed(script, op, 0, used), FirstOnly(script, op, 0, used, false);
            && MemRun(MemRun(EMPTY_MEM, before), all) == MemRun(MemRun(EMPTY_MEM, before), once)
            && SqlGet(SqlRun(EMPTY_SQL, before + all + later), get) ==
                SqlGet(SqlRun(EMPTY_SQL, before + once + later), get)
            && (Scoped(list) ==>
                  SqlList(SqlRun(EMPTY_SQL, before + all + later), list) ==
                  SqlList(SqlRun(EMPTY_SQL, before + once + later), list))
  {
    hide MemRun, SqlRun, SqlGet, SqlList, Executed, FirstOnly, LastPut, LastOuter, Undisturbed;
    var used := LastOuter(script, 0, maxRetries, attempts) + 1;
    EmptyMatches();
    ValidRun(EMPTY_MEM, before);
    RetriedPutOnceIff(MemRun(EMPTY_MEM, before), script, op, maxRetries, attempts);
    assert script(used - 1).executed;
    UndisturbedLast(script, op, 0, used, false);
    SameRepliesAfter(before, Executed(script, op, 0, used), FirstOnly(script, op, 0, used, false), later, get, list);
  }

  // ---- the retried put that is not done once ----

  /** The first attempt is executed and its reply lost; another client puts; the retry is executed and succeeds. */
  function LostReply(other: Op): Script<Op> {
    (i: nat) => if i == 0 then Attempt([], true, Transient) else Attempt([other], true, Ok)
  }

  /** Then the retry makes its checkpoint the newest again, ahead of the other client's later one. */
  lemma InterloperReorders(op: Op, other: Op, maxRetries: int, attempts: nat)
    requires op.Put? && other.Put? && KeyOf(op) == KeyOf(other) && op.cid != other.cid
    requires maxRetries >= 1 && attempts >= 1
    ensures var script := LostReply(other);
            && Honest(script) && LastOuter(script, 0, maxRetries, attempts) == 1
            && MemRun(EMPTY_MEM, Executed(script, op, 0, 2)).Order(KeyOf(op)) == [other.cid, op.cid]
            && MemRun(EMPTY_MEM, FirstOnly(script, op, 0, 2, false)).Order(KeyOf(op)) == [op.cid, other.cid]
  {
    hide *;
    LostReplyRuns(op, other, maxRetries, attempts);
    TwoOrders(op, other);
  }

  lemma LostReplyRuns(op: Op, other: Op, maxRetries: int, attempts: nat)
    requires maxRetries >= 1 && attempts >= 1
    ensures var script := LostReply(other);
            && Honest(script) && LastOuter(script, 0, maxRetries, attempts) == 1
            && Executed(script, op, 0, 2) == [op, other, op] && FirstOnly(script, op, 0, 2, false) == [op, other]
  {
    var script := LostReply(other);
    assert LastInner(script, 1, Total(maxRetries) - 1) == 1;
    assert Executed(script, op, 2, 2) == [] && FirstOnly(script, op, 2, 2, true) == [];
    assert Executed(script, op, 1, 2) == [other, op];
    assert FirstOnly(script, op, 1, 2, true) == [other];
  }

  lemma TwoOrders(op: Op, other: Op)
    requires op.Put? && other.Put? && KeyOf(op) == KeyOf(other) && op.cid != other.cid
    ensures MemRun(EMPTY_MEM, [op, other, op]).Order(KeyOf(op)) == [other.cid, op.cid]
    ensures MemRun(EMPTY_MEM, [op, other]).Order(KeyOf(op)) == [op.cid, other.cid]
  {
    hide MemRun, MemStep, MemPut, KeyOf, RemoveFirst;
    RemovalsOf(op.cid, other.cid);
    MemRunOne(EMPTY_MEM, op);
    PutOrderIs(EMPTY_MEM, op, []);
    var m1 := MemRun(EMPTY_MEM, [op]);
    MemRunAppend(EMPTY_MEM, [op], [other]);
    MemRunOne(m1, other);
    PutOrderIs(m1, other, [op.cid]);
    assert [op] + [other] == [op, other];
    var m2 := MemRun(m1, [other]);
    MemRunAppend(EMPTY_MEM, [op, other], [op]);
    MemRunOne(m2, op);
    PutOrderIs(m2, op, [op.cid, other.cid]);
    assert [op, other] + [op] == [op, other, op];
  }

  lemma RemovalsOf(a: string, b: string)
    requires a != b
    ensures RemoveFirst([], a) + [a] == [a] && RemoveFirst([a], b) + [b] == [a, b]
    ensures RemoveFirst([a, b], a) + [a] == [b, a]
  {
    assert [a, b][..0] == [] && [a, b][1..] == [b];
  }

  lemma PutOrderIs(m: Mem, op: Op, ids: seq<string>)
    requires op.Put? && m.Order(KeyOf(op)) == ids
    ensures MemPut(m, op).Order(KeyOf(op)) == RemoveFirst(ids, op.cid) + [op.cid]
    ensures MemStep(m, op) == MemPut(m, op)
  {
  }
}
