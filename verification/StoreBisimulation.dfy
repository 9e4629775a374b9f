/** The in-memory store and the SQL store answer alike. */
module StoreBisimulation {
  import opened Seqs
  import opened CheckpointStore

  /** Rows stand in the order of their `seq`, none above the last one handed out. */
  predicate Ascending<T>(rows: seq<Row<T>>, last: nat) {
    && (forall i, j :: 0 <= i < j < |rows| ==> rows[i].seqno < rows[j].seqno)
    && (forall i :: 0 <= i < |rows| ==> rows[i].seqno <= last)
  }

  /** The ids of one key, oldest first, as the table has them. */
  function CidsOf(rows: seq<Row<CkRow>>, key: Key): seq<string> {
    Map(Filter(rows, OfKey(key)), CidOf)
  }

  function WritesOf(rows: seq<Row<WriteRow>>, key: Key, cid: string): seq<Write> {
    Map(Filter(rows, OfSlot(key, cid)), WriteOf)
  }

  ghost predicate MemValid(m: Mem) {
    && (forall k :: k in m.records <==> k in m.order)
    && (forall k :: k in m.records <==> k in m.keys)
    && (forall k :: k in m.order ==> m.order[k] != [] && NoDup(m.order[k]))
    && (forall k, c :: c in m.Records(k) <==> c in m.Order(k))
  }

  predicate RowsRecorded(rows: seq<Row<CkRow>>, m: Mem) {
    forall i :: 0 <= i < |rows| ==>
      var d := rows[i].data; d.cid in m.Records(d.key) && m.Records(d.key)[d.cid] == d.record
  }

  /** The abstraction: each order list is the rows of that key sorted by `seq`, free of duplicates, each row is
      the record under its id, and each write list is the rows of that slot sorted by `seq`. */
  ghost predicate Matches(m: Mem, s: Sql) {
    && MemValid(m)
    && Ascending(s.checkpoints.rows, s.checkpoints.last)
    && Ascending(s.writes.rows, s.writes.last)
    && (forall k :: m.Order(k) == CidsOf(s.checkpoints.rows, k))
    && RowsRecorded(s.checkpoints.rows, m)
    && (forall k, c :: m.Writes(k, c) == WritesOf(s.writes.rows, k, c))
  }

  // ---- steps ----

  lemma AscendingCons<T(!new)>(r: Row<T>, rest: seq<Row<T>>, last: nat)
    requires Ascending(rest, last) && r.seqno <= last && forall x :: x in rest ==> r.seqno < x.seqno
    ensures Ascending([r] + rest, last)
  {
    var all := [r] + rest;
    assert forall i :: 0 < i < |all| ==> all[i] == rest[i - 1] && all[i] in rest;
  }

  lemma AscendingTail<T(!new)>(rows: seq<Row<T>>, last: nat)
    requires Ascending(rows, last) && rows != []
    ensures Ascending(rows[1..], last) && forall x :: x in rows[1..] ==> rows[0].seqno < x.seqno
  {
  }

  lemma {:induction false} AscendingFilter<T(!new)>(rows: seq<Row<T>>, last: nat, p: Row<T> -> bool)
    requires Ascending(rows, last)
    ensures Ascending(Filter(rows, p), last)
  {
    hide Ascending;
    if rows == [] {
      AscendingNone<T>(last);
    } else {
      AscendingTail(rows, last);
      AscendingFilter(rows[1..], last, p);
      FilterMembers(rows[1..], p);
      AscendingBound(rows, last);
      AscendingCons(rows[0], Filter(rows[1..], p), last);
      assert [] + Filter(rows[1..], p) == Filter(rows[1..], p);
    }
  }

  lemma AscendingNone<T>(last: nat)
    ensures Ascending<T>([], last)
  {
  }

  lemma AscendingBound<T>(rows: seq<Row<T>>, last: nat)
    requires Ascending(rows, last) && rows != []
    ensures rows[0].seqno <= last
  {
  }

  lemma AscendingInsert<T>(t: Table<T>, data: T)
    requires Ascending(t.rows, t.last)
    ensures Ascending(t.Insert(data).rows, t.Insert(data).last)
  {
  }

  lemma {:induction false} CidsWithout(rows: seq<Row<CkRow>>, key: Key, cid: string, k: Key)
    ensures CidsOf(Filter(rows, NotRow(key, cid)), k) ==
            if k == key then Without(CidsOf(rows, k), cid) else CidsOf(rows, k)
  {
    if rows != [] {
      var r, kept := rows[0], Filter(rows[1..], NotRow(key, cid));
      CidsWithout(rows[1..], key, cid, k);
      CidsCons(rows, k);
      var head := if r.data.key == k then [r.data.cid] else [];
      WithoutAppend(head, CidsOf(rows[1..], k), cid);
      if NotRow(key, cid)(r) {
        assert ([r] + kept)[1..] == kept;
        CidsCons([r] + kept, k);
      } else {
        assert [] + kept == kept;
      }
    }
  }

  lemma CidsCons(rows: seq<Row<CkRow>>, k: Key)
    requires rows != []
    ensures CidsOf(rows, k) == (if rows[0].data.key == k then [rows[0].data.cid] else []) + CidsOf(rows[1..], k)
  {
  }

  lemma CidsAppend(rows: seq<Row<CkRow>>, r: Row<CkRow>, k: Key)
    ensures CidsOf(rows + [r], k) == CidsOf(rows, k) + if r.data.key == k then [r.data.cid] else []
  {
    FilterAppend(rows, [r], OfKey(k));
  }

  lemma WritesAppend(rows: seq<Row<WriteRow>>, r: Row<WriteRow>, k: Key, c: string)
    ensures WritesOf(rows + [r], k, c) ==
            WritesOf(rows, k, c) + if r.data.key == k && r.data.cid == c then [r.data.write] else []
  {
    FilterAppend(rows, [r], OfSlot(k, c));
  }

  lemma ConflictIffWrite(rows: seq<Row<WriteRow>>, k: Key, c: string, taskId: string, taskPath: string)
    ensures Conflicts(rows, k, c, taskId, taskPath) <==> HasWrite(WritesOf(rows, k, c), taskId, taskPath)
  {
    var f := Filter(rows, OfSlot(k, c));
    FilterMembers(rows, OfSlot(k, c));
    if Conflicts(rows, k, c, taskId, taskPath) {
      var i :| 0 <= i < |rows| && rows[i].data.key == k && rows[i].data.cid == c
               && rows[i].data.write.taskId == taskId && rows[i].data.write.taskPath == taskPath;
      assert rows[i] in f;
      var j :| 0 <= j < |f| && f[j] == rows[i];
      assert WritesOf(rows, k, c)[j] == rows[i].data.write;
    }
    if HasWrite(WritesOf(rows, k, c), taskId, taskPath) {
      var j :| 0 <= j < |f| && WritesOf(rows, k, c)[j].taskId == taskId && WritesOf(rows, k, c)[j].taskPath == taskPath;
      assert f[j] in f;
      var i :| 0 <= i < |rows| && rows[i] == f[j];
    }
  }

  lemma MemPutValid(m: Mem, op: Op)
    requires MemValid(m) && op.Put?
    ensures MemValid(MemPut(m, op))
    ensures forall k ::
              MemPut(m, op).Order(k) == if k == KeyOf(op) then Without(m.Order(k), op.cid) + [op.cid] else m.Order(k)
  {
    hide RecordOf, RemoveFirst, Without;
    var key, n := KeyOf(op), MemPut(m, op);
    var order := m.Order(key);
    RemoveFirstIsWithout(order, op.cid);
    WithoutNoDup(order, op.cid);
    assert n.order[key] == Without(order, op.cid) + [op.cid];
    assert op.cid !in Without(order, op.cid);
    assert NoDup(n.order[key]);
    assert forall c :: c in n.Records(key) <==> c in n.Order(key);
    assert forall k :: k != key ==> n.Records(k) == m.Records(k) && n.Order(k) == m.Order(k);
    assert n.keys == (if key in m.keys then m.keys else m.keys + [key]);
  }

  lemma RowsAfterPut(m: Mem, s: Sql, op: Op)
    requires RowsRecorded(s.checkpoints.rows, m) && op.Put?
    ensures RowsRecorded(SqlPut(s, op).checkpoints.rows, MemPut(m, op))
  {
    var key, rows := KeyOf(op), s.checkpoints.rows;
    var kept := Filter(rows, NotRow(key, op.cid));
    FilterMembers(rows, NotRow(key, op.cid));
    var after := SqlPut(s, op).checkpoints.rows;
    assert after == kept + [Row(s.checkpoints.last + 1, CkRow(key, op.cid, RecordOf(op)))];
    var n := MemPut(m, op);
    forall i | 0 <= i < |after|
      ensures var d := after[i].data; d.cid in n.Records(d.key) && n.Records(d.key)[d.cid] == d.record
    {
      if i < |kept| {
        assert kept[i] in kept;
        assert kept[i] in rows && NotRow(key, op.cid)(kept[i]);
      }
    }
  }

  lemma OrderAfterPut(m: Mem, s: Sql, op: Op, k: Key)
    requires op.Put? && m.Order(k) == CidsOf(s.checkpoints.rows, k)
    ensures (if k == KeyOf(op) then Without(m.Order(k), op.cid) + [op.cid] else m.Order(k))
            == CidsOf(SqlPut(s, op).checkpoints.rows, k)
  {
    var rows := s.checkpoints.rows;
    CidsWithout(rows, KeyOf(op), op.cid, k);
    CidsAppend(Filter(rows, NotRow(KeyOf(op), op.cid)),
        Row(s.checkpoints.last + 1, CkRow(KeyOf(op), op.cid, RecordOf(op))), k);
  }

  lemma PutAscends(s: Sql, op: Op)
    requires op.Put? && Ascending(s.checkpoints.rows, s.checkpoints.last)
    ensures Ascending(SqlPut(s, op).checkpoints.rows, SqlPut(s, op).checkpoints.last)
  {
    var kept := Filter(s.checkpoints.rows, NotRow(KeyOf(op), op.cid));
    AscendingFilter(s.checkpoints.rows, s.checkpoints.last, NotRow(KeyOf(op), op.cid));
    AscendingInsert(Table(kept, s.checkpoints.last), CkRow(KeyOf(op), op.cid, RecordOf(op)));
  }

  lemma PutMatches(m: Mem, s: Sql, op: Op)
    requires Matches(m, s) && op.Put?
    ensures Matches(MemPut(m, op), SqlPut(s, op))
  {
    hide MemValid, Ascending, RowsRecorded, CidsOf, WritesOf;
    var n, t := MemPut(m, op), SqlPut(s, op);
    MemPutValid(m, op);
    RowsAfterPut(m, s, op);
    PutAscends(s, op);
    forall k ensures n.Order(k) == CidsOf(t.checkpoints.rows, k) {
      OrderAfterPut(m, s, op, k);
    }
    forall k, c ensures n.Writes(k, c) == WritesOf(t.writes.rows, k, c) {
      assert n.Writes(k, c) == m.Writes(k, c);
    }
  }

  lemma WritesAfterPutWrites(m: Mem, s: Sql, op: Op, k: Key, c: string)
    requires op.PutWrites? && m.Writes(k, c) == WritesOf(s.writes.rows, k, c)
    requires m.Writes(KeyOf(op), op.cid) == WritesOf(s.writes.rows, KeyOf(op), op.cid)
    ensures MemPutWrites(m, op).Writes(k, c) == WritesOf(SqlPutWrites(s, op).writes.rows, k, c)
  {
    hide HasWrite, Conflicts, WritesOf;
    ConflictIffWrite(s.writes.rows, KeyOf(op), op.cid, op.taskId, op.taskPath);
    var w := WriteRow(KeyOf(op), op.cid, Write(op.taskId, op.taskPath, op.value));
    WritesAppend(s.writes.rows, Row(s.writes.last + 1, w), k, c);
  }

  lemma PutWritesMatches(m: Mem, s: Sql, op: Op)
    requires Matches(m, s) && op.PutWrites?
    ensures Matches(MemPutWrites(m, op), SqlPutWrites(s, op))
  {
    hide MemValid, Ascending, RowsRecorded, WritesOf, CidsOf, HasWrite;
    var n, t := MemPutWrites(m, op), SqlPutWrites(s, op);
    AscendingInsert(s.writes, WriteRow(KeyOf(op), op.cid, Write(op.taskId, op.taskPath, op.value)));
    forall k, c ensures n.Writes(k, c) == WritesOf(t.writes.rows, k, c) {
      assert m.Writes(k, c) == WritesOf(s.writes.rows, k, c);
      assert m.Writes(KeyOf(op), op.cid) == WritesOf(s.writes.rows, KeyOf(op), op.cid);
      WritesAfterPutWrites(m, s, op, k, c);
    }
    forall k ensures n.Order(k) == CidsOf(t.checkpoints.rows, k) {
      assert n.Order(k) == m.Order(k);
    }
    SameRecords(m, n, s.checkpoints.rows);
  }

  lemma SameRecords(m: Mem, n: Mem, rows: seq<Row<CkRow>>)
    requires n.records == m.records && n.order == m.order && n.keys == m.keys
    ensures MemValid(m) ==> MemValid(n)
    ensures RowsRecorded(rows, m) ==> RowsRecorded(rows, n)
  {
    assert forall k :: n.Records(k) == m.Records(k) && n.Order(k) == m.Order(k);
  }

  lemma EmptyMatches()
    ensures Matches(EMPTY_MEM, EMPTY_SQL)
  {
  }

  /** After any sequence of puts and writes the two stores are in step. */
  lemma {:induction false} RunsMatch(m: Mem, s: Sql, ops: seq<Op>)
    requires Matches(m, s)
    ensures Matches(MemRun(m, ops), SqlRun(s, ops))
    decreases |ops|
  {
    if ops != [] {
      if ops[0].Put? { PutMatches(m, s, ops[0]); } else { PutWritesMatches(m, s, ops[0]); }
      RunsMatch(MemStep(m, ops[0]), SqlStep(s, ops[0]), ops[1..]);
    }
  }

  // ---- replies ----

  lemma {:induction false} InsertLowest<T(!new)>(r: Row<T>, rows: seq<Row<T>>)
    requires forall x :: x in rows ==> r.seqno < x.seqno
    ensures InsertDesc(r, rows) == rows + [r]
  {
    if rows != [] {
      assert rows[0] in rows;
      InsertLowest(r, rows[1..]);
      assert rows + [r] == [rows[0]] + (rows[1..] + [r]);
    }
  }

  /** Sorting a table that is already in `seq` order only turns it round. */
  lemma {:induction false} DescIsReverse<T(!new)>(rows: seq<Row<T>>, last: nat)
    requires Ascending(rows, last)
    ensures OrderDesc(rows) == Reverse(rows)
  {
    if rows != [] {
      AscendingTail(rows, last);
      DescIsReverse(rows[1..], last);
      var back := Reverse(rows[1..]);
      assert forall x :: x in back ==> x in rows[1..];
      InsertLowest(rows[0], back);
      assert Reverse(rows) == back + [rows[0]];
    }
  }

  lemma RowIsRecorded(m: Mem, rows: seq<Row<CkRow>>, r: Row<CkRow>)
    requires RowsRecorded(rows, m) && r in rows
    ensures r.data.cid in m.Records(r.data.key) && m.Records(r.data.key)[r.data.cid] == r.data.record
  {
  }

  lemma SlotInOrder(m: Mem, s: Sql, key: Key, cid: string)
    requires Matches(m, s)
    ensures Map(OrderAsc(Filter(s.writes.rows, OfSlot(key, cid))), WriteOf) == m.Writes(key, cid)
  {
    hide MemValid, Ascending, RowsRecorded;
    AscendingFilter(s.writes.rows, s.writes.last, OfSlot(key, cid));
    var f := Filter(s.writes.rows, OfSlot(key, cid));
    DescIsReverse(f, s.writes.last);
    assert Reverse(Reverse(f)) == f;
    assert m.Writes(key, cid) == WritesOf(s.writes.rows, key, cid);
  }

  lemma RecordsIffOrder(m: Mem, key: Key)
    requires MemValid(m)
    ensures m.Records(key) == map[] <==> m.Order(key) == []
  {
    if m.Order(key) != [] {
      assert m.Order(key)[0] in m.Records(key);
    }
  }

  lemma RowByIdIsRecord(m: Mem, s: Sql, key: Key, cid: string)
    requires Matches(m, s)
    ensures var hit := Filter(s.checkpoints.rows, OfRow(key, cid));
            if cid in m.Records(key)
            then hit != [] && hit[0] in s.checkpoints.rows && OfRow(key, cid)(hit[0]) &&
                hit[0].data.record == m.Records(key)[cid]
            else hit == []
  {
    hide Ascending, WritesOf;
    var rows := s.checkpoints.rows;
    var hit, f := Filter(rows, OfRow(key, cid)), Filter(rows, OfKey(key));
    FilterMembers(rows, OfRow(key, cid));
    FilterMembers(rows, OfKey(key));
    assert m.Order(key) == CidsOf(rows, key);
    if cid in m.Records(key) {
      assert cid in m.Order(key);
      var i :| 0 <= i < |f| && CidsOf(rows, key)[i] == cid;
      assert f[i] in hit by { assert f[i] in f; }
      assert hit[0] in hit;
      RowIsRecorded(m, rows, hit[0]);
    } else if hit != [] {
      assert hit[0] in hit;
      RowIsRecorded(m, rows, hit[0]);
    }
  }

  lemma NewestRow(m: Mem, s: Sql, key: Key)
    requires Matches(m, s)
    ensures var rows, order := OrderDesc(Filter(s.checkpoints.rows, OfKey(key))), m.Order(key);
            if order == [] then rows == []
            else
              && rows != [] && rows[0].data.cid == order[|order| - 1] && rows[0].data.cid in m.Records(key)
              && rows[0].data.record == m.Records(key)[rows[0].data.cid]
  {
    hide MemValid, Ascending, WritesOf, OrderDesc, Filter, RowsRecorded;
    var rows, f := s.checkpoints.rows, Filter(s.checkpoints.rows, OfKey(key));
    assert m.Order(key) == CidsOf(rows, key);
    FilterMembers(rows, OfKey(key));
    AscendingFilter(rows, s.checkpoints.last, OfKey(key));
    DescIsReverse(f, s.checkpoints.last);
    if f != [] {
      var newest := f[|f| - 1];
      assert newest in f;
      RowIsRecorded(m, rows, newest);
      assert OrderDesc(f)[0] == newest;
    }
  }

  lemma MatchesValid(m: Mem, s: Sql)
    requires Matches(m, s)
    ensures MemValid(m)
  {
  }

  /** `get_tuple`, for the latest checkpoint or by id, with its pending writes in order. */
  lemma GetAgrees(m: Mem, s: Sql, q: GetQuery)
    requires Matches(m, s)
    ensures MemGet(m, q) == SqlGet(s, q)
  {
    hide Matches, MemValid, OrderDesc, OrderAsc, Filter, Map;
    var key := Key(q.thread, NsOf(q.ns));
    MatchesValid(m, s);
    RecordsIffOrder(m, key);
    if q.cid.Some? {
      RowByIdIsRecord(m, s, key, q.cid.value);
      SlotInOrder(m, s, key, q.cid.value);
    } else {
      NewestRow(m, s, key);
      var order := m.Order(key);
      if order != [] {
        SlotInOrder(m, s, key, order[|order| - 1]);
      }
    }
  }

  /** The queries the checkpointer's contract covers: a thread, a namespace, and no limit or one of at least 1. */
  predicate Scoped(q: ListQuery) {
    q.thread.Some? && q.ns.Some? && (q.limit.None? || q.limit.value >= 1)
  }

  lemma {:induction false} FilterSame<T(!new)>(s: seq<T>, p: T -> bool, r: T -> bool)
    requires forall x :: x in s ==> p(x) == r(x)
    ensures Filter(s, p) == Filter(s, r)
  {
    if s != [] {
      assert s[0] in s;
      FilterSame(s[1..], p, r);
    }
  }

  lemma {:induction false} FilterTwice<T(!new)>(s: seq<T>, p: T -> bool, q: T -> bool, both: T -> bool)
    requires forall x :: x in s ==> both(x) == (p(x) && q(x))
    ensures Filter(s, both) == Filter(Filter(s, p), q)
  {
    if s != [] {
      assert s[0] in s;
      FilterTwice(s[1..], p, q, both);
      var tail := Filter(s[1..], p);
      if p(s[0]) {
        assert ([s[0]] + tail)[1..] == tail;
      } else {
        assert [] + tail == tail;
      }
    }
  }

  function Below(n: nat): Row<CkRow> -> bool {
    (r: Row<CkRow>) => r.seqno < n
  }

  lemma {:induction false} BelowIsPrefix(rows: seq<Row<CkRow>>, last: nat, j: nat)
    requires Ascending(rows, last) && j < |rows|
    ensures Filter(rows, Below(rows[j].seqno)) == rows[..j]
  {
    AscendingTail(rows, last);
    if j == 0 {
      NoneBelow(rows, rows[0].seqno);
    } else {
      assert rows[1..][j - 1] == rows[j];
      BelowIsPrefix(rows[1..], last, j - 1);
      assert rows[..j] == [rows[0]] + rows[1..][..j - 1];
    }
  }

  lemma {:induction false} NoneBelow(rows: seq<Row<CkRow>>, n: nat)
    requires forall i :: 0 <= i < |rows| ==> n <= rows[i].seqno
    ensures Filter(rows, Below(n)) == []
  {
    if rows != [] {
      NoneBelow(rows[1..], n);
    }
  }

  predicate RecordedUnder(rows: seq<Row<CkRow>>, key: Key, records: map<string, Record>) {
    forall i :: 0 <= i < |rows| ==>
      rows[i].data.key == key && rows[i].data.cid in records && records[rows[i].data.cid] == rows[i].data.record
  }

  lemma {:induction false} ItemsAreRows(rows: seq<Row<CkRow>>, key: Key, records: map<string, Record>)
    requires RecordedUnder(rows, key, records)
    ensures ItemsOf(key, Map(rows, CidOf), records) == Map(rows, RowItem)
  {
    if rows != [] {
      ItemsAreRows(rows[1..], key, records);
      assert Map(rows, CidOf)[1..] == Map(rows[1..], CidOf);
      assert Map(rows, RowItem) == [RowItem(rows[0])] + Map(rows[1..], RowItem);
    }
  }

  lemma KeyRows(m: Mem, s: Sql, key: Key)
    requires Matches(m, s)
    ensures var f := Filter(s.checkpoints.rows, OfKey(key));
            Ascending(f, s.checkpoints.last) && RecordedUnder(f, key, m.Records(key)) && m.Order(key) == Map(f, CidOf)
  {
    hide WritesOf, MemValid, Ascending;
    var rows := s.checkpoints.rows;
    var f := Filter(rows, OfKey(key));
    FilterMembers(rows, OfKey(key));
    AscendingFilter(rows, s.checkpoints.last, OfKey(key));
    assert m.Order(key) == CidsOf(rows, key);
    forall i | 0 <= i < |f|
      ensures f[i].data.key == key && f[i].data.cid in m.Records(key) &&
          m.Records(key)[f[i].data.cid] == f[i].data.record
    {
      assert f[i] in f;
      RowIsRecorded(m, rows, f[i]);
    }
  }

  lemma RowsBeforeCursor(m: Mem, s: Sql, q: ListQuery, key: Key) returns (j: nat)
    requires Matches(m, s) && Scoped(q) && key == Key(q.thread.value, NsOf(q.ns))
    requires q.before.Some? && q.before.value != "" && q.before.value in m.Order(key)
    ensures var f := Filter(s.checkpoints.rows, OfKey(key));
            && j < |f| && |m.Order(key)| == |f| && m.Order(key)[j] == q.before.value
            && Filter(s.checkpoints.rows, Where(q, CursorSeq(s, q))) == f[..j]
  {
    hide WritesOf, Ascending, RowsRecorded;
    var rows := s.checkpoints.rows;
    var f := Filter(rows, OfKey(key));
    KeyRows(m, s, key);
    assert q.before.value in m.Records(key);
    RowByIdIsRecord(m, s, key, q.before.value);
    FilterMembers(rows, OfKey(key));
    var hit := Filter(rows, OfRow(key, q.before.value))[0];
    assert hit in f;
    j :| 0 <= j < |f| && f[j] == hit;
    assert CursorSeq(s, q) == Some(hit.seqno);
    FilterTwice(rows, OfKey(key), Below(hit.seqno), Where(q, Some(hit.seqno)));
    BelowIsPrefix(f, s.checkpoints.last, j);
  }

  lemma RowsWithoutCursor(m: Mem, s: Sql, q: ListQuery, key: Key)
    requires Matches(m, s) && Scoped(q) && key == Key(q.thread.value, NsOf(q.ns))
    requires q.before.None? || q.before.value == "" || q.before.value !in m.Order(key)
    ensures Filter(s.checkpoints.rows, Where(q, CursorSeq(s, q))) == Filter(s.checkpoints.rows, OfKey(key))
  {
    hide WritesOf, Ascending, RowsRecorded;
    if q.before.Some? && q.before.value != "" {
      assert q.before.value !in m.Records(key);
      RowByIdIsRecord(m, s, key, q.before.value);
    }
    assert CursorSeq(s, q) == None;
    FilterSame(s.checkpoints.rows, Where(q, None), OfKey(key));
  }

  /** The rows a scoped query selects: those of its key, oldest first, before the cursor's row if there is one. */
  lemma SelectedRows(m: Mem, s: Sql, q: ListQuery, key: Key) returns (g: seq<Row<CkRow>>)
    requires Matches(m, s) && Scoped(q) && key == Key(q.thread.value, NsOf(q.ns))
    ensures Filter(s.checkpoints.rows, Where(q, CursorSeq(s, q))) == g
    ensures AfterCursor(Reverse(m.Order(key)), q.before) == Reverse(Map(g, CidOf))
    ensures Ascending(g, s.checkpoints.last) && RecordedUnder(g, key, m.Records(key))
  {
    hide *;
    KeyRows(m, s, key);
    var f, order := Filter(s.checkpoints.rows, OfKey(key)), m.Order(key);
    if q.before.None? || q.before.value == "" || q.before.value !in order {
      RowsWithoutCursor(m, s, q, key);
      NoCut(order, q.before);
      g := f;
    } else {
      var j := RowsBeforeCursor(m, s, q, key);
      OrderHasNoDup(m, s, key);
      CursorCuts(order, j);
      PrefixKeeps(f, s.checkpoints.last, key, m.Records(key), j);
      g := f[..j];
      assert Map(g, CidOf) == order[..j];
    }
  }

  lemma OrderHasNoDup(m: Mem, s: Sql, key: Key)
    requires Matches(m, s)
    ensures NoDup(m.Order(key))
  {
  }

  lemma PrefixKeeps(f: seq<Row<CkRow>>, last: nat, key: Key, records: map<string, Record>, j: nat)
    requires Ascending(f, last) && RecordedUnder(f, key, records) && j <= |f|
    ensures Ascending(f[..j], last) && RecordedUnder(f[..j], key, records)
  {
  }

  lemma NoCut(ids: seq<string>, before: Option<string>)
    requires before.None? || before.value == "" || before.value !in ids
    ensures AfterCursor(Reverse(ids), before) == Reverse(ids)
  {
    assert forall c :: c in Reverse(ids) ==> c in ids;
  }

  /** In a list without duplicates, what follows an id newest-first is what precedes it oldest-first. */
  lemma CursorCuts(ids: seq<string>, j: nat)
    requires NoDup(ids) && j < |ids| && ids[j] != ""
    ensures AfterCursor(Reverse(ids), Some(ids[j])) == Reverse(ids[..j])
  {
    hide IndexOf;
    var back, k := Reverse(ids), |ids| - 1 - j;
    forall i | 0 <= i < k ensures back[..k][i] != ids[j] {
      assert back[..k][i] == ids[|ids| - 1 - i];
    }
    IndexOfIs(back, ids[j], k);
    assert back[k + 1..] == Reverse(ids[..j]);
  }

  lemma MemListOneKey(m: Mem, key: Key, before: Option<string>, limit: Option<int>)
    requires limit.None? || limit.value >= 1
    ensures MemListKeys(m, [key], before, limit, 0) ==
            if key in m.order then Limit(KeyItems(m, key, before), limit) else []
  {
    hide KeyItems;
    var items := KeyItems(m, key, before);
    assert [key][1..] == [];
    assert items + [] == items;
    if limit.Some? {
      assert Take(items, limit.value) + [] == Take(items, limit.value);
    }
  }

  lemma MemListScoped(m: Mem, q: ListQuery, key: Key)
    requires Scoped(q) && key == Key(q.thread.value, NsOf(q.ns))
    ensures MemList(m, q) == Limit(KeyItems(m, key, q.before), q.limit)
  {
    MemListOneKey(m, key, q.before, q.limit);
    if key !in m.order {
      assert Reverse(m.Order(key)) == [];
      assert KeyItems(m, key, q.before) == [];
    }
  }

  lemma LimitMap(rows: seq<Row<CkRow>>, limit: Option<int>)
    ensures Limit(Map(rows, RowItem), limit) == Map(Limit(rows, limit), RowItem)
  {
  }

  /** `list` for a scoped query and any cursor. */
  lemma ListAgrees(m: Mem, s: Sql, q: ListQuery)
    requires Matches(m, s) && Scoped(q)
    ensures MemList(m, q) == SqlList(s, q)
  {
    hide MemValid, Ascending, WritesOf, CidsOf, RowsRecorded, MemList, MemListKeys;
    var key := Key(q.thread.value, NsOf(q.ns));
    MemListScoped(m, q, key);
    var g := SelectedRows(m, s, q, key);
    DescIsReverse(g, s.checkpoints.last);
    var back := Reverse(g);
    assert Map(back, CidOf) == Reverse(Map(g, CidOf));
    assert RecordedUnder(back, key, m.Records(key));
    ItemsAreRows(back, key, m.Records(key));
    LimitMap(back, q.limit);
  }

  /** The bisimulation: after any sequence of puts and writes, both stores give every reader the same reply. */
  lemma StoresAgree(ops: seq<Op>, get: GetQuery, list: ListQuery)
    ensures MemGet(MemRun(EMPTY_MEM, ops), get) == SqlGet(SqlRun(EMPTY_SQL, ops), get)
    ensures Scoped(list) ==> MemList(MemRun(EMPTY_MEM, ops), list) == SqlList(SqlRun(EMPTY_SQL, ops), list)
  {
    hide Matches, MemGet, SqlGet, MemList, SqlList;
    EmptyMatches();
    RunsMatch(EMPTY_MEM, EMPTY_SQL, ops);
    GetAgrees(MemRun(EMPTY_MEM, ops), SqlRun(EMPTY_SQL, ops), get);
    if Scoped(list) {
      ListAgrees(MemRun(EMPTY_MEM, ops), SqlRun(EMPTY_SQL, ops), list);
    }
  }
}
