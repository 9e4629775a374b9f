/** The SQL checkpoint store as the worker runs it: two tables changed in place by its statements. */
module SqliteStore {
  import opened Seqs
  import opened CheckpointStore

  class Store {
    var checkpoints: Table<CkRow>
    var writes: Table<WriteRow>

    function View(): Sql
      reads this
    {
      Sql(checkpoints, writes)
    }

    constructor ()
      ensures View() == EMPTY_SQL
    {
      checkpoints, writes := Table([], 0), Table([], 0);
    }

    /** REPLACE deletes the conflicting row, then inserts: one row of that key and id is left, the last and above all
        others by `seq`, and every other row stays. */
    method Put(op: Op)
      requires op.Put?
      modifies this
      ensures View() == SqlPut(old(View()), op)
      ensures var rows, was, here := checkpoints.rows, old(checkpoints.rows), OfRow(KeyOf(op), op.cid);
              && rows != [] && rows[|rows| - 1].data == CkRow(KeyOf(op), op.cid, RecordOf(op))
              && (forall i :: 0 <= i < |rows| ==> (here(rows[i]) <==> i == |rows| - 1))
              && (forall r :: r in was && !here(r) ==> r in rows)
              && (forall i :: 0 <= i < |rows| - 1 ==> rows[i] in was)
              && ((forall r :: r in was ==> r.seqno <= old(checkpoints.last)) ==>
                    forall i :: 0 <= i < |rows| - 1 ==> rows[i].seqno < rows[|rows| - 1].seqno)
    {
      FilterMembers(checkpoints.rows, NotRow(KeyOf(op), op.cid));
      ghost var kept := Filter(checkpoints.rows, NotRow(KeyOf(op), op.cid));
      assert forall i :: 0 <= i < |kept| ==> kept[i] in kept;
      checkpoints := checkpoints.(rows := Filter(checkpoints.rows, NotRow(KeyOf(op), op.cid)));
      checkpoints := checkpoints.Insert(CkRow(KeyOf(op), op.cid, RecordOf(op)));
    }

    /** IGNORE: afterwards the task has its write, and every row there was is still there, in its place. */
    method PutWrites(op: Op)
      requires op.PutWrites?
      modifies this
      ensures View() == SqlPutWrites(old(View()), op)
      ensures Conflicts(writes.rows, KeyOf(op), op.cid, op.taskId, op.taskPath)
      ensures old(writes.rows) <= writes.rows && |writes.rows| <= |old(writes.rows)| + 1
    {
      if !Conflicts(writes.rows, KeyOf(op), op.cid, op.taskId, op.taskPath) {
        writes := writes.Insert(WriteRow(KeyOf(op), op.cid, Write(op.taskId, op.taskPath, op.value)));
        ghost var last := writes.rows[|writes.rows| - 1];
        assert last.data.write.taskId == op.taskId;
      }
    }

    method GetTuple(q: GetQuery) returns (t: Tuple)
      ensures t == SqlGet(View(), q)
    {
      var key := Key(q.thread, NsOf(q.ns));
      var rows;
      if q.cid.None? {
        rows := OrderDesc(Filter(checkpoints.rows, OfKey(key)));
      } else {
        rows := Filter(checkpoints.rows, OfRow(key, q.cid.value));
      }
      if rows == [] {
        return NotFound;
      }
      var ck := rows[0].data;
      var pending := [];
      var written := OrderAsc(Filter(writes.rows, OfSlot(key, ck.cid)));
      for i := 0 to |written|
        invariant pending == Map(written[..i], WriteOf)
      {
        pending := pending + [written[i].data.write];
      }
      assert written[..|written|] == written;
      return ToTuple(ck.cid, ck.record, pending);
    }

    method List(q: ListQuery) returns (items: seq<Item>)
      ensures items == SqlList(View(), q)
    {
      var cursor := CursorSeq(View(), q);
      var rows := Limit(OrderDesc(Filter(checkpoints.rows, Where(q, cursor))), q.limit);
      items := [];
      for i := 0 to |rows|
        invariant items == Map(rows[..i], RowItem)
      {
        items := items + [RowItem(rows[i])];
      }
      assert rows[..|rows|] == rows;
    }
  }
}
