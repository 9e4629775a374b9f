/** The two checkpoint stores of the worker: an in-memory one and one over SQL tables. */
module CheckpointStore {
  import opened Seqs

  type Blob = string

  datatype Key = Key(thread: string, ns: string)

  datatype Record = Record(parent: Option<string>, checkpoint: Blob, metadata: Blob, versions: Blob)

  datatype Write = Write(taskId: string, taskPath: string, value: Blob)

  /** The two requests that change a store. */
  datatype Op =
    | Put(thread: string, ns: Option<string>, cid: string, parent: Option<string>,
          checkpoint: Blob, metadata: Blob, versions: Option<Blob>)
    | PutWrites(thread: string, ns: Option<string>, cid: string, taskId: string, taskPath: string, value: Blob)

  /** `payload.get("checkpoint_ns") or ""` */
  function NsOf(ns: Option<string>): string {
    if ns.Some? then ns.value else ""
  }

  function KeyOf(op: Op): Key {
    Key(op.thread, NsOf(op.ns))
  }

  function RecordOf(op: Op): Record
    requires op.Put?
  {
    Record(op.parent, op.checkpoint, op.metadata, if op.versions.Some? then op.versions.value else "{}")
  }

  datatype GetQuery = GetQuery(thread: string, ns: Option<string>, cid: Option<string>)

  datatype ListQuery = ListQuery(thread: Option<string>, ns: Option<string>, before: Option<string>, limit: Option<int>)

  datatype Pending = Pending(taskId: string, channel: string, value: Blob)

  datatype Tuple =
    | NotFound
    | Found(cid: string, parent: Option<string>, checkpoint: Blob, metadata: Blob, pending: seq<Pending>)

  datatype Item =
    Item(thread: string, ns: string, cid: string, parent: Option<string>, checkpoint: Blob, metadata: Blob)

  function ToItem(key: Key, cid: string, r: Record): Item {
    Item(key.thread, key.ns, cid, r.parent, r.checkpoint, r.metadata)
  }

  function ToPending(w: Write): Pending {
    Pending(w.taskId, "", w.value)
  }

  function ToTuple(cid: string, r: Record, writes: seq<Write>): Tuple {
    Found(cid, r.parent, r.checkpoint, r.metadata, Map(writes, ToPending))
  }

  // ---- the in-memory store ----

  /** `keys` is the insertion order of the dict `_by_thread`. */
  datatype Mem = Mem(keys: seq<Key>, records: map<Key, map<string, Record>>,
                     order: map<Key, seq<string>>, writes: map<(Key, string), seq<Write>>)
  {
    function Records(key: Key): map<string, Record> {
      if key in records then records[key] else map[]
    }

    function Order(key: Key): seq<string> {
      if key in order then order[key] else []
    }

    function Writes(key: Key, cid: string): seq<Write> {
      if (key, cid) in writes then writes[(key, cid)] else []
    }
  }

  const EMPTY_MEM: Mem := Mem([], map[], map[], map[])

  function MemPut(m: Mem, op: Op): Mem
    requires op.Put?
  {
    var key := KeyOf(op);
    Mem(if key in m.records then m.keys else m.keys + [key],
        m.records[key := m.Records(key)[op.cid := RecordOf(op)]],
        m.order[key := RemoveFirst(m.Order(key), op.cid) + [op.cid]],
        m.writes)
  }

  predicate HasWrite(ws: seq<Write>, taskId: string, taskPath: string) {
    exists i :: 0 <= i < |ws| && ws[i].taskId == taskId && ws[i].taskPath == taskPath
  }

  function MemPutWrites(m: Mem, op: Op): Mem
    requires op.PutWrites?
  {
    var slot := (KeyOf(op), op.cid);
    var existing := m.Writes(KeyOf(op), op.cid);
    m.(writes := m.writes[slot := if HasWrite(existing, op.taskId, op.taskPath) then existing
                                  else existing + [Write(op.taskId, op.taskPath, op.value)]])
  }

  function MemStep(m: Mem, op: Op): Mem {
    if op.Put? then MemPut(m, op) else MemPutWrites(m, op)
  }

  function MemRun(m: Mem, ops: seq<Op>): Mem
    decreases |ops|
  {
    if ops == [] then m else MemRun(MemStep(m, ops[0]), ops[1..])
  }

  function MemGet(m: Mem, q: GetQuery): Tuple {
    var key := Key(q.thread, NsOf(q.ns));
    var records, order := m.Records(key), m.Order(key);
    if records == map[] then NotFound
    else if q.cid.None? && order == [] then NotFound
    else
      var cid := if q.cid.Some? then q.cid.value else order[|order| - 1];
      if cid in records then ToTuple(cid, records[cid], m.Writes(key, cid)) else NotFound
  }

  /** The ids a cursor leaves of a newest-first list; an absent or empty cursor leaves all. */
  function AfterCursor(ids: seq<string>, before: Option<string>): seq<string> {
    if before.Some? && before.value != "" && before.value in ids
    then ids[IndexOf(ids, before.value) + 1..]
    else ids
  }

  function ItemsOf(key: Key, ids: seq<string>, records: map<string, Record>): seq<Item> {
    if ids == [] then []
    else (if ids[0] in records then [ToItem(key, ids[0], records[ids[0]])] else []) + ItemsOf(key, ids[1..], records)
  }

  /** All that one key lists. */
  function KeyItems(m: Mem, key: Key, before: Option<string>): seq<Item> {
    ItemsOf(key, AfterCursor(Reverse(m.Order(key)), before), m.Records(key))
  }

  /** The loop appends before it compares with the limit, so a limit below one still lets one item through, and
      then no second key is looked at. */
  function MemListKeys(m: Mem, keys: seq<Key>, before: Option<string>, limit: Option<int>, have: nat): seq<Item>
    requires limit.Some? ==> have < limit.value || have == 0
  {
    if keys == [] then []
    else if keys[0] !in m.order then MemListKeys(m, keys[1..], before, limit, have)
    else if limit.None? then KeyItems(m, keys[0], before) + MemListKeys(m, keys[1..], before, limit, have)
    else
      var room := if limit.value - have < 1 then 1 else limit.value - have;
      var page := Take(KeyItems(m, keys[0], before), room);
      if have + |page| >= limit.value then page
      else page + MemListKeys(m, keys[1..], before, limit, have + |page|)
  }

  function MemList(m: Mem, q: ListQuery): seq<Item> {
    MemListKeys(m, if q.thread.Some? then [Key(q.thread.value, NsOf(q.ns))] else m.keys, q.before, q.limit, 0)
  }

  // ---- the SQL store ----

  datatype Row<T> = Row(seqno: nat, data: T)

  datatype CkRow = CkRow(key: Key, cid: string, record: Record)

  datatype WriteRow = WriteRow(key: Key, cid: string, write: Write)

  /** `last` is the largest `seq` an AUTOINCREMENT column has handed out. */
  datatype Table<T> = Table(rows: seq<Row<T>>, last: nat) {
    function Insert(data: T): Table<T> {
      Table(rows + [Row(last + 1, data)], last + 1)
    }
  }

  datatype Sql = Sql(checkpoints: Table<CkRow>, writes: Table<WriteRow>)

  const EMPTY_SQL: Sql := Sql(Table([], 0), Table([], 0))

  function OfKey(key: Key): Row<CkRow> -> bool {
    (r: Row<CkRow>) => r.data.key == key
  }

  function NotRow(key: Key, cid: string): Row<CkRow> -> bool {
    (r: Row<CkRow>) => r.data.key != key || r.data.cid != cid
  }

  function OfSlot(key: Key, cid: string): Row<WriteRow> -> bool {
    (r: Row<WriteRow>) => r.data.key == key && r.data.cid == cid
  }

  /** INSERT OR REPLACE under UNIQUE(thread, ns, cid): the conflicting row goes, the new one gets a fresh `seq`. */
  function SqlPut(s: Sql, op: Op): Sql
    requires op.Put?
  {
    var t := s.checkpoints.(rows := Filter(s.checkpoints.rows, NotRow(KeyOf(op), op.cid)));
    s.(checkpoints := t.Insert(CkRow(KeyOf(op), op.cid, RecordOf(op))))
  }

  predicate Conflicts(rows: seq<Row<WriteRow>>, key: Key, cid: string, taskId: string, taskPath: string) {
    exists i :: 0 <= i < |rows| && rows[i].data.key == key && rows[i].data.cid == cid
                && rows[i].data.write.taskId == taskId && rows[i].data.write.taskPath == taskPath
  }

  /** INSERT OR IGNORE under UNIQUE(thread, ns, cid, task_id, task_path). */
  function SqlPutWrites(s: Sql, op: Op): Sql
    requires op.PutWrites?
  {
    if Conflicts(s.writes.rows, KeyOf(op), op.cid, op.taskId, op.taskPath) then s
    else s.(writes := s.writes.Insert(WriteRow(KeyOf(op), op.cid, Write(op.taskId, op.taskPath, op.value))))
  }

  function SqlStep(s: Sql, op: Op): Sql {
    if op.Put? then SqlPut(s, op) else SqlPutWrites(s, op)
  }

  function SqlRun(s: Sql, ops: seq<Op>): Sql
    decreases |ops|
  {
    if ops == [] then s else SqlRun(SqlStep(s, ops[0]), ops[1..])
  }

  function InsertDesc<T>(r: Row<T>, rows: seq<Row<T>>): seq<Row<T>> {
    if rows == [] || r.seqno > rows[0].seqno then [r] + rows else [rows[0]] + InsertDesc(r, rows[1..])
  }

  /** ORDER BY seq DESC */
  function OrderDesc<T>(rows: seq<Row<T>>): seq<Row<T>> {
    if rows == [] then [] else InsertDesc(rows[0], OrderDesc(rows[1..]))
  }

  /** ORDER BY seq */
  function OrderAsc<T>(rows: seq<Row<T>>): seq<Row<T>> {
    Reverse(OrderDesc(rows))
  }

  function WriteOf(r: Row<WriteRow>): Write {
    r.data.write
  }

  function CidOf(r: Row<CkRow>): string {
    r.data.cid
  }

  function RowItem(r: Row<CkRow>): Item {
    ToItem(r.data.key, r.data.cid, r.data.record)
  }

  function SqlGet(s: Sql, q: GetQuery): Tuple {
    var key := Key(q.thread, NsOf(q.ns));
    var rows := if q.cid.None? then OrderDesc(Filter(s.checkpoints.rows, OfKey(key)))
                else Filter(s.checkpoints.rows, OfRow(key, q.cid.value));
    if rows == [] then NotFound
    else
      var ck := rows[0].data;
      ToTuple(ck.cid, ck.record, Map(OrderAsc(Filter(s.writes.rows, OfSlot(key, ck.cid))), WriteOf))
  }

  function OfRow(key: Key, cid: string): Row<CkRow> -> bool {
    (r: Row<CkRow>) => r.data.key == key && r.data.cid == cid
  }

  /** The `seq` the cursor names, looked up under the query's own thread and namespace; `thread = NULL` never
      matches. */
  function CursorSeq(s: Sql, q: ListQuery): Option<nat> {
    if q.thread.None? || q.before.None? || q.before.value == "" then None
    else
      var hit := Filter(s.checkpoints.rows, OfRow(Key(q.thread.value, NsOf(q.ns)), q.before.value));
      if hit == [] then None else Some(hit[0].seqno)
  }

  /** The WHERE clause of `list`. */
  function Where(q: ListQuery, cursor: Option<nat>): Row<CkRow> -> bool {
    (r: Row<CkRow>) =>
      && (q.thread.Some? ==> r.data.key.thread == q.thread.value)
      && (q.thread.Some? && q.ns.Some? ==> r.data.key.ns == q.ns.value)
      && (cursor.Some? ==> r.seqno < cursor.value)
  }

  /** LIMIT: a negative limit is none. */
  function Limit<T>(s: seq<T>, limit: Option<int>): seq<T> {
    if limit.None? || limit.value < 0 then s else Take(s, limit.value)
  }

  function SqlList(s: Sql, q: ListQuery): seq<Item> {
    Map(Limit(OrderDesc(Filter(s.checkpoints.rows, Where(q, CursorSeq(s, q)))), q.limit), RowItem)
  }
}
