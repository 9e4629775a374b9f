/** The in-memory checkpoint store as the worker runs it, its dicts updated in place. */
module MemoryStore {
  import opened Seqs
  import opened CheckpointStore

  class Store {
    var keys: seq<Key>
    var byThread: map<Key, map<string, Record>>
    var order: map<Key, seq<string>>
    var writes: map<(Key, string), seq<Write>>

    function View(): Mem
      reads this
    {
      Mem(keys, byThread, order, writes)
    }

    constructor ()
      ensures View() == EMPTY_MEM
    {
      keys, byThread, order, writes := [], map[], map[], map[];
    }

    method Put(op: Op)
      requires op.Put?
      modifies this
      ensures View() == MemPut(old(View()), op)
    {
      var key := KeyOf(op);
      var records := if key in byThread then byThread[key] else map[];
      if key !in byThread {
        keys := keys + [key];
      }
      byThread := byThread[key := records[op.cid := RecordOf(op)]];
      var ids := if key in order then order[key] else [];
      if op.cid in ids {
        var i := IndexOf(ids, op.cid);
        ids := ids[..i] + ids[i + 1..];
      }
      order := order[key := ids + [op.cid]];
    }

    /** The scan for a write of the same task returns early on a hit. */
    method PutWrites(op: Op)
      requires op.PutWrites?
      modifies this
      ensures View() == MemPutWrites(old(View()), op)
    {
      var slot := (KeyOf(op), op.cid);
      var existing := if slot in writes then writes[slot] else [];
      writes := writes[slot := existing];
      for i := 0 to |existing|
        invariant forall j :: 0 <= j < i ==> existing[j].taskId != op.taskId || existing[j].taskPath != op.taskPath
      {
        if existing[i].taskId == op.taskId && existing[i].taskPath == op.taskPath {
          return;
        }
      }
      writes := writes[slot := existing + [Write(op.taskId, op.taskPath, op.value)]];
    }

    method GetTuple(q: GetQuery) returns (t: Tuple)
      ensures t == MemGet(View(), q)
    {
      var key := Key(q.thread, NsOf(q.ns));
      if key !in byThread || byThread[key] == map[] {
        return NotFound;
      }
      var ids := if key in order then order[key] else [];
      if q.cid.None? && ids == [] {
        return NotFound;
      }
      var cid := if q.cid.Some? then q.cid.value else ids[|ids| - 1];
      if cid !in byThread[key] {
        return NotFound;
      }
      var record := byThread[key][cid];
      var ws := if (key, cid) in writes then writes[(key, cid)] else [];
      var pending: seq<Pending> := [];
      for i := 0 to |ws|
        invariant |pending| == i && forall j :: 0 <= j < i ==> pending[j] == ToPending(ws[j])
      {
        pending := pending + [Pending(ws[i].taskId, "", ws[i].value)];
      }
      assert pending == Map(ws, ToPending);
      return Found(cid, record.parent, record.checkpoint, record.metadata, pending);
    }

    /** The inner loop of `list`: one key, until the items so far reach the limit. */
    method ListKey(key: Key, ids: seq<string>, limit: Option<int>, have: nat) returns (page: seq<Item>)
      ensures var all := ItemsOf(key, ids, View().Records(key));
              page == if limit.None? then all else Take(all, if limit.value - have < 1 then 1 else limit.value - have)
    {
      page := [];
      var records := if key in byThread then byThread[key] else map[];
      assert ids[..0] == [];
      for i := 0 to |ids|
        invariant page == ItemsOf(key, ids[..i], records)
        invariant limit.Some? ==> page == [] || have + |page| < limit.value
      {
        ItemsSnoc(key, ids, i, records);
        if ids[i] in records {
          page := page + [ToItem(key, ids[i], records[ids[i]])];
          if limit.Some? && have + |page| >= limit.value {
            ItemsPrefix(key, ids, i + 1, records);
            return;
          }
        }
      }
      assert ids[..|ids|] == ids;
    }

    method KeyPage(key: Key, before: Option<string>, limit: Option<int>, have: nat) returns (page: seq<Item>)
      requires key in order
      ensures page == PageOf(View(), key, before, limit, have)
    {
      hide ItemsOf, ToItem;
      var ids := Reverse(order[key]);
      if before.Some? && before.value != "" && before.value in ids {
        ids := ids[IndexOf(ids, before.value) + 1..];
      }
      page := ListKey(key, ids, limit, have);
    }

    method List(q: ListQuery) returns (items: seq<Item>)
      ensures items == MemList(View(), q)
    {
      items := [];
      var ks := if q.thread.Some? then [Key(q.thread.value, NsOf(q.ns))] else keys;
      ghost var m := View();
      assert ks[0..] == ks;
      assert MemList(m, q) == MemListKeys(m, ks, q.before, q.limit, 0);
      assert m.order == order && m == View();
      hide *;
      for i := 0 to |ks|
        invariant q.limit.Some? ==> |items| < q.limit.value || |items| == 0
        invariant MemListKeys(m, ks, q.before, q.limit, 0) ==
            items + MemListKeys(m, ks[i..], q.before, q.limit, |items|)
      {
        ListKeysNext(m, ks, i, q.before, q.limit, items);
        if ks[i] in order {
          var page := KeyPage(ks[i], q.before, q.limit, |items|);
          items := items + page;
          if q.limit.Some? && |items| >= q.limit.value {
            return;
          }
        }
      }
      NoKeys(m, ks[|ks|..], q.before, q.limit, |items|);
    }
  }

  function PageOf(m: Mem, key: Key, before: Option<string>, limit: Option<int>, have: nat): seq<Item> {
    if limit.None? then KeyItems(m, key, before)
    else Take(KeyItems(m, key, before), if limit.value - have < 1 then 1 else limit.value - have)
  }

  lemma NoKeys(m: Mem, ks: seq<Key>, before: Option<string>, limit: Option<int>, have: nat)
    requires ks == [] && (limit.Some? ==> have < limit.value || have == 0)
    ensures MemListKeys(m, ks, before, limit, have) == []
  {
  }

  /** One round of the loop over keys: what this key adds, and whether it is the last looked at. */
  lemma ListKeysFrom(m: Mem, ks: seq<Key>, i: nat, before: Option<string>, limit: Option<int>, have: nat)
    requires i < |ks| && (limit.Some? ==> have < limit.value || have == 0)
    ensures var page := PageOf(m, ks[i], before, limit, have);
            MemListKeys(m, ks[i..], before, limit, have) ==
            if ks[i] !in m.order then MemListKeys(m, ks[i + 1..], before, limit, have)
            else if limit.None? then page + MemListKeys(m, ks[i + 1..], before, limit, have + |page|)
            else if have + |page| >= limit.value then page
            else page + MemListKeys(m, ks[i + 1..], before, limit, have + |page|)
  {
    hide KeyItems;
    var left := ks[i..];
    assert left[0] == ks[i] && left[1..] == ks[i + 1..];
    if limit.None? {
      HaveUnused(m, ks[i + 1..], before, have, have + |KeyItems(m, ks[i], before)|);
    }
  }

  /** The same, behind the items listed so far. */
  lemma ListKeysNext(m: Mem, ks: seq<Key>, i: nat, before: Option<string>, limit: Option<int>, had: seq<Item>)
    requires i < |ks| && (limit.Some? ==> |had| < limit.value || |had| == 0)
    ensures var now := had + PageOf(m, ks[i], before, limit, |had|);
            had + MemListKeys(m, ks[i..], before, limit, |had|) ==
            if ks[i] !in m.order then had + MemListKeys(m, ks[i + 1..], before, limit, |had|)
            else if limit.Some? && |now| >= limit.value then now
            else now + MemListKeys(m, ks[i + 1..], before, limit, |now|)
  {
    hide *;
    ListKeysFrom(m, ks, i, before, limit, |had|);
    var page := PageOf(m, ks[i], before, limit, |had|);
    if limit.None? || |had + page| < limit.value {
      Associate(had, page, MemListKeys(m, ks[i + 1..], before, limit, |had + page|));
    }
  }

  lemma {:induction false} HaveUnused(m: Mem, ks: seq<Key>, before: Option<string>, a: nat, b: nat)
    ensures MemListKeys(m, ks, before, None, a) == MemListKeys(m, ks, before, None, b)
  {
    hide KeyItems;
    if ks != [] {
      HaveUnused(m, ks[1..], before, a, b);
    }
  }

  lemma {:induction false} ItemsAppend(key: Key, a: seq<string>, b: seq<string>, records: map<string, Record>)
    ensures ItemsOf(key, a + b, records) == ItemsOf(key, a, records) + ItemsOf(key, b, records)
  {
    hide ToItem;
    if a == [] {
      assert a + b == b;
    } else {
      ItemsAppend(key, a[1..], b, records);
      var ab := a + b;
      assert ab[0] == a[0] && ab[1..] == a[1..] + b;
      var head := if a[0] in records then [ToItem(key, a[0], records[a[0]])] else [];
      assert ItemsOf(key, ab, records) == head + ItemsOf(key, a[1..] + b, records);
      assert ItemsOf(key, a, records) == head + ItemsOf(key, a[1..], records);
      hide ItemsOf;
      Associate(head, ItemsOf(key, a[1..], records), ItemsOf(key, b, records));
    }
  }

  lemma ItemsSnoc(key: Key, ids: seq<string>, i: nat, records: map<string, Record>)
    requires i < |ids|
    ensures ItemsOf(key, ids[..i + 1], records) ==
            ItemsOf(key, ids[..i], records) + if ids[i] in records then [ToItem(key, ids[i], records[ids[i]])] else []
  {
    assert ids[..i + 1] == ids[..i] + [ids[i]];
    ItemsAppend(key, ids[..i], [ids[i]], records);
    assert [ids[i]][1..] == [];
  }

  lemma ItemsPrefix(key: Key, ids: seq<string>, i: nat, records: map<string, Record>)
    requires i <= |ids|
    ensures ItemsOf(key, ids[..i], records) <= ItemsOf(key, ids, records)
  {
    assert ids == ids[..i] + ids[i..];
    ItemsAppend(key, ids[..i], ids[i..], records);
  }
}
