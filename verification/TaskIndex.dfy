/** The three secondary indexes of the task table agree with the slots. */
module TaskIndex {
  import opened Pdef
  import opened TaskTable

  // ---------- Agreement ----------

  ghost predicate KeysIndexed<H(!new)>(t: Table<H>) {
    (forall i :: i in t.slots ==>
      (t.slots[i].info.captureId == i &&
       t.slots[i].info.key in t.keyToId && t.keyToId[t.slots[i].info.key] == i)) &&
    forall k :: k in t.keyToId ==> t.keyToId[k] in t.slots && t.slots[t.keyToId[k]].info.key == k
  }

  /** The signature index has exactly the active tasks with a signature. */
  ghost predicate SignaturesIndexed<H(!new)>(t: Table<H>) {
    (forall i :: i in t.slots && t.slots[i].info.signature != "" && Active(t.slots[i].info.status) ==>
      t.slots[i].info.signature in t.signatureToId && t.signatureToId[t.slots[i].info.signature] == i) &&
    forall s :: s in t.signatureToId ==>
      (s != "" && t.signatureToId[s] in t.slots &&
       t.slots[t.signatureToId[s]].info.signature == s && Active(t.slots[t.signatureToId[s]].info.status))
  }

  ghost predicate SidsIndexed<H(!new)>(t: Table<H>) {
    (forall i :: i in t.slots && t.slots[i].info.sid != "" ==>
      t.slots[i].info.sid in t.sidToId && t.sidToId[t.slots[i].info.sid] == i) &&
    forall s :: s in t.sidToId ==> s != "" && t.sidToId[s] in t.slots && t.slots[t.sidToId[s]].info.sid == s
  }

  ghost predicate Indexed<H(!new)>(t: Table<H>) { KeysIndexed(t) && SignaturesIndexed(t) && SidsIndexed(t) }

  // ---------- What lookups find ----------

  /** The lookups answer as the plain map from ids to tasks does. */
  lemma LookupsAgree<H(!new)>(t: Table<H>, name: string)
    requires Indexed(t)
    ensures QueryBy(t, t.keyToId, name) == None <==> forall i :: i in t.slots ==> t.slots[i].info.key != name
    ensures forall i :: i in t.slots && t.slots[i].info.key == name ==>
              QueryBy(t, t.keyToId, name) == Some(t.slots[i].info)
    ensures name != "" ==>
      (QueryBy(t, t.sidToId, name) == None <==> forall i :: i in t.slots ==> t.slots[i].info.sid != name) &&
      forall i :: i in t.slots && t.slots[i].info.sid == name ==> QueryBy(t, t.sidToId, name) == Some(t.slots[i].info)
    ensures name != "" ==>
      (IfActive(QueryBy(t, t.signatureToId, name)) == None <==>
        forall i :: i in t.slots && Active(t.slots[i].info.status) ==> t.slots[i].info.signature != name) &&
      forall i :: i in t.slots && Active(t.slots[i].info.status) && t.slots[i].info.signature == name ==>
        IfActive(QueryBy(t, t.signatureToId, name)) == Some(t.slots[i].info)
  {
    if name in t.keyToId {
      assert t.slots[t.keyToId[name]].info.key == name;
    }
    if name in t.sidToId {
      assert t.slots[t.sidToId[name]].info.sid == name;
    }
    if name in t.signatureToId {
      assert t.slots[t.signatureToId[name]].info.signature == name;
    }
  }

  // ---------- Removal ----------

  lemma RemovedIndexed<H(!new)>(t: Table<H>, id: int)
    requires Indexed(t)
    ensures Indexed(Removed(t, id))
  {
    RemovedKeys(t, id);
    RemovedSignatures(t, id);
    RemovedSids(t, id);
  }

  lemma RemovedKeys<H(!new)>(t: Table<H>, id: int)
    requires KeysIndexed(t)
    ensures KeysIndexed(Removed(t, id))
  {
  }

  lemma RemovedSignatures<H(!new)>(t: Table<H>, id: int)
    requires SignaturesIndexed(t)
    ensures SignaturesIndexed(Removed(t, id))
  {
  }

  lemma RemovedSids<H(!new)>(t: Table<H>, id: int)
    requires SidsIndexed(t)
    ensures SidsIndexed(Removed(t, id))
  {
  }

  // ---------- Addition ----------

  function EvictedVia<H>(t: Table<H>, index: map<string, int>, name: string, id: int): Table<H> {
    if name in index && index[name] != id then Removed(t, index[name]) else t
  }

  /** The table an addition inserts into, with the slot of a re-added id still in place. */
  function ClearedTable<H>(t: Table<H>, id: int, key: string, signature: string, sid: string): Table<H> {
    var t2 := EvictedVia(t, t.keyToId, key, id);
    var t3 := if signature != "" then EvictedVia(t2, t2.signatureToId, signature, id) else t2;
    if sid != "" then EvictedVia(t3, t3.sidToId, sid, id) else t3
  }

  /** `u` is `t` without the slot of id. */
  ghost predicate Without<H>(t: Table<H>, u: Table<H>, id: int) {
    u == t.(slots := t.slots - {id})
  }

  lemma EvictViaTable<H(!new)>(m: Mgr<H>, t: Table<H>, index: map<string, int>, name: string, id: int)
    requires Without(t, m.table, id)
    ensures Without(EvictedVia(t, index, name, id), EvictVia(m, index, name, id).table, id)
  {
    if name in index && index[name] != id {
      assert t.slots - {id} - {index[name]} == t.slots - {index[name]} - {id};
    }
  }

  lemma AddTaskTable<H(!new)>(m: Mgr<H>, id: int, key: string, signature: string, sid: string, obj: H, info: Info)
    ensures AddTask(m, id, key, signature, sid, obj, info).table ==
            Inserted(ClearedTable(m.table, id, key, signature, sid), id, key,
                     Entry(obj, info.(signature := signature, sid := sid)))
  {
    hide EvictVia, EvictedVia;
    var t := m.table;
    var t2 := EvictedVia(t, t.keyToId, key, id);
    var t3 := if signature != "" then EvictedVia(t2, t2.signatureToId, signature, id) else t2;
    var m1 := Displace(m, id);
    assert t.slots - {id} == m1.table.slots;
    var m2 := EvictVia(m1, m1.table.keyToId, key, id);
    EvictViaTable(m1, t, t.keyToId, key, id);
    var m3 := if signature != "" then EvictVia(m2, m2.table.signatureToId, signature, id) else m2;
    EvictViaTable(m2, t2, t2.signatureToId, signature, id);
    EvictViaTable(m3, t3, t3.sidToId, sid, id);
    var c := Cleared(m, id, key, signature, sid);
    var u := ClearedTable(t, id, key, signature, sid);
    assert Without(u, c.table, id);
    var e := Entry(obj, info.(signature := signature, sid := sid));
    assert (u.slots - {id})[id := e] == u.slots[id := e];
  }

  lemma EvictedViaIndexed<H(!new)>(t: Table<H>, index: map<string, int>, name: string, id: int)
    requires Indexed(t)
    ensures var u := EvictedVia(t, index, name, id);
      Indexed(u) && (id in u.slots <==> id in t.slots) && (id in t.slots ==> u.slots[id] == t.slots[id]) &&
      (forall i :: i in u.slots ==> i in t.slots && u.slots[i] == t.slots[i])
    ensures var u := EvictedVia(t, index, name, id);
      (index == t.keyToId ==> name in u.keyToId ==> u.keyToId[name] == id) &&
      (index == t.signatureToId ==> name in u.signatureToId ==> u.signatureToId[name] == id) &&
      (index == t.sidToId ==> name in u.sidToId ==> u.sidToId[name] == id)
    ensures var u := EvictedVia(t, index, name, id);
      (forall k :: k in u.keyToId ==> k in t.keyToId && u.keyToId[k] == t.keyToId[k]) &&
      (forall k :: k in u.signatureToId ==> k in t.signatureToId && u.signatureToId[k] == t.signatureToId[k]) &&
      (forall k :: k in u.sidToId ==> k in t.sidToId && u.sidToId[k] == t.sidToId[k])
  {
    if name in index && index[name] != id {
      RemovedIndexed(t, index[name]);
    }
  }

  /** Nothing but id itself holds the key, the signature or the sid any more. */
  lemma ClearedTableIndexed<H(!new)>(t: Table<H>, id: int, key: string, signature: string, sid: string)
    requires Indexed(t)
    ensures var u := ClearedTable(t, id, key, signature, sid);
      Indexed(u) && (id in u.slots <==> id in t.slots) && (id in t.slots ==> u.slots[id] == t.slots[id]) &&
      (key in u.keyToId ==> u.keyToId[key] == id) &&
      (signature != "" && signature in u.signatureToId ==> u.signatureToId[signature] == id) &&
      (sid != "" && sid in u.sidToId ==> u.sidToId[sid] == id)
  {
    hide Indexed, EvictedVia;
    var t2 := EvictedVia(t, t.keyToId, key, id);
    var t3 := if signature != "" then EvictedVia(t2, t2.signatureToId, signature, id) else t2;
    EvictedViaIndexed(t, t.keyToId, key, id);
    EvictedViaIndexed(t2, t2.signatureToId, signature, id);
    EvictedViaIndexed(t3, t3.sidToId, sid, id);
  }

  /** The index entries of the old contents of a slot are right for the new contents as well. */
  predicate Fits(was: Info, now: Info) {
    was.key == now.key &&
    (was.sid != "" ==> was.sid == now.sid) &&
    (was.signature != "" && Active(was.status) ==> was.signature == now.signature && Active(now.status))
  }

  lemma InsertedKeys<H(!new)>(t: Table<H>, id: int, e: Entry<H>)
    requires KeysIndexed(t) && e.info.captureId == id
    requires e.info.key in t.keyToId ==> t.keyToId[e.info.key] == id
    ensures KeysIndexed(Inserted(t, id, e.info.key, e)) <==> (id in t.slots ==> t.slots[id].info.key == e.info.key)
  {
    var u := Inserted(t, id, e.info.key, e);
    if id in t.slots && t.slots[id].info.key != e.info.key {
      assert u.keyToId[t.slots[id].info.key] == id;
    }
  }

  lemma InsertedSignatures<H(!new)>(t: Table<H>, id: int, e: Entry<H>)
    requires SignaturesIndexed(t)
    requires e.info.signature != "" && e.info.signature in t.signatureToId ==> t.signatureToId[e.info.signature] == id
    ensures SignaturesIndexed(Inserted(t, id, e.info.key, e)) <==>
            (id in t.slots && t.slots[id].info.signature != "" && Active(t.slots[id].info.status) ==>
              t.slots[id].info.signature == e.info.signature && Active(e.info.status))
  {
    var u := Inserted(t, id, e.info.key, e);
    if id in t.slots && t.slots[id].info.signature != "" && Active(t.slots[id].info.status) {
      var s := t.slots[id].info.signature;
      assert u.signatureToId[s] == id;
    }
  }

  lemma InsertedSids<H(!new)>(t: Table<H>, id: int, e: Entry<H>)
    requires SidsIndexed(t)
    requires e.info.sid != "" && e.info.sid in t.sidToId ==> t.sidToId[e.info.sid] == id
    ensures SidsIndexed(Inserted(t, id, e.info.key, e)) <==>
            (id in t.slots && t.slots[id].info.sid != "" ==> t.slots[id].info.sid == e.info.sid)
  {
    var u := Inserted(t, id, e.info.key, e);
    if id in t.slots && t.slots[id].info.sid != "" {
      assert u.sidToId[t.slots[id].info.sid] == id;
    }
  }

  /** An addition keeps the indexes in agreement exactly when its id is new or its contents fit the entries
      of the task that had the id. */
  lemma AddTaskIndexed<H(!new)>(m: Mgr<H>, id: int, key: string, signature: string, sid: string, obj: H, info: Info)
    requires Indexed(m.table) && info.captureId == id && info.key == key
    ensures Indexed(AddTask(m, id, key, signature, sid, obj, info).table) <==>
            (id in m.table.slots ==> Fits(m.table.slots[id].info, info.(signature := signature, sid := sid)))
  {
    hide AddTask, ClearedTable, KeysIndexed, SignaturesIndexed, SidsIndexed, Inserted;
    AddTaskTable(m, id, key, signature, sid, obj, info);
    ClearedTableIndexed(m.table, id, key, signature, sid);
    var u := ClearedTable(m.table, id, key, signature, sid);
    var e := Entry(obj, info.(signature := signature, sid := sid));
    InsertedKeys(u, id, e);
    InsertedSignatures(u, id, e);
    InsertedSids(u, id, e);
  }

  // ---------- Updates ----------

  /** Updaters leave the identity of a task alone. */
  predicate SameIdentity(was: Info, now: Info) {
    was.captureId == now.captureId && was.key == now.key && was.signature == now.signature && was.sid == now.sid
  }

  /** An update keeps the indexes in agreement except when it revives a task whose signature an active task
      has taken meanwhile. */
  lemma UpdateIndexed<H(!new)>(m: Mgr<H>, id: int, obj: H, info: Info)
    requires Indexed(m.table) && id in m.table.slots && SameIdentity(m.table.slots[id].info, info)
    ensures Indexed(Update(m, id, obj, info).table) <==>
            !(!Active(m.table.slots[id].info.status) && Active(info.status) &&
              info.signature != "" && info.signature in m.table.signatureToId)
  {
    ReplacedKeysAndSids(m.table, id, Entry(obj, info));
    ReplacedSignatures(m.table, id, Entry(obj, info));
  }

  lemma ReplacedKeysAndSids<H(!new)>(t: Table<H>, id: int, e: Entry<H>)
    requires KeysIndexed(t) && SidsIndexed(t) && id in t.slots && SameIdentity(t.slots[id].info, e.info)
    ensures KeysIndexed(Replaced(t, id, e)) && SidsIndexed(Replaced(t, id, e))
  {
  }

  lemma ReplacedSignatures<H(!new)>(t: Table<H>, id: int, e: Entry<H>)
    requires SignaturesIndexed(t) && id in t.slots && SameIdentity(t.slots[id].info, e.info)
    ensures SignaturesIndexed(Replaced(t, id, e)) <==>
            !(!Active(t.slots[id].info.status) && Active(e.info.status) &&
              e.info.signature != "" && e.info.signature in t.signatureToId)
  {
    var u := Replaced(t, id, e);
    var s := e.info.signature;
    if !Active(t.slots[id].info.status) && Active(e.info.status) && s != "" && s in t.signatureToId {
      var other := t.signatureToId[s];
      assert other != id && u.slots[other] == t.slots[other] && u.signatureToId[s] == id;
    }
  }
}
