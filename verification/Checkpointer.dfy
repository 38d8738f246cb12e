/** `orchestrator/redis_checkpointer.py`: checkpoints and pending writes kept in
    plain Redis strings, lists and hashes, and the simple store they implement. */
module Checkpointer {
  import opened Basics
  import opened Findings
  import opened StableSort
  import opened RedisKeys

  /** A stored checkpoint; the serialised parts are opaque. */
  datatype Entry = Entry(checkpoint: string, metadata: string, parent: Option<string>)

  datatype Write<V> = Write(task: string, channel: string, value: V, path: string)

  // ---- the Redis database ------------------------------------------------------------

  datatype Redis<V> = Redis(
    strings: map<string, Entry>,
    lists: map<string, seq<string>>,
    hashes: map<string, map<string, Write<V>>>)

  function ListAt<V>(r: Redis<V>, key: string): seq<string> {
    if key in r.lists then r.lists[key] else []
  }

  function HashAt<V>(r: Redis<V>, key: string): map<string, Write<V>> {
    if key in r.hashes then r.hashes[key] else map[]
  }

  /** First half of `aput`. */
  function SetEntry<V>(r: Redis<V>, t: string, n: string, c: string, e: Entry): Redis<V> {
    r.(strings := r.strings[CheckpointKey(t, n, c) := e])
  }

  /** Second half of `aput`. */
  function PushId<V>(r: Redis<V>, t: string, n: string, c: string): Redis<V> {
    r.(lists := r.lists[OrderKey(t, n) := ListAt(r, OrderKey(t, n)) + [c]])
  }

  /** Special channels have fixed negative indices, other writes their position. */
  function IndexOf(special: map<string, int>, channel: string, position: nat): int {
    if channel in special then special[channel] else position
  }

  /** The hash fields that `aput_writes` sets. */
  function ToSet<V>(existing: map<string, Write<V>>, writes: seq<(string, V)>, task: string, path: string,
                    special: map<string, int>): map<string, Write<V>>
  {
    if writes == [] then map[]
    else
      var k := |writes| - 1;
      var before := ToSet(existing, writes[..k], task, path, special);
      var idx := IndexOf(special, writes[k].0, k);
      var field := FieldOf(task, idx);
      if idx >= 0 && field in existing then before
      else before[field := Write(task, writes[k].0, writes[k].1, path)]
  }

  lemma ToSetNext<V>(existing: map<string, Write<V>>, writes: seq<(string, V)>, k: nat, task: string, path: string,
                     special: map<string, int>)
    requires k < |writes|
    ensures var idx := IndexOf(special, writes[k].0, k);
      var before := ToSet(existing, writes[..k], task, path, special);
      ToSet(existing, writes[..k + 1], task, path, special) ==
      if idx >= 0 && FieldOf(task, idx) in existing then before
      else before[FieldOf(task, idx) := Write(task, writes[k].0, writes[k].1, path)]
  {
    assert writes[..k + 1][..k] == writes[..k];
  }

  function PutWrites<V>(r: Redis<V>, t: string, n: string, c: string, writes: seq<(string, V)>, task: string, path: string,
                        special: map<string, int>): Redis<V>
  {
    var key := WritesKey(t, n, c);
    var toSet := ToSet(HashAt(r, key), writes, task, path, special);
    if toSet == map[] then r else r.(hashes := r.hashes[key := HashAt(r, key) + toSet])
  }

  // ---- the simple store ------------------------------------------------------------------

  datatype Slot = Slot(thread: string, ns: string, id: string, task: string, idx: int)

  datatype Store<V> = Store(
    entries: map<(string, string, string), Entry>,
    order: map<(string, string), seq<string>>,
    writes: map<Slot, Write<V>>)

  const EMPTY_ORDER: seq<string> := []

  function OrderOf<V>(a: Store<V>, t: string, n: string): seq<string> {
    if (t, n) in a.order then a.order[(t, n)] else EMPTY_ORDER
  }

  function StoreEntry<V>(a: Store<V>, t: string, n: string, c: string, e: Entry): Store<V> {
    a.(entries := a.entries[(t, n, c) := e])
  }

  function StoreId<V>(a: Store<V>, t: string, n: string, c: string): Store<V> {
    a.(order := a.order[(t, n) := OrderOf(a, t, n) + [c]])
  }

  /** One call: a regular write fills its slot if it was empty before the call,
      a special one replaces what is there. */
  function StoreWrites<V>(a: Store<V>, t: string, n: string, c: string, writes: seq<(string, V)>, task: string, path: string,
                          special: map<string, int>): Store<V>
  {
    if writes == [] then a
    else
      var k := |writes| - 1;
      var before := StoreWrites(a, t, n, c, writes[..k], task, path, special);
      var slot := Slot(t, n, c, task, IndexOf(special, writes[k].0, k));
      if slot.idx >= 0 && slot in a.writes then before
      else before.(writes := before.writes[slot := Write(task, writes[k].0, writes[k].1, path)])
  }

  // ---- Redis implements the store -----------------------------------------------------------

  function FieldAt<V>(hash: map<string, Write<V>>, field: string): Option<Write<V>> {
    if field in hash then Some(hash[field]) else None
  }

  function WriteAt<V>(a: Store<V>, slot: Slot): Option<Write<V>> {
    if slot in a.writes then Some(a.writes[slot]) else None
  }

  /** Every field of every hash was built from its write's task and an index. */
  ghost predicate WellFormed<V>(hash: map<string, Write<V>>) {
    forall f :: f in hash ==> exists i: int :: f == FieldOf(hash[f].task, i)
  }

  ghost predicate EntriesAgree<V>(r: Redis<V>, a: Store<V>) {
    forall t, n, c {:trigger CheckpointKey(t, n, c)} {:trigger (t, n, c)} :: ColonFree(n) && ColonFree(c) ==>
      && (CheckpointKey(t, n, c) in r.strings <==> (t, n, c) in a.entries)
      && ((t, n, c) in a.entries ==> r.strings[CheckpointKey(t, n, c)] == a.entries[(t, n, c)])
  }

  ghost predicate OrdersAgree<V>(r: Redis<V>, a: Store<V>) {
    forall t, n {:trigger OrderKey(t, n)} :: ColonFree(n) ==> ListAt(r, OrderKey(t, n)) == OrderOf(a, t, n)
  }

  ghost predicate WritesAgree<V>(r: Redis<V>, a: Store<V>) {
    forall t, n, c, task, i {:trigger Slot(t, n, c, task, i)} :: ColonFree(n) && ColonFree(c) ==>
      FieldAt(HashAt(r, WritesKey(t, n, c)), FieldOf(task, i)) == WriteAt(a, Slot(t, n, c, task, i))
  }

  ghost predicate Implements<V>(r: Redis<V>, a: Store<V>) {
    && EntriesAgree(r, a) && OrdersAgree(r, a) && WritesAgree(r, a)
    && (forall key :: WellFormed(HashAt(r, key)))
  }

  lemma SetEntrySimulates<V>(r: Redis<V>, a: Store<V>, t: string, n: string, c: string, e: Entry)
    requires Implements(r, a) && ColonFree(n) && ColonFree(c)
    ensures Implements(SetEntry(r, t, n, c, e), StoreEntry(a, t, n, c, e))
  {
    var r', a' := SetEntry(r, t, n, c, e), StoreEntry(a, t, n, c, e);
    forall t', n', c' | ColonFree(n') && ColonFree(c')
      ensures CheckpointKey(t', n', c') in r'.strings <==> (t', n', c') in a'.entries
      ensures (t', n', c') in a'.entries ==> r'.strings[CheckpointKey(t', n', c')] == a'.entries[(t', n', c')]
    {
      KeysInjective(t, n, c, t', n', c');
    }
    assert forall key :: HashAt(r', key) == HashAt(r, key);
    assert WritesAgree(r', a') && OrdersAgree(r', a');
  }

  lemma PushIdSimulates<V>(r: Redis<V>, a: Store<V>, t: string, n: string, c: string)
    requires Implements(r, a) && ColonFree(n)
    ensures Implements(PushId(r, t, n, c), StoreId(a, t, n, c))
  {
    var r', a' := PushId(r, t, n, c), StoreId(a, t, n, c);
    forall t', n' | ColonFree(n') ensures ListAt(r', OrderKey(t', n')) == OrderOf(a', t', n') {
      KeysInjective(t, n, "", t', n', "");
    }
    assert forall key :: HashAt(r', key) == HashAt(r, key);
    assert WritesAgree(r', a') && EntriesAgree(r', a');
  }

  lemma OneMoreField<V>(hash: map<string, Write<V>>, before: map<string, Write<V>>, f: string, g: string, w: Write<V>)
    ensures FieldAt(hash + before[f := w], g) == if f == g then Some(w) else FieldAt(hash + before, g)
  {
  }

  lemma {:induction false} ToSetSimulates<V>(hash: map<string, Write<V>>, a: Store<V>, t: string, n: string, c: string,
    writes: seq<(string, V)>, task: string, path: string, special: map<string, int>, task': string, i: int)
    requires forall s, j {:trigger Slot(t, n, c, s, j)} :: FieldAt(hash, FieldOf(s, j)) == WriteAt(a, Slot(t, n, c, s, j))
    ensures FieldAt(hash + ToSet(hash, writes, task, path, special), FieldOf(task', i)) ==
            WriteAt(StoreWrites(a, t, n, c, writes, task, path, special), Slot(t, n, c, task', i))
  {
    var g, target := FieldOf(task', i), Slot(t, n, c, task', i);
    if writes == [] {
      assert FieldAt(hash, g) == WriteAt(a, target);
      assert hash + map[] == hash;
    } else {
      var k := |writes| - 1;
      ToSetSimulates(hash, a, t, n, c, writes[..k], task, path, special, task', i);
      var idx := IndexOf(special, writes[k].0, k);
      var f, slot := FieldOf(task, idx), Slot(t, n, c, task, idx);
      FieldsDistinct(task, idx, task', i);
      assert FieldAt(hash, f) == WriteAt(a, slot);
      OneMoreField(hash, ToSet(hash, writes[..k], task, path, special), f, g, Write(task, writes[k].0, writes[k].1, path));
    }
  }

  lemma {:induction false} ToSetWellFormed<V>(hash: map<string, Write<V>>, writes: seq<(string, V)>, task: string,
                                              path: string, special: map<string, int>)
    ensures WellFormed(ToSet(hash, writes, task, path, special))
  {
    if writes != [] {
      ToSetWellFormed(hash, writes[..|writes| - 1], task, path, special);
    }
  }

  lemma {:induction false} StoreWritesFrame<V>(a: Store<V>, t: string, n: string, c: string, writes: seq<(string, V)>,
    task: string, path: string, special: map<string, int>, slot: Slot)
    ensures var b := StoreWrites(a, t, n, c, writes, task, path, special);
      && b.entries == a.entries && b.order == a.order
      && ((slot.thread, slot.ns, slot.id, slot.task) != (t, n, c, task) ==> WriteAt(b, slot) == WriteAt(a, slot))
  {
    if writes != [] {
      StoreWritesFrame(a, t, n, c, writes[..|writes| - 1], task, path, special, slot);
    }
  }

  lemma PutWritesHashes<V>(r: Redis<V>, t: string, n: string, c: string, writes: seq<(string, V)>,
                           task: string, path: string, special: map<string, int>, key: string)
    ensures var r' := PutWrites(r, t, n, c, writes, task, path, special);
      && r'.strings == r.strings && r'.lists == r.lists
      && HashAt(r', key) == if key != WritesKey(t, n, c) then HashAt(r, key)
                            else HashAt(r, key) + ToSet(HashAt(r, key), writes, task, path, special)
  {
    var hash := HashAt(r, WritesKey(t, n, c));
    if ToSet(hash, writes, task, path, special) == map[] {
      assert hash + map[] == hash;
    }
  }

  lemma PutWritesAgree<V>(r: Redis<V>, a: Store<V>, t: string, n: string, c: string, writes: seq<(string, V)>,
                          task: string, path: string, special: map<string, int>, slot: Slot)
    requires WritesAgree(r, a) && ColonFree(n) && ColonFree(c) && ColonFree(slot.ns) && ColonFree(slot.id)
    ensures FieldAt(HashAt(PutWrites(r, t, n, c, writes, task, path, special), WritesKey(slot.thread, slot.ns, slot.id)),
                    FieldOf(slot.task, slot.idx)) ==
            WriteAt(StoreWrites(a, t, n, c, writes, task, path, special), slot)
  {
    var key := WritesKey(slot.thread, slot.ns, slot.id);
    PutWritesHashes(r, t, n, c, writes, task, path, special, key);
    KeysInjective(t, n, c, slot.thread, slot.ns, slot.id);
    assert slot == Slot(slot.thread, slot.ns, slot.id, slot.task, slot.idx);
    if key == WritesKey(t, n, c) {
      ToSetSimulates(HashAt(r, key), a, t, n, c, writes, task, path, special, slot.task, slot.idx);
    } else {
      StoreWritesFrame(a, t, n, c, writes, task, path, special, slot);
    }
  }

  lemma PutWritesWellFormed<V>(r: Redis<V>, t: string, n: string, c: string, writes: seq<(string, V)>,
                               task: string, path: string, special: map<string, int>, key: string)
    requires WellFormed(HashAt(r, key))
    ensures WellFormed(HashAt(PutWrites(r, t, n, c, writes, task, path, special), key))
  {
    PutWritesHashes(r, t, n, c, writes, task, path, special, key);
    ToSetWellFormed(HashAt(r, key), writes, task, path, special);
  }

  lemma PutWritesSimulates<V>(r: Redis<V>, a: Store<V>, t: string, n: string, c: string, writes: seq<(string, V)>,
                              task: string, path: string, special: map<string, int>)
    requires Implements(r, a) && ColonFree(n) && ColonFree(c)
    ensures Implements(PutWrites(r, t, n, c, writes, task, path, special),
                       StoreWrites(a, t, n, c, writes, task, path, special))
  {
    var r', a' := PutWrites(r, t, n, c, writes, task, path, special), StoreWrites(a, t, n, c, writes, task, path, special);
    forall t', n', c', task', i | ColonFree(n') && ColonFree(c')
      ensures FieldAt(HashAt(r', WritesKey(t', n', c')), FieldOf(task', i)) == WriteAt(a', Slot(t', n', c', task', i))
    {
      PutWritesAgree(r, a, t, n, c, writes, task, path, special, Slot(t', n', c', task', i));
    }
    forall key ensures WellFormed(HashAt(r', key)) {
      PutWritesWellFormed(r, t, n, c, writes, task, path, special, key);
    }
    PutWritesHashes(r, t, n, c, writes, task, path, special, "");
    StoreWritesFrame(a, t, n, c, writes, task, path, special, Slot(t, n, c, task, 0));
    assert EntriesAgree(r', a') && OrdersAgree(r', a');
  }

  // ---- histories -----------------------------------------------------------------------------

  datatype Call<V> =
    | CrashedPut(t: string, n: string, c: string, entry: Entry)    // died between `set` and `rpush`
    | Put(t: string, n: string, c: string, entry: Entry)
    | Writes(t: string, n: string, c: string, writes: seq<(string, V)>, task: string, path: string)

  ghost predicate Clean<V>(calls: seq<Call<V>>) {
    forall k :: 0 <= k < |calls| ==> ColonFree(calls[k].n) && ColonFree(calls[k].c)
  }

  function CallRedis<V>(r: Redis<V>, call: Call<V>, special: map<string, int>): Redis<V> {
    match call
    case CrashedPut(t, n, c, e) => SetEntry(r, t, n, c, e)
    case Put(t, n, c, e) => PushId(SetEntry(r, t, n, c, e), t, n, c)
    case Writes(t, n, c, writes, task, path) => PutWrites(r, t, n, c, writes, task, path, special)
  }

  function CallStore<V>(a: Store<V>, call: Call<V>, special: map<string, int>): Store<V> {
    match call
    case CrashedPut(t, n, c, e) => StoreEntry(a, t, n, c, e)
    case Put(t, n, c, e) => StoreId(StoreEntry(a, t, n, c, e), t, n, c)
    case Writes(t, n, c, writes, task, path) => StoreWrites(a, t, n, c, writes, task, path, special)
  }

  function RunRedis<V>(calls: seq<Call<V>>, special: map<string, int>): Redis<V> {
    if calls == [] then Redis(map[], map[], map[])
    else CallRedis(RunRedis(calls[..|calls| - 1], special), calls[|calls| - 1], special)
  }

  function RunStore<V>(calls: seq<Call<V>>, special: map<string, int>): Store<V> {
    if calls == [] then Store(map[], map[], map[])
    else CallStore(RunStore(calls[..|calls| - 1], special), calls[|calls| - 1], special)
  }

  /** Redis, with its string keys and fields, implements the simple store over
      every history of calls, crashed puts included. */
  lemma {:induction false} RedisImplementsStore<V>(calls: seq<Call<V>>, special: map<string, int>)
    requires Clean(calls)
    ensures Implements(RunRedis(calls, special), RunStore(calls, special))
  {
    if calls != [] {
      var before, call := calls[..|calls| - 1], calls[|calls| - 1];
      RedisImplementsStore(before, special);
      var r, a := RunRedis(before, special), RunStore(before, special);
      match call
      case CrashedPut(t, n, c, e) => SetEntrySimulates(r, a, t, n, c, e);
      case Put(t, n, c, e) =>
        SetEntrySimulates(r, a, t, n, c, e);
        PushIdSimulates(SetEntry(r, t, n, c, e), StoreEntry(a, t, n, c, e), t, n, c);
      case Writes(t, n, c, writes, task, path) => PutWritesSimulates(r, a, t, n, c, writes, task, path, special);
    }
  }

  // ---- the latest checkpoint ---------------------------------------------------------------------

  /** Ids of the completed puts of a thread, oldest first. */
  function PutIds<V>(calls: seq<Call<V>>, t: string, n: string): seq<string> {
    if calls == [] then []
    else
      var before := PutIds(calls[..|calls| - 1], t, n);
      var call := calls[|calls| - 1];
      if call.Put? && call.t == t && call.n == n then before + [call.c] else before
  }

  /** The entry most recently set for a checkpoint, by a put that may have crashed after that. */
  function LastEntry<V>(calls: seq<Call<V>>, t: string, n: string, c: string): Option<Entry> {
    if calls == [] then None
    else
      var call := calls[|calls| - 1];
      if !call.Writes? && (call.t, call.n, call.c) == (t, n, c) then Some(call.entry)
      else LastEntry(calls[..|calls| - 1], t, n, c)
  }

  function TupleAt<V>(r: Redis<V>, t: string, n: string, id: string): Option<(string, Entry)> {
    if CheckpointKey(t, n, id) in r.strings then Some((id, r.strings[CheckpointKey(t, n, id)])) else None
  }

  /** What `aget_tuple` finds without a checkpoint id. */
  function Latest<V>(r: Redis<V>, t: string, n: string): Option<(string, Entry)> {
    var ids := ListAt(r, OrderKey(t, n));
    if ids == [] || ids[|ids| - 1] == "" then None else TupleAt(r, t, n, ids[|ids| - 1])
  }

  function Sought<V>(r: Redis<V>, t: string, n: string, wanted: Option<string>): Option<(string, Entry)> {
    if wanted.Some? then TupleAt(r, t, n, wanted.value) else Latest(r, t, n)
  }

  lemma {:induction false} StoreHistory<V>(calls: seq<Call<V>>, special: map<string, int>, t: string, n: string, c: string)
    ensures var a := RunStore(calls, special);
      && OrderOf(a, t, n) == PutIds(calls, t, n)
      && (if (t, n, c) in a.entries then LastEntry(calls, t, n, c) == Some(a.entries[(t, n, c)])
          else LastEntry(calls, t, n, c) == None)
      && (c in PutIds(calls, t, n) ==> (t, n, c) in a.entries)
  {
    if calls != [] {
      var before, call := calls[..|calls| - 1], calls[|calls| - 1];
      StoreHistory(before, special, t, n, c);
      if call.Writes? {
        StoreWritesFrame(RunStore(before, special), call.t, call.n, call.c, call.writes, call.task, call.path, special,
                         Slot(t, n, c, "", 0));
      }
    }
  }

  /** The latest read is the last completed put, with the entry last set for its
      id, and it never dangles, wherever puts crashed. */
  lemma LatestIsLastPut<V>(calls: seq<Call<V>>, special: map<string, int>, t: string, n: string)
    requires Clean(calls) && ColonFree(n)
    ensures var ids := PutIds(calls, t, n);
      && ListAt(RunRedis(calls, special), OrderKey(t, n)) == ids
      && (ids == [] || ids[|ids| - 1] == "" ==> Latest(RunRedis(calls, special), t, n) == None)
      && (ids != [] && ids[|ids| - 1] != "" ==>
            var id := ids[|ids| - 1];
            && LastEntry(calls, t, n, id).Some?
            && Latest(RunRedis(calls, special), t, n) == Some((id, LastEntry(calls, t, n, id).value)))
  {
    var ids := PutIds(calls, t, n);
    RedisImplementsStore(calls, special);
    StoreHistory(calls, special, t, n, "");
    if ids != [] {
      PutIdsClean(calls, t, n);
      assert ids[|ids| - 1] in ids;
      EntryIsLastSet(calls, special, t, n, ids[|ids| - 1]);
    }
  }

  /** Reading a checkpoint by its id gives the entry last set for it, whether or
      not the put that set it got as far as listing the id. */
  lemma EntryIsLastSet<V>(calls: seq<Call<V>>, special: map<string, int>, t: string, n: string, c: string)
    requires Clean(calls) && ColonFree(n) && ColonFree(c)
    ensures var found := TupleAt(RunRedis(calls, special), t, n, c);
      && (found.Some? <==> LastEntry(calls, t, n, c).Some?)
      && (found.Some? ==> found.value == (c, LastEntry(calls, t, n, c).value))
      && (c in PutIds(calls, t, n) ==> found.Some?)
  {
    var r, a := RunRedis(calls, special), RunStore(calls, special);
    RedisImplementsStore(calls, special);
    StoreHistory(calls, special, t, n, c);
    assert CheckpointKey(t, n, c) in r.strings <==> (t, n, c) in a.entries;
  }

  /** What a read without an id finds is the last listed put, and what a read of an
      id finds is that id, each with the entry last set for it. */
  lemma SoughtIsLast<V>(calls: seq<Call<V>>, special: map<string, int>, t: string, n: string, wanted: Option<string>)
    requires Clean(calls) && ColonFree(n) && (wanted.Some? ==> ColonFree(wanted.value))
    ensures var found := Sought(RunRedis(calls, special), t, n, wanted);
      var ids := PutIds(calls, t, n);
      if wanted == None && (ids == [] || ids[|ids| - 1] == "") then found == None
      else
        var id := if wanted.Some? then wanted.value else ids[|ids| - 1];
        && (found.None? <==> LastEntry(calls, t, n, id).None?)
        && (found.Some? ==> found.value.0 == id && LastEntry(calls, t, n, id) == Some(found.value.1))
        && (wanted == None ==> found.Some?)
  {
    LatestIsLastPut(calls, special, t, n);
    if wanted.Some? {
      EntryIsLastSet(calls, special, t, n, wanted.value);
    }
  }

  /** The last completed put of a thread, wherever it stands among the calls, is the
      one listed last; without one nothing is listed. */
  lemma {:induction false} PutIdsEnd<V>(calls: seq<Call<V>>, t: string, n: string, k: int)
    requires -1 <= k < |calls| && (k >= 0 ==> calls[k].Put? && calls[k].t == t && calls[k].n == n)
    requires forall j :: k < j < |calls| ==> !(calls[j].Put? && calls[j].t == t && calls[j].n == n)
    ensures var ids := PutIds(calls, t, n);
      if k < 0 then ids == [] else ids != [] && ids[|ids| - 1] == calls[k].c
  {
    if calls != [] && k < |calls| - 1 {
      PutIdsEnd(calls[..|calls| - 1], t, n, k);
    }
  }

  /** And the entry of an id is that of the last put of this id, crashed or not. */
  lemma {:induction false} LastEntryIs<V>(calls: seq<Call<V>>, t: string, n: string, c: string, k: int)
    requires -1 <= k < |calls| && (k >= 0 ==> !calls[k].Writes? && (calls[k].t, calls[k].n, calls[k].c) == (t, n, c))
    requires forall j :: k < j < |calls| ==> calls[j].Writes? || (calls[j].t, calls[j].n, calls[j].c) != (t, n, c)
    ensures LastEntry(calls, t, n, c) == if k < 0 then None else Some(calls[k].entry)
  {
    if calls != [] && k < |calls| - 1 {
      LastEntryIs(calls[..|calls| - 1], t, n, c, k);
    }
  }

  lemma {:induction false} PutIdsClean<V>(calls: seq<Call<V>>, t: string, n: string)
    requires Clean(calls)
    ensures forall id :: id in PutIds(calls, t, n) ==> ColonFree(id)
  {
    if calls != [] {
      PutIdsClean(calls[..|calls| - 1], t, n);
    }
  }

  // ---- pending writes --------------------------------------------------------------------------------

  /** The write a call offers to a slot: the last of its writes that lands there. */
  function OfferOf<V>(writes: seq<(string, V)>, task: string, path: string, special: map<string, int>, idx: int): Option<Write<V>> {
    if writes == [] then None
    else
      var k := |writes| - 1;
      if IndexOf(special, writes[k].0, k) == idx then Some(Write(task, writes[k].0, writes[k].1, path))
      else OfferOf(writes[..k], task, path, special, idx)
  }

  /** Of the writes of one call that land in a slot the last counts: its channel, its
      value, and the task and path of the call. */
  lemma {:induction false} OfferIs<V>(writes: seq<(string, V)>, task: string, path: string, special: map<string, int>, idx: int,
                                      k: int)
    requires -1 <= k < |writes|
    requires k >= 0 ==> (if writes[k].0 in special then special[writes[k].0] else k) == idx
    requires forall j :: k < j < |writes| ==> (if writes[j].0 in special then special[writes[j].0] else j) != idx
    ensures OfferOf(writes, task, path, special, idx)
            == if k < 0 then None else Some(Write(task, writes[k].0, writes[k].1, path))
  {
    if writes != [] && k < |writes| - 1 {
      OfferIs(writes[..|writes| - 1], task, path, special, idx, k);
    }
  }

  function Offer<V>(call: Call<V>, slot: Slot, special: map<string, int>): Option<Write<V>> {
    if call.Writes? && (call.t, call.n, call.c, call.task) == (slot.thread, slot.ns, slot.id, slot.task) then
      OfferOf(call.writes, call.task, call.path, special, slot.idx)
    else None
  }

  function FirstOffer<V>(calls: seq<Call<V>>, slot: Slot, special: map<string, int>): Option<Write<V>> {
    if calls == [] then None
    else
      var before := FirstOffer(calls[..|calls| - 1], slot, special);
      if before.Some? then before else Offer(calls[|calls| - 1], slot, special)
  }

  function LastOffer<V>(calls: seq<Call<V>>, slot: Slot, special: map<string, int>): Option<Write<V>> {
    if calls == [] then None
    else
      var last := Offer(calls[|calls| - 1], slot, special);
      if last.Some? then last else LastOffer(calls[..|calls| - 1], slot, special)
  }

  lemma {:induction false} StoreWritesAt<V>(a: Store<V>, t: string, n: string, c: string, writes: seq<(string, V)>,
    task: string, path: string, special: map<string, int>, idx: int)
    ensures var slot := Slot(t, n, c, task, idx);
      var offer := OfferOf(writes, task, path, special, idx);
      WriteAt(StoreWrites(a, t, n, c, writes, task, path, special), slot) ==
      if offer.None? || (idx >= 0 && slot in a.writes) then WriteAt(a, slot) else offer
  {
    if writes != [] {
      StoreWritesAt(a, t, n, c, writes[..|writes| - 1], task, path, special, idx);
    }
  }

  /** Under any replay of calls a regular write keeps the first value offered to
      its slot and a special write the last. */
  lemma {:induction false} FirstOrLastWins<V>(calls: seq<Call<V>>, slot: Slot, special: map<string, int>)
    ensures WriteAt(RunStore(calls, special), slot) ==
            if slot.idx >= 0 then FirstOffer(calls, slot, special) else LastOffer(calls, slot, special)
  {
    if calls != [] {
      var before, call := calls[..|calls| - 1], calls[|calls| - 1];
      var a := RunStore(before, special);
      FirstOrLastWins(before, slot, special);
      if call.Writes? {
        if (call.t, call.n, call.c, call.task) == (slot.thread, slot.ns, slot.id, slot.task) {
          StoreWritesAt(a, call.t, call.n, call.c, call.writes, call.task, call.path, special, slot.idx);
          assert slot == Slot(call.t, call.n, call.c, call.task, slot.idx);
        } else {
          StoreWritesFrame(a, call.t, call.n, call.c, call.writes, call.task, call.path, special, slot);
        }
      }
    }
  }

  /** One element of the list that `_load_pending_writes` sorts. */
  datatype Loaded<V> = Loaded(idx: int, write: Write<V>)

  predicate IdxLe<V>(x: Loaded<V>, y: Loaded<V>) {
    x.idx <= y.idx
  }

  function FieldIndex(field: string): int {
    match ReadField(field)
    case None => 0
    case Some(parts) => parts.1
  }

  function LoadFields<V>(hash: map<string, Write<V>>, fields: seq<string>): seq<Loaded<V>>
    requires forall f :: f in fields ==> f in hash
  {
    if fields == [] then []
    else
      var f := fields[|fields| - 1];
      LoadFields(hash, fields[..|fields| - 1]) + [Loaded(FieldIndex(f), hash[f])]
  }

  /** `fields` lists the hash's fields in the order HGETALL happens to give. */
  ghost predicate Enumerates<V>(fields: seq<string>, hash: map<string, Write<V>>) {
    NoDuplicates(fields) && forall f :: f in fields <==> f in hash
  }

  function PendingOf<V>(hash: map<string, Write<V>>, fields: seq<string>): seq<Loaded<V>>
    requires forall f :: f in fields ==> f in hash
  {
    Sort(LoadFields(hash, fields), IdxLe)
  }

  function FieldFor<V>(l: Loaded<V>): string {
    FieldOf(l.write.task, l.idx)
  }

  lemma FieldIndexOf(field: string, task: string)
    requires exists i: int :: field == FieldOf(task, i)
    ensures FieldOf(task, FieldIndex(field)) == field
  {
    var i: int :| field == FieldOf(task, i);
    FieldRoundTrip(task, i);
  }

  lemma {:induction false} LoadedAt<V>(hash: map<string, Write<V>>, fields: seq<string>)
    requires forall f :: f in fields ==> f in hash
    ensures |LoadFields(hash, fields)| == |fields|
    ensures forall k :: 0 <= k < |fields| ==>
              LoadFields(hash, fields)[k] == Loaded(FieldIndex(fields[k]), hash[fields[k]])
  {
    if fields != [] {
      LoadedAt(hash, fields[..|fields| - 1]);
    }
  }

  lemma LoadedFields<V>(hash: map<string, Write<V>>, fields: seq<string>)
    requires WellFormed(hash) && forall f :: f in fields ==> f in hash
    ensures var ls := LoadFields(hash, fields);
      && |ls| == |fields|
      && forall k :: 0 <= k < |fields| ==> FieldFor(ls[k]) == fields[k] && ls[k].write == hash[fields[k]]
  {
    LoadedAt(hash, fields);
    forall k | 0 <= k < |fields| ensures FieldFor(LoadFields(hash, fields)[k]) == fields[k] {
      assert fields[k] in fields;
      FieldIndexOf(fields[k], hash[fields[k]].task);
    }
  }

  /** One loaded element, one stored write. */
  lemma LoadedIffStored<V>(hash: map<string, Write<V>>, fields: seq<string>, l: Loaded<V>)
    requires WellFormed(hash) && Enumerates(fields, hash)
    ensures l in LoadFields(hash, fields) <==> FieldAt(hash, FieldFor(l)) == Some(l.write)
  {
    LoadedFields(hash, fields);
    var loaded := LoadFields(hash, fields);
    if l in loaded {
      var k :| 0 <= k < |loaded| && loaded[k] == l;
      assert fields[k] in fields;
    } else if FieldAt(hash, FieldFor(l)) == Some(l.write) {
      var k :| 0 <= k < |fields| && fields[k] == FieldFor(l);
      FieldsDistinct(loaded[k].write.task, loaded[k].idx, l.write.task, l.idx);
    }
  }

  lemma LoadedOnce<V>(hash: map<string, Write<V>>, fields: seq<string>)
    requires WellFormed(hash) && Enumerates(fields, hash)
    ensures DistinctKeys(LoadFields(hash, fields), FieldFor)
  {
    LoadedFields(hash, fields);
  }

  lemma PendingSorted<V(!new)>(hash: map<string, Write<V>>, fields: seq<string>)
    requires forall f :: f in fields ==> f in hash
    ensures Sorted(PendingOf(hash, fields), IdxLe)
    ensures multiset(PendingOf(hash, fields)) == multiset(LoadFields(hash, fields))
  {
    assert TotalPreorder<Loaded<V>>(IdxLe);
    SortIsStable(LoadFields(hash, fields), IdxLe);
  }

  /** The pending writes of a checkpoint are exactly the stored ones, each once,
      in ascending order of index. */
  lemma PendingIsExact<V(!new)>(r: Redis<V>, a: Store<V>, t: string, n: string, c: string, fields: seq<string>)
    requires Implements(r, a) && ColonFree(n) && ColonFree(c)
    requires Enumerates(fields, HashAt(r, WritesKey(t, n, c)))
    ensures var pending := PendingOf(HashAt(r, WritesKey(t, n, c)), fields);
      && Sorted(pending, IdxLe)
      && DistinctKeys(pending, FieldFor)
      && forall l :: l in pending <==> WriteAt(a, Slot(t, n, c, l.write.task, l.idx)) == Some(l.write)
  {
    var hash := HashAt(r, WritesKey(t, n, c));
    var loaded, pending := LoadFields(hash, fields), PendingOf(hash, fields);
    PendingSorted(hash, fields);
    LoadedOnce(hash, fields);
    DistinctKeysPermute(loaded, pending, FieldFor);
    forall l ensures l in pending <==> WriteAt(a, Slot(t, n, c, l.write.task, l.idx)) == Some(l.write) {
      assert l in pending <==> l in multiset(pending);
      LoadedIffStored(hash, fields, l);
      assert FieldAt(hash, FieldFor(l)) == WriteAt(a, Slot(t, n, c, l.write.task, l.idx));
    }
  }

  /** After any history the pending writes of a checkpoint are the first offer to
      each regular slot and the last offer to each special one. */
  lemma PendingOfHistory<V(!new)>(calls: seq<Call<V>>, special: map<string, int>, t: string, n: string, c: string,
                                  fields: seq<string>, l: Loaded<V>)
    requires Clean(calls) && ColonFree(n) && ColonFree(c)
    requires Enumerates(fields, HashAt(RunRedis(calls, special), WritesKey(t, n, c)))
    ensures var slot := Slot(t, n, c, l.write.task, l.idx);
      l in PendingOf(HashAt(RunRedis(calls, special), WritesKey(t, n, c)), fields) <==>
      (if l.idx >= 0 then FirstOffer(calls, slot, special) else LastOffer(calls, slot, special)) == Some(l.write)
  {
    RedisImplementsStore(calls, special);
    PendingIsExact(RunRedis(calls, special), RunStore(calls, special), t, n, c, fields);
    FirstOrLastWins(calls, Slot(t, n, c, l.write.task, l.idx), special);
  }

  // ---- the object --------------------------------------------------------------------------------------

  datatype CheckpointTuple<V> = CheckpointTuple(id: string, entry: Entry, pending: seq<Loaded<V>>)

  lemma MovesOver<T>(found: seq<T>, shown: seq<T>, rest: seq<T>, all: seq<T>)
    requires found + rest == all && shown <= rest
    ensures (found + shown) + rest[|shown|..] == all && found + shown == all[..|found| + |shown|]
    ensures forall older :: rest == shown + older ==> rest[|shown|..] == older
  {
  }

  class RedisSaver<V(==)> {
    var strings: map<string, Entry>
    var lists: map<string, seq<string>>
    var hashes: map<string, map<string, Write<V>>>

    ghost function Db(): Redis<V>
      reads this
    {
      Redis(strings, lists, hashes)
    }

    constructor ()
      ensures Db() == Redis(map[], map[], map[])
    {
      strings, lists, hashes := map[], map[], map[];
    }

    method Aput(t: string, n: string, c: string, e: Entry)
      modifies this
      ensures Db() == PushId(SetEntry(old(Db()), t, n, c, e), t, n, c)
    {
      strings := strings[CheckpointKey(t, n, c) := e];
      var key := OrderKey(t, n);
      lists := lists[key := (if key in lists then lists[key] else []) + [c]];
    }

    method AputWrites(t: string, n: string, c: string, writes: seq<(string, V)>, task: string, path: string,
                      special: map<string, int>)
      modifies this
      ensures Db() == PutWrites(old(Db()), t, n, c, writes, task, path, special)
    {
      var key := WritesKey(t, n, c);
      var existing := if key in hashes then hashes[key] else map[];
      assert existing == HashAt(Db(), key);
      var toSet := CollectFields(existing, writes, task, path, special);
      if toSet != map[] {
        hashes := hashes[key := existing + toSet];
      }
    }

    static method CollectFields(existing: map<string, Write<V>>, writes: seq<(string, V)>, task: string, path: string,
                                special: map<string, int>)
      returns (toSet: map<string, Write<V>>)
      ensures toSet == ToSet(existing, writes, task, path, special)
    {
      toSet := map[];
      for k := 0 to |writes|
        invariant toSet == ToSet(existing, writes[..k], task, path, special)
      {
        ToSetNext(existing, writes, k, task, path, special);
        var idx := IndexOf(special, writes[k].0, k);
        var field := FieldOf(task, idx);
        if !(idx >= 0 && field in existing) {
          toSet := toSet[field := Write(task, writes[k].0, writes[k].1, path)];
        }
      }
      assert writes[..|writes|] == writes;
    }

    method LoadPendingWrites(t: string, n: string, c: string, fields: seq<string>) returns (pending: seq<Loaded<V>>)
      requires Enumerates(fields, HashAt(Db(), WritesKey(t, n, c)))
      ensures pending == PendingOf(HashAt(Db(), WritesKey(t, n, c)), fields)
    {
      var key := WritesKey(t, n, c);
      var hash := if key in hashes then hashes[key] else map[];
      pending := [];
      for k := 0 to |fields|
        invariant pending == LoadFields(hash, fields[..k])
      {
        assert fields[..k + 1][..k] == fields[..k];
        assert fields[k] in fields;
        pending := pending + [Loaded(FieldIndex(fields[k]), hash[fields[k]])];
      }
      assert fields[..|fields|] == fields;
      pending := Sort(pending, IdxLe);
    }

    /** `aget_tuple`: the checkpoint asked for, or the latest. After any history of
        calls that is the id asked for or the last listed one, with the entry last
        set for it. */
    method AgetTuple(t: string, n: string, wanted: Option<string>, fieldsOf: string -> seq<string>)
      returns (found: Option<CheckpointTuple<V>>)
      requires forall id :: Enumerates(fieldsOf(id), HashAt(Db(), WritesKey(t, n, id)))
      ensures found.None? <==> Sought(Db(), t, n, wanted).None?
      ensures found.Some? ==>
                var id, hash := found.value.id, HashAt(Db(), WritesKey(t, n, found.value.id));
                && Sought(Db(), t, n, wanted) == Some((id, found.value.entry))
                && Enumerates(fieldsOf(id), hash) && found.value.pending == PendingOf(hash, fieldsOf(id))
      ensures forall calls: seq<Call<V>>, special: map<string, int> ::
                Db() == RunRedis(calls, special) && Clean(calls) && ColonFree(n) && wanted == None ==>
                  var ids := PutIds(calls, t, n);
                  if ids == [] || ids[|ids| - 1] == "" then found.None?
                  else found.Some? && found.value.id == ids[|ids| - 1]
                       && LastEntry(calls, t, n, found.value.id) == Some(found.value.entry)
      ensures forall calls: seq<Call<V>>, special: map<string, int> ::
                Db() == RunRedis(calls, special) && Clean(calls) && ColonFree(n) && wanted.Some? && ColonFree(wanted.value) ==>
                  if LastEntry(calls, t, n, wanted.value).None? then found.None?
                  else found.Some? && found.value.id == wanted.value
                       && LastEntry(calls, t, n, wanted.value) == Some(found.value.entry)
    {
      forall calls: seq<Call<V>>, special: map<string, int>
        | Db() == RunRedis(calls, special) && Clean(calls) && ColonFree(n) && (wanted.Some? ==> ColonFree(wanted.value))
      {
        SoughtIsLast(calls, special, t, n, wanted);
      }
      var id;
      if wanted.Some? {
        id := wanted.value;
      } else {
        var ids := if OrderKey(t, n) in lists then lists[OrderKey(t, n)] else [];
        if ids == [] || ids[|ids| - 1] == "" {
          return None;
        }
        id := ids[|ids| - 1];
      }
      if CheckpointKey(t, n, id) !in strings {
        return None;
      }
      var entry := strings[CheckpointKey(t, n, id)];
      var pending := LoadPendingWrites(t, n, id, fieldsOf(id));
      found := Some(CheckpointTuple(id, entry, pending));
    }

    /** `alist`: newest first, older than `before`, passing the filter. The limit
        is looked at after each hit, so a limit of 0 still gives one. */
    method Alist(t: string, n: string, before: Option<string>, keep: Entry -> bool, limit: Option<int>,
                 fieldsOf: string -> seq<string>)
      returns (found: seq<CheckpointTuple<V>>)
      requires forall id :: Enumerates(fieldsOf(id), HashAt(Db(), WritesKey(t, n, id)))
      ensures var all := Listing(Db(), t, n, ListAt(Db(), OrderKey(t, n)), before, keep, fieldsOf);
        found == if limit.None? then all else all[..Min(Max(1, limit.value), |all|)]
    {
      hide Shown, PendingOf, Enumerates, TupleAt, WritesKey, HashAt, OrderKey, Listing;
      var ids := if OrderKey(t, n) in lists then lists[OrderKey(t, n)] else [];
      found := [];
      var k: nat := |ids|;
      assert ids[..k] == ids;
      ghost var r := Db();
      ghost var all := Listing(r, t, n, ids, before, keep, fieldsOf);
      ghost var rest := all;
      ListingNone(r, t, n, before, keep, fieldsOf);
      while k > 0
        invariant k <= |ids|
        invariant limit.Some? ==> found == [] || |found| < limit.value
        invariant rest == Listing(r, t, n, ids[..k], before, keep, fieldsOf) && found + rest == all
      {
        k := k - 1;
        ListingStep(r, t, n, ids, k, before, keep, fieldsOf);
        var shown := ShowOne(t, n, ids[k], before, keep, fieldsOf);
        MovesOver(found, shown, rest, all);
        found, rest := found + shown, rest[|shown|..];
        if shown != [] && limit.Some? && |found| >= limit.value {
          return;
        }
      }
      assert ids[..k] == [];
    }

    method ShowOne(t: string, n: string, id: string, before: Option<string>, keep: Entry -> bool,
                   fieldsOf: string -> seq<string>)
      returns (shown: seq<CheckpointTuple<V>>)
      requires forall c :: Enumerates(fieldsOf(c), HashAt(Db(), WritesKey(t, n, c)))
      ensures shown == Shown(Db(), t, n, id, before, keep, fieldsOf) && |shown| <= 1
    {
      shown := [];
      if !TooNew(id, before) {
        var tuple := AgetTuple(t, n, Some(id), fieldsOf);
        if tuple.Some? && keep(tuple.value.entry) {
          shown := [tuple.value];
        }
      }
    }
  }

  // ---- listings ---------------------------------------------------------------------------------------

  /** `before_id and checkpoint_id >= before_id` */
  predicate TooNew(id: string, before: Option<string>) {
    before.Some? && before.value != "" && StringLe(before.value, id)
  }

  function Listing<V>(r: Redis<V>, t: string, n: string, ids: seq<string>, before: Option<string>, keep: Entry -> bool,
                      fieldsOf: string -> seq<string>): seq<CheckpointTuple<V>>
    requires forall id :: Enumerates(fieldsOf(id), HashAt(r, WritesKey(t, n, id)))
  {
    if ids == [] then []
    else Shown(r, t, n, ids[|ids| - 1], before, keep, fieldsOf)
         + Listing(r, t, n, ids[..|ids| - 1], before, keep, fieldsOf)
  }

  function Shown<V>(r: Redis<V>, t: string, n: string, id: string, before: Option<string>, keep: Entry -> bool,
                    fieldsOf: string -> seq<string>): seq<CheckpointTuple<V>>
    requires Enumerates(fieldsOf(id), HashAt(r, WritesKey(t, n, id)))
  {
    var at := TupleAt(r, t, n, id);
    if !TooNew(id, before) && at.Some? && keep(at.value.1)
    then [CheckpointTuple(id, at.value.1, PendingOf(HashAt(r, WritesKey(t, n, id)), fieldsOf(id)))] else []
  }

  lemma ListingNone<V>(r: Redis<V>, t: string, n: string, before: Option<string>, keep: Entry -> bool,
                       fieldsOf: string -> seq<string>)
    requires forall id :: Enumerates(fieldsOf(id), HashAt(r, WritesKey(t, n, id)))
    ensures Listing(r, t, n, [], before, keep, fieldsOf) == []
  {
  }

  lemma ListingStep<V>(r: Redis<V>, t: string, n: string, ids: seq<string>, k: nat, before: Option<string>,
                       keep: Entry -> bool, fieldsOf: string -> seq<string>)
    requires forall id :: Enumerates(fieldsOf(id), HashAt(r, WritesKey(t, n, id)))
    requires k < |ids|
    ensures Listing(r, t, n, ids[..k + 1], before, keep, fieldsOf)
            == Shown(r, t, n, ids[k], before, keep, fieldsOf) + Listing(r, t, n, ids[..k], before, keep, fieldsOf)
  {
    assert ids[..k + 1][..k] == ids[..k];
  }

  lemma {:induction false} ListingOfFound<V>(r: Redis<V>, t: string, n: string, ids: seq<string>, fieldsOf: string -> seq<string>)
    requires forall id :: Enumerates(fieldsOf(id), HashAt(r, WritesKey(t, n, id)))
    requires forall id :: id in ids ==> TupleAt(r, t, n, id).Some?
    ensures var all := Listing(r, t, n, ids, None, (e: Entry) => true, fieldsOf);
      |all| == |ids| && forall k :: 0 <= k < |ids| ==> all[k].id == ids[|ids| - 1 - k]
  {
    if ids != [] {
      assert ids[|ids| - 1] in ids;
      ListingOfFound(r, t, n, ids[..|ids| - 1], fieldsOf);
    }
  }

  /** An unfiltered listing shows every completed put, newest first; none of the
      listed ids dangles, wherever puts crashed. */
  lemma ListingShowsEveryPut<V>(calls: seq<Call<V>>, special: map<string, int>, t: string, n: string,
                                fieldsOf: string -> seq<string>)
    requires Clean(calls) && ColonFree(n)
    requires forall id :: Enumerates(fieldsOf(id), HashAt(RunRedis(calls, special), WritesKey(t, n, id)))
    ensures var r, puts := RunRedis(calls, special), PutIds(calls, t, n);
      var all := Listing(r, t, n, ListAt(r, OrderKey(t, n)), None, (e: Entry) => true, fieldsOf);
      |all| == |puts| && forall k :: 0 <= k < |puts| ==> all[k].id == puts[|puts| - 1 - k]
  {
    var puts := PutIds(calls, t, n);
    LatestIsLastPut(calls, special, t, n);
    PutIdsClean(calls, t, n);
    forall id | id in puts ensures TupleAt(RunRedis(calls, special), t, n, id).Some? {
      EntryIsLastSet(calls, special, t, n, id);
    }
    ListingOfFound(RunRedis(calls, special), t, n, puts, fieldsOf);
  }

  ghost predicate IsShown<V>(r: Redis<V>, t: string, n: string, id: string, before: Option<string>, keep: Entry -> bool) {
    && TupleAt(r, t, n, id).Some? && keep(TupleAt(r, t, n, id).value.1)
    && (before == None || before.value == "" || (id != before.value && StringLe(id, before.value)))
  }

  lemma ShownIs<V>(r: Redis<V>, t: string, n: string, id: string, before: Option<string>, keep: Entry -> bool,
                   fieldsOf: string -> seq<string>)
    requires Enumerates(fieldsOf(id), HashAt(r, WritesKey(t, n, id)))
    ensures var shown := Shown(r, t, n, id, before, keep, fieldsOf);
      && |shown| == (if IsShown(r, t, n, id, before, keep) then 1 else 0)
      && (shown != [] ==> shown[0].id == id && TupleAt(r, t, n, id) == Some((id, shown[0].entry)))
  {
    if before.Some? {
      StringLeTotal(id, before.value);
      StringLeTotal(before.value, before.value);
    }
  }

  /** `shown` is `ids` read backwards and filtered; `at` tells where its elements stand. */
  ghost predicate Picks(at: seq<nat>, shown: seq<string>, ids: seq<string>, test: string -> bool) {
    && |at| == |shown|
    && (forall i, j :: 0 <= i < j < |at| ==> at[i] > at[j])
    && (forall i :: 0 <= i < |at| ==> at[i] < |ids| && shown[i] == ids[at[i]])
    && (forall p: nat :: p in at <==> p < |ids| && test(ids[p]))
  }

  lemma PicksNext(at: seq<nat>, shown: seq<string>, ids: seq<string>, test: string -> bool, id: string)
    requires Picks(at, shown, ids, test)
    ensures if test(id) then Picks([|ids|] + at, [id] + shown, ids + [id], test) else Picks(at, shown, ids + [id], test)
  {
    assert forall i :: 0 <= i < |at| ==> at[i] in at;
  }

  function IdsOf<V>(tuples: seq<CheckpointTuple<V>>): seq<string> {
    seq(|tuples|, i requires 0 <= i < |tuples| => tuples[i].id)
  }

  /** Which of the ids a listing shows: in reverse order those that are found, older
      than `before` (all, if it is not given or empty) and pass the filter. */
  lemma {:induction false} ListingPicks<V>(r: Redis<V>, t: string, n: string, ids: seq<string>, before: Option<string>,
                                           keep: Entry -> bool, fieldsOf: string -> seq<string>) returns (at: seq<nat>)
    requires forall id :: Enumerates(fieldsOf(id), HashAt(r, WritesKey(t, n, id)))
    ensures Picks(at, IdsOf(Listing(r, t, n, ids, before, keep, fieldsOf)), ids, id => IsShown(r, t, n, id, before, keep))
    ensures forall c :: c in Listing(r, t, n, ids, before, keep, fieldsOf) ==> TupleAt(r, t, n, c.id) == Some((c.id, c.entry))
  {
    hide Shown, IsShown, TupleAt, Picks, HashAt, WritesKey;
    var test := id => IsShown(r, t, n, id, before, keep);
    if ids == [] {
      at := NothingPicked(test);
      assert IdsOf(Listing(r, t, n, ids, before, keep, fieldsOf)) == [];
    } else {
      hide Enumerates, Listing;
      var k := |ids| - 1;
      assert ids[..k + 1] == ids;
      ListingStep(r, t, n, ids, k, before, keep, fieldsOf);
      var rest := Listing(r, t, n, ids[..k], before, keep, fieldsOf);
      var shown := Shown(r, t, n, ids[k], before, keep, fieldsOf);
      at := ListingPicks(r, t, n, ids[..k], before, keep, fieldsOf);
      ShownIs(r, t, n, ids[k], before, keep, fieldsOf);
      PicksNext(at, IdsOf(rest), ids[..k], test, ids[k]);
      assert ids[..k] + [ids[k]] == ids;
      if test(ids[k]) {
        at := [k] + at;
        assert IdsOf(shown + rest) == [ids[k]] + IdsOf(rest);
      } else {
        assert shown + rest == rest;
      }
    }
  }

  lemma NothingPicked(test: string -> bool) returns (at: seq<nat>)
    ensures Picks(at, [], [], test)
  {
    at := [];
  }

  /** After any history a listing shows, newest first, exactly the completed puts
      that are older than `before` and whose entry, as last set, passes the filter. */
  lemma ListingOfHistory<V>(calls: seq<Call<V>>, special: map<string, int>, t: string, n: string, before: Option<string>,
                            keep: Entry -> bool, fieldsOf: string -> seq<string>) returns (at: seq<nat>)
    requires Clean(calls) && ColonFree(n)
    requires forall id :: Enumerates(fieldsOf(id), HashAt(RunRedis(calls, special), WritesKey(t, n, id)))
    ensures var r, puts := RunRedis(calls, special), PutIds(calls, t, n);
      var all := Listing(r, t, n, ListAt(r, OrderKey(t, n)), before, keep, fieldsOf);
      && |at| == |all|
      && (forall i, j :: 0 <= i < j < |at| ==> at[i] > at[j])
      && (forall i :: 0 <= i < |at| ==> at[i] < |puts| && all[i].id == puts[at[i]])
      && (forall c :: c in all ==> LastEntry(calls, t, n, c.id) == Some(c.entry))
      && (forall p: nat :: p < |puts| ==> LastEntry(calls, t, n, puts[p]).Some?)
      && (forall p: nat :: p in at <==>
            && p < |puts| && keep(LastEntry(calls, t, n, puts[p]).value)
            && (before == None || before.value == "" || (puts[p] != before.value && StringLe(puts[p], before.value))))
  {
    hide Listing, RunRedis, PutIds, LastEntry, TupleAt, Enumerates, HashAt, WritesKey;
    var r, puts := RunRedis(calls, special), PutIds(calls, t, n);
    LatestIsLastPut(calls, special, t, n);
    PutIdsClean(calls, t, n);
    forall p: nat | p < |puts|
      ensures LastEntry(calls, t, n, puts[p]).Some?
      ensures TupleAt(r, t, n, puts[p]) == Some((puts[p], LastEntry(calls, t, n, puts[p]).value))
    {
      assert puts[p] in puts;
      EntryIsLastSet(calls, special, t, n, puts[p]);
    }
    at := ListingPicks(r, t, n, puts, before, keep, fieldsOf);
    var all := Listing(r, t, n, puts, before, keep, fieldsOf);
    assert forall i :: 0 <= i < |all| ==> IdsOf(all)[i] == all[i].id;
    forall c | c in all ensures LastEntry(calls, t, n, c.id) == Some(c.entry) {
      var i :| 0 <= i < |all| && all[i] == c;
      assert c.id == puts[at[i]];
    }
  }
}
