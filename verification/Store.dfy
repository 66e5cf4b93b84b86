/** The record cache: one table of entries, unique on name and on id. A table
    is specified as the relation the SQLite store keeps and implemented as the
    memory store does it, with a name map and an id index beside it. */
module Store {
  import opened Types

  datatype Entry<+D> = Entry(
    name: string, id: Uint32, data: D, fetchedAt: Time, expiresAt: Time, stale: bool)

  type Table<+D> = map<string, Entry<D>>

  datatype Selector = Selector(users: bool, groups: bool, name: string)

  ghost predicate OwnRow<D>(t: Table<D>, m: string, n: string) {
    m in t && n in t ==> t[m].name == m && (t[m].id == t[n].id ==> m == n)
  }

  /** Every row sits under its own name, and no two rows share an id. */
  ghost predicate Unique<D>(t: Table<D>) {
    forall m, n :: OwnRow(t, m, n)
  }

  function Put<D>(t: Table<D>, e: Entry<D>): Table<D> {
    (map n | n in t && n != e.name && t[n].id != e.id :: t[n])[e.name := e]
  }

  function Delete<D>(t: Table<D>, name: string): Table<D> {
    t - {name}
  }

  function Marked<D>(e: Entry<D>): Entry<D> {
    e.(stale := true)
  }

  /** Marks the row called `name`, or every row when `name` is empty. */
  function MarkStale<D>(t: Table<D>, name: string): Table<D> {
    if name == "" then map n | n in t :: Marked(t[n])
    else if name in t then t[name := Marked(t[name])]
    else t
  }

  /** The rows a selector's name means: that one, or all when it is empty. */
  ghost function Selected<D>(t: Table<D>, name: string): set<string> {
    set n | n in t && (name == "" || n == name)
  }

  /** The row a key picks out, if any. */
  ghost function Find<D>(t: Table<D>, ref: Ref): Option<Entry<D>> {
    match ref
    case ByName(name) => if name in t then Some(t[name]) else None
    case ById(id) =>
      if exists n :: n in t && t[n].id == id
      then var n :| n in t && t[n].id == id; Some(t[n])
      else None
  }

  lemma OwnNames<D>(t: Table<D>)
    requires Unique(t)
    ensures forall n | n in t :: t[n].name == n
  {
    forall n | n in t ensures t[n].name == n {
      assert OwnRow(t, n, n);
    }
  }

  /** A unique table answers a key with the one row that carries it. */
  lemma FindIsTheRow<D>(t: Table<D>, ref: Ref, n: string)
    requires Unique(t) && n in t
    ensures Find(t, ref) == Some(t[n]) <==> (ref == ByName(n) || ref == ById(t[n].id))
  {
    OwnNames(t);
    if ref.ById? && t[n].id == ref.id {
      var m :| m in t && t[m].id == ref.id && Find(t, ref) == Some(t[m]);
      assert OwnRow(t, m, n);
    }
  }

  lemma FoundIsARow<D>(t: Table<D>, ref: Ref)
    requires Unique(t) && Find(t, ref).Some?
    ensures var e := Find(t, ref).value; e.name in t && t[e.name] == e && (ref == ByName(e.name) || ref == ById(e.id))
  {
    OwnNames(t);
  }

  /** Keeping, dropping or marking rows keeps a table unique. */
  lemma StaysUnique<D>(t: Table<D>, q: Table<D>)
    requires Unique(t) && q.Keys <= t.Keys
    requires forall n | n in q :: q[n].name == t[n].name && q[n].id == t[n].id
    ensures Unique(q)
  {
    forall m, n ensures OwnRow(q, m, n) {
      assert OwnRow(t, m, n);
    }
  }

  lemma PutStaysUnique<D>(t: Table<D>, e: Entry<D>)
    requires Unique(t)
    ensures Unique(Put(t, e))
  {
    OwnNames(t);
    var q := Put(t, e);
    forall m, n ensures OwnRow(q, m, n) {
      assert OwnRow(t, m, n);
    }
  }

  /* The relation the SQLite store keeps */

  ghost function Rows<D(!new)>(t: Table<D>): set<Entry<D>> {
    set n | n in t :: t[n]
  }

  /** `DELETE WHERE name = ? OR id = ?`, then `INSERT`. */
  ghost function Replace<D(!new)>(rows: set<Entry<D>>, e: Entry<D>): set<Entry<D>> {
    (set r | r in rows && r.name != e.name && r.id != e.id) + {e}
  }

  lemma PutReplacesRows<D(!new)>(t: Table<D>, e: Entry<D>)
    requires Unique(t)
    ensures Rows(Put(t, e)) == Replace(Rows(t), e)
  {
    OwnNames(t);
    var after := Put(t, e);
    forall r | r in Replace(Rows(t), e)
      ensures r in Rows(after)
    {
      if r == e {
        assert after[e.name] == e;
      } else {
        var n :| n in t && t[n] == r;
        assert after[n] == r;
      }
    }
  }

  datatype Op<+D> = PutOp(entry: Entry<D>) | DeleteOp(name: string) | MarkOp(name: string)

  function Perform<D>(t: Table<D>, op: Op<D>): Table<D> {
    match op
    case PutOp(e) => Put(t, e)
    case DeleteOp(name) => Delete(t, name)
    case MarkOp(name) => MarkStale(t, name)
  }

  ghost function PerformOnRows<D(!new)>(rows: set<Entry<D>>, op: Op<D>): set<Entry<D>> {
    match op
    case PutOp(e) => Replace(rows, e)
    case DeleteOp(name) => set r | r in rows && r.name != name
    case MarkOp(name) =>
      (set r | r in rows && name != "" && r.name != name) +
      (set r | r in rows && (name == "" || r.name == name) :: Marked(r))
  }

  function PerformAll<D>(t: Table<D>, ops: seq<Op<D>>): Table<D>
    decreases |ops|
  {
    if ops == [] then t else PerformAll(Perform(t, ops[0]), ops[1..])
  }

  ghost function PerformAllOnRows<D(!new)>(rows: set<Entry<D>>, ops: seq<Op<D>>): set<Entry<D>>
    decreases |ops|
  {
    if ops == [] then rows else PerformAllOnRows(PerformOnRows(rows, ops[0]), ops[1..])
  }

  lemma PerformRefinesRows<D(!new)>(t: Table<D>, op: Op<D>)
    requires Unique(t)
    ensures Unique(Perform(t, op))
    ensures Rows(Perform(t, op)) == PerformOnRows(Rows(t), op)
  {
    OwnNames(t);
    match op {
      case PutOp(e) =>
        PutStaysUnique(t, e);
        PutReplacesRows(t, e);
      case DeleteOp(name) =>
        var after := Delete(t, name);
        StaysUnique(t, after);
        forall r | r in PerformOnRows(Rows(t), op) ensures r in Rows(after) {
          var n :| n in t && t[n] == r;
          assert after[n] == r;
        }
      case MarkOp(name) =>
        StaysUnique(t, MarkStale(t, name));
        MarkRefinesRows(t, name);
    }
  }

  lemma MarkRefinesRows<D(!new)>(t: Table<D>, name: string)
    requires Unique(t)
    ensures Rows(MarkStale(t, name)) == PerformOnRows(Rows(t), MarkOp(name))
  {
    OwnNames(t);
    var after, marked := MarkStale(t, name), PerformOnRows(Rows(t), MarkOp(name));
    forall r | r in marked ensures r in Rows(after) {
      if r in Rows(t) && name != "" && r.name != name {
        var n :| n in t && t[n] == r;
        assert after[n] == r;
      } else {
        var q :| q in Rows(t) && (name == "" || q.name == name) && Marked(q) == r;
        var n :| n in t && t[n] == q;
        assert after[n] == r;
      }
    }
    forall r | r in Rows(after) ensures r in marked {
      var n :| n in after && after[n] == r;
      assert t[n] in Rows(t);
    }
  }

  /** Over every sequence of operations the table stays unique on name and id
      and holds exactly the rows the relation would. */
  lemma {:induction false} EveryHistoryRefinesRows<D(!new)>(t: Table<D>, ops: seq<Op<D>>)
    requires Unique(t)
    ensures Unique(PerformAll(t, ops))
    ensures Rows(PerformAll(t, ops)) == PerformAllOnRows(Rows(t), ops)
    decreases |ops|
  {
    if ops != [] {
      PerformRefinesRows(t, ops[0]);
      EveryHistoryRefinesRows(Perform(t, ops[0]), ops[1..]);
    }
  }

  /* The memory store's name map and id index */

  ghost predicate Indexed<D>(entries: Table<D>, byId: map<Uint32, string>, n: string) {
    n in entries ==> entries[n].name == n && entries[n].id in byId && byId[entries[n].id] == n
  }

  ghost predicate Pointed<D>(entries: Table<D>, byId: map<Uint32, string>, i: Uint32) {
    i in byId ==> byId[i] in entries && entries[byId[i]].id == i
  }

  /** The two maps are inverse to each other. */
  ghost predicate Inverse<D>(entries: Table<D>, byId: map<Uint32, string>) {
    (forall n :: Indexed(entries, byId, n)) && (forall i :: Pointed(entries, byId, i))
  }

  lemma InverseIsUnique<D>(entries: Table<D>, byId: map<Uint32, string>)
    requires Inverse(entries, byId)
    ensures Unique(entries)
  {
    forall m, n ensures OwnRow(entries, m, n) {
      assert Indexed(entries, byId, m) && Indexed(entries, byId, n);
    }
  }

  lemma InverseWithout<D>(entries: Table<D>, byId: map<Uint32, string>, name: string)
    requires Inverse(entries, byId) && name in entries
    ensures Inverse(entries - {name}, byId - {entries[name].id})
  {
    var e, b := entries - {name}, byId - {entries[name].id};
    assert Indexed(entries, byId, name);
    forall n ensures Indexed(e, b, n) {
      assert Indexed(entries, byId, n);
    }
    forall i ensures Pointed(e, b, i) {
      assert Pointed(entries, byId, i);
    }
  }

  lemma InverseWith<D>(entries: Table<D>, byId: map<Uint32, string>, e: Entry<D>)
    requires Inverse(entries, byId) && e.name !in entries && e.id !in byId
    ensures Inverse(entries[e.name := e], byId[e.id := e.name])
  {
    var q, b := entries[e.name := e], byId[e.id := e.name];
    forall n ensures Indexed(q, b, n) {
      assert Indexed(entries, byId, n);
    }
    forall i ensures Pointed(q, b, i) {
      assert Pointed(entries, byId, i);
    }
  }

  lemma InverseMarked<D>(entries: Table<D>, byId: map<Uint32, string>, q: Table<D>)
    requires Inverse(entries, byId) && q.Keys == entries.Keys
    requires forall n | n in q :: q[n].name == entries[n].name && q[n].id == entries[n].id
    ensures Inverse(q, byId)
  {
    forall n ensures Indexed(q, byId, n) {
      assert Indexed(entries, byId, n);
    }
    forall i ensures Pointed(q, byId, i) {
      assert Pointed(entries, byId, i);
    }
  }

  /** Dropping by name and then by id leaves exactly the rows a put keeps. */
  lemma DroppedIsCleared<D>(entries: Table<D>, byId: map<Uint32, string>, kept: Table<D>, e: Entry<D>)
    requires Inverse(entries, byId)
    requires forall n :: n in kept <==> n in entries && n != e.name && !(e.id in byId && n == byId[e.id])
    requires forall n | n in kept :: kept[n] == entries[n]
    ensures kept[e.name := e] == Put(entries, e)
  {
    forall n ensures n in kept <==> n in entries && n != e.name && entries[n].id != e.id {
      assert Indexed(entries, byId, n) && Pointed(entries, byId, e.id);
    }
  }

  /** The memory store's pair of maps for one kind of record. */
  class MemoryTable<D> {
    var entries: Table<D>
    var byId: map<Uint32, string>

    ghost predicate Valid()
      reads this
    {
      Inverse(entries, byId)
    }

    constructor ()
      ensures Valid() && entries == map[]
    {
      entries, byId := map[], map[];
    }

    method Lookup(ref: Ref) returns (e: Option<Entry<D>>)
      requires Valid()
      ensures e == Find(entries, ref)
    {
      match ref {
        case ByName(name) =>
          e := if name in entries then Some(entries[name]) else None;
        case ById(id) =>
          assert Pointed(entries, byId, id);
          if id !in byId {
            e := None;
            assert forall n | n in entries :: entries[n].id != id by {
              forall n | n in entries ensures entries[n].id != id {
                assert Indexed(entries, byId, n);
              }
            }
          } else {
            e := Some(entries[byId[id]]);
            InverseIsUnique(entries, byId);
            FindIsTheRow(entries, ref, byId[id]);
          }
      }
    }

    method Remove(name: string)
      requires Valid()
      modifies this
      ensures Valid() && entries == Delete(old(entries), name)
      ensures byId == if name in old(entries) then old(byId) - {old(entries)[name].id} else old(byId)
    {
      if name in entries {
        InverseWithout(entries, byId, name);
        byId := byId - {entries[name].id};
        entries := entries - {name};
      }
    }

    method Insert(e: Entry<D>)
      requires Valid()
      modifies this
      ensures Valid() && entries == Put(old(entries), e)
    {
      assert Indexed(entries, byId, e.name) && Pointed(entries, byId, e.id);
      Remove(e.name);
      if e.id in byId {
        Remove(byId[e.id]);
      }
      DroppedIsCleared(old(entries), old(byId), entries, e);
      InverseWith(entries, byId, e);
      entries := entries[e.name := e];
      byId := byId[e.id := e.name];
    }

    method Mark(name: string) returns (n: nat)
      requires Valid()
      modifies this`entries
      ensures Valid() && entries == MarkStale(old(entries), name)
      ensures n == |Selected(old(entries), name)|
    {
      InverseMarked(entries, byId, MarkStale(entries, name));
      if name != "" {
        assert Selected(entries, name) == if name in entries then {name} else {};
        if name !in entries {
          return 0;
        }
        entries := entries[name := Marked(entries[name])];
        return 1;
      }
      var todo := entries.Keys;
      while todo != {}
        invariant todo <= entries.Keys == old(entries).Keys
        invariant forall k | k in entries ::
          entries[k] == if k in todo then old(entries)[k] else Marked(old(entries)[k])
      {
        var k :| k in todo;
        entries := entries[k := Marked(entries[k])];
        todo := todo - {k};
      }
      assert entries == MarkStale(old(entries), name);
      n := |entries|;
      assert Selected(old(entries), name) == old(entries).Keys;
      assert |entries| == |entries.Keys|;
    }
  }
}
