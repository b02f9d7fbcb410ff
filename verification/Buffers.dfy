/** Records on the heap: the store copies the buffers it is given and copies what it hands out, so a
    client that scribbles over its buffers runs exactly as if records were plain values. */
module Buffers {
  import opened Values
  import opened Records

  /** A record whose data and indexes live in buffers. */
  datatype Row = Row(header: Record, data: array<char>, indexes: array<IndexKey>)

  ghost function ValueOf(r: Row): Record
    reads r.data, r.indexes
  {
    r.header.(data := r.data[..], indexes := r.indexes[..])
  }

  ghost function BuffersOf(r: Row): set<object> { {r.data, r.indexes} }

  method CloneRow(r: Row) returns (copy: Row)
    ensures fresh(copy.data) && fresh(copy.indexes) && copy.header == r.header
    ensures copy.data[..] == r.data[..] && copy.indexes[..] == r.indexes[..]
    ensures ValueOf(copy) == ValueOf(r)
  {
    var data := new char[r.data.Length](i requires 0 <= i < r.data.Length reads r.data => r.data[i]);
    var indexes := new IndexKey[r.indexes.Length](i requires 0 <= i < r.indexes.Length reads r.indexes => r.indexes[i]);
    assert data[..] == r.data[..] && indexes[..] == r.indexes[..];
    copy := Row(r.header, data, indexes);
  }

  function Restricted(m: map<string, Record>,
                      keys: set<string>): map<string, Record> { map k | k in m && k in keys :: m[k] }

  lemma RestrictedGrows(m: map<string, Record>, keys: set<string>, key: string)
    requires key in m
    ensures Restricted(m, keys + {key}) == Restricted(m, keys)[key := m[key]]
  {
  }

  class BufferStore {
    var rows: map<string, Row>
    ghost var Repr: set<object>

    ghost predicate Valid()
      reads this, Repr
    {
      this in Repr && forall k | k in rows :: BuffersOf(rows[k]) <= Repr
    }

    /** What is stored, as plain values. */
    ghost function Contents(): map<string, Record>
      requires Valid()
      reads this, Repr
    {
      map k | k in rows :: ValueOf(rows[k])
    }

    constructor ()
      ensures Valid() && fresh(Repr) && Contents() == map[]
    {
      rows := map[];
      Repr := {this};
    }

    method Put(key: string, r: Row)
      requires Valid()
      modifies this
      ensures Valid() && fresh(Repr - old(Repr))
      ensures Contents() == old(Contents())[key := old(ValueOf(r))]
    {
      var copy := CloneRow(r);
      rows := rows[key := copy];
      Repr := Repr + BuffersOf(copy);
    }

    method Get(key: string) returns (r: Option<Row>)
      requires Valid()
      ensures key !in Contents() ==> r == None
      ensures key in Contents() ==>
        r.Some? && fresh(BuffersOf(r.value)) && ValueOf(r.value) == Contents()[key]
    {
      if key !in rows {
        return None;
      }
      var copy := CloneRow(rows[key]);
      return Some(copy);
    }

    /** A private copy for a transaction: it shares no buffer with the original. */
    method Clone() returns (copy: BufferStore)
      requires Valid()
      ensures copy.Valid() && fresh(copy.Repr) && copy.Contents() == Contents()
    {
      copy := new BufferStore();
      var rest := rows.Keys;
      ghost var all := Contents();
      assert Restricted(all, rows.Keys - rest) == map[];
      while rest != {}
        invariant rest <= rows.Keys && fresh(copy.Repr) && copy.Valid() && Contents() == all
        invariant copy.Contents() == Restricted(all, rows.Keys - rest)
        decreases rest
      {
        var key :| key in rest;
        RestrictedGrows(all, rows.Keys - rest, key);
        assert ValueOf(rows[key]) == all[key];
        hide ValueOf;
        assert rows.Keys - rest + {key} == rows.Keys - (rest - {key});
        rest := rest - {key};
        copy.Put(key, rows[key]);
      }
      assert Restricted(all, rows.Keys - rest) == all;
    }

    /** A commit replaces the state as a whole. */
    method Adopt(other: BufferStore)
      requires Valid() && other.Valid() && other !in Repr
      modifies this
      ensures Valid() && Contents() == old(other.Contents()) && Repr == {this} + other.Repr
    {
      rows := other.rows;
      Repr := {this} + other.Repr;
    }
  }

  // ---------- clients ----------

  /** A client stores what it holds, fetches, and writes to the buffers it holds whenever it likes. */
  datatype Step =
    | Save(key: string, which: nat)
    | Load(key: string)
    | WriteData(which: nat, at: nat, c: char)
    | WriteIndex(which: nat, at: nat, index: IndexKey)

  /** The same on plain values. */
  datatype World = World(contents: map<string, Record>, held: seq<Record>)

  function Next(w: World, s: Step): World {
    match s
    case Save(key, which) => if which < |w.held| then w.(contents := w.contents[key := w.held[which]]) else w
    case Load(key) => if key in w.contents then w.(held := w.held + [w.contents[key]]) else w
    case WriteData(which, at, c) =>
      if which < |w.held| && at < |w.held[which].data|
      then w.(held := w.held[which := w.held[which].(data := w.held[which].data[at := c])]) else w
    case WriteIndex(which, at, index) =>
      if which < |w.held| && at < |w.held[which].indexes|
      then w.(held := w.held[which := w.held[which].(indexes := w.held[which].indexes[at := index])]) else w
  }

  function Run(w: World, steps: seq<Step>): World {
    if steps == [] then w else Next(Run(w, steps[..|steps| - 1]), steps[|steps| - 1])
  }

  /** No two records a client holds share a buffer, and none shares one with the store. */
  ghost predicate Apart(held: seq<Row>, repr: set<object>) {
    && (forall i | 0 <= i < |held| :: held[i].data !in repr && held[i].indexes !in repr)
    && (forall i, j | 0 <= i < j < |held| :: held[i].data != held[j].data && held[i].indexes != held[j].indexes)
  }

  ghost predicate Shows(store: BufferStore, held: seq<Row>, w: World)
    requires store.Valid()
    reads store, store.Repr, set r | r in held :: r.data, set r | r in held :: r.indexes
  {
    store.Contents() == w.contents && Holds(held, w.held)
  }

  ghost predicate Holds(held: seq<Row>, values: seq<Record>)
    reads set r | r in held :: r.data, set r | r in held :: r.indexes
  {
    |held| == |values| && forall i | 0 <= i < |held| :: ValueOf(held[i]) == values[i]
  }

  method PerformSave(store: BufferStore, held: seq<Row>, key: string, which: nat, ghost w: World)
    requires store.Valid() && Apart(held, store.Repr) && Shows(store, held, w) && which < |held|
    modifies store
    ensures store.Valid() && fresh(store.Repr - old(store.Repr))
    ensures Apart(held, store.Repr) && Shows(store, held, Next(w, Save(key, which)))
  {
    assert held[which] in held;
    store.Put(key, held[which]);
  }

  method PerformLoad(store: BufferStore, held: seq<Row>, key: string, ghost w: World) returns (held': seq<Row>)
    requires store.Valid() && Apart(held, store.Repr) && Shows(store, held, w)
    ensures held <= held' && (forall i | |held| <= i < |held'| :: fresh(BuffersOf(held'[i])))
    ensures Apart(held', store.Repr) && Shows(store, held', Next(w, Load(key)))
  {
    held' := held;
    var r := store.Get(key);
    if r.Some? {
      held' := held + [r.value];
    }
  }

  method PerformWriteData(store: BufferStore, held: seq<Row>, which: nat, at: nat, c: char, ghost w: World)
    requires store.Valid() && Apart(held, store.Repr) && Shows(store, held, w)
    requires which < |held| && at < held[which].data.Length
    modifies held[which].data
    ensures store.Valid() && Shows(store, held, Next(w, WriteData(which, at, c)))
  {
    ghost var before := held[which].data[..];
    held[which].data[at] := c;
    assert held[which].data[..] == before[at := c];
  }

  method PerformWriteIndex(store: BufferStore, held: seq<Row>, which: nat, at: nat, index: IndexKey, ghost w: World)
    requires store.Valid() && Apart(held, store.Repr) && Shows(store, held, w)
    requires which < |held| && at < held[which].indexes.Length
    modifies held[which].indexes
    ensures store.Valid() && Shows(store, held, Next(w, WriteIndex(which, at, index)))
  {
    ghost var before := held[which].indexes[..];
    held[which].indexes[at] := index;
    assert held[which].indexes[..] == before[at := index];
  }

  method Perform(store: BufferStore, held: seq<Row>, s: Step, ghost w: World) returns (held': seq<Row>)
    requires store.Valid() && Apart(held, store.Repr) && Shows(store, held, w)
    modifies store, set r | r in held :: r.data, set r | r in held :: r.indexes
    ensures store.Valid() && fresh(store.Repr - old(store.Repr))
    ensures held <= held' && (forall i | |held| <= i < |held'| :: fresh(BuffersOf(held'[i])))
    ensures Apart(held', store.Repr) && Shows(store, held', Next(w, s))
  {
    SizesAgree(store, held, w);
    hide Holds, Apart;
    held' := held;
    match s
    case Save(key, which) =>
      if which < |held| {
        PerformSave(store, held, key, which, w);
      }
    case Load(key) =>
      held' := PerformLoad(store, held, key, w);
    case WriteData(which, at, c) =>
      if which < |held| && at < held[which].data.Length {
        assert held[which] in held;
        PerformWriteData(store, held, which, at, c, w);
      }
    case WriteIndex(which, at, index) =>
      if which < |held| && at < held[which].indexes.Length {
        assert held[which] in held;
        PerformWriteIndex(store, held, which, at, index, w);
      }
  }

  lemma SizesAgree(store: BufferStore, held: seq<Row>, w: World)
    requires store.Valid() && Shows(store, held, w)
    ensures |held| == |w.held|
    ensures forall i | 0 <= i < |held| ::
      held[i].data.Length == |w.held[i].data| && held[i].indexes.Length == |w.held[i].indexes|
  {
    forall i | 0 <= i < |held|
      ensures held[i].data.Length == |w.held[i].data| && held[i].indexes.Length == |w.held[i].indexes|
    {
      assert ValueOf(held[i]) == w.held[i];
    }
  }

  /** Any history of saving, loading and scribbling has the outcome it would have on plain values: a
      write to a buffer changes what its holder holds, and never what is stored. */
  method Serve(store: BufferStore, held: seq<Row>, steps: seq<Step>, ghost w: World) returns (held': seq<Row>)
    requires store.Valid() && Apart(held, store.Repr) && Shows(store, held, w)
    modifies store, set r | r in held :: r.data, set r | r in held :: r.indexes
    ensures store.Valid() && fresh(store.Repr - old(store.Repr))
    ensures held <= held' && (forall i | |held| <= i < |held'| :: fresh(BuffersOf(held'[i])))
    ensures Apart(held', store.Repr) && Shows(store, held', Run(w, steps))
  {
    hide Holds, Apart, Next;
    held' := held;
    for n := 0 to |steps|
      invariant store.Valid() && fresh(store.Repr - old(store.Repr))
      invariant held <= held' && (forall i | |held| <= i < |held'| :: fresh(BuffersOf(held'[i])))
      invariant Apart(held', store.Repr) && Shows(store, held', Run(w, steps[..n]))
    {
      assert steps[..n + 1][..n] == steps[..n];
      held' := Perform(store, held', steps[n], Run(w, steps[..n]));
    }
    assert steps[..|steps|] == steps;
  }

  /** A transaction runs on a private copy. When it fails the store is as before; when it commits
      the store is what the copy became; and the client's buffers are its own either way. */
  method Transact(store: BufferStore, held: seq<Row>, steps: seq<Step>, commit: bool, ghost w: World)
    returns (held': seq<Row>)
    requires store.Valid() && Apart(held, store.Repr) && Shows(store, held, w)
    modifies store, set r | r in held :: r.data, set r | r in held :: r.indexes
    ensures store.Valid()
    ensures held <= held' && Apart(held', store.Repr)
    ensures Shows(store, held', if commit then Run(w, steps) else Run(w, steps).(contents := w.contents))
  {
    hide Holds, Run, Apart;
    var copy;
    copy, held' := RunPrivately(store, held, steps, w);
    if commit {
      ApartFromOwner(store, held', copy.Repr);
      store.Adopt(copy);
    }
  }

  lemma ApartFromOwner(store: BufferStore, held: seq<Row>, repr: set<object>)
    requires Apart(held, repr)
    ensures Apart(held, {store} + repr)
  {
  }

  /** The steps run on a private copy, and the store is not touched. */
  method RunPrivately(store: BufferStore, held: seq<Row>, steps: seq<Step>, ghost w: World)
    returns (copy: BufferStore, held': seq<Row>)
    requires store.Valid() && Apart(held, store.Repr) && Shows(store, held, w)
    modifies set r | r in held :: r.data, set r | r in held :: r.indexes
    ensures store.Valid() && store.Contents() == w.contents
    ensures copy.Valid() && fresh(copy.Repr) && copy.Contents() == Run(w, steps).contents
    ensures held <= held' && Apart(held', store.Repr) && Apart(held', copy.Repr)
    ensures Holds(held', Run(w, steps).held)
  {
    copy := store.Clone();
    assert Apart(held, copy.Repr) && Disjoint(held, store.Repr);
    hide Holds, Run, Apart;
    ghost var repr := store.Repr;
    held' := Serve(copy, held, steps, w);
    forall i | 0 <= i < |held'|
      ensures held'[i].data !in repr && held'[i].indexes !in repr
    {
      if i < |held| {
        assert held'[i] == held[i];
      }
    }
    ApartMix(held', copy.Repr, repr);
  }

  ghost predicate Disjoint(held: seq<Row>, repr: set<object>) {
    forall i | 0 <= i < |held| :: held[i].data !in repr && held[i].indexes !in repr
  }

  lemma ApartMix(held: seq<Row>, repr: set<object>, other: set<object>)
    requires Apart(held, repr) && Disjoint(held, other)
    ensures Apart(held, other)
  {
  }
}
