/** Arrays inside the elements of an attribute, as slices on the heap: a filtered PATCH gives one array
    to every element it matches, and later additions write into the room behind it. */
module Slices {
  import opened Values
  import opened FilterMeaning
  import opened Patch

  /** A value, or the first part of a buffer. */
  datatype Cell = Plain(value: Value) | Slice(buffer: array<Value>, length: nat)

  type Row = map<string, Cell>

  predicate Fits(c: Cell) {
    match c
    case Plain(value) => !value.Array?
    case Slice(buffer, length) => length <= buffer.Length
  }

  /** There is no room behind the slice. */
  predicate Full(c: Cell) { c.Slice? ==> c.length == c.buffer.Length }

  function BufferOf(c: Cell): set<array<Value>> { if c.Slice? then {c.buffer} else {} }

  ghost function Meaning(c: Cell): Value
    requires Fits(c)
    reads BufferOf(c)
  {
    match c
    case Plain(value) => value
    case Slice(buffer, length) => Array(buffer[..length])
  }

  /** What adding to a value makes of it. */
  function Joined(v: Value, w: Value): Value {
    if !v.Array? then w else Array(Merged(v.items, if w.Array? then w.items else [w]))
  }

  /** How much room a buffer for so many values has. */
  ghost predicate Roomy(room: nat -> nat) { forall n :: room(n) >= n }

  method NewCell(room: nat -> nat, value: Value) returns (c: Cell)
    requires Roomy(room)
    ensures Fits(c) && Meaning(c) == value && fresh(BufferOf(c))
    ensures if value.Array? then c.Slice? && c.length == |value.items| && c.buffer.Length == room(|value.items|)
            else c == Plain(value)
  {
    if !value.Array? {
      return Plain(value);
    }
    var items := value.items;
    var buffer := new Value[room(|items|)](i => if 0 <= i < |items| then items[i] else Null);
    assert buffer[..|items|] == items;
    c := Slice(buffer, |items|);
  }

  /** append: into the room behind the slice if there is any, and else into a new buffer. */
  method Append(room: nat -> nat, c: Cell, v: Value) returns (c': Cell)
    requires Roomy(room) && c.Slice? && Fits(c)
    modifies BufferOf(c)
    ensures c'.Slice? && Fits(c') && c'.length == c.length + 1
    ensures c'.buffer[..c'.length] == old(c.buffer[..c.length]) + [v]
    ensures if Full(c) then fresh(c'.buffer) && c.buffer[..] == old(c.buffer[..])
            else c'.buffer == c.buffer && c.buffer[..] == old(c.buffer[..])[c.length := v]
  {
    if c.length < c.buffer.Length {
      c.buffer[c.length] := v;
      c' := Slice(c.buffer, c.length + 1);
    } else {
      var kept := c.buffer[..c.length];
      var buffer := new Value[room(c.length + 1)](i => if 0 <= i < |kept| then kept[i] else v);
      c' := Slice(buffer, c.length + 1);
      assert buffer[..c.length] == kept;
    }
  }

  /** Adds to the value of a cell. */
  method AddToCell(room: nat -> nat, c: Cell, given: Cell) returns (c': Cell)
    requires Roomy(room) && Fits(c) && Fits(given) && BufferOf(c) !! BufferOf(given)
    modifies BufferOf(c)
    ensures Fits(c') && Meaning(c') == Joined(old(Meaning(c)), old(Meaning(given)))
    ensures c.Plain? ==> c' == given
    ensures c.Slice? ==>
      && c'.Slice? && (c'.buffer == c.buffer || fresh(c'.buffer)) && c.length <= c'.length
      && c.buffer[..c.length] == old(c.buffer[..c.length])
      && (Full(c) ==> c.buffer[..] == old(c.buffer[..]))
      && (Full(c) && c'.buffer == c.buffer ==> c' == c)
    ensures c.Slice? && !Full(c) && given.Plain? && given.value !in old(c.buffer[..c.length]) ==>
      c' == Slice(c.buffer, c.length + 1) && c.buffer[..] == old(c.buffer[..])[c.length := given.value]
  {
    if c.Plain? {
      return given;
    }
    c' := c;
    if given.Plain? {
      MergeOne(c.buffer[..c.length], given.value);
      if given.value !in c.buffer[..c.length] {
        c' := Append(room, c, given.value);
      }
    } else {
      c' := AddAll(room, c, given.buffer, given.length);
    }
  }

  lemma MergeOne(values: seq<Value>, v: Value)
    ensures Merged(values, [v]) == if v in values then values else values + [v]
  {
    assert [v][1..] == [];
  }

  method AddAll(room: nat -> nat, c: Cell, additions: array<Value>, n: nat) returns (c': Cell)
    requires Roomy(room) && c.Slice? && Fits(c) && n <= additions.Length && c.buffer != additions
    modifies c.buffer
    ensures c'.Slice? && Fits(c') && c'.buffer[..c'.length] == Merged(old(c.buffer[..c.length]), old(additions[..n]))
    ensures (c'.buffer == c.buffer || fresh(c'.buffer)) && c.length <= c'.length
    ensures c.buffer[..c.length] == old(c.buffer[..c.length])
    ensures Full(c) ==> c.buffer[..] == old(c.buffer[..])
    ensures Full(c) && c'.buffer == c.buffer ==> c' == c
  {
    c' := c;
    ghost var before, all := c.buffer[..c.length], additions[..n];
    for i := 0 to n
      invariant c'.Slice? && Fits(c') && c.length <= c'.length
      invariant c'.buffer == c.buffer || fresh(c'.buffer)
      invariant additions[..n] == all
      invariant c.buffer[..c.length] == before
      invariant Full(c) ==> c.buffer[..] == old(c.buffer[..])
      invariant Full(c) && c'.buffer == c.buffer ==> c' == c
      invariant Merged(before, all) == Merged(c'.buffer[..c'.length], all[i..])
    {
      assert all[i..][1..] == all[i + 1..] && additions[i] == all[i];
      if additions[i] !in c'.buffer[..c'.length] {
        c' := Append(room, c', additions[i]);
      }
    }
    assert all[n..] == [];
  }

  // ---------- elements ----------

  /** An object element, or one that is no object and never matches a filter. */
  datatype Element = Fields(row: Row) | Other(value: Value)

  predicate IsSlice(es: seq<Element>, i: int, k: string) {
    0 <= i < |es| && es[i].Fields? && k in es[i].row && es[i].row[k].Slice?
  }

  predicate FitsRow(row: Row) { forall k | k in row :: Fits(row[k]) }

  predicate FitsElement(e: Element) { if e.Fields? then FitsRow(e.row) else !e.value.Object? }

  predicate Fitting(es: seq<Element>) { forall i | 0 <= i < |es| :: FitsElement(es[i]) }

  ghost function RowBuffers(row: Row): set<array<Value>> { set k | k in row && row[k].Slice? :: row[k].buffer }

  ghost function ElementBuffers(e: Element): set<array<Value>> { if e.Fields? then RowBuffers(e.row) else {} }

  ghost function Buffers(es: seq<Element>): set<array<Value>> {
    set i, b | 0 <= i < |es| && b in ElementBuffers(es[i]) :: b
  }

  ghost function RowMeaning(row: Row): Document
    requires FitsRow(row)
    reads RowBuffers(row)
  {
    map k | k in row :: Meaning(row[k])
  }

  ghost function ElementMeaning(e: Element): Value
    requires FitsElement(e)
    reads ElementBuffers(e)
  {
    if e.Fields? then Object(RowMeaning(e.row)) else e.value
  }

  ghost function Meanings(es: seq<Element>): (r: seq<Value>)
    requires Fitting(es)
    reads Buffers(es)
    ensures |r| == |es| && forall i | 0 <= i < |es| :: r[i] == ElementMeaning(es[i])
  {
    if es == [] then []
    else
      var init, last := es[..|es| - 1], es[|es| - 1];
      assert Buffers(init) <= Buffers(es) && ElementBuffers(last) <= Buffers(es);
      Meanings(init) + [ElementMeaning(last)]
  }

  /** Two slices that share a buffer leave no room in it, or the buffer is one of the given. */
  ghost predicate Apart(es: seq<Element>, given: set<array<Value>>) {
    forall i, k, j, m | IsSlice(es, i, k) && IsSlice(es, j, m) && (i != j || k != m)
      && es[i].row[k].buffer == es[j].row[m].buffer :: Full(es[i].row[k]) || es[i].row[k].buffer in given
  }

  /** No room is shared. */
  ghost predicate Safe(es: seq<Element>) { Apart(es, {}) }

  // ---------- the meaning of a filtered operation at positions ----------

  /** The elements at these positions changed, the others as they are; the first refusal counts. */
  function ChangedAt(values: seq<Value>, matches: set<nat>, sub: string, operation: Operation, value: Value):
    Outcome<seq<Value>>
  {
    if values == [] then Done([])
    else
      match ChangedAt(values[..|values| - 1], matches, sub, operation, value)
      case Refused(reason) => Refused(reason)
      case Done(changed) =>
        var last := values[|values| - 1];
        if |values| - 1 !in matches || !last.Object? then Done(changed + [last])
        else
          match Changed(last.fields, sub, operation, value)
          case Refused(reason) => Refused(reason)
          case Done(item) => Done(changed + [Object(item)])
  }

  /** At the positions a filter selects this is the filtered operation. */
  lemma {:induction false} ChangedAtIsChangedAll(c: Comparers, filter: Bound, values: seq<Value>, matches: set<nat>,
                                                 sub: string, operation: Operation, value: Value)
    requires forall i | 0 <= i < |values| :: i in matches <==> Selected(c, filter, values[i])
    ensures ChangedAt(values, matches, sub, operation, value) == ChangedAll(c, filter, values, sub, operation, value)
  {
    hide Holds, Changed;
    if values != [] {
      ChangedAtIsChangedAll(c, filter, values[..|values| - 1], matches, sub, operation, value);
    }
  }

  // ---------- one element ----------

  /** es with another cell under one name of an element. */
  function Put(es: seq<Element>, i: nat, k: string, c: Cell): seq<Element>
    requires i < |es| && es[i].Fields?
  {
    es[i := Fields(es[i].row[k := c])]
  }

  lemma PutIsSlice(es: seq<Element>, i: nat, k: string, c: Cell, j: int, m: string)
    requires i < |es| && es[i].Fields? && IsSlice(Put(es, i, k, c), j, m)
    ensures if j == i && m == k then Put(es, i, k, c)[j].row[m] == c && c.Slice?
            else IsSlice(es, j, m) && Put(es, i, k, c)[j].row[m] == es[j].row[m]
  {
  }

  /** A given cell may be put anywhere: only given buffers gain users. */
  lemma PutGiven(es: seq<Element>, i: nat, k: string, c: Cell, given: set<array<Value>>)
    requires i < |es| && es[i].Fields? && Apart(es, given) && BufferOf(c) <= given
    ensures Apart(Put(es, i, k, c), given)
  {
    var next := Put(es, i, k, c);
    forall j, m, l, n | IsSlice(next, j, m) && IsSlice(next, l, n) && (j != l || m != n)
                        && next[j].row[m].buffer == next[l].row[n].buffer
      ensures Full(next[j].row[m]) || next[j].row[m].buffer in given
    {
      PutIsSlice(es, i, k, c, j, m);
      PutIsSlice(es, i, k, c, l, n);
    }
  }

  /** So may a grown cell, if it kept its buffer only when that was nobody else's or stayed full. */
  lemma PutGrown(es: seq<Element>, i: nat, k: string, c: Cell, given: set<array<Value>>)
    requires IsSlice(es, i, k) && Apart(es, given) && c.Slice? && es[i].row[k].buffer !in given
    requires c.buffer == es[i].row[k].buffer ==> Full(es[i].row[k]) ==> c == es[i].row[k]
    requires c.buffer != es[i].row[k].buffer ==> c.buffer !in Buffers(es)
    ensures Apart(Put(es, i, k, c), given)
  {
    var next := Put(es, i, k, c);
    forall j, m, l, n | IsSlice(next, j, m) && IsSlice(next, l, n) && (j != l || m != n)
                        && next[j].row[m].buffer == next[l].row[n].buffer
      ensures Full(next[j].row[m]) || next[j].row[m].buffer in given
    {
      PutIsSlice(es, i, k, c, j, m);
      PutIsSlice(es, i, k, c, l, n);
      if j == i && m == k {
        InBuffers(es, l, n);
      } else if l == i && n == k {
        InBuffers(es, j, m);
      }
    }
  }

  lemma InBuffers(es: seq<Element>, j: int, m: string)
    requires IsSlice(es, j, m)
    ensures es[j].row[m].buffer in ElementBuffers(es[j]) && es[j].row[m].buffer in Buffers(es)
  {
  }

  lemma ShareIsFull(es: seq<Element>, given: set<array<Value>>, i: nat, k: string, j: int, m: string)
    requires Apart(es, given) && IsSlice(es, i, k) && IsSlice(es, j, m) && (i != j || k != m)
    requires es[i].row[k].buffer == es[j].row[m].buffer && es[i].row[k].buffer !in given
    ensures Full(es[i].row[k])
  {
  }

  method AddAt(room: nat -> nat, es: seq<Element>, i: nat, sub: string, c: Cell, ghost given: set<array<Value>>)
    returns (c': Cell)
    requires Roomy(room) && Fitting(es) && Apart(es, given) && i < |es| && es[i].Fields? && sub in es[i].row
    requires Fits(c) && BufferOf(c) <= given && ElementBuffers(es[i]) !! given
    modifies BufferOf(es[i].row[sub])
    ensures Fits(c') && Meaning(c') == Joined(old(Meaning(es[i].row[sub])), old(Meaning(c)))
    ensures Meaning(c) == old(Meaning(c))
    ensures forall j, m | 0 <= j < |es| && es[j].Fields? && m in es[j].row && (j != i || m != sub) ::
      Fits(es[j].row[m]) && Meaning(es[j].row[m]) == old(Meaning(es[j].row[m]))
    ensures Apart(Put(es, i, sub, c'), given)
    ensures c' == c || BufferOf(c') <= BufferOf(es[i].row[sub]) || fresh(BufferOf(c'))
  {
    ghost var was := es[i].row[sub];
    assert Fits(was) by { assert FitsElement(es[i]); }
    assert BufferOf(was) <= ElementBuffers(es[i]);
    c' := AddToCell(room, es[i].row[sub], c);
    if was.Plain? {
      PutGiven(es, i, sub, c', given);
    } else {
      PutGrown(es, i, sub, c', given);
    }
    forall j, m | 0 <= j < |es| && es[j].Fields? && m in es[j].row && (j != i || m != sub)
      ensures Fits(es[j].row[m]) && Meaning(es[j].row[m]) == old(Meaning(es[j].row[m]))
    {
      assert FitsElement(es[j]);
      if was.Slice? && es[j].row[m].Slice? && es[j].row[m].buffer == was.buffer {
        ShareIsFull(es, given, i, sub, j, m);
      }
    }
  }

  // ---------- a patch value given to elements ----------

  /** The cells hold the value: under its name, or field by field. */
  ghost predicate Holding(cells: Row, sub: string, value: Value)
    reads RowBuffers(cells)
  {
    && FitsRow(cells)
    && if sub != "" then cells.Keys == {sub} && Meaning(cells[sub]) == value
       else value.Object? ==> cells.Keys == value.fields.Keys && forall k | k in cells ::
         Meaning(cells[k]) == value.fields[k]
  }

  ghost predicate OwnBuffers(cells: Row) {
    forall k, m | k in cells && m in cells && k != m && cells[k].Slice? && cells[m].Slice? ::
      cells[k].buffer != cells[m].buffer
  }

  /** The arrays of a value, each in a buffer without room. */
  predicate Tight(room: nat -> nat, sub: string, value: Value) {
    if sub != "" then value.Array? ==> room(|value.items|) == |value.items|
    else value.Object? ==> forall k | k in value.fields && value.fields[k].Array? ::
      room(|value.fields[k].items|) == |value.fields[k].items|
  }

  /** Decodes the value of an operation: one new buffer for each array. */
  method Decode(room: nat -> nat, sub: string, value: Value) returns (cells: Row)
    requires Roomy(room)
    ensures Holding(cells, sub, value) && OwnBuffers(cells) && fresh(RowBuffers(cells))
    ensures Tight(room, sub, value) ==> forall k | k in cells :: Full(cells[k])
  {
    if sub != "" {
      var c := NewCell(room, value);
      return map[sub := c];
    }
    if !value.Object? {
      return map[];
    }
    cells := DecodeFields(room, value.fields);
  }

  /** The buffer is as large as one for the field's values is. */
  predicate Sized(room: nat -> nat, fields: Document, cells: Row, k: string)
    requires k in cells && cells[k].Slice?
  {
    && k in fields && fields[k].Array? && cells[k].length == |fields[k].items|
    && cells[k].buffer.Length == room(|fields[k].items|)
  }

  method DecodeFields(room: nat -> nat, fields: Document) returns (cells: Row)
    requires Roomy(room)
    ensures FitsRow(cells) && OwnBuffers(cells) && fresh(RowBuffers(cells)) && RowMeaning(cells) == fields
    ensures forall k | k in cells && cells[k].Slice? :: Sized(room, fields, cells, k)
  {
    cells := map[];
    var rest := fields.Keys;
    while rest != {}
      invariant rest <= fields.Keys && cells.Keys == fields.Keys - rest
      invariant FitsRow(cells) && OwnBuffers(cells) && fresh(RowBuffers(cells))
      invariant forall k | k in cells :: Meaning(cells[k]) == fields[k]
      invariant forall k | k in cells && cells[k].Slice? :: Sized(room, fields, cells, k)
      decreases rest
    {
      hide OwnBuffers, Fits;
      var k :| k in rest;
      rest := rest - {k};
      var c := NewCell(room, fields[k]);
      OneCellMore(cells, k, c);
      cells := cells[k := c];
    }
  }

  lemma OneCellMore(cells: Row, k: string, c: Cell)
    requires FitsRow(cells) && OwnBuffers(cells) && k !in cells && Fits(c) && BufferOf(c) !! RowBuffers(cells)
    ensures FitsRow(cells[k := c]) && OwnBuffers(cells[k := c])
    ensures RowBuffers(cells[k := c]) == RowBuffers(cells) + BufferOf(c)
  {
    var more := cells[k := c];
    forall b
      ensures b in RowBuffers(more) <==> b in RowBuffers(cells) || b in BufferOf(c)
    {
      if b in RowBuffers(cells) {
        var m :| m in cells && cells[m].Slice? && cells[m].buffer == b;
        assert more[m] == cells[m];
      }
      if b in BufferOf(c) {
        assert more[k] == c;
      }
    }
    assert forall m | m in cells && cells[m].Slice? :: cells[m].buffer in RowBuffers(cells);
  }

  /** The element at i has these fields now, and all else is as it was. */
  ghost predicate Turned(es: seq<Element>, i: nat, next: seq<Element>, item: Document, given: set<array<Value>>)
    requires i < |es|
    reads if i < |next| then ElementBuffers(next[i]) else {}
  {
    && |next| == |es| && next == es[i := next[i]] && next[i].Fields?
    && Fitting(next) && RowMeaning(next[i].row) == item && Apart(next, given)
  }

  /** Every cell of the element is a given one, or in a buffer of e, or in one of its own. */
  ghost predicate Traced(row: Row, e: Element, cells: Row, own: set<array<Value>>) {
    forall k | k in row ::
      || (k in cells && row[k] == cells[k])
      || BufferOf(row[k]) <= ElementBuffers(e)
      || BufferOf(row[k]) <= own
  }

  /** Element i changes in its turn. */
  method Turn(room: nat -> nat, es: seq<Element>, i: nat, cells: Row, sub: string, operation: Operation, value: Value)
    returns (r: Outcome<seq<Element>>, ghost own: set<array<Value>>)
    requires Roomy(room) && Fitting(es) && i < |es| && es[i].Fields? && (operation.Remove? ==> sub != "")
    requires Apart(es, RowBuffers(cells)) && Holding(cells, sub, value) && ElementBuffers(es[i]) !! RowBuffers(cells)
    modifies ElementBuffers(es[i])
    ensures Holding(cells, sub, value) && fresh(own) && own !! RowBuffers(cells)
    ensures forall j | 0 <= j < |es| && j != i :: ElementMeaning(es[j]) == old(ElementMeaning(es[j]))
    ensures match Changed(old(RowMeaning(es[i].row)), sub, operation, value)
            case Refused(reason) => r == Refused(reason)
            case Done(item) =>
              && r.Done? && Turned(es, i, r.value, item, RowBuffers(cells))
              && Traced(r.value[i].row, es[i], cells, own)
  {
    own := {};
    var row := es[i].row;
    FitsAt(es, i);
    if sub == "" {
      if !value.Object? {
        return Refused(InvalidValue), own;
      }
      PutAllGiven(es, i, cells, value);
      return Done(es[i := Fields(row + cells)]), own;
    }
    if operation.Remove? {
      if sub !in row {
        return Refused(NoTarget), own;
      }
      RemoveOne(es, i, sub, RowBuffers(cells));
      return Done(es[i := Fields(row - {sub})]), own;
    }
    if operation.Replace? && sub !in row {
      return Refused(NoTarget), own;
    }
    if operation.Replace? || sub !in row {
      PutOneGiven(es, i, sub, cells);
      return Done(Put(es, i, sub, cells[sub])), own;
    }
    var next;
    next, own := AddTurn(room, es, i, sub, cells, value);
    return Done(next), own;
  }

  lemma FitsAt(es: seq<Element>, i: nat)
    requires Fitting(es) && i < |es|
    ensures FitsElement(es[i])
  {
  }

  method AddTurn(room: nat -> nat, es: seq<Element>, i: nat, sub: string, cells: Row, value: Value)
    returns (next: seq<Element>, ghost own: set<array<Value>>)
    requires Roomy(room) && Fitting(es) && i < |es| && es[i].Fields? && sub in es[i].row && sub != ""
    requires Apart(es, RowBuffers(cells)) && Holding(cells, sub, value) && ElementBuffers(es[i]) !! RowBuffers(cells)
    modifies ElementBuffers(es[i])
    ensures Holding(cells, sub, value) && fresh(own) && own !! RowBuffers(cells)
    ensures forall j | 0 <= j < |es| && j != i :: ElementMeaning(es[j]) == old(ElementMeaning(es[j]))
    ensures Turned(es, i, next, Added(old(RowMeaning(es[i].row)), sub, value), RowBuffers(cells))
    ensures Traced(next[i].row, es[i], cells, own)
  {
    var row := es[i].row;
    FitsAt(es, i);
    assert BufferOf(cells[sub]) <= RowBuffers(cells) && BufferOf(row[sub]) <= ElementBuffers(es[i]);
    hide Apart, Fitting, Traced;
    var c := AddAt(room, es, i, sub, cells[sub], RowBuffers(cells));
    own := if c == cells[sub] || BufferOf(c) <= BufferOf(row[sub]) then {} else BufferOf(c);
    next := Put(es, i, sub, c);
    PutFits(es, i, sub, c);
    assert RowMeaning(row[sub := c]) == old(RowMeaning(row))[sub := Meaning(c)];
    PutTraced(es, i, sub, c, cells, own);
  }

  lemma PutTraced(es: seq<Element>, i: nat, sub: string, c: Cell, cells: Row, own: set<array<Value>>)
    requires i < |es| && es[i].Fields? && sub in es[i].row && sub in cells
    requires c == cells[sub] || BufferOf(c) <= BufferOf(es[i].row[sub]) || BufferOf(c) <= own
    ensures Traced(es[i].row[sub := c], es[i], cells, own)
  {
  }

  lemma PutFits(es: seq<Element>, i: nat, k: string, c: Cell)
    requires Fitting(es) && i < |es| && es[i].Fields? && Fits(c)
    ensures Fitting(Put(es, i, k, c))
  {
    assert FitsElement(es[i]);
  }

  lemma PutOneGiven(es: seq<Element>, i: nat, sub: string, cells: Row)
    requires Fitting(es) && i < |es| && es[i].Fields? && Apart(es, RowBuffers(cells)) && FitsRow(cells) && sub in cells
    ensures FitsElement(es[i])
    ensures var next := Put(es, i, sub, cells[sub]);
      && Turned(es, i, next, RowMeaning(es[i].row)[sub := Meaning(cells[sub])], RowBuffers(cells))
      && Traced(next[i].row, es[i], cells, {})
  {
    FitsAt(es, i);
    assert BufferOf(cells[sub]) <= RowBuffers(cells);
    PutGiven(es, i, sub, cells[sub], RowBuffers(cells));
    PutFits(es, i, sub, cells[sub]);
    hide Apart, Fitting;
  }

  lemma PutAllGiven(es: seq<Element>, i: nat, cells: Row, value: Value)
    requires Fitting(es) && i < |es| && es[i].Fields? && Apart(es, RowBuffers(cells))
    requires Holding(cells, "", value) && value.Object?
    ensures FitsElement(es[i])
    ensures var next := es[i := Fields(es[i].row + cells)];
      && Turned(es, i, next, RowMeaning(es[i].row) + value.fields, RowBuffers(cells))
      && Traced(next[i].row, es[i], cells, {})
  {
    FitsAt(es, i);
    var row := es[i].row + cells;
    var next := es[i := Fields(row)];
    AllGivenApart(es, i, cells);
    hide Apart;
    assert FitsRow(row);
    assert RowMeaning(row) == RowMeaning(es[i].row) + value.fields;
    hide RowMeaning, FitsRow;
    forall k | k in row
      ensures (k in cells && row[k] == cells[k]) || BufferOf(row[k]) <= ElementBuffers(es[i])
    {
    }
  }

  lemma AllGivenApart(es: seq<Element>, i: nat, cells: Row)
    requires i < |es| && es[i].Fields? && Apart(es, RowBuffers(cells))
    ensures Apart(es[i := Fields(es[i].row + cells)], RowBuffers(cells))
  {
    var next := es[i := Fields(es[i].row + cells)];
    forall j, m, l, n | IsSlice(next, j, m) && IsSlice(next, l, n) && (j != l || m != n)
                        && next[j].row[m].buffer == next[l].row[n].buffer
      ensures Full(next[j].row[m]) || next[j].row[m].buffer in RowBuffers(cells)
    {
      if !(j == i && m in cells) && !(l == i && n in cells) {
        assert IsSlice(es, j, m) && IsSlice(es, l, n);
      }
    }
  }

  lemma RemoveOne(es: seq<Element>, i: nat, k: string, given: set<array<Value>>)
    requires Fitting(es) && i < |es| && es[i].Fields? && Apart(es, given)
    ensures FitsElement(es[i])
    ensures var next := es[i := Fields(es[i].row - {k})];
      Turned(es, i, next, RowMeaning(es[i].row) - {k}, given) && Traced(next[i].row, es[i], map[], {})
  {
    FitsAt(es, i);
    RemovedApart(es, i, k, given);
    hide Apart;
  }

  lemma RemovedApart(es: seq<Element>, i: nat, k: string, given: set<array<Value>>)
    requires i < |es| && es[i].Fields? && Apart(es, given)
    ensures Apart(es[i := Fields(es[i].row - {k})], given)
  {
    var next := es[i := Fields(es[i].row - {k})];
    forall j, m, l, n | IsSlice(next, j, m) && IsSlice(next, l, n) && (j != l || m != n)
                        && next[j].row[m].buffer == next[l].row[n].buffer
      ensures Full(next[j].row[m]) || next[j].row[m].buffer in given
    {
      assert IsSlice(es, j, m) && IsSlice(es, l, n);
    }
  }

  // ---------- one operation ----------

  /** The given buffers are only used where the value was given, as it was given. */
  ghost predicate Users(es: seq<Element>, cells: Row, matches: set<nat>) {
    forall i, k | IsSlice(es, i, k) && es[i].row[k].buffer in RowBuffers(cells) ::
      i in matches && k in cells && es[i].row[k] == cells[k]
  }

  lemma UsersTurned(es: seq<Element>, i: nat, next: seq<Element>, cells: Row, own: set<array<Value>>, matches: set<nat>)
    requires Users(es, cells, matches) && i < |es| && i in matches && |next| == |es| && next == es[i := next[i]]
    requires next[i].Fields? && Traced(next[i].row, es[i], cells, own)
    requires own !! RowBuffers(cells) && ElementBuffers(es[i]) !! RowBuffers(cells)
    ensures Users(next, cells, matches)
  {
    forall j, k | IsSlice(next, j, k) && next[j].row[k].buffer in RowBuffers(cells)
      ensures j in matches && k in cells && next[j].row[k] == cells[k]
    {
      if j == i {
        assert next[i].row[k].buffer in BufferOf(next[i].row[k]);
      } else {
        assert IsSlice(es, j, k);
      }
    }
  }

  /** If the value went to one element at most, or its buffers have no room, none is shared. */
  lemma SafeAgain(es: seq<Element>, cells: Row, matches: set<nat>)
    requires Apart(es, RowBuffers(cells)) && Users(es, cells, matches) && OwnBuffers(cells)
    requires |matches| <= 1 || forall k | k in cells :: Full(cells[k])
    ensures Safe(es)
  {
    forall i, k, j, m | IsSlice(es, i, k) && IsSlice(es, j, m) && (i != j || k != m)
                        && es[i].row[k].buffer == es[j].row[m].buffer
      ensures Full(es[i].row[k])
    {
      if es[i].row[k].buffer in RowBuffers(cells) {
        if |matches| <= 1 {
          OneMatch(matches, i, j);
        }
      }
    }
  }

  lemma OneMatch(matches: set<nat>, i: nat, j: nat)
    requires |matches| <= 1 && i in matches && j in matches
    ensures i == j
  {
    if i != j {
      assert |matches - {i}| >= 1 by { assert j in matches - {i}; }
    }
  }

  ghost predicate BuffersFrom(es: seq<Element>, before: seq<Element>, own: set<array<Value>>) {
    forall i | 0 <= i < |es| :: ElementBuffers(es[i]) <= Buffers(before) + own
  }

  lemma BuffersTurned(es: seq<Element>, i: nat, next: seq<Element>, cells: Row, own: set<array<Value>>,
                      before: seq<Element>, all: set<array<Value>>)
    requires BuffersFrom(es, before, all) && i < |es| && |next| == |es| && next == es[i := next[i]]
    requires next[i].Fields? && Traced(next[i].row, es[i], cells, own) && RowBuffers(cells) <= all
    ensures BuffersFrom(next, before, all + own)
  {
    assert ElementBuffers(next[i]) <= RowBuffers(cells) + ElementBuffers(es[i]) + own by {
      forall b | b in ElementBuffers(next[i])
        ensures b in RowBuffers(cells) + ElementBuffers(es[i]) + own
      {
        var k :| k in next[i].row && next[i].row[k].Slice? && next[i].row[k].buffer == b;
        assert b in BufferOf(next[i].row[k]);
      }
    }
  }

  lemma AfterTurn(es: seq<Element>, i: nat, next: seq<Element>, cells: Row, mine: set<array<Value>>, matches: set<nat>,
                  before: seq<Element>, own: set<array<Value>>, item: Document)
    requires i < |es| && Turned(es, i, next, item, RowBuffers(cells)) && Traced(next[i].row, es[i], cells, mine)
    requires Users(es, cells, matches) && i in matches && BuffersFrom(es, before, own) && RowBuffers(cells) <= own
    requires mine !! RowBuffers(cells) && ElementBuffers(es[i]) !! RowBuffers(cells)
    ensures Users(next, cells, matches) && BuffersFrom(next, before, own + mine) && Apart(next, RowBuffers(cells))
    ensures |next| == |es| && Fitting(next) && next == es[i := next[i]] && next[i].Fields? && FitsElement(next[i])
    ensures ElementMeaning(next[i]) == Object(item)
  {
    UsersTurned(es, i, next, cells, mine, matches);
    BuffersTurned(es, i, next, cells, mine, before, own);
    FitsAt(next, i);
  }

  lemma StartsApart(es: seq<Element>, cells: Row, matches: set<nat>)
    requires Safe(es) && Buffers(es) !! RowBuffers(cells)
    ensures Apart(es, RowBuffers(cells)) && Users(es, cells, matches) && BuffersFrom(es, es, RowBuffers(cells))
  {
    forall i, k | IsSlice(es, i, k)
      ensures es[i].row[k].buffer in Buffers(es)
    {
      InBuffers(es, i, k);
    }
  }

  lemma OwnElement(es: seq<Element>, i: nat)
    requires i < |es|
    ensures ElementBuffers(es[i]) <= Buffers(es)
  {
  }

  lemma BuffersKnown(es: seq<Element>, before: seq<Element>, own: set<array<Value>>)
    requires BuffersFrom(es, before, own)
    ensures Buffers(es) <= Buffers(before) + own
  {
  }

  lemma NothingChanged(matches: set<nat>, sub: string, operation: Operation, value: Value)
    ensures ChangedAt([], matches, sub, operation, value) == Done([])
  {
  }

  lemma ChangedOneMore(values: seq<Value>, i: nat, changed: seq<Value>, matches: set<nat>, sub: string,
                       operation: Operation, value: Value)
    requires i < |values| && ChangedAt(values[..i], matches, sub, operation, value) == Done(changed)
    ensures ChangedAt(values[..i + 1], matches, sub, operation, value) ==
      if i !in matches || !values[i].Object? then Done(changed + [values[i]])
      else match Changed(values[i].fields, sub, operation, value)
           case Refused(reason) => Refused(reason)
           case Done(item) => Done(changed + [Object(item)])
  {
    hide Changed;
    assert values[..i + 1][..i] == values[..i];
  }

  /** A filtered operation on elements that share no room computes its meaning, and leaves them sharing
      none unless it gave an array with room to several of them. */
  method ChangeElements(room: nat -> nat, es: seq<Element>, matches: set<nat>, sub: string, operation: Operation,
                        value: Value) returns (r: Outcome<seq<Element>>)
    requires Roomy(room) && Fitting(es) && Safe(es) && (operation.Remove? ==> sub != "")
    requires forall i | i in matches :: i < |es| && es[i].Fields?
    modifies Buffers(es)
    ensures match ChangedAt(old(Meanings(es)), matches, sub, operation, value)
            case Refused(reason) => r == Refused(reason)
            case Done(changed) =>
              && r.Done? && Fitting(r.value) && Meanings(r.value) == changed
              && (|matches| <= 1 || Tight(room, sub, value) ==> Safe(r.value))
              && forall b | b in Buffers(r.value) :: b in Buffers(es) || fresh(b)
  {
    hide Apart, Users, BuffersFrom, Holding, Changed, ChangedAt, RowMeaning, Turned, Traced, OwnBuffers, Tight,
         FitsElement;
    ghost var values, changed, known := Meanings(es), [], Buffers(es);
    assert ChangedAt(values[..0], matches, sub, operation, value) == Done([]) by {
      NothingChanged(matches, sub, operation, value);
      assert values[..0] == [];
    }
    var cells := Decode(room, sub, value);
    ghost var given := RowBuffers(cells);
    ghost var own := given;
    var all := es;
    assert known !! given;
    StartsApart(es, cells, matches);
    for i := 0 to |es|
      invariant |all| == |es| && Fitting(all) && Apart(all, given) && Holding(cells, sub, value)
      invariant Users(all, cells, matches) && BuffersFrom(all, es, own) && fresh(own) && given <= own
      invariant forall k | i <= k < |es| :: all[k] == es[k]
      invariant |changed| == i && ChangedAt(values[..i], matches, sub, operation, value) == Done(changed)
      invariant forall k | 0 <= k < i :: ElementMeaning(all[k]) == changed[k]
      invariant forall k | i <= k < |es| :: ElementMeaning(all[k]) == values[k]
    {
      ChangedOneMore(values, i, changed, matches, sub, operation, value);
      FitsAt(all, i);
      if i in matches {
        OwnElement(es, i);
        var next;
        ghost var mine;
        next, mine := Turn(room, all, i, cells, sub, operation, value);
        if next.Refused? {
          RefusedAtStays(values, i + 1, matches, sub, operation, value);
          return Refused(next.reason);
        }
        AfterTurn(all, i, next.value, cells, mine, matches, es, own,
                  Changed(values[i].fields, sub, operation, value).value);
        own := own + mine;
        all := next.value;
      }
      changed := changed + [ElementMeaning(all[i])];
    }
    assert values[..|es|] == values;
    assert Meanings(all) == changed;
    BuffersKnown(all, es, own);
    if |matches| <= 1 || Tight(room, sub, value) {
      SafeAgain(all, cells, matches);
    }
    return Done(all);
  }

  lemma {:induction false} RefusedAtStays(values: seq<Value>, n: nat, matches: set<nat>, sub: string,
                                          operation: Operation, value: Value)
    requires n <= |values| && ChangedAt(values[..n], matches, sub, operation, value).Refused?
    ensures ChangedAt(values, matches, sub, operation, value)
         == ChangedAt(values[..n], matches, sub, operation, value)
    decreases |values|
  {
    if n < |values| {
      assert values[..|values| - 1][..n] == values[..n];
      RefusedAtStays(values[..|values| - 1], n, matches, sub, operation, value);
    } else {
      assert values[..n] == values;
    }
  }

  // ---------- many operations ----------

  /** A freshly decoded attribute: every array in a buffer of its own. */
  method Load(room: nat -> nat, values: seq<Value>) returns (es: seq<Element>)
    requires Roomy(room)
    ensures Fitting(es) && Meanings(es) == values && Safe(es) && fresh(Buffers(es))
  {
    hide RowMeaning;
    es := [];
    for n := 0 to |values|
      invariant |es| == n && Fitting(es) && Safe(es) && fresh(Buffers(es))
      invariant forall i | 0 <= i < n :: ElementMeaning(es[i]) == values[i]
    {
      ghost var known := Buffers(es);
      var e := Other(values[n]);
      if values[n].Object? {
        var row := DecodeFields(room, values[n].fields);
        e := Fields(row);
      }
      assert ElementMeaning(e) == values[n];
      assert forall i | 0 <= i < n :: ElementBuffers(es[i]) <= known;
      LoadedOneMore(es, e);
      es := es + [e];
      assert forall i | 0 <= i < n :: ElementMeaning(es[i]) == values[i];
    }
    assert Meanings(es) == values;
  }

  lemma LoadedOneMore(es: seq<Element>, e: Element)
    requires Fitting(es) && Safe(es) && FitsElement(e) && Buffers(es) !! ElementBuffers(e)
    requires e.Fields? ==> OwnBuffers(e.row)
    ensures Fitting(es + [e]) && Safe(es + [e]) && Buffers(es + [e]) == Buffers(es) + ElementBuffers(e)
  {
    var all := es + [e];
    forall i, k, j, m | IsSlice(all, i, k) && IsSlice(all, j, m) && (i != j || k != m)
                        && all[i].row[k].buffer == all[j].row[m].buffer
      ensures Full(all[i].row[k])
    {
      if i < |es| {
        InBuffers(es, i, k);
      }
      if j < |es| {
        InBuffers(es, j, m);
      }
    }
    assert forall i | 0 <= i < |es| :: all[i] == es[i];
    forall b
      ensures b in Buffers(all) <==> b in Buffers(es) || b in ElementBuffers(e)
    {
      if b in ElementBuffers(e) {
        assert all[|es|] == e;
      }
      if b in Buffers(es) {
        var i :| 0 <= i < |es| && b in ElementBuffers(es[i]);
        assert b in ElementBuffers(all[i]);
      }
    }
  }

  /** One operation of a request: the positions it matches may depend on all values. */
  datatype Step = Step(pick: seq<Value> -> set<nat>, sub: string, operation: Operation, value: Value)

  ghost predicate Proper(s: Step) {
    && (s.operation.Remove? ==> s.sub != "")
    && forall values: seq<Value>, i | i in s.pick(values) :: i < |values| && values[i].Object?
  }

  function AllChanged(values: seq<Value>, steps: seq<Step>): Outcome<seq<Value>> {
    if steps == [] then Done(values)
    else
      match AllChanged(values, steps[..|steps| - 1])
      case Refused(reason) => Refused(reason)
      case Done(before) =>
        var last := steps[|steps| - 1];
        ChangedAt(before, last.pick(before), last.sub, last.operation, last.value)
  }

  /** No operation gives an array with room to several elements. */
  predicate Modest(room: nat -> nat, values: seq<Value>, steps: seq<Step>) {
    forall n | 0 <= n < |steps| && AllChanged(values, steps[..n]).Done? ::
      |steps[n].pick(AllChanged(values, steps[..n]).value)| <= 1 || Tight(room, steps[n].sub, steps[n].value)
  }

  /** Without such operations a request computes its meaning, whatever it does to the elements. */
  method ChangeInTurn(room: nat -> nat, values: seq<Value>, steps: seq<Step>) returns (r: Outcome<seq<Element>>)
    requires Roomy(room) && Modest(room, values, steps) && forall s | s in steps :: Proper(s)
    ensures match AllChanged(values, steps)
            case Refused(reason) => r == Refused(reason)
            case Done(changed) => r.Done? && Fitting(r.value) && Meanings(r.value) == changed && Safe(r.value)
  {
    var es := Load(room, values);
    assert steps[..0] == [];
    for n := 0 to |steps|
      invariant Fitting(es) && Safe(es) && AllChanged(values, steps[..n]) == Done(Meanings(es)) && fresh(Buffers(es))
    {
      hide Safe, Meanings, ChangedAt, Tight, Modest, Buffers, Fitting, Proper;
      assert steps[..n + 1][..n] == steps[..n] && steps[n] in steps;
      ModestAt(room, values, steps, n);
      var next := TakeStep(room, es, steps[n]);
      if next.Refused? {
        RefusedOnce(values, steps, n + 1);
        return Refused(next.reason);
      }
      es := next.value;
    }
    assert steps[..|steps|] == steps;
    return Done(es);
  }

  method TakeStep(room: nat -> nat, es: seq<Element>, step: Step) returns (r: Outcome<seq<Element>>)
    requires Roomy(room) && Fitting(es) && Safe(es) && Proper(step)
    requires |step.pick(Meanings(es))| <= 1 || Tight(room, step.sub, step.value)
    modifies Buffers(es)
    ensures match ChangedAt(old(Meanings(es)), step.pick(old(Meanings(es))), step.sub, step.operation, step.value)
            case Refused(reason) => r == Refused(reason)
            case Done(changed) =>
              && r.Done? && Fitting(r.value) && Meanings(r.value) == changed && Safe(r.value)
              && forall b | b in Buffers(r.value) :: b in Buffers(es) || fresh(b)
  {
    hide Safe, ChangedAt, Tight, Fitting, RowMeaning;
    var shown := Show(es);
    r := ChangeElements(room, es, step.pick(shown), step.sub, step.operation, step.value);
  }

  lemma ModestAt(room: nat -> nat, values: seq<Value>, steps: seq<Step>, n: nat)
    requires Modest(room, values, steps) && n < |steps| && AllChanged(values, steps[..n]).Done?
    ensures |steps[n].pick(AllChanged(values, steps[..n]).value)| <= 1 || Tight(room, steps[n].sub, steps[n].value)
  {
  }

  /** What a filter is evaluated on. */
  method Show(es: seq<Element>) returns (values: seq<Value>)
    requires Fitting(es)
    ensures values == Meanings(es)
    ensures forall i | 0 <= i < |es| :: values[i].Object? ==> es[i].Fields?
  {
    values := [];
    for n := 0 to |es|
      invariant |values| == n && forall i | 0 <= i < n :: values[i] == ElementMeaning(es[i])
    {
      assert FitsElement(es[n]);
      if es[n].Fields? {
        var fields := ShowRow(es[n].row);
        values := values + [Object(fields)];
      } else {
        values := values + [es[n].value];
      }
    }
    assert values == Meanings(es);
  }

  method ShowRow(row: Row) returns (fields: Document)
    requires FitsRow(row)
    ensures fields == RowMeaning(row)
  {
    fields := map[];
    var rest := row.Keys;
    while rest != {}
      invariant rest <= row.Keys && fields.Keys == row.Keys - rest
      invariant forall k | k in fields :: fields[k] == Meaning(row[k])
      decreases rest
    {
      var k :| k in rest;
      rest := rest - {k};
      var v := match row[k] case Plain(value) => value case Slice(buffer, length) => Array(buffer[..length]);
      fields := fields[k := v];
    }
  }

  lemma {:induction false} RefusedOnce(values: seq<Value>, steps: seq<Step>, n: nat)
    requires n <= |steps| && AllChanged(values, steps[..n]).Refused?
    ensures AllChanged(values, steps) == AllChanged(values, steps[..n])
    decreases |steps|
  {
    hide ChangedAt;
    if n < |steps| {
      assert steps[..|steps| - 1][..n] == steps[..n];
      RefusedOnce(values, steps[..|steps| - 1], n);
    } else {
      assert steps[..n] == steps;
    }
  }

  // ---------- shared room is lost ----------

  /** Elements that are not safe hold two slices of one buffer, with room behind the shorter. */
  lemma UnsafeSharesRoom(es: seq<Element>) returns (i: nat, k: string, j: nat, m: string)
    requires Fitting(es) && !Safe(es)
    ensures IsSlice(es, i, k) && IsSlice(es, j, m) && (i != j || k != m)
    ensures var a, b := es[i].row[k], es[j].row[m]; a.buffer == b.buffer && a.length <= b.length && !Full(a)
  {
    var p, q, u, v :| IsSlice(es, p, q) && IsSlice(es, u, v) && (p != u || q != v)
      && es[p].row[q].buffer == es[u].row[v].buffer && !Full(es[p].row[q]);
    i, k, j, m := p, q, u, v;
    FitsAt(es, p);
    if es[u].row[v].length < es[p].row[q].length {
      i, k, j, m := u, v, p, q;
    }
  }

  /** Any two such cells are brought to disagree with their values by one addition to each at most: adding
      to the shorter one changes the other. */
  method SharedRoomIsLost(room: nat -> nat, a: Cell, b: Cell, x: Value, y: Value) returns (a': Cell, b': Cell)
    requires Roomy(room) && a.Slice? && b.Slice? && a.buffer == b.buffer && a.length <= b.length && !Full(a)
    requires Fits(a) && Fits(b) && x != y && !x.Array? && !y.Array? && x !in a.buffer[..] && y !in a.buffer[..]
    modifies a.buffer
    ensures Fits(a') && Fits(b')
    ensures a.length == b.length ==> Meaning(b') != Joined(old(Meaning(b)), y)
    ensures a.length < b.length ==> b' == b && Meaning(b) != old(Meaning(b))
  {
    b' := b;
    ghost var was := a.buffer[..];
    if a.length == b.length {
      b' := AddToCell(room, b, Plain(y));
      MergeOne(was[..b.length], y);
      assert b'.buffer[..b'.length][b.length] == y;
    }
    assert x !in a.buffer[..a.length];
    a' := AddToCell(room, a, Plain(x));
    assert b'.buffer[a.length] == x;
    if a.length == b.length {
      assert Joined(Array(was[..b.length]), y) == Array(was[..b.length] + [y]);
      assert (was[..b.length] + [y])[b.length] == y && b'.buffer[..b'.length][b.length] == x;
    } else {
      assert was[..b.length][a.length] != x && b.buffer[..b.length][a.length] == x;
    }
  }

  /** Three values in a buffer for four go to two elements; then one value is added to the first and another
      to the second. The first ends with the second one's value. */
  method SharedArrayIsOverwritten(room: nat -> nat) returns (first: Cell, second: Cell)
    requires Roomy(room) && room(3) == 4
    ensures Fits(first) && Fits(second)
    ensures Meaning(first) == Meaning(second) == Array([Text("x"), Text("y"), Text("z"), Text("q")])
    ensures Joined(Array([Text("x"), Text("y"), Text("z")]), Text("p"))
         == Array([Text("x"), Text("y"), Text("z"), Text("p")])
  {
    var c := NewCell(room, Array([Text("x"), Text("y"), Text("z")]));
    MergeOne([Text("x"), Text("y"), Text("z")], Text("p"));
    MergeOne([Text("x"), Text("y"), Text("z")], Text("q"));
    assert Text("p") !in c.buffer[..3] && Text("q") !in c.buffer[..3];
    first := AddToCell(room, c, Plain(Text("p")));
    second := AddToCell(room, c, Plain(Text("q")));
    assert first == second;
    assert second.buffer[..4] == second.buffer[..3] + [second.buffer[3]];
    assert second.buffer[..4] == [Text("x"), Text("y"), Text("z"), Text("q")];
    assert Merged([Text("x"), Text("y"), Text("z")], [Text("p")]) == [Text("x"), Text("y"), Text("z")] + [Text("p")];
  }
}
