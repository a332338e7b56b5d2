/** Laws of `Subscript` targets: key precedence, the shape of slice reads
    and writes, read-after-write for a key and for a slice, and what a write
    leaves alone. */
module SubscriptLaws {
  import opened Values
  import opened Store
  import opened Assignables
  import opened AttributeLaws

  // ---------------------------------------------------------------------
  // Reads that do not depend on container contents

  /** A target whose reading never consults a list or dictionary: a
      `Variable`, or an `Attribute` (its base resolution evaluates at most a
      `Variable`, and its walk reads only objects and nodes). */
  predicate ReadsNoContainer(a: Assignable) {
    !a.Subscript?
  }

  predicate OperandReadsNoContainer(e: Option<Expr>) {
    e.None? || e.value.Lit? || ReadsNoContainer(e.value.target)
  }

  /** A subscript whose container, key and bounds are all read without
      consulting a list or dictionary. */
  predicate StableOperands(a: Assignable) {
    && a.Subscript?
    && ReadsNoContainer(a.ref)
    && OperandReadsNoContainer(a.key)
    && OperandReadsNoContainer(a.start)
    && OperandReadsNoContainer(a.stop)
  }

  /** The same read result, in another state. */
  function Rebased(r: Result<Read>, st: State): Result<Read> {
    match r
    case Ok(rd) => Ok(Read(rd.value, st))
    case Err(e) => Err(e)
  }

  lemma ReadUnaffected(st: State, st': State, a: Assignable)
    requires ReadsNoContainer(a)
    requires SameObjects(st, st')
    ensures Evaluate(st', a) == Rebased(Evaluate(st, a), st')
  {
    match a
    case Variable(_) =>
    case Attribute(obj, props) =>
      assert LookupBase(st', obj) == LookupBase(st, obj);
      if LookupBase(st, obj).Ok? {
        WalkSeesOnlyObjects(st, st', LookupBase(st, obj).value, props);
      }
  }

  lemma OperandUnaffected(st: State, st': State, e: Option<Expr>)
    requires OperandReadsNoContainer(e)
    requires SameObjects(st, st')
    ensures EvalExpr(st', e) == Rebased(EvalExpr(st, e), st')
  {
    if e.Some? && e.value.Place? {
      ReadUnaffected(st, st', e.value.target);
    }
  }

  /** With stable operands, evaluating them allocates nothing, and a write
      to a list or dictionary does not change what they evaluate to. */
  lemma OperandsUnaffected(st: State, st': State, a: Assignable)
    requires StableOperands(a)
    requires SameObjects(st, st')
    requires EvalOperands(st, a).Ok?
    ensures EvalOperands(st, a).value.state == st
    ensures EvalOperands(st', a) == Ok(EvalOperands(st, a).value.(state := st'))
  {
    ReadUnaffected(st, st', a.ref);
    OperandUnaffected(st, st', a.key);
    OperandUnaffected(st, st', a.start);
    OperandUnaffected(st, st', a.stop);
  }

  /** Writing a list or dictionary cell leaves every object as it was. */
  lemma ContainerWriteKeepsObjects(st: State, st': State, addr: nat)
    requires OnlyCellChanged(st, st', addr)
    requires !st.heap[addr].Object? && !st'.heap[addr].Object?
    ensures SameObjects(st, st')
  {
  }

  // ---------------------------------------------------------------------
  // Key precedence

  /** Key precedence: once the operands are evaluated, a key that is not
      None (including 0) selects `obj[key]`, for reading and for writing;
      start and stop are not consulted. */
  lemma KeyPrecedence(st: State, a: Assignable, v: Value)
    requires a.Subscript?
    requires EvalOperands(st, a).Ok?
    requires EvalOperands(st, a).value.key != NoneV
    ensures var ops := EvalOperands(st, a).value;
      && Evaluate(st, a) ==
           (if GetItem(ops.state, ops.obj, ops.key).Ok?
            then Ok(Read(GetItem(ops.state, ops.obj, ops.key).value, ops.state))
            else Err(GetItem(ops.state, ops.obj, ops.key).error))
      && Assign(st, a, v) == SetItem(ops.state, ops.obj, ops.key, v)
  {
  }

  /** With literal or absent bounds, a present key makes the bounds
      irrelevant: the target behaves as if it had none. */
  lemma KeyIgnoresBounds(st: State, ref: Assignable, key: Option<Expr>,
                         start: Option<Expr>, stop: Option<Expr>, v: Value)
    requires start.None? || start.value.Lit?
    requires stop.None? || stop.value.Lit?
    requires EvalOperands(st, Subscript(ref, key, None, None)).Ok?
    requires EvalOperands(st, Subscript(ref, key, None, None)).value.key != NoneV
    ensures Evaluate(st, Subscript(ref, key, start, stop)) == Evaluate(st, Subscript(ref, key, None, None))
    ensures Assign(st, Subscript(ref, key, start, stop), v) == Assign(st, Subscript(ref, key, None, None), v)
  {
    var ops := EvalOperands(st, Subscript(ref, key, None, None)).value;
    var ops' := EvalOperands(st, Subscript(ref, key, start, stop)).value;
    assert ops'.obj == ops.obj && ops'.key == ops.key && ops'.state == ops.state;
  }

  // ---------------------------------------------------------------------
  // Writing through a key

  /** `Subscript.assign` changes no binding and no node attribute, and of the
      cells that existed before it, at most the container's. */
  lemma SubscriptAssignFrame(st: State, a: Assignable, v: Value)
    requires a.Subscript?
    requires Assign(st, a, v).Ok?
    ensures EvalOperands(st, a).Ok? && EvalOperands(st, a).value.obj.Ref?
    ensures var st' := Assign(st, a, v).value;
            var addr := EvalOperands(st, a).value.obj.addr;
      && st'.bindings == st.bindings
      && st'.nodeAttrs == st.nodeAttrs
      && |st.heap| <= |st'.heap|
      && forall b :: 0 <= b < |st.heap| && b != addr ==> st'.heap[b] == st.heap[b]
  {
  }

  /** Storing the value an item already holds changes nothing. */
  lemma SetItemSameValue(st: State, obj: Value, key: Value, v: Value)
    requires SetItem(st, obj, key, v).Ok?
    requires GetItem(st, obj, key) == Ok(v)
    ensures SetItem(st, obj, key, v) == Ok(st)
  {
    var cell := st.heap[obj.addr];
    if cell.List? {
      var j := Index(key.i, |cell.items|).value;
      assert cell.items[j := v] == cell.items;
    } else {
      assert cell.entries[key := v] == cell.entries;
    }
    assert st.heap[obj.addr := cell] == st.heap;
  }

  /** Key round trip: after `assign(v)` with a present key, evaluating the
      same target gives `v`, and assigning `v` again changes nothing. The
      operands must be stable: one read through another subscript could see
      the write, or copy a slice afresh. */
  lemma KeyRoundTrip(st: State, a: Assignable, v: Value)
    requires StableOperands(a)
    requires EvalOperands(st, a).Ok?
    requires EvalOperands(st, a).value.key != NoneV
    requires Assign(st, a, v).Ok?
    ensures var st' := Assign(st, a, v).value;
      && Evaluate(st', a) == Ok(Read(v, st'))
      && Assign(st', a, v) == Ok(st')
  {
    var ops := EvalOperands(st, a).value;
    var st' := Assign(st, a, v).value;
    assert ops.state == st by {
      OperandsUnaffected(st, st, a);
    }
    assert SetItem(st, ops.obj, ops.key, v) == Ok(st');
    ContainerWriteKeepsObjects(st, st', ops.obj.addr);
    OperandsUnaffected(st, st', a);
    assert SetItem(st', ops.obj, ops.key, v).Ok?;
    SetItemSameValue(st', ops.obj, ops.key, v);
  }

  // ---------------------------------------------------------------------
  // Slices

  /** A present slice operand; None means absent. */
  function SliceOperand(x: Value): Option<Value> {
    if x == NoneV then None else Some(x)
  }

  function Lo(start: Option<Value>): int {
    if start.Some? && start.value.Int? then start.value.i else 0
  }

  function Hi(stop: Option<Value>, n: nat): int {
    if stop.Some? && stop.value.Int? then stop.value.i else n
  }

  /** Bounds that address `Lo(start)..Hi(stop, n)` as they stand: integers or
      absent, none negative, none past the end, the stop not before the
      start. */
  predicate Plain(start: Option<Value>, stop: Option<Value>, n: nat) {
    && (start.None? || (start.value.Int? && 0 <= start.value.i <= n))
    && (stop.None? || (stop.value.Int? && Lo(start) <= stop.value.i <= n))
  }

  /** Reading a slice with plain bounds gives a new list holding the
      half-open range `[start, stop)`; an absent start is 0, an absent stop is
      the length. */
  lemma SliceReadPlain(st: State, addr: nat, items: seq<Value>, start: Option<Value>, stop: Option<Value>)
    requires addr < |st.heap| && st.heap[addr] == List(items)
    requires Plain(start, stop, |items|)
    ensures 0 <= Lo(start) <= Hi(stop, |items|) <= |items|
    ensures GetSlice(st, Ref(addr), start, stop)
         == Ok(Read(Ref(|st.heap|), st.(heap := st.heap + [List(items[Lo(start)..Hi(stop, |items|)])])))
  {
  }

  /** Writing a slice with plain bounds replaces the range with the value's
      elements: the list becomes `items[..start] + vals + items[stop..]`, of
      length `|items| - (stop - start) + |vals|`. */
  lemma SliceWritePlain(st: State, addr: nat, items: seq<Value>, start: Option<Value>, stop: Option<Value>,
                        v: Value, vals: seq<Value>)
    requires addr < |st.heap| && st.heap[addr] == List(items)
    requires Plain(start, stop, |items|)
    requires Items(st, v) == Ok(vals)
    ensures 0 <= Lo(start) <= Hi(stop, |items|) <= |items|
    ensures SetSlice(st, Ref(addr), start, stop, v)
         == Ok(st.(heap := st.heap[addr := List(items[..Lo(start)] + vals + items[Hi(stop, |items|)..])]))
    ensures |items[..Lo(start)] + vals + items[Hi(stop, |items|)..]|
         == |items| - (Hi(stop, |items|) - Lo(start)) + |vals|
  {
  }

  /** Reading a slice right after writing it gives back the written elements
      when the write kept the range's width, or the slice runs to the end. */
  lemma SliceReadAfterWrite(st: State, addr: nat, items: seq<Value>, start: Option<Value>, stop: Option<Value>,
                            v: Value, vals: seq<Value>)
    requires addr < |st.heap| && st.heap[addr] == List(items)
    requires Plain(start, stop, |items|)
    requires Items(st, v) == Ok(vals)
    requires stop.None? || |vals| == Hi(stop, |items|) - Lo(start)
    ensures SetSlice(st, Ref(addr), start, stop, v).Ok?
    ensures var st' := SetSlice(st, Ref(addr), start, stop, v).value;
      GetSlice(st', Ref(addr), start, stop) == Ok(Read(Ref(|st'.heap|), st'.(heap := st'.heap + [List(vals)])))
  {
    var lo, hi := Lo(start), Hi(stop, |items|);
    SliceWritePlain(st, addr, items, start, stop, v, vals);
    var items' := items[..lo] + vals + items[hi..];
    var st' := st.(heap := st.heap[addr := List(items')]);
    assert Plain(start, stop, |items'|);
    SliceReadPlain(st', addr, items', start, stop);
    assert items'[Lo(start)..Hi(stop, |items'|)] == vals;
  }

  /** Writing into a slice with plain bounds the elements it already holds
      changes nothing. */
  lemma SetSliceSameValue(st: State, addr: nat, items: seq<Value>, start: Option<Value>, stop: Option<Value>, v: Value)
    requires addr < |st.heap| && st.heap[addr] == List(items)
    requires Plain(start, stop, |items|)
    requires Items(st, v) == Ok(items[Lo(start)..Hi(stop, |items|)])
    ensures SetSlice(st, Ref(addr), start, stop, v) == Ok(st)
  {
    var lo, hi := Lo(start), Hi(stop, |items|);
    SliceWritePlain(st, addr, items, start, stop, v, items[lo..hi]);
    SpliceOwnRange(items, lo, hi);
    assert st.heap[addr := List(items)] == st.heap;
  }

  /** Cutting a sequence at `lo` and `hi` and joining the three pieces gives
      it back. */
  lemma SpliceOwnRange(items: seq<Value>, lo: int, hi: int)
    requires 0 <= lo <= hi <= |items|
    ensures items[..lo] + items[lo..hi] + items[hi..] == items
  {
    assert items[..lo] + items[lo..hi] == items[..hi];
  }

  /** A slice write of the range's width (or to the end), with a value that is
      not the list itself, is idempotent on the list. */
  lemma SliceWriteTwice(st: State, addr: nat, items: seq<Value>, start: Option<Value>, stop: Option<Value>,
                        v: Value, vals: seq<Value>)
    requires addr < |st.heap| && st.heap[addr] == List(items)
    requires Plain(start, stop, |items|)
    requires Items(st, v) == Ok(vals)
    requires stop.None? || |vals| == Hi(stop, |items|) - Lo(start)
    requires v != Ref(addr)
    ensures SetSlice(st, Ref(addr), start, stop, v).Ok?
    ensures var st' := SetSlice(st, Ref(addr), start, stop, v).value;
      SetSlice(st', Ref(addr), start, stop, v) == Ok(st')
  {
    var lo, hi := Lo(start), Hi(stop, |items|);
    SliceWritePlain(st, addr, items, start, stop, v, vals);
    var items' := items[..lo] + vals + items[hi..];
    var st' := st.(heap := st.heap[addr := List(items')]);
    assert Items(st', v) == Ok(vals);
    assert Plain(start, stop, |items'|);
    assert items'[Lo(start)..Hi(stop, |items'|)] == vals;
    SetSliceSameValue(st', addr, items', start, stop, v);
  }

  /** Slice round trip through a target: with stable operands, absent key,
      plain bounds, and a value of the range's width (or a slice to the end),
      evaluating after `assign(v)` gives a new list with exactly the value's
      elements. Unless the value is the list itself, assigning it again
      changes nothing. */
  lemma SliceRoundTrip(st: State, a: Assignable, v: Value, items: seq<Value>, vals: seq<Value>)
    requires StableOperands(a)
    requires EvalOperands(st, a).Ok?
    requires var ops := EvalOperands(st, a).value;
      && ops.key == NoneV
      && ops.obj.Ref? && ops.obj.addr < |st.heap| && st.heap[ops.obj.addr] == List(items)
      && Plain(SliceOperand(ops.start), SliceOperand(ops.stop), |items|)
      && (ops.stop == NoneV || |vals| == Hi(SliceOperand(ops.stop), |items|) - Lo(SliceOperand(ops.start)))
    requires Items(st, v) == Ok(vals)
    ensures Assign(st, a, v).Ok?
    ensures var st' := Assign(st, a, v).value;
      Evaluate(st', a) == Ok(Read(Ref(|st'.heap|), st'.(heap := st'.heap + [List(vals)])))
    ensures v != EvalOperands(st, a).value.obj ==>
      var st' := Assign(st, a, v).value;
      Assign(st', a, v) == Ok(st')
  {
    var ops := EvalOperands(st, a).value;
    assert ops.state == st by {
      OperandsUnaffected(st, st, a);
    }
    var start, stop := SliceOperand(ops.start), SliceOperand(ops.stop);
    assert Dispatch(ops.key, ops.start, ops.stop) == Slice(start, stop);
    SliceReadAfterWrite(st, ops.obj.addr, items, start, stop, v, vals);
    var st' := SetSlice(st, ops.obj, start, stop, v).value;
    assert Assign(st, a, v) == Ok(st');
    ContainerWriteKeepsObjects(st, st', ops.obj.addr);
    OperandsUnaffected(st, st', a);
    if v != ops.obj {
      SliceWriteTwice(st, ops.obj.addr, items, start, stop, v, vals);
    }
  }

  /** Full slice: with key, start and stop all absent, assignment replaces
      the whole contents by the value's elements. */
  lemma FullSliceReplaces(st: State, a: Assignable, v: Value, vals: seq<Value>)
    requires a.Subscript?
    requires EvalOperands(st, a).Ok?
    requires var ops := EvalOperands(st, a).value;
      && ops.key == NoneV && ops.start == NoneV && ops.stop == NoneV
      && ops.obj.Ref? && ops.obj.addr < |ops.state.heap| && ops.state.heap[ops.obj.addr].List?
    requires Items(EvalOperands(st, a).value.state, v) == Ok(vals)
    ensures Assign(st, a, v).Ok?
    ensures var addr := EvalOperands(st, a).value.obj.addr;
      Assign(st, a, v).value.heap[addr] == List(vals)
  {
    var ops := EvalOperands(st, a).value;
    var items := ops.state.heap[ops.obj.addr].items;
    SliceWritePlain(ops.state, ops.obj.addr, items, None, None, v, vals);
    assert items[..0] + vals + items[|items|..] == vals;
  }

  /** Reading and writing evaluate the same operands in the same order: when
      that evaluation fails, both fail with the same error. */
  lemma OperandFailureShared(st: State, a: Assignable, v: Value)
    requires a.Subscript?
    requires EvalOperands(st, a).Err?
    ensures Evaluate(st, a) == Err(EvalOperands(st, a).error)
    ensures Assign(st, a, v) == Err(EvalOperands(st, a).error)
  {
  }
}
