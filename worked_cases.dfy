/** Worked cases of `Subscript` on concrete lists, each stated as a lemma
    about the functions of `Assignables`. */
module WorkedCases {
  import opened Values
  import opened Store
  import opened Assignables

  /** `xs[key]` with start and stop given as literals. */
  function Sub(key: Option<int>, start: Option<int>, stop: Option<int>): Assignable {
    Subscript(Variable("xs"), Operand(key), Operand(start), Operand(stop))
  }

  function Operand(x: Option<int>): Option<Expr> {
    if x.None? then None else Some(Lit(Int(x.value)))
  }

  /** `xs` bound to a list at address 0, and `ys` to a list at address 1. */
  function Lists(xs: seq<Value>, ys: seq<Value>): State {
    State(map["xs" := Ref(0), "ys" := Ref(1)], [List(xs), List(ys)], map[])
  }

  /** `xs = [10, 20, 30]`; with key 1 and start 0, reading gives 20, not the
      slice from 0. */
  lemma KeyBeatsStart()
    ensures var st := Lists([Int(10), Int(20), Int(30)], []);
      Evaluate(st, Sub(Some(1), Some(0), None)) == Ok(Read(Int(20), st))
  {
  }

  /** A key of 0 is present (the test is `is not None`): it selects the first
      element, for reading and for writing, although start and stop are
      given. */
  lemma KeyZeroIsPresent()
    ensures var st := Lists([Int(10), Int(20), Int(30)], []);
      && Evaluate(st, Sub(Some(0), Some(1), Some(3))) == Ok(Read(Int(10), st))
      && Assign(st, Sub(Some(0), Some(1), Some(3)), Int(5)) == Ok(Lists([Int(5), Int(20), Int(30)], []))
  {
    var st := Lists([Int(10), Int(20), Int(30)], []);
    assert [Int(10), Int(20), Int(30)][0 := Int(5)] == [Int(5), Int(20), Int(30)];
    assert st.heap[0 := List([Int(5), Int(20), Int(30)])] == Lists([Int(5), Int(20), Int(30)], []).heap;
  }

  /** `xs = [0, 1, 2, 3, 4]`: `xs[1:3]` reads a new list `[1, 2]`, and
      `xs[1:3] = [8, 9]` makes `xs` `[0, 8, 9, 3, 4]`. */
  lemma BoundedSlice()
    ensures var st := Lists([Int(0), Int(1), Int(2), Int(3), Int(4)], [Int(8), Int(9)]);
      && Evaluate(st, Sub(None, Some(1), Some(3)))
         == Ok(Read(Ref(2), st.(heap := st.heap + [List([Int(1), Int(2)])])))
      && Assign(st, Sub(None, Some(1), Some(3)), Ref(1))
         == Ok(Lists([Int(0), Int(8), Int(9), Int(3), Int(4)], [Int(8), Int(9)]))
  {
    var xs := [Int(0), Int(1), Int(2), Int(3), Int(4)];
    var st := Lists(xs, [Int(8), Int(9)]);
    assert xs[1..3] == [Int(1), Int(2)];
    assert xs[..1] + [Int(8), Int(9)] + xs[3..] == [Int(0), Int(8), Int(9), Int(3), Int(4)];
    assert st.heap[0 := List([Int(0), Int(8), Int(9), Int(3), Int(4)])]
        == Lists([Int(0), Int(8), Int(9), Int(3), Int(4)], [Int(8), Int(9)]).heap;
  }

  /** Open-start and open-end slices are anchored at the ends:
      `[0, 1, 2, 3, 4][:2]` is `[0, 1]` and `[0, 1, 2, 3, 4][3:]` is `[3, 4]`. */
  lemma OpenSlices()
    ensures var st := Lists([Int(0), Int(1), Int(2), Int(3), Int(4)], []);
      && Evaluate(st, Sub(None, None, Some(2)))
         == Ok(Read(Ref(2), st.(heap := st.heap + [List([Int(0), Int(1)])])))
      && Evaluate(st, Sub(None, Some(3), None))
         == Ok(Read(Ref(2), st.(heap := st.heap + [List([Int(3), Int(4)])])))
  {
    var xs := [Int(0), Int(1), Int(2), Int(3), Int(4)];
    assert xs[0..2] == [Int(0), Int(1)];
    assert xs[3..5] == [Int(3), Int(4)];
  }

  /** `xs = [1, 2, 3]`; `xs[:] = [9]` makes `xs` `[9]`. */
  lemma FullSlice()
    ensures var st := Lists([Int(1), Int(2), Int(3)], [Int(9)]);
      Assign(st, Sub(None, None, None), Ref(1)) == Ok(Lists([Int(9)], [Int(9)]))
  {
    var xs := [Int(1), Int(2), Int(3)];
    var st := Lists(xs, [Int(9)]);
    assert xs[..0] + [Int(9)] + xs[3..] == [Int(9)];
    assert st.heap[0 := List([Int(9)])] == Lists([Int(9)], [Int(9)]).heap;
  }

  /** A slice write of another width is no round trip: `xs[1:3] = [7]` makes
      `[0, 1, 2, 3, 4]` into `[0, 7, 3, 4]`, whose `[1:3]` is `[7, 3]`. */
  lemma WidthChangeIsNoRoundTrip()
    ensures var st := Lists([Int(0), Int(1), Int(2), Int(3), Int(4)], [Int(7)]);
            var st' := Lists([Int(0), Int(7), Int(3), Int(4)], [Int(7)]);
      && Assign(st, Sub(None, Some(1), Some(3)), Ref(1)) == Ok(st')
      && Evaluate(st', Sub(None, Some(1), Some(3)))
         == Ok(Read(Ref(2), st'.(heap := st'.heap + [List([Int(7), Int(3)])])))
  {
    var xs := [Int(0), Int(1), Int(2), Int(3), Int(4)];
    var xs' := [Int(0), Int(7), Int(3), Int(4)];
    var st := Lists(xs, [Int(7)]);
    assert xs[..1] + [Int(7)] + xs[3..] == xs';
    assert st.heap[0 := List(xs')] == Lists(xs', [Int(7)]).heap;
    assert xs'[1..3] == [Int(7), Int(3)];
  }

  /** Negative bounds count from the end and out-of-range bounds are
      clamped: `[0, 1, 2, 3, 4][-2:10]` is `[3, 4]`. */
  lemma NegativeAndClampedBounds()
    ensures var st := Lists([Int(0), Int(1), Int(2), Int(3), Int(4)], []);
      Evaluate(st, Sub(None, Some(-2), Some(10)))
      == Ok(Read(Ref(2), st.(heap := st.heap + [List([Int(3), Int(4)])])))
  {
    var xs := [Int(0), Int(1), Int(2), Int(3), Int(4)];
    assert xs[3..5] == [Int(3), Int(4)];
  }

  /** Writing through a slice of a slice writes into the fresh copy:
      `xs[:][0] = 5` leaves `xs` as it was. */
  lemma WriteThroughSliceCopy()
    ensures var st := Lists([Int(1), Int(2)], []);
            var a := Subscript(Sub(None, None, None), Some(Lit(Int(0))), None, None);
      && Assign(st, a, Int(5)).Ok?
      && Assign(st, a, Int(5)).value.heap[0] == List([Int(1), Int(2)])
  {
    var xs := [Int(1), Int(2)];
    assert xs[0..2] == xs;
  }
}
