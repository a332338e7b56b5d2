/** Laws of `Attribute` targets: how a property path is walked,
    read-after-write, what a write leaves alone, and how the base resolution
    as written differs from evaluating every nested target. */
module AttributeLaws {
  import opened Values
  import opened Store
  import opened Assignables

  // ---------------------------------------------------------------------
  // Walking a property path

  /** Walking `p + q` is walking `p`, then `q` from where `p` ended. */
  lemma {:induction false} WalkAppend(st: State, t: Value, p: seq<string>, q: seq<string>)
    ensures Walk(st, t, p + q) ==
      (match Walk(st, t, p)
       case Ok(u) => Walk(st, u, q)
       case Err(e) => Err(e))
    decreases |p|
  {
    if p == [] {
      assert p + q == q;
    } else {
      assert (p + q)[0] == p[0];
      assert (p + q)[1..] == p[1..] + q;
      match GetAttr(st, t, p[0])
      case Err(e) =>
      case Ok(next) => WalkAppend(st, next, p[1..], q);
    }
  }

  /** A walk that succeeds has read every hop: each prefix of the path
      succeeds and the next property exists where that prefix ended. */
  lemma WalkReadsEveryHop(st: State, t: Value, props: seq<string>, i: nat)
    requires Walk(st, t, props).Ok?
    requires i < |props|
    ensures Walk(st, t, props[..i]).Ok?
    ensures GetAttr(st, Walk(st, t, props[..i]).value, props[i]).Ok?
  {
    assert props[..i] + props[i..] == props;
    WalkAppend(st, t, props[..i], props[i..]);
    assert props[i..][0] == props[i];
  }

  /** The first hop whose property is missing is the failure of the whole
      walk. */
  lemma WalkStopsAtMissingHop(st: State, t: Value, props: seq<string>, i: nat, u: Value)
    requires i < |props|
    requires Walk(st, t, props[..i]) == Ok(u)
    requires GetAttr(st, u, props[i]).Err?
    ensures Walk(st, t, props) == Err(MissingProperty(props[i]))
  {
    assert props[..i] + props[i..] == props;
    WalkAppend(st, t, props[..i], props[i..]);
    assert props[i..][0] == props[i];
  }

  /** Some hop of the walk of `props` from `t` reads property `prop` of
      `target`. */
  predicate ReadsAt(st: State, t: Value, props: seq<string>, target: Value, prop: string)
    decreases |props|
  {
    && props != []
    && (|| (t == target && props[0] == prop)
        || (GetAttr(st, t, props[0]).Ok?
            && ReadsAt(st, GetAttr(st, t, props[0]).value, props[1..], target, prop)))
  }

  /** A `setattr` that no hop of a walk reads does not change the walk. */
  lemma {:induction false} WalkUnaffected(st: State, st': State, t: Value, props: seq<string>,
                                         target: Value, prop: string, v: Value)
    requires SetAttr(st, target, prop, v) == Ok(st')
    requires !ReadsAt(st, t, props, target, prop)
    ensures Walk(st', t, props) == Walk(st, t, props)
    decreases |props|
  {
    if props != [] {
      assert GetAttr(st', t, props[0]) == GetAttr(st, t, props[0]);
      if GetAttr(st, t, props[0]).Ok? {
        WalkUnaffected(st, st', GetAttr(st, t, props[0]).value, props[1..], target, prop, v);
      }
    }
  }

  /** Two states that differ at most in the contents of lists and
      dictionaries. */
  predicate SameObjects(st: State, st': State) {
    && st'.bindings == st.bindings
    && st'.nodeAttrs == st.nodeAttrs
    && |st'.heap| == |st.heap|
    && forall b :: 0 <= b < |st.heap| ==>
         && (st'.heap[b].Object? <==> st.heap[b].Object?)
         && (st.heap[b].Object? ==> st'.heap[b] == st.heap[b])
  }

  /** A property walk reads only objects and nodes. */
  lemma {:induction false} WalkSeesOnlyObjects(st: State, st': State, t: Value, props: seq<string>)
    requires SameObjects(st, st')
    ensures Walk(st', t, props) == Walk(st, t, props)
    decreases |props|
  {
    if props != [] {
      assert GetAttr(st', t, props[0]) == GetAttr(st, t, props[0]);
      if GetAttr(st, t, props[0]).Ok? {
        WalkSeesOnlyObjects(st, st', GetAttr(st, t, props[0]).value, props[1..]);
      }
    }
  }

  // ---------------------------------------------------------------------
  // Attribute

  /** `Attribute.assign` reads every property but the last without writing,
      then writes only the last property of the parent object reached that
      way: that property reads `v` afterwards, every other (object, property)
      pair reads as before, no binding changes and no heap cell but the
      parent's. */
  lemma AttributeAssignWritesLastHop(st: State, obj: Expr, props: seq<string>, v: Value)
    requires Assign(st, Attribute(obj, props), v).Ok?
    ensures props != [] && LookupBase(st, obj).Ok?
    ensures Walk(st, LookupBase(st, obj).value, Parents(props)).Ok?
    ensures var parent := Walk(st, LookupBase(st, obj).value, Parents(props)).value;
            var st' := Assign(st, Attribute(obj, props), v).value;
      && GetAttr(st', parent, props[|props| - 1]) == Ok(v)
      && (forall t, p :: t != parent || p != props[|props| - 1] ==> GetAttr(st', t, p) == GetAttr(st, t, p))
      && st'.bindings == st.bindings
      && (forall b :: 0 <= b < |st.heap| && Ref(b) != parent ==> st'.heap[b] == st.heap[b])
  {
  }

  /** An empty property list is an `IndexError` once the base is found. */
  lemma AttributeEmptyPath(st: State, obj: Expr, v: Value)
    requires LookupBase(st, obj).Ok?
    ensures Assign(st, Attribute(obj, []), v) == Err(EmptyPath)
    ensures Evaluate(st, Attribute(obj, [])) == Ok(Read(LookupBase(st, obj).value, st))
  {
  }

  /** Single-property round trip: after `Attribute(obj, [p]).assign(v)`,
      evaluating the same target gives `v`; assigning again changes
      nothing. */
  lemma AttributeRoundTripSingle(st: State, obj: Expr, p: string, v: Value)
    requires Assign(st, Attribute(obj, [p]), v).Ok?
    ensures var st' := Assign(st, Attribute(obj, [p]), v).value;
      && Evaluate(st', Attribute(obj, [p])) == Ok(Read(v, st'))
      && Assign(st', Attribute(obj, [p]), v) == Ok(st')
  {
    var st' := Assign(st, Attribute(obj, [p]), v).value;
    var base := LookupBase(st, obj).value;
    assert Parents([p]) == [];
    assert LookupBase(st', obj) == LookupBase(st, obj);
    assert Walk(st', base, [p]) == Ok(v) by {
      assert [p][1..] == [];
    }
    SetAttrSameValue(st', base, p, v);
  }

  /** Setting a property to the value it already has changes nothing. */
  lemma SetAttrSameValue(st: State, target: Value, p: string, v: Value)
    requires GetAttr(st, target, p) == Ok(v)
    ensures SetAttr(st, target, p, v) == Ok(st)
  {
    var attrs := Attributes(st, target);
    assert attrs[p := v] == attrs;
    if target.Node? {
      assert st.nodeAttrs[target.node := attrs[p := v]] == st.nodeAttrs;
    } else {
      assert st.heap[target.addr := Object(attrs[p := v])] == st.heap;
    }
  }

  /** Multi-property round trip: when no hop of the walk to the parent reads
      the property being written, evaluating after `assign(v)` gives `v`, and
      assigning `v` again changes nothing. */
  lemma AttributeRoundTrip(st: State, obj: Expr, props: seq<string>, v: Value, base: Value, parent: Value)
    requires props != []
    requires LookupBase(st, obj) == Ok(base)
    requires Walk(st, base, Parents(props)) == Ok(parent)
    requires HasAttributes(st, parent)
    requires !ReadsAt(st, base, Parents(props), parent, props[|props| - 1])
    ensures Assign(st, Attribute(obj, props), v).Ok?
    ensures var st' := Assign(st, Attribute(obj, props), v).value;
      && Evaluate(st', Attribute(obj, props)) == Ok(Read(v, st'))
      && Assign(st', Attribute(obj, props), v) == Ok(st')
  {
    var last := props[|props| - 1];
    var st' := SetAttr(st, parent, last, v).value;
    assert Assign(st, Attribute(obj, props), v) == Ok(st');
    assert LookupBase(st', obj) == Ok(base);
    WalkUnaffected(st, st', base, Parents(props), parent, last, v);
    WalkAppend(st', base, Parents(props), [last]);
    assert [last][1..] == [];
    SetAttrSameValue(st', parent, last, v);
  }

  /** Example: `Attribute(o, [a, b]).assign(v)` changes `o.a.b` and
      leaves `o.a` itself, the parent reference, as it was (unless `o.a` is
      `o` and `a` is `b`, when they are the same place). */
  lemma ChainedAssignKeepsParentReference(st: State, o: Value, a: string, b: string, mid: Value, v: Value)
    requires GetAttr(st, o, a) == Ok(mid)
    requires mid != o || a != b
    requires HasAttributes(st, mid)
    ensures Assign(st, Attribute(Lit(o), [a, b]), v).Ok?
    ensures var st' := Assign(st, Attribute(Lit(o), [a, b]), v).value;
      GetAttr(st', o, a) == Ok(mid) && GetAttr(st', mid, b) == Ok(v)
  {
    assert Parents([a, b]) == [a];
    assert Walk(st, o, [a]) == Ok(mid) by {
      assert [a][1..] == [];
    }
  }

  /** Why the multi-property round trip needs its side condition: with
      `o.p` being `o` itself, `Attribute(o, [p, p]).assign(1)` sets `o.p` to
      1, and evaluating the same path then asks for `p` of 1. */
  lemma AliasedPathIsNoRoundTrip()
    ensures var st := State(map[], [Object(map["p" := Ref(0)])], map[]);
            var a := Attribute(Lit(Ref(0)), ["p", "p"]);
      && Assign(st, a, Int(1)) == Ok(State(map[], [Object(map["p" := Int(1)])], map[]))
      && Evaluate(Assign(st, a, Int(1)).value, a) == Err(MissingProperty("p"))
  {
    var st := State(map[], [Object(map["p" := Ref(0)])], map[]);
    var st' := State(map[], [Object(map["p" := Int(1)])], map[]);
    var a := Attribute(Lit(Ref(0)), ["p", "p"]);
    assert Parents(["p", "p"]) == ["p"];
    assert ["p"][1..] == [];
    assert ["p", "p"][1..] == ["p"];
    assert Walk(st, Ref(0), ["p"]) == Ok(Ref(0));
    assert map["p" := Ref(0)]["p" := Int(1)] == map["p" := Int(1)];
    assert st.heap[0 := Object(map["p" := Int(1)])] == st'.heap;
    assert SetAttr(st, Ref(0), "p", Int(1)) == Ok(st');
    assert Assign(st, a, Int(1)) == Ok(st');
    assert Walk(st', Ref(0), ["p", "p"]) == Err(MissingProperty("p"));
  }

  // ---------------------------------------------------------------------
  // Base resolution as written and as evidently intended

  /** The evident intent of `_lookup`: evaluate any nested target base, not
      only a `Variable`. */
  function IntendedBase(st: State, obj: Expr): (r: Result<Read>)
    ensures r.Ok? ==> Extends(st, r.value.state)
  {
    match obj
    case Lit(v) => Ok(Read(v, st))
    case Place(t) => Evaluate(st, t)
  }

  /** On a literal or a `Variable` base the code as written and the intent
      agree. */
  lemma BaseAgreesWithIntent(st: State, obj: Expr)
    requires obj.Lit? || obj.target.Variable?
    ensures LookupBase(st, obj) ==
      (match IntendedBase(st, obj)
       case Ok(rd) => Ok(rd.value)
       case Err(e) => Err(e))
  {
  }

  /** With any other nested target as base, `assign` as written writes the
      property onto the expression node itself: no binding and no heap cell
      changes, and the node now carries the property. */
  lemma NestedBaseWritesNode(st: State, t: Assignable, p: string, v: Value)
    requires !t.Variable?
    ensures Assign(st, Attribute(Place(t), [p]), v).Ok?
    ensures var st' := Assign(st, Attribute(Place(t), [p]), v).value;
      && st'.bindings == st.bindings && st'.heap == st.heap
      && GetAttr(st', Node(t), p) == Ok(v)
  {
    assert Parents([p]) == [];
  }

  /** The difference on an example: `o.a.b` built as `Attribute(Attribute(o,
      [a]), [b])`, with `o.a.b == 7`. The intended base is `o.a`, whose `b` is
      7; as written, evaluation asks the node for `b` and fails, and
      assignment stores `b` on the node, leaving `o.a.b` at 7. */
  lemma NestedBaseAsWritten()
    ensures var st := State(map["o" := Ref(0)], [Object(map["a" := Ref(1)]), Object(map["b" := Int(7)])], map[]);
            var inner := Attribute(Place(Variable("o")), ["a"]);
            var outer := Attribute(Place(inner), ["b"]);
      && IntendedBase(st, Place(inner)) == Ok(Read(Ref(1), st))
      && Walk(st, Ref(1), ["b"]) == Ok(Int(7))
      && Evaluate(st, outer) == Err(MissingProperty("b"))
      && Assign(st, outer, Int(9)) == Ok(st.(nodeAttrs := map[inner := map["b" := Int(9)]]))
  {
    var st := State(map["o" := Ref(0)], [Object(map["a" := Ref(1)]), Object(map["b" := Int(7)])], map[]);
    var inner := Attribute(Place(Variable("o")), ["a"]);
    var outer := Attribute(Place(inner), ["b"]);
    assert Walk(st, Ref(0), ["a"]) == GetAttr(st, Ref(0), "a") == Ok(Ref(1));
    assert Walk(st, Ref(1), ["b"]) == GetAttr(st, Ref(1), "b") == Ok(Int(7));
    assert LookupBase(st, Place(inner)) == Ok(Node(inner));
    assert Walk(st, Node(inner), ["b"]) == GetAttr(st, Node(inner), "b") == Err(MissingProperty("b"));
    assert Parents(["b"]) == [];
    assert SetAttr(st, Node(inner), "b", Int(9))
        == Ok(st.(nodeAttrs := map[inner := map["b" := Int(9)]]));
  }
}
