/** What `evaluate` and `assign` of the three target kinds do, as functions
    of the state: `Evaluate` gives the value read and the state after the
    read, `Assign` gives the state after the write. */
module Assignables {
  import opened Values
  import opened Store

  /** `Attribute._lookup` as written. The test `isinstance(self.obj, Variable
      or isinstance(...))` reduces to `isinstance(self.obj, Variable)`, so
      only a `Variable` base is evaluated; an `Attribute` or `Subscript` base
      is returned as the node object itself. */
  function LookupBase(st: State, obj: Expr): (r: Result<Value>)
    ensures obj.Place? && !obj.target.Variable? ==> r == Ok(Node(obj.target))
    ensures obj.Place? && obj.target.Variable? ==> r == Lookup(st, obj.target.name)
    ensures obj.Lit? ==> r == Ok(obj.value)
  {
    match obj
    case Lit(v) => Ok(v)
    case Place(Variable(n)) => Lookup(st, n)
    case Place(t) => Ok(Node(t))
  }

  /** The values of a subscript's operands, in the order both `assign` and
      `evaluate` compute them, and the state after computing them. */
  datatype Operands = Operands(obj: Value, key: Value, start: Value, stop: Value, state: State)

  /** The addressing mode chosen from the operand values. */
  datatype Mode = Item(key: Value) | Slice(start: Option<Value>, stop: Option<Value>)

  /** The branch both `Subscript.assign` and `Subscript.evaluate` take: a key
      that is not None wins over the bounds; otherwise a slice whose bounds are
      the bounds that are not None. */
  function Dispatch(key: Value, start: Value, stop: Value): (m: Mode)
    ensures m.Item? <==> key != NoneV
    ensures m.Item? ==> m.key == key
    ensures m.Slice? ==> m.start == (if start == NoneV then None else Some(start))
    ensures m.Slice? ==> m.stop == (if stop == NoneV then None else Some(stop))
  {
    if key != NoneV then Item(key)
    else if start == NoneV then
      (if stop == NoneV then Slice(None, None) else Slice(None, Some(stop)))
    else
      (if stop == NoneV then Slice(Some(start), None) else Slice(Some(start), Some(stop)))
  }

  /** `target.evaluate(env)`. Reading changes no binding, no node attribute
      and no existing heap cell; it may only allocate (a list slice). Reading
      a `Variable` or an `Attribute` does not even allocate. */
  function Evaluate(st: State, a: Assignable): (r: Result<Read>)
    ensures r.Ok? ==> Extends(st, r.value.state)
    ensures r.Ok? && !a.Subscript? ==> r.value.state == st
    decreases a, 2
  {
    match a
    case Variable(n) =>
      (match Lookup(st, n)
       case Err(e) => Err(e)
       case Ok(v) => Ok(Read(v, st)))
    case Attribute(obj, props) =>
      (match LookupBase(st, obj)
       case Err(e) => Err(e)
       case Ok(base) =>
         match Walk(st, base, props)
         case Err(e) => Err(e)
         case Ok(v) => Ok(Read(v, st)))
    case Subscript(_, _, _, _) =>
      match EvalOperands(st, a)
      case Err(e) => Err(e)
      case Ok(ops) =>
        match Dispatch(ops.key, ops.start, ops.stop)
        case Item(k) =>
          (match GetItem(ops.state, ops.obj, k)
           case Err(e) => Err(e)
           case Ok(v) => Ok(Read(v, ops.state)))
        case Slice(lo, hi) => GetSlice(ops.state, ops.obj, lo, hi)
  }

  /** `env.evaluate(e)` on an operand: absent gives None, a literal gives
      itself, a target is read through its own `evaluate`. */
  function EvalExpr(st: State, e: Option<Expr>): (r: Result<Read>)
    ensures r.Ok? ==> Extends(st, r.value.state)
    ensures e.None? ==> r == Ok(Read(NoneV, st))
    ensures e.Some? && e.value.Lit? ==> r == Ok(Read(e.value.value, st))
    decreases e, 1
  {
    match e
    case None => Ok(Read(NoneV, st))
    case Some(Lit(v)) => Ok(Read(v, st))
    case Some(Place(t)) => Evaluate(st, t)
  }

  /** The first four lines of `Subscript.assign` and `Subscript.evaluate`:
      the container, then the key, the start and the stop, each evaluated in
      the state the previous one left. */
  function EvalOperands(st: State, a: Assignable): (r: Result<Operands>)
    requires a.Subscript?
    ensures r.Ok? ==> Extends(st, r.value.state)
    decreases a, 1
  {
    match Evaluate(st, a.ref)
    case Err(e) => Err(e)
    case Ok(o) =>
      match EvalExpr(o.state, a.key)
      case Err(e) => Err(e)
      case Ok(k) =>
        match EvalExpr(k.state, a.start)
        case Err(e) => Err(e)
        case Ok(s) =>
          match EvalExpr(s.state, a.stop)
          case Err(e) => Err(e)
          case Ok(t) => Ok(Operands(o.value, k.value, s.value, t.value, t.state))
  }

  /** `target.assign(v, env)`. Only a `Variable` target rebinds a name; an
      `Attribute` or `Subscript` target writes into an object, a node or a
      container, and no assignment frees a cell. */
  function Assign(st: State, a: Assignable, v: Value): (r: Result<State>)
    ensures r.Ok? && !a.Variable? ==> r.value.bindings == st.bindings
    ensures r.Ok? ==> |st.heap| <= |r.value.heap|
  {
    match a
    case Variable(n) => Ok(Register(st, n, v))
    case Attribute(obj, props) =>
      (match LookupBase(st, obj)
       case Err(e) => Err(e)
       case Ok(base) =>
         match Walk(st, base, Parents(props))
         case Err(e) => Err(e)
         case Ok(parent) =>
           if props == [] then Err(EmptyPath)
           else SetAttr(st, parent, props[|props| - 1], v))
    case Subscript(_, _, _, _) =>
      match EvalOperands(st, a)
      case Err(e) => Err(e)
      case Ok(ops) =>
        match Dispatch(ops.key, ops.start, ops.stop)
        case Item(k) => SetItem(ops.state, ops.obj, k, v)
        case Slice(lo, hi) => SetSlice(ops.state, ops.obj, lo, hi, v)
  }

  /** Python's `properties[:-1]`: every property but the last; empty for an
      empty list. */
  function Parents(props: seq<string>): (r: seq<string>)
    ensures props != [] ==> r + [props[|props| - 1]] == props
    ensures props == [] ==> r == []
  {
    if props == [] then [] else props[..|props| - 1]
  }
}
