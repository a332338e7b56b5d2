/** The imperative side: an environment whose fields the `assign` methods
    update in place, with `evaluate` and `assign` written step by step as the
    source does and proved to compute what the functions of `Assignables`
    specify. */
module Interp {
  import opened Values
  import opened Store
  import Assignables

  /** `after` is the state `want` promises, or, when `want` is a failure, `r`
      is that failure and at most new cells were allocated. */
  predicate Mirrors(want: Result<Read>, r: Result<Value>, before: State, after: State) {
    match want
    case Ok(rd) => r == Ok(rd.value) && after == rd.state
    case Err(e) => r == Err(e) && Extends(before, after)
  }

  /** The same for an assignment, which produces no value. */
  predicate MirrorsWrite(want: Result<State>, r: Outcome, before: State, after: State) {
    match want
    case Ok(s) => r == Pass && after == s
    case Err(e) => r == Fail(e) && Extends(before, after)
  }

  /** The evaluation environment: the binding context's names, the objects
      and containers values refer to, and the attributes set on expression
      nodes used as objects. */
  class Environment {
    var bindings: map<string, Value>
    var heap: seq<Cell>
    var nodeAttrs: map<Assignable, map<string, Value>>

    function Snapshot(): State
      reads this
    {
      State(bindings, heap, nodeAttrs)
    }

    constructor (bindings: map<string, Value>, heap: seq<Cell>)
      ensures Snapshot() == State(bindings, heap, map[])
    {
      this.bindings := bindings;
      this.heap := heap;
      this.nodeAttrs := map[];
    }

    /** `env.context.register(name, v)`. */
    method Register(name: string, v: Value)
      modifies this
      ensures Snapshot() == Store.Register(old(Snapshot()), name, v)
    {
      bindings := bindings[name := v];
    }

    /** The attribute loop shared by `Attribute.assign` and
      `Attribute.evaluate`: `for prop in props: target = getattr(target, prop)`.
      It only reads. */
    method Follow(target: Value, props: seq<string>) returns (r: Result<Value>)
      ensures r == Walk(Snapshot(), target, props)
    {
      var t := target;
      var i := 0;
      while i < |props|
        invariant 0 <= i <= |props|
        invariant Walk(Snapshot(), target, props) == Walk(Snapshot(), t, props[i..])
      {
        assert props[i..][1..] == props[i + 1..];
        var next := GetAttr(Snapshot(), t, props[i]);
        if next.Err? {
          return Err(next.error);
        }
        t := next.value;
        i := i + 1;
      }
      return Ok(t);
    }

    /** `setattr(target, prop, v)`, updating the object or node in place. */
    method SetAttribute(target: Value, prop: string, v: Value) returns (r: Outcome)
      modifies this
      ensures MirrorsWrite(SetAttr(old(Snapshot()), target, prop, v), r, old(Snapshot()), Snapshot())
      ensures r.Fail? ==> Snapshot() == old(Snapshot())
    {
      if target.Node? {
        var attrs := if target.node in nodeAttrs then nodeAttrs[target.node] else map[];
        nodeAttrs := nodeAttrs[target.node := attrs[prop := v]];
        r := Pass;
      } else if target.Ref? && target.addr < |heap| && heap[target.addr].Object? {
        heap := heap[target.addr := Object(heap[target.addr].props[prop := v])];
        r := Pass;
      } else {
        r := Fail(MissingProperty(prop));
      }
    }

    /** Python's own `obj[key] = v` and `obj[start:stop] = v`: the container's
      cell is replaced in place. */
    method StoreInto(obj: Value, m: Assignables.Mode, v: Value) returns (r: Outcome)
      modifies this
      ensures MirrorsWrite(
        if m.Item? then SetItem(old(Snapshot()), obj, m.key, v)
        else SetSlice(old(Snapshot()), obj, m.start, m.stop, v),
        r, old(Snapshot()), Snapshot())
      ensures r.Fail? ==> Snapshot() == old(Snapshot())
    {
      var s := if m.Item? then SetItem(Snapshot(), obj, m.key, v)
               else SetSlice(Snapshot(), obj, m.start, m.stop, v);
      if s.Err? {
        return Fail(s.error);
      }
      heap := heap[obj.addr := s.value.heap[obj.addr]];
      r := Pass;
    }

    /** Python's own `obj[start:stop]`: a list slice is allocated as a new
      cell. */
    method SliceOf(obj: Value, start: Option<Value>, stop: Option<Value>) returns (r: Result<Value>)
      modifies this
      ensures Mirrors(GetSlice(old(Snapshot()), obj, start, stop), r, old(Snapshot()), Snapshot())
    {
      var s := GetSlice(Snapshot(), obj, start, stop);
      if s.Err? {
        return Err(s.error);
      }
      heap := s.value.state.heap;
      r := Ok(s.value.value);
    }

    /** `env.evaluate(e)` on an operand. */
    method EvaluateExpr(e: Option<Expr>) returns (r: Result<Value>)
      modifies this
      ensures Mirrors(Assignables.EvalExpr(old(Snapshot()), e), r, old(Snapshot()), Snapshot())
      decreases e, 1
    {
      match e
      case None => r := Ok(NoneV);
      case Some(Lit(v)) => r := Ok(v);
      case Some(Place(t)) => r := Evaluate(t);
    }

    /** `target.evaluate(env)` for the three kinds of target. */
    method Evaluate(a: Assignable) returns (r: Result<Value>)
      modifies this
      ensures Mirrors(Assignables.Evaluate(old(Snapshot()), a), r, old(Snapshot()), Snapshot())
      decreases a, 2
    {
      match a
      case Variable(n) =>
        r := Lookup(Snapshot(), n);
      case Attribute(obj, props) =>
        var target := Assignables.LookupBase(Snapshot(), obj);
        if target.Err? {
          return Err(target.error);
        }
        r := Follow(target.value, props);
      case Subscript(ref, keyExpr, startExpr, stopExpr) =>
        ghost var st0 := Snapshot();
        var obj := Evaluate(ref);
        if obj.Err? {
          return Err(obj.error);
        }
        var key := EvaluateExpr(keyExpr);
        if key.Err? {
          return Err(key.error);
        }
        var start := EvaluateExpr(startExpr);
        if start.Err? {
          return Err(start.error);
        }
        var stop := EvaluateExpr(stopExpr);
        if stop.Err? {
          return Err(stop.error);
        }
        assert Assignables.EvalOperands(st0, a)
            == Ok(Assignables.Operands(obj.value, key.value, start.value, stop.value, Snapshot()));
        if key.value != NoneV {
          var item := GetItem(Snapshot(), obj.value, key.value);
          if item.Err? {
            return Err(item.error);
          }
          r := Ok(item.value);
        } else if start.value == NoneV {
          if stop.value == NoneV {
            r := SliceOf(obj.value, None, None);
          } else {
            r := SliceOf(obj.value, None, Some(stop.value));
          }
        } else {
          if stop.value == NoneV {
            r := SliceOf(obj.value, Some(start.value), None);
          } else {
            r := SliceOf(obj.value, Some(start.value), Some(stop.value));
          }
        }
    }

    /** `target.assign(v, env)` for the three kinds of target. */
    method Assign(a: Assignable, v: Value) returns (r: Outcome)
      modifies this
      ensures MirrorsWrite(Assignables.Assign(old(Snapshot()), a, v), r, old(Snapshot()), Snapshot())
    {
      match a
      case Variable(n) =>
        Register(n, v);
        r := Pass;
      case Attribute(obj, props) =>
        var target := Assignables.LookupBase(Snapshot(), obj);
        if target.Err? {
          return Fail(target.error);
        }
        var parent := Follow(target.value, Assignables.Parents(props));
        if parent.Err? {
          return Fail(parent.error);
        }
        if props == [] {
          return Fail(EmptyPath);
        }
        r := SetAttribute(parent.value, props[|props| - 1], v);
      case Subscript(ref, keyExpr, startExpr, stopExpr) =>
        ghost var st0 := Snapshot();
        var obj := Evaluate(ref);
        if obj.Err? {
          return Fail(obj.error);
        }
        var key := EvaluateExpr(keyExpr);
        if key.Err? {
          return Fail(key.error);
        }
        var start := EvaluateExpr(startExpr);
        if start.Err? {
          return Fail(start.error);
        }
        var stop := EvaluateExpr(stopExpr);
        if stop.Err? {
          return Fail(stop.error);
        }
        assert Assignables.EvalOperands(st0, a)
            == Ok(Assignables.Operands(obj.value, key.value, start.value, stop.value, Snapshot()));
        if key.value != NoneV {
          r := StoreInto(obj.value, Assignables.Item(key.value), v);
        } else if start.value == NoneV {
          if stop.value == NoneV {
            r := StoreInto(obj.value, Assignables.Slice(None, None), v);
          } else {
            r := StoreInto(obj.value, Assignables.Slice(None, Some(stop.value)), v);
          }
        } else {
          if stop.value == NoneV {
            r := StoreInto(obj.value, Assignables.Slice(Some(start.value), None), v);
          } else {
            r := StoreInto(obj.value, Assignables.Slice(Some(start.value), Some(stop.value)), v);
          }
        }
    }
  }
}
