/** Laws of `Variable` targets: `assign` registers the name, `evaluate`
    looks it up. */
module VariableLaws {
  import opened Values
  import opened Store
  import opened Assignables

  /** `Variable(n).assign(v)` never fails, binds `n` to `v` so that reading
      it back gives `v`, and leaves every other binding, the heap and the node
      attributes alone. Assigning the same value again changes nothing. */
  lemma VariableRoundTrip(st: State, n: string, v: Value)
    ensures Assign(st, Variable(n), v).Ok?
    ensures var st' := Assign(st, Variable(n), v).value;
      && Evaluate(st', Variable(n)) == Ok(Read(v, st'))
      && (forall m :: m != n ==> Lookup(st', m) == Lookup(st, m))
      && st'.heap == st.heap && st'.nodeAttrs == st.nodeAttrs
      && Assign(st', Variable(n), v) == Ok(st')
  {
    var st' := Assign(st, Variable(n), v).value;
    assert st'.bindings[n := v] == st'.bindings;
  }

  /** Reading an unbound name fails with that name. */
  lemma VariableUnbound(st: State, n: string)
    requires n !in st.bindings
    ensures Evaluate(st, Variable(n)) == Err(UnboundName(n))
  {
  }
}
