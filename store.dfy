/** The state an assignment reads and writes, and the primitive operations
    the core performs on it: the binding context's `register` and `lookup`,
    `getattr` and `setattr`, and Python's item and slice access on lists,
    dictionaries and strings. */
module Store {
  import opened Values

  /** The binding context's names, the heap of objects and containers that
      values refer to, and the attributes set on expression nodes that are
      used as plain objects. */
  datatype State = State(
    bindings: map<string, Value>,
    heap: seq<Cell>,
    nodeAttrs: map<Assignable, map<string, Value>>)

  /** A value read, together with the state after the read (reading a slice
      of a list allocates a new list). */
  datatype Read = Read(value: Value, state: State)

  /** `st'` is `st` with, at most, new cells allocated after the old ones. */
  predicate Extends(st: State, st': State) {
    && st'.bindings == st.bindings
    && st'.nodeAttrs == st.nodeAttrs
    && |st.heap| <= |st'.heap|
    && forall b :: 0 <= b < |st.heap| ==> st'.heap[b] == st.heap[b]
  }

  /** `st'` is `st` with at most the heap cell at `a` replaced. */
  predicate OnlyCellChanged(st: State, st': State, a: nat) {
    && st'.bindings == st.bindings
    && st'.nodeAttrs == st.nodeAttrs
    && a < |st.heap|
    && |st'.heap| == |st.heap|
    && forall b :: 0 <= b < |st.heap| && b != a ==> st'.heap[b] == st.heap[b]
  }

  // ---------------------------------------------------------------------
  // The binding context

  /** `context.lookup`: the value bound to the name, or a NameError when the
      name is unbound. */
  function Lookup(st: State, name: string): (r: Result<Value>)
    ensures r.Ok? <==> name in st.bindings
    ensures r.Ok? ==> r.value == st.bindings[name]
    ensures r.Err? ==> r.error == UnboundName(name)
  {
    if name in st.bindings then Ok(st.bindings[name]) else Err(UnboundName(name))
  }

  /** `context.register`: creates the binding or overwrites it; looking the
      name up afterwards gives `v`, every other name looks up as before, and
      the heap and the node attributes are untouched. */
  function Register(st: State, name: string, v: Value): (r: State)
    ensures Lookup(r, name) == Ok(v)
    ensures forall m :: m != name ==> Lookup(r, m) == Lookup(st, m)
    ensures r.heap == st.heap && r.nodeAttrs == st.nodeAttrs
  {
    st.(bindings := st.bindings[name := v])
  }

  // ---------------------------------------------------------------------
  // Attributes

  /** The values whose attributes can be read and set: plain objects, and
      expression nodes used as objects. */
  predicate HasAttributes(st: State, target: Value) {
    || (target.Ref? && target.addr < |st.heap| && st.heap[target.addr].Object?)
    || target.Node?
  }

  function Attributes(st: State, target: Value): map<string, Value>
    requires HasAttributes(st, target)
  {
    if target.Node? then
      (if target.node in st.nodeAttrs then st.nodeAttrs[target.node] else map[])
    else st.heap[target.addr].props
  }

  /** `getattr(target, prop)`: the property of an object or of a node, or an
      AttributeError naming the property. */
  function GetAttr(st: State, target: Value, prop: string): (r: Result<Value>)
    ensures r.Ok? <==> HasAttributes(st, target) && prop in Attributes(st, target)
    ensures r.Err? ==> r.error == MissingProperty(prop)
    ensures r.Ok? && target.Ref? ==> r.value == st.heap[target.addr].props[prop]
    ensures r.Ok? && target.Node? ==> target.node in st.nodeAttrs && r.value == st.nodeAttrs[target.node][prop]
  {
    if HasAttributes(st, target) && prop in Attributes(st, target) then
      Ok(Attributes(st, target)[prop])
    else Err(MissingProperty(prop))
  }

  /** `setattr(target, prop, v)`: afterwards `prop` of `target` reads `v`, and
      every other (value, property) pair reads as before. */
  function SetAttr(st: State, target: Value, prop: string, v: Value): (r: Result<State>)
    ensures r.Ok? <==> HasAttributes(st, target)
    ensures r.Err? ==> r.error == MissingProperty(prop)
    ensures r.Ok? ==> GetAttr(r.value, target, prop) == Ok(v)
    ensures r.Ok? ==> forall t, p :: t != target || p != prop ==> GetAttr(r.value, t, p) == GetAttr(st, t, p)
    ensures r.Ok? ==> r.value.bindings == st.bindings && |r.value.heap| == |st.heap|
    ensures r.Ok? ==> forall b :: 0 <= b < |st.heap| && Ref(b) != target ==> r.value.heap[b] == st.heap[b]
    ensures r.Ok? ==> forall b :: 0 <= b < |st.heap| ==> r.value.heap[b].Object? == st.heap[b].Object?
    ensures r.Ok? && target.Ref? ==> r.value.nodeAttrs == st.nodeAttrs
  {
    if !HasAttributes(st, target) then Err(MissingProperty(prop))
    else if target.Node? then
      Ok(st.(nodeAttrs := st.nodeAttrs[target.node := Attributes(st, target)[prop := v]]))
    else
      Ok(st.(heap := st.heap[target.addr := Object(Attributes(st, target)[prop := v])]))
  }

  /** The property chain: read each property of `props` in order, starting
      from `target`; the first missing one is the failure. */
  function Walk(st: State, target: Value, props: seq<string>): (r: Result<Value>)
    ensures props == [] ==> r == Ok(target)
    ensures |props| == 1 ==> r == GetAttr(st, target, props[0])
    ensures r.Err? ==> r.error.MissingProperty? && r.error.prop in props
    decreases |props|
  {
    if props == [] then Ok(target)
    else match GetAttr(st, target, props[0])
      case Err(e) => Err(e)
      case Ok(next) => Walk(st, next, props[1..])
  }

  // ---------------------------------------------------------------------
  // Items and slices

  /** Python's index into a sequence of length `n`: `-n <= k < n`, a negative
      index counting from the end. */
  function Index(k: int, n: nat): (r: Option<nat>)
    ensures r.Some? <==> -(n as int) <= k < n
    ensures r.Some? ==> r.value < n && (r.value == k || r.value == k + n)
  {
    if -(n as int) <= k < n then Some(if k < 0 then k + n else k) else None
  }

  /** Lists and dictionaries cannot be dictionary keys. */
  predicate Hashable(st: State, v: Value) {
    !(v.Ref? && v.addr < |st.heap| && !st.heap[v.addr].Object?)
  }

  /** `obj[key]`: a list or a string is indexed by an integer in range (a
      negative one counting from the end), a dictionary by a hashable key it
      holds; reading an item of a string gives a one-character string. */
  function GetItem(st: State, obj: Value, key: Value): (r: Result<Value>)
    ensures obj.Ref? && obj.addr < |st.heap| && st.heap[obj.addr].List? ==>
      var items := st.heap[obj.addr].items;
      && (r.Ok? <==> key.Int? && Index(key.i, |items|).Some?)
      && (r.Ok? ==> r.value == items[Index(key.i, |items|).value])
    ensures obj.Ref? && obj.addr < |st.heap| && st.heap[obj.addr].Dict? ==>
      var entries := st.heap[obj.addr].entries;
      && (r.Ok? <==> Hashable(st, key) && key in entries)
      && (r.Ok? ==> r.value == entries[key])
    ensures obj.Str? ==>
      && (r.Ok? <==> key.Int? && Index(key.i, |obj.s|).Some?)
      && (r.Ok? ==> r.value == Str([obj.s[Index(key.i, |obj.s|).value]]))
    ensures r.Ok? ==> obj.Str? || (obj.Ref? && obj.addr < |st.heap| && !st.heap[obj.addr].Object?)
    ensures (obj.Str? || (obj.Ref? && obj.addr < |st.heap| && st.heap[obj.addr].List?)) ==>
      var n := if obj.Str? then |obj.s| else |st.heap[obj.addr].items|;
      && (!key.Int? ==> r == Err(BadIndex))
      && (key.Int? && Index(key.i, n).None? ==> r == Err(OutOfRange))
    ensures obj.Ref? && obj.addr < |st.heap| && st.heap[obj.addr].Dict? ==>
      && (!Hashable(st, key) ==> r == Err(BadIndex))
      && (Hashable(st, key) && key !in st.heap[obj.addr].entries ==> r == Err(MissingKey))
    ensures !obj.Str? && !(obj.Ref? && obj.addr < |st.heap| && !st.heap[obj.addr].Object?) ==>
      r == Err(NotIndexable)
  {
    match obj
    case Ref(a) =>
      if a >= |st.heap| then Err(NotIndexable)
      else (match st.heap[a]
        case List(items) =>
          if !key.Int? then Err(BadIndex)
          else (match Index(key.i, |items|)
            case None => Err(OutOfRange)
            case Some(j) => Ok(items[j]))
        case Dict(entries) =>
          if !Hashable(st, key) then Err(BadIndex)
          else if key in entries then Ok(entries[key])
          else Err(MissingKey)
        case Object(_) => Err(NotIndexable))
    case Str(s) =>
      if !key.Int? then Err(BadIndex)
      else (match Index(key.i, |s|)
        case None => Err(OutOfRange)
        case Some(j) => Ok(Str([s[j]])))
    case _ => Err(NotIndexable)
  }

  /** `obj[key] = v`: only the container's own cell changes; a list keeps its
      length and every element but the addressed one; a dictionary keeps every
      other entry; reading `obj[key]` afterwards gives `v`. */
  function SetItem(st: State, obj: Value, key: Value, v: Value): (r: Result<State>)
    ensures r.Ok? <==>
      (obj.Ref? && obj.addr < |st.heap| &&
       ((st.heap[obj.addr].List? && key.Int? && Index(key.i, |st.heap[obj.addr].items|).Some?) ||
        (st.heap[obj.addr].Dict? && Hashable(st, key))))
    ensures r.Ok? ==> obj.Ref? && OnlyCellChanged(st, r.value, obj.addr)
    ensures r.Ok? ==> GetItem(r.value, obj, key) == Ok(v)
    ensures r.Ok? && st.heap[obj.addr].List? ==>
      && key.Int?
      && Index(key.i, |st.heap[obj.addr].items|).Some?
      && r.value.heap[obj.addr].List?
      && |r.value.heap[obj.addr].items| == |st.heap[obj.addr].items|
      && forall j :: 0 <= j < |st.heap[obj.addr].items| && Index(key.i, |st.heap[obj.addr].items|) != Some(j) ==>
           r.value.heap[obj.addr].items[j] == st.heap[obj.addr].items[j]
    ensures r.Ok? && st.heap[obj.addr].Dict? ==>
      && r.value.heap[obj.addr].Dict?
      && r.value.heap[obj.addr].entries.Keys == st.heap[obj.addr].entries.Keys + {key}
      && forall k :: k in st.heap[obj.addr].entries && k != key ==>
           r.value.heap[obj.addr].entries[k] == st.heap[obj.addr].entries[k]
    ensures r.Ok? ==> st.heap[obj.addr].List? || st.heap[obj.addr].Dict?
    ensures obj.Ref? && obj.addr < |st.heap| && st.heap[obj.addr].List? ==>
      && (!key.Int? ==> r == Err(BadIndex))
      && (key.Int? && Index(key.i, |st.heap[obj.addr].items|).None? ==> r == Err(OutOfRange))
    ensures obj.Ref? && obj.addr < |st.heap| && st.heap[obj.addr].Dict? && !Hashable(st, key) ==>
      r == Err(BadIndex)
    ensures obj.Str? ==> r == Err(Immutable)
    ensures !obj.Str? && !(obj.Ref? && obj.addr < |st.heap| && !st.heap[obj.addr].Object?) ==>
      r == Err(NotIndexable)
  {
    match obj
    case Ref(a) =>
      if a >= |st.heap| then Err(NotIndexable)
      else (match st.heap[a]
        case List(items) =>
          if !key.Int? then Err(BadIndex)
          else (match Index(key.i, |items|)
            case None => Err(OutOfRange)
            case Some(j) => Ok(st.(heap := st.heap[a := List(items[j := v])])))
        case Dict(entries) =>
          if !Hashable(st, key) then Err(BadIndex)
          else Ok(st.(heap := st.heap[a := Dict(entries[key := v])]))
        case Object(_) => Err(NotIndexable))
    case Str(_) => Err(Immutable)
    case _ => Err(NotIndexable)
  }

  /** A slice bound: an integer, or None for "absent". */
  function Bound(b: Option<Value>): Result<Option<int>> {
    match b
    case None => Ok(None)
    case Some(NoneV) => Ok(None)
    case Some(Int(i)) => Ok(Some(i))
    case Some(_) => Err(BadIndex)
  }

  /** Python's adjustment of one slice bound to a sequence of length `n`: a
      negative bound counts from the end, and the result is clamped to
      `0..n`. */
  function Clamp(b: Option<int>, n: nat, default: nat): (r: nat)
    requires default <= n
    ensures r <= n
    ensures b.None? ==> r == default
    ensures b.Some? && 0 <= b.value <= n ==> r == b.value
    ensures b.Some? && b.value > n ==> r == n
    ensures b.Some? && b.value < 0 ==> r == if b.value + n < 0 then 0 else b.value + n
  {
    match b
    case None => default
    case Some(i) =>
      if i < 0 then (if i + n < 0 then 0 else i + n)
      else if i > n then n
      else i
  }

  /** The half-open range `lo..hi` a slice addresses in a sequence of length
      `n`; a stop before the start addresses the empty range at the start. */
  function SliceBounds(start: Option<Value>, stop: Option<Value>, n: nat): (r: Result<(nat, nat)>)
    ensures r.Ok? <==> Bound(start).Ok? && Bound(stop).Ok?
    ensures r.Err? ==> r.error == BadIndex
    ensures r.Ok? ==> r.value.0 <= r.value.1 <= n
    ensures r.Ok? ==> r.value.0 == Clamp(Bound(start).value, n, 0)
    ensures r.Ok? && Clamp(Bound(start).value, n, 0) <= Clamp(Bound(stop).value, n, n) ==>
      r.value.1 == Clamp(Bound(stop).value, n, n)
    ensures r.Ok? && Clamp(Bound(stop).value, n, n) < Clamp(Bound(start).value, n, 0) ==>
      r.value.1 == r.value.0
  {
    match Bound(start)
    case Err(e) => Err(e)
    case Ok(lo) =>
      match Bound(stop)
      case Err(e) => Err(e)
      case Ok(hi) =>
        var l := Clamp(lo, n, 0);
        var h := Clamp(hi, n, n);
        Ok((l, if h < l then l else h))
  }

  /** The elements an iterable supplies to a slice assignment: a list's
      items, or a string's characters as one-character strings. */
  function Items(st: State, v: Value): (r: Result<seq<Value>>)
    ensures r.Ok? <==> v.Str? || (v.Ref? && v.addr < |st.heap| && st.heap[v.addr].List?)
    ensures r.Ok? && v.Ref? ==> r.value == st.heap[v.addr].items
    ensures r.Ok? && v.Str? ==> |r.value| == |v.s| && forall i :: 0 <= i < |v.s| ==> r.value[i] == Str([v.s[i]])
    ensures r.Err? ==> r.error == NotIterable
  {
    match v
    case Ref(a) =>
      if a < |st.heap| && st.heap[a].List? then Ok(st.heap[a].items) else Err(NotIterable)
    case Str(s) => Ok(seq(|s|, i requires 0 <= i < |s| => Str([s[i]])))
    case _ => Err(NotIterable)
  }

  /** `obj[start:stop]`: a string slice is a string; a list slice is a new
      list allocated after every existing cell, which are left as they are. */
  function GetSlice(st: State, obj: Value, start: Option<Value>, stop: Option<Value>): (r: Result<Read>)
    ensures r.Ok? <==>
      ((obj.Ref? && obj.addr < |st.heap| && st.heap[obj.addr].List? &&
        SliceBounds(start, stop, |st.heap[obj.addr].items|).Ok?) ||
       (obj.Str? && SliceBounds(start, stop, |obj.s|).Ok?))
    ensures r.Ok? ==> Extends(st, r.value.state)
    ensures r.Ok? && obj.Ref? ==>
      && obj.addr < |st.heap| && st.heap[obj.addr].List?
      && SliceBounds(start, stop, |st.heap[obj.addr].items|).Ok?
      && r.value.value == Ref(|st.heap|)
      && |r.value.state.heap| == |st.heap| + 1
      && r.value.state.heap[|st.heap|].List?
      && var (lo, hi) := SliceBounds(start, stop, |st.heap[obj.addr].items|).value;
         && |r.value.state.heap[|st.heap|].items| == hi - lo
         && forall j :: 0 <= j < hi - lo ==>
              r.value.state.heap[|st.heap|].items[j] == st.heap[obj.addr].items[lo + j]
    ensures r.Ok? ==> obj.Ref? || (obj.Str? && r.value.state == st)
    ensures r.Ok? && obj.Str? ==>
      && SliceBounds(start, stop, |obj.s|).Ok?
      && var (lo, hi) := SliceBounds(start, stop, |obj.s|).value;
         r.value.value == Str(obj.s[lo..hi])
    ensures r.Err? && (obj.Str? || (obj.Ref? && obj.addr < |st.heap| && st.heap[obj.addr].List?)) ==>
      r.error == BadIndex
    ensures !obj.Str? && !(obj.Ref? && obj.addr < |st.heap| && st.heap[obj.addr].List?) ==>
      r == Err(NotSliceable)
  {
    match obj
    case Ref(a) =>
      if a < |st.heap| && st.heap[a].List? then
        match SliceBounds(start, stop, |st.heap[a].items|)
        case Err(e) => Err(e)
        case Ok((lo, hi)) =>
          Ok(Read(Ref(|st.heap|), st.(heap := st.heap + [List(st.heap[a].items[lo..hi])])))
      else Err(NotSliceable)
    case Str(s) =>
      (match SliceBounds(start, stop, |s|)
       case Err(e) => Err(e)
       case Ok((lo, hi)) => Ok(Read(Str(s[lo..hi]), st)))
    case _ => Err(NotSliceable)
  }

  /** `obj[start:stop] = v`: the list's range `lo..hi` is replaced by the
      elements of `v`; the elements before `lo` and from `hi` on are kept in
      place around them, and no other cell changes. */
  function SetSlice(st: State, obj: Value, start: Option<Value>, stop: Option<Value>, v: Value): (r: Result<State>)
    ensures r.Ok? <==>
      (obj.Ref? && obj.addr < |st.heap| && st.heap[obj.addr].List? &&
       SliceBounds(start, stop, |st.heap[obj.addr].items|).Ok? && Items(st, v).Ok?)
    ensures r.Ok? ==> obj.Ref? && OnlyCellChanged(st, r.value, obj.addr)
    ensures r.Ok? ==>
      && st.heap[obj.addr].List?
      && SliceBounds(start, stop, |st.heap[obj.addr].items|).Ok?
      && Items(st, v).Ok?
      && r.value.heap[obj.addr].List?
      && var items, vals := st.heap[obj.addr].items, Items(st, v).value;
         var (lo, hi) := SliceBounds(start, stop, |items|).value;
         var items' := r.value.heap[obj.addr].items;
         && |items'| == |items| - (hi - lo) + |vals|
         && items'[..lo] == items[..lo]
         && items'[lo..lo + |vals|] == vals
         && items'[lo + |vals|..] == items[hi..]
    ensures obj.Ref? && obj.addr < |st.heap| && st.heap[obj.addr].List? ==>
      && (SliceBounds(start, stop, |st.heap[obj.addr].items|).Err? ==> r == Err(BadIndex))
      && (SliceBounds(start, stop, |st.heap[obj.addr].items|).Ok? && Items(st, v).Err? ==> r == Err(NotIterable))
    ensures obj.Str? ==> r == Err(Immutable)
    ensures !obj.Str? && !(obj.Ref? && obj.addr < |st.heap| && st.heap[obj.addr].List?) ==>
      r == Err(NotSliceable)
  {
    match obj
    case Ref(a) =>
      if a < |st.heap| && st.heap[a].List? then
        var items := st.heap[a].items;
        match SliceBounds(start, stop, |items|)
        case Err(e) => Err(e)
        case Ok((lo, hi)) =>
          match Items(st, v)
          case Err(e) => Err(e)
          case Ok(vals) => Ok(st.(heap := st.heap[a := List(items[..lo] + vals + items[hi..])]))
      else Err(NotSliceable)
    case Str(_) => Err(Immutable)
    case _ => Err(NotSliceable)
  }
}
