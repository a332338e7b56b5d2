# Assignment targets of the Calcium interpreter

Calcium programs name the places a value can be stored with three kinds of
assignment target, defined in `src/calciumlang/expression/assignable.py`.
Each target can be written (`assign`) and read (`evaluate`):

- `Variable(name)` registers or looks up a name in the binding context;
- `Attribute(obj, properties)` resolves a base, walks every property but the
  last with `getattr`, and writes the last one with `setattr` (reading walks
  them all);
- `Subscript(ref, key, start, stop)` evaluates the container, the key, the
  start and the stop in that order. A key that is not None selects
  `obj[key]`. Otherwise one of the four slice forms `obj[:]`, `obj[:stop]`,
  `obj[start:]` or `obj[start:stop]` is used.

The model has two layers.

- **Specification functions** (`Store`, `Assignables`) describe reading and
  writing as functions of a value `State`. A state has three parts:
  - the bindings;
  - a heap of objects, lists and dictionaries, shared by address just as
    Python shares them by reference;
  - the attributes set on expression nodes that are used as plain objects.
- **The `Interp.Environment` class** holds that state in fields and runs
  `evaluate` and `assign` step by step, in the same branch order as the
  source. Each of its methods is proved to do exactly what the
  corresponding specification function says.

The laws of the targets are lemmas about the specification functions:
- read-after-write and its side conditions;
- what a write leaves alone;
- key precedence;
- the shape of slice reads and writes;
- how `_lookup` as written differs from evaluating every nested base.

The remaining lemmas work through concrete cases.

Item and slice access follow Python's own rules for lists, dictionaries and
strings:
- negative indices count from the end;
- out-of-range slice bounds are clamped;
- a stop before the start addresses an empty range;
- a list slice is a fresh list;
- strings can be read by index or slice but not written.

`Attribute._lookup` is modelled as written. Its test
`isinstance(self.obj, Variable or isinstance(self.obj, Attribute))` reduces
to `isinstance(self.obj, Variable)`, so only a `Variable` base is evaluated.
An `Attribute` or `Subscript` base is handed to `getattr`/`setattr` as the
expression node itself, although the second `isinstance` call shows that
nested `Attribute` bases were meant to be evaluated too. The model follows
the code and states the intended behaviour separately: `AttributeLaws.IntendedBase`
describes it, and `AttributeLaws.NestedBaseAsWritten` shows where the two
differ.

Assigning the same value twice is the same as assigning it once, but only
for some targets. This is proved for:
- a `Variable`;
- an `Attribute` whose walk to the parent does not read the written property;
- a key with stable operands;
- a slice of the range's width (or an open-ended slice) whose value is not
  the list itself.

A slice write that changes the range's width moves the range, so assigning
twice is not the same as assigning once. `WorkedCases.WidthChangeIsNoRoundTrip`
shows the corresponding failed round trip.

## Model

| member | source | states |
|---|---|---|
| Store.Lookup | src/calciumlang/expression/assignable.py:24 | `context.lookup` gives the bound value, and fails with a NameError naming the name exactly when the name is unbound |
| Store.Register | src/calciumlang/expression/assignable.py:21 | after `context.register`, the name looks up to the value; every other name looks up as before; the heap and the node attributes are untouched |
| Store.GetAttr | src/calciumlang/expression/assignable.py:43 | `getattr` succeeds exactly when the target is an object or a node that has the property, and gives that property; otherwise it is an AttributeError naming the property |
| Store.Walk | src/calciumlang/expression/assignable.py:42-43 | walking an empty path gives the base; a one-property path is a single `getattr`; a failed walk is an AttributeError for one of the path's properties |
| Store.SetAttr | src/calciumlang/expression/assignable.py:38 | `setattr` succeeds exactly on objects and nodes, and fails with AttributeError otherwise; afterwards the property reads the new value and every other (value, property) pair reads as before; no binding changes and no other cell changes |
| Store.Index | src/calciumlang/expression/assignable.py:100 | an integer key addresses a sequence of length n exactly when -n <= k < n, and a negative key counts from the end |
| Store.GetItem | src/calciumlang/expression/assignable.py:100 | `obj[key]`: a list or string gives the element at an in-range integer index (a negative one counting from the end); a string element is a one-character string; a dictionary gives the entry of a hashable key it holds; a non-integer index or unhashable key is a TypeError, an index out of range an IndexError, a missing key a KeyError, and anything else is not subscriptable (TypeError) |
| Store.SetItem | src/calciumlang/expression/assignable.py:76 | `obj[key] = value` succeeds exactly on a list with an in-range integer index or a dictionary with a hashable key; it changes only the container's cell, and reading `obj[key]` afterwards gives the value; a list keeps its length and every other element; a dictionary gains the key and keeps every other entry; a non-integer index or unhashable key is a TypeError, an index out of range an IndexError, a string is immutable (TypeError), and anything else does not support item assignment (TypeError) |
| Store.Clamp | src/calciumlang/expression/assignable.py:101-110 | a slice bound: absent gives the default, a negative bound counts from the end, and the result is clamped to 0..n |
| Store.SliceBounds | src/calciumlang/expression/assignable.py:101-110 | a slice addresses lo..hi with lo <= hi <= n; lo is the clamped start; hi is the clamped stop, or lo when the clamped stop lies before lo (an empty range); non-integer bounds are a TypeError |
| Store.Items | src/calciumlang/expression/assignable.py:78-91 | the iterable a slice assignment consumes: a list gives its items, a string gives its characters as one-character strings, and anything else is a TypeError |
| Store.GetSlice | src/calciumlang/expression/assignable.py:101-110 | `obj[start:stop]` succeeds exactly on a list or a string with integer or absent bounds; on a list it allocates a new list holding exactly the elements lo..hi and changes no existing cell; on a string it gives the substring lo..hi and allocates nothing; a non-integer bound is a TypeError, and any other value is not sliceable (TypeError) |
| Store.SetSlice | src/calciumlang/expression/assignable.py:78-91 | `obj[start:stop] = value` succeeds exactly on a list with integer or absent bounds and a list or string value; it changes only the list's cell: the result keeps the elements before lo, holds the value's elements next, then the elements from hi on, with length n - (hi - lo) + len(value); a non-integer bound or a non-iterable value is a TypeError, as are a string (immutable) and any other value (not sliceable) |
| Assignables.LookupBase | src/calciumlang/expression/assignable.py:46-49 | `_lookup` as written: a `Variable` base is looked up, a literal base is itself, and an `Attribute` or `Subscript` base is the node itself |
| Assignables.Dispatch | src/calciumlang/expression/assignable.py:75-91 | a key that is not None (0 included) selects item access; otherwise the slice's start and stop are the operands that are not None |
| Assignables.Evaluate | src/calciumlang/expression/assignable.py:23-110 | reading any target changes no binding, no node attribute and no existing cell, and only a subscript can allocate (a list slice) |
| Assignables.EvalExpr | src/calciumlang/expression/assignable.py:71-73 | `env.evaluate` of an operand: absent gives None, a literal gives itself, and a nested target changes nothing but may allocate |
| Assignables.EvalOperands | src/calciumlang/expression/assignable.py:70-73 | the container, key, start and stop are evaluated in order, each in the state the previous one left, and together they change nothing but may allocate |
| Assignables.Assign | src/calciumlang/expression/assignable.py:20-91 | only a `Variable` target rebinds a name, and no assignment frees a cell |
| Assignables.Parents | src/calciumlang/expression/assignable.py:36 | `properties[:-1]` followed by the last property is the whole list, and it is empty for an empty list |
| Interp.Environment.Register | src/calciumlang/expression/assignable.py:21 | `env.context.register` leaves the environment in the state `Store.Register` gives |
| Interp.Environment.Follow | src/calciumlang/expression/assignable.py:42-43 | the `getattr` loop returns what `Store.Walk` gives: the value at the end of the path, or the first missing property |
| Interp.Environment.SetAttribute | src/calciumlang/expression/assignable.py:38 | the in-place `setattr` leaves the environment in the state `Store.SetAttr` gives, or fails with its error and changes nothing |
| Interp.Environment.StoreInto | src/calciumlang/expression/assignable.py:75-91 | the in-place item or slice store leaves the state `Store.SetItem` or `Store.SetSlice` gives, or fails with its error and changes nothing |
| Interp.Environment.SliceOf | src/calciumlang/expression/assignable.py:101-110 | the slice read returns and allocates what `Store.GetSlice` gives |
| Interp.Environment.EvaluateExpr | src/calciumlang/expression/assignable.py:71-73 | evaluates an operand exactly as `Assignables.EvalExpr` specifies |
| Interp.Environment.Evaluate | src/calciumlang/expression/assignable.py:23-110 | the three `evaluate` methods return and leave what `Assignables.Evaluate` specifies; when that is a failure, they raise it having at most allocated |
| Interp.Environment.Assign | src/calciumlang/expression/assignable.py:20-91 | the three `assign` methods leave the state `Assignables.Assign` specifies; when that is a failure, they raise it having at most allocated |
| VariableLaws.VariableRoundTrip | src/calciumlang/expression/assignable.py:20-24 | assigning a variable never fails and reading it back gives the value; every other name, the heap and the node attributes are unchanged; assigning the same value again changes nothing |
| VariableLaws.VariableUnbound | src/calciumlang/expression/assignable.py:23-24 | reading an unbound name is a NameError for that name |
| AttributeLaws.WalkAppend | src/calciumlang/expression/assignable.py:42-43 | walking p + q means walking p, then walking q from where p ended |
| AttributeLaws.WalkReadsEveryHop | src/calciumlang/expression/assignable.py:42-43 | in a successful walk, every prefix succeeds and the next property exists where that prefix ended |
| AttributeLaws.WalkStopsAtMissingHop | src/calciumlang/expression/assignable.py:42-43 | the first missing property is the AttributeError of the whole walk |
| AttributeLaws.WalkUnaffected | src/calciumlang/expression/assignable.py:36-38 | a `setattr` that no hop of a walk reads does not change the walk |
| AttributeLaws.WalkSeesOnlyObjects | src/calciumlang/expression/assignable.py:42-43 | a property walk does not depend on the contents of lists and dictionaries |
| AttributeLaws.AttributeAssignWritesLastHop | src/calciumlang/expression/assignable.py:34-38 | a successful attribute assignment has a non-empty path and a parent reached by walking all but the last property; only that parent's last property changes, to the value; no binding changes and no other cell changes |
| AttributeLaws.AttributeEmptyPath | src/calciumlang/expression/assignable.py:34-44 | with an empty property list, assigning is an IndexError and evaluating gives the base itself |
| AttributeLaws.AttributeRoundTripSingle | src/calciumlang/expression/assignable.py:34-44 | after a successful single-property assignment, evaluating the target gives the value, and assigning it again changes nothing |
| AttributeLaws.SetAttrSameValue | src/calciumlang/expression/assignable.py:38 | setting a property to the value it already holds changes nothing |
| AttributeLaws.AttributeRoundTrip | src/calciumlang/expression/assignable.py:34-44 | if no hop of the walk to the parent reads the written property, evaluating after assigning gives the value, and assigning it again changes nothing |
| AttributeLaws.ChainedAssignKeepsParentReference | src/calciumlang/expression/assignable.py:34-38 | assigning `o.a.b` sets `b` of `o.a` and leaves `o.a` itself as it was |
| AttributeLaws.AliasedPathIsNoRoundTrip | src/calciumlang/expression/assignable.py:34-44 | when `o.p` is `o`, assigning `o.p.p` overwrites `o.p`, and reading `o.p.p` back then fails |
| AttributeLaws.IntendedBase | src/calciumlang/expression/assignable.py:46-48 | the evidently intended `_lookup` evaluates any nested target base; it changes nothing but may allocate |
| AttributeLaws.BaseAgreesWithIntent | src/calciumlang/expression/assignable.py:46-49 | for a literal or `Variable` base, `_lookup` as written and as intended agree |
| AttributeLaws.NestedBaseWritesNode | src/calciumlang/expression/assignable.py:34-38 | with a nested `Attribute`/`Subscript` base, assignment as written stores the property on the expression node and changes no binding and no cell |
| AttributeLaws.NestedBaseAsWritten | src/calciumlang/expression/assignable.py:46-49 | for `o.a.b == 7` built as a nested `Attribute`, the intended base reads 7; evaluating as written fails, and assigning as written writes the node |
| SubscriptLaws.ReadUnaffected | src/calciumlang/expression/assignable.py:23-44 | reading a `Variable` or `Attribute` does not depend on the contents of lists and dictionaries |
| SubscriptLaws.OperandUnaffected | src/calciumlang/expression/assignable.py:71-73 | an operand that reads no container gives the same result after a container write |
| SubscriptLaws.OperandsUnaffected | src/calciumlang/expression/assignable.py:70-73 | stable operands allocate nothing and evaluate the same after a container write |
| SubscriptLaws.ContainerWriteKeepsObjects | src/calciumlang/expression/assignable.py:76 | writing a list or dictionary cell leaves every object as it was |
| SubscriptLaws.KeyPrecedence | src/calciumlang/expression/assignable.py:75-77 | once the operands are evaluated, a key that is not None selects `obj[key]` for both reading and writing, and start and stop are not consulted |
| SubscriptLaws.KeyIgnoresBounds | src/calciumlang/expression/assignable.py:99-100 | with a key present, literal or absent bounds make no difference to reading or writing |
| SubscriptLaws.SubscriptAssignFrame | src/calciumlang/expression/assignable.py:69-91 | a subscript assignment changes no binding and no node attribute, and of the existing cells it changes at most the container's |
| SubscriptLaws.SetItemSameValue | src/calciumlang/expression/assignable.py:76 | storing the value an item already holds changes nothing |
| SubscriptLaws.KeyRoundTrip | src/calciumlang/expression/assignable.py:75-100 | with stable operands and a key present, reading after assigning gives the value, and assigning again changes nothing |
| SubscriptLaws.SliceReadPlain | src/calciumlang/expression/assignable.py:101-110 | with in-range bounds, a slice read gives a new list holding exactly the elements in [start, stop) |
| SubscriptLaws.SliceWritePlain | src/calciumlang/expression/assignable.py:78-91 | with in-range bounds, a slice write makes the list `items[:start] + value + items[stop:]`, of the stated length |
| SubscriptLaws.SliceReadAfterWrite | src/calciumlang/expression/assignable.py:78-110 | reading a slice right after writing it gives exactly the written elements, when the write kept the range's width or the slice runs to the end |
| SubscriptLaws.SetSliceSameValue | src/calciumlang/expression/assignable.py:78-91 | writing into an in-range slice the elements it already holds changes nothing |
| SubscriptLaws.SliceWriteTwice | src/calciumlang/expression/assignable.py:78-91 | a slice write of the range's width (or to the end), whose value is not the list itself, leaves the list unchanged when repeated |
| SubscriptLaws.SliceRoundTrip | src/calciumlang/expression/assignable.py:69-110 | the slice round trip through a target: with stable operands, in-range bounds, and a value of the range's width (or an open end), reading after assigning gives the value's elements; unless the value is the list itself, assigning it again changes nothing |
| SubscriptLaws.FullSliceReplaces | src/calciumlang/expression/assignable.py:78-81 | `obj[:] = value` replaces the whole contents by the value's elements |
| SubscriptLaws.OperandFailureShared | src/calciumlang/expression/assignable.py:70-73 | reading and writing evaluate the same operands in the same order, so if that fails, both fail with the same error |
| WorkedCases.KeyBeatsStart | src/calciumlang/expression/assignable.py:99-100 | with key 1 and start 0, reading `[10, 20, 30]` gives 20 |
| WorkedCases.KeyZeroIsPresent | src/calciumlang/expression/assignable.py:75-77 | key 0 counts as present for reading and for writing, even though start and stop are given |
| WorkedCases.BoundedSlice | src/calciumlang/expression/assignable.py:90-110 | `xs[1:3]` of `[0, 1, 2, 3, 4]` reads `[1, 2]`, and `xs[1:3] = [8, 9]` gives `[0, 8, 9, 3, 4]` |
| WorkedCases.OpenSlices | src/calciumlang/expression/assignable.py:104-108 | `[:2]` and `[3:]` are anchored at the ends |
| WorkedCases.FullSlice | src/calciumlang/expression/assignable.py:80 | `xs[:] = [9]` replaces `[1, 2, 3]` by `[9]` |
| WorkedCases.WidthChangeIsNoRoundTrip | src/calciumlang/expression/assignable.py:90 | after `xs[1:3] = [7]`, `xs[1:3]` reads `[7, 3]`, not `[7]` |
| WorkedCases.NegativeAndClampedBounds | src/calciumlang/expression/assignable.py:110 | `[-2:10]` of a five-element list reads its last two elements |
| WorkedCases.WriteThroughSliceCopy | src/calciumlang/expression/assignable.py:69-76 | `xs[:][0] = 5` writes into a fresh copy and leaves `xs` as it was |

## Left out

- Whatever scoping the binding context implements is reduced to one map
  from names to values. `calciumlang.environment` is not part of this model.
- `env.evaluate` is modelled only for the operands a target can have:
  absent, a literal value, or another target. Operators, calls and the rest
  of the expression language are not part of this model.
- Python's attribute protocol is reduced to the properties stored on plain
  objects and on expression nodes. Class attributes, methods of built-in
  values (`str.upper`, `list.append`), properties and `__getattr__` are
  left out: `getattr` on any other value is an AttributeError here. The
  node's own fields (`obj`, `properties`, `ref`, `key`, ...) are not visible
  as its attributes. In Python, a `setattr` that the `_lookup` defect sends
  to such a field rewrites the expression node itself, which changes how
  that node evaluates later. The model stores the property beside the node
  instead and leaves the node as it was.
- Expression nodes used as objects are identified by their structure, not
  by object identity. Two distinct but equal node objects therefore share
  their attributes in the model.
- The values are None, integers, strings, and references to objects, lists
  and dictionaries. Booleans, floats, tuples, bytes and classes with their
  own `__getitem__`/`__setitem__` are left out. Dictionary keys compare
  structurally, so `1 == 1.0 == True` is not modelled.
- Slicing a dictionary is left out: it is an error in the model, although
  Python 3.12 accepts slices as keys. Slice assignment takes only a list or
  a string as its iterable; other iterables (dictionaries, generators) give
  an error. Slice steps are left out because the source never passes one.
- Python exceptions are reduced to the kinds in `Values.Error`. Their
  messages are not modelled.
- A reference to an address past the end of the heap has no Python
  counterpart. It is treated as a value that is not an object and not a
  container.
- Interp.Environment.Evaluate: on failure it promises only that no binding,
  node attribute or existing cell changed. Which fresh cells a failed read
  leaves allocated is not stated, because Python leaves them to the garbage
  collector.
- AttributeLaws.AttributeRoundTrip: proved only when no hop of the walk to
  the parent reads the property being written. `AliasedPathIsNoRoundTrip`
  shows that the round trip fails otherwise.
- SubscriptLaws.KeyRoundTrip: proved only for stable operands, which read no
  list or dictionary. An operand read through another subscript could
  observe the write itself.
- SubscriptLaws.SliceRoundTrip: proved only for stable operands, in-range
  bounds, and a value of the range's width or an open-ended slice.
  `WidthChangeIsNoRoundTrip` shows that the round trip fails otherwise.
  Idempotence is proved only when the value is not the list itself:
  `xs[1:] = xs` grows the list again on a second write.
