/** Runtime values, assignment-target nodes and error kinds of the
    assignable-target layer of the Calcium interpreter. */
module Values {

  datatype Option<T> = None | Some(value: T)

  /** A runtime value. Plain objects, lists and dictionaries live in the heap
      and are shared through their address, as Python shares them by
      reference. `Node` is an expression node that is handed around as an
      ordinary object (this happens in `Attribute._lookup`). */
  datatype Value =
    | NoneV
    | Int(i: int)
    | Str(s: string)
    | Ref(addr: nat)
    | Node(node: Assignable)

  /** What a heap address holds: an object with named properties, a list, or
      a dictionary. */
  datatype Cell =
    | Object(props: map<string, Value>)
    | List(items: seq<Value>)
    | Dict(entries: map<Value, Value>)

  /** The three kinds of assignment target. An `Attribute` base is an operand
      expression; the key and the slice bounds of a `Subscript` are optional
      operand expressions. */
  datatype Assignable =
    | Variable(name: string)
    | Attribute(obj: Expr, properties: seq<string>)
    | Subscript(ref: Assignable, key: Option<Expr>, start: Option<Expr>, stop: Option<Expr>)

  /** An operand: a literal value, or a target read as an ordinary expression.
      A literal is never a `Node`: an expression node given as an operand is
      written `Place(t)`, so that it is evaluated as Python evaluates it. */
  datatype Expr = Lit(value: Value) | Place(target: Assignable)

  /** The failures that reach the caller; the Python exception each stands for
      is given beside it. */
  datatype Error =
    | UnboundName(name: string)      // NameError from the binding context
    | MissingProperty(prop: string)  // AttributeError from getattr / setattr
    | EmptyPath                      // IndexError from properties[-1]
    | NotIndexable                   // TypeError: not subscriptable / no item assignment
    | NotSliceable                   // TypeError: the container cannot be sliced
    | BadIndex                       // TypeError: wrong index type, unhashable key
    | OutOfRange                     // IndexError: index out of range
    | MissingKey                     // KeyError
    | Immutable                      // TypeError: 'str' object does not support item assignment
    | NotIterable                    // TypeError: can only assign an iterable

  datatype Result<T> = Ok(value: T) | Err(error: Error)

  /** What `assign` reports: it returns nothing or raises. */
  datatype Outcome = Pass | Fail(error: Error)
}
