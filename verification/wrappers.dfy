/**
 * Failure-compatible wrappers shared by every module of the model, and a small
 * dynamic value type standing for the Python arguments whose class the source
 * inspects with `isinstance` before acting on them.
 */
module Wrappers {

  datatype Option<+T> = None | Some(value: T)

  /** The exception classes the source raises. */
  datatype Error =
    | ValueError(msg: string)
    | KeyError
    | TypeError
    | AttributeError

  datatype Result<+T> = Ok(value: T) | Err(error: Error) {

    predicate IsFailure() {
      Err?
    }

    function PropagateFailure<U>(): Result<U>
      requires Err?
    {
      Err(error)
    }

    function Extract(): T
      requires Ok?
    {
      value
    }
  }

  /**
   * A Python argument as seen by an `isinstance` test. Only the shapes the
   * source distinguishes are kept: a `bool` is also an `int` in Python.
   */
  datatype PyValue =
    | PyInt(i: int)
    | PyBool(b: bool)
    | PyStr(s: string)
    | PyCounter(c: map<string, int>)
    | PySet(elems: set<string>)
    | PyList(items: seq<string>)
    | PyTuple(items: seq<string>)
    | PyNone
    | PyOther

  /** `isinstance(v, int)`, which is also true of `True` and `False`. */
  predicate IsInt(v: PyValue) {
    v.PyInt? || v.PyBool?
  }

  /** The integer value of an `int` or `bool` argument. */
  function IntValue(v: PyValue): int
    requires IsInt(v)
  {
    match v
    case PyInt(i) => i
    case PyBool(b) => if b then 1 else 0
  }
}
