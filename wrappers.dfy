/** Failure-compatible wrappers used across the model: `Option` stands for a
    Java reference that may be `null`, `Result` for a computation that may throw. */
module Wrappers {

  datatype Option<+T> = None | Some(value: T)

  /** How the modelled Java code can end abnormally: an exception (carrying
      the exception's class name as the source writes it), a loop that never
      ends, or a path through code this model does not follow. */
  datatype Failure = Thrown(exception: string) | Diverges(reason: string) | Unmodelled(path: string)

  datatype Result<+T> = Ok(value: T) | Fail(failure: Failure) {
    predicate IsFailure() { Fail? }
    function PropagateFailure<U>(): Result<U>
      requires Fail?
    {
      Fail(failure)
    }
    function Extract(): T
      requires Ok?
    {
      value
    }
  }

  /** How a step with no result ended: normally, or with a Java exception. */
  datatype Status = Completed | Threw(failure: Failure) {
    predicate IsFailure() { Threw? }
    function PropagateFailure(): Status
      requires Threw?
    {
      this
    }
  }

  lemma AppendAssoc<T>(a: seq<T>, b: seq<T>, c: seq<T>)
    ensures (a + b) + c == a + (b + c)
  {
  }

  lemma AppendAssoc3<T>(a: seq<T>, b: seq<T>, c: seq<T>, d: seq<T>)
    ensures a + b + c + d == a + (b + c + d)
  {
  }

  lemma AppendAssoc4<T>(a: seq<T>, b: seq<T>, c: seq<T>, d: seq<T>, e: seq<T>)
    ensures a + b + c + d + e == a + (b + c + d + e)
  {
  }

  lemma AppendAssoc5<T>(a: seq<T>, b: seq<T>, c: seq<T>, d: seq<T>, e: seq<T>, f: seq<T>)
    ensures a + b + c + d + e + f == a + (b + c + d + e + f)
  {
  }

  lemma DropAppend<T>(a: seq<T>, b: seq<T>)
    ensures (a + b)[|a|..] == b
  {
  }
}

/** A diagnostic's position. Only the line is kept; columns are not modelled. */
module Diags {

  datatype Loc = NoLoc | Line(line: int)

  /** `computil.diags.Error`: a message and the location it refers to. */
  datatype Diagnostic = Error(msg: string, loc: Loc)
}
