/** Results that may be missing, and results of kernel operations that may stop the machine. */
module Wrappers {

  datatype Option<+T> = None | Some(value: T)

  /** Halt: the kernel logs and stops. Fault: the code would follow a table address that is
      not a live table, which the C source does without noticing. */
  datatype Outcome<+T> = Done(value: T) | Halt | Fault {

    predicate IsFailure() {
      !Done?
    }

    function PropagateFailure<U>(): Outcome<U>
      requires IsFailure()
    {
      if Halt? then Halt else Fault
    }

    function Extract(): T
      requires Done?
    {
      value
    }
  }
}
