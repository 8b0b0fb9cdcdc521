/** How one step that touches the outside world can end.

  Every durable write, backend call and read in the model draws its own ending.
  The draw is nondeterministic, so a contract proved over it holds for every
  placement of failures and for a process death between any two durable steps.
  The parameter `calm` switches failures off: contracts use it to say what a call
  that meets no failure must achieve. */
module Faults {

  /** The ending a caller sees: `Crashed` is process death, so no handler runs after it. */
  datatype Outcome = Done | Raised | Crashed

  /** The ending of one effectful call.  A call can fail before or after its effect. */
  datatype Fault = Completes | RaisesBefore | RaisesAfter | DiesBefore | DiesAfter {

    /** The effect of the call is in place. */
    predicate Published() {
      Completes? || RaisesAfter? || DiesAfter?
    }

    function Ending(): Outcome {
      match this
      case Completes => Done
      case RaisesBefore => Raised
      case RaisesAfter => Raised
      case DiesBefore => Crashed
      case DiesAfter => Crashed
    }
  }

  method Draw(calm: bool) returns (f: Fault)
    ensures calm ==> f == Completes
  {
    f := *;
    if calm {
      f := Completes;
    }
  }

  /** A step without effect, such as a read or a key derivation. */
  method Attempt(calm: bool) returns (o: Outcome)
    ensures calm ==> o == Done
  {
    o := *;
    if calm {
      o := Done;
    }
  }
}
