/** The error taxonomy of pkg/groups/grouper.go: four sentinels, and wrapping that keeps the cause. */
module Errors {

  /** `Other` stands for any error value that is none of the four sentinels. */
  datatype Error = NotFound | Timeout | Canceled | Unknown | Other(text: string) | Wrap(msg: string, inner: Error)

  function Cause(e: Error): (c: Error)
    ensures !c.Wrap?
  {
    match e
    case Wrap(_, inner) => Cause(inner)
    case _ => e
  }

  predicate IsNotFound(e: Error) {
    Cause(e) == NotFound
  }

  predicate IsUnknownMemberships(e: Error) {
    Cause(e) in {Unknown, Timeout, Canceled}
  }

  /** `base` wrapped in messages, the first one outermost. */
  function Wrapped(msgs: seq<string>, base: Error): Error {
    if msgs == [] then base else Wrap(msgs[0], Wrapped(msgs[1..], base))
  }

  /** However often an error has been wrapped, what is inside decides which of the two kinds it is, if any. */
  lemma {:induction false} WrappedMeans(msgs: seq<string>, base: Error)
    requires !base.Wrap?
    ensures Cause(Wrapped(msgs, base)) == base
    ensures IsNotFound(Wrapped(msgs, base)) <==> base == NotFound
    ensures IsUnknownMemberships(Wrapped(msgs, base)) <==> base == Unknown || base == Timeout || base == Canceled
  {
    if msgs != [] {
      WrappedMeans(msgs[1..], base);
    }
  }

  /** Every error is a bare one in some messages. */
  lemma {:induction false} Unwrap(e: Error) returns (msgs: seq<string>, base: Error)
    ensures !base.Wrap? && e == Wrapped(msgs, base)
  {
    msgs, base := [], e;
    if e.Wrap? {
      msgs, base := Unwrap(e.inner);
      msgs := [e.msg] + msgs;
    }
  }
}
