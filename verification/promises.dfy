/**
  The JavaScript runtime notions the downloader relies on: `undefined`/absent
  values, the reasons an operation can fail, the final state of a promise, and
  the difference between a promise that rejects and a call that throws before
  it has returned any promise at all.
 */
module Promises {

  /** An optional value; `None` stands for JavaScript's `undefined` (or an
      absent field) wherever the source tests for it. */
  datatype Option<+T> = None | Some(value: T)

  /** Why a call failed or a promise rejected. */
  datatype Reason =
    | TransportError(message: string)   // the `error` argument of request's callback
    | StatusMessage(text: string)       // the string 'Status Code: N'
    | TypeError                         // a property read on `undefined` or `null`
    | ReferenceError(name: string)      // a call to an identifier that is not defined
    | InvalidPost(ref: nat)              // 'Invalid Post object: …', naming the post by its identity

  /** The final state of a promise. */
  datatype Settled<+T> = Resolved(value: T) | Rejected(reason: Reason)

  /** The outcome of calling a function that returns a promise: either it
      returned one (which then settles), or it threw synchronously first. */
  datatype Call<+T> = Returned(promise: Settled<T>) | Threw(reason: Reason)
  {
    /** True if the call returned a promise that resolved. */
    predicate Resolves() {
      Returned? && promise.Resolved?
    }
  }

  /** `Promise.prototype.then` with a callback that cannot fail. */
  function MapSettled<T, U>(s: Settled<T>, f: T -> U): (r: Settled<U>)
    ensures r.Resolved? <==> s.Resolved?
    ensures s.Rejected? ==> r == Rejected(s.reason)
    ensures s.Resolved? ==> r == Resolved(f(s.value))
  {
    match s
    case Resolved(v) => Resolved(f(v))
    case Rejected(e) => Rejected(e)
  }
}
