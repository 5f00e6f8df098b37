/**
 A call of the database that may fail: whether it took effect, and whether it was reported to have.
 */
module SqlCall {
  datatype Reply = Reply(applied: bool, ok: bool)

  // A call that reports success has taken effect; one that reports failure may have.
  predicate Honest(r: Reply) {
    r.ok ==> r.applied
  }

  const WORKS := Reply(true, true)
  const FAILS := Reply(false, false)
}
