// Vocabulary shared by the models of the services.

module Common {

  datatype Option<+T> = None | Some(value: T)

  /** How one Redis command ends: it took effect and said so; it did nothing and
      reported an error; or it took effect although the caller saw an error. */
  datatype Outcome = Ok | NotApplied | AppliedButFailed {
    predicate Applied() { !NotApplied? }
  }

  lemma SubsetSize<T>(a: set<T>, b: set<T>)
    requires a <= b
    ensures |a| <= |b| && |b - a| == |b| - |a|
  {
    assert b == a + (b - a);
  }
}
