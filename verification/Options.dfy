/** A value that may be absent. */
module Options {
  datatype Option<+T> = None | Some(value: T)
}

/** Counting facts about finite sets. */
module Counting {
  lemma SubsetCount<T>(small: set<T>, large: set<T>)
    requires small <= large
    ensures |small| <= |large|
  {
    assert large == small + (large - small);
  }
}
