/** What the modules share: options, and counting finite sets. */
module Wrappers {
  datatype Option<+T> = None | Some(value: T)

  function OrElse<T>(p: Option<T>, q: Option<T>): Option<T> {
    if p.Some? then p else q
  }

  lemma SubsetOfEqualSize<T>(s: set<T>, t: set<T>)
    requires s <= t && |s| == |t|
    ensures s == t
  {
    assert |t - s| == |t| - |s|;
    assert t == s + (t - s);
  }
}
