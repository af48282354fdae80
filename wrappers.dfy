/** Option and the outcome of a single-result lookup. */
module Wrappers {

  /** A Java reference that may be null: `None` stands for null. */
  datatype Option<+T> = None | Some(value: T)

  /** What a single-result query over a table yields: nothing, exactly one
      match, or several matches (the query then raises an error instead of
      returning one of them). */
  datatype Unique<+T> = NoMatch | Match(value: T) | NonUnique

  /** A set with one element is that element's singleton. */
  lemma SingletonIsUnique<T>(s: set<T>, x: T)
    requires |s| == 1 && x in s
    ensures s == {x}
  {
    assert |s - {x}| == 0;
  }

  /** Some element of a non-empty set. */
  lemma ElementOf<T>(s: set<T>) returns (x: T)
    requires s != {}
    ensures x in s
  {
    x :| x in s;
  }

  /** A set whose elements are all equal has at most one. */
  lemma AtMostOne<T>(s: set<T>)
    requires forall x, y | x in s && y in s :: x == y
    ensures |s| <= 1
  {
    if s != {} {
      var x :| x in s;
      assert s == {x};
    }
  }

  /** The result of a single-result query whose matching keys are `s`. */
  function UniqueOf<T>(s: set<T>): (r: Unique<T>)
    ensures r.NoMatch? <==> s == {}
    ensures r.Match? <==> |s| == 1
    ensures r.Match? ==> s == {r.value}
    ensures r.NonUnique? <==> |s| > 1
    ensures r.NonUnique? <==> exists x, y :: x in s && y in s && x != y
  {
    if s == {} then NoMatch
    else if |s| == 1 then
      var x :| x in s;
      SingletonIsUnique(s, x);
      Match(x)
    else
      var x :| x in s;
      assert |s - {x}| > 0;
      var y :| y in s - {x};
      NonUnique
  }
}
