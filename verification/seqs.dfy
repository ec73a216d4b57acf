/**
 * `Array.prototype.filter` and the count of matching elements, as reference
 * definitions the registries' and the scene's list queries are stated
 * against. `Filter` is built from the back of the sequence, so relating it
 * to a front-to-back walk is a proof rather than a restatement.
 */
module Seqs {

  /** The elements of `s` satisfying `p`, in their order and with their multiplicity. */
  function Filter<T(!new)>(s: seq<T>, p: T -> bool): (r: seq<T>)
    ensures forall x :: x in r <==> x in s && p(x)
    ensures |r| <= |s|
    decreases |s|
  {
    if |s| == 0 then []
    else
      var init, last := s[..|s| - 1], s[|s| - 1];
      assert s == init + [last];
      Filter(init, p) + (if p(last) then [last] else [])
  }

  /** How many elements of `s` satisfy `p`. */
  function Count<T(!new)>(s: seq<T>, p: T -> bool): (n: nat)
    ensures n <= |s|
  {
    if |s| == 0 then 0 else (if p(s[0]) then 1 else 0) + Count(s[1..], p)
  }

  /** Filtering a sequence with an element in front: the element is kept iff it matches, ahead of the rest. */
  lemma {:induction false} FilterCons<T(!new)>(x: T, s: seq<T>, p: T -> bool)
    ensures Filter([x] + s, p) == (if p(x) then [x] else []) + Filter(s, p)
    decreases |s|
  {
    if |s| > 0 {
      var init, last := s[..|s| - 1], s[|s| - 1];
      assert ([x] + s)[..|s|] == [x] + init;
      assert ([x] + s)[|s|] == last;
      FilterCons(x, init, p);
      var front: seq<T> := if p(x) then [x] else [];
      var back: seq<T> := if p(last) then [last] else [];
      calc {
        Filter([x] + s, p);
        Filter([x] + init, p) + back;
        (front + Filter(init, p)) + back;
        front + (Filter(init, p) + back);
        front + Filter(s, p);
      }
    }
  }

  /** The filtered sequence holds exactly as many elements as match. */
  lemma {:induction false} FilterLength<T(!new)>(s: seq<T>, p: T -> bool)
    ensures |Filter(s, p)| == Count(s, p)
    decreases |s|
  {
    if |s| > 0 {
      assert s == [s[0]] + s[1..];
      FilterCons(s[0], s[1..], p);
      FilterLength(s[1..], p);
    }
  }
}
