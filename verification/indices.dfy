/** Positions of the elements of a sequence that satisfy a predicate. Both
    macros report one diagnostic per offending element, in declaration
    order; this module gives that order and count a definition of their own. */
module Indices {

  /** The indices `i` with `p(s[i])`, in increasing order. */
  function Positions<T>(s: seq<T>, p: T -> bool): (r: seq<nat>)
    ensures forall k :: 0 <= k < |r| ==> r[k] < |s| && p(s[r[k]])
    ensures forall k, l :: 0 <= k < l < |r| ==> r[k] < r[l]
    ensures forall i :: 0 <= i < |s| && p(s[i]) ==> i in r
    decreases |s|
  {
    if |s| == 0 then []
    else
      var prefix := s[..|s| - 1];
      assert forall i :: 0 <= i < |prefix| ==> prefix[i] == s[i];
      Positions(prefix, p) + (if p(s[|s| - 1]) then [|s| - 1] else [])
  }

  /** The set of indices whose element satisfies `p`. */
  function MatchSet<T>(s: seq<T>, p: T -> bool): set<nat>
  {
    set i: nat | i < |s| && p(s[i])
  }

  /** Extending a sequence by one element adds that element's index to the
      match set exactly when it matches. */
  lemma MatchSetSnoc<T>(s: seq<T>, p: T -> bool)
    requires |s| > 0
    ensures p(s[|s| - 1]) ==> MatchSet(s, p) == MatchSet(s[..|s| - 1], p) + {|s| - 1}
    ensures !p(s[|s| - 1]) ==> MatchSet(s, p) == MatchSet(s[..|s| - 1], p)
    ensures |s| - 1 !in MatchSet(s[..|s| - 1], p)
  {
    var prefix := s[..|s| - 1];
    assert forall i :: 0 <= i < |prefix| ==> prefix[i] == s[i];
  }

  /** The positions enumerate the match set without repetition, so their
      number is its size. */
  lemma {:induction false} PositionsCount<T>(s: seq<T>, p: T -> bool)
    ensures |Positions(s, p)| == |MatchSet(s, p)|
    decreases |s|
  {
    if |s| > 0 {
      PositionsCount(s[..|s| - 1], p);
      MatchSetSnoc(s, p);
    }
  }

  /** No position is reported exactly when no element matches. */
  lemma PositionsEmpty<T>(s: seq<T>, p: T -> bool)
    ensures |Positions(s, p)| == 0 <==> forall i :: 0 <= i < |s| ==> !p(s[i])
  {
    var r := Positions(s, p);
    if |r| > 0 {
      assert p(s[r[0]]);
    }
  }
}
