/** The least and the greatest entry of a sequence. */
module Extremes {

  function MinOf(s: seq<real>): real
    requires s != []
  {
    if |s| == 1 then s[0]
    else
      var rest := MinOf(s[..|s| - 1]);
      if s[|s| - 1] < rest then s[|s| - 1] else rest
  }

  function MaxOf(s: seq<real>): real
    requires s != []
  {
    if |s| == 1 then s[0]
    else
      var rest := MaxOf(s[..|s| - 1]);
      if s[|s| - 1] > rest then s[|s| - 1] else rest
  }

  lemma {:induction false} ExtremesAttained(s: seq<real>)
    requires s != []
    ensures MinOf(s) in s && MaxOf(s) in s
    ensures forall i :: 0 <= i < |s| ==> MinOf(s) <= s[i] <= MaxOf(s)
  {
    if |s| > 1 {
      var rest := s[..|s| - 1];
      ExtremesAttained(rest);
      assert s[|s| - 1] in s;
      assert forall x :: x in rest ==> x in s;
      assert forall i :: 0 <= i < |s| - 1 ==> s[i] == rest[i];
    }
  }

  lemma ExtremesAre(t: seq<real>, lo: real, hi: real)
    requires lo in t && hi in t && forall i :: 0 <= i < |t| ==> lo <= t[i] <= hi
    ensures MinOf(t) == lo && MaxOf(t) == hi
  {
    ExtremesAttained(t);
    hide MinOf, MaxOf;
    var i: nat :| i < |t| && t[i] == lo;
    var j: nat :| j < |t| && t[j] == hi;
  }
}
