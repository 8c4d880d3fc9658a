/** Facts about sequences that several modules use. */
module Sequences {

  ghost predicate NoRepeats<T>(s: seq<T>) {
    forall i, j :: 0 <= i < j < |s| ==> s[i] != s[j]
  }

  lemma NoRepeatsConcat<T>(a: seq<T>, b: seq<T>)
    requires NoRepeats(a) && NoRepeats(b) && forall x :: x in b ==> x !in a
    ensures NoRepeats(a + b)
  {
    forall i, j | 0 <= i < j < |a + b|
      ensures (a + b)[i] != (a + b)[j]
    {
      if i < |a| <= j {
        assert (a + b)[i] in a && (a + b)[j] in b;
      }
    }
  }

  lemma CountTwo<T>(s: seq<T>, i: nat, j: nat)
    requires i < j < |s| && s[i] == s[j]
    ensures multiset(s)[s[i]] >= 2
  {
    assert s == s[..j] + [s[j]] + s[j + 1..];
    assert s[i] == s[..j][i];
    assert s[i] in multiset(s[..j]);
  }

  lemma TwoPlaces<T>(s: seq<T>, x: T) returns (i: nat, j: nat)
    requires multiset(s)[x] >= 2
    ensures i < j < |s| && s[i] == s[j] == x
  {
    assert x in multiset(s);
    j :| 0 <= j < |s| && s[j] == x;
    var front, back := s[..j], s[j + 1..];
    assert s == front + [x] + back;
    if x in multiset(front) {
      i :| 0 <= i < |front| && front[i] == x;
    } else {
      assert x in multiset(back);
      var k :| 0 <= k < |back| && back[k] == x;
      i, j := j, j + 1 + k;
    }
  }

  lemma SameMembers<T>(s: seq<T>, s': seq<T>)
    requires multiset(s) == multiset(s')
    ensures forall x :: x in s <==> x in s'
  {
    forall x
      ensures x in s <==> x in s'
    {
      assert x in s <==> x in multiset(s);
      assert x in s' <==> x in multiset(s');
    }
  }

  /** A list without repeats is no longer than any list that has all its members. */
  lemma {:induction false} NoLonger<T>(s: seq<T>, t: seq<T>)
    requires NoRepeats(s) && forall i :: 0 <= i < |s| ==> s[i] in t
    ensures |s| <= |t|
  {
    if s != [] {
      var front, last := s[..|s| - 1], s[|s| - 1];
      var j :| 0 <= j < |t| && t[j] == last;
      var t' := t[..j] + t[j + 1..];
      forall i | 0 <= i < |front|
        ensures front[i] in t'
      {
        var k :| 0 <= k < |t| && t[k] == s[i];
        assert if k < j then t'[k] == s[i] else t'[k - 1] == s[i];
      }
      NoLonger(front, t');
    }
  }
}
