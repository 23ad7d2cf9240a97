/** Facts about finite sequences that several components share. */
module Sequences {

  datatype Option<+T> = None | Some(value: T)

  ghost predicate NoDup<T>(s: seq<T>) {
    forall i, j :: 0 <= i < j < |s| ==> s[i] != s[j]
  }

  /** Go's slices.Delete(s, i, i+1). */
  function RemoveAt<T>(s: seq<T>, i: nat): seq<T>
    requires i < |s|
  {
    s[..i] + s[i + 1..]
  }

  /** slices.Index, with the length standing for "absent". */
  function IndexOf<T(==)>(s: seq<T>, x: T): (i: nat)
    ensures i <= |s|
    ensures i < |s| <==> x in s
    ensures i < |s| ==> s[i] == x && x !in s[..i]
  {
    if s == [] || s[0] == x then 0 else 1 + IndexOf(s[1..], x)
  }

  function RemoveFirst<T(==)>(s: seq<T>, x: T): seq<T> {
    if IndexOf(s, x) < |s| then RemoveAt(s, IndexOf(s, x)) else s
  }

  lemma RemoveAtFacts<T>(s: seq<T>, i: nat)
    requires i < |s| && NoDup(s)
    ensures NoDup(RemoveAt(s, i))
    ensures forall x :: x in RemoveAt(s, i) <==> x in s && x != s[i]
    ensures multiset(s) == multiset(RemoveAt(s, i)) + multiset{s[i]}
  {
    var t := RemoveAt(s, i);
    assert s == s[..i] + [s[i]] + s[i + 1..];
    forall x ensures x in t <==> x in s && x != s[i] {
      if x in s && x != s[i] {
        var k :| 0 <= k < |s| && s[k] == x;
        assert t[if k < i then k else k - 1] == x;
      }
    }
  }

  lemma RemoveFirstFacts<T>(s: seq<T>, x: T)
    requires NoDup(s)
    ensures NoDup(RemoveFirst(s, x))
    ensures forall y :: y in RemoveFirst(s, x) <==> y in s && y != x
  {
    if IndexOf(s, x) < |s| {
      RemoveAtFacts(s, IndexOf(s, x));
    }
  }

  lemma NoDupSnoc<T>(s: seq<T>, x: T)
    requires NoDup(s)
    ensures NoDup(s + [x]) <==> x !in s
  {
    if x in s {
      var i :| 0 <= i < |s| && s[i] == x;
      assert (s + [x])[i] == (s + [x])[|s|];
    }
  }

  /** A duplicate-free listing has as many entries as distinct elements. */
  lemma {:induction false} NoDupSize<T>(s: seq<T>)
    requires NoDup(s)
    ensures |s| == |set x | x in s|
  {
    if s != [] {
      var n := |s| - 1;
      NoDupSize(s[..n]);
      assert s == s[..n] + [s[n]];
      assert (set x | x in s) == (set x | x in s[..n]) + {s[n]};
    }
  }

  /** y occurs in x in the same relative order. */
  ghost predicate IsSubsequence<T>(y: seq<T>, x: seq<T>)
    decreases |x|
  {
    if y == [] then true
    else if x == [] then false
    else if y[|y| - 1] == x[|x| - 1] && IsSubsequence(y[..|y| - 1], x[..|x| - 1]) then true
    else IsSubsequence(y, x[..|x| - 1])
  }

  lemma {:induction false} SubsequenceOfSelf<T>(x: seq<T>)
    ensures IsSubsequence(x, x)
  {
    if x != [] {
      SubsequenceOfSelf(x[..|x| - 1]);
    }
  }

  lemma SubsequenceSnoc<T>(y: seq<T>, x: seq<T>, t: T)
    requires IsSubsequence(y, x)
    ensures IsSubsequence(y + [t], x + [t]) && IsSubsequence(y, x + [t])
  {
    assert (y + [t])[..|y|] == y && (x + [t])[..|x|] == x;
  }

  lemma RemovedIsSubsequence<T>(x: seq<T>, t: T)
    ensures IsSubsequence(RemoveFirst(x, t), x)
  {
    if IndexOf(x, t) < |x| {
      RemovedPrefix(x, IndexOf(x, t), |x|);
      assert x[..|x|] == x && x[IndexOf(x, t) + 1..|x|] == x[IndexOf(x, t) + 1..];
    } else {
      SubsequenceOfSelf(x);
    }
  }

  lemma {:induction false} RemovedPrefix<T>(x: seq<T>, i: nat, k: nat)
    requires i < k <= |x|
    ensures IsSubsequence(x[..i] + x[i + 1..k], x[..k])
  {
    hide IsSubsequence;
    assert x[..k] == x[..k - 1] + [x[k - 1]];
    if k == i + 1 {
      SubsequenceOfSelf(x[..i]);
      SubsequenceSnoc(x[..i], x[..i], x[i]);
      assert x[..i] + x[i + 1..k] == x[..i];
    } else {
      RemovedPrefix(x, i, k - 1);
      SubsequenceSnoc(x[..i] + x[i + 1..k - 1], x[..k - 1], x[k - 1]);
      assert x[..i] + x[i + 1..k] == x[..i] + x[i + 1..k - 1] + [x[k - 1]];
    }
  }
}
