/** Sorting of lists that stand for sets.  Elements are numbers; only their order matters. */
module SortedLists {
  predicate Increasing(s: seq<nat>) {
    forall i, j :: 0 <= i < j < |s| ==> s[i] < s[j]
  }

  predicate NonDecreasing(s: seq<nat>) {
    forall i, j :: 0 <= i < j < |s| ==> s[i] <= s[j]
  }

  function Elements(s: seq<nat>): set<nat> {
    set x | x in s
  }

  /** Put x into a sorted list after everything that is not greater. */
  function Insert(s: seq<nat>, x: nat): seq<nat> {
    if |s| == 0 || s[|s| - 1] <= x then s + [x] else Insert(s[..|s| - 1], x) + [s[|s| - 1]]
  }

  predicate AtMost(s: seq<nat>, b: nat) {
    forall i :: 0 <= i < |s| ==> s[i] <= b
  }

  lemma {:induction false} InsertAtMost(s: seq<nat>, x: nat, b: nat)
    requires AtMost(s, b) && x <= b
    ensures AtMost(Insert(s, x), b)
  {
    if |s| > 0 && s[|s| - 1] > x {
      InsertAtMost(s[..|s| - 1], x, b);
    }
  }

  lemma {:induction false} InsertSorts(s: seq<nat>, x: nat)
    requires NonDecreasing(s)
    ensures NonDecreasing(Insert(s, x))
  {
    if |s| > 0 && s[|s| - 1] > x {
      InsertSorts(s[..|s| - 1], x);
      InsertAtMost(s[..|s| - 1], x, s[|s| - 1]);
    }
  }

  lemma {:induction false} InsertKeeps(s: seq<nat>, x: nat)
    ensures multiset(Insert(s, x)) == multiset(s) + multiset{x}
  {
    if |s| > 0 && s[|s| - 1] > x {
      InsertKeeps(s[..|s| - 1], x);
      assert s == s[..|s| - 1] + [s[|s| - 1]];
    }
  }

  /** What sorting the first n elements gives. */
  function Sort(s: seq<nat>, n: nat): seq<nat>
    requires n <= |s|
  {
    if n == 0 then [] else Insert(Sort(s, n - 1), s[n - 1])
  }

  lemma {:induction false} SortIs(s: seq<nat>, n: nat)
    requires n <= |s|
    ensures NonDecreasing(Sort(s, n)) && multiset(Sort(s, n)) == multiset(s[..n])
  {
    if n > 0 {
      SortIs(s, n - 1);
      InsertSorts(Sort(s, n - 1), s[n - 1]);
      SortMore(Sort(s, n - 1), s, n);
    }
  }

  lemma SortMore(sorted: seq<nat>, s: seq<nat>, n: nat)
    requires 0 < n <= |s| && multiset(sorted) == multiset(s[..n - 1])
    ensures multiset(Insert(sorted, s[n - 1])) == multiset(s[..n])
  {
    InsertKeeps(sorted, s[n - 1]);
    assert s[..n] == s[..n - 1] + [s[n - 1]];
  }

  method SortList(s: seq<nat>) returns (r: seq<nat>)
    ensures r == Sort(s, |s|)
  {
    r := [];
    var i := 0;
    while i < |s|
      invariant i <= |s| && r == Sort(s, i)
    {
      r := Insert(r, s[i]);
      i := i + 1;
    }
  }

  lemma MultisetAndElements(s: seq<nat>, t: seq<nat>)
    requires multiset(s) == multiset(t)
    ensures |s| == |t| && Elements(s) == Elements(t)
  {
    assert |multiset(s)| == |multiset(t)|;
    forall x
      ensures x in s <==> x in t
    {
      assert x in s <==> x in multiset(s);
      assert x in t <==> x in multiset(t);
    }
  }

  lemma LastIsGreatest(s: seq<nat>)
    requires Increasing(s) && |s| > 0
    ensures s[|s| - 1] in Elements(s)
    ensures forall x :: x in Elements(s) ==> x <= s[|s| - 1]
    ensures Elements(s[..|s| - 1]) == Elements(s) - {s[|s| - 1]}
  {
  }

  /** A sorted list that says each element once is determined by the set of its elements. */
  lemma {:induction false} IncreasingUnique(s: seq<nat>, t: seq<nat>)
    requires Increasing(s) && Increasing(t) && Elements(s) == Elements(t)
    ensures s == t
  {
    if |s| > 0 && |t| > 0 {
      LastIsGreatest(s);
      LastIsGreatest(t);
      IncreasingUnique(s[..|s| - 1], t[..|t| - 1]);
      assert s == s[..|s| - 1] + [s[|s| - 1]] && t == t[..|t| - 1] + [t[|t| - 1]];
    } else if |s| > 0 {
      LastIsGreatest(s);
    } else if |t| > 0 {
      LastIsGreatest(t);
    }
  }

  predicate NoRepeats(s: seq<nat>) {
    forall i, j :: 0 <= i < j < |s| ==> s[i] != s[j]
  }

  lemma {:induction false} SizeOfNoRepeats(s: seq<nat>)
    ensures |Elements(s)| <= |s|
    ensures NoRepeats(s) <==> |Elements(s)| == |s|
  {
    if |s| > 0 {
      var p, x := s[..|s| - 1], s[|s| - 1];
      SizeOfNoRepeats(p);
      assert s == p + [x];
      assert Elements(s) == Elements(p) + {x};
    }
  }

  /** Sorting a list without repetitions gives the sorted list of the set. */
  lemma SortNoRepeats(s: seq<nat>)
    requires NoRepeats(s)
    ensures var r := Sort(s, |s|); Increasing(r) && Elements(r) == Elements(s)
  {
    var r := Sort(s, |s|);
    SortIs(s, |s|);
    assert s[..|s|] == s;
    MultisetAndElements(r, s);
    SizeOfNoRepeats(s);
    SizeOfNoRepeats(r);
  }
}
