/** Lists kept per revision, taken together over ranges of revisions.  Revision r has list lists[r - 1]. */
module RevisionRanges {
  /** The lists of revisions earliest + 1 to latest, newest revision first. */
  function Range<T>(lists: seq<seq<T>>, latest: nat, earliest: nat): seq<T>
    requires latest <= |lists|
  {
    if latest <= earliest then [] else lists[latest - 1] + Range(lists, latest - 1, earliest)
  }

  /** The list for a range is that of its newer part followed by that of its older part. */
  lemma {:induction false} RangeSplit<T>(lists: seq<seq<T>>, latest: nat, middle: nat, earliest: nat)
    requires earliest <= middle <= latest <= |lists|
    ensures Range(lists, latest, earliest) == Range(lists, latest, middle) + Range(lists, middle, earliest)
  {
    if latest > middle {
      RangeSplit(lists, latest - 1, middle, earliest);
    }
  }

  /** Only the lists of the range matter. */
  lemma {:induction false} RangeSame<T>(lists: seq<seq<T>>, others: seq<seq<T>>, latest: nat, earliest: nat)
    requires latest <= |lists| && latest <= |others| && forall i :: 0 <= i < latest ==> lists[i] == others[i]
    ensures Range(lists, latest, earliest) == Range(others, latest, earliest)
  {
    if latest > earliest {
      RangeSame(lists, others, latest - 1, earliest);
    }
  }

  predicate NonEmptyAt<T>(lists: seq<seq<T>>, r: nat) {
    0 < r <= |lists| && |lists[r - 1]| > 0
  }

  lemma {:induction false} RangeEmpty<T>(lists: seq<seq<T>>, latest: nat, earliest: nat)
    requires latest <= |lists|
    ensures |Range(lists, latest, earliest)| > 0 <==> exists r :: earliest < r <= latest && NonEmptyAt(lists, r)
  {
    if latest > earliest {
      RangeEmpty(lists, latest - 1, earliest);
      assert NonEmptyAt(lists, latest) <==> |lists[latest - 1]| > 0;
    }
  }

  /** The earliest revision that makes the list longer than the threshold, or else the latest. */
  function CutOff<T>(lists: seq<seq<T>>, latest: nat, earliest: nat, threshold: nat): (r: nat)
    requires earliest < latest <= |lists|
    ensures earliest < r <= latest
  {
    if latest - 1 > earliest && |Range(lists, latest - 1, earliest)| > threshold
    then CutOff(lists, latest - 1, earliest, threshold)
    else latest
  }

  lemma {:induction false} CutOffIsEarliest<T>(lists: seq<seq<T>>, latest: nat, earliest: nat, threshold: nat)
    requires earliest < latest <= |lists|
    ensures var r := CutOff(lists, latest, earliest, threshold);
            && |Range(lists, r - 1, earliest)| <= threshold
            && (r == latest || |Range(lists, r, earliest)| > threshold)
  {
    if latest - 1 == earliest {
      assert CutOff(lists, latest, earliest, threshold) == latest;
    } else if |Range(lists, latest - 1, earliest)| > threshold {
      CutOffIsEarliest(lists, latest - 1, earliest, threshold);
      assert CutOff(lists, latest, earliest, threshold) == CutOff(lists, latest - 1, earliest, threshold);
    } else {
      assert CutOff(lists, latest, earliest, threshold) == latest;
    }
  }

  lemma ShortList<T>(lists: seq<seq<T>>, latest: nat, earliest: nat, threshold: nat)
    requires earliest < latest <= |lists| && |Range(lists, latest, earliest)| <= threshold
    ensures CutOff(lists, latest, earliest, threshold) == latest
  {
  }

  // ---------- Searching back ----------

  /** The newest value, up to revision r, that is not 0. */
  function FindLast(values: seq<nat>, r: nat): nat
    requires r <= |values|
  {
    if r == 0 then 0 else if values[r - 1] != 0 then values[r - 1] else FindLast(values, r - 1)
  }

  lemma {:induction false} FindLastPrefix(values: seq<nat>, more: seq<nat>, r: nat)
    requires r <= |values|
    ensures FindLast(values + more, r) == FindLast(values, r)
  {
    if r > 0 {
      FindLastPrefix(values, more, r - 1);
    }
  }

  /** The search from the newest revision down to just above r has found this, or still 0. */
  ghost predicate Searched(values: seq<nat>, r: nat, found: nat)
    requires r <= |values|
  {
    FindLast(values, |values|) == if found != 0 then found else FindLast(values, r)
  }

  // ---------- Where each revision's part starts ----------

  /** The start of each revision's part is the length of the newer parts. */
  ghost predicate StartsOf<T>(lists: seq<seq<T>>, latest: nat, earliest: nat, starts: map<nat, nat>)
    requires latest <= |lists|
  {
    && (forall r :: r in starts <==> earliest < r <= latest)
    && (forall r :: r in starts ==> starts[r] == |Range(lists, latest, r)|)
  }

  /** The list, and the starts in it, from the latest revision down to just above r. */
  ghost predicate Gathered<T>(lists: seq<seq<T>>, latest: nat, r: nat, list: seq<T>, starts: map<nat, nat>)
    requires latest <= |lists|
  {
    list == Range(lists, latest, r) && StartsOf(lists, latest, r, starts)
  }

  lemma GatheredStep<T>(lists: seq<seq<T>>, latest: nat, r: nat, list: seq<T>, starts: map<nat, nat>)
    requires 0 < r <= latest <= |lists| && Gathered(lists, latest, r, list, starts)
    ensures Gathered(lists, latest, r - 1, list + lists[r - 1], starts[r := |list|])
  {
    RangeSplit(lists, latest, r, r - 1);
    assert Range(lists, r, r - 1) == lists[r - 1] + [];
  }

  lemma StartIsRest<T>(lists: seq<seq<T>>, latest: nat, earliest: nat, r: nat)
    requires earliest <= r <= latest <= |lists|
    ensures |Range(lists, latest, r)| == |Range(lists, latest, earliest)| - |Range(lists, r, earliest)|
  {
  }

  /** The least revision whose part starts early enough is the cut-off. */
  lemma LeastIsCutOff<T>(lists: seq<seq<T>>, latest: nat, earliest: nat, threshold: nat, starts: map<nat, nat>,
                         rev: nat)
    requires earliest < latest <= |lists| && earliest < rev <= latest && StartsOf(lists, latest, earliest, starts)
    requires var t := |Range(lists, latest, earliest)| - threshold;
             && (rev == latest || starts[rev] < t)
             && (forall r :: r in starts && starts[r] < t ==> rev <= r)
    ensures rev == CutOff(lists, latest, earliest, threshold)
  {
    var cut := CutOff(lists, latest, earliest, threshold);
    CutOffIsEarliest(lists, latest, earliest, threshold);
    StartIsRest(lists, latest, earliest, rev);
    StartIsRest(lists, latest, earliest, cut);
    if cut != latest {
      assert starts[cut] == |Range(lists, latest, cut)|;
      assert rev <= cut;
    }
    if rev < cut {
      RangeSplit(lists, cut - 1, rev, earliest);
    }
  }
}
