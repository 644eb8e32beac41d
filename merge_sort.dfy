/** The `ParallelMergeSorter` of project1/p1_threads.cpp over an array of
    students. The worker threads sort disjoint ranges; here they run one
    after the other. */
module ThreadedSort {
  import opened GradeSort

  /** First index of the range that thread i sorts: i * (n / t). */
  function ThreadLower(n: nat, t: nat, i: nat): nat
    requires t > 0
  {
    i * (n / t)
  }

  /** End of the range that thread i sorts; the last thread takes the rest. */
  function ThreadUpper(n: nat, t: nat, i: nat): nat
    requires t > 0
  {
    if i == t - 1 then n else (i + 1) * (n / t)
  }

  lemma MulMono(a: nat, b: nat, w: nat)
    requires a <= b
    ensures a * w <= b * w
  {
  }

  lemma ThreadLowerMono(n: nat, t: nat, i: nat, j: nat)
    requires 0 < t && i <= j <= t
    ensures ThreadLower(n, t, i) <= ThreadLower(n, t, j) <= n
  {
    MulMono(i, j, n / t);
    MulMono(j, t, n / t);
    assert t * (n / t) <= n;
  }

  /** Every thread's range is a well-formed range inside the list. */
  lemma ThreadRangeInside(n: nat, t: nat, i: nat)
    requires 0 <= i < t
    ensures ThreadLower(n, t, i) <= ThreadUpper(n, t, i) <= n
  {
    ThreadLowerMono(n, t, i, i + 1);
  }

  /** Consecutive threads' ranges touch: each range ends where the next one
      begins. */
  lemma ThreadRangesAdjacent(n: nat, t: nat, i: nat)
    requires i + 1 < t
    ensures ThreadUpper(n, t, i) == ThreadLower(n, t, i + 1)
  {
  }

  /** The thread ranges are pairwise disjoint. */
  lemma ThreadRangesDisjoint(n: nat, t: nat, i: nat, j: nat)
    requires i < j < t
    ensures ThreadUpper(n, t, i) <= ThreadLower(n, t, j)
  {
    ThreadLowerMono(n, t, i + 1, j);
  }

  /** The thread ranges cover the list: every index lies in the range of
      some thread. */
  lemma ThreadRangesCover(n: nat, t: nat, p: nat)
    requires 0 < t && p < n
    ensures exists i :: 0 <= i < t && ThreadLower(n, t, i) <= p < ThreadUpper(n, t, i)
  {
    var i := ThreadOf(n, t, p, 0);
  }

  lemma {:induction false} ThreadOf(n: nat, t: nat, p: nat, i: nat) returns (k: nat)
    requires 0 < t && p < n && i < t && ThreadLower(n, t, i) <= p
    ensures i <= k < t && ThreadLower(n, t, k) <= p < ThreadUpper(n, t, k)
    decreases t - i
  {
    if p < ThreadUpper(n, t, i) {
      k := i;
    } else {
      ThreadRangesAdjacent(n, t, i);
      k := ThreadOf(n, t, p, i + 1);
    }
  }

  /** The range [lo, hi) of the list is the only place where s and t may
      differ. */
  ghost predicate SameOutside(s: seq<Student>, t: seq<Student>, lo: int, hi: int)
  {
    |s| == |t| && forall p :: 0 <= p < |s| && !(lo <= p < hi) ==> s[p] == t[p]
  }

  lemma SameOutsideSlice(s: seq<Student>, t: seq<Student>, lo: int, hi: int, x: int, y: int)
    requires SameOutside(s, t, lo, hi) && 0 <= x <= y <= |s|
    requires y <= lo || hi <= x
    ensures s[x..y] == t[x..y]
  {
    assert forall p :: 0 <= p < y - x ==> s[x..y][p] == s[x + p] && t[x..y][p] == t[x + p];
  }

  lemma SameOutsideTrans(s: seq<Student>, t: seq<Student>, u: seq<Student>, lo1: int, hi1: int, lo2: int, hi2: int, lo: int, hi: int)
    requires SameOutside(s, t, lo1, hi1) && SameOutside(t, u, lo2, hi2)
    requires lo <= lo1 && lo <= lo2 && hi1 <= hi && hi2 <= hi
    ensures SameOutside(s, u, lo, hi)
  {
  }

  /** A range replaced by a stable rearrangement keeps every grade class of
      the whole list. */
  lemma ReplaceKeepsGradeOrder(s: seq<Student>, t: seq<Student>, lo: int, hi: int)
    requires 0 <= lo <= hi <= |s| && SameOutside(s, t, lo, hi)
    requires SameGradeOrder(s[lo..hi], t[lo..hi])
    ensures SameGradeOrder(s, t)
  {
    SameOutsideSlice(s, t, lo, hi, 0, lo);
    SameOutsideSlice(s, t, lo, hi, hi, |s|);
    SameGradeOrderReplace(s, t, lo, hi);
  }

  /** The merge of s[i..mid] and s[j..hi], by indices: what is still to be
      emitted when `merge` stands at i and j. */
  function MergeFrom(s: seq<Student>, i: int, mid: int, j: int, hi: int): seq<Student>
    requires 0 <= i <= mid <= j <= hi <= |s|
    decreases (mid - i) + (hi - j)
  {
    if i == mid then s[j..hi]
    else if j == hi then s[i..mid]
    else if s[i].grade >= s[j].grade then [s[i]] + MergeFrom(s, i + 1, mid, j, hi)
    else [s[j]] + MergeFrom(s, i, mid, j + 1, hi)
  }

  lemma {:induction false} MergeFromIsMerge(s: seq<Student>, i: int, mid: int, j: int, hi: int)
    requires 0 <= i <= mid <= j <= hi <= |s|
    ensures MergeFrom(s, i, mid, j, hi) == Merge(s[i..mid], s[j..hi])
    decreases (mid - i) + (hi - j)
  {
    if i < mid && j < hi {
      assert s[i..mid][0] == s[i] && s[i..mid][1..] == s[i + 1..mid];
      assert s[j..hi][0] == s[j] && s[j..hi][1..] == s[j + 1..hi];
      if s[i].grade >= s[j].grade {
        MergeFromIsMerge(s, i + 1, mid, j, hi);
        MergeTakesLeft(s[i..mid], s[j..hi]);
      } else {
        MergeFromIsMerge(s, i, mid, j + 1, hi);
        MergeTakesRight(s[i..mid], s[j..hi]);
      }
    }
  }

  /** A step of the loops of `merge` that emits the head of the left run. */
  lemma EmitLeft(s: seq<Student>, i: int, mid: int, j: int, hi: int, temp: seq<Student>, result: seq<Student>)
    requires 0 <= i < mid <= j <= hi <= |s| && (j == hi || s[i].grade >= s[j].grade)
    requires temp + MergeFrom(s, i, mid, j, hi) == result
    ensures (temp + [s[i]]) + MergeFrom(s, i + 1, mid, j, hi) == result
  {
    if j == hi {
      assert s[i..mid] == [s[i]] + s[i + 1..mid];
      assert MergeFrom(s, i + 1, mid, j, hi) == s[i + 1..mid];
    }
    Reassociate(temp, [s[i]], MergeFrom(s, i + 1, mid, j, hi));
  }

  /** A step of the loops of `merge` that emits the head of the right run. */
  lemma EmitRight(s: seq<Student>, i: int, mid: int, j: int, hi: int, temp: seq<Student>, result: seq<Student>)
    requires 0 <= i <= mid <= j < hi <= |s| && (i == mid || s[i].grade < s[j].grade)
    requires temp + MergeFrom(s, i, mid, j, hi) == result
    ensures (temp + [s[j]]) + MergeFrom(s, i, mid, j + 1, hi) == result
  {
    if i == mid {
      assert s[j..hi] == [s[j]] + s[j + 1..hi];
    }
    Reassociate(temp, [s[j]], MergeFrom(s, i, mid, j + 1, hi));
  }

  lemma MergeLength(left: seq<Student>, right: seq<Student>)
    ensures |Merge(left, right)| == |left| + |right|
  {
    MergePermutation(left, right);
  }

  /** The list after the copy-back loop of `merge`. */
  lemma WrittenBack(s': seq<Student>, s: seq<Student>, temp: seq<Student>, lo: int, hi: int)
    requires 0 <= lo <= hi <= |s| == |s'| && |temp| == hi - lo
    requires forall p :: 0 <= p < |s'| ==> s'[p] == if lo <= p < hi then temp[p - lo] else s[p]
    ensures s'[lo..hi] == temp
    ensures SameOutside(s', s, lo, hi)
  {
  }

  /** The three steps of `merge_sort` on [lower, upper), sorting each half
      and merging them, compute the merge sort of the range. */
  lemma MergeSortSteps(s0: seq<Student>, s1: seq<Student>, s2: seq<Student>, s3: seq<Student>, lower: int, middle: int, upper: int)
    requires 0 <= lower <= upper <= |s0| && upper - lower > 1 && middle == lower + (upper - lower) / 2
    requires SameOutside(s1, s0, lower, middle) && s1[lower..middle] == MergeSort(s0[lower..middle])
    requires SameOutside(s2, s1, middle, upper) && s2[middle..upper] == MergeSort(s1[middle..upper])
    requires SameOutside(s3, s2, lower, upper) && s3[lower..upper] == Merge(s2[lower..middle], s2[middle..upper])
    ensures s3[lower..upper] == MergeSort(s0[lower..upper])
    ensures SameOutside(s3, s0, lower, upper)
  {
    SameOutsideSlice(s1, s0, lower, middle, middle, upper);
    SameOutsideSlice(s2, s1, middle, upper, lower, middle);
    SplitAtMiddle(s0, lower, middle, upper);
  }

  /** The halves MergeSort splits s[lower..upper] into. */
  lemma SplitAtMiddle(s: seq<Student>, lower: int, middle: int, upper: int)
    requires 0 <= lower <= upper <= |s| && upper - lower > 1 && middle == lower + (upper - lower) / 2
    ensures MergeSort(s[lower..upper]) == Merge(MergeSort(s[lower..middle]), MergeSort(s[middle..upper]))
  {
    var r := s[lower..upper];
    assert r[..middle - lower] == s[lower..middle];
    assert r[middle - lower..] == s[middle..upper];
    assert (upper - lower) / 2 == middle - lower;
  }

  /** Thread k's range of s is sorted. */
  ghost predicate SegmentSorted(s: seq<Student>, t: nat, k: nat)
  {
    && 0 < t && k < t
    && ThreadLower(|s|, t, k) <= ThreadUpper(|s|, t, k) <= |s|
    && Descending(s[ThreadLower(|s|, t, k)..ThreadUpper(|s|, t, k)])
  }

  /** b[0..cs] cuts s into cs ranges, each sorted: the state that
      `merge_threads` keeps in `boundaries` between rounds. */
  ghost predicate Runs(s: seq<Student>, b: seq<int>, cs: int)
  {
    && 0 <= cs < |b|
    && b[0] == 0 && b[cs] == |s|
    && (forall x, y :: 0 <= x <= y <= cs ==> b[x] <= b[y])
    && (forall k :: 0 <= k < cs ==> Descending(s[b[k]..b[k + 1]]))
  }

  /** Midway through a round of `merge_threads`: the ranges of b before
      index i have been merged pairwise into s, and s is still s0 from b[i]
      onwards. */
  ghost predicate Round(s: seq<Student>, s0: seq<Student>, b: seq<int>, cs: int, i: int)
  {
    && Runs(s0, b, cs)
    && |s| == |s0|
    && 0 <= i <= cs + 1 && i % 2 == 0
    && (forall k :: 0 <= k < i / 2 ==> Descending(s[b[Cap(2 * k, cs)]..b[Cap(2 * k + 2, cs)]]))
    && SameOutside(s, s0, 0, b[Cap(i, cs)])
    && SameGradeOrder(s, s0)
  }

  /** Boundary index a, capped at the last boundary b of the round. */
  function Cap(a: int, b: int): int { if a < b then a else b }

  lemma RoundStart(s0: seq<Student>, b: seq<int>, cs: int)
    requires Runs(s0, b, cs)
    ensures Round(s0, s0, b, cs, 0)
  {
  }

  /** The two ranges that a round merges at i are still the sorted ranges
      of the round's starting list. */
  lemma PairSorted(s: seq<Student>, s0: seq<Student>, b: seq<int>, cs: int, i: int)
    requires Round(s, s0, b, cs, i) && i + 1 < cs
    ensures 0 <= b[i] <= b[i + 1] <= b[i + 2] <= |s|
    ensures Descending(s[b[i]..b[i + 1]]) && Descending(s[b[i + 1]..b[i + 2]])
  {
    assert Cap(i, cs) == i;
    SameOutsideSlice(s, s0, 0, b[i], b[i], b[i + 1]);
    SameOutsideSlice(s, s0, 0, b[i], b[i + 1], b[i + 2]);
    assert Descending(s0[b[i]..b[i + 1]]);
    assert Descending(s0[b[i + 1]..b[i + 2]]);
  }

  /** Merging at i leaves the runs already merged in this round alone. */
  lemma MergedPrefixKept(s: seq<Student>, s': seq<Student>, b: seq<int>, cs: int, i: int)
    requires 0 <= i && i + 2 <= cs < |b| && |s| == |s'|
    requires forall x, y :: 0 <= x <= y <= cs ==> b[x] <= b[y]
    requires 0 <= b[0] && b[cs] <= |s|
    requires forall k :: 0 <= k < i / 2 ==> Descending(s[b[Cap(2 * k, cs)]..b[Cap(2 * k + 2, cs)]])
    requires SameOutside(s', s, b[i], b[i + 2])
    ensures forall k :: 0 <= k < i / 2 ==> Descending(s'[b[Cap(2 * k, cs)]..b[Cap(2 * k + 2, cs)]])
  {
    forall k | 0 <= k < i / 2
      ensures Descending(s'[b[Cap(2 * k, cs)]..b[Cap(2 * k + 2, cs)]])
    {
      var x, y := b[Cap(2 * k, cs)], b[Cap(2 * k + 2, cs)];
      assert y <= b[i];
      SameOutsideSlice(s', s, b[i], b[i + 2], x, y);
    }
  }

  lemma ExtendMerged(s': seq<Student>, b: seq<int>, cs: int, i: int)
    requires 0 <= i && i + 2 <= cs < |b| && i % 2 == 0
    requires forall x, y :: 0 <= x <= y <= cs ==> b[x] <= b[y]
    requires 0 <= b[0] && b[cs] <= |s'|
    requires forall k :: 0 <= k < i / 2 ==> Descending(s'[b[Cap(2 * k, cs)]..b[Cap(2 * k + 2, cs)]])
    requires Descending(s'[b[i]..b[i + 2]])
    ensures forall k :: 0 <= k < (i + 2) / 2 ==> Descending(s'[b[Cap(2 * k, cs)]..b[Cap(2 * k + 2, cs)]])
  {
    assert Cap(2 * (i / 2), cs) == i && Cap(2 * (i / 2) + 2, cs) == i + 2;
  }

  lemma SameGradeOrderTrans(x: seq<Student>, y: seq<Student>, z: seq<Student>)
    requires SameGradeOrder(x, y) && SameGradeOrder(y, z)
    ensures SameGradeOrder(x, z)
  {
  }

  lemma PairMergedSorted(s: seq<Student>, s0: seq<Student>, b: seq<int>, cs: int, i: int, s': seq<Student>)
    requires Round(s, s0, b, cs, i) && i + 1 < cs
    requires SameOutside(s', s, b[i], b[i + 2])
    requires s'[b[i]..b[i + 2]] == Merge(s[b[i]..b[i + 1]], s[b[i + 1]..b[i + 2]])
    ensures forall k :: 0 <= k < (i + 2) / 2 ==> Descending(s'[b[Cap(2 * k, cs)]..b[Cap(2 * k + 2, cs)]])
  {
    PairSorted(s, s0, b, cs, i);
    MergeDescending(s[b[i]..b[i + 1]], s[b[i + 1]..b[i + 2]]);
    MergedPrefixKept(s, s', b, cs, i);
    ExtendMerged(s', b, cs, i);
  }

  lemma PairMergedGrades(s: seq<Student>, s0: seq<Student>, b: seq<int>, cs: int, i: int, s': seq<Student>)
    requires Round(s, s0, b, cs, i) && i + 1 < cs
    requires SameOutside(s', s, b[i], b[i + 2])
    requires s'[b[i]..b[i + 2]] == Merge(s[b[i]..b[i + 1]], s[b[i + 1]..b[i + 2]])
    ensures SameGradeOrder(s', s0)
  {
    var lo, mid, hi := b[i], b[i + 1], b[i + 2];
    PairSorted(s, s0, b, cs, i);
    MergeKeepsGradeOrder(s[lo..mid], s[mid..hi]);
    assert s[lo..mid] + s[mid..hi] == s[lo..hi];
    ReplaceKeepsGradeOrder(s', s, lo, hi);
    SameGradeOrderTrans(s', s, s0);
  }

  /** Merging the pair of ranges starting at i extends the merged prefix by
      one range. */
  lemma RoundMergePair(s: seq<Student>, s0: seq<Student>, b: seq<int>, cs: int, i: int, s': seq<Student>)
    requires Round(s, s0, b, cs, i) && i + 1 < cs
    requires SameOutside(s', s, b[i], b[i + 2])
    requires s'[b[i]..b[i + 2]] == Merge(s[b[i]..b[i + 1]], s[b[i + 1]..b[i + 2]])
    ensures Round(s', s0, b, cs, i + 2)
  {
    PairMergedSorted(s, s0, b, cs, i, s');
    PairMergedGrades(s, s0, b, cs, i, s');
    assert Cap(i, cs) == i && Cap(i + 2, cs) == i + 2;
    SameOutsideTrans(s', s, s0, b[i], b[i + 2], 0, b[i], 0, b[i + 2]);
  }

  /** A last range without a partner is carried over unchanged. */
  lemma RoundCarryLast(s: seq<Student>, s0: seq<Student>, b: seq<int>, cs: int, i: int)
    requires Round(s, s0, b, cs, i) && i + 1 == cs
    ensures Round(s, s0, b, cs, i + 2)
  {
    SameOutsideSlice(s, s0, 0, b[i], b[i], b[cs]);
    assert Descending(s0[b[i]..b[i + 1]]);
    assert Cap(2 * (i / 2), cs) == i && Cap(2 * (i / 2) + 2, cs) == cs;
  }

  /** At the end of a round the new boundaries cut s into ceil(cs / 2)
      sorted ranges. */
  lemma RoundEnd(s: seq<Student>, s0: seq<Student>, b: seq<int>, cs: int, i: int, nb: seq<int>)
    requires Round(s, s0, b, cs, i) && cs <= i && 1 < cs
    requires |nb| == |b| && forall k :: 0 <= k <= (cs + 1) / 2 ==> nb[k] == b[Cap(2 * k, cs)]
    ensures Runs(s, nb, (cs + 1) / 2)
  {
    var ns := (cs + 1) / 2;
    assert i / 2 == ns;
    forall x, y | 0 <= x <= y <= ns
      ensures nb[x] <= nb[y]
    {
      assert nb[x] == b[Cap(2 * x, cs)] && nb[y] == b[Cap(2 * y, cs)];
    }
    forall k | 0 <= k < ns
      ensures Descending(s[nb[k]..nb[k + 1]])
    {
      assert nb[k] == b[Cap(2 * k, cs)] && nb[k + 1] == b[Cap(2 * k + 2, cs)];
    }
    assert nb[ns] == b[cs];
  }

  /** After packing ns new boundaries: the first ns entries are every second
      old boundary, the rest are still the old ones. */
  ghost predicate Packed(nb: seq<int>, b0: seq<int>, cs: int, ns: int)
  {
    && |nb| == |b0| && 0 <= ns <= |nb| && 0 <= cs < |b0|
    && (forall k :: 0 <= k < ns ==> nb[k] == b0[Cap(2 * k, cs)])
    && (forall k :: ns <= k < |nb| ==> nb[k] == b0[k])
  }

  lemma PackOne(nb: seq<int>, b0: seq<int>, cs: int, ns: int, nb': seq<int>)
    requires Packed(nb, b0, cs, ns) && 2 * ns < cs < |b0|
    requires nb' == nb[ns := b0[2 * ns]]
    ensures Packed(nb', b0, cs, ns + 1)
  {
  }

  lemma PackLast(nb: seq<int>, b0: seq<int>, cs: int, ns: int, nb': seq<int>)
    requires Packed(nb, b0, cs, ns) && ns == (cs + 1) / 2 && 1 < cs < |b0|
    requires nb' == nb[ns := nb[cs]]
    ensures |nb'| == |b0| && forall k :: 0 <= k <= ns ==> nb'[k] == b0[Cap(2 * k, cs)]
  {
  }

  /** The end of a round: the last boundary is moved behind the packed ones. */
  lemma CloseRound(s: seq<Student>, s0: seq<Student>, b0: seq<int>, cs: int, i: int, nb: seq<int>, nb': seq<int>)
    requires Round(s, s0, b0, cs, i) && cs <= i && 1 < cs < |b0|
    requires Packed(nb, b0, cs, i / 2) && nb' == nb[i / 2 := nb[cs]]
    ensures i / 2 == (cs + 1) / 2
    ensures Runs(s, nb', (cs + 1) / 2) && SameGradeOrder(s, s0)
  {
    PackLast(nb, b0, cs, i / 2, nb');
    RoundEnd(s, s0, b0, cs, i, nb');
  }

  /** A single run covering the whole list is the whole list sorted. */
  lemma SingleRun(s: seq<Student>, b: seq<int>)
    requires Runs(s, b, 1)
    ensures Descending(s)
  {
    assert s[b[0]..b[1]] == s;
  }

  /** The thread ranges, once each is sorted, are the first set of runs. */
  lemma ThreadRuns(s: seq<Student>, t: nat, b: seq<int>)
    requires 0 < t && |b| == t + 1
    requires forall k :: 0 <= k < t ==> b[k] == ThreadLower(|s|, t, k)
    requires b[t] == |s|
    requires forall k :: 0 <= k < t ==> SegmentSorted(s, t, k)
    ensures Runs(s, b, t)
  {
    forall x, y | 0 <= x <= y <= t
      ensures b[x] <= b[y]
    {
      ThreadLowerMono(|s|, t, x, y);
      if y < t {
        ThreadLowerMono(|s|, t, y, t);
      }
    }
    forall k | 0 <= k < t
      ensures Descending(s[b[k]..b[k + 1]])
    {
      assert SegmentSorted(s, t, k);
      if k + 1 < t {
        ThreadRangesAdjacent(|s|, t, k);
      }
    }
  }

  class ParallelMergeSorter {
    const sortedList: array<Student>
    const numThreads: int

    /** Copies the input list (lines 29-33). */
    constructor(originalList: seq<Student>, numThreads: int)
      ensures sortedList[..] == originalList && this.numThreads == numThreads
      ensures fresh(sortedList)
    {
      this.sortedList := new Student[|originalList|](k requires 0 <= k < |originalList| => originalList[k]);
      this.numThreads := numThreads;
    }

    /** Merges the sorted ranges [lower, middle) and [middle, upper) through
        a temporary list and copies the result back (lines 92-127). */
    method Merge(lower: int, middle: int, upper: int)
      requires 0 <= lower <= middle <= upper <= sortedList.Length
      modifies sortedList
      ensures sortedList[lower..upper] == GradeSort.Merge(old(sortedList[lower..middle]), old(sortedList[middle..upper]))
      ensures SameOutside(sortedList[..], old(sortedList[..]), lower, upper)
    {
      var temp := MergeRuns(lower, middle, upper);
      CopyBack(temp, lower);
    }

    /** The three loops of `merge` (lines 98-121) that fill the temporary
        list: while both runs have elements the head with the higher grade
        is taken, the left one on a tie; then the rest of whichever run
        remains. */
    method MergeRuns(lower: int, middle: int, upper: int) returns (temp: seq<Student>)
      requires 0 <= lower <= middle <= upper <= sortedList.Length
      ensures temp == GradeSort.Merge(sortedList[lower..middle], sortedList[middle..upper])
      ensures |temp| == upper - lower
    {
      var a := sortedList;
      ghost var s := a[..];
      ghost var result := MergeFrom(s, lower, middle, middle, upper);
      temp := [];
      var i, j := lower, middle;
      while i < middle && j < upper
        invariant lower <= i <= middle <= j <= upper
        invariant temp + MergeFrom(s, i, middle, j, upper) == result
      {
        var x, y := a[i], a[j];
        if x.grade > y.grade || x.grade == y.grade {
          EmitLeft(s, i, middle, j, upper, temp, result);
          temp := temp + [x];
          i := i + 1;
        } else {
          EmitRight(s, i, middle, j, upper, temp, result);
          temp := temp + [y];
          j := j + 1;
        }
      }
      while i < middle
        invariant lower <= i <= middle && (i < middle ==> j == upper)
        invariant temp + MergeFrom(s, i, middle, j, upper) == result
      {
        EmitLeft(s, i, middle, j, upper, temp, result);
        temp := temp + [a[i]];
        i := i + 1;
      }
      while j < upper
        invariant middle <= j <= upper && i == middle
        invariant temp + MergeFrom(s, i, middle, j, upper) == result
      {
        EmitRight(s, i, middle, j, upper, temp, result);
        temp := temp + [a[j]];
        j := j + 1;
      }
      assert temp == result;
      MergeFromIsMerge(s, lower, middle, middle, upper);
      MergeLength(s[lower..middle], s[middle..upper]);
    }

    /** The copy-back loop at the end of `merge` (lines 123-125): writes temp
        over the range starting at lower. */
    method CopyBack(temp: seq<Student>, lower: int)
      requires 0 <= lower && lower + |temp| <= sortedList.Length
      modifies sortedList
      ensures sortedList[lower..lower + |temp|] == temp
      ensures SameOutside(sortedList[..], old(sortedList[..]), lower, lower + |temp|)
    {
      var a := sortedList;
      ghost var s := a[..];
      for k := 0 to |temp|
        invariant forall p :: 0 <= p < a.Length ==> a[p] == if lower <= p < lower + k then temp[p - lower] else s[p]
      {
        a[lower + k] := temp[k];
      }
      WrittenBack(a[..], s, temp, lower, lower + |temp|);
    }

    /** Top-down merge sort of [lower, upper) (lines 77-88). */
    method MergeSortRange(lower: int, upper: int)
      requires 0 <= lower <= upper <= sortedList.Length
      modifies sortedList
      ensures sortedList[lower..upper] == GradeSort.MergeSort(old(sortedList[lower..upper]))
      ensures SameOutside(sortedList[..], old(sortedList[..]), lower, upper)
      decreases upper - lower
    {
      if upper - lower <= 1 {
        return;
      }
      var middle := lower + (upper - lower) / 2;
      ghost var s0 := sortedList[..];
      MergeSortRange(lower, middle);
      ghost var s1 := sortedList[..];
      MergeSortRange(middle, upper);
      ghost var s2 := sortedList[..];
      Merge(lower, middle, upper);
      MergeSortSteps(s0, s1, s2, sortedList[..], lower, middle, upper);
    }

    /** The work of one thread: merge sort of its range (lines 176-218). */
    method ThreadInit(threadIndex: int)
      requires 0 <= threadIndex < numThreads
      modifies sortedList
      ensures ThreadLower(sortedList.Length, numThreads, threadIndex) <= ThreadUpper(sortedList.Length, numThreads, threadIndex) <= sortedList.Length
      ensures var lo, hi := ThreadLower(sortedList.Length, numThreads, threadIndex), ThreadUpper(sortedList.Length, numThreads, threadIndex);
        sortedList[lo..hi] == GradeSort.MergeSort(old(sortedList[lo..hi])) && SameOutside(sortedList[..], old(sortedList[..]), lo, hi)
    {
      var workPerThread := sortedList.Length / numThreads;
      var lower := threadIndex * workPerThread;
      var upper;
      if threadIndex == numThreads - 1 {
        upper := sortedList.Length;
      } else {
        upper := (threadIndex + 1) * workPerThread;
      }
      ThreadRangeInside(sortedList.Length, numThreads, threadIndex);
      MergeSortRange(lower, upper);
    }

    /** Lines 136-146: the start index of every thread's segment, followed by
        the length of the list. */
    method ThreadBoundaries() returns (boundaries: array<int>)
      requires numThreads >= 1
      ensures fresh(boundaries) && boundaries.Length == numThreads + 1
      ensures forall k :: 0 <= k < numThreads ==> boundaries[k] == ThreadLower(sortedList.Length, numThreads, k)
      ensures boundaries[numThreads] == sortedList.Length
    {
      var arrayLength := sortedList.Length;
      boundaries := new int[numThreads + 1];
      var workPerThread := arrayLength / numThreads;
      for i := 0 to numThreads
        invariant forall k :: 0 <= k < i ==> boundaries[k] == ThreadLower(arrayLength, numThreads, k)
      {
        boundaries[i] := i * workPerThread;
      }
      boundaries[numThreads] := arrayLength;
    }

    /** Lines 150-168: one round of pairwise merging. Neighbouring runs are
        merged, a last unpaired run is carried over, and the boundaries of the
        new runs are packed to the front of `boundaries`. */
    method MergeRound(boundaries: array<int>, cs: int) returns (newSegments: int)
      requires 1 < cs < boundaries.Length
      requires Runs(sortedList[..], boundaries[..], cs)
      modifies sortedList, boundaries
      ensures newSegments == (cs + 1) / 2
      ensures Runs(sortedList[..], boundaries[..], newSegments)
      ensures SameGradeOrder(sortedList[..], old(sortedList[..]))
    {
      ghost var b0 := boundaries[..];
      ghost var s0 := sortedList[..];
      newSegments := 0;
      RoundStart(s0, b0, cs);
      var i := 0;
      while i < cs
        invariant Round(sortedList[..], s0, b0, cs, i)
        invariant newSegments == i / 2
        invariant Packed(boundaries[..], b0, cs, newSegments)
        decreases cs - i
      {
        RoundStep(boundaries, cs, i, newSegments, s0, b0);
        newSegments := newSegments + 1;
        i := i + 2;
      }
      MoveLastBoundary(boundaries, cs, i, newSegments, s0, b0);
    }

    /** Lines 153-161: merges the runs i and i + 1 of the round and records
        where the merged run starts. */
    method MergePair(boundaries: array<int>, cs: int, i: int, newSegments: int, ghost s0: seq<Student>, ghost b0: seq<int>)
      requires Round(sortedList[..], s0, b0, cs, i) && i + 1 < cs && newSegments == i / 2
      requires Packed(boundaries[..], b0, cs, newSegments)
      modifies sortedList, boundaries
      ensures Round(sortedList[..], s0, b0, cs, i + 2)
      ensures Packed(boundaries[..], b0, cs, newSegments + 1)
    {
      ghost var nb := boundaries[..];
      ghost var s := sortedList[..];
      var left := boundaries[i];
      var mid := boundaries[i + 1];
      var right := boundaries[i + 2];
      Merge(left, mid, right);
      RoundMergePair(s, s0, b0, cs, i, sortedList[..]);
      boundaries[newSegments] := left;
      PackOne(nb, b0, cs, newSegments, boundaries[..]);
    }

    /** Lines 152-167: one pass of the inner loop, which merges a pair of
        runs or carries the last one over. */
    method RoundStep(boundaries: array<int>, cs: int, i: int, newSegments: int, ghost s0: seq<Student>, ghost b0: seq<int>)
      requires Round(sortedList[..], s0, b0, cs, i) && i < cs && newSegments == i / 2
      requires Packed(boundaries[..], b0, cs, newSegments)
      modifies sortedList, boundaries
      ensures Round(sortedList[..], s0, b0, cs, i + 2)
      ensures Packed(boundaries[..], b0, cs, newSegments + 1)
    {
      if i + 1 < cs {
        MergePair(boundaries, cs, i, newSegments, s0, b0);
      } else {
        ghost var nb := boundaries[..];
        RoundCarryLast(sortedList[..], s0, b0, cs, i);
        boundaries[newSegments] := boundaries[i];
        PackOne(nb, b0, cs, newSegments, boundaries[..]);
      }
    }

    /** Line 168: the end of the list becomes the boundary after the last
        new run. */
    method MoveLastBoundary(boundaries: array<int>, cs: int, i: int, newSegments: int, ghost s0: seq<Student>, ghost b0: seq<int>)
      requires Round(sortedList[..], s0, b0, cs, i) && cs <= i && 1 < cs < |b0|
      requires Packed(boundaries[..], b0, cs, newSegments) && newSegments == i / 2
      modifies boundaries
      ensures newSegments == (cs + 1) / 2
      ensures Runs(sortedList[..], boundaries[..], newSegments) && SameGradeOrder(sortedList[..], s0)
    {
      ghost var nb := boundaries[..];
      boundaries[newSegments] := boundaries[cs];
      CloseRound(sortedList[..], s0, b0, cs, i, nb, boundaries[..]);
    }

    /** Lines 130-173: merges the sorted thread segments round by round until
        one run is left. */
    method MergeThreads()
      requires numThreads >= 1
      requires forall k :: 0 <= k < numThreads ==> SegmentSorted(sortedList[..], numThreads, k)
      modifies sortedList
      ensures Descending(sortedList[..])
      ensures SameGradeOrder(sortedList[..], old(sortedList[..]))
    {
      var boundaries := ThreadBoundaries();
      ThreadRuns(sortedList[..], numThreads, boundaries[..]);
      var currentSegments := numThreads;
      while currentSegments > 1
        invariant 1 <= currentSegments <= numThreads
        invariant Runs(sortedList[..], boundaries[..], currentSegments)
        invariant SameGradeOrder(sortedList[..], old(sortedList[..]))
        decreases currentSegments
      {
        ghost var s := sortedList[..];
        currentSegments := MergeRound(boundaries, currentSegments);
        SameGradeOrderTrans(sortedList[..], s, old(sortedList[..]));
      }
      SingleRun(sortedList[..], boundaries[..]);
    }

    method RunSort() returns (result: seq<Student>)
      requires numThreads >= 1
      modifies sortedList
      ensures result == sortedList[..]
      ensures Descending(result) && multiset(result) == multiset(old(sortedList[..]))
      ensures SameGradeOrder(result, old(sortedList[..]))
      ensures result == InsertionSort(old(sortedList[..]))
    {
      ghost var original := sortedList[..];
      for i := 0 to numThreads
        invariant forall k :: 0 <= k < i ==> SegmentSorted(sortedList[..], numThreads, k)
        invariant SameGradeOrder(sortedList[..], original)
      {
        ghost var before := sortedList[..];
        ThreadInit(i);
        var n := sortedList.Length;
        var lo, hi := ThreadLower(n, numThreads, i), ThreadUpper(n, numThreads, i);
        MergeSortCorrect(before[lo..hi]);
        ReplaceKeepsGradeOrder(sortedList[..], before, lo, hi);
        forall k | 0 <= k < i + 1
          ensures SegmentSorted(sortedList[..], numThreads, k)
        {
          if k < i {
            assert SegmentSorted(before, numThreads, k);
            ThreadRangeInside(n, numThreads, k);
            ThreadRangesDisjoint(n, numThreads, k, i);
            SameOutsideSlice(sortedList[..], before, lo, hi, ThreadLower(n, numThreads, k), ThreadUpper(n, numThreads, k));
          }
        }
      }
      MergeThreads();
      result := sortedList[..];
      SameGradeOrderIsPermutation(result, original);
      IsTheStableSort(result, original);
    }
  }
}
