/** The rule `create_processes_and_sort` uses to cut the list of class names
    into one consecutive slice per child process (p1_process.cpp). The
    `fork`/`waitpid` calls are replaced by returning the slices that would be
    handed to the children, in creation order. */
module WorkSplit {

  /** C++ `int / int`, which truncates toward zero, for a non-negative dividend. */
  function CDiv(n: nat, p: int): int
    requires p != 0
  {
    if p > 0 then n / p else -(n / -p)
  }

  /** C++ `int % int`: the remainder that goes with `CDiv`. */
  function CRem(n: nat, p: int): int
    requires p != 0
  {
    n - p * CDiv(n, p)
  }

  function Min(a: int, b: int): int { if a < b then a else b }

  /** Number of children that receive classes. */
  function Workers(n: nat, p: nat): nat { Min(n, p) }

  /** How many classes child k receives: every child gets n / p and the first
      n % p children one more; with fewer classes than children each of the
      first n children gets exactly one. */
  function Share(n: nat, p: nat, k: nat): nat
    requires p > 0
  {
    if n < p then 1 else n / p + (if k < n % p then 1 else 0)
  }

  /** Index of the first class of child k. */
  function Start(n: nat, p: nat, k: nat): nat
    requires p > 0
  {
    if k == 0 then 0 else Start(n, p, k - 1) + Share(n, p, k - 1)
  }

  /** Flattening of a list of slices. */
  function Concat<T>(xss: seq<seq<T>>): seq<T>
  {
    if xss == [] then [] else Concat(xss[..|xss| - 1]) + xss[|xss| - 1]
  }

  lemma ConcatSnoc<T>(xss: seq<seq<T>>, xs: seq<T>)
    ensures Concat(xss + [xs]) == Concat(xss) + xs
  {
    assert (xss + [xs])[..|xss|] == xss;
  }

  /** Every child that receives classes receives at least one, so the start
      indices strictly increase. */
  lemma {:induction false} StartGrows(n: nat, p: nat, j: nat, k: nat)
    requires p > 0 && j < k
    ensures Start(n, p, j) + (k - j) <= Start(n, p, k)
    decreases k
  {
    if j < k - 1 {
      StartGrows(n, p, j, k - 1);
    }
  }

  /** Closed form of the start index when there are at least as many classes
      as children. */
  lemma {:induction false} StartClosedForm(n: nat, p: nat, k: nat)
    requires 0 < p <= n
    ensures Start(n, p, k) == k * (n / p) + Min(k, n % p)
  {
    if k > 0 {
      StartClosedForm(n, p, k - 1);
      assert (k - 1) * (n / p) + n / p == k * (n / p);
    }
  }

  /** The children's slices end exactly at the end of the list. */
  lemma StartAtWorkers(n: nat, p: nat)
    requires p > 0
    ensures Start(n, p, Workers(n, p)) == n
  {
    if n < p {
      StartBelowCount(n, p, n);
    } else {
      StartClosedForm(n, p, p);
    }
  }

  lemma {:induction false} StartBelowCount(n: nat, p: nat, k: nat)
    requires 0 < p && n < p && k <= n
    ensures Start(n, p, k) == k
  {
    if k > 0 {
      StartBelowCount(n, p, k - 1);
    }
  }

  /** The split is balanced: any two children that receive classes get
      amounts that differ by at most one, and no child gets more than
      ceil(n / p). */
  lemma ShareBalanced(n: nat, p: nat, j: nat, k: nat)
    requires 0 < p && j < Workers(n, p) && k < Workers(n, p)
    ensures Share(n, p, j) <= Share(n, p, k) + 1
    ensures 1 <= Share(n, p, j) && Share(n, p, j) * p <= n + p - 1
  {
    if n >= p {
      var b, e := n / p, n % p;
      assert n == b * p + e;
      assert Share(n, p, j) <= b + 1;
      if j < e {
        assert Share(n, p, j) * p == b * p + p;
      } else {
        assert Share(n, p, j) * p == b * p;
      }
    }
  }

  /** sub is the slice of names that child k receives. */
  predicate IsSliceOf<T(==)>(sub: seq<T>, names: seq<T>, p: nat, k: nat)
    requires p > 0
  {
    && Start(|names|, p, k) < Start(|names|, p, k + 1) <= |names|
    && sub == names[Start(|names|, p, k)..Start(|names|, p, k + 1)]
  }

  /** Child i is followed by a start index that still lies inside the list. */
  lemma NextSlice(n: nat, p: nat, i: nat)
    requires 0 < p && i < Workers(n, p)
    ensures Share(n, p, i) >= 1
    ensures Start(n, p, i + 1) == Start(n, p, i) + Share(n, p, i) <= n
  {
    StartAtWorkers(n, p);
    if i + 1 < Workers(n, p) {
      StartGrows(n, p, i + 1, Workers(n, p));
    }
  }

  /** Appending the slice of child i keeps the flattening a prefix. */
  lemma AppendSlice<T>(names: seq<T>, subs: seq<seq<T>>, p: nat, i: nat)
    requires 0 < p && i < Workers(|names|, p)
    requires Start(|names|, p, i) <= |names| && Concat(subs) == names[..Start(|names|, p, i)]
    ensures Start(|names|, p, i + 1) <= |names|
    ensures IsSliceOf(names[Start(|names|, p, i)..Start(|names|, p, i + 1)], names, p, i)
    ensures Concat(subs + [names[Start(|names|, p, i)..Start(|names|, p, i + 1)]]) == names[..Start(|names|, p, i + 1)]
  {
    NextSlice(|names|, p, i);
    var a, b := Start(|names|, p, i), Start(|names|, p, i + 1);
    ConcatSnoc(subs, names[a..b]);
    assert names[..a] + names[a..b] == names[..b];
  }

  /** For a positive process count, the normalised base and extra counts
      that the loop uses. */
  lemma NormalisedWork(n: nat, p: int)
    requires p > 0
    ensures CDiv(n, p) < 1 <==> n < p
    ensures CRem(n, p) == n % p
  {
    assert n == p * (n / p) + n % p;
    if n >= p {
      assert n / p >= 1;
    }
  }

  /** Models lines 148-192: returns, in order, the sublist handed to each
      child process. */
  method CreateSublists(classNames: seq<string>, numProcesses: int) returns (sublists: seq<seq<string>>)
    requires numProcesses != 0
    ensures numProcesses < 0 ==> sublists == []
    ensures numProcesses > 0 ==> |sublists| == Workers(|classNames|, numProcesses)
    ensures numProcesses > 0 ==> Concat(sublists) == classNames
    ensures numProcesses > 0 ==> forall k :: 0 <= k < |sublists| ==> IsSliceOf(sublists[k], classNames, numProcesses, k)
    ensures numProcesses > 0 ==> forall k :: 0 <= k < |sublists| ==> |sublists[k]| == Share(|classNames|, numProcesses, k)
  {
    var n := |classNames|;
    var classesRemain := n;
    var currentIndex := 0;
    var basicWork := CDiv(n, numProcesses);
    var extraWorkIndex := CRem(n, numProcesses);
    if basicWork < 1 {
      basicWork := 1;
      extraWorkIndex := 0;
    }
    ghost var p: nat := if numProcesses > 0 then numProcesses else 1;
    if numProcesses > 0 {
      NormalisedWork(n, p);
      assert basicWork == (if n < p then 1 else n / p);
      assert extraWorkIndex == (if n < p then 0 else n % p);
      StartAtWorkers(n, p);
    }
    sublists := [];
    var i := 0;
    while i < numProcesses
      invariant numProcesses < 0 ==> i == 0 && sublists == []
      invariant numProcesses > 0 ==> 0 <= i <= Workers(n, p)
      invariant numProcesses > 0 ==> currentIndex == Start(n, p, i) <= n && classesRemain == n - currentIndex
      invariant |sublists| == i
      invariant numProcesses > 0 ==> Concat(sublists) == classNames[..currentIndex]
      invariant numProcesses > 0 ==> forall k :: 0 <= k < i ==> IsSliceOf(sublists[k], classNames, p, k)
    {
      if classesRemain <= 0 {
        break;
      }
      assert i < Workers(n, p);
      var count := basicWork;
      if i < extraWorkIndex {
        count := count + 1;
      }
      NextSlice(n, p, i);
      assert count == Share(n, p, i) && currentIndex + count == Start(n, p, i + 1) <= n;
      if currentIndex + count > n {
        count := n - currentIndex;
      }
      if count != 0 {
        var sublist := classNames[currentIndex..currentIndex + count];
        AppendSlice(classNames, sublists, p, i);
        currentIndex := currentIndex + count;
        classesRemain := classesRemain - count;
        sublists := sublists + [sublist];
      }
      i := i + 1;
    }
    if numProcesses > 0 {
      if i < Workers(n, p) {
        StartGrows(n, p, i, Workers(n, p));
      }
      assert i == Workers(n, p) && currentIndex == n;
      assert classNames[..currentIndex] == classNames;
    }
    forall k | 0 <= k < |sublists| && numProcesses > 0
      ensures |sublists[k]| == Share(n, numProcesses, k)
    {
      assert IsSliceOf(sublists[k], classNames, p, k);
    }
  }
}
