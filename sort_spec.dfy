/** The value-level meaning of the grade sort in project1/p1_threads.cpp:
    students ordered by descending grade, where students with equal grades
    keep their input order. */
module GradeSort {

  /** The `student` record: an id and a grade that is only ever compared. */
  datatype Student = Student(id: nat, grade: real)

  /** Sorted by descending grade. */
  ghost predicate Descending(s: seq<Student>)
  {
    forall i, j :: 0 <= i < j < |s| ==> s[i].grade >= s[j].grade
  }

  /** The students of s that have grade g, in their order in s. */
  function WithGrade(s: seq<Student>, g: real): seq<Student>
  {
    if s == [] then [] else (if s[0].grade == g then [s[0]] else []) + WithGrade(s[1..], g)
  }

  /** x lists, for every grade, the same students in the same order as y:
      the relation a stable sort keeps between its output and its input. */
  ghost predicate SameGradeOrder(x: seq<Student>, y: seq<Student>)
  {
    forall g :: WithGrade(x, g) == WithGrade(y, g)
  }

  /** Two-way merge of two runs as `merge` performs it: the head of the left
      run is taken whenever its grade is not below the head of the right run. */
  function Merge(left: seq<Student>, right: seq<Student>): seq<Student>
    decreases |left| + |right|
  {
    if left == [] then right
    else if right == [] then left
    else if left[0].grade >= right[0].grade then [left[0]] + Merge(left[1..], right)
    else [right[0]] + Merge(left, right[1..])
  }

  /** Top-down merge sort as `merge_sort` performs it, splitting at half the
      length rounded down. */
  function MergeSort(s: seq<Student>): seq<Student>
    decreases |s|
  {
    if |s| <= 1 then s
    else
      var m := |s| / 2;
      Merge(MergeSort(s[..m]), MergeSort(s[m..]))
  }

  /** Independent reference: insertion of x after every student whose grade
      is at least x's. */
  function Insert(x: Student, s: seq<Student>): seq<Student>
  {
    if s == [] then [x]
    else if s[0].grade >= x.grade then [s[0]] + Insert(x, s[1..])
    else [x] + s
  }

  /** Independent reference: stable descending insertion sort. */
  function InsertionSort(s: seq<Student>): seq<Student>
  {
    if s == [] then [] else Insert(s[|s| - 1], InsertionSort(s[..|s| - 1]))
  }

  // ---------------------------------------------------------------------
  // Facts about WithGrade

  lemma {:induction false} WithGradeAppend(a: seq<Student>, b: seq<Student>, g: real)
    ensures WithGrade(a + b, g) == WithGrade(a, g) + WithGrade(b, g)
  {
    if a != [] {
      assert (a + b)[0] == a[0] && (a + b)[1..] == a[1..] + b;
      WithGradeAppend(a[1..], b, g);
    } else {
      assert a + b == b;
    }
  }

  lemma {:induction false} WithGradeNone(s: seq<Student>, g: real)
    requires forall k :: 0 <= k < |s| ==> s[k].grade < g
    ensures WithGrade(s, g) == []
  {
    if s != [] {
      WithGradeNone(s[1..], g);
    }
  }

  /** An element's multiplicity is decided by its own grade class. */
  lemma {:induction false} MultiplicityByGrade(s: seq<Student>, e: Student)
    ensures multiset(s)[e] == multiset(WithGrade(s, e.grade))[e]
  {
    if s != [] {
      MultiplicityByGrade(s[1..], e);
      assert s == [s[0]] + s[1..];
    }
  }

  /** Keeping every grade class in order makes the two lists permutations of
      each other. */
  lemma SameGradeOrderIsPermutation(x: seq<Student>, y: seq<Student>)
    requires SameGradeOrder(x, y)
    ensures multiset(x) == multiset(y)
  {
    forall e | true
      ensures multiset(x)[e] == multiset(y)[e]
    {
      MultiplicityByGrade(x, e);
      MultiplicityByGrade(y, e);
      assert WithGrade(x, e.grade) == WithGrade(y, e.grade);
    }
  }

  lemma SameGradeOrderAppend(a: seq<Student>, b: seq<Student>, c: seq<Student>, d: seq<Student>)
    requires SameGradeOrder(a, c) && SameGradeOrder(b, d)
    ensures SameGradeOrder(a + b, c + d)
  {
    forall g | true
      ensures WithGrade(a + b, g) == WithGrade(c + d, g)
    {
      WithGradeAppend(a, b, g);
      WithGradeAppend(c, d, g);
      assert WithGrade(a, g) == WithGrade(c, g);
      assert WithGrade(b, g) == WithGrade(d, g);
    }
  }

  /** Replacing a slice by one with the same grade classes keeps the grade
      classes of the whole list. */
  lemma SameGradeOrderReplace(s: seq<Student>, t: seq<Student>, lo: int, hi: int)
    requires 0 <= lo <= hi <= |s| == |t|
    requires s[..lo] == t[..lo] && s[hi..] == t[hi..]
    requires SameGradeOrder(s[lo..hi], t[lo..hi])
    ensures SameGradeOrder(s, t)
  {
    assert s == s[..lo] + s[lo..hi] + s[hi..];
    assert t == t[..lo] + t[lo..hi] + t[hi..];
    forall g | true
      ensures WithGrade(s[..lo], g) == WithGrade(t[..lo], g)
      ensures WithGrade(s[hi..], g) == WithGrade(t[hi..], g)
    {
    }
    SameGradeOrderAppend(s[..lo], s[lo..hi], t[..lo], t[lo..hi]);
    SameGradeOrderAppend(s[..lo] + s[lo..hi], s[hi..], t[..lo] + t[lo..hi], t[hi..]);
  }

  // ---------------------------------------------------------------------
  // Merge

  lemma {:induction false} MergePermutation(left: seq<Student>, right: seq<Student>)
    ensures multiset(Merge(left, right)) == multiset(left) + multiset(right)
    ensures |Merge(left, right)| == |left| + |right|
    decreases |left| + |right|
  {
    if left != [] && right != [] {
      if left[0].grade >= right[0].grade {
        MergeTakesLeft(left, right);
        MergePermutation(left[1..], right);
        MultisetCons(left);
      } else {
        MergeTakesRight(left, right);
        MergePermutation(left, right[1..]);
        MultisetCons(right);
      }
    }
  }

  /** Once one run is exhausted the merge appends the other one unchanged. */
  lemma MergeWithEmpty(left: seq<Student>, right: seq<Student>)
    requires left == [] || right == []
    ensures Merge(left, right) == left + right
  {
  }

  lemma DescendingTail(s: seq<Student>)
    requires Descending(s) && s != []
    ensures Descending(s[1..])
    ensures forall k :: 0 <= k < |s| ==> s[k].grade <= s[0].grade
  {
  }

  lemma DescendingCons(x: Student, s: seq<Student>)
    requires Descending(s)
    requires forall k :: 0 <= k < |s| ==> s[k].grade <= x.grade
    ensures Descending([x] + s)
  {
    var t := [x] + s;
    forall i, j | 0 <= i < j < |t|
      ensures t[i].grade >= t[j].grade
    {
      if i > 0 {
        assert t[i] == s[i - 1] && t[j] == s[j - 1];
      } else {
        assert t[j] == s[j - 1];
      }
    }
  }

  lemma BoundedByMultiset(s: seq<Student>, t: seq<Student>, g: real)
    requires multiset(s) <= multiset(t)
    requires forall k :: 0 <= k < |t| ==> t[k].grade <= g
    ensures forall k :: 0 <= k < |s| ==> s[k].grade <= g
  {
    forall k | 0 <= k < |s|
      ensures s[k].grade <= g
    {
      assert s[k] in multiset(s);
      assert s[k] in multiset(t);
      var m :| 0 <= m < |t| && t[m] == s[k];
    }
  }

  /** Merging two descending runs gives a descending run. */
  lemma {:induction false} MergeDescending(left: seq<Student>, right: seq<Student>)
    requires Descending(left) && Descending(right)
    ensures Descending(Merge(left, right))
    decreases |left| + |right|
  {
    if left != [] && right != [] {
      if left[0].grade >= right[0].grade {
        var x, rest := left[0], Merge(left[1..], right);
        MergeTakesLeft(left, right);
        MergeDescending(left[1..], right);
        MergePermutation(left[1..], right);
        BoundedByMultiset(rest, left[1..] + right, x.grade);
        DescendingCons(x, rest);
      } else {
        var x, rest := right[0], Merge(left, right[1..]);
        MergeTakesRight(left, right);
        MergeDescending(left, right[1..]);
        MergePermutation(left, right[1..]);
        BoundedByMultiset(rest, left + right[1..], x.grade);
        DescendingCons(x, rest);
      }
    }
  }

  /** Unfolding of WithGrade at the front of a list. */
  lemma WithGradeCons(x: Student, t: seq<Student>, g: real)
    ensures WithGrade([x] + t, g) == (if x.grade == g then [x] else []) + WithGrade(t, g)
  {
    assert ([x] + t)[0] == x && ([x] + t)[1..] == t;
  }

  lemma WithGradeUnfold(s: seq<Student>, g: real)
    requires s != []
    ensures WithGrade(s, g) == (if s[0].grade == g then [s[0]] else []) + WithGrade(s[1..], g)
  {
  }

  lemma Reassociate(h: seq<Student>, a: seq<Student>, b: seq<Student>)
    ensures (h + a) + b == h + (a + b)
  {
  }

  lemma MergeTakesLeft(left: seq<Student>, right: seq<Student>)
    requires left != [] && right != [] && left[0].grade >= right[0].grade
    ensures Merge(left, right) == [left[0]] + Merge(left[1..], right)
  {
  }

  lemma MergeTakesRight(left: seq<Student>, right: seq<Student>)
    requires left != [] && right != [] && left[0].grade < right[0].grade
    ensures Merge(left, right) == [right[0]] + Merge(left, right[1..])
  {
  }

  lemma MergeStableLeftStep(left: seq<Student>, right: seq<Student>, g: real)
    requires left != [] && right != [] && left[0].grade >= right[0].grade
    requires WithGrade(Merge(left[1..], right), g) == WithGrade(left[1..], g) + WithGrade(right, g)
    ensures WithGrade(Merge(left, right), g) == WithGrade(left, g) + WithGrade(right, g)
  {
    var h := if left[0].grade == g then [left[0]] else [];
    MergeTakesLeft(left, right);
    WithGradeCons(left[0], Merge(left[1..], right), g);
    WithGradeUnfold(left, g);
    Reassociate(h, WithGrade(left[1..], g), WithGrade(right, g));
  }

  lemma MergeStableRightStep(left: seq<Student>, right: seq<Student>, g: real)
    requires left != [] && right != [] && left[0].grade < right[0].grade
    requires right[0].grade == g ==> WithGrade(left, g) == []
    requires WithGrade(Merge(left, right[1..]), g) == WithGrade(left, g) + WithGrade(right[1..], g)
    ensures WithGrade(Merge(left, right), g) == WithGrade(left, g) + WithGrade(right, g)
  {
    var h := if right[0].grade == g then [right[0]] else [];
    var a, b := WithGrade(left, g), WithGrade(right[1..], g);
    MergeTakesRight(left, right);
    WithGradeCons(right[0], Merge(left, right[1..]), g);
    assert WithGrade(right, g) == h + b;
    assert WithGrade(Merge(left, right), g) == h + (a + b);
    if h != [] {
      assert a == [];
      assert h + (a + b) == a + (h + b);
    } else {
      assert h + (a + b) == a + (h + b);
    }
  }

  /** Stability of `merge`: for two descending runs, the students of each
      grade come out as those of the left run followed by those of the right
      run. */
  lemma {:induction false} MergeStable(left: seq<Student>, right: seq<Student>, g: real)
    requires Descending(left) && Descending(right)
    ensures WithGrade(Merge(left, right), g) == WithGrade(left, g) + WithGrade(right, g)
    decreases |left| + |right|
  {
    if left == [] {
      assert Merge(left, right) == right;
    } else if right == [] {
      assert Merge(left, right) == left;
    } else if left[0].grade >= right[0].grade {
      DescendingTail(left);
      MergeStable(left[1..], right, g);
      MergeStableLeftStep(left, right, g);
    } else {
      DescendingTail(right);
      MergeStable(left, right[1..], g);
      if right[0].grade == g {
        DescendingTail(left);
        WithGradeNone(left, g);
      }
      MergeStableRightStep(left, right, g);
    }
  }

  lemma MergeKeepsGradeOrder(left: seq<Student>, right: seq<Student>)
    requires Descending(left) && Descending(right)
    ensures SameGradeOrder(Merge(left, right), left + right)
  {
    forall g | true
      ensures WithGrade(Merge(left, right), g) == WithGrade(left + right, g)
    {
      MergeStable(left, right, g);
      WithGradeAppend(left, right, g);
    }
  }

  // ---------------------------------------------------------------------
  // Merge sort

  /** `merge_sort` sorts by descending grade, is stable, and returns a
      permutation of its input. */
  lemma {:induction false} MergeSortCorrect(s: seq<Student>)
    ensures Descending(MergeSort(s))
    ensures SameGradeOrder(MergeSort(s), s)
    ensures multiset(MergeSort(s)) == multiset(s)
    decreases |s|
  {
    if |s| > 1 {
      var m := |s| / 2;
      MergeSortCorrect(s[..m]);
      MergeSortCorrect(s[m..]);
      var l, r := MergeSort(s[..m]), MergeSort(s[m..]);
      MergeDescending(l, r);
      MergeKeepsGradeOrder(l, r);
      SameGradeOrderAppend(l, r, s[..m], s[m..]);
      assert s[..m] + s[m..] == s;
      forall g | true
        ensures WithGrade(MergeSort(s), g) == WithGrade(s, g)
      {
        assert WithGrade(MergeSort(s), g) == WithGrade(l + r, g);
      }
    }
    SameGradeOrderIsPermutation(MergeSort(s), s);
  }

  /** A range of size at most one is left alone. */
  lemma MergeSortShort(s: seq<Student>)
    requires |s| <= 1
    ensures MergeSort(s) == s
  {
  }

  // ---------------------------------------------------------------------
  // Uniqueness and the reference sort

  lemma WithGradeHead(s: seq<Student>)
    requires Descending(s) && s != []
    ensures WithGrade(s, s[0].grade) != [] && WithGrade(s, s[0].grade)[0] == s[0]
  {
  }

  lemma WithGradeTail(s: seq<Student>, g: real)
    requires s != []
    ensures WithGrade(s[1..], g) == if s[0].grade == g then WithGrade(s, g)[1..] else WithGrade(s, g)
  {
  }

  /** A grade that occurs in a descending list is at most its first grade. */
  lemma WithGradeBound(s: seq<Student>, g: real)
    requires Descending(s) && WithGrade(s, g) != []
    ensures s != [] && g <= s[0].grade
  {
    if g > s[0].grade {
      DescendingTail(s);
      WithGradeNone(s, g);
    }
  }

  lemma SameGradeOrderNonEmpty(x: seq<Student>, y: seq<Student>)
    requires Descending(x) && SameGradeOrder(x, y) && x != []
    ensures y != []
  {
    WithGradeHead(x);
    assert WithGrade(y, x[0].grade) != [];
  }

  lemma SameGradeOrderHeads(x: seq<Student>, y: seq<Student>)
    requires Descending(x) && Descending(y) && x != [] && y != []
    requires SameGradeOrder(x, y)
    ensures x[0] == y[0]
  {
    var gx, gy := x[0].grade, y[0].grade;
    WithGradeHead(x);
    WithGradeHead(y);
    assert WithGrade(y, gx) == WithGrade(x, gx);
    assert WithGrade(x, gy) == WithGrade(y, gy);
    WithGradeBound(y, gx);
    WithGradeBound(x, gy);
    assert gx == gy;
  }

  lemma SameGradeOrderTails(x: seq<Student>, y: seq<Student>)
    requires x != [] && y != [] && x[0] == y[0]
    requires SameGradeOrder(x, y)
    ensures SameGradeOrder(x[1..], y[1..])
  {
    forall g | true
      ensures WithGrade(x[1..], g) == WithGrade(y[1..], g)
    {
      WithGradeTail(x, g);
      WithGradeTail(y, g);
      assert WithGrade(x, g) == WithGrade(y, g);
    }
  }

  lemma ConsEqual(x: seq<Student>, y: seq<Student>)
    requires x != [] && y != [] && x[0] == y[0] && x[1..] == y[1..]
    ensures x == y
  {
    assert |x| == |y|;
    forall k | 0 <= k < |x|
      ensures x[k] == y[k]
    {
      if k > 0 {
        assert x[k] == x[1..][k - 1];
        assert y[k] == y[1..][k - 1];
      }
    }
  }

  /** There is only one stable descending order: two descending lists with
      the same grade classes are equal. */
  lemma {:induction false} DescendingUnique(x: seq<Student>, y: seq<Student>)
    requires Descending(x) && Descending(y)
    requires SameGradeOrder(x, y)
    ensures x == y
    decreases |x|
  {
    if x != [] {
      SameGradeOrderNonEmpty(x, y);
    }
    if y != [] {
      SameGradeOrderNonEmpty(y, x);
    }
    if x != [] {
      SameGradeOrderHeads(x, y);
      SameGradeOrderTails(x, y);
      DescendingTail(x);
      DescendingTail(y);
      DescendingUnique(x[1..], y[1..]);
      ConsEqual(x, y);
    }
  }

  lemma MultisetCons(s: seq<Student>)
    requires s != []
    ensures multiset(s) == multiset{s[0]} + multiset(s[1..])
  {
    assert s == [s[0]] + s[1..];
  }

  lemma InsertTakesHead(x: Student, s: seq<Student>)
    requires s != [] && s[0].grade >= x.grade
    ensures Insert(x, s) == [s[0]] + Insert(x, s[1..])
  {
  }

  lemma InsertStops(x: Student, s: seq<Student>)
    requires s != [] && s[0].grade < x.grade
    ensures Insert(x, s) == [x] + s
  {
  }

  lemma {:induction false} InsertPermutation(x: Student, s: seq<Student>)
    ensures multiset(Insert(x, s)) == multiset(s) + multiset{x}
  {
    if s != [] && s[0].grade >= x.grade {
      InsertPermutation(x, s[1..]);
      InsertTakesHead(x, s);
      MultisetCons(s);
    }
  }

  lemma {:induction false} InsertDescending(x: Student, s: seq<Student>)
    requires Descending(s)
    ensures Descending(Insert(x, s))
  {
    if s == [] {
    } else if s[0].grade >= x.grade {
      DescendingTail(s);
      InsertDescending(x, s[1..]);
      InsertPermutation(x, s[1..]);
      InsertTakesHead(x, s);
      var rest := Insert(x, s[1..]);
      assert multiset(s[1..] + [x]) == multiset(s[1..]) + multiset{x};
      forall k | 0 <= k < |s[1..] + [x]|
        ensures (s[1..] + [x])[k].grade <= s[0].grade
      {
        if k < |s| - 1 {
          assert (s[1..] + [x])[k] == s[k + 1];
        }
      }
      BoundedByMultiset(rest, s[1..] + [x], s[0].grade);
      DescendingCons(s[0], rest);
    } else {
      InsertStops(x, s);
      DescendingTail(s);
      DescendingCons(x, s);
    }
  }

  lemma {:induction false} InsertStable(x: Student, s: seq<Student>, g: real)
    requires Descending(s)
    ensures WithGrade(Insert(x, s), g) == WithGrade(s, g) + WithGrade([x], g)
  {
    WithGradeCons(x, [], g);
    assert [x] + [] == [x];
    var hx := if x.grade == g then [x] else [];
    if s == [] {
    } else if s[0].grade >= x.grade {
      DescendingTail(s);
      InsertStable(x, s[1..], g);
      InsertTakesHead(x, s);
      WithGradeCons(s[0], Insert(x, s[1..]), g);
      WithGradeUnfold(s, g);
      Reassociate(if s[0].grade == g then [s[0]] else [], WithGrade(s[1..], g), hx);
    } else {
      InsertStops(x, s);
      WithGradeCons(x, s, g);
      if x.grade == g {
        DescendingTail(s);
        WithGradeNone(s, g);
      }
    }
  }

  lemma {:induction false} InsertionSortCorrect(s: seq<Student>)
    ensures Descending(InsertionSort(s))
    ensures SameGradeOrder(InsertionSort(s), s)
    decreases |s|
  {
    if s != [] {
      var init, last := s[..|s| - 1], s[|s| - 1];
      InsertionSortCorrect(init);
      InsertDescending(last, InsertionSort(init));
      assert s == init + [last];
      forall g | true
        ensures WithGrade(InsertionSort(s), g) == WithGrade(s, g)
      {
        WithGradeAppend(init, [last], g);
        InsertStable(last, InsertionSort(init), g);
        assert WithGrade(InsertionSort(init), g) == WithGrade(init, g);
      }
    }
  }

  /** Any descending list with the grade classes of s is the reference sort
      of s. */
  lemma IsTheStableSort(r: seq<Student>, s: seq<Student>)
    requires Descending(r) && SameGradeOrder(r, s)
    ensures r == InsertionSort(s)
  {
    InsertionSortCorrect(s);
    forall g | true
      ensures WithGrade(r, g) == WithGrade(InsertionSort(s), g)
    {
      assert WithGrade(r, g) == WithGrade(s, g);
      assert WithGrade(InsertionSort(s), g) == WithGrade(s, g);
    }
    DescendingUnique(r, InsertionSort(s));
  }

  /** `merge_sort` agrees with the reference sort on every input. */
  lemma MergeSortIsInsertionSort(s: seq<Student>)
    ensures MergeSort(s) == InsertionSort(s)
  {
    MergeSortCorrect(s);
    IsTheStableSort(MergeSort(s), s);
  }
}
