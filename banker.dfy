/** The resource manager of project_3/main.cpp over its global tables: the
    safety check, requests with tentative allocation and rollback, and
    releases. The command line is read as in module Commands. */
module Banker {
  import opened BankerSpec

  /** The rows of a two-dimensional table. */
  function Rows(m: array2<int>): (r: seq<seq<int>>)
    reads m
    ensures |r| == m.Length0
    ensures forall i :: 0 <= i < m.Length0 ==> |r[i]| == m.Length1
    ensures forall i, j :: 0 <= i < m.Length0 && 0 <= j < m.Length1 ==> r[i][j] == m[i, j]
  {
    seq(m.Length0, i requires 0 <= i < m.Length0 reads m =>
      seq(m.Length1, j requires 0 <= j < m.Length1 reads m => m[i, j]))
  }

  /** Two tables of the same shape with the same entries are equal. */
  lemma SameEntries(r: seq<seq<int>>, t: seq<seq<int>>)
    requires IsMatrix(r) && IsMatrix(t)
    requires forall i, j :: 0 <= i < Customers && 0 <= j < Resources ==> r[i][j] == t[i][j]
    ensures r == t
  {
    forall i | 0 <= i < Customers
      ensures r[i] == t[i]
    {
      assert forall j :: 0 <= j < Resources ==> r[i][j] == t[i][j];
    }
  }

  class ResourceManager {
    const available: array<int>
    const maximum: array2<int>
    const allocation: array2<int>
    const need: array2<int>

    ghost predicate Valid()
    {
      && available.Length == Resources
      && maximum.Length0 == Customers && maximum.Length1 == Resources
      && allocation.Length0 == Customers && allocation.Length1 == Resources
      && need.Length0 == Customers && need.Length1 == Resources
      && maximum != allocation && maximum != need && allocation != need
    }

    /** The four tables as values. */
    function State(): (b: Bank)
      requires Valid()
      reads available, maximum, allocation, need
      ensures WellFormed(b)
    {
      Bank(available[..], Rows(maximum), Rows(allocation), Rows(need))
    }

    /** The tables after start-up: `available` from the command line,
        `maximum` and `allocation` from the two CSV files, and `need` still
        zero as declared at line 22. */
    constructor (initialAvailable: seq<int>, maximumTable: seq<seq<int>>, allocationTable: seq<seq<int>>)
      requires IsVector(initialAvailable) && IsMatrix(maximumTable) && IsMatrix(allocationTable)
      ensures Valid()
      ensures State() == Bank(initialAvailable, maximumTable, allocationTable, Zero())
      ensures (forall i, j :: 0 <= i < Customers && 0 <= j < Resources ==> allocationTable[i][j] >= 0) ==>
                AllocationNonNegative(State())
    {
      available := new int[Resources](j requires 0 <= j < Resources => initialAvailable[j]);
      maximum := new int[Customers, Resources]((i, j) requires 0 <= i < Customers && 0 <= j < Resources => maximumTable[i][j]);
      allocation := new int[Customers, Resources]((i, j) requires 0 <= i < Customers && 0 <= j < Resources => allocationTable[i][j]);
      need := new int[Customers, Resources]((i, j) => 0);
      new;
      SameEntries(Rows(maximum), maximumTable);
      SameEntries(Rows(allocation), allocationTable);
      SameEntries(Rows(need), Zero());
    }

    /** Lines 377-381: need := maximum - allocation. */
    method InitializeNeed()
      requires Valid()
      modifies need
      ensures State().available == old(State()).available
      ensures State().maximum == old(State()).maximum
      ensures State().allocation == old(State()).allocation
      ensures NeedConsistent(State())
    {
      for i := 0 to Customers
        invariant forall r, k :: 0 <= r < i && 0 <= k < Resources ==> need[r, k] == maximum[r, k] - allocation[r, k]
      {
        for j := 0 to Resources
          invariant forall r, k :: 0 <= r < i && 0 <= k < Resources ==> need[r, k] == maximum[r, k] - allocation[r, k]
          invariant forall k :: 0 <= k < j ==> need[i, k] == maximum[i, k] - allocation[i, k]
        {
          need[i, j] := maximum[i, j] - allocation[i, j];
        }
      }
    }

    /** Lines 221-226: need[i] <= work in every resource. */
    method CanRun(i: int, work: array<int>) returns (canRun: bool)
      requires Valid() && 0 <= i < Customers && work.Length == Resources
      ensures canRun <==> forall j :: 0 <= j < Resources ==> need[i, j] <= work[j]
    {
      canRun := true;
      for j := 0 to Resources
        invariant forall k :: 0 <= k < j ==> need[i, k] <= work[k]
      {
        if need[i, j] > work[j] {
          canRun := false;
          break;
        }
      }
    }

    /** Lines 231-233: customer i hands its allocation back to work. */
    method ReturnToWork(i: int, work: array<int>)
      requires Valid() && 0 <= i < Customers && work.Length == Resources && work != available
      modifies work
      ensures forall j :: 0 <= j < Resources ==> work[j] == old(work[j]) + allocation[i, j]
    {
      for j := 0 to Resources
        invariant forall k :: 0 <= k < Resources ==> work[k] == old(work[k]) + (if k < j then allocation[i, k] else 0)
      {
        work[j] := work[j] + allocation[i, j];
      }
    }

    /** Lines 198-278: the greedy safety check. Rounds scan the customers in
        order and let every unfinished one whose need fits into `work` finish;
        the search stops after a round in which nobody finished. Also returns
        the order in which the customers finished and, as a ghost, the number
        of rounds. */
    method SafetyCheck() returns (safe: bool, sequence: seq<int>, ghost rounds: nat)
      requires Valid()
      ensures safe ==> IsSafeSequence(State(), sequence)
      ensures AllocationNonNegative(State()) ==> (safe <==> Safe(State()))
      ensures rounds <= Customers + 1
    {
      ghost var b := State();
      var work := new int[Resources];
      for i := 0 to Resources
        invariant forall k :: 0 <= k < i ==> work[k] == available[k]
      {
        work[i] := available[i];
      }
      var finish := new bool[Customers](_ => false);
      var safeSequence := new int[Customers];
      var sequenceIndex := 0;
      StartSearch(b, work[..], finish[..]);
      var progressMade := true;
      rounds := 0;
      while progressMade
        invariant 0 <= sequenceIndex <= Customers
        invariant Searched(b, work[..], finish[..], safeSequence[..sequenceIndex])
        invariant !progressMade ==> Blocked(b, finish[..], safeSequence[..sequenceIndex], Customers)
        invariant rounds <= sequenceIndex + (if progressMade then 0 else 1)
        decreases 2 * (Customers - sequenceIndex) + (if progressMade then 1 else 0)
      {
        sequenceIndex, progressMade := SearchRound(b, work, finish, safeSequence, sequenceIndex);
        rounds := rounds + 1;
      }
      sequence := safeSequence[..sequenceIndex];
      var unfinished := FirstUnfinished(finish);
      if unfinished < Customers {
        if AllocationNonNegative(b) {
          SafeUnblocks(b, sequence, unfinished);
        }
        return false, sequence, rounds;
      }
      AllFinished(b, finish[..], sequence);
      return true, sequence, rounds;
    }

    /** Lines 213-246: one round of the search over all customers. */
    method SearchRound(ghost b: Bank, work: array<int>, finish: array<bool>, safeSequence: array<int>, startIndex: int)
      returns (sequenceIndex: int, progressMade: bool)
      requires Valid() && b == State()
      requires work.Length == Resources && finish.Length == Customers && safeSequence.Length == Customers
      requires work != available && work != safeSequence && safeSequence != available
      requires 0 <= startIndex <= Customers
      requires Searched(b, work[..], finish[..], safeSequence[..startIndex])
      modifies work, finish, safeSequence
      ensures startIndex <= sequenceIndex <= Customers
      ensures Searched(b, work[..], finish[..], safeSequence[..sequenceIndex])
      ensures progressMade <==> startIndex < sequenceIndex
      ensures !progressMade ==> Blocked(b, finish[..], safeSequence[..sequenceIndex], Customers)
    {
      progressMade := false;
      sequenceIndex := startIndex;
      for i := 0 to Customers
        invariant startIndex <= sequenceIndex <= Customers
        invariant Searched(b, work[..], finish[..], safeSequence[..sequenceIndex])
        invariant progressMade <==> startIndex < sequenceIndex
        invariant !progressMade ==> Blocked(b, finish[..], safeSequence[..sequenceIndex], i)
      {
        if !finish[i] {
          var canRun := CanRun(i, work);
          if canRun {
            sequenceIndex := RecordFinish(b, i, work, finish, safeSequence, sequenceIndex);
            progressMade := true;
          }
        }
      }
    }

    /** Lines 229-236: customer i finishes; its allocation goes back to work
        and it is appended to the safe sequence. */
    method RecordFinish(ghost b: Bank, i: int, work: array<int>, finish: array<bool>, safeSequence: array<int>, sequenceIndex: int)
      returns (nextIndex: int)
      requires Valid() && b == State() && 0 <= i < Customers
      requires work.Length == Resources && finish.Length == Customers && safeSequence.Length == Customers
      requires work != available && work != safeSequence && safeSequence != available
      requires 0 <= sequenceIndex <= Customers
      requires Searched(b, work[..], finish[..], safeSequence[..sequenceIndex])
      requires !finish[i] && forall j :: 0 <= j < Resources ==> need[i, j] <= work[j]
      modifies work, finish, safeSequence
      ensures nextIndex == sequenceIndex + 1 <= Customers
      ensures Searched(b, work[..], finish[..], safeSequence[..nextIndex])
      ensures safeSequence[..nextIndex] == old(safeSequence[..sequenceIndex]) + [i]
    {
      ghost var done := safeSequence[..sequenceIndex];
      ghost var w := work[..];
      ghost var f := finish[..];
      RoomFor(b, w, f, done, i);
      ReturnToWork(i, work);
      finish[i] := true;
      safeSequence[sequenceIndex] := i;
      nextIndex := sequenceIndex + 1;
      assert safeSequence[..nextIndex] == done + [i];
      FinishOne(b, w, f, finish[..], done, i, work[..]);
    }

    /** Lines 303-307: the tentative allocation. */
    method Allocate(customerNum: int, request: seq<int>)
      requires Valid() && 0 <= customerNum < Customers && IsVector(request)
      modifies available, allocation, need
      ensures State() == Grant(old(State()), customerNum, request)
    {
      for i := 0 to Resources
        invariant forall k :: 0 <= k < Resources ==> available[k] == old(available[k]) - (if k < i then request[k] else 0)
        invariant forall r, k :: 0 <= r < Customers && 0 <= k < Resources ==>
                    allocation[r, k] == old(allocation[r, k]) + (if r == customerNum && k < i then request[k] else 0)
        invariant forall r, k :: 0 <= r < Customers && 0 <= k < Resources ==>
                    need[r, k] == old(need[r, k]) - (if r == customerNum && k < i then request[k] else 0)
      {
        available[i] := available[i] - request[i];
        allocation[customerNum, i] := allocation[customerNum, i] + request[i];
        need[customerNum, i] := need[customerNum, i] - request[i];
      }
      ghost var g := Grant(old(State()), customerNum, request);
      assert available[..] == g.available;
      SameEntries(Rows(allocation), g.allocation);
      SameEntries(Rows(need), g.need);
    }

    /** Lines 316-320 (the rollback) and 341-345 (a release): the amounts go
        back from customer customerNum to `available`. */
    method Deallocate(customerNum: int, amounts: seq<int>)
      requires Valid() && 0 <= customerNum < Customers && IsVector(amounts)
      modifies available, allocation, need
      ensures State() == Release(old(State()), customerNum, amounts)
    {
      for i := 0 to Resources
        invariant forall k :: 0 <= k < Resources ==> available[k] == old(available[k]) + (if k < i then amounts[k] else 0)
        invariant forall r, k :: 0 <= r < Customers && 0 <= k < Resources ==>
                    allocation[r, k] == old(allocation[r, k]) - (if r == customerNum && k < i then amounts[k] else 0)
        invariant forall r, k :: 0 <= r < Customers && 0 <= k < Resources ==>
                    need[r, k] == old(need[r, k]) + (if r == customerNum && k < i then amounts[k] else 0)
      {
        allocation[customerNum, i] := allocation[customerNum, i] - amounts[i];
        available[i] := available[i] + amounts[i];
        need[customerNum, i] := need[customerNum, i] + amounts[i];
      }
      ghost var r := Release(old(State()), customerNum, amounts);
      assert available[..] == r.available;
      SameEntries(Rows(allocation), r.allocation);
      SameEntries(Rows(need), r.need);
    }

    /** Lines 284-324. A request that is negative, above the customer's need
        or above what is available is refused with -1 and no change. Otherwise
        it is granted tentatively and kept (0) when the safety check passes,
        rolled back (-1) when it does not. */
    method RequestResources(customerNum: int, request: seq<int>) returns (status: int)
      requires Valid() && 0 <= customerNum < Customers && IsVector(request)
      modifies available, allocation, need
      ensures status == 0 || status == -1
      ensures !Admissible(old(State()), customerNum, request) ==> status == -1
      ensures status == -1 ==> State() == old(State())
      ensures status == 0 ==> State() == Grant(old(State()), customerNum, request) && Safe(State())
      ensures Admissible(old(State()), customerNum, request) && AllocationNonNegative(old(State())) ==>
                (status == 0 <==> Safe(Grant(old(State()), customerNum, request)))
      ensures NeedConsistent(old(State())) ==> NeedConsistent(State())
      ensures forall j :: 0 <= j < Resources ==> Total(State(), j) == Total(old(State()), j)
    {
      ghost var b := State();
      for i := 0 to Resources
        invariant forall k :: 0 <= k < i ==> 0 <= request[k] <= need[customerNum, k]
      {
        if request[i] < 0 || request[i] > need[customerNum, i] {
          return -1;
        }
      }
      for i := 0 to Resources
        invariant forall k :: 0 <= k < i ==> request[k] <= available[k]
      {
        if request[i] > available[i] {
          return -1;
        }
      }
      assert Admissible(b, customerNum, request);
      Allocate(customerNum, request);
      GrantFacts(b, customerNum, request);
      var safe, _, _ := SafetyCheck();
      if safe {
        return 0;
      }
      Deallocate(customerNum, request);
      ReleaseUndoesGrant(b, customerNum, request);
      return -1;
    }

    /** Lines 330-348. A release of more than the customer holds of some
        resource changes nothing; any other release, negative amounts
        included, is carried out. */
    method ReleaseResources(customerNum: int, release: seq<int>)
      requires Valid() && 0 <= customerNum < Customers && IsVector(release)
      modifies available, allocation, need
      ensures Releasable(old(State()), customerNum, release) ==> State() == Release(old(State()), customerNum, release)
      ensures !Releasable(old(State()), customerNum, release) ==> State() == old(State())
      ensures NeedConsistent(old(State())) ==> NeedConsistent(State())
      ensures forall j :: 0 <= j < Resources ==> Total(State(), j) == Total(old(State()), j)
      ensures (forall j :: 0 <= j < Resources ==> release[j] >= 0) && Safe(old(State())) ==> Safe(State())
    {
      ghost var b := State();
      if forall j :: 0 <= j < Resources ==> release[j] >= 0 {
        ReleaseKeepsSafe(b, customerNum, release);
      }
      for i := 0 to Resources
        invariant forall k :: 0 <= k < i ==> release[k] <= allocation[customerNum, k]
      {
        if release[i] > allocation[customerNum, i] {
          return;
        }
      }
      Deallocate(customerNum, release);
      ReleaseFacts(b, customerNum, release);
    }
  }

  /** Lines 250-264: the first customer not marked finished, or Customers
      when all are. */
  method FirstUnfinished(finish: array<bool>) returns (i: int)
    requires finish.Length == Customers
    ensures 0 <= i <= Customers
    ensures i < Customers ==> !finish[i]
    ensures forall k :: 0 <= k < i ==> finish[k]
  {
    i := 0;
    while i < Customers
      invariant 0 <= i <= Customers
      invariant forall k :: 0 <= k < i ==> finish[k]
    {
      if !finish[i] {
        return;
      }
      i := i + 1;
    }
  }

  /** An all-zero table. */
  function Zero(): (m: seq<seq<int>>)
    ensures IsMatrix(m)
  {
    seq(Customers, i => seq(Resources, j => 0))
  }

  /** The bookkeeping of the safety search: `finish` marks the customers in
      done, `work` is what they leave behind, and each of them could finish
      when its turn came. */
  ghost predicate Searched(b: Bank, work: seq<int>, finish: seq<bool>, done: seq<int>)
    requires WellFormed(b)
  {
    && |work| == Resources && |finish| == Customers
    && IsCustomerList(done)
    && (forall c :: 0 <= c < Customers ==> (finish[c] <==> c in done))
    && (forall j :: 0 <= j < Resources ==> work[j] == Work(b, done, j))
    && (forall k :: 0 <= k < |done| ==> CanFinish(b, done[k], done[..k]))
  }

  /** No unfinished customer below n can finish after done. */
  ghost predicate Blocked(b: Bank, finish: seq<bool>, done: seq<int>, n: int)
    requires WellFormed(b) && |finish| == Customers && n <= Customers
  {
    forall c :: 0 <= c < n && !finish[c] ==> !CanFinish(b, c, done)
  }

  lemma StartSearch(b: Bank, work: seq<int>, finish: seq<bool>)
    requires WellFormed(b) && |finish| == Customers && |work| == Resources
    requires forall c :: 0 <= c < Customers ==> !finish[c]
    requires forall j :: 0 <= j < Resources ==> work[j] == b.available[j]
    ensures Searched(b, work, finish, [])
  {
    forall j | 0 <= j < Resources
      ensures work[j] == Work(b, [], j)
    {
      ColumnSumNone(b.allocation, j, Customers);
    }
  }

  lemma {:induction false} ColumnSumNone(m: seq<seq<int>>, j: int, n: nat)
    requires IsMatrix(m) && 0 <= j < Resources && n <= Customers
    ensures ColumnSum(m, j, [], n) == 0
  {
    if n > 0 {
      ColumnSumNone(m, j, n - 1);
    }
  }

  /** An unfinished customer still fits into the safe sequence array. */
  lemma RoomFor(b: Bank, work: seq<int>, finish: seq<bool>, done: seq<int>, i: int)
    requires WellFormed(b) && Searched(b, work, finish, done)
    requires 0 <= i < Customers && !finish[i]
    ensures |done| < Customers
  {
    CountOfList(done + [i]);
  }

  /** Customer i finishing keeps the bookkeeping. */
  lemma FinishOne(b: Bank, work: seq<int>, finish: seq<bool>, finish': seq<bool>, done: seq<int>, i: int, work': seq<int>)
    requires WellFormed(b) && Searched(b, work, finish, done)
    requires 0 <= i < Customers && !finish[i] && finish' == finish[i := true]
    requires forall j :: 0 <= j < Resources ==> b.need[i][j] <= work[j]
    requires |work'| == Resources && forall j :: 0 <= j < Resources ==> work'[j] == work[j] + b.allocation[i][j]
    ensures Searched(b, work', finish', done + [i])
  {
    var d := done + [i];
    forall j | 0 <= j < Resources
      ensures work'[j] == Work(b, d, j)
    {
      WorkAppend(b, done, i, j);
    }
    forall k | 0 <= k < |d|
      ensures CanFinish(b, d[k], d[..k])
    {
      if k < |done| {
        assert d[..k] == done[..k];
      } else {
        assert d[..k] == done;
      }
    }
  }

  /** When every customer finished, the order they finished in is a safe
      sequence. */
  lemma AllFinished(b: Bank, finish: seq<bool>, done: seq<int>)
    requires WellFormed(b) && |finish| == Customers
    requires IsCustomerList(done)
    requires forall c :: 0 <= c < Customers ==> (finish[c] <==> c in done)
    requires forall k :: 0 <= k < |done| ==> CanFinish(b, done[k], done[..k])
    requires forall c :: 0 <= c < Customers ==> finish[c]
    ensures IsSafeSequence(b, done)
  {
    CountOfList(done);
    CountAll(done, Customers);
  }

  lemma GrantFacts(b: Bank, c: int, req: seq<int>)
    requires WellFormed(b) && 0 <= c < Customers && IsVector(req) && Admissible(b, c, req)
    ensures NeedConsistent(b) ==> NeedConsistent(Grant(b, c, req))
    ensures AllocationNonNegative(b) ==> AllocationNonNegative(Grant(b, c, req))
    ensures forall j :: 0 <= j < Resources ==> Total(Grant(b, c, req), j) == Total(b, j)
  {
    if NeedConsistent(b) {
      GrantKeepsNeedConsistent(b, c, req);
    }
    if AllocationNonNegative(b) {
      UpdatesKeepAllocationNonNegative(b, c, req);
    }
    forall j | 0 <= j < Resources
      ensures Total(Grant(b, c, req), j) == Total(b, j)
    {
      UpdatesConserve(b, c, req, j);
    }
  }

  lemma ReleaseFacts(b: Bank, c: int, rel: seq<int>)
    requires WellFormed(b) && 0 <= c < Customers && IsVector(rel)
    ensures NeedConsistent(b) ==> NeedConsistent(Release(b, c, rel))
    ensures forall j :: 0 <= j < Resources ==> Total(Release(b, c, rel), j) == Total(b, j)
  {
    if NeedConsistent(b) {
      ReleaseKeepsNeedConsistent(b, c, rel);
    }
    forall j | 0 <= j < Resources
      ensures Total(Release(b, c, rel), j) == Total(b, j)
    {
      UpdatesConserve(b, c, rel, j);
    }
  }
}
