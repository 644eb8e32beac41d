/** The TA office-hours simulation over the Student and TA objects: the
    globals of the program are the fields of one OfficeHours object, and each
    critical section is one method whose effect on the state is the matching
    step of OfficeSpec. */
module Office {
  import opened Helper
  import opened OfficeSpec

  function RecordOf(st: Student): StudentRecord
    reads st
  {
    StudentRecord(st.statement, st.id, st.questionTime, st.arrivalTime,
                  st.waitTime, st.turnaroundTime, st.helped)
  }

  function RecordsOf(ss: seq<Student>): (rs: seq<StudentRecord>)
    reads ss
    ensures |rs| == |ss|
    ensures forall k :: 0 <= k < |ss| ==> rs[k] == RecordOf(ss[k])
  {
    seq(|ss|, k requires 0 <= k < |ss| reads ss => RecordOf(ss[k]))
  }

  predicate DistinctObjects(ss: seq<Student>) {
    forall i, j :: 0 <= i < j < |ss| ==> ss[i] != ss[j]
  }

  /** The state after student `s` sat down at the back of the hallway. */
  function SeatedAtBack(w: World, s: int, wakesTa: bool): World
    requires 0 <= s < |w.students|
  {
    var st := w.students[s];
    w.(hall := w.hall + [st.id],
       students := w.students[s := st.(statement := SeekingHelp)],
       wakeSignals := if wakesTa then w.wakeSignals + 1 else w.wakeSignals)
  }

  class OfficeHours {
    const totalMinutes: int
    const chairs: int
    const ta: TA
    const students: seq<Student>
    var currentTime: int
    var simulationRunning: bool
    var chairsQueue: seq<int>
    var officeChair: seq<int>
    var totalTaNapTime: int
    var napStartTime: int
    var helpStartTime: int
    /** The count of the semaphore the sleeping TA waits on. */
    var wakeSignals: nat
    /** The TA thread has not returned. */
    var taAlive: bool
    /** The TA waited for this minute's broadcast and has not taken its turn. */
    var taWaiting: bool
    /** The students that took their turn in this minute. */
    var stepped: set<int>

    function State(): World
      reads this, ta, students
    {
      World(currentTime, totalMinutes, simulationRunning, chairs, chairsQueue, officeChair,
            ta.statement, helpStartTime, napStartTime, totalTaNapTime, wakeSignals,
            taAlive, taWaiting, stepped, RecordsOf(students))
    }

    ghost predicate Valid()
      reads this, ta, students
    {
      DistinctObjects(students) && Inv(State())
    }

    /**
     * The set-up: one student per draw, numbered from 0, and an available
     * TA; the question and arrival times are the set-up's random draws.
     */
    constructor (numChairs: int, minutes: int, qTimes: seq<int>, aTimes: seq<int>)
      requires |qTimes| == |aTimes|
      requires forall k :: 0 <= k < |qTimes| ==> InRandomRange(qTimes[k], 1, 5)
      requires forall k :: 0 <= k < |aTimes| ==> InRandomRange(aTimes[k], 0, minutes)
      ensures Valid()
      ensures State() == Initial(numChairs, minutes, qTimes, aTimes)
    {
      var created: seq<Student> := [];
      for i := 0 to |qTimes|
        invariant |created| == i
        invariant DistinctObjects(created)
        invariant forall k :: 0 <= k < i ==> RecordOf(created[k]) == NewStudent(k, qTimes[k], aTimes[k])
      {
        var st := new Student(i, Coding, qTimes[i], aTimes[i]);
        created := created + [st];
      }
      totalMinutes := minutes;
      chairs := numChairs;
      ta := new TA(Available);
      students := created;
      currentTime := 0;
      simulationRunning := true;
      chairsQueue := [];
      officeChair := [];
      totalTaNapTime := 0;
      napStartTime := NoTime;
      helpStartTime := NoTime;
      wakeSignals := 0;
      taAlive := true;
      taWaiting := false;
      stepped := {};
      new;
      assert RecordsOf(students) == Initial(numChairs, minutes, qTimes, aTimes).students;
    }

    /**
     * Student `s` reacts to the current minute.  `retry` is the random
     * minute drawn when the hallway is full and a later minute exists.
     */
    method StudentStep(s: int, retry: int) returns (continues: bool, wakesTa: bool)
      requires Valid() && StudentMayStep(State(), s) && RetryInRange(State(), retry)
      modifies this, students[s]
      ensures Valid()
      ensures StudentTurn(old(State()), s, retry) == StudentOutcome(State(), continues, wakesTa)
    {
      StudentTurnKeepsInv(State(), s, retry);
      continues, wakesTa := StudentReacts(s, retry);
    }

    /** The body of `StudentStep`, over the fields. */
    method StudentReacts(s: int, retry: int) returns (continues: bool, wakesTa: bool)
      requires DistinctObjects(students) && StudentMayStep(State(), s)
      modifies this, students[s]
      ensures StudentTurn(old(State()), s, retry) == StudentOutcome(State(), continues, wakesTa)
    {
      stepped := stepped + {s};
      var stu := students[s];
      if stu.GetArrivalTime() != currentTime {
        return true, false;
      }
      if |chairsQueue| < chairs {
        wakesTa := TakeSeat(s);
        continues := true;
      } else {
        var newTime := if currentTime + 1 > totalMinutes then totalMinutes + 1 else retry;
        Reschedule(s, newTime);
        continues, wakesTa := newTime <= totalMinutes, false;
      }
    }

    /** Student `s` sits down at the back of the hallway and wakes a sleeping TA. */
    method TakeSeat(s: int) returns (wakesTa: bool)
      requires DistinctObjects(students) && 0 <= s < |students|
      modifies this, students[s]
      ensures wakesTa == (old(ta.statement) == Sleeping)
      ensures State() == SeatedAtBack(old(State()), s, wakesTa)
    {
      var stu := students[s];
      chairsQueue := chairsQueue + [stu.GetId()];
      stu.SetStatement(SeekingHelp);
      wakesTa := false;
      if ta.GetStatement() == Sleeping {
        wakeSignals := wakeSignals + 1;
        wakesTa := true;
      }
    }

    /** Student `s` finds the hallway full and will come back at `newTime`. */
    method Reschedule(s: int, newTime: int)
      requires DistinctObjects(students) && 0 <= s < |students|
      modifies students[s]
      ensures var w := old(State());
        State() == w.(students := w.students[s := w.students[s].(arrivalTime := newTime)])
    {
      students[s].SetArrivalTime(newTime);
    }

    /** The hallway head moves into the office at minute `t` (a TA helper). */
    method MoveHeadToOffice(t: int)
      requires DistinctObjects(students) && chairsQueue != []
      requires 0 <= chairsQueue[0] < |students|
      modifies this, students[chairsQueue[0]]
      ensures State() == TakeNext(old(State()), t)
    {
      var sid := chairsQueue[0];
      chairsQueue := chairsQueue[1..];
      officeChair := officeChair + [sid];
      var arrive := students[sid].GetArrivalTime();
      students[sid].SetWaitTime(t - arrive);
      helpStartTime := t;
    }

    /** The student in the office leaves, helped (a TA helper). */
    method FinishOccupant()
      requires DistinctObjects(students) && Seating(State()) && officeChair != []
      modifies this, students[officeChair[0]]
      ensures State() == Finish(old(State()))
    {
      var sid := officeChair[0];
      officeChair := officeChair[1..];
      students[sid].SetHelped(true);
      var arrive := students[sid].GetArrivalTime();
      students[sid].SetTurnaroundTime(currentTime - arrive);
      helpStartTime := NoTime;
    }

    /** The TA reacts to the current minute. */
    method TaStep()
      requires Valid() && TaMayTick(State())
      modifies this, ta, students
      ensures Valid()
      ensures State() == TaTick(old(State()))
    {
      TaTickCases(State());
      TaTickKeepsInv(State());
      taWaiting := false;
      if ta.GetStatement() == Available {
        if officeChair == [] {
          if chairsQueue == [] {
            ta.SetStatement(Sleeping);
            napStartTime := currentTime;
          } else {
            MoveHeadToOffice(currentTime);
          }
        } else {
          var sid := officeChair[0];
          var qtime := students[sid].GetQuestionTime();
          if helpStartTime != NoTime && currentTime - helpStartTime >= qtime {
            FinishOccupant();
            if chairsQueue != [] {
              MoveHeadToOffice(currentTime);
            }
          }
        }
      }
    }

    /** The sleeping TA takes one wake signal; `continues` is false once it returns. */
    method TaWakeStep() returns (continues: bool)
      requires Valid() && TaMayWake(State())
      modifies this, ta, students
      ensures Valid()
      ensures TaWake(old(State())) == TaOutcome(State(), continues)
    {
      TaWakeKeepsInv(State());
      continues := TaWakesUp();
    }

    /** The body of `TaWakeStep`, over the fields. */
    method TaWakesUp() returns (continues: bool)
      requires DistinctObjects(students) && Seating(State()) && TaMayWake(State())
      modifies this, ta, students
      ensures TaWake(old(State())) == TaOutcome(State(), continues)
    {
      wakeSignals := wakeSignals - 1;
      var running2 := simulationRunning;
      var wakeT := currentTime;
      totalTaNapTime := totalTaNapTime + (wakeT - napStartTime);
      if !running2 {
        taAlive := false;
        return false;
      }
      ta.SetStatement(Available);
      if chairsQueue != [] {
        MoveHeadToOffice(wakeT);
      }
      return true;
    }

    /** The clock advances by one minute and wakes every thread waiting for it. */
    method ClockTick()
      requires Valid() && MayBeginTick(State())
      modifies this
      ensures Valid()
      ensures State() == BeginTick(old(State()))
    {
      BeginTickEffect(State());
      currentTime := currentTime + 1;
      stepped := {};
      taWaiting := taAlive && ta.GetStatement() == Available;
    }

    /** The end of the run: the clock stops and the TA's semaphore is posted. */
    method StopSimulation()
      requires Valid()
      modifies this
      ensures Valid()
      ensures State() == Shutdown(old(State()))
    {
      ShutdownEffect(State());
      simulationRunning := false;
      taWaiting := false;
      wakeSignals := wakeSignals + 1;
    }

    /** One thread's turn, if that thread can take it now. */
    method TakeTurn(t: Turn)
      requires Valid()
      modifies this, ta, students
      ensures Valid()
      ensures State() == RunTurns(old(State()), [t])
    {
      if Enabled(State(), t) {
        match t
        case StudentGo(s, retry) =>
          var _, _ := StudentStep(s, retry);
        case TaGo =>
          TaStep();
        case TaWakes =>
          var _ := TaWakeStep();
      }
    }

    /** The turns taken in one minute, in the given order. */
    method RunMinute(turns: seq<Turn>)
      requires Valid()
      modifies this, ta, students
      ensures Valid()
      ensures State() == RunTurns(old(State()), turns)
    {
      ghost var w0 := State();
      for i := 0 to |turns|
        invariant Valid()
        invariant RunTurns(State(), turns[i..]) == RunTurns(w0, turns)
      {
        TakeTurn(turns[i]);
        assert turns[i..][0] == turns[i] && turns[i..][1..] == turns[i + 1..];
      }
      assert turns[|turns|..] == [];
    }

    /** One minute of the run: the clock tick, then the minute's turns. */
    method PlayMinute(turns: seq<Turn>)
      requires Valid() && MayBeginTick(State())
      modifies this, ta, students
      ensures Valid() && simulationRunning && currentTime == old(currentTime) + 1
      ensures State() == RunTurns(BeginTick(old(State())), turns)
    {
      ClockTick();
      RunTurnsKeepsInv(State(), turns);
      RunMinute(turns);
    }

    /**
     * The whole run: the clock takes the minutes 1 to the last one, the
     * turns of each minute follow its schedule, then the clock stops and a
     * sleeping TA takes the final signal.
     */
    method Simulate(schedule: seq<seq<Turn>>)
      requires Valid() && State().running && currentTime == 0
      requires |schedule| == totalMinutes
      modifies this, ta, students
      ensures Valid()
      ensures State() == Simulation(old(State()), schedule)
      ensures currentTime == totalMinutes && !simulationRunning
    {
      ghost var w0 := State();
      for tick := 0 to totalMinutes
        invariant Valid() && currentTime == tick && simulationRunning
        invariant RunTicks(State(), schedule[tick..]) == RunTicks(w0, schedule)
      {
        PlayMinute(schedule[tick]);
        assert schedule[tick..][0] == schedule[tick] && schedule[tick..][1..] == schedule[tick + 1..];
      }
      assert schedule[totalMinutes..] == [];
      StopSimulation();
      if Seating(State()) && TaMayWake(State()) {
        var _ := TaWakeStep();
      }
    }

    /** The end-of-run summary, accumulated over the students in order. */
    method Summary() returns (report: Report)
      requires Valid()
      ensures report == ReportOf(State())
    {
      var rs := RecordsOf(students);
      var totalHelped, totalWait, totalTurn, totalQtime := 0, 0, 0, 0;
      for i := 0 to |students|
        invariant totalHelped == HelpedCount(rs[..i])
        invariant totalWait == HelpedSum(rs[..i], WaitOf)
        invariant totalTurn == HelpedSum(rs[..i], TurnaroundOf)
        invariant totalQtime == HelpedSum(rs[..i], QuestionOf)
      {
        assert rs[..i + 1][..i] == rs[..i];
        var s := students[i];
        if s.WasHelped() {
          totalHelped := totalHelped + 1;
          totalWait := totalWait + s.GetWaitTime();
          totalTurn := totalTurn + s.GetTurnaroundTime();
          totalQtime := totalQtime + s.GetQuestionTime();
        }
      }
      assert rs[..|students|] == rs;
      var averages := NoAverages;
      if totalHelped != 0 {
        averages := Averages(TruncDiv(totalQtime, totalHelped),
                             TruncDiv(totalWait, totalHelped),
                             TruncDiv(totalTurn, totalHelped));
      }
      report := Report(|students|, totalHelped, |students| - totalHelped, averages, totalTaNapTime);
    }
  }
}
