/** The records of the TA office-hours simulation: the teaching assistant and
    the students, with their getters and setters. The random number source is
    not modelled; where the source draws a random time, the drawn value is a
    parameter whose only known property is its inclusive range. */
module Helper {

  /** TA states as the simulation uses them. */
  const Sleeping := 0
  const Available := 1

  /** Student states. */
  const Coding := 1
  const SeekingHelp := 2

  /** The property of a value drawn uniformly from `low..high`, both inclusive. */
  predicate InRandomRange(r: int, low: int, high: int) {
    low <= r <= high
  }

  class TA {
    var statement: int

    /** The constructor stores the initial state; by default the TA is available. */
    constructor (initialState: int := Available)
      ensures statement == initialState
    {
      statement := initialState;
    }

    function GetStatement(): int
      reads this
    {
      statement
    }

    method SetStatement(s: int)
      modifies this
      ensures GetStatement() == s
    {
      statement := s;
    }
  }

  class Student {
    var statement: int
    /** The identifier and the question length have no setters. */
    const id: int
    const questionTime: int
    var arrivalTime: int
    var waitTime: int
    var turnaroundTime: int
    var helped: bool

    /** Stores the four given values; the times start at 0, not yet helped. */
    constructor (id_: int, statement_: int, qTime: int, aTime: int)
      ensures id == id_ && statement == statement_
      ensures questionTime == qTime && arrivalTime == aTime
      ensures waitTime == 0 && turnaroundTime == 0 && !helped
    {
      id := id_;
      statement := statement_;
      questionTime := qTime;
      arrivalTime := aTime;
      waitTime := 0;
      turnaroundTime := 0;
      helped := false;
    }

    /** Reschedules the arrival to `randomTime`, drawn from `nowTime..endTime`. */
    method ChangeArrivalTime(nowTime: int, endTime: int, randomTime: int)
      requires InRandomRange(randomTime, nowTime, endTime)
      modifies this
      ensures nowTime <= GetArrivalTime() <= endTime
      ensures GetArrivalTime() == randomTime
      ensures statement == old(statement) && waitTime == old(waitTime)
      ensures turnaroundTime == old(turnaroundTime) && helped == old(helped)
    {
      arrivalTime := randomTime;
    }

    method SetArrivalTime(n: int)
      modifies this
      ensures GetArrivalTime() == n
      ensures statement == old(statement) && waitTime == old(waitTime)
      ensures turnaroundTime == old(turnaroundTime) && helped == old(helped)
    {
      arrivalTime := n;
    }

    function GetStatement(): int
      reads this
    {
      statement
    }

    function GetId(): int {
      id
    }

    function GetQuestionTime(): int {
      questionTime
    }

    function GetArrivalTime(): int
      reads this
    {
      arrivalTime
    }

    method SetStatement(s: int)
      modifies this
      ensures GetStatement() == s
      ensures arrivalTime == old(arrivalTime) && waitTime == old(waitTime)
      ensures turnaroundTime == old(turnaroundTime) && helped == old(helped)
    {
      statement := s;
    }

    method SetWaitTime(w: int)
      modifies this
      ensures GetWaitTime() == w
      ensures statement == old(statement) && arrivalTime == old(arrivalTime)
      ensures turnaroundTime == old(turnaroundTime) && helped == old(helped)
    {
      waitTime := w;
    }

    function GetWaitTime(): int
      reads this
    {
      waitTime
    }

    method SetTurnaroundTime(t: int)
      modifies this
      ensures GetTurnaroundTime() == t
      ensures statement == old(statement) && arrivalTime == old(arrivalTime)
      ensures waitTime == old(waitTime) && helped == old(helped)
    {
      turnaroundTime := t;
    }

    function GetTurnaroundTime(): int
      reads this
    {
      turnaroundTime
    }

    method SetHelped(h: bool)
      modifies this
      ensures WasHelped() == h
      ensures statement == old(statement) && arrivalTime == old(arrivalTime)
      ensures waitTime == old(waitTime) && turnaroundTime == old(turnaroundTime)
    {
      helped := h;
    }

    function WasHelped(): bool
      reads this
    {
      helped
    }
  }
}
