/**
 * The simulation clock: the start of the simulation (`time0_`, `month0_`,
 * `year0_`), the conversions between a month/year pair and a timestep, the
 * range checks `initialize` applies to the start date, and the delivery of
 * the clock's signals to the agents registered as listeners.
 */
module Timing {
  import opened Bytes

  /* ---- C++ integer division ---- */

  /**
   * C++ `a / b` for a positive divisor: the quotient truncated toward zero,
   * that is, the integer of the same sign as `a` whose multiple of `b` is
   * nearest `a` without passing it.
   */
  function CDiv(a: int, b: int): (q: int)
    requires b > 0
    ensures a >= 0 ==> 0 <= q && b * q <= a < b * q + b
    ensures a < 0 ==> q <= 0 && b * q - b < a <= b * q
  {
    if a >= 0 then a / b else -((-a) / b)
  }

  /** C++ `a % b` for a positive divisor: the remainder takes the sign of `a`. */
  function CMod(a: int, b: int): (r: int)
    requires b > 0
    ensures a == b * CDiv(a, b) + r
    ensures a >= 0 ==> 0 <= r < b
    ensures a < 0 ==> -b < r <= 0
  {
    a - b * CDiv(a, b)
  }

  /* ---- Listeners and their signals ---- */

  /** A registered agent (`TimeAgent*` or `MarketModel*`), by its ID and name. */
  datatype Agent = Agent(id: int, name: string)

  /**
   * What the timer asks of a listener: `handlePreHistory()`,
   * `handleTick(time)`, `handleTock(time)`, `resolve()` or
   * `handleDailyTasks(time, day)`.
   */
  datatype Signal = PreHistory | Tick(time: int) | Tock(time: int) | Resolve | DailyTasks(time: int, day: int)

  /**
   * How a listener's handler ends: it returns, it throws a `CycException`
   * (or one derived from it), or it throws anything else.
   */
  datatype Outcome = Returned | CycThrown(what: string) | OtherThrown(what: string)

  /**
   * One dispatch: the listeners called, in order; the messages of the
   * `CycException`s caught and logged; and the exception that escaped the
   * loop, if one did.
   */
  datatype Dispatch = Dispatch(visited: seq<Agent>, logged: seq<string>, escaped: Option<string>)

  /** The messages a dispatch logs: one per listener whose handler throws a `CycException`. */
  function Caught(listeners: seq<Agent>, sig: Signal, respond: (Agent, Signal) -> Outcome): (msgs: seq<string>)
    ensures |msgs| <= |listeners|
  {
    if listeners == [] then []
    else
      var rest := Caught(listeners[1..], sig, respond);
      match respond(listeners[0], sig)
      case CycThrown(w) => [w] + rest
      case _ => rest
  }

  /**
   * The loop of every `send*`: the listeners in registration order, each
   * called inside `try`; a `CycException` is caught and logged and the loop
   * goes on, any other exception leaves the loop with it.
   */
  function Deliver(listeners: seq<Agent>, sig: Signal, respond: (Agent, Signal) -> Outcome): (d: Dispatch)
  {
    if listeners == [] then Dispatch([], [], None)
    else
      var prev := Deliver(listeners[..|listeners| - 1], sig, respond);
      var a := listeners[|listeners| - 1];
      if prev.escaped.Some? then prev
      else
        match respond(a, sig)
        case Returned => Dispatch(prev.visited + [a], prev.logged, None)
        case CycThrown(w) => Dispatch(prev.visited + [a], prev.logged + [w], None)
        case OtherThrown(w) => Dispatch(prev.visited + [a], prev.logged, Some(w))
  }

  /** A listener whose handler throws something other than a `CycException`. */
  predicate Escapes(a: Agent, sig: Signal, respond: (Agent, Signal) -> Outcome) {
    respond(a, sig).OtherThrown?
  }

  /** Caught, taken from the back: the messages of the listeners before the last, then the last's. */
  lemma {:induction false} CaughtSnoc(listeners: seq<Agent>, a: Agent, sig: Signal, respond: (Agent, Signal) -> Outcome)
    ensures Caught(listeners + [a], sig, respond)
         == Caught(listeners, sig, respond) + match respond(a, sig) case CycThrown(w) => [w] case _ => []
    decreases |listeners|
  {
    if listeners == [] {
      assert [a][1..] == [];
    } else {
      assert (listeners + [a])[1..] == listeners[1..] + [a];
      CaughtSnoc(listeners[1..], a, sig, respond);
    }
  }

  /**
   * A caught `CycException` does not stop the dispatch: when no handler
   * throws anything else, every listener is called, in registration order,
   * and the messages logged are those of the `CycException`s, in that order.
   */
  lemma {:induction false} CaughtContinues(listeners: seq<Agent>, sig: Signal, respond: (Agent, Signal) -> Outcome)
    requires forall i :: 0 <= i < |listeners| ==> !Escapes(listeners[i], sig, respond)
    ensures Deliver(listeners, sig, respond) == Dispatch(listeners, Caught(listeners, sig, respond), None)
    decreases |listeners|
  {
    if listeners != [] {
      var init, a := listeners[..|listeners| - 1], listeners[|listeners| - 1];
      LastSplit(listeners);
      CaughtContinues(init, sig, respond);
      CaughtSnoc(init, a, sig, respond);
    }
  }

  /**
   * Any other exception ends the dispatch at the listener that threw it:
   * the listeners up to and including the first such one are called, and
   * the exception escapes.
   */
  lemma {:induction false} EscapeStops(listeners: seq<Agent>, sig: Signal, respond: (Agent, Signal) -> Outcome, k: nat)
    requires k < |listeners| && Escapes(listeners[k], sig, respond)
    requires forall i :: 0 <= i < k ==> !Escapes(listeners[i], sig, respond)
    ensures var d := Deliver(listeners, sig, respond);
      && d.visited == listeners[..k + 1]
      && d.logged == Caught(listeners[..k], sig, respond)
      && d.escaped == Some(respond(listeners[k], sig).what)
    decreases |listeners|
  {
    var init := listeners[..|listeners| - 1];
    LastSplit(listeners);
    if k == |listeners| - 1 {
      CaughtContinues(init, sig, respond);
    } else {
      assert init[..k + 1] == listeners[..k + 1] && init[..k] == listeners[..k];
      EscapeStops(init, sig, respond, k);
    }
  }

  /** The listeners a dispatch calls are always the first ones registered, in order. */
  lemma {:induction false} VisitsPrefix(listeners: seq<Agent>, sig: Signal, respond: (Agent, Signal) -> Outcome)
    ensures var d := Deliver(listeners, sig, respond);
      && |d.visited| <= |listeners| && d.visited == listeners[..|d.visited|]
      && (d.escaped.None? <==> d.visited == listeners && forall i :: 0 <= i < |listeners| ==> !Escapes(listeners[i], sig, respond))
    decreases |listeners|
  {
    if listeners != [] {
      var init, a := listeners[..|listeners| - 1], listeners[|listeners| - 1];
      LastSplit(listeners);
      VisitsPrefix(init, sig, respond);
      var prev := Deliver(init, sig, respond);
      if prev.escaped.Some? {
        assert listeners[..|prev.visited|] == init[..|prev.visited|];
        assert Escapes(init[|prev.visited| - 1], sig, respond) by {
          EscapedLast(init, sig, respond);
        }
      }
    }
  }

  /** The dispatch that lets an exception escape has called the listener that threw it last. */
  lemma {:induction false} EscapedLast(listeners: seq<Agent>, sig: Signal, respond: (Agent, Signal) -> Outcome)
    ensures var d := Deliver(listeners, sig, respond);
      d.escaped.Some? ==> d.visited != [] && Escapes(d.visited[|d.visited| - 1], sig, respond)
    decreases |listeners|
  {
    if listeners != [] {
      EscapedLast(listeners[..|listeners| - 1], sig, respond);
    }
  }

  /**
   * The dispatch loop as the `send*` methods run it: `for (agent = begin;
   * agent != end; agent++) try { handler } catch (CycException err) { log }`.
   */
  method Send(listeners: seq<Agent>, sig: Signal, respond: (Agent, Signal) -> Outcome) returns (d: Dispatch)
    ensures d == Deliver(listeners, sig, respond)
  {
    d := Dispatch([], [], None);
    for i := 0 to |listeners|
      invariant d == Deliver(listeners[..i], sig, respond) && d.escaped.None?
    {
      var agent := listeners[i];
      assert listeners[..i + 1][..i] == listeners[..i];
      match respond(agent, sig) {
        case Returned =>
          d := d.(visited := d.visited + [agent]);
        case CycThrown(w) =>
          d := d.(visited := d.visited + [agent], logged := d.logged + [w]);
        case OtherThrown(w) =>
          d := d.(visited := d.visited + [agent], escaped := Some(w));
          EscapedKeeps(listeners, sig, respond, i + 1);
          return;
      }
    }
    assert listeners[..|listeners|] == listeners;
  }

  /** Once an exception has escaped, the listeners after it change nothing. */
  lemma {:induction false} EscapedKeeps(listeners: seq<Agent>, sig: Signal, respond: (Agent, Signal) -> Outcome, n: nat)
    requires n <= |listeners| && Deliver(listeners[..n], sig, respond).escaped.Some?
    ensures Deliver(listeners, sig, respond) == Deliver(listeners[..n], sig, respond)
    decreases |listeners| - n
  {
    if n < |listeners| {
      assert listeners[..n + 1][..n] == listeners[..n];
      EscapedKeeps(listeners, sig, respond, n + 1);
    } else {
      assert listeners[..n] == listeners;
    }
  }

  /* ---- Starting the clock ---- */

  const MONTH_MESSAGE: string := "Invalid month0; must be between 1 and 12 (inclusive)."
  const EARLY_MESSAGE: string := "Invalid year0; the first man-made nuclear reactor was build in 1942"
  const LATE_MESSAGE: string := "Invalid year0; why start a simulation after we've got warp drive?: http://en.wikipedia.org/wiki/Warp_drive#Development_of_the_backstory"

  /** How `initialize` ends: it returns, or throws `CycRangeException` with a message. */
  datatype Started = Started | CycRangeException(msg: string)

  /** The start dates `initialize` accepts: a month of the year, from 1942 to 2063. */
  predicate StartOk(month0: int, year0: int) {
    1 <= month0 <= 12 && 1942 <= year0 <= 2063
  }

  /** The simulation clock (`Timer`). */
  class Timer {
    var time: int
    var time0: int
    var month0: int
    var year0: int
    var simDur: int
    var tickListeners: seq<Agent>
    var resolveListeners: seq<Agent>

    /** `Timer()`: the time is 0 and no agent listens yet. */
    constructor ()
      ensures time == 0 && tickListeners == [] && resolveListeners == []
    {
      time := 0;
      time0, month0, year0, simDur := 0, 0, 0, 0;
      tickListeners, resolveListeners := [], [];
    }

    /**
     * `initialize(xmlParams)`, with the values read from the input
     * (`duration`, `simstart`, `startmonth`, `startyear`) as parameters:
     * the fields are set in the source's order and the start month, then the
     * start year, are checked as they are read.
     */
    method Initialize(duration: int, simstart: int, startmonth: int, startyear: int) returns (r: Started)
      modifies this`simDur, this`time0, this`time, this`month0, this`year0
      ensures simDur == duration && time0 == simstart && time == simstart && month0 == startmonth
      ensures year0 == if 1 <= startmonth <= 12 then startyear else old(year0)
      ensures r == if startmonth < 1 || startmonth > 12 then CycRangeException(MONTH_MESSAGE)
                   else if startyear < 1942 then CycRangeException(EARLY_MESSAGE)
                   else if startyear > 2063 then CycRangeException(LATE_MESSAGE)
                   else Started
      ensures r.Started? <==> StartOk(month0, year0)
    {
      simDur := duration;
      time0 := simstart;
      time := time0;
      month0 := startmonth;
      if month0 < 1 || month0 > 12 {
        return CycRangeException(MONTH_MESSAGE);
      }
      year0 := startyear;
      if year0 < 1942 {
        return CycRangeException(EARLY_MESSAGE);
      }
      if year0 > 2063 {
        return CycRangeException(LATE_MESSAGE);
      }
      r := Started;
    }

    /* ---- Listeners ---- */

    /** `registerTickListener(agent)`: the agent goes to the end of the tick listeners. */
    method RegisterTickListener(agent: Agent)
      modifies this`tickListeners
      ensures tickListeners == old(tickListeners) + [agent]
    {
      tickListeners := tickListeners + [agent];
    }

    /** `registerResolveListener(agent)`: the agent goes to the end of the resolve listeners. */
    method RegisterResolveListener(agent: Agent)
      modifies this`resolveListeners
      ensures resolveListeners == old(resolveListeners) + [agent]
    {
      resolveListeners := resolveListeners + [agent];
    }

    /** `handlePreHistory()`: every tick listener, before the first timestep. */
    method HandlePreHistory(respond: (Agent, Signal) -> Outcome) returns (d: Dispatch)
      ensures d == Deliver(tickListeners, PreHistory, respond)
    {
      d := Send(tickListeners, PreHistory, respond);
    }

    /** `sendTick()`: every tick listener gets `handleTick(time_)`. */
    method SendTick(respond: (Agent, Signal) -> Outcome) returns (d: Dispatch)
      ensures d == Deliver(tickListeners, Tick(time), respond)
    {
      d := Send(tickListeners, Tick(time), respond);
    }

    /** `sendTock()`: every tick listener gets `handleTock(time_)`. */
    method SendTock(respond: (Agent, Signal) -> Outcome) returns (d: Dispatch)
      ensures d == Deliver(tickListeners, Tock(time), respond)
    {
      d := Send(tickListeners, Tock(time), respond);
    }

    /** `sendResolve()`: every resolve listener gets `resolve()`. */
    method SendResolve(respond: (Agent, Signal) -> Outcome) returns (d: Dispatch)
      ensures d == Deliver(resolveListeners, Resolve, respond)
    {
      d := Send(resolveListeners, Resolve, respond);
    }

    /** `sendDailyTasks()`: every tick listener gets `handleDailyTasks(time_, day)`, `day` the day of the month. */
    method SendDailyTasks(day: int, respond: (Agent, Signal) -> Outcome) returns (d: Dispatch)
      ensures d == Deliver(tickListeners, DailyTasks(time, day), respond)
    {
      d := Send(tickListeners, DailyTasks(time, day), respond);
    }

    /* ---- Dates and timesteps ---- */

    /** `convertDate(month, year)`: the timestep of a month, counted in months from the start. */
    function ConvertToTime(month: int, year: int): (t: int)
      reads this`time0, this`month0, this`year0
    {
      (year - year0) * 12 + (month - month0) + time0
    }

    /**
     * `convertDate(time)` as written: the month is one more than the C++
     * remainder of the months since the start, and the year counts the
     * whole years since the start.
     */
    function ConvertToDate(t: int): (date: (int, int))
      reads this`time0, this`year0
    {
      var month := CMod(t - time0, 12) + 1;
      var year := CDiv(t - time0 - (month - 1), 12) + year0;
      (month, year)
    }

    /** The start month and year are timestep `time0`. */
    lemma StartTime()
      ensures ConvertToTime(month0, year0) == time0
    {
    }

    /**
     * From the start on, `convertDate(time)` gives a month of the year and
     * the year and month that lie `time - time0` months after January of
     * the start year; the start itself is January of the start year.
     */
    lemma DateFromStart(t: int)
      requires t >= time0
      ensures var (month, year) := ConvertToDate(t);
        && 1 <= month <= 12
        && (year - year0) * 12 + (month - 1) == t - time0
      ensures ConvertToDate(time0) == (1, year0)
    {
      var k := t - time0;
      var month := CMod(k, 12) + 1;
      assert month - 1 == k % 12;
      assert k - (month - 1) == 12 * (k / 12);
      assert CDiv(k - (month - 1), 12) == k / 12;
    }

    /** When the simulation starts in January, the two conversions undo each other from the start on. */
    lemma DateRoundTrip(t: int)
      requires month0 == 1 && t >= time0
      ensures ConvertToTime(ConvertToDate(t).0, ConvertToDate(t).1) == t
    {
      DateFromStart(t);
    }

    /**
     * `convertDate(time)` as it should be: the month and year that lie
     * `time - time0` months after the start month, before the start as well
     * as after it.
     */
    function CalendarDate(t: int): (date: (int, int))
      reads this`time0, this`month0, this`year0
      ensures 1 <= date.0 <= 12
    {
      var k := t - time0 + (month0 - 1);
      (k % 12 + 1, year0 + k / 12)
    }

    /** CalendarDate gives back every timestep, before the start as well as after it. */
    lemma CalendarRoundTrip(t: int)
      ensures ConvertToTime(CalendarDate(t).0, CalendarDate(t).1) == t
    {
      var k := t - time0 + (month0 - 1);
      assert k == 12 * (k / 12) + k % 12;
    }

    /** And it gives back every month of the year. */
    lemma CalendarOfTime(month: int, year: int)
      requires 1 <= month <= 12
      ensures CalendarDate(ConvertToTime(month, year)) == (month, year)
    {
      var k := (year - year0) * 12 + (month - 1);
      assert ConvertToTime(month, year) - time0 + (month0 - 1) == k;
      assert k / 12 == year - year0 && k % 12 == month - 1;
    }

    /** The two agree when the simulation starts in January, from the start on. */
    lemma CalendarAsWritten(t: int)
      requires month0 == 1 && t >= time0
      ensures CalendarDate(t) == ConvertToDate(t)
    {
      DateFromStart(t);
      var k := t - time0;
      assert k / 12 == CDiv(k - (ConvertToDate(t).0 - 1), 12);
    }

    /** As written, the month before the start is month 0 of the start year. */
    lemma MonthZeroAsWritten()
      ensures ConvertToDate(time0 - 1) == (0, year0)
      ensures month0 == 1 ==> CalendarDate(time0 - 1) == (12, year0 - 1)
    {
      assert CDiv(-1, 12) == 0;
      assert CDiv(0, 12) == 0;
    }

    /** As written, a simulation starting in March reads its first timestep as January, two months early. */
    lemma StartMonthIgnoredAsWritten()
      requires month0 == 3
      ensures ConvertToDate(time0) == (1, year0)
      ensures ConvertToTime(ConvertToDate(time0).0, ConvertToDate(time0).1) == time0 - 2
      ensures CalendarDate(time0) == (3, year0)
    {
      assert CDiv(0, 12) == 0;
    }
  }
}
