/** The camera page's presence timer.
    State: the elapsed-seconds counter `timer`, the `running` flag, the label
    shown to the user, and whether a grace timeout is pending. Three kinds of
    event drive it: a detector sample per frame, the one-second interval, and
    the firing of the pending grace timeout, which reports the counter to the
    backend and resets it. The pure `Step` function is the specification; the
    class `Session` updates its fields in place and is proved to follow it. */
module PresenceTimer {
  import opened HandLabels

  /** One event seen by the page. */
  datatype Event =
    | Frame(hands: seq<Hand>)   // the detector's result for one video frame
    | IntervalTick              // the one-second interval fires
    | GraceTimeout              // the pending five-second grace timeout fires

  /** The page's state. `reports` stands for the values POSTed to the backend,
      oldest first. */
  datatype State = State(timer: nat, running: bool, armed: bool, handInfo: string, reports: seq<nat>)

  /** The state when the page mounts. */
  const Init: State := State(0, false, false, "", [])

  /** The condition under which the grace effect arms a timeout. */
  predicate GraceCondition(timer: nat, running: bool) {
    timer != 0 && !running
  }

  /** The grace effect, whose dependencies are `timer` and `running`: when
      either changed, the pending timeout is cleared and a new one is armed if
      the grace condition holds; when neither changed, the effect does not run
      and the pending timeout (if any) stays. */
  function Settle(prev: State, next: State): (r: State)
    ensures r.timer == next.timer && r.running == next.running
    ensures r.handInfo == next.handInfo && r.reports == next.reports
    ensures r.armed == next.armed || r.armed == GraceCondition(next.timer, next.running)
  {
    if next.timer == prev.timer && next.running == prev.running then next
    else next.(armed := GraceCondition(next.timer, next.running))
  }

  /** One event. Only a tick changes the counter upwards, only the timeout
      resets it, and the only report ever made is the counter on a timeout. */
  function Step(s: State, e: Event): (r: State)
    ensures r.timer == s.timer || (e.IntervalTick? && r.timer == s.timer + 1) || (e.GraceTimeout? && r.timer == 0)
    ensures r.reports == s.reports || (e.GraceTimeout? && r.reports == s.reports + [s.timer])
  {
    match e
    case Frame(hands) =>
      Settle(s, s.(running := HandsPresent(|hands|), handInfo := Label(hands)))
    case IntervalTick =>
      if s.running then Settle(s, s.(timer := s.timer + 1)) else s
    case GraceTimeout =>
      if s.armed then Settle(s, s.(timer := 0, reports := s.reports + [s.timer])) else s
  }

  /** A sequence of events, in order. Reports are only ever appended. */
  function Run(s: State, es: seq<Event>): (r: State)
    ensures |s.reports| <= |r.reports| && r.reports[..|s.reports|] == s.reports
    decreases |es|
  {
    if es == [] then s else Run(Step(s, es[0]), es[1..])
  }

  /** The invariant every reachable state keeps: a timeout is pending exactly
      when the grace condition holds, and no report is zero. */
  ghost predicate Consistent(s: State) {
    s.armed == GraceCondition(s.timer, s.running)
    && forall i :: 0 <= i < |s.reports| ==> s.reports[i] > 0
  }

  /** Sum of the reported durations. */
  function Total(reports: seq<nat>): nat {
    if reports == [] then 0 else Total(reports[..|reports| - 1]) + reports[|reports| - 1]
  }

  /** The running flag after an event: only samples change it. */
  function NextRunning(running: bool, e: Event): bool {
    match e
    case Frame(hands) => HandsPresent(|hands|)
    case _ => running
  }

  /** The number of interval ticks that fire while the timer runs, starting
      with the running flag `running`. */
  function RunningTicks(running: bool, es: seq<Event>): nat
    decreases |es|
  {
    if es == [] then 0
    else (if es[0].IntervalTick? && running then 1 else 0) + RunningTicks(NextRunning(running, es[0]), es[1..])
  }

  /** An event during an absence: a sample without presence, a tick, or the
      timeout. */
  predicate Quiet(e: Event) {
    match e
    case Frame(hands) => !HandsPresent(|hands|)
    case _ => true
  }

  // ---------------------------------------------------------------------
  // Single events

  /** A tick while running adds exactly one second; a tick while stopped
      changes nothing. */
  lemma TickCounts(s: State)
    ensures var t := Step(s, IntervalTick);
      t.timer == (if s.running then s.timer + 1 else s.timer)
      && t.running == s.running && t.reports == s.reports
    ensures Consistent(s) ==> Consistent(Step(s, IntervalTick))
  {
  }

  /** A sample with one or two hands starts the timer, any other count stops
      it; the counter and the reports are untouched and the label follows the
      sample. */
  lemma FrameSetsRunning(s: State, hands: seq<Hand>)
    ensures var t := Step(s, Frame(hands));
      (t.running <==> |hands| == 1 || |hands| == 2)
      && t.timer == s.timer && t.reports == s.reports && t.handInfo == Label(hands)
    ensures Consistent(s) ==> Consistent(Step(s, Frame(hands)))
  {
  }

  /** The timeout, when pending, reports exactly the counter and resets it,
      leaving `running` alone; when none is pending it does nothing. A pending
      timeout always has a non-zero counter. */
  lemma TimeoutReportsAndResets(s: State)
    requires Consistent(s)
    ensures s.armed ==> s.timer > 0
    ensures var t := Step(s, GraceTimeout);
      if s.armed
      then t.timer == 0 && t.reports == s.reports + [s.timer] && t.running == s.running && !t.armed
      else t == s
    ensures Consistent(Step(s, GraceTimeout))
  {
    var t := Step(s, GraceTimeout);
    if s.armed {
      assert forall i :: 0 <= i < |t.reports| ==> t.reports[i] == if i < |s.reports| then s.reports[i] else s.timer;
    }
  }

  /** A counter of zero never produces a report. */
  lemma ZeroNeverReports(s: State)
    requires Consistent(s) && s.timer == 0
    ensures Step(s, GraceTimeout) == s
  {
  }

  /** Firing the timeout twice in a row reports once: the second firing finds
      nothing pending. */
  lemma TimeoutIdempotent(s: State)
    requires Consistent(s)
    ensures Step(Step(s, GraceTimeout), GraceTimeout) == Step(s, GraceTimeout)
  {
    TimeoutReportsAndResets(s);
  }

  /** Presence resuming during the grace period cancels the pending report:
      the counter is kept, nothing is reported, and a timeout firing
      afterwards has no effect. */
  lemma ResumeCancels(s: State, hands: seq<Hand>)
    requires Consistent(s) && s.armed && HandsPresent(|hands|)
    ensures var t := Step(s, Frame(hands));
      t.timer == s.timer && t.reports == s.reports && t.running && !t.armed
      && Step(t, GraceTimeout) == t
  {
  }

  // ---------------------------------------------------------------------
  // Runs of events

  /** Running events one list after another is running their concatenation. */
  lemma {:induction false} RunAppend(s: State, a: seq<Event>, b: seq<Event>)
    ensures Run(s, a + b) == Run(Run(s, a), b)
    decreases |a|
  {
    if a != [] {
      assert (a + b)[0] == a[0] && (a + b)[1..] == a[1..] + b;
      RunAppend(Step(s, a[0]), a[1..], b);
    } else {
      assert a + b == b;
    }
  }

  /** Every state reachable from a consistent one is consistent. */
  lemma {:induction false} RunConsistent(s: State, es: seq<Event>)
    requires Consistent(s)
    ensures Consistent(Run(s, es))
    decreases |es|
  {
    if es != [] {
      StepConsistent(s, es[0]);
      RunConsistent(Step(s, es[0]), es[1..]);
    }
  }

  lemma StepConsistent(s: State, e: Event)
    requires Consistent(s)
    ensures Consistent(Step(s, e))
  {
    match e
    case Frame(hands) => FrameSetsRunning(s, hands);
    case IntervalTick => TickCounts(s);
    case GraceTimeout => TimeoutReportsAndResets(s);
  }

  /** From the page's initial state, every reported duration is positive. */
  lemma ReportsPositive(es: seq<Event>)
    ensures forall i :: 0 <= i < |Run(Init, es).reports| ==> Run(Init, es).reports[i] > 0
  {
    RunConsistent(Init, es);
  }

  /** No tick is lost or counted twice: what has been reported plus what the
      counter holds grows by exactly the interval ticks that fired while
      running. */
  lemma {:induction false} Conservation(s: State, es: seq<Event>)
    ensures Total(Run(s, es).reports) + Run(s, es).timer
         == Total(s.reports) + s.timer + RunningTicks(s.running, es)
    decreases |es|
  {
    if es != [] {
      var t := Step(s, es[0]);
      assert t.running == NextRunning(s.running, es[0]);
      if es[0].GraceTimeout? && s.armed {
        assert t.reports[..|t.reports| - 1] == s.reports;
      }
      Conservation(t, es[1..]);
    }
  }

  /** From the initial state: reported plus current counter equal the number
      of interval ticks that fired while running. */
  lemma ConservationFromInit(es: seq<Event>)
    ensures Total(Run(Init, es).reports) + Run(Init, es).timer == RunningTicks(false, es)
  {
    Conservation(Init, es);
  }

  /** Without a grace timeout firing, nothing is reported and the counter
      never decreases: it grows by the ticks that fired while running. */
  lemma {:induction false} NoTimeoutNoReport(s: State, es: seq<Event>)
    requires forall i :: 0 <= i < |es| ==> !es[i].GraceTimeout?
    ensures Run(s, es).reports == s.reports
    ensures Run(s, es).timer == s.timer + RunningTicks(s.running, es)
    decreases |es|
  {
    if es != [] {
      NoTimeoutNoReport(Step(s, es[0]), es[1..]);
    }
  }

  /** An absence from a stopped, consistent state: the machine stays stopped;
      if the timeout fires at some point, exactly one report is made, of the
      counter's value (none if it was zero), and the counter ends at zero;
      otherwise nothing changes. */
  lemma {:induction false} QuietRun(s: State, es: seq<Event>)
    requires Consistent(s) && !s.running
    requires forall i :: 0 <= i < |es| ==> Quiet(es[i])
    ensures var t := Run(s, es);
      !t.running
      && (if exists i :: 0 <= i < |es| && es[i].GraceTimeout?
          then t.timer == 0 && t.reports == s.reports + (if s.timer > 0 then [s.timer] else [])
          else t.timer == s.timer && t.reports == s.reports)
    decreases |es|
  {
    if es != [] {
      var t := Step(s, es[0]);
      StepConsistent(s, es[0]);
      QuietRun(t, es[1..]);
      if es[0].GraceTimeout? {
        assert t.timer == 0 && t.reports == s.reports + (if s.timer > 0 then [s.timer] else []);
        if exists i :: 0 <= i < |es[1..]| && es[1..][i].GraceTimeout? {
          assert t.reports + [] == t.reports;
        }
      } else {
        assert t.timer == s.timer && t.reports == s.reports;
        assert (exists i :: 0 <= i < |es| && es[i].GraceTimeout?)
           <==> (exists i :: 0 <= i < |es[1..]| && es[1..][i].GraceTimeout?) by {
          forall i | 0 <= i < |es| && es[i].GraceTimeout? ensures i >= 1 && es[1..][i - 1].GraceTimeout? {}
          forall i | 0 <= i < |es[1..]| && es[1..][i].GraceTimeout? ensures es[i + 1].GraceTimeout? {}
        }
      }
    }
  }

  /** A short gap: presence is lost, the detector keeps seeing no hands and
      ticks pass, but no timeout fires before presence returns. The counter is
      unchanged, nothing is reported, and the machine runs again with nothing
      pending. */
  lemma ShortGapPreserved(s: State, absent: seq<Hand>, gap: seq<Event>, present: seq<Hand>)
    requires Consistent(s) && !HandsPresent(|absent|) && HandsPresent(|present|)
    requires forall i :: 0 <= i < |gap| ==> Quiet(gap[i]) && !gap[i].GraceTimeout?
    ensures var t := Run(s, [Frame(absent)] + gap + [Frame(present)]);
      t.timer == s.timer && t.reports == s.reports && t.running && !t.armed
  {
    var s1 := Step(s, Frame(absent));
    StepConsistent(s, Frame(absent));
    QuietRun(s1, gap);
    var s2 := Run(s1, gap);
    RunConsistent(s1, gap);
    RunAppend(s, [Frame(absent)], gap);
    RunAppend(s, [Frame(absent)] + gap, [Frame(present)]);
    assert Run(s, [Frame(absent)]) == s1;
    assert Run(s2, [Frame(present)]) == Step(s2, Frame(present));
  }

  /** A long gap: presence is lost with a non-zero counter and the timeout
      fires before presence returns. Exactly one report, of the counter's
      value, is made and the counter is reset; later timeouts in the same
      absence add nothing. */
  lemma LongGapReportsOnce(s: State, absent: seq<Hand>, gap: seq<Event>)
    requires Consistent(s) && s.timer > 0 && !HandsPresent(|absent|)
    requires forall i :: 0 <= i < |gap| ==> Quiet(gap[i])
    requires exists i :: 0 <= i < |gap| && gap[i].GraceTimeout?
    ensures var t := Run(s, [Frame(absent)] + gap);
      t.timer == 0 && t.reports == s.reports + [s.timer] && !t.running
  {
    var s1 := Step(s, Frame(absent));
    StepConsistent(s, Frame(absent));
    QuietRun(s1, gap);
    RunAppend(s, [Frame(absent)], gap);
    assert Run(s, [Frame(absent)]) == s1;
  }

  // ---------------------------------------------------------------------
  // The page's state, updated in place

  /** The state the camera page keeps between renders. */
  class Session {
    var timer: nat
    var running: bool
    /** Whether a grace timeout is pending (the timeout handle is set). */
    var armed: bool
    var handInfo: string
    /** The durations sent to the backend, oldest first. */
    ghost var reports: seq<nat>

    ghost function Snapshot(): State
      reads this
    {
      State(timer, running, armed, handInfo, reports)
    }

    ghost predicate Valid()
      reads this
    {
      Consistent(Snapshot())
    }

    /** The page mounts: counter at zero, stopped, empty label. */
    constructor ()
      ensures Valid() && Snapshot() == Init
    {
      timer, running, armed, handInfo := 0, false, false, "";
      reports := [];
    }

    /** Re-runs the grace effect if `timer` or `running` changed. */
    method SettleGrace(prevTimer: nat, prevRunning: bool)
      modifies this`armed
      ensures armed == if timer == prevTimer && running == prevRunning then old(armed)
                       else GraceCondition(timer, running)
    {
      if timer != prevTimer || running != prevRunning {
        armed := timer != 0 && !running;
      }
    }

    /** The detector's result for one frame. */
    method Sample(hands: seq<Hand>)
      requires Valid()
      modifies this
      ensures Valid()
      ensures Snapshot() == Step(old(Snapshot()), Frame(hands))
      ensures running == HandsPresent(|hands|) && timer == old(timer) && reports == old(reports)
    {
      var prevTimer, prevRunning := timer, running;
      if |hands| == 2 {
        handInfo := "Both Hands Detected";
        running := true;
      } else if |hands| == 1 {
        handInfo := if hands[0].handedness == "Right" then "Left Hand Detected" else "Right Hand Detected";
        running := true;
      } else {
        handInfo := "No Hands Detected";
        running := false;
      }
      SettleGrace(prevTimer, prevRunning);
      StepConsistent(old(Snapshot()), Frame(hands));
    }

    /** The one-second interval fires. */
    method Tick()
      requires Valid()
      modifies this
      ensures Valid()
      ensures Snapshot() == Step(old(Snapshot()), IntervalTick)
      ensures timer == (if old(running) then old(timer) + 1 else old(timer))
      ensures running == old(running) && reports == old(reports)
    {
      if running {
        var prevTimer := timer;
        timer := timer + 1;
        SettleGrace(prevTimer, running);
      }
      StepConsistent(old(Snapshot()), IntervalTick);
    }

    /** The pending grace timeout fires: the counter is sent and reset. */
    method GraceExpire()
      requires Valid()
      modifies this
      ensures Valid()
      ensures Snapshot() == Step(old(Snapshot()), GraceTimeout)
      ensures old(armed) ==> old(timer) > 0 && reports == old(reports) + [old(timer)] && timer == 0
      ensures !old(armed) ==> Snapshot() == old(Snapshot())
      ensures running == old(running) && !armed
    {
      if armed {
        var prevTimer := timer;
        reports := reports + [timer];
        timer := 0;
        SettleGrace(prevTimer, running);
      }
      StepConsistent(old(Snapshot()), GraceTimeout);
    }
  }
}
