/** The inactivity timer of src/timer.cxx: a timer whose callback re-arms it lazily against
    the time of the last activity.

    One clock serves `ev_now` and the timers.  The event loop is taken to do what libev
    documents: a timer expires strictly after its target, a timer with a positive `repeat`
    re-arms itself when it expires and one without is stopped, and time does not advance
    between an expiry and its callback.  A watcher may be set again while its event is
    pending but not while it is armed, since its target would then be undefined. */
module InactivityTimer {

  datatype State = State(
    now: real,
    interval: real,
    lastAct: real,
    hasCb: bool,
    active: bool,   // ixut_timer::active
    armed: bool,    // the watcher is started, with target `at`
    at: real,
    repeat: real,
    pending: bool,  // expired, callback to come
    ticks: nat,     // since the last start: activity,
    early: nat,     //   expiries that found the deadline not passed,
    fired: nat,     //   runs of the timeout callback,
    unseen: nat,    //   and activity since the target was last set
    overlap: bool,  // the last start found an expiry pending,
    stale: bool     //   which has not been dispatched yet
  )

  datatype Step =
    | Pass(t: real)
    | Tick
    | Start(interval: real, hasCb: bool)
    | Stop
    | Again
    | Expire
    | Dispatch

  function Deadline(s: State): real {
    s.lastAct + s.interval
  }

  predicate Enabled(s: State, step: Step) {
    match step
    case Pass(t) => !s.pending && s.now <= t
    case Tick => true
    case Start(_, _) => !s.armed
    case Stop => s.active
    case Again => true
    case Expire => s.armed && !s.pending && s.at < s.now
    case Dispatch => s.pending
  }

  /** `ev_timer_again`, then `active`. */
  function DoAgain(s: State): State {
    var s' := s.(pending := false, stale := false, active := true);
    if s.repeat > 0.0 then s'.(armed := true, at := s.now + s.repeat) else s'.(armed := false)
  }

  function Max(a: real, b: real): real {
    if a < b then b else a
  }

  function Apply(s: State, step: Step): State
    requires Enabled(s, step)
  {
    match step
    case Pass(t) => s.(now := t)
    case Tick => s.(lastAct := s.now, ticks := s.ticks + 1, unseen := s.unseen + 1)
    case Start(interval, hasCb) =>
      s.(interval := interval, hasCb := hasCb, active := true, armed := true, at := s.now + interval,
         repeat := 0.0, ticks := 0, early := 0, fired := 0, unseen := 0,
         overlap := s.pending, stale := s.pending)
    case Stop => s.(active := false, armed := false, pending := false, stale := false)
    case Again => DoAgain(s)
    case Expire =>
      if s.repeat > 0.0 then s.(pending := true, at := Max(s.at + s.repeat, s.now))
      else s.(pending := true, armed := false)
    case Dispatch =>
      var s' := s.(pending := false, stale := false);
      if Deadline(s) < s.now then
        if s.hasCb then s'.(active := false, fired := s.fired + 1) else s'
      else
        DoAgain(s'.(repeat := Deadline(s) - s.now, early := s.early + 1, unseen := 0))
  }

  /** A timer set up for timeouts, not yet started. */
  function New(now: real): State {
    State(now, 0.0, 0.0, false, false, false, 0.0, 0.0, false, 0, 0, 0, 0, false, false)
  }

  ghost predicate IsRun(s: State, steps: seq<Step>)
    decreases |steps|
  {
    steps == [] || (Enabled(s, steps[0]) && IsRun(Apply(s, steps[0]), steps[1..]))
  }

  ghost function Exec(s: State, steps: seq<Step>): State
    requires IsRun(s, steps)
    decreases |steps|
  {
    if steps == [] then s else Exec(Apply(s, steps[0]), steps[1..])
  }

  // ---------- The code, updating in place ----------

  class Timer {
    var now: real
    var interval: real
    var lastAct: real
    var hasCb: bool
    var active: bool
    var armed: bool
    var at: real
    var repeat: real
    var pending: bool
    var ticks: nat
    var early: nat
    var fired: nat
    var unseen: nat
    var overlap: bool
    var stale: bool

    ghost function Abs(): State
      reads this
    {
      State(now, interval, lastAct, hasCb, active, armed, at, repeat, pending, ticks, early, fired, unseen,
            overlap, stale)
    }

    constructor (now: real)
      ensures Abs() == New(now)
    {
      this.now, interval, lastAct, hasCb, active := now, 0.0, 0.0, false, false;
      armed, at, repeat, pending := false, 0.0, 0.0, false;
      ticks, early, fired, unseen, overlap, stale := 0, 0, 0, 0, false, false;
    }

    /** What is counted from a start on. */
    method Observe()
      modifies `ticks, `early, `fired, `unseen, `overlap, `stale
      ensures ticks == 0 && early == 0 && fired == 0 && unseen == 0 && overlap == pending && stale == pending
    {
      ticks, early, fired, unseen, overlap, stale := 0, 0, 0, 0, pending, pending;
    }

    method StartTimer(interval: real, hasCb: bool)
      requires Enabled(Abs(), Start(interval, hasCb))
      modifies this
      ensures Abs() == Apply(old(Abs()), Start(interval, hasCb))
    {
      this.hasCb := hasCb;
      repeat := 0.0;
      at, armed := now + interval, true;
      active := true;
      this.interval := interval;
      Observe();
    }

    method StopTimer()
      requires Enabled(Abs(), Stop)
      modifies this
      ensures Abs() == Apply(old(Abs()), Stop)
    {
      armed, pending, stale := false, false, false;
      active := false;
    }

    method TickTimer()
      modifies this
      ensures Abs() == Apply(old(Abs()), Tick)
    {
      lastAct := now;
      ticks, unseen := ticks + 1, unseen + 1;
    }

    method AgainTimer()
      modifies this
      ensures Abs() == DoAgain(old(Abs()))
    {
      pending, stale := false, false;
      if armed {
        if repeat > 0.0 {
          at := now + repeat;
        } else {
          armed := false;
        }
      } else if repeat > 0.0 {
        at, armed := now + repeat, true;
      }
      active := true;
    }

    /** `ixut_timeout_cb`. */
    method TimeoutCb()
      requires Enabled(Abs(), Dispatch)
      modifies this
      ensures Abs() == Apply(old(Abs()), Dispatch)
    {
      pending, stale := false, false;
      var timeout := lastAct + interval;
      if timeout < now {
        if hasCb {
          active := false;
          fired := fired + 1;
        }
      } else {
        Postpone(timeout);
      }
    }

    /** The branch for a deadline not yet passed. */
    method Postpone(timeout: real)
      modifies this
      ensures var s := old(Abs()); Abs() == DoAgain(s.(repeat := timeout - s.now, early := s.early + 1, unseen := 0))
    {
      repeat := timeout - now;
      early, unseen := early + 1, 0;
      AgainTimer();
    }

    /** The event loop's part in an expiry. */
    method ExpireTimer()
      requires Enabled(Abs(), Expire)
      modifies this
      ensures Abs() == Apply(old(Abs()), Expire)
    {
      pending := true;
      if repeat > 0.0 {
        at := Max(at + repeat, now);
      } else {
        armed := false;
      }
    }

    method Perform(step: Step)
      requires Enabled(Abs(), step)
      modifies this
      ensures Abs() == Apply(old(Abs()), step)
    {
      match step {
        case Pass(t) => now := t;
        case Tick => TickTimer();
        case Start(interval, hasCb) => StartTimer(interval, hasCb);
        case Stop => StopTimer();
        case Again => AgainTimer();
        case Expire => ExpireTimer();
        case Dispatch => TimeoutCb();
      }
    }
  }

  // ---------- Runs ----------

  lemma {:induction false} RunCons(s: State, step: Step, rest: seq<Step>)
    requires Enabled(s, step) && IsRun(Apply(s, step), rest)
    ensures IsRun(s, [step] + rest) && Exec(s, [step] + rest) == Exec(Apply(s, step), rest)
  {
    assert ([step] + rest)[1..] == rest;
  }

  /** The prefix of a run up to `k` is a run, and step `k` takes it one further. */
  lemma {:induction false} RunSplit(s: State, steps: seq<Step>, k: nat)
    requires IsRun(s, steps) && k < |steps|
    ensures IsRun(s, steps[..k]) && Enabled(Exec(s, steps[..k]), steps[k])
    ensures IsRun(s, steps[..k + 1])
    ensures Exec(s, steps[..k + 1]) == Apply(Exec(s, steps[..k]), steps[k])
    decreases k
  {
    if k == 0 {
      assert steps[..1][1..] == [];
    } else {
      RunSplit(Apply(s, steps[0]), steps[1..], k - 1);
      assert steps[..k][1..] == steps[1..][..k - 1];
      assert steps[..k + 1][1..] == steps[1..][..k];
    }
  }

  // ---------- Early expiries are paid for by activity ----------

  /** With no activity since the target was set, the deadline does not lie after the target,
      nor can an explicit re-arm put the target before it.  An expiry that a start found
      pending is not covered by that and may cost one early expiry, or one more callback. */
  ghost predicate Inv(s: State) {
    && s.lastAct <= s.now
    && s.repeat >= 0.0
    && s.early + s.unseen <= s.ticks + (if s.overlap then 1 else 0)
    && (s.stale ==> s.overlap && s.pending && s.early == 0 && s.fired == 0 && s.unseen <= s.ticks)
    && (s.unseen == 0 ==>
          && (s.armed ==> Deadline(s) <= s.at)
          && (s.pending && !s.stale ==> Deadline(s) < s.now)
          && (s.repeat > 0.0 ==> Deadline(s) <= s.now + s.repeat))
    && (s.early == 0 ==>
          && s.repeat == 0.0
          && s.fired + (if s.armed || (s.pending && !s.stale) then 1 else 0) <= if s.overlap && !s.stale then 2 else 1)
    && (s.pending && !s.stale ==> (s.armed <==> s.repeat > 0.0))
  }

  lemma {:induction false} InvDispatch(s: State)
    requires Inv(s) && s.pending
    ensures Inv(Apply(s, Dispatch))
  {
  }

  lemma {:induction false} InvStep(s: State, step: Step)
    requires Inv(s) && Enabled(s, step)
    ensures Inv(Apply(s, step))
  {
    if step == Dispatch {
      InvDispatch(s);
    }
  }

  lemma {:induction false} RunInv(s: State, steps: seq<Step>)
    requires Inv(s) && IsRun(s, steps)
    ensures Inv(Exec(s, steps))
    decreases |steps|
  {
    if steps != [] {
      InvStep(s, steps[0]);
      RunInv(Apply(s, steps[0]), steps[1..]);
    }
  }

  /** In every run, early expiries since the last start never outnumber the activity since
      then, whatever stops, explicit re-arms and timeouts come between; one more is possible
      if that start found an expiry pending. */
  lemma {:induction false} EarlyExpiriesAmortised(now: real, steps: seq<Step>)
    requires now >= 0.0 && IsRun(New(now), steps)
    ensures var s := Exec(New(now), steps); s.early <= s.ticks + (if s.overlap then 1 else 0)
  {
    RunInv(New(now), steps);
  }

  /** In every run, a start that saw no early expiry leads to one callback at most, or two if
      it found an expiry pending. */
  lemma {:induction false} FiresOnceWithoutEarly(now: real, steps: seq<Step>)
    requires now >= 0.0 && IsRun(New(now), steps)
    ensures var s := Exec(New(now), steps); s.early == 0 ==> s.fired <= if s.overlap then 2 else 1
  {
    RunInv(New(now), steps);
  }

  /** Starting again while an expiry is pending: an early expiry without any activity. */
  lemma {:induction false} EarlyWithoutActivity()
    ensures var steps := [Start(1.0, true), Pass(1.5), Expire, Start(10.0, true), Dispatch];
      IsRun(New(0.0), steps) && var s := Exec(New(0.0), steps); s.early == 1 && s.ticks == 0
  {
    var s1 := Apply(New(0.0), Start(1.0, true));
    var s2 := Apply(s1, Pass(1.5));
    var s3 := Apply(s2, Expire);
    var s4 := Apply(s3, Start(10.0, true));
    var s5 := Apply(s4, Dispatch);
    assert s5.early == 1 && s5.ticks == 0;
    hide Apply, Enabled;
    RunCons(s4, Dispatch, []);
    RunCons(s3, Start(10.0, true), [Dispatch]);
    RunCons(s2, Expire, [Start(10.0, true), Dispatch]);
    RunCons(s1, Pass(1.5), [Expire, Start(10.0, true), Dispatch]);
    RunCons(New(0.0), Start(1.0, true), [Pass(1.5), Expire, Start(10.0, true), Dispatch]);
  }

  /** And one start with two callbacks and no early expiry. */
  lemma {:induction false} TwoCallbacksWithoutEarly()
    ensures var steps := [Start(1.0, true), Pass(1.5), Expire, Start(0.5, true), Dispatch, Pass(3.0), Expire, Dispatch];
      IsRun(New(0.0), steps) && var s := Exec(New(0.0), steps); s.fired == 2 && s.early == 0
  {
    var s1 := Apply(New(0.0), Start(1.0, true));
    var s2 := Apply(s1, Pass(1.5));
    var s3 := Apply(s2, Expire);
    var s4 := Apply(s3, Start(0.5, true));
    var s5 := Apply(s4, Dispatch);
    var s6 := Apply(s5, Pass(3.0));
    var s7 := Apply(s6, Expire);
    var s8 := Apply(s7, Dispatch);
    assert s8.fired == 2 && s8.early == 0;
    hide Apply, Enabled;
    RunCons(s7, Dispatch, []);
    RunCons(s6, Expire, [Dispatch]);
    RunCons(s5, Pass(3.0), [Expire, Dispatch]);
    RunCons(s4, Dispatch, [Pass(3.0), Expire, Dispatch]);
    RunCons(s3, Start(0.5, true), [Dispatch, Pass(3.0), Expire, Dispatch]);
    RunCons(s2, Expire, [Start(0.5, true), Dispatch, Pass(3.0), Expire, Dispatch]);
    RunCons(s1, Pass(1.5), [Expire, Start(0.5, true), Dispatch, Pass(3.0), Expire, Dispatch]);
    RunCons(New(0.0), Start(1.0, true),
            [Pass(1.5), Expire, Start(0.5, true), Dispatch, Pass(3.0), Expire, Dispatch]);
  }

  /** No start in the run. */
  ghost predicate NoStart(steps: seq<Step>) {
    forall i :: 0 <= i < |steps| ==> !steps[i].Start?
  }

  /** Whatever follows a start of `s` until the next one, both bounds hold. */
  ghost predicate Bounded(s: State, interval: real, steps: seq<Step>)
    requires !s.armed
  {
    var s0 := Apply(s, Start(interval, true));
    IsRun(s0, steps) && NoStart(steps) ==>
      var s' := Exec(s0, steps);
      s'.early <= s'.ticks && (s'.early == 0 ==> s'.fired <= 1)
  }

  lemma {:induction false} OverlapKept(s: State, steps: seq<Step>)
    requires IsRun(s, steps) && NoStart(steps)
    ensures Exec(s, steps).overlap == s.overlap
    decreases |steps|
  {
    if steps != [] {
      assert !steps[0].Start?;
      assert NoStart(steps[1..]);
      OverlapKept(Apply(s, steps[0]), steps[1..]);
    }
  }

  /** On a pending expiry, some run breaks the bounds whatever the interval: its dispatch is an
      early expiry without activity, or a first callback with a second one to come. */
  lemma {:induction false} PendingBreaks(s: State, interval: real) returns (steps: seq<Step>)
    requires Inv(s) && !s.armed && s.pending
    ensures !Bounded(s, interval, steps)
  {
    var s0 := Apply(s, Start(interval, true));
    var s1 := Apply(s0, Dispatch);
    if Deadline(s0) >= s0.now {
      assert s1.early == 1 && s1.ticks == 0;
      RunCons(s0, Dispatch, []);
      steps := [Dispatch];
    } else {
      var t := Max(s1.at, s1.now) + 1.0;
      var s2 := Apply(s1, Pass(t));
      var s3 := Apply(s2, Expire);
      var s4 := Apply(s3, Dispatch);
      assert s4.fired == 2 && s4.early == 0;
      hide Apply, Enabled;
      RunCons(s3, Dispatch, []);
      RunCons(s2, Expire, [Dispatch]);
      RunCons(s1, Pass(t), [Expire, Dispatch]);
      RunCons(s0, Dispatch, [Pass(t), Expire, Dispatch]);
      steps := [Dispatch, Pass(t), Expire, Dispatch];
    }
  }

  /** The exact condition, checkable before the call: a start keeps both bounds, whatever the
      interval and whatever follows, exactly when no expiry is pending. */
  lemma {:induction false} BoundedIffNotPending(s: State, interval: real)
    requires Inv(s) && !s.armed
    ensures (forall steps :: Bounded(s, interval, steps)) <==> !s.pending
  {
    if s.pending {
      var steps := PendingBreaks(s, interval);
    } else {
      forall steps ensures Bounded(s, interval, steps) {
        var s0 := Apply(s, Start(interval, true));
        if IsRun(s0, steps) && NoStart(steps) {
          InvStep(s, Start(interval, true));
          RunInv(s0, steps);
          OverlapKept(s0, steps);
        }
      }
    }
  }

  // ---------- Re-arming ----------

  /** An early expiry sets the target to exactly last activity plus interval, unless the
      deadline is this very moment: then the watcher is left stopped while the timer still
      counts as active. */
  lemma {:induction false} EarlyRearm(s: State)
    requires s.pending && Deadline(s) >= s.now
    ensures var s' := Apply(s, Dispatch);
      && (s'.armed <==> Deadline(s) > s.now)
      && (s'.armed ==> s'.at == s.lastAct + s.interval)
      && s'.active && s'.fired == s.fired
  {
  }

  /** A run in which that happens: the timer is active and nothing will ever fire. */
  lemma {:induction false} LostTimer()
    ensures var steps := [Start(1.0, true), Pass(0.5), Tick, Pass(1.5), Expire, Dispatch];
      IsRun(New(0.0), steps) && Lost(Exec(New(0.0), steps))
  {
    var s1 := Apply(New(0.0), Start(1.0, true));
    var s2 := Apply(s1, Pass(0.5));
    var s3 := Apply(s2, Tick);
    var s4 := Apply(s3, Pass(1.5));
    var s5 := Apply(s4, Expire);
    var s6 := Apply(s5, Dispatch);
    assert Lost(s6);
    hide Apply, Enabled;
    RunCons(s5, Dispatch, []);
    RunCons(s4, Expire, [Dispatch]);
    RunCons(s3, Pass(1.5), [Expire, Dispatch]);
    RunCons(s2, Tick, [Pass(1.5), Expire, Dispatch]);
    RunCons(s1, Pass(0.5), [Tick, Pass(1.5), Expire, Dispatch]);
    RunCons(New(0.0), Start(1.0, true), [Pass(0.5), Tick, Pass(1.5), Expire, Dispatch]);
  }

  /** An explicit re-arm of a timer without a repeat ends there too, */
  lemma {:induction false} LostByAgain()
    ensures var steps := [Start(1.0, true), Again]; IsRun(New(0.0), steps) && Lost(Exec(New(0.0), steps))
  {
    var s1 := Apply(New(0.0), Start(1.0, true));
    RunCons(s1, Again, []);
    RunCons(New(0.0), Start(1.0, true), [Again]);
  }

  /** and so does a timeout without a callback. */
  lemma {:induction false} LostWithoutCallback()
    ensures var steps := [Start(1.0, false), Pass(2.0), Expire, Dispatch];
      IsRun(New(0.0), steps) && Lost(Exec(New(0.0), steps))
  {
    var s1 := Apply(New(0.0), Start(1.0, false));
    var s2 := Apply(s1, Pass(2.0));
    var s3 := Apply(s2, Expire);
    assert Lost(Apply(s3, Dispatch));
    hide Apply, Enabled;
    RunCons(s3, Dispatch, []);
    RunCons(s2, Expire, [Dispatch]);
    RunCons(s1, Pass(2.0), [Expire, Dispatch]);
    RunCons(New(0.0), Start(1.0, false), [Pass(2.0), Expire, Dispatch]);
  }

  // ---------- The flag and the watcher ----------

  /** The timer counts as active exactly if an event is to come. */
  predicate Agree(s: State) {
    s.active <==> s.armed || s.pending
  }

  /** Active, and no event will ever come by itself. */
  predicate Lost(s: State) {
    s.active && !s.armed && !s.pending && s.repeat == 0.0
  }

  ghost predicate AlwaysAgrees(s: State, steps: seq<Step>)
    requires IsRun(s, steps)
    decreases |steps|
  {
    Agree(s) && (steps == [] || AlwaysAgrees(Apply(s, steps[0]), steps[1..]))
  }

  /** The steps that part the two: re-arming without a repeat; a timeout that leaves a
      repeating watcher armed, or, without a callback, the flag set; and an expiry at the very
      deadline. */
  predicate Breaks(s: State, step: Step) {
    match step
    case Again => s.repeat <= 0.0
    case Dispatch =>
      if Deadline(s) < s.now then (if s.hasCb then s.armed else !s.armed) else Deadline(s) == s.now
    case _ => false
  }

  ghost predicate NoBreaks(s: State, steps: seq<Step>)
    requires IsRun(s, steps)
    decreases |steps|
  {
    steps == [] || (!Breaks(s, steps[0]) && NoBreaks(Apply(s, steps[0]), steps[1..]))
  }

  lemma {:induction false} AgreeStep(s: State, step: Step)
    requires Agree(s) && Enabled(s, step)
    ensures Agree(Apply(s, step)) <==> !Breaks(s, step)
  {
  }

  /** In every run flag and watcher agree throughout exactly when none of these steps occurs;
      each can be told before it is taken. */
  lemma {:induction false} AgreesIffNoBreaks(s: State, steps: seq<Step>)
    requires Agree(s) && IsRun(s, steps)
    ensures AlwaysAgrees(s, steps) <==> NoBreaks(s, steps)
    decreases |steps|
  {
    if steps != [] {
      AgreeStep(s, steps[0]);
      if Agree(Apply(s, steps[0])) {
        AgreesIffNoBreaks(Apply(s, steps[0]), steps[1..]);
      }
    }
  }

  lemma {:induction false} AgreesAtEnd(s: State, steps: seq<Step>)
    requires IsRun(s, steps) && AlwaysAgrees(s, steps)
    ensures Agree(Exec(s, steps))
    decreases |steps|
  {
    if steps != [] {
      AgreesAtEnd(Apply(s, steps[0]), steps[1..]);
    }
  }

  // ---------- No false timeout ----------

  /** Time and the record of activity only move forward. */
  lemma {:induction false} StepForward(s: State, step: Step)
    requires Enabled(s, step) && s.lastAct <= s.now
    ensures var s' := Apply(s, step);
      s.now <= s'.now && s.lastAct <= s'.lastAct <= s'.now && (step == Tick ==> s'.lastAct == s.now)
  {
  }

  lemma {:induction false} RunForward(s: State, steps: seq<Step>)
    requires IsRun(s, steps) && s.lastAct <= s.now
    ensures var s' := Exec(s, steps); s.lastAct <= s'.lastAct <= s'.now
    decreases |steps|
  {
    if steps != [] {
      StepForward(s, steps[0]);
      RunForward(Apply(s, steps[0]), steps[1..]);
    }
  }

  /** Activity at step `j` is remembered: the last activity is never before it. */
  lemma {:induction false} TickRemembered(s: State, steps: seq<Step>, j: nat)
    requires IsRun(s, steps) && s.lastAct <= s.now && j < |steps| && steps[j] == Tick
    ensures IsRun(s, steps[..j]) && Exec(s, steps[..j]).now <= Exec(s, steps).lastAct
    decreases j
  {
    StepForward(s, steps[0]);
    if j == 0 {
      RunForward(Apply(s, steps[0]), steps[1..]);
    } else {
      TickRemembered(Apply(s, steps[0]), steps[1..], j - 1);
      assert steps[..j][1..] == steps[1..][..j - 1];
    }
  }

  /** When the callback runs at step `k`, all activity of the run so far lies more than an
      interval in the past. */
  lemma {:induction false} NoFalseTimeout(s: State, steps: seq<Step>, k: nat, j: nat)
    requires IsRun(s, steps) && s.lastAct <= s.now && j < k < |steps| && steps[j] == Tick
    ensures IsRun(s, steps[..j]) && IsRun(s, steps[..k]) && Enabled(Exec(s, steps[..k]), steps[k])
    ensures var t := Exec(s, steps[..k]);
      Apply(t, steps[k]).fired > t.fired ==> Exec(s, steps[..j]).now + t.interval < t.now
  {
    RunSplit(s, steps, k);
    assert steps[..k][..j] == steps[..j];
    TickRemembered(s, steps[..k], j);
  }

  // ---------- No late timeout ----------

  /** The recorded last activity is the time of the last tick. */
  lemma {:induction false} LastTick(s: State, steps: seq<Step>, j: nat)
    requires IsRun(s, steps) && j < |steps| && steps[j] == Tick
    requires forall i :: j < i < |steps| ==> steps[i] != Tick
    ensures IsRun(s, steps[..j]) && Exec(s, steps).lastAct == Exec(s, steps[..j]).now
    decreases j
  {
    if j == 0 {
      LastActKept(Apply(s, Tick), steps[1..]);
    } else {
      LastTick(Apply(s, steps[0]), steps[1..], j - 1);
      assert steps[..j][1..] == steps[1..][..j - 1];
    }
  }

  /** On the trace: an early expiry re-arms for exactly the time of the last tick plus the
      interval. */
  lemma {:induction false} RearmsFromLastTick(s: State, steps: seq<Step>, j: nat)
    requires IsRun(s, steps) && j < |steps| && steps[j] == Tick
    requires forall i :: j < i < |steps| ==> steps[i] != Tick
    requires var t := Exec(s, steps); t.pending && Deadline(t) > t.now
    ensures IsRun(s, steps[..j])
    ensures var t := Exec(s, steps);
      Apply(t, Dispatch).armed && Apply(t, Dispatch).at == Exec(s, steps[..j]).now + t.interval
  {
    LastTick(s, steps, j);
    EarlyRearm(Exec(s, steps));
  }

  lemma {:induction false} LastActKept(s: State, steps: seq<Step>)
    requires IsRun(s, steps) && forall i :: 0 <= i < |steps| ==> steps[i] != Tick
    ensures Exec(s, steps).lastAct == s.lastAct
    decreases |steps|
  {
    if steps != [] {
      LastActKept(Apply(s, steps[0]), steps[1..]);
    }
  }

  /** The target of a waiting timer started at `start` that has not fired. */
  ghost predicate OnTime(s: State, start: real) {
    && s.lastAct <= s.now && start <= s.now
    && (s.armed && !s.pending && s.hasCb && s.fired == 0 ==> s.at <= Max(start, s.lastAct) + s.interval)
  }

  lemma {:induction false} OnTimeStep(s: State, step: Step, start: real)
    requires OnTime(s, start) && Enabled(s, step) && !step.Start? && step != Again
    ensures OnTime(Apply(s, step), start)
  {
  }

  lemma {:induction false} RunOnTime(s: State, steps: seq<Step>, start: real)
    requires OnTime(s, start) && IsRun(s, steps) && NoStart(steps) && Again !in steps
    ensures OnTime(Exec(s, steps), start)
    decreases |steps|
  {
    if steps != [] {
      assert steps[0] in steps && !steps[0].Start?;
      assert NoStart(steps[1..]);
      OnTimeStep(s, steps[0], start);
      RunOnTime(Apply(s, steps[0]), steps[1..], start);
    }
  }

  /** No waiting timer oversleeps: after a start, and until the callback runs or the timer is
      re-armed by hand, its target is at most an interval after the later of the start and the
      last activity, and once that is past the timer is due. */
  lemma {:induction false} NoLateTimeout(s: State, interval: real, steps: seq<Step>)
    requires !s.armed && s.lastAct <= s.now
    requires var s0 := Apply(s, Start(interval, true)); IsRun(s0, steps) && NoStart(steps) && Again !in steps
    ensures var s' := Exec(Apply(s, Start(interval, true)), steps);
      var due := Max(s.now, s'.lastAct) + s'.interval;
      s'.armed && !s'.pending && s'.hasCb && s'.fired == 0 ==>
        s'.at <= due && (due < s'.now ==> Enabled(s', Expire))
  {
    RunOnTime(Apply(s, Start(interval, true)), steps, s.now);
  }

  // ---------- How often the callback runs ----------

  /** A stopped timer without a repeat stays silent until it is started. */
  lemma {:induction false} StoppedStaysSilent(s: State, steps: seq<Step>)
    requires !s.armed && !s.pending && s.repeat == 0.0 && IsRun(s, steps) && NoStart(steps)
    ensures Exec(s, steps).fired == s.fired
    decreases |steps|
  {
    if steps != [] {
      assert !steps[0].Start?;
      assert NoStart(steps[1..]);
      StoppedStaysSilent(Apply(s, steps[0]), steps[1..]);
    }
  }

  /** The callback runs in a run without a start. */
  ghost predicate FiresIn(s: State, steps: seq<Step>) {
    IsRun(s, steps) && NoStart(steps) && Exec(s, steps).fired > s.fired
  }

  /** With a repeat the watcher stays armed when the callback runs, and runs it again without
      activity; the assertion in `ixut_timer_stop` forbids stopping it. */
  lemma {:induction false} RepeatingFiresAgain(s: State) returns (steps: seq<Step>)
    requires Inv(s) && s.pending && !s.stale && s.hasCb && Deadline(s) < s.now && s.repeat > 0.0
    ensures var s' := Apply(s, Dispatch);
      s'.armed && !Enabled(s', Stop) && Tick !in steps && FiresIn(s', steps)
  {
    var s1 := Apply(s, Dispatch);
    var t := Max(s1.at, s1.now) + 1.0;
    var s2 := Apply(s1, Pass(t));
    var s3 := Apply(s2, Expire);
    var s4 := Apply(s3, Dispatch);
    assert s1.armed && !Enabled(s1, Stop) && s4.fired == s1.fired + 1;
    hide Apply, Enabled;
    RunCons(s3, Dispatch, []);
    RunCons(s2, Expire, [Dispatch]);
    RunCons(s1, Pass(t), [Expire, Dispatch]);
    steps := [Pass(t), Expire, Dispatch];
  }

  /** When the callback runs on an expiry of its own start, some run fires again before the next
      start exactly if there is a repeat; without one this callback is the last. */
  lemma {:induction false} FiresAgainIffRepeating(s: State)
    requires Inv(s) && s.pending && !s.stale && s.hasCb && Deadline(s) < s.now
    ensures var s' := Apply(s, Dispatch);
      && s'.fired == s.fired + 1
      && ((exists steps :: FiresIn(s', steps)) <==> s.repeat > 0.0)
  {
    var s' := Apply(s, Dispatch);
    if s.repeat > 0.0 {
      var steps := RepeatingFiresAgain(s);
    } else {
      forall steps | IsRun(s', steps) && NoStart(steps) ensures !FiresIn(s', steps) {
        StoppedStaysSilent(s', steps);
      }
    }
  }

  // ---------- Stopping ----------

  /** No event to come, and not counted as active. */
  predicate Idle(s: State) {
    !s.armed && !s.pending && !s.active
  }

  lemma {:induction false} IdleStays(s: State, steps: seq<Step>)
    requires Idle(s) && IsRun(s, steps) && NoStart(steps) && Again !in steps
    ensures Idle(Exec(s, steps)) && Exec(s, steps).fired == s.fired && Exec(s, steps).early == s.early
    decreases |steps|
  {
    if steps != [] {
      assert steps[0] in steps && !steps[0].Start?;
      assert NoStart(steps[1..]);
      IdleStays(Apply(s, steps[0]), steps[1..]);
    }
  }

  /** After a stop of an active timer nothing expires, nothing fires and the flag stays clear,
      whatever happens, until it is started or re-armed by hand. */
  lemma {:induction false} StopIsFinal(s: State, steps: seq<Step>)
    requires s.active
    requires IsRun(Apply(s, Stop), steps) && NoStart(steps) && Again !in steps
    ensures Enabled(s, Stop)
    ensures var s' := Exec(Apply(s, Stop), steps);
      Idle(s') && s'.fired == s.fired && s'.early == s.early && !Enabled(s', Expire) && !Enabled(s', Dispatch)
  {
    IdleStays(Apply(s, Stop), steps);
  }

  /** Step `k` stops the timer, and no later one starts it or re-arms it by hand. */
  ghost predicate StoppedAt(steps: seq<Step>, k: nat) {
    k < |steps| && steps[k] == Stop && forall i :: k < i < |steps| ==> !steps[i].Start? && steps[i] != Again
  }

  lemma {:induction false} StoppedAtEnd(s: State, steps: seq<Step>, k: nat)
    requires IsRun(s, steps) && StoppedAt(steps, k)
    ensures Idle(Exec(s, steps))
    decreases k
  {
    if k == 0 {
      IdleStays(Apply(s, Stop), steps[1..]);
    } else {
      StoppedAtEnd(Apply(s, steps[0]), steps[1..], k - 1);
    }
  }

  /** Re-arming by hand undoes a stop exactly if there is a repeat: some run without a start
      fires after it if and only if there is a repeat and a callback. */
  lemma {:induction false} StopUndoneIffRepeating(s: State)
    requires Inv(s) && s.active
    ensures (exists steps :: FiresIn(Apply(s, Stop), steps)) <==> s.repeat > 0.0 && s.hasCb
  {
    var s0 := Apply(s, Stop);
    if s.repeat > 0.0 && s.hasCb {
      var steps := AgainFires(s0);
    } else if s.repeat == 0.0 {
      forall steps | IsRun(s0, steps) && NoStart(steps) ensures !FiresIn(s0, steps) {
        StoppedStaysSilent(s0, steps);
      }
    } else {
      forall steps | IsRun(s0, steps) && NoStart(steps) ensures !FiresIn(s0, steps) {
        NoCallbackIsSilent(s0, steps);
      }
    }
  }

  lemma {:induction false} NoCallbackIsSilent(s: State, steps: seq<Step>)
    requires !s.hasCb && IsRun(s, steps) && NoStart(steps)
    ensures Exec(s, steps).fired == s.fired
    decreases |steps|
  {
    if steps != [] {
      assert !steps[0].Start?;
      assert NoStart(steps[1..]);
      NoCallbackIsSilent(Apply(s, steps[0]), steps[1..]);
    }
  }

  lemma {:induction false} AgainFires(s: State) returns (steps: seq<Step>)
    requires s.repeat > 0.0 && s.hasCb && !s.pending
    ensures FiresIn(s, steps)
  {
    var s1 := Apply(s, Again);
    var t := Max(s1.at, Max(Deadline(s), s.now)) + 1.0;
    var s2 := Apply(s1, Pass(t));
    var s3 := Apply(s2, Expire);
    var s4 := Apply(s3, Dispatch);
    assert s4.fired == s.fired + 1;
    hide Apply, Enabled;
    RunCons(s3, Dispatch, []);
    RunCons(s2, Expire, [Dispatch]);
    RunCons(s1, Pass(t), [Expire, Dispatch]);
    RunCons(s, Again, [Pass(t), Expire, Dispatch]);
    steps := [Again, Pass(t), Expire, Dispatch];
  }

  // ---------- How long a timer waits ----------

  /** Only time passes, and activity happens. */
  ghost predicate Waiting(steps: seq<Step>) {
    forall i :: 0 <= i < |steps| ==> steps[i].Pass? || steps[i].Tick?
  }

  /** An armed timer waits for its target, whatever activity there is meanwhile. */
  lemma {:induction false} WaitsForTarget(s: State, steps: seq<Step>)
    requires s.armed && !s.pending && IsRun(s, steps) && Waiting(steps)
    ensures var s' := Exec(s, steps); Enabled(s', Expire) <==> s.at < s'.now
    decreases |steps|
  {
    if steps != [] {
      assert steps[0].Pass? || steps[0].Tick?;
      assert Waiting(steps[1..]);
      WaitsForTarget(Apply(s, steps[0]), steps[1..]);
    }
  }

  /** A started timer may expire exactly once its interval has passed since the start. */
  lemma {:induction false} StartWaits(s: State, interval: real, hasCb: bool, steps: seq<Step>)
    requires !s.armed && !s.pending && Waiting(steps) && IsRun(Apply(s, Start(interval, hasCb)), steps)
    ensures var s' := Exec(Apply(s, Start(interval, hasCb)), steps);
      Enabled(s', Expire) <==> s.now + interval < s'.now
  {
    WaitsForTarget(Apply(s, Start(interval, hasCb)), steps);
  }

  /** A timer re-armed by hand may expire exactly once its repeat has passed since then. */
  lemma {:induction false} AgainWaits(s: State, steps: seq<Step>)
    requires s.repeat > 0.0 && Waiting(steps) && IsRun(Apply(s, Again), steps)
    ensures var s' := Exec(Apply(s, Again), steps); Enabled(s', Expire) <==> s.now + s.repeat < s'.now
  {
    WaitsForTarget(Apply(s, Again), steps);
  }

  /** After an early expiry it may expire exactly once an interval has passed since the last
      activity known then. */
  lemma {:induction false} RearmWaits(s: State, steps: seq<Step>)
    requires s.pending && s.now < s.lastAct + s.interval && Waiting(steps) && IsRun(Apply(s, Dispatch), steps)
    ensures var s' := Exec(Apply(s, Dispatch), steps); Enabled(s', Expire) <==> s.lastAct + s.interval < s'.now
  {
    WaitsForTarget(Apply(s, Dispatch), steps);
  }

  /** A repeating timer that fires may expire again exactly once its repeat has passed since its
      target, or any later time after the expiry if that has passed already. */
  lemma {:induction false} RepeatWaits(s: State, steps: seq<Step>)
    requires s.armed && !s.pending && s.at < s.now && s.repeat > 0.0 && Deadline(s) < s.now
    requires Waiting(steps) && IsRun(Apply(Apply(s, Expire), Dispatch), steps)
    ensures var s' := Exec(Apply(Apply(s, Expire), Dispatch), steps);
      Enabled(s', Expire) <==> s.at + s.repeat < s'.now && s.now < s'.now
  {
    WaitsForTarget(Apply(Apply(s, Expire), Dispatch), steps);
  }

  // ---------- A repeating timer ----------

  /** A run in which the callback runs again: one start, one tick, two callbacks. */
  lemma {:induction false} FiresTwice()
    ensures var steps := [Start(1.0, true), Pass(0.9), Tick, Pass(1.5), Expire, Dispatch, Pass(2.0), Expire, Dispatch,
                          Pass(3.0), Expire, Dispatch];
      IsRun(New(0.0), steps) && var s := Exec(New(0.0), steps);
      s.fired == 2 && s.ticks == 1 && s.armed && !s.active && !s.overlap
  {
    var s1 := Apply(New(0.0), Start(1.0, true));
    var s2 := Apply(s1, Pass(0.9));
    var s3 := Apply(s2, Tick);
    var s4 := Apply(s3, Pass(1.5));
    var s5 := Apply(s4, Expire);
    var s6 := Apply(s5, Dispatch);
    FiresTwiceTail(s6);
    hide Apply, Enabled;
    RunCons(s5, Dispatch, [Pass(2.0), Expire, Dispatch, Pass(3.0), Expire, Dispatch]);
    RunCons(s4, Expire, [Dispatch,
                 Pass(2.0), Expire, Dispatch, Pass(3.0), Expire, Dispatch]);
    RunCons(s3, Pass(1.5), [Expire, Dispatch,
                 Pass(2.0), Expire, Dispatch, Pass(3.0), Expire, Dispatch]);
    RunCons(s2, Tick, [Pass(1.5), Expire, Dispatch,
                 Pass(2.0), Expire, Dispatch, Pass(3.0), Expire, Dispatch]);
    RunCons(s1, Pass(0.9), [Tick, Pass(1.5), Expire, Dispatch,
                 Pass(2.0), Expire, Dispatch, Pass(3.0), Expire, Dispatch]);
    RunCons(New(0.0), Start(1.0, true), [Pass(0.9), Tick, Pass(1.5), Expire, Dispatch,
                 Pass(2.0), Expire, Dispatch, Pass(3.0), Expire, Dispatch]);
  }

  lemma {:induction false} FiresTwiceTail(s: State)
    requires s == State(1.5, 1.0, 0.9, true, true, true, 1.9, 0.4, false, 1, 1, 0, 0, false, false)
    ensures var steps := [Pass(2.0), Expire, Dispatch, Pass(3.0), Expire, Dispatch];
      IsRun(s, steps) && var s' := Exec(s, steps);
      s'.fired == 2 && s'.ticks == 1 && s'.armed && !s'.active && !s'.overlap
  {
    var s1 := Apply(s, Pass(2.0));
    var s2 := Apply(s1, Expire);
    var s3 := Apply(s2, Dispatch);
    var s4 := Apply(s3, Pass(3.0));
    var s5 := Apply(s4, Expire);
    var s6 := Apply(s5, Dispatch);
    assert s6.fired == 2 && s6.ticks == 1 && s6.armed && !s6.active && !s6.overlap;
    hide Apply, Enabled;
    RunCons(s5, Dispatch, []);
    RunCons(s4, Expire, [Dispatch]);
    RunCons(s3, Pass(3.0), [Expire, Dispatch]);
    RunCons(s2, Dispatch, [Pass(3.0), Expire, Dispatch]);
    RunCons(s1, Expire, [Dispatch, Pass(3.0), Expire, Dispatch]);
    RunCons(s, Pass(2.0), [Expire, Dispatch, Pass(3.0), Expire, Dispatch]);
  }

  // ---------- The code over whole runs ----------

  /** The timer's code, driven by any run of calls, clock and event loop, is the machine, and
      keeps its bounds. */
  method Drive(now: real, steps: seq<Step>)
    returns (fired: nat, early: nat, ticks: nat, waiting: bool, active: bool)
    requires now >= 0.0 && IsRun(New(now), steps)
    ensures var s := Exec(New(now), steps);
      && fired == s.fired && early == s.early && ticks == s.ticks
      && waiting == (s.armed || s.pending) && active == s.active
      && early <= ticks + (if s.overlap then 1 else 0)
      && (early == 0 ==> fired <= if s.overlap then 2 else 1)
      && (AlwaysAgrees(New(now), steps) <==> NoBreaks(New(now), steps))
      && (NoBreaks(New(now), steps) ==> (active <==> waiting))
      && forall k: nat :: StoppedAt(steps, k) ==> !waiting && !active
  {
    hide Apply, Enabled;
    var timer := new Timer(now);
    var k := 0;
    while k < |steps|
      invariant 0 <= k <= |steps| && fresh(timer)
      invariant IsRun(timer.Abs(), steps[k..])
      invariant Exec(timer.Abs(), steps[k..]) == Exec(New(now), steps)
    {
      assert steps[k..][1..] == steps[k + 1..];
      timer.Perform(steps[k]);
      k := k + 1;
    }
    EarlyExpiriesAmortised(now, steps);
    FiresOnceWithoutEarly(now, steps);
    AgreesIffNoBreaks(New(now), steps);
    if NoBreaks(New(now), steps) {
      AgreesAtEnd(New(now), steps);
    }
    fired, early, ticks := timer.fired, timer.early, timer.ticks;
    waiting, active := timer.armed || timer.pending, timer.active;
    forall k: nat | StoppedAt(steps, k) ensures !waiting && !active {
      StoppedAtEnd(New(now), steps, k);
    }
  }
}
