/** Self-reference lifetimes of src/luafoundx.cxx over the watchers of src/timer.cxx and
    src/childprocess.cxx.

    A timer or child watcher made by a script is kept alive by counted references.  `Start`
    takes one to itself and the end of its callback drops it.  The event loop is reduced to
    three facts: an armed watcher may expire, an expired one is pending until it is
    dispatched, and nothing expires while a callback runs or while its event is pending.
    Starting an armed timer is allowed, as in the code: libev leaves its target undefined, but
    it stays armed once, which is all that matters to references. */
module Lifetimes {

  datatype Kind = Timer | Child

  datatype Obj = Obj(
    kind: Kind,
    alive: bool,
    count: nat,        // the shared reference count
    luaRefs: nat,      // references held by the script, live or not yet collected
    selfRef: bool,     // m_this_ref
    armed: bool,       // the watcher is started
    pending: bool,     // its event is queued
    active: bool,      // ixut_timer::active
    inCallback: bool,
    taken: nat,        // self-references taken and dropped so far
    dropped: nat,
    assertFailed: bool, // an assertion in the free function failed
    dangling: bool,     // freed while armed or pending
    usedAfterFree: bool // un_ref called on a freed object
  )

  datatype Step =
    | Retain   // the script copies a reference
    | Release  // the script's collector drops one
    | Start
    | Expire
    | Dispatch // the callback is entered
    | Return   // the callback is left

  /** The destructor: `ixut_timer_free` or `ixut_childw_free` with its assertions. */
  function Destroy(o: Obj): Obj {
    o.(alive := false,
       assertFailed := o.assertFailed || (if o.kind.Timer? then o.active else o.armed || o.pending),
       dangling := o.dangling || o.armed || o.pending)
  }

  /** One reference less; the last one destroys the object. */
  function Drop(o: Obj): Obj {
    if o.count <= 1 then Destroy(o.(count := 0)) else o.(count := o.count - 1)
  }

  function Ref(o: Obj): Obj {
    if o.selfRef then o else o.(selfRef := true, count := o.count + 1, taken := o.taken + 1)
  }

  /** The field is cleared before the reference is dropped. */
  function UnRef(o: Obj): Obj {
    if o.selfRef then Drop(o.(selfRef := false, dropped := o.dropped + 1)) else o
  }

  predicate Enabled(o: Obj, step: Step) {
    && o.alive
    && match step
       case Retain => o.luaRefs > 0
       case Release => o.luaRefs > 0
       case Start => (o.luaRefs > 0 || o.inCallback) && (o.kind.Child? ==> !o.armed && !o.pending)
       case Expire => o.armed && !o.pending && !o.inCallback
       case Dispatch => o.pending && !o.inCallback
       case Return => o.inCallback
  }

  /** The references that exist: the script's, the object's own, and a timer callback's
      temporary. */
  function Holders(o: Obj): nat {
    o.luaRefs + (if o.selfRef then 1 else 0) + (if o.inCallback && o.kind.Timer? then 1 else 0)
  }

  function Apply(o: Obj, step: Step): Obj
    requires Enabled(o, step)
  {
    match step
    case Retain => o.(luaRefs := o.luaRefs + 1, count := o.count + 1)
    case Release => Drop(o.(luaRefs := o.luaRefs - 1))
    case Start => Ref(o).(armed := true, active := o.kind.Timer?)
    case Expire => o.(pending := true, armed := o.kind.Child?)
    case Dispatch =>
      if o.kind.Timer? then // the argument: a temporary, and the copy the script receives
        o.(pending := false, active := false, inCallback := true, luaRefs := o.luaRefs + 1, count := o.count + 2)
      else
        o.(pending := false, armed := false, inCallback := true)
    case Return =>
      var o' := o.(inCallback := false);
      var o'' := if o.kind.Timer? then Drop(o') else o';
      if o''.alive then UnRef(o'') else o''.(usedAfterFree := true)
  }

  /** A new object, held by the script that made it. */
  function New(kind: Kind): Obj {
    Obj(kind, true, 1, 1, false, false, false, false, false, 0, 0, false, false, false)
  }

  ghost predicate IsRun(o: Obj, steps: seq<Step>)
    decreases |steps|
  {
    steps == [] || (Enabled(o, steps[0]) && IsRun(Apply(o, steps[0]), steps[1..]))
  }

  ghost function Exec(o: Obj, steps: seq<Step>): Obj
    requires IsRun(o, steps)
    decreases |steps|
  {
    if steps == [] then o else Exec(Apply(o, steps[0]), steps[1..])
  }

  // ---------- The objects, updating in place ----------

  class Watched {
    const kind: Kind
    var luaRefs: nat
    var count: nat
    var selfRef: bool
    var armed: bool
    var pending: bool
    var active: bool
    var inCallback: bool
    var alive: bool
    var taken: nat
    var dropped: nat
    var assertFailed: bool
    var dangling: bool
    var usedAfterFree: bool

    ghost function Abs(): Obj
      reads this
    {
      Obj(kind, alive, count, luaRefs, selfRef, armed, pending, active, inCallback, taken, dropped,
          assertFailed, dangling, usedAfterFree)
    }

    constructor (kind: Kind)
      ensures Abs() == New(kind)
    {
      this.kind := kind;
      alive, count, luaRefs := true, 1, 1;
      selfRef, armed, pending, active, inCallback := false, false, false, false, false;
      taken, dropped, assertFailed, dangling, usedAfterFree := 0, 0, false, false, false;
    }

    method DropRef()
      modifies this
      ensures Abs() == Drop(old(Abs()))
    {
      if count > 0 {
        count := count - 1;
      }
      if count == 0 {
        assertFailed := assertFailed || (if kind.Timer? then active else armed || pending);
        dangling := dangling || armed || pending;
        alive := false;
      }
    }

    method TakeSelf()
      modifies this
      ensures Abs() == Ref(old(Abs()))
    {
      if !selfRef {
        selfRef, count := true, count + 1;
        taken := taken + 1;
      }
    }

    method DropSelf()
      modifies this
      ensures Abs() == UnRef(old(Abs()))
    {
      if selfRef {
        selfRef := false;
        dropped := dropped + 1;
        DropRef();
      }
    }

    method StartWatching()
      requires Enabled(Abs(), Start)
      modifies this
      ensures Abs() == Apply(old(Abs()), Start)
    {
      TakeSelf();
      armed := true;
      active := kind.Timer?;
    }

    method EnterCallback()
      requires Enabled(Abs(), Dispatch)
      modifies this
      ensures Abs() == Apply(old(Abs()), Dispatch)
    {
      pending := false;
      if kind.Timer? {
        active := false;
        luaRefs, count := luaRefs + 1, count + 2;
      } else {
        armed := false;
      }
      inCallback := true;
    }

    method LeaveCallback()
      requires Enabled(Abs(), Return)
      modifies this
      ensures Abs() == Apply(old(Abs()), Return)
    {
      inCallback := false;
      if kind.Timer? {
        DropRef();
      }
      if alive {
        DropSelf();
      } else {
        usedAfterFree := true;
      }
    }

    /** What the script, the collector and the event loop do to the object. */
    method Perform(step: Step)
      requires Enabled(Abs(), step)
      modifies this
      ensures Abs() == Apply(old(Abs()), step)
    {
      match step {
        case Retain => luaRefs, count := luaRefs + 1, count + 1;
        case Release => luaRefs := luaRefs - 1; DropRef();
        case Start => StartWatching();
        case Expire => pending, armed := true, kind.Child?;
        case Dispatch => EnterCallback();
        case Return => LeaveCallback();
      }
    }
  }

  // ---------- Safety ----------

  predicate Outstanding(o: Obj) {
    o.armed || o.pending
  }

  /** An outstanding event holds its object: the object is alive and owns a reference. */
  predicate Safe(o: Obj) {
    Outstanding(o) ==> o.selfRef && o.alive
  }

  ghost predicate AlwaysSafe(o: Obj, steps: seq<Step>)
    requires IsRun(o, steps)
    decreases |steps|
  {
    Safe(o) && (steps == [] || AlwaysSafe(Apply(o, steps[0]), steps[1..]))
  }

  /** A start on top of an event that has expired but whose callback has not ended. */
  predicate Overlaps(o: Obj, step: Step) {
    step.Start? && (o.pending || o.inCallback)
  }

  ghost predicate NoOverlap(o: Obj, steps: seq<Step>)
    requires IsRun(o, steps)
    decreases |steps|
  {
    steps == [] || (!Overlaps(o, steps[0]) && NoOverlap(Apply(o, steps[0]), steps[1..]))
  }

  /** The count is right, and every self-reference taken is held or was dropped. */
  ghost predicate Counted(o: Obj) {
    && o.count == Holders(o)
    && (o.alive <==> o.count > 0)
    && o.taken == o.dropped + if o.selfRef then 1 else 0
  }

  /** The self-reference is held exactly from start to the end of the callback. */
  ghost predicate Held(o: Obj) {
    && (o.selfRef <==> Outstanding(o) || o.inCallback)
    && (o.inCallback ==> !Outstanding(o))
    && (o.kind.Timer? ==> !(o.armed && o.pending))
    && (o.kind.Timer? && o.alive ==> (o.active <==> Outstanding(o)))
  }

  ghost predicate Inv(o: Obj) {
    Counted(o) && Held(o) && !o.assertFailed && !o.dangling && !o.usedAfterFree
  }

  /** The script holds the object, an event is outstanding or its callback runs. */
  predicate Needed(o: Obj) {
    o.luaRefs > 0 || Outstanding(o) || o.inCallback
  }

  lemma {:induction false} NewInv(kind: Kind)
    ensures Inv(New(kind))
  {
    var o := New(kind);
    assert Counted(o);
    assert Held(o);
  }

  lemma {:induction false} InvStep(o: Obj, step: Step)
    requires Inv(o) && Enabled(o, step) && !Overlaps(o, step)
    ensures Inv(Apply(o, step))
  {
  }

  /** Without overlapping starts, in every run: an outstanding event means a live object that
      owns a reference; every self-reference taken is dropped once; destruction finds the
      watcher idle, so that the assertions of the free functions hold; and the object lives
      exactly as long as it is needed. */
  lemma {:induction false} NoOverlapIsSafe(o: Obj, steps: seq<Step>)
    requires Inv(o) && IsRun(o, steps) && NoOverlap(o, steps)
    ensures Inv(Exec(o, steps)) && AlwaysSafe(o, steps)
    ensures Exec(o, steps).alive <==> Needed(Exec(o, steps))
    decreases |steps|
  {
    if steps != [] {
      InvStep(o, steps[0]);
      NoOverlapIsSafe(Apply(o, steps[0]), steps[1..]);
    }
  }

  /** The event after an overlapping start is still to come when the reference is dropped. */
  predicate Doomed(o: Obj) {
    o.alive && o.count == Holders(o) && o.armed && o.selfRef && (o.inCallback || (o.kind.Timer? && o.pending))
  }

  lemma {:induction false} DoomedStep(o: Obj, step: Step)
    requires Doomed(o) && Enabled(o, step)
    ensures Doomed(Apply(o, step)) || !Safe(Apply(o, step))
  {
  }

  lemma {:induction false} DoomedIsUnsafe(o: Obj, steps: seq<Step>)
    requires Doomed(o) && IsRun(o, steps) && Settled(Exec(o, steps))
    ensures !AlwaysSafe(o, steps)
    decreases |steps|
  {
    if steps != [] {
      DoomedStep(o, steps[0]);
      if Doomed(Apply(o, steps[0])) {
        DoomedIsUnsafe(Apply(o, steps[0]), steps[1..]);
      }
    }
  }

  /** No event is waiting for its callback and no callback is running. */
  predicate Settled(o: Obj) {
    !o.pending && !o.inCallback
  }

  lemma {:induction false} RunSafety(o: Obj, steps: seq<Step>)
    requires Inv(o) && IsRun(o, steps) && Settled(Exec(o, steps))
    ensures AlwaysSafe(o, steps) <==> NoOverlap(o, steps)
    decreases |steps|
  {
    if steps != [] {
      var o' := Apply(o, steps[0]);
      if Overlaps(o, steps[0]) {
        assert Doomed(o');
        DoomedIsUnsafe(o', steps[1..]);
      } else {
        InvStep(o, steps[0]);
        RunSafety(o', steps[1..]);
      }
    }
  }

  /** For every settled run of a new timer or child watcher, the protocol is safe throughout
      exactly when no start overlapped an expired event or its callback. */
  lemma {:induction false} SafeIffNoOverlap(kind: Kind, steps: seq<Step>)
    requires IsRun(New(kind), steps) && Settled(Exec(New(kind), steps))
    ensures AlwaysSafe(New(kind), steps) <==> NoOverlap(New(kind), steps)
  {
    hide Apply, Enabled, IsRun, Exec, NoOverlap, AlwaysSafe;
    NewInv(kind);
    RunSafety(New(kind), steps);
  }

  lemma {:induction false} RunCons(o: Obj, step: Step, rest: seq<Step>)
    requires Enabled(o, step) && IsRun(Apply(o, step), rest)
    ensures IsRun(o, [step] + rest) && Exec(o, [step] + rest) == Exec(Apply(o, step), rest)
  {
    assert ([step] + rest)[1..] == rest;
  }

  /** A timer started again between expiry and dispatch ends up freed while armed, and the
      assertion in its free function does not notice. */
  lemma {:induction false} RestartWhilePending()
    ensures var steps := [Start, Expire, Start, Dispatch, Return, Release, Release];
      IsRun(New(Timer), steps) && var o := Exec(New(Timer), steps); o.dangling && !o.assertFailed
  {
    var o1 := Apply(New(Timer), Start);
    var o2 := Apply(o1, Expire);
    var o3 := Apply(o2, Start);
    var o4 := Apply(o3, Dispatch);
    var o5 := Apply(o4, Return);
    var o6 := Apply(o5, Release);
    var o7 := Apply(o6, Release);
    assert o7.dangling && !o7.assertFailed;
    hide Apply, Enabled;
    RunCons(o6, Release, []);
    RunCons(o5, Release, [Release]);
    RunCons(o4, Return, [Release, Release]);
    RunCons(o3, Dispatch, [Return, Release, Release]);
    RunCons(o2, Start, [Dispatch, Return, Release, Release]);
    RunCons(o1, Expire, [Start, Dispatch, Return, Release, Release]);
    RunCons(New(Timer), Start, [Expire, Start, Dispatch, Return, Release, Release]);
  }

  // ---------- Every event is seen through ----------

  /** How often a step occurs. */
  function Count(steps: seq<Step>, step: Step): nat {
    if steps == [] then 0 else (if steps[0] == step then 1 else 0) + Count(steps[1..], step)
  }

  /** Dropping references changes neither the watcher nor who else holds the object. */
  ghost predicate SameWatch(o: Obj, o': Obj) {
    && o'.kind == o.kind && o'.pending == o.pending && o'.armed == o.armed && o'.active == o.active
    && o'.inCallback == o.inCallback && o'.luaRefs == o.luaRefs
  }

  lemma {:induction false} DropWatch(o: Obj)
    ensures SameWatch(o, Drop(o))
  {
  }

  lemma {:induction false} UnRefWatch(o: Obj)
    ensures SameWatch(o, UnRef(o))
  {
    hide Drop;
    if o.selfRef {
      DropWatch(o.(selfRef := false, dropped := o.dropped + 1));
    }
  }

  lemma {:induction false} ReturnWatch(o: Obj)
    requires Enabled(o, Return)
    ensures SameWatch(o.(inCallback := false), Apply(o, Return))
  {
    hide Drop, UnRef;
    var o' := o.(inCallback := false);
    if o.kind.Timer? {
      DropWatch(o');
      UnRefWatch(Drop(o'));
    } else {
      UnRefWatch(o');
    }
  }

  /** The references handed to the script by a step. */
  function Handed(kind: Kind, step: Step): nat {
    if step.Retain? || (kind.Timer? && step.Dispatch?) then 1 else 0
  }

  /** What a step does to the watcher and to the script's references. */
  ghost predicate Tracks(o: Obj, step: Step, o': Obj) {
    && o'.kind == o.kind
    && (o'.pending <==> step.Expire? || (o.pending && !step.Dispatch?))
    && (o'.inCallback <==> step.Dispatch? || (o.inCallback && !step.Return?))
    && (o'.armed <==> step.Start? || (o.armed && !Disarms(o.kind, step)))
    && o'.luaRefs + (if step.Release? then 1 else 0) == o.luaRefs + Handed(o.kind, step)
  }

  lemma {:induction false} DropTracks(o: Obj, step: Step)
    requires Enabled(o, step) && (step.Release? || step.Return?)
    ensures Tracks(o, step, Apply(o, step))
  {
    hide Drop, UnRef;
    if step.Release? {
      DropWatch(o.(luaRefs := o.luaRefs - 1));
    } else {
      ReturnWatch(o);
      hide Apply;
    }
  }

  lemma {:induction false} BalancedStep(o: Obj, step: Step)
    requires Enabled(o, step)
    ensures Tracks(o, step, Apply(o, step))
  {
    hide Drop, UnRef;
    if step.Release? || step.Return? {
      DropTracks(o, step);
      hide Apply, Tracks;
    }
  }

  /** Over every run, with or without overlapping starts: each expiry is pending until its
      callback is entered, and each callback runs until it is left. */
  lemma {:induction false} EventsAreBalanced(o: Obj, steps: seq<Step>)
    requires IsRun(o, steps)
    ensures var o' := Exec(o, steps);
      && (if o.pending then 1 else 0) + Count(steps, Expire) == (if o'.pending then 1 else 0) + Count(steps, Dispatch)
      && (if o.inCallback then 1 else 0) + Count(steps, Dispatch)
           == (if o'.inCallback then 1 else 0) + Count(steps, Return)
    decreases |steps|
  {
    if steps != [] {
      assert (steps[0].Expire? || steps[0].Dispatch?) ==> (o.pending <==> steps[0].Dispatch?);
      assert (steps[0].Dispatch? || steps[0].Return?) ==> (o.inCallback <==> steps[0].Return?);
      hide Enabled, Apply;
      BalancedStep(o, steps[0]);
      EventsAreBalanced(Apply(o, steps[0]), steps[1..]);
    }
  }

  /** Over every run, the script's references are those it copied and was handed by a timer's
      callback, less those it released. */
  lemma {:induction false} ScriptReferences(o: Obj, steps: seq<Step>)
    requires IsRun(o, steps)
    ensures o.luaRefs + Count(steps, Retain) + (if o.kind.Timer? then Count(steps, Dispatch) else 0)
         == Exec(o, steps).luaRefs + Count(steps, Release)
    decreases |steps|
  {
    if steps != [] {
      hide Enabled, Apply;
      BalancedStep(o, steps[0]);
      ScriptReferences(Apply(o, steps[0]), steps[1..]);
    }
  }

  /** The starts of a run that find no event under way. */
  ghost function FreshStarts(o: Obj, steps: seq<Step>): nat
    requires IsRun(o, steps)
    decreases |steps|
  {
    if steps == [] then 0 else
      (if steps[0].Start? && !Outstanding(o) && !o.inCallback then 1 else 0)
      + FreshStarts(Apply(o, steps[0]), steps[1..])
  }

  /** Without overlapping starts, over every run: one self-reference is taken by each start that
      finds no event under way, and one is dropped by each callback that ends. */
  lemma {:induction false} ReferencesFollowEvents(o: Obj, steps: seq<Step>)
    requires Inv(o) && IsRun(o, steps) && NoOverlap(o, steps)
    ensures Exec(o, steps).taken == o.taken + FreshStarts(o, steps)
    ensures Exec(o, steps).dropped == o.dropped + Count(steps, Return)
    decreases |steps|
  {
    if steps != [] {
      InvStep(o, steps[0]);
      ReferencesFollowEvents(Apply(o, steps[0]), steps[1..]);
    }
  }

  /** The step that ends the watch: a timer's is stopped when it expires, a child's by its
      callback. */
  predicate Disarms(kind: Kind, step: Step) {
    if kind.Timer? then step.Expire? else step.Dispatch?
  }

  /** A start, or none if the watcher was armed before, that nothing has ended since. */
  ghost predicate StillArmed(o: Obj, steps: seq<Step>) {
    || (o.armed && forall i :: 0 <= i < |steps| ==> !Disarms(o.kind, steps[i]))
    || exists j :: 0 <= j < |steps| && ArmedAt(o.kind, steps, j)
  }

  ghost predicate ArmedAt(kind: Kind, steps: seq<Step>, j: nat)
    requires j < |steps|
  {
    steps[j].Start? && forall i :: j < i < |steps| ==> !Disarms(kind, steps[i])
  }

  /** Over every run the watcher is armed exactly from a start to the step that ends it. */
  lemma {:induction false} ArmedFromStart(o: Obj, steps: seq<Step>)
    requires IsRun(o, steps)
    ensures Exec(o, steps).armed <==> StillArmed(o, steps)
    decreases |steps|
  {
    if steps != [] {
      hide Enabled, Apply, StillArmed;
      BalancedStep(o, steps[0]);
      ArmedFromStart(Apply(o, steps[0]), steps[1..]);
      StillArmedCons(o, steps, Apply(o, steps[0]));
    } else {
      assert StillArmed(o, steps) <==> o.armed;
    }
  }

  lemma {:induction false} StillArmedCons(o: Obj, steps: seq<Step>, o': Obj)
    requires steps != [] && o'.kind == o.kind
    requires o'.armed <==> steps[0].Start? || (o.armed && !Disarms(o.kind, steps[0]))
    ensures StillArmed(o, steps) <==> StillArmed(o', steps[1..])
  {
    hide Disarms;
    var rest := steps[1..];
    assert forall i :: 0 <= i < |rest| ==> rest[i] == steps[i + 1];
    assert forall i :: 1 <= i < |steps| ==> steps[i] == rest[i - 1];
    forall j | 0 <= j < |rest| ensures ArmedAt(o.kind, rest, j) <==> ArmedAt(o.kind, steps, j + 1) {
    }
    if exists j :: 0 <= j < |steps| && ArmedAt(o.kind, steps, j) {
      var j :| 0 <= j < |steps| && ArmedAt(o.kind, steps, j);
      assert j > 0 ==> ArmedAt(o.kind, rest, j - 1);
    }
    if exists j :: 0 <= j < |rest| && ArmedAt(o.kind, rest, j) {
      var j :| 0 <= j < |rest| && ArmedAt(o.kind, rest, j);
      assert ArmedAt(o.kind, steps, j + 1);
    }
    if steps[0].Start? && forall i :: 0 <= i < |rest| ==> !Disarms(o.kind, rest[i]) {
      assert ArmedAt(o.kind, steps, 0);
    }
  }

  /** What destruction finds, over every run of a new object, overlapping starts or not: it is
      marked dangling exactly if an event is outstanding, and an assertion fails exactly if a
      timer counts as active or a child's event is outstanding. */
  ghost predicate Judged(o: Obj) {
    && (o.dangling <==> !o.alive && Outstanding(o))
    && (o.assertFailed <==> !o.alive && if o.kind.Timer? then o.active else Outstanding(o))
  }

  lemma {:induction false} DropJudged(o: Obj)
    requires Judged(o) && o.alive
    ensures Judged(Drop(o)) && Judged(UnRef(o))
  {
  }

  lemma {:induction false} JudgedStep(o: Obj, step: Step)
    requires Judged(o) && Enabled(o, step)
    ensures Judged(Apply(o, step))
  {
    if step.Release? {
      DropJudged(o.(luaRefs := o.luaRefs - 1));
    } else if step.Return? {
      var o' := o.(inCallback := false);
      DropJudged(o');
      var o'' := if o.kind.Timer? then Drop(o') else o';
      if o''.alive {
        DropJudged(o'');
      }
    }
  }

  lemma {:induction false} DestructionIsJudged(o: Obj, steps: seq<Step>)
    requires Judged(o) && IsRun(o, steps)
    ensures Judged(Exec(o, steps))
    decreases |steps|
  {
    if steps != [] {
      hide Enabled, Apply, Judged;
      JudgedStep(o, steps[0]);
      DestructionIsJudged(Apply(o, steps[0]), steps[1..]);
    }
  }

  /** A child watcher started again by its own callback is freed while armed, and the assertion
      in its free function fails. */
  lemma {:induction false} ChildRestartInCallback()
    ensures var steps := [Start, Expire, Dispatch, Start, Return, Release];
      IsRun(New(Child), steps) && var o := Exec(New(Child), steps); o.dangling && o.assertFailed
  {
    var o1 := Apply(New(Child), Start);
    var o2 := Apply(o1, Expire);
    var o3 := Apply(o2, Dispatch);
    var o4 := Apply(o3, Start);
    var o5 := Apply(o4, Return);
    var o6 := Apply(o5, Release);
    assert o6.dangling && o6.assertFailed;
    hide Apply, Enabled;
    RunCons(o5, Release, []);
    RunCons(o4, Return, [Release]);
    RunCons(o3, Start, [Return, Release]);
    RunCons(o2, Dispatch, [Start, Return, Release]);
    RunCons(o1, Expire, [Dispatch, Start, Return, Release]);
    RunCons(New(Child), Start, [Expire, Dispatch, Start, Return, Release]);
  }

  /** A timer restarted while pending loses its reference to the first callback; the second
      one frees the object if the script lets go meanwhile, and then uses it. */
  lemma {:induction false} UsedAfterRestart()
    ensures var steps := [Start, Expire, Start, Dispatch, Return, Expire, Dispatch, Release, Release, Release, Return];
      IsRun(New(Timer), steps) && Exec(New(Timer), steps).usedAfterFree
  {
    var o1 := Apply(New(Timer), Start);
    var o2 := Apply(o1, Expire);
    var o3 := Apply(o2, Start);
    var o4 := Apply(o3, Dispatch);
    var o5 := Apply(o4, Return);
    UsedTail(o5);
    hide Apply, Enabled;
    RunCons(o4, Return, [Expire, Dispatch, Release, Release, Release, Return]);
    RunCons(o3, Dispatch, [Return, Expire, Dispatch, Release, Release, Release, Return]);
    RunCons(o2, Start, [Dispatch, Return, Expire, Dispatch, Release, Release, Release, Return]);
    RunCons(o1, Expire, [Start, Dispatch, Return, Expire, Dispatch, Release, Release, Release, Return]);
    RunCons(New(Timer), Start,
            [Expire, Start, Dispatch, Return, Expire, Dispatch, Release, Release, Release, Return]);
  }

  lemma {:induction false} UsedTail(o: Obj)
    requires o == Obj(Timer, true, 2, 2, false, true, false, false, false, 1, 1, false, false, false)
    ensures var steps := [Expire, Dispatch, Release, Release, Release, Return];
      IsRun(o, steps) && Exec(o, steps).usedAfterFree
  {
    var o1 := Apply(o, Expire);
    var o2 := Apply(o1, Dispatch);
    var o3 := Apply(o2, Release);
    var o4 := Apply(o3, Release);
    var o5 := Apply(o4, Release);
    var o6 := Apply(o5, Return);
    assert o6.usedAfterFree;
    hide Apply, Enabled;
    RunCons(o5, Return, []);
    RunCons(o4, Release, [Return]);
    RunCons(o3, Release, [Release, Return]);
    RunCons(o2, Release, [Release, Release, Return]);
    RunCons(o1, Dispatch, [Release, Release, Release, Return]);
    RunCons(o, Expire, [Dispatch, Release, Release, Release, Return]);
  }

  // ---------- The code over whole runs ----------

  /** The code, driven by any run of script, collector and event loop, is the machine.  Without
      overlapping starts nothing goes wrong and the object lives exactly as long as it is
      needed, and each callback that ended dropped one reference; a settled run is safe
      throughout exactly without them.  Every dispatched callback is running or has ended. */
  method Drive(kind: Kind, steps: seq<Step>)
    returns (alive: bool, outstanding: bool, failed: bool, running: bool, dropped: nat)
    requires IsRun(New(kind), steps)
    ensures var o := Exec(New(kind), steps);
      && alive == o.alive && outstanding == Outstanding(o)
      && failed == (o.assertFailed || o.dangling || o.usedAfterFree)
      && (NoOverlap(New(kind), steps) ==> !failed && (alive <==> Needed(o)) && (outstanding ==> alive))
      && (Settled(o) ==> (AlwaysSafe(New(kind), steps) <==> NoOverlap(New(kind), steps)))
      && running == o.inCallback && Count(steps, Dispatch) == Count(steps, Return) + (if running then 1 else 0)
      && dropped == o.dropped && (NoOverlap(New(kind), steps) ==> dropped == Count(steps, Return))
      && (o.armed <==> StillArmed(New(kind), steps))
  {
    hide Apply, Enabled, Count, StillArmed;
    var w := new Watched(kind);
    var k := 0;
    while k < |steps|
      invariant 0 <= k <= |steps| && fresh(w)
      invariant IsRun(w.Abs(), steps[k..])
      invariant Exec(w.Abs(), steps[k..]) == Exec(New(kind), steps)
    {
      assert steps[k..][1..] == steps[k + 1..];
      w.Perform(steps[k]);
      k := k + 1;
    }
    Guarantees(kind, steps);
    alive, outstanding := w.alive, w.armed || w.pending;
    failed := w.assertFailed || w.dangling || w.usedAfterFree;
    running, dropped := w.inCallback, w.dropped;
  }

  lemma {:induction false} Guarantees(kind: Kind, steps: seq<Step>)
    requires IsRun(New(kind), steps)
    ensures var o := Exec(New(kind), steps);
      && (NoOverlap(New(kind), steps) ==> Inv(o))
      && (Settled(o) ==> (AlwaysSafe(New(kind), steps) <==> NoOverlap(New(kind), steps)))
      && Count(steps, Dispatch) == Count(steps, Return) + (if o.inCallback then 1 else 0)
      && (NoOverlap(New(kind), steps) ==> o.dropped == Count(steps, Return))
      && (o.armed <==> StillArmed(New(kind), steps))
  {
    assert !New(kind).inCallback && New(kind).dropped == 0;
    hide *;
    EventsAreBalanced(New(kind), steps);
    ArmedFromStart(New(kind), steps);
    NewInv(kind);
    var o := New(kind);
    if NoOverlap(o, steps) {
      NoOverlapIsSafe(o, steps);
      ReferencesFollowEvents(o, steps);
    }
    if Settled(Exec(o, steps)) {
      RunSafety(o, steps);
    }
  }
}
