/** The tracer loop and the judging session of oj/iojxd.lua, over an arbitrary finite trace of
    wait results.  Each event holds the raw status, the system call in the registers when the
    child is stopped, and the resource figures. */
module Tracer {
  import opened Common
  import opened WaitStatus

  const SIGKILL := 9
  const SIGSEGV := 11
  const SIGPROF := 27

  datatype Event = Event(raw: int, syscall: string, timeMs: real, mem: int)

  datatype Verdict = AC | WA | TLE | MLE | RE | CE

  /** The text after the figures: a message naming a system call, or the compiler's output. */
  datatype Log = InvalidCall(name: string) | Compiler(text: string)

  /** One call of `write_status` that reached the file. */
  datatype Report = Report(verdict: Verdict, timeMs: real, mem: int, log: Option<Log>)

  datatype Request = Syscall | Kill

  /** `Crashed`: the output file did not open and writing to it raised. */
  datatype Phase = Waiting | Finished | Crashed

  /** What the tracer is given besides the events. */
  datatype Job = Job(whitelist: seq<string>, diffEmpty: bool, outfileOpens: bool)

  datatype Outcome = Outcome(phase: Phase, requests: seq<Request>, reports: seq<Report>)

  /** `lutil.inside`: a linear search with early return. */
  method Inside<T>(arr: seq<T>, element: T, cmp: (T, T) -> bool) returns (found: bool)
    ensures found <==> exists i :: 0 <= i < |arr| && cmp(arr[i], element)
  {
    for i := 0 to |arr|
      invariant forall j :: 0 <= j < i ==> !cmp(arr[j], element)
    {
      if cmp(arr[i], element) {
        return true;
      }
    }
    return false;
  }

  // ---------- What a trace means, without the loop ----------

  /** The tracer stops waiting at this event. */
  predicate Final(e: Event) {
    IfExited(e.raw) || IfSignaled(e.raw) || (IfStopped(e.raw) && ExitCode(e.raw) == SIGPROF)
  }

  /** A stop that the tracer inspects. */
  predicate IsStop(e: Event) {
    IfStopped(e.raw) && ExitCode(e.raw) != SIGPROF
  }

  /** The index of the first final event, or the length of the trace. */
  function FirstFinal(es: seq<Event>): (k: nat)
    ensures k <= |es|
    ensures forall i :: 0 <= i < k ==> !Final(es[i])
    ensures k < |es| ==> Final(es[k])
  {
    if es == [] || Final(es[0]) then 0 else 1 + FirstFinal(es[1..])
  }

  ghost predicate StopBefore(es: seq<Event>, i: nat)
    requires i <= |es|
  {
    exists j :: 0 <= j < i && IsStop(es[j])
  }

  /** A stop after the first whose call is not on the whitelist. */
  ghost predicate Offends(job: Job, es: seq<Event>, i: nat)
    requires i < |es|
  {
    IsStop(es[i]) && StopBefore(es, i) && es[i].syscall !in job.whitelist
  }

  /** The number of stops among the first `i` events. */
  ghost function Stops(es: seq<Event>, i: nat): nat
    requires i <= |es|
  {
    if i == 0 then 0 else Stops(es, i - 1) + if IsStop(es[i - 1]) then 1 else 0
  }

  /** Each stop among the first `k` events got one request, in order: Kill if it offends and
      Syscall otherwise. */
  ghost predicate RequestsRight(job: Job, es: seq<Event>, k: nat, requests: seq<Request>)
    requires k <= |es|
  {
    && |requests| == Stops(es, k)
    && forall i {:trigger Offends(job, es, i)} :: 0 <= i < k && IsStop(es[i]) ==>
         && Stops(es, i) < |requests|
         && requests[Stops(es, i)] == if Offends(job, es, i) then Kill else Syscall
  }

  /** The last offence among the first `k` events is at `i`. */
  ghost predicate LastAt(job: Job, es: seq<Event>, k: nat, i: nat)
    requires k <= |es|
  {
    i < k && Offends(job, es, i) && forall j :: i < j < k ==> !Offends(job, es, j)
  }

  /** `name` is the call of the last offence among the first `k` events, if there is one. */
  ghost predicate LastOffence(job: Job, es: seq<Event>, k: nat, name: Option<string>)
    requires k <= |es|
  {
    match name
    case None => forall i :: 0 <= i < k ==> !Offends(job, es, i)
    case Some(n) => exists i: nat :: LastAt(job, es, k, i) && es[i].syscall == n
  }

  /** The verdict on the final event `e`, given the last offence before it. */
  function Verdicts(job: Job, e: Event, name: Option<string>): seq<Report> {
    if IfExited(e.raw) then [Report(if job.diffEmpty then AC else WA, e.timeMs, e.mem, None)]
    else if IfSignaled(e.raw) then
      if TermSig(e.raw) == SIGSEGV then [Report(RE, e.timeMs, e.mem, None)]
      else if TermSig(e.raw) == SIGPROF then [Report(TLE, e.timeMs, e.mem, None)]
      else if TermSig(e.raw) == SIGKILL then
        match name
        case Some(n) => [Report(RE, e.timeMs, e.mem, Some(InvalidCall(n)))]
        case None => [Report(MLE, e.timeMs, e.mem, None)]
      else []
    else [Report(TLE, e.timeMs, e.mem, None)]
  }

  /** Reports reach the file unless it does not open, which raises. */
  function Written(job: Job, requests: seq<Request>, reports: seq<Report>): Outcome {
    if reports == [] || job.outfileOpens then Outcome(Finished, requests, reports)
    else Outcome(Crashed, requests, [])
  }

  /** The outcome of a trace whose first final event is at `k`, if there is one. */
  ghost predicate Judged(job: Job, es: seq<Event>, out: Outcome) {
    var k := FirstFinal(es);
    && RequestsRight(job, es, k, out.requests)
    && if k == |es| then out == Outcome(Waiting, out.requests, [])
       else exists name :: LastOffence(job, es, k, name)
              && out == Written(job, out.requests, Verdicts(job, es[k], name))
  }

  // ---------- The loop ----------

  /** What the loop variables hold after `k` events, none of them final. */
  ghost predicate Progress(job: Job, es: seq<Event>, k: nat, inited: bool, overflow: Option<string>,
                           requests: seq<Request>) {
    && k <= |es|
    && (forall i :: 0 <= i < k ==> !Final(es[i]))
    && (inited <==> StopBefore(es, k))
    && RequestsRight(job, es, k, requests)
    && LastOffence(job, es, k, overflow)
  }

  lemma {:induction false} ProgressSkip(job: Job, es: seq<Event>, k: nat, inited: bool, overflow: Option<string>,
                     requests: seq<Request>)
    requires Progress(job, es, k, inited, overflow, requests) && k < |es|
    requires !IsStop(es[k]) && !Final(es[k])
    ensures Progress(job, es, k + 1, inited, overflow, requests)
  {
    hide Final, IsStop, RequestsRight;
    assert !Offends(job, es, k);
    assert StopBefore(es, k + 1) <==> StopBefore(es, k);
    RequestsSkip(job, es, k, requests);
    assert LastOffence(job, es, k + 1, overflow) by {
      if overflow.Some? {
        var i: nat :| LastAt(job, es, k, i) && es[i].syscall == overflow.value;
        assert LastAt(job, es, k + 1, i);
      }
    }
  }

  lemma {:induction false} RequestsSkip(job: Job, es: seq<Event>, k: nat, requests: seq<Request>)
    requires k < |es| && !IsStop(es[k]) && RequestsRight(job, es, k, requests)
    ensures RequestsRight(job, es, k + 1, requests)
  {
    hide IsStop;
    assert Stops(es, k + 1) == Stops(es, k);
    forall i | 0 <= i < k + 1 && IsStop(es[i])
      ensures Stops(es, i) < |requests|
      ensures requests[Stops(es, i)] == if Offends(job, es, i) then Kill else Syscall
    {
      assert i < k;
      var offends := Offends(job, es, i);
    }
  }

  lemma {:induction false} StopsMonotone(es: seq<Event>, i: nat, j: nat)
    requires i <= j <= |es|
    ensures Stops(es, i) <= Stops(es, j)
    decreases j
  {
    if i < j {
      StopsMonotone(es, i, j - 1);
    }
  }

  lemma {:induction false} RequestsStop(job: Job, es: seq<Event>, k: nat, requests: seq<Request>)
    requires k < |es| && IsStop(es[k]) && RequestsRight(job, es, k, requests)
    ensures RequestsRight(job, es, k + 1, requests + [if Offends(job, es, k) then Kill else Syscall])
  {
    hide IsStop, Offends;
    forall i | 0 <= i < k && IsStop(es[i]) ensures Stops(es, i) < |requests| {
      StopsMonotone(es, i + 1, k);
    }
  }

  lemma {:induction false} ProgressStop(job: Job, es: seq<Event>, k: nat, inited: bool, overflow: Option<string>,
                     requests: seq<Request>)
    requires Progress(job, es, k, inited, overflow, requests) && k < |es| && IsStop(es[k])
    ensures var kill := inited && es[k].syscall !in job.whitelist;
      Progress(job, es, k + 1, true, if kill then Some(es[k].syscall) else overflow,
               requests + [if kill then Kill else Syscall])
  {
    KindsAreExclusive(es[k].raw);
    assert !Final(es[k]);
    hide Final, IsStop, RequestsRight;
    var kill := inited && es[k].syscall !in job.whitelist;
    assert kill <==> Offends(job, es, k);
    var name := if kill then Some(es[k].syscall) else overflow;
    assert LastOffence(job, es, k + 1, name) by {
      assert kill ==> LastAt(job, es, k + 1, k);
      if !kill && overflow.Some? {
        var i: nat :| LastAt(job, es, k, i) && es[i].syscall == overflow.value;
        assert LastAt(job, es, k + 1, i);
      }
    }
    RequestsStop(job, es, k, requests);
  }

  /** The signal branch of the loop. */
  method SignalReports(e: Event, overflow: Option<string>) returns (reports: seq<Report>)
    requires IfSignaled(e.raw)
    ensures forall job :: reports == Verdicts(job, e, overflow)
  {
    KindsAreExclusive(e.raw);
    reports := [];
    if TermSig(e.raw) == SIGSEGV {
      return [Report(RE, e.timeMs, e.mem, None)];
    }
    if TermSig(e.raw) == SIGPROF {
      reports := [Report(TLE, e.timeMs, e.mem, None)];
    }
    if TermSig(e.raw) == SIGKILL {
      if overflow.Some? {
        reports := [Report(RE, e.timeMs, e.mem, Some(InvalidCall(overflow.value)))];
      } else {
        reports := [Report(MLE, e.timeMs, e.mem, None)];
      }
    }
  }

  /** `evaluate_tracer`. */
  method EvaluateTracer(job: Job, es: seq<Event>) returns (out: Outcome)
    ensures Judged(job, es, out)
  {
    hide RequestsRight, LastOffence, StopBefore, Verdicts;
    var inited := false;
    var overflow: Option<string> := None; // status.name and status.syscall_name
    var requests: seq<Request> := [];
    Start(job, es);
    for k := 0 to |es|
      invariant Progress(job, es, k, inited, overflow, requests)
    {
      var e := es[k];
      KindsAreExclusive(e.raw);
      if IfExited(e.raw) {
        Exit(job, e, overflow);
        return Written(job, requests, [Report(if job.diffEmpty then AC else WA, e.timeMs, e.mem, None)]);
      } else if IfSignaled(e.raw) {
        var reports := SignalReports(e, overflow);
        return Written(job, requests, reports);
      } else if IfStopped(e.raw) {
        if ExitCode(e.raw) == SIGPROF {
          Exit(job, e, overflow);
          return Written(job, requests, [Report(TLE, e.timeMs, e.mem, None)]);
        }
        ProgressStop(job, es, k, inited, overflow, requests);
        if !inited {
          inited := true;
          requests := requests + [Syscall];
        } else {
          var allowed := Inside(job.whitelist, e.syscall, (x, y) => x == y);
          if !allowed {
            overflow := Some(e.syscall);
            requests := requests + [Kill];
          } else {
            requests := requests + [Syscall];
          }
        }
      } else {
        ProgressSkip(job, es, k, inited, overflow, requests);
      }
    }
    out := Outcome(Waiting, requests, []);
  }

  lemma {:induction false} Start(job: Job, es: seq<Event>)
    ensures Progress(job, es, 0, false, None, [])
  {
  }

  lemma {:induction false} Exit(job: Job, e: Event, name: Option<string>)
    requires Final(e) && !IfSignaled(e.raw)
    ensures Verdicts(job, e, name) ==
      [Report(if !IfExited(e.raw) then TLE else if job.diffEmpty then AC else WA, e.timeMs, e.mem, None)]
  {
  }

  // ---------- What every run guarantees ----------

  /** `Judged` leaves nothing open: a trace has one outcome. */
  lemma {:induction false} OneOutcome(job: Job, es: seq<Event>, a: Outcome, b: Outcome)
    requires Judged(job, es, a) && Judged(job, es, b)
    ensures a == b
  {
    hide RequestsRight, LastOffence, Verdicts, Final;
    var k := FirstFinal(es);
    SameRequests(job, es, k, a.requests, b.requests);
    if k < |es| {
      var x :| LastOffence(job, es, k, x) && a == Written(job, a.requests, Verdicts(job, es[k], x));
      JudgedBy(job, es, b, x);
    }
  }

  lemma {:induction false} SameRequests(job: Job, es: seq<Event>, k: nat, a: seq<Request>, b: seq<Request>)
    requires k <= |es| && RequestsRight(job, es, k, a) && RequestsRight(job, es, k, b)
    ensures a == b
  {
    forall n | 0 <= n < |a| ensures a[n] == b[n] {
      var i := StopNumber(es, k, n);
      assert a[n] == if Offends(job, es, i) then Kill else Syscall;
    }
  }

  lemma {:induction false} StopNumber(es: seq<Event>, k: nat, n: nat) returns (i: nat)
    requires k <= |es| && n < Stops(es, k)
    ensures i < k && IsStop(es[i]) && Stops(es, i) == n
    decreases k
  {
    if n < Stops(es, k - 1) {
      i := StopNumber(es, k - 1, n);
    } else {
      i := k - 1;
    }
  }

  lemma {:induction false} OneLastOffence(job: Job, es: seq<Event>, k: nat, x: Option<string>, y: Option<string>)
    requires k <= |es| && LastOffence(job, es, k, x) && LastOffence(job, es, k, y)
    ensures x == y
  {
    if x.Some? && y.Some? {
      var i: nat :| LastAt(job, es, k, i) && es[i].syscall == x.value;
      var i': nat :| LastAt(job, es, k, i') && es[i'].syscall == y.value;
      assert !(i < i') && !(i' < i);
    }
  }

  /** The verdict is that of the final event, given the last offence before it. */
  lemma {:induction false} JudgedBy(job: Job, es: seq<Event>, out: Outcome, name: Option<string>)
    requires Judged(job, es, out) && FirstFinal(es) < |es| && LastOffence(job, es, FirstFinal(es), name)
    ensures out == Written(job, out.requests, Verdicts(job, es[FirstFinal(es)], name))
  {
    hide LastOffence, RequestsRight, Final;
    var k := FirstFinal(es);
    var x :| LastOffence(job, es, k, x) && out == Written(job, out.requests, Verdicts(job, es[k], x));
    OneLastOffence(job, es, k, x, name);
  }

  /** The signals whose handling writes a verdict. */
  predicate VerdictSignal(sig: nat) {
    sig == SIGSEGV || sig == SIGPROF || sig == SIGKILL
  }

  /** A run writes at most one verdict.  Once it has ended it has written one exactly when the
      output file opened and the child was not killed by a signal other than the three. */
  lemma {:induction false} VerdictCount(job: Job, es: seq<Event>, out: Outcome)
    requires Judged(job, es, out)
    ensures |out.reports| <= 1
    ensures var k := FirstFinal(es);
      |out.reports| == 1 <==>
        k < |es| && job.outfileOpens && (IfSignaled(es[k].raw) ==> VerdictSignal(TermSig(es[k].raw)))
    ensures out.phase == Waiting <==> FirstFinal(es) == |es|
  {
    hide RequestsRight, LastOffence;
    if FirstFinal(es) < |es| {
      KindsAreExclusive(es[FirstFinal(es)].raw);
    }
  }

  /** Every whitelisted or first stop is let through and every other stop is killed; the
      exemption of a call that is not on the list is used by one stop at most. */
  lemma {:induction false} ExemptionUsedOnce(job: Job, es: seq<Event>, out: Outcome, i: nat, j: nat)
    requires Judged(job, es, out) && i < j < FirstFinal(es) && IsStop(es[i]) && IsStop(es[j])
    requires es[i].syscall !in job.whitelist && es[j].syscall !in job.whitelist
    ensures Stops(es, j) < |out.requests| && out.requests[Stops(es, j)] == Kill
  {
    assert Offends(job, es, j);
  }

  /** The report of a run that was killed for calling `name`. */
  function CallReport(e: Event, name: string): Report {
    Report(RE, e.timeMs, e.mem, Some(InvalidCall(name)))
  }

  predicate DiedBySigkill(e: Event) {
    IfSignaled(e.raw) && TermSig(e.raw) == SIGKILL
  }

  ghost predicate Gave(out: Outcome, verdicts: set<Verdict>) {
    out.reports != [] && out.reports[0].verdict in verdicts
  }

  /** The exact verdict on a run with an offence, whatever the child does after being told to
      die: it is RE naming the last offence if and only if the child's end is a death by
      SIGKILL, and it is AC or WA if and only if the child exited; it is never MLE. */
  lemma {:induction false} OffenderVerdict(job: Job, es: seq<Event>, out: Outcome, name: string)
    requires Judged(job, es, out) && job.outfileOpens
    requires FirstFinal(es) < |es| && LastOffence(job, es, FirstFinal(es), Some(name))
    ensures var e := es[FirstFinal(es)];
      && (out.reports == [CallReport(e, name)] <==> DiedBySigkill(e))
      && (Gave(out, {AC, WA, MLE}) <==> IfExited(e.raw))
      && !Gave(out, {MLE})
  {
    var e := es[FirstFinal(es)];
    JudgedBy(job, es, out, Some(name));
    KindsAreExclusive(e.raw);
    hide Judged, LastOffence;
    assert out.reports == Verdicts(job, e, Some(name));
    assert Final(e);
  }

  /** Some last offence exists as soon as there is one. */
  lemma {:induction false} LastExists(job: Job, es: seq<Event>, k: nat, i: nat) returns (j: nat)
    requires i < k <= |es| && Offends(job, es, i)
    ensures i <= j && LastAt(job, es, k, j)
    decreases k
  {
    if Offends(job, es, k - 1) {
      j := k - 1;
    } else {
      j := LastExists(job, es, k - 1, i);
      assert LastAt(job, es, k, j);
    }
  }

  /** For each handled offence: the run ends with RE naming its call if and only if the child
      dies by SIGKILL and the last offence was by that call. */
  lemma {:induction false} OffenceIsReported(job: Job, es: seq<Event>, out: Outcome, i: nat, j: nat)
    requires Judged(job, es, out) && job.outfileOpens && FirstFinal(es) < |es|
    requires i <= j < FirstFinal(es) && Offends(job, es, i) && LastAt(job, es, FirstFinal(es), j)
    ensures var e := es[FirstFinal(es)];
      out.reports == [CallReport(e, es[i].syscall)] <==> DiedBySigkill(e) && es[j].syscall == es[i].syscall
  {
    assert LastOffence(job, es, FirstFinal(es), Some(es[j].syscall));
    OffenderVerdict(job, es, out, es[j].syscall);
    KindsAreExclusive(es[FirstFinal(es)].raw);
    JudgedBy(job, es, out, Some(es[j].syscall));
  }

  /** MLE is given only to runs without an offence.  AC and WA are, in a run with an offence,
      given exactly when the child exited in spite of the kill. */
  lemma {:induction false} CleanVerdict(job: Job, es: seq<Event>, out: Outcome)
    requires Judged(job, es, out)
    ensures Gave(out, {MLE}) ==> forall i :: 0 <= i < FirstFinal(es) ==> !Offends(job, es, i)
    ensures FirstFinal(es) < |es| && job.outfileOpens
              && (exists i :: 0 <= i < FirstFinal(es) && Offends(job, es, i)) ==>
      (Gave(out, {AC, WA}) <==> IfExited(es[FirstFinal(es)].raw))
  {
    VerdictCount(job, es, out);
    var k := FirstFinal(es);
    if k < |es| && job.outfileOpens && exists i :: 0 <= i < k && Offends(job, es, i) {
      var i :| 0 <= i < k && Offends(job, es, i);
      var j := LastExists(job, es, k, i);
      OffenderVerdict(job, es, out, es[j].syscall);
    }
  }

  /** The contract of `PTRACE_KILL`: what is waited for after a handled offence is a death by
      SIGKILL.  It makes every offence the last event but one, so it is reported. */
  ghost predicate KillsAreObeyed(job: Job, es: seq<Event>) {
    forall i :: 0 <= i < FirstFinal(es) && Offends(job, es, i) && i + 1 < |es| ==> DiedBySigkill(es[i + 1])
  }

  lemma {:induction false} ObeyedKillIsReported(job: Job, es: seq<Event>, out: Outcome, i: nat)
    requires Judged(job, es, out) && job.outfileOpens && KillsAreObeyed(job, es)
    requires i < FirstFinal(es) && i + 1 < |es| && Offends(job, es, i)
    ensures FirstFinal(es) == i + 1 && out.reports == [CallReport(es[i + 1], es[i].syscall)]
  {
    assert Final(es[i + 1]);
    assert LastAt(job, es, i + 1, i);
    OffenceIsReported(job, es, out, i, i);
  }

  /** Without the contract the verdict depends on the final event alone: an offender whose
      kill does not arrive and who then exits with the right output is accepted. */
  lemma {:induction false} UnobeyedKillIsAccepted(name: string, out: Outcome)
    requires Judged(Job([], true, true),
      [Event(0x057f, "execve", 0.0, 0), Event(0x057f, name, 0.0, 0), Event(0, "", 1.0, 1)], out)
    ensures out.requests == [Syscall, Kill] && out.reports == [Report(AC, 1.0, 1, None)]
  {
    var job := Job([], true, true);
    var a, b, c := Event(0x057f, "execve", 0.0, 0), Event(0x057f, name, 0.0, 0), Event(0, "", 1.0, 1);
    var es := [a, b, c];
    assert IsStop(es[0]) && IsStop(es[1]) && !Final(es[0]) && !Final(es[1]) && Final(es[2]);
    assert FirstFinal(es) == 2;
    assert Stops(es, 0) == 0 && Stops(es, 1) == 1 && Stops(es, 2) == 2;
    assert !Offends(job, es, 0) && Offends(job, es, 1);
  }

  // ---------- The verdict table, on raw statuses ----------

  /** The event that ends the trace: an exit, a death by a signal, or a stop by signal 27. */
  predicate Ends(raw: int) {
    raw % 128 < 127 || (raw % 256 == 127 && raw / 256 % 256 == 27)
  }

  /** Any other stop. */
  predicate Halts(raw: int) {
    raw % 256 == 127 && raw / 256 % 256 != 27
  }

  /** The trace ends at event `k`. */
  predicate EndsAt(es: seq<Event>, k: nat) {
    k < |es| && Ends(es[k].raw) && forall j :: 0 <= j < k ==> !Ends(es[j].raw)
  }

  /** Event `i` stops in a call that is not on the list, and is not the first to stop. */
  ghost predicate Forbidden(job: Job, es: seq<Event>, i: nat)
    requires i < |es|
  {
    Halts(es[i].raw) && es[i].syscall !in job.whitelist && exists j :: 0 <= j < i && Halts(es[j].raw)
  }

  ghost predicate LastForbidden(job: Job, es: seq<Event>, k: nat, i: nat)
    requires k <= |es|
  {
    i < k && Forbidden(job, es, i) && forall j :: i < j < k ==> !Forbidden(job, es, j)
  }

  lemma {:induction false} RawKinds(e: Event)
    ensures Final(e) <==> Ends(e.raw)
    ensures IsStop(e) <==> Halts(e.raw)
  {
    KindsAreExclusive(e.raw);
    LowBits(e.raw);
  }

  lemma {:induction false} ForbiddenIsOffence(job: Job, es: seq<Event>, i: nat)
    requires i < |es|
    ensures Forbidden(job, es, i) <==> Offends(job, es, i)
  {
    forall j | 0 <= j < |es| ensures IsStop(es[j]) <==> Halts(es[j].raw) {
      RawKinds(es[j]);
    }
    hide IsStop, Halts;
    if Forbidden(job, es, i) {
      var j :| 0 <= j < i && Halts(es[j].raw);
      assert IsStop(es[j]);
    }
    if Offends(job, es, i) {
      var j :| 0 <= j < i && IsStop(es[j]);
      assert Halts(es[j].raw);
    }
  }

  lemma {:induction false} EndIsFirstFinal(es: seq<Event>, k: nat)
    requires EndsAt(es, k)
    ensures FirstFinal(es) == k
  {
    forall j | 0 <= j <= k ensures Final(es[j]) <==> Ends(es[j].raw) {
      RawKinds(es[j]);
    }
    assert !(FirstFinal(es) < k);
  }

  lemma {:induction false} VerdictOf(job: Job, e: Event, name: Option<string>)
    requires Ends(e.raw)
    ensures var sig := e.raw % 128; var reports := Verdicts(job, e, name);
      && (sig == 0 ==> reports == [Report(if job.diffEmpty then AC else WA, e.timeMs, e.mem, None)])
      && (sig == 11 ==> reports == [Report(RE, e.timeMs, e.mem, None)])
      && (sig == 27 || sig == 127 ==> reports == [Report(TLE, e.timeMs, e.mem, None)])
      && (sig == 9 && name.None? ==> reports == [Report(MLE, e.timeMs, e.mem, None)])
      && (sig == 9 && name.Some? ==> reports == [Report(RE, e.timeMs, e.mem, Some(InvalidCall(name.value)))])
      && (sig !in {0, 9, 11, 27, 127} ==> reports == [])
  {
    KindsAreExclusive(e.raw);
    LowBits(e.raw);
  }

  /** The verdict of a trace that ends at event `k`, read off raw statuses: the exit, then the
      three signals with or without a core dump, the stop by the profiling timer, and none for
      any other signal. */
  lemma {:induction false} VerdictTable(job: Job, es: seq<Event>, out: Outcome, k: nat)
    requires Judged(job, es, out) && job.outfileOpens && EndsAt(es, k)
    ensures var e := es[k]; var sig := e.raw % 128;
      && out.phase == Finished
      && (sig == 0 && job.diffEmpty ==> out.reports == [Report(AC, e.timeMs, e.mem, None)])
      && (sig == 0 && !job.diffEmpty ==> out.reports == [Report(WA, e.timeMs, e.mem, None)])
      && (sig == 11 ==> out.reports == [Report(RE, e.timeMs, e.mem, None)])
      && (sig == 27 || sig == 127 ==> out.reports == [Report(TLE, e.timeMs, e.mem, None)])
      && (sig == 9 && (forall i :: 0 <= i < k ==> !Forbidden(job, es, i)) ==>
            out.reports == [Report(MLE, e.timeMs, e.mem, None)])
      && (sig !in {0, 9, 11, 27, 127} ==> out.reports == [])
    ensures forall i: nat :: es[k].raw % 128 == 9 && LastForbidden(job, es, k, i) ==>
      out.reports == [Report(RE, es[k].timeMs, es[k].mem, Some(InvalidCall(es[i].syscall)))]
  {
    EndIsFirstFinal(es, k);
    var name :| LastOffence(job, es, k, name) && out == Written(job, out.requests, Verdicts(job, es[k], name));
    VerdictOf(job, es[k], name);
    forall i | 0 <= i < k ensures Forbidden(job, es, i) <==> Offends(job, es, i) {
      ForbiddenIsOffence(job, es, i);
    }
    hide Forbidden, Offends, RequestsRight, Verdicts, Judged, Ends;
    if forall i :: 0 <= i < k ==> !Offends(job, es, i) {
      OneLastOffence(job, es, k, name, None);
    }
    forall i: nat | LastForbidden(job, es, k, i) ensures name == Some(es[i].syscall) {
      assert LastAt(job, es, k, i);
      OneLastOffence(job, es, k, name, Some(es[i].syscall));
    }
  }

  /** The number of stops that the tracer inspects among the first `i` events. */
  function HaltCount(es: seq<Event>, i: nat): nat
    requires i <= |es|
  {
    if i == 0 then 0 else HaltCount(es, i - 1) + if Halts(es[i - 1].raw) then 1 else 0
  }

  lemma {:induction false} HaltsAreStops(es: seq<Event>, i: nat)
    requires i <= |es|
    ensures HaltCount(es, i) == Stops(es, i)
  {
    if i > 0 {
      HaltsAreStops(es, i - 1);
      RawKinds(es[i - 1]);
    }
  }

  /** If the output file does not open, the tracer raises exactly where it has a verdict. */
  lemma {:induction false} CrashTable(job: Job, es: seq<Event>, out: Outcome, k: nat)
    requires Judged(job, es, out) && !job.outfileOpens && EndsAt(es, k)
    ensures out.reports == [] && (out.phase == Crashed <==> es[k].raw % 128 in {0, 9, 11, 27, 127})
  {
    EndIsFirstFinal(es, k);
    KindsAreExclusive(es[k].raw);
    LowBits(es[k].raw);
    hide RequestsRight, LastOffence;
  }

  /** Each stop gets one request, in order: the child is killed exactly if it is in a call that
      is not on the list and has stopped before.  Without an ending event the tracer waits. */
  lemma {:induction false} RequestTable(job: Job, es: seq<Event>, out: Outcome, k: nat)
    requires Judged(job, es, out)
    requires if k < |es| then EndsAt(es, k) else k == |es| && forall j :: 0 <= j < k ==> !Ends(es[j].raw)
    ensures |out.requests| == HaltCount(es, k)
    ensures forall i :: 0 <= i < k && Halts(es[i].raw) ==>
      HaltCount(es, i) < |out.requests| &&
      out.requests[HaltCount(es, i)] == if Forbidden(job, es, i) then Kill else Syscall
    ensures k == |es| ==> out.phase == Waiting && out.reports == []
    ensures k < |es| && !job.outfileOpens ==>
      out.reports == [] && (out.phase == Crashed <==> es[k].raw % 128 in {0, 9, 11, 27, 127})
  {
    if k < |es| {
      EndIsFirstFinal(es, k);
      if !job.outfileOpens {
        CrashTable(job, es, out, k);
      }
    } else {
      forall j | 0 <= j < k ensures !Final(es[j]) {
        RawKinds(es[j]);
      }
      assert FirstFinal(es) == k;
    }
    HaltsAreStops(es, k);
    forall i | 0 <= i < k && Halts(es[i].raw)
      ensures HaltCount(es, i) < |out.requests| &&
              out.requests[HaltCount(es, i)] == if Forbidden(job, es, i) then Kill else Syscall
    {
      RawKinds(es[i]);
      HaltsAreStops(es, i);
      ForbiddenIsOffence(job, es, i);
    }
  }

  // ---------- The judging session ----------

  /** A submission: what the compiler's wait status and log will be, and the run after it. */
  datatype Submission = Submission(needsCompile: bool, compilerStatus: int, compilerLog: string,
                                   job: Job, events: seq<Event>)

  /** `judge`: a compiler with a non-zero exit code ends the session with CE. */
  method Judge(sub: Submission) returns (evaluated: bool, out: Outcome)
    ensures Session(sub, evaluated, out)
  {
    if sub.needsCompile {
      var status := GetStatus(sub.compilerStatus);
      if status.status != 0 {
        return false, Written(sub.job, [], [Report(CE, 0.0, 0, Some(Compiler(sub.compilerLog)))]);
      }
    }
    evaluated := true;
    out := EvaluateTracer(sub.job, sub.events);
  }

  ghost predicate Session(sub: Submission, evaluated: bool, out: Outcome) {
    && (evaluated <==> !sub.needsCompile || ExitCode(sub.compilerStatus) == 0)
    && (evaluated ==> Judged(sub.job, sub.events, out))
    && (!evaluated ==> out == Written(sub.job, [], [Report(CE, 0.0, 0, Some(Compiler(sub.compilerLog)))]))
  }

  /** Every session writes at most one verdict; it is CE exactly when compilation was asked
      for and exited with a non-zero code, and then the figures are zero, the log is the
      compiler's and the program was not run.  In every other session its events are judged. */
  lemma {:induction false} SessionVerdicts(sub: Submission, evaluated: bool, out: Outcome)
    requires Session(sub, evaluated, out)
    ensures |out.reports| <= 1
    ensures (exists r :: r in out.reports && r.verdict == CE) <==>
      sub.needsCompile && ExitCode(sub.compilerStatus) != 0 && sub.job.outfileOpens
    ensures evaluated <==> !(sub.needsCompile && sub.compilerStatus / 256 % 256 != 0)
    ensures evaluated ==> Judged(sub.job, sub.events, out)
    ensures forall r :: r in out.reports && r.verdict == CE ==>
      !evaluated && out.requests == [] && r.timeMs == 0.0 && r.mem == 0 && r.log == Some(Compiler(sub.compilerLog))
  {
    if evaluated {
      VerdictCount(sub.job, sub.events, out);
    } else {
      assert sub.job.outfileOpens ==> out.reports[0] in out.reports;
    }
  }

  /** A compiler killed by any signal, with or without a core dump, has exit code zero, so the
      session goes on to run whatever it left behind. */
  lemma {:induction false} KilledCompilerIsNoError(sub: Submission, evaluated: bool, out: Outcome, sig: nat)
    requires Session(sub, evaluated, out)
    requires 0 < sig < 127 && (sub.compilerStatus == sig || sub.compilerStatus == sig + 128)
    ensures Classify(sub.compilerStatus) == Signaled && evaluated
  {
    ModAdd(1, sig);
  }
}
