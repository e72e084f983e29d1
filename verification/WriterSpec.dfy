/** What whole calls of `ixfd_commonsock_write` and `ixfd_commonsock_write_cb` of src/sock.cxx,
    and whole sessions of them, do to the state machine of WriteModel, against an arbitrary
    kernel.

    Completion callbacks may write again, from inside a direct write or from inside the drain.
    `WriteSpec`, `DrainSpec` and `SessionSpec` say what a whole call or session does, and
    `WriteTrace`, `DrainTrace` and `SessionTrace` list the steps of the machine that it takes.
    `SessionIsRun` shows that these steps are a run that ends where the session does, so that
    every claim made there about runs holds of sessions; `SessionIssues` says what is submitted
    in it, and `PromptDelivers` when all of that arrives. */
module WriterSpec {
  import opened Common
  import opened WriteModel

  /** What the kernel answers to its t-th write, before the bound by the buffer's length. */
  type Oracle = nat -> int

  function Kernel(o: Oracle, t: nat, len: nat): (r: int)
    ensures KernelResult(r, len)
  {
    if o(t) < 0 then -1 else if o(t) > len then len else o(t)
  }

  /** The writer and the number of kernel writes made so far. */
  datatype World = World(s: State, t: nat)

  /** One call of write: the direct attempt and, if it completes, the callback's writes. */
  ghost function WriteSpec(o: Oracle, w: World, m: Message): (w': World)
    ensures w'.s.draining == w.s.draining
    decreases m, 1
  {
    var r := Kernel(o, w.t, |m.bytes|);
    var w1 := World(ApplySubmit(w.s, m, r), w.t + 1);
    if Completes(r, |m.bytes|) && m.cb.Callback? then WritesSpec(o, w1, m.cb.writes) else w1
  }

  ghost function WritesSpec(o: Oracle, w: World, ms: seq<Message>): (w': World)
    ensures w'.s.draining == w.s.draining
    decreases ms, 0
  {
    if ms == [] then w else WritesSpec(o, WriteSpec(o, w, ms[0]), ms[1..])
  }

  /** One turn of the drain loop, with the writes of the callback it may run. */
  ghost function TurnSpec(o: Oracle, w: World): World
    requires w.s.queue != []
  {
    var f := w.s.queue[0];
    var r := Kernel(o, w.t, |f.remain|);
    var w1 := World(ApplyDrainWrite(w.s, r), w.t + 1);
    if Completes(r, |f.remain|) && f.cb.Callback? then WritesSpec(o, w1, f.cb.writes) else w1
  }

  /** The first `turns` turns of the drain loop, or all of them if it ends before. */
  ghost function DrainSpec(o: Oracle, w: World, turns: nat): World
    decreases turns
  {
    if turns == 0 || w.s.queue == [] then w else DrainSpec(o, TurnSpec(o, w), turns - 1)
  }

  /** The loop condition's effect after the drain: only an empty queue lets it end. */
  function Settle(s: State): State {
    if s.queue == [] then s.(launched := false, watching := false, draining := false) else s
  }

  // ---------- Whole calls are runs ----------

  /** The kernel never returns an error. */
  ghost predicate NeverFails(o: Oracle) {
    forall t :: o(t) >= 0
  }

  /** No attempt among the steps fails. */
  ghost predicate Unfailing(steps: seq<Step>) {
    forall st :: st in steps && (st.Submit? || st.DrainWrite?) ==> st.r >= 0
  }

  lemma {:induction false} UnfailingIsLossless(s: State, steps: seq<Step>)
    requires IsRun(s, steps) && Unfailing(steps)
    ensures LosslessRun(s, steps)
    decreases |steps|
  {
    if steps != [] {
      assert steps[0] in steps;
      UnfailingIsLossless(Apply(s, steps[0]), steps[1..]);
    }
  }

  /** The steps of one call of write. */
  ghost function WriteTrace(o: Oracle, w: World, m: Message): (steps: seq<Step>)
    ensures NeverFails(o) ==> Unfailing(steps)
    decreases m, 1
  {
    var r := Kernel(o, w.t, |m.bytes|);
    var w1 := World(ApplySubmit(w.s, m, r), w.t + 1);
    [Submit(m, r)] +
    if Completes(r, |m.bytes|) && m.cb.Callback? then WritesTrace(o, w1, m.cb.writes) else []
  }

  ghost function WritesTrace(o: Oracle, w: World, ms: seq<Message>): (steps: seq<Step>)
    ensures NeverFails(o) ==> Unfailing(steps)
    decreases ms, 0
  {
    if ms == [] then [] else WriteTrace(o, w, ms[0]) + WritesTrace(o, WriteSpec(o, w, ms[0]), ms[1..])
  }

  ghost function TurnTrace(o: Oracle, w: World): (steps: seq<Step>)
    requires w.s.queue != []
    ensures NeverFails(o) ==> Unfailing(steps)
  {
    var f := w.s.queue[0];
    var r := Kernel(o, w.t, |f.remain|);
    var w1 := World(ApplyDrainWrite(w.s, r), w.t + 1);
    [DrainWrite(r)] +
    if Completes(r, |f.remain|) && f.cb.Callback? then WritesTrace(o, w1, f.cb.writes) else []
  }

  ghost function DrainTrace(o: Oracle, w: World, turns: nat): (steps: seq<Step>)
    ensures NeverFails(o) ==> Unfailing(steps)
    decreases turns
  {
    if turns == 0 || w.s.queue == [] then []
    else TurnTrace(o, w) + DrainTrace(o, TurnSpec(o, w), turns - 1)
  }

  /** The answer `a` of the kernel, as an attempt sees it: an error, or at most so many bytes. */
  predicate Agrees(a: int, r: int) {
    if a < 0 then r == -1 else 0 <= r <= a
  }

  predicate IsAttempt(step: Step) {
    step.Submit? || step.DrainWrite?
  }

  /** The attempts among the steps get the kernel's answers from the `t`-th to before the
      `t'`-th, one each and in order. */
  ghost predicate Answered(o: Oracle, t: nat, steps: seq<Step>, t': nat)
    decreases |steps|
  {
    if steps == [] then t' == t
    else if IsAttempt(steps[0]) then Agrees(o(t), steps[0].r) && Answered(o, t + 1, steps[1..], t')
    else Answered(o, t, steps[1..], t')
  }

  /** The steps lead from `w` to `w'`, with these answers. */
  ghost predicate Leads(o: Oracle, w: World, steps: seq<Step>, w': World) {
    IsRun(w.s, steps) && Exec(w.s, steps) == w'.s && Answered(o, w.t, steps, w'.t)
  }

  lemma {:induction false} LeadsConcat(o: Oracle, w: World, a: seq<Step>, w': World, b: seq<Step>, w'': World)
    requires Leads(o, w, a, w') && Leads(o, w', b, w'')
    ensures Leads(o, w, a + b, w'')
    decreases |a|
  {
    if a == [] {
      assert a + b == b;
    } else {
      var w1 := World(Apply(w.s, a[0]), if IsAttempt(a[0]) then w.t + 1 else w.t);
      LeadsConcat(o, w1, a[1..], w', b, w'');
      assert (a + b)[1..] == a[1..] + b;
    }
  }

  lemma {:induction false} LeadsOne(o: Oracle, w: World, step: Step)
    requires Enabled(w.s, step) && (IsAttempt(step) ==> Agrees(o(w.t), step.r))
    ensures Leads(o, w, [step], World(Apply(w.s, step), if IsAttempt(step) then w.t + 1 else w.t))
  {
    assert [step][1..] == [];
  }

  /** A call of write is the run of the listed steps, with the kernel's next answers. */
  lemma {:induction false} WriteSpecIsRun(o: Oracle, w: World, m: Message)
    ensures Leads(o, w, WriteTrace(o, w, m), WriteSpec(o, w, m))
    decreases m, 1
  {
    hide Leads;
    var r := Kernel(o, w.t, |m.bytes|);
    var w1 := World(ApplySubmit(w.s, m, r), w.t + 1);
    LeadsOne(o, w, Submit(m, r));
    if Completes(r, |m.bytes|) && m.cb.Callback? {
      WritesSpecIsRun(o, w1, m.cb.writes);
      LeadsConcat(o, w, [Submit(m, r)], w1, WritesTrace(o, w1, m.cb.writes), WriteSpec(o, w, m));
    } else {
      assert [Submit(m, r)] + [] == [Submit(m, r)];
    }
  }

  lemma {:induction false} WritesSpecIsRun(o: Oracle, w: World, ms: seq<Message>)
    ensures Leads(o, w, WritesTrace(o, w, ms), WritesSpec(o, w, ms))
    decreases ms, 0
  {
    if ms != [] {
      var w1 := WriteSpec(o, w, ms[0]);
      WriteSpecIsRun(o, w, ms[0]);
      WritesSpecIsRun(o, w1, ms[1..]);
      LeadsConcat(o, w, WriteTrace(o, w, ms[0]), w1, WritesTrace(o, w1, ms[1..]), WritesSpec(o, w, ms));
    }
  }

  lemma {:induction false} TurnSpecIsRun(o: Oracle, w: World)
    requires w.s.draining && w.s.queue != []
    ensures Leads(o, w, TurnTrace(o, w), TurnSpec(o, w)) && TurnSpec(o, w).s.draining
  {
    hide Leads;
    var f := w.s.queue[0];
    var r := Kernel(o, w.t, |f.remain|);
    var w1 := World(ApplyDrainWrite(w.s, r), w.t + 1);
    LeadsOne(o, w, DrainWrite(r));
    if Completes(r, |f.remain|) && f.cb.Callback? {
      WritesSpecIsRun(o, w1, f.cb.writes);
      LeadsConcat(o, w, [DrainWrite(r)], w1, WritesTrace(o, w1, f.cb.writes), TurnSpec(o, w));
    } else {
      assert [DrainWrite(r)] + [] == [DrainWrite(r)];
    }
  }

  /** Any number of turns of the write callback is a run. */
  lemma {:induction false} DrainSpecIsRun(o: Oracle, w: World, turns: nat)
    requires w.s.draining
    ensures Leads(o, w, DrainTrace(o, w, turns), DrainSpec(o, w, turns)) && DrainSpec(o, w, turns).s.draining
    decreases turns
  {
    hide TurnSpec, TurnTrace;
    if turns != 0 && w.s.queue != [] {
      var w1 := TurnSpec(o, w);
      TurnSpecIsRun(o, w);
      DrainSpecIsRun(o, w1, turns - 1);
      LeadsConcat(o, w, TurnTrace(o, w), w1, DrainTrace(o, w1, turns - 1), DrainSpec(o, w, turns));
    }
  }

  // ---------- What is submitted ----------

  /** `ms` is a subsequence of `all`. */
  ghost predicate Within(ms: seq<Message>, all: seq<Message>)
    decreases |all|
  {
    ms == [] || (all != [] && ((ms[0] == all[0] && Within(ms[1..], all[1..])) || Within(ms, all[1..])))
  }

  lemma {:induction false} WithinPrepend(p: seq<Message>, ms: seq<Message>, all: seq<Message>)
    requires Within(ms, all)
    ensures Within(ms, p + all)
    decreases |p|
  {
    if p == [] {
      assert p + all == all;
    } else {
      WithinPrepend(p[1..], ms, all);
      assert (p + all)[1..] == p[1..] + all;
    }
  }

  lemma {:induction false} WithinConcat(a: seq<Message>, s: seq<Message>, b: seq<Message>, t: seq<Message>)
    requires Within(a, s) && Within(b, t)
    ensures Within(a + b, s + t)
    decreases |s|
  {
    if a == [] {
      assert a + b == b;
      WithinPrepend(s, b, t);
    } else {
      assert (s + t)[1..] == s[1..] + t && (a + b)[1..] == a[1..] + b;
      if a[0] == s[0] && Within(a[1..], s[1..]) {
        WithinConcat(a[1..], s[1..], b, t);
      } else {
        WithinConcat(a, s[1..], b, t);
      }
    }
  }

  /** None of the messages has a callback that writes. */
  ghost predicate Silent(ms: seq<Message>) {
    forall m :: m in ms && m.cb.Callback? ==> m.cb.writes == []
  }

  lemma {:induction false} SilentConcat(a: seq<Message>, b: seq<Message>)
    ensures Silent(a + b) <==> Silent(a) && Silent(b)
  {
    assert forall m :: m in a + b <==> m in a || m in b;
  }

  /** The writes of the callbacks of the messages numbered `ran`, one callback after another. */
  ghost function Called(all: seq<Message>, ran: seq<nat>): seq<Message> {
    if ran == [] then [] else WritesOf(all, ran[0]) + Called(all, ran[1..])
  }

  ghost function WritesOf(all: seq<Message>, i: nat): seq<Message> {
    if i < |all| && all[i].cb.Callback? then all[i].cb.writes else []
  }

  lemma {:induction false} CalledConcat(all: seq<Message>, a: seq<nat>, b: seq<nat>)
    ensures Called(all, a + b) == Called(all, a) + Called(all, b)
  {
    if a == [] {
      assert a + b == b;
    } else {
      hide WritesOf;
      CalledConcat(all, a[1..], b);
      assert (a + b)[1..] == a[1..] + b;
      Assoc(WritesOf(all, a[0]), Called(all, a[1..]), Called(all, b));
    }
  }

  lemma {:induction false} CalledGrows(all: seq<Message>, more: seq<Message>, ran: seq<nat>)
    requires forall i :: i in ran ==> i < |all|
    ensures Called(all + more, ran) == Called(all, ran)
  {
    if ran != [] {
      assert ran[0] in ran && forall i :: i in ran[1..] ==> i in ran;
      CalledGrows(all, more, ran[1..]);
    }
  }

  /** The callback of message `i` issued its writes, in order, after the message. */
  ghost predicate CalledAfter(all: seq<Message>, i: nat) {
    i < |all| && all[i].cb.Callback? && Within(all[i].cb.writes, all[i + 1..])
  }

  lemma {:induction false} CalledStays(all: seq<Message>, more: seq<Message>, i: nat)
    requires CalledAfter(all, i)
    ensures i < |all| && CalledAfter(all + more, i)
  {
    WithinConcat(all[i].cb.writes, all[i + 1..], [], more);
    assert all[i].cb.writes + [] == all[i].cb.writes;
    assert (all + more)[i + 1..] == all[i + 1..] + more;
  }

  /** The messages `added` after `before` are exactly `ms`, in order, and what the callbacks of
      the messages `ran` write, each in order and after its parent. */
  ghost predicate Issued(before: seq<Message>, ms: seq<Message>, added: seq<Message>, ran: seq<nat>) {
    && multiset(added) == multiset(ms) + multiset(Called(before + added, ran))
    && Within(ms, added)
    && (forall i :: i in ran ==> CalledAfter(before + added, i))
    && (Silent(before) && Silent(ms) ==> added == ms)
  }

  /** From `s` to `s'` exactly `ms` were submitted, and what the callbacks that ran write. */
  ghost predicate Issues(s: State, ms: seq<Message>, s': State) {
    && s.submitted <= s'.submitted && s.ran <= s'.ran
    && Issued(s.submitted, ms, s'.submitted[|s.submitted|..], s'.ran[|s.ran|..])
  }

  lemma {:induction false} IssuesNone(s: State, s': State)
    requires s'.submitted == s.submitted && s'.ran == s.ran
    ensures Issues(s, [], s')
  {
    assert s'.submitted[|s.submitted|..] == [] && s'.ran[|s.ran|..] == [];
  }

  lemma {:induction false} IssuedTrans(before: seq<Message>, a: seq<Message>, added: seq<Message>, ran: seq<nat>,
                                       b: seq<Message>, added': seq<Message>, ran': seq<nat>)
    requires Issued(before, a, added, ran) && Issued(before + added, b, added', ran')
    ensures Issued(before, a + b, added + added', ran + ran')
  {
    hide Within, Called, CalledAfter, Silent;
    Assoc(before, added, added');
    WithinConcat(a, added, b, added');
    forall i | i in ran ensures CalledAfter(before + added + added', i) && i < |before + added| {
      CalledStays(before + added, added', i);
    }
    CalledGrows(before + added, added', ran);
    CalledConcat(before + added + added', ran, ran');
    SilentConcat(a, b);
    SilentConcat(before, added);
  }

  lemma {:induction false} IssuesTrans(s: State, a: seq<Message>, s': State, b: seq<Message>, s'': State)
    requires Issues(s, a, s') && Issues(s', b, s'')
    ensures Issues(s, a + b, s'')
  {
    hide Issued;
    var added, ran := s'.submitted[|s.submitted|..], s'.ran[|s.ran|..];
    var added', ran' := s''.submitted[|s'.submitted|..], s''.ran[|s'.ran|..];
    assert s'.submitted == s.submitted + added;
    assert s''.submitted[|s.submitted|..] == added + added' && s''.ran[|s.ran|..] == ran + ran';
    IssuedTrans(s.submitted, a, added, ran, b, added', ran');
  }

  /** When message `i` is done its callback issues its writes. */
  lemma {:induction false} IssuedCalled(before: seq<Message>, ms: seq<Message>, i: nat, added: seq<Message>,
                                        ran: seq<nat>)
    requires |ms| <= 1 && i < |before + ms| && (before + ms)[i].cb.Callback?
    requires Issued(before + ms, (before + ms)[i].cb.writes, added, ran)
    ensures Issued(before, ms, ms + added, [i] + ran)
  {
    hide Within, Silent;
    var all, writes := before + ms, (before + ms)[i].cb.writes;
    Assoc(before, ms, added);
    CalledFirst(all + added, i, ran);
    assert CalledAfter(all + added, i) by {
      WithinPrepend(all[i + 1..], writes, added);
      assert (all + added)[i + 1..] == all[i + 1..] + added;
    }
    hide Called, CalledAfter;
    WithinSelf(ms, added);
    SilentConcat(before, ms);
    if Silent(all) {
      SilentAt(all, i);
      assert ms + added == ms;
    }
  }

  lemma {:induction false} IssuesCalled(s: State, ms: seq<Message>, i: nat, s1: State, s': State)
    requires s1.submitted == s.submitted + ms && s1.ran == s.ran + [i] && |ms| <= 1
    requires i < |s1.submitted| && s1.submitted[i].cb.Callback?
    requires Issues(s1, s1.submitted[i].cb.writes, s')
    ensures Issues(s, ms, s')
  {
    hide Issued;
    var added, ran := s'.submitted[|s1.submitted|..], s'.ran[|s1.ran|..];
    assert s'.submitted[|s.submitted|..] == ms + added && s'.ran[|s.ran|..] == [i] + ran;
    IssuedCalled(s.submitted, ms, i, added, ran);
  }

  lemma {:induction false} CalledFirst(all: seq<Message>, i: nat, ran: seq<nat>)
    ensures Called(all, [i] + ran) == WritesOf(all, i) + Called(all, ran)
  {
    assert ([i] + ran)[1..] == ran;
  }

  lemma {:induction false} WithinSelf(ms: seq<Message>, more: seq<Message>)
    requires |ms| <= 1
    ensures Within(ms, ms + more)
  {
    if ms != [] {
      assert Within(ms[1..], (ms + more)[1..]);
    }
  }

  lemma {:induction false} SilentAt(ms: seq<Message>, i: nat)
    requires Silent(ms) && i < |ms| && ms[i].cb.Callback?
    ensures ms[i].cb.writes == [] && Silent([])
  {
    assert ms[i] in ms;
  }

  /** A call of write submits its message, and what its callback and theirs write. */
  lemma {:induction false} WriteIssues(o: Oracle, w: World, m: Message)
    ensures Issues(w.s, [m], WriteSpec(o, w, m).s)
    decreases m, 1
  {
    hide Issues;
    var r := Kernel(o, w.t, |m.bytes|);
    var w1 := World(ApplySubmit(w.s, m, r), w.t + 1);
    if Completes(r, |m.bytes|) && m.cb.Callback? {
      WritesIssues(o, w1, m.cb.writes);
      IssuesCalled(w.s, [m], |w.s.submitted|, w1.s, WriteSpec(o, w, m).s);
    } else {
      IssuesOne(w.s, m, w1.s);
    }
  }

  lemma {:induction false} IssuesOne(s: State, m: Message, s': State)
    requires s'.submitted == s.submitted + [m] && s'.ran == s.ran
    ensures Issues(s, [m], s')
  {
    assert s'.submitted[|s.submitted|..] == [m] && s'.ran[|s.ran|..] == [];
    assert Within([m][1..], [m][1..]);
  }

  lemma {:induction false} WritesIssues(o: Oracle, w: World, ms: seq<Message>)
    ensures Issues(w.s, ms, WritesSpec(o, w, ms).s)
    decreases ms, 0
  {
    hide Issues;
    if ms == [] {
      IssuesNone(w.s, w.s);
    } else {
      var w1 := WriteSpec(o, w, ms[0]);
      WriteIssues(o, w, ms[0]);
      WritesIssues(o, w1, ms[1..]);
      IssuesTrans(w.s, [ms[0]], w1.s, ms[1..], WritesSpec(o, w, ms).s);
      assert [ms[0]] + ms[1..] == ms;
    }
  }

  /** A call of write asks the kernel and submits its message first, and nothing else if its
      callback does not write. */
  lemma {:induction false} WriteSubmits(o: Oracle, w: World, m: Message)
    ensures var w' := WriteSpec(o, w, m);
      && w'.t > w.t && w.s.submitted + [m] <= w'.s.submitted
      && (m.cb.NoCallback? || m.cb.writes == [] ==> w'.s.submitted == w.s.submitted + [m])
  {
    var r := Kernel(o, w.t, |m.bytes|);
    var w1 := World(ApplySubmit(w.s, m, r), w.t + 1);
    assert w1.s.submitted == w.s.submitted + [m];
    hide ApplySubmit;
    if Completes(r, |m.bytes|) && m.cb.Callback? {
      assert WriteSpec(o, w, m) == WritesSpec(o, w1, m.cb.writes);
      hide WriteSpec;
      WritesGrow(o, w1, m.cb.writes);
    }
  }

  lemma {:induction false} WritesGrow(o: Oracle, w: World, ms: seq<Message>)
    ensures var w' := WritesSpec(o, w, ms); w'.t >= w.t && w.s.submitted <= w'.s.submitted
  {
    WritesPaid(o, w, ms);
    WritesIssues(o, w, ms);
    hide Issued, NoErrors, QueueCost;
  }

  /** A turn of the drain submits nothing but what its callback and theirs write. */
  lemma {:induction false} TurnIssues(o: Oracle, w: World)
    requires Inv(w.s) && w.s.queue != []
    ensures Issues(w.s, [], TurnSpec(o, w).s)
  {
    var f := w.s.queue[0];
    assert f in w.s.queue;
    hide Issues, Inv;
    var r := Kernel(o, w.t, |f.remain|);
    var w1 := World(ApplyDrainWrite(w.s, r), w.t + 1);
    if Completes(r, |f.remain|) && f.cb.Callback? {
      WritesIssues(o, w1, f.cb.writes);
      IssuesCalled(w.s, [], f.id, w1.s, TurnSpec(o, w).s);
    } else {
      IssuesNone(w.s, w1.s);
    }
  }

  lemma {:induction false} DrainIssues(o: Oracle, w: World, turns: nat)
    requires Inv(w.s) && w.s.draining
    ensures Issues(w.s, [], DrainSpec(o, w, turns).s)
    decreases turns
  {
    if turns == 0 || w.s.queue == [] {
      IssuesNone(w.s, w.s);
    } else {
      var w1 := TurnSpec(o, w);
      TurnIssues(o, w);
      TurnSpecIsRun(o, w);
      hide Issues, TurnSpec, TurnTrace, Inv;
      RunInv(w.s, TurnTrace(o, w));
      DrainIssues(o, w1, turns - 1);
      var none: seq<Message> := [];
      IssuesTrans(w.s, none, w1.s, none, DrainSpec(o, w, turns).s);
      assert none + none == none;
    }
  }

  // ---------- Progress ----------

  /** What a message can still cost: one attempt, its bytes, and its callback's messages. */
  ghost function Cost(m: Message): (c: nat)
    ensures c > |m.bytes|
    decreases m, 1
  {
    1 + |m.bytes| + CbCost(m.cb)
  }

  ghost function CbCost(cb: Callback): nat
    decreases cb, 1
  {
    if cb.NoCallback? then 0 else Costs(cb.writes)
  }

  ghost function Costs(ms: seq<Message>): (c: nat)
    ensures c == 0 <==> ms == []
    decreases ms, 0
  {
    if ms == [] then 0 else Cost(ms[0]) + Costs(ms[1..])
  }

  /** What the queue can still cost: its bytes, and its callbacks' messages. */
  ghost function QueueCost(q: seq<Rec>): nat {
    if q == [] then 0 else |q[0].remain| + CbCost(q[0].cb) + QueueCost(q[1..])
  }

  lemma {:induction false} QueueCostAppend(q: seq<Rec>, r: Rec)
    ensures QueueCost(q + [r]) == QueueCost(q) + |r.remain| + CbCost(r.cb)
  {
    if q == [] {
      assert [r][1..] == [];
    } else {
      QueueCostAppend(q[1..], r);
      assert (q + [r])[1..] == q[1..] + [r];
    }
  }

  /** No answer of the kernel from its `a`-th to before its `b`-th is an error. */
  ghost predicate NoErrors(o: Oracle, a: nat, b: nat) {
    forall t :: a <= t < b ==> o(t) >= 0
  }

  /** Every kernel write is paid for, and without errors nothing is dropped. */
  ghost predicate Paid(o: Oracle, w: World, cost: nat, w': World) {
    && w.t <= w'.t
    && w'.t + QueueCost(w'.s.queue) <= w.t + QueueCost(w.s.queue) + cost
    && (NoErrors(o, w.t, w'.t) ==> w'.s.lost == w.s.lost)
  }

  lemma {:induction false} SubmitPaid(o: Oracle, w: World, m: Message)
    ensures var r := Kernel(o, w.t, |m.bytes|);
      Paid(o, w, if Completes(r, |m.bytes|) then 1 else Cost(m), World(ApplySubmit(w.s, m, r), w.t + 1))
  {
    var r := Kernel(o, w.t, |m.bytes|);
    var n := Accepted(r);
    QueueCostAppend(w.s.queue, Rec(|w.s.submitted|, n, m.bytes[n..], m.cb));
    if o(w.t) >= 0 && Completes(r, |m.bytes|) {
      assert m.bytes[n..] == [];
    } else {
      assert o(w.t) < 0 ==> !NoErrors(o, w.t, w.t + 1);
    }
  }

  lemma {:induction false} PaidTrans(o: Oracle, w: World, a: nat, w': World, b: nat, w'': World)
    requires Paid(o, w, a, w') && Paid(o, w', b, w'')
    ensures Paid(o, w, a + b, w'')
  {
  }

  lemma {:induction false} WritePaid(o: Oracle, w: World, m: Message)
    ensures Paid(o, w, Cost(m), WriteSpec(o, w, m))
    decreases m, 1
  {
    var r := Kernel(o, w.t, |m.bytes|);
    SubmitPaid(o, w, m);
    hide ApplySubmit, QueueCost;
    if Completes(r, |m.bytes|) && m.cb.Callback? {
      var w1 := World(ApplySubmit(w.s, m, r), w.t + 1);
      WritesPaid(o, w1, m.cb.writes);
      PaidTrans(o, w, 1, w1, Costs(m.cb.writes), WriteSpec(o, w, m));
    }
  }

  lemma {:induction false} WritesPaid(o: Oracle, w: World, ms: seq<Message>)
    ensures Paid(o, w, Costs(ms), WritesSpec(o, w, ms))
    decreases ms, 0
  {
    if ms != [] {
      var w1 := WriteSpec(o, w, ms[0]);
      WritePaid(o, w, ms[0]);
      WritesPaid(o, w1, ms[1..]);
      PaidTrans(o, w, Cost(ms[0]), w1, Costs(ms[1..]), WritesSpec(o, w, ms));
    }
  }

  /** A turn whose write is not answered 0 is paid for by the queue alone. */
  lemma {:induction false} TurnPaid(o: Oracle, w: World)
    requires w.s.queue != [] && |w.s.queue[0].remain| > 0 && o(w.t) != 0
    ensures Paid(o, w, 0, TurnSpec(o, w)) && TurnSpec(o, w).t > w.t
  {
    var f := w.s.queue[0];
    var r := Kernel(o, w.t, |f.remain|);
    var w1 := World(ApplyDrainWrite(w.s, r), w.t + 1);
    if Completes(r, |f.remain|) {
      assert r >= 0 ==> f.remain[Accepted(r)..] == [];
      assert r < 0 ==> o(w.t) < 0;
      assert w1.s.queue == w.s.queue[1..];
      assert w1.t + QueueCost(w1.s.queue) + CbCost(f.cb) <= w.t + QueueCost(w.s.queue);
      if f.cb.Callback? {
        WritesPaid(o, w1, f.cb.writes);
        assert NoErrors(o, w.t, TurnSpec(o, w).t) ==> o(w.t) >= 0 && NoErrors(o, w1.t, TurnSpec(o, w).t);
      } else {
        assert NoErrors(o, w.t, w.t + 1) ==> o(w.t) >= 0;
      }
    } else {
      assert w1.s.queue[1..] == w.s.queue[1..];
    }
  }

  /** The callbacks in the queue do not write. */
  ghost predicate Quiet(q: seq<Rec>) {
    forall r :: r in q ==> CbCost(r.cb) == 0
  }

  lemma {:induction false} QuietStream(s: State, r: int)
    requires s.queue != [] && 0 <= r <= |s.queue[0].remain|
    ensures var s' := ApplyDrainWrite(s, r);
      s'.sent + Pending(s'.queue) == s.sent + Pending(s.queue)
  {
    var f := s.queue[0];
    var head, rest := Units(f.id, f.start, f.remain[..r]), Units(f.id, f.start + r, f.remain[r..]);
    DrainShape(s, r, head, rest);
    Assoc(s.sent, head, rest + Pending(s.queue[1..]));
    if Completes(r, |f.remain|) {
      assert rest == [];
      assert rest + Pending(s.queue[1..]) == Pending(s.queue[1..]);
    }
  }

  lemma {:induction false} QuietTurn(o: Oracle, w: World)
    requires w.s.queue != [] && Quiet(w.s.queue) && o(w.t) >= 0
    ensures var w' := TurnSpec(o, w);
      Quiet(w'.s.queue) && w'.s.sent + Pending(w'.s.queue) == w.s.sent + Pending(w.s.queue)
  {
    var f := w.s.queue[0];
    assert f in w.s.queue;
    var r := Kernel(o, w.t, |f.remain|);
    assert f.cb.Callback? ==> f.cb.writes == [];
    var w1 := World(ApplyDrainWrite(w.s, r), w.t + 1);
    assert TurnSpec(o, w) == w1;
    assert forall x :: x in w1.s.queue ==> x in w.s.queue || x.cb == f.cb;
    QuietStream(w.s, r);
  }

  lemma {:induction false} NoCost()
    ensures QueueCost([]) == 0
  {
  }

  lemma {:induction false} TurnProgress(o: Oracle, w: World)
    requires Inv(w.s) && w.s.draining && w.s.queue != []
    requires w.t < w.t + QueueCost(w.s.queue) ==> o(w.t) != 0
    ensures var w' := TurnSpec(o, w); Inv(w'.s) && w'.s.draining && Paid(o, w, 0, w') && w'.t > w.t
    ensures QueueCost(w.s.queue) > 0
  {
    assert w.s.queue[0] in w.s.queue;
    TurnPaid(o, w);
    TurnSpecIsRun(o, w);
    hide TurnSpec, TurnTrace, Inv, Paid;
    RunInv(w.s, TurnTrace(o, w));
  }

  /** The drain ends, callbacks that write included: if no write of the window that the queue
      can still cost is answered 0, it is over within as many turns, with an empty queue.
      If none of the writes fails either, nothing is dropped, and a queue whose callbacks do
      not write goes to the wire as it stands. */
  lemma {:induction false} DrainEnds(o: Oracle, w: World, turns: nat)
    requires Inv(w.s) && w.s.draining && turns >= QueueCost(w.s.queue)
    requires forall t :: w.t <= t < w.t + QueueCost(w.s.queue) ==> o(t) != 0
    ensures var w' := DrainSpec(o, w, turns);
      && w'.s.queue == [] && w.t <= w'.t <= w.t + QueueCost(w.s.queue)
      && (NoErrors(o, w.t, w'.t) ==> w'.s.lost == w.s.lost)
      && (NoErrors(o, w.t, w'.t) && Quiet(w.s.queue) ==> w'.s.sent == w.s.sent + Pending(w.s.queue))
    decreases turns
  {
    hide TurnSpec, QueueCost, Inv, Quiet;
    if w.s.queue != [] {
      TurnProgress(o, w);
      var w1 := TurnSpec(o, w);
      if o(w.t) >= 0 && Quiet(w.s.queue) {
        QuietTurn(o, w);
      }
      DrainEnds(o, w1, turns - 1);
      assert NoErrors(o, w.t, DrainSpec(o, w, turns).t) ==>
        NoErrors(o, w.t, w1.t) && NoErrors(o, w1.t, DrainSpec(o, w1, turns - 1).t);
    } else {
      NoCost();
    }
  }

  // ---------- Whole sessions ----------

  /** The life of a connection: the program writes, or the socket becomes writable and the
      write callback runs for up to `turns` turns. */
  datatype Event = AppWrite(m: Message) | Writable(turns: nat)

  /** The write callback is called only while the watcher is started. */
  ghost function EventSpec(o: Oracle, w: World, ev: Event): World {
    match ev
    case AppWrite(m) => WriteSpec(o, w, m)
    case Writable(turns) =>
      if !w.s.watching then w
      else
        var w' := DrainSpec(o, World(w.s.(draining := true), w.t), turns);
        World(Settle(w'.s), w'.t)
  }

  /** Nothing else happens while the write callback has not returned. */
  ghost function SessionSpec(o: Oracle, w: World, events: seq<Event>): World
    decreases |events|
  {
    if events == [] || w.s.draining then w else SessionSpec(o, EventSpec(o, w, events[0]), events[1..])
  }

  ghost function EventTrace(o: Oracle, w: World, ev: Event): (steps: seq<Step>)
    ensures NeverFails(o) ==> Unfailing(steps)
  {
    match ev
    case AppWrite(m) => WriteTrace(o, w, m)
    case Writable(turns) =>
      if !w.s.watching then []
      else
        var wb := World(w.s.(draining := true), w.t);
        [DrainBegin] + DrainTrace(o, wb, turns) + if DrainSpec(o, wb, turns).s.queue == [] then [DrainEnd] else []
  }

  /** The steps of a session, with the answers that the kernel gives to its attempts. */
  ghost function SessionTrace(o: Oracle, w: World, events: seq<Event>): (steps: seq<Step>)
    ensures NeverFails(o) ==> Unfailing(steps)
    decreases |events|
  {
    if events == [] || w.s.draining then []
    else EventTrace(o, w, events[0]) + SessionTrace(o, EventSpec(o, w, events[0]), events[1..])
  }

  lemma {:induction false} EventIsRun(o: Oracle, w: World, ev: Event)
    requires !w.s.draining
    ensures Leads(o, w, EventTrace(o, w, ev), EventSpec(o, w, ev))
  {
    match ev {
      case AppWrite(m) => WriteSpecIsRun(o, w, m);
      case Writable(turns) =>
        if w.s.watching {
          var wb := World(w.s.(draining := true), w.t);
          var w' := DrainSpec(o, wb, turns);
          LeadsOne(o, w, DrainBegin);
          DrainSpecIsRun(o, wb, turns);
          hide DrainSpec, DrainTrace;
          LeadsConcat(o, w, [DrainBegin], wb, DrainTrace(o, wb, turns), w');
          if w'.s.queue == [] {
            LeadsOne(o, w', DrainEnd);
            LeadsConcat(o, w, [DrainBegin] + DrainTrace(o, wb, turns), w', [DrainEnd], EventSpec(o, w, ev));
          } else {
            assert [DrainBegin] + DrainTrace(o, wb, turns) + [] == [DrainBegin] + DrainTrace(o, wb, turns);
          }
        }
    }
  }

  /** Every session is a run of the machine, by these steps. */
  lemma {:induction false} SessionIsRun(o: Oracle, w: World, events: seq<Event>)
    ensures Leads(o, w, SessionTrace(o, w, events), SessionSpec(o, w, events))
    decreases |events|
  {
    if events != [] && !w.s.draining {
      hide EventSpec, EventTrace;
      var w1 := EventSpec(o, w, events[0]);
      EventIsRun(o, w, events[0]);
      SessionIsRun(o, w1, events[1..]);
      LeadsConcat(o, w, EventTrace(o, w, events[0]), w1, SessionTrace(o, w1, events[1..]),
        SessionSpec(o, w, events));
    }
  }

  /** Every attempt of the session is orderly: none fails on data, and none that is made past a
      waiting record is accepted. */
  ghost predicate OrderlySession(o: Oracle, events: seq<Event>) {
    var steps := SessionTrace(o, World(INIT, 0), events);
    IsRun(INIT, steps) && OrderlyRun(INIT, steps)
  }

  /** No attempt of the session fails on data. */
  ghost predicate LosslessSession(o: Oracle, events: seq<Event>) {
    var steps := SessionTrace(o, World(INIT, 0), events);
    IsRun(INIT, steps) && LosslessRun(INIT, steps)
  }

  /** What a session leaves, whatever the kernel answers: every message conserved, callbacks run
      once and in order, the stream in order exactly if every attempt was orderly, and nothing
      dropped exactly if none failed on data. */
  lemma {:induction false} SessionGuarantees(o: Oracle, events: seq<Event>)
    ensures var s := SessionSpec(o, World(INIT, 0), events).s;
      && Inv(s) && RanOnce(s) && RanInOrder(s) && RanAfterBytes(s)
      && (forall i :: 0 <= i < |s.submitted| ==> Conserved(s, i))
      && (InOrder(s) <==> OrderlySession(o, events))
      && (s.lost == [] <==> LosslessSession(o, events))
      && (NeverFails(o) ==> LosslessSession(o, events))
  {
    hide SessionSpec, SessionTrace, Apply;
    var steps := SessionTrace(o, World(INIT, 0), events);
    SessionIsRun(o, World(INIT, 0), events);
    RunInv(INIT, steps);
    RunConserves(INIT, steps);
    CallbacksOverRuns(steps);
    WireOrderIffOrderly(steps);
    LossIffError(INIT, steps);
    if NeverFails(o) {
      UnfailingIsLossless(INIT, steps);
    }
  }

  /** An orderly session puts the concatenation of its messages on the wire, queue last. */
  lemma {:induction false} OrderlySessionStream(o: Oracle, events: seq<Event>)
    requires OrderlySession(o, events)
    ensures var s := SessionSpec(o, World(INIT, 0), events).s;
      Raw(s.sent) + Raw(Pending(s.queue)) == Concat(s.submitted)
  {
    hide SessionSpec, SessionTrace, Apply;
    SessionIsRun(o, World(INIT, 0), events);
    OrderlyStream(SessionTrace(o, World(INIT, 0), events));
  }

  /** Every write, nested ones included, is made on an empty queue. */
  ghost predicate IdleWrites(s: State, steps: seq<Step>)
    requires IsRun(s, steps)
    decreases |steps|
  {
    steps == [] || ((steps[0].Submit? ==> s.queue == []) && IdleWrites(Apply(s, steps[0]), steps[1..]))
  }

  lemma {:induction false} IdleWritesAreOrderly(s: State, steps: seq<Step>)
    requires IsRun(s, steps) && IdleWrites(s, steps) && Unfailing(steps)
    ensures OrderlyRun(s, steps)
    decreases |steps|
  {
    if steps != [] {
      assert steps[0] in steps;
      IdleWritesAreOrderly(Apply(s, steps[0]), steps[1..]);
    }
  }

  /** What a caller can do about order: with a kernel that never fails, a program that writes
      only while nothing is queued has an orderly session, whatever is accepted when. */
  lemma {:induction false} IdleWriterIsOrderly(o: Oracle, events: seq<Event>)
    requires NeverFails(o)
    ensures var steps := SessionTrace(o, World(INIT, 0), events);
      IsRun(INIT, steps) && (IdleWrites(INIT, steps) ==> OrderlySession(o, events))
  {
    hide SessionSpec, Apply;
    var steps := SessionTrace(o, World(INIT, 0), events);
    SessionIsRun(o, World(INIT, 0), events);
    hide SessionTrace;
    if IdleWrites(INIT, steps) {
      IdleWritesAreOrderly(INIT, steps);
    }
  }

  // ---------- The caller's messages ----------

  /** What the program writes, in order, apart from its callbacks. */
  function AppMessages(events: seq<Event>): seq<Message> {
    if events == [] then []
    else (if events[0].AppWrite? then [events[0].m] else []) + AppMessages(events[1..])
  }

  /** The number of events that are handled before the write callback is left running. */
  ghost function Served(o: Oracle, w: World, events: seq<Event>): (k: nat)
    ensures k <= |events|
    decreases |events|
  {
    if events == [] || w.s.draining then 0 else 1 + Served(o, EventSpec(o, w, events[0]), events[1..])
  }

  lemma {:induction false} EventIssues(o: Oracle, w: World, ev: Event)
    requires Inv(w.s) && !w.s.draining
    ensures Issues(w.s, if ev.AppWrite? then [ev.m] else [], EventSpec(o, w, ev).s) && Inv(EventSpec(o, w, ev).s)
  {
    EventIsRun(o, w, ev);
    RunInv(w.s, EventTrace(o, w, ev));
    match ev {
      case AppWrite(m) => WriteIssues(o, w, m);
      case Writable(turns) =>
        if w.s.watching {
          DrainIssues(o, World(w.s.(draining := true), w.t), turns);
        } else {
          IssuesNone(w.s, w.s);
        }
    }
  }

  /** A session submits exactly the program's messages of the events it handles, and what the
      callbacks that ran write; it handles all events unless its last one has not returned. */
  lemma {:induction false} SessionIssues(o: Oracle, w: World, events: seq<Event>)
    requires Inv(w.s)
    ensures var w' := SessionSpec(o, w, events); var k := Served(o, w, events);
      Issues(w.s, AppMessages(events[..k]), w'.s) && (!w'.s.draining ==> k == |events|)
    decreases |events|
  {
    if events == [] || w.s.draining {
      IssuesNone(w.s, w.s);
    } else {
      hide EventSpec, Issues, Inv;
      var w1, k := EventSpec(o, w, events[0]), Served(o, w, events);
      EventIssues(o, w, events[0]);
      SessionIssues(o, w1, events[1..]);
      assert events[..k][1..] == events[1..][..k - 1];
      IssuesTrans(w.s, if events[0].AppWrite? then [events[0].m] else [], w1.s,
                  AppMessages(events[1..][..k - 1]), SessionSpec(o, w, events).s);
    }
  }

  /** Without callbacks that write, what a session submits is what the program wrote. */
  lemma {:induction false} SilentSession(o: Oracle, events: seq<Event>)
    requires Silent(AppMessages(events))
    ensures var s := SessionSpec(o, World(INIT, 0), events).s; !s.draining ==> s.submitted == AppMessages(events)
  {
    hide SessionSpec, Served, AppMessages;
    SessionIssues(o, World(INIT, 0), events);
    assert events[..|events|] == events;
    var s := SessionSpec(o, World(INIT, 0), events).s;
    assert s.submitted[0..] == s.submitted;
  }

  // ---------- Delivery ----------

  /** The kernel always takes something. */
  ghost predicate Eager(o: Oracle) {
    forall t :: o(t) > 0
  }

  /** Each run of the write callback is followed for at least `turns` turns. */
  ghost predicate Patient(events: seq<Event>, turns: nat) {
    forall ev :: ev in events && ev.Writable? ==> ev.turns >= turns
  }

  lemma {:induction false} EagerEvent(o: Oracle, w: World, ev: Event, budget: nat)
    requires Eager(o) && Inv(w.s) && !w.s.draining && (ev.Writable? ==> ev.turns >= budget)
    requires QueueCost(w.s.queue) + (if ev.AppWrite? then Cost(ev.m) else 0) <= budget
    ensures var w' := EventSpec(o, w, ev);
      && !w'.s.draining && w'.s.lost == w.s.lost
      && QueueCost(w'.s.queue) <= QueueCost(w.s.queue) + (if ev.AppWrite? then Cost(ev.m) else 0)
      && (ev.Writable? ==> w'.s.queue == [])
  {
    match ev {
      case AppWrite(m) => WritePaid(o, w, m);
      case Writable(turns) =>
        if w.s.watching {
          DrainEnds(o, World(w.s.(draining := true), w.t), turns);
          NoCost();
        }
    }
  }

  lemma {:induction false} CostsConcat(a: seq<Message>, b: seq<Message>)
    ensures Costs(a + b) == Costs(a) + Costs(b)
  {
    if a == [] {
      assert a + b == b;
    } else {
      CostsConcat(a[1..], b);
      assert (a + b)[1..] == a[1..] + b;
    }
  }

  lemma {:induction false} EagerSession(o: Oracle, w: World, events: seq<Event>, budget: nat)
    requires Eager(o) && Inv(w.s) && !w.s.draining && Patient(events, budget)
    requires QueueCost(w.s.queue) + Costs(AppMessages(events)) <= budget
    ensures var w' := SessionSpec(o, w, events);
      && !w'.s.draining && w'.s.lost == w.s.lost
      && (events != [] && events[|events| - 1].Writable? ==> w'.s.queue == [])
    decreases |events|
  {
    if events != [] {
      var w1 := EventSpec(o, w, events[0]);
      assert events[0] in events && forall ev :: ev in events[1..] ==> ev in events;
      var first := if events[0].AppWrite? then [events[0].m] else [];
      CostsConcat(first, AppMessages(events[1..]));
      assert Costs(first) == if events[0].AppWrite? then Cost(events[0].m) else 0 by {
        assert first != [] ==> first[1..] == [];
      }
      hide EventSpec, Inv, Cost, Costs, QueueCost;
      EagerEvent(o, w, events[0], budget);
      EventIssues(o, w, events[0]);
      EagerSession(o, w1, events[1..], budget);
    }
  }

  /** With a kernel that always takes something, followed long enough to take everything, the
      session ends in a run of the write callback. */
  ghost predicate Prompt(o: Oracle, events: seq<Event>) {
    && Eager(o) && Patient(events, Costs(AppMessages(events)))
    && events != [] && events[|events| - 1].Writable?
  }

  /** Everything has arrived: each message is on the wire whole, each callback has run, and
      the watcher is stopped. */
  ghost predicate AllDelivered(s: State) {
    && s.queue == [] && !s.draining && !s.launched && !s.watching
    && (forall i :: 0 <= i < |s.submitted| ==> Raw(Of(s.sent, i)) == s.submitted[i].bytes)
    && (forall i :: HasCb(s, i) ==> i in s.ran)
  }

  lemma {:induction false} WholeOnWire(s: State, i: nat)
    requires s.queue == [] && s.lost == [] && i < |s.submitted| && Conserved(s, i)
    ensures Raw(Of(s.sent, i)) == s.submitted[i].bytes
  {
    assert Of(s.sent, i) + [] + [] == Of(s.sent, i);
    RawUnits(i, 0, s.submitted[i].bytes);
  }

  lemma {:induction false} IdleIsDelivered(s: State)
    requires Inv(s) && RanOnce(s) && s.queue == [] && s.lost == [] && !s.draining
    requires forall i :: 0 <= i < |s.submitted| ==> Conserved(s, i)
    ensures AllDelivered(s)
  {
    hide Of, Raw, Conserved;
    forall i | 0 <= i < |s.submitted| ensures Raw(Of(s.sent, i)) == s.submitted[i].bytes {
      WholeOnWire(s, i);
    }
    assert forall i :: !InQueue(s.queue, i);
  }

  /** Every message of a promptly served session is delivered, those of callbacks included. */
  lemma {:induction false} PromptDelivers(o: Oracle, events: seq<Event>)
    requires Prompt(o, events)
    ensures AllDelivered(SessionSpec(o, World(INIT, 0), events).s)
  {
    NoCost();
    EagerSession(o, World(INIT, 0), events, Costs(AppMessages(events)));
    hide *;
    SessionGuarantees(o, events);
    IdleIsDelivered(SessionSpec(o, World(INIT, 0), events).s);
  }

  lemma {:induction false} DeliveredIdle(s: State, wire: seq<Byte>)
    requires AllDelivered(s)
    ensures !s.draining && wire + Raw(Pending(s.queue)) == wire
  {
    assert Raw(Pending(s.queue)) == [];
  }
}
