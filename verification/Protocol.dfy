/** The command protocol of oj/iojxd.lua: what a read on a connection does, over any number of
    connections and any interleaving of their reads. */
module Protocol {
  import opened Common

  /** What running a chunk comes to.  Only an error value that Lua can concatenate has text. */
  datatype LuaError = Text(s: string) | NoText
  datatype Chunk = LoadFailed(msg: string) | Succeeded | Failed(err: LuaError)

  /** A connection.  `data` is absent until authentication and then holds the environment,
      given as the chunks executed in it. */
  datatype Conn = Conn(active: bool, data: Option<seq<string>>, replies: seq<string>)

  datatype State = State(listening: bool, conns: map<nat, Conn>)

  datatype Step =
    | Accept(c: nat)
    | Read(c: nat, bytes: string, chunk: Chunk) // chunk: the result if the data is run as one
    | Eof(c: nat)

  /** The Lua string made of a C string: the bytes before the first NUL. */
  function CString(bytes: string): (s: string)
    ensures s <= bytes && '\0' !in s
    ensures |s| < |bytes| ==> bytes[|s|] == '\0'
  {
    if bytes == [] || bytes[0] == '\0' then [] else [bytes[0]] + CString(bytes[1..])
  }

  datatype Action = Auth | Exit | UnknownCommand | Run(text: string) | Refuse

  /** A read of more than one byte that starts with '$' is a command. */
  predicate IsCommand(bytes: string) {
    |bytes| > 1 && |CString(bytes)| >= 1 && CString(bytes)[0] == '$'
  }

  function Decide(conn: Conn, bytes: string): Action {
    if IsCommand(bytes) then
      var cmd := CString(bytes)[1..];
      if cmd == "AUTH" then Auth else if cmd == "EXIT" then Exit else UnknownCommand
    else if conn.data.Some? then Run(CString(bytes))
    else Refuse
  }

  /** The answer to a chunk; a failure whose error has no text raises instead. */
  function Answer(chunk: Chunk): seq<string> {
    match chunk
    case LoadFailed(msg) => ["0\n" + msg]
    case Succeeded => ["1"]
    case Failed(Text(s)) => ["0\n" + s]
    case Failed(NoText) => []
  }

  /** What a read does to its own connection. */
  function OnRead(conn: Conn, bytes: string, chunk: Chunk): Conn {
    match Decide(conn, bytes)
    case Auth => conn.(data := Some([]), replies := conn.replies + ["1"])
    case Exit => conn.(active := false, replies := conn.replies + ["1"])
    case UnknownCommand => conn
    case Run(text) =>
      conn.(data := if chunk.LoadFailed? then conn.data else Some(conn.data.value + [text]),
            replies := conn.replies + Answer(chunk))
    case Refuse => conn.(active := false, replies := conn.replies + ["0\nyou are not authed."])
  }

  predicate Enabled(s: State, step: Step) {
    match step
    case Accept(c) => s.listening && c !in s.conns
    case Read(c, bytes, _) => c in s.conns && s.conns[c].active && bytes != []
    case Eof(c) => c in s.conns && s.conns[c].active
  }

  function Apply(s: State, step: Step): State
    requires Enabled(s, step)
  {
    match step
    case Accept(c) => s.(conns := s.conns[c := Conn(true, None, [])])
    case Read(c, bytes, chunk) =>
      State(s.listening && !Decide(s.conns[c], bytes).Exit?,
            s.conns[c := OnRead(s.conns[c], bytes, chunk)])
    case Eof(c) => s.(conns := s.conns[c := s.conns[c].(active := false)])
  }

  const INIT := State(true, map[])

  ghost predicate IsRun(s: State, steps: seq<Step>)
    decreases |steps|
  {
    steps == [] || (Enabled(s, steps[0]) && IsRun(Apply(s, steps[0]), steps[1..]))
  }

  ghost function Exec(s: State, steps: seq<Step>): State
    requires IsRun(s, steps)
    decreases |steps|
  {
    if steps == [] then s else Exec(Apply(s, steps[0]), steps[1..])
  }

  // ---------- The handlers, updating in place ----------

  class Server {
    var listening: bool
    var conns: map<nat, Conn>

    ghost function Abs(): State
      reads this
    {
      State(listening, conns)
    }

    constructor ()
      ensures Abs() == INIT
    {
      listening, conns := true, map[];
    }

    method Write(c: nat, text: string)
      requires c in conns
      modifies `conns
      ensures conns == old(conns)[c := old(conns)[c].(replies := old(conns)[c].replies + [text])]
    {
      conns := conns[c := conns[c].(replies := conns[c].replies + [text])];
    }

    method Close(c: nat)
      requires c in conns
      modifies `conns
      ensures conns == old(conns)[c := old(conns)[c].(active := false)]
    {
      conns := conns[c := conns[c].(active := false)];
    }

    /** `execute_cmd`; an unknown command raises. */
    method ExecuteCmd(c: nat, cmd: string) returns (raised: bool)
      requires c in conns
      modifies this
      ensures raised <==> cmd != "AUTH" && cmd != "EXIT"
      ensures listening == (old(listening) && cmd != "EXIT")
      ensures var conn := old(conns)[c];
        conns == old(conns)[c :=
          if cmd == "AUTH" then conn.(data := Some([]), replies := conn.replies + ["1"])
          else if cmd == "EXIT" then conn.(active := false, replies := conn.replies + ["1"])
          else conn]
    {
      if cmd == "AUTH" {
        Write(c, "1");
        conns := conns[c := conns[c].(data := Some([]))];
      } else if cmd == "EXIT" {
        Write(c, "1");
        Close(c);
        listening := false;
      } else {
        return true;
      }
      raised := false;
    }

    /** The `on_read` handler. */
    method OnReadHandler(c: nat, bytes: string, chunk: Chunk) returns (raised: bool)
      requires Enabled(Abs(), Read(c, bytes, chunk))
      modifies this
      ensures Abs() == Apply(old(Abs()), Read(c, bytes, chunk))
      ensures raised <==> conns[c].replies == old(conns)[c].replies
    {
      var data := CString(bytes);
      raised := false;
      if |bytes| > 1 && |data| >= 1 && data[0] == '$' {
        raised := ExecuteCmd(c, data[1..]);
      } else if conns[c].data.Some? {
        match chunk {
          case LoadFailed(msg) => Write(c, "0\n" + msg);
          case Succeeded =>
            conns := conns[c := conns[c].(data := Some(conns[c].data.value + [data]))];
            Write(c, "1");
          case Failed(err) =>
            conns := conns[c := conns[c].(data := Some(conns[c].data.value + [data]))];
            match err {
              case Text(s) => Write(c, "0\n" + s);
              case NoText =>
                raised := true;
                assert conns[c].replies + [] == conns[c].replies;
            }
        }
      } else {
        Write(c, "0\nyou are not authed.");
        Close(c);
      }
      assert conns == old(conns)[c := OnRead(old(conns)[c], bytes, chunk)];
    }

    /** A new connection starts without data, and an end of file closes one. */
    method Handle(step: Step)
      requires Enabled(Abs(), step)
      modifies this
      ensures Abs() == Apply(old(Abs()), step)
    {
      match step {
        case Accept(c) => conns := conns[c := Conn(true, None, [])];
        case Read(c, bytes, chunk) => var _ := OnReadHandler(c, bytes, chunk);
        case Eof(c) => Close(c);
      }
    }
  }

  // ---------- Isolation ----------

  /** The life of one connection, alone. */
  function Alone(conn: Option<Conn>, step: Step): Option<Conn> {
    match step
    case Accept(_) => Some(Conn(true, None, []))
    case Read(_, bytes, chunk) =>
      if conn.None? then None else Some(OnRead(conn.value, bytes, chunk))
    case Eof(_) => if conn.None? then None else Some(conn.value.(active := false))
  }

  function Life(conn: Option<Conn>, steps: seq<Step>): Option<Conn>
    decreases |steps|
  {
    if steps == [] then conn else Life(Alone(conn, steps[0]), steps[1..])
  }

  /** The steps of one connection. */
  function Own(steps: seq<Step>, c: nat): seq<Step> {
    if steps == [] then [] else (if steps[0].c == c then [steps[0]] else []) + Own(steps[1..], c)
  }

  function Look(s: State, c: nat): Option<Conn> {
    if c in s.conns then Some(s.conns[c]) else None
  }

  /** Whatever the interleaving, a connection ends up as if it had been served alone. */
  lemma {:induction false} Isolated(s: State, steps: seq<Step>, c: nat)
    requires IsRun(s, steps)
    ensures Look(Exec(s, steps), c) == Life(Look(s, c), Own(steps, c))
    decreases |steps|
  {
    if steps != [] {
      var s' := Apply(s, steps[0]);
      Isolated(s', steps[1..], c);
      if steps[0].c == c {
        assert Own(steps, c)[1..] == Own(steps[1..], c);
      } else {
        assert Own(steps, c) == Own(steps[1..], c);
      }
    }
  }

  // ---------- Authentication comes first ----------

  predicate IsAuth(step: Step, c: nat) {
    step.Read? && step.c == c && IsCommand(step.bytes) && CString(step.bytes)[1..] == "AUTH"
  }

  /** The step runs a chunk: it loads, and its connection holds an environment. */
  predicate Executes(s: State, step: Step)
    requires Enabled(s, step)
  {
    step.Read? && Decide(s.conns[step.c], step.bytes).Run? && !step.chunk.LoadFailed?
  }

  /** The chunks executed on `c` since its last authentication, read off the steps alone. */
  function Env(steps: seq<Step>, c: nat): Option<seq<string>> {
    if steps == [] then None else
      var before, last := Env(steps[..|steps| - 1], c), steps[|steps| - 1];
      if last.c != c || !last.Read? then before
      else if IsAuth(last, c) then Some([])
      else if before.Some? && !IsCommand(last.bytes) && !last.chunk.LoadFailed? then
        Some(before.value + [CString(last.bytes)])
      else before
  }

  lemma {:induction false} EnvNeedsAuth(steps: seq<Step>, c: nat)
    requires Env(steps, c).Some?
    ensures exists j :: 0 <= j < |steps| && IsAuth(steps[j], c)
    decreases |steps|
  {
    var n := |steps| - 1;
    if IsAuth(steps[n], c) {
    } else {
      EnvNeedsAuth(steps[..n], c);
      var j :| 0 <= j < n && IsAuth(steps[..n][j], c);
      assert IsAuth(steps[j], c);
    }
  }

  /** The prefix of a run up to `k` is a run, and step `k` takes it one further. */
  lemma {:induction false} RunSplit(s: State, steps: seq<Step>, k: nat)
    requires IsRun(s, steps) && k < |steps|
    ensures IsRun(s, steps[..k]) && Enabled(Exec(s, steps[..k]), steps[k])
    ensures IsRun(s, steps[..k + 1])
    ensures Exec(s, steps[..k + 1]) == Apply(Exec(s, steps[..k]), steps[k])
    decreases k
  {
    if k > 0 {
      RunSplit(Apply(s, steps[0]), steps[1..], k - 1);
      assert steps[..k][1..] == steps[1..][..k - 1];
      assert steps[..k + 1][1..] == steps[1..][..k];
    } else {
      assert steps[..1][1..] == [];
    }
  }

  /** At every point of every run a connection's environment holds exactly the chunks
      executed on it since it last authenticated. */
  lemma {:induction false} EnvironmentIsOwn(steps: seq<Step>, c: nat)
    requires IsRun(INIT, steps)
    ensures c in Exec(INIT, steps).conns ==> Exec(INIT, steps).conns[c].data == Env(steps, c)
    ensures c !in Exec(INIT, steps).conns ==> Env(steps, c) == None
    decreases |steps|
  {
    if steps != [] {
      var n := |steps| - 1;
      assert steps[..n + 1] == steps;
      RunSplit(INIT, steps, n);
      EnvironmentIsOwn(steps[..n], c);
    }
  }

  /** In every run, a step that executes a chunk comes after an `$AUTH` on its own connection. */
  lemma {:induction false} ExecutionNeedsAuth(steps: seq<Step>, k: nat)
    requires IsRun(INIT, steps) && k < |steps|
    ensures IsRun(INIT, steps[..k]) && Enabled(Exec(INIT, steps[..k]), steps[k])
    ensures Executes(Exec(INIT, steps[..k]), steps[k]) ==>
      exists j :: 0 <= j < k && IsAuth(steps[j], steps[k].c)
  {
    RunSplit(INIT, steps, k);
    if Executes(Exec(INIT, steps[..k]), steps[k]) {
      var c := steps[k].c;
      EnvironmentIsOwn(steps[..k], c);
      EnvNeedsAuth(steps[..k], c);
      var j :| 0 <= j < k && IsAuth(steps[..k][j], c);
      assert IsAuth(steps[j], c);
    }
  }

  // ---------- Replies ----------

  /** The reads that are answered: all but unknown commands and chunks that fail without text. */
  predicate Answered(s: State, step: Step)
    requires Enabled(s, step) && step.Read?
  {
    match Decide(s.conns[step.c], step.bytes)
    case UnknownCommand => false
    case Run(_) => step.chunk != Failed(NoText)
    case _ => true
  }

  /** Every read produces exactly one reply if it is an answered one and none otherwise, on
      its own connection, and leaves every other connection as it was. */
  lemma {:induction false} OneReplyPerRead(s: State, step: Step)
    requires Enabled(s, step) && step.Read?
    ensures var s' := Apply(s, step);
      && s'.conns.Keys == s.conns.Keys
      && |s'.conns[step.c].replies| == |s.conns[step.c].replies| + (if Answered(s, step) then 1 else 0)
      && s.conns[step.c].replies <= s'.conns[step.c].replies
      && forall d :: d in s.conns && d != step.c ==> s'.conns[d] == s.conns[d]
  {
  }

  ghost function AnsweredReads(s: State, steps: seq<Step>, c: nat): nat
    requires IsRun(s, steps)
    decreases |steps|
  {
    if steps == [] then 0 else
      (if steps[0].Read? && steps[0].c == c && Answered(s, steps[0]) then 1 else 0)
      + AnsweredReads(Apply(s, steps[0]), steps[1..], c)
  }

  /** Over every run a connection has as many replies as answered reads. */
  lemma {:induction false} RepliesMatchReads(s: State, steps: seq<Step>, c: nat)
    requires IsRun(s, steps)
    ensures Replies(Exec(s, steps), c) == Replies(s, c) + AnsweredReads(s, steps, c)
    decreases |steps|
  {
    if steps != [] {
      RepliesMatchReads(Apply(s, steps[0]), steps[1..], c);
      if steps[0].Read? {
        OneReplyPerRead(s, steps[0]);
      }
    }
  }

  function Replies(s: State, c: nat): nat {
    if c in s.conns then |s.conns[c].replies| else 0
  }

  /** After an `$EXIT`, from any connection, the server accepts no more. */
  lemma {:induction false} ExitStopsListening(s: State, steps: seq<Step>)
    requires IsRun(s, steps) && !s.listening
    ensures !Exec(s, steps).listening && Exec(s, steps).conns.Keys == s.conns.Keys
    decreases |steps|
  {
    if steps != [] {
      ExitStopsListening(Apply(s, steps[0]), steps[1..]);
    }
  }

  // ---------- The state, read off the steps ----------

  /** The bytes are `text` up to their end or the first NUL. */
  predicate Says(bytes: string, text: string) {
    bytes == text || text + ['\0'] <= bytes
  }

  /** A connection that sends `text`. */
  predicate Sends(step: Step, c: nat, text: string) {
    step.Read? && step.c == c && Says(step.bytes, text)
  }

  /** More than one byte, the first of them '$'. */
  predicate IsDollar(bytes: string) {
    |bytes| > 1 && bytes[0] == '$'
  }

  /** An `$AUTH` was sent on `c` before step `k`. */
  predicate AuthedBefore(steps: seq<Step>, k: nat, c: nat)
    requires k <= |steps|
  {
    exists j :: 0 <= j < k && Sends(steps[j], c, "$AUTH")
  }

  /** Data that ends its connection: an `$EXIT`, or no command before an `$AUTH`. */
  predicate ClosingRead(bytes: string, authed: bool) {
    if IsDollar(bytes) then Says(bytes, "$EXIT") else !authed
  }

  /** The reads that get a reply. */
  predicate GetsReply(bytes: string, chunk: Chunk, authed: bool) {
    if IsDollar(bytes) then Says(bytes, "$AUTH") || Says(bytes, "$EXIT")
    else authed ==> chunk != Failed(NoText)
  }

  /** The reply to a read: "1" exactly for `$AUTH`, `$EXIT` and an authenticated chunk that
      succeeds, else "0", a new line and what went wrong. */
  predicate RightReply(bytes: string, chunk: Chunk, authed: bool, reply: string) {
    var good := Says(bytes, "$AUTH") || Says(bytes, "$EXIT") || (!IsDollar(bytes) && authed && chunk.Succeeded?);
    && (reply == "1" <==> good)
    && (!good && !authed ==> reply == "0\nyou are not authed.")
    && (!good && authed && chunk.LoadFailed? ==> reply == "0\n" + chunk.msg)
    && (!good && authed && !chunk.LoadFailed? ==> chunk.Failed? && chunk.err.Text? && reply == "0\n" + chunk.err.s)
  }

  /** Step `k` closes `c`: an end of file or a closing read. */
  predicate Closes(steps: seq<Step>, k: nat, c: nat)
    requires k < |steps|
  {
    && steps[k].c == c
    && (steps[k].Eof? || (steps[k].Read? && ClosingRead(steps[k].bytes, AuthedBefore(steps, k, c))))
  }

  lemma {:induction false} SaysCString(bytes: string, text: string)
    requires '\0' !in text
    ensures CString(bytes) == text <==> Says(bytes, text)
    ensures bytes != [] ==> (CString(bytes) != [] && CString(bytes)[0] == '$' <==> bytes[0] == '$')
  {
    var s := CString(bytes);
    if Says(bytes, text) {
      assert forall i :: 0 <= i < |text| ==> text[i] in text && bytes[i] == text[i] != '\0';
      assert forall i :: 0 <= i < |s| ==> s[i] in s && bytes[i] == s[i] != '\0';
      assert |text| < |bytes| ==> bytes[|text|] == (text + ['\0'])[|text|] == '\0';
      assert |s| == |text|;
      assert s == bytes[..|text|] == text;
    }
    if s == text && |s| < |bytes| {
      assert bytes[..|s| + 1] == text + ['\0'];
    }
  }

  /** Commands, in plain bytes. */
  lemma {:induction false} PlainCommand(bytes: string, cmd: string)
    requires '\0' !in cmd && cmd != []
    ensures IsCommand(bytes) <==> IsDollar(bytes)
    ensures IsCommand(bytes) && CString(bytes)[1..] == cmd <==> Says(bytes, ['$'] + cmd)
  {
    SaysCString(bytes, ['$'] + cmd);
    assert IsCommand(bytes) && CString(bytes)[1..] == cmd <==> CString(bytes) == ['$'] + cmd;
  }

  lemma {:induction false} AuthInBytes(step: Step, c: nat)
    ensures IsAuth(step, c) <==> Sends(step, c, "$AUTH")
    ensures IsAuth(step, c) ==> step.Read? && step.c == c
  {
    if step.Read? {
      PlainCommand(step.bytes, "AUTH");
      assert ['$'] + "AUTH" == "$AUTH";
    }
  }

  lemma {:induction false} AuthIffEnv(steps: seq<Step>, k: nat, c: nat)
    requires k <= |steps|
    ensures AuthedBefore(steps, k, c) <==> Env(steps[..k], c).Some?
    decreases k
  {
    if k > 0 {
      AuthIffEnv(steps, k - 1, c);
      assert steps[..k][..k - 1] == steps[..k - 1];
      AuthInBytes(steps[k - 1], c);
      hide IsAuth, Sends, IsCommand;
      if Sends(steps[k - 1], c, "$AUTH") {
        assert AuthedBefore(steps, k, c);
        assert Env(steps[..k], c) == Some([]) by { assert steps[k - 1].Read? && steps[k - 1].c == c; }
      } else {
        assert AuthedBefore(steps, k, c) <==> AuthedBefore(steps, k - 1, c);
      }
    }
  }

  /** What one read does, in plain bytes: its reply, and whether its connection stays open. */
  lemma {:induction false} OneRead(conn: Conn, bytes: string, chunk: Chunk)
    ensures var conn' := OnRead(conn, bytes, chunk); var authed := conn.data.Some?;
      && (GetsReply(bytes, chunk, authed) ==>
            && |conn'.replies| == |conn.replies| + 1 && conn.replies <= conn'.replies
            && RightReply(bytes, chunk, authed, conn'.replies[|conn.replies|]))
      && (!GetsReply(bytes, chunk, authed) ==> conn'.replies == conn.replies)
      && (conn'.active <==> conn.active && !ClosingRead(bytes, authed))
  {
    PlainCommand(bytes, "AUTH");
    PlainCommand(bytes, "EXIT");
    assert ['$'] + "AUTH" == "$AUTH" && ['$'] + "EXIT" == "$EXIT";
    hide CString, IsCommand, Says, IsDollar;
  }

  /** In every run, the read at step `k` adds the right reply if it gets one and none otherwise,
      and leaves its connection open unless it closes it. */
  lemma {:induction false} ReadInRun(steps: seq<Step>, k: nat)
    requires IsRun(INIT, steps) && k < |steps| && steps[k].Read?
    ensures IsRun(INIT, steps[..k]) && IsRun(INIT, steps[..k + 1])
    ensures var Read(c, bytes, chunk) := steps[k]; var authed := AuthedBefore(steps, k, c);
      var s, s' := Exec(INIT, steps[..k]), Exec(INIT, steps[..k + 1]);
      && c in s.conns && c in s'.conns && s.conns[c].active
      && (GetsReply(bytes, chunk, authed) ==>
            && |s'.conns[c].replies| == |s.conns[c].replies| + 1 && s.conns[c].replies <= s'.conns[c].replies
            && RightReply(bytes, chunk, authed, s'.conns[c].replies[|s.conns[c].replies|]))
      && (!GetsReply(bytes, chunk, authed) ==> s'.conns[c].replies == s.conns[c].replies)
      && (s'.conns[c].active <==> !Closes(steps, k, c))
  {
    RunSplit(INIT, steps, k);
    var Read(c, bytes, chunk) := steps[k];
    EnvironmentIsOwn(steps[..k], c);
    AuthIffEnv(steps, k, c);
    hide IsRun, Exec, Env, AuthedBefore, OnRead, ClosingRead, GetsReply, RightReply, Decide;
    OneRead(Exec(INIT, steps[..k]).conns[c], bytes, chunk);
  }

  /** None of the first `n` steps is an `$EXIT`, from any connection. */
  predicate NoExit(steps: seq<Step>, n: nat)
    requires n <= |steps|
  {
    forall j :: 0 <= j < n ==> !Sends(steps[j], steps[j].c, "$EXIT")
  }

  /** None of the first `n` steps closes `c`. */
  predicate NoClose(steps: seq<Step>, n: nat, c: nat)
    requires n <= |steps|
  {
    forall j :: 0 <= j < n ==> !Closes(steps, j, c)
  }

  /** One of the first `n` steps accepts `c`. */
  predicate IsAccepted(steps: seq<Step>, n: nat, c: nat)
    requires n <= |steps|
  {
    exists j :: 0 <= j < n && steps[j] == Accept(c)
  }

  /** The state is what the first `n` steps say: the server listens until an `$EXIT`, has the
      connections it accepted, and a connection is active until a step closes it. */
  ghost predicate RightState(steps: seq<Step>, n: nat, c: nat, s: State)
    requires n <= |steps|
  {
    && (s.listening <==> NoExit(steps, n))
    && (c in s.conns <==> IsAccepted(steps, n, c))
    && (c in s.conns ==> (s.conns[c].active <==> NoClose(steps, n, c)))
    && (c !in s.conns ==> NoClose(steps, n, c))
  }

  lemma {:induction false} StateOfRun(steps: seq<Step>, n: nat, c: nat)
    requires IsRun(INIT, steps) && n <= |steps|
    ensures IsRun(INIT, steps[..n]) && RightState(steps, n, c, Exec(INIT, steps[..n]))
    decreases n
  {
    if n > 0 {
      hide IsRun, Exec, RightState;
      StateOfRun(steps, n - 1, c);
      RunSplit(INIT, steps, n - 1);
      StateNext(steps, n - 1, c);
    }
  }

  lemma {:induction false} StateNext(steps: seq<Step>, n: nat, c: nat)
    requires IsRun(INIT, steps) && n < |steps|
    requires IsRun(INIT, steps[..n]) && Enabled(Exec(INIT, steps[..n]), steps[n])
    requires RightState(steps, n, c, Exec(INIT, steps[..n]))
    ensures RightState(steps, n + 1, c, Apply(Exec(INIT, steps[..n]), steps[n]))
  {
    hide IsRun, Exec, Sends, Closes, Apply, Enabled;
    StateStep(steps, n, c);
    assert NoExit(steps, n + 1) <==> NoExit(steps, n) && !Sends(steps[n], steps[n].c, "$EXIT");
    assert NoClose(steps, n + 1, c) <==> NoClose(steps, n, c) && !Closes(steps, n, c);
    assert IsAccepted(steps, n + 1, c) <==> IsAccepted(steps, n, c) || steps[n] == Accept(c);
  }

  /** What step `n` of a run does to the parts of the state other than replies. */
  lemma {:induction false} StateStep(steps: seq<Step>, n: nat, c: nat)
    requires IsRun(INIT, steps) && n < |steps|
    requires IsRun(INIT, steps[..n]) && Enabled(Exec(INIT, steps[..n]), steps[n])
    ensures var s := Exec(INIT, steps[..n]); var s' := Apply(s, steps[n]);
      && (s'.listening <==> s.listening && !Sends(steps[n], steps[n].c, "$EXIT"))
      && (c in s'.conns <==> c in s.conns || steps[n] == Accept(c))
      && (c in s.conns ==> (s'.conns[c].active <==> s.conns[c].active && !Closes(steps, n, c)))
      && (steps[n] == Accept(c) ==> s'.conns[c].active && !Closes(steps, n, c))
      && (c !in s.conns ==> !Closes(steps, n, c))
  {
    var s := Exec(INIT, steps[..n]);
    if steps[n].Read? {
      var Read(d, bytes, chunk) := steps[n];
      EnvironmentIsOwn(steps[..n], d);
      AuthIffEnv(steps, n, d);
      PlainCommand(bytes, "EXIT");
      assert ['$'] + "EXIT" == "$EXIT";
      OneRead(s.conns[d], bytes, chunk);
    }
    hide IsRun, Exec, Env, AuthedBefore, CString, IsCommand, Says, OnRead, ClosingRead, RightReply, GetsReply;
  }

  /** The step runs its data as a chunk if its connection is authenticated: no command, and it
      loads. */
  predicate IsChunk(step: Step, c: nat) {
    step.Read? && step.c == c && !IsDollar(step.bytes) && !step.chunk.LoadFailed?
  }

  /** The number of chunks on `c` from step `a` to before step `k`. */
  function ChunkCount(steps: seq<Step>, a: nat, k: nat, c: nat): nat
    requires a <= k <= |steps|
    decreases k
  {
    if k == a then 0 else ChunkCount(steps, a, k - 1, c) + if IsChunk(steps[k - 1], c) then 1 else 0
  }

  /** `env` holds, one for one and in order, the chunks on `c` from step `a` to before step `n`. */
  ghost predicate HoldsChunks(steps: seq<Step>, a: nat, n: nat, c: nat, env: seq<string>)
    requires a <= n <= |steps|
  {
    && |env| == ChunkCount(steps, a, n, c)
    && forall k :: a <= k < n && IsChunk(steps[k], c) ==>
         ChunkCount(steps, a, k, c) < |env| && Says(steps[k].bytes, env[ChunkCount(steps, a, k, c)])
  }

  /** Step `a` is the last `$AUTH` on `c` before step `n`. */
  ghost predicate LastAuth(steps: seq<Step>, n: nat, c: nat, a: nat)
    requires n <= |steps|
  {
    && a < n && Sends(steps[a], c, "$AUTH")
    && forall j :: a < j < n ==> !Sends(steps[j], c, "$AUTH")
  }

  lemma {:induction false} EnvStep(steps: seq<Step>, n: nat, c: nat)
    requires n < |steps|
    ensures Env(steps[..n + 1], c) ==
      if Sends(steps[n], c, "$AUTH") then Some([])
      else if Env(steps[..n], c).Some? && IsChunk(steps[n], c) then
        Some(Env(steps[..n], c).value + [CString(steps[n].bytes)])
      else Env(steps[..n], c)
  {
    assert steps[..n + 1][..n] == steps[..n];
    AuthInBytes(steps[n], c);
    if steps[n].Read? {
      PlainCommand(steps[n].bytes, "AUTH");
    }
    hide CString, IsCommand, IsDollar, Sends, IsAuth;
  }

  lemma {:induction false} HoldsNext(steps: seq<Step>, a: nat, n: nat, c: nat, env: seq<string>, env': seq<string>)
    requires a <= n < |steps| && HoldsChunks(steps, a, n, c, env)
    requires env' == if IsChunk(steps[n], c) then env + [CString(steps[n].bytes)] else env
    ensures HoldsChunks(steps, a, n + 1, c, env')
  {
    if IsChunk(steps[n], c) {
      SaysCString(steps[n].bytes, CString(steps[n].bytes));
    }
    hide IsChunk, Says, CString;
  }

  lemma {:induction false} HoldsNone(steps: seq<Step>, n: nat, c: nat)
    requires n <= |steps|
    ensures HoldsChunks(steps, n, n, c, [])
  {
  }

  /** In every run the environment of an authenticated connection holds exactly the chunks run
      on it after its last `$AUTH`, at step `a`. */
  lemma {:induction false} ChunksSinceAuth(steps: seq<Step>, n: nat, c: nat, a: nat)
    requires n <= |steps| && LastAuth(steps, n, c, a)
    ensures Env(steps[..n], c).Some? && HoldsChunks(steps, a + 1, n, c, Env(steps[..n], c).value)
    decreases n
  {
    hide Env, IsChunk, Sends, HoldsChunks;
    EnvStep(steps, n - 1, c);
    if a == n - 1 {
      HoldsNone(steps, n, c);
    } else {
      assert !Sends(steps[n - 1], c, "$AUTH") && LastAuth(steps, n - 1, c, a);
      ChunksSinceAuth(steps, n - 1, c, a);
      HoldsNext(steps, a + 1, n - 1, c, Env(steps[..n - 1], c).value, Env(steps[..n], c).value);
    }
  }

  /** The environment of `c`: none before an `$AUTH`, and after one the chunks since the last. */
  ghost predicate RightEnv(steps: seq<Step>, c: nat, data: Option<seq<string>>) {
    && (data.Some? <==> AuthedBefore(steps, |steps|, c))
    && forall a: nat :: LastAuth(steps, |steps|, c, a) ==>
         data.Some? && HoldsChunks(steps, a + 1, |steps|, c, data.value)
  }

  lemma {:induction false} EnvOfRun(steps: seq<Step>, c: nat)
    ensures RightEnv(steps, c, Env(steps, c))
  {
    AuthIffEnv(steps, |steps|, c);
    assert steps[..|steps|] == steps;
    hide Env, AuthedBefore, LastAuth, HoldsChunks;
    forall a: nat | LastAuth(steps, |steps|, c, a)
      ensures a < |steps| && Env(steps, c).Some? && HoldsChunks(steps, a + 1, |steps|, c, Env(steps, c).value)
    {
      LastAuthBelow(steps, |steps|, c, a);
      ChunksSinceAuth(steps, |steps|, c, a);
    }
  }

  lemma {:induction false} LastAuthBelow(steps: seq<Step>, n: nat, c: nat, a: nat)
    requires n <= |steps| && LastAuth(steps, n, c, a)
    ensures a < n
  {
  }

  /** Step `k` is a read on `c` that gets a reply. */
  predicate IsReplied(steps: seq<Step>, k: nat, c: nat)
    requires k < |steps|
  {
    steps[k].Read? && steps[k].c == c && GetsReply(steps[k].bytes, steps[k].chunk, AuthedBefore(steps, k, c))
  }

  /** The number of such reads before step `k`. */
  function ReplyCount(steps: seq<Step>, k: nat, c: nat): nat
    requires k <= |steps|
  {
    if k == 0 then 0 else ReplyCount(steps, k - 1, c) + if IsReplied(steps, k - 1, c) then 1 else 0
  }

  /** The replies are, one for one and in order, the right ones to the reads before step `n`. */
  ghost predicate RightReplies(steps: seq<Step>, n: nat, c: nat, replies: seq<string>)
    requires n <= |steps|
  {
    && |replies| == ReplyCount(steps, n, c)
    && forall k :: 0 <= k < n && IsReplied(steps, k, c) ==>
         && ReplyCount(steps, k, c) < |replies|
         && RightReply(steps[k].bytes, steps[k].chunk, AuthedBefore(steps, k, c), replies[ReplyCount(steps, k, c)])
  }

  function RepliesOf(s: State, c: nat): seq<string> {
    if c in s.conns then s.conns[c].replies else []
  }

  /** In every run, what a connection was sent is the right reply to each of its reads. */
  lemma {:induction false} RepliesOfRun(steps: seq<Step>, n: nat, c: nat)
    requires IsRun(INIT, steps) && n <= |steps|
    ensures IsRun(INIT, steps[..n]) && RightReplies(steps, n, c, RepliesOf(Exec(INIT, steps[..n]), c))
    decreases n
  {
    if n > 0 {
      hide IsRun, Exec, RightReplies, RepliesOf;
      RepliesOfRun(steps, n - 1, c);
      RunSplit(INIT, steps, n - 1);
      var s := Exec(INIT, steps[..n - 1]);
      RepliesStep(steps, n - 1, c);
      RepliesNext(steps, n - 1, c, RepliesOf(s, c), RepliesOf(Apply(s, steps[n - 1]), c));
    }
  }

  lemma {:induction false} RepliesStep(steps: seq<Step>, n: nat, c: nat)
    requires IsRun(INIT, steps) && n < |steps|
    requires IsRun(INIT, steps[..n]) && Enabled(Exec(INIT, steps[..n]), steps[n])
    ensures AddsReply(steps, n, c, RepliesOf(Exec(INIT, steps[..n]), c),
                      RepliesOf(Apply(Exec(INIT, steps[..n]), steps[n]), c))
  {
    if steps[n].Read? {
      RunSplit(INIT, steps, n);
      ReadInRun(steps, n);
    }
    hide IsRun, Exec, AuthedBefore, GetsReply, RightReply, Closes, OnRead;
  }

  /** Step `n` adds the right reply if it is a read on `c` that gets one, and else none. */
  ghost predicate AddsReply(steps: seq<Step>, n: nat, c: nat, before: seq<string>, after: seq<string>)
    requires n < |steps|
  {
    if IsReplied(steps, n, c) then
      && |after| == |before| + 1 && before <= after
      && RightReply(steps[n].bytes, steps[n].chunk, AuthedBefore(steps, n, c), after[|before|])
    else after == before
  }

  lemma {:induction false} RepliesNext(
      steps: seq<Step>, n: nat, c: nat, before: seq<string>, after: seq<string>)
    requires n < |steps| && RightReplies(steps, n, c, before) && AddsReply(steps, n, c, before, after)
    ensures RightReplies(steps, n + 1, c, after)
  {
    hide RightReply, AuthedBefore, IsReplied;
  }

  /** A chunk that raises an error without text is run and gets no answer: a run of one
      connection that authenticates and sends it. */
  lemma {:induction false} UnansweredChunk(text: string)
    requires text != [] && '\0' !in text && text[0] != '$'
    ensures var steps := [Accept(0), Read(0, "$AUTH", Succeeded), Read(0, text, Failed(NoText))];
      IsRun(INIT, steps) && Look(Exec(INIT, steps), 0) == Some(Conn(true, Some([text]), ["1"]))
  {
    var auth, chunk := Read(0, "$AUTH", Succeeded), Read(0, text, Failed(NoText));
    var s1 := Apply(INIT, Accept(0));
    assert CString("$AUTH") == "$AUTH" by { assert |CString("$AUTH")| == 5; }
    assert "$AUTH"[1..] == "AUTH";
    var s2 := Apply(s1, auth);
    assert s2.conns[0] == Conn(true, Some([]), ["1"]);
    assert CString(text) == text by { assert |CString(text)| == |text|; }
    var s3 := Apply(s2, chunk);
    assert ["1"] + [] == ["1"] && [] + [text] == [text];
    assert s3.conns[0] == Conn(true, Some([text]), ["1"]);
    hide Apply, Enabled;
    RunCons(s2, chunk, []);
    RunCons(s1, auth, [chunk]);
    RunCons(INIT, Accept(0), [auth, chunk]);
  }

  lemma {:induction false} RunCons(s: State, step: Step, rest: seq<Step>)
    requires Enabled(s, step) && IsRun(Apply(s, step), rest)
    ensures IsRun(s, [step] + rest) && Exec(s, [step] + rest) == Exec(Apply(s, step), rest)
  {
    assert ([step] + rest)[1..] == rest;
  }

  // ---------- The handlers over whole runs ----------

  /** The handlers, driven by any interleaving of connections, are the machine: the server
      listens until an `$EXIT`, each connection is as if it had been served alone, has its own
      environment, is open until a step closes it, and was sent the right reply to each read. */
  method Drive(steps: seq<Step>) returns (listening: bool, conns: map<nat, Conn>)
    requires IsRun(INIT, steps)
    ensures State(listening, conns) == Exec(INIT, steps)
    ensures forall c :: c in conns ==>
      && Some(conns[c]) == Life(None, Own(steps, c))
      && conns[c].data == Env(steps, c) && RightEnv(steps, c, conns[c].data)
      && |conns[c].replies| == AnsweredReads(INIT, steps, c)
      && RightReplies(steps, |steps|, c, conns[c].replies)
      && (conns[c].active <==> NoClose(steps, |steps|, c))
    ensures listening <==> NoExit(steps, |steps|)
    ensures forall c :: c in conns <==> IsAccepted(steps, |steps|, c)
  {
    hide Apply, Enabled;
    var server := new Server();
    var k := 0;
    while k < |steps|
      invariant 0 <= k <= |steps| && fresh(server)
      invariant IsRun(server.Abs(), steps[k..])
      invariant Exec(server.Abs(), steps[k..]) == Exec(INIT, steps)
    {
      assert steps[k..][1..] == steps[k + 1..];
      server.Handle(steps[k]);
      k := k + 1;
    }
    listening, conns := server.listening, server.conns;
    hide *;
    Conclusion(steps, 0);
    forall c: nat
      ensures c in conns <==> IsAccepted(steps, |steps|, c)
      ensures c in conns ==>
        && Some(conns[c]) == Life(None, Own(steps, c))
        && conns[c].data == Env(steps, c) && RightEnv(steps, c, conns[c].data)
        && |conns[c].replies| == AnsweredReads(INIT, steps, c)
        && RightReplies(steps, |steps|, c, conns[c].replies)
        && (conns[c].active <==> NoClose(steps, |steps|, c))
    {
      Conclusion(steps, c);
    }
  }

  lemma {:induction false} Conclusion(steps: seq<Step>, c: nat)
    requires IsRun(INIT, steps)
    ensures var s := Exec(INIT, steps); var conns := s.conns;
      && (s.listening <==> NoExit(steps, |steps|))
      && (c in conns <==> IsAccepted(steps, |steps|, c))
      && (c in conns ==>
        && Some(conns[c]) == Life(None, Own(steps, c))
        && conns[c].data == Env(steps, c) && RightEnv(steps, c, conns[c].data)
        && |conns[c].replies| == AnsweredReads(INIT, steps, c)
        && RightReplies(steps, |steps|, c, conns[c].replies)
        && (conns[c].active <==> NoClose(steps, |steps|, c)))
  {
    hide IsRun, Exec, Env, Life, Own, AnsweredReads, RightReplies, RightEnv, NoClose, NoExit, IsAccepted;
    assert steps[..|steps|] == steps;
    Isolated(INIT, steps, c);
    EnvironmentIsOwn(steps, c);
    EnvOfRun(steps, c);
    RepliesMatchReads(INIT, steps, c);
    RepliesOfRun(steps, |steps|, c);
    StateOfRun(steps, |steps|, c);
  }
}
