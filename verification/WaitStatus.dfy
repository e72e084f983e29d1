/** The raw wait status, as the Linux macros behind src/childprocess.cxx and src/luafound.cxx
    read it, and the two places that classify it. */
module WaitStatus {

  // ---------- The macros, on the two's complement of `raw` ----------

  /** `raw & 0x7f` */
  function TermSig(raw: int): nat {
    raw % 128
  }

  /** `(raw & 0xff00) >> 8`, also the stop signal */
  function ExitCode(raw: int): nat {
    (raw / 256) % 256
  }

  predicate IfExited(raw: int) {
    TermSig(raw) == 0
  }

  /** `n` stored in a signed char */
  function SignedChar(n: nat): int
    requires n < 256
  {
    if n < 128 then n else n - 256
  }

  /** `((signed char) ((raw & 0x7f) + 1) >> 1) > 0` */
  predicate IfSignaled(raw: int) {
    SignedChar(TermSig(raw) + 1) / 2 > 0
  }

  /** `(raw & 0xff) == 0x7f` */
  predicate IfStopped(raw: int) {
    raw % 256 == 127
  }

  // ---------- Two classifications ----------

  datatype ExitStatus = ExitStatus(statusRaw: int, status: nat, exitCause: int, termSig: nat)

  datatype Kind = Exited | Signaled | Stopped | Unknown

  /** The if-elseif chain of the tracer. */
  function Classify(raw: int): Kind {
    if IfExited(raw) then Exited
    else if IfSignaled(raw) then Signaled
    else if IfStopped(raw) then Stopped
    else Unknown
  }

  /** The code that `exit_cause` documents for a kind. */
  function Cause(k: Kind): int
    requires !k.Unknown?
  {
    match k case Exited => 0 case Signaled => 1 case Stopped => 2
  }

  /** `ixut_childw_getstatus`: three independent ifs over a zeroed struct.  Its cause is the
      tracer's classification whenever there is one, and 0 otherwise. */
  method GetStatus(raw: int) returns (st: ExitStatus)
    ensures st.statusRaw == raw && st.status == ExitCode(raw) && st.termSig == TermSig(raw)
    ensures st.exitCause == if Classify(raw).Unknown? then 0 else Cause(Classify(raw))
    ensures (st.exitCause == 1 <==> 0 < raw % 128 < 127) && (st.exitCause == 2 <==> raw % 256 == 127)
    ensures st.exitCause == 0 <==> raw % 128 == 0 || raw % 256 == 255
  {
    LowBits(raw);
    var exitCause := 0;
    if IfExited(raw) {
      exitCause := 0;
    }
    if IfSignaled(raw) {
      exitCause := 1;
    }
    if IfStopped(raw) {
      exitCause := 2;
    }
    st := ExitStatus(raw, ExitCode(raw), exitCause, TermSig(raw));
  }

  /** For every raw status at most one of the three holds, and none holds exactly when the
      low byte is 0xff, as for a continued child. */
  lemma {:induction false} KindsAreExclusive(raw: int)
    ensures !(IfExited(raw) && IfSignaled(raw))
    ensures !(IfExited(raw) && IfStopped(raw))
    ensures !(IfSignaled(raw) && IfStopped(raw))
    ensures !IfExited(raw) && !IfSignaled(raw) && !IfStopped(raw) <==> raw % 256 == 255
  {
    LowBits(raw);
  }

  lemma {:induction false} LowBits(raw: int)
    ensures raw % 128 == raw % 256 % 128
  {
    assert raw == 256 * (raw / 256) + raw % 256;
    assert raw == 128 * (2 * (raw / 256)) + raw % 256;
    ModAdd(2 * (raw / 256), raw % 256);
  }

  lemma {:induction false} ModAdd(q: int, x: int)
    ensures (128 * q + x) % 128 == x % 128
  {
  }

  /** The status bytes of the three kinds read back as what they encode. */
  lemma {:induction false} Encodings(n: nat)
    requires n < 256
    ensures Classify(256 * n) == Exited && ExitCode(256 * n) == n
    ensures 0 < n < 127 ==> Classify(n) == Signaled && TermSig(n) == n && ExitCode(n) == 0
    ensures 0 < n < 127 ==> Classify(n + 128) == Signaled && TermSig(n + 128) == n && ExitCode(n + 128) == 0
    ensures Classify(256 * n + 127) == Stopped && ExitCode(256 * n + 127) == n
  {
    ModAdd(2 * n, 0);
    ModAdd(2 * n, 127);
    ModAdd(1, n);
  }
}
