/** The broker session and the flags around it, as one value, and what each call of LogonUI does
    to it. The class in `Provider` goes through the source's statements one by one and is proved to
    arrive at these states; the lemmas about runs are about these functions.

    The operating system and the broker are the `Env` of a call: each of its fields says how one
    outside call turns out. Handles are numbers the system hands out once; 0 is no handle. */
module Session {
  import opened Unicode
  import opened Options
  import opened JsonObject
  import opened Messages
  import opened Packing
  import Pipe = Transport

  const MIN_SUBMIT_INTERVAL: nat := 2500

  type Tick = t: int | 0 <= t < 0x1_0000_0000
  type Long = g: int | -0x8000_0000 <= g < 0x8000_0000

  datatype Cpus = CpusInvalid | CpusLogon | CpusUnlock | CpusOther

  datatype ConnectResult = Connected | ConnectTimeout | ConnectBrokerExited | ConnectFailed

  /** How the outside calls of one GetSerialization turn out. The two lossy strings are what the
      system's conversion makes of a field that is not valid UTF-8; `elsewhere` is what the Kerberos
      and Unlock packers would give. */
  datatype Env = Env(
    pipeOk: bool, launchOk: bool, connect: ConnectResult,
    read: Pipe.ReadResult, message: Bytes,
    lossySam: Units, lossyPassword: Units, package: Option<nat>, haveMemory: bool, elsewhere: Option<Packed>)

  datatype Refresh = Refresh(delay: nat, generation: Long)

  /** The session struct. */
  datatype BrokerSession = BrokerSession(pipe: nat, process: nat, thread: nat, connected: bool)

  /** The globals that interlocked operations change. */
  datatype Flags = Flags(active: bool, awaiting: bool, flow: nat, tick: Tick, force: bool, generation: Long)

  /** The system's handle table: the next handle it will hand out and those open. */
  datatype Handles = Handles(next: nat, open: set<nat>)

  /** Books kept for the statements only: handles closed, sessions connected and ended, terminal
      messages answered, and generation increments, which unlike the counter never wrap. */
  datatype Books = Books(closed: nat, connects: nat, ends: nat, terminals: nat, bumps: nat)

  datatype State = State(
    session: BrokerSession, flags: Flags, cpus: Cpus, creds: seq<Cpus>, requests: seq<Refresh>,
    handles: Handles, books: Books)

  const NO_SESSION := BrokerSession(0, 0, 0, false)

  const INITIAL := State(NO_SESSION, Flags(false, false, 0, 0, false, 1), CpusInvalid, [], [], Handles(1, {}),
      Books(0, 0, 0, 0, 0))

  datatype Code = NotFinished | NoCredentialFinished | ReturnCredential

  /** The serialization LogonUI receives: a blob, its size as a DWORD and the package. */
  datatype Logon = Logon(blob: Bytes, size: nat, package: nat)

  datatype Response = Response(code: Code, logon: Option<Logon>)

  const AGAIN := Response(NotFinished, None)

  // ---------- pieces ----------

  /** A 32-bit interlocked increment. */
  function NextLong(g: Long): Long {
    if g == 0x7FFF_FFFF then -0x8000_0000 else g + 1
  }

  function TickOf(now: nat): Tick { now % 0x1_0000_0000 }

  /** The unsigned 32-bit difference of two ticks. */
  function Elapsed(now: nat, last: Tick): Tick { (TickOf(now) - last) % 0x1_0000_0000 }

  predicate Grants(tick: Tick, now: nat) { tick == 0 || Elapsed(now, tick) >= MIN_SUBMIT_INTERVAL }

  /** SetBrokerSessionActive(false). */
  function Inactive(f: Flags): Flags {
    f.(active := false, awaiting := false, tick := 0, generation := NextLong(f.generation))
  }

  function Deactivated(s: State): State {
    s.(flags := Inactive(s.flags), books := s.books.(bumps := s.books.bumps + 1))
  }

  function Held(b: BrokerSession): set<nat> { {b.pipe, b.process, b.thread} - {0} }

  /** How many handles the session holds. */
  function Count(b: BrokerSession): nat {
    (if b.pipe == 0 then 0 else 1) + (if b.process == 0 then 0 else 1) + (if b.thread == 0 then 0 else 1)
  }

  predicate Distinct(b: BrokerSession) {
    && (b.pipe != 0 ==> b.pipe != b.process && b.pipe != b.thread)
    && (b.process != 0 ==> b.process != b.thread)
  }

  /** The session is gone: its handles closed, its flags cleared, the generation moved on. */
  function Torn(s: State): State {
    var b := s.session;
    s.(session := NO_SESSION,
       flags := Inactive(s.flags).(flow := 0),
       handles := s.handles.(open := s.handles.open - {b.pipe, b.process, b.thread}),
       books := s.books.(closed := s.books.closed + Count(b),
                         ends := s.books.ends + (if b.connected then 1 else 0),
                         bumps := s.books.bumps + 1))
  }

  /** The session is gone but for the process handles, which the caller has taken over. */
  function MovedOut(s: State): State {
    var b := s.session;
    s.(session := NO_SESSION,
       flags := Inactive(s.flags).(flow := 0),
       handles := s.handles.(open := s.handles.open - {b.pipe}),
       books := s.books.(closed := s.books.closed + (if b.pipe == 0 then 0 else 1),
                         ends := s.books.ends + (if b.connected then 1 else 0),
                         bumps := s.books.bumps + 1))
  }

  /** A process and its thread are closed. */
  function Closed(s: State, process: nat, thread: nat): State {
    s.(handles := s.handles.(open := s.handles.open - {process, thread}),
       books := s.books.(closed := s.books.closed + (if process == 0 then 0 else 1) + (if thread == 0 then 0 else 1)))
  }

  function Requested(s: State, delay: nat): State {
    s.(requests := s.requests + [Refresh(delay, s.flags.generation)])
  }

  function Forced(s: State, force: bool): State { s.(flags := s.flags.(force := force)) }

  // ---------- the calls ----------

  function SetUsageScenario(s: State, cpus: Cpus): State {
    if cpus == CpusLogon then
      var t := s.(cpus := CpusLogon);
      if s.flags.active then t else Deactivated(Forced(Torn(t), false))
    else Deactivated(Torn(Forced(s.(cpus := CpusInvalid), false)))
  }

  function GetCredentialAt(s: State): State { s.(creds := s.creds + [s.cpus]) }

  datatype Selection = Selection(flags: Flags, autoLogon: bool)

  function SetSelected(f: Flags, cpus: Cpus, now: nat): Selection {
    if cpus != CpusLogon then Selection(f, false)
    else if f.active && f.awaiting then Selection(f, true)
    else if !f.active && f.force then Selection(f.(force := false, tick := TickOf(now)), true)
    else if Grants(f.tick, now) then Selection(f.(tick := TickOf(now)), true)
    else Selection(f, false)
  }

  function SetDeselected(s: State, cpus: Cpus): State {
    if cpus == CpusLogon && s.flags.active then Forced(Torn(s), true) else s
  }

  datatype Served = Served(state: State, response: Response)

  function WidenOr(b: Bytes, lossy: Units): Units {
    if ValidUtf8(b) then Widen(b) else lossy
  }

  function ScenarioOf(usage: Cpus): Scenario { if usage == CpusUnlock then UnlockScenario else LogonScenario }

  /** The answer to a terminal message. */
  function Answer(f: Fields, usage: Cpus, env: Env): Response {
    if f.typ == AUTH_FALLBACK then Response(NoCredentialFinished, None)
    else if f.typ == AUTH_SUCCESS then
      var user, pass := WidenOr(f.sam, env.lossySam), WidenOr(f.password, env.lossyPassword);
      match PackedFor(DOT, user, pass, ScenarioOf(usage), env.package, env.haveMemory, env.elsewhere)
      case Some(p) => Response(ReturnCredential, Some(Logon(p.blob, p.size, p.authPkg)))
      case None => AGAIN
    else AGAIN
  }

  function Pending(s: State): State { s.(flags := s.flags.(awaiting := true, tick := 0, flow := 1)) }

  function Idle(s: State): State { s.(flags := s.flags.(awaiting := false, flow := 2)) }

  function Finished(s: State): State {
    var t := Torn(s);
    t.(books := t.books.(terminals := t.books.terminals + 1))
  }

  /** The reading half of GetSerialization, with a session in place. */
  function Serve(s: State, usage: Cpus, env: Env): Served {
    if env.read == Pipe.Timeout then Served(Requested(s, if s.flags.awaiting then 300 else 2500), AGAIN)
    else if env.read != Pipe.Ok then Served(Requested(Forced(Torn(s), true), 50), AGAIN)
    else if env.message == [] then Served(Torn(s), AGAIN)
    else
      match ParseLine(env.message)
      case None => Served(Torn(s), AGAIN)
      case Some(f) =>
        if f.typ == AUTH_PENDING then Served(Requested(Pending(s), 300), AGAIN)
        else if f.typ == AUTH_IDLE then Served(Requested(Idle(s), 2500), AGAIN)
        else Served(Finished(s), Answer(f, usage, env))
  }

  /** A session freshly connected. */
  function Started(s: State): State {
    var n := s.handles.next;
    s.(session := BrokerSession(n, n + 1, n + 2, true),
       flags := s.flags.(active := true, awaiting := false, flow := 0),
       handles := Handles(n + 3, s.handles.open + {n, n + 1, n + 2}),
       books := s.books.(connects := s.books.connects + 1))
  }

  /** An attempt that opened `k` handles and closed them again. */
  function Attempted(s: State, k: nat): State {
    s.(flags := Inactive(s.flags).(flow := 0),
       handles := s.handles.(next := s.handles.next + k),
       books := s.books.(closed := s.books.closed + k, bumps := s.books.bumps + 1))
  }

  function GetSerialization(s: State, usage: Cpus, env: Env): Served {
    if s.session.connected then Serve(s, usage, env)
    else if !env.pipeOk then Served(s, AGAIN)
    else if !env.launchOk then Served(Attempted(s, 1), AGAIN)
    else if env.connect != Connected then Served(Attempted(s, 3), AGAIN)
    else Serve(Started(s), usage, env)
  }

  // ---------- the invariant ----------

  /** A serialised run keeps the session all there or all gone, and its books in balance. */
  predicate SessionInv(b: BrokerSession, f: Flags) {
    && (b.pipe != 0 <==> b.connected) && (b.process != 0 <==> b.connected) && (b.thread != 0 <==> b.connected)
    && (f.active <==> b.connected)
    && (f.awaiting <==> f.flow == 1) && (f.flow != 0 ==> f.active) && f.flow <= 2
    && (f.awaiting ==> f.tick == 0)
  }

  predicate HandlesInv(b: BrokerSession, h: Handles, closed: nat) {
    && h.open == Held(b) && Distinct(b)
    && 0 < h.next && b.pipe < h.next && b.process < h.next && b.thread < h.next
    && h.next - 1 == closed + Count(b)
  }

  /** The counter after `bumps` increments from 1, as a 32-bit signed number. */
  function Generation(bumps: nat): Long {
    var u := (1 + bumps) % 0x1_0000_0000;
    if u < 0x8000_0000 then u else u - 0x1_0000_0000
  }

  predicate BooksInv(b: BrokerSession, f: Flags, k: Books) {
    && k.connects == k.ends + (if b.connected then 1 else 0)
    && k.terminals <= k.ends <= k.bumps
    && f.generation == Generation(k.bumps)
  }

  predicate Reachable(c: Cpus) { c == CpusInvalid || c == CpusLogon }

  predicate Inv(s: State) {
    && SessionInv(s.session, s.flags)
    && HandlesInv(s.session, s.handles, s.books.closed)
    && BooksInv(s.session, s.flags, s.books)
    && Reachable(s.cpus) && forall k | 0 <= k < |s.creds| :: Reachable(s.creds[k])
  }
}
