/** LogonUI calls that overlap freely. Only the broker session lock orders them, and the last part of
    SetUsageScenario runs after it has let the lock go.

    A thread is one call; its program counter says which statement comes next. Statements that touch
    neither the session struct nor the active flag are passed over, and the selection of a tile is
    left out, since it changes neither. */
module FreeThreaded {
  import opened Options

  /** What follows a close: nothing, the rest of SetUsageScenario, or the rest of SetDeselected. */
  datatype Rest = Nothing | Usage | Deselection

  datatype Pc =
    | GsWait | GsTest | GsPipe | GsLaunch | GsConnect | GsMark | GsActive | GsRead
    | TdProcess | TdPipe | TdConnected | TdActive
    | RsPipe(k: Rest) | RsProcess(k: Rest) | RsThread(k: Rest) | RsConnected(k: Rest) | RsActive(k: Rest)
    | Unlock(k: Rest)
    | ClWait(k: Rest) | ClTest(k: Rest)
    | UsTest(logon: bool) | UsActive | DsTest
    | Over

  datatype Shared = Shared(pipe: bool, process: bool, thread: bool, connected: bool, active: bool)

  datatype State = State(sh: Shared, lock: Option<nat>, pcs: seq<Pc>)

  const START := State(Shared(false, false, false, false, false), None, [])

  /** How an outside call or a read turns out. */
  datatype Choice = Good | Bad | Keeps | Unparsed

  datatype Call = GetSerialization | SetUsageScenario(logon: bool) | SetDeselected

  datatype Event = Begin(call: Call) | Act(i: nat, choice: Choice)

  function First(c: Call): Pc {
    match c
    case GetSerialization => GsWait
    case SetUsageScenario(logon) => UsTest(logon)
    case SetDeselected => DsTest
  }

  // ---------- steps ----------

  predicate Waits(pc: Pc) { pc.GsWait? || pc.ClWait? }

  function NextPc(pc: Pc, sh: Shared, c: Choice): Pc {
    match pc
    case GsWait => GsTest
    case GsTest => if !sh.pipe || !sh.process then GsPipe else GsRead
    case GsPipe => if c == Good then GsLaunch else Unlock(Nothing)
    case GsLaunch => if c == Good then GsConnect else RsPipe(Nothing)
    case GsConnect => if c == Good then GsMark else TdProcess
    case GsMark => GsActive
    case GsActive => GsRead
    case GsRead => if c == Keeps then Unlock(Nothing) else if c == Unparsed then RsPipe(Nothing) else TdProcess
    case TdProcess => TdPipe
    case TdPipe => TdConnected
    case TdConnected => TdActive
    case TdActive => Unlock(Nothing)
    case RsPipe(k) => RsProcess(k)
    case RsProcess(k) => RsThread(k)
    case RsThread(k) => RsConnected(k)
    case RsConnected(k) => RsActive(k)
    case RsActive(k) => Unlock(k)
    case Unlock(k) => if k == Usage then UsActive else Over
    case ClWait(k) => ClTest(k)
    case ClTest(k) => if sh.pipe || sh.process || sh.thread || sh.connected then RsPipe(k) else RsActive(k)
    case UsTest(logon) => if logon && sh.active then Over else ClWait(Usage)
    case UsActive => Over
    case DsTest => if sh.active then ClWait(Deselection) else Over
    case Over => Over
  }

  function NextShared(pc: Pc, sh: Shared, c: Choice): Shared {
    match pc
    case GsPipe => if c == Good then sh.(pipe := true) else sh
    case GsLaunch => if c == Good then sh.(process := true, thread := true) else sh
    case GsMark => sh.(connected := true)
    case GsActive => sh.(active := true)
    case TdProcess => sh.(process := false, thread := false)
    case TdPipe => sh.(pipe := false)
    case TdConnected => sh.(connected := false)
    case TdActive => sh.(active := false)
    case RsPipe(_) => sh.(pipe := false)
    case RsProcess(_) => sh.(process := false)
    case RsThread(_) => sh.(thread := false)
    case RsConnected(_) => sh.(connected := false)
    case RsActive(_) => sh.(active := false)
    case UsActive => sh.(active := false)
    case _ => sh
  }

  /** A thread that waits for the lock moves only when it is free. */
  function Step(s: State, e: Event): State {
    match e
    case Begin(call) => s.(pcs := s.pcs + [First(call)])
    case Act(i, c) =>
      if i >= |s.pcs| || (Waits(s.pcs[i]) && s.lock.Some?) then s
      else
        var pc := s.pcs[i];
        State(NextShared(pc, s.sh, c),
              if Waits(pc) then Some(i) else if pc.Unlock? then None else s.lock,
              s.pcs[i := NextPc(pc, s.sh, c)])
  }

  function Run(s: State, es: seq<Event>): State
    decreases |es|
  {
    if es == [] then s else Run(Step(s, es[0]), es[1..])
  }

  /** Whether the late store of a SetUsageScenario has been made since the last store that made a
      session active: so over one step, and over a run. */
  predicate StruckAfter(s: State, e: Event, struck: bool) {
    if e.Act? && e.i < |s.pcs| && s.pcs[e.i].UsActive? then true
    else if e.Act? && e.i < |s.pcs| && s.pcs[e.i].GsActive? then false
    else struck
  }

  predicate Struck(s: State, es: seq<Event>, struck: bool)
    decreases |es|
  {
    if es == [] then struck else Struck(Step(s, es[0]), es[1..], StruckAfter(s, es[0], struck))
  }

  // ---------- the invariant ----------

  predicate Outside(pc: Pc) { Waits(pc) || pc.UsTest? || pc.UsActive? || pc.DsTest? || pc.Over? }

  /** All there or all gone, and active just when there and not struck. */
  predicate Consistent(sh: Shared, struck: bool) {
    && sh.pipe == sh.process == sh.thread == sh.connected
    && (sh.active <==> sh.connected && !struck)
  }

  predicate Bare(sh: Shared) { !sh.connected && !sh.active }

  /** What the lock's holder may count on at each statement, whatever the others do. */
  predicate Section(pc: Pc, sh: Shared, struck: bool) {
    match pc
    case GsTest => Consistent(sh, struck)
    case GsPipe => Bare(sh) && !sh.pipe && !sh.process && !sh.thread
    case GsLaunch => Bare(sh) && sh.pipe && !sh.process && !sh.thread
    case GsConnect => Bare(sh) && sh.pipe && sh.process && sh.thread
    case GsMark => Bare(sh) && sh.pipe && sh.process && sh.thread
    case GsActive => sh.connected && sh.pipe && sh.process && sh.thread
    case GsRead => sh.connected && Consistent(sh, struck)
    case TdProcess => true
    case TdPipe => !sh.process && !sh.thread
    case TdConnected => !sh.process && !sh.thread && !sh.pipe
    case TdActive => !sh.process && !sh.thread && !sh.pipe && !sh.connected
    case RsPipe(_) => true
    case RsProcess(_) => !sh.pipe
    case RsThread(_) => !sh.pipe && !sh.process
    case RsConnected(_) => !sh.pipe && !sh.process && !sh.thread
    case RsActive(_) => !sh.pipe && !sh.process && !sh.thread && !sh.connected
    case Unlock(_) => Consistent(sh, struck)
    case ClTest(_) => Consistent(sh, struck)
    case _ => false
  }

  predicate LockInv(lock: Option<nat>, pcs: seq<Pc>) {
    && (lock.Some? ==> lock.value < |pcs| && !Outside(pcs[lock.value]))
    && forall i | 0 <= i < |pcs| :: !Outside(pcs[i]) ==> lock == Some(i)
  }

  predicate Inv(s: State, struck: bool) {
    && LockInv(s.lock, s.pcs)
    && (if s.lock.Some? then Section(s.pcs[s.lock.value], s.sh, struck) else Consistent(s.sh, struck))
  }

  lemma HolderMoves(pc: Pc, sh: Shared, c: Choice, struck: bool)
    requires Section(pc, sh, struck)
    ensures var q, t := NextPc(pc, sh, c), NextShared(pc, sh, c);
            var after := if pc.GsActive? then false else struck;
            if pc.Unlock? then Outside(q) && Consistent(t, after) else !Outside(q) && Section(q, t, after)
  {
  }

  /** The one store made without the lock takes nothing from what its holder counts on. */
  lemma OutsiderMoves(pc: Pc, sh: Shared, c: Choice, holder: Pc, struck: bool)
    requires Outside(pc) && !Waits(pc)
    ensures Outside(NextPc(pc, sh, c))
    ensures Section(holder, sh, struck) ==>
              Section(holder, NextShared(pc, sh, c), if pc.UsActive? then true else struck)
    ensures Consistent(sh, struck) ==> Consistent(NextShared(pc, sh, c), if pc.UsActive? then true else struck)
  {
  }

  lemma Enters(pc: Pc, sh: Shared, c: Choice, struck: bool)
    requires Waits(pc) && Consistent(sh, struck)
    ensures var q := NextPc(pc, sh, c); !Outside(q) && Section(q, sh, struck) && NextShared(pc, sh, c) == sh
  {
  }

  lemma StepKeeps(s: State, e: Event, struck: bool)
    requires Inv(s, struck)
    ensures Inv(Step(s, e), StruckAfter(s, e, struck))
  {
    hide Section, Consistent, NextPc, NextShared;
    match e
    case Begin(call) => assert Outside(First(call));
    case Act(i, c) =>
      if i < |s.pcs| && !(Waits(s.pcs[i]) && s.lock.Some?) {
        var pc := s.pcs[i];
        if Waits(pc) {
          Enters(pc, s.sh, c, struck);
        } else if Outside(pc) {
          OutsiderMoves(pc, s.sh, c, if s.lock.Some? then s.pcs[s.lock.value] else Over, struck);
        } else {
          HolderMoves(pc, s.sh, c, struck);
        }
      }
  }

  lemma {:induction false} RunKeeps(s: State, es: seq<Event>, struck: bool)
    requires Inv(s, struck)
    ensures Inv(Run(s, es), Struck(s, es, struck))
    decreases |es|
  {
    hide Inv, Step, StruckAfter;
    if es != [] {
      StepKeeps(s, es[0], struck);
      RunKeeps(Step(s, es[0]), es[1..], StruckAfter(s, es[0], struck));
    }
  }

  /** However the calls overlap: while the lock is free the pipe, the process, its thread and the
      connected mark stand or fall together; at most one call is inside the lock; no live handle is
      overwritten, whether by a new pipe or by a new broker. */
  predicate Safe(s: State) {
    && (s.lock == None ==> s.sh.pipe == s.sh.process == s.sh.thread == s.sh.connected)
    && (forall i, j | 0 <= i < |s.pcs| && 0 <= j < |s.pcs| && !Outside(s.pcs[i]) && !Outside(s.pcs[j]) :: i == j)
    && (forall i | 0 <= i < |s.pcs| ::
          && (s.pcs[i].GsPipe? ==> !s.sh.pipe)
          && (s.pcs[i].GsLaunch? ==> !s.sh.process && !s.sh.thread))
  }

  lemma InvSafe(s: State, struck: bool)
    requires Inv(s, struck)
    ensures Safe(s) && (s.lock == None ==> (s.sh.active <==> s.sh.connected && !struck))
  {
  }

  lemma StartInv()
    ensures Inv(START, false)
  {
  }

  /** And while the lock is free a session is active exactly if it is connected and no late store of
      a SetUsageScenario was made after the one that made it active. */
  lemma FreeThreadedSafe(es: seq<Event>)
    ensures var s := Run(START, es);
            Safe(s) && (s.lock == None ==> (s.sh.active <==> s.sh.connected && !Struck(START, es, false)))
  {
    hide Run, Inv, Safe, Struck;
    assert Inv(START, false) by { StartInv(); }
    RunKeeps(START, es, false);
    InvSafe(Run(START, es), Struck(START, es, false));
  }

  // ---------- the converse fails ----------

  lemma {:induction false} RunJoin(s: State, es: seq<Event>, fs: seq<Event>)
    ensures Run(s, es + fs) == Run(Run(s, es), fs)
    decreases |es|
  {
    if es == [] {
      assert es + fs == fs;
    } else {
      assert (es + fs)[1..] == es[1..] + fs;
      RunJoin(Step(s, es[0]), es[1..], fs);
    }
  }

  lemma OneTurn(s: State, es: seq<Event>, e: Event)
    ensures Run(s, es + [e]) == Step(Run(s, es), e)
  {
    RunJoin(s, es, [e]);
    assert [e][1..] == [];
  }

  const GONE := Shared(false, false, false, false, false)

  const LIVE := Shared(true, true, true, true, true)

  lemma RunNone(s: State)
    ensures Run(s, []) == s
  {
  }

  /** The calls made so far, all but one not started or past the lock; thread `i` takes a turn. */
  lemma Turn(es: seq<Event>, s: State, i: nat, c: Choice) returns (fs: seq<Event>)
    requires Run(START, es) == s && i < |s.pcs| && !(Waits(s.pcs[i]) && s.lock.Some?)
    ensures var pc := s.pcs[i];
            Run(START, fs) == State(NextShared(pc, s.sh, c),
                                    if Waits(pc) then Some(i) else if pc.Unlock? then None else s.lock,
                                    s.pcs[i := NextPc(pc, s.sh, c)])
  {
    hide Run, NextShared, NextPc;
    fs := es + [Act(i, c)];
    OneTurn(START, es, Act(i, c));
  }

  /** A SetUsageScenario that has found no session and let the lock go. */
  lemma UsagePastLock() returns (es: seq<Event>)
    ensures Run(START, es) == State(GONE, None, [UsActive])
  {
    hide Run;
    es := [Begin(SetUsageScenario(true))];
    OneTurn(START, [], es[0]);
    RunNone(START);
    assert [] + es == es;
    es := Turn(es, State(GONE, None, [UsTest(true)]), 0, Good);
    es := Turn(es, State(GONE, None, [ClWait(Usage)]), 0, Good);
    es := Turn(es, State(GONE, Some(0), [ClTest(Usage)]), 0, Good);
    es := Turn(es, State(GONE, Some(0), [RsActive(Usage)]), 0, Good);
    es := Turn(es, State(GONE, Some(0), [Unlock(Usage)]), 0, Good);
  }

  lemma Begins(es: seq<Event>, s: State, call: Call) returns (fs: seq<Event>)
    requires Run(START, es) == s
    ensures Run(START, fs) == s.(pcs := s.pcs + [First(call)])
  {
    hide Run;
    fs := es + [Begin(call)];
    OneTurn(START, es, Begin(call));
  }

  /** Beside it a GetSerialization has a pipe and launches a broker. */
  lemma BrokerLaunched(es: seq<Event>) returns (fs: seq<Event>)
    requires Run(START, es) == State(GONE, None, [UsActive])
    ensures Run(START, fs) == State(LIVE.(connected := false, active := false), Some(1), [UsActive, GsConnect])
  {
    hide Run;
    fs := Begins(es, State(GONE, None, [UsActive]), GetSerialization);
    fs := Turn(fs, State(GONE, None, [UsActive, GsWait]), 1, Good);
    fs := Turn(fs, State(GONE, Some(1), [UsActive, GsTest]), 1, Good);
    fs := Turn(fs, State(GONE, Some(1), [UsActive, GsPipe]), 1, Good);
    fs := Turn(fs, State(GONE.(pipe := true), Some(1), [UsActive, GsLaunch]), 1, Good);
  }

  /** It connects the broker and returns. */
  lemma BrokerBeside(es: seq<Event>) returns (fs: seq<Event>)
    requires Run(START, es) == State(GONE, None, [UsActive])
    ensures Run(START, fs) == State(LIVE, None, [UsActive, Over])
  {
    hide Run;
    fs := BrokerLaunched(es);
    fs := Turn(fs, State(LIVE.(connected := false, active := false), Some(1), [UsActive, GsConnect]), 1, Good);
    fs := Turn(fs, State(LIVE.(connected := false, active := false), Some(1), [UsActive, GsMark]), 1, Good);
    fs := Turn(fs, State(LIVE.(active := false), Some(1), [UsActive, GsActive]), 1, Good);
    fs := Turn(fs, State(LIVE, Some(1), [UsActive, GsRead]), 1, Keeps);
    fs := Turn(fs, State(LIVE, Some(1), [UsActive, Unlock(Nothing)]), 1, Good);
  }

  /** The converse of "active means connected" does not hold when calls overlap: a SetUsageScenario
      that found no session clears the active flag of one connected meanwhile. */
  lemma ConnectedYetInactive() returns (es: seq<Event>)
    ensures var s := Run(START, es); s.lock == None && s.sh.connected && !s.sh.active && s.pcs == [Over, Over]
  {
    hide Run;
    es := UsagePastLock();
    es := BrokerBeside(es);
    es := Turn(es, State(LIVE, None, [UsActive, Over]), 0, Good);
  }

  // ---------- one call by itself ----------

  /** Where a call is and what it has made of the session, after so many turns that no other call disturbs
      and in which all outside calls go well but, if `read` says otherwise, the read. */
  datatype Solo = Solo(pc: Pc, sh: Shared)

  function Alone(s: Solo, read: Choice, n: nat): Solo
    decreases n
  {
    if n == 0 then s
    else
      var c := if s.pc.GsRead? then read else Good;
      Alone(Solo(NextPc(s.pc, s.sh, c), NextShared(s.pc, s.sh, c)), read, n - 1)
  }

  lemma Go(s: Solo, read: Choice, n: nat)
    requires n > 0
    ensures var c := if s.pc.GsRead? then read else Good;
            Alone(s, read, n) == Alone(Solo(NextPc(s.pc, s.sh, c), NextShared(s.pc, s.sh, c)), read, n - 1)
  {
  }

  lemma NoTurns(s: Solo, read: Choice)
    ensures Alone(s, read, 0) == s
  {
  }

  lemma {:induction false} OverStays(sh: Shared, read: Choice, n: nat)
    ensures Alone(Solo(Over, sh), read, n) == Solo(Over, sh)
  {
    hide Alone;
    if n == 0 {
      NoTurns(Solo(Over, sh), read);
    } else {
      Go(Solo(Over, sh), read, n);
      OverStays(sh, read, n - 1);
    }
  }

  /** The lock let go, with nothing left of a session or all of it. */
  lemma LetGo(k: Rest, sh: Shared, read: Choice, n: nat)
    requires n >= 2 && (k == Usage ==> !sh.active)
    ensures Alone(Solo(Unlock(k), sh), read, n) == Solo(Over, sh)
  {
    hide Alone;
    Go(Solo(Unlock(k), sh), read, n);
    if k == Usage {
      Go(Solo(UsActive, sh), read, n - 1);
      OverStays(sh, read, n - 2);
    } else {
      OverStays(sh, read, n - 1);
    }
  }

  lemma ResetAlone(k: Rest, sh: Shared, read: Choice, n: nat)
    requires n >= 7
    ensures Alone(Solo(RsPipe(k), sh), read, n) == Solo(Over, GONE)
  {
    hide Alone;
    Go(Solo(RsPipe(k), sh), read, n);
    Go(Solo(RsProcess(k), sh.(pipe := false)), read, n - 1);
    Go(Solo(RsThread(k), sh.(pipe := false, process := false)), read, n - 2);
    Go(Solo(RsConnected(k), sh.(pipe := false, process := false, thread := false)), read, n - 3);
    Go(Solo(RsActive(k), GONE.(active := sh.active)), read, n - 4);
    LetGo(k, GONE, read, n - 5);
  }

  lemma TearAlone(read: Choice, n: nat)
    requires n >= 6
    ensures Alone(Solo(TdProcess, LIVE), read, n) == Solo(Over, GONE)
  {
    hide Alone;
    Go(Solo(TdProcess, LIVE), read, n);
    Go(Solo(TdPipe, LIVE.(process := false, thread := false)), read, n - 1);
    Go(Solo(TdConnected, LIVE.(process := false, thread := false, pipe := false)), read, n - 2);
    Go(Solo(TdActive, GONE.(active := true)), read, n - 3);
    LetGo(Nothing, GONE, read, n - 4);
  }

  lemma ReadAlone(read: Choice, n: nat)
    requires n >= 8
    ensures Alone(Solo(GsRead, LIVE), read, n) == Solo(Over, if read == Keeps then LIVE else GONE)
  {
    hide Alone;
    Go(Solo(GsRead, LIVE), read, n);
    if read == Keeps {
      LetGo(Nothing, LIVE, read, n - 1);
    } else if read == Unparsed {
      ResetAlone(Nothing, LIVE, read, n - 1);
    } else {
      TearAlone(read, n - 1);
    }
  }

  lemma ConnectAlone(read: Choice, n: nat)
    requires n >= 13
    ensures Alone(Solo(GsPipe, GONE), read, n) == Solo(Over, if read == Keeps then LIVE else GONE)
  {
    hide Alone;
    Go(Solo(GsPipe, GONE), read, n);
    Go(Solo(GsLaunch, GONE.(pipe := true)), read, n - 1);
    Go(Solo(GsConnect, LIVE.(connected := false, active := false)), read, n - 2);
    Go(Solo(GsMark, LIVE.(connected := false, active := false)), read, n - 3);
    Go(Solo(GsActive, LIVE.(active := false)), read, n - 4);
    ReadAlone(read, n - 5);
  }

  lemma CloseAlone(k: Rest, live: bool, read: Choice, n: nat)
    requires n >= 9
    ensures Alone(Solo(ClWait(k), if live then LIVE else GONE), read, n) == Solo(Over, GONE)
  {
    hide Alone;
    var sh := if live then LIVE else GONE;
    Go(Solo(ClWait(k), sh), read, n);
    Go(Solo(ClTest(k), sh), read, n - 1);
    if live {
      ResetAlone(k, sh, read, n - 2);
    } else {
      Go(Solo(RsActive(k), GONE), read, n - 2);
      LetGo(k, GONE, read, n - 3);
    }
  }

  /** By itself each call does to the session what it does when calls follow one another: GetSerialization
      leaves one just if the read keeps it, whether it found one or not; SetUsageScenario keeps one only for
      LOGON, and SetDeselected none. */
  lemma AloneAsInTurn(call: Call, live: bool, read: Choice, n: nat)
    requires n >= 15
    ensures var left := match call
                        case GetSerialization => read == Keeps
                        case SetUsageScenario(logon) => live && logon
                        case SetDeselected => false;
            Alone(Solo(First(call), if live then LIVE else GONE), read, n) == Solo(Over, if left then LIVE else GONE)
  {
    hide Alone;
    var sh := if live then LIVE else GONE;
    Go(Solo(First(call), sh), read, n);
    match call
    case GetSerialization =>
      Go(Solo(GsTest, sh), read, n - 1);
      if live {
        ReadAlone(read, n - 2);
      } else {
        ConnectAlone(read, n - 2);
      }
    case SetUsageScenario(logon) =>
      if live && logon {
        OverStays(LIVE, read, n - 1);
      } else {
        CloseAlone(Usage, live, read, n - 1);
      }
    case SetDeselected =>
      if live {
        CloseAlone(Deselection, live, read, n - 1);
      } else {
        OverStays(GONE, read, n - 1);
      }
  }
}
