/** What holds over every serialised run: any sequence of LogonUI calls, with every outside call
    turning out in any way. */
module SessionRuns {
  import Pipe = Transport
  import opened Options
  import opened Unicode
  import opened JsonObject
  import opened JsonNames
  import opened Messages
  import opened Packing
  import opened Session
  import opened SessionInvariant

  datatype Event =
    | Usage(usage: Cpus)
    | NewCredential
    | Select(k: nat, now: nat)
    | Deselect(k: nat)
    | Submit(k: nat, env: Env)

  datatype Output = Quiet | AutoLogon(yes: bool) | Answered(response: Response)

  datatype Stepped = Stepped(state: State, output: Output)

  /** One call; a credential that does not exist cannot be called. */
  function StepOut(s: State, e: Event): Stepped {
    match e
    case Usage(u) => Stepped(SetUsageScenario(s, u), Quiet)
    case NewCredential => Stepped(GetCredentialAt(s), Quiet)
    case Select(k, now) =>
      if k >= |s.creds| then Stepped(s, Quiet)
      else
        var r := SetSelected(s.flags, s.creds[k], now);
        Stepped(s.(flags := r.flags), AutoLogon(r.autoLogon))
    case Deselect(k) => if k >= |s.creds| then Stepped(s, Quiet) else Stepped(SetDeselected(s, s.creds[k]), Quiet)
    case Submit(k, env) =>
      if k >= |s.creds| then Stepped(s, Quiet)
      else
        var r := GetSerialization(s, s.creds[k], env);
        Stepped(r.state, Answered(r.response))
  }

  function Step(s: State, e: Event): State { StepOut(s, e).state }

  function Run(s: State, es: seq<Event>): State
    decreases |es|
  {
    if es == [] then s else Run(Step(s, es[0]), es[1..])
  }

  // ---------- the invariant ----------

  lemma StepKeeps(s: State, e: Event)
    requires Inv(s)
    ensures Inv(Step(s, e))
  {
    hide Inv, SetUsageScenario, SetSelected, SetDeselected, GetSerialization, GetCredentialAt;
    match e
    case Usage(u) => UsageKeeps(s, u);
    case NewCredential => CredentialKeeps(s);
    case Select(k, now) => if k < |s.creds| { SelectionKeeps(s, s.creds[k], now); }
    case Deselect(k) => if k < |s.creds| { DeselectionKeeps(s, s.creds[k]); }
    case Submit(k, env) => if k < |s.creds| { GetSerializationKeeps(s, s.creds[k], env); }
  }

  lemma {:induction false} RunKeeps(s: State, es: seq<Event>)
    requires Inv(s)
    ensures Inv(Run(s, es))
    decreases |es|
  {
    hide Inv, Step;
    if es != [] {
      StepKeeps(s, es[0]);
      RunKeeps(Step(s, es[0]), es[1..]);
    }
  }

  lemma ReachableInv(es: seq<Event>)
    ensures Inv(Run(INITIAL, es))
  {
    hide Inv, Run;
    InitialInv();
    RunKeeps(INITIAL, es);
  }

  /** The pipe, the process, its thread, the connected mark and the active flag stand or fall
      together; waiting for a final answer is flow 1, idling is flow 2, and a waiting session has
      no auto-submit tick. */
  predicate Whole(s: State) {
    var b, f := s.session, s.flags;
    && (b.pipe != 0 <==> b.connected) && (b.process != 0 <==> b.connected) && (b.thread != 0 <==> b.connected)
    && (f.active <==> b.connected)
    && (f.awaiting <==> f.flow == 1) && (f.awaiting ==> f.active && f.tick == 0)
    && (f.flow == 2 ==> f.active && !f.awaiting)
  }

  lemma InvWhole(s: State)
    requires Inv(s)
    ensures Whole(s)
  {
    hide HandlesInv, BooksInv;
  }

  lemma SessionIsWhole(es: seq<Event>)
    ensures Whole(Run(INITIAL, es))
  {
    hide Inv, Run, Whole;
    ReachableInv(es);
    InvWhole(Run(INITIAL, es));
  }

  /** Every handle ever opened is closed, or is one of the three the session holds. */
  predicate Conserved(s: State) {
    && s.handles.open == {s.session.pipe, s.session.process, s.session.thread} - {0}
    && s.handles.next - 1 == s.books.closed + |s.handles.open|
    && (if s.session.connected then |s.handles.open| == 3 else s.handles.open == {})
  }

  lemma InvConserved(s: State)
    requires Inv(s)
    ensures Conserved(s)
  {
    hide BooksInv;
    HeldCount(s.session);
  }

  /** No handle leaks and, since only open handles are ever closed, none is closed twice. */
  lemma HandlesConserved(es: seq<Event>)
    ensures Conserved(Run(INITIAL, es))
  {
    hide Inv, Run, Conserved;
    ReachableInv(es);
    InvConserved(Run(INITIAL, es));
  }

  // ---------- sessions, answers and credentials ----------

  /** What one call does to the books: it ends at most the session it found or started, answers
      terminally only by ending it, and every end moves the generation on. */
  predicate BooksMove(k: Books, m: Books, tick: Tick, terminal: bool) {
    && k.ends <= m.ends <= k.ends + 1
    && k.bumps + (m.ends - k.ends) <= m.bumps <= k.bumps + 2
    && k.terminals <= m.terminals && m.terminals - k.terminals <= m.ends - k.ends
    && (terminal ==> m.terminals == k.terminals + 1)
    && (m.bumps > k.bumps ==> tick == 0)
  }

  lemma ServeBooks(s: State, usage: Cpus, env: Env)
    requires s.session.connected
    ensures var r := Serve(s, usage, env);
            BooksMove(s.books, r.state.books, r.state.flags.tick, r.response.code != NotFinished)
  {
    hide ParseLine, MsvBlob, NextLong;
  }

  lemma LiveOnce(s: State)
    requires Inv(s)
    ensures s.flags.active <==> s.session.connected
  {
  }

  predicate IsTerminal(o: Output) { o.Answered? && o.response.code != NotFinished }

  lemma StepBooks(s: State, e: Event)
    requires Inv(s)
    ensures var r := StepOut(s, e);
            BooksMove(s.books, r.state.books, r.state.flags.tick, IsTerminal(r.output))
  {
    hide SessionInv, HandlesInv, BooksInv, NextLong, Grants, Serve;
    if e.Submit? {
      if e.k < |s.creds| {
        ServeBooks(if s.session.connected then s else Started(s), s.creds[e.k], e.env);
      }
    } else {
      LiveOnce(s);
    }
  }

  function Terminals(s: State, es: seq<Event>): nat
    decreases |es|
  {
    if es == [] then 0
    else (if IsTerminal(StepOut(s, es[0]).output) then 1 else 0) + Terminals(Step(s, es[0]), es[1..])
  }

  lemma {:induction false} TerminalsCounted(s: State, es: seq<Event>)
    requires Inv(s)
    ensures s.books.terminals + Terminals(s, es) <= Run(s, es).books.terminals
    decreases |es|
  {
    hide Inv, StepOut;
    if es != [] {
      StepKeeps(s, es[0]);
      StepBooks(s, es[0]);
      TerminalsCounted(Step(s, es[0]), es[1..]);
    }
  }

  /** Sessions ended, plus the live one, are the sessions connected; and LogonUI has seen at most
      one terminal answer for each session ended. */
  lemma SessionsBalance(es: seq<Event>)
    ensures var s := Run(INITIAL, es);
            && s.books.connects == s.books.ends + (if s.session.connected then 1 else 0)
            && Terminals(INITIAL, es) <= s.books.ends
  {
    hide Run, Terminals, SessionInv, HandlesInv;
    InitialInv();
    RunKeeps(INITIAL, es);
    TerminalsCounted(INITIAL, es);
  }

  /** The message a call gets to see, if it has or gets a session and the read succeeds. */
  function Seen(s: State, env: Env): Option<Fields> {
    if (s.session.connected || (env.pipeOk && env.launchOk && env.connect == Connected)) && env.read == Pipe.Ok
      && env.message != []
    then ParseLine(env.message) else None
  }

  lemma NeverUnlock(s: State, k: nat)
    requires Inv(s) && k < |s.creds|
    ensures ScenarioOf(s.creds[k]) == LogonScenario
  {
    hide SessionInv, HandlesInv, BooksInv;
    assert Session.Reachable(s.creds[k]);
  }

  /** A credential is returned exactly when an AUTH_SUCCESS with a user name arrives and the package
      and the memory for it are there. It is then always the MSV logon blob for domain ".", and the
      session is already gone; any other answer carries no serialization at all. */
  lemma CredentialIff(s: State, k: nat, env: Env)
    requires Inv(s) && k < |s.creds|
    ensures var t := Step(s, Submit(k, env)); var r := StepOut(s, Submit(k, env)).output.response;
            var m := Seen(s, env);
            && (r.code == ReturnCredential <==>
                  && m.Some? && m.value.typ == Ascii("AUTH_SUCCESS") && WidenOr(m.value.sam, env.lossySam) != []
                  && env.package.Some? && env.haveMemory)
            && (r.code == ReturnCredential ==>
                  && t.session == NO_SESSION && !t.flags.active && t.handles.open == {}
                  && t.flags.tick == 0 && t.books.bumps == s.books.bumps + 1
                  && var user, pass := WidenOr(m.value.sam, env.lossySam), WidenOr(m.value.password, env.lossyPassword);
                  && var size := BlobSize([46], user, pass) % 0x1_0000_0000;
                     r.logon == Some(Logon(MsvBlob([46], user, pass), size, env.package.value)))
            && (r.code != ReturnCredential ==> r.logon == None)
  {
    hide ParseLine, MsvBlob, Generation, WidenOr, BlobSize, Ascii;
    if !s.session.connected {
      StartedKeeps(s);
    }
    var u := if s.session.connected then s else Started(s);
    TornKeeps(u);
    NeverUnlock(s, k);
    Types();
    assert |AUTH_SUCCESS| == 12 && |AUTH_PENDING| == 12 && |AUTH_IDLE| == 9 && |AUTH_FALLBACK| == 13;
    assert AUTH_SUCCESS[5] != AUTH_PENDING[5];
  }
}
