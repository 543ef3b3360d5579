/** Which calls keep a session, what a failed read arranges, and when a selected tile submits by
    itself. */
module SessionFates {
  import Pipe = Transport
  import opened JsonObject
  import opened Messages
  import opened Packing
  import opened Session
  import opened SessionInvariant
  import opened SessionRuns

  // ---------- staying and ending ----------

  predicate Reaches(s: State, env: Env) {
    s.session.connected || (env.pipeOk && env.launchOk && env.connect == Connected)
  }

  lemma NotConnected(s: State)
    requires Inv(s) && !s.session.connected
    ensures s.session == NO_SESSION && s.flags.flow == 0
  {
  }

  /** GetSerialization leaves a live session behind exactly when it had or got one and then read
      either nothing in time or one of the two progress messages. Every other message ends it, the
      AUTH_FAIL message among them; a session that was live before and stays is the same one. */
  lemma StaysLiveIff(s: State, k: nat, env: Env)
    requires Inv(s) && k < |s.creds|
    ensures var t := Step(s, Submit(k, env)); var m := Seen(s, env);
            && (t.session.connected <==>
                  && Reaches(s, env)
                  && (env.read == Pipe.Timeout || (m.Some? && m.value.typ in {AUTH_PENDING, AUTH_IDLE})))
            && (t.session.connected && s.session.connected ==> t.session == s.session && t.handles == s.handles)
            && (!t.session.connected ==> t.session == NO_SESSION && t.flags.flow == 0)
  {
    hide ParseLine, Generation, Answer, NextLong;
    if !s.session.connected {
      NotConnected(s);
    }
  }

  lemma NoHandles(s: State)
    requires Inv(s) && !s.session.connected
    ensures s.handles.open == {} && !s.flags.active && s.books.ends == s.books.connects
  {
  }

  /** After AUTH_FAIL the answer is "not finished" and the session is gone: the broker's handles
      are closed and the next GetSerialization starts another broker. */
  lemma AuthFailEndsSession(s: State, k: nat, env: Env)
    requires Inv(s) && k < |s.creds|
    requires Seen(s, env).Some? && Seen(s, env).value.typ == AUTH_FAIL
    ensures var r := StepOut(s, Submit(k, env));
            && r.output == Answered(AGAIN)
            && r.state.session == NO_SESSION && r.state.handles.open == {} && !r.state.flags.active
            && r.state.books.ends == r.state.books.connects
  {
    hide ParseLine, MsvBlob, SessionInv, HandlesInv, Generation, NextLong;
    assert AUTH_FAIL[5] != AUTH_IDLE[5] && |AUTH_FAIL| == 9 && |AUTH_PENDING| == 12 && |AUTH_SUCCESS| == 12
        && |AUTH_FALLBACK| == 13;
    StepKeeps(s, Submit(k, env));
    StaysLiveIff(s, k, env);
    NoHandles(StepOut(s, Submit(k, env)).state);
  }

  /** SetUsageScenario leaves a session behind just when it re-enters LOGON with one live, and then
      changes nothing else; otherwise nothing is left: no session, no open handle, no auto-submit
      marked or throttled, and a generation under which no earlier refresh counts. */
  lemma UsageKeepsOnlyLogon(s: State, usage: Cpus)
    requires Inv(s)
    ensures var t := SetUsageScenario(s, usage);
            && (t.session.connected <==> s.session.connected && usage == CpusLogon)
            && (t.session.connected ==> t == s.(cpus := CpusLogon))
            && (!t.session.connected ==>
                  && t.handles.open == {} && !t.flags.active && !t.flags.force && t.flags.tick == 0
                  && s.books.bumps < t.books.bumps && t.requests == s.requests)
  {
    hide Generation, NextLong, BooksInv;
    if s.session.connected {
      TornKeeps(s);
    } else {
      NoHandles(s);
    }
  }

  /** Deselecting a logon tile ends its session, and the next selection of one submits by itself; with
      no session it changes nothing. */
  lemma DeselectionEnds(s: State, k: nat, j: nat, now: nat)
    requires Inv(s) && k < |s.creds| && s.creds[k] == CpusLogon && j < |s.creds| && s.creds[j] == CpusLogon
    ensures var t := Step(s, Deselect(k));
            && t.session == NO_SESSION && t.handles.open == {}
            && (s.session.connected ==> StepOut(t, Select(j, now)).output == AutoLogon(true))
            && (!s.session.connected ==> t == s)
  {
    hide Generation, NextLong, BooksInv;
    TornKeeps(s);
    if !s.session.connected {
      NoHandles(s);
      NotConnected(s);
    }
  }

  // ---------- recovery ----------

  /** A read that fails in any way but a timeout asks for an auto-submit on the next selection and
      for a refresh in 50 ms under the generation just begun; a timeout keeps everything and asks
      for a refresh under the generation still running. */
  lemma ReadFailureRecovers(s: State, k: nat, env: Env)
    requires Inv(s) && k < |s.creds| && Reaches(s, env) && env.read != Pipe.Ok
    ensures var u := if s.session.connected then s else Started(s); var t := Step(s, Submit(k, env));
            && StepOut(s, Submit(k, env)).output == Answered(AGAIN)
            && |t.requests| == |s.requests| + 1 && t.requests[..|s.requests|] == s.requests
            && t.requests[|s.requests|].generation == t.flags.generation
            && (env.read == Pipe.Timeout ==>
                  && t == u.(requests := t.requests)
                  && t.requests[|s.requests|].delay == if u.flags.awaiting then 300 else 2500)
            && (env.read != Pipe.Timeout ==>
                  && t.session == NO_SESSION && t.flags.force && t.books.bumps == s.books.bumps + 1
                  && t.requests[|s.requests|].delay == 50)
  {
    hide HandlesInv, SessionInv, BooksInv, NextLong;
  }

  /** The read loop hands over a message only if it has one, so once a session is reached the call
      ends in a message, a timeout or a recovery: nothing falls between them. */
  lemma NothingFallsThrough(s: State, k: nat, env: Env)
    requires Inv(s) && k < |s.creds| && Reaches(s, env)
    requires env.read == Pipe.Ok ==> env.message != []
    ensures var t := Step(s, Submit(k, env));
            || (env.read == Pipe.Ok && Seen(s, env) == ParseLine(env.message))
            || (env.read == Pipe.Timeout && t.session.connected)
            || (t.flags.force && t.session == NO_SESSION && |t.requests| == |s.requests| + 1)
  {
    hide ParseLine, Step, StepOut;
    if env.read != Pipe.Ok {
      ReadFailureRecovers(s, k, env);
    }
  }

  // ---------- auto-submit ----------

  predicate LogonSelection(s: State, e: Event) { e.Select? && e.k < |s.creds| && s.creds[e.k] == CpusLogon }

  predicate NoLogonSelection(s: State, es: seq<Event>)
    decreases |es|
  {
    es != [] ==> !LogonSelection(s, es[0]) && NoLogonSelection(Step(s, es[0]), es[1..])
  }

  lemma ServeKeepsZero(s: State, usage: Cpus, env: Env)
    ensures s.flags.tick == 0 ==> Serve(s, usage, env).state.flags.tick == 0
  {
    hide ParseLine, Answer, NextLong;
  }

  lemma TickStaysZero(s: State, e: Event)
    requires s.flags.tick == 0 && !LogonSelection(s, e)
    ensures Step(s, e).flags.tick == 0
  {
    hide Serve, NextLong;
    if e.Submit? && e.k < |s.creds| {
      ServeKeepsZero(s, s.creds[e.k], e.env);
      ServeKeepsZero(Started(s), s.creds[e.k], e.env);
    }
  }

  lemma {:induction false} TickStaysZeroOver(s: State, es: seq<Event>)
    requires s.flags.tick == 0 && NoLogonSelection(s, es)
    ensures Run(s, es).flags.tick == 0
    decreases |es|
  {
    hide Step;
    if es != [] {
      TickStaysZero(s, es[0]);
      TickStaysZeroOver(Step(s, es[0]), es[1..]);
    }
  }

  lemma EndClearsTick(s: State, e: Event)
    requires Inv(s) && s.books.bumps < Step(s, e).books.bumps
    ensures Step(s, e).flags.tick == 0
  {
    hide Inv, StepOut;
    StepBooks(s, e);
  }

  /** Whatever happens after a session end or any other move of the generation, the first selection
      of a logon tile submits by itself. */
  lemma FirstSelectionSubmits(before: seq<Event>, end: Event, between: seq<Event>, k: nat, now: nat)
    requires var s := Run(INITIAL, before); s.books.bumps < Step(s, end).books.bumps
    requires NoLogonSelection(Step(Run(INITIAL, before), end), between)
    requires LogonSelection(Run(Step(Run(INITIAL, before), end), between), Select(k, now))
    ensures StepOut(Run(Step(Run(INITIAL, before), end), between), Select(k, now)).output == AutoLogon(true)
  {
    hide Inv, Run, NoLogonSelection;
    ReachableInv(before);
    EndClearsTick(Run(INITIAL, before), end);
    TickStaysZeroOver(Step(Run(INITIAL, before), end), between);
  }

  lemma CredsKept(s: State, k: nat, env: Env)
    ensures Step(s, Submit(k, env)).creds == s.creds
  {
    hide ParseLine, Answer, NextLong;
  }

  lemma ServeKeepsBooks(s: State, usage: Cpus, env: Env)
    ensures var t := Serve(s, usage, env).state;
            t.books.connects == s.books.connects && t.handles.next == s.handles.next
  {
    hide ParseLine, Answer, NextLong;
  }

  lemma RelaunchAt(s: State, k: nat, env: Env, now: nat, env': Env)
    requires Inv(s) && k < |s.creds| && s.creds[k] == CpusLogon
    requires StepOut(s, Submit(k, env)).output.response.code == ReturnCredential
    requires env'.pipeOk && env'.launchOk && env'.connect == Connected
    ensures var t := Step(s, Submit(k, env)); var u := StepOut(t, Select(k, now));
            && u.output == AutoLogon(true)
            && var v := Step(u.state, Submit(k, env'));
               && v.books.connects == t.books.connects + 1 == t.books.ends + 1
               && v.handles.next == t.handles.next + 3
  {
    hide Inv, ParseLine, Answer, NextLong, Serve;
    var t := Step(s, Submit(k, env));
    CredentialIff(s, k, env);
    StepKeeps(s, Submit(k, env));
    NoHandles(t);
    CredsKept(s, k, env);
    var u := Step(t, Select(k, now));
    ServeKeepsBooks(Started(u), u.creds[k], env');
  }

  /** After a credential has been returned, selecting the tile again submits at once, and that
      submission, if the broker can be started, connects another session on handles never used. */
  lemma ReselectionRelaunches(es: seq<Event>, k: nat, env: Env, now: nat, env': Env)
    requires var s := Run(INITIAL, es);
             k < |s.creds| && s.creds[k] == CpusLogon
                 && StepOut(s, Submit(k, env)).output.response.code == ReturnCredential
    requires env'.pipeOk && env'.launchOk && env'.connect == Connected
    ensures var t := Step(Run(INITIAL, es), Submit(k, env)); var u := StepOut(t, Select(k, now));
            && u.output == AutoLogon(true)
            && var v := Step(u.state, Submit(k, env'));
               && v.books.connects == t.books.connects + 1 == t.books.ends + 1
               && v.handles.next == t.handles.next + 3
  {
    hide Inv, Run, ParseLine, Answer, Grants, NextLong, Serve;
    var s := Run(INITIAL, es);
    ReachableInv(es);
    RelaunchAt(s, k, env, now, env');
  }
}
