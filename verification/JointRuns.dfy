/** What holds over every joint run of LogonUI's calls and the refresh timer. */
module JointRuns {
  import Unicode
  import Messages
  import JsonObject
  import EndToEnd
  import BrokerToLogon
  import S = Session
  import Runs = SessionRuns
  import SessionInvariant
  import R = Refresh
  import RefreshFates
  import opened Options
  import Pipe = Transport
  import opened Joint

  // ---------- two systems, one count ----------

  /** The generations the timer has seen are those the session has made, but for the ones its call has
      still to make, and so are the session ends; every agent is one request of the session, with the
      generation that request carried and none read later. */
  predicate Balanced(w: World) {
    && w.timer.bumps + BumpsDue(w.due) == w.session.books.bumps
    && w.ended + EndsDue(w.due) == w.session.books.ends
    && (Returned(w) ==>
          && w.timer.bumps == w.session.books.bumps && w.ended == w.session.books.ends
          && |w.timer.agents| == |w.session.requests|
          && S.Generation(w.timer.bumps) == w.session.flags.generation)
    && |w.timer.agents| <= |w.session.requests|
    && forall i | 0 <= i < |w.timer.agents| ::
         && w.session.requests[i].generation == S.Generation(w.timer.agents[i].captured)
         && w.timer.agents[i].since == w.timer.agents[i].captured
  }

  lemma InvBalanced(w: World)
    requires Inv(w)
    ensures Balanced(w)
  {
    hide S.SessionInv, S.HandlesInv, R.Inv, S.Generation;
    NothingDue();
  }

  lemma SystemsBalance(js: seq<Event>)
    ensures Balanced(Run(START, js))
  {
    hide Inv, Run, Balanced;
    StartInv();
    RunKeeps(START, js);
    InvBalanced(Run(START, js));
  }

  /** The calls of a joint run that are made, and what its timer goes through. */
  function Calls(w: World, js: seq<Event>): seq<Runs.Event>
    decreases |js|
  {
    if js == [] then []
    else (if js[0].Call? && Returned(w) then [js[0].e] else []) + Calls(Step(w, js[0]), js[1..])
  }

  function TimerEvent(w: World, e: Event): seq<R.Event> {
    match e
    case Call(_) => []
    case Next => if w.due == [] then [] else if w.due[0].Bump? then [R.SessionEnd] else [R.Begin]
    case Timer(i, ok) => [R.Act(i, ok)]
    case Advise(ev, context) => [R.SetEvents(ev, context)]
    case UnAdvise => [R.ClearEvents]
  }

  function TimerEvents(w: World, js: seq<Event>): seq<R.Event>
    decreases |js|
  {
    if js == [] then [] else TimerEvent(w, js[0]) + TimerEvents(Step(w, js[0]), js[1..])
  }

  lemma OneCall(w: World, e: Event, rest: seq<Runs.Event>)
    ensures var made := if e.Call? && Returned(w) then [e.e] else [];
            Runs.Run(w.session, made + rest) == Runs.Run(Step(w, e).session, rest)
  {
    hide Runs.Step, R.Step, Returned, Dues;
    if e.Call? && Returned(w) {
      assert ([e.e] + rest)[1..] == rest;
    } else {
      assert [] + rest == rest;
    }
  }

  lemma OneTimerEvent(w: World, e: Event, rest: seq<R.Event>)
    ensures R.Run(w.timer, TimerEvent(w, e) + rest) == R.Run(Step(w, e).timer, rest)
  {
    hide Runs.Step, R.Step, Returned, Dues;
    var f := TimerEvent(w, e);
    if f == [] {
      assert f + rest == rest;
    } else {
      assert (f + rest)[1..] == rest;
    }
  }

  /** Each half of a joint run is a run of its own system, so what holds of those holds here. */
  lemma {:induction false} Projects(w: World, js: seq<Event>)
    ensures Run(w, js).session == Runs.Run(w.session, Calls(w, js))
    ensures Run(w, js).timer == R.Run(w.timer, TimerEvents(w, js))
    decreases |js|
  {
    hide Runs.Step, R.Step, Returned, Dues;
    if js != [] {
      var v := Step(w, js[0]);
      Projects(v, js[1..]);
      OneCall(w, js[0], Calls(v, js[1..]));
      OneTimerEvent(w, js[0], TimerEvents(v, js[1..]));
    }
  }

  // ---------- no stale wake ----------

  lemma {:induction false} EndsMoveGenerations(w: World, js: seq<Event>)
    ensures var v := Run(w, js);
            w.ended <= v.ended && v.ended - w.ended <= v.timer.bumps - w.timer.bumps
    decreases |js|
  {
    hide Returned, Dues, Runs.Step;
    if js != [] {
      EndsMoveGenerations(Step(w, js[0]), js[1..]);
    }
  }

  lemma AgentGoesOn(w: World, js: seq<Event>, i: nat)
    requires Inv(w) && i < |w.timer.agents|
    ensures var v := Run(w, js);
            Inv(v) && i < |v.timer.agents| && RefreshFates.Follows(w.timer.agents[i], v.timer.agents[i])
  {
    hide Run, R.Inv, RefreshFates.Follows;
    RunKeeps(w, js);
    Projects(w, js);
    RefreshFates.RunFollows(w.timer, TimerEvents(w, js), i);
  }

  /** Agent `i` has just read the generation, or nothing has moved it since. */
  predicate Current(w: World, i: nat) { i < |w.timer.agents| && w.timer.agents[i].captured == w.timer.bumps }

  lemma AgentCompares(a: R.Agent, s: R.State, ok: bool)
    requires R.AgentOk(a, s.bumps) && a.pc == R.Running
    ensures R.Next(a, s, ok).pc == R.Waking <==> (s.bumps - a.since) % 0x1_0000_0000 == 0
  {
    hide S.Generation;
    R.GenerationSame(a.since, s.bumps);
  }

  lemma AgentIsOk(w: World, i: nat)
    requires Inv(w) && i < |w.timer.agents|
    ensures R.AgentOk(w.timer.agents[i], w.timer.bumps) && w.timer.agents[i].since == w.timer.agents[i].captured
  {
    hide S.Inv, R.SlotInv, R.RegInv, R.StoreInv, R.AgentOk, S.Generation;
  }

  lemma Compares(w: World, i: nat, ok: bool)
    requires Inv(w) && i < |w.timer.agents| && w.timer.agents[i].pc == R.Running
    ensures i < |Step(w, Timer(i, ok)).timer.agents|
    ensures Step(w, Timer(i, ok)).timer.agents[i].pc == R.Waking <==>
            (w.timer.bumps - w.timer.agents[i].captured) % 0x1_0000_0000 == 0
  {
    hide Inv, R.AgentOk, R.Next, R.SlotAfter, R.RegAfter, R.StoreAfter;
    AgentIsOk(w, i);
    AgentCompares(w.timer.agents[i], w.timer, ok);
  }

  lemma CapturedKept(w: World, js: seq<Event>, i: nat)
    requires Inv(w) && i < |w.timer.agents|
    ensures i < |Run(w, js).timer.agents| && Run(w, js).timer.agents[i].captured == w.timer.agents[i].captured
  {
    hide Inv, Run, RefreshFates.Rank;
    AgentGoesOn(w, js, i);
  }

  /** On every joint run, whatever is interleaved: the comparison of a refresh succeeds exactly when
      the increments since it was requested are a multiple of 2^32; and with fewer than that it
      succeeds only if no session has ended since. */
  lemma WakesInItsSession(js: seq<Event>, ks: seq<Event>, i: nat, ok: bool)
    requires Current(Run(START, js), i)
    requires var v := Run(Run(START, js), ks); i < |v.timer.agents| && v.timer.agents[i].pc == R.Running
    ensures var u := Run(START, js); var v := Run(u, ks);
            var a := Step(v, Timer(i, ok)).timer.agents[i];
            && u.timer.bumps <= v.timer.bumps
            && (a.pc == R.Waking <==> (v.timer.bumps - u.timer.bumps) % 0x1_0000_0000 == 0)
            && (a.pc == R.Waking && v.timer.bumps - u.timer.bumps < 0x1_0000_0000 ==> v.ended == u.ended)
  {
    hide Run, Inv, Step, R.AgentOk;
    var u := Run(START, js);
    var v := Run(u, ks);
    StartInv();
    RunKeeps(START, js);
    RunKeeps(u, ks);
    EndsMoveGenerations(u, ks);
    CapturedKept(u, ks, i);
    Compares(v, i, ok);
  }

  lemma OneStepSees(s: R.State, e: R.Event, i: nat)
    requires i < |s.agents| && s.agents[i].seen == None
    ensures var t := R.Step(s, e);
            i < |t.agents| && (t.agents[i].seen.Some? ==> t.agents[i].seen == Some(s.bumps)) && s.bumps <= t.bumps
  {
    hide R.NextPc, R.SlotAfter, R.RegAfter, R.StoreAfter;
  }

  lemma {:induction false} SeenLater(s: R.State, es: seq<R.Event>, i: nat)
    requires R.Inv(s) && i < |s.agents| && s.agents[i].seen == None
    ensures var t := R.Run(s, es);
            i < |t.agents| && (t.agents[i].seen.Some? ==> s.bumps <= t.agents[i].seen.value)
    decreases |es|
  {
    hide R.Inv, R.Step, RefreshFates.Rank;
    if es != [] {
      var t := R.Step(s, es[0]);
      R.StepKeeps(s, es[0]);
      OneStepSees(s, es[0], i);
      if t.agents[i].seen == None {
        SeenLater(t, es[1..], i);
      } else {
        RefreshFates.RunFollows(t, es[1..], i);
      }
    }
  }

  lemma TimerInv(w: World)
    requires Inv(w)
    ensures R.Inv(w.timer)
  {
    hide R.Inv, S.Inv;
  }

  lemma WokeInTime(a: R.Agent, bumps: nat)
    requires R.AgentOk(a, bumps) && a.woke && bumps < a.since + 0x1_0000_0000
    ensures a.seen == Some(a.since)
  {
    hide S.Generation, R.SameGeneration;
    RefreshFates.SameWhenNear(a.since, a.seen.value);
  }

  /** Before its comparison an agent that the generation has left behind stays asleep. */
  lemma LeftBehindSleeps(v: World, ls: seq<Event>, i: nat)
    requires Inv(v) && i < |v.timer.agents| && v.timer.agents[i].seen == None
    requires v.timer.agents[i].captured < v.timer.bumps
    requires Run(v, ls).timer.bumps < v.timer.agents[i].captured + 0x1_0000_0000
    ensures i < |Run(v, ls).timer.agents| && !Run(v, ls).timer.agents[i].woke
  {
    hide Run, Inv, R.Run, R.AgentOk, R.SameGeneration;
    var x := Run(v, ls);
    RunKeeps(v, ls);
    CapturedKept(v, ls, i);
    Projects(v, ls);
    assert R.Inv(v.timer) by { TimerInv(v); }
    SeenLater(v.timer, TimerEvents(v, ls), i);
    AgentIsOk(x, i);
    if x.timer.agents[i].woke {
      WokeInTime(x.timer.agents[i], x.timer.bumps);
    }
  }

  lemma UnseenIsNotWaking(a: R.Agent, bumps: nat)
    requires R.AgentOk(a, bumps) && a.seen == None
    ensures a.pc != R.Waking
  {
    hide S.Generation, R.SameGeneration;
  }

  lemma SeenGoesOn(a: R.Agent, b: R.Agent, before: nat, after: nat)
    requires R.AgentOk(a, before) && R.AgentOk(b, after) && RefreshFates.Follows(a, b) && a.seen.Some?
    ensures (b.woke && !a.woke) <==> a.pc == R.Waking && b.pc != R.Waking
  {
    hide S.Generation, R.SameGeneration, RefreshFates.Rank;
  }

  /** Once the generation has moved on from the one an agent was requested in, it calls
      CredentialsChanged exactly if its comparison has succeeded before: it was about to call. */
  lemma LeftBehindCallsIff(v: World, ls: seq<Event>, i: nat)
    requires Inv(v) && i < |v.timer.agents| && v.timer.agents[i].captured < v.timer.bumps
    requires Run(v, ls).timer.bumps < v.timer.agents[i].captured + 0x1_0000_0000
    ensures i < |Run(v, ls).timer.agents|
    ensures var a, b := v.timer.agents[i], Run(v, ls).timer.agents[i];
            (b.woke && !a.woke) <==> a.pc == R.Waking && b.pc != R.Waking
  {
    hide Run, Inv, RefreshFates.Follows, R.AgentOk;
    AgentGoesOn(v, ls, i);
    RunKeeps(v, ls);
    AgentIsOk(v, i);
    AgentIsOk(Run(v, ls), i);
    if v.timer.agents[i].seen == None {
      LeftBehindSleeps(v, ls, i);
      UnseenIsNotWaking(v.timer.agents[i], v.timer.bumps);
    } else {
      SeenGoesOn(v.timer.agents[i], Run(v, ls).timer.agents[i], v.timer.bumps, Run(v, ls).timer.bumps);
    }
  }

  /** A refresh requested before a session end, on every joint run and within 2^32 generations: from
      the end on it calls CredentialsChanged exactly if, at the end, its comparison had already
      succeeded and its call had not yet been made. Nothing is held between the two. */
  lemma CallsAfterEndIff(js: seq<Event>, ks: seq<Event>, ls: seq<Event>, i: nat)
    requires var u := Run(START, js); var v := Run(u, ks); Current(u, i) && u.ended < v.ended && i < |v.timer.agents|
    requires var u := Run(START, js); Run(Run(u, ks), ls).timer.bumps - u.timer.bumps < 0x1_0000_0000
    ensures i < |Run(Run(Run(START, js), ks), ls).timer.agents|
    ensures var v := Run(Run(START, js), ks); var x := Run(v, ls);
            var a, b := v.timer.agents[i], x.timer.agents[i];
            (b.woke && !a.woke) <==> a.pc == R.Waking && b.pc != R.Waking
  {
    hide Run, Inv;
    var u := Run(START, js);
    StartInv();
    RunKeeps(START, js);
    RunKeeps(u, ks);
    EndsMoveGenerations(u, ks);
    CapturedKept(u, ks, i);
    LeftBehindCallsIff(Run(u, ks), ls, i);
  }

  // ---------- the fate of a request ----------

  /** A request about to come for the slot is the latest, with the generation it read still running
      and nothing left for its call to do. */
  lemma RequestIsCurrent(w: World, j: nat)
    requires Inv(w) && j < |w.timer.agents| && w.timer.agents[j].pc == R.Ready
    ensures w.timer.agents[j].captured == w.timer.bumps && j == |w.timer.agents| - 1 && w.due == []
    ensures w.ended == w.session.books.ends
  {
    hide S.Inv, R.Inv, S.Generation;
    CapturedInRequest(w.timer.agents[j]);
    NothingDue();
  }

  /** On every joint run and for every request, the recovery's among them: once it is done, it has
      called CredentialsChanged exactly if all went smoothly for it: the slot was free when it came
      for it, an events object was registered, memory and a timer were there, and no generation
      increment came before its comparison. */
  lemma RequestFate(js: seq<Event>, ls: seq<Event>, j: nat)
    requires var u := Run(START, js); j < |u.timer.agents| && u.timer.agents[j].pc == R.Ready
    requires var u := Run(START, js); var x := Run(u, ls);
             && j < |x.timer.agents| && !RefreshFates.CallAhead(x.timer.agents[j].pc)
             && x.timer.bumps - u.timer.bumps < 0x1_0000_0000
    ensures var u := Run(START, js);
            Run(u, ls).timer.agents[j].woke <==> RefreshFates.Smooth(u.timer, TimerEvents(u, ls), j)
  {
    hide Run, Inv, R.Run, RefreshFates.Smooth;
    var u := Run(START, js);
    StartInv();
    RunKeeps(START, js);
    Projects(u, ls);
    AgentIsOk(u, j);
    RequestIsCurrent(u, j);
    TimerInv(u);
    RefreshFates.CallsExactlyWhen(u.timer, TimerEvents(u, ls), j);
  }

  lemma SessionInv(w: World)
    requires Inv(w)
    ensures S.Inv(w.session)
  {
    hide R.Inv, S.Inv;
  }

  lemma {:induction false} EndsGrow(w: World, js: seq<Event>)
    requires Inv(w)
    ensures w.session.books.ends <= Run(w, js).session.books.ends && |w.timer.agents| <= |Run(w, js).timer.agents|
    decreases |js|
  {
    hide Inv, Returned, Dues, Runs.Step;
    if js != [] {
      StepKeeps(w, js[0]);
      if js[0].Call? {
        SessionInv(w);
        CallBooks(w.session, js[0].e);
      }
      EndsGrow(Step(w, js[0]), js[1..]);
    }
  }

  /** The call `c`, made when the one before it has returned, ends a session; `u` is where its request
      finds the slot taken by agent `i`. */
  predicate RecoveryBeaten(w: World, c: Runs.Event, u: World, i: nat) {
    && Returned(w) && w.session.books.ends < Runs.Step(w.session, c).books.ends
    && RefreshFates.Beaten(u.timer, |w.timer.agents|, i)
  }

  lemma SinceBounds(a: R.Agent, bumps: nat)
    requires R.AgentOk(a, bumps)
    ensures a.captured <= bumps
  {
    hide S.Generation, R.SameGeneration;
  }

  lemma EndedSoFar(w: World)
    requires Inv(w)
    ensures w.ended <= w.session.books.ends
  {
    hide S.Inv, R.Inv;
  }

  lemma OwnerIsOther(u: World, j: nat, i: nat)
    requires Inv(u) && RefreshFates.Beaten(u.timer, j, i)
    ensures i < |u.timer.agents| && i != j
  {
    hide S.Inv, R.RegInv, R.StoreInv, R.AgentOk, S.Generation;
  }

  /** The owner that beats a recovery was requested by an earlier call. */
  lemma OwnerIsEarlier(w: World, c: Runs.Event, ks: seq<Event>, i: nat)
    requires Inv(w) && RecoveryBeaten(w, c, Run(Step(w, Call(c)), ks), i)
    ensures var u := Run(Step(w, Call(c)), ks);
            Inv(u) && i < |w.timer.agents| && u.timer.agents[i].captured < u.timer.bumps
  {
    hide Run, Inv, Runs.Step, Dues, Returned, R.AgentOk;
    var v := Step(w, Call(c));
    var u := Run(v, ks);
    StepKeeps(w, Call(c));
    RunKeeps(v, ks);
    RequestIsCurrent(u, |w.timer.agents|);
    OwnerIsOther(u, |w.timer.agents|, i);
    EndsGrow(v, ks);
    EndsMoveGenerations(v, ks);
    EndedSoFar(w);
    CapturedKept(v, ks, i);
    AgentIsOk(w, i);
    SinceBounds(w.timer.agents[i], w.timer.bumps);
  }

  lemma RecoveryFrom(w: World, c: Runs.Event, ks: seq<Event>, i: nat, ok: bool, ls: seq<Event>)
    requires Inv(w)
    requires var u := Run(Step(w, Call(c)), ks);
             && RecoveryBeaten(w, c, u, i)
             && Run(Step(u, Timer(|w.timer.agents|, ok)), ls).timer.bumps < u.timer.agents[i].captured + 0x1_0000_0000
    ensures var u := Run(Step(w, Call(c)), ks);
            var v := Step(u, Timer(|w.timer.agents|, ok)); var x := Run(v, ls);
            && v.timer.agents[|w.timer.agents|].pc == R.Lost
            && i < |x.timer.agents|
            && var o, d := u.timer.agents[i], x.timer.agents[i];
               (d.woke && !o.woke) <==> o.pc == R.Waking && d.pc != R.Waking
  {
    hide Run, Inv, Runs.Step, Dues, Returned, R.Step;
    var j := |w.timer.agents|;
    var u := Run(Step(w, Call(c)), ks);
    OwnerIsEarlier(w, c, ks, i);
    TimerInv(u);
    RefreshFates.BeatenStays(u.timer, j, i, ok);
    StepKeeps(u, Timer(j, ok));
    LeftBehindCallsIff(Step(u, Timer(j, ok)), ls, i);
  }

  /** The fate of a recovery whose request is dropped, on every joint run: the owner that beat it calls
      CredentialsChanged after the drop exactly if it is, at the drop, past its comparison and about to
      call. An owner with its comparison still ahead is stale, and the recovery is lost. */
  lemma RecoveryFate(js: seq<Event>, c: Runs.Event, ks: seq<Event>, i: nat, ok: bool, ls: seq<Event>)
    requires var w := Run(START, js); var u := Run(Step(w, Call(c)), ks);
             && RecoveryBeaten(w, c, u, i)
             && Run(Step(u, Timer(|w.timer.agents|, ok)), ls).timer.bumps < u.timer.agents[i].captured + 0x1_0000_0000
    ensures var w := Run(START, js); var u := Run(Step(w, Call(c)), ks);
            var v := Step(u, Timer(|w.timer.agents|, ok)); var x := Run(v, ls);
            && v.timer.agents[|w.timer.agents|].pc == R.Lost
            && i < |x.timer.agents|
            && var o, d := u.timer.agents[i], x.timer.agents[i];
               (d.woke && !o.woke) <==> o.pc == R.Waking && d.pc != R.Waking
  {
    hide Run, Inv, Step, Runs.Step, Returned;
    var w := Run(START, js);
    StartInv();
    RunKeeps(START, js);
    RecoveryFrom(w, c, ks, i, ok, ls);
  }

  // ---------- a recovery that is lost ----------

  lemma {:induction false} RunOn(w: World, js: seq<Event>, ks: seq<Event>)
    ensures Run(w, js + ks) == Run(Run(w, js), ks)
    decreases |js|
  {
    hide Step;
    if js == [] {
      assert js + ks == ks;
    } else {
      assert (js + ks)[1..] == js[1..] + ks;
      RunOn(Step(w, js[0]), js[1..], ks);
    }
  }

  lemma Snoc(w: World, js: seq<Event>, e: Event)
    ensures Run(w, js + [e]) == Step(Run(w, js), e)
  {
    hide Step;
    RunOn(w, js, [e]);
    var v := Run(w, js);
    assert [e][1..] == [];
    assert Run(v, [e]) == Run(Step(v, e), []);
  }

  /** Turns of one agent touch the timer alone. */
  lemma {:induction false} TurnsOnTimer(w: World, fs: seq<R.Event>) returns (js: seq<Event>)
    requires RefreshFates.TurnsOnly(fs)
    ensures Run(w, js) == w.(timer := R.Run(w.timer, fs))
    decreases |fs|
  {
    hide R.Step;
    if fs == [] {
      js := [];
    } else {
      var v := Step(w, Timer(0, true));
      js := TurnsOnTimer(v, fs[1..]);
      assert ([Timer(0, true)] + js)[1..] == js;
      js := [Timer(0, true)] + js;
    }
  }

  /** A call that finds everything working but the package, and reads as given. */
  function Reading(read: Pipe.ReadResult): S.Env {
    S.Env(true, true, S.Connected, read, [], [], [], None, true, None)
  }

  const SUBMIT_IDLE := Runs.Submit(0, Reading(Pipe.Timeout))
  const SUBMIT_LOST := Runs.Submit(0, Reading(Pipe.BrokerExited))

  /** The session while its first refresh waits: one broker connected, one request. */
  predicate Waits(s: S.State) {
    && S.Inv(s) && s.session.connected && s.creds == [S.CpusLogon]
    && s.books.bumps == 2 && s.books.ends == 0 && |s.requests| == 1
    && s.requests[0].delay == 2500
  }

  lemma OfferedSession()
    ensures var s := Runs.Step(Runs.Step(S.INITIAL, Runs.Usage(S.CpusLogon)), Runs.NewCredential);
            && S.Inv(s) && !s.session.connected && s.creds == [S.CpusLogon] && s.requests == []
            && s.books.bumps == 2 && s.books.ends == 0
  {
    hide S.Inv, S.NextLong;
    SessionInvariant.InitialInv();
    Runs.StepKeeps(S.INITIAL, Runs.Usage(S.CpusLogon));
    Runs.StepKeeps(Runs.Step(S.INITIAL, Runs.Usage(S.CpusLogon)), Runs.NewCredential);
  }

  lemma IdleSession(s: S.State)
    requires S.Inv(s) && !s.session.connected && s.creds == [S.CpusLogon] && s.requests == []
    requires s.books.bumps == 2 && s.books.ends == 0
    ensures Waits(Runs.Step(s, SUBMIT_IDLE))
  {
    hide S.Inv, S.NextLong;
    Runs.StepKeeps(s, SUBMIT_IDLE);
  }

  lemma LostSession(s: S.State)
    requires Waits(s)
    ensures var t := Runs.Step(s, SUBMIT_LOST);
            && S.Inv(t) && t.session == S.NO_SESSION && t.flags.force && |t.requests| == 2
               && t.requests[0].delay == 2500 && t.requests[1].delay == 50
            && t.requests[1].generation == t.flags.generation
            && t.books.bumps == 3 && t.books.ends == 1
  {
    hide S.Inv, S.NextLong;
    Runs.StepKeeps(s, SUBMIT_LOST);
  }

  /** What the calls of the witness leave to do. */
  lemma TwoBumps()
    ensures Bumps(2, 0) + Requests([]) == [Bump(false), Bump(false)]
  {
    assert Bumps(2, 0) == [Bump(false)] + Bumps(1, 0);
    assert Bumps(1, 0) == [Bump(false)] + Bumps(0, 0);
  }

  lemma DueOf(s: S.State, t: S.State)
    requires Grows(s, t) && |t.requests| == |s.requests| + 1
    requires t.books.ends - s.books.ends == t.books.bumps - s.books.bumps <= 1
    ensures var r := Request(t.requests[|s.requests|]);
            Dues(s, t) == if t.books.bumps == s.books.bumps then [r] else [Bump(true), r]
  {
    var rs := t.requests[|s.requests|..];
    assert rs[1..] == [] && rs[0] == t.requests[|s.requests|];
    assert Requests(rs) == [Request(rs[0])] + Requests([]);
    if t.books.bumps != s.books.bumps {
      assert Bumps(1, 1) == [Bump(true)] + Bumps(0, 0);
    }
  }

  lemma CallStep(w: World, c: Runs.Event)
    requires w.due == [] && forall i | 0 <= i < |w.timer.agents| :: !InRequest(w.timer.agents[i])
    ensures var t := Runs.Step(w.session, c); Step(w, Call(c)) == w.(session := t, due := Dues(w.session, t))
  {
    hide Dues, Runs.Step;
  }

  lemma NextStep(w: World)
    requires w.due != []
    ensures var v := Step(w, Next);
            && v.session == w.session && v.due == w.due[1..]
            && v.timer == R.Step(w.timer, if w.due[0].Bump? then R.SessionEnd else R.Begin)
            && v.ended == w.ended + if w.due[0].Bump? && w.due[0].ends then 1 else 0
  {
    hide R.Step;
  }

  /** The tile is offered, its events are registered and no refresh has been asked for. */
  predicate Offered(w: World) {
    && S.Inv(w.session) && !w.session.session.connected && w.session.creds == [S.CpusLogon] && w.session.requests == []
    && w.session.books.bumps == 2 && w.session.books.ends == 0
    && w.timer.agents == [] && w.timer.bumps == 2 && w.timer.reg.events == Some(7)
       && w.timer.slot == R.Slot(false, None)
    && w.due == [] && w.ended == 0
  }

  lemma Empty(w: World)
    ensures Run(w, []) == w
  {
  }

  lemma AdviseStep()
    ensures Step(START, Advise(Some(7), 0)) == World(S.INITIAL, R.Step(R.START, R.SetEvents(Some(7), 0)), [], 0)
  {
  }

  lemma UsageDues()
    ensures Dues(S.INITIAL, Runs.Step(S.INITIAL, Runs.Usage(S.CpusLogon))) == [Bump(false), Bump(false)]
  {
    hide S.NextLong;
    TwoBumps();
    assert S.INITIAL.requests[0..] == [];
  }

  lemma CredentialDues(s: S.State)
    ensures Dues(s, Runs.Step(s, Runs.NewCredential)) == []
  {
    assert s.requests[|s.requests|..] == [];
  }

  lemma OfferTile() returns (js: seq<Event>)
    ensures Offered(Run(START, js))
  {
    hide Run, Step, Runs.Step, S.Inv, Dues, Bumps, Requests;
    var usage := Runs.Usage(S.CpusLogon);
    var w1 := World(S.INITIAL, R.Step(R.START, R.SetEvents(Some(7), 0)), [], 0);
    assert Step(START, Advise(Some(7), 0)) == w1 by { AdviseStep(); }
    Empty(START);
    Snoc(START, [], Advise(Some(7), 0));
    js := [] + [Advise(Some(7), 0)];
    CallStep(w1, usage);
    UsageDues();
    Snoc(START, js, Call(usage));
    js := js + [Call(usage)];
    NextStep(Run(START, js));
    Snoc(START, js, Next);
    js := js + [Next];
    NextStep(Run(START, js));
    Snoc(START, js, Next);
    js := js + [Next];
    CallStep(Run(START, js), Runs.NewCredential);
    CredentialDues(Run(START, js).session);
    OfferedSession();
    Snoc(START, js, Call(Runs.NewCredential));
    js := js + [Call(Runs.NewCredential)];
  }

  /** The first refresh is armed; the call has returned. */
  predicate ArmedWorld(w: World) {
    && Waits(w.session) && RefreshFates.First(w.timer, R.Armed, false, 2, false) && |w.timer.agents| == 1
    && w.due == [] && w.ended == 0
  }

  lemma OneDue(s: S.State)
    requires S.Inv(s) && !s.session.connected && s.creds == [S.CpusLogon] && s.requests == []
    requires s.books.bumps == 2 && s.books.ends == 0
    ensures var d := Dues(s, Runs.Step(s, SUBMIT_IDLE)); |d| == 1 && d[0].Request?
  {
    hide S.Inv, Runs.Step;
    IdleSession(s);
    DueOf(s, Runs.Step(s, SUBMIT_IDLE));
  }

  lemma FirstBegins(s: R.State)
    requires s.agents == [] && s.bumps == 2 && s.reg.events == Some(7) && s.slot == R.Slot(false, None)
    ensures RefreshFates.First(R.Step(s, R.Begin), R.Captured, false, 2, false) && |R.Step(s, R.Begin).agents| == 1
  {
    hide S.Generation;
  }

  lemma ArmRefresh() returns (js: seq<Event>)
    ensures ArmedWorld(Run(START, js))
  {
    hide Run, Step, Runs.Step, S.Inv, Dues, R.Step, RefreshFates.First;
    js := OfferTile();
    var w := Run(START, js);
    IdleSession(w.session);
    OneDue(w.session);
    CallStep(w, SUBMIT_IDLE);
    Snoc(START, js, Call(SUBMIT_IDLE));
    js := js + [Call(SUBMIT_IDLE)];
    NextStep(Run(START, js));
    Snoc(START, js, Next);
    js := js + [Next];
    var u := Run(START, js);
    FirstBegins(w.timer);
    RefreshFates.RunNil(u.timer);
    var fs := RefreshFates.Drive(u.timer, [], R.Captured, false, 2, false, R.Armed);
    var ks := TurnsOnTimer(u, fs);
    RunOn(START, js, ks);
    js := js + ks;
  }

  lemma LostDues(s: S.State)
    requires Waits(s)
    ensures var d := Dues(s, Runs.Step(s, SUBMIT_LOST)); |d| == 2 && d[0] == Bump(true) && d[1].Request?
  {
    hide S.Inv, Runs.Step;
    LostSession(s);
    DueOf(s, Runs.Step(s, SUBMIT_LOST));
  }

  lemma FirstEnds(s: R.State)
    requires RefreshFates.First(s, R.Armed, false, 2, false)
    ensures RefreshFates.First(R.Step(s, R.SessionEnd), R.Armed, false, 2, true)
            && R.Step(s, R.SessionEnd).agents == s.agents
  {
    hide S.Generation;
  }

  lemma ArmedReturned(s: R.State)
    requires RefreshFates.First(s, R.Armed, false, 2, false) && |s.agents| == 1
    ensures forall i | 0 <= i < |s.agents| :: !InRequest(s.agents[i])
  {
  }

  lemma FirstReturned(w: World)
    requires RefreshFates.First(w.timer, R.Over, false, 2, true) && |w.timer.agents| == 2
             && w.timer.agents[1].pc == R.Lost && w.due == []
    ensures Returned(w) && w.timer.agents[0].pc == R.Over && !w.timer.agents[0].woke && !w.timer.slot.pending
  {
  }

  lemma TimerTurn(w: World, i: nat)
    ensures Step(w, Timer(i, true)) == w.(timer := R.Step(w.timer, R.Act(i, true)))
  {
    hide R.Step;
  }

  /** The recovery after a lost broker, itself lost. A call reads in vain and requests a refresh, whose
      timer is armed; the next call finds the broker gone, ends the session, marks the next selection
      and requests a refresh in 50 ms; that request finds the slot taken by the armed timer; the timer
      fires, is stale and wakes nobody. In the end everything has returned, the slot is free, and
      LogonUI has been told nothing. */
  lemma LostRecovery() returns (js: seq<Event>, ks: seq<Event>)
    ensures var u := Run(START, js); var v := Run(Step(u, Timer(1, true)), ks);
            && u.session.session == S.NO_SESSION && u.session.flags.force && u.ended == 1
            && |u.session.requests| == 2 && u.session.requests[0].delay == 2500 && u.session.requests[1].delay == 50
            && u.session.requests[1].generation == u.session.flags.generation
            && RefreshFates.Beaten(u.timer, 1, 0)
            && v.session == u.session && Returned(v) && !v.timer.slot.pending
            && |v.timer.agents| == 2 && v.timer.agents[0].pc == R.Over && v.timer.agents[1].pc == R.Lost
            && !v.timer.agents[0].woke && !v.timer.agents[1].woke
  {
    hide Run, Step, Runs.Step, S.Inv, Dues, R.Step, RefreshFates.First, Returned, RefreshFates.Beaten;
    js := ArmRefresh();
    var w := Run(START, js);
    LostSession(w.session);
    LostDues(w.session);
    ArmedReturned(w.timer);
    CallStep(w, SUBMIT_LOST);
    Snoc(START, js, Call(SUBMIT_LOST));
    js := js + [Call(SUBMIT_LOST)];
    NextStep(Run(START, js));
    Snoc(START, js, Next);
    js := js + [Next];
    FirstEnds(w.timer);
    var s := Run(START, js).timer;
    NextStep(Run(START, js));
    Snoc(START, js, Next);
    js := js + [Next];
    Snoc(START, js, Timer(1, true));
    TimerTurn(Run(START, js), 1);
    js := js + [Timer(1, true)];
    RefreshFates.Landmarks();
    RefreshFates.Challenge(s, R.Armed, false, 2, true);
    var u := Run(START, js);
    TimerTurn(u, 1);
    var v := Step(u, Timer(1, true));
    RefreshFates.RunNil(v.timer);
    var fs := RefreshFates.Drive(v.timer, [], R.Armed, false, 2, true, R.Over);
    ks := TurnsOnTimer(v, fs);
    FirstReturned(Run(v, ks));
  }

  // ---------- a call after the end ----------

  /** The line `{"type":"AUTH_SUCCESS","sam":"a","password":"b"}`. */
  function SuccessLine(): JsonObject.Line {
    var name, password := EndToEnd.Printed([97]), EndToEnd.Printed([98]);
    EndToEnd.AuthTree(name.raw, name.value, password.raw, password.value)
  }

  /** A call that reads that line, with the package and the memory for the credential. */
  function SubmitSuccess(): Runs.Event {
    var line := JsonObject.LineText(SuccessLine());
    Runs.Submit(0, S.Env(true, true, S.Connected, Pipe.Ok, line, [], [], Some(3), true, None))
  }

  lemma SuccessParses()
    ensures var r := JsonObject.ParseLine(JsonObject.LineText(SuccessLine()));
            && r.Some? && r.value.typ == Unicode.Ascii("AUTH_SUCCESS")
            && S.WidenOr(r.value.sam, []) == [97] && JsonObject.LineText(SuccessLine()) != []
  {
    hide JsonObject.ParseLine, EndToEnd.Carries, JsonObject.LineText, EndToEnd.AuthTree;
    assert Unicode.WellFormed16([97]) && Unicode.WellFormed16([98]);
    EndToEnd.PrintedLineCarries([97], [98]);
    EndToEnd.CredentialFidelity(SuccessLine(), [97], [98]);
    BrokerToLogon.LineNotEmpty(SuccessLine());
  }

  lemma FinalAsksNothing(s: S.State, usage: S.Cpus, env: S.Env, f: JsonObject.Fields)
    requires env.read == Pipe.Ok && env.message != [] && JsonObject.ParseLine(env.message) == Some(f)
    requires f.typ == Unicode.Ascii("AUTH_SUCCESS")
    ensures S.Serve(s, usage, env).state.requests == s.requests
  {
    hide JsonObject.ParseLine, S.Answer, S.NextLong;
    assert |Messages.AUTH_SUCCESS| == 12 && |Messages.AUTH_IDLE| == 9 && |Messages.AUTH_PENDING| == 12;
    assert Messages.AUTH_SUCCESS[5] != Messages.AUTH_PENDING[5];
  }

  lemma SuccessSession(s: S.State)
    requires Waits(s)
    ensures var t := Runs.Step(s, SubmitSuccess());
            && t.session == S.NO_SESSION && t.books.bumps == 3 && t.books.ends == 1 && t.requests == s.requests
            && Runs.StepOut(s, SubmitSuccess()).output.Answered?
            && Runs.StepOut(s, SubmitSuccess()).output.response.code == S.ReturnCredential
  {
    hide S.Inv, S.Serve, SuccessLine, JsonObject.ParseLine, JsonObject.LineText, S.WidenOr;
    var e := SubmitSuccess();
    SuccessParses();
    Runs.CredentialIff(s, 0, e.env);
    Runs.StepBooks(s, e);
    FinalAsksNothing(s, s.creds[0], e.env, JsonObject.ParseLine(e.env.message).value);
  }

  lemma SuccessDues(s: S.State)
    requires Waits(s)
    ensures Dues(s, Runs.Step(s, SubmitSuccess())) == [Bump(true)]
  {
    hide S.Inv, Runs.Step, SubmitSuccess;
    SuccessSession(s);
    var t := Runs.Step(s, SubmitSuccess());
    assert t.requests[|s.requests|..] == [];
    assert Requests([]) == [];
    assert Bumps(1, 1) == [Bump(true)] + Bumps(0, 0);
  }

  lemma WakingReturned(s: R.State)
    requires RefreshFates.First(s, R.Waking, false, 2, false) && |s.agents| == 1
    ensures s.agents[0].pc == R.Waking && !s.agents[0].woke && !InRequest(s.agents[0])
  {
  }

  lemma LastCall(s: R.State)
    requires |s.agents| == 1 && s.agents[0].pc == R.Waking
    ensures R.Step(s, R.SessionEnd).agents == s.agents
    ensures var t := R.Step(R.Step(s, R.SessionEnd), R.Act(0, true)); |t.agents| == 1 && t.agents[0].woke
  {
    hide S.Generation;
  }

  /** The late call is real, and after a success: a refresh compares in its session and is about to
      call; the next GetSerialization reads AUTH_SUCCESS, returns the credential and ends the session;
      only then does the refresh call CredentialsChanged. */
  lemma CallAfterSuccess() returns (js: seq<Event>)
    ensures var u := Run(START, js); var v := Step(Step(u, Call(SubmitSuccess())), Next);
            var x := Step(v, Timer(0, true));
            && Returned(u) && u.ended == 0 && |u.timer.agents| == 1
            && Runs.StepOut(u.session, SubmitSuccess()).output.Answered?
            && Runs.StepOut(u.session, SubmitSuccess()).output.response.code == S.ReturnCredential
            && v.session.session == S.NO_SESSION && v.ended == 1 && Returned(v)
            && |v.timer.agents| == |x.timer.agents| == 1 && !v.timer.agents[0].woke && x.timer.agents[0].woke
            && x.session == v.session && x.ended == v.ended
  {
    hide Run, Step, Runs.Step, Runs.StepOut, S.Inv, Dues, R.Step, RefreshFates.First, SubmitSuccess, InRequest;
    js := ArmRefresh();
    var w := Run(START, js);
    RefreshFates.RunNil(w.timer);
    var fs := RefreshFates.Drive(w.timer, [], R.Armed, false, 2, false, R.Waking);
    var ks := TurnsOnTimer(w, fs);
    RunOn(START, js, ks);
    js := js + ks;
    var u := Run(START, js);
    WakingReturned(u.timer);
    SuccessSession(u.session);
    SuccessDues(u.session);
    CallStep(u, SubmitSuccess());
    NextStep(Step(u, Call(SubmitSuccess())));
    LastCall(u.timer);
    TimerTurn(Step(Step(u, Call(SubmitSuccess())), Next), 0);
  }
}
