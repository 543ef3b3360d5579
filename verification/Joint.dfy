/** LogonUI's calls and the refresh timer in one system. A call does its session step and leaves a
    list of what it does to the timer, in its order: the generation increments, and then the refresh
    it requests. The call's thread takes these one by one, with the timer's callbacks, and agents of
    any kind, between any two; the next call starts when this one has returned. */
module Joint {
  import opened Options
  import S = Session
  import Runs = SessionRuns
  import SessionInvariant
  import JsonObject
  import R = Refresh
  import RefreshFates

  /** Still to be done by the call: an increment, which ends a session or does not, or a request. */
  datatype Due = Bump(ends: bool) | Request(refresh: S.Refresh)

  /** `ended` counts the session ends whose increment is done. */
  datatype World = World(session: S.State, timer: R.State, due: seq<Due>, ended: nat)

  const START := World(S.INITIAL, R.START, [], 0)

  datatype Event =
    | Call(e: Runs.Event) | Next
    | Timer(i: nat, ok: bool) | Advise(ev: Option<nat>, context: nat) | UnAdvise

  /** The agent is still in the call that requested it. */
  predicate InRequest(a: R.Agent) {
    match a.pc
    case Captured | Ready | Won | Empty | Held | NoContext | Allocated | NoTimer | NoTimerReleased | TimerMade => true
    case Clearing => a.seen == None
    case _ => false
  }

  /** The last call has returned. */
  predicate Returned(w: World) {
    w.due == [] && forall i | 0 <= i < |w.timer.agents| :: !InRequest(w.timer.agents[i])
  }

  function Bumps(n: nat, ends: nat): seq<Due> {
    if n == 0 then [] else [Bump(ends > 0)] + Bumps(n - 1, if ends > 0 then ends - 1 else 0)
  }

  function Requests(rs: seq<S.Refresh>): seq<Due> {
    if rs == [] then [] else [Request(rs[0])] + Requests(rs[1..])
  }

  /** No call takes anything back. */
  predicate Grows(s: S.State, t: S.State) {
    s.books.bumps <= t.books.bumps && s.books.ends <= t.books.ends && |s.requests| <= |t.requests|
  }

  /** What a call that took the session from `s` to `t` does to the timer. */
  function Dues(s: S.State, t: S.State): seq<Due> {
    if !Grows(s, t) then []
    else
      Bumps(t.books.bumps - s.books.bumps, t.books.ends - s.books.ends) + Requests(t.requests[|s.requests|..])
  }

  function Step(w: World, e: Event): World {
    match e
    case Call(c) =>
      var t := Runs.Step(w.session, c);
      if Returned(w) then w.(session := t, due := Dues(w.session, t)) else w
    case Next =>
      if w.due == [] then w
      else
        (match w.due[0]
         case Bump(ends) =>
           World(w.session, R.Step(w.timer, R.SessionEnd), w.due[1..], if ends then w.ended + 1 else w.ended)
         case Request(_) => World(w.session, R.Step(w.timer, R.Begin), w.due[1..], w.ended))
    case Timer(i, ok) => w.(timer := R.Step(w.timer, R.Act(i, ok)))
    case Advise(ev, context) => w.(timer := R.Step(w.timer, R.SetEvents(ev, context)))
    case UnAdvise => w.(timer := R.Step(w.timer, R.ClearEvents))
  }

  function Run(w: World, js: seq<Event>): World
    decreases |js|
  {
    if js == [] then w else Run(Step(w, js[0]), js[1..])
  }

  // ---------- what one call leaves to do ----------

  function BumpsDue(due: seq<Due>): nat {
    if due == [] then 0 else (if due[0].Bump? then 1 else 0) + BumpsDue(due[1..])
  }

  function EndsDue(due: seq<Due>): nat {
    if due == [] then 0 else (if due[0].Bump? && due[0].ends then 1 else 0) + EndsDue(due[1..])
  }

  function RequestsDue(due: seq<Due>): seq<S.Refresh> {
    if due == [] then [] else (if due[0].Request? then [due[0].refresh] else []) + RequestsDue(due[1..])
  }

  /** Increments come first, and at most one request after them. */
  predicate Ordered(due: seq<Due>) {
    due != [] ==> Ordered(due[1..]) && (due[0].Request? ==> due[1..] == [])
  }

  lemma OneBump(ends: bool, rest: seq<Due>)
    requires Ordered(rest)
    ensures var d := [Bump(ends)] + rest;
            && BumpsDue(d) == 1 + BumpsDue(rest) && EndsDue(d) == (if ends then 1 else 0) + EndsDue(rest)
            && RequestsDue(d) == RequestsDue(rest) && Ordered(d)
  {
    assert ([Bump(ends)] + rest)[1..] == rest;
  }

  lemma {:induction false} NoEndsDue(due: seq<Due>)
    requires BumpsDue(due) == 0
    ensures EndsDue(due) == 0
    decreases |due|
  {
    if due != [] {
      NoEndsDue(due[1..]);
    }
  }

  lemma {:induction false} BumpsCounted(n: nat, ends: nat, rest: seq<Due>)
    requires ends <= n && Ordered(rest) && BumpsDue(rest) == 0
    ensures var d := Bumps(n, ends) + rest;
            && BumpsDue(d) == n && EndsDue(d) == ends + EndsDue(rest) && RequestsDue(d) == RequestsDue(rest)
               && Ordered(d)
    decreases n
  {
    hide BumpsDue, EndsDue, RequestsDue, Ordered;
    if n == 0 {
      assert Bumps(n, ends) + rest == rest;
      NoEndsDue(rest);
    } else {
      var fewer := if ends > 0 then ends - 1 else 0;
      var d := Bumps(n, ends) + rest;
      BumpsCounted(n - 1, fewer, rest);
      OneBump(ends > 0, Bumps(n - 1, fewer) + rest);
      assert d == [Bump(ends > 0)] + (Bumps(n - 1, fewer) + rest);
    }
  }

  /** A call appends at most one request, and that carries the generation the call ends with. */
  predicate Asks(s: S.State, t: S.State) {
    && |s.requests| <= |t.requests| <= |s.requests| + 1 && t.requests[..|s.requests|] == s.requests
    && (|t.requests| > |s.requests| ==> t.requests[|s.requests|].generation == t.flags.generation)
  }

  lemma ServeAsks(s: S.State, usage: S.Cpus, env: S.Env)
    ensures Asks(s, S.Serve(s, usage, env).state)
  {
    hide JsonObject.ParseLine, S.Answer, S.NextLong;
  }

  lemma CallAsks(s: S.State, e: Runs.Event)
    ensures Asks(s, Runs.Step(s, e))
  {
    hide S.Serve, S.NextLong, S.Grants;
    if e.Submit? && e.k < |s.creds| {
      ServeAsks(s, s.creds[e.k], e.env);
      ServeAsks(S.Started(s), s.creds[e.k], e.env);
    }
  }

  lemma CallBooks(s: S.State, e: Runs.Event)
    requires S.Inv(s)
    ensures var t := Runs.Step(s, e);
            s.books.ends <= t.books.ends && t.books.ends - s.books.ends <= t.books.bumps - s.books.bumps
  {
    hide S.Inv, Runs.StepOut;
    Runs.StepBooks(s, e);
  }

  lemma OneRequest(r: S.Refresh)
    ensures var d := [Request(r)]; BumpsDue(d) == 0 && EndsDue(d) == 0 && RequestsDue(d) == [r] && Ordered(d)
  {
    assert [Request(r)][1..] == [];
  }

  /** What a call leaves to do is its increments, its session ends and its request. */
  lemma CallLeaves(s: S.State, e: Runs.Event)
    requires S.Inv(s)
    ensures var t := Runs.Step(s, e);
            && S.Inv(t) && Grows(s, t) && Ordered(Dues(s, t))
            && BumpsDue(Dues(s, t)) == t.books.bumps - s.books.bumps
            && EndsDue(Dues(s, t)) == t.books.ends - s.books.ends
            && t.requests == s.requests + RequestsDue(Dues(s, t))
            && var rs := RequestsDue(Dues(s, t));
               forall k | 0 <= k < |rs| :: rs[k].generation == S.Generation(t.books.bumps)
  {
    hide S.SessionInv, S.HandlesInv, Runs.Step, S.Generation, Runs.StepOut;
    var t := Runs.Step(s, e);
    Runs.StepKeeps(s, e);
    CallBooks(s, e);
    CallAsks(s, e);
    var new' := t.requests[|s.requests|..];
    assert t.requests == s.requests + new';
    if new' == [] {
      BumpsCounted(t.books.bumps - s.books.bumps, t.books.ends - s.books.ends, []);
      assert Requests(new') == [];
    } else {
      assert new' == [new'[0]] && new'[1..] == [];
      assert Requests(new') == [Request(new'[0])];
      OneRequest(new'[0]);
      BumpsCounted(t.books.bumps - s.books.bumps, t.books.ends - s.books.ends, [Request(new'[0])]);
    }
  }

  // ---------- the invariant ----------

  /** Every agent stands for one request, with the generation that request carried; and since its
      call lets nothing move the generation before the exchange, it never reads another. */
  predicate AgentsMatch(agents: seq<R.Agent>, requests: seq<S.Refresh>) {
    && |agents| <= |requests|
    && forall i | 0 <= i < |agents| ::
         requests[i].generation == S.Generation(agents[i].captured) && agents[i].since == agents[i].captured
  }

  /** A request is the last thing its call does: nothing is due behind it, no later request has come,
      and the generation is still the one it carries. */
  predicate CallOrder(agents: seq<R.Agent>, bumps: nat, due: seq<Due>) {
    forall i | 0 <= i < |agents| && InRequest(agents[i]) ::
      i == |agents| - 1 && due == [] && agents[i].captured == bumps
  }

  predicate InRequests(requests: seq<S.Refresh>, n: nat, due: seq<Due>, bumps: nat) {
    && n <= |requests| && requests[n..] == RequestsDue(due)
    && forall k | 0 <= k < |RequestsDue(due)| :: RequestsDue(due)[k].generation == S.Generation(bumps)
  }

  predicate Inv(w: World) {
    && S.Inv(w.session) && R.Inv(w.timer) && Ordered(w.due)
    && w.timer.bumps + BumpsDue(w.due) == w.session.books.bumps
    && w.ended + EndsDue(w.due) == w.session.books.ends
    && InRequests(w.session.requests, |w.timer.agents|, w.due, w.session.books.bumps)
    && AgentsMatch(w.timer.agents, w.session.requests)
    && CallOrder(w.timer.agents, w.timer.bumps, w.due)
  }

  lemma NothingDue()
    ensures BumpsDue([]) == 0 && EndsDue([]) == 0 && RequestsDue([]) == [] && Ordered([])
  {
  }

  lemma CallKeeps(w: World, c: Runs.Event)
    requires Inv(w)
    ensures Inv(Step(w, Call(c)))
  {
    hide S.Inv, R.Inv, Ordered, BumpsDue, EndsDue, RequestsDue, Dues, Runs.Step, S.Generation, Grows;
    if Returned(w) {
      CallLeaves(w.session, c);
      NothingDue();
      var t := Runs.Step(w.session, c);
      assert w.session.requests[|w.timer.agents|..] == [];
      assert t.requests[|w.timer.agents|..] == RequestsDue(Dues(w.session, t));
    }
  }

  lemma BumpKeeps(w: World)
    requires Inv(w) && w.due != [] && w.due[0].Bump?
    ensures Inv(Step(w, Next))
  {
    hide S.Inv, R.Inv, S.Generation;
    R.StepKeeps(w.timer, R.SessionEnd);
    var v := Step(w, Next);
    assert v.timer.agents == w.timer.agents && v.timer.bumps == w.timer.bumps + 1;
    assert BumpsDue(w.due) == 1 + BumpsDue(v.due) && RequestsDue(w.due) == RequestsDue(v.due);
    assert InRequests(v.session.requests, |v.timer.agents|, v.due, v.session.books.bumps);
    assert CallOrder(v.timer.agents, v.timer.bumps, v.due);
    assert v.ended + EndsDue(v.due) == v.session.books.ends;
  }

  lemma BeginKeeps(w: World)
    requires Inv(w) && w.due != [] && w.due[0].Request?
    ensures Inv(Step(w, Next))
  {
    hide S.Inv, R.Inv, S.Generation;
    R.StepKeeps(w.timer, R.Begin);
    NothingDue();
    var rs := w.session.requests;
    var n := |w.timer.agents|;
    assert w.due[1..] == [];
    assert rs[n..] == [w.due[0].refresh];
    assert rs[n] == rs[n..][0];
    assert RequestsDue(w.due)[0] == w.due[0].refresh;
    assert rs[n + 1..] == [];
  }

  lemma CapturedInRequest(a: R.Agent)
    ensures a.pc == R.Captured || a.pc == R.Ready ==> InRequest(a)
  {
  }

  lemma TimerAgentOk(s: R.State, i: nat)
    requires R.Inv(s) && i < |s.agents|
    ensures R.AgentOk(s.agents[i], s.bumps)
  {
    hide R.SlotInv, R.RegInv, R.StoreInv, R.AgentOk;
  }

  /** An agent whose call has returned does not come back into it. */
  lemma StaysOut(a: R.Agent, s: R.State, ok: bool)
    requires R.AgentOk(a, s.bumps) && !InRequest(a)
    ensures !InRequest(R.Next(a, s, ok))
  {
    hide S.Generation, R.SameGeneration;
  }

  /** An agent's step leaves what it captured, and one that reads the generation again in the call
      that captured it reads the same. */
  lemma StaysCaptured(a: R.Agent, s: R.State, ok: bool)
    ensures var b := R.Next(a, s, ok);
            && b.captured == a.captured && b.pc != R.Captured
            && (a.since == a.captured && (a.pc == R.Captured ==> a.captured == s.bumps) ==> b.since == a.captured)
  {
    hide S.Generation;
  }

  lemma TurnKeeps(w: World, i: nat, ok: bool)
    requires Inv(w)
    ensures Inv(Step(w, Timer(i, ok)))
  {
    hide S.Inv, R.Inv, S.Generation, Ordered, BumpsDue, EndsDue, RequestsDue, R.Next, InRequest, R.AgentOk;
    hide R.SlotAfter, R.RegAfter, R.StoreAfter;
    R.StepKeeps(w.timer, R.Act(i, ok));
    if i < |w.timer.agents| {
      var a := w.timer.agents[i];
      assert R.AgentOk(a, w.timer.bumps) by { TimerAgentOk(w.timer, i); }
      assert a.pc == R.Captured ==> InRequest(a) by { CapturedInRequest(a); }
      StaysCaptured(a, w.timer, ok);
      if !InRequest(a) {
        StaysOut(a, w.timer, ok);
      }
    }
  }

  lemma AdviseKeeps(w: World, ev: Option<nat>, context: nat)
    requires Inv(w)
    ensures Inv(Step(w, Advise(ev, context))) && Inv(Step(w, UnAdvise))
  {
    hide S.Inv, R.Inv, S.Generation, Ordered, BumpsDue, EndsDue, RequestsDue;
    R.StepKeeps(w.timer, R.SetEvents(ev, context));
    R.StepKeeps(w.timer, R.ClearEvents);
  }

  lemma StepKeeps(w: World, e: Event)
    requires Inv(w)
    ensures Inv(Step(w, e))
  {
    hide Inv;
    match e
    case Call(c) => CallKeeps(w, c);
    case Next => if w.due != [] { if w.due[0].Bump? { BumpKeeps(w); } else { BeginKeeps(w); } }
    case Timer(i, ok) => TurnKeeps(w, i, ok);
    case Advise(ev, context) => AdviseKeeps(w, ev, context);
    case UnAdvise => AdviseKeeps(w, None, 0);
  }

  lemma {:induction false} RunKeeps(w: World, js: seq<Event>)
    requires Inv(w)
    ensures Inv(Run(w, js))
    decreases |js|
  {
    hide Inv, Step;
    if js != [] {
      StepKeeps(w, js[0]);
      RunKeeps(Step(w, js[0]), js[1..]);
    }
  }

  lemma StartInv()
    ensures Inv(START)
  {
    hide S.Inv, R.Inv;
    SessionInvariant.InitialInv();
    RefreshFates.StartInv();
  }
}
