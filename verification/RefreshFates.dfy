/** What becomes of a refresh over every interleaving: who owns the slot, which refreshes wake
    LogonUI, and what a request gets that found the slot taken. */
module RefreshFates {
  import Session
  import opened Options
  import opened Refresh

  // ---------- the slot ----------

  /** Every context an agent deletes is allocated, every timer it closes is open, every object it
      calls or releases is referenced, and the callback never takes its early return. */
  predicate Backed(a: Agent, s: State) {
    && a.pc != Early
    && (LetsBlockGo(a.pc) ==> a.block in s.store.heap)
    && (a.pc == Released ==> a.block in s.store.timers)
    && (LetsRefGo(a.pc) || a.pc == Waking ==> a.ev.Some? && a.ev.value in s.reg.refs)
  }

  /** The slot is taken exactly while one agent is between its exchange and its freeing store, and
      nobody else is; what the provider holds on events objects is the registration's reference plus
      that agent's, and what an agent is about to use or give back is there. */
  predicate Exclusive(s: State) {
    && (s.slot.pending <==> exists i :: 0 <= i < |s.agents| && Owning(s.agents[i].pc))
    && (forall i, j | 0 <= i < |s.agents| && 0 <= j < |s.agents| && Owning(s.agents[i].pc) && Owning(s.agents[j].pc) ::
          i == j)
    && s.reg.refs == Refs(s.reg.events) + OwnerHolds(s.slot, s.agents).refs
    && s.store.made == s.store.freed + |s.store.heap| && |s.store.heap| <= 1
    && forall i | 0 <= i < |s.agents| :: Backed(s.agents[i], s)
  }

  lemma UsersOwn(a: Agent, bumps: nat)
    requires AgentOk(a, bumps)
    ensures a.pc != Early && (HoldsRef(a.pc) ==> a.ev.Some?) && (a.pc == Waking ==> HoldsRef(a.pc))
  {
    hide Session.Generation, SameGeneration;
  }

  lemma OwnerBacked(s: State, i: nat)
    requires Inv(s) && i < |s.agents|
    ensures Backed(s.agents[i], s)
  {
    hide AgentOk, Owning, HoldsRef, HoldsBlock, HoldsTimer;
    var a := s.agents[i];
    PcRoles(a.pc);
    UsersOwn(a, s.bumps);
    if Owning(a.pc) {
      assert OwnerHolds(s.slot, s.agents) == Holds(a);
    }
  }

  lemma InvExclusive(s: State)
    requires Inv(s)
    ensures Exclusive(s)
  {
    hide Backed, Owning, AgentsOk;
    forall i | 0 <= i < |s.agents| ensures Backed(s.agents[i], s) { OwnerBacked(s, i); }
  }

  lemma StartInv()
    ensures Inv(START)
  {
  }

  /** Any number of requests, callbacks, registrations and session ends, in any order. */
  lemma SlotIsExclusive(es: seq<Event>)
    ensures Exclusive(Run(START, es))
  {
    hide Inv, Run, Exclusive;
    StartInv();
    RunKeeps(START, es);
    InvExclusive(Run(START, es));
  }

  // ---------- one agent through a run ----------

  /** How far along a statement is; every statement leads to a higher one. */
  function Rank(pc: Pc): nat {
    match pc
    case Captured => 0
    case Ready => 1
    case Won => 2
    case Held => 3
    case Allocated => 4
    case TimerMade => 5
    case Armed => 6
    case Running => 7
    case Waking => 8
    case NoTimer => 8
    case Passed => 9
    case NoTimerReleased => 10
    case Released => 10
    case Closed => 11
    case NoContext => 11
    case Clearing => 12
    case Empty => 12
    case Early => 12
    case Lost => 13
    case Over => 13
  }

  lemma PcRanks(a: Agent, s: State, ok: bool)
    ensures Rank(NextPc(a, s, ok)) > Rank(a.pc) || a.pc == Lost || a.pc == Over
    ensures a.pc == Lost || a.pc == Over ==> NextPc(a, s, ok) == a.pc
  {
    hide Session.Generation;
  }

  lemma RankGrows(a: Agent, s: State, ok: bool)
    ensures Rank(Next(a, s, ok).pc) > Rank(a.pc) || (a.pc == Lost || a.pc == Over)
    ensures a.pc == Lost || a.pc == Over ==> Next(a, s, ok) == a
  {
    hide Rank, NextPc;
    PcRanks(a, s, ok);
  }

  /** An agent from which a call of CredentialsChanged may still come. */
  predicate CallAhead(pc: Pc) {
    match pc
    case Captured | Ready | Won | Held | Allocated | TimerMade | Armed | Running | Waking => true
    case _ => false
  }

  /** What stays of agent `a` when it has become `b`. */
  predicate Follows(a: Agent, b: Agent) {
    && Rank(a.pc) <= Rank(b.pc)
    && b.captured == a.captured && (a.pc != Captured ==> b.pc != Captured && b.since == a.since)
    && (a.seen.Some? ==> b.seen == a.seen)
    && (a.woke ==> b.woke)
    && (a.pc == Waking ==> b.pc == Waking || b.woke)
    && (!CallAhead(a.pc) ==> !CallAhead(b.pc) && b.woke == a.woke)
  }

  lemma NextFollows(a: Agent, s: State, ok: bool)
    requires AgentOk(a, s.bumps)
    ensures Follows(a, Next(a, s, ok))
  {
    hide Session.Generation, SameGeneration, Rank;
    RankGrows(a, s, ok);
  }

  lemma StaysItself(a: Agent)
    ensures Follows(a, a)
  {
  }

  lemma StepFollows(s: State, e: Event, i: nat)
    requires Inv(s) && i < |s.agents|
    ensures i < |Step(s, e).agents| && Follows(s.agents[i], Step(s, e).agents[i])
  {
    hide Next, Follows, AgentOk, SlotInv, RegInv, StoreInv, SlotAfter, RegAfter, StoreAfter;
    StaysItself(s.agents[i]);
    if e.Act? && e.i == i {
      NextFollows(s.agents[i], s, e.ok);
    }
  }

  lemma FollowsOn(a: Agent, b: Agent, c: Agent)
    requires Follows(a, b) && Follows(b, c)
    ensures Follows(a, c)
  {
    hide Rank;
  }

  lemma {:induction false} RunFollows(s: State, es: seq<Event>, i: nat)
    requires Inv(s) && i < |s.agents|
    ensures i < |Run(s, es).agents| && Follows(s.agents[i], Run(s, es).agents[i])
    decreases |es|
  {
    hide Inv, Step, Follows;
    if es == [] {
      StaysItself(s.agents[i]);
    } else {
      var t := Step(s, es[0]);
      StepKeeps(s, es[0]);
      StepFollows(s, es[0], i);
      RunFollows(t, es[1..], i);
      FollowsOn(s.agents[i], t.agents[i], Run(t, es[1..]).agents[i]);
    }
  }

  // ---------- waking ----------

  function Ends(es: seq<Event>): nat {
    if es == [] then 0 else (if es[0] == SessionEnd then 1 else 0) + Ends(es[1..])
  }

  lemma {:induction false} EndsCounted(s: State, es: seq<Event>)
    ensures Run(s, es).bumps == s.bumps + Ends(es)
    decreases |es|
  {
    if es != [] {
      EndsCounted(Step(s, es[0]), es[1..]);
    }
  }

  /** On every run, a refresh whose callback has made its comparison has called CredentialsChanged
      exactly when the session ends between the last reading of its generation and that comparison
      are a multiple of 2^32. So with fewer ends than that, no stale timer ever wakes LogonUI. The
      last reading is the caller's own unless that gave a number that is not positive. */
  lemma StaleNeverWakes(es: seq<Event>, i: nat)
    requires i < |Run(START, es).agents|
    ensures var a := Run(START, es).agents[i];
            && a.captured <= a.since <= Run(START, es).bumps == Ends(es)
            && (Session.Generation(a.captured) > 0 ==> a.since == a.captured)
            && (a.seen.Some? && a.pc != Waking ==> (a.woke <==> (a.seen.value - a.since) % 0x1_0000_0000 == 0))
            && (a.woke ==> a.seen.Some? && a.since <= a.seen.value
                           && (a.seen.value - a.since < 0x1_0000_0000 ==> a.seen.value == a.since))
  {
    hide Run, SlotInv, RegInv, StoreInv, Session.Generation;
    StartInv();
    RunKeeps(START, es);
    EndsCounted(START, es);
  }

  /** Agent `j` is about to find the slot taken by agent `i`. */
  predicate Beaten(s: State, j: nat, i: nat) {
    i < |s.agents| && j < |s.agents| && s.agents[j].pc == Ready && s.slot.pending && s.slot.owner == Some(i)
  }

  lemma Outcome(o: Agent, d: Agent, before: nat, after: nat)
    requires AgentOk(o, before) && AgentOk(d, after) && Follows(o, d) && Owning(o.pc) && d.pc == Over
    ensures (d.woke && !o.woke) <==>
            o.pc == Waking || (CallAhead(o.pc) && d.seen.Some? && SameGeneration(o.since, d.seen.value))
  {
    hide SameGeneration, Session.Generation, Rank;
  }

  lemma DroppedFrom(s: State, j: nat, i: nat, ok: bool, es: seq<Event>)
    requires Inv(s) && Beaten(s, j, i)
    requires var t := Run(Step(s, Act(j, ok)), es); i < |t.agents| && t.agents[i].pc == Over
    ensures Step(s, Act(j, ok)).agents[j].pc == Lost
    ensures var o, d := s.agents[i], Run(Step(s, Act(j, ok)), es).agents[i];
            (d.woke && !o.woke) <==>
            o.pc == Waking || (CallAhead(o.pc) && d.seen.Some? && SameGeneration(o.since, d.seen.value))
  {
    hide Run, RegInv, StoreInv, SameGeneration, Session.Generation, Rank, AgentOk, Follows;
    var u := Step(s, Act(j, ok));
    StepKeeps(s, Act(j, ok));
    assert u.agents[i] == s.agents[i];
    RunFollows(u, es, i);
    RunKeeps(u, es);
    var t := Run(u, es);
    assert AgentOk(t.agents[i], t.bumps) && AgentOk(s.agents[i], s.bumps);
    Outcome(s.agents[i], t.agents[i], s.bumps, t.bumps);
  }

  /** The fate of a dropped refresh. Once the owner that beat it is done, that owner has called
      CredentialsChanged after the drop exactly when it was about to call it at the drop, or had its
      comparison before it, came to make it, and made it in the generation its own caller had read. */
  lemma DroppedRefreshFate(before: seq<Event>, j: nat, i: nat, ok: bool, es: seq<Event>)
    requires Beaten(Run(START, before), j, i)
    requires var t := Run(Step(Run(START, before), Act(j, ok)), es); i < |t.agents| && t.agents[i].pc == Over
    ensures Step(Run(START, before), Act(j, ok)).agents[j].pc == Lost
    ensures var o := Run(START, before).agents[i];
            var d := Run(Step(Run(START, before), Act(j, ok)), es).agents[i];
            (d.woke && !o.woke) <==>
            o.pc == Waking || (CallAhead(o.pc) && d.seen.Some? && SameGeneration(o.since, d.seen.value))
  {
    hide Run, Inv, Next;
    var s := Run(START, before);
    StartInv();
    RunKeeps(START, before);
    DroppedFrom(s, j, i, ok, es);
  }

  // ---------- the fate of a refresh, by what happens ----------

  /** The agent has its comparison still ahead. */
  predicate CheckAhead(pc: Pc) { CallAhead(pc) && pc != Waking }

  /** What this step brings does not take its call from agent `i`: the slot is free when it comes for
      it, an events object is registered when it reads the pointer, there is memory and a timer, and
      no session ends before its comparison. */
  predicate SmoothStep(s: State, e: Event, i: nat) {
    i < |s.agents| &&
    var pc := s.agents[i].pc;
    match e
    case SessionEnd => !CheckAhead(pc)
    case Act(k, ok) =>
      k == i ==>
        && (pc == Ready ==> !s.slot.pending) && (pc == Won ==> s.reg.events.Some?)
        && (pc == Held || pc == Allocated ==> ok)
    case _ => true
  }

  predicate Smooth(s: State, es: seq<Event>, i: nat)
    decreases |es|
  {
    es != [] ==> SmoothStep(s, es[0], i) && Smooth(Step(s, es[0]), es[1..], i)
  }

  lemma NoWayBack(a: Agent, s: State, ok: bool)
    requires !CheckAhead(a.pc)
    ensures !CheckAhead(Next(a, s, ok).pc)
  {
    hide Session.Generation;
  }

  lemma PastStep(s: State, e: Event, i: nat)
    requires i < |s.agents| && !CheckAhead(s.agents[i].pc)
    ensures SmoothStep(s, e, i) && i < |Step(s, e).agents| && !CheckAhead(Step(s, e).agents[i].pc)
  {
    hide Next, SlotAfter, RegAfter, StoreAfter;
    if e.Act? && e.i == i {
      NoWayBack(s.agents[i], s, e.ok);
    }
  }

  lemma {:induction false} PastIsSmooth(s: State, es: seq<Event>, i: nat)
    requires i < |s.agents| && !CheckAhead(s.agents[i].pc)
    ensures Smooth(s, es, i)
    decreases |es|
  {
    hide Step, SmoothStep, CheckAhead;
    if es != [] {
      PastStep(s, es[0], i);
      PastIsSmooth(Step(s, es[0]), es[1..], i);
    }
  }

  /** One turn of an agent before its comparison: on, or to the end, or to what it compares. */
  lemma OneTurn(a: Agent, s: State, i: nat, ok: bool)
    requires i < |s.agents| && s.agents[i] == a && AgentOk(a, s.bumps) && CheckAhead(a.pc) && a.pc != Captured
    ensures var b := Next(a, s, ok);
            && b.since == a.since && b.pc != Captured && !b.woke
            && (a.pc == Running ==> if SameGeneration(a.since, s.bumps) then b.pc == Waking else !CallAhead(b.pc))
            && (a.pc != Running ==> if SmoothStep(s, Act(i, ok), i) then CheckAhead(b.pc) else !CallAhead(b.pc))
            && (a.pc == Running ==> SmoothStep(s, Act(i, ok), i))
  {
    hide Session.Generation, SameGeneration;
    GenerationSame(a.since, s.bumps);
  }

  lemma OtherTurn(s: State, e: Event, i: nat)
    requires i < |s.agents| && !(e.Act? && e.i == i) && CheckAhead(s.agents[i].pc)
    ensures var t := Step(s, e);
            && i < |t.agents| && t.agents[i] == s.agents[i]
            && (if e == SessionEnd then t.bumps == s.bumps + 1 && !SmoothStep(s, e, i)
                else t.bumps == s.bumps && SmoothStep(s, e, i))
  {
    hide Next, SlotAfter, RegAfter, StoreAfter, CheckAhead;
  }

  lemma OwnTurn(s: State, i: nat, ok: bool)
    requires i < |s.agents|
    ensures var t := Step(s, Act(i, ok));
            i < |t.agents| && t.agents[i] == Next(s.agents[i], s, ok) && t.bumps == s.bumps
  {
    hide Next, SlotAfter, RegAfter, StoreAfter;
  }

  lemma AgentIsOk(s: State, i: nat)
    requires Inv(s) && i < |s.agents|
    ensures AgentOk(s.agents[i], s.bumps)
  {
    hide SlotInv, RegInv, StoreInv, AgentOk;
  }

  lemma SameWhenNear(since: nat, bumps: nat)
    requires since <= bumps < since + 0x1_0000_0000
    ensures SameGeneration(since, bumps) <==> since == bumps
  {
  }

  lemma SinceBound(a: Agent, bumps: nat)
    requires AgentOk(a, bumps)
    ensures a.since <= bumps && (CheckAhead(a.pc) ==> !a.woke)
  {
    hide Session.Generation, SameGeneration;
  }

  lemma AheadIsAhead(pc: Pc)
    ensures CheckAhead(pc) ==> CallAhead(pc)
  {
  }

  /** From a state past the comparison, only the agent about to call comes to have called. */
  lemma FollowsAsleep(a: Agent, b: Agent)
    requires Follows(a, b) && !CheckAhead(a.pc) && !a.woke && !CallAhead(b.pc)
    ensures b.woke <==> a.pc == Waking
  {
    hide Rank;
  }

  /** An agent with its comparison ahead calls CredentialsChanged in the end exactly if the generation
      is still the one it read and all goes smoothly for it, given fewer than 2^32 increments. */
  lemma {:induction false} CallsExactlyWhen(s: State, es: seq<Event>, i: nat)
    requires Inv(s) && i < |s.agents| && CheckAhead(s.agents[i].pc) && s.agents[i].pc != Captured
    requires i < |Run(s, es).agents| && !CallAhead(Run(s, es).agents[i].pc)
    requires Run(s, es).bumps < s.agents[i].since + 0x1_0000_0000
    ensures Run(s, es).agents[i].woke <==> s.agents[i].since == s.bumps && Smooth(s, es, i)
    decreases |es|
  {
    hide Inv, Step, AgentOk, SmoothStep, Next, CallAhead, SameGeneration, Ends;
    AheadIsAhead(s.agents[i].pc);
    if es != [] {
      var e, u, rest := es[0], Step(s, es[0]), es[1..];
      StepKeeps(s, e);
      AgentIsOk(s, i);
      SinceBound(s.agents[i], s.bumps);
      EndsCounted(u, rest);
      if e.Act? && e.i == i {
        OwnTurn(s, i, e.ok);
        OneTurn(s.agents[i], s, i, e.ok);
        SameWhenNear(s.agents[i].since, s.bumps);
        if CheckAhead(u.agents[i].pc) {
          CallsExactlyWhen(u, rest, i);
        } else {
          RunFollows(u, rest, i);
          FollowsAsleep(u.agents[i], Run(u, rest).agents[i]);
          PastIsSmooth(u, rest, i);
        }
      } else {
        OtherTurn(s, e, i);
        AgentIsOk(u, i);
        CallsExactlyWhen(u, rest, i);
      }
    }
  }

  lemma BeatenStays(s: State, j: nat, i: nat, ok: bool)
    requires Inv(s) && Beaten(s, j, i)
    ensures var u := Step(s, Act(j, ok));
            && Inv(u) && i < |s.agents| && i < |u.agents| && u.agents[i] == s.agents[i] && u.bumps == s.bumps
            && u.agents[j].pc == Lost && Owning(s.agents[i].pc)
  {
    hide RegInv, StoreInv, AgentOk, Session.Generation;
    StepKeeps(s, Act(j, ok));
  }

  lemma OwnerNotCaptured(pc: Pc)
    ensures Owning(pc) ==> pc != Captured
  {
  }

  lemma CheckIsNotWaking(pc: Pc)
    ensures CheckAhead(pc) ==> pc != Waking
  {
  }

  lemma WakingHasNotCalled(a: Agent, bumps: nat)
    requires AgentOk(a, bumps)
    ensures a.pc == Waking ==> !a.woke
  {
    hide Session.Generation, SameGeneration;
  }

  lemma DroppedIffFrom(s: State, j: nat, i: nat, ok: bool, es: seq<Event>)
    requires Inv(s) && Beaten(s, j, i)
    requires var t := Run(Step(s, Act(j, ok)), es);
             i < |t.agents| && !CallAhead(t.agents[i].pc) && t.bumps < s.agents[i].since + 0x1_0000_0000
    ensures var u := Step(s, Act(j, ok)); var o, d := s.agents[i], Run(u, es).agents[i];
            (d.woke && !o.woke) <==>
            o.pc == Waking || (CheckAhead(o.pc) && o.since == s.bumps && Smooth(u, es, i))
  {
    hide Run, Inv, Step, Smooth, Beaten, AgentOk, CallAhead, Owning;
    var u := Step(s, Act(j, ok));
    BeatenStays(s, j, i, ok);
    OwnerNotCaptured(s.agents[i].pc);
    AgentIsOk(s, i);
    SinceBound(s.agents[i], s.bumps);
    if CheckAhead(s.agents[i].pc) {
      CallsExactlyWhen(u, es, i);
      CheckIsNotWaking(s.agents[i].pc);
    } else {
      RunFollows(u, es, i);
      if s.agents[i].woke {
        WakingHasNotCalled(s.agents[i], s.bumps);
      } else {
        FollowsAsleep(s.agents[i], Run(u, es).agents[i]);
      }
    }
  }

  /** The fate of a dropped refresh, by what can be seen at the drop and what happens after it: the
      owner that beat it calls CredentialsChanged afterwards exactly if it was about to call, or had
      its comparison ahead, in the generation it had read, and all goes smoothly for it. */
  lemma DroppedRefreshIff(before: seq<Event>, j: nat, i: nat, ok: bool, es: seq<Event>)
    requires Beaten(Run(START, before), j, i)
    requires var t := Run(Step(Run(START, before), Act(j, ok)), es);
             && i < |t.agents| && !CallAhead(t.agents[i].pc)
             && t.bumps < Run(START, before).agents[i].since + 0x1_0000_0000
    ensures var s := Run(START, before); var u := Step(s, Act(j, ok));
            var o, d := s.agents[i], Run(u, es).agents[i];
            (d.woke && !o.woke) <==>
            o.pc == Waking || (CheckAhead(o.pc) && o.since == s.bumps && Smooth(u, es, i))
  {
    hide Run, Inv, Smooth;
    StartInv();
    RunKeeps(START, before);
    DroppedIffFrom(Run(START, before), j, i, ok, es);
  }

  // ---------- progress ----------

  function Turns(es: seq<Event>, i: nat): nat {
    if es == [] then 0 else (if es[0].Act? && es[0].i == i then 1 else 0) + Turns(es[1..], i)
  }

  /** The last rank is that of an agent at its end. */
  lemma LastRank(pc: Pc)
    ensures Rank(pc) <= 13 && (Rank(pc) == 13 <==> pc == Lost || pc == Over) && (Rank(pc) == 13 ==> !Owning(pc))
  {
  }

  lemma OneTurnRanks(s: State, e: Event, i: nat)
    requires Inv(s) && i < |s.agents|
    ensures var t := Step(s, e); var own := if e.Act? && e.i == i then 1 else 0;
            i < |t.agents| && (Rank(s.agents[i].pc) + own <= Rank(t.agents[i].pc) || Rank(t.agents[i].pc) == 13)
  {
    hide Next, RegInv, StoreInv, AgentOk, SlotAfter, RegAfter, StoreAfter, Rank, SlotInv;
    LastRank(s.agents[i].pc);
    if e.Act? && e.i == i {
      RankGrows(s.agents[i], s, e.ok);
    }
  }

  lemma OwnerNotOver(s: State, i: nat)
    requires Inv(s) && i < |s.agents| && Rank(s.agents[i].pc) == 13
    ensures s.slot.owner != Some(i)
  {
    hide RegInv, StoreInv, AgentOk, Rank;
    LastRank(s.agents[i].pc);
  }

  /** However the other agents are interleaved, thirteen turns bring an agent to its end, and an
      owner that has reached its end has freed the slot. */
  lemma {:induction false} TurnsAdvance(s: State, es: seq<Event>, i: nat)
    requires Inv(s) && i < |s.agents|
    ensures var t := Run(s, es);
            && i < |t.agents|
            && (Rank(s.agents[i].pc) + Turns(es, i) <= Rank(t.agents[i].pc) || Rank(t.agents[i].pc) == 13)
            && (Rank(t.agents[i].pc) == 13 ==> t.slot.owner != Some(i))
    decreases |es|
  {
    hide Step, Inv, Rank;
    if es == [] {
      if Rank(s.agents[i].pc) == 13 {
        OwnerNotOver(s, i);
      }
    } else {
      var t := Step(s, es[0]);
      StepKeeps(s, es[0]);
      OneTurnRanks(s, es[0], i);
      TurnsAdvance(t, es[1..], i);
      LastRank(Run(s, es).agents[i].pc);
    }
  }

  lemma SlotIsFreed(before: seq<Event>, es: seq<Event>, i: nat)
    requires Run(START, before).slot.owner == Some(i) && 13 <= Turns(es, i)
    ensures Run(Run(START, before), es).slot.owner != Some(i)
  {
    hide Run, Turns, RegInv, StoreInv, AgentsOk;
    StartInv();
    RunKeeps(START, before);
    TurnsAdvance(Run(START, before), es, i);
  }

  // ---------- both conditions are needed ----------

  lemma {:induction false} RunSnoc(s: State, es: seq<Event>, e: Event)
    ensures Run(s, es + [e]) == Step(Run(s, es), e)
    decreases |es|
  {
    hide Step;
    if es == [] {
      assert [e][1..] == [];
      assert es + [e] == [e];
    } else {
      assert (es + [e])[1..] == es[1..] + [e];
      RunSnoc(Step(s, es[0]), es[1..], e);
    }
  }

  /** The statements of a refresh that gets its events object, its memory and its timer. */
  function Onward(pc: Pc, stale: bool): Pc {
    match pc
    case Captured => Ready
    case Ready => Won
    case Won => Held
    case Held => Allocated
    case Allocated => TimerMade
    case TimerMade => Armed
    case Armed => Running
    case Running => if stale then Passed else Waking
    case Waking => Passed
    case Passed => Released
    case Released => Closed
    case Closed => Clearing
    case _ => Over
  }

  predicate OnPath(pc: Pc, stale: bool) {
    && pc != Lost && pc != Empty && pc != NoContext && pc != NoTimer && pc != NoTimerReleased && pc != Early
    && (stale ==> pc != Waking)
  }

  /** Agent 0, whose generation was read after `since` increments, is at `pc` and owns the slot from
      its exchange to its end; it is stale if one session end has come since. */
  predicate First(s: State, pc: Pc, woke: bool, since: nat, stale: bool) {
    && 1 <= |s.agents| && s.bumps == since + (if stale then 1 else 0) && s.reg.events == Some(7)
    && s.slot == (if Owning(pc) then Slot(true, Some(0)) else Slot(false, None))
    && var a := s.agents[0];
    && a.pc == pc && a.since == since && a.generation == Session.Generation(since) && a.woke == woke
    && (Rank(Held) <= Rank(pc) ==> a.ev == Some(7))
  }

  lemma SmallGenerations(since: nat)
    requires since < 1000
    ensures Session.Generation(since) == since + 1 && Session.Generation(since + 1) == since + 2
  {
  }

  /** The agent's own part of its turn. */
  lemma FirstGoesOn(a: Agent, s: State, woke: bool, since: nat, stale: bool)
    requires a.since == since && a.generation == Session.Generation(since) && a.woke == woke && OnPath(a.pc, stale)
             && a.pc != Over
    requires s.bumps == since + (if stale then 1 else 0) && s.reg.events == Some(7) && since < 1000
    requires a.pc == Ready ==> !s.slot.pending
    requires Rank(Held) <= Rank(a.pc) ==> a.ev == Some(7)
    ensures var b := Next(a, s, true);
            && b.pc == Onward(a.pc, stale) && b.since == since && b.generation == Session.Generation(since)
            && b.woke == (woke || a.pc == Waking) && (Rank(Held) <= Rank(b.pc) ==> b.ev == Some(7))
  {
    hide Session.Generation;
    SmallGenerations(since);
  }

  lemma EventsKept(reg: Registry, a: Agent)
    ensures RegAfter(reg, a).events == reg.events
  {
  }

  lemma OwnerEnds(pc: Pc, stale: bool)
    requires OnPath(pc, stale) && pc != Over
    ensures Owning(Onward(pc, stale)) <==> pc != Captured && pc != Clearing
    ensures pc == Captured ==> Onward(pc, stale) == Ready
    ensures pc == Clearing ==> Onward(pc, stale) == Over
  {
  }

  lemma FirstTurn(s: State, pc: Pc, woke: bool, since: nat, stale: bool)
    requires First(s, pc, woke, since, stale) && since < 1000 && OnPath(pc, stale) && pc != Over
    ensures var t := Step(s, Act(0, true));
            && First(t, Onward(pc, stale), woke || pc == Waking, since, stale)
            && |t.agents| == |s.agents| && forall j | 1 <= j < |s.agents| :: t.agents[j] == s.agents[j]
  {
    hide Session.Generation, StoreAfter, RegAfter, Next, Rank, Onward;
    FirstGoesOn(s.agents[0], s, woke, since, stale);
    EventsKept(s.reg, s.agents[0]);
    OwnerEnds(pc, stale);
  }

  /** A run of turns of one agent, every allocation working out. */
  predicate TurnsOnly(es: seq<Event>) { forall k | 0 <= k < |es| :: es[k] == Act(0, true) }

  lemma OneRung(pc: Pc, goal: Pc, stale: bool)
    requires OnPath(pc, stale) && OnPath(goal, stale) && pc != goal && Rank(pc) <= Rank(goal)
    ensures pc != Over && OnPath(Onward(pc, stale), stale) && Rank(pc) < Rank(Onward(pc, stale)) <= Rank(goal)
    ensures pc == Waking ==> !stale
    ensures Rank(pc) <= Rank(Waking) ==> pc == Waking || Rank(Onward(pc, stale)) <= Rank(Waking) || stale
    ensures pc == Waking ==> Rank(Waking) < Rank(goal)
  {
  }

  /** Agent 0 runs on from `pc` to `goal`. */
  lemma {:induction false} Drive(s: State, es: seq<Event>, pc: Pc, woke: bool, since: nat, stale: bool, goal: Pc)
    returns (fs: seq<Event>)
    requires First(Run(s, es), pc, woke, since, stale) && since < 1000 && OnPath(pc, stale) && OnPath(goal, stale)
    requires Rank(pc) <= Rank(goal) && TurnsOnly(es)
    ensures var u, t := Run(s, es), Run(s, fs);
            && First(t, goal, woke || (Rank(pc) <= Rank(Waking) < Rank(goal) && !stale), since, stale)
            && |t.agents| == |u.agents| && forall j | 1 <= j < |u.agents| :: t.agents[j] == u.agents[j]
    ensures TurnsOnly(fs)
    decreases Rank(goal) - Rank(pc)
  {
    hide Run, Step, First;
    fs := es;
    if pc != goal {
      OneRung(pc, goal, stale);
      FirstTurn(Run(s, es), pc, woke, since, stale);
      RunSnoc(s, es, Act(0, true));
      fs := Drive(s, es + [Act(0, true)], Onward(pc, stale), woke || pc == Waking, since, stale, goal);
    }
  }

  lemma TwoSteps(s: State, e: Event, f: Event)
    ensures Run(s, [e, f]) == Step(Step(s, e), f)
  {
    hide Step;
    var t := Step(s, e);
    assert [e, f][1..] == [f] && [f][1..] == [];
    assert Run(t, [f]) == Run(Step(t, f), []);
    assert Run(s, [e, f]) == Run(t, [f]);
  }

  lemma {:induction false} RunOn(s: State, es: seq<Event>, fs: seq<Event>)
    ensures Run(s, es + fs) == Run(Run(s, es), fs)
    decreases |es|
  {
    hide Step;
    if es == [] {
      assert es + fs == fs;
    } else {
      assert (es + fs)[1..] == es[1..] + fs;
      RunOn(Step(s, es[0]), es[1..], fs);
    }
  }

  lemma RunNil(s: State)
    ensures Run(s, []) == s
  {
  }

  /** A run that leaves agent 0 at `goal`, with no session ended. */
  lemma Bring(goal: Pc) returns (es: seq<Event>)
    requires OnPath(goal, false)
    ensures First(Run(START, es), goal, Rank(Waking) < Rank(goal), 0, false) && |Run(START, es).agents| == 1
  {
    hide Run, Session.Generation;
    SmallGenerations(0);
    var s := Step(Step(START, SetEvents(Some(7), 0)), Begin);
    TwoSteps(START, SetEvents(Some(7), 0), Begin);
    RunNil(s);
    var fs := Drive(s, [], Captured, false, 0, false, goal);
    es := [SetEvents(Some(7), 0), Begin] + fs;
    RunOn(START, [SetEvents(Some(7), 0), Begin], fs);
  }

  lemma OneMore(s: State, pc: Pc, woke: bool, since: nat, stale: bool)
    requires First(s, pc, woke, since, stale) && |s.agents| == 1
    ensures var t := Step(s, Begin);
            && First(t, pc, woke, since, stale) && |t.agents| == 2 && t.agents[1].pc == Captured && !t.agents[1].woke
            && t.agents[1].generation == Session.Generation(t.bumps) && t.bumps == s.bumps
  {
    hide Session.Generation, Rank;
  }

  /** The second agent reads the generation again if it has to, and then finds the slot taken. */
  lemma SecondTurn(s: State, pc: Pc, woke: bool, since: nat, stale: bool)
    requires First(s, pc, woke, since, stale) && Owning(pc) && |s.agents| == 2 && !s.agents[1].woke
    requires s.agents[1].pc == Captured || s.agents[1].pc == Ready
    requires s.agents[1].generation == Session.Generation(s.bumps)
    ensures var t := Step(s, Act(1, true));
            && First(t, pc, woke, since, stale) && |t.agents| == 2 && !t.agents[1].woke && t.bumps == s.bumps
            && t.agents[1].pc == (if s.agents[1].pc == Captured then Ready else Lost)
            && t.agents[1].generation == Session.Generation(t.bumps)
  {
    hide Session.Generation, Rank, StoreAfter;
  }

  lemma FirstOwns(s: State, pc: Pc, woke: bool, since: nat, stale: bool)
    requires First(s, pc, woke, since, stale) && Owning(pc) && |s.agents| == 2 && s.agents[1].pc == Ready
    ensures Beaten(s, 1, 0)
  {
    hide Rank;
  }

  /** Another request comes and finds the slot taken. */
  lemma Challenge(s: State, pc: Pc, woke: bool, since: nat, stale: bool)
    requires First(s, pc, woke, since, stale) && Owning(pc) && |s.agents| == 1
    ensures var u := Step(Step(s, Begin), Act(1, true));
            && Beaten(u, 1, 0) && First(u, pc, woke, since, stale) && |u.agents| == 2
            && u.agents[1].generation == Session.Generation(u.bumps) && !u.agents[1].woke
            && var v := Step(u, Act(1, true));
            && First(v, pc, woke, since, stale) && |v.agents| == 2 && v.agents[1].pc == Lost && !v.agents[1].woke
  {
    hide Step, First;
    var b := Step(s, Begin);
    OneMore(s, pc, woke, since, stale);
    SecondTurn(b, pc, woke, since, stale);
    SecondTurn(Step(b, Act(1, true)), pc, woke, since, stale);
    FirstOwns(Step(b, Act(1, true)), pc, woke, since, stale);
  }

  lemma Landmarks()
    ensures Rank(Armed) <= Rank(Waking) < Rank(Passed) <= Rank(Over) && Owning(Armed) && Owning(Passed)
  {
  }

  lemma FirstOver(s: State, woke: bool, since: nat, stale: bool)
    requires First(s, Over, woke, since, stale)
    ensures s.agents[0].pc == Over && s.agents[0].woke == woke && !s.slot.pending
            && s.bumps == since + (if stale then 1 else 0)
  {
  }

  lemma FirstAt(s: State, pc: Pc, woke: bool, since: nat, stale: bool)
    requires First(s, pc, woke, since, stale)
    ensures 1 <= |s.agents| && s.agents[0].pc == pc && s.agents[0].woke == woke && s.agents[0].since == since
    ensures s.bumps == since + (if stale then 1 else 0)
  {
  }

  /** The request comes when the owner has called CredentialsChanged but not yet freed the slot:
      no session has ended, and no call follows the request. */
  lemma PassedOwnerLosesRefresh() returns (es: seq<Event>, fs: seq<Event>)
    ensures var s := Run(START, es); var t := Run(Step(s, Act(1, true)), fs);
            && Beaten(s, 1, 0) && s.agents[0].pc == Passed && s.agents[0].woke && t.bumps == 0
            && |t.agents| == 2 && t.agents[0].pc == Over && t.agents[1].pc == Lost && !t.slot.pending
               && !t.agents[1].woke
  {
    hide Run, Session.Generation, Step, Beaten, First, Rank, Owning;
    Landmarks();
    es := Bring(Passed);
    Challenge(Run(START, es), Passed, true, 0, false);
    RunOn(START, es, [Begin, Act(1, true)]);
    TwoSteps(Run(START, es), Begin, Act(1, true));
    es := es + [Begin, Act(1, true)];
    var u := Step(Run(START, es), Act(1, true));
    RunNil(u);
    fs := Drive(u, [], Passed, true, 0, false, Over);
    FirstOver(Run(u, fs), true, 0, false);
    FirstAt(Run(START, es), Passed, true, 0, false);
  }
}
