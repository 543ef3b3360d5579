/** The one-slot refresh timer: any number of requests, the timer's callback, registrations of the
    events object and session ends, interleaved at every interlocked operation.

    An agent is one call of RequestCredentialsChangedAsync together with the callback of the timer
    it may arm; its program counter says which statement comes next. The lock around the events
    pointer makes the statements under it one step. */
module Refresh {
  import opened Options
  import Session

  datatype Pc =
    | Captured                  // the caller has read the generation
    | Ready                     // next: the compare-and-exchange on refreshPending
    | Lost                      // it found the slot taken and returned
    | Won                       // next: read the events pointer and take a reference
    | Empty                     // no events: next, free the slot
    | Held                      // next: allocate the context
    | NoContext                 // next: release the reference
    | Allocated                 // next: create the timer
    | NoTimer                   // next: release the reference
    | NoTimerReleased           // next: delete the context
    | TimerMade                 // next: arm it
    | Armed                     // next: the callback starts and tests its context
    | Early                     // the callback's early return: next, free the slot
    | Running                   // next: compare generations
    | Waking                    // next: CredentialsChanged
    | Passed                    // next: release the reference
    | Released                  // next: close the timer
    | Closed                    // next: delete the context
    | Clearing                  // next: free the slot
    | Over

  /** `captured`, `since` and `seen` are the increments made when the caller read the generation, when
      it was last read before the exchange, and when it was compared, counted without wrap-around. */
  datatype Agent = Agent(
    pc: Pc, captured: nat, since: nat, generation: Session.Long,
    ev: Option<nat>, context: nat, block: nat, seen: Option<nat>, woke: bool)

  datatype Slot = Slot(pending: bool, owner: Option<nat>)

  /** The registered events object, and every reference the provider holds on any such object. */
  datatype Registry = Registry(events: Option<nat>, context: nat, refs: multiset<nat>)

  datatype Store = Store(heap: set<nat>, timers: set<nat>, made: nat, freed: nat)

  datatype State = State(slot: Slot, agents: seq<Agent>, reg: Registry, store: Store, bumps: nat)

  const START := State(Slot(false, None), [], Registry(None, 0, multiset{}), Store({}, {}, 0, 0), 0)

  datatype Event = Begin | Act(i: nat, ok: bool) | SetEvents(ev: Option<nat>, context: nat) | ClearEvents | SessionEnd

  // ---------- steps ----------

  function Refs(ev: Option<nat>): multiset<nat> { if ev == None then multiset{} else multiset{ev.value} }

  /** The statement an agent comes to; `ok` is how an allocation or a timer creation turns out. */
  function NextPc(a: Agent, s: State, ok: bool): Pc {
    match a.pc
    case Captured => Ready
    case Ready => if s.slot.pending then Lost else Won
    case Won => if s.reg.events == None then Empty else Held
    case Held => if ok then Allocated else NoContext
    case NoContext => Clearing
    case Allocated => if ok then TimerMade else NoTimer
    case NoTimer => NoTimerReleased
    case NoTimerReleased => Clearing
    case TimerMade => Armed
    case Armed => if a.ev == None then Early else Running
    case Running => if a.generation == Session.Generation(s.bumps) then Waking else Passed
    case Waking => Passed
    case Passed => Released
    case Released => Closed
    case Closed => Clearing
    case Empty | Early | Clearing => Over
    case Lost => Lost
    case Over => Over
  }

  function Next(a: Agent, s: State, ok: bool): Agent {
    var b := a.(pc := NextPc(a, s, ok));
    if a.pc == Captured && a.generation <= 0 then b.(since := s.bumps, generation := Session.Generation(s.bumps))
    else if a.pc == Won then b.(ev := s.reg.events, context := s.reg.context)
    else if a.pc == Held && ok then b.(block := s.store.made)
    else if a.pc == Running then b.(seen := Some(s.bumps))
    else if a.pc == Waking then b.(woke := true)
    else b
  }

  function SlotAfter(slot: Slot, pc: Pc, i: nat): Slot {
    if pc == Ready && !slot.pending then Slot(true, Some(i))
    else if pc == Empty || pc == Early || pc == Clearing then Slot(false, None)
    else slot
  }

  function RegAfter(reg: Registry, a: Agent): Registry {
    if a.pc == Won then reg.(refs := reg.refs + Refs(reg.events))
    else if a.pc == NoContext || a.pc == NoTimer || a.pc == Passed then reg.(refs := reg.refs - Refs(a.ev))
    else reg
  }

  function StoreAfter(store: Store, a: Agent, ok: bool): Store {
    if a.pc == Held && ok then store.(heap := store.heap + {store.made}, made := store.made + 1)
    else if a.pc == Allocated && ok then store.(timers := store.timers + {a.block})
    else if a.pc == Released then store.(timers := store.timers - {a.block})
    else if a.pc == NoTimerReleased || a.pc == Closed then
      store.(heap := store.heap - {a.block}, freed := store.freed + 1)
    else store
  }

  function Step(s: State, e: Event): State {
    match e
    case Begin =>
      s.(agents := s.agents + [Agent(Captured, s.bumps, s.bumps, Session.Generation(s.bumps), None, 0, 0, None, false)])
    case Act(i, ok) =>
      if i >= |s.agents| then s
      else
        var a := s.agents[i];
        State(SlotAfter(s.slot, a.pc, i), s.agents[i := Next(a, s, ok)],
              RegAfter(s.reg, a), StoreAfter(s.store, a, ok), s.bumps)
    case SetEvents(ev, context) => s.(reg := Registry(ev, context, s.reg.refs - Refs(s.reg.events) + Refs(ev)))
    case ClearEvents => s.(reg := Registry(None, 0, s.reg.refs - Refs(s.reg.events)))
    case SessionEnd => s.(bumps := s.bumps + 1)
  }

  function Run(s: State, es: seq<Event>): State
    decreases |es|
  {
    if es == [] then s else Run(Step(s, es[0]), es[1..])
  }

  // ---------- the invariant ----------

  /** From its successful exchange to the store that frees the slot. */
  predicate Owning(pc: Pc) { pc != Captured && pc != Ready && pc != Lost && pc != Over }

  predicate HoldsRef(pc: Pc) {
    match pc
    case Held | NoContext | Allocated | NoTimer | TimerMade | Armed | Running | Waking | Passed => true
    case _ => false
  }

  predicate HoldsBlock(pc: Pc) {
    match pc
    case Allocated | NoTimer | NoTimerReleased | TimerMade => true
    case Armed | Running | Waking | Passed | Released | Closed => true
    case _ => false
  }

  predicate HoldsTimer(pc: Pc) {
    match pc
    case TimerMade | Armed | Running | Waking | Passed | Released => true
    case _ => false
  }

  predicate BeforeCheck(pc: Pc) {
    match pc
    case Captured | Ready | Lost | Won | Empty | Held | NoContext => true
    case Allocated | NoTimer | NoTimerReleased | TimerMade | Armed | Early | Running => true
    case _ => false
  }

  /** The two counts give the same 32-bit generation. */
  predicate SameGeneration(since: nat, seen: nat) { (seen - since) % 0x1_0000_0000 == 0 }

  predicate AgentOk(a: Agent, bumps: nat) {
    && a.captured <= a.since <= bumps && a.generation == Session.Generation(a.since)
    && (a.pc == Captured || Session.Generation(a.captured) > 0 ==> a.since == a.captured)
    && a.pc != Early && (HoldsRef(a.pc) ==> a.ev.Some?)
    && (BeforeCheck(a.pc) ==> a.seen == None)
    && (a.pc == Waking || a.pc == Passed || a.pc == Released || a.pc == Closed ==> a.seen.Some?)
    && (a.seen == None ==> !a.woke)
    && (a.seen.Some? ==>
          && a.since <= a.seen.value <= bumps
          && (if a.pc == Waking then !a.woke && SameGeneration(a.since, a.seen.value)
              else (a.woke <==> SameGeneration(a.since, a.seen.value))))
  }

  predicate SlotInv(slot: Slot, agents: seq<Agent>) {
    && (slot.pending <==> slot.owner.Some?)
    && (slot.owner.Some? ==> slot.owner.value < |agents| && Owning(agents[slot.owner.value].pc))
    && (forall j | 0 <= j < |agents| :: Owning(agents[j].pc) ==> slot.owner == Some(j))
  }

  /** What an agent has to give back. */
  datatype Holding = Holding(refs: multiset<nat>, blocks: set<nat>, timers: set<nat>)

  const NOTHING := Holding(multiset{}, {}, {})

  function Holds(a: Agent): Holding {
    Holding(if HoldsRef(a.pc) then Refs(a.ev) else multiset{},
            if HoldsBlock(a.pc) then {a.block} else {},
            if HoldsTimer(a.pc) then {a.block} else {})
  }

  function OwnerHolds(slot: Slot, agents: seq<Agent>): Holding {
    if slot.owner.Some? && slot.owner.value < |agents| then Holds(agents[slot.owner.value]) else NOTHING
  }

  predicate RegInv(reg: Registry, h: Holding) { reg.refs == Refs(reg.events) + h.refs }

  predicate StoreInv(store: Store, h: Holding) {
    && store.heap == h.blocks && store.timers == h.timers
    && store.made == store.freed + |store.heap|
    && forall b | b in store.heap :: b < store.made
  }

  predicate AgentsOk(agents: seq<Agent>, bumps: nat) { forall j | 0 <= j < |agents| :: AgentOk(agents[j], bumps) }

  predicate Inv(s: State) {
    var h := OwnerHolds(s.slot, s.agents);
    SlotInv(s.slot, s.agents) && RegInv(s.reg, h) && StoreInv(s.store, h) && AgentsOk(s.agents, s.bumps)
  }

  lemma GenerationSame(since: nat, seen: nat)
    ensures Session.Generation(since) == Session.Generation(seen) <==> SameGeneration(since, seen)
  {
  }

  lemma ComparedOk(a: Agent, s: State, ok: bool)
    requires AgentOk(a, s.bumps) && a.pc == Running
    ensures AgentOk(Next(a, s, ok), s.bumps)
  {
    hide Session.Generation, SameGeneration;
    GenerationSame(a.since, s.bumps);
  }

  /** Where the other statements lead, as far as a comparison goes. */
  lemma UncomparedPc(a: Agent, s: State, ok: bool)
    requires a.pc != Running && a.pc != Early && (HoldsRef(a.pc) ==> a.ev.Some?)
    ensures var q := NextPc(a, s, ok);
            && q != Early && q != Captured && q != Waking
            && (HoldsRef(q) ==> if a.pc == Won then s.reg.events.Some? else a.ev.Some?)
            && (q == Passed || q == Released || q == Closed ==> a.pc == Waking || a.pc == Passed || a.pc == Released)
            && (BeforeCheck(q) ==> BeforeCheck(a.pc))
  {
    hide Session.Generation;
  }

  lemma NextOk(a: Agent, s: State, ok: bool)
    requires AgentOk(a, s.bumps)
    ensures AgentOk(Next(a, s, ok), s.bumps)
  {
    hide Session.Generation, SameGeneration, NextPc;
    if a.pc == Running {
      ComparedOk(a, s, ok);
    } else {
      UncomparedPc(a, s, ok);
    }
  }

  lemma OlderOk(a: Agent, bumps: nat)
    requires AgentOk(a, bumps)
    ensures AgentOk(a, bumps + 1)
  {
    hide Session.Generation, SameGeneration;
  }

  predicate LetsRefGo(pc: Pc) { pc == NoContext || pc == NoTimer || pc == Passed }

  predicate LetsBlockGo(pc: Pc) { pc == NoTimerReleased || pc == Closed }

  predicate LetsSlotGo(pc: Pc) { pc == Empty || pc == Early || pc == Clearing }

  lemma PcMoves(a: Agent, s: State, ok: bool)
    requires HoldsRef(a.pc) ==> a.ev.Some?
    ensures var q := NextPc(a, s, ok);
            && (Owning(q) <==> (a.pc == Ready && !s.slot.pending) || (Owning(a.pc) && !LetsSlotGo(a.pc)))
            && (HoldsRef(q) <==> (a.pc == Won && s.reg.events.Some?) || (HoldsRef(a.pc) && !LetsRefGo(a.pc)))
            && (HoldsBlock(q) <==> (a.pc == Held && ok) || (HoldsBlock(a.pc) && !LetsBlockGo(a.pc)))
            && (HoldsTimer(q) <==> (a.pc == Allocated && ok) || (HoldsTimer(a.pc) && a.pc != Released))
  {
    hide Session.Generation;
  }

  lemma PcRoles(pc: Pc)
    ensures LetsSlotGo(pc) ==> Owning(pc)
    ensures LetsRefGo(pc) ==> HoldsRef(pc)
    ensures LetsBlockGo(pc) ==> HoldsBlock(pc)
    ensures pc == Released ==> HoldsTimer(pc)
    ensures HoldsRef(pc) || HoldsBlock(pc) || HoldsTimer(pc) ==> Owning(pc)
    ensures pc == Ready ==> !Owning(pc)
    ensures pc == Won ==> Owning(pc) && !HoldsRef(pc)
    ensures pc == Held ==> Owning(pc) && !HoldsBlock(pc) && !HoldsTimer(pc)
    ensures pc == Allocated ==> Owning(pc) && HoldsBlock(pc) && !HoldsTimer(pc)
  {
  }

  lemma NextHasPc(a: Agent, s: State, ok: bool)
    ensures Next(a, s, ok).pc == NextPc(a, s, ok)
  {
    hide NextPc;
  }

  lemma HoldersHaveEvents(a: Agent, bumps: nat)
    requires AgentOk(a, bumps)
    ensures HoldsRef(a.pc) ==> a.ev.Some?
  {
  }

  lemma SlotMoves(slot: Slot, agents: seq<Agent>, i: nat, b: Agent)
    requires SlotInv(slot, agents) && i < |agents|
    requires var pc := agents[i].pc;
             && (Owning(b.pc) <==> (pc == Ready && !slot.pending) || (Owning(pc) && !LetsSlotGo(pc)))
             && (LetsSlotGo(pc) ==> Owning(pc)) && (pc == Ready ==> !Owning(pc))
    ensures SlotInv(SlotAfter(slot, agents[i].pc, i), agents[i := b])
  {
    hide Owning;
    var t := agents[i := b];
    var after := SlotAfter(slot, agents[i].pc, i);
    forall k | 0 <= k < |t| && Owning(t[k].pc) ensures after.owner == Some(k) {
      if k != i {
        assert t[k] == agents[k];
      }
    }
  }

  /** Only the slot's owner, or the agent that takes a free slot, changes anything but itself. */
  lemma SlotKeeps(s: State, i: nat, ok: bool)
    requires SlotInv(s.slot, s.agents) && i < |s.agents| && AgentOk(s.agents[i], s.bumps)
    ensures var t := Step(s, Act(i, ok)); SlotInv(t.slot, t.agents)
  {
    hide Next, NextPc, Owning, RegAfter, StoreAfter, AgentOk, HoldsRef, HoldsBlock, HoldsTimer, SlotInv, SlotAfter;
    hide LetsSlotGo, LetsRefGo, LetsBlockGo;
    var a := s.agents[i];
    HoldersHaveEvents(a, s.bumps);
    PcMoves(a, s, ok);
    PcRoles(a.pc);
    NextHasPc(a, s, ok);
    SlotMoves(s.slot, s.agents, i, Next(a, s, ok));
  }

  lemma HoldsNothing(a: Agent)
    requires !Owning(a.pc)
    ensures Holds(a) == NOTHING
  {
    hide Owning, HoldsRef, HoldsBlock, HoldsTimer, Refs;
    PcRoles(a.pc);
  }

  lemma OthersTouchNothing(s: State, i: nat, ok: bool)
    requires SlotInv(s.slot, s.agents) && i < |s.agents| && AgentOk(s.agents[i], s.bumps)
    ensures var a := s.agents[i]; var t := Step(s, Act(i, ok)); var b := t.agents[i];
            && (Owning(a.pc) || Owning(b.pc) ==>
                  OwnerHolds(s.slot, s.agents) == Holds(a) && OwnerHolds(t.slot, t.agents) == Holds(b))
            && (!Owning(a.pc) && !Owning(b.pc) ==>
                  OwnerHolds(t.slot, t.agents) == OwnerHolds(s.slot, s.agents) && t.reg == s.reg && t.store == s.store)
  {
    hide NextPc, Owning, Session.Generation, SameGeneration, Holds, AgentOk;
    var a := s.agents[i];
    HoldersHaveEvents(a, s.bumps);
    PcMoves(a, s, ok);
    PcRoles(a.pc);
    if !Owning(a.pc) {
      HoldsNothing(a);
    }
    if !Owning(NextPc(a, s, ok)) {
      HoldsNothing(Next(a, s, ok));
    }
  }

  lemma HeldRefs(a: Agent, s: State, ok: bool)
    requires AgentOk(a, s.bumps)
    ensures Holds(Next(a, s, ok)).refs ==
            if a.pc == Won then Refs(s.reg.events) else if LetsRefGo(a.pc) then multiset{} else Holds(a).refs
    ensures a.pc == Won ==> Holds(a).refs == multiset{}
    ensures LetsRefGo(a.pc) ==> Holds(a).refs == Refs(a.ev)
  {
    hide NextPc, Owning, HoldsRef, HoldsBlock, HoldsTimer, Session.Generation, SameGeneration;
    PcMoves(a, s, ok);
    PcRoles(a.pc);
  }

  lemma HeldBlocks(a: Agent, s: State, ok: bool)
    requires AgentOk(a, s.bumps)
    ensures var h, k := Holds(a), Holds(Next(a, s, ok));
            && k.blocks == (if a.pc == Held && ok then {s.store.made} else if LetsBlockGo(a.pc) then {} else h.blocks)
            && k.timers == (if a.pc == Allocated && ok then {a.block} else if a.pc == Released then {} else h.timers)
            && (a.pc == Held ==> h.blocks == {}) && (LetsBlockGo(a.pc) ==> h.blocks == {a.block})
            && (a.pc == Allocated ==> h.timers == {}) && (a.pc == Released ==> h.timers == {a.block})
  {
    hide NextPc, Owning, HoldsRef, HoldsBlock, HoldsTimer, Session.Generation, SameGeneration, AgentOk, Refs;
    assert HoldsRef(a.pc) ==> a.ev.Some? by { HoldersHaveEvents(a, s.bumps); }
    PcMoves(a, s, ok);
    PcRoles(a.pc);
  }

  lemma RefsMove(a: Agent, s: State, ok: bool)
    requires AgentOk(a, s.bumps) && RegInv(s.reg, Holds(a))
    ensures RegInv(RegAfter(s.reg, a), Holds(Next(a, s, ok)))
  {
    hide Next, Holds, AgentOk, Refs;
    HeldRefs(a, s, ok);
  }

  lemma BlockMade(store: Store, h: Holding, k: Holding)
    requires StoreInv(store, h) && h.blocks == {} && k.blocks == {store.made} && k.timers == h.timers
    ensures StoreInv(store.(heap := store.heap + {store.made}, made := store.made + 1), k)
  {
    assert store.heap + {store.made} == {store.made};
  }

  lemma BlockFreed(store: Store, h: Holding, k: Holding, b: nat)
    requires StoreInv(store, h) && h.blocks == {b} && k.blocks == {} && k.timers == h.timers
    ensures StoreInv(store.(heap := store.heap - {b}, freed := store.freed + 1), k)
  {
    assert store.heap - {b} == {};
  }

  lemma SameTimers(store: Store, h: Holding)
    requires StoreInv(store, h)
    ensures store.timers == h.timers
  {
  }

  lemma TimersMoved(store: Store, h: Holding, k: Holding)
    requires StoreInv(store, h) && k.blocks == h.blocks
    ensures StoreInv(store.(timers := k.timers), k)
  {
  }

  lemma BlocksMove(a: Agent, s: State, ok: bool)
    requires AgentOk(a, s.bumps) && StoreInv(s.store, Holds(a))
    ensures StoreInv(StoreAfter(s.store, a, ok), Holds(Next(a, s, ok)))
  {
    hide Next, Holds, AgentOk, StoreInv;
    HeldBlocks(a, s, ok);
    var h, k := Holds(a), Holds(Next(a, s, ok));
    if a.pc == Held && ok {
      BlockMade(s.store, h, k);
    } else if LetsBlockGo(a.pc) {
      BlockFreed(s.store, h, k, a.block);
    } else {
      TimersMoved(s.store, h, k);
      SameTimers(s.store, h);
      assert StoreAfter(s.store, a, ok) == s.store.(timers := k.timers);
    }
  }

  lemma ActKeeps(s: State, i: nat, ok: bool)
    requires Inv(s) && i < |s.agents|
    ensures Inv(Step(s, Act(i, ok)))
  {
    hide SlotInv, RegInv, StoreInv, AgentOk, Next, SlotAfter, RegAfter, StoreAfter, OwnerHolds, Holds, Owning;
    var a := s.agents[i];
    SlotKeeps(s, i, ok);
    OthersTouchNothing(s, i, ok);
    if Owning(a.pc) || Owning(Next(a, s, ok).pc) {
      RefsMove(a, s, ok);
      BlocksMove(a, s, ok);
    }
    NextOk(a, s, ok);
  }

  lemma FreshOk(bumps: nat)
    ensures AgentOk(Agent(Captured, bumps, bumps, Session.Generation(bumps), None, 0, 0, None, false), bumps)
  {
  }

  lemma BeginKeeps(s: State)
    requires Inv(s)
    ensures Inv(Step(s, Begin))
  {
    hide Session.Generation, AgentOk, RegInv, StoreInv, Holds;
    FreshOk(s.bumps);
  }

  lemma NoRefs()
    ensures Refs(None) == multiset{}
  {
  }

  lemma RefsReplaced(refs: multiset<nat>, old': multiset<nat>, held: multiset<nat>, new': multiset<nat>)
    requires refs == old' + held
    ensures refs - old' + new' == new' + held
  {
  }

  lemma RegisterKeeps(s: State, ev: Option<nat>, context: nat)
    requires Inv(s)
    ensures Inv(Step(s, SetEvents(ev, context))) && Inv(Step(s, ClearEvents))
  {
    hide SlotInv, StoreInv, AgentsOk, OwnerHolds, Refs;
    var h := OwnerHolds(s.slot, s.agents);
    RefsReplaced(s.reg.refs, Refs(s.reg.events), h.refs, Refs(ev));
    RefsReplaced(s.reg.refs, Refs(s.reg.events), h.refs, Refs(None));
    assert Refs(None) == multiset{} by { NoRefs(); }
  }

  lemma EndKeeps(s: State)
    requires Inv(s)
    ensures Inv(Step(s, SessionEnd))
  {
    hide SlotInv, StoreInv, RegInv, AgentOk, OwnerHolds;
    forall j | 0 <= j < |s.agents| ensures AgentOk(s.agents[j], s.bumps + 1) { OlderOk(s.agents[j], s.bumps); }
  }

  lemma StepKeeps(s: State, e: Event)
    requires Inv(s)
    ensures Inv(Step(s, e))
  {
    hide Inv;
    match e
    case Begin => BeginKeeps(s);
    case Act(i, ok) => if i < |s.agents| { ActKeeps(s, i, ok); }
    case SetEvents(ev, context) => RegisterKeeps(s, ev, context);
    case ClearEvents => RegisterKeeps(s, None, 0);
    case SessionEnd => EndKeeps(s);
  }

  lemma {:induction false} RunKeeps(s: State, es: seq<Event>)
    requires Inv(s)
    ensures Inv(Run(s, es))
    decreases |es|
  {
    hide Inv, Step;
    if es != [] {
      StepKeeps(s, es[0]);
      RunKeeps(Step(s, es[0]), es[1..]);
    }
  }
}
