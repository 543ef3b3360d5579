/** What a refresh calls with: the object and the context a single registration set together, and the
    generation its caller read, read again just when that was not positive. */
module RefreshPairs {
  import opened Options
  import Session
  import opened Refresh

  /** The registration now in force was made by an event of the run, or there is none. */
  predicate Registered(reg: Registry, es: seq<Event>) {
    reg.events.Some? ==> SetEvents(reg.events, reg.context) in es
  }

  predicate PairOf(a: Agent, es: seq<Event>) { a.ev.Some? ==> SetEvents(a.ev, a.context) in es }

  predicate PairsOf(s: State, es: seq<Event>) {
    Registered(s.reg, es) && forall i | 0 <= i < |s.agents| :: PairOf(s.agents[i], es)
  }

  lemma ActTakesPair(s: State, i: nat, ok: bool, es: seq<Event>)
    requires PairsOf(s, es) && i < |s.agents|
    ensures PairOf(Next(s.agents[i], s, ok), es)
    ensures Registered(RegAfter(s.reg, s.agents[i]), es)
  {
    hide NextPc, Session.Generation;
    assert PairOf(s.agents[i], es);
  }

  lemma StepKeepsPairs(s: State, e: Event, es: seq<Event>)
    requires PairsOf(s, es)
    ensures PairsOf(Step(s, e), es + [e])
  {
    hide Next, NextPc, Session.Generation, RegAfter, SlotAfter, StoreAfter;
    var t := Step(s, e);
    assert forall x | x in es :: x in es + [e];
    if e.Act? && e.i < |s.agents| {
      ActTakesPair(s, e.i, e.ok, es);
    }
    forall i | 0 <= i < |t.agents| ensures PairOf(t.agents[i], es + [e]) {
      if i < |s.agents| && !(e.Act? && e.i == i) {
        assert t.agents[i] == s.agents[i];
        assert PairOf(s.agents[i], es);
      }
    }
  }

  lemma {:induction false} RunKeepsPairs(s: State, before: seq<Event>, es: seq<Event>)
    requires PairsOf(s, before)
    ensures PairsOf(Run(s, es), before + es)
    decreases |es|
  {
    hide Step, PairsOf;
    if es == [] {
      assert before + es == before;
    } else {
      StepKeepsPairs(s, es[0], before);
      RunKeepsPairs(Step(s, es[0]), before + [es[0]], es[1..]);
      assert before + [es[0]] + es[1..] == before + es;
    }
  }

  /** On every interleaving, a refresh that holds an events object holds it with the context of one and the
      same registration made earlier in the run: never the object of one and the context of another. */
  lemma CallsWithOnePair(es: seq<Event>, i: nat)
    requires i < |Run(START, es).agents|
    ensures var a := Run(START, es).agents[i]; a.ev.Some? ==> SetEvents(a.ev, a.context) in es
  {
    hide Run;
    RunKeepsPairs(START, [], es);
    assert [] + es == es;
  }

  lemma RegisterSets(s: State, ev: Option<nat>, context: nat)
    ensures var t := Step(s, SetEvents(ev, context)); t.reg.events == ev && t.reg.context == context
  {
  }

  lemma {:induction false} RunLast(s: State, es: seq<Event>, e: Event)
    ensures Run(s, es + [e]) == Step(Run(s, es), e)
    decreases |es|
  {
    hide Step;
    if es == [] {
      assert es + [e] == [e] && [e][1..] == [];
      assert Run(Step(s, e), []) == Step(s, e);
    } else {
      assert (es + [e])[0] == es[0] && (es + [e])[1..] == es[1..] + [e];
      RunLast(Step(s, es[0]), es[1..], e);
    }
  }

  lemma OneKeepsReg(s: State, e: Event)
    requires !e.SetEvents? && !e.ClearEvents?
    ensures Step(s, e).reg.events == s.reg.events && Step(s, e).reg.context == s.reg.context
  {
    hide Next, NextPc, SlotAfter, StoreAfter, Session.Generation;
  }

  lemma {:induction false} RegKept(s: State, fs: seq<Event>)
    requires forall k | 0 <= k < |fs| :: !fs[k].SetEvents? && !fs[k].ClearEvents?
    ensures Run(s, fs).reg.events == s.reg.events && Run(s, fs).reg.context == s.reg.context
    decreases |fs|
  {
    hide Step;
    if fs != [] {
      OneKeepsReg(s, fs[0]);
      RegKept(Step(s, fs[0]), fs[1..]);
    }
  }

  /** The registration in force is the last one made, whole, and nothing after it was cleared. */
  lemma LastRegistration(es: seq<Event>, ev: Option<nat>, context: nat, fs: seq<Event>)
    requires forall k | 0 <= k < |fs| :: !fs[k].SetEvents? && !fs[k].ClearEvents?
    ensures var reg := Run(Run(START, es + [SetEvents(ev, context)]), fs).reg;
            reg.events == ev && reg.context == context
  {
    hide Step;
    RunLast(START, es, SetEvents(ev, context));
    RegisterSets(Run(START, es), ev, context);
    RegKept(Run(START, es + [SetEvents(ev, context)]), fs);
  }

  lemma ClearSets(s: State)
    ensures var t := Step(s, ClearEvents); t.reg.events == None && t.reg.context == 0
  {
  }

  lemma ClearedRegistration(es: seq<Event>, fs: seq<Event>)
    requires forall k | 0 <= k < |fs| :: !fs[k].SetEvents? && !fs[k].ClearEvents?
    ensures var reg := Run(Run(START, es + [ClearEvents]), fs).reg; reg.events == None && reg.context == 0
  {
    hide Step;
    RunLast(START, es, ClearEvents);
    ClearSets(Run(START, es));
    RegKept(Run(START, es + [ClearEvents]), fs);
  }

  /** A request made at one point and taking its first turn at a later one carries the generation of its
      making if that was positive, and otherwise the one of that turn. */
  lemma ReadAgainIff(s: State, i: nat, ok: bool)
    requires i < |s.agents| && AgentOk(s.agents[i], s.bumps) && s.agents[i].pc == Captured
    requires s.agents[i].since == s.agents[i].captured
    ensures var a, b := s.agents[i], Step(s, Act(i, ok)).agents[i];
            && b.captured == a.captured
            && b.since == (if Session.Generation(a.captured) > 0 then a.captured else s.bumps)
            && b.generation == Session.Generation(b.since)
  {
    hide Session.Generation;
  }
}
