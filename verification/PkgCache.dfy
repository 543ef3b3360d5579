/** The write-once cache of an authentication package id: any number of threads, interleaved at the
    two interlocked operations and the lookup between them. */
module PkgCache {
  type Id = v: int | 0 <= v < 0x1_0000_0000

  datatype Thread =
    | Entering             // next: read the slot
    | Looking              // next: ask LSA
    | Swapping(found: Id)  // next: the compare-and-exchange
    | Done(id: Id)
    | Failed

  /** `writes` counts the exchanges that changed the slot. */
  datatype State = State(slot: int, writes: nat, threads: seq<Thread>)

  const START := State(0, 0, [])

  /** `found` is what LSA answers, should the thread ask now; 0 is a failed lookup. */
  datatype Event = Begin | Act(i: nat, found: Id)

  /** The cast of an unsigned 32-bit value to LONG. */
  function AsLong(v: Id): int { if v < 0x8000_0000 then v else v - 0x1_0000_0000 }

  function AsId(slot: int): Id
    requires 0 < slot < 0x8000_0000
  {
    slot
  }

  function Step(s: State, e: Event): State {
    match e
    case Begin => s.(threads := s.threads + [Entering])
    case Act(i, found) =>
      if i >= |s.threads| then s
      else
        match s.threads[i]
        case Entering => s.(threads := s.threads[i := if 0 < s.slot < 0x8000_0000 then Done(AsId(s.slot)) else Looking])
        case Looking => s.(threads := s.threads[i := if found == 0 then Failed else Swapping(found)])
        case Swapping(v) =>
          State(if s.slot == 0 then AsLong(v) else s.slot,
                if s.slot == 0 then s.writes + 1 else s.writes,
                s.threads[i := Done(if 0 < s.slot < 0x8000_0000 then AsId(s.slot) else v)])
        case _ => s
  }

  function Run(s: State, es: seq<Event>): State
    decreases |es|
  {
    if es == [] then s else Run(Step(s, es[0]), es[1..])
  }

  predicate Asks(es: seq<Event>, ids: set<Id>) {
    forall k | 0 <= k < |es| :: es[k].Act? && es[k].found != 0 ==> es[k].found in ids
  }

  predicate ThreadOk(t: Thread, slot: int, ids: set<Id>) {
    && (t.Swapping? ==> t.found in ids && t.found != 0)
    && (t.Done? ==> t.id in ids && slot != 0)
  }

  predicate Inv(s: State, ids: set<Id>) {
    && s.writes <= 1 && (s.slot == 0 <==> s.writes == 0)
    && (s.slot != 0 ==> exists v: Id :: v in ids && s.slot == AsLong(v))
    && forall i | 0 <= i < |s.threads| :: ThreadOk(s.threads[i], s.slot, ids)
  }

  predicate Small(ids: set<Id>) { forall v | v in ids :: v < 0x8000_0000 }

  /** Where every possible id is below 2^31, whoever is done has the slot's value. */
  predicate Served(s: State) {
    forall i | 0 <= i < |s.threads| :: s.threads[i].Done? ==> s.threads[i].id == s.slot
  }

  lemma StepKeeps(s: State, e: Event, ids: set<Id>)
    requires Inv(s, ids) && (e.Act? && e.found != 0 ==> e.found in ids)
    ensures Inv(Step(s, e), ids)
    ensures s.slot != 0 ==> Step(s, e).slot == s.slot
    ensures Small(ids) && Served(s) ==> Served(Step(s, e))
  {
    if s.slot != 0 {
      var v: Id :| v in ids && s.slot == AsLong(v);
      assert 0 < s.slot < 0x8000_0000 ==> AsId(s.slot) == v;
    }
  }

  lemma {:induction false} RunKeeps(s: State, es: seq<Event>, ids: set<Id>)
    requires Inv(s, ids) && Asks(es, ids)
    ensures Inv(Run(s, es), ids)
    ensures s.slot != 0 ==> Run(s, es).slot == s.slot
    ensures Small(ids) && Served(s) ==> Served(Run(s, es))
    decreases |es|
  {
    hide Inv, Step, Served, Small;
    if es != [] {
      StepKeeps(s, es[0], ids);
      RunKeeps(Step(s, es[0]), es[1..], ids);
    }
  }

  predicate Agree(s: State) {
    forall i, j | 0 <= i < |s.threads| && 0 <= j < |s.threads| && s.threads[i].Done? && s.threads[j].Done? ::
      s.threads[i].id == s.threads[j].id
  }

  /** The slot is written at most once and keeps what was written, and with ids below 2^31 every
      successful call, whenever it returns, has the value the slot ends with. */
  lemma WrittenOnce(es: seq<Event>, fs: seq<Event>, ids: set<Id>)
    requires Asks(es, ids) && Asks(fs, ids)
    ensures var s := Run(START, es); var t := Run(s, fs);
            && t.writes <= 1 && (s.slot != 0 ==> t.slot == s.slot)
            && (Small(ids) ==>
                  && (forall i | 0 <= i < |s.threads| :: s.threads[i].Done? ==> s.threads[i].id == t.slot)
                  && (forall i | 0 <= i < |t.threads| :: t.threads[i].Done? ==> t.threads[i].id == t.slot))
  {
    hide Run, Small, Asks;
    RunKeeps(START, es, ids);
    RunKeeps(Run(START, es), fs, ids);
  }

  // ---------- when do all calls agree ----------

  lemma Larger(a: set<Id>, b: set<Id>)
    requires a <= b
    ensures |a| <= |b|
  {
    assert b == a + (b - a);
  }

  lemma OnlyOne(ids: set<Id>, a: Id, b: Id)
    requires |ids| <= 1 && a in ids && b in ids
    ensures a == b
  {
    if a != b {
      assert |{a, b}| == 2 && {a, b} <= ids;
      Larger({a, b}, ids);
    }
  }

  lemma Enough(es: seq<Event>, ids: set<Id>)
    requires Asks(es, ids) && (Small(ids) || |ids| <= 1)
    ensures Agree(Run(START, es))
  {
    hide Run, Asks;
    RunKeeps(START, es, ids);
    var s := Run(START, es);
    if !Small(ids) {
      forall i, j | 0 <= i < |s.threads| && 0 <= j < |s.threads| && s.threads[i].Done? && s.threads[j].Done?
        ensures s.threads[i].id == s.threads[j].id
      {
        assert ThreadOk(s.threads[i], s.slot, ids) && ThreadOk(s.threads[j], s.slot, ids);
        OnlyOne(ids, s.threads[i].id, s.threads[j].id);
      }
    }
  }

  lemma Cons(s: State, es: seq<Event>, t: State)
    requires es != [] && Step(s, es[0]) == t
    ensures Run(s, es) == Run(t, es[1..])
  {
  }

  lemma Clash(big: Id, other: Id) returns (es: seq<Event>)
    requires big >= 0x8000_0000 && other != 0 && other != big
    ensures Asks(es, {big, other}) && !Agree(Run(START, es))
  {
    es := [Begin, Begin, Act(0, 0), Act(0, big), Act(0, 0), Act(1, 0), Act(1, other), Act(1, 0)];
    var s1 := State(0, 0, [Entering]);
    var s2 := State(0, 0, [Entering, Entering]);
    var s3 := State(0, 0, [Looking, Entering]);
    var s4 := State(0, 0, [Swapping(big), Entering]);
    var s5 := State(AsLong(big), 1, [Done(big), Entering]);
    var s6 := State(AsLong(big), 1, [Done(big), Looking]);
    var s7 := State(AsLong(big), 1, [Done(big), Swapping(other)]);
    var s8 := State(AsLong(big), 1, [Done(big), Done(other)]);
    Cons(START, es, s1);
    Cons(s1, es[1..], s2);
    Cons(s2, es[2..], s3);
    Cons(s3, es[3..], s4);
    Cons(s4, es[4..], s5);
    Cons(s5, es[5..], s6);
    Cons(s6, es[6..], s7);
    Cons(s7, es[7..], s8);
    assert Run(s8, es[8..]) == s8;
    assert s8.threads[0].id != s8.threads[1].id;
  }

  lemma Widen(es: seq<Event>, few: set<Id>, ids: set<Id>)
    requires Asks(es, few) && few <= ids
    ensures Asks(es, ids)
  {
  }

  lemma TwoIds(ids: set<Id>) returns (big: Id, other: Id)
    requires !Small(ids) && |ids| > 1
    ensures big in ids && other in ids && big >= 0x8000_0000 && other != big
  {
    big :| big in ids && big >= 0x8000_0000;
    assert |ids - {big}| > 0;
    other :| other in ids - {big};
  }

  /** All successful calls agree, in every interleaving, exactly when every id LSA may give is below
      2^31 or LSA can give only one: an id from 2^31 up is stored as a negative number, which readers
      take for an empty slot and writers for a full one. */
  lemma AgreementIff(ids: set<Id>)
    requires 0 !in ids
    ensures (forall es | Asks(es, ids) :: Agree(Run(START, es))) <==> Small(ids) || |ids| <= 1
  {
    hide Run, Asks, Agree, Small;
    if Small(ids) || |ids| <= 1 {
      forall es | Asks(es, ids) ensures Agree(Run(START, es)) { Enough(es, ids); }
    } else {
      var big, other := TwoIds(ids);
      var es := Clash(big, other);
      Widen(es, {big, other}, ids);
    }
  }

  // ---------- one call ----------

  /** A call that finds the slot filled with a positive number returns that at once; another asks LSA, fails
      exactly if LSA gives it nothing, and otherwise offers what it got: to an empty slot, which then holds
      it as a 32-bit signed number, and to no other. */
  lemma TurnExactly(s: State, i: nat, found: Id)
    requires i < |s.threads|
    ensures var t := Step(s, Act(i, found)); var c := t.threads[i];
            && |t.threads| == |s.threads| && (forall j | 0 <= j < |t.threads| && j != i :: t.threads[j] == s.threads[j])
            && (!s.threads[i].Swapping? || s.slot != 0 ==> t.slot == s.slot && t.writes == s.writes)
            && match s.threads[i]
               case Entering =>
                 (0 < s.slot < 0x8000_0000 && c == Done(s.slot)) || (!(0 < s.slot < 0x8000_0000) && c == Looking)
               case Looking => (found == 0 && c == Failed) || (found != 0 && c == Swapping(found))
               case Swapping(v) =>
                 && (s.slot == 0 ==> (t.slot - v) % 0x1_0000_0000 == 0 && -0x8000_0000 <= t.slot < 0x8000_0000)
                 && (s.slot == 0 ==> t.writes == s.writes + 1)
                 && ((0 < s.slot < 0x8000_0000 && c == Done(s.slot)) || (!(0 < s.slot < 0x8000_0000) && c == Done(v)))
               case _ => c == s.threads[i]
  {
  }

  function Rank(t: Thread): (r: nat)
    ensures r <= 3
  {
    match t
    case Entering => 0
    case Looking => 1
    case Swapping(_) => 2
    case _ => 3
  }

  function Turns(es: seq<Event>, i: nat): nat {
    if es == [] then 0 else (if es[0].Act? && es[0].i == i then 1 else 0) + Turns(es[1..], i)
  }

  lemma StepRanks(s: State, e: Event, i: nat)
    requires i < |s.threads|
    ensures var t := Step(s, e);
            && i < |t.threads|
            && Rank(t.threads[i]) >= if e.Act? && e.i == i && Rank(s.threads[i]) < 3 then Rank(s.threads[i]) + 1
                                     else Rank(s.threads[i])
  {
  }

  lemma {:induction false} TurnsRank(s: State, es: seq<Event>, i: nat)
    requires i < |s.threads|
    ensures var t := Run(s, es);
            i < |t.threads| && (Rank(s.threads[i]) + Turns(es, i) >= 3 ==> Rank(t.threads[i]) == 3)
    decreases |es|
  {
    hide Step, Rank;
    if es != [] {
      StepRanks(s, es[0], i);
      TurnsRank(Step(s, es[0]), es[1..], i);
    }
  }

  /** However the threads interleave, a call that gets three turns has returned. */
  lemma ThreeTurns(es: seq<Event>, fs: seq<Event>, i: nat)
    requires i < |Run(START, es).threads| && Turns(fs, i) >= 3
    ensures var t := Run(Run(START, es), fs); i < |t.threads| && (t.threads[i].Done? || t.threads[i].Failed?)
  {
    hide Run, Turns;
    TurnsRank(Run(START, es), fs, i);
  }
}
