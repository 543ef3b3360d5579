/** The auto-submit window: 2500 ms measured on a 32-bit tick that wraps, where the stored tick 0
    also means "no submission yet". Time itself is a number that never wraps. */
module Throttle {
  import opened Options
  import opened Messages
  import opened Session
  import opened SessionInvariant
  import opened SessionRuns
  import opened SessionFates
  import opened JsonObject

  // ---------- over every run ----------

  predicate Waiting(f: Flags) { f.active && f.awaiting }

  predicate Forced(f: Flags) { !f.active && f.force }

  /** A selection decided by the window alone. */
  predicate Throttled(f: Flags) { !Waiting(f) && !Forced(f) }

  /** A call that takes the time of the last auto-submit back: it moves the generation, or it reads
      AUTH_PENDING. */
  predicate Resets(s: State, e: Event) {
    || s.books.bumps < Step(s, e).books.bumps
    || (e.Submit? && e.k < |s.creds| && Seen(s, e.env).Some? && Seen(s, e.env).value.typ == AUTH_PENDING)
  }

  /** The time of the last marked auto-submit, if nothing has taken it back since. */
  function After(s: State, e: Event, last: Option<nat>): Option<nat> {
    if LogonSelection(s, e) then
      if !Waiting(s.flags) && StepOut(s, e).output == AutoLogon(true) then Some(e.now) else last
    else if Resets(s, e) then None
    else last
  }

  function LastSubmit(s: State, es: seq<Event>, last: Option<nat>): Option<nat>
    decreases |es|
  {
    if es == [] then last else LastSubmit(Step(s, es[0]), es[1..], After(s, es[0], last))
  }

  function Mark(last: Option<nat>): Tick { if last == None then 0 else TickOf(last.value) }

  lemma PendingClearsTick(s: State, k: nat, env: Env)
    requires k < |s.creds| && Seen(s, env).Some? && Seen(s, env).value.typ == AUTH_PENDING
    ensures Step(s, Submit(k, env)).flags.tick == 0
  {
    hide ParseLine, Answer, NextLong;
  }

  lemma QuietKeepsTick(s: State, e: Event)
    requires !LogonSelection(s, e) && !Resets(s, e)
    ensures Step(s, e).flags.tick == s.flags.tick
  {
    hide ParseLine, Answer, NextLong, Grants, TickOf;
  }

  lemma StepMarks(s: State, e: Event, last: Option<nat>)
    requires Inv(s) && s.flags.tick == Mark(last)
    ensures Step(s, e).flags.tick == Mark(After(s, e, last))
  {
    hide ParseLine, Answer, NextLong, TickOf, Grants, HandlesInv, BooksInv;
    if Resets(s, e) && !LogonSelection(s, e) {
      if s.books.bumps < Step(s, e).books.bumps {
        EndClearsTick(s, e);
      } else {
        PendingClearsTick(s, e.k, e.env);
      }
    } else if !LogonSelection(s, e) {
      QuietKeepsTick(s, e);
    }
  }

  lemma {:induction false} RunMarks(s: State, es: seq<Event>, last: Option<nat>)
    requires Inv(s) && s.flags.tick == Mark(last)
    ensures Run(s, es).flags.tick == Mark(LastSubmit(s, es, last))
    decreases |es|
  {
    hide Inv, Step, Mark, After;
    if es != [] {
      StepKeeps(s, es[0]);
      StepMarks(s, es[0], last);
      RunMarks(Step(s, es[0]), es[1..], After(s, es[0], last));
    }
  }

  lemma TickDifference(now: nat, then_: nat)
    ensures Elapsed(now, TickOf(then_)) == (now - then_) % 0x1_0000_0000
  {
  }

  predicate Due(last: Option<nat>, now: nat) {
    last == None || last.value % 0x1_0000_0000 == 0 || (now - last.value) % 0x1_0000_0000 >= 2500
  }

  /** On any run, a selected logon tile submits by itself exactly when the session waits for a final
      answer, or a recovery is asked for and no session is there, or the window allows it: nothing was
      submitted since the last reset, or that was on tick 0, or the time since is at least 2500 ms
      modulo the wrap. So apart from tick 0 two submissions that only the window decides are at least
      2500 ms apart. */
  lemma SubmitsExactlyWhen(es: seq<Event>, k: nat, now: nat)
    requires LogonSelection(Run(INITIAL, es), Select(k, now))
    ensures var f, last := Run(INITIAL, es).flags, LastSubmit(INITIAL, es, None);
            var out := StepOut(Run(INITIAL, es), Select(k, now)).output;
            && out == AutoLogon(Waiting(f) || Forced(f) || Due(last, now))
            && (out.yes && Throttled(f) && last.Some? && last.value % 0x1_0000_0000 != 0 && last.value <= now ==>
                  now - last.value >= 2500)
  {
    hide Inv, Run, LastSubmit, Elapsed;
    var last := LastSubmit(INITIAL, es, None);
    InitialInv();
    RunMarks(INITIAL, es, None);
    if last.Some? {
      TickDifference(now, last.value);
    }
  }

  /** A mark left for the next selection while no session is there. */
  predicate ForceFree(f: Flags) { Forced(f) ==> f.tick == 0 }

  lemma ServeQuietly(s: State, usage: Cpus, env: Env)
    ensures var t := Serve(s, usage, env).state;
            t.books.bumps == s.books.bumps ==>
              && t.flags.active == s.flags.active && t.flags.force == s.flags.force
              && (t.flags.tick == s.flags.tick || t.flags.tick == 0)
  {
    hide ParseLine, Answer, NextLong;
  }

  lemma QuietForce(s: State, e: Event)
    requires Inv(s) && ForceFree(s.flags) && Step(s, e).books.bumps == s.books.bumps
    ensures ForceFree(Step(s, e).flags)
  {
    hide Serve, NextLong, HandlesInv, Generation, Grants, TickOf;
    if e.Submit? && e.k < |s.creds| {
      ServeQuietly(s, s.creds[e.k], e.env);
      ServeQuietly(Started(s), s.creds[e.k], e.env);
    }
  }

  lemma ForceStep(s: State, e: Event)
    requires Inv(s) && ForceFree(s.flags)
    ensures ForceFree(Step(s, e).flags)
  {
    hide ParseLine, Answer, NextLong, HandlesInv, Generation, Grants, TickOf;
    StepBooks(s, e);
    if s.books.bumps == Step(s, e).books.bumps {
      QuietForce(s, e);
    }
  }

  lemma {:induction false} ForceRun(s: State, es: seq<Event>)
    requires Inv(s) && ForceFree(s.flags)
    ensures ForceFree(Run(s, es).flags)
    decreases |es|
  {
    hide Inv, Step, ForceFree;
    if es != [] {
      StepKeeps(s, es[0]);
      ForceStep(s, es[0]);
      ForceRun(Step(s, es[0]), es[1..]);
    }
  }

  lemma InitialUnforced()
    ensures ForceFree(INITIAL.flags) && INITIAL.flags.tick == Mark(None)
  {
  }

  /** The force mark never decides: on any run, where it is set and no session is there, the window is
      open as well. So a logon tile submits exactly when the session waits or the window allows it. */
  lemma ForceNeverDecides(es: seq<Event>, k: nat, now: nat)
    requires LogonSelection(Run(INITIAL, es), Select(k, now))
    ensures var f, last := Run(INITIAL, es).flags, LastSubmit(INITIAL, es, None);
            && (Forced(f) ==> f.tick == 0 && Due(last, now))
            && StepOut(Run(INITIAL, es), Select(k, now)).output == AutoLogon(Waiting(f) || Due(last, now))
  {
    hide Inv, Run, LastSubmit, StepOut, Forced, Waiting;
    InitialInv();
    ForceRun(INITIAL, es) by { InitialUnforced(); }
    RunMarks(INITIAL, es, None);
    SubmitsExactlyWhen(es, k, now);
  }

  // ---------- how often ----------

  /** The clock does not go back from one selection to the next, nor behind `since`. */
  predicate ClockGoesOn(es: seq<Event>, since: nat)
    decreases |es|
  {
    es != [] ==>
      if es[0].Select? then since <= es[0].now && ClockGoesOn(es[1..], es[0].now) else ClockGoesOn(es[1..], since)
  }

  predicate BySelf(s: State, e: Event) { LogonSelection(s, e) && StepOut(s, e).output == AutoLogon(true) }

  /** The times at which logon tiles submit by themselves over a run, whatever calls lie between;
      `windowOnly` leaves out those of a session that waits for a final answer. */
  function Submissions(s: State, es: seq<Event>, windowOnly: bool): seq<nat>
    decreases |es|
  {
    if es == [] then []
    else
      (if BySelf(s, es[0]) && !(windowOnly && Waiting(s.flags)) then [es[0].now] else []) +
      Submissions(Step(s, es[0]), es[1..], windowOnly)
  }

  /** How many calls of a run take the time of the last submission back. */
  function ResetCount(s: State, es: seq<Event>): nat
    decreases |es|
  {
    if es == [] then 0 else (if Resets(s, es[0]) then 1 else 0) + ResetCount(Step(s, es[0]), es[1..])
  }

  /** How many of `last` and the submissions of `g` but its final one fall on tick 0. */
  function OnTickZero(last: nat, g: seq<nat>): nat
    decreases |g|
  {
    if g == [] then 0 else (if last % 0x1_0000_0000 == 0 then 1 else 0) + OnTickZero(g[0], g[1..])
  }

  function Final(last: nat, g: seq<nat>): nat { if g == [] then last else g[|g| - 1] }

  lemma SelectionNeverResets(s: State, e: Event)
    requires Inv(s) && LogonSelection(s, e)
    ensures !Resets(s, e)
  {
    hide ParseLine;
  }

  /** One submission of the window: the window was open, and the run goes on from its time. */
  lemma WindowOpens(s: State, e: Event, last: Option<nat>)
    requires Inv(s) && ForceFree(s.flags) && s.flags.tick == Mark(last) && LogonSelection(s, e) && !Waiting(s.flags)
    ensures BySelf(s, e) ==> Due(last, e.now) && After(s, e, last) == Some(e.now)
    ensures !BySelf(s, e) ==> After(s, e, last) == last
  {
    hide ParseLine, HandlesInv, BooksInv;
    if last.Some? {
      TickDifference(e.now, last.value);
    }
  }

  lemma EarlierSince(es: seq<Event>, since: nat, earlier: nat)
    requires ClockGoesOn(es, since) && earlier <= since
    ensures ClockGoesOn(es, earlier)
    decreases |es|
  {
    if es != [] && !es[0].Select? {
      EarlierSince(es[1..], since, earlier);
    }
  }

  lemma SameClock(es: seq<Event>, prev: nat)
    requires es != [] && ClockGoesOn(es, prev)
    ensures ClockGoesOn(es[1..], prev)
  {
    if es[0].Select? {
      EarlierSince(es[1..], es[0].now, prev);
    }
  }

  lemma AfterCases(s: State, e: Event, last: Option<nat>)
    requires Inv(s) && ForceFree(s.flags) && s.flags.tick == Mark(last)
    ensures var next := After(s, e, last);
            if BySelf(s, e) && !Waiting(s.flags) then
              e.Select? && Due(last, e.now) && next == Some(e.now) && !Resets(s, e)
            else next == (if Resets(s, e) then None else last)
  {
    hide Inv, Resets, Due, Step, StepOut, ForceFree, Mark;
    if LogonSelection(s, e) {
      SelectionNeverResets(s, e);
      if !Waiting(s.flags) {
        WindowOpens(s, e, last);
      }
    }
  }

  lemma DuePays(prev: nat, now: nat, last: Option<nat>)
    requires prev <= now && Due(last, now) && (last == None || last == Some(prev))
    ensures last == None || prev % 0x1_0000_0000 == 0 || prev + 2500 <= now
  {
  }

  /** The gaps between submissions pay for them, but for one at most after each reset and each
      submission on tick 0; `last` is the mark in force, and the latest submission was at `prev`. */
  lemma {:induction false} GapsPay(s: State, es: seq<Event>, prev: nat, last: Option<nat>)
    requires Inv(s) && ForceFree(s.flags) && s.flags.tick == Mark(last) && (last == None || last == Some(prev))
    requires ClockGoesOn(es, prev)
    ensures var g := Submissions(s, es, true);
            var owed := if last == None then 1 else 0;
            prev + 2500 * (|g| - OnTickZero(prev, g) - ResetCount(s, es) - owed) <= Final(prev, g)
    decreases |es|
  {
    hide Inv, Step, StepOut, Mark, BySelf, Resets, LogonSelection, Waiting, ForceFree, Due, After;
    if es != [] {
      var e, t := es[0], Step(s, es[0]);
      var next := After(s, e, last);
      var rest := Submissions(t, es[1..], true);
      StepKeeps(s, e);
      ForceStep(s, e);
      StepMarks(s, e, last);
      AfterCases(s, e, last);
      if BySelf(s, e) && !Waiting(s.flags) {
        var g := Submissions(s, es, true);
        assert g == [e.now] + rest && g[1..] == rest;
        DuePays(prev, e.now, last);
        GapsPay(t, es[1..], e.now, next);
        assert Final(prev, g) == Final(e.now, rest);
      } else {
        assert Submissions(s, es, true) == rest;
        SameClock(es, prev);
        GapsPay(t, es[1..], prev, next);
      }
    }
  }

  lemma {:induction false} RateFrom(s: State, fs: seq<Event>, since: nat, last: Option<nat>)
    requires Inv(s) && ForceFree(s.flags) && s.flags.tick == Mark(last) && ClockGoesOn(fs, since)
    ensures var g := Submissions(s, fs, true);
            g != [] ==> g[0] + 2500 * (|g| - 1 - OnTickZero(g[0], g[1..]) - ResetCount(s, fs)) <= g[|g| - 1]
    decreases |fs|
  {
    hide Inv, Step, StepOut, Mark, BySelf, Resets, LogonSelection, Waiting, ForceFree, Due, After;
    if fs != [] {
      var e, t := fs[0], Step(s, fs[0]);
      var next := After(s, e, last);
      var rest := Submissions(t, fs[1..], true);
      StepKeeps(s, e);
      ForceStep(s, e);
      StepMarks(s, e, last);
      AfterCases(s, e, last);
      if BySelf(s, e) && !Waiting(s.flags) {
        var g := Submissions(s, fs, true);
        assert g == [e.now] + rest && g[1..] == rest;
        GapsPay(t, fs[1..], e.now, next);
        assert g[|g| - 1] == Final(e.now, rest);
      } else {
        assert Submissions(s, fs, true) == rest;
        RateFrom(t, fs[1..], if e.Select? then e.now else since, next);
      }
    }
  }

  /** On any run, from any point of it on and whatever LogonUI calls: in T ms logon tiles submit, by
      the window, at most 1 + T/2500 times, and once more at most for every call that resets the
      window and every submission on tick 0. */
  lemma {:induction false} SubmissionRate(es: seq<Event>, fs: seq<Event>, since: nat)
    requires ClockGoesOn(fs, since)
    ensures var s := Run(INITIAL, es); var g := Submissions(s, fs, true);
            g != [] ==> g[0] + 2500 * (|g| - 1 - OnTickZero(g[0], g[1..]) - ResetCount(s, fs)) <= g[|g| - 1]
  {
    hide Run, LastSubmit, Inv;
    InitialInv();
    RunKeeps(INITIAL, es);
    ForceRun(INITIAL, es) by { InitialUnforced(); }
    RunMarks(INITIAL, es, None);
    RateFrom(Run(INITIAL, es), fs, since, LastSubmit(INITIAL, es, None));
  }

  lemma StaysThrottled(s: State, e: Event)
    requires Inv(s) && Throttled(s.flags) && !Resets(s, e)
    ensures Throttled(Step(s, e).flags)
  {
    hide ParseLine, Answer, NextLong, HandlesInv, Generation, Grants, TickOf;
  }

  /** While nothing resets the window, a session that is not waiting does not come to wait, and every
      submission is the window's; so in T ms there are at most 1 + T/2500, apart from tick 0. */
  lemma {:induction false} IdleIsWindowOnly(s: State, fs: seq<Event>)
    requires Inv(s) && Throttled(s.flags) && ResetCount(s, fs) == 0
    ensures Submissions(s, fs, false) == Submissions(s, fs, true)
    decreases |fs|
  {
    hide Inv, Step, StepOut, BySelf, Resets;
    if fs != [] {
      StepKeeps(s, fs[0]);
      StaysThrottled(s, fs[0]);
      IdleIsWindowOnly(Step(s, fs[0]), fs[1..]);
    }
  }

  lemma IdleRate(es: seq<Event>, fs: seq<Event>, since: nat)
    requires ClockGoesOn(fs, since)
    requires var s := Run(INITIAL, es); Throttled(s.flags) && ResetCount(s, fs) == 0
    ensures var g := Submissions(Run(INITIAL, es), fs, false);
            g != [] ==> g[0] + 2500 * (|g| - 1 - OnTickZero(g[0], g[1..])) <= g[|g| - 1]
  {
    hide Run, Inv, Submissions, Throttled, OnTickZero;
    InitialInv();
    RunKeeps(INITIAL, es);
    IdleIsWindowOnly(Run(INITIAL, es), fs);
    SubmissionRate(es, fs, since);
  }

  lemma FirstTicks()
    ensures var t := 0x1_0000_0000;
            TickOf(t) == 0 && TickOf(t + 1) == 1 && Grants(0, t) && Grants(0, t + 1) && !Grants(1, t + 2)
  {
  }

  predicate Offered(s: State) {
    s.creds == [CpusLogon] && !s.flags.active && !s.flags.force
  }

  lemma OneSelection(s: State, now: nat)
    requires Offered(s)
    ensures var e, t := Select(0, now), Step(s, Select(0, now));
            && Offered(t) && !Resets(s, e)
            && (BySelf(s, e) <==> Grants(s.flags.tick, now))
            && t.flags.tick == if Grants(s.flags.tick, now) then TickOf(now) else s.flags.tick
  {
    hide Grants, TickOf;
  }

  lemma ThreeSelections(s: State)
    requires Offered(s) && s.flags.tick == 0
    ensures var t := 0x1_0000_0000; var fs := [Select(0, t), Select(0, t + 1), Select(0, t + 2)];
            Submissions(s, fs, false) == [t, t + 1] && ResetCount(s, fs) == 0
  {
    hide Step, StepOut, Resets, Offered, Grants, TickOf, BySelf;
    var t := 0x1_0000_0000;
    var f2 := [Select(0, t + 2)];
    var f1 := [Select(0, t + 1), Select(0, t + 2)];
    var fs := [Select(0, t), Select(0, t + 1), Select(0, t + 2)];
    assert f2[1..] == [] && f1[1..] == f2 && fs[1..] == f1;
    var s1 := Step(s, fs[0]);
    var s2 := Step(s1, f1[0]);
    OneSelection(s, t);
    OneSelection(s1, t + 1);
    OneSelection(s2, t + 2);
    FirstTicks();
    assert Submissions(s2, f2, false) == [] && ResetCount(s2, f2) == 0;
    assert Submissions(s1, f1, false) == [t + 1] && ResetCount(s1, f1) == 0;
  }

  lemma TwoSteps(s: State, e: Event, f: Event)
    ensures Run(s, [e, f]) == Step(Step(s, e), f)
  {
    hide Step;
    var t := Step(s, e);
    assert [e, f][1..] == [f] && [f][1..] == [];
    assert Run(t, [f]) == Run(Step(t, f), []);
    assert Run(s, [e, f]) == Run(t, [f]);
  }

  lemma UsageOffers()
    ensures var s := SetUsageScenario(INITIAL, CpusLogon);
            s.creds == [] && s.cpus == CpusLogon && !s.flags.active && !s.flags.force && s.flags.tick == 0
  {
    hide NextLong;
  }

  lemma OfferedTile()
    ensures var s := Run(INITIAL, [Usage(CpusLogon), NewCredential]); Offered(s) && s.flags.tick == 0
  {
    hide SetUsageScenario;
    TwoSteps(INITIAL, Usage(CpusLogon), NewCredential);
    UsageOffers();
  }

  /** The exception is real: on the run that offers the tile and selects it on tick 0 and then every
      millisecond, it submits twice a millisecond apart, with nothing reset between. */
  lemma TickZeroIsForgotten()
    ensures var s := Run(INITIAL, [Usage(CpusLogon), NewCredential]); var t := 0x1_0000_0000;
            var fs := [Select(0, t), Select(0, t + 1), Select(0, t + 2)];
            Submissions(s, fs, false) == [t, t + 1] && ResetCount(s, fs) == 0
  {
    hide Step, Run, Submissions, ResetCount, Offered;
    OfferedTile();
    ThreeSelections(Run(INITIAL, [Usage(CpusLogon), NewCredential]));
  }
}
