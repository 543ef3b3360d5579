/** What each call of LogonUI leaves behind, in full and in plain values: every field of the state, every
    refresh it asks for with its delay, and the answer. These statements name none of the functions that
    put the state together. */
module Effects {
  import Pipe = Transport
  import opened Unicode
  import opened Options
  import opened JsonObject
  import opened Messages
  import opened Packing
  import opened JsonNames
  import opened Session
  import opened SessionInvariant
  import opened SessionRuns
  import opened SessionFates

  lemma StartsEmpty()
    ensures INITIAL.session == BrokerSession(0, 0, 0, false) && INITIAL.flags == Flags(false, false, 0, 0, false, 1)
    ensures INITIAL.cpus == CpusInvalid && INITIAL.creds == [] && INITIAL.requests == []
    ensures INITIAL.handles == Handles(1, {})
  {
  }

  /** The message seen has this type. */
  predicate HasType(m: Option<Fields>, typ: string) { m.Some? && m.value.typ == Ascii(typ) }

  /** What a read brings, for a call that has a session. */
  datatype Outcome = TimedOut | ReadFailed | SawPending | SawIdle | SawOther

  function OutcomeOf(s: State, env: Env): Outcome {
    if env.read == Pipe.Timeout then TimedOut
    else if env.read != Pipe.Ok then ReadFailed
    else if HasType(Seen(s, env), "AUTH_PENDING") then SawPending
    else if HasType(Seen(s, env), "AUTH_IDLE") then SawIdle
    else SawOther
  }

  lemma TypesDiffer()
    ensures AUTH_PENDING != AUTH_IDLE && AUTH_PENDING != AUTH_FALLBACK && AUTH_PENDING != AUTH_SUCCESS
    ensures AUTH_IDLE != AUTH_FALLBACK && AUTH_IDLE != AUTH_SUCCESS && AUTH_FALLBACK != AUTH_SUCCESS
  {
    assert |AUTH_PENDING| == 12 && |AUTH_IDLE| == 9 && |AUTH_FALLBACK| == 13 && |AUTH_SUCCESS| == 12;
    assert AUTH_PENDING[5] == 80 && AUTH_SUCCESS[5] == 83;
  }

  // ---------- GetSerialization ----------

  /** A call asks for at most one refresh, always under the generation it ends with: in 300 ms after a
      progress message AUTH_PENDING or a timeout while one is awaited, in 2500 ms after AUTH_IDLE or any
      other timeout, in 50 ms after a failed read, and in no other case. */
  lemma RequestsExactly(s: State, k: nat, env: Env)
    requires Inv(s) && k < |s.creds|
    ensures var t := Step(s, Submit(k, env));
            t.requests == s.requests +
            if !Reaches(s, env) then []
            else match OutcomeOf(s, env)
              case TimedOut => [Refresh(if s.flags.awaiting then 300 else 2500, t.flags.generation)]
              case ReadFailed => [Refresh(50, t.flags.generation)]
              case SawPending => [Refresh(300, t.flags.generation)]
              case SawIdle => [Refresh(2500, t.flags.generation)]
              case SawOther => []
  {
    hide ParseLine, Answer, NextLong, HandlesInv, BooksInv;
    Types();
    TypesDiffer();
  }

  /** A session just made reads as the call does. */
  lemma SameOutcome(s: State, env: Env)
    requires Reaches(s, env)
    ensures OutcomeOf(if s.session.connected then s else Started(s), env) == OutcomeOf(s, env)
  {
    hide ParseLine;
  }

  lemma ServedFlags(s: State, usage: Cpus, env: Env)
    requires s.session.connected && s.flags.active
    ensures var f := s.flags; var g, h := f.generation, NextLong(f.generation);
            Serve(s, usage, env).state.flags ==
            match OutcomeOf(s, env)
            case TimedOut => f
            case ReadFailed => Flags(false, false, 0, 0, true, h)
            case SawPending => Flags(true, true, 1, 0, f.force, g)
            case SawIdle => Flags(true, false, 2, f.tick, f.force, g)
            case SawOther => Flags(false, false, 0, 0, f.force, h)
  {
    hide ParseLine, Answer, NextLong, Ascii;
    Types();
    TypesDiffer();
  }

  /** The flags after a call, where `g` and `h` are the generation before it and the next one. */
  lemma FlagsExactly(s: State, k: nat, env: Env)
    requires Inv(s) && k < |s.creds|
    ensures var f := s.flags; var g, h := Generation(s.books.bumps), Generation(s.books.bumps + 1);
            Step(s, Submit(k, env)).flags ==
            if !Reaches(s, env) then
              if env.pipeOk then Flags(false, false, 0, 0, f.force, h) else f
            else match OutcomeOf(s, env)
              case TimedOut => Flags(true, f.awaiting, f.flow, f.tick, f.force, g)
              case ReadFailed => Flags(false, false, 0, 0, true, h)
              case SawPending => Flags(true, true, 1, 0, f.force, g)
              case SawIdle => Flags(true, false, 2, f.tick, f.force, g)
              case SawOther => Flags(false, false, 0, 0, f.force, h)
  {
    hide ParseLine, NextLong, Generation, HandlesInv, Serve, OutcomeOf;
    GenerationNext(s.books.bumps);
    if Reaches(s, env) {
      ServedFlags(if s.session.connected then s else Started(s), s.creds[k], env);
      SameOutcome(s, env);
    }
  }

  lemma ServedSession(s: State, usage: Cpus, env: Env)
    requires s.session.connected && s.handles.open == {s.session.pipe, s.session.process, s.session.thread}
    ensures var t := Serve(s, usage, env).state;
            && t.handles.next == s.handles.next && t.cpus == s.cpus && t.creds == s.creds
            && if !OutcomeOf(s, env).ReadFailed? && !OutcomeOf(s, env).SawOther? then
                 t.session == s.session && t.handles == s.handles
               else t.session == BrokerSession(0, 0, 0, false) && t.handles.open == {}
  {
    hide ParseLine, Answer, NextLong, Ascii;
    Types();
    TypesDiffer();
  }

  /** The session and the system's handles after a call: the session it had, or one on the next three
      handles, stays with its handles open exactly on a timeout or a progress message. */
  lemma SessionExactly(s: State, k: nat, env: Env)
    requires Inv(s) && k < |s.creds|
    ensures var t := Step(s, Submit(k, env)); var n := s.handles.next;
            var b := if s.session.connected then s.session else BrokerSession(n, n + 1, n + 2, true);
            var made := if s.session.connected || !env.pipeOk then 0 else if env.launchOk then 3 else 1;
            && t.handles.next == n + made
            && (if Reaches(s, env) && !OutcomeOf(s, env).ReadFailed? && !OutcomeOf(s, env).SawOther? then
                  t.session == b && t.handles.open == {b.pipe, b.process, b.thread}
                else t.session == BrokerSession(0, 0, 0, false) && t.handles.open == {})
            && t.cpus == s.cpus && t.creds == s.creds
  {
    hide ParseLine, NextLong, BooksInv, Serve, OutcomeOf;
    var u := if s.session.connected then s else Started(s);
    if Reaches(s, env) {
      ServedSession(u, s.creds[k], env);
      SameOutcome(s, env);
    }
  }

  /** The answer: `NoCredentialFinished` exactly for AUTH_FALLBACK, a credential at most for AUTH_SUCCESS
      and then as `CredentialIff` says, and otherwise "not finished"; only a credential carries a blob. */
  lemma AnswerExactly(s: State, k: nat, env: Env)
    requires Inv(s) && k < |s.creds|
    ensures var o := StepOut(s, Submit(k, env)).output; var m := Seen(s, env);
            && o.Answered?
            && (o.response.code == NoCredentialFinished <==> HasType(m, "AUTH_FALLBACK"))
            && (o.response.code == ReturnCredential ==> HasType(m, "AUTH_SUCCESS"))
            && (o.response.logon.Some? <==> o.response.code == ReturnCredential)
  {
    hide ParseLine, NextLong, MsvBlob, WidenOr, HandlesInv, BooksInv;
    Types();
    TypesDiffer();
  }

  lemma OneType()
    ensures Ascii("AUTH_SUCCESS") != Ascii("AUTH_FALLBACK")
  {
    assert |Ascii("AUTH_SUCCESS")| == 12 && |Ascii("AUTH_FALLBACK")| == 13;
  }

  /** The answer to AUTH_SUCCESS: its name and its password, widened or as the system converts what is not
      UTF-8, packed for domain "." if there is a name, a package and memory, and "not finished" otherwise. */
  lemma CredentialExactly(s: State, k: nat, env: Env)
    requires Inv(s) && k < |s.creds| && HasType(Seen(s, env), "AUTH_SUCCESS")
    ensures var f := Seen(s, env).value;
            var user := if ValidUtf8(f.sam) then Widen(f.sam) else env.lossySam;
            var pass := if ValidUtf8(f.password) then Widen(f.password) else env.lossyPassword;
            var b := MsvBlob([46], user, pass);
            StepOut(s, Submit(k, env)).output ==
            Answered(if user != [] && env.package.Some? && env.haveMemory then
                       Response(ReturnCredential, Some(Logon(b, |b| % 0x1_0000_0000, env.package.value)))
                     else Response(NotFinished, None))
  {
    hide ParseLine, MsvBlob, Widen, ValidUtf8, Inv, Step, Ascii;
    CredentialIff(s, k, env);
    AnswerExactly(s, k, env);
    OneType();
  }

  // ---------- the other calls ----------

  lemma TickGap(now: nat, tick: Tick)
    ensures Elapsed(now, tick) == (now - tick) % 0x1_0000_0000
  {
  }

  /** A selection submits a logon tile exactly when the session waits for a final answer, or there is none
      and one is forced, or the window is open, and changes nothing but the mark it uses up. */
  lemma SelectExactly(s: State, k: nat, now: nat)
    requires k < |s.creds|
    ensures var f := s.flags; var logon := s.creds[k] == CpusLogon;
            var waiting := f.active && f.awaiting; var forced := !f.active && f.force;
            var open := f.tick == 0 || (now - f.tick) % 0x1_0000_0000 >= 2500;
            && StepOut(s, Select(k, now)).output == AutoLogon(logon && (waiting || forced || open))
            && Step(s, Select(k, now)) ==
               if !logon || waiting || (!forced && !open) then s
               else s.(flags := f.(tick := now % 0x1_0000_0000, force := f.force && !forced))
  {
    TickGap(now, s.flags.tick);
  }

  /** Deselecting a logon tile with a session ends it and forces the next submission. */
  lemma DeselectExactly(s: State, k: nat)
    requires Inv(s) && k < |s.creds|
    ensures var t := Step(s, Deselect(k));
            if s.creds[k] == CpusLogon && s.session.connected then
              && t.session == BrokerSession(0, 0, 0, false) && t.handles == Handles(s.handles.next, {})
              && t.flags == Flags(false, false, 0, 0, true, Generation(s.books.bumps + 1))
              && t.requests == s.requests && t.cpus == s.cpus && t.creds == s.creds
            else t == s
  {
    hide NextLong, Generation;
    GenerationNext(s.books.bumps);
  }

  /** A scenario taken up again with a session there changes nothing but the scenario; in every other case
      nothing of a session is left, and the generation has moved on by two. */
  lemma UsageExactly(s: State, usage: Cpus)
    requires Inv(s)
    ensures var t := Step(s, Usage(usage));
            && t.cpus == (if usage == CpusLogon then CpusLogon else CpusInvalid)
            && t.creds == s.creds && t.requests == s.requests && t.handles.next == s.handles.next
            && if usage == CpusLogon && s.session.connected then
                 t.session == s.session && t.handles == s.handles && t.flags == s.flags
               else
                 && t.session == BrokerSession(0, 0, 0, false) && t.handles.open == {}
                 && t.flags == Flags(false, false, 0, 0, false, Generation(s.books.bumps + 2))
  {
    hide NextLong, Generation;
    GenerationNext(s.books.bumps);
    GenerationNext(s.books.bumps + 1);
  }

  /** A new credential takes the scenario of the provider and changes nothing else. */
  lemma CredentialAdded(s: State)
    ensures Step(s, NewCredential) == s.(creds := s.creds + [s.cpus])
  {
  }
}
