/** Every call of LogonUI keeps the session invariant. */
module SessionInvariant {
  import opened JsonObject
  import opened Session

  lemma Drops(a: set<nat>, h: nat, b: set<nat>)
    requires h in a && h !in b && forall x :: x in a <==> x in b || x == h
    ensures |a| == |b| + 1
  {
    assert a == b + {h};
  }

  /** With distinct handles the count is the number of open handles. */
  lemma {:induction false} HeldCount(b: BrokerSession)
    requires Distinct(b)
    ensures |Held(b)| == Count(b)
    decreases Count(b)
  {
    if b.pipe != 0 {
      HeldCount(b.(pipe := 0));
      Drops(Held(b), b.pipe, Held(b.(pipe := 0)));
    } else if b.process != 0 {
      HeldCount(b.(process := 0));
      Drops(Held(b), b.process, Held(b.(process := 0)));
    } else if b.thread != 0 {
      assert Held(b) == {b.thread};
    }
  }

  lemma InitialParts()
    ensures var i := INITIAL;
            SessionInv(i.session, i.flags) && HandlesInv(i.session, i.handles, i.books.closed)
                && BooksInv(i.session, i.flags, i.books)
  {
  }

  lemma InitialInv()
    ensures Inv(INITIAL)
  {
    hide SessionInv, HandlesInv, BooksInv;
    InitialParts();
  }

  lemma GenerationNext(bumps: nat)
    ensures Generation(bumps + 1) == NextLong(Generation(bumps))
  {
  }

  lemma DeactivatedKeeps(s: State)
    requires Inv(s) && !s.session.connected
    ensures Inv(Deactivated(s)) && !Deactivated(s).session.connected
  {
    GenerationNext(s.books.bumps);
  }

  lemma TornKeeps(s: State)
    requires Inv(s)
    ensures Inv(Torn(s)) && !Torn(s).session.connected && Torn(s).handles.open == {}
    ensures s.session.connected ==> Torn(s).books.terminals < Torn(s).books.ends
  {
    hide Generation, NextLong;
    GenerationNext(s.books.bumps);
  }

  lemma ForcedKeeps(s: State, force: bool)
    requires Inv(s)
    ensures Inv(Forced(s, force))
  {
    hide HandlesInv, Generation;
  }

  lemma CpusKeeps(s: State, cpus: Cpus)
    requires Inv(s) && Reachable(cpus)
    ensures Inv(s.(cpus := cpus))
  {
  }

  lemma UsageKeeps(s: State, cpus: Cpus)
    requires Inv(s)
    ensures Inv(SetUsageScenario(s, cpus))
  {
    hide Inv, Torn, Deactivated;
    if cpus == CpusLogon {
      var t := s.(cpus := CpusLogon);
      assert Inv(t) by { CpusKeeps(s, CpusLogon); }
      TornKeeps(t);
      ForcedKeeps(Torn(t), false);
      DeactivatedKeeps(Forced(Torn(t), false));
    } else {
      var t := s.(cpus := CpusInvalid);
      assert Inv(t) by { CpusKeeps(s, CpusInvalid); }
      ForcedKeeps(t, false);
      TornKeeps(Forced(t, false));
      DeactivatedKeeps(Torn(Forced(t, false)));
    }
  }

  lemma CredentialKeeps(s: State)
    requires Inv(s)
    ensures Inv(GetCredentialAt(s))
  {
    hide SessionInv, HandlesInv, BooksInv;
  }

  lemma SelectionKeeps(s: State, cpus: Cpus, now: nat)
    requires Inv(s)
    ensures Inv(s.(flags := SetSelected(s.flags, cpus, now).flags))
  {
    hide HandlesInv, Generation, Grants;
  }

  lemma DeselectionKeeps(s: State, cpus: Cpus)
    requires Inv(s)
    ensures Inv(SetDeselected(s, cpus))
  {
    hide Inv, Torn;
    TornKeeps(s);
    ForcedKeeps(Torn(s), true);
  }

  lemma StartedKeeps(s: State)
    requires Inv(s) && !s.session.connected
    ensures Inv(Started(s))
  {
    hide Generation;
    var n := s.handles.next;
    assert Held(Started(s).session) == {n, n + 1, n + 2};
  }

  lemma AttemptedKeeps(s: State, k: nat)
    requires Inv(s) && !s.session.connected
    ensures Inv(Attempted(s, k))
  {
    hide Generation, NextLong;
    GenerationNext(s.books.bumps);
  }

  lemma RequestedKeeps(s: State, delay: nat)
    requires Inv(s)
    ensures Inv(Requested(s, delay))
  {
  }

  lemma PendingKeeps(s: State)
    requires Inv(s) && s.session.connected
    ensures Inv(Pending(s)) && Inv(Idle(s))
  {
    hide HandlesInv, Generation;
  }

  lemma FinishedKeeps(s: State)
    requires Inv(s) && s.session.connected
    ensures Inv(Finished(s)) && !Finished(s).session.connected
  {
    hide HandlesInv, Generation, Torn, SessionInv;
    TornKeeps(s);
  }

  lemma ServeKeeps(s: State, usage: Cpus, env: Env)
    requires Inv(s) && s.session.connected
    ensures Inv(Serve(s, usage, env).state)
  {
    hide Inv, Torn, ParseLine, Answer, Pending, Idle, Finished, Requested, Forced;
    TornKeeps(s);
    ForcedKeeps(Torn(s), true);
    FinishedKeeps(s);
    PendingKeeps(s);
    RequestedKeeps(s, 300);
    RequestedKeeps(s, 2500);
    RequestedKeeps(Forced(Torn(s), true), 50);
    RequestedKeeps(Pending(s), 300);
    RequestedKeeps(Idle(s), 2500);
  }

  lemma StartedLive(s: State)
    ensures Started(s).session.connected && Started(s).flags.active && Started(s).flags.tick == s.flags.tick
  {
  }

  lemma GetSerializationKeeps(s: State, usage: Cpus, env: Env)
    requires Inv(s)
    ensures Inv(GetSerialization(s, usage, env).state)
  {
    hide Serve, Started, Attempted, Inv;
    if s.session.connected {
      ServeKeeps(s, usage, env);
    } else {
      AttemptedKeeps(s, 1);
      AttemptedKeeps(s, 3);
      StartedKeeps(s);
      StartedLive(s);
      ServeKeeps(Started(s), usage, env);
    }
  }
}
