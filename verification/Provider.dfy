/** The provider's globals and its LogonUI entry points, statement by statement, as LogonUI calls
    them one after another (the registered apartment model). */
module Provider {
  import Pipe = Transport
  import opened Options
  import opened JsonObject
  import JsonParser
  import opened Messages
  import opened Packing
  import opened Session
  import opened SessionInvariant

  datatype WaitResult = WaitSignaled | WaitTimeout | WaitFailed

  lemma Unconnected(s: State)
    requires Inv(s) && !s.session.connected
    ensures s.session == NO_SESSION && s.handles.open == {} && !s.flags.active && !s.flags.awaiting && s.flags.flow == 0
    ensures 0 < s.handles.next
  {
  }

  lemma OwnsHandles(s: State)
    requires Inv(s)
    ensures Held(s.session) <= s.handles.open && 0 !in s.handles.open && Distinct(s.session)
  {
    hide Generation;
  }

  lemma LiveHandles(s: State)
    requires Inv(s)
    ensures s.session.connected <==> s.session.pipe != 0 && s.session.process != 0
  {
  }

  /** Moving the handles out and closing them afterwards is the whole end of a session. */
  lemma MovedAndClosed(s: State)
    ensures Closed(MovedOut(s), s.session.process, s.session.thread) == Torn(s)
  {
    var b := s.session;
    assert s.handles.open - {b.pipe} - {b.process, b.thread} == s.handles.open - {b.pipe, b.process, b.thread};
  }

  class Globals {
    var session: BrokerSession
    // the interlocked globals
    var flags: Flags
    // the provider object and the credentials it has handed out
    var cpus: Cpus
    var creds: seq<Cpus>
    // refreshes asked of the timer, oldest first
    var requests: seq<Refresh>
    // the system
    var handles: Handles
    ghost var books: Books

    ghost function Snap(): State
      reads this
    {
      State(session, flags, cpus, creds, requests, handles, books)
    }

    ghost predicate Valid()
      reads this
    {
      Inv(Snap())
    }

    constructor ()
      ensures Snap() == INITIAL
    {
      session := BrokerSession(0, 0, 0, false);
      flags := Flags(false, false, 0, 0, false, 1);
      cpus, creds, requests := CpusInvalid, [], [];
      handles := Handles(1, {});
      books := Books(0, 0, 0, 0, 0);
    }

    // ---------- the system ----------

    method OpenHandle() returns (h: nat)
      requires 0 < handles.next
      modifies this`handles
      ensures h == old(handles.next) && handles == Handles(h + 1, old(handles.open) + {h})
    {
      h := handles.next;
      handles := Handles(h + 1, handles.open + {h});
    }

    /** Only an open handle may be closed; so no handle is closed twice. */
    method CloseHandle(h: nat)
      requires h in handles.open
      modifies this`handles, this`books
      ensures handles == old(handles).(open := old(handles.open) - {h})
      ensures books == old(books).(closed := old(books.closed) + 1)
    {
      handles := handles.(open := handles.open - {h});
      books := books.(closed := books.closed + 1);
    }

    // ---------- the flags ----------

    method SetBrokerSessionActive(on: bool)
      modifies this`flags, this`books
      ensures flags == if on then old(flags).(active := true) else Inactive(old(flags))
      ensures books == old(books).(bumps := old(books.bumps) + if on then 0 else 1)
    {
      flags := flags.(active := on);
      if !on {
        flags := flags.(awaiting := false);
        flags := flags.(tick := 0);
        flags := flags.(generation := NextLong(flags.generation));
        books := books.(bumps := books.bumps + 1);
      }
    }

    method SetBrokerAwaitingFinal(on: bool)
      modifies this`flags
      ensures flags == old(flags).(awaiting := on, tick := if on then 0 else old(flags.tick))
    {
      flags := flags.(awaiting := on);
      if on {
        flags := flags.(tick := 0);
      }
    }

    method UpdateBrokerFlowState(flow: nat)
      modifies this`flags
      ensures flags == old(flags).(flow := flow)
    {
      flags := flags.(flow := flow);
    }

    method ConsumeForceNextAutoSubmit() returns (consumed: bool)
      modifies this`flags
      ensures consumed == old(flags.force) && flags == old(flags).(force := false)
    {
      consumed := flags.force;
      if consumed {
        flags := flags.(force := false);
      }
    }

    method TryAcquireAutoSubmitWindow(now: nat, minInterval: nat) returns (granted: bool)
      modifies this`flags
      ensures granted == (old(flags.tick) == 0 || Elapsed(now, old(flags.tick)) >= minInterval)
      ensures flags == if granted then old(flags).(tick := TickOf(now)) else old(flags)
    {
      var nowTick := TickOf(now);
      var lastTick := flags.tick;
      var elapsed := Elapsed(now, lastTick);
      if lastTick == 0 || elapsed >= minInterval {
        flags := flags.(tick := nowTick);
        return true;
      }
      return false;
    }

    method RequestCredentialsChangedAsync(delay: nat, generation: Long)
      modifies this`requests
      ensures requests == old(requests) + [Refresh(delay, generation)]
    {
      requests := requests + [Refresh(delay, generation)];
    }

    // ---------- tearing down ----------

    method ClosePipeHandle()
      requires 0 !in handles.open && (session.pipe != 0 ==> session.pipe in handles.open)
      modifies this`session, this`handles, this`books
      ensures session == old(session).(pipe := 0)
      ensures handles == old(handles).(open := old(handles.open) - {old(session.pipe)})
      ensures books == old(books).(closed := old(books.closed) + if old(session.pipe) == 0 then 0 else 1)
    {
      if session.pipe != 0 {
        CloseHandle(session.pipe);
        session := session.(pipe := 0);
      } else {
        assert handles.open - {0} == handles.open;
      }
    }

    /** How the wait turns out is the system's affair; the handle has to be open. */
    method WaitForSingleObject(process: nat) returns (w: WaitResult)
      requires process in handles.open
    {
      w := *;
    }

    method TerminateProcess(process: nat) returns (done: bool)
      requires process in handles.open
    {
      done := *;
    }

    /** The handles of a process and its thread are open, or are none. */
    ghost predicate Closable(process: nat, thread: nat)
      reads this
    {
      && 0 !in handles.open && (process != 0 ==> process in handles.open)
      && (thread != 0 ==> thread in handles.open && thread != process)
    }

    /** Waits for the process, terminates it just if the wait times out, closes the two handles and zeroes
        the caller's copies. `first` is how the wait turned out, and `killed` whether termination was asked
        for. */
    method WaitAndCloseBrokerProcess(process: nat, thread: nat)
      returns (p: nat, t: nat, ghost first: Option<WaitResult>, ghost killed: bool)
      requires Closable(process, thread)
      modifies this`handles, this`books
      ensures p == t == 0
      ensures (first.Some? <==> process != 0) && (killed <==> first == Some(WaitTimeout))
      ensures Snap() == Closed(old(Snap()), process, thread)
    {
      p, t, first, killed := process, thread, None, false;
      if p != 0 {
        var waitResult := WaitForSingleObject(p);
        first := Some(waitResult);
        if waitResult == WaitTimeout {
          var terminated := TerminateProcess(p);
          killed := true;
          if terminated {
            waitResult := WaitForSingleObject(p);
          }
        }
        CloseHandle(p);
        p := 0;
      }
      if t != 0 {
        CloseHandle(t);
        t := 0;
      }
      assert handles.open == old(handles.open) - {process, thread};
    }

    method Disconnect()
      modifies this`session, this`books
      ensures session == old(session).(connected := false)
      ensures books == old(books).(ends := old(books.ends) + if old(session.connected) then 1 else 0)
    {
      books := books.(ends := books.ends + if session.connected then 1 else 0);
      session := session.(connected := false);
    }

    method ZeroProcess()
      modifies this`session
      ensures session == old(session).(process := 0, thread := 0)
    {
      session := session.(process := 0, thread := 0);
    }

    /** The handles of the session are open, and no two are the same. */
    ghost predicate Owned()
      reads this
    {
      Held(session) <= handles.open && 0 !in handles.open && Distinct(session)
    }

    method ResetBrokerSession()
      requires Owned()
      modifies this
      ensures Snap() == Torn(old(Snap()))
    {
      var b := session;
      ClosePipeHandle();
      var p, t, _, _ := WaitAndCloseBrokerProcess(session.process, session.thread);
      session := session.(process := p, thread := t);
      ZeroProcess();
      assert handles.open == old(handles.open) - {b.pipe, b.process, b.thread};
      Disconnect();
      SetBrokerSessionActive(false);
      UpdateBrokerFlowState(0);
    }

    method CloseBrokerSessionNow()
      requires Valid()
      modifies this
      ensures Snap() == Torn(old(Snap()))
    {
      if session.pipe != 0 || session.process != 0 || session.thread != 0 || session.connected {
        ResetBrokerSession();
      } else {
        SetBrokerSessionActive(false);
        assert handles.open == handles.open - {0, 0, 0};
      }
      SetBrokerAwaitingFinal(false);
      UpdateBrokerFlowState(0);
    }

    /** The move the failure and terminal paths share: copy the process handles out and zero them,
        close the pipe and mark the session gone. Closing the copies is left to the caller. */
    method MoveOut() returns (process: nat, thread: nat)
      requires Owned()
      modifies this
      ensures process == old(session.process) && thread == old(session.thread) && Closable(process, thread)
      ensures Snap() == MovedOut(old(Snap()))
    {
      process, thread := session.process, session.thread;
      ZeroProcess();
      ClosePipeHandle();
      Disconnect();
      SetBrokerSessionActive(false);
      SetBrokerAwaitingFinal(false);
      UpdateBrokerFlowState(0);
    }

    method ReturnNoCredentialNotFinished(process: nat, thread: nat) returns (r: Response)
      requires Closable(process, thread)
      modifies this`handles, this`books
      ensures r == AGAIN && Snap() == Closed(old(Snap()), process, thread)
    {
      var _, _, _, _ := WaitAndCloseBrokerProcess(process, thread);
      return AGAIN;
    }

    method ReturnNoCredentialFinished(process: nat, thread: nat) returns (r: Response)
      requires Closable(process, thread)
      modifies this`handles, this`books
      ensures r == Response(NoCredentialFinished, None) && Snap() == Closed(old(Snap()), process, thread)
    {
      var _, _, _, _ := WaitAndCloseBrokerProcess(process, thread);
      return Response(NoCredentialFinished, None);
    }

    // ---------- the provider and its credentials ----------

    method SetUsageScenario(usage: Cpus) returns (supported: bool)
      requires Valid()
      modifies this
      ensures Valid() && Snap() == Session.SetUsageScenario(old(Snap()), usage)
      ensures supported <==> usage == CpusLogon
    {
      UsageKeeps(Snap(), usage);
      if usage == CpusLogon {
        cpus := usage;
        if !flags.active {
          CloseBrokerSessionNow();
          flags := flags.(force := false);
          SetBrokerSessionActive(false);
          SetBrokerAwaitingFinal(false);
        }
        return true;
      }
      cpus := CpusInvalid;
      flags := flags.(force := false);
      CloseBrokerSessionNow();
      SetBrokerSessionActive(false);
      SetBrokerAwaitingFinal(false);
      return false;
    }

    method GetCredentialAt(index: nat, haveMemory: bool) returns (made: bool)
      requires Valid()
      modifies this
      ensures made <==> index == 0 && haveMemory
      ensures Valid() && Snap() == if made then Session.GetCredentialAt(old(Snap())) else old(Snap())
    {
      if index != 0 {
        return false;
      }
      CredentialKeeps(Snap());
      if !haveMemory {
        return false;
      }
      creds := creds + [cpus];
      return true;
    }

    method SetSelected(k: nat, now: nat) returns (autoLogon: bool)
      requires Valid() && k < |creds|
      modifies this`flags
      ensures Valid()
      ensures Session.SetSelected(old(flags), creds[k], now) == Selection(flags, autoLogon)
    {
      SelectionKeeps(Snap(), creds[k], now);
      var isLogonScenario := creds[k] == CpusLogon;
      var brokerActive := flags.active;
      var awaitingFinal := flags.awaiting;
      autoLogon := false;
      if isLogonScenario {
        if brokerActive {
          if awaitingFinal {
            autoLogon := true;
          } else {
            autoLogon := TryAcquireAutoSubmitWindow(now, 2500);
          }
        } else {
          var forced := ConsumeForceNextAutoSubmit();
          if forced {
            flags := flags.(tick := TickOf(now));
            autoLogon := true;
          } else {
            autoLogon := TryAcquireAutoSubmitWindow(now, 2500);
          }
        }
      }
    }

    method SetDeselected(k: nat)
      requires Valid() && k < |creds|
      modifies this
      ensures Valid() && Snap() == Session.SetDeselected(old(Snap()), old(creds)[k])
    {
      DeselectionKeeps(Snap(), creds[k]);
      if creds[k] == CpusLogon && flags.active {
        CloseBrokerSessionNow();
        flags := flags.(force := true);
      }
    }

    // ---------- GetSerialization ----------

    /** Creates the pipe, launches the broker and waits for it to connect. */
    method ConnectBroker(env: Env) returns (live: bool)
      requires Valid() && !session.connected
      modifies this
      ensures live == (env.pipeOk && env.launchOk && env.connect == Connected)
      ensures Snap() == if live then Started(old(Snap()))
                        else if !env.pipeOk then old(Snap())
                        else if !env.launchOk then Attempted(old(Snap()), 1)
                        else Attempted(old(Snap()), 3)
    {
      hide NextLong, Generation, Inv;
      Unconnected(Snap());
      if !env.pipeOk {
        return false;
      }
      var pipe := OpenHandle();
      session := session.(pipe := pipe);
      if !env.launchOk {
        ResetBrokerSession();
        assert handles.open == old(handles.open);
        return false;
      }
      var process := OpenHandle();
      var thread := OpenHandle();
      session := session.(process := process, thread := thread);
      if env.connect != Connected {
        var failed := session;
        ZeroProcess();
        ClosePipeHandle();
        Disconnect();
        SetBrokerSessionActive(false);
        var _ := ReturnNoCredentialNotFinished(failed.process, failed.thread);
        assert handles.open == old(handles.open);
        return false;
      }
      session := session.(connected := true);
      books := books.(connects := books.connects + 1);
      SetBrokerSessionActive(true);
      SetBrokerAwaitingFinal(false);
      UpdateBrokerFlowState(0);
      assert handles.open == old(handles.open) + {pipe, process, thread};
      return true;
    }

    /** Packs the credential, or fails to, and on either way closes the two handles it is given. */
    method HandleAuthSuccessMessage(m: JsonParser.Msg, usage: Cpus, env: Env, process: nat, thread: nat)
      returns (r: Response)
      requires m.typ == AUTH_SUCCESS && Closable(process, thread)
      modifies this`handles, this`books
      ensures r == Answer(m.Value(), usage, env)
      ensures Snap() == Closed(old(Snap()), process, thread)
    {
      hide MsvBlob, BlobSize, PackedFor, Closed;
      var wDomain := DOT;
      var wUser := WidenOr(m.sam, env.lossySam);
      var wPass := WidenOr(m.password, env.lossyPassword);
      var scenario := if usage == CpusUnlock then UnlockScenario else LogonScenario;
      var packed := PackAutoEx(wDomain, wUser, wPass, scenario, env.package, env.haveMemory, env.elsewhere);
      assert |AUTH_SUCCESS| == 12 && |AUTH_FALLBACK| == 13;
      if packed == None {
        r := ReturnNoCredentialNotFinished(process, thread);
        return;
      }
      var _, _, _, _ := WaitAndCloseBrokerProcess(process, thread);
      return Response(ReturnCredential, Some(Logon(packed.value.blob, packed.value.size, packed.value.authPkg)));
    }

    /** Answers a final message; every branch closes the two handles for itself. */
    method HandleParsedBrokerMessage(m: JsonParser.Msg, usage: Cpus, env: Env, process: nat, thread: nat)
      returns (r: Response)
      requires Closable(process, thread)
      modifies this`handles, this`books
      ensures r == Answer(m.Value(), usage, env)
      ensures Snap() == Closed(old(Snap()), process, thread)
    {
      hide MsvBlob, BlobSize, PackedFor, Closed;
      assert |AUTH_FAIL| == 9 && |AUTH_SUCCESS| == 12 && |AUTH_FALLBACK| == 13;
      if m.typ == AUTH_FAIL {
        r := ReturnNoCredentialNotFinished(process, thread);
        return;
      }
      if m.typ == AUTH_FALLBACK {
        r := ReturnNoCredentialFinished(process, thread);
        return;
      }
      if m.typ == AUTH_SUCCESS {
        r := HandleAuthSuccessMessage(m, usage, env, process, thread);
        return;
      }
      r := ReturnNoCredentialNotFinished(process, thread);
    }

    /** The end of a session whose read has failed: lost, it asks for recovery. */
    method FailRead(env: Env) returns (r: Response)
      requires Owned()
      modifies this
      ensures r == AGAIN
      ensures Snap() == if env.read == Pipe.BrokerExited || env.read == Pipe.Failed
                        then Requested(Forced(Torn(old(Snap())), true), 50) else Torn(old(Snap()))
    {
      hide NextLong, Closed, MovedOut, Torn;
      MovedAndClosed(Snap());
      var failedProcess, failedThread := MoveOut();
      if env.read == Pipe.BrokerExited || env.read == Pipe.Failed {
        var _, _, _, _ := WaitAndCloseBrokerProcess(failedProcess, failedThread);
        flags := flags.(force := true);
        RequestCredentialsChangedAsync(50, flags.generation);
        return AGAIN;
      }
      r := ReturnNoCredentialNotFinished(failedProcess, failedThread);
    }

    /** The end of a session by its final message. */
    method FinishSession(m: JsonParser.Msg, usage: Cpus, env: Env) returns (r: Response)
      requires Owned()
      modifies this
      ensures Snap() == Finished(old(Snap())) && r == Answer(m.Value(), usage, env)
    {
      hide NextLong, Closed, MovedOut, Torn, Answer;
      ghost var was := Snap();
      MovedAndClosed(was);
      var process, thread := MoveOut();
      r := HandleParsedBrokerMessage(m, usage, env, process, thread);
      books := books.(terminals := books.terminals + 1);
    }

    /** The reading half: one message, or a timeout, or the loss of the broker. */
    method ServeSession(usage: Cpus, env: Env) returns (r: Response)
      requires Valid() && session.connected
      modifies this
      ensures Served(Snap(), r) == Serve(old(Snap()), usage, env)
    {
      hide ParseLine, Answer, Generation, Inv, NextLong;
      OwnsHandles(Snap());
      var m := new JsonParser.Msg();
      if env.read == Pipe.Timeout {
        var sessionGeneration := flags.generation;
        var nextDelayMs := if flags.awaiting then 300 else 2500;
        RequestCredentialsChangedAsync(nextDelayMs, sessionGeneration);
        return AGAIN;
      }
      if env.read != Pipe.Ok || env.message == [] {
        r := FailRead(env);
        return;
      }
      var parsed := JsonParser.ParseJsonLine(env.message, m);
      if !parsed {
        ResetBrokerSession();
        SetBrokerAwaitingFinal(false);
        UpdateBrokerFlowState(0);
        return AGAIN;
      }
      if m.typ == AUTH_PENDING {
        SetBrokerAwaitingFinal(true);
        UpdateBrokerFlowState(1);
        RequestCredentialsChangedAsync(300, flags.generation);
        return AGAIN;
      }
      if m.typ == AUTH_IDLE {
        SetBrokerAwaitingFinal(false);
        UpdateBrokerFlowState(2);
        RequestCredentialsChangedAsync(2500, flags.generation);
        return AGAIN;
      }
      r := FinishSession(m, usage, env);
    }

    /** The state machine LogonUI drives. */
    method GetSerialization(k: nat, env: Env) returns (r: Response)
      requires Valid() && k < |creds|
      modifies this
      ensures Valid()
      ensures Served(Snap(), r) == Session.GetSerialization(old(Snap()), old(creds)[k], env)
    {
      hide Serve, Started, Attempted, Inv;
      ghost var was := Snap();
      GetSerializationKeeps(was, creds[k], env);
      var usage := creds[k];
      LiveHandles(was);
      if session.pipe == 0 || session.process == 0 {
        StartedKeeps(was);
        var live := ConnectBroker(env);
        if !live {
          return AGAIN;
        }
        StartedLive(was);
      }
      r := ServeSession(usage, env);
    }
  }
}
