/** A session with its pipe: the calls of one session read one after another from the same pipe, each
    going on where the one before it stopped. */
module PipeRuns {
  import opened Unicode
  import opened Options
  import opened JsonObject
  import opened Messages
  import opened Session
  import opened SessionInvariant
  import opened SessionRuns
  import opened SessionFates
  import Pipe = Transport

  datatype Piped = Piped(session: State, pipe: Pipe.PipeState)

  /** An `Ask` is a GetSerialization whose read goes through the given slices; `sent` is all that the
      broker it starts, if it starts one, will write. */
  datatype Turn =
    | Other(e: Event)
    | Ask(k: nat, env: Env, slices: seq<Pipe.Slice>, start: nat, sent: seq<Bytes>)

  function PipeRead(p: Piped, t: Turn): Option<Pipe.Done>
    requires t.Ask?
  {
    var pipe := if p.session.session.connected then p.pipe else Pipe.PipeState([], t.sent);
    Pipe.UntilDone(pipe, true, t.slices, 0, t.start, 1200)
  }

  function Submission(t: Turn, d: Pipe.Done): Event
    requires t.Ask?
  {
    Submit(t.k, t.env.(read := d.result, message := d.out))
  }

  /** A call that has not come back from its read changes nothing yet. */
  function PipeStep(p: Piped, t: Turn): Piped {
    match t
    case Other(e) => if e.Submit? then p else p.(session := Step(p.session, e))
    case Ask(k, env, _, _, _) =>
      if k >= |p.session.creds| then p
      else if !Reaches(p.session, env) then p.(session := Step(p.session, Submit(k, env)))
      else
        match PipeRead(p, t)
        case None => p
        case Some(d) => Piped(Step(p.session, Submission(t, d)), d.pipe)
  }

  function PipeRun(p: Piped, ts: seq<Turn>): Piped
    decreases |ts|
  {
    if ts == [] then p else PipeRun(PipeStep(p, ts[0]), ts[1..])
  }

  /** The message a turn delivers, if its read is successful. */
  function Got(p: Piped, t: Turn): seq<Bytes> {
    if t.Ask? && t.k < |p.session.creds| && Reaches(p.session, t.env) && PipeRead(p, t).Some?
      && PipeRead(p, t).value.result == Pipe.Ok
    then [PipeRead(p, t).value.out]
    else []
  }

  function Delivered(p: Piped, ts: seq<Turn>): seq<Bytes>
    decreases |ts|
  {
    if ts == [] then [] else Got(p, ts[0]) + Delivered(PipeStep(p, ts[0]), ts[1..])
  }

  /** Every turn finds the session there; the last may end it. */
  predicate OneSession(p: Piped, ts: seq<Turn>)
    decreases |ts|
  {
    ts != [] ==> p.session.session.connected && OneSession(PipeStep(p, ts[0]), ts[1..])
  }

  /** `ms` comes out of the unread messages `u` in their order: each is the first that is left when
      some messages, or the start of one, are lost. */
  ghost predicate InOrder(u: seq<Bytes>, ms: seq<Bytes>)
    decreases |ms|
  {
    ms != [] ==>
      exists l: Pipe.Loss :: Pipe.Fits(u, l) && Pipe.Without(u, l) != [] && Pipe.Without(u, l)[0] == ms[0]
                             && InOrder(Pipe.Without(u, l)[1..], ms[1..])
  }

  /** A message after which the session goes on. */
  predicate Progress(m: Bytes) {
    var f := ParseLine(m);
    f.Some? && (f.value.typ == AUTH_PENDING || f.value.typ == AUTH_IDLE)
  }

  lemma LaterInOrder(u: seq<Bytes>, l: Pipe.Loss, ms: seq<Bytes>)
    requires Pipe.Fits(u, l) && InOrder(Pipe.Without(u, l), ms)
    ensures InOrder(u, ms)
  {
    hide Pipe.Fits, Pipe.Without, Pipe.Plus;
    if ms != [] {
      var v := Pipe.Without(u, l);
      var m: Pipe.Loss :| Pipe.Fits(v, m) && Pipe.Without(v, m) != [] && Pipe.Without(v, m)[0] == ms[0]
                          && InOrder(Pipe.Without(v, m)[1..], ms[1..]);
      Pipe.WithoutBoth(u, l, m);
      assert InOrder(Pipe.Without(u, Pipe.Plus(l, m))[1..], ms[1..]);
    }
  }

  lemma FirstInOrder(u: seq<Bytes>, l: Pipe.Loss, m: Bytes, ms: seq<Bytes>)
    requires Pipe.Fits(u, l) && Pipe.Without(u, l) != [] && Pipe.Without(u, l)[0] == m
    requires InOrder(Pipe.Without(u, l)[1..], ms)
    ensures InOrder(u, [m] + ms)
  {
    hide Pipe.Fits, Pipe.Without;
    var all := [m] + ms;
    assert all[0] == m && all[1..] == ms;
    assert Pipe.Fits(u, l) && InOrder(Pipe.Without(u, l)[1..], all[1..]);
  }

  lemma TurnKeeps(p: Piped, t: Turn)
    requires Inv(p.session)
    ensures Inv(PipeStep(p, t).session)
  {
    hide Inv, Step;
    if t.Other? {
      StepKeeps(p.session, t.e);
    } else {
      StepKeeps(p.session, Submit(t.k, t.env));
      if PipeRead(p, t).Some? {
        StepKeeps(p.session, Submission(t, PipeRead(p, t).value));
      }
    }
  }

  lemma LostBroker(s: State, t: Turn, d: Pipe.Done)
    requires Inv(s) && t.Ask? && t.k < |s.creds| && d.result != Pipe.Ok && d.result != Pipe.Timeout
    ensures !Step(s, Submission(t, d)).session.connected
  {
    hide Inv, Step;
    StaysLiveIff(s, t.k, Submission(t, d).env);
  }

  /** What a turn in a live session does to the pipe: it delivers the first message left, or, if the
      session goes on without one, at most loses some. */
  lemma TurnReads(p: Piped, t: Turn) returns (l: Pipe.Loss)
    requires Inv(p.session) && p.session.session.connected
    ensures var u, v := Pipe.Unread(p.pipe), Pipe.Unread(PipeStep(p, t).pipe);
            && Pipe.Fits(u, l)
            && (Got(p, t) != [] ==>
                  Pipe.Without(u, l) != [] && Pipe.Without(u, l)[0] == Got(p, t)[0] && v == Pipe.Without(u, l)[1..])
            && (Got(p, t) == [] && PipeStep(p, t).session.session.connected ==> v == Pipe.Without(u, l))
  {
    hide Inv, Step, Pipe.UntilDone, Pipe.Lost;
    l := Pipe.Loss(0, 0);
    if t.Ask? && t.k < |p.session.creds| && PipeRead(p, t).Some? {
      var d := PipeRead(p, t).value;
      if d.result == Pipe.Ok {
        Pipe.DeliversAllButLost(p.pipe, true, t.slices, 0, t.start, 1200);
        l := Pipe.Lost(p.pipe, true, t.slices, 0, t.start, 1200);
      } else if d.result == Pipe.Timeout {
        l := Pipe.TimeoutLeaves(p.pipe, true, t.slices, 0, t.start, 1200);
      } else {
        LostBroker(p.session, t, d);
      }
    }
  }

  /** A message that leaves the session in place is one of the two progress messages. */
  lemma GotProgress(p: Piped, t: Turn)
    requires Inv(p.session) && p.session.session.connected && Got(p, t) != []
             && PipeStep(p, t).session.session.connected
    ensures Progress(Got(p, t)[0])
  {
    hide Inv, Step, ParseLine, Pipe.UntilDone;
    var d := PipeRead(p, t).value;
    StaysLiveIff(p.session, t.k, Submission(t, d).env);
  }

  lemma NoneInOrder(u: seq<Bytes>)
    ensures InOrder(u, [])
  {
  }

  lemma GotOne(p: Piped, t: Turn)
    ensures |Got(p, t)| <= 1
  {
  }

  /** The calls of one session answer the broker's messages in their order: what they deliver comes out
      of the pipe in order, none twice and none made up, with losses only to late or interrupted reads;
      and every message but the last, which may be the final one, only reports progress. */
  lemma {:induction false} AnsweredInOrder(p: Piped, ts: seq<Turn>)
    requires Inv(p.session) && OneSession(p, ts)
    ensures InOrder(Pipe.Unread(p.pipe), Delivered(p, ts))
    ensures forall n | 0 <= n < |Delivered(p, ts)| - 1 :: Progress(Delivered(p, ts)[n])
    ensures PipeRun(p, ts).session.session.connected ==>
            forall n | 0 <= n < |Delivered(p, ts)| :: Progress(Delivered(p, ts)[n])
    decreases |ts|
  {
    hide Inv, PipeStep, Got, Progress, Pipe.Unread, Pipe.Without, Pipe.Fits, InOrder;
    if ts == [] {
      NoneInOrder(Pipe.Unread(p.pipe));
    } else {
      var q := PipeStep(p, ts[0]);
      var got, rest := Got(p, ts[0]), Delivered(q, ts[1..]);
      TurnKeeps(p, ts[0]);
      AnsweredInOrder(q, ts[1..]);
      var l := TurnReads(p, ts[0]);
      GotOne(p, ts[0]);
      if got == [] {
        assert got + rest == rest;
        if q.session.session.connected {
          LaterInOrder(Pipe.Unread(p.pipe), l, rest);
        } else {
          NoneInOrder(Pipe.Unread(p.pipe));
        }
      } else {
        FirstInOrder(Pipe.Unread(p.pipe), l, got[0], rest);
        assert got == [got[0]];
        if q.session.session.connected {
          GotProgress(p, ts[0]);
        }
      }
    }
  }

  predicate PunctualTurns(ts: seq<Turn>) { forall k | 0 <= k < |ts| && ts[k].Ask? :: Pipe.Punctual(ts[k].slices) }

  lemma PunctualTurn(p: Piped, t: Turn)
    requires Inv(p.session) && p.session.session.connected && p.pipe.rest == [] && (t.Ask? ==> Pipe.Punctual(t.slices))
    ensures var q := PipeStep(p, t);
            && (Got(p, t) != [] ==> p.pipe.queue != [] && Got(p, t) == [p.pipe.queue[0]]
                                    && q.pipe == Pipe.PipeState([], p.pipe.queue[1..]))
            && (Got(p, t) == [] && q.session.session.connected ==> q.pipe == p.pipe)
  {
    hide Inv, Step, Pipe.UntilDone, Pipe.Punctual;
    if t.Ask? && t.k < |p.session.creds| && PipeRead(p, t).Some? {
      var d := PipeRead(p, t).value;
      Pipe.WholeMessages(p.pipe, true, t.slices, 0, t.start, 1200);
      if d.result != Pipe.Ok && d.result != Pipe.Timeout {
        LostBroker(p.session, t, d);
      }
    }
  }

  /** And without late or interrupted reads, exactly one after another: what the calls of a session
      have delivered and what is still in its pipe are together what was in it, whole and in order. */
  lemma {:induction false} NothingSkipped(p: Piped, ts: seq<Turn>)
    requires Inv(p.session) && OneSession(p, ts) && p.pipe.rest == [] && PunctualTurns(ts)
    ensures Delivered(p, ts) <= p.pipe.queue
    ensures PipeRun(p, ts).session.session.connected ==> Delivered(p, ts) + PipeRun(p, ts).pipe.queue == p.pipe.queue
    decreases |ts|
  {
    hide Inv, PipeStep, Got;
    if ts != [] {
      var q := PipeStep(p, ts[0]);
      var got, rest := Got(p, ts[0]), Delivered(q, ts[1..]);
      TurnKeeps(p, ts[0]);
      PunctualTurn(p, ts[0]);
      assert PunctualTurns(ts[1..]);
      if q.session.session.connected {
        NothingSkipped(q, ts[1..]);
        if got == [] {
          assert got + rest == rest;
        } else {
          assert p.pipe.queue == [p.pipe.queue[0]] + p.pipe.queue[1..];
          assert got + rest + PipeRun(q, ts[1..]).pipe.queue == got + (rest + PipeRun(q, ts[1..]).pipe.queue);
        }
      } else {
        assert rest == [];
        assert got + rest == got;
      }
    }
  }

  // ---------- from the start of a session ----------

  /** The call connects a broker that will write `t.sent`, and comes back from its read. */
  predicate Starts(p: Piped, t: Turn) {
    && t.Ask? && t.k < |p.session.creds| && !p.session.session.connected
    && Reaches(p.session, t.env) && PipeRead(p, t).Some?
  }

  /** As if the session had been there and the broker's messages in its pipe. */
  function Connected(p: Piped, t: Turn): Piped
    requires t.Ask?
  {
    Piped(Started(p.session), Pipe.PipeState([], t.sent))
  }

  lemma StartsAlike(p: Piped, t: Turn)
    requires Inv(p.session) && Starts(p, t)
    ensures var q := Connected(p, t);
            && Inv(q.session) && q.session.session.connected
            && PipeStep(q, t) == PipeStep(p, t) && Got(q, t) == Got(p, t)
  {
    hide Inv, Serve, Pipe.UntilDone;
    StartedKeeps(p.session);
  }

  /** From the call that starts a session to the one that ends it, the messages answered come out of
      what that session's broker writes, in order; without late or interrupted reads they are its
      first messages, none skipped. All but the last only report progress. */
  lemma WholeSession(p: Piped, t: Turn, ts: seq<Turn>)
    requires Inv(p.session) && Starts(p, t) && OneSession(PipeStep(p, t), ts)
    ensures var all := Delivered(p, [t] + ts);
            && InOrder(t.sent, all)
            && (PunctualTurns([t] + ts) ==> all <= t.sent)
            && forall n | 0 <= n < |all| - 1 :: Progress(all[n])
  {
    hide Inv, PipeStep, Got, Progress, InOrder;
    var q := Connected(p, t);
    var turns := [t] + ts;
    assert turns[0] == t && turns[1..] == ts;
    StartsAlike(p, t);
    assert Delivered(q, turns) == Delivered(p, turns);
    AnsweredInOrder(q, turns);
    assert Pipe.Unread(q.pipe) == t.sent;
    if PunctualTurns(turns) {
      NothingSkipped(q, turns);
    }
  }
}
