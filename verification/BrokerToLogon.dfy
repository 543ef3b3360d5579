/** The whole way: from the messages waiting in the pipe, through the sliced read, the session and
    the parser, to what LogonUI is handed. */
module BrokerToLogon {
  import Pipe = Transport
  import Results = TransportResults
  import Effects
  import opened Unicode
  import opened Options
  import opened JsonObject
  import opened Messages
  import opened Packing
  import opened BlobDecoding
  import opened EndToEnd
  import opened Session
  import opened SessionRuns
  import opened SessionFates

  /** What the call reads is what the sliced read returns, with the limits GetSerialization sets. */
  predicate ReadsFrom(env: Env, p: Pipe.PipeState, slices: seq<Pipe.Slice>, start: nat) {
    var d := Pipe.UntilDone(p, true, slices, 0, start, 1200);
    d.Some? && env.read == d.value.result && (env.read == Pipe.Ok ==> env.message == d.value.out)
  }

  /** On every run and whatever the pipe does, a GetSerialization that has a session gets a message,
      keeps the session after a timeout, or arranges the recovery: the statement after that branch,
      for a failure that arranges nothing, is never reached. */
  lemma EveryReadAnswered(es: seq<Event>, k: nat, env: Env, p: Pipe.PipeState, slices: seq<Pipe.Slice>, start: nat)
    requires k < |Run(INITIAL, es).creds| && Reaches(Run(INITIAL, es), env) && ReadsFrom(env, p, slices, start)
    ensures var s := Run(INITIAL, es); var t := Step(s, Submit(k, env));
            || (env.read == Pipe.Ok && env.message != [] && Seen(s, env) == ParseLine(env.message))
            || (env.read == Pipe.Timeout && t.session.connected)
            || (t.flags.force && t.session == NO_SESSION && |t.requests| == |s.requests| + 1)
  {
    hide Run, Inv, ParseLine, Step, Pipe.UntilDone;
    ReachableInv(es);
    if env.read == Pipe.Ok {
      Pipe.DeliversAllButLost(p, true, slices, 0, start, 1200);
    }
    NothingFallsThrough(Run(INITIAL, es), k, env);
  }

  /** When a slice reached finds the pipe broken or the process gone, the call ends the session, forces the
      next submission and asks for a refresh in 50 ms; it does not take it for a timeout. */
  lemma BrokenPipeRecovers(es: seq<Event>, k: nat, env: Env, p: Pipe.PipeState, slices: seq<Pipe.Slice>, start: nat,
                           n: nat)
    requires k < |Run(INITIAL, es).creds| && Reaches(Run(INITIAL, es), env) && ReadsFrom(env, p, slices, start)
    requires n < |slices| && Results.Reached(p, true, slices, 0, n, start, 1200)
    requires Results.MeetsBroken(Results.Before(p, true, slices, 0, n), true, slices[n].script)
    ensures var s := Run(INITIAL, es); var t := Step(s, Submit(k, env));
            && t.session == BrokerSession(0, 0, 0, false) && t.handles.open == {} && t.flags.force && !t.flags.active
            && t.requests == s.requests + [Refresh(50, t.flags.generation)]
  {
    hide Run, Inv, Step, Pipe.UntilDone, Results.Reached, Results.MeetsBroken, Results.Before, Generation;
    ReachableInv(es);
    Results.BrokenIsReported(p, true, slices, n, start, 1200);
    Effects.RequestsExactly(Run(INITIAL, es), k, env);
    Effects.FlagsExactly(Run(INITIAL, es), k, env);
    Effects.SessionExactly(Run(INITIAL, es), k, env);
  }

  /** A credential is returned whose three fields LSA reads back as exactly ".", the name and the
      password, whose size is the blob's, and whose session is gone. */
  predicate Delivers(o: Stepped, package: nat, sam: Units, password: Units) {
    && o.state.session == NO_SESSION
    && o.output.Answered? && o.output.response.code == ReturnCredential && o.output.response.logon.Some?
    && var l := o.output.response.logon.value;
    && HEADER_SIZE <= |l.blob|
    && FieldFaithful(l.blob, DOMAIN_AT, DOT) && FieldFaithful(l.blob, USER_AT, sam)
       && FieldFaithful(l.blob, PASSWORD_AT, password)
    && l.size == |l.blob| && l.package == package
  }

  /** The first message left, when what timed-out slices took is gone, is `line`. */
  predicate NextIs(p: Pipe.PipeState, slices: seq<Pipe.Slice>, start: nat, line: Bytes) {
    var lost := Pipe.Lost(p, true, slices, 0, start, 1200);
    Pipe.Fits(Pipe.Unread(p), lost) && var left := Pipe.Without(Pipe.Unread(p), lost); left != [] && left[0] == line
  }

  /** Where no slice times out inside a message, that is the next message in the pipe. */
  lemma NextInQueue(p: Pipe.PipeState, slices: seq<Pipe.Slice>, start: nat)
    requires p.rest == [] && p.queue != [] && Pipe.Punctual(slices)
    ensures NextIs(p, slices, start, p.queue[0])
  {
    Pipe.PunctualLosesNothing(p, true, slices, 0, start, 1200);
  }

  lemma LineNotEmpty(l: Line)
    ensures LineText(l) != []
  {
  }

  lemma AnswersWith(s: State, k: nat, env: Env, f: Fields)
    requires Inv(s) && k < |s.creds| && Reaches(s, env)
    requires env.read == Pipe.Ok && env.message != [] && ParseLine(env.message) == Some(f)
    requires f.typ == AUTH_SUCCESS && ValidUtf8(f.sam) && ValidUtf8(f.password) && Widen(f.sam) != []
    requires env.package.Some? && env.haveMemory
    ensures var o := StepOut(s, Submit(k, env)); var b := MsvBlob(DOT, Widen(f.sam), Widen(f.password));
            && o.output == Answered(Response(ReturnCredential, Some(Logon(b, |b| % 0x1_0000_0000, env.package.value))))
            && o.state.session == NO_SESSION
  {
    hide Inv, ParseLine, MsvBlob, Widen, ValidUtf8, GetSerialization, BlobSize;
    CredentialIff(s, k, env);
  }

  /** On every run: when the first message left in the pipe is an AUTH_SUCCESS line, in any layout,
      for a user name and a password that MSV can hold, a successful read delivers exactly that name
      and password. */
  lemma LogonFidelity(es: seq<Event>, k: nat, env: Env, p: Pipe.PipeState, slices: seq<Pipe.Slice>, start: nat,
                      l: Line, sam: Units, password: Units)
    requires k < |Run(INITIAL, es).creds| && Reaches(Run(INITIAL, es), env)
    requires Carries(l, sam, password) && sam != [] && |sam| <= MAX_UNITS && |password| <= MAX_UNITS
    requires NextIs(p, slices, start, LineText(l))
    requires ReadsFrom(env, p, slices, start) && env.read == Pipe.Ok
    requires env.package.Some? && env.haveMemory
    ensures Delivers(StepOut(Run(INITIAL, es), Submit(k, env)), env.package.value, sam, password)
  {
    hide Run, Inv, ParseLine, FieldFaithful, MsvBlob, Carries, LineText, Widen, ValidUtf8, WellFormed16,
        Pipe.UntilDone, StepOut, Reaches, Pipe.Lost, Pipe.Fits, Pipe.Without, Pipe.Unread;
    var s := Run(INITIAL, es);
    ReachableInv(es);
    Pipe.DeliversAllButLost(p, true, slices, 0, start, 1200);
    CredentialFidelity(l, sam, password);
    assert LineText(l) != [] by { LineNotEmpty(l); }
    AnswersWith(s, k, env, ParseLine(env.message).value);
  }
}
