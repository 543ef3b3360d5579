/** Reading one message from the broker's pipe.

    The pipe carries whole messages; a read takes at most 8192 bytes of the message at the head and
    leaves the rest for the next read. How each attempt of the loop turns out (an event that cannot
    be made, a broken pipe, a wait that times out, ...) is a script, and so are the clock and the
    broker's life between slices. A read that is cancelled may have completed all the same: the reader
    never collects what such a late read has taken off the pipe. */
module Transport {
  import opened Unicode
  import opened Options

  const CHUNK: nat := 8192
  const MAX_MESSAGE: nat := 262144
  const INFINITE: nat := 0xFFFF_FFFF

  datatype ReadResult = Ok | Timeout | BrokerExited | Failed

  /** What is left of a message partly read, and the messages behind it. */
  datatype PipeState = PipeState(rest: Bytes, queue: seq<Bytes>)

  /** `late` marks a wait that ends as its read completes. */
  datatype Attempt =
    | NoEvent | BrokenNow | ErrorNow | Immediate
    | Signalled | SignalledBroken | SignalledError
    | ProcessExited(late: bool) | WaitTimesOut(late: bool) | WaitFails(late: bool)

  /** The message the next read takes from. */
  function Head(p: PipeState): Option<Bytes> {
    if p.rest != [] then Some(p.rest) else if p.queue != [] then Some(p.queue[0]) else None
  }

  function Behind(p: PipeState): seq<Bytes> {
    if p.rest != [] || p.queue == [] then p.queue else p.queue[1..]
  }

  function Take(m: Bytes): nat { if |m| <= CHUNK then |m| else CHUNK }

  function HeadSize(p: PipeState): nat { if Head(p).Some? then |Head(p).value| else 0 }

  /** Attempts past the end of a script find the pipe ready. */
  function At(script: seq<Attempt>, i: nat): Attempt { if i < |script| then script[i] else Immediate }

  predicate Ready(a: Attempt) { a.Immediate? || a.Signalled? }

  /** How an attempt that reads nothing ends the call; without a process handle there is nothing to
      wait for but the event. */
  function Fate(a: Attempt, hasProcess: bool): ReadResult
    requires !Ready(a)
  {
    match a
    case BrokenNow | SignalledBroken => BrokerExited
    case ProcessExited(_) => if hasProcess then BrokerExited else Timeout
    case WaitTimesOut(_) => Timeout
    case _ => Failed
  }

  predicate Late(a: Attempt) { (a.ProcessExited? || a.WaitTimesOut? || a.WaitFails?) && a.late }

  /** The pipe after a read that nobody collects. */
  function Uncollected(p: PipeState, late: bool): PipeState {
    if late && Head(p).Some? then PipeState(Head(p).value[Take(Head(p).value)..], Behind(p)) else p
  }

  datatype Reading = Reading(result: ReadResult, out: Bytes, pipe: PipeState)

  /** One call of the message reader, from its `i`-th attempt on. */
  function ReadMessage(p: PipeState, hasProcess: bool, script: seq<Attempt>, i: nat, out: Bytes): Reading
    decreases HeadSize(p)
  {
    var a := At(script, i);
    if !Ready(a) then Reading(Fate(a, hasProcess), out, Uncollected(p, Late(a)))
    else if Head(p) == None then Reading(Timeout, out, p)
    else
      var m := Head(p).value;
      var q := PipeState(m[Take(m)..], Behind(p));
      if m == [] then Reading(Failed, out, q)
      else if |out| + Take(m) > MAX_MESSAGE then Reading(Failed, [], q)
      else if |m| <= CHUNK then Reading(Ok, out + m, q)
      else ReadMessage(q, hasProcess, script, i + 1, out + m[..CHUNK])
  }

  // ---------- the reader ----------

  class MessagePipe {
    var state: PipeState

    constructor (queue: seq<Bytes>)
      ensures state == PipeState([], queue)
    {
      state := PipeState([], queue);
    }

    /** A read is cancelled; what a late one took is gone. */
    method CancelIoEx(late: bool)
      modifies this
      ensures state == Uncollected(old(state), late)
    {
      state := Uncollected(state, late);
    }

    /** ReadFile on a message pipe with something to read: `more` is ERROR_MORE_DATA. */
    method ReadFile(buf: array<Byte>) returns (cbRead: nat, more: bool)
      requires buf.Length == CHUNK && Head(state).Some?
      modifies this, buf
      ensures var m := old(Head(state).value);
              && cbRead == Take(m) && (more <==> cbRead < |m|)
              && state == PipeState(m[cbRead..], old(Behind(state)))
              && buf[..cbRead] == m[..cbRead]
      ensures forall k | cbRead <= k < buf.Length :: buf[k] == old(buf[k])
    {
      var m := Head(state).value;
      cbRead := Take(m);
      more := cbRead < |m|;
      state := PipeState(m[cbRead..], Behind(state));
      for k := 0 to cbRead
        modifies buf
        invariant buf[..k] == m[..k] && forall j | k <= j < buf.Length :: buf[j] == old(buf[j])
      {
        buf[k] := m[k];
      }
    }
  }

  ghost predicate Zero(buf: array<Byte>)
    reads buf
  {
    forall k | 0 <= k < buf.Length :: buf[k] == 0
  }

  /** A read that fails or is cancelled may have left anything in the buffer. */
  method Spoil(buf: array<Byte>)
    modifies buf
  {
    for k := 0 to buf.Length {
      var b: Byte := *;
      buf[k] := b;
    }
  }

  method SecureZeroMemory(buf: array<Byte>, n: nat)
    requires n <= buf.Length && forall k | n <= k < buf.Length :: buf[k] == 0
    modifies buf
    ensures Zero(buf)
  {
    for j := 0 to n
      invariant forall k | 0 <= k < j || n <= k < buf.Length :: buf[k] == 0
    {
      buf[j] := 0;
    }
  }

  method SecureZeroVector(buf: array<Byte>)
    modifies buf
    ensures Zero(buf)
  {
    SecureZeroMemory(buf, buf.Length);
  }

  /** The read loop. The chunk buffer, handed back so that its contents can be spoken of, holds
      nothing but zeros at every loop head and on every return. */
  method ReadPipeMessageWithTimeout(pipe: MessagePipe, hasProcess: bool, script: seq<Attempt>)
    returns (result: ReadResult, outMsg: Bytes, buf: array<Byte>)
    modifies pipe
    ensures Reading(result, outMsg, pipe.state) == ReadMessage(old(pipe.state), hasProcess, script, 0, [])
    ensures fresh(buf) && buf.Length == CHUNK && Zero(buf)
  {
    outMsg := [];
    buf := new Byte[CHUNK](_ => 0);
    var i := 0;
    while true
      invariant fresh(buf) && buf.Length == CHUNK && Zero(buf)
      invariant |outMsg| <= MAX_MESSAGE
      invariant ReadMessage(pipe.state, hasProcess, script, i, outMsg) ==
                ReadMessage(old(pipe.state), hasProcess, script, 0, [])
      decreases HeadSize(pipe.state)
    {
      var a := At(script, i);
      if a.NoEvent? {
        SecureZeroVector(buf);
        return Failed, outMsg, buf;
      }
      if !Ready(a) || Head(pipe.state) == None {
        Spoil(buf);
      }
      if a.BrokenNow? {
        SecureZeroVector(buf);
        return BrokerExited, outMsg, buf;
      }
      if a.ErrorNow? {
        SecureZeroVector(buf);
        return Failed, outMsg, buf;
      }
      if a.SignalledBroken? {
        SecureZeroVector(buf);
        return BrokerExited, outMsg, buf;
      }
      if a.SignalledError? {
        SecureZeroVector(buf);
        return Failed, outMsg, buf;
      }
      if a.ProcessExited? && hasProcess {
        pipe.CancelIoEx(a.late);
        SecureZeroVector(buf);
        return BrokerExited, outMsg, buf;
      }
      if a.WaitTimesOut? || a.ProcessExited? {
        pipe.CancelIoEx(a.late);
        SecureZeroVector(buf);
        return Timeout, outMsg, buf;
      }
      if a.WaitFails? {
        pipe.CancelIoEx(a.late);
        SecureZeroVector(buf);
        return Failed, outMsg, buf;
      }
      if Head(pipe.state) == None {
        pipe.CancelIoEx(false);
        SecureZeroVector(buf);
        return Timeout, outMsg, buf;
      }
      var cbRead, more := pipe.ReadFile(buf);
      if cbRead == 0 {
        SecureZeroVector(buf);
        return Failed, outMsg, buf;
      }
      outMsg := outMsg + buf[..cbRead];
      assert |outMsg| <= MAX_MESSAGE + CHUNK;
      SecureZeroMemory(buf, cbRead);
      if |outMsg| > MAX_MESSAGE {
        SecureZeroVector(buf);
        outMsg := [];
        return Failed, outMsg, buf;
      }
      if !more {
        return Ok, outMsg, buf;
      }
      i := i + 1;
    }
  }

  // ---------- what one read delivers ----------

  /** What a read may leave behind: nothing touched, or a beginning of the head message handed over,
      at most one chunk of it taken by a late read, and an end of it still in the pipe. */
  predicate Partway(p: PipeState, out: Bytes, r: Reading) {
    || (r.out == out && r.pipe == p)
    || (&& Head(p).Some? && r.pipe.queue == Behind(p)
        && var m := Head(p).value; var n := |r.out| - |out|; var left := |r.pipe.rest|;
        && 0 <= n && n + left <= |m| <= n + left + CHUNK
        && r.out == out + m[..n] && r.pipe.rest == m[|m| - left..])
  }

  lemma UncollectedPartway(p: PipeState, out: Bytes, r: Reading, late: bool)
    requires r.out == out && r.pipe == Uncollected(p, late)
    ensures Partway(p, out, r)
  {
    if late && Head(p).Some? {
      assert out + Head(p).value[..0] == out;
    }
  }

  lemma TakenTogether(out: Bytes, m: Bytes)
    requires CHUNK < |m|
    ensures out + m[..CHUNK] + m[CHUNK..] == out + m
  {
    assert m[..CHUNK] + m[CHUNK..] == m;
  }

  lemma CutTwice(m: Bytes, n: nat, left: nat)
    requires CHUNK < |m| && n + left <= |m| - CHUNK
    ensures m[..CHUNK + n] == m[..CHUNK] + m[CHUNK..][..n]
    ensures m[CHUNK..][|m| - CHUNK - left..] == m[|m| - left..]
  {
  }

  lemma ChunkFirst(p: PipeState, out: Bytes, r: Reading)
    requires Head(p).Some? && CHUNK < |Head(p).value|
    requires Partway(PipeState(Head(p).value[CHUNK..], Behind(p)), out + Head(p).value[..CHUNK], r)
    ensures Partway(p, out, r)
  {
    var m := Head(p).value;
    var q := PipeState(m[CHUNK..], Behind(p));
    var n, left := |r.out| - |out|, |r.pipe.rest|;
    if r.pipe == q && r.out == out + m[..CHUNK] {
      assert r.pipe.rest == m[|m| - left..];
    } else {
      CutTwice(m, n - CHUNK, left);
      assert out + (m[..CHUNK] + m[CHUNK..][..n - CHUNK]) == out + m[..CHUNK] + m[CHUNK..][..n - CHUNK];
    }
  }

  /** Whatever the attempts do: a successful read delivers exactly the rest of the head message,
      neither empty nor longer than the cap, and a timeout or a lost broker takes nothing but what it
      hands over and one late chunk. */
  lemma {:induction false} ReadDelivers(p: PipeState, hasProcess: bool, script: seq<Attempt>, i: nat, out: Bytes)
    requires |out| <= MAX_MESSAGE
    ensures var r := ReadMessage(p, hasProcess, script, i, out);
            && |r.out| <= MAX_MESSAGE
            && (r.result == Ok ==>
                  && Head(p).Some? && Head(p).value != []
                  && r.out == out + Head(p).value && r.pipe == PipeState([], Behind(p)))
            && (r.result == Timeout || r.result == BrokerExited ==> Partway(p, out, r))
    decreases HeadSize(p)
  {
    hide Partway;
    var a := At(script, i);
    var r := ReadMessage(p, hasProcess, script, i, out);
    if !Ready(a) || Head(p) == None {
      UncollectedPartway(p, out, r, Late(a) && !Ready(a));
    } else {
      var m := Head(p).value;
      if CHUNK < |m| && |out| + CHUNK <= MAX_MESSAGE {
        var q := PipeState(m[CHUNK..], Behind(p));
        ReadDelivers(q, hasProcess, script, i + 1, out + m[..CHUNK]);
        TakenTogether(out, m);
        if r.result == Timeout || r.result == BrokerExited {
          ChunkFirst(p, out, r);
        }
      }
    }
  }

  predicate RestReady(script: seq<Attempt>) { forall i | 1 <= i < |script| :: Ready(script[i]) }

  /** Where reading an over-long message stops: one chunk past the cap, or at its end. */
  function Stop(read: nat, m: Bytes): nat
    requires read <= MAX_MESSAGE
  {
    if |m| <= MAX_MESSAGE + CHUNK - read then |m| else MAX_MESSAGE + CHUNK - read
  }

  /** One attempt that finds something to read. */
  lemma ReadOn(p: PipeState, hasProcess: bool, script: seq<Attempt>, i: nat, out: Bytes)
    requires Ready(At(script, i)) && Head(p).Some? && Head(p).value != []
    ensures var m := Head(p).value; var q := PipeState(m[Take(m)..], Behind(p));
            ReadMessage(p, hasProcess, script, i, out) ==
            if |out| + Take(m) > MAX_MESSAGE then Reading(Failed, [], q)
            else if |m| <= CHUNK then Reading(Ok, out + m, q)
            else ReadMessage(q, hasProcess, script, i + 1, out + m[..CHUNK])
  {
  }

  lemma BehindRest(p: PipeState)
    requires Head(p).Some? && CHUNK < |Head(p).value|
    ensures var m := Head(p).value; var q := PipeState(m[CHUNK..], Behind(p));
            Head(q) == Some(m[CHUNK..]) && Behind(q) == Behind(p) && HeadSize(q) < HeadSize(p)
  {
  }

  lemma {:induction false} DrainsHead(p: PipeState, hasProcess: bool, script: seq<Attempt>, i: nat, out: Bytes)
    requires RestReady(script) && Ready(At(script, i)) && Head(p).Some? && Head(p).value != []
    requires |out| % CHUNK == 0 && |out| <= MAX_MESSAGE
    ensures var m := Head(p).value;
            ReadMessage(p, hasProcess, script, i, out) ==
            if |out| + |m| <= MAX_MESSAGE then Reading(Ok, out + m, PipeState([], Behind(p)))
            else Reading(Failed, [], PipeState(m[Stop(|out|, m)..], Behind(p)))
    decreases HeadSize(p)
  {
    hide ReadMessage, Behind;
    var m := Head(p).value;
    ReadOn(p, hasProcess, script, i, out);
    if CHUNK < |m| && |out| + CHUNK <= MAX_MESSAGE {
      var q := PipeState(m[CHUNK..], Behind(p));
      DrainsHead(q, hasProcess, script, i + 1, out + m[..CHUNK]);
      BehindRest(p);
      TakenTogether(out, m);
      if |out| + |m| > MAX_MESSAGE {
        assert m[CHUNK..][Stop(|out| + CHUNK, m[CHUNK..])..] == m[Stop(|out|, m)..];
      }
    }
  }

  /** Where the rest of a message once begun is there to be read: a read that starts between
      messages either delivers nothing, taking no more than a late read does, or delivers exactly the
      next message if that is neither empty nor over 262144 bytes, and fails empty-handed if it is. */
  lemma MessageReassembled(p: PipeState, hasProcess: bool, script: seq<Attempt>)
    requires p.rest == [] && RestReady(script)
    ensures var r := ReadMessage(p, hasProcess, script, 0, []);
            if !Ready(At(script, 0)) || p.queue == [] then
              r.result != Ok && r.out == [] && r.pipe == Uncollected(p, Late(At(script, 0)))
            else
              var m := p.queue[0];
              if 0 < |m| <= MAX_MESSAGE then r == Reading(Ok, m, PipeState([], p.queue[1..]))
              else r.result == Failed && r.out == [] && r.pipe.queue == p.queue[1..] && (m == [] ==> r.pipe.rest == [])
  {
    if Ready(At(script, 0)) && p.queue != [] && p.queue[0] != [] {
      DrainsHead(p, hasProcess, script, 0, []);
      assert [] + p.queue[0] == p.queue[0];
    }
  }

  // ---------- slices ----------

  /** One slice: its attempts, and the broker's life and the clock when it is over. */
  datatype Slice = Slice(script: seq<Attempt>, alive: bool, clock: nat)

  datatype Done = Done(result: ReadResult, out: Bytes, pipe: PipeState, slices: nat)

  predicate Expired(overall: nat, start: nat, clock: nat) { overall != INFINITE && clock - start >= overall }

  function Verdict(s: Slice, hasProcess: bool, start: nat, overall: nat): Option<ReadResult> {
    if !hasProcess then Some(Timeout)
    else if !s.alive then Some(BrokerExited)
    else if Expired(overall, start, s.clock) then Some(Timeout)
    else None
  }

  /** The sliced read, from its `n`-th slice on; None while it has not returned yet. */
  function UntilDone(p: PipeState, hasProcess: bool, slices: seq<Slice>, n: nat, start: nat, overall: nat): Option<Done>
    decreases |slices| - n
  {
    if n >= |slices| then None
    else
      var r := ReadMessage(p, hasProcess, slices[n].script, 0, []);
      if r.result != Timeout then Some(Done(r.result, r.out, r.pipe, n + 1))
      else
        var v := Verdict(slices[n], hasProcess, start, overall);
        if v.Some? then Some(Done(v.value, r.out, r.pipe, n + 1))
        else UntilDone(r.pipe, hasProcess, slices, n + 1, start, overall)
  }

  method ReadPipeMessageUntilDone(pipe: MessagePipe, hasProcess: bool, slices: seq<Slice>, start: nat, overall: nat)
    returns (returned: bool, result: ReadResult, outMsg: Bytes, n: nat)
    modifies pipe
    ensures var d := UntilDone(old(pipe.state), hasProcess, slices, 0, start, overall);
            if returned then d == Some(Done(result, outMsg, pipe.state, n)) else d == None
  {
    n, outMsg := 0, [];
    while n < |slices|
      invariant n <= |slices|
      invariant UntilDone(pipe.state, hasProcess, slices, n, start, overall) ==
                UntilDone(old(pipe.state), hasProcess, slices, 0, start, overall)
    {
      var rr, buf;
      rr, outMsg, buf := ReadPipeMessageWithTimeout(pipe, hasProcess, slices[n].script);
      n := n + 1;
      if rr != Timeout {
        return true, rr, outMsg, n;
      }
      if !hasProcess {
        return true, Timeout, outMsg, n;
      }
      if !slices[n - 1].alive {
        return true, BrokerExited, outMsg, n;
      }
      if overall != INFINITE {
        var elapsed := slices[n - 1].clock - start;
        if elapsed >= overall {
          return true, Timeout, outMsg, n;
        }
      }
    }
    return false, Timeout, outMsg, n;
  }

  /** Every slice that times out has waited its full length. */
  predicate Lasts(p: PipeState, hasProcess: bool, slices: seq<Slice>, n: nat, since: nat, ms: nat)
    decreases |slices| - n
  {
    n < |slices| ==>
      var r := ReadMessage(p, hasProcess, slices[n].script, 0, []);
      r.result == Timeout ==>
        since + ms <= slices[n].clock && Lasts(r.pipe, hasProcess, slices, n + 1, slices[n].clock, ms)
  }

  lemma {:induction false} SlicesFrom(p: PipeState, hasProcess: bool, slices: seq<Slice>, n: nat, start: nat,
      since: nat, ms: nat, overall: nat)
    requires Lasts(p, hasProcess, slices, n, since, ms) && overall != INFINITE && 0 < ms
    requires start + n * ms <= since && (n == 0 || since < start + overall) && n <= |slices|
    requires n == 0 || since == slices[n - 1].clock
    requires 0 < |slices| && overall <= |slices| * ms
    ensures var d := UntilDone(p, hasProcess, slices, n, start, overall);
            && d.Some? && n < d.value.slices <= |slices|
            && (d.value.slices == 1 || (d.value.slices - 1) * ms < overall)
            && (d.value.result == Timeout && hasProcess ==>
                  && slices[d.value.slices - 1].alive && start + overall <= slices[d.value.slices - 1].clock
                  && (d.value.slices == 1 || slices[d.value.slices - 2].clock < start + overall))
    decreases |slices| - n
  {
    if n == |slices| {
      assert false;
    }
    var r := ReadMessage(p, hasProcess, slices[n].script, 0, []);
    assert (n + 1) * ms == n * ms + ms;
    if r.result == Timeout && Verdict(slices[n], hasProcess, start, overall) == None {
      SlicesFrom(r.pipe, hasProcess, slices, n + 1, start, slices[n].clock, ms, overall);
    }
  }

  /** With a finite limit the sliced read ends: it runs one slice, or at most ceil(overall / slice),
      and if it reports a timeout the broker was alive at the end and the time spent is at least the
      limit and less than the limit plus the last slice. */
  lemma SliceBound(p: PipeState, slices: seq<Slice>, start: nat, sliceMs: nat, overall: nat)
    requires var ms := if sliceMs == 0 then 30000 else sliceMs;
             && overall != 0xFFFF_FFFF && Lasts(p, true, slices, 0, start, ms)
             && 0 < |slices| && overall <= |slices| * ms
    ensures var ms := if sliceMs == 0 then 30000 else sliceMs; var d := UntilDone(p, true, slices, 0, start, overall);
            && d.Some? && 0 < d.value.slices <= |slices|
            && var n := d.value.slices;
            && (n == 1 || (n - 1) * ms < overall)
            && (d.value.result == Timeout ==>
                  && slices[n - 1].alive && overall <= slices[n - 1].clock - start
                  && (n == 1 || slices[n - 1].clock - start < overall + (slices[n - 1].clock - slices[n - 2].clock)))
  {
    SlicesFrom(p, true, slices, 0, start, start, if sliceMs == 0 then 30000 else sliceMs, overall);
  }

  /** The limits GetSerialization passes, 250 and 1200 ms, allow five slices. */
  lemma FiveSlices(p: PipeState, slices: seq<Slice>, start: nat)
    requires Lasts(p, true, slices, 0, start, 250) && |slices| >= 5
    ensures var d := UntilDone(p, true, slices, 0, start, 1200); d.Some? && d.value.slices <= 5
  {
    SliceBound(p, slices, start, 250, 1200);
  }

  // ---------- what is lost ----------

  /** The messages still to be read, the first perhaps in part. */
  function Unread(p: PipeState): seq<Bytes> { (if p.rest != [] then [p.rest] else []) + p.queue }

  /** Whole messages, and then bytes of the next. */
  datatype Loss = Loss(messages: nat, bytes: nat)

  predicate Fits(u: seq<Bytes>, l: Loss) {
    l.messages <= |u| && (l.bytes > 0 ==> l.messages < |u| && l.bytes < |u[l.messages]|)
  }

  function Without(u: seq<Bytes>, l: Loss): seq<Bytes>
    requires Fits(u, l)
  {
    if l.bytes == 0 then u[l.messages..] else [u[l.messages][l.bytes..]] + u[l.messages + 1..]
  }

  function Plus(a: Loss, b: Loss): Loss {
    if b.messages == 0 then Loss(a.messages, a.bytes + b.bytes) else Loss(a.messages + b.messages, b.bytes)
  }

  lemma LeftAt(u: seq<Bytes>, l: Loss)
    requires Fits(u, l)
    ensures var v := Without(u, l);
            && l.messages <= |u| && (l.messages < |u| ==> l.bytes <= |u[l.messages]|)
            && |v| == |u| - l.messages
            && (l.messages < |u| ==> v[0] == u[l.messages][l.bytes..])
            && forall k | 1 <= k < |v| :: v[k] == u[l.messages + k]
  {
  }

  lemma FitsBoth(u: seq<Bytes>, a: Loss, b: Loss)
    requires Fits(u, a) && Fits(Without(u, a), b)
    ensures Fits(u, Plus(a, b))
  {
    hide Without;
    LeftAt(u, a);
  }

  lemma WithoutBoth(u: seq<Bytes>, a: Loss, b: Loss)
    requires Fits(u, a) && Fits(Without(u, a), b)
    ensures Fits(u, Plus(a, b)) && Without(Without(u, a), b) == Without(u, Plus(a, b))
  {
    hide Without, Fits;
    FitsBoth(u, a, b);
    var v := Without(u, a);
    var x, w := Without(v, b), Without(u, Plus(a, b));
    LeftAt(u, a);
    LeftAt(v, b);
    LeftAt(u, Plus(a, b));
    forall k | 0 <= k < |x| ensures x[k] == w[k] {
      if k == 0 && b.messages == 0 {
        assert u[a.messages][a.bytes..][b.bytes..] == u[a.messages][a.bytes + b.bytes..];
      }
    }
  }

  /** What a read that timed out has taken off the pipe. */
  function Taken(p: PipeState, q: PipeState): Loss {
    if |Unread(q)| < |Unread(p)| then Loss(1, 0)
    else if |q.rest| <= HeadSize(p) && q != p then Loss(0, HeadSize(p) - |q.rest|)
    else Loss(0, 0)
  }

  lemma TakenIsLost(p: PipeState, out: Bytes, r: Reading)
    requires Partway(p, out, r)
    ensures Fits(Unread(p), Taken(p, r.pipe)) && Unread(r.pipe) == Without(Unread(p), Taken(p, r.pipe))
  {
    if r.pipe != p {
      var m, q := Head(p).value, r.pipe;
      assert Unread(p) == [m] + Behind(p);
      assert Unread(q) == (if q.rest != [] then [q.rest] else []) + Behind(p);
      if q.rest == [] {
        assert Unread(p)[1..] == Behind(p);
      } else if |q.rest| == |m| {
        assert q.rest == m;
        assert Unread(q) == Unread(p);
      }
    }
  }

  /** What the slices that time out and go on have taken together. */
  function Lost(p: PipeState, hasProcess: bool, slices: seq<Slice>, n: nat, start: nat, overall: nat): Loss
    decreases |slices| - n
  {
    if n >= |slices| then Loss(0, 0)
    else
      var r := ReadMessage(p, hasProcess, slices[n].script, 0, []);
      if r.result != Timeout || Verdict(slices[n], hasProcess, start, overall).Some? then Loss(0, 0)
      else Plus(Taken(p, r.pipe), Lost(r.pipe, hasProcess, slices, n + 1, start, overall))
  }

  lemma VerdictNotOk(s: Slice, hasProcess: bool, start: nat, overall: nat)
    ensures Verdict(s, hasProcess, start, overall) != Some(Ok)
  {
  }

  lemma HeadDelivered(p: PipeState, r: Reading)
    requires Head(p).Some? && Head(p).value != [] && r.out == [] + Head(p).value && r.pipe == PipeState([], Behind(p))
    ensures Fits(Unread(p), Loss(0, 0))
    ensures var left := Without(Unread(p), Loss(0, 0)); left != [] && r.out == left[0] && Unread(r.pipe) == left[1..]
  {
    assert Unread(p) == [Head(p).value] + Behind(p);
    assert [] + Head(p).value == Head(p).value;
  }

  /** What the sliced read delivers is the first of the unread messages that is left when exactly what
      the timed-out slices took is gone: they lose whole messages, or the start of one. The output is
      never empty and never over the cap, and everything behind it stays in the pipe. */
  lemma {:induction false} DeliversAllButLost(p: PipeState, hasProcess: bool, slices: seq<Slice>, n: nat, start: nat,
      overall: nat)
    requires var d := UntilDone(p, hasProcess, slices, n, start, overall); d.Some? && d.value.result == Ok
    ensures var d := UntilDone(p, hasProcess, slices, n, start, overall).value;
            var lost := Lost(p, hasProcess, slices, n, start, overall);
            && Fits(Unread(p), lost)
            && var left := Without(Unread(p), lost);
            && left != [] && d.out == left[0] && Unread(d.pipe) == left[1..]
            && 0 < |d.out| <= MAX_MESSAGE && d.pipe.rest == []
    decreases |slices| - n
  {
    hide ReadMessage, Verdict, Without, Fits, Unread, Taken, Plus, Partway;
    var r := ReadMessage(p, hasProcess, slices[n].script, 0, []);
    ReadDelivers(p, hasProcess, slices[n].script, 0, []);
    if r.result == Timeout && Verdict(slices[n], hasProcess, start, overall) == None {
      DeliversAllButLost(r.pipe, hasProcess, slices, n + 1, start, overall);
      TakenIsLost(p, [], r);
      WithoutBoth(Unread(p), Taken(p, r.pipe), Lost(r.pipe, hasProcess, slices, n + 1, start, overall));
    } else {
      VerdictNotOk(slices[n], hasProcess, start, overall);
      HeadDelivered(p, r);
    }
  }

  /** A sliced read that times out has taken what some loss takes. */
  lemma {:induction false} TimeoutLeaves(p: PipeState, hasProcess: bool, slices: seq<Slice>, n: nat, start: nat,
      overall: nat)
    returns (l: Loss)
    requires var d := UntilDone(p, hasProcess, slices, n, start, overall); d.Some? && d.value.result == Timeout
    ensures var d := UntilDone(p, hasProcess, slices, n, start, overall).value;
            Fits(Unread(p), l) && Unread(d.pipe) == Without(Unread(p), l)
    decreases |slices| - n
  {
    hide ReadMessage, Verdict, Without, Fits, Unread, Taken, Plus, Partway;
    var r := ReadMessage(p, hasProcess, slices[n].script, 0, []);
    ReadDelivers(p, hasProcess, slices[n].script, 0, []);
    TakenIsLost(p, [], r);
    l := Taken(p, r.pipe);
    if Verdict(slices[n], hasProcess, start, overall) == None {
      var more := TimeoutLeaves(r.pipe, hasProcess, slices, n + 1, start, overall);
      WithoutBoth(Unread(p), l, more);
      l := Plus(l, more);
    }
  }

  /** The losses are real, on a pipe that always has the rest of a begun message ready. A read that
      completes as its wait times out loses a short message whole: the next slice delivers the one
      behind it. */
  lemma LateReadLosesMessage(m: Bytes, next: Bytes, behind: seq<Bytes>, start: nat)
    requires 0 < |m| <= CHUNK && 0 < |next| <= CHUNK
    ensures UntilDone(PipeState([], [m, next] + behind), true,
                      [Slice([WaitTimesOut(true)], true, start + 250), Slice([Immediate], true, start + 250)],
                      0, start, 1200) ==
            Some(Done(Ok, next, PipeState([], behind), 2))
  {
    var p, q := PipeState([], [m, next] + behind), PipeState([], [next] + behind);
    var s, t := [WaitTimesOut(true)], [Immediate];
    assert Behind(p) == [next] + behind && Behind(q) == behind;
    assert ReadMessage(p, true, s, 0, []) == Reading(Timeout, [], q);
    assert ReadMessage(q, true, t, 0, []) == Reading(Ok, next, PipeState([], behind)) by {
      assert [] + next == next;
    }
  }

  /** And of a longer message it loses the first 8192 bytes: the next slice delivers the rest as if
      that were the message. */
  lemma TimeoutInsideMessage(m: Bytes, behind: seq<Bytes>, start: nat)
    requires CHUNK < |m| <= 2 * CHUNK
    ensures UntilDone(PipeState([], [m] + behind), true,
                      [Slice([WaitTimesOut(true)], true, start + 250), Slice([Immediate], true, start + 250)],
                      0, start, 1200) ==
            Some(Done(Ok, m[CHUNK..], PipeState([], behind), 2))
  {
    var p, q := PipeState([], [m] + behind), PipeState(m[CHUNK..], behind);
    var s, t := [WaitTimesOut(true)], [Immediate];
    assert Behind(p) == behind;
    assert ReadMessage(p, true, s, 0, []) == Reading(Timeout, [], q);
    assert ReadMessage(q, true, t, 0, []) == Reading(Ok, m[CHUNK..], PipeState([], behind)) by {
      assert [] + m[CHUNK..] == m[CHUNK..];
      assert m[CHUNK..][|m| - CHUNK..] == [];
    }
  }

  /** The rest of a begun message is always there, and no wait ends as its read completes. */
  predicate Punctual(slices: seq<Slice>) {
    forall n | 0 <= n < |slices| :: RestReady(slices[n].script) && !Late(At(slices[n].script, 0))
  }

  /** Then the sliced read is a clean dequeue: it delivers the next message whole, or times out with
      the pipe as it was. */
  lemma {:induction false} WholeMessages(p: PipeState, hasProcess: bool, slices: seq<Slice>, n: nat, start: nat,
      overall: nat)
    requires p.rest == [] && Punctual(slices)
    requires UntilDone(p, hasProcess, slices, n, start, overall).Some?
    ensures var d := UntilDone(p, hasProcess, slices, n, start, overall).value;
            && (d.result == Ok <==> d.out != [])
            && (d.result == Ok ==>
                  && p.queue != [] && d.out == p.queue[0] && 0 < |d.out| <= MAX_MESSAGE
                  && d.pipe == PipeState([], p.queue[1..]))
            && (d.result == Timeout ==> d.pipe == p)
    decreases |slices| - n
  {
    var r := ReadMessage(p, hasProcess, slices[n].script, 0, []);
    MessageReassembled(p, hasProcess, slices[n].script);
    if r.result == Timeout && Verdict(slices[n], hasProcess, start, overall) == None {
      WholeMessages(p, hasProcess, slices, n + 1, start, overall);
    }
  }

  /** And then nothing is lost. */
  lemma {:induction false} PunctualLosesNothing(p: PipeState, hasProcess: bool, slices: seq<Slice>, n: nat,
      start: nat, overall: nat)
    requires p.rest == [] && Punctual(slices)
    ensures Lost(p, hasProcess, slices, n, start, overall) == Loss(0, 0)
    decreases |slices| - n
  {
    if n < |slices| {
      var r := ReadMessage(p, hasProcess, slices[n].script, 0, []);
      MessageReassembled(p, hasProcess, slices[n].script);
      if r.result == Timeout {
        PunctualLosesNothing(r.pipe, hasProcess, slices, n + 1, start, overall);
      }
    }
  }
}
