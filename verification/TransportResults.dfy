/** What the readers return, in closed form: how many attempts a read makes, which of them ends it, what it
    hands over and what it leaves; and then the same over the slices of a sliced read. Nothing here names
    the function that sorts failed attempts into results. */
module TransportResults {
  import opened Unicode
  import opened Options
  import opened Transport

  // ---------- one read ----------

  /** How many attempts a read makes while all are ready: one for every 8192 bytes of the message, and no
      more than the 33 that take it over 262144. */
  function Needed(p: PipeState): nat {
    match Head(p)
    case None => 1
    case Some(m) => if m == [] then 1 else if |m| > 262144 then 33 else (|m| + 8191) / 8192
  }

  predicate Reads(a: Attempt) { a == Immediate || a == Signalled }

  /** The first of the attempts from the `i`-th to before the `n`-th that does not read. */
  function FirstStop(script: seq<Attempt>, i: nat, n: nat): (r: Option<nat>)
    requires i <= n
    ensures match r
            case Some(j) => i <= j < n && !Reads(At(script, j)) && forall k | i <= k < j :: Reads(At(script, k))
            case None => forall k | i <= k < n :: Reads(At(script, k))
    decreases n - i
  {
    if i == n then None
    else if !Reads(At(script, i)) then Some(i)
    else FirstStop(script, i + 1, n)
  }

  /** The attempt that ends a read before it has all it came for. */
  function Ending(p: PipeState, script: seq<Attempt>): Option<nat> { FirstStop(script, 0, Needed(p)) }

  /** The attempt runs into the end of the broker: a broken pipe, or the process gone. */
  predicate FindsBroken(a: Attempt, hasProcess: bool) {
    a.BrokenNow? || a.SignalledBroken? || (a.ProcessExited? && hasProcess)
  }

  /** The attempt waits in vain; without a process to watch, what looks like its exit is no news of it. */
  predicate WaitsInVain(a: Attempt, hasProcess: bool) { a.WaitTimesOut? || (a.ProcessExited? && !hasProcess) }

  /** The wait of the attempt is given up as its read completes. */
  predicate CompletesLate(a: Attempt) { (a.ProcessExited? || a.WaitTimesOut? || a.WaitFails?) && a.late }

  lemma StopFate(a: Attempt, hasProcess: bool)
    requires !Reads(a)
    ensures !Ready(a) && Late(a) == CompletesLate(a)
    ensures Fate(a, hasProcess) ==
            if FindsBroken(a, hasProcess) then BrokerExited else if WaitsInVain(a, hasProcess) then Timeout else Failed
  {
  }

  function Rest(p: PipeState, j: nat): PipeState
    requires j > 0 ==> Head(p).Some? && 8192 * j <= |Head(p).value|
  {
    if j == 0 then p else PipeState(Head(p).value[8192 * j..], Behind(p))
  }

  lemma NextChunk(p: PipeState, out: Bytes)
    requires Head(p).Some? && 8192 < |Head(p).value|
    ensures var m := Head(p).value; var q := PipeState(m[8192..], Behind(p));
            Head(q) == Some(m[8192..]) && Behind(q) == Behind(p)
            && forall n | 0 <= n <= |m| - 8192 :: out + m[..8192] + m[8192..][..n] == out + m[..8192 + n]
  {
    var m := Head(p).value;
    forall n | 0 <= n <= |m| - 8192 ensures out + m[..8192] + m[8192..][..n] == out + m[..8192 + n] {
      assert m[..8192] + m[8192..][..n] == m[..8192 + n];
    }
  }

  /** One attempt that reads a full chunk of a longer message. */
  lemma OneChunk(p: PipeState, hasProcess: bool, script: seq<Attempt>, i: nat, out: Bytes)
    requires Reads(At(script, i)) && Head(p).Some? && 8192 < |Head(p).value| && |out| + 8192 <= 262144
    ensures var m := Head(p).value;
            ReadMessage(p, hasProcess, script, i, out) ==
            ReadMessage(PipeState(m[8192..], Behind(p)), hasProcess, script, i + 1, out + m[..8192])
  {
  }

  lemma StoppedAt(p: PipeState, hasProcess: bool, script: seq<Attempt>, i: nat, out: Bytes)
    requires !Reads(At(script, i))
    ensures !Ready(At(script, i))
    ensures ReadMessage(p, hasProcess, script, i, out) ==
            Reading(Fate(At(script, i), hasProcess), out, Uncollected(p, CompletesLate(At(script, i))))
  {
  }

  lemma {:induction false} StoppedFrom(p: PipeState, hasProcess: bool, script: seq<Attempt>, i: nat, j: nat, out: Bytes)
    requires i <= j && !Reads(At(script, j)) && forall k | i <= k < j :: Reads(At(script, k))
    requires |out| == 8192 * i && j <= 32
    requires i < j ==> Head(p).Some? && 8192 * (j - i) < |Head(p).value|
    ensures var a, q := At(script, j), Rest(p, j - i);
            ReadMessage(p, hasProcess, script, i, out) ==
            Reading(Fate(a, hasProcess), if i == j then out else out + Head(p).value[..8192 * (j - i)],
                    Uncollected(q, CompletesLate(a)))
    decreases j - i
  {
    hide Fate, ReadMessage, Uncollected, Head, Behind;
    if i == j {
      StoppedAt(p, hasProcess, script, i, out);
    } else {
      var m := Head(p).value;
      var q := PipeState(m[8192..], Behind(p));
      OneChunk(p, hasProcess, script, i, out);
      NextChunk(p, out);
      StoppedFrom(q, hasProcess, script, i + 1, j, out + m[..8192]);
      assert m[8192..][8192 * (j - i - 1)..] == m[8192 * (j - i)..];
    }
  }

  lemma {:induction false} ReadFrom(p: PipeState, hasProcess: bool, script: seq<Attempt>, i: nat, out: Bytes)
    requires Head(p).Some? && Head(p).value != [] && |out| == 8192 * i && i <= 32
    requires forall k | i <= k < 33 && 8192 * (k - i) < |Head(p).value| :: Reads(At(script, k))
    ensures var m := Head(p).value;
            var over := if |m| <= 270336 - |out| then |m| else 270336 - |out|;
            ReadMessage(p, hasProcess, script, i, out) ==
            if |out| + |m| <= 262144 then Reading(Ok, out + m, PipeState([], Behind(p)))
            else Reading(Failed, [], PipeState(m[over..], Behind(p)))
    decreases 32 - i
  {
    hide Head, Behind;
    var m := Head(p).value;
    if 8192 < |m| && |out| + 8192 <= 262144 {
      hide ReadMessage;
      var q := PipeState(m[8192..], Behind(p));
      OneChunk(p, hasProcess, script, i, out);
      NextChunk(p, out);
      ReadFrom(q, hasProcess, script, i + 1, out + m[..8192]);
      assert m[8192..][..|m| - 8192] == m[8192..];
      assert out + m[..8192] + m[8192..] == out + m;
      assert |out| + |m| > 262144 ==>
          var over := if |m| <= 270336 - |out| then |m| else 270336 - |out|; m[8192..][over - 8192..] == m[over..];
    }
  }

  lemma StoppedRead(p: PipeState, hasProcess: bool, script: seq<Attempt>)
    requires Ending(p, script).Some?
    ensures var j := Ending(p, script).value; var a := At(script, j);
            var r := ReadMessage(p, hasProcess, script, 0, []);
            && j <= 32 && !Reads(a) && (j > 0 ==> Head(p).Some? && 8192 * j < |Head(p).value|)
            && r.result == Fate(a, hasProcess)
            && r.out == (if j == 0 then [] else Head(p).value[..8192 * j])
            && r.pipe == Uncollected(Rest(p, j), CompletesLate(a))
  {
    hide ReadMessage, Fate, Uncollected;
    var j := Ending(p, script).value;
    StoppedFrom(p, hasProcess, script, 0, j, []);
    if j > 0 {
      assert [] + Head(p).value[..8192 * j] == Head(p).value[..8192 * j];
    }
  }

  lemma WholeRead(p: PipeState, hasProcess: bool, script: seq<Attempt>)
    requires Ending(p, script).None?
    ensures var r := ReadMessage(p, hasProcess, script, 0, []);
            match Head(p)
            case None => r == Reading(Timeout, [], p)
            case Some(m) =>
              if m == [] then r == Reading(Failed, [], PipeState([], Behind(p)))
              else if |m| <= 262144 then r == Reading(Ok, m, PipeState([], Behind(p)))
              else r == Reading(Failed, [], PipeState(m[if |m| <= 270336 then |m| else 270336..], Behind(p)))
  {
    assert Reads(At(script, 0));
    if Head(p).Some? && Head(p).value != [] {
      ReadFrom(p, hasProcess, script, 0, []);
      assert [] + Head(p).value == Head(p).value;
    }
  }

  /** The result of a read. It times out exactly if the attempt that ends it waits in vain, or there was
      nothing to read; it reports the end of the broker exactly if that attempt ran into it; it succeeds
      exactly if nothing ended it and there is a message, neither empty nor over 262144 bytes; and it fails
      in what cases remain. */
  lemma ResultExactly(p: PipeState, hasProcess: bool, script: seq<Attempt>)
    ensures var r := ReadMessage(p, hasProcess, script, 0, []); var e := Ending(p, script);
            && (r.result == Timeout <==> if e.Some? then
               WaitsInVain(At(script, e.value), hasProcess) else Head(p) == None)
            && (r.result == BrokerExited <==> e.Some? && FindsBroken(At(script, e.value), hasProcess))
            && (r.result == Ok <==> e.None? && Head(p).Some? && 0 < |Head(p).value| <= 262144)
  {
    hide ReadMessage, Fate, Ending, Head, At, Uncollected, Rest;
    var e := Ending(p, script);
    if e.Some? {
      StoppedRead(p, hasProcess, script);
      StopFate(At(script, e.value), hasProcess);
    } else {
      WholeRead(p, hasProcess, script);
    }
  }

  lemma LateRest(p: PipeState, j: nat)
    requires j > 0 && Head(p).Some? && 8192 * j < |Head(p).value|
    ensures var m, q := Head(p).value, Rest(p, j);
            && Head(q) == Some(m[8192 * j..]) && Behind(q) == Behind(p)
            && (|m| <= 8192 * j + 8192 ==> m[8192 * j..][|m| - 8192 * j..] == m[|m|..])
            && (8192 * j + 8192 <= |m| ==> m[8192 * j..][8192..] == m[8192 * j + 8192..])
  {
  }

  /** What a read hands over and what it leaves: the whole message and those behind it if it succeeds, the
      chunks read so far and the rest if an attempt ends it, less one chunk if that completed late. */
  lemma OutputExactly(p: PipeState, hasProcess: bool, script: seq<Attempt>)
    ensures var r := ReadMessage(p, hasProcess, script, 0, []);
            match Ending(p, script)
            case Some(j) =>
              && (j > 0 ==> Head(p).Some? && 8192 * j < |Head(p).value|)
              && r.out == (if j == 0 then [] else Head(p).value[..8192 * j])
              && (if CompletesLate(At(script, j)) && Head(p).Some? then
                    var m := Head(p).value; var n := if |m| <= 8192 * j + 8192 then |m| else 8192 * j + 8192;
                    r.pipe == PipeState(m[n..], Behind(p))
                  else r.pipe == if j == 0 then p else PipeState(Head(p).value[8192 * j..], Behind(p)))
            case None =>
              r.out == (if r.result == Ok then Head(p).value else [])
                && (r.result == Ok ==> r.pipe == PipeState([], Behind(p))) && (Head(p) == None ==> r.pipe == p)
  {
    hide ReadMessage, Fate, Ending, Behind;
    var e := Ending(p, script);
    if e.Some? {
      var j := e.value;
      StoppedRead(p, hasProcess, script);
      if j > 0 {
        LateRest(p, j);
      }
    } else {
      WholeRead(p, hasProcess, script);
    }
  }

  // ---------- the slices ----------

  /** The pipe as the `n`-th slice finds it, counting from the `i`-th. */
  function Before(p: PipeState, hasProcess: bool, slices: seq<Slice>, i: nat, n: nat): PipeState
    requires i <= n <= |slices|
    decreases n - i
  {
    if i == n then p
    else Before(ReadMessage(p, hasProcess, slices[i].script, 0, []).pipe, hasProcess, slices, i + 1, n)
  }

  /** The read of a slice ends in a vain wait, or for want of anything to read. */
  predicate ComesToNothing(p: PipeState, hasProcess: bool, script: seq<Attempt>) {
    var e := Ending(p, script);
    if e.Some? then WaitsInVain(At(script, e.value), hasProcess) else Head(p) == None
  }

  predicate MeetsBroken(p: PipeState, hasProcess: bool, script: seq<Attempt>) {
    var e := Ending(p, script);
    e.Some? && FindsBroken(At(script, e.value), hasProcess)
  }

  predicate TimeIsUp(s: Slice, start: nat, overall: nat) { overall != 0xFFFF_FFFF && s.clock - start >= overall }

  /** After a slice the read goes on: nothing came, the process lives and there is time left. */
  predicate GoesOn(p: PipeState, hasProcess: bool, s: Slice, start: nat, overall: nat) {
    ComesToNothing(p, hasProcess, s.script) && hasProcess && s.alive && !TimeIsUp(s, start, overall)
  }

  /** The slices from the `i`-th to before the `n`-th all go on. */
  predicate Reached(p: PipeState, hasProcess: bool, slices: seq<Slice>, i: nat, n: nat, start: nat, overall: nat)
    requires i <= n <= |slices|
  {
    forall m | i <= m < n :: GoesOn(Before(p, hasProcess, slices, i, m), hasProcess, slices[m], start, overall)
  }

  lemma SliceStep(p: PipeState, hasProcess: bool, slices: seq<Slice>, i: nat, start: nat, overall: nat)
    requires i < |slices|
    ensures var r := ReadMessage(p, hasProcess, slices[i].script, 0, []); var s := slices[i];
            UntilDone(p, hasProcess, slices, i, start, overall) ==
            if GoesOn(p, hasProcess, s, start, overall) then
                UntilDone(r.pipe, hasProcess, slices, i + 1, start, overall)
            else if r.result == Timeout && hasProcess && !s.alive then Some(Done(BrokerExited, r.out, r.pipe, i + 1))
            else Some(Done(r.result, r.out, r.pipe, i + 1))
  {
    hide ReadMessage, Ending, At, Head;
    ResultExactly(p, hasProcess, slices[i].script);
  }

  lemma ReachedStep(p: PipeState, hasProcess: bool, slices: seq<Slice>, i: nat, n: nat, start: nat, overall: nat)
    requires i < n <= |slices| && GoesOn(p, hasProcess, slices[i], start, overall)
    requires Reached(ReadMessage(p, hasProcess, slices[i].script, 0, []).pipe, hasProcess, slices, i + 1, n, start,
             overall)
    ensures Reached(p, hasProcess, slices, i, n, start, overall)
  {
    hide GoesOn, ReadMessage;
    var q := ReadMessage(p, hasProcess, slices[i].script, 0, []).pipe;
    forall m | i <= m < n ensures GoesOn(Before(p, hasProcess, slices, i, m), hasProcess, slices[m], start, overall) {
      if m > i {
        assert Before(p, hasProcess, slices, i, m) == Before(q, hasProcess, slices, i + 1, m);
      }
    }
  }

  lemma AtTheEnd(p: PipeState, hasProcess: bool, slices: seq<Slice>, start: nat, overall: nat)
    ensures UntilDone(p, hasProcess, slices, |slices|, start, overall) == None
    ensures Reached(p, hasProcess, slices, |slices|, |slices|, start, overall)
  {
  }

  lemma NoneReached(p: PipeState, hasProcess: bool, slices: seq<Slice>, i: nat, start: nat, overall: nat)
    requires i <= |slices|
    ensures Reached(p, hasProcess, slices, i, i, start, overall)
  {
  }

  /** A sliced read goes through the slices that go on and returns with the first that does not: with what
      that slice's read gives, except that a vain wait over a dead broker is reported as its end. */
  lemma {:induction false} ReturnsWith(p: PipeState, hasProcess: bool, slices: seq<Slice>, i: nat, start: nat,
      overall: nat)
    requires i <= |slices|
    ensures match UntilDone(p, hasProcess, slices, i, start, overall)
            case None => Reached(p, hasProcess, slices, i, |slices|, start, overall)
            case Some(d) =>
              && i < d.slices <= |slices| && var n := d.slices - 1; var s := slices[n];
              && Reached(p, hasProcess, slices, i, n, start, overall)
              && var q := Before(p, hasProcess, slices, i, n);
              && !GoesOn(q, hasProcess, s, start, overall)
              && var r := ReadMessage(q, hasProcess, s.script, 0, []);
              && d.out == r.out && d.pipe == r.pipe
              && d.result == if r.result == Timeout && hasProcess && !s.alive then BrokerExited else r.result
    decreases |slices| - i
  {
    hide GoesOn, ReadMessage, UntilDone, Reached;
    if i == |slices| {
      AtTheEnd(p, hasProcess, slices, start, overall);
    } else {
      var r := ReadMessage(p, hasProcess, slices[i].script, 0, []);
      SliceStep(p, hasProcess, slices, i, start, overall);
      if GoesOn(p, hasProcess, slices[i], start, overall) {
        ReturnsWith(r.pipe, hasProcess, slices, i + 1, start, overall);
        var d := UntilDone(r.pipe, hasProcess, slices, i + 1, start, overall);
        ReachedStep(p, hasProcess, slices, i, if d.Some? then d.value.slices - 1 else |slices|, start, overall);
      } else {
        NoneReached(p, hasProcess, slices, i, start, overall);
      }
    }
  }

  /** The result of the sliced read, by the slice it returns with. It is Timeout exactly if that slice came
      to nothing and there was no process to watch, or it lives and the time is up; and BrokerExited exactly
      if the slice met a broken pipe or a process gone, or came to nothing over a dead process. */
  lemma SlicedExactly(p: PipeState, hasProcess: bool, slices: seq<Slice>, start: nat, overall: nat)
    requires UntilDone(p, hasProcess, slices, 0, start, overall).Some?
    ensures var d := UntilDone(p, hasProcess, slices, 0, start, overall).value;
            && 0 < d.slices <= |slices| && var n := d.slices - 1; var s := slices[n];
            && Reached(p, hasProcess, slices, 0, n, start, overall)
            && var q := Before(p, hasProcess, slices, 0, n);
            && var nothing := ComesToNothing(q, hasProcess, s.script);
            && (d.result == Timeout <==> nothing && (!hasProcess || (s.alive && TimeIsUp(s, start, overall))))
            && (d.result == BrokerExited <==>
                  MeetsBroken(q, hasProcess, s.script) || (nothing && hasProcess && !s.alive))
            && (d.result == Ok <==> Ending(q, s.script).None? && Head(q).Some? && 0 < |Head(q).value| <= 262144)
  {
    hide ReadMessage, UntilDone, Reached, Before, Ending, At, Head;
    ReturnsWith(p, hasProcess, slices, 0, start, overall);
    var n := UntilDone(p, hasProcess, slices, 0, start, overall).value.slices - 1;
    ResultExactly(Before(p, hasProcess, slices, 0, n), hasProcess, slices[n].script);
  }

  lemma Passed(p: PipeState, hasProcess: bool, slices: seq<Slice>, m: nat, n: nat, start: nat, overall: nat)
    requires m <= |slices| && n <= |slices| && Reached(p, hasProcess, slices, 0, n, start, overall)
    ensures m < n ==> GoesOn(Before(p, hasProcess, slices, 0, m), hasProcess, slices[m], start, overall)
  {
  }

  lemma NotBoth(p: PipeState, hasProcess: bool, script: seq<Attempt>)
    requires MeetsBroken(p, hasProcess, script)
    ensures !ComesToNothing(p, hasProcess, script)
  {
  }

  /** A broken pipe in any slice reached is the last thing the sliced read does, and it reports it. */
  lemma BrokenIsReported(p: PipeState, hasProcess: bool, slices: seq<Slice>, n: nat, start: nat, overall: nat)
    requires n < |slices| && Reached(p, hasProcess, slices, 0, n, start, overall)
    requires MeetsBroken(Before(p, hasProcess, slices, 0, n), hasProcess, slices[n].script)
    ensures var d := UntilDone(p, hasProcess, slices, 0, start, overall);
            d.Some? && d.value.slices == n + 1 && d.value.result == BrokerExited
  {
    hide ReadMessage, UntilDone, Before, Ending, At, Head, Reached;
    ReturnsWith(p, hasProcess, slices, 0, start, overall);
    NotBoth(Before(p, hasProcess, slices, 0, n), hasProcess, slices[n].script);
    var d := UntilDone(p, hasProcess, slices, 0, start, overall);
    var k := if d.Some? then d.value.slices - 1 else |slices|;
    Passed(p, hasProcess, slices, n, k, start, overall);
    Passed(p, hasProcess, slices, k, n, start, overall);
    ResultExactly(Before(p, hasProcess, slices, 0, n), hasProcess, slices[n].script);
  }
}
