/** The environment block of the broker's process: the parent's block without any CP_PIPE variable,
    and CP_PIPE set to the pipe's name. */
module EnvBlock {
  import opened Options
  import opened Unicode

  /** CP_PIPE= */
  const CP_PIPE: Units := [67, 80, 95, 80, 73, 80, 69, 61]

  // ---------- blocks ----------

  predicate NoNul(e: Units) { forall k | 0 <= k < |e| :: e[k] != 0 }

  predicate Variables(es: seq<Units>) { forall k | 0 <= k < |es| :: es[k] != [] && NoNul(es[k]) }

  /** Each entry with its NUL. */
  function Strings(es: seq<Units>): Units {
    if es == [] then [] else es[0] + [0] + Strings(es[1..])
  }

  /** A double-NUL block. */
  function Block(es: seq<Units>): Units { Strings(es) + [0] }

  /** wcslen of the string at `p`, in memory that has a NUL there or later. */
  function Wcslen(m: Units, p: nat): (n: nat)
    requires p < |m| && exists k :: p <= k < |m| && m[k] == 0
    ensures p + n < |m| && m[p + n] == 0 && forall k | p <= k < p + n :: m[k] != 0
    decreases |m| - p
  {
    if m[p] == 0 then 0 else 1 + Wcslen(m, p + 1)
  }

  /** The block that starts at `p` is the entries `es`, whatever lies behind it. */
  predicate BlockAt(m: Units, p: nat, es: seq<Units>)
    decreases |es|
  {
    if es == [] then p < |m| && m[p] == 0
    else p + |es[0]| < |m| && m[p..p + |es[0]|] == es[0] && m[p + |es[0]|] == 0 && BlockAt(m, p + |es[0]| + 1, es[1..])
  }

  lemma {:induction false} BlockIsAt(before: Units, es: seq<Units>, behind: Units)
    ensures BlockAt(before + Block(es) + behind, |before|, es)
    decreases |es|
  {
    var m := before + Block(es) + behind;
    if es != [] {
      var b := before + es[0] + [0];
      assert m == b + Block(es[1..]) + behind;
      BlockIsAt(b, es[1..], behind);
    }
  }

  /** Only an empty block starts with a NUL. */
  lemma FirstUnit(m: Units, p: nat, es: seq<Units>)
    requires Variables(es) && BlockAt(m, p, es)
    ensures p < |m| && (m[p] == 0 <==> es == [])
  {
    if es != [] {
      assert es[0][0] == m[p..p + |es[0]|][0];
    }
  }

  lemma NulNotInside(m: Units, p: nat, e: Units, n: nat)
    requires NoNul(e) && p + |e| <= |m| && m[p..p + |e|] == e && p + n < |m| && m[p + n] == 0
    ensures |e| <= n
  {
    forall i | p <= i < p + |e| ensures m[i] != 0 {
      assert m[i] == m[p..p + |e|][i - p];
    }
  }

  lemma SameLength(m: Units, p: nat, e: Units, f: Units)
    requires NoNul(e) && NoNul(f) && p + |e| < |m| && p + |f| < |m|
    requires m[p..p + |e|] == e && m[p + |e|] == 0 && m[p..p + |f|] == f && m[p + |f|] == 0
    ensures e == f
  {
    NulNotInside(m, p, e, |f|);
    NulNotInside(m, p, f, |e|);
  }

  /** A block has one reading only. */
  lemma {:induction false} BlockUnique(m: Units, p: nat, es: seq<Units>, fs: seq<Units>)
    requires Variables(es) && Variables(fs) && BlockAt(m, p, es) && BlockAt(m, p, fs)
    ensures es == fs
    decreases |es|
  {
    FirstUnit(m, p, es);
    FirstUnit(m, p, fs);
    if es != [] {
      SameLength(m, p, es[0], fs[0]);
      BlockUnique(m, p + |es[0]| + 1, es[1..], fs[1..]);
    }
  }

  // ---------- the filter ----------

  /** Case folding of _wcsnicmp in the C locale. */
  function Fold(c: Unit): Unit { if 65 <= c <= 90 then c + 32 else c }

  predicate IsPipe(e: Units) { |e| >= 8 && forall k | 0 <= k < 8 :: Fold(e[k]) == Fold(CP_PIPE[k]) }

  /** The entries dropped, with the numbers of their first eight units: CP_PIPE= in any case of letters. */
  predicate StartsLikePipe(e: Units) {
    && |e| >= 8
    && (e[0] == 67 || e[0] == 99) && (e[1] == 80 || e[1] == 112) && e[2] == 95 && (e[3] == 80 || e[3] == 112)
    && (e[4] == 73 || e[4] == 105) && (e[5] == 80 || e[5] == 112) && (e[6] == 69 || e[6] == 101) && e[7] == 61
  }

  lemma PipeExactly(e: Units)
    ensures IsPipe(e) <==> StartsLikePipe(e)
  {
    assert CP_PIPE[0] == 67 && CP_PIPE[1] == 80 && CP_PIPE[2] == 95 && CP_PIPE[3] == 80 && CP_PIPE[4] == 73
        && CP_PIPE[5] == 80 && CP_PIPE[6] == 69 && CP_PIPE[7] == 61;
  }

  function Others(es: seq<Units>): seq<Units> {
    if es == [] then [] else (if IsPipe(es[0]) then [] else [es[0]]) + Others(es[1..])
  }

  /** _wcsnicmp(p, "CP_PIPE=", 8) == 0: unit by unit, a NUL being a unit no letter equals. */
  method PrefixMatches(m: Units, p: nat, ghost n: nat) returns (matches: bool)
    requires p + n < |m| && m[p + n] == 0 && forall k | p <= k < p + n :: m[k] != 0
    ensures matches <==> IsPipe(m[p..p + n])
    ensures matches <==> StartsLikePipe(m[p..p + n])
  {
    hide StartsLikePipe;
    PipeExactly(m[p..p + n]);
    var i := 0;
    while i < 8
      invariant 0 <= i <= 8 && i <= n
      invariant forall k | 0 <= k < i :: Fold(m[p + k]) == Fold(CP_PIPE[k])
    {
      if Fold(m[p + i]) != Fold(CP_PIPE[i]) {
        return false;
      }
      i := i + 1;
    }
    return true;
  }

  lemma {:induction false} OthersSnoc(es: seq<Units>, e: Units)
    ensures Others(es + [e]) == Others(es) + if IsPipe(e) then [] else [e]
    decreases |es|
  {
    if es == [] {
      assert [e][1..] == [];
      assert es + [e] == [e];
    } else {
      assert (es + [e])[1..] == es[1..] + [e];
      OthersSnoc(es[1..], e);
    }
  }

  lemma {:induction false} StringsSnoc(es: seq<Units>, e: Units)
    ensures Strings(es + [e]) == Strings(es) + e + [0]
    decreases |es|
  {
    if es == [] {
      assert [e][1..] == [] && es + [e] == [e];
      assert Strings([e]) == e + [0] + Strings([]);
    } else {
      var rest := Strings(es[1..]);
      assert (es + [e])[0] == es[0] && (es + [e])[1..] == es[1..] + [e];
      StringsSnoc(es[1..], e);
      assert Strings(es + [e]) == es[0] + [0] + (rest + e + [0]);
    }
  }

  function WithPipe(es: seq<Units>, name: Units): seq<Units> { Others(es) + [CP_PIPE + name] }

  /** The walk stands at `p` with the entries `left` ahead and has copied the others of `done`. */
  ghost predicate Walked(m: Units, p: nat, out: Units, done: seq<Units>, left: seq<Units>) {
    && Variables(left) && BlockAt(m, p, left) && p < |m| && (m[p] == 0 <==> left == [])
    && out == Strings(Others(done))
  }

  lemma WalkOn(m: Units, p: nat, out: Units, done: seq<Units>, left: seq<Units>, n: nat)
    requires Walked(m, p, out, done, left) && left != []
    requires p + n < |m| && m[p + n] == 0 && forall k | p <= k < p + n :: m[k] != 0
    ensures m[p..p + n] == left[0]
    ensures Walked(m, p + n + 1, if IsPipe(left[0]) then out else out + m[p..p + n + 1], done + [left[0]], left[1..])
  {
    hide IsPipe, Strings, Others;
    var e := left[0];
    SameLength(m, p, m[p..p + n], e);
    FirstUnit(m, p + n + 1, left[1..]);
    OthersSnoc(done, e);
    StringsSnoc(Others(done), e);
    assert m[p..p + n + 1] == e + [0];
    assert Others(done) + [] == Others(done);
  }

  lemma NulAhead(m: Units, p: nat, es: seq<Units>)
    requires es != [] && BlockAt(m, p, es)
    ensures exists k :: p <= k < |m| && m[k] == 0
  {
    assert m[p + |es[0]|] == 0;
  }

  lemma NothingCopied()
    ensures Strings(Others([])) == []
  {
  }

  /** The walk over the parent's block: what it has copied when it reaches the final NUL. */
  method CopyOthers(m: Units, ghost es: seq<Units>) returns (out: Units)
    requires Variables(es) && BlockAt(m, 0, es)
    ensures out == Strings(Others(es))
  {
    hide IsPipe, Strings, Others, BlockAt, Variables;
    out := [];
    var p := 0;
    ghost var done, left := [], es;
    NothingCopied();
    FirstUnit(m, p, left);
    while m[p] != 0
      invariant es == done + left && Walked(m, p, out, done, left)
      decreases |m| - p
    {
      NulAhead(m, p, left);
      var len := Wcslen(m, p);
      WalkOn(m, p, out, done, left, len);
      var skip := PrefixMatches(m, p, len);
      if !skip {
        out := out + m[p..p + len + 1];
      }
      done, left := done + [left[0]], left[1..];
      p := p + len + 1;
    }
    assert done == es;
  }

  /** Builds the child's block, if the system hands out the parent's. */
  method BuildChildEnvironmentWithPipe(env: Option<Units>, name: Units, ghost es: seq<Units>)
    returns (envBlock: Option<Units>)
    requires env.Some? ==> Variables(es) && BlockAt(env.value, 0, es)
    ensures envBlock == if env.Some? then Some(Block(WithPipe(es, name))) else None
  {
    if env.None? {
      return None;
    }
    var out := CopyOthers(env.value, es);
    StringsSnoc(Others(es), CP_PIPE + name);
    var cpPipe := CP_PIPE + name;
    out := out + cpPipe;
    out := out + [0];
    out := out + [0];
    return Some(out);
  }

  // ---------- what the child sees ----------

  lemma {:induction false} OthersKept(es: seq<Units>)
    requires Variables(es)
    ensures Variables(Others(es)) && Others(Others(es)) == Others(es)
    ensures forall k | 0 <= k < |Others(es)| :: !IsPipe(Others(es)[k])
    decreases |es|
  {
    if es != [] {
      OthersKept(es[1..]);
      if !IsPipe(es[0]) {
        assert Others(es) == [es[0]] + Others(es[1..]);
        assert Others(es)[1..] == Others(es[1..]);
      } else {
        assert Others(es) == Others(es[1..]);
      }
    }
  }

  lemma PipeEntry(name: Units)
    requires NoNul(name)
    ensures IsPipe(CP_PIPE + name) && NoNul(CP_PIPE + name) && CP_PIPE + name != []
  {
  }

  /** The block handed to the child reads, and reads only, as the parent's variables other than
      CP_PIPE in their order and then one CP_PIPE with the pipe's name; no other entry is a CP_PIPE
      in any case of letters. */
  lemma ChildReads(es: seq<Units>, name: Units, behind: Units, fs: seq<Units>)
    requires Variables(es) && NoNul(name) && Variables(fs)
    ensures BlockAt(Block(WithPipe(es, name)) + behind, 0, fs) <==> fs == WithPipe(es, name)
    ensures forall k | 0 <= k < |WithPipe(es, name)| :: IsPipe(WithPipe(es, name)[k]) <==> k == |WithPipe(es, name)| - 1
  {
    hide Others, Strings, BlockAt;
    var w := WithPipe(es, name);
    OthersKept(es);
    PipeEntry(name);
    assert Variables(w);
    BlockIsAt([], w, behind);
    assert [] + Block(w) + behind == Block(w) + behind;
    if BlockAt(Block(w) + behind, 0, fs) {
      BlockUnique(Block(w) + behind, 0, fs, w);
    }
  }

  /** Building again from a child's block replaces the one entry and nothing else. */
  lemma RebuildReplaces(es: seq<Units>, name: Units, other: Units)
    requires Variables(es)
    ensures WithPipe(WithPipe(es, name), other) == WithPipe(es, other)
  {
    OthersKept(es);
    OthersSnoc(Others(es), CP_PIPE + name);
    assert IsPipe(CP_PIPE + name);
    assert Others(es) + [] == Others(es);
  }

  /** Of the parent's entries the child's block keeps each as often as it is there if it does not start
      with CP_PIPE=, and none that does; and it keeps their order. */
  lemma {:induction false} KeptExactly(es: seq<Units>, e: Units)
    ensures multiset(Others(es))[e] == if StartsLikePipe(e) then 0 else multiset(es)[e]
    decreases |es|
  {
    hide IsPipe, StartsLikePipe;
    if es != [] {
      KeptExactly(es[1..], e);
      PipeExactly(es[0]);
      PipeExactly(e);
      assert es == [es[0]] + es[1..];
      assert Others(es) == (if IsPipe(es[0]) then [] else [es[0]]) + Others(es[1..]);
    }
  }

  lemma {:induction false} OrderKept(es: seq<Units>, fs: seq<Units>)
    ensures Others(es + fs) == Others(es) + Others(fs)
    decreases |es|
  {
    hide IsPipe;
    if es == [] {
      assert es + fs == fs;
    } else {
      OrderKept(es[1..], fs);
      assert Others(es) == (if IsPipe(es[0]) then [] else [es[0]]) + Others(es[1..]);
      assert (es + fs)[0] == es[0] && (es + fs)[1..] == es[1..] + fs;
    }
  }

  lemma PipeName()
    ensures CP_PIPE == Ascii("CP_PIPE=")
  {
  }

  /** What the child reads, in numbers: its last variable is CP_PIPE= with the pipe's name, and before it
      stand just the parent's variables that do not start with CP_PIPE= in any case of letters. */
  lemma ChildVariables(es: seq<Units>, name: Units, behind: Units, fs: seq<Units>)
    requires Variables(es) && NoNul(name) && Variables(fs) && BlockAt(Block(WithPipe(es, name)) + behind, 0, fs)
    ensures fs != [] && fs[|fs| - 1] == Ascii("CP_PIPE=") + name
    ensures forall e :: multiset(fs[..|fs| - 1])[e] == if StartsLikePipe(e) then 0 else multiset(es)[e]
  {
    hide Others, BlockAt, Block, StartsLikePipe, Variables, IsPipe, Ascii, CP_PIPE;
    PipeName();
    ChildReads(es, name, behind, fs);
    assert fs[..|fs| - 1] == Others(es);
    forall e ensures multiset(fs[..|fs| - 1])[e] == if StartsLikePipe(e) then 0 else multiset(es)[e] {
      KeptExactly(es, e);
    }
  }
}
