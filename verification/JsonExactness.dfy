/** The parser of broker lines accepts exactly the grammar of `JsonObject`, and gives each field
    the value of the last member that carries its key. */
module JsonExactness {
  import opened Unicode
  import opened JsonString
  import opened Options
  import opened JsonGrammar
  import opened JsonObject

  function AssignAll(f: Fields, es: seq<Entry>): Fields
    decreases |es|
  {
    if es == [] then f else AssignAll(Assign(f, es[0].key, es[0].value), es[1..])
  }

  predicate HasKey(es: seq<Entry>, key: Bytes) { exists e | e in es :: e.key == key }

  // ---------- from text to the parser ----------

  lemma SkipExact(s: Bytes, i: nat, j: nat)
    requires i <= j <= |s| && AllWs(s[i..j])
    requires j == |s| || !IsWs(s[j])
    ensures SkipWsFrom(s, i) == j
  {
    assert forall k | i <= k < j :: s[i..j][k - i] == s[k];
  }

  lemma PaddedIsString(s: Bytes, i: nat, p: Padded, j: nat)
    requires PaddedOk(p) && PaddedAt(s, i, p, j)
    requires j == |s| || !IsWs(s[j])
    ensures var a := SkipWsFrom(s, i);
            a < |s| && s[a] == QUOTE && StringAt(s, a).Some? && StringAt(s, a).value.value == p.value
            && SkipWsFrom(s, StringAt(s, a).value.next) == j
  {
    hide Denotes, StringAt;
    var a, b := i + |p.before|, i + |p.before| + |p.raw| + 2;
    SkipExact(s, i, a);
    DenotedIsString(s, a, p.value, b);
    SkipExact(s, b, j);
  }

  lemma MemberOfText(s: Bytes, i: nat, m: Member, k: nat)
    requires MemberOk(m) && Slice(s, i, MemberText(m), k) && k < |s| && !IsWs(s[k])
    ensures var j := SkipWsFrom(s, i);
            j < |s| && s[j] == QUOTE && MemberAt(s, j) == Some(MemberRead(m.key.value, m.value.value, k))
  {
    hide Denotes, StringAt, SkipWsFrom, PaddedAt, PaddedText;
    var c := i + |PaddedText(m.key)|;
    Separated(s, i, k, PaddedText(m.key), COLON, PaddedText(m.value));
    PaddedAtIsText(s, i, m.key, c);
    PaddedAtIsText(s, c + 1, m.value, k);
    PaddedIsString(s, i, m.key, c);
    PaddedIsString(s, c + 1, m.value, k);
  }

  /** One turn of the member loop, once the member at the next non-whitespace byte is read. */
  lemma MembersFromMember(s: Bytes, i: nat, m: MemberRead, f: Fields, t: bool)
    requires i <= |s| && SkipWsFrom(s, i) < |s| && s[SkipWsFrom(s, i)] == QUOTE
    requires MemberAt(s, SkipWsFrom(s, i)) == Some(m) && m.next < |s|
    ensures var f', t' := Assign(f, m.key, m.value), t || m.key == TYPE;
            && (s[m.next] == RBRACE ==> MembersFrom(s, i, f, t) == Some(ObjectRead(f', t', m.next + 1)))
            && (s[m.next] == COMMA ==> MembersFrom(s, i, f, t) == MembersFrom(s, m.next + 1, f', t'))
  {
    hide SkipWsFrom, MemberAt;
  }

  lemma MembersFromEnd(s: Bytes, i: nat, f: Fields, t: bool)
    requires i <= |s| && SkipWsFrom(s, i) < |s| && s[SkipWsFrom(s, i)] == RBRACE
    ensures MembersFrom(s, i, f, t) == Some(ObjectRead(f, t, SkipWsFrom(s, i) + 1))
  {
  }

  lemma NoEntries(f: Fields)
    ensures AssignAll(f, []) == f && !HasKey([], TYPE)
  {
  }

  lemma ConsEntry(e: Entry, es: seq<Entry>, f: Fields)
    ensures AssignAll(f, [e] + es) == AssignAll(Assign(f, e.key, e.value), es)
    ensures HasKey([e] + es, TYPE) <==> e.key == TYPE || HasKey(es, TYPE)
  {
    var all := [e] + es;
    assert all[0] == e && all[1..] == es;
    assert forall x :: x in all <==> x == e || x in es;
  }

  lemma {:induction false} MembersOfText(s: Bytes, i: nat, ms: Members, j: nat, f: Fields, t: bool)
    requires MembersOk(ms) && MembersAt(s, i, ms, j)
    ensures i < j <= |s|
    ensures MembersFrom(s, i, f, t) == Some(ObjectRead(AssignAll(f, Entries(ms)), t || HasKey(Entries(ms), TYPE), j))
    decreases ms
  {
    hide SkipWsFrom, MemberAt, MemberText, MembersFrom, Denotes, AssignAll, HasKey, PaddedOk;
    match ms
    case End(w) =>
      SkipExact(s, i, i + |w|);
      MembersFromEnd(s, i, f, t);
      NoEntries(f);
    case Last(m) =>
      var k := i + |MemberText(m)|;
      MemberOfText(s, i, m, k);
      MembersFromMember(s, i, MemberRead(m.key.value, m.value.value, k), f, t);
      ConsEntry(EntryOf(m), [], f);
      NoEntries(Assign(f, m.key.value, m.value.value));
      assert [EntryOf(m)] + [] == [EntryOf(m)];
    case More(m, rest) =>
      var k := i + |MemberText(m)|;
      MemberOfText(s, i, m, k);
      MembersFromMember(s, i, MemberRead(m.key.value, m.value.value, k), f, t);
      MembersOfText(s, k + 1, rest, j, Assign(f, m.key.value, m.value.value), t || m.key.value == TYPE);
      ConsEntry(EntryOf(m), Entries(rest), f);
  }

  // ---------- from the parser to text ----------

  lemma WsSlice(s: Bytes, i: nat)
    requires i <= |s|
    ensures AllWs(s[i..SkipWsFrom(s, i)])
  {
  }

  lemma PaddedOfString(s: Bytes, i: nat) returns (p: Padded)
    requires i <= |s| && StringAt(s, SkipWsFrom(s, i)).Some?
    ensures var r := StringAt(s, SkipWsFrom(s, i)).value;
            PaddedOk(p) && p.value == r.value && PaddedAt(s, i, p, SkipWsFrom(s, r.next))
  {
    hide StringAt, Denotes;
    var a := SkipWsFrom(s, i);
    var r := StringAt(s, a).value;
    var j := SkipWsFrom(s, r.next);
    WsSlice(s, i);
    WsSlice(s, r.next);
    StringIsDenoted(s, a);
    p := Padded(s[i..a], s[a + 1..r.next - 1], r.value, s[r.next..j]);
  }

  lemma TextOfMember(s: Bytes, i: nat) returns (m: Member)
    requires i <= |s| && MemberAt(s, SkipWsFrom(s, i)).Some?
    ensures var r := MemberAt(s, SkipWsFrom(s, i)).value;
            MemberOk(m) && EntryOf(m) == Entry(r.key, r.value) && Slice(s, i, MemberText(m), r.next)
  {
    hide StringAt, Denotes, SkipWsFrom, PaddedText, PaddedAt, PaddedOk;
    var key := StringAt(s, SkipWsFrom(s, i)).value;
    var c := SkipWsFrom(s, key.next);
    var k := PaddedOfString(s, i);
    var v := PaddedOfString(s, c + 1);
    m := Member(k, v);
    var next := MemberAt(s, SkipWsFrom(s, i)).value.next;
    PaddedAtIsText(s, i, k, c);
    PaddedAtIsText(s, c + 1, v, next);
    Separated(s, i, next, PaddedText(k), COLON, PaddedText(v));
  }

  lemma EndOfText(s: Bytes, i: nat) returns (ms: Members)
    requires i <= |s| && SkipWsFrom(s, i) < |s| && s[SkipWsFrom(s, i)] == RBRACE
    ensures MembersOk(ms) && MembersAt(s, i, ms, SkipWsFrom(s, i) + 1)
  {
    hide SkipWsFrom;
    WsSlice(s, i);
    ms := End(s[i..SkipWsFrom(s, i)]);
  }

  lemma LastAt(s: Bytes, i: nat, m: Member, k: nat)
    requires Slice(s, i, MemberText(m), k) && k < |s| && s[k] == RBRACE
    ensures MembersAt(s, i, Last(m), k + 1)
  {
    hide MemberText;
  }

  lemma MoreAt(s: Bytes, i: nat, m: Member, k: nat, rest: Members, j: nat)
    requires Slice(s, i, MemberText(m), k) && k < |s| && s[k] == COMMA && MembersAt(s, k + 1, rest, j)
    ensures MembersAt(s, i, More(m, rest), j)
  {
    hide MemberText;
    assert k == i + |MemberText(m)|;
  }

  lemma {:induction false} TextOfMembers(s: Bytes, i: nat, f: Fields, t: bool) returns (ms: Members)
    requires i <= |s| && MembersFrom(s, i, f, t).Some?
    ensures var r := MembersFrom(s, i, f, t).value;
            && MembersOk(ms) && MembersAt(s, i, ms, r.next)
            && r.fields == AssignAll(f, Entries(ms)) && r.hasType == (t || HasKey(Entries(ms), TYPE))
    decreases |s| - i
  {
    hide SkipWsFrom, MemberText, MemberAt, Assign, AssignAll, HasKey, MembersFrom, MembersAt, Slice, MemberOk;
    var j := SkipWsFrom(s, i);
    MembersUnfold(s, i, f, t);
    if s[j] == RBRACE {
      ms := EndOfText(s, i);
    } else {
      var r := MemberAt(s, j).value;
      var m := TextOfMember(s, i);
      if s[r.next] == COMMA {
        var rest := TextOfMembers(s, r.next + 1, Assign(f, r.key, r.value), t || r.key == TYPE);
        ms := More(m, rest);
        MoreAt(s, i, m, r.next, rest, MembersFrom(s, i, f, t).value.next);
      } else {
        ms := Last(m);
        LastAt(s, i, m, r.next);
      }
    }
    MembersOfText(s, i, ms, MembersFrom(s, i, f, t).value.next, f, t);
  }

  // ---------- last values ----------

  lemma {:induction false} LastOfCons(e: Entry, rest: seq<Entry>, key: Bytes)
    ensures HasKey([e] + rest, key) <==> e.key == key || HasKey(rest, key)
    ensures LastValue([e] + rest, key) ==
            if HasKey(rest, key) then LastValue(rest, key) else if e.key == key then e.value else []
    decreases |rest|
  {
    var es := [e] + rest;
    assert e in es && forall x | x in rest :: x in es;
    if rest != [] {
      var n := |rest| - 1;
      assert es[|es| - 1] == rest[n] && es[..|es| - 1] == [e] + rest[..n];
      assert rest[n] in rest && forall x | x in rest[..n] :: x in rest;
      assert forall x | x in rest :: x == rest[n] || x in rest[..n];
      LastOfCons(e, rest[..n], key);
    } else {
      assert es[..|es| - 1] == [];
    }
  }

  lemma {:induction false} AssignAllIsLast(f: Fields, es: seq<Entry>)
    ensures var g := AssignAll(f, es);
            && g.typ == (if HasKey(es, TYPE) then LastValue(es, TYPE) else f.typ)
            && g.sam == (if HasKey(es, SAM) then LastValue(es, SAM) else f.sam)
            && g.password == (if HasKey(es, PASSWORD) then LastValue(es, PASSWORD) else f.password)
            && g.reason == (if HasKey(es, REASON) then LastValue(es, REASON) else f.reason)
    decreases |es|
  {
    if es != [] {
      var e, rest := es[0], es[1..];
      AssignAllIsLast(Assign(f, e.key, e.value), rest);
      LastOfCons(e, rest, TYPE);
      LastOfCons(e, rest, SAM);
      LastOfCons(e, rest, PASSWORD);
      LastOfCons(e, rest, REASON);
      assert es == [e] + rest;
    }
  }

  lemma {:induction false} NoKeyNoValue(es: seq<Entry>, key: Bytes)
    requires !HasKey(es, key)
    ensures LastValue(es, key) == []
    decreases |es|
  {
    if es != [] {
      assert es[|es| - 1] in es;
      NoKeyNoValue(es[..|es| - 1], key);
    }
  }

  lemma AssignAllIsFieldsOf(es: seq<Entry>)
    ensures AssignAll(NO_FIELDS, es) == FieldsOf(es)
  {
    AssignAllIsLast(NO_FIELDS, es);
    if !HasKey(es, TYPE) { NoKeyNoValue(es, TYPE); }
    if !HasKey(es, SAM) { NoKeyNoValue(es, SAM); }
    if !HasKey(es, PASSWORD) { NoKeyNoValue(es, PASSWORD); }
    if !HasKey(es, REASON) { NoKeyNoValue(es, REASON); }
  }

  // ---------- the line ----------

  lemma {:induction false} MembersTextEnds(ms: Members)
    ensures var t := MembersText(ms); |t| > 0 && t[|t| - 1] == RBRACE
  {
    if ms.More? {
      MembersTextEnds(ms.rest);
    }
  }

  lemma LineSlices(s: Bytes, l: Line)
    requires LineText(l) == s
    ensures var a, b := |l.lead|, |s| - |l.trail|;
            a < b && s[0..a] == l.lead && s[a] == LBRACE && s[a + 1..b] == MembersText(l.members)
                && s[b..|s|] == l.trail
            && |MembersText(l.members)| > 0 && s[b - 1] == RBRACE
  {
    hide MembersText;
    MembersTextEnds(l.members);
    var t := MembersText(l.members);
    assert s[0..|s|] == s;
    SliceConcat(s, 0, |s|, l.lead + [LBRACE] + t, l.trail);
    Separated(s, 0, |s| - |l.trail|, l.lead, LBRACE, t);
    assert s[|s| - |l.trail| - 1] == t[|t| - 1];
  }

  lemma ObjectOfText(s: Bytes, l: Line)
    requires LineOk(l) && LineText(l) == s
    ensures ObjectIn(s) == if HasKey(Entries(l.members), TYPE) then Some(FieldsOf(Entries(l.members))) else None
  {
    hide MembersFrom, SkipWsFrom, AssignAll, HasKey, MembersText, FieldsOf, MembersOk;
    var a, b := |l.lead|, |s| - |l.trail|;
    LineSlices(s, l);
    SkipExact(s, 0, a);
    MembersAtIsText(s, a + 1, l.members, b);
    MembersOfText(s, a + 1, l.members, b, NO_FIELDS, false);
    SkipExact(s, b, |s|);
    AssignAllIsFieldsOf(Entries(l.members));
  }

  lemma Cut(s: Bytes, i: nat, j: nat)
    requires i < j <= |s|
    ensures s == s[0..i] + [s[i]] + s[i + 1..j] + s[j..|s|]
  {
  }

  lemma TextOfObject(s: Bytes) returns (l: Line)
    requires ObjectIn(s).Some?
    ensures LineOk(l) && LineText(l) == s
    ensures HasKey(Entries(l.members), TYPE) && ObjectIn(s) == Some(FieldsOf(Entries(l.members)))
  {
    hide MembersFrom, SkipWsFrom, AssignAll, HasKey, MembersText, FieldsOf, MembersOk;
    var i := SkipWsFrom(s, 0);
    var ms := TextOfMembers(s, i + 1, NO_FIELDS, false);
    var j := MembersFrom(s, i + 1, NO_FIELDS, false).value.next;
    MembersAtBounds(s, i + 1, ms, j);
    MembersAtIsText(s, i + 1, ms, j);
    WsSlice(s, 0);
    WsSlice(s, j);
    l := Line(s[0..i], ms, s[j..|s|]);
    Cut(s, i, j);
    AssignAllIsFieldsOf(Entries(ms));
  }

  /** Trimming removes exactly the whitespace around the braces. */
  lemma TrimmedText(line: Bytes, l: Line)
    requires LineOk(l) && LineText(l) == line
    ensures Trimmed(line) == LineText(Line([], l.members, []))
  {
    hide MembersText, MembersOk, SkipWsFrom, TrimEnd;
    var a, b := |l.lead|, |line| - |l.trail|;
    LineSlices(line, l);
    SkipExact(line, 0, a);
    assert forall k | b <= k < |line| :: line[b..|line|][k - b] == line[k];
    assert TrimEnd(line, a, |line|) == b;
    assert line[a..b] == [LBRACE] + line[a + 1..b];
  }

  lemma LineOfText(line: Bytes, l: Line)
    requires LineOk(l) && LineText(l) == line && FieldsOf(Entries(l.members)).typ != []
    ensures ParseLine(line) == Some(FieldsOf(Entries(l.members)))
  {
    hide MembersText, MembersOk, ObjectIn, Trimmed, Entries, LastValue;
    var es := Entries(l.members);
    TrimmedText(line, l);
    ObjectOfText(Trimmed(line), Line([], l.members, []));
    if !HasKey(es, TYPE) {
      NoKeyNoValue(es, TYPE);
    }
  }

  lemma TextOfLine(line: Bytes) returns (l: Line)
    requires ParseLine(line).Some?
    ensures LineOk(l) && LineText(l) == line && ParseLine(line) == Some(FieldsOf(Entries(l.members)))
  {
    hide MembersText, MembersOk, ObjectIn, Entries, LastValue, SkipWsFrom, TrimEnd, FieldsOf;
    var s := Trimmed(line);
    var m := TextOfObject(s);
    var i := SkipWsFrom(line, 0);
    var j := TrimEnd(line, i, |line|);
    l := Line(line[..i] + m.lead, m.members, m.trail + line[j..]);
    assert line == line[..i] + s + line[j..];
    assert LineText(l) == line[..i] + LineText(m) + line[j..];
  }

  /** A line is accepted just when it is a text of the grammar with a non-empty last "type", and
      then every field is the value of the last member that carries its key, or empty. */
  lemma LineExactness(line: Bytes, f: Fields)
    ensures ParseLine(line) == Some(f) <==>
            f.typ != [] && exists l: Line :: LineOk(l) && LineText(l) == line && f == FieldsOf(Entries(l.members))
  {
    hide MembersText, MembersOk, ObjectIn, Trimmed, Entries, LastValue;
    if ParseLine(line) == Some(f) {
      var l := TextOfLine(line);
    }
    if f.typ != [] {
      if l: Line :| LineOk(l) && LineText(l) == line && f == FieldsOf(Entries(l.members)) {
        LineOfText(line, l);
      }
    }
  }
}
