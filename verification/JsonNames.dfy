/** The texts and marks of a broker line, spelled out as characters. What the parser does is defined
    over constants and tables of byte values; here the same is stated on the characters themselves, and
    on whole lines without the functions that sort members into fields. */
module JsonNames {
  import opened Unicode
  import opened JsonString
  import opened Options
  import opened JsonGrammar
  import opened JsonObject
  import opened JsonExactness
  import opened Messages

  lemma Names()
    ensures TYPE == Ascii("type") && SAM == Ascii("sam")
    ensures PASSWORD == Ascii("password") && REASON == Ascii("reason")
  {
  }

  lemma Types()
    ensures AUTH_PENDING == Ascii("AUTH_PENDING") && AUTH_IDLE == Ascii("AUTH_IDLE")
    ensures AUTH_FAIL == Ascii("AUTH_FAIL") && AUTH_FALLBACK == Ascii("AUTH_FALLBACK")
    ensures AUTH_SUCCESS == Ascii("AUTH_SUCCESS")
  {
  }

  /** Whitespace is the blank, the tab and the two line ends. */
  lemma Whitespace(b: Byte)
    ensures IsWs(b) <==> b in Ascii(" \t\r\n")
  {
    var t := Ascii(" \t\r\n");
    assert t[0] == 32 && t[1] == 9 && t[2] == 13 && t[3] == 10;
  }

  /** The last member with the key is the `k`-th. */
  predicate LastAt(es: seq<Entry>, key: Bytes, k: nat) {
    k < |es| && es[k].key == key && forall j | k < j < |es| :: es[j].key != key
  }

  predicate Absent(es: seq<Entry>, key: Bytes) { forall j | 0 <= j < |es| :: es[j].key != key }

  /** `value` is the value of the last member with the key, and nothing if there is none. */
  ghost predicate LastIs(es: seq<Entry>, key: Bytes, value: Bytes) {
    if Absent(es, key) then value == [] else exists k: nat :: LastAt(es, key, k) && es[k].value == value
  }

  lemma {:induction false} LastValueAt(es: seq<Entry>, key: Bytes, k: nat)
    requires LastAt(es, key, k)
    ensures LastValue(es, key) == es[k].value
    decreases |es|
  {
    if k < |es| - 1 {
      LastValueAt(es[..|es| - 1], key, k);
    }
  }

  lemma {:induction false} LastIndex(es: seq<Entry>, key: Bytes) returns (k: nat)
    requires !Absent(es, key)
    ensures LastAt(es, key, k)
    decreases |es|
  {
    k := |es| - 1;
    if es[k].key != key {
      k := LastIndex(es[..|es| - 1], key);
    }
  }

  lemma {:induction false} AbsentEmpty(es: seq<Entry>, key: Bytes)
    requires Absent(es, key)
    ensures LastValue(es, key) == []
    decreases |es|
  {
    if es != [] {
      AbsentEmpty(es[..|es| - 1], key);
    }
  }

  lemma LastIsValue(es: seq<Entry>, key: Bytes, value: Bytes)
    ensures LastIs(es, key, value) <==> LastValue(es, key) == value
  {
    hide LastValue, Absent;
    if Absent(es, key) {
      AbsentEmpty(es, key);
    } else {
      var k := LastIndex(es, key);
      LastValueAt(es, key, k);
      if LastIs(es, key, value) {
        var j: nat :| LastAt(es, key, j) && es[j].value == value;
        LastValueAt(es, key, j);
      }
    }
  }

  /** What the members of a line say: each field is the last value under its name. */
  ghost predicate Says(es: seq<Entry>, f: Fields) {
    && LastIs(es, Ascii("type"), f.typ) && LastIs(es, Ascii("sam"), f.sam)
    && LastIs(es, Ascii("password"), f.password) && LastIs(es, Ascii("reason"), f.reason)
  }

  lemma SaysFields(es: seq<Entry>, f: Fields)
    ensures Says(es, f) <==> f == FieldsOf(es)
  {
    hide LastValue, LastIs, Ascii;
    Names();
    LastIsValue(es, TYPE, f.typ);
    LastIsValue(es, SAM, f.sam);
    LastIsValue(es, PASSWORD, f.password);
    LastIsValue(es, REASON, f.reason);
  }

  /** A line is accepted just when it is a text of the grammar with a non-empty last "type", and then
      its fields are the last values under the four names. */
  lemma LineByName(line: Bytes, f: Fields)
    ensures ParseLine(line) == Some(f) <==>
            f.typ != [] && exists l: Line :: LineOk(l) && LineText(l) == line && Says(Entries(l.members), f)
  {
    hide LineOk, LineText, Entries, Says, FieldsOf, ParseLine;
    LineExactness(line, f);
    if f.typ != [] {
      if ParseLine(line) == Some(f) {
        var l: Line :| LineOk(l) && LineText(l) == line && f == FieldsOf(Entries(l.members));
        SaysFields(Entries(l.members), f);
      }
      if l: Line :| LineOk(l) && LineText(l) == line && Says(Entries(l.members), f) {
        SaysFields(Entries(l.members), f);
      }
    }
  }

  /** `line` is written like this and says `f`. */
  ghost predicate Written(line: Bytes, l: Line, f: Fields) {
    LineOk(l) && LineText(l) == line && Says(Entries(l.members), f)
  }

  /** What a reader of lines has to do: accept just the lines that can be written to say something with a
      non-empty type, and then give what they say. */
  ghost predicate ReadsAs(line: Bytes, r: Option<Fields>) {
    match r
    case Some(f) => f.typ != [] && exists l: Line :: Written(line, l, f)
    case None => forall l: Line, f: Fields | Written(line, l, f) :: f.typ == []
  }

  lemma ParseReads(line: Bytes)
    ensures ReadsAs(line, ParseLine(line))
  {
    hide LineOk, LineText, Entries, Says, ParseLine;
    match ParseLine(line)
    case Some(f) =>
      LineByName(line, f);
      var l: Line :| LineOk(l) && LineText(l) == line && Says(Entries(l.members), f);
      assert Written(line, l, f);
    case None =>
      forall l: Line, f: Fields | Written(line, l, f) ensures f.typ == [] {
        LineByName(line, f);
      }
  }

  lemma OneOfThree(es: seq<Entry>, i: nat, j: nat, k: nat, key: Bytes)
    requires |es| == 3 && i < 3 && j < 3 && k < 3 && i != j && j != k && i != k
    requires es[j].key != key && es[k].key != key
    ensures LastIs(es, key, if es[i].key == key then es[i].value else [])
  {
    if es[i].key == key {
      assert LastAt(es, key, i);
    }
  }

  lemma Differ()
    ensures |Ascii("type")| == 4 && |Ascii("sam")| == 3 && |Ascii("password")| == 8 && |Ascii("reason")| == 6
  {
  }

  /** Three members named type, sam and password, in any order, whatever their spelling and layout: the
      values go to the fields of those names. */
  lemma ThreeMembers(l: Line, i: nat, j: nat, k: nat)
    requires LineOk(l) && |Entries(l.members)| == 3 && i < 3 && j < 3 && k < 3 && i != j && j != k && i != k
    requires var es := Entries(l.members);
             && es[i].key == Ascii("type") && es[j].key == Ascii("sam") && es[k].key == Ascii("password")
             && es[i].value != []
    ensures var es := Entries(l.members);
            ParseLine(LineText(l)) == Some(Fields(es[i].value, es[j].value, es[k].value, []))
  {
    hide LineOk, LineText, Entries, LastIs, ParseLine, Ascii;
    var es := Entries(l.members);
    Differ();
    OneOfThree(es, i, j, k, Ascii("type"));
    OneOfThree(es, j, i, k, Ascii("sam"));
    OneOfThree(es, k, i, j, Ascii("password"));
    OneOfThree(es, i, j, k, Ascii("reason"));
    LineByName(LineText(l), Fields(es[i].value, es[j].value, es[k].value, []));
  }

  predicate IsName(key: Bytes) {
    key == Ascii("type") || key == Ascii("sam") || key == Ascii("password") || key == Ascii("reason")
  }

  lemma {:induction false} OtherKeeps(before: seq<Entry>, e: Entry, after: seq<Entry>, key: Bytes)
    requires e.key != key
    ensures LastValue(before + [e] + after, key) == LastValue(before + after, key)
    decreases |after|
  {
    var es := before + [e] + after;
    if after == [] {
      assert es[..|es| - 1] == before && before + after == before;
    } else {
      var n := |after| - 1;
      assert es[..|es| - 1] == before + [e] + after[..n] && (before + after)[..|before| + n] == before + after[..n];
      OtherKeeps(before, e, after[..n], key);
    }
  }

  /** A member under any other name says nothing. */
  lemma OtherMembers(before: seq<Entry>, e: Entry, after: seq<Entry>, f: Fields)
    requires !IsName(e.key)
    ensures Says(before + [e] + after, f) <==> Says(before + after, f)
  {
    hide LastValue, Says, Ascii;
    Names();
    SaysFields(before + [e] + after, f);
    SaysFields(before + after, f);
    OtherKeeps(before, e, after, TYPE);
    OtherKeeps(before, e, after, SAM);
    OtherKeeps(before, e, after, PASSWORD);
    OtherKeeps(before, e, after, REASON);
  }

  // ---------- trimming ----------

  predicate EndsBare(t: Bytes) { t == [] || (!IsWs(t[0]) && !IsWs(t[|t| - 1])) }

  /** Trimming a line gives what lies between the whitespace at its two ends. */
  lemma TrimmedBetween(before: Bytes, t: Bytes, after: Bytes)
    requires AllWs(before) && AllWs(after) && EndsBare(t)
    ensures Trimmed(before + t + after) == t
  {
    var s := before + t + after;
    var a, b := |before|, |before| + |t|;
    assert forall k | 0 <= k < |s| :: s[k] == if k < a then before[k] else if k < b then t[k - a] else after[k - b];
    var i := SkipWsFrom(s, 0);
    var j := TrimEnd(s, i, |s|);
    if t != [] {
      assert s[a] == t[0] && s[b - 1] == t[|t| - 1];
      assert i == a && j == b;
      assert s[a..b] == t;
    } else {
      assert i == |s|;
    }
  }

  // ---------- the grammar in characters ----------

  /** How a line is written. */
  lemma LineWritten(l: Line, m: Member, rest: Members, w: Bytes, p: Padded)
    ensures LineText(l) == l.lead + Ascii("{") + MembersText(l.members) + l.trail
    ensures MembersText(End(w)) == w + Ascii("}") && MembersText(Last(m)) == MemberText(m) + Ascii("}")
    ensures MembersText(More(m, rest)) == MemberText(m) + Ascii(",") + MembersText(rest)
    ensures MemberText(m) == PaddedText(m.key) + Ascii(":") + PaddedText(m.value)
    ensures PaddedText(p) == p.before + (Ascii("\"") + p.raw + Ascii("\"")) + p.after
  {
    assert Ascii("{") == [LBRACE] && Ascii("}") == [RBRACE] && Ascii(",") == [COMMA] && Ascii(":") == [COLON];
    assert Ascii("\"") == [QUOTE];
  }

  lemma Marks()
    ensures Ascii("\"\\") == [34, 92] && Ascii("\\u") == [92, 117] && Ascii("\\") == [92]
    ensures Ascii("\"\\/bfnrt") == [34, 92, 47, 98, 102, 110, 114, 116]
  {
  }

  /** How the elements of a string are written, and what they stand for. */
  lemma ElementWritten(b: Byte, d: Bytes, e: Bytes)
    ensures ElemOk(Plain(b)) <==> b !in Ascii("\"\\")
    ensures ElemOk(Short(b)) <==> b in Ascii("\"\\/bfnrt")
    ensures ElemText(Plain(b)) == [b] && ElemText(Short(b)) == Ascii("\\") + [b]
    ensures ElemText(Hex(d)) == Ascii("\\u") + d && ElemText(Pair(d, e)) == Ascii("\\u") + d + Ascii("\\u") + e
    ensures ElemOk(Plain(b)) ==> ElemMeaning(Plain(b)) == [b]
  {
    Marks();
  }

  lemma ShortAlone(c: Byte)
    requires ShortEscape(c).Some?
    ensures Unescape([92, c]) == Ok([ShortEscape(c).value])
  {
    assert HeadOf([92, c], 0) == Good(2, [ShortEscape(c).value]);
    assert UnescapeFrom([92, c], 2) == Ok([]);
  }

  /** The eight short escapes. */
  lemma ShortMeanings(k: nat)
    requires k < 8
    ensures var c: Byte := Ascii("\"\\/bfnrt")[k]; var b: Byte := [34, 92, 47, 8, 12, 10, 13, 9][k];
            ElemOk(Short(c)) && ElemMeaning(Short(c)) == [b] && Unescape(Ascii("\\") + [c]) == Ok([b])
  {
    Marks();
    var c: Byte := Ascii("\"\\/bfnrt")[k];
    assert Ascii("\\") + [c] == [92, c];
    ShortAlone(c);
  }
}
