/** The byte-wise scanners keep UTF-8 whole: from a valid line come valid tokens and valid fields. */
module JsonUtf8 {
  import opened Unicode
  import opened JsonString
  import opened JsonGrammar
  import opened JsonObject

  predicate IsAscii(b: Byte) { b <= 0x7F }

  /** A piece cut out just after an ASCII byte and just before one is valid. */
  lemma ValidPiece(s: Bytes, a: nat, b: nat)
    requires ValidUtf8(s) && a <= b <= |s|
    requires a == 0 || IsAscii(s[a - 1])
    requires b == |s| || IsAscii(s[b])
    ensures ValidUtf8(s[a..b])
  {
    ValidCut(s, b);
    var t := s[..b];
    if a > 0 {
      ValidCut(t, a - 1);
      ValidAfterAscii(t[a - 1..]);
      assert t[a - 1..][1..] == s[a..b];
    } else {
      assert t == s[a..b];
    }
  }

  lemma TokenValid(s: Bytes, i: nat)
    requires ValidUtf8(s) && Token(s, i).Some?
    ensures ValidUtf8(Token(s, i).value.raw)
  {
    ValidPiece(s, i + 1, TokenEnd(s, i + 1).value);
  }

  lemma PlainByte(s: Bytes, i: nat)
    requires i < |s| && s[i] != BACKSLASH && UnescapeFrom(s, i).Ok?
    ensures UnescapeFrom(s, i + 1).Ok? && UnescapeFrom(s, i).out == [s[i]] + UnescapeFrom(s, i + 1).out
  {
    hide UnicodeHead, ShortEscape;
  }

  lemma {:induction false} PlainRun(s: Bytes, i: nat, n: nat)
    requires i + n <= |s| && UnescapeFrom(s, i).Ok?
    requires forall k | i <= k < i + n :: s[k] != BACKSLASH
    ensures UnescapeFrom(s, i + n).Ok? && UnescapeFrom(s, i).out == s[i..i + n] + UnescapeFrom(s, i + n).out
    decreases n
  {
    hide UnescapeFrom;
    if n > 0 {
      PlainByte(s, i);
      PlainRun(s, i + 1, n - 1);
      assert s[i..i + n] == [s[i]] + s[i + 1..i + n];
    } else {
      assert s[i..i] == [];
    }
  }

  lemma Utf8CharValid(v: Scalar)
    ensures ValidUtf8(Utf8Char(v))
  {
    DecodeEncoded([v]);
    assert Utf8([v]) == Utf8Char(v) + Utf8([]) == Utf8Char(v);
  }

  lemma EscapeIsAscii(s: Bytes, i: nat)
    requires i < |s| && s[i] == BACKSLASH && HeadOf(s, i).Good?
    ensures IsAscii(s[i + HeadOf(s, i).size - 1])
    ensures ValidUtf8(HeadOf(s, i).out)
  {
    hide Utf8Char, Combine;
    var h := HeadOf(s, i);
    if s[i + 1] == LETTER_U {
      var first := Hex4(s, i + 2).value;
      assert s[i + 2..i + 6][3] in s[i + 2..i + 6];
      if h.size == 12 {
        assert s[i + 8..i + 12][3] in s[i + 8..i + 12];
        Utf8CharValid(Combine(first, Hex4(s, i + 8).value));
      } else {
        Utf8CharValid(first);
      }
    } else {
      assert h.out[1..] == [];
    }
  }

  lemma NothingLeft(s: Bytes)
    ensures UnescapeFrom(s, |s|) == Ok([]) && ValidUtf8([])
  {
  }

  lemma ValidEscape(s: Bytes, i: nat)
    requires i < |s| && s[i] == BACKSLASH && ValidUtf8(s[i..]) && HeadOf(s, i).Good?
    ensures ValidUtf8(s[i + HeadOf(s, i).size..]) && ValidUtf8(HeadOf(s, i).out)
  {
    hide HeadOf, ValidUtf8;
    var t, n := s[i..], HeadOf(s, i).size;
    EscapeIsAscii(s, i);
    ValidPiece(t, n, |t|);
    assert t[n..|t|] == s[i + n..];
  }

  lemma ValidChar(t: Bytes)
    requires t != [] && ValidUtf8(t) && t[0] != BACKSLASH
    ensures var n := CharLen(t);
            && 0 < n && ValidUtf8(t[..n]) && ValidUtf8(t[n..])
            && forall k | 0 <= k < n :: t[k] != BACKSLASH
  {
    var n := CharLen(t);
    assert CharLen(t[..n]) == n && t[..n][n..] == [];
  }

  /** At the head stands an escape or a whole character; both leave valid text on either side. */
  lemma ValidHead(s: Bytes, i: nat) returns (n: nat, head: Bytes)
    requires i < |s| && ValidUtf8(s[i..]) && UnescapeFrom(s, i).Ok?
    ensures 1 <= n <= |s| - i && ValidUtf8(s[i + n..]) && ValidUtf8(head) && UnescapeFrom(s, i + n).Ok?
    ensures UnescapeFrom(s, i).out == head + UnescapeFrom(s, i + n).out
  {
    hide ValidUtf8, CharLen;
    if s[i] == BACKSLASH {
      hide HeadOf;
      n, head := HeadOf(s, i).size, HeadOf(s, i).out;
      ValidEscape(s, i);
    } else {
      hide UnescapeFrom;
      var t := s[i..];
      n, head := CharLen(t), t[..CharLen(t)];
      ValidChar(t);
      forall k | i <= k < i + n ensures s[k] != BACKSLASH {
        assert s[k] == t[k - i];
      }
      assert t[n..] == s[i + n..] && t[..n] == s[i..i + n];
      PlainRun(s, i, n);
    }
  }

  lemma {:induction false} UnescapeValid(s: Bytes, i: nat)
    requires i <= |s| && ValidUtf8(s[i..]) && UnescapeFrom(s, i).Ok?
    ensures ValidUtf8(UnescapeFrom(s, i).out)
    decreases |s| - i
  {
    hide ValidUtf8, UnescapeFrom;
    if i == |s| {
      NothingLeft(s);
    } else {
      var n, head := ValidHead(s, i);
      UnescapeValid(s, i + n);
      ValidConcat(head, UnescapeFrom(s, i + n).out);
    }
  }

  lemma StringValid(s: Bytes, i: nat)
    requires ValidUtf8(s) && StringAt(s, i).Some?
    ensures ValidUtf8(StringAt(s, i).value.value)
  {
    hide HeadOf;
    var raw := Token(s, i).value.raw;
    TokenValid(s, i);
    assert raw[0..] == raw;
    UnescapeValid(raw, 0);
  }

  predicate FieldsValid(f: Fields) {
    ValidUtf8(f.typ) && ValidUtf8(f.sam) && ValidUtf8(f.password) && ValidUtf8(f.reason)
  }

  /** One turn of the member loop: it ends here, or goes on after a comma. */
  lemma Turn(s: Bytes, i: nat, f: Fields, t: bool)
    requires i <= |s| && MembersFrom(s, i, f, t).Some?
    ensures var j, r := SkipWsFrom(s, i), MembersFrom(s, i, f, t);
            && j < |s|
            && (s[j] == RBRACE ==> r.value.fields == f)
            && (s[j] != RBRACE ==>
                  && MemberAt(s, j).Some? && MemberAt(s, j).value.next < |s|
                  && var m := MemberAt(s, j).value; var f' := Assign(f, m.key, m.value);
                  && (s[m.next] == COMMA ==> r == MembersFrom(s, m.next + 1, f', t || m.key == TYPE))
                  && (s[m.next] != COMMA ==> r.value.fields == f'))
  {
    hide SkipWsFrom, MemberAt, Assign;
  }

  lemma ValueOfMember(s: Bytes, i: nat) returns (p: nat)
    requires MemberAt(s, i).Some?
    ensures StringAt(s, p).Some? && StringAt(s, p).value.value == MemberAt(s, i).value.value
  {
    hide SkipWsFrom, StringAt;
    p := SkipWsFrom(s, SkipWsFrom(s, StringAt(s, i).value.next) + 1);
  }

  lemma {:induction false} MembersValid(s: Bytes, i: nat, f: Fields, t: bool)
    requires i <= |s| && ValidUtf8(s) && FieldsValid(f) && MembersFrom(s, i, f, t).Some?
    ensures FieldsValid(MembersFrom(s, i, f, t).value.fields)
    decreases |s| - i
  {
    hide StringAt, ValidUtf8, MembersFrom, MemberAt, SkipWsFrom;
    Turn(s, i, f, t);
    var j := SkipWsFrom(s, i);
    if s[j] != RBRACE {
      var m := MemberAt(s, j).value;
      var p := ValueOfMember(s, j);
      StringValid(s, p);
      if s[m.next] == COMMA {
        MembersValid(s, m.next + 1, Assign(f, m.key, m.value), t || m.key == TYPE);
      }
    }
  }

  lemma TrimmedValid(line: Bytes)
    requires ValidUtf8(line)
    ensures ValidUtf8(Trimmed(line))
  {
    var i := SkipWsFrom(line, 0);
    ValidPiece(line, i, TrimEnd(line, i, |line|));
  }

  /** A valid line yields valid fields, whatever it escapes. */
  lemma LineValid(line: Bytes)
    requires ValidUtf8(line) && ParseLine(line).Some?
    ensures FieldsValid(ParseLine(line).value)
  {
    hide MembersFrom, SkipWsFrom, Trimmed;
    var s := Trimmed(line);
    TrimmedValid(line);
    MembersValid(s, SkipWsFrom(s, 0) + 1, NO_FIELDS, false);
  }

  // ---------- lengths ----------

  /** Unescaping never lengthens: at worst six bytes become three, or twelve become four. */
  lemma {:induction false} UnescapeNoLonger(s: Bytes, i: nat)
    requires i <= |s| && UnescapeFrom(s, i).Ok?
    ensures |UnescapeFrom(s, i).out| <= |s| - i
    decreases |s| - i
  {
    if i < |s| {
      UnescapeNoLonger(s, i + HeadOf(s, i).size);
    }
  }

  predicate FieldsFit(f: Fields, n: nat) {
    |f.typ| <= n && |f.sam| <= n && |f.password| <= n && |f.reason| <= n
  }

  lemma StringFits(s: Bytes, i: nat)
    requires StringAt(s, i).Some?
    ensures |StringAt(s, i).value.value| <= |s|
  {
    hide UnescapeFrom;
    UnescapeNoLonger(Token(s, i).value.raw, 0);
  }

  lemma {:induction false} MembersFit(s: Bytes, i: nat, f: Fields, t: bool)
    requires i <= |s| && FieldsFit(f, |s|) && MembersFrom(s, i, f, t).Some?
    ensures FieldsFit(MembersFrom(s, i, f, t).value.fields, |s|)
    decreases |s| - i
  {
    hide StringAt, MembersFrom, MemberAt, SkipWsFrom;
    Turn(s, i, f, t);
    var j := SkipWsFrom(s, i);
    if s[j] != RBRACE {
      var m := MemberAt(s, j).value;
      var p := ValueOfMember(s, j);
      StringFits(s, p);
      if s[m.next] == COMMA {
        MembersFit(s, m.next + 1, Assign(f, m.key, m.value), t || m.key == TYPE);
      }
    }
  }

  /** No field is longer than the line it came from. */
  lemma LineFits(line: Bytes)
    requires ParseLine(line).Some?
    ensures FieldsFit(ParseLine(line).value, |line|)
  {
    hide MembersFrom, SkipWsFrom;
    var s := Trimmed(line);
    MembersFit(s, SkipWsFrom(s, 0) + 1, NO_FIELDS, false);
  }
}
