/** The installer's JSON printer (Dot1xCP_Setup.iss) works on UTF-16 units; the provider's parser
    emits UTF-8. Printing and then parsing is nevertheless the identity on text, and it fails
    exactly on text that is not well-formed UTF-16. */
module JsonEscape {
  import opened Unicode
  import opened JsonString
  import opened Options
  import opened JsonGrammar

  function NibbleToHex(n: nat): Byte
    requires n < 16
  {
    if n < 10 then 48 + n else 65 + (n - 10)
  }

  function CodeToHex4(code: Unit): Bytes {
    [NibbleToHex(code / 4096 % 16), NibbleToHex(code / 256 % 16), NibbleToHex(code / 16 % 16), NibbleToHex(code % 16)]
  }

  function EscapeUnit(code: Unit): Bytes {
    match code
    case 34 => [BACKSLASH, 34]
    case 92 => [BACKSLASH, 92]
    case 8 => [BACKSLASH, 98]
    case 9 => [BACKSLASH, 116]
    case 10 => [BACKSLASH, 110]
    case 12 => [BACKSLASH, 102]
    case 13 => [BACKSLASH, 114]
    case _ => if code < 32 || code > 126 then [BACKSLASH, LETTER_U] + CodeToHex4(code) else [code]
  }

  function Escape(u: Units): Bytes {
    if u == [] then [] else EscapeUnit(u[0]) + Escape(u[1..])
  }

  lemma {:induction false} EscapeSnoc(u: Units, c: Unit)
    ensures Escape(u + [c]) == Escape(u) + EscapeUnit(c)
    decreases |u|
  {
    hide EscapeUnit;
    if u == [] {
      assert u + [c] == [c] && [c][1..] == [];
    } else {
      assert (u + [c])[0] == u[0] && (u + [c])[1..] == u[1..] + [c];
      EscapeSnoc(u[1..], c);
    }
  }

  method JsonEscape(s: Units) returns (result: Bytes)
    ensures result == Escape(s)
  {
    result := [];
    for i := 0 to |s|
      invariant result == Escape(s[..i])
    {
      EscapeSnoc(s[..i], s[i]);
      assert s[..i] + [s[i]] == s[..i + 1];
      var code := s[i];
      if code == 34 {
        result := result + [BACKSLASH, 34];
      } else if code == 92 {
        result := result + [BACKSLASH, 92];
      } else if code == 8 {
        result := result + [BACKSLASH, 98];
      } else if code == 9 {
        result := result + [BACKSLASH, 116];
      } else if code == 10 {
        result := result + [BACKSLASH, 110];
      } else if code == 12 {
        result := result + [BACKSLASH, 102];
      } else if code == 13 {
        result := result + [BACKSLASH, 114];
      } else if code < 32 || code > 126 {
        result := result + ([BACKSLASH, LETTER_U] + CodeToHex4(code));
      } else {
        result := result + [code];
      }
    }
    assert s[..|s|] == s;
  }

  // ---------- one unit ----------

  /** The digit printed is the upper-case one. */
  lemma NibbleIsDigit(n: nat)
    requires n < 16
    ensures NibbleToHex(n) == Ascii("0123456789ABCDEF")[n] && IsDigit(NibbleToHex(n), n)
  {
    hide Ascii;
    DigitTexts(n);
  }

  lemma HexRoundTrip(code: Unit)
    ensures Digits(CodeToHex4(code), code)
    ensures FourHex(CodeToHex4(code)) && HexNumber(CodeToHex4(code)) == code
  {
    hide NibbleToHex, HexValue, IsDigit, FourHex, HexNumber;
    NibbleIsDigit(code / 4096 % 16);
    NibbleIsDigit(code / 256 % 16);
    NibbleIsDigit(code / 16 % 16);
    NibbleIsDigit(code % 16);
    NumberOfDigits(CodeToHex4(code), code);
  }

  predicate IsSurrogate(u: Unit) { IsHigh(u) || IsLow(u) }

  // ---------- spellings ----------

  /** `x` is the escape of `code` by its number, with each hex digit in either case. */
  predicate ByNumber(x: Bytes, code: Unit) { |x| == 6 && x[..2] == Ascii("\\u") && Digits(x[2..], code) }

  /** `x` spells a unit as the printer does, except that each hex digit may be in either case. */
  predicate Spells(x: Bytes, code: Unit) {
    match code
    case 8 => x == Ascii("\\b")
    case 9 => x == Ascii("\\t")
    case 10 => x == Ascii("\\n")
    case 12 => x == Ascii("\\f")
    case 13 => x == Ascii("\\r")
    case 34 => x == Ascii("\\\"")
    case 92 => x == Ascii("\\\\")
    case _ => if 32 <= code <= 126 then x == [code] else ByNumber(x, code)
  }

  predicate AllSpelled(xs: seq<Bytes>, u: Units) { |xs| == |u| && forall k | 0 <= k < |u| :: Spells(xs[k], u[k]) }

  function Joined(xs: seq<Bytes>): Bytes {
    if xs == [] then [] else xs[0] + Joined(xs[1..])
  }

  lemma SpellingHead(x: Bytes, code: Unit)
    requires ByNumber(x, code)
    ensures x[0] == BACKSLASH && x[1] == LETTER_U && x == [BACKSLASH, LETTER_U] + x[2..]
  {
    hide Digits;
    assert Ascii("\\u") == [BACKSLASH, LETTER_U];
    assert x[0] == x[..2][0] && x[1] == x[..2][1];
  }

  lemma EscapeByNumber(code: Unit)
    ensures ByNumber([BACKSLASH, LETTER_U] + CodeToHex4(code), code)
  {
    hide CodeToHex4, Digits;
    assert Ascii("\\u") == [BACKSLASH, LETTER_U];
    assert CodeToHex4(code) == ([BACKSLASH, LETTER_U] + CodeToHex4(code))[2..];
    HexRoundTrip(code);
  }

  lemma ShortTexts()
    ensures Ascii("\\b") == [92, 98] && Ascii("\\t") == [92, 116] && Ascii("\\n") == [92, 110]
    ensures Ascii("\\f") == [92, 102] && Ascii("\\r") == [92, 114] && Ascii("\\\"") == [92, 34]
    ensures Ascii("\\\\") == [92, 92]
  {
  }

  lemma UpperDigits(code: Unit)
    ensures |CodeToHex4(code)| == 4 && forall k | 0 <= k < 4 :: CodeToHex4(code)[k] in Ascii("0123456789ABCDEF")
  {
    hide NibbleToHex, Ascii;
    NibbleIsDigit(code / 4096 % 16);
    NibbleIsDigit(code / 256 % 16);
    NibbleIsDigit(code / 16 % 16);
    NibbleIsDigit(code % 16);
  }

  /** The printer writes one of the spellings, and of them the one with upper-case digits. */
  lemma EscapeSpells(code: Unit)
    ensures Spells(EscapeUnit(code), code)
    ensures |EscapeUnit(code)| == 6 ==> forall k | 2 <= k < 6 :: EscapeUnit(code)[k] in Ascii("0123456789ABCDEF")
  {
    hide ByNumber, NibbleToHex, CodeToHex4;
    EscapeByNumber(code);
    UpperDigits(code);
    ShortTexts();
  }

  /** The printer's output, unit by unit. */
  function Escapes(u: Units): (xs: seq<Bytes>)
    ensures |xs| == |u|
  {
    seq(|u|, k requires 0 <= k < |u| => EscapeUnit(u[k]))
  }

  lemma {:induction false} EscapesJoin(u: Units)
    ensures Joined(Escapes(u)) == Escape(u)
    decreases |u|
  {
    hide EscapeUnit;
    if u != [] {
      EscapesJoin(u[1..]);
      assert Escapes(u)[1..] == Escapes(u[1..]);
    }
  }

  lemma EscapesSpell(u: Units)
    ensures AllSpelled(Escapes(u), u)
  {
    hide EscapeUnit, Spells;
    forall k | 0 <= k < |u| ensures Spells(Escapes(u)[k], u[k]) {
      EscapeSpells(u[k]);
    }
  }

  // ---------- well-formed text ----------

  /** The element of the grammar that a spelling of a unit is, if the unit is no surrogate. */
  function UnitElem(x: Bytes, code: Unit): Elem
    requires Spells(x, code)
  {
    ShortTexts();
    match code
    case 34 => Short(34)
    case 92 => Short(92)
    case 8 => Short(98)
    case 9 => Short(116)
    case 10 => Short(110)
    case 12 => Short(102)
    case 13 => Short(114)
    case _ => if code < 32 || code > 126 then Hex(x[2..]) else Plain(code)
  }

  lemma HexElemOk(x: Bytes, code: Unit)
    requires !IsSurrogate(code) && ByNumber(x, code)
    ensures var e := Hex(x[2..]); ElemOk(e) && ElemText(e) == x && ElemMeaning(e) == Utf8Char(code)
  {
    hide Digits, FourHex, HexNumber, Utf8Char;
    SpellingHead(x, code);
    NumberOfDigits(x[2..], code);
  }

  lemma UnitElemOk(x: Bytes, code: Unit)
    requires !IsSurrogate(code) && Spells(x, code)
    ensures var e := UnitElem(x, code); ElemOk(e) && ElemText(e) == x && ElemMeaning(e) == Utf8Char(code)
  {
    hide ByNumber, FourHex, HexNumber, Ascii;
    ShortTexts();
    if ByNumber(x, code) {
      HexElemOk(x, code);
    }
  }

  lemma SurrogateByNumber(x: Bytes, code: Unit)
    requires Spells(x, code) && IsSurrogate(code)
    ensures ByNumber(x, code)
  {
  }

  lemma PairElemOk(x: Bytes, y: Bytes, high: Unit, low: Unit)
    requires IsHigh(high) && IsLow(low) && ByNumber(x, high) && ByNumber(y, low)
    ensures var e := Pair(x[2..], y[2..]);
            ElemOk(e) && ElemText(e) == x + y && ElemMeaning(e) == Utf8Char(Combine(high, low))
  {
    hide Digits, FourHex, HexNumber, Utf8Char, Combine;
    SpellingHead(x, high);
    SpellingHead(y, low);
    NumberOfDigits(x[2..], high);
    NumberOfDigits(y[2..], low);
  }

  lemma ConsText(e: Elem, es: seq<Elem>)
    requires ElemOk(e) && StringOk(es)
    ensures StringOk([e] + es)
    ensures Text([e] + es) == ElemText(e) + Text(es) && Meaning([e] + es) == ElemMeaning(e) + Meaning(es)
  {
    hide ElemOk, ElemText, ElemMeaning;
    assert ([e] + es)[1..] == es;
  }

  lemma NoElems()
    ensures StringOk([]) && Text([]) == [] && Meaning([]) == []
  {
  }

  /** The head of a spelled text: one element for a unit or for a surrogate pair. */
  lemma HeadSpelled(xs: seq<Bytes>, u: Units) returns (e: Elem, n: nat)
    requires AllSpelled(xs, u) && u != [] && !IsLow(u[0]) && (IsHigh(u[0]) ==> |u| > 1 && IsLow(u[1]))
    ensures n == (if IsHigh(u[0]) then 2 else 1) <= |xs| == |u| && ElemOk(e)
    ensures Joined(xs) == ElemText(e) + Joined(xs[n..]) && AllSpelled(xs[n..], u[n..])
    ensures ElemMeaning(e) == Utf8Char(if IsHigh(u[0]) then Combine(u[0], u[1]) else u[0])
  {
    hide Spells, ByNumber, ElemOk, ElemText, ElemMeaning, UnitElem, Utf8Char, Combine;
    if IsHigh(u[0]) {
      SurrogateByNumber(xs[0], u[0]);
      SurrogateByNumber(xs[1], u[1]);
      PairElemOk(xs[0], xs[1], u[0], u[1]);
      e, n := Pair(xs[0][2..], xs[1][2..]), 2;
      assert xs[1..][1..] == xs[2..];
      assert Joined(xs) == xs[0] + (xs[1] + Joined(xs[2..]));
    } else {
      UnitElemOk(xs[0], u[0]);
      e, n := UnitElem(xs[0], u[0]), 1;
    }
  }

  lemma NothingJoined(xs: seq<Bytes>, u: Units)
    requires AllSpelled(xs, u) && u == []
    ensures Joined(xs) == []
  {
  }

  /** Any spelling of well-formed text is a string of the grammar that stands for its UTF-8. */
  lemma {:induction false} SpelledElems(xs: seq<Bytes>, u: Units) returns (es: seq<Elem>)
    requires AllSpelled(xs, u) && WellFormed16(u)
    ensures StringOk(es) && Text(es) == Joined(xs) && Meaning(es) == Utf8(Decode16(u))
    decreases |u|
  {
    hide ElemOk, ElemText, ElemMeaning, Utf8Char, Combine, StringOk, Text, Meaning, AllSpelled, Joined;
    NoElems();
    es := [];
    if u == [] {
      NothingJoined(xs, u);
    } else {
      var e, n := HeadSpelled(xs, u);
      var rest := SpelledElems(xs[n..], u[n..]);
      ConsText(e, rest);
      es := [e] + rest;
    }
  }

  // ---------- any text ----------

  lemma HexAt(s: Bytes, i: nat, x: Bytes, c: Unit, t: Bytes)
    requires i <= |s| && s[i..] == x + t && ByNumber(x, c)
    ensures i + 6 <= |s| && s[i] == BACKSLASH && s[i + 1] == LETTER_U && Hex4(s, i + 2) == Some(c) && s[i + 6..] == t
  {
    hide Digits, Hex4;
    SpellingHead(x, c);
    assert |s[i..]| == 6 + |t|;
    assert s[i] == s[i..][0] && s[i + 1] == s[i..][1];
    assert s[i + 2..i + 6] == s[i..][2..6] == x[2..];
    assert s[i + 6..] == s[i..][6..] == t;
    HexSpellings(s, i + 2, c);
  }

  lemma LongNumber(x: Bytes, code: Unit)
    ensures ByNumber(x, code) ==> |x| == 6
  {
  }

  /** A spelling that starts like an escape by number is one. */
  lemma NumberStart(x: Bytes, code: Unit)
    requires Spells(x, code)
    ensures 1 <= |x|
    ensures x[0] == BACKSLASH ==> |x| >= 2
    ensures |x| >= 2 && x[1] == LETTER_U ==> ByNumber(x, code)
  {
    hide ByNumber;
    ShortTexts();
    if |x| == 6 && ByNumber(x, code) {
      SpellingHead(x, code);
    }
    assert ByNumber(x, code) ==> |x| == 6 by { LongNumber(x, code); }
  }

  lemma HeadBytes(s: Bytes, i: nat, x: Bytes, t: Bytes)
    requires i <= |s| && s[i..] == x + t
    ensures |s| == i + |x| + |t|
    ensures |x| >= 1 ==> s[i] == x[0]
    ensures |x| >= 2 ==> s[i + 1] == x[1]
  {
    assert |s[i..]| == |x| + |t|;
    assert |x| >= 1 ==> s[i..][0] == s[i];
    assert |x| >= 2 ==> s[i..][1] == s[i + 1];
  }

  lemma JoinedCons(xs: seq<Bytes>, u: Units)
    requires AllSpelled(xs, u) && u != []
    ensures |xs| == |u| && Spells(xs[0], u[0]) && AllSpelled(xs[1..], u[1..]) && Joined(xs) == xs[0] + Joined(xs[1..])
  {
    hide Spells;
  }

  /** Where a surrogate stands unpaired, the head of the text is refused. */
  lemma LoneHead(s: Bytes, i: nat, xs: seq<Bytes>, u: Units)
    requires AllSpelled(xs, u) && i <= |s| && s[i..] == Joined(xs) && u != []
    requires IsLow(u[0]) || (IsHigh(u[0]) && (|u| == 1 || !IsLow(u[1])))
    ensures i < |s| && HeadOf(s, i) == Bad(LoneSurrogate)
  {
    hide Spells, ByNumber, Hex4, Joined, AllSpelled;
    JoinedCons(xs, u);
    SurrogateByNumber(xs[0], u[0]);
    var rest := xs[1..];
    HexAt(s, i, xs[0], u[0], Joined(rest));
    if IsHigh(u[0]) && i + 11 < |s| && s[i + 6] == BACKSLASH && s[i + 7] == LETTER_U {
      if |u| == 1 {
        NothingJoined(rest, u[1..]);
      }
      assert |u| > 1;
      JoinedCons(rest, u[1..]);
      NumberStart(rest[0], u[1]);
      HeadBytes(s, i + 6, rest[0], Joined(rest[1..]));
      HexAt(s, i + 6, rest[0], u[1], Joined(rest[1..]));
    }
  }

  lemma HeadElem(s: Bytes, i: nat, e: Elem, t: Bytes)
    requires ElemOk(e) && i <= |s| && s[i..] == ElemText(e) + t
    ensures i < |s| && i + Size(e) <= |s| && HeadOf(s, i) == Good(Size(e), ElemMeaning(e)) && s[i + Size(e)..] == t
  {
    hide ElemText, ElemMeaning, ElemOk, HeadOf, ElemSpelled;
    ElemSpelledIsText(s, i, e);
    SliceConcat(s, i, |s|, ElemText(e), t);
    assert s[i..|s|] == s[i..];
    HeadOfElem(s, i, e);
  }

  lemma NothingEscaped(s: Bytes, i: nat)
    requires i <= |s| && s[i..] == []
    ensures UnescapeFrom(s, i) == Ok([])
  {
    assert i == |s|;
  }

  lemma BadHead(s: Bytes, i: nat)
    requires i < |s| && HeadOf(s, i).Bad?
    ensures UnescapeFrom(s, i) == Err(HeadOf(s, i).error)
  {
    hide HeadOf;
  }

  lemma OverHead(s: Bytes, i: nat, n: nat, head: Bytes)
    requires i < |s| && HeadOf(s, i) == Good(n, head)
    ensures i + n <= |s| && UnescapeFrom(s, i) == Prepend(head, UnescapeFrom(s, i + n))
  {
    hide HeadOf;
  }

  lemma {:induction false} UnescapeSpelledFrom(s: Bytes, i: nat, xs: seq<Bytes>, u: Units)
    requires AllSpelled(xs, u) && i <= |s| && s[i..] == Joined(xs)
    ensures UnescapeFrom(s, i) == if WellFormed16(u) then Ok(Utf8(Decode16(u))) else Err(LoneSurrogate)
    decreases |u|
  {
    hide HeadOf, Utf8Char, Combine, UnescapeFrom, ElemMeaning, ElemText, ElemOk, AllSpelled, Joined;
    if u == [] {
      NothingJoined(xs, u);
      NothingEscaped(s, i);
    } else if IsLow(u[0]) || (IsHigh(u[0]) && (|u| == 1 || !IsLow(u[1]))) {
      LoneHead(s, i, xs, u);
      BadHead(s, i);
    } else {
      var e, n := HeadSpelled(xs, u);
      HeadElem(s, i, e, Joined(xs[n..]));
      OverHead(s, i, Size(e), ElemMeaning(e));
      UnescapeSpelledFrom(s, i + Size(e), xs[n..], u[n..]);
    }
  }

  /** Unescaping any spelling of a text succeeds just when no surrogate stands unpaired, and then it
      yields the UTF-8 of the text. */
  lemma UnescapeAnySpelling(xs: seq<Bytes>, u: Units)
    requires AllSpelled(xs, u)
    ensures Unescape(Joined(xs)) == if WellFormed16(u) then Ok(Utf8(Decode16(u))) else Err(LoneSurrogate)
  {
    hide UnescapeFrom, Joined, AllSpelled, WellFormed16;
    assert Joined(xs)[0..] == Joined(xs);
    UnescapeSpelledFrom(Joined(xs), 0, xs, u);
  }

  /** In particular what the installer has printed. */
  lemma UnescapeEscape(u: Units)
    ensures Unescape(Escape(u)) == if WellFormed16(u) then Ok(Utf8(Decode16(u))) else Err(LoneSurrogate)
  {
    hide Unescape, Escape, WellFormed16, AllSpelled, Joined, Escapes;
    EscapesSpell(u);
    EscapesJoin(u);
    UnescapeAnySpelling(Escapes(u), u);
  }

  lemma TokenEndOverUnit(s: Bytes, i: nat, x: Bytes, c: Unit)
    requires Spells(x, c) && i + |x| <= |s| && s[i..i + |x|] == x
    ensures TokenEnd(s, i) == TokenEnd(s, i + |x|)
  {
    hide Digits, FourHex, HexNumber;
    ShortTexts();
    assert s[i] == s[i..i + |x|][0];
    if |x| == 6 {
      SpellingHead(x, c);
      NumberOfDigits(x[2..], c);
      assert s[i + 2..i + 6] == s[i..i + 6][2..] == x[2..];
      TokenEndOverDigits(s, i + 2);
    }
  }

  lemma QuoteEnds(s: Bytes, i: nat)
    requires i < |s| && s[i] == QUOTE
    ensures TokenEnd(s, i) == Some(i)
  {
  }

  lemma {:induction false} TokenEndOverSpelled(s: Bytes, i: nat, xs: seq<Bytes>, u: Units)
    requires AllSpelled(xs, u)
    requires i + |Joined(xs)| < |s| && s[i..i + |Joined(xs)|] == Joined(xs) && s[i + |Joined(xs)|] == QUOTE
    ensures TokenEnd(s, i) == Some(i + |Joined(xs)|)
    decreases |u|
  {
    hide Spells, AllSpelled, Joined;
    if u == [] {
      NothingJoined(xs, u);
      QuoteEnds(s, i);
    } else {
      JoinedCons(xs, u);
      var x, y := xs[0], Joined(xs[1..]);
      SliceConcat(s, i, i + |Joined(xs)|, x, y);
      TokenEndOverUnit(s, i, x, u[0]);
      TokenEndOverSpelled(s, i + |x|, xs[1..], u[1..]);
    }
  }

  /** Between quotes, and whatever follows, the token scanner returns exactly the escaped text and
      stops right after the closing quote; this needs no well-formedness. */
  lemma TokenOfSpelled(xs: seq<Bytes>, u: Units, suffix: Bytes)
    requires AllSpelled(xs, u)
    ensures Token(Ascii("\"") + Joined(xs) + Ascii("\"") + suffix, 0) == Some(Cut(Joined(xs), |Joined(xs)| + 2))
  {
    hide AllSpelled, Joined;
    var x := Joined(xs);
    var s := Ascii("\"") + x + Ascii("\"") + suffix;
    assert Ascii("\"") == [QUOTE];
    assert s[0] == QUOTE && s[1 + |x|] == QUOTE && s[1..1 + |x|] == x;
    TokenEndOverSpelled(s, 1, xs, u);
  }

  lemma TokenOfEscaped(u: Units, suffix: Bytes)
    ensures Token(Ascii("\"") + Escape(u) + Ascii("\"") + suffix, 0) == Some(Cut(Escape(u), |Escape(u)| + 2))
  {
    hide Escape, Ascii, Token, AllSpelled, Joined, Escapes;
    EscapesSpell(u);
    EscapesJoin(u);
    TokenOfSpelled(Escapes(u), u, suffix);
  }
}
