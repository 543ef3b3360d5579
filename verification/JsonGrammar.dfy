/** The grammar of JSON strings, stated without any scanner, and the proof that the scanners of
    `JsonString` accept exactly this grammar with exactly this meaning.

    A string is a row of elements. `Text` prints it and `Meaning` says what it stands for. Proofs
    work with `Spelled`, the same relation by offsets, so that they slice nothing. */
module JsonGrammar {
  import opened Unicode
  import opened JsonString
  import opened Options

  /** One element of a string: a plain byte (raw control bytes included), a two-byte escape,
      a `\u` escape, or two `\u` escapes that form a surrogate pair. */
  datatype Elem = Plain(b: Byte) | Short(letter: Byte) | Hex(digits: Bytes) | Pair(high: Bytes, low: Bytes)

  predicate ElemOk(e: Elem) {
    match e
    case Plain(b) => b != BACKSLASH && b != QUOTE
    case Short(l) => ShortEscape(l).Some?
    case Hex(d) => FourHex(d) && !IsHigh(HexNumber(d)) && !IsLow(HexNumber(d))
    case Pair(h, l) => FourHex(h) && FourHex(l) && IsHigh(HexNumber(h)) && IsLow(HexNumber(l))
  }

  function ElemText(e: Elem): Bytes {
    match e
    case Plain(b) => [b]
    case Short(l) => [BACKSLASH, l]
    case Hex(d) => [BACKSLASH, LETTER_U] + d
    case Pair(h, l) => [BACKSLASH, LETTER_U] + h + [BACKSLASH, LETTER_U] + l
  }

  function ElemMeaning(e: Elem): Bytes
    requires ElemOk(e)
  {
    match e
    case Plain(b) => [b]
    case Short(l) => [ShortEscape(l).value]
    case Hex(d) => Utf8Char(HexNumber(d))
    case Pair(h, l) => Utf8Char(Combine(HexNumber(h), HexNumber(l)))
  }

  predicate StringOk(es: seq<Elem>) { es == [] || (ElemOk(es[0]) && StringOk(es[1..])) }

  function Text(es: seq<Elem>): Bytes {
    if es == [] then [] else ElemText(es[0]) + Text(es[1..])
  }

  function Meaning(es: seq<Elem>): Bytes
    requires StringOk(es)
  {
    if es == [] then [] else ElemMeaning(es[0]) + Meaning(es[1..])
  }

  // ---------- the same by offsets ----------

  function Size(e: Elem): nat {
    match e case Plain(_) => 1 case Short(_) => 2 case Hex(_) => 6 case Pair(_, _) => 12
  }

  predicate ElemSpelled(s: Bytes, i: nat, e: Elem) {
    i + Size(e) <= |s| &&
    match e
    case Plain(b) => s[i] == b
    case Short(l) => s[i] == BACKSLASH && s[i + 1] == l
    case Hex(d) => s[i] == BACKSLASH && s[i + 1] == LETTER_U && s[i + 2..i + 6] == d
    case Pair(h, l) =>
      && s[i] == BACKSLASH && s[i + 1] == LETTER_U && s[i + 2..i + 6] == h
      && s[i + 6] == BACKSLASH && s[i + 7] == LETTER_U && s[i + 8..i + 12] == l
  }

  /** `es` is spelled out in `s` from offset `i` up to offset `j`. */
  predicate Spelled(s: Bytes, i: nat, es: seq<Elem>, j: nat)
    decreases |es|
  {
    if es == [] then i == j <= |s|
    else ElemSpelled(s, i, es[0]) && Spelled(s, i + Size(es[0]), es[1..], j)
  }

  lemma {:induction false} SpelledBounds(s: Bytes, i: nat, es: seq<Elem>, j: nat)
    requires Spelled(s, i, es, j)
    ensures i <= j <= |s|
    decreases |es|
  {
    if es != [] {
      SpelledBounds(s, i + Size(es[0]), es[1..], j);
    }
  }

  /** A slice is `x` followed by `y` just when it can be cut into `x` and `y`. */
  lemma SliceConcat(s: Bytes, i: nat, j: nat, x: Bytes, y: Bytes)
    requires i <= j <= |s|
    ensures s[i..j] == x + y <==> i + |x| <= j && s[i..i + |x|] == x && s[i + |x|..j] == y
  {
    if s[i..j] == x + y {
      assert s[i..i + |x|] == s[i..j][..|x|] == x;
      assert s[i + |x|..j] == s[i..j][|x|..] == y;
    }
    if i + |x| <= j && s[i..i + |x|] == x && s[i + |x|..j] == y {
      assert s[i..j] == s[i..i + |x|] + s[i + |x|..j];
    }
  }

  lemma HexSpelledIsText(s: Bytes, i: nat, d: Bytes)
    requires |d| == 4 && i + 6 <= |s|
    ensures s[i] == BACKSLASH && s[i + 1] == LETTER_U && s[i + 2..i + 6] == d
            <==> s[i..i + 6] == [BACKSLASH, LETTER_U] + d
  {
    SliceConcat(s, i, i + 6, [BACKSLASH, LETTER_U], d);
    assert s[i..i + 2] == [s[i], s[i + 1]];
  }

  lemma ElemSpelledIsText(s: Bytes, i: nat, e: Elem)
    requires ElemOk(e)
    ensures |ElemText(e)| == Size(e)
    ensures ElemSpelled(s, i, e) <==> i + Size(e) <= |s| && s[i..i + Size(e)] == ElemText(e)
  {
    hide HexNumber, ShortEscape;
    var u := [BACKSLASH, LETTER_U];
    if i + Size(e) <= |s| {
      match e
      case Plain(b) => assert s[i..i + 1] == [s[i]];
      case Short(l) => assert s[i..i + 2] == [s[i], s[i + 1]];
      case Hex(d) => HexSpelledIsText(s, i, d);
      case Pair(h, l) =>
        HexSpelledIsText(s, i, h);
        HexSpelledIsText(s, i + 6, l);
        SliceConcat(s, i, i + 12, u + h, u + l);
        assert u + h + u + l == (u + h) + (u + l);
    }
  }

  lemma {:induction false} SpelledIsText(s: Bytes, i: nat, es: seq<Elem>, j: nat)
    requires StringOk(es) && i <= j <= |s|
    ensures Spelled(s, i, es, j) <==> s[i..j] == Text(es)
    decreases |es|
  {
    hide ElemSpelled, ElemText, ElemOk;
    if es != [] {
      var e, rest := es[0], es[1..];
      ElemSpelledIsText(s, i, e);
      SliceConcat(s, i, j, ElemText(e), Text(rest));
      if i + Size(e) <= j {
        SpelledIsText(s, i + Size(e), rest, j);
      } else if Spelled(s, i, es, j) {
        SpelledBounds(s, i + Size(e), rest, j);
      }
    }
  }

  // ---------- from the grammar to the scanners ----------

  lemma HeadOfElem(s: Bytes, i: nat, e: Elem)
    requires ElemOk(e) && ElemSpelled(s, i, e)
    ensures HeadOf(s, i) == Good(Size(e), ElemMeaning(e))
  {
  }

  lemma UnescapeOverHead(s: Bytes, i: nat, n: nat, head: Bytes, rest: Bytes)
    requires i < |s| && HeadOf(s, i) == Good(n, head) && UnescapeFrom(s, i + n) == Ok(rest)
    ensures UnescapeFrom(s, i) == Ok(head + rest)
  {
  }

  lemma {:induction false} UnescapeSpelled(s: Bytes, i: nat, es: seq<Elem>)
    requires StringOk(es) && Spelled(s, i, es, |s|)
    ensures i <= |s| && UnescapeFrom(s, i) == Ok(Meaning(es))
    decreases |es|
  {
    hide ElemOk, UnescapeFrom, ElemMeaning, HeadOf;
    if es == [] {
      assert UnescapeFrom(s, |s|) == Ok([]) by { UnescapeEnds(s, []); }
    } else {
      var e, rest := es[0], es[1..];
      HeadOfElem(s, i, e);
      UnescapeSpelled(s, i + Size(e), rest);
      UnescapeOverHead(s, i, Size(e), ElemMeaning(e), Meaning(rest));
    }
  }

  /** Four hex digits hold neither a quote nor a backslash. */
  lemma TokenEndOverDigits(s: Bytes, i: nat)
    requires i + 4 <= |s| && FourHex(s[i..i + 4])
    ensures TokenEnd(s, i) == TokenEnd(s, i + 4)
  {
    var d := s[i..i + 4];
    assert d[0] in d && d[1] in d && d[2] in d && d[3] in d;
    assert TokenEnd(s, i) == TokenEnd(s, i + 1);
    assert TokenEnd(s, i + 1) == TokenEnd(s, i + 2);
    assert TokenEnd(s, i + 2) == TokenEnd(s, i + 3);
  }

  lemma TokenEndOverElem(s: Bytes, i: nat, e: Elem)
    requires ElemOk(e) && ElemSpelled(s, i, e)
    ensures TokenEnd(s, i) == TokenEnd(s, i + Size(e))
  {
    match e
    case Plain(b) =>
    case Short(l) =>
    case Hex(d) => TokenEndOverDigits(s, i + 2);
    case Pair(h, l) =>
      TokenEndOverDigits(s, i + 2);
      TokenEndOverDigits(s, i + 8);
  }

  lemma {:induction false} TokenEndSpelled(s: Bytes, i: nat, es: seq<Elem>, j: nat)
    requires StringOk(es) && Spelled(s, i, es, j) && j < |s| && s[j] == QUOTE
    ensures TokenEnd(s, i) == Some(j)
    decreases |es|
  {
    hide ElemSpelled, ElemOk;
    if es != [] {
      SpelledBounds(s, i, es, j);
      TokenEndOverElem(s, i, es[0]);
      TokenEndSpelled(s, i + Size(es[0]), es[1..], j);
    }
  }

  // ---------- from the scanners to the grammar ----------

  /** A token body: quotes and backslashes occur only in backslash pairs, and no pair is cut. */
  predicate Body(raw: Bytes, i: nat)
    decreases |raw| - i
  {
    if i >= |raw| then i == |raw|
    else if raw[i] == BACKSLASH then Body(raw, i + 2)
    else raw[i] != QUOTE && Body(raw, i + 1)
  }

  lemma {:induction false} TokenIsBody(s: Bytes, start: nat, i: nat)
    requires start <= i && TokenEnd(s, i).Some?
    ensures Body(s[start..TokenEnd(s, i).value], i - start)
    decreases |s| - i
  {
    if s[i] != QUOTE {
      TokenIsBody(s, start, if s[i] == BACKSLASH then i + 2 else i + 1);
    }
  }

  lemma BodyAfterDigits(raw: Bytes, i: nat)
    requires Hex4(raw, i).Some? && Body(raw, i)
    ensures Body(raw, i + 4)
  {
    var d := raw[i..i + 4];
    assert d[0] in d && d[1] in d && d[2] in d && d[3] in d;
    assert Body(raw, i + 1) && Body(raw, i + 2) && Body(raw, i + 3);
  }

  lemma BodyAfterHead(raw: Bytes, i: nat)
    requires i < |raw| && Body(raw, i) && HeadOf(raw, i).Good?
    ensures Body(raw, i + HeadOf(raw, i).size)
  {
    if raw[i] == BACKSLASH && raw[i + 1] == LETTER_U {
      BodyAfterDigits(raw, i + 2);
      if HeadOf(raw, i).size == 12 {
        assert Body(raw, i + 6);
        BodyAfterDigits(raw, i + 8);
      }
    }
  }

  lemma {:induction false} BodyNeverDangles(raw: Bytes, i: nat)
    requires i <= |raw| && Body(raw, i)
    ensures UnescapeFrom(raw, i) != Err(Dangling)
    decreases |raw| - i
  {
    if i < |raw| && HeadOf(raw, i).Good? {
      BodyAfterHead(raw, i);
      BodyNeverDangles(raw, i + HeadOf(raw, i).size);
    }
  }

  /** The unescaper never meets a lone backslash at the end of a token: that failure of its own
      cannot arise from text the token scanner has cut. */
  lemma TokenNeverDangles(s: Bytes, i: nat)
    requires Token(s, i).Some?
    ensures Unescape(Token(s, i).value.raw) != Err(Dangling)
  {
    hide Body;
    TokenIsBody(s, i + 1, i + 1);
    BodyNeverDangles(Token(s, i).value.raw, 0);
  }

  function ElemAt(s: Bytes, i: nat): Elem
    requires i < |s| && HeadOf(s, i).Good?
  {
    if s[i] != BACKSLASH then Plain(s[i])
    else if s[i + 1] != LETTER_U then Short(s[i + 1])
    else if HeadOf(s, i).size == 6 then Hex(s[i + 2..i + 6])
    else Pair(s[i + 2..i + 6], s[i + 8..i + 12])
  }

  lemma ElemOfHead(s: Bytes, i: nat)
    requires i < |s| && HeadOf(s, i).Good? && s[i] != QUOTE
    ensures var e := ElemAt(s, i);
            ElemOk(e) && ElemSpelled(s, i, e) && HeadOf(s, i) == Good(Size(e), ElemMeaning(e))
  {
  }

  function Elems(s: Bytes, i: nat): seq<Elem>
    requires i <= |s| && UnescapeFrom(s, i).Ok?
    decreases |s| - i
  {
    if i == |s| then [] else [ElemAt(s, i)] + Elems(s, i + HeadOf(s, i).size)
  }

  lemma {:induction false} ElemsOfUnescaped(s: Bytes, i: nat)
    requires i <= |s| && UnescapeFrom(s, i).Ok? && Body(s, i)
    ensures var es := Elems(s, i);
            StringOk(es) && Spelled(s, i, es, |s|) && Ok(Meaning(es)) == UnescapeFrom(s, i)
    decreases |s| - i
  {
    if i < |s| {
      var h := HeadOf(s, i);
      BodyAfterHead(s, i);
      ElemOfHead(s, i);
      ElemsOfUnescaped(s, i + h.size);
      var es := Elems(s, i);
      assert es[1..] == Elems(s, i + h.size);
    }
  }

  // ---------- quoted strings ----------

  datatype Str = Str(value: Bytes, next: nat)

  /** A quoted string at `i`: its unescaped value and the offset after its closing quote. */
  function StringAt(s: Bytes, i: nat): (r: Option<Str>)
    ensures r.Some? ==> i + 2 <= r.value.next <= |s|
  {
    match Token(s, i)
    case None => None
    case Some(c) =>
      match Unescape(c.raw)
      case Ok(v) => Some(Str(v, c.next))
      case Err(_) => None
  }

  /** `raw` is the text of a string that stands for `value`. */
  ghost predicate Denotes(raw: Bytes, value: Bytes) {
    exists es: seq<Elem> :: StringOk(es) && Text(es) == raw && Meaning(es) == value
  }

  lemma UnescapeOfText(es: seq<Elem>, raw: Bytes)
    requires StringOk(es) && Text(es) == raw
    ensures Unescape(raw) == Ok(Meaning(es))
  {
    assert raw[0..|raw|] == raw;
    SpelledIsText(raw, 0, es, |raw|);
    UnescapeSpelled(raw, 0, es);
  }

  lemma UnescapeOfDenoted(s: Bytes, i: nat, j: nat, value: Bytes)
    requires i <= j < |s| && s[j] == QUOTE && Denotes(s[i..j], value)
    ensures TokenEnd(s, i) == Some(j) && Unescape(s[i..j]) == Ok(value)
  {
    var es: seq<Elem> :| StringOk(es) && Text(es) == s[i..j] && Meaning(es) == value;
    SpelledIsText(s, i, es, j);
    TokenEndSpelled(s, i, es, j);
    UnescapeOfText(es, s[i..j]);
  }

  lemma DenotedOfToken(s: Bytes, i: nat)
    requires TokenEnd(s, i).Some? && Unescape(s[i..TokenEnd(s, i).value]).Ok?
    ensures var raw := s[i..TokenEnd(s, i).value]; Denotes(raw, Unescape(raw).out)
  {
    var raw := s[i..TokenEnd(s, i).value];
    TokenIsBody(s, i, i);
    ElemsOfUnescaped(raw, 0);
    SpelledIsText(raw, 0, Elems(raw, 0), |raw|);
    assert raw[0..|raw|] == raw;
  }

  lemma StringIsDenoted(s: Bytes, i: nat)
    requires StringAt(s, i).Some?
    ensures var r := StringAt(s, i).value;
            s[i] == QUOTE && s[r.next - 1] == QUOTE && Denotes(s[i + 1..r.next - 1], r.value)
  {
    hide TokenEnd, Unescape, Denotes;
    DenotedOfToken(s, i + 1);
  }

  lemma DenotedIsString(s: Bytes, i: nat, value: Bytes, next: nat)
    requires i + 2 <= next <= |s| && s[i] == QUOTE && s[next - 1] == QUOTE && Denotes(s[i + 1..next - 1], value)
    ensures StringAt(s, i) == Some(Str(value, next))
  {
    hide TokenEnd, Unescape, Denotes;
    UnescapeOfDenoted(s, i + 1, next - 1, value);
  }

  /** Scanning for the closing quote and unescaping what lies between accepts exactly the strings
      of the grammar, and gives each its meaning. */
  lemma StringExactness(s: Bytes, i: nat, value: Bytes, next: nat)
    ensures StringAt(s, i) == Some(Str(value, next)) <==>
            i + 2 <= next <= |s| && s[i] == QUOTE && s[next - 1] == QUOTE && Denotes(s[i + 1..next - 1], value)
  {
    hide StringAt, Denotes;
    if StringAt(s, i) == Some(Str(value, next)) {
      StringIsDenoted(s, i);
    }
    if i + 2 <= next <= |s| && s[i] == QUOTE && s[next - 1] == QUOTE && Denotes(s[i + 1..next - 1], value) {
      DenotedIsString(s, i, value, next);
    }
  }
}
