/** JSON strings as src/broker/ProviderJson.cpp reads them: the hex scanner, the unescaper with
    its surrogate pairs, and the scanner that cuts a raw token between two quotes.

    Three levels. The methods follow the source's loops. The functions `Unescape` and `Token`
    say what those loops compute. The grammar of JsonGrammar mentions neither: there a string is a
    row of elements, each with a text and a meaning, and its theorems equate the two. */
module JsonString {
  import opened Options
  import opened Bits
  import opened Unicode

  const QUOTE: Byte := 34
  const BACKSLASH: Byte := 92
  const LETTER_U: Byte := 117

  // ---------- hex digits ----------

  function HexValue(c: Byte): (v: int)
    ensures -1 <= v < 16
  {
    if 48 <= c <= 57 then c - 48
    else if 97 <= c <= 102 then c - 97 + 10
    else if 65 <= c <= 70 then c - 65 + 10
    else -1
  }

  predicate IsHex(c: Byte) { HexValue(c) >= 0 }

  predicate FourHex(d: Bytes) { |d| == 4 && forall c | c in d :: IsHex(c) }

  function HexNumber(d: Bytes): (n: Unit)
    requires FourHex(d)
  {
    assert forall k | 0 <= k < 4 :: IsHex(d[k]);
    HexValue(d[0]) * 0x1000 + HexValue(d[1]) * 0x100 + HexValue(d[2]) * 0x10 + HexValue(d[3])
  }

  /** The number written in the four hex digits at `pos`, if four hex digits stand there. */
  function Hex4(s: Bytes, pos: nat): Option<Unit> {
    if pos + 4 <= |s| && FourHex(s[pos..pos + 4]) then Some(HexNumber(s[pos..pos + 4])) else None
  }

  /** `c` is the hex digit of `n`, in either case. */
  predicate IsDigit(c: Byte, n: nat)
    requires n < 16
  {
    c == Ascii("0123456789abcdef")[n] || c == Ascii("0123456789ABCDEF")[n]
  }

  /** `d` is `code` in four hex digits, each in either case. */
  predicate Digits(d: Bytes, code: Unit) {
    && |d| == 4 && IsDigit(d[0], code / 0x1000) && IsDigit(d[1], code / 0x100 % 0x10)
    && IsDigit(d[2], code / 0x10 % 0x10) && IsDigit(d[3], code % 0x10)
  }

  predicate DigitsAt(s: Bytes, pos: nat, code: Unit) { pos + 4 <= |s| && Digits(s[pos..pos + 4], code) }

  lemma DigitTexts(n: nat)
    requires n < 16
    ensures Ascii("0123456789abcdef")[n] == if n < 10 then 48 + n else 87 + n
    ensures Ascii("0123456789ABCDEF")[n] == if n < 10 then 48 + n else 55 + n
  {
  }

  lemma DigitValue(c: Byte, n: nat)
    requires n < 16
    ensures IsDigit(c, n) <==> HexValue(c) == n
  {
    hide Ascii;
    DigitTexts(n);
  }

  lemma BaseSixteen(code: Unit, a: nat, b: nat, c: nat, d: nat)
    requires a < 16 && b < 16 && c < 16 && d < 16
    ensures code == a * 0x1000 + b * 0x100 + c * 0x10 + d <==>
            a == code / 0x1000 && b == code / 0x100 % 0x10 && c == code / 0x10 % 0x10 && d == code % 0x10
  {
    assert code / 0x1000 == code / 0x100 / 0x10 && code / 0x100 == code / 0x10 / 0x10;
  }

  lemma NumberOfDigits(d: Bytes, code: Unit)
    ensures FourHex(d) && HexNumber(d) == code <==> Digits(d, code)
  {
    hide IsDigit, HexValue;
    if |d| == 4 {
      var a, b, c, e := HexValue(d[0]), HexValue(d[1]), HexValue(d[2]), HexValue(d[3]);
      DigitValue(d[0], code / 0x1000);
      DigitValue(d[1], code / 0x100 % 0x10);
      DigitValue(d[2], code / 0x10 % 0x10);
      DigitValue(d[3], code % 0x10);
      assert d[0] in d && d[1] in d && d[2] in d && d[3] in d;
      if a >= 0 && b >= 0 && c >= 0 && e >= 0 {
        BaseSixteen(code, a, b, c, e);
      }
    }
  }

  /** The scanner accepts for each number just its four digits, in either case each. */
  lemma HexSpellings(s: Bytes, pos: nat, code: Unit)
    ensures Hex4(s, pos) == Some(code) <==> DigitsAt(s, pos, code)
  {
    hide FourHex, HexNumber, Digits;
    if pos + 4 <= |s| {
      NumberOfDigits(s[pos..pos + 4], code);
    }
  }

  lemma HexScan(s: Bytes, pos: nat)
    ensures match Hex4(s, pos)
            case Some(code) => DigitsAt(s, pos, code)
            case None => forall code: Unit :: !DigitsAt(s, pos, code)
  {
    hide Hex4, DigitsAt;
    match Hex4(s, pos)
    case Some(code) => HexSpellings(s, pos, code);
    case None =>
      forall code: Unit ensures !DigitsAt(s, pos, code) {
        HexSpellings(s, pos, code);
      }
  }

  method ParseHex4(s: Bytes, pos: nat) returns (ok: bool, codepoint: nat)
    ensures ok <==> Hex4(s, pos).Some?
    ensures ok ==> pos + 4 <= |s| && codepoint == Hex4(s, pos).value && DigitsAt(s, pos, codepoint)
    ensures !ok ==> forall code: Unit :: !DigitsAt(s, pos, code)
  {
    hide BitOr, Shl, Pow2, DigitsAt;
    HexScan(s, pos);
    codepoint := 0;
    if pos + 4 > |s| {
      return false, codepoint;
    }
    ghost var d := s[pos..pos + 4];
    var i := 0;
    while i < 4
      invariant 0 <= i <= 4
      invariant forall k | 0 <= k < i :: IsHex(d[k])
      invariant i == 0 ==> codepoint == 0
      invariant i == 1 ==> codepoint == HexValue(d[0])
      invariant i == 2 ==> codepoint == HexValue(d[0]) * 0x10 + HexValue(d[1])
      invariant i == 3 ==> codepoint == HexValue(d[0]) * 0x100 + HexValue(d[1]) * 0x10 + HexValue(d[2])
      invariant i == 4 ==>
          codepoint == HexValue(d[0]) * 0x1000 + HexValue(d[1]) * 0x100 + HexValue(d[2]) * 0x10 + HexValue(d[3])
    {
      var v := HexValue(s[pos + i]);
      assert s[pos + i] == d[i];
      if v < 0 {
        assert d[i] in d;
        return false, codepoint;
      }
      OrDigit(codepoint, v);
      codepoint := BitOr(Shl(codepoint, 4), v);
      i := i + 1;
    }
    ok := true;
  }

  // ---------- unescaping ----------

  datatype UnescapeError = Dangling | UnknownEscape | BadHex | LoneSurrogate

  datatype Unescaped = Ok(out: Bytes) | Err(error: UnescapeError)

  /** What stands at the head of a string body: `size` bytes that mean `out`, or an error. */
  datatype Head = Good(size: nat, out: Bytes) | Bad(error: UnescapeError)

  function ShortEscape(c: Byte): Option<Byte> {
    match c
    case 34 => Some(34)
    case 92 => Some(92)
    case 47 => Some(47)
    case 98 => Some(8)
    case 102 => Some(12)
    case 110 => Some(10)
    case 114 => Some(13)
    case 116 => Some(9)
    case _ => None
  }

  function UnicodeHead(s: Bytes, i: nat): (h: Head)
    requires i + 1 < |s|
    ensures h.Good? ==> 1 <= h.size <= |s| - i
  {
    match Hex4(s, i + 2)
    case None => Bad(BadHex)
    case Some(first) =>
      if IsHigh(first) then
        if i + 11 < |s| && s[i + 6] == BACKSLASH && s[i + 7] == LETTER_U then
          match Hex4(s, i + 8)
          case None => Bad(BadHex)
          case Some(second) =>
            if IsLow(second) then Good(12, Utf8Char(Combine(first, second))) else Bad(LoneSurrogate)
        else Bad(LoneSurrogate)
      else if IsLow(first) then Bad(LoneSurrogate)
      else Good(6, Utf8Char(first))
  }

  function HeadOf(s: Bytes, i: nat): (h: Head)
    requires i < |s|
    ensures h.Good? ==> 1 <= h.size <= |s| - i
  {
    if s[i] != BACKSLASH then Good(1, [s[i]])
    else if i + 1 >= |s| then Bad(Dangling)
    else if s[i + 1] == LETTER_U then UnicodeHead(s, i)
    else match ShortEscape(s[i + 1])
      case Some(b) => Good(2, [b])
      case None => Bad(UnknownEscape)
  }

  function Prepend(b: Bytes, u: Unescaped): Unescaped {
    match u
    case Ok(out) => Ok(b + out)
    case Err(e) => Err(e)
  }

  /** The meaning of the string body from offset `i` on. */
  function UnescapeFrom(s: Bytes, i: nat): Unescaped
    requires i <= |s|
    decreases |s| - i
  {
    if i == |s| then Ok([])
    else match HeadOf(s, i)
      case Bad(e) => Err(e)
      case Good(n, out) => Prepend(out, UnescapeFrom(s, i + n))
  }

  function Unescape(s: Bytes): Unescaped { UnescapeFrom(s, 0) }

  /** The cast of an unsigned word to a char. */
  function Char(x: nat): Byte { x % 0x100 }

  function Tail(cp: nat, k: nat): Byte { Char(BitOr(0x80, BitAnd(Shr(cp, k), 0x3F))) }

  /** The bytes pushed for any word, with the shifts, masks and ors of the source. */
  function Emitted(cp: nat): Bytes {
    if cp <= 0x7F then [Char(cp)]
    else if cp <= 0x7FF then [Char(BitOr(0xC0, Shr(cp, 6))), Tail(cp, 0)]
    else if cp <= 0xFFFF then [Char(BitOr(0xE0, Shr(cp, 12))), Tail(cp, 6), Tail(cp, 0)]
    else [Char(BitOr(0xF0, Shr(cp, 18))), Tail(cp, 12), Tail(cp, 6), Tail(cp, 0)]
  }

  lemma TailIsDigit(cp: nat, k: nat)
    ensures Tail(cp, k) == 0x80 + Shr(cp, k) % 0x40
  {
    hide BitAnd, BitOr, Shr;
    Powers();
    AndMasks(Shr(cp, k), 6);
    OrMarks(Shr(cp, k) % 0x40);
  }

  lemma Leads(v: Scalar)
    ensures v <= 0x7FF ==> Char(BitOr(0xC0, Shr(v, 6))) == 0xC0 + v / 0x40
    ensures v <= 0xFFFF ==> Char(BitOr(0xE0, Shr(v, 12))) == 0xE0 + v / 0x1000
    ensures Char(BitOr(0xF0, Shr(v, 18))) == 0xF0 + v / 0x40000
  {
    hide BitOr, Shr;
    Shifts(v);
    OrMarks(v / 0x40);
    OrMarks(v / 0x1000);
    OrMarks(v / 0x40000);
  }

  lemma Tails(v: Scalar)
    ensures Tail(v, 0) == 0x80 + v % 0x40 && Tail(v, 6) == 0x80 + v / 0x40 % 0x40
            && Tail(v, 12) == 0x80 + v / 0x1000 % 0x40
  {
    hide Tail, Shr;
    Shifts(v);
    TailIsDigit(v, 0);
    TailIsDigit(v, 6);
    TailIsDigit(v, 12);
  }

  /** For a scalar value, what the bit operations give is the RFC 3629 form. */
  lemma EmittedIsUtf8(v: Scalar)
    ensures Emitted(v) == Utf8Char(v)
  {
    hide BitOr, Tail, Shr;
    Leads(v);
    Tails(v);
  }

  /** The emitter. It writes something for every word; of its callers only scalar values come. */
  method AppendUtf8(prefix: Bytes, cp: nat) returns (out: Bytes)
    ensures out == prefix + Emitted(cp)
  {
    hide BitAnd, BitOr, Shr;
    out := prefix;
    if cp <= 0x7F {
      out := out + [Char(cp)];
    } else if cp <= 0x7FF {
      out := out + [Char(BitOr(0xC0, Shr(cp, 6)))];
      out := out + [Tail(cp, 0)];
    } else if cp <= 0xFFFF {
      out := out + [Char(BitOr(0xE0, Shr(cp, 12)))];
      out := out + [Tail(cp, 6)];
      out := out + [Tail(cp, 0)];
    } else {
      out := out + [Char(BitOr(0xF0, Shr(cp, 18)))];
      out := out + [Tail(cp, 12)];
      out := out + [Tail(cp, 6)];
      out := out + [Tail(cp, 0)];
    }
  }

  /** The `\u` branch: reads one escape, or a surrogate pair, whose `u` stands at `i`; `next` is
      the offset of its last digit. */
  method ReadUnicodeEscape(s: Bytes, i: nat) returns (ok: bool, cp: Scalar, next: nat)
    requires 1 <= i < |s| && s[i - 1] == BACKSLASH && s[i] == LETTER_U
    ensures ok ==> i < next < |s| && HeadOf(s, i - 1) == Good(next + 2 - i, Utf8Char(cp))
    ensures !ok ==> HeadOf(s, i - 1).Bad?
  {
    hide Hex4, Utf8Char, BitOr, Shl, DigitsAt;
    cp, next := 0, i;
    var ok1, cp1 := ParseHex4(s, i + 1);
    if !ok1 {
      return false, cp, next;
    }
    next := next + 4;
    if 0xD800 <= cp1 <= 0xDBFF {
      if next + 6 < |s| && s[next + 1] == BACKSLASH && s[next + 2] == LETTER_U {
        var ok2, cp2 := ParseHex4(s, next + 3);
        if !ok2 {
          return false, cp, next;
        }
        if 0xDC00 <= cp2 <= 0xDFFF {
          next := next + 6;
          Powers();
          OrJoins(cp1 - 0xD800, 10, cp2 - 0xDC00);
          cp := 0x10000 + BitOr(Shl(cp1 - 0xD800, 10), cp2 - 0xDC00);
          return true, cp, next;
        }
      }
      return false, cp, next;
    }
    if 0xDC00 <= cp1 <= 0xDFFF {
      return false, cp, next;
    }
    return true, cp1, next;
  }

  /** One pass of the loop: what stood at `i` is consumed and its meaning is written. */
  lemma UnescapeStep(s: Bytes, i: nat, done: Bytes)
    requires i < |s|
    ensures match HeadOf(s, i)
            case Bad(e) => Prepend(done, UnescapeFrom(s, i)) == Err(e)
            case Good(n, out) => Prepend(done, UnescapeFrom(s, i)) == Prepend(done + out, UnescapeFrom(s, i + n))
  {
    hide UnicodeHead, ShortEscape;
    var h := HeadOf(s, i);
    if h.Good? {
      var rest := UnescapeFrom(s, i + h.size);
      if rest.Ok? {
        assert done + (h.out + rest.out) == done + h.out + rest.out;
      }
    }
  }

  lemma UnescapeEnds(s: Bytes, done: Bytes)
    ensures Prepend(done, UnescapeFrom(s, |s|)) == Ok(done)
  {
  }

  method UnescapeJsonString(s: Bytes) returns (ok: bool, out: Bytes)
    ensures ok <==> Unescape(s).Ok?
    ensures ok ==> out == Unescape(s).out
  {
    hide UnescapeFrom, UnicodeHead, Utf8Char;
    out := [];
    var i := 0;
    ghost var goal := Unescape(s);
    while i < |s|
      invariant 0 <= i <= |s|
      invariant goal == Prepend(out, UnescapeFrom(s, i))
    {
      UnescapeStep(s, i, out);
      var c := s[i];
      if c != BACKSLASH {
        out := out + [c];
        i := i + 1;
        continue;
      }
      if i + 1 >= |s| {
        return false, out;
      }
      i := i + 1;
      var e := s[i];
      match e {
        case 34 => out := out + [34];
        case 92 => out := out + [92];
        case 47 => out := out + [47];
        case 98 => out := out + [8];
        case 102 => out := out + [12];
        case 110 => out := out + [10];
        case 114 => out := out + [13];
        case 116 => out := out + [9];
        case 117 =>
          var valid, cp, next := ReadUnicodeEscape(s, i);
          if !valid {
            return false, out;
          }
          i := next;
          EmittedIsUtf8(cp);
          out := AppendUtf8(out, cp);
        case _ =>
          return false, out;
      }
      i := i + 1;
    }
    UnescapeEnds(s, out);
    ok := true;
  }

  // ---------- cutting a quoted token ----------

  /** Offset, from `i` on, of the first quote that no backslash escapes. */
  function TokenEnd(s: Bytes, i: nat): (n: Option<nat>)
    ensures n.Some? ==> i <= n.value < |s| && s[n.value] == QUOTE
    decreases |s| - i
  {
    if i >= |s| then None
    else if s[i] == QUOTE then Some(i)
    else if s[i] == BACKSLASH then TokenEnd(s, i + 2)
    else TokenEnd(s, i + 1)
  }

  datatype Cut = Cut(raw: Bytes, next: nat)

  /** The raw text between the quote at `i` and its closing quote, and the offset after that. */
  function Token(s: Bytes, i: nat): (c: Option<Cut>)
    ensures c.Some? ==> i + 2 <= c.value.next <= |s|
  {
    if i >= |s| || s[i] != QUOTE then None
    else match TokenEnd(s, i + 1)
      case None => None
      case Some(n) => Some(Cut(s[i + 1..n], n + 1))
  }

  method ParseJsonQuotedToken(s: Bytes, i0: nat) returns (ok: bool, i: nat, rawToken: Bytes)
    requires i0 <= |s|
    ensures ok <==> Token(s, i0).Some?
    ensures ok ==> Token(s, i0) == Some(Cut(rawToken, i))
  {
    i, rawToken := i0, [];
    if i >= |s| || s[i] != QUOTE {
      return false, i, rawToken;
    }
    i := i + 1;
    var start := i;
    var escaped := false;
    while i < |s|
      invariant start <= i <= |s|
      invariant !escaped ==> TokenEnd(s, start) == TokenEnd(s, i)
      invariant escaped ==> TokenEnd(s, start) == TokenEnd(s, i + 1)
    {
      var c := s[i];
      if escaped {
        escaped := false;
        i := i + 1;
        continue;
      }
      if c == BACKSLASH {
        escaped := true;
        i := i + 1;
        continue;
      }
      if c == QUOTE {
        break;
      }
      i := i + 1;
    }
    if i >= |s| || s[i] != QUOTE {
      return false, i, rawToken;
    }
    rawToken := s[start..i];
    i := i + 1;
    ok := true;
  }
}
