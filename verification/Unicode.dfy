/** Bytes, UTF-16 code units and Unicode scalar values, with the UTF-8 of RFC 3629 and UTF-16.
    `Utf8Char` is what the parser's emitter writes; `CharLen` is the grammar of RFC 3629
    section 4, stated on its own, and the lemmas show that each is the inverse of the other. */
module Unicode {
  type Byte = b: int | 0 <= b < 0x100
  type Bytes = seq<Byte>
  type Unit = u: int | 0 <= u < 0x10000
  type Units = seq<Unit>
  type Scalar = v: int | 0 <= v < 0xD800 || 0xE000 <= v < 0x110000
  type Scalars = seq<Scalar>

  /** The bytes of an ASCII text; statements spell texts with it. */
  function Ascii(t: string): (b: Bytes)
    ensures |b| == |t|
  {
    seq(|t|, k requires 0 <= k < |t| => if (t[k] as int) < 0x80 then t[k] as int else 0)
  }

  predicate IsHigh(u: int) { 0xD800 <= u <= 0xDBFF }

  predicate IsLow(u: int) { 0xDC00 <= u <= 0xDFFF }

  /** The scalar value a surrogate pair stands for. */
  function Combine(high: int, low: int): (v: Scalar)
    requires IsHigh(high) && IsLow(low)
    ensures 0x10000 <= v
  {
    0x10000 + (high - 0xD800) * 0x400 + (low - 0xDC00)
  }

  // ---------- UTF-8 ----------

  function Utf8Char(v: Scalar): (r: Bytes)
    ensures 1 <= |r| <= 4
  {
    if v <= 0x7F then [v]
    else if v <= 0x7FF then [0xC0 + v / 0x40, 0x80 + v % 0x40]
    else if v <= 0xFFFF then [0xE0 + v / 0x1000, 0x80 + v / 0x40 % 0x40, 0x80 + v % 0x40]
    else [0xF0 + v / 0x40000, 0x80 + v / 0x1000 % 0x40, 0x80 + v / 0x40 % 0x40, 0x80 + v % 0x40]
  }

  function Utf8(vs: Scalars): Bytes {
    if vs == [] then [] else Utf8Char(vs[0]) + Utf8(vs[1..])
  }

  predicate IsTail(b: Byte) { 0x80 <= b <= 0xBF }

  /** Length of the character at the head of `s` by the ABNF of RFC 3629 section 4; 0 if none. */
  function CharLen(s: Bytes): (n: nat)
    ensures n <= |s| && n <= 4
  {
    if |s| >= 1 && s[0] <= 0x7F then 1
    else if |s| >= 2 && 0xC2 <= s[0] <= 0xDF && IsTail(s[1]) then 2
    else if |s| >= 3 && IsTail(s[2]) &&
            (|| (s[0] == 0xE0 && 0xA0 <= s[1] <= 0xBF)
             || (0xE1 <= s[0] <= 0xEC && IsTail(s[1]))
             || (s[0] == 0xED && 0x80 <= s[1] <= 0x9F)
             || (0xEE <= s[0] <= 0xEF && IsTail(s[1]))) then 3
    else if |s| >= 4 && IsTail(s[2]) && IsTail(s[3]) &&
            (|| (s[0] == 0xF0 && 0x90 <= s[1] <= 0xBF)
             || (0xF1 <= s[0] <= 0xF3 && IsTail(s[1]))
             || (s[0] == 0xF4 && 0x80 <= s[1] <= 0x8F)) then 4
    else 0
  }

  predicate ValidUtf8(s: Bytes) {
    s == [] || (CharLen(s) > 0 && ValidUtf8(s[CharLen(s)..]))
  }

  /** The number whose base-64 digits are `a`, `b`, `c` and `d`. */
  function Join(a: int, b: int, c: int, d: int): int {
    a * 0x40000 + b * 0x1000 + c * 0x40 + d
  }

  /** The scalar value of the character at the head of `s`. */
  function CharValue(s: Bytes): (v: Scalar)
    requires CharLen(s) > 0
  {
    match CharLen(s)
    case 1 => s[0]
    case 2 => Join(0, 0, s[0] - 0xC0, s[1] - 0x80)
    case 3 => Join(0, s[0] - 0xE0, s[1] - 0x80, s[2] - 0x80)
    case _ => Join(s[0] - 0xF0, s[1] - 0x80, s[2] - 0x80, s[3] - 0x80)
  }

  function DecodeUtf8(s: Bytes): Scalars
    requires ValidUtf8(s)
  {
    if s == [] then [] else [CharValue(s)] + DecodeUtf8(s[CharLen(s)..])
  }

  lemma SplitJoins(v: nat)
    ensures Join(v / 0x40000, v / 0x1000 % 0x40, v / 0x40 % 0x40, v % 0x40) == v
  {
    assert v / 0x40000 == v / 0x1000 / 0x40 && v / 0x1000 == v / 0x40 / 0x40;
  }

  lemma JoinSplits(a: nat, b: nat, c: nat, d: nat)
    requires b < 0x40 && c < 0x40 && d < 0x40
    ensures var v := Join(a, b, c, d);
            && v / 0x40000 == a && v / 0x1000 == a * 0x40 + b && v / 0x1000 % 0x40 == b
            && v / 0x40 == a * 0x1000 + b * 0x40 + c && v / 0x40 % 0x40 == c && v % 0x40 == d
  {
  }

  lemma Prefixed(c: Bytes, t: Bytes)
    ensures |c + t| == |c| + |t| && forall k | 0 <= k < |c| :: (c + t)[k] == c[k]
  {
  }

  lemma ThreeByteLead(v: nat)
    requires 0x800 <= v <= 0xFFFF
    ensures v / 0x1000 == 0 ==> v / 0x40 % 0x40 >= 0x20
    ensures v / 0x1000 == 0xD ==> (v < 0xD800 <==> v / 0x40 % 0x40 <= 0x1F)
    ensures v / 0x1000 <= 0xF
  {
  }

  lemma FourByteLead(v: nat)
    requires 0x1_0000 <= v < 0x11_0000
    ensures v / 0x40000 == 0 ==> v / 0x1000 % 0x40 >= 0x10
    ensures v / 0x40000 == 4 ==> v / 0x1000 % 0x40 <= 0xF
    ensures v / 0x40000 <= 4
  {
  }

  lemma LenOfEmitted(v: Scalar, t: Bytes)
    ensures CharLen(Utf8Char(v) + t) == |Utf8Char(v)|
  {
    var c := Utf8Char(v);
    Prefixed(c, t);
    if v <= 0x7FF {
    } else if v <= 0xFFFF {
      ThreeByteLead(v);
    } else {
      FourByteLead(v);
    }
  }

  lemma CharOfEmitted(v: Scalar, t: Bytes)
    ensures CharLen(Utf8Char(v) + t) == |Utf8Char(v)|
    ensures CharValue(Utf8Char(v) + t) == v
  {
    hide CharLen;
    SplitJoins(v);
    LenOfEmitted(v, t);
    var c := Utf8Char(v);
    assert forall k | 0 <= k < |c| :: (c + t)[k] == c[k];
  }

  lemma EmittedOfJoin(a: nat, b: nat, c: nat, d: nat, v: Scalar)
    requires b < 0x40 && c < 0x40 && d < 0x40 && v == Join(a, b, c, d)
    ensures v > 0xFFFF ==> Utf8Char(v) == [0xF0 + a, 0x80 + b, 0x80 + c, 0x80 + d]
    ensures a == 0 && 0x800 <= v <= 0xFFFF ==> Utf8Char(v) == [0xE0 + b, 0x80 + c, 0x80 + d]
    ensures a == 0 && b == 0 && 0x80 <= v <= 0x7FF ==> Utf8Char(v) == [0xC0 + c, 0x80 + d]
  {
    JoinSplits(a, b, c, d);
  }

  lemma OneByte(b: Byte)
    requires b <= 0x7F
    ensures Utf8Char(b) == [b]
  {
  }

  /** The range each length of character covers. */
  lemma CharBounds(s: Bytes)
    requires CharLen(s) > 0
    ensures var v := CharValue(s);
            && (CharLen(s) == 1 ==> v <= 0x7F) && (CharLen(s) == 2 ==> 0x80 <= v <= 0x7FF)
            && (CharLen(s) == 3 ==> 0x800 <= v <= 0xFFFF) && (CharLen(s) == 4 ==> v > 0xFFFF)
  {
  }

  lemma EmittedOfChar(s: Bytes)
    requires CharLen(s) > 0
    ensures Utf8Char(CharValue(s)) == s[..CharLen(s)]
  {
    hide Utf8Char, Join;
    var v := CharValue(s);
    CharBounds(s);
    match CharLen(s)
    case 1 => OneByte(s[0]);
    case 2 =>
      EmittedOfJoin(0, 0, s[0] - 0xC0, s[1] - 0x80, v);
      assert s[..2] == [s[0], s[1]];
    case 3 =>
      EmittedOfJoin(0, s[0] - 0xE0, s[1] - 0x80, s[2] - 0x80, v);
      assert s[..3] == [s[0], s[1], s[2]];
    case _ =>
      EmittedOfJoin(s[0] - 0xF0, s[1] - 0x80, s[2] - 0x80, s[3] - 0x80, v);
      assert s[..4] == [s[0], s[1], s[2], s[3]];
  }

  /** Decoding an encoding gives the scalars back, and every encoding is valid. */
  lemma {:induction false} DecodeEncoded(vs: Scalars)
    ensures ValidUtf8(Utf8(vs)) && DecodeUtf8(Utf8(vs)) == vs
  {
    if vs != [] {
      var c, t := Utf8Char(vs[0]), Utf8(vs[1..]);
      CharOfEmitted(vs[0], t);
      assert (c + t)[|c|..] == t;
      DecodeEncoded(vs[1..]);
    }
  }

  lemma OneChar(v: Scalar, vs: Scalars)
    ensures Utf8([v] + vs) == Utf8Char(v) + Utf8(vs)
  {
    hide Utf8Char;
    assert ([v] + vs)[1..] == vs;
  }

  /** Encoding a decoding gives the bytes back. */
  lemma {:induction false} EncodeDecoded(s: Bytes)
    requires ValidUtf8(s)
    ensures Utf8(DecodeUtf8(s)) == s
    decreases |s|
  {
    hide CharLen, CharValue, Utf8Char;
    if s != [] {
      EmittedOfChar(s);
      EncodeDecoded(s[CharLen(s)..]);
      assert s == s[..CharLen(s)] + s[CharLen(s)..];
      OneChar(CharValue(s), DecodeUtf8(s[CharLen(s)..]));
    }
  }

  lemma CharLenPrefix(a: Bytes, b: Bytes)
    requires CharLen(a) > 0
    ensures CharLen(a + b) == CharLen(a)
  {
    assert forall k | 0 <= k < |a| :: (a + b)[k] == a[k];
  }

  lemma {:induction false} ValidConcat(a: Bytes, b: Bytes)
    requires ValidUtf8(a) && ValidUtf8(b)
    ensures ValidUtf8(a + b)
    decreases |a|
  {
    if a == [] {
      assert a + b == b;
    } else {
      var n := CharLen(a);
      CharLenPrefix(a, b);
      assert (a + b)[n..] == a[n..] + b;
      ValidConcat(a[n..], b);
    }
  }

  /** No cut before a non-continuation byte falls inside the first character. */
  lemma FirstCharUncut(s: Bytes, k: nat)
    requires 0 < CharLen(s) <= |s| && 0 < k <= |s| && (k == |s| || !IsTail(s[k]))
    ensures CharLen(s) <= k && CharLen(s[..CharLen(s)]) == CharLen(s)
  {
  }

  /** Text may be cut wherever no continuation byte follows the cut; in particular before any
      ASCII byte. A scan for ASCII delimiters therefore never splits a character. */
  lemma {:induction false} ValidCut(s: Bytes, k: nat)
    requires ValidUtf8(s) && k <= |s|
    requires k == |s| || !IsTail(s[k])
    ensures ValidUtf8(s[..k]) && ValidUtf8(s[k..])
    decreases |s|
  {
    hide CharLen, IsTail;
    if k == 0 {
      assert s[..k] == [] && s[k..] == s;
    } else {
      var n := CharLen(s);
      FirstCharUncut(s, k);
      ValidCut(s[n..], k - n);
      assert s[n..][..k - n] == s[n..k] && s[n..][k - n..] == s[k..];
      assert s[..k] == s[..n] + s[n..k];
      assert s[..n][n..] == [];
      ValidConcat(s[..n], s[n..k]);
    }
  }

  /** Removing a leading ASCII byte leaves valid text. */
  lemma ValidAfterAscii(s: Bytes)
    requires ValidUtf8(s) && s != [] && s[0] <= 0x7F
    ensures ValidUtf8(s[1..])
  {
  }

  // ---------- UTF-16 ----------

  function Utf16Char(v: Scalar): (r: Units)
    ensures 1 <= |r| <= 2
  {
    if v < 0x10000 then [v] else [0xD800 + (v - 0x10000) / 0x400, 0xDC00 + (v - 0x10000) % 0x400]
  }

  function Utf16(vs: Scalars): Units {
    if vs == [] then [] else Utf16Char(vs[0]) + Utf16(vs[1..])
  }

  /** No surrogate stands unpaired. */
  predicate WellFormed16(u: Units) {
    if u == [] then true
    else if IsHigh(u[0]) then |u| >= 2 && IsLow(u[1]) && WellFormed16(u[2..])
    else !IsLow(u[0]) && WellFormed16(u[1..])
  }

  function Decode16(u: Units): Scalars
    requires WellFormed16(u)
  {
    if u == [] then []
    else if IsHigh(u[0]) then [Combine(u[0], u[1])] + Decode16(u[2..])
    else [u[0]] + Decode16(u[1..])
  }

  lemma {:induction false} EncodeDecoded16(u: Units)
    requires WellFormed16(u)
    ensures Utf16(Decode16(u)) == u
    decreases |u|
  {
    if u == [] {
    } else if IsHigh(u[0]) {
      EncodeDecoded16(u[2..]);
      var v := Combine(u[0], u[1]);
      assert Utf16Char(v) == [u[0], u[1]];
      assert u == [u[0], u[1]] + u[2..];
    } else {
      EncodeDecoded16(u[1..]);
      assert u == [u[0]] + u[1..];
    }
  }

  /** `MultiByteToWideChar(CP_UTF8)` on valid UTF-8. */
  function Widen(s: Bytes): Units
    requires ValidUtf8(s)
  {
    Utf16(DecodeUtf8(s))
  }

  /** Widening never yields more code units than there were bytes. */
  lemma {:induction false} WidenNoLonger(s: Bytes)
    requires ValidUtf8(s)
    ensures |Widen(s)| <= |s|
    decreases |s|
  {
    if s != [] {
      WidenNoLonger(s[CharLen(s)..]);
      assert DecodeUtf8(s)[1..] == DecodeUtf8(s[CharLen(s)..]);
    }
  }

  /** UTF-16 text survives the trip through UTF-8 and back. */
  lemma WidenUtf8(u: Units)
    requires WellFormed16(u)
    ensures ValidUtf8(Utf8(Decode16(u))) && Widen(Utf8(Decode16(u))) == u
  {
    DecodeEncoded(Decode16(u));
    EncodeDecoded16(u);
  }

  // ---------- in numbers ----------

  /** The digits of a surrogate pair. */
  lemma PairDigits(high: Unit, low: Unit)
    requires IsHigh(high) && IsLow(low)
    ensures high / 1024 == 54 && low / 1024 == 55
    ensures Combine(high, low) == 65536 + high % 1024 * 1024 + low % 1024
    ensures Utf16Char(Combine(high, low)) == [high, low]
  {
    assert high == 54 * 1024 + (high - 0xD800) && low == 55 * 1024 + (low - 0xDC00);
  }

  /** The examples of section 7 of RFC 3629, and one of RFC 2781. */
  lemma RfcExamples()
    ensures Utf8Char(0x41) == [0x41] && Utf8Char(0x2262) == [0xE2, 0x89, 0xA2] && Utf8Char(0x391) == [0xCE, 0x91]
    ensures Utf8Char(0xD55C) == [0xED, 0x95, 0x9C] && Utf8Char(0x65E5) == [0xE6, 0x97, 0xA5]
    ensures Utf8Char(0x233B4) == [0xF0, 0xA3, 0x8E, 0xB4]
    ensures Utf16Char(0x12345) == [0xD808, 0xDF45] && Combine(0xD808, 0xDF45) == 0x12345
  {
  }
}
