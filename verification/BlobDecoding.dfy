/** What LSA reads back from a packed blob. Every reference is an offset from the start of the
    blob, so the reading is the same wherever the bytes are copied. */
module BlobDecoding {
  import opened Unicode
  import opened Options
  import opened Packing

  const MAX_UNITS: nat := 32766

  datatype Field = Field(length: nat, maximum: nat, buffer: nat)

  function FieldAt(b: Bytes, at: nat): Field
    requires at + 16 <= |b|
  {
    Field(U16(b, at), U16(b, at + 2), U64(b, at + 8))
  }

  /** The string a UNICODE_STRING field at `at` refers to, if it lies inside the blob. */
  function ReadString(b: Bytes, at: nat): Option<Units>
    requires at + 16 <= |b|
  {
    var f := FieldAt(b, at);
    if f.length % 2 == 0 && f.buffer + f.length <= |b| then
      Some(seq(f.length / 2, k requires 0 <= k < f.length / 2 => U16(b, f.buffer + 2 * k)))
    else None
  }

  /** `x` stands in `b` at `at`. */
  predicate Holds(b: Bytes, at: nat, x: Bytes) {
    at + |x| <= |b| && forall k | 0 <= k < |x| :: b[at + k] == x[k]
  }

  lemma U16OfLe(b: Bytes, at: nat, n: nat)
    requires n < 0x10000 && at + 2 <= |b| && b[at] == n % 0x100 && b[at + 1] == n / 0x100
    ensures U16(b, at) == n
  {
  }

  lemma Le32Bytes(n: nat)
    requires n < 0x1_0000_0000
    ensures var lo, hi := n % 0x10000, n / 0x10000;
            hi < 0x10000 && Le32(n) == [lo % 0x100, lo / 0x100, hi % 0x100, hi / 0x100]
  {
    var lo, hi := n % 0x10000, n / 0x10000;
    assert hi % 0x10000 == hi && lo / 0x100 % 0x100 == lo / 0x100 && hi / 0x100 % 0x100 == hi / 0x100;
  }

  lemma U32OfLe(b: Bytes, at: nat, n: nat)
    requires n < 0x1_0000_0000 && Holds(b, at, Le32(n))
    ensures U32(b, at) == n
  {
    hide Le32, U16;
    Le32Bytes(n);
    var x := Le32(n);
    assert b[at + 0] == x[0] && b[at + 1] == x[1] && b[at + 2] == x[2] && b[at + 3] == x[3];
    U16OfLe(b, at, n % 0x10000);
    U16OfLe(b, at + 2, n / 0x10000);
  }

  lemma HoldsParts(b: Bytes, at: nat, x: Bytes, y: Bytes)
    requires Holds(b, at, x + y)
    ensures Holds(b, at, x) && Holds(b, at + |x|, y)
  {
    forall k | 0 <= k < |x| ensures b[at + k] == x[k] {
      assert (x + y)[k] == x[k];
    }
    forall k | 0 <= k < |y| ensures b[at + |x| + k] == y[k] {
      assert (x + y)[|x| + k] == y[k];
      assert b[at + (|x| + k)] == (x + y)[|x| + k];
    }
  }

  lemma U64OfLe(b: Bytes, at: nat, n: nat)
    requires n < 0x1_0000_0000 && Holds(b, at, Le64(n))
    ensures U64(b, at) == n
  {
    hide Le32, U32;
    LeSizes(n);
    var lo, hi := Le32(n % 0x1_0000_0000), Le32(0);
    LeSizes(n % 0x1_0000_0000);
    LeSizes(0);
    assert n / 0x1_0000_0000 % 0x1_0000_0000 == 0;
    assert Le64(n) == lo + hi;
    HoldsParts(b, at, lo, hi);
    U32OfLe(b, at, n);
    U32OfLe(b, at + 4, 0);
  }

  lemma FieldOfText(b: Bytes, at: nat, length: nat, maximum: nat, buffer: nat)
    requires buffer < 0x1_0000_0000 && Holds(b, at, UnicodeString(length, maximum, buffer))
    ensures FieldAt(b, at) == Field(length % 0x10000, maximum % 0x10000, buffer)
  {
    hide Le64, U64;
    var l, m, z, p := Le16(length % 0x10000), Le16(maximum % 0x10000), [0, 0, 0, 0], Le64(buffer);
    LeSizes(buffer);
    HoldsParts(b, at, l + m + z, p);
    HoldsParts(b, at, l + m, z);
    HoldsParts(b, at, l, m);
    U64OfLe(b, at + 8, buffer);
    assert b[at + 0] == l[0] && b[at + 1] == l[1] && b[at + 2 + 0] == m[0] && b[at + 2 + 1] == m[1];
    U16OfLe(b, at, length % 0x10000);
    U16OfLe(b, at + 2, maximum % 0x10000);
  }

  lemma UnitOfText(b: Bytes, buffer: nat, z: Units, k: nat)
    requires Holds(b, buffer, LeUnits(z)) && k < |z|
    ensures buffer + 2 * k + 2 <= |b| && U16(b, buffer + 2 * k) == z[k]
  {
    assert b[buffer + 2 * k] == LeUnits(z)[2 * k] && b[buffer + (2 * k + 1)] == LeUnits(z)[2 * k + 1];
    U16OfLe(b, buffer + 2 * k, z[k]);
  }

  lemma CountWraps(n: nat)
    ensures 2 * n % 0x10000 == 2 * (n % 0x8000) && n % 0x8000 <= n
  {
  }

  /** A field that refers to the packed text of `u` reads as `u`, cut to the length modulo 2^15 that
      the 16-bit byte count can hold. */
  lemma ReadPacked(b: Bytes, at: nat, u: Units, buffer: nat)
    requires at + 16 <= |b| && FieldAt(b, at) == Field(2 * |u| % 0x10000, ByteCount(u) % 0x10000, buffer)
    requires Holds(b, buffer, LeUnits(u + [0]))
    ensures ReadString(b, at) == Some(u[..|u| % 0x8000])
  {
    hide FieldAt, U16, LeUnits, Holds;
    assert buffer + 2 * |u| + 2 <= |b| by { UnitOfText(b, buffer, u + [0], |u|); }
    var z := u + [0];
    var n := |u| % 0x8000;
    CountWraps(|u|);
    var r := ReadString(b, at).value;
    assert |r| == n;
    forall k | 0 <= k < n ensures r[k] == u[k] {
      UnitOfText(b, buffer, z, k);
    }
    assert r == u[..n];
  }

  lemma HoldsAll(x: Bytes, y: Bytes, z: Bytes)
    ensures Holds(x + y + z, |x|, y)
  {
  }

  lemma HeaderHolds(dom: Units, user: Units, pass: Units)
    ensures var b, d := MsvBlob(dom, user, pass), HEADER_SIZE;
            var u := d + ByteCount(dom);
            var w := u + ByteCount(user);
            && Holds(b, 0, Le32(LOGON_MESSAGE))
            && Holds(b, DOMAIN_AT, StringField(dom, d))
            && Holds(b, USER_AT, StringField(user, u))
            && Holds(b, PASSWORD_AT, StringField(pass, w))
  {
    hide Le32, StringField, Strings;
    var d := HEADER_SIZE;
    var u := d + ByteCount(dom);
    var w := u + ByteCount(user);
    var m, f, g, h := Le32(LOGON_MESSAGE), StringField(dom, d), StringField(user, u), StringField(pass, w);
    var t := Strings(dom, user, pass);
    LeSizes(LOGON_MESSAGE);
    var b := MsvBlob(dom, user, pass);
    assert b == [] + m + ([0, 0, 0, 0] + f + g + h + t);
    HoldsAll([], m, [0, 0, 0, 0] + f + g + h + t);
    assert b == (m + [0, 0, 0, 0]) + f + (g + h + t);
    HoldsAll(m + [0, 0, 0, 0], f, g + h + t);
    assert b == (m + [0, 0, 0, 0] + f) + g + (h + t);
    HoldsAll(m + [0, 0, 0, 0] + f, g, h + t);
    HoldsAll(m + [0, 0, 0, 0] + f + g, h, t);
  }

  lemma StringsHold(dom: Units, user: Units, pass: Units)
    ensures var b, d := MsvBlob(dom, user, pass), HEADER_SIZE;
            var u := d + ByteCount(dom);
            var w := u + ByteCount(user);
            && Holds(b, d, LeUnits(dom + [0])) && Holds(b, u, LeUnits(user + [0])) && Holds(b, w, LeUnits(pass + [0]))
  {
    hide Header, LeUnits;
    var h, x, y, z := Header(dom, user, pass), LeUnits(dom + [0]), LeUnits(user + [0]), LeUnits(pass + [0]);
    var b := MsvBlob(dom, user, pass);
    assert b == h + x + (y + z);
    HoldsAll(h, x, y + z);
    assert b == (h + x) + y + z;
    HoldsAll(h + x, y, z);
    assert b == (h + x + y) + z + [];
    HoldsAll(h + x + y, z, []);
  }

  predicate FieldFaithful(b: Bytes, at: nat, u: Units)
    requires at + 16 <= |b|
  {
    && ReadString(b, at) == Some(u)
    && FieldAt(b, at).maximum == FieldAt(b, at).length + 2
    && FieldAt(b, at).buffer + FieldAt(b, at).maximum <= |b|
  }

  /** A field that refers to the text of `u` inside the blob is faithful just when `u` has at most
      32766 units: from 32767 on the 16-bit counts wrap. */
  lemma FaithfulIff(b: Bytes, at: nat, u: Units, buffer: nat)
    requires buffer < 0x1_0000_0000 && Holds(b, at, StringField(u, buffer)) && Holds(b, buffer, LeUnits(u + [0]))
    ensures FieldFaithful(b, at, u) <==> |u| <= MAX_UNITS
  {
    hide LeUnits, UnicodeString, ReadString, FieldAt;
    FieldOfText(b, at, 2 * |u|, ByteCount(u), buffer);
    ReadPacked(b, at, u, buffer);
    assert |u| < 0x8000 ==> u[..|u| % 0x8000] == u;
    assert |u| >= 0x8000 ==> |u[..|u| % 0x8000]| < |u|;
  }

  /** The blob as a whole: message type 2, and each of the three fields is faithful exactly when its
      text fits the 16-bit counts. */
  lemma BlobFaithful(dom: Units, user: Units, pass: Units)
    requires BlobSize(dom, user, pass) < 0x1_0000_0000
    ensures var b := MsvBlob(dom, user, pass);
            && U32(b, 0) == 2
            && (FieldFaithful(b, DOMAIN_AT, dom) <==> |dom| <= MAX_UNITS)
            && (FieldFaithful(b, USER_AT, user) <==> |user| <= MAX_UNITS)
            && (FieldFaithful(b, PASSWORD_AT, pass) <==> |pass| <= MAX_UNITS)
  {
    hide MsvBlob, StringField, LeUnits, U32, FieldFaithful, Le32;
    var b, d := MsvBlob(dom, user, pass), HEADER_SIZE;
    var u := d + ByteCount(dom);
    HeaderHolds(dom, user, pass);
    StringsHold(dom, user, pass);
    U32OfLe(b, 0, LOGON_MESSAGE);
    FaithfulIff(b, DOMAIN_AT, dom, d);
    FaithfulIff(b, USER_AT, user, u);
    FaithfulIff(b, PASSWORD_AT, pass, u + ByteCount(user));
  }

  // ---------- the blob byte by byte ----------

  /** A UNICODE_STRING of `n` units in its sixteen bytes: byte counts without and with the NUL, low byte
      first, four bytes of padding, and the offset of the text in eight bytes. */
  predicate FieldBytes(b: Bytes, at: nat, n: nat, offset: nat)
    requires offset < 0x1_0000_0000
  {
    at + 16 <= |b| &&
    b[at..at + 16] == [2 * n % 256, 2 * n / 256 % 256, 2 * (n + 1) % 256, 2 * (n + 1) / 256 % 256, 0, 0, 0, 0,
                       offset % 256, offset / 256 % 256, offset / 65536 % 256, offset / 16777216, 0, 0, 0, 0]
  }

  /** The units of a text, low byte first, and two zero bytes. */
  predicate TextBytes(b: Bytes, at: nat, u: Units) {
    && at + 2 * |u| + 2 <= |b|
    && (forall k | 0 <= k < |u| :: b[at + 2 * k] == u[k] % 256)
    && (forall k | 0 <= k < |u| :: b[at + 2 * k + 1] == u[k] / 256)
    && b[at + 2 * |u|] == 0 && b[at + 2 * |u| + 1] == 0
  }

  lemma LowBytes(n: nat)
    ensures n % 65536 % 256 == n % 256 && n % 65536 / 256 == n / 256 % 256
  {
    var q, m := n / 65536, n % 65536;
    assert n == 256 * (256 * q + m / 256) + m % 256;
    assert n / 256 == 256 * q + m / 256;
  }

  lemma CountBytes(n: nat)
    ensures Le16(n % 0x10000) == [n % 256, n / 256 % 256]
  {
    LowBytes(n);
  }

  lemma OffsetBytes(n: nat)
    requires n < 0x1_0000_0000
    ensures Le64(n) == [n % 256, n / 256 % 256, n / 65536 % 256, n / 16777216] + [0, 0, 0, 0]
  {
    hide Le16;
    assert n / 65536 / 256 == n / 16777216 && n / 65536 < 0x10000;
    CountBytes(n);
    CountBytes(n / 65536);
    CountBytes(0);
    assert Le32(n) == [n % 256, n / 256 % 256] + [n / 65536 % 256, n / 16777216];
    assert Le32(0) == [0, 0] + [0, 0];
  }

  lemma HoldsSlice(b: Bytes, at: nat, x: Bytes)
    requires Holds(b, at, x)
    ensures at + |x| <= |b| && b[at..at + |x|] == x
  {
  }

  lemma FieldInBytes(b: Bytes, at: nat, u: Units, offset: nat)
    requires offset < 0x1_0000_0000 && Holds(b, at, StringField(u, offset))
    ensures FieldBytes(b, at, |u|, offset)
  {
    hide Le16, Le64, Holds;
    CountBytes(2 * |u|);
    CountBytes(2 * (|u| + 1));
    OffsetBytes(offset);
    HoldsSlice(b, at, StringField(u, offset));
  }

  lemma TextInBytes(b: Bytes, at: nat, u: Units)
    requires Holds(b, at, LeUnits(u + [0]))
    ensures TextBytes(b, at, u)
  {
    var z := u + [0];
    var n := |u|;
    assert b[at + 2 * n] == LeUnits(z)[2 * n] && b[at + (2 * n + 1)] == LeUnits(z)[2 * n + 1];
    forall k | 0 <= k < n ensures b[at + 2 * k] == u[k] % 256 {
      assert z[k] == u[k] && b[at + 2 * k] == LeUnits(z)[2 * k];
    }
    forall k | 0 <= k < n ensures b[at + 2 * k + 1] == u[k] / 256 {
      assert z[k] == u[k] && b[at + (2 * k + 1)] == LeUnits(z)[2 * k + 1];
    }
  }

  lemma MessageBytes(dom: Units, user: Units, pass: Units)
    ensures MsvBlob(dom, user, pass)[..8] == [2, 0, 0, 0, 0, 0, 0, 0]
  {
    hide StringField, Strings;
    assert Le32(LOGON_MESSAGE) == [2, 0, 0, 0];
  }

  /** Every byte of the blob: the message type 2, the fields of domain, user and password at 8, 24 and 40,
      and from 56 on their texts one after the other. */
  lemma BlobBytes(dom: Units, user: Units, pass: Units)
    requires BlobSize(dom, user, pass) < 0x1_0000_0000
    ensures var b := MsvBlob(dom, user, pass);
            var u := 56 + 2 * (|dom| + 1); var w := u + 2 * (|user| + 1);
            && |b| == w + 2 * (|pass| + 1)
            && b[..8] == [2, 0, 0, 0, 0, 0, 0, 0]
            && FieldBytes(b, 8, |dom|, 56) && FieldBytes(b, 24, |user|, u) && FieldBytes(b, 40, |pass|, w)
            && TextBytes(b, 56, dom) && TextBytes(b, u, user) && TextBytes(b, w, pass)
  {
    hide MsvBlob, StringField, LeUnits, Holds, Le32, FieldBytes, TextBytes;
    var b := MsvBlob(dom, user, pass);
    var u := 56 + 2 * (|dom| + 1);
    var w := u + 2 * (|user| + 1);
    MessageBytes(dom, user, pass);
    HeaderHolds(dom, user, pass);
    StringsHold(dom, user, pass);
    FieldInBytes(b, 8, dom, 56);
    FieldInBytes(b, 24, user, u);
    FieldInBytes(b, 40, pass, w);
    TextInBytes(b, 56, dom);
    TextInBytes(b, u, user);
    TextInBytes(b, w, pass);
  }
}
