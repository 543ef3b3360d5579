/** The MSV logon blob of src/auth/Serialization.cpp on x64: a 56-byte MSV1_0_INTERACTIVE_LOGON
    whose three UNICODE_STRINGs hold offsets into the blob, followed by the three strings, each
    with its terminating NUL. Integers are little-endian; lengths are 16-bit and wrap. */
module Packing {
  import opened Unicode
  import opened Options

  const HEADER_SIZE: nat := 56
  const DOMAIN_AT: nat := 8
  const USER_AT: nat := 24
  const PASSWORD_AT: nat := 40
  const DOT: Units := [46]
  const LOGON_MESSAGE: nat := 2

  // ---------- little-endian integers ----------

  function Le16(n: nat): Bytes { [n % 0x100, n / 0x100 % 0x100] }

  function Le32(n: nat): Bytes { Le16(n % 0x10000) + Le16(n / 0x10000 % 0x10000) }

  function Le64(n: nat): Bytes { Le32(n % 0x1_0000_0000) + Le32(n / 0x1_0000_0000 % 0x1_0000_0000) }

  function U16(b: Bytes, at: nat): nat
    requires at + 2 <= |b|
  {
    b[at] as int + 0x100 * (b[at + 1] as int)
  }

  function U32(b: Bytes, at: nat): nat
    requires at + 4 <= |b|
  {
    U16(b, at) + 0x10000 * U16(b, at + 2)
  }

  function U64(b: Bytes, at: nat): nat
    requires at + 8 <= |b|
  {
    U32(b, at) + 0x1_0000_0000 * U32(b, at + 4)
  }

  /** The bytes of a string of units, low byte first. */
  function LeUnits(u: Units): (r: Bytes)
    ensures |r| == 2 * |u|
  {
    seq(2 * |u|, k requires 0 <= k < 2 * |u| => if k % 2 == 0 then u[k / 2] % 0x100 else u[k / 2] / 0x100)
  }

  /** A UNICODE_STRING on x64: two lengths in bytes, four bytes of padding and a pointer. */
  function UnicodeString(length: nat, maximum: nat, buffer: nat): (r: Bytes)
    ensures |r| == 16
  {
    Le16(length % 0x10000) + Le16(maximum % 0x10000) + [0, 0, 0, 0] + Le64(buffer)
  }

  /** The same over memory whose padding need not be zero. */
  function FieldText(length: nat, maximum: nat, padding: Bytes, buffer: nat): (r: Bytes)
    ensures |padding| == 4 ==> |r| == 16
    ensures padding == [0, 0, 0, 0] ==> r == UnicodeString(length, maximum, buffer)
  {
    Le16(length % 0x10000) + Le16(maximum % 0x10000) + padding + Le64(buffer)
  }

  function ByteCount(u: Units): nat { 2 * (|u| + 1) }

  function BlobSize(dom: Units, user: Units, pass: Units): nat {
    HEADER_SIZE + ByteCount(dom) + ByteCount(user) + ByteCount(pass)
  }

  function StringField(u: Units, buffer: nat): (r: Bytes)
    ensures |r| == 16
  {
    UnicodeString(2 * |u|, ByteCount(u), buffer)
  }

  function Header(dom: Units, user: Units, pass: Units): (r: Bytes)
    ensures |r| == HEADER_SIZE
  {
    var d := HEADER_SIZE;
    var u := d + ByteCount(dom);
    var w := u + ByteCount(user);
    Le32(LOGON_MESSAGE) + [0, 0, 0, 0] + StringField(dom, d) + StringField(user, u) + StringField(pass, w)
  }

  function Strings(dom: Units, user: Units, pass: Units): (r: Bytes)
    ensures |r| == ByteCount(dom) + ByteCount(user) + ByteCount(pass)
  {
    LeUnits(dom + [0]) + LeUnits(user + [0]) + LeUnits(pass + [0])
  }

  function MsvBlob(dom: Units, user: Units, pass: Units): (r: Bytes)
    ensures |r| == BlobSize(dom, user, pass)
  {
    Header(dom, user, pass) + Strings(dom, user, pass)
  }

  // ---------- the packer ----------

  /** `s` with the bytes from `at` on replaced by `x`. */
  function Splice(s: Bytes, at: nat, x: Bytes): (r: Bytes)
    requires at + |x| <= |s|
    ensures |r| == |s|
  {
    s[..at] + x + s[at + |x|..]
  }

  /** Copies a string and its terminating NUL, as `memcpy` from `c_str()` does. */
  method CopyString(blob: array<Byte>, at: nat, u: Units)
    requires at + ByteCount(u) <= blob.Length
    modifies blob
    ensures blob[..] == Splice(old(blob[..]), at, LeUnits(u + [0]))
  {
    var z := u + [0];
    ghost var before := blob[..];
    for k := 0 to |z|
      invariant forall m | 0 <= m < at || at + 2 * k <= m < blob.Length :: blob[m] == before[m]
      invariant forall m | 0 <= m < 2 * k :: blob[at + m] == LeUnits(z)[m]
    {
      blob[at + 2 * k] := z[k] % 0x100;
      blob[at + 2 * k + 1] := z[k] / 0x100;
    }
    assert blob[..] == Splice(before, at, LeUnits(z));
  }

  method Write(blob: array<Byte>, at: nat, x: Bytes)
    requires at + |x| <= blob.Length
    modifies blob
    ensures blob[..] == Splice(old(blob[..]), at, x)
  {
    ghost var before := blob[..];
    for k := 0 to |x|
      invariant forall m | 0 <= m < at || at + k <= m < blob.Length :: blob[m] == before[m]
      invariant forall m | 0 <= m < k :: blob[at + m] == x[m]
    {
      blob[at + k] := x[k];
    }
    assert blob[..] == Splice(before, at, x);
  }

  lemma SpliceAt(s: Bytes, at: nat, x: Bytes, k: nat)
    requires at + |x| <= |s| && k < |s|
    ensures Splice(s, at, x)[k] == if at <= k < at + |x| then x[k - at] else s[k]
  {
  }

  lemma FieldSplices(s: Bytes, at: nat, x: Bytes, y: Bytes, z: Bytes)
    requires at + 16 <= |s| && |x| == 2 && |y| == 2 && |z| == 8
    ensures Splice(Splice(Splice(s, at + 8, z), at, x), at + 2, y) == Splice(s, at, x + y + s[at + 4..at + 8] + z)
  {
    var l := Splice(Splice(Splice(s, at + 8, z), at, x), at + 2, y);
    var pad := s[at + 4..at + 8];
    var r := Splice(s, at, x + y + pad + z);
    assert pad[0] == s[at + 4] && pad[1] == s[at + 5] && pad[2] == s[at + 6] && pad[3] == s[at + 7];
    var m := x + y + pad + z;
    hide Splice;
    forall k | 0 <= k < |s| ensures l[k] == r[k] {
      SpliceAt(s, at, m, k);
      SpliceAt(s, at + 8, z, k);
      SpliceAt(Splice(s, at + 8, z), at, x, k);
      SpliceAt(Splice(Splice(s, at + 8, z), at, x), at + 2, y, k);
    }
  }

  /** Fills one UNICODE_STRING; its four bytes of padding stay as they were. */
  method FillUS(blob: array<Byte>, at: nat, buffer: nat, bytesNoNull: nat, bytesWithNull: nat)
    requires at + 16 <= blob.Length
    modifies blob
    ensures blob[..] ==
            Splice(old(blob[..]), at, FieldText(bytesNoNull, bytesWithNull, old(blob[at + 4..at + 8]), buffer))
  {
    ghost var before := blob[..];
    Write(blob, at + 8, Le64(buffer));
    Write(blob, at, Le16(bytesNoNull % 0x10000));
    Write(blob, at + 2, Le16(bytesWithNull % 0x10000));
    FieldSplices(before, at, Le16(bytesNoNull % 0x10000), Le16(bytesWithNull % 0x10000), Le64(buffer));
  }

  function Zeros(n: nat): (r: Bytes)
    ensures |r| == n
  {
    seq(n, _ => 0)
  }

  /** Writing `x` over as many zeros. */
  lemma SpliceOverZeros(s: Bytes, p: Bytes, x: Bytes, n: nat, q: Bytes)
    requires |x| <= n && s == p + Zeros(n) + q
    ensures Splice(s, |p|, x) == p + x + Zeros(n - |x|) + q
  {
    var r := p + x + Zeros(n - |x|) + q;
    var t := Splice(s, |p|, x);
    hide Splice;
    forall k | 0 <= k < |s| ensures t[k] == r[k] {
      SpliceAt(s, |p|, x, k);
    }
  }

  method WriteStrings(blob: array<Byte>, dom: Units, user: Units, pass: Units)
    requires blob[..] == Zeros(BlobSize(dom, user, pass))
    modifies blob
    ensures blob[..] == Zeros(HEADER_SIZE) + Strings(dom, user, pass)
  {
    hide LeUnits, Splice;
    var cbD, cbU, cbP := ByteCount(dom), ByteCount(user), ByteCount(pass);
    ghost var z, d, u, w := Zeros(HEADER_SIZE), LeUnits(dom + [0]), LeUnits(user + [0]), LeUnits(pass + [0]);
    var p := HEADER_SIZE;
    SpliceOverZeros(blob[..], z, d, cbD + cbU + cbP, []);
    CopyString(blob, p, dom);
    p := p + cbD;
    SpliceOverZeros(blob[..], z + d, u, cbU + cbP, []);
    CopyString(blob, p, user);
    p := p + cbU;
    SpliceOverZeros(blob[..], z + d + u, w, cbP, []);
    CopyString(blob, p, pass);
  }

  lemma LeSizes(n: nat)
    ensures |Le16(n)| == 2 && |Le32(n)| == 4 && |Le64(n)| == 8
  {
  }

  method WriteHeader(blob: array<Byte>, dom: Units, user: Units, pass: Units)
    requires blob[..] == Zeros(HEADER_SIZE) + Strings(dom, user, pass)
    modifies blob
    ensures blob[..] == MsvBlob(dom, user, pass)
  {
    hide LeUnits, Splice, UnicodeString, FieldText, Le32, Strings;
    var d := HEADER_SIZE;
    var u := d + ByteCount(dom);
    var w := u + ByteCount(user);
    ghost var t := Strings(dom, user, pass);
    ghost var m, f, g, h := Le32(LOGON_MESSAGE), StringField(dom, d), StringField(user, u), StringField(pass, w);
    assert |m| == 4 by { LeSizes(LOGON_MESSAGE); }
    SpliceOverZeros(blob[..], [], m, 56, t);
    Write(blob, 0, Le32(LOGON_MESSAGE));
    assert blob[..] == (m + [0, 0, 0, 0]) + Zeros(48) + t;
    SpliceOverZeros(blob[..], m + [0, 0, 0, 0], f, 48, t);
    FillUS(blob, DOMAIN_AT, d, 2 * |dom|, ByteCount(dom));
    SpliceOverZeros(blob[..], m + [0, 0, 0, 0] + f, g, 32, t);
    FillUS(blob, USER_AT, u, 2 * |user|, ByteCount(user));
    SpliceOverZeros(blob[..], m + [0, 0, 0, 0] + f + g, h, 16, t);
    FillUS(blob, PASSWORD_AT, w, 2 * |pass|, ByteCount(pass));
    assert blob[..] == Header(dom, user, pass) + t;
  }

  method PackMsv(domainIn: Units, user: Units, pass: Units, package: Option<nat>, haveMemory: bool)
    returns (ok: bool, blob: array<Byte>, size: nat, authPkg: nat)
    ensures ok <==> user != [] && package.Some? && haveMemory
    ensures fresh(blob)
    ensures ok ==> var dom := if domainIn == [] then DOT else domainIn;
                   && blob[..] == MsvBlob(dom, user, pass)
                   && size == BlobSize(dom, user, pass) % 0x1_0000_0000
                   && authPkg == package.value
  {
    ok, size, authPkg := false, 0, 0;
    blob := new Byte[0];
    if user == [] {
      return;
    }
    if package.None? {
      return;
    }
    var dom := if domainIn == [] then DOT else domainIn;
    var cbD, cbU, cbP := ByteCount(dom), ByteCount(user), ByteCount(pass);
    var cbT := HEADER_SIZE + cbD + cbU + cbP;
    if !haveMemory {
      return;
    }
    blob := new Byte[cbT](_ => 0);
    WriteStrings(blob, dom, user, pass);
    WriteHeader(blob, dom, user, pass);
    ok, size, authPkg := true, cbT % 0x1_0000_0000, package.value;
  }

  datatype Scenario = LogonScenario | UnlockScenario

  predicate UsesMsv(domain: Units) { domain == [] || domain == DOT }

  datatype Packed = Packed(blob: Bytes, size: nat, authPkg: nat)

  /** What is packed, where `elsewhere` is the outcome of the Kerberos and Unlock packers. */
  function PackedFor(domain: Units, user: Units, pass: Units, scenario: Scenario, package: Option<nat>,
                     haveMemory: bool, elsewhere: Option<Packed>): Option<Packed> {
    if !UsesMsv(domain) then elsewhere
    else if user == [] || package == None then None
    else if scenario == UnlockScenario then elsewhere
    else if !haveMemory then None
    else Some(Packed(MsvBlob(DOT, user, pass), BlobSize(DOT, user, pass) % 0x1_0000_0000, package.value))
  }

  /** A credential for the local machine is packed here exactly with a user, a package and memory, and
      outside the Unlock scenario; every other domain, and Unlock with a user and a package, is left to the
      other packers, and in the cases that remain nothing is packed. */
  lemma PackedExactly(domain: Units, user: Units, pass: Units, scenario: Scenario, package: Option<nat>,
                      haveMemory: bool, elsewhere: Option<Packed>)
    ensures var local := |domain| == 0 || domain == [46];
            var ready := user != [] && package.Some?; var unlock := scenario == UnlockScenario;
            PackedFor(domain, user, pass, scenario, package, haveMemory, elsewhere) ==
            if !local || (ready && unlock) then elsewhere
            else if ready && haveMemory then
              Some(Packed(MsvBlob([46], user, pass), |MsvBlob([46], user, pass)| % 0x1_0000_0000, package.value))
            else None
  {
    hide MsvBlob;
  }

  /** The dispatch of PackAutoEx. */
  method PackAutoEx(domain: Units, user: Units, pass: Units, scenario: Scenario, package: Option<nat>, haveMemory: bool,
                    elsewhere: Option<Packed>)
    returns (packed: Option<Packed>)
    ensures packed == PackedFor(domain, user, pass, scenario, package, haveMemory, elsewhere)
  {
    if domain != [] && domain != DOT {
      return elsewhere;
    }
    if scenario == UnlockScenario && user != [] && package.Some? {
      return elsewhere;
    }
    var ok, buffer, size, authPkg := PackMsv(domain, user, pass, package, haveMemory);
    if !ok {
      return None;
    }
    return Some(Packed(buffer[..], size, authPkg));
  }
}
