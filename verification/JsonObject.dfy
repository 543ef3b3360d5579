/** The broker message: a flat object of string members. First what the parser's loop computes,
    by offsets; then the grammar of a line, and the proof that the two agree. */
module JsonObject {
  import opened Unicode
  import opened JsonString
  import opened Options
  import opened JsonGrammar

  const LBRACE: Byte := 123
  const RBRACE: Byte := 125
  const COMMA: Byte := 44
  const COLON: Byte := 58

  const TYPE: Bytes := [116, 121, 112, 101]
  const SAM: Bytes := [115, 97, 109]
  const PASSWORD: Bytes := [112, 97, 115, 115, 119, 111, 114, 100]
  const REASON: Bytes := [114, 101, 97, 115, 111, 110]

  predicate IsWs(b: Byte) { b == 32 || b == 9 || b == 13 || b == 10 }

  predicate AllWs(s: Bytes) { forall k | 0 <= k < |s| :: IsWs(s[k]) }

  // ---------- what the loop computes ----------

  /** The first offset from `i` on that holds no whitespace. */
  function SkipWsFrom(s: Bytes, i: nat): (j: nat)
    requires i <= |s|
    ensures i <= j <= |s|
    ensures forall k | i <= k < j :: IsWs(s[k])
    ensures j < |s| ==> !IsWs(s[j])
    decreases |s| - i
  {
    if i < |s| && IsWs(s[i]) then SkipWsFrom(s, i + 1) else i
  }

  datatype Fields = Fields(typ: Bytes, sam: Bytes, password: Bytes, reason: Bytes)

  const NO_FIELDS := Fields([], [], [], [])

  function Assign(f: Fields, key: Bytes, value: Bytes): Fields {
    if key == TYPE then f.(typ := value)
    else if key == SAM then f.(sam := value)
    else if key == PASSWORD then f.(password := value)
    else if key == REASON then f.(reason := value)
    else f
  }

  datatype MemberRead = MemberRead(key: Bytes, value: Bytes, next: nat)

  /** A member at `i`: key, colon and value, with the whitespace inside and after it. */
  function MemberAt(s: Bytes, i: nat): (r: Option<MemberRead>)
    ensures r.Some? ==> i < r.value.next <= |s|
  {
    match StringAt(s, i)
    case None => None
    case Some(key) =>
      var c := SkipWsFrom(s, key.next);
      if c >= |s| || s[c] != COLON then None
      else
        match StringAt(s, SkipWsFrom(s, c + 1))
        case None => None
        case Some(value) => Some(MemberRead(key.value, value.value, SkipWsFrom(s, value.next)))
  }

  datatype ObjectRead = ObjectRead(fields: Fields, hasType: bool, next: nat)

  /** The loop over the members, from offset `i`, with the fields gathered so far. */
  function MembersFrom(s: Bytes, i: nat, f: Fields, hasType: bool): (r: Option<ObjectRead>)
    requires i <= |s|
    ensures r.Some? ==> r.value.next <= |s|
    decreases |s| - i
  {
    var j := SkipWsFrom(s, i);
    if j >= |s| then None
    else if s[j] == RBRACE then Some(ObjectRead(f, hasType, j + 1))
    else
      match MemberAt(s, j)
      case None => None
      case Some(m) =>
        var f', t' := Assign(f, m.key, m.value), hasType || m.key == TYPE;
        if m.next >= |s| then None
        else if s[m.next] == COMMA then MembersFrom(s, m.next + 1, f', t')
        else if s[m.next] == RBRACE then Some(ObjectRead(f', t', m.next + 1))
        else None
  }

  lemma MembersUnfold(s: Bytes, i: nat, f: Fields, hasType: bool)
    requires i <= |s|
    ensures var j := SkipWsFrom(s, i);
            MembersFrom(s, i, f, hasType) ==
            if j >= |s| then None
            else if s[j] == RBRACE then Some(ObjectRead(f, hasType, j + 1))
            else if MemberAt(s, j).None? then None
            else
              var m := MemberAt(s, j).value;
              var f', t' := Assign(f, m.key, m.value), hasType || m.key == TYPE;
              if m.next >= |s| then None
              else if s[m.next] == COMMA then MembersFrom(s, m.next + 1, f', t')
              else if s[m.next] == RBRACE then Some(ObjectRead(f', t', m.next + 1))
              else None
  {
    hide SkipWsFrom, MemberAt, Assign;
  }

  /** The object that fills `s`, read over the fields `f`, if it has a "type" member. */
  function ObjectFrom(s: Bytes, f: Fields): Option<Fields> {
    var i := SkipWsFrom(s, 0);
    if i >= |s| || s[i] != LBRACE then None
    else
      match MembersFrom(s, i + 1, f, false)
      case None => None
      case Some(r) => if SkipWsFrom(s, r.next) == |s| && r.hasType then Some(r.fields) else None
  }

  function ObjectIn(s: Bytes): Option<Fields> { ObjectFrom(s, NO_FIELDS) }

  /** Where the trailing whitespace of `s[i..j]` begins. */
  function TrimEnd(s: Bytes, i: nat, j: nat): (k: nat)
    requires i <= j <= |s|
    ensures i <= k <= j
    ensures forall m | k <= m < j :: IsWs(s[m])
    ensures k > i ==> !IsWs(s[k - 1])
  {
    if j > i && IsWs(s[j - 1]) then TrimEnd(s, i, j - 1) else j
  }

  function Trimmed(s: Bytes): Bytes {
    var i := SkipWsFrom(s, 0);
    s[i..TrimEnd(s, i, |s|)]
  }

  function ParseLine(line: Bytes): Option<Fields> {
    var s := Trimmed(line);
    if s == [] then None
    else
      match ObjectIn(s)
      case None => None
      case Some(f) => if f.typ == [] then None else Some(f)
  }

  // ---------- the grammar of a line ----------

  /** A quoted string with the whitespace around it: its raw text and what that denotes. */
  datatype Padded = Padded(before: Bytes, raw: Bytes, value: Bytes, after: Bytes)

  datatype Member = Member(key: Padded, value: Padded)

  /** The rest of an object after `{` or a comma: its end, a last member with the end right after
      it, or a member, a comma and more. `More(m, End(w))` is the trailing comma. */
  datatype Members = End(ws: Bytes) | Last(m: Member) | More(m: Member, rest: Members)

  datatype Line = Line(lead: Bytes, members: Members, trail: Bytes)

  ghost predicate PaddedOk(p: Padded) { AllWs(p.before) && AllWs(p.after) && Denotes(p.raw, p.value) }

  ghost predicate MemberOk(m: Member) { PaddedOk(m.key) && PaddedOk(m.value) }

  ghost predicate MembersOk(ms: Members) {
    match ms
    case End(w) => AllWs(w)
    case Last(m) => MemberOk(m)
    case More(m, rest) => MemberOk(m) && MembersOk(rest)
  }

  ghost predicate LineOk(l: Line) { AllWs(l.lead) && AllWs(l.trail) && MembersOk(l.members) }

  function PaddedText(p: Padded): Bytes { p.before + ([QUOTE] + p.raw + [QUOTE]) + p.after }

  function MemberText(m: Member): Bytes { PaddedText(m.key) + [COLON] + PaddedText(m.value) }

  function MembersText(ms: Members): Bytes {
    match ms
    case End(w) => w + [RBRACE]
    case Last(m) => MemberText(m) + [RBRACE]
    case More(m, rest) => MemberText(m) + [COMMA] + MembersText(rest)
  }

  function LineText(l: Line): Bytes { l.lead + [LBRACE] + MembersText(l.members) + l.trail }

  datatype Entry = Entry(key: Bytes, value: Bytes)

  function EntryOf(m: Member): Entry { Entry(m.key.value, m.value.value) }

  function Entries(ms: Members): seq<Entry> {
    match ms
    case End(_) => []
    case Last(m) => [EntryOf(m)]
    case More(m, rest) => [EntryOf(m)] + Entries(rest)
  }

  /** The value of the last entry whose key is `key`; empty if there is none. */
  function LastValue(es: seq<Entry>, key: Bytes): Bytes {
    if es == [] then []
    else if es[|es| - 1].key == key then es[|es| - 1].value
    else LastValue(es[..|es| - 1], key)
  }

  function FieldsOf(es: seq<Entry>): Fields {
    Fields(LastValue(es, TYPE), LastValue(es, SAM), LastValue(es, PASSWORD), LastValue(es, REASON))
  }

  // ---------- the grammar by offsets ----------

  predicate Slice(s: Bytes, i: nat, x: Bytes, j: nat) { i <= j <= |s| && s[i..j] == x }

  predicate PaddedAt(s: Bytes, i: nat, p: Padded, j: nat) {
    var a, b := i + |p.before|, i + |p.before| + |p.raw| + 2;
    && Slice(s, i, p.before, a)
    && b <= |s| && s[a] == QUOTE && s[a + 1..b - 1] == p.raw && s[b - 1] == QUOTE
    && Slice(s, b, p.after, j)
  }

  predicate MembersAt(s: Bytes, i: nat, ms: Members, j: nat)
    decreases ms
  {
    match ms
    case End(w) => Slice(s, i, w, i + |w|) && i + |w| < |s| && s[i + |w|] == RBRACE && j == i + |w| + 1
    case Last(m) =>
      var k := i + |MemberText(m)|;
      Slice(s, i, MemberText(m), k) && k < |s| && s[k] == RBRACE && j == k + 1
    case More(m, rest) =>
      var k := i + |MemberText(m)|;
      Slice(s, i, MemberText(m), k) && k < |s| && s[k] == COMMA && MembersAt(s, k + 1, rest, j)
  }

  lemma SliceConcat3(s: Bytes, i: nat, j: nat, x: Bytes, y: Bytes, z: Bytes)
    requires i <= j <= |s|
    ensures s[i..j] == x + y + z <==>
            Slice(s, i, x, i + |x|) && Slice(s, i + |x|, y, i + |x| + |y|) && Slice(s, i + |x| + |y|, z, j)
  {
    SliceConcat(s, i, j, x + y, z);
    if i + |x| + |y| <= j {
      SliceConcat(s, i, i + |x| + |y|, x, y);
    }
  }

  lemma SingleSlice(s: Bytes, k: nat, b: Byte)
    ensures Slice(s, k, [b], k + 1) <==> k < |s| && s[k] == b
  {
    assert k < |s| ==> s[k..k + 1] == [s[k]];
  }

  lemma QuotedSlice(s: Bytes, a: nat, b: nat, raw: Bytes)
    requires b <= |s| && b == a + |raw| + 2
    ensures s[a..b] == [QUOTE] + raw + [QUOTE] <==> s[a] == QUOTE && s[a + 1..b - 1] == raw && s[b - 1] == QUOTE
  {
    SliceConcat3(s, a, b, [QUOTE], raw, [QUOTE]);
    SingleSlice(s, a, QUOTE);
    SingleSlice(s, b - 1, QUOTE);
  }

  lemma PaddedSlices(s: Bytes, i: nat, j: nat, p: Padded)
    requires i <= j <= |s|
    ensures var a, b := i + |p.before|, i + |p.before| + |p.raw| + 2;
            s[i..j] == PaddedText(p) <==>
            Slice(s, i, p.before, a) && Slice(s, a, [QUOTE] + p.raw + [QUOTE], b) && Slice(s, b, p.after, j)
  {
    hide Slice;
    SliceConcat3(s, i, j, p.before, [QUOTE] + p.raw + [QUOTE], p.after);
  }

  lemma PaddedAtIsText(s: Bytes, i: nat, p: Padded, j: nat)
    requires i <= j <= |s|
    ensures PaddedAt(s, i, p, j) <==> s[i..j] == PaddedText(p)
  {
    var a, b := i + |p.before|, i + |p.before| + |p.raw| + 2;
    PaddedSlices(s, i, j, p);
    if b <= |s| {
      QuotedSlice(s, a, b, p.raw);
    }
  }

  /** A slice is `x`, the byte `b` and then `y`. */
  lemma Separated(s: Bytes, i: nat, j: nat, x: Bytes, b: Byte, y: Bytes)
    requires i <= j <= |s|
    ensures var k := i + |x|;
            s[i..j] == x + [b] + y <==> Slice(s, i, x, k) && k < |s| && s[k] == b && Slice(s, k + 1, y, j)
  {
    SliceConcat3(s, i, j, x, [b], y);
    SingleSlice(s, i + |x|, b);
  }

  lemma Terminated(s: Bytes, i: nat, j: nat, x: Bytes, b: Byte)
    requires i <= j <= |s|
    ensures var k := i + |x|;
            s[i..j] == x + [b] <==> Slice(s, i, x, k) && k < |s| && s[k] == b && j == k + 1
  {
    Separated(s, i, j, x, b, []);
    assert x + [b] + [] == x + [b];
  }

  lemma {:induction false} MembersAtBounds(s: Bytes, i: nat, ms: Members, j: nat)
    requires MembersAt(s, i, ms, j)
    ensures i < j <= |s|
    decreases ms
  {
    if ms.More? {
      MembersAtBounds(s, i + |MemberText(ms.m)| + 1, ms.rest, j);
    }
  }

  lemma MoreIsText(s: Bytes, i: nat, m: Member, rest: Members, j: nat)
    requires i <= j <= |s|
    requires var k := i + |MemberText(m)|;
             k < j ==> (MembersAt(s, k + 1, rest, j) <==> s[k + 1..j] == MembersText(rest))
    ensures MembersAt(s, i, More(m, rest), j) <==> s[i..j] == MemberText(m) + [COMMA] + MembersText(rest)
  {
    hide MemberText, MembersText;
    var k := i + |MemberText(m)|;
    Separated(s, i, j, MemberText(m), COMMA, MembersText(rest));
    if MembersAt(s, i, More(m, rest), j) {
      MembersAtBounds(s, k + 1, rest, j);
    }
  }

  lemma {:induction false} MembersAtIsText(s: Bytes, i: nat, ms: Members, j: nat)
    requires i <= j <= |s|
    ensures MembersAt(s, i, ms, j) <==> s[i..j] == MembersText(ms)
    decreases ms
  {
    hide MemberText;
    match ms
    case End(w) => Terminated(s, i, j, w, RBRACE);
    case Last(m) => Terminated(s, i, j, MemberText(m), RBRACE);
    case More(m, rest) =>
      if i + |MemberText(m)| < j {
        MembersAtIsText(s, i + |MemberText(m)| + 1, rest, j);
      }
      MoreIsText(s, i, m, rest, j);
  }
}
