/** From the text of an AUTH_SUCCESS line to the strings LSA reads out of the logon blob. */
module EndToEnd {
  import opened Unicode
  import opened Options
  import opened JsonString
  import opened JsonGrammar
  import opened JsonObject
  import opened JsonExactness
  import opened JsonNames
  import opened JsonUtf8
  import JsonEscape
  import opened Messages
  import opened Packing
  import opened BlobDecoding
  import Transport

  function Plains(b: Bytes): seq<Elem> {
    if b == [] then [] else [Plain(b[0])] + Plains(b[1..])
  }

  predicate NoSpecial(b: Bytes) { forall k | 0 <= k < |b| :: b[k] != QUOTE && b[k] != BACKSLASH }

  lemma {:induction false} PlainsDenote(b: Bytes)
    requires NoSpecial(b)
    ensures StringOk(Plains(b)) && Text(Plains(b)) == b && Meaning(Plains(b)) == b
    decreases |b|
  {
    if b != [] {
      PlainsDenote(b[1..]);
      JsonEscape.ConsText(Plain(b[0]), Plains(b[1..]));
      assert b == [b[0]] + b[1..];
    }
  }

  lemma PlainDenotes(b: Bytes)
    requires NoSpecial(b)
    ensures Denotes(b, b)
  {
    PlainsDenote(b);
  }

  lemma SpelledDenotes(xs: seq<Bytes>, u: Units)
    requires JsonEscape.AllSpelled(xs, u) && WellFormed16(u)
    ensures Denotes(JsonEscape.Joined(xs), Utf8(Decode16(u)))
  {
    var es := JsonEscape.SpelledElems(xs, u);
  }

  lemma EscapedDenotes(u: Units)
    requires WellFormed16(u)
    ensures Denotes(JsonEscape.Escape(u), Utf8(Decode16(u)))
  {
    JsonEscape.EscapesSpell(u);
    JsonEscape.EscapesJoin(u);
    SpelledDenotes(JsonEscape.Escapes(u), u);
  }

  function Bare(raw: Bytes, value: Bytes): Padded { Padded([], raw, value, []) }

  /** A success line in any layout of the grammar, with any white space, any order of members and any
      spelling of the texts, whose last user name and last password are those given. */
  ghost predicate Carries(l: Line, sam: Units, password: Units) {
    && WellFormed16(sam) && WellFormed16(password) && LineOk(l)
    && var es := Entries(l.members);
    && LastIs(es, Ascii("type"), Ascii("AUTH_SUCCESS"))
    && LastIs(es, Ascii("sam"), Utf8(Decode16(sam))) && LastIs(es, Ascii("password"), Utf8(Decode16(password)))
  }

  lemma CarriesFields(l: Line, sam: Units, password: Units)
    requires Carries(l, sam, password)
    ensures var f := FieldsOf(Entries(l.members));
            f.typ == AUTH_SUCCESS && f.sam == Utf8(Decode16(sam)) && f.password == Utf8(Decode16(password))
  {
    hide LastIs, LastValue, Entries, Utf8, Decode16, Ascii;
    Names();
    Types();
    var es := Entries(l.members);
    LastIsValue(es, TYPE, AUTH_SUCCESS);
    LastIsValue(es, SAM, Utf8(Decode16(sam)));
    LastIsValue(es, PASSWORD, Utf8(Decode16(password)));
  }

  lemma CarriesOk(l: Line, sam: Units, password: Units)
    requires Carries(l, sam, password)
    ensures LineOk(l) && WellFormed16(sam) && WellFormed16(password)
  {
  }

  /** A member printed by the installer's escape may stand in such a line, whatever is around it. */
  lemma PrintedValueOk(before: Bytes, u: Units, after: Bytes)
    requires WellFormed16(u) && AllWs(before) && AllWs(after)
    ensures PaddedOk(Padded(before, JsonEscape.Escape(u), Utf8(Decode16(u)), after))
  {
    EscapedDenotes(u);
  }

  function Named(name: string): Padded { Bare(Ascii(name), Ascii(name)) }

  /** `{"type":"AUTH_SUCCESS","sam":"...","password":"..."}` with what the two texts spell. */
  function AuthTree(x: Bytes, sam: Bytes, y: Bytes, password: Bytes): Line {
    var t := Member(Named("type"), Named("AUTH_SUCCESS"));
    var s, p := Member(Named("sam"), Bare(x, sam)), Member(Named("password"), Bare(y, password));
    Line([], More(t, More(s, Last(p))), [])
  }

  lemma PlainOk(name: string)
    requires NoSpecial(Ascii(name))
    ensures PaddedOk(Named(name))
  {
    PlainDenotes(Ascii(name));
  }

  lemma PlainNames()
    ensures NoSpecial(Ascii("type")) && NoSpecial(Ascii("sam"))
    ensures NoSpecial(Ascii("password")) && NoSpecial(Ascii("AUTH_SUCCESS"))
  {
  }

  lemma ThreeMembersOk(t: Member, s: Member, p: Member)
    requires MemberOk(t) && MemberOk(s) && MemberOk(p)
    ensures LineOk(Line([], More(t, More(s, Last(p))), []))
    ensures Entries(More(t, More(s, Last(p)))) == [EntryOf(t), EntryOf(s), EntryOf(p)]
  {
    hide MemberOk;
    assert MembersOk(Last(p)) && MembersOk(More(s, Last(p)));
    assert Entries(Last(p)) == [EntryOf(p)];
    assert Entries(More(s, Last(p))) == [EntryOf(s), EntryOf(p)];
  }

  lemma AuthTreeOk(x: Bytes, sam: Bytes, y: Bytes, password: Bytes)
    requires Denotes(x, sam) && Denotes(y, password)
    ensures var l := AuthTree(x, sam, y, password);
            && LineOk(l)
            && Entries(l.members) ==
               [Entry(Ascii("type"), Ascii("AUTH_SUCCESS")), Entry(Ascii("sam"), sam),
                Entry(Ascii("password"), password)]
  {
    hide Denotes, Ascii;
    PlainNames();
    PlainOk("type");
    PlainOk("AUTH_SUCCESS");
    PlainOk("sam");
    PlainOk("password");
    ThreeMembersOk(Member(Named("type"), Named("AUTH_SUCCESS")), Member(Named("sam"), Bare(x, sam)),
                   Member(Named("password"), Bare(y, password)));
  }

  /** The line as it is written. */
  function AuthText(x: Bytes, y: Bytes): Bytes {
    Ascii("{\"type\":\"AUTH_SUCCESS\",") + Ascii("\"sam\":\"") + x + Ascii("\",\"password\":\"") + y + Ascii("\"}")
  }

  lemma HeadText()
    ensures Ascii("{\"type\":\"AUTH_SUCCESS\",") ==
            [LBRACE] + ([QUOTE] + Ascii("type") + [QUOTE]) + [COLON] + ([QUOTE] + Ascii("AUTH_SUCCESS") + [QUOTE]) +
                [COMMA]
    ensures Ascii("\"sam\":\"") == ([QUOTE] + Ascii("sam") + [QUOTE]) + [COLON] + [QUOTE]
  {
  }

  lemma MiddleText()
    ensures Ascii("\",\"password\":\"") == [QUOTE] + [COMMA] + ([QUOTE] + Ascii("password") + [QUOTE]) + [COLON] +
            [QUOTE]
    ensures Ascii("\"}") == [QUOTE] + [RBRACE]
  {
  }

  lemma BareText(x: Bytes, value: Bytes)
    ensures PaddedText(Bare(x, value)) == [QUOTE] + x + [QUOTE]
  {
  }

  lemma MembersOfThree(t: Member, s: Member, p: Member)
    ensures LineText(Line([], More(t, More(s, Last(p))), [])) ==
            [LBRACE] + MemberText(t) + [COMMA] + MemberText(s) + [COMMA] + MemberText(p) + [RBRACE]
  {
    hide MemberText;
    assert MembersText(More(s, Last(p))) == MemberText(s) + [COMMA] + (MemberText(p) + [RBRACE]);
  }

  lemma AuthTreeText(x: Bytes, sam: Bytes, y: Bytes, password: Bytes)
    ensures LineText(AuthTree(x, sam, y, password)) == AuthText(x, y)
  {
    hide Ascii, Bare, PaddedText, LineText;
    HeadText();
    MiddleText();
    BareText(Ascii("type"), Ascii("type"));
    BareText(Ascii("AUTH_SUCCESS"), Ascii("AUTH_SUCCESS"));
    BareText(Ascii("sam"), Ascii("sam"));
    BareText(Ascii("password"), Ascii("password"));
    BareText(x, sam);
    BareText(y, password);
    MembersOfThree(Member(Named("type"), Named("AUTH_SUCCESS")), Member(Named("sam"), Bare(x, sam)),
                   Member(Named("password"), Bare(y, password)));
  }

  lemma TypeTextLength()
    ensures |Ascii("AUTH_SUCCESS")| == 12
  {
  }

  /** The installer's plain line, with each hex digit in either case, parses to exactly the name and the
      password it was made for, in their fields. */
  lemma PrintedLine(xs: seq<Bytes>, sam: Units, ys: seq<Bytes>, password: Units)
    requires JsonEscape.AllSpelled(xs, sam) && JsonEscape.AllSpelled(ys, password)
    requires WellFormed16(sam) && WellFormed16(password)
    ensures ParseLine(AuthText(JsonEscape.Joined(xs), JsonEscape.Joined(ys))) ==
            Some(Fields(Ascii("AUTH_SUCCESS"), Utf8(Decode16(sam)), Utf8(Decode16(password)), []))
  {
    hide Denotes, JsonEscape.AllSpelled, JsonEscape.Joined, Utf8, Decode16, WellFormed16, ParseLine, LineText, AuthText,
        LineOk, Ascii, Entries;
    var x, y := JsonEscape.Joined(xs), JsonEscape.Joined(ys);
    SpelledDenotes(xs, sam);
    SpelledDenotes(ys, password);
    AuthTreeOk(x, Utf8(Decode16(sam)), y, Utf8(Decode16(password)));
    AuthTreeText(x, Utf8(Decode16(sam)), y, Utf8(Decode16(password)));
    TypeTextLength();
    ThreeMembers(AuthTree(x, Utf8(Decode16(sam)), y, Utf8(Decode16(password))), 0, 1, 2);
  }

  /** A text as the installer prints it. */
  function Printed(u: Units): Padded
    requires WellFormed16(u)
  {
    Bare(JsonEscape.Escape(u), Utf8(Decode16(u)))
  }

  lemma PrintedLineCarries(sam: Units, password: Units)
    requires WellFormed16(sam) && WellFormed16(password)
    ensures var x, y := Printed(sam), Printed(password);
            var l := AuthTree(x.raw, x.value, y.raw, y.value);
            LineText(l) == AuthText(JsonEscape.Escape(sam), JsonEscape.Escape(password)) && Carries(l, sam, password)
  {
    hide Denotes, JsonEscape.Escape, Utf8, Decode16, LastIs, Ascii, AuthText, LineText, LineOk;
    EscapedDenotes(sam);
    EscapedDenotes(password);
    var s, p := Utf8(Decode16(sam)), Utf8(Decode16(password));
    AuthTreeOk(JsonEscape.Escape(sam), s, JsonEscape.Escape(password), p);
    AuthTreeText(JsonEscape.Escape(sam), s, JsonEscape.Escape(password), p);
    var es := [Entry(Ascii("type"), Ascii("AUTH_SUCCESS")), Entry(Ascii("sam"), s), Entry(Ascii("password"), p)];
    Differ();
    OneOfThree(es, 0, 1, 2, Ascii("type"));
    OneOfThree(es, 1, 0, 2, Ascii("sam"));
    OneOfThree(es, 2, 0, 1, Ascii("password"));
  }

  /** Whatever well-formed user name and password a success line carries, within the sizes MSV can
      hold, the blob that the provider builds from the parsed line gives back exactly ".", the name
      and the password. */
  lemma CredentialFidelity(l: Line, sam: Units, password: Units)
    requires Carries(l, sam, password) && sam != []
    requires |sam| <= MAX_UNITS && |password| <= MAX_UNITS
    ensures var r := ParseLine(LineText(l));
            && r.Some? && r.value.typ == Ascii("AUTH_SUCCESS")
            && ValidUtf8(r.value.sam) && ValidUtf8(r.value.password)
            && Widen(r.value.sam) == sam && Widen(r.value.password) == password
            && var b := MsvBlob(DOT, Widen(r.value.sam), Widen(r.value.password));
            && FieldFaithful(b, DOMAIN_AT, DOT)
            && FieldFaithful(b, USER_AT, sam)
            && FieldFaithful(b, PASSWORD_AT, password)
            && |b| % 0x1_0000_0000 == |b|
  {
    hide LineText, FieldFaithful, MsvBlob, Utf8, Decode16, Widen, WellFormed16, ParseLine, LineOk, FieldsOf, Entries,
        Carries;
    CarriesFields(l, sam, password);
    TypeTextLength();
    Types();
    CarriesOk(l, sam, password);
    LineOfText(LineText(l), l);
    WidenUtf8(sam);
    WidenUtf8(password);
    BlobFaithful(DOT, sam, password);
  }

  /** The same without any printer: a valid UTF-8 line within the transport's cap has fields so short
      that the blob's size survives the cast to 32 bits, and each field is read back exactly when
      its text has at most 32766 units. */
  lemma CappedLineFits(line: Bytes)
    requires ValidUtf8(line) && |line| <= Transport.MAX_MESSAGE && ParseLine(line).Some?
    ensures var f := ParseLine(line).value;
            && ValidUtf8(f.sam) && ValidUtf8(f.password)
            && var user, pass := Widen(f.sam), Widen(f.password); var b := MsvBlob(DOT, user, pass);
            && |b| <= 56 + 4 + 4 * (Transport.MAX_MESSAGE + 1) && |b| % 0x1_0000_0000 == |b|
            && (FieldFaithful(b, USER_AT, user) <==> |user| <= MAX_UNITS)
            && (FieldFaithful(b, PASSWORD_AT, pass) <==> |pass| <= MAX_UNITS)
  {
    hide FieldFaithful, MsvBlob, Widen, ParseLine, ValidUtf8;
    var f := ParseLine(line).value;
    LineValid(line);
    LineFits(line);
    WidenNoLonger(f.sam);
    WidenNoLonger(f.password);
    BlobFaithful(DOT, Widen(f.sam), Widen(f.password));
  }
}
