/** The parser of src/broker/ProviderJson.cpp with its loops, and the message it fills in place. */
module JsonParser {
  import opened Unicode
  import opened JsonString
  import opened Options
  import opened JsonGrammar
  import opened JsonObject
  import opened JsonNames

  class Msg {
    var typ: Bytes
    var sam: Bytes
    var password: Bytes
    var reason: Bytes

    constructor ()
      ensures Value() == NO_FIELDS
    {
      typ, sam, password, reason := [], [], [], [];
    }

    function Value(): Fields
      reads this
    {
      Fields(typ, sam, password, reason)
    }

    method Clear()
      modifies this
      ensures Value() == NO_FIELDS
    {
      typ, sam, password, reason := [], [], [], [];
    }

    method Store(key: Bytes, value: Bytes) returns (isType: bool)
      modifies this
      ensures Value() == Assign(old(Value()), key, value)
      ensures isType <==> key == Ascii("type")
      ensures typ == (if key == Ascii("type") then value else old(typ))
      ensures sam == (if key == Ascii("sam") then value else old(sam))
      ensures password == (if key == Ascii("password") then value else old(password))
      ensures reason == (if key == Ascii("reason") then value else old(reason))
    {
      Names();
      Differ();
      isType := false;
      if key == TYPE {
        typ := value;
        isType := true;
      } else if key == SAM {
        sam := value;
      } else if key == PASSWORD {
        password := value;
      } else if key == REASON {
        reason := value;
      }
    }
  }

  method SkipWs(s: Bytes, i0: nat) returns (i: nat)
    requires i0 <= |s|
    ensures i == SkipWsFrom(s, i0)
  {
    i := i0;
    while i < |s| && (s[i] == 32 || s[i] == 9 || s[i] == 13 || s[i] == 10)
      invariant i0 <= i <= |s|
      invariant SkipWsFrom(s, i0) == SkipWsFrom(s, i)
    {
      i := i + 1;
    }
  }

  method Trim(s: Bytes) returns (r: Bytes)
    ensures r == Trimmed(s)
  {
    var i, j := 0, |s|;
    while i < j && (s[i] == 32 || s[i] == 9 || s[i] == 13 || s[i] == 10)
      invariant 0 <= i <= j == |s|
      invariant SkipWsFrom(s, 0) == SkipWsFrom(s, i)
    {
      i := i + 1;
    }
    while j > i && (s[j - 1] == 32 || s[j - 1] == 9 || s[j - 1] == 13 || s[j - 1] == 10)
      invariant i <= j <= |s|
      invariant TrimEnd(s, i, |s|) == TrimEnd(s, i, j)
    {
      j := j - 1;
    }
    r := s[i..j];
  }

  method ReadString(s: Bytes, i: nat) returns (ok: bool, value: Bytes, next: nat)
    requires i <= |s|
    ensures ok <==> StringAt(s, i).Some?
    ensures ok ==> StringAt(s, i) == Some(Str(value, next)) && next <= |s|
  {
    hide Unescape, Token;
    var okToken, n, raw := ParseJsonQuotedToken(s, i);
    value, next := [], n;
    if !okToken {
      return false, value, next;
    }
    ok, value := UnescapeJsonString(raw);
  }

  /** Key, colon and value of the member at `i`, with the whitespace inside and after it. */
  method ReadMember(s: Bytes, i0: nat) returns (ok: bool, key: Bytes, value: Bytes, i: nat)
    requires i0 <= |s|
    ensures ok <==> MemberAt(s, i0).Some?
    ensures ok ==> MemberAt(s, i0) == Some(MemberRead(key, value, i))
  {
    hide SkipWsFrom, StringAt;
    var next: nat;
    value, i := [], i0;
    ok, key, next := ReadString(s, i);
    if !ok {
      return;
    }
    i := SkipWs(s, next);
    if i >= |s| || s[i] != COLON {
      return false, key, value, i;
    }
    i := SkipWs(s, i + 1);
    ok, value, next := ReadString(s, i);
    if !ok {
      return;
    }
    i := SkipWs(s, next);
  }

  method ParseFlatBrokerMessage(obj: Bytes, out: Msg) returns (ok: bool)
    modifies out
    ensures ok <==> ObjectFrom(obj, old(out.Value())).Some?
    ensures ok ==> out.Value() == ObjectFrom(obj, old(out.Value())).value
  {
    hide SkipWsFrom, MemberAt, Assign, TYPE, MembersFrom, Ascii;
    Names();
    var i := SkipWs(obj, 0);
    if i >= |obj| || obj[i] != LBRACE {
      return false;
    }
    i := i + 1;
    ghost var goal := MembersFrom(obj, i, out.Value(), false);
    var hasType := false;
    while true
      invariant i <= |obj|
      invariant goal == MembersFrom(obj, i, out.Value(), hasType)
      decreases |obj| - i
    {
      MembersUnfold(obj, i, out.Value(), hasType);
      i := SkipWs(obj, i);
      if i >= |obj| {
        return false;
      }
      if obj[i] == RBRACE {
        i := i + 1;
        break;
      }
      var okMember, key, value, next := ReadMember(obj, i);
      if !okMember {
        return false;
      }
      var isType := out.Store(key, value);
      hasType := hasType || isType;
      i := next;
      if i >= |obj| {
        return false;
      }
      if obj[i] == COMMA {
        i := i + 1;
        continue;
      }
      if obj[i] == RBRACE {
        i := i + 1;
        break;
      }
      return false;
    }
    assert goal == Some(ObjectRead(out.Value(), hasType, i));
    i := SkipWs(obj, i);
    if i != |obj| {
      return false;
    }
    return hasType;
  }

  /** Parses one line. On failure every field is empty. */
  method ParseJsonLine(line: Bytes, out: Msg) returns (ok: bool)
    modifies out
    ensures ok <==> ParseLine(line).Some?
    ensures out.Value() == if ok then ParseLine(line).value else NO_FIELDS
    ensures ReadsAs(line, if ok then Some(out.Value()) else None)
  {
    hide Trimmed, ObjectFrom, ReadsAs;
    ParseReads(line);
    out.Clear();
    var s := Trim(line);
    if s == [] {
      return false;
    }
    ok := ParseFlatBrokerMessage(s, out);
    if !ok || out.typ == [] {
      out.Clear();
      return false;
    }
  }
}
