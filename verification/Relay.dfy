/** Relay's opaque identifiers: global ids (graphql/relay/id.go), the user ids that resolvers
    accept (graphql/resolvers/entities_gen.go) and cursors (graphql/resolvers/query.resolvers.go). */
module Relay {
  import opened Results
  import opened Base64
  import opened Decimals

  datatype IdError = NotBase64 | NoColon | Required | WrongType(typ: string)

  // Global ids

  function ToGlobalID(typ: string, id: string): string
    requires IsBytes(typ) && IsBytes(id)
  {
    Encode(typ + ":" + id)
  }

  /** SplitN at the first colon. */
  function SplitAtColon(s: string): (r: Option<(string, string)>)
    ensures r.Some? <==> ':' in s
    ensures r.Some? ==> s == r.value.0 + ":" + r.value.1 && ':' !in r.value.0
  {
    if s == [] then None
    else if s[0] == ':' then Some(([], s[1..]))
    else
      var rest := SplitAtColon(s[1..]);
      assert s == [s[0]] + s[1..];
      if rest.None? then None else Some(([s[0]] + rest.value.0, rest.value.1))
  }

  function FromGlobalID(gid: string): Result<(string, string), IdError> {
    var b := Decode(gid);
    if b.None? then Err(NotBase64)
    else
      var parts := SplitAtColon(b.value);
      if parts.None? then Err(NoColon) else Ok(parts.value)
  }

  lemma {:induction false} SplitUnique(typ: string, id: string)
    requires ':' !in typ
    ensures SplitAtColon(typ + ":" + id) == Some((typ, id))
  {
    var s := typ + ":" + id;
    if typ == [] {
      assert s[1..] == id;
    } else {
      assert s[1..] == typ[1..] + ":" + id;
      SplitUnique(typ[1..], id);
      assert typ == [typ[0]] + typ[1..];
    }
  }

  /** A global id gives back its parts exactly when the type name has no colon. */
  lemma GlobalIDRoundTrip(typ: string, id: string)
    requires IsBytes(typ) && IsBytes(id)
    ensures FromGlobalID(ToGlobalID(typ, id)) == Ok((typ, id)) <==> ':' !in typ
    ensures FromGlobalID(ToGlobalID(typ, id)).Ok?
  {
    var s := typ + ":" + id;
    DecodeEncode(s);
    if ':' !in typ { SplitUnique(typ, id); }
    assert s[|typ|] == ':';
  }

  // User ids

  function DecodeUserID(id: string): Result<string, IdError> {
    if id == "" then Err(Required)
    else
      var parts := FromGlobalID(id);
      if parts.Err? then Ok(id)
      else if parts.value.0 != "User" then Err(WrongType(parts.value.0))
      else
        Ok(parts.value.1)
  }

  lemma UserIDRoundTrip(id: string)
    requires IsBytes(id)
    ensures DecodeUserID(ToGlobalID("User", id)) == Ok(id)
  {
    GlobalIDRoundTrip("User", id);
    assert Encode("User" + ":" + id) != [];
  }

  /** A raw id passes unchanged exactly when it is not the base64 form of a text with a colon. */
  lemma RawUserID(id: string)
    requires id != ""
    ensures DecodeUserID(id) == Ok(id) <==> !(Decode(id).Some? && ':' in Decode(id).value)
  {
    hide Decode;
    if Decode(id).Some? && ':' in Decode(id).value {
      var parts := SplitAtColon(Decode(id).value).value;
      assert |parts.1| < |Decode(id).value| <= |id|;
    }
  }

  /** In particular if it has a character that the decoder rejects. */
  lemma RejectedUserID(id: string, c: char)
    requires c in id && !Accepted(c)
    ensures DecodeUserID(id) == Ok(id)
  {
    RejectsOthers(id, c);
    RawUserID(id);
  }

  // Cursors

  const CURSOR_PREFIX := "cursor:"
  const MAX_INT := 0x7fff_ffff_ffff_ffff

  /** The verb %d. */
  function FormatInt(n: int): string {
    if n < 0 then "-" + Itoa(-n) else Itoa(n)
  }

  /** strconv.Atoi on a 64-bit platform. */
  function Atoi(s: string): (r: Option<int>)
    ensures r.Some? ==> -MAX_INT - 1 <= r.value <= MAX_INT
  {
    var digits := if s != [] && (s[0] == '-' || s[0] == '+') then s[1..] else s;
    if digits == [] || exists c | c in digits :: !IsDigit(c) then None
    else
      var n := if s[0] == '-' then 0 - Value(digits) else Value(digits);
      if -MAX_INT - 1 <= n <= MAX_INT then Some(n) else None
  }

  lemma AtoiOfFormat(n: int)
    requires -MAX_INT - 1 <= n <= MAX_INT
    ensures Atoi(FormatInt(n)) == Some(n)
  {
    var a := if n < 0 then -n else n;
    ValueOfItoa(a);
    assert IsDigit(Itoa(a)[0]) by { assert Itoa(a)[0] in Itoa(a); }
    assert ("-" + Itoa(a))[1..] == Itoa(a);
  }

  lemma CursorIsBytes(offset: int)
    ensures IsBytes(CURSOR_PREFIX + FormatInt(offset))
  {
    var s := CURSOR_PREFIX + FormatInt(offset);
    var a := if offset < 0 then -offset else offset;
    forall i | 0 <= i < |s| ensures s[i] as int < 256 {
      assert s[i] in CURSOR_PREFIX || s[i] == '-' || s[i] in Itoa(a);
    }
  }

  function EncodeCursor(offset: int): string {
    CursorIsBytes(offset);
    Encode(CURSOR_PREFIX + FormatInt(offset))
  }

  /** No cursor if the text is not base64, or not the prefix and an integer. */
  function DecodeCursor(cursor: string): Option<int> {
    var raw := Decode(cursor);
    if raw.None? then None
    else if |raw.value| <= |CURSOR_PREFIX| || raw.value[..|CURSOR_PREFIX|] != CURSOR_PREFIX then None
    else
      Atoi(raw.value[|CURSOR_PREFIX|..])
  }

  lemma CursorRoundTrip(offset: int)
    requires -MAX_INT - 1 <= offset <= MAX_INT
    ensures DecodeCursor(EncodeCursor(offset)) == Some(offset)
    ensures EncodeCursor(offset) != ""
  {
    CursorIsBytes(offset);
    var s := CURSOR_PREFIX + FormatInt(offset);
    DecodeEncode(s);
    AtoiOfFormat(offset);
    assert s[..|CURSOR_PREFIX|] == CURSOR_PREFIX && s[|CURSOR_PREFIX|..] == FormatInt(offset);
  }

  /** What the opaque texts hold. */
  lemma OpaqueTexts(typ: string, id: string, offset: int)
    requires IsBytes(typ) && IsBytes(id)
    ensures Decode(ToGlobalID(typ, id)) == Some(typ + ":" + id)
    ensures offset >= 0 ==> Decode(EncodeCursor(offset)) == Some("cursor:" + Itoa(offset))
    ensures offset < 0 ==> Decode(EncodeCursor(offset)) == Some("cursor:-" + Itoa(-offset))
  {
    hide Decode, Encode;
    CursorIsBytes(offset);
    DecodeEncode(CURSOR_PREFIX + FormatInt(offset));
    DecodeEncode(typ + ":" + id);
    if offset < 0 { assert "cursor:" + ("-" + Itoa(-offset)) == "cursor:-" + Itoa(-offset); }
  }
}
