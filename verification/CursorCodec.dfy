/** The opaque pagination token of internal/todo/httpapi/cursor.go: {"t":<RFC 3339>,"id":<string>} as
    JSON (RFC 8259), in unpadded base64url. */
module CursorCodec {
  import opened Wrappers
  import opened Text
  import opened Uuids
  import opened Timestamps
  import opened Paging
  import Base64Url

  /** A time.Location: seconds east of UTC at each instant. */
  type Zone = int -> int

  /** time.Time's zero value, 0001-01-01T00:00:00Z. */
  const ZERO_TIME := 366 * NS_PER_DAY

  datatype CursorError = MalformedCursor

  // ----- JSON -----

  predicate IsAscii(s: string) {
    forall i :: 0 <= i < |s| ==> s[i] < 128 as char
  }

  function ToBytes(s: string): seq<Byte>
    requires IsAscii(s)
  {
    seq(|s|, i requires 0 <= i < |s| => s[i] as int)
  }

  function FromBytes(b: seq<Byte>): string {
    seq(|b|, i requires 0 <= i < |b| => b[i] as char)
  }

  lemma BytesRoundTrip(s: string)
    requires IsAscii(s)
    ensures FromBytes(ToBytes(s)) == s
  {
  }

  predicate IsWhite(ch: char) { ch == ' ' || ch == '\t' || ch == '\n' || ch == '\r' }

  function SkipWhite(s: string): string {
    if s != [] && IsWhite(s[0]) then SkipWhite(s[1..]) else s
  }

  /** The next significant character is ch: what follows it. */
  function Expect(s: string, ch: char): Option<string> {
    var t := SkipWhite(s);
    if t != [] && t[0] == ch then Some(t[1..]) else None
  }

  /** The characters up to the closing quote, and what follows it.  Escapes are not modelled. */
  function ReadBody(s: string): Option<(string, string)> {
    if s == [] || s[0] == '\\' || s[0] < ' ' then None
    else if s[0] == '"' then Some(("", s[1..]))
    else match ReadBody(s[1..])
      case None => None
      case Some((body, rest)) => Some(([s[0]] + body, rest))
  }

  function ReadString(s: string): Option<(string, string)> {
    match Expect(s, '"')
    case None => None
    case Some(t) => ReadBody(t)
  }

  lemma {:induction false} SkipWhiteShrinks(s: string)
    ensures |SkipWhite(s)| <= |s|
  {
    if s != [] && IsWhite(s[0]) { SkipWhiteShrinks(s[1..]); }
  }

  lemma {:induction false} ReadBodyShrinks(s: string)
    ensures ReadBody(s).Some? ==> |ReadBody(s).value.1| < |s|
  {
    if s != [] && s[0] != '\\' && s[0] >= ' ' && s[0] != '"' { ReadBodyShrinks(s[1..]); }
  }

  lemma ReadStringShrinks(s: string)
    ensures ReadString(s).Some? ==> |ReadString(s).value.1| < |s|
  {
    SkipWhiteShrinks(s);
    if Expect(s, '"').Some? { ReadBodyShrinks(Expect(s, '"').value); }
  }

  /** One member with a string value, and what follows it. */
  function ReadMember(s: string): Option<((string, string), string)> {
    match ReadString(s)
    case None => None
    case Some((key, rest)) =>
      match Expect(rest, ':')
      case None => None
      case Some(rest') =>
        match ReadString(rest')
        case None => None
        case Some((value, rest'')) => Some(((key, value), rest''))
  }

  lemma ReadMemberShrinks(s: string)
    ensures ReadMember(s).Some? ==> |ReadMember(s).value.1| < |s|
  {
    ReadStringShrinks(s);
    if ReadString(s).Some? {
      var rest := ReadString(s).value.1;
      SkipWhiteShrinks(rest);
      if Expect(rest, ':').Some? { ReadStringShrinks(Expect(rest, ':').value); }
    }
  }

  /** Members up to the closing brace, after which only white space may follow. */
  function ReadMembers(s: string): Option<seq<(string, string)>>
    decreases |s|
  {
    ReadMemberShrinks(s);
    match ReadMember(s)
    case None => None
    case Some((member, rest)) =>
      SkipWhiteShrinks(rest);
      if Expect(rest, ',').Some? then
        match ReadMembers(Expect(rest, ',').value)
        case None => None
        case Some(more) => Some([member] + more)
      else if Expect(rest, '}').Some? && SkipWhite(Expect(rest, '}').value) == "" then Some([member])
      else None
  }

  function ReadObject(s: string): Option<seq<(string, string)>> {
    match Expect(s, '{')
    case None => None
    case Some(rest) =>
      if Expect(rest, '}').Some? then
        if SkipWhite(Expect(rest, '}').value) == "" then Some([]) else None
      else ReadMembers(rest)
  }

  // ----- the payload -----

  datatype Payload = Payload(t: int, id: string)

  /** Field names match without regard to case. */
  predicate Names(key: string, field: string) {
    |key| == |field| && forall i :: 0 <= i < |key| ==> Lower(key[i]) == field[i]
  }

  /** Assigns the members in order; unknown names are ignored, a bad time is an error. */
  function Assign(p: Payload, members: seq<(string, string)>): Option<Payload>
    decreases members
  {
    if members == [] then Some(p)
    else
      var (key, value) := members[0];
      if Names(key, "t") then
        match Read(value)
        case None => None
        case Some(t) => Assign(p.(t := t), members[1..])
      else if Names(key, "id") then Assign(p.(id := value), members[1..])
      else Assign(p, members[1..])
  }

  function Unmarshal(s: string): Option<Payload> {
    match ReadObject(s)
    case None => None
    case Some(members) => Assign(Payload(ZERO_TIME, ""), members)
  }

  function PayloadText(time: string, id: string): string {
    "{\"t\":\"" + time + "\",\"id\":\"" + id + "\"}"
  }

  lemma {:induction false} ReadBodyPlain(body: string, rest: string)
    requires AllPlain(body)
    ensures ReadBody(body + "\"" + rest) == Some((body, rest))
  {
    var s := body + "\"" + rest;
    if body == [] {
      assert s == "\"" + rest && s[1..] == rest;
    } else {
      assert IsPlain(body[0]) && s[0] == body[0];
      assert s[1..] == body[1..] + "\"" + rest;
      ReadBodyPlain(body[1..], rest);
      assert body == [body[0]] + body[1..];
    }
  }

  lemma ReadStringPlain(body: string, rest: string)
    requires AllPlain(body)
    ensures ReadString("\"" + body + "\"" + rest) == Some((body, rest))
  {
    var s := "\"" + body + "\"" + rest;
    assert s[0] == '"' && s[1..] == body + "\"" + rest;
    ReadBodyPlain(body, rest);
  }

  lemma ReadMemberPlain(key: string, value: string, rest: string)
    requires AllPlain(key) && AllPlain(value)
    ensures ReadMember("\"" + key + "\":\"" + value + "\"" + rest) == Some(((key, value), rest))
  {
    var tail := "\"" + value + "\"" + rest;
    var s := "\"" + key + "\":\"" + value + "\"" + rest;
    assert s == "\"" + key + "\"" + (":" + tail);
    ReadStringPlain(key, ":" + tail);
    assert (":" + tail)[0] == ':' && (":" + tail)[1..] == tail;
    ReadStringPlain(value, rest);
    hide ReadString;
  }

  lemma ExpectAt(ch: char, rest: string, want: char)
    requires !IsWhite(ch)
    ensures Expect([ch] + rest, want) == if ch == want then Some(rest) else None
  {
    assert ([ch] + rest)[1..] == rest;
  }

  lemma ReadLastMember(id: string)
    requires AllPlain(id)
    ensures ReadMembers("\"id\":\"" + id + "\"}") == Some([("id", id)])
  {
    hide ReadMember, Expect;
    var last := "\"id\":\"" + id + "\"}";
    ReadMemberPlain("id", id, "}");
    assert last == "\"" + "id" + "\":\"" + id + "\"" + "}";
    ExpectAt('}', "", ',');
    ExpectAt('}', "", '}');
    assert "}" == ['}'] + "" && SkipWhite("") == "";
  }

  lemma ReadPayload(time: string, id: string)
    requires AllPlain(time) && AllPlain(id)
    ensures ReadObject(PayloadText(time, id)) == Some([("t", time), ("id", id)])
  {
    var s := PayloadText(time, id);
    var last := "\"id\":\"" + id + "\"}";
    var body := "\"" + "t" + "\":\"" + time + "\"" + ("," + last);
    assert s == ['{'] + body;
    assert body == ['"'] + body[1..];
    ExpectAt('{', body, '{');
    ExpectAt('"', body[1..], '}');
    ReadMemberPlain("t", time, "," + last);
    ExpectAt(',', last, ',');
    ReadLastMember(id);
    hide ReadMember, Expect;
    assert "," + last == [','] + last;
    assert ReadMembers(body) == Some([("t", time)] + [("id", id)]);
    assert [("t", time)] + [("id", id)] == [("t", time), ("id", id)];
  }

  // ----- the token -----

  function Marshal(c: Cursor, zone: int): Option<string> {
    match Print(c.createdAt, zone)
    case None => None
    case Some(time) => Some(PayloadText(time, c.id))
  }

  lemma PayloadIsAscii(time: string, id: string)
    requires AllPlain(time) && AllPlain(id)
    ensures IsAscii(PayloadText(time, id)) && PayloadText(time, id) != ""
  {
  }

  lemma MarshalIsAscii(c: Cursor, zone: int)
    requires AllPlain(c.id)
    ensures Marshal(c, zone).Some? <==> Marshals(c.createdAt, zone)
    ensures Marshal(c, zone).Some? ==> IsAscii(Marshal(c, zone).value) && Marshal(c, zone).value != ""
  {
    hide Print, Marshals, PayloadText, IsAscii, AllPlain;
    PrintsWhenMarshals(c.createdAt, zone);
    if Marshals(c.createdAt, zone) {
      PrintIsPlain(c.createdAt, zone);
      PayloadIsAscii(Print(c.createdAt, zone).value, c.id);
    }
  }

  /** encodeCursor: nil, and a time that does not marshal, give the empty token. */
  function EncodeCursor(c: Option<Cursor>, zone: Zone): string
    requires c.Some? ==> AllPlain(c.value.id)
  {
    if c.None? then ""
    else match Marshal(c.value, zone(c.value.createdAt))
      case None => ""
      case Some(text) =>
        MarshalIsAscii(c.value, zone(c.value.createdAt));
        Base64Url.Encode(ToBytes(text))
  }

  /** decodeCursor: the empty token is the first page. */
  function DecodeCursor(token: string): (r: Result<Option<Cursor>, CursorError>)
    ensures r == Ok(None) <==> token == ""
    ensures r.Ok? && r.value.Some? ==> r.value.value.id != "" && r.value.value.createdAt != ZERO_TIME
  {
    if token == "" then Ok(None)
    else match Base64Url.Decode(token)
      case None => Err(MalformedCursor)
      case Some(raw) =>
        match Unmarshal(FromBytes(raw))
        case None => Err(MalformedCursor)
        case Some(p) =>
          if p.id == "" || p.t == ZERO_TIME then Err(MalformedCursor) else Ok(Some(Cursor(p.t, p.id)))
  }

  /** The wire form: the JSON object of the time and the id, in base64url. */
  lemma TokenFormat(c: Cursor, zone: Zone)
    requires AllPlain(c.id) && Marshals(c.createdAt, zone(c.createdAt))
    ensures var text := "{\"t\":\"" + Print(c.createdAt, zone(c.createdAt)).value + "\",\"id\":\"" + c.id + "\"}";
      IsAscii(text) && EncodeCursor(Some(c), zone) == Base64Url.Encode(ToBytes(text))
  {
    MarshalIsAscii(c, zone(c.createdAt));
    hide Marshals, Base64Url.Encode, IsAscii, AllPlain, ToBytes;
    PrintsWhenMarshals(c.createdAt, zone(c.createdAt));
    hide Print;
  }

  /** A token with a character outside the alphabet, or whose text is not a JSON object, is refused. */
  lemma TamperedRefused(token: string, i: nat)
    requires i < |token|
    ensures Base64Url.Value(token[i]).None? && token[i] != '\r' && token[i] != '\n' ==>
      DecodeCursor(token) == Err(MalformedCursor)
    ensures Base64Url.Decode(token).Some? && Expect(FromBytes(Base64Url.Decode(token).value), '{') == None ==>
      DecodeCursor(token) == Err(MalformedCursor)
  {
    if Base64Url.Value(token[i]).None? && token[i] != '\r' && token[i] != '\n' { Base64Url.ForeignRefused(token, i); }
    hide Base64Url.Decode, ReadMembers, Assign;
  }

  lemma AssignPayload(time: string, id: string, t: int)
    requires Read(time) == Some(t)
    ensures Assign(Payload(ZERO_TIME, ""), [("t", time), ("id", id)]) == Some(Payload(t, id))
  {
    hide Read;
    var first: Payload := Payload(t, "");
    assert [("t", time), ("id", id)][1..] == [("id", id)] && [("id", id)][1..] == [];
    assert Lower('t') == 't' && Lower('i') == 'i' && Lower('d') == 'd';
    assert Names("t", "t") && !Names("id", "t") && Names("id", "id");
    assert Assign(first, [("id", id)]) == Some(Payload(t, id));
  }

  lemma BytesKeepLength(s: string)
    requires IsAscii(s)
    ensures |ToBytes(s)| == |s|
  {
  }

  /** A marshalled cursor reads back as its own payload, under a token that is never empty. */
  lemma TokenPayload(c: Cursor, zone: Zone)
    requires AllPlain(c.id) && Marshals(c.createdAt, zone(c.createdAt))
    ensures var token := EncodeCursor(Some(c), zone);
      && token != "" && Base64Url.Decode(token).Some?
      && Unmarshal(FromBytes(Base64Url.Decode(token).value))
           == Some(Payload(c.createdAt + Drift(zone(c.createdAt)), c.id))
  {
    hide Marshal, Marshals, Drift, Unmarshal, FromBytes, ToBytes, Base64Url.Decode, Base64Url.Encode, AllPlain, IsAscii;
    var z := zone(c.createdAt);
    MarshalIsAscii(c, z);
    MarshalReads(c, z);
    var text := Marshal(c, z).value;
    BytesRoundTrip(text);
    assert ToBytes(text) != [] by { BytesKeepLength(text); }
    Base64Url.RoundTrip(ToBytes(text));
  }

  lemma PrintsWhenMarshals(instant: int, zone: int)
    ensures Print(instant, zone).Some? <==> Marshals(instant, zone)
  {
    hide ClockText, Fraction, ZoneText, ToCivil, InYears, IsZone;
  }

  lemma MarshalReads(c: Cursor, zone: int)
    requires AllPlain(c.id) && Marshals(c.createdAt, zone)
    ensures Marshal(c, zone).Some? && Unmarshal(Marshal(c, zone).value) == Some(Payload(c.createdAt + Drift(zone), c.id))
  {
    hide Read, Marshals, Drift, PayloadText, ReadObject, Assign, AllPlain, InYears, IsZone, ToCivil, ClockText, Fraction, ZoneText;
    assert Print(c.createdAt, zone).Some? by { PrintsWhenMarshals(c.createdAt, zone); }
    hide Print;
    var time := Print(c.createdAt, zone).value;
    PrintIsPlain(c.createdAt, zone);
    ReadPrinted(c.createdAt, zone);
    ReadPayload(time, c.id);
    AssignPayload(time, c.id, c.createdAt + Drift(zone));
  }

  /** Exactly what a minted token decodes to, in every zone.  A time that does not marshal gives the empty
      token, which reads as the first page; otherwise the position comes back, moved by the seconds of a
      zone that is not whole minutes, unless it is one the decoder refuses. */
  lemma CursorRoundTrip(c: Cursor, zone: Zone)
    requires AllPlain(c.id)
    ensures EncodeCursor(Some(c), zone) == "" <==> !Marshals(c.createdAt, zone(c.createdAt))
    ensures DecodeCursor(EncodeCursor(Some(c), zone)) ==
      var t := c.createdAt + Drift(zone(c.createdAt));
      if !Marshals(c.createdAt, zone(c.createdAt)) then Ok(None)
      else if c.id == "" || t == ZERO_TIME then Err(MalformedCursor)
      else Ok(Some(Cursor(t, c.id)))
  {
    hide Marshals, Marshal, Drift, Unmarshal, Base64Url.Decode, FromBytes, AllPlain, IsAscii, ToBytes, Base64Url.Encode;
    MarshalIsAscii(c, zone(c.createdAt));
    if Marshals(c.createdAt, zone(c.createdAt)) { TokenPayload(c, zone); }
  }
}
