/**
 * The P-256 verifier's recogniser for WebAuthn client data (section 5.8.1 of W3C WebAuthn Level 2): a
 * cursor that accepts flat JSON-like objects. The grammar below is what it accepts, no more and no less;
 * it is looser than JSON in allowing a trailing comma and any run of other bytes as an unquoted value.
 */
module ClientData {
  import opened Bytes

  const QUOTE: Byte := 0x22
  const BACKSLASH: Byte := 0x5c
  const COMMA: Byte := 0x2c
  const COLON: Byte := 0x3a
  const OPEN: Byte := 0x7b
  const CLOSE: Byte := 0x7d

  // "type", "challenge", "origin" and "webauthn.get"
  const TYPE: Bytes := [0x74, 0x79, 0x70, 0x65]
  const CHALLENGE: Bytes := [0x63, 0x68, 0x61, 0x6c, 0x6c, 0x65, 0x6e, 0x67, 0x65]
  const ORIGIN: Bytes := [0x6f, 0x72, 0x69, 0x67, 0x69, 0x6e]
  const WEBAUTHN_GET: Bytes := [0x77, 0x65, 0x62, 0x61, 0x75, 0x74, 0x68, 0x6e, 0x2e, 0x67, 0x65, 0x74]

  predicate Whitespace(b: Byte) {
    b == 0x20 || b == 0x0a || b == 0x0d || b == 0x09
  }

  predicate TextByte(b: Byte) {
    b != QUOTE && b != BACKSLASH && b >= 0x20
  }

  predicate PrimitiveByte(b: Byte) {
    b != COMMA && b != CLOSE && !Whitespace(b)
  }

  predicate All(s: Bytes, p: Byte -> bool) {
    forall b | b in s :: p(b)
  }

  // ----- The grammar -----

  datatype Value = Text(content: Bytes) | Primitive(content: Bytes)

  /** ws "key" ws : ws value ws */
  datatype Member = Member(wsKey: Bytes, key: Bytes, wsColon: Bytes, wsValue: Bytes, value: Value, wsEnd: Bytes)

  datatype Item = Item(member: Member, comma: bool)

  /** Everything after the opening brace, up to and including the closing one. */
  datatype Body = Body(items: seq<Item>, ws: Bytes)

  datatype Document = Document(wsStart: Bytes, body: Body, wsEnd: Bytes)

  predicate ValidValue(v: Value) {
    match v
    case Text(content) => All(content, TextByte)
    case Primitive(content) => content != [] && All(content, PrimitiveByte) && content[0] != QUOTE
  }

  predicate Checked(key: Bytes) {
    key == TYPE || key == CHALLENGE || key == ORIGIN
  }

  predicate ValidMember(m: Member) {
    && All(m.wsKey, Whitespace) && All(m.wsColon, Whitespace) && All(m.wsValue, Whitespace) && All(m.wsEnd, Whitespace)
    && All(m.key, TextByte) && ValidValue(m.value)
    && (Checked(m.key) ==> m.value.Text?)
  }

  /** Every member but the last is followed by a comma; the last may be, and only then may space follow. */
  predicate ValidBody(b: Body) {
    && All(b.ws, Whitespace)
    && (forall i | 0 <= i < |b.items| :: ValidMember(b.items[i].member))
    && (forall i | 0 <= i < |b.items| && !b.items[i].comma :: i == |b.items| - 1 && b.ws == [])
  }

  predicate ValidDocument(d: Document) {
    All(d.wsStart, Whitespace) && ValidBody(d.body) && All(d.wsEnd, Whitespace)
  }

  function TextBytes(content: Bytes): Bytes {
    [QUOTE] + content + [QUOTE]
  }

  function ValueBytes(v: Value): Bytes {
    match v
    case Text(content) => TextBytes(content)
    case Primitive(content) => content
  }

  function MemberBytes(m: Member): Bytes {
    m.wsKey + (TextBytes(m.key) + (m.wsColon + ([COLON] + (m.wsValue + (ValueBytes(m.value) + m.wsEnd)))))
  }

  function BodyBytes(b: Body): Bytes
    decreases |b.items|
  {
    if b.items == [] then b.ws + [CLOSE]
    else
      MemberBytes(b.items[0].member)
      + ((if b.items[0].comma then [COMMA] else []) + BodyBytes(Body(b.items[1..], b.ws)))
  }

  function DocumentBytes(d: Document): Bytes {
    d.wsStart + ([OPEN] + (BodyBytes(d.body) + d.wsEnd))
  }

  // ----- Reading -----

  /** The length of the longest prefix whose bytes all satisfy `p`. */
  function Span(s: Bytes, p: Byte -> bool): (n: nat)
    ensures n <= |s|
  {
    if s == [] || !p(s[0]) then 0 else 1 + Span(s[1..], p)
  }

  predicate StartsOutside(s: Bytes, p: Byte -> bool) {
    s == [] || !p(s[0])
  }

  lemma {:induction false} SpanIs(s: Bytes, p: Byte -> bool, n: nat)
    requires n <= |s|
    ensures Span(s, p) == n <==> All(s[..n], p) && StartsOutside(s[n..], p)
  {
    if s != [] && p(s[0]) {
      if n == 0 {
        assert s[0] in s;
      } else {
        SpanIs(s[1..], p, n - 1);
        assert s[1..][..n - 1] == s[..n][1..] && s[1..][n - 1..] == s[n..];
        assert s[..n] == [s[0]] + s[..n][1..];
      }
    } else if n > 0 {
      assert s[0] in s[..n];
    }
  }

  datatype Read<T> = Read(value: T, rest: Bytes)

  function TakeWs(s: Bytes): Read<Bytes> {
    Read(s[..Span(s, Whitespace)], s[Span(s, Whitespace)..])
  }

  function TakeByte(s: Bytes, b: Byte): Option<Bytes> {
    if s != [] && s[0] == b then Some(s[1..]) else None
  }

  /** `json_string` */
  function TakeText(s: Bytes): (r: Option<Read<Bytes>>)
    ensures r.Some? ==> |r.value.rest| < |s|
  {
    var inside :- TakeByte(s, QUOTE);
    var n := Span(inside, TextByte);
    var rest :- TakeByte(inside[n..], QUOTE);
    Some(Read(inside[..n], rest))
  }

  /** `skip_primitive` */
  function TakePrimitive(s: Bytes): Option<Read<Bytes>> {
    var n := Span(s, PrimitiveByte);
    if n == 0 then None else Some(Read(s[..n], s[n..]))
  }

  function TakeValue(s: Bytes, key: Bytes): Option<Read<Value>> {
    if Checked(key) || (s != [] && s[0] == QUOTE) then
      var text :- TakeText(s);
      Some(Read(Text(text.value), text.rest))
    else
      var primitive :- TakePrimitive(s);
      Some(Read(Primitive(primitive.value), primitive.rest))
  }

  function TakeMember(s: Bytes): (r: Option<Read<Member>>)
    ensures r.Some? ==> |r.value.rest| < |s|
  {
    var ws1 := TakeWs(s);
    var key :- TakeText(ws1.rest);
    var ws2 := TakeWs(key.rest);
    var afterColon :- TakeByte(ws2.rest, COLON);
    var ws3 := TakeWs(afterColon);
    var value :- TakeValue(ws3.rest, key.value);
    var ws4 := TakeWs(value.rest);
    Some(Read(Member(ws1.value, key.value, ws2.value, ws3.value, value.value, ws4.value), ws4.rest))
  }

  /** The recogniser's loop: what it reads from behind the opening brace. */
  function TakeBody(s: Bytes): Option<Read<Body>>
    decreases |s|
  {
    var ws := TakeWs(s);
    if TakeByte(ws.rest, CLOSE).Some? then Some(Read(Body([], ws.value), ws.rest[1..]))
    else
      var m :- TakeMember(s);
      var comma := TakeByte(m.rest, COMMA).Some?;
      if !comma && TakeByte(m.rest, CLOSE).None? then None
      else
        var b :- TakeBody(if comma then m.rest[1..] else m.rest);
        Some(Read(Body([Item(m.value, comma)] + b.value.items, b.value.ws), b.rest))
  }

  function ParseDocument(json: Bytes): Option<Document> {
    var ws := TakeWs(json);
    var open :- TakeByte(ws.rest, OPEN);
    var body :- TakeBody(open);
    var end := TakeWs(body.rest);
    if end.rest == [] then Some(Document(ws.value, body.value, end.value)) else None
  }

  // ----- The reader reads the grammar -----

  lemma TakeWsIs(s: Bytes, w: Bytes, r: Bytes)
    ensures TakeWs(s) == Read(w, r) <==> All(w, Whitespace) && s == w + r && StartsOutside(r, Whitespace)
  {
    if s == w + r {
      assert s[..|w|] == w && s[|w|..] == r;
      SpanIs(s, Whitespace, |w|);
    }
    var n := Span(s, Whitespace);
    SpanIs(s, Whitespace, n);
    assert s == s[..n] + s[n..];
  }

  lemma TakeTextIs(s: Bytes, c: Bytes, r: Bytes)
    ensures TakeText(s) == Some(Read(c, r)) <==> All(c, TextByte) && s == TextBytes(c) + r
  {
    if TakeText(s) == Some(Read(c, r)) {
      var inside := s[1..];
      SpanIs(inside, TextByte, |c|);
      assert inside == c + inside[|c|..] && inside[|c|..] == [QUOTE] + r;
    }
    if All(c, TextByte) && s == TextBytes(c) + r {
      var inside := s[1..];
      assert inside == c + ([QUOTE] + r);
      assert inside[..|c|] == c && inside[|c|..] == [QUOTE] + r;
      SpanIs(inside, TextByte, |c|);
    }
  }

  lemma TakePrimitiveIs(s: Bytes, c: Bytes, r: Bytes)
    ensures TakePrimitive(s) == Some(Read(c, r)) <==>
            c != [] && All(c, PrimitiveByte) && s == c + r && StartsOutside(r, PrimitiveByte)
  {
    if s == c + r {
      assert s[..|c|] == c && s[|c|..] == r;
      SpanIs(s, PrimitiveByte, |c|);
    }
    var n := Span(s, PrimitiveByte);
    SpanIs(s, PrimitiveByte, n);
    assert s == s[..n] + s[n..];
  }

  lemma TakeValueIs(s: Bytes, key: Bytes, v: Value, r: Bytes)
    ensures TakeValue(s, key) == Some(Read(v, r)) <==>
            && ValidValue(v) && (Checked(key) ==> v.Text?)
            && s == ValueBytes(v) + r
            && (v.Primitive? ==> StartsOutside(r, PrimitiveByte))
  {
    hide TakeText;
    hide TakePrimitive;
    hide Checked;
    if v.Text? {
      TakeTextIs(s, v.content, r);
    } else {
      TakePrimitiveIs(s, v.content, r);
    }
  }

  /** The bytes of a member, cut after each part the reader takes. */
  lemma MemberParts(m: Member, r: Bytes)
    ensures var afterKey := m.wsColon + ([COLON] + (m.wsValue + (ValueBytes(m.value) + (m.wsEnd + r))));
            MemberBytes(m) + r == m.wsKey + (TextBytes(m.key) + afterKey)
  {
  }

  /** What may follow a member for the reader to stop where the member ends. */
  predicate EndsMember(m: Member, r: Bytes) {
    StartsOutside(r, Whitespace) && (m.value.Primitive? && m.wsEnd == [] ==> StartsOutside(r, PrimitiveByte))
  }

  lemma TakeMemberGives(s: Bytes, m: Member, r: Bytes)
    requires TakeMember(s) == Some(Read(m, r))
    ensures ValidMember(m) && s == MemberBytes(m) + r && EndsMember(m, r)
  {
    hide TakeText;
    hide TakeValue;
    hide TakeWs;
    hide Checked;
    hide ValueBytes;
    hide TextBytes;
    var ws1 := TakeWs(s);
    var key := TakeText(ws1.rest).value;
    var ws2 := TakeWs(key.rest);
    var ws3 := TakeWs(ws2.rest[1..]);
    var value := TakeValue(ws3.rest, key.value).value;
    TakeWsIs(s, ws1.value, ws1.rest);
    TakeTextIs(ws1.rest, key.value, key.rest);
    TakeWsIs(key.rest, ws2.value, ws2.rest);
    assert ws2.rest == [COLON] + ws2.rest[1..];
    TakeWsIs(ws2.rest[1..], ws3.value, ws3.rest);
    TakeValueIs(ws3.rest, key.value, value.value, value.rest);
    TakeWsIs(value.rest, m.wsEnd, r);
    MemberParts(m, r);
    assert m.wsEnd == [] ==> value.rest == r;
  }

  lemma MemberIsTaken(s: Bytes, m: Member, r: Bytes)
    requires ValidMember(m) && s == MemberBytes(m) + r && EndsMember(m, r)
    ensures TakeMember(s) == Some(Read(m, r))
    ensures TakeWs(s).rest != [] && TakeWs(s).rest[0] == QUOTE
  {
    hide TakeText;
    hide TakeValue;
    hide TakeWs;
    hide Checked;
    MemberParts(m, r);
    var afterValue := m.wsEnd + r;
    var afterWs3 := ValueBytes(m.value) + afterValue;
    var afterColon := m.wsValue + afterWs3;
    var afterKey := m.wsColon + ([COLON] + afterColon);
    TakeWsIs(s, m.wsKey, TextBytes(m.key) + afterKey);
    TakeTextIs(TextBytes(m.key) + afterKey, m.key, afterKey);
    TakeWsIs(afterKey, m.wsColon, [COLON] + afterColon);
    assert ([COLON] + afterColon)[1..] == afterColon;
    ValueStarts(m.value, afterValue);
    TakeWsIs(afterColon, m.wsValue, afterWs3);
    if m.wsEnd == [] {
      assert afterValue == r;
    } else {
      assert m.wsEnd[0] in m.wsEnd && afterValue[0] == m.wsEnd[0];
    }
    TakeValueIs(afterWs3, m.key, m.value, afterValue);
    TakeWsIs(afterValue, m.wsEnd, r);
  }

  lemma ValueStarts(v: Value, r: Bytes)
    requires ValidValue(v)
    ensures StartsOutside(ValueBytes(v) + r, Whitespace)
  {
    if v.Primitive? {
      assert v.content[0] in v.content && (ValueBytes(v) + r)[0] == v.content[0];
    }
  }

  lemma {:induction false} TakeBodyGives(s: Bytes, b: Body, r: Bytes)
    requires TakeBody(s) == Some(Read(b, r))
    ensures ValidBody(b) && s == BodyBytes(b) + r
    decreases |s|
  {
    hide TakeMember;
    hide MemberBytes;
    hide TakeWs;
    hide ValidMember;
    var ws := TakeWs(s);
    TakeWsIs(s, ws.value, ws.rest);
    if TakeByte(ws.rest, CLOSE).Some? {
      assert ws.rest == [CLOSE] + r;
    } else {
      hide ValidBody;
      hide BodyBytes;
      hide EndsMember;
      var m := TakeMember(s).value;
      TakeMemberGives(s, m.value, m.rest);
      var comma := TakeByte(m.rest, COMMA).Some?;
      var separator: Bytes := if comma then [COMMA] else [];
      var next := if comma then m.rest[1..] else m.rest;
      var tail := TakeBody(next).value.value;
      TakeBodyGives(next, tail, r);
      if !comma {
        ClosedBody(next, tail, r);
      }
      BodyCons(Item(m.value, comma), tail);
      assert m.rest == separator + next;
      Reassociate(MemberBytes(m.value), separator, BodyBytes(tail), r);
    }
  }

  lemma Reassociate(a: Bytes, b: Bytes, c: Bytes, d: Bytes)
    ensures a + (b + (c + d)) == a + (b + c) + d
  {
  }

  /** Behind a member without a comma the reader finds the closing brace and nothing else. */
  lemma ClosedBody(s: Bytes, b: Body, r: Bytes)
    requires TakeBody(s) == Some(Read(b, r)) && TakeByte(s, CLOSE).Some?
    ensures b == Body([], [])
  {
    hide TakeMember;
    hide TakeWs;
    assert [] + s == s;
    TakeWsIs(s, [], s);
  }

  lemma BodyCons(item: Item, tail: Body)
    ensures BodyBytes(Body([item] + tail.items, tail.ws)) ==
            MemberBytes(item.member) + ((if item.comma then [COMMA] else []) + BodyBytes(tail))
    ensures ValidBody(tail) && ValidMember(item.member) && (!item.comma ==> tail == Body([], [])) ==>
              ValidBody(Body([item] + tail.items, tail.ws))
  {
    hide MemberBytes;
    hide ValidMember;
    assert ([item] + tail.items)[1..] == tail.items;
    assert Body(tail.items, tail.ws) == tail;
  }

  lemma ValidTail(b: Body)
    requires ValidBody(b) && b.items != []
    ensures ValidMember(b.items[0].member) && ValidBody(Body(b.items[1..], b.ws))
    ensures !b.items[0].comma ==> b.items[1..] == [] && b.ws == []
  {
    hide ValidMember;
    assert forall i | 0 <= i < |b.items| - 1 :: b.items[1..][i] == b.items[i + 1];
  }

  /** What follows a member: its comma and the next part, or the closing brace. */
  lemma TailStarts(b: Body, r: Bytes)
    requires ValidBody(b) && b.items != []
    ensures var next := BodyBytes(Body(b.items[1..], b.ws)) + r;
            var rest := if b.items[0].comma then [COMMA] + next else next;
            && BodyBytes(b) + r == MemberBytes(b.items[0].member) + rest
            && EndsMember(b.items[0].member, rest)
            && rest != [] && (rest[0] == COMMA <==> b.items[0].comma) && (!b.items[0].comma ==> rest[0] == CLOSE)
  {
    hide MemberBytes;
    ValidTail(b);
  }

  lemma {:induction false} BodyIsTaken(s: Bytes, b: Body, r: Bytes)
    requires ValidBody(b) && s == BodyBytes(b) + r
    ensures TakeBody(s) == Some(Read(b, r))
    decreases |b.items|
  {
    hide TakeMember;
    hide MemberBytes;
    hide TakeWs;
    hide ValidMember;
    hide EndsMember;
    if b.items == [] {
      assert s == b.ws + ([CLOSE] + r);
      TakeWsIs(s, b.ws, [CLOSE] + r);
      assert ([CLOSE] + r)[1..] == r;
    } else {
      hide ValidBody;
      hide BodyBytes;
      var m, comma, tail := b.items[0].member, b.items[0].comma, Body(b.items[1..], b.ws);
      var next := BodyBytes(tail) + r;
      var rest := if comma then [COMMA] + next else next;
      ValidTail(b);
      TailStarts(b, r);
      MemberIsTaken(s, m, rest);
      BodyIsTaken(next, tail, r);
      assert comma ==> rest[1..] == next;
      assert b.items == [Item(m, comma)] + tail.items;
    }
  }

  /** The grammar's reading of a byte string, if there is one, is unique and is what the reader finds. */
  lemma ParsedDocumentIsRead(json: Bytes, d: Document)
    ensures ParseDocument(json) == Some(d) <==> ValidDocument(d) && json == DocumentBytes(d)
  {
    hide TakeBody;
    hide BodyBytes;
    hide ValidBody;
    hide TakeWs;
    if ParseDocument(json) == Some(d) {
      var ws := TakeWs(json);
      TakeWsIs(json, ws.value, ws.rest);
      var open := ws.rest[1..];
      assert ws.rest == [OPEN] + open;
      var body := TakeBody(open).value;
      TakeBodyGives(open, body.value, body.rest);
      TakeWsIs(body.rest, d.wsEnd, []);
    }
    if ValidDocument(d) && json == DocumentBytes(d) {
      var inside := BodyBytes(d.body) + d.wsEnd;
      TakeWsIs(json, d.wsStart, [OPEN] + inside);
      assert ([OPEN] + inside)[1..] == inside;
      BodyIsTaken(inside, d.body, d.wsEnd);
      assert d.wsEnd == d.wsEnd + [];
      TakeWsIs(d.wsEnd, d.wsEnd, []);
    }
  }

  // ----- What the document must say -----

  /** The key occurs exactly once at the top level, with the expected string for its value. */
  predicate CarriesOnce(items: seq<Item>, key: Bytes, expected: Bytes) {
    exists i | 0 <= i < |items| ::
      && items[i].member.key == key && items[i].member.value == Text(expected)
      && forall j | 0 <= j < |items| && items[j].member.key == key :: j == i
  }

  /** A document that binds an assertion to a challenge and an origin. */
  predicate Binds(d: Document, challenge: Bytes, origin: Bytes) {
    && CarriesOnce(d.body.items, TYPE, WEBAUTHN_GET)
    && CarriesOnce(d.body.items, CHALLENGE, challenge)
    && CarriesOnce(d.body.items, ORIGIN, origin)
  }

  ghost predicate AcceptedClientData(json: Bytes, challenge: Bytes, origin: Bytes) {
    exists d :: ValidDocument(d) && json == DocumentBytes(d) && Binds(d, challenge, origin)
  }

  // ----- The recogniser -----

  /** The three flags of the loop. */
  datatype Found = Found(typ: bool, challenge: bool, origin: bool)

  const NOTHING: Found := Found(false, false, false)
  const EVERYTHING: Found := Found(true, true, true)

  /** One member's effect on the flags; a repeated key or an unexpected value fails. */
  function Note(f: Found, m: Member, challenge: Bytes, origin: Bytes): Option<Found> {
    if m.key == TYPE then if f.typ || m.value != Text(WEBAUTHN_GET) then None else Some(f.(typ := true))
    else if m.key == CHALLENGE then
      if f.challenge || m.value != Text(challenge) then None else Some(f.(challenge := true))
    else if m.key == ORIGIN then if f.origin || m.value != Text(origin) then None else Some(f.(origin := true))
    else Some(f)
  }

  function Noted(items: seq<Item>, challenge: Bytes, origin: Bytes): Option<Found> {
    if items == [] then Some(NOTHING)
    else
      var f :- Noted(items[..|items| - 1], challenge, origin);
      Note(f, items[|items| - 1].member, challenge, origin)
  }

  /** What a flag says about the members read so far. */
  predicate Seen(items: seq<Item>, key: Bytes, expected: Bytes, found: bool) {
    if found then CarriesOnce(items, key, expected)
    else forall i | 0 <= i < |items| :: items[i].member.key != key
  }

  lemma SeenOneMore(init: seq<Item>, last: Item, key: Bytes, expected: Bytes, found: bool)
    ensures Seen(init + [last], key, expected, found) <==>
            if last.member.key == key
            then found && Seen(init, key, expected, false) && last.member.value == Text(expected)
            else Seen(init, key, expected, found)
  {
    var items := init + [last];
    assert forall i | 0 <= i < |init| :: items[i] == init[i];
    assert items[|init|] == last;
  }

  lemma {:induction false} NotedIs(items: seq<Item>, challenge: Bytes, origin: Bytes, f: Found)
    ensures Noted(items, challenge, origin) == Some(f) <==>
            && Seen(items, TYPE, WEBAUTHN_GET, f.typ)
            && Seen(items, CHALLENGE, challenge, f.challenge)
            && Seen(items, ORIGIN, origin, f.origin)
  {
    if items != [] {
      hide Seen;
      var init, last := items[..|items| - 1], items[|items| - 1];
      assert items == init + [last];
      SeenOneMore(init, last, TYPE, WEBAUTHN_GET, f.typ);
      SeenOneMore(init, last, CHALLENGE, challenge, f.challenge);
      SeenOneMore(init, last, ORIGIN, origin, f.origin);
      assert |TYPE| != |CHALLENGE| && |TYPE| != |ORIGIN| && |ORIGIN| != |CHALLENGE|;
      var k := last.member.key;
      var g := Found(f.typ && k != TYPE, f.challenge && k != CHALLENGE, f.origin && k != ORIGIN);
      NotedIs(init, challenge, origin, g);
      if Noted(init, challenge, origin).Some? {
        NotedIs(init, challenge, origin, Noted(init, challenge, origin).value);
      }
    }
  }

  lemma SpanSteps(json: Bytes, start: nat, at: nat, p: Byte -> bool)
    requires start <= at <= |json| && All(json[start..at], p)
    requires at == |json| || !p(json[at])
    ensures Span(json[start..], p) == at - start
    ensures json[start..][..at - start] == json[start..at] && json[start..][at - start..] == json[at..]
  {
    var s := json[start..];
    assert s[..at - start] == json[start..at];
    assert s[at - start..] == json[at..];
    SpanIs(s, p, at - start);
  }

  method SkipWs(json: Bytes, offset: nat) returns (next: nat)
    requires offset <= |json|
    ensures offset <= next <= |json|
    ensures TakeWs(json[offset..]) == Read(json[offset..next], json[next..])
  {
    hide Span;
    next := offset;
    while next < |json| && Whitespace(json[next])
      invariant offset <= next <= |json|
      invariant All(json[offset..next], Whitespace)
    {
      next := next + 1;
    }
    SpanSteps(json, offset, next, Whitespace);
  }

  method JsonString(json: Bytes, offset: nat) returns (value: Option<Bytes>, next: nat)
    requires offset <= |json|
    ensures value.Some? ==> offset < next <= |json|
    ensures TakeText(json[offset..]) == if value.None? then None else Some(Read(value.value, json[next..]))
  {
    hide Span;
    next := offset;
    if next == |json| || json[next] != QUOTE {
      return None, next;
    }
    assert json[offset..][1..] == json[offset + 1..];
    next := next + 1;
    var start := next;
    while next < |json|
      invariant offset + 1 == start <= next <= |json|
      invariant All(json[start..next], TextByte)
    {
      if json[next] == QUOTE {
        SpanSteps(json, start, next, TextByte);
        return Some(json[start..next]), next + 1;
      }
      if json[next] == BACKSLASH || json[next] < 0x20 {
        SpanSteps(json, start, next, TextByte);
        return None, next;
      }
      next := next + 1;
    }
    SpanSteps(json, start, next, TextByte);
    return None, next;
  }

  method SkipPrimitive(json: Bytes, offset: nat) returns (ok: bool, next: nat)
    requires offset <= |json|
    ensures ok ==> offset < next <= |json|
    ensures TakePrimitive(json[offset..]) == if ok then Some(Read(json[offset..next], json[next..])) else None
  {
    hide Span;
    next := offset;
    while next < |json|
      invariant offset <= next <= |json|
      invariant All(json[offset..next], PrimitiveByte)
    {
      if json[next] == COMMA || json[next] == CLOSE || Whitespace(json[next]) {
        break;
      }
      next := next + 1;
    }
    SpanSteps(json, offset, next, PrimitiveByte);
    ok := next != offset;
  }

  /** One turn of the recogniser's loop, from a member's key at `keyAt` to the byte behind the member. */
  method ReadMember(json: Bytes, ghost offset: nat, keyAt: nat, found: Found, challenge: Bytes, origin: Bytes)
    returns (r: Option<Found>, next: nat, ghost member: Member)
    requires offset <= keyAt <= |json| && TakeWs(json[offset..]) == Read(json[offset..keyAt], json[keyAt..])
    ensures r.Some? ==> && offset < next <= |json|
                        && TakeMember(json[offset..]) == Some(Read(member, json[next..]))
                        && r == Note(found, member, challenge, origin)
    ensures r.None? ==> || TakeMember(json[offset..]).None?
                        || Note(found, TakeMember(json[offset..]).value.value, challenge, origin).None?
  {
    hide TakeWs;
    hide TakeText;
    hide TakePrimitive;
    r, member := None, Member([], [], [], [], Text([]), []);
    ghost var wsKey := json[offset..keyAt];
    var key;
    key, next := JsonString(json, keyAt);
    if key.None? {
      return;
    }
    var colon := SkipWs(json, next);
    ghost var wsColon := json[next..colon];
    if colon == |json| || json[colon] != COLON {
      return;
    }
    assert TakeByte(json[colon..], COLON) == Some(json[colon + 1..]);
    var valueAt := SkipWs(json, colon + 1);
    ghost var wsValue := json[colon + 1..valueAt];
    ghost var value: Value;
    var flags := found;
    if Checked(key.value) {
      var content;
      content, next := JsonString(json, valueAt);
      if content.None? {
        return;
      }
      value := Text(content.value);
      var seen, expected :=
        if key.value == TYPE then found.typ else if key.value == CHALLENGE then found.challenge else found.origin,
        if key.value == TYPE then WEBAUTHN_GET else if key.value == CHALLENGE then challenge else origin;
      if seen || content.value != expected {
        return;
      }
      flags := if key.value == TYPE then found.(typ := true)
               else if key.value == CHALLENGE then found.(challenge := true)
               else found.(origin := true);
    } else if valueAt < |json| && json[valueAt] == QUOTE {
      var content;
      content, next := JsonString(json, valueAt);
      if content.None? {
        return;
      }
      value := Text(content.value);
    } else {
      var ok;
      ok, next := SkipPrimitive(json, valueAt);
      if !ok {
        return;
      }
      value := Primitive(json[valueAt..next]);
    }
    ghost var valueEnd := next;
    next := SkipWs(json, next);
    member := Member(wsKey, key.value, wsColon, wsValue, value, json[valueEnd..next]);
    r := Some(flags);
  }

  /** A failed fold stays failed whatever members follow. */
  lemma {:induction false} NotedPrefix(items: seq<Item>, more: seq<Item>, challenge: Bytes, origin: Bytes)
    requires Noted(items, challenge, origin).None?
    ensures Noted(items + more, challenge, origin).None?
  {
    if more == [] {
      assert items + more == items;
    } else {
      var init := more[..|more| - 1];
      assert (items + more)[..|items + more| - 1] == items + init;
      NotedPrefix(items, init, challenge, origin);
    }
  }

  /** Acceptance, through the reader and the fold of the flags. */
  lemma AcceptedIsParsedAndNoted(json: Bytes, challenge: Bytes, origin: Bytes)
    ensures AcceptedClientData(json, challenge, origin) <==>
            && ParseDocument(json).Some?
            && Noted(ParseDocument(json).value.body.items, challenge, origin) == Some(EVERYTHING)
  {
    hide ParseDocument;
    hide Noted;
    hide ValidDocument;
    hide DocumentBytes;
    hide CarriesOnce;
    var p := ParseDocument(json);
    if p.Some? {
      ParsedDocumentIsRead(json, p.value);
      NotedIs(p.value.body.items, challenge, origin, EVERYTHING);
    }
    forall d | ValidDocument(d) && json == DocumentBytes(d) ensures p == Some(d) {
      ParsedDocumentIsRead(json, d);
    }
  }

  /** A body read behind some members. */
  function Prepended(items: seq<Item>, b: Option<Read<Body>>): Option<Read<Body>> {
    if b.None? then None else Some(Read(Body(items + b.value.value.items, b.value.value.ws), b.value.rest))
  }

  lemma PrependedTwice(items: seq<Item>, item: Item, b: Option<Read<Body>>)
    ensures Prepended([], b) == b
    ensures Prepended(items, Prepended([item], b)) == Prepended(items + [item], b)
  {
    if b.Some? {
      assert [] + b.value.value.items == b.value.value.items;
      assert items + ([item] + b.value.value.items) == items + [item] + b.value.value.items;
    }
  }

  /** What one turn of the loop means for the body being read. */
  lemma BodyTurn(json: Bytes, offset: nat, next: nat, member: Member)
    requires offset <= next <= |json| && TakeMember(json[offset..]) == Some(Read(member, json[next..]))
    requires TakeByte(TakeWs(json[offset..]).rest, CLOSE).None?
    ensures var comma := next < |json| && json[next] == COMMA;
            TakeBody(json[offset..]) ==
            if !comma && (next == |json| || json[next] != CLOSE) then None
            else Prepended([Item(member, comma)], TakeBody(json[if comma then next + 1 else next..]))
  {
    hide TakeMember;
    hide TakeWs;
    if next < |json| {
      assert json[next..][1..] == json[next + 1..];
    }
  }

  /** The verifier's `validate_client_data` accepts exactly the documents of the grammar that bind. */
  method ValidateClientData(json: Bytes, challenge: Bytes, origin: Bytes) returns (ok: bool)
    ensures ok <==> AcceptedClientData(json, challenge, origin)
  {
    hide AcceptedClientData;
    hide TakeWs;
    hide TakeMember;
    hide TakeBody;
    hide Note;
    AcceptedIsParsedAndNoted(json, challenge, origin);
    assert json[0..] == json;
    var offset := SkipWs(json, 0);
    if offset == |json| || json[offset] != OPEN {
      return false;
    }
    assert json[offset..][1..] == json[offset + 1..];
    offset := offset + 1;
    ghost var total := TakeBody(json[offset..]);
    ghost var items: seq<Item> := [];
    var found := NOTHING;
    PrependedTwice([], Item(Member([], [], [], [], Text([]), []), false), total);
    while true
      invariant offset <= |json|
      invariant Noted(items, challenge, origin) == Some(found)
      invariant total == Prepended(items, TakeBody(json[offset..]))
      decreases |json| - offset
    {
      var keyAt := SkipWs(json, offset);
      if keyAt < |json| && json[keyAt] == CLOSE {
        ClosingTurn(json, offset, keyAt);
        assert items + [] == items;
        offset := keyAt + 1;
        break;
      }
      var noted, next;
      ghost var member;
      noted, next, member := ReadMember(json, offset, keyAt, found, challenge, origin);
      if noted.None? {
        FailedTurn(json, offset, found, items, challenge, origin);
        return false;
      }
      BodyTurn(json, offset, next, member);
      var comma := next < |json| && json[next] == COMMA;
      if !comma && (next == |json| || json[next] != CLOSE) {
        return false;
      }
      ghost var item := Item(member, comma);
      assert (items + [item])[..|items|] == items;
      offset := if comma then next + 1 else next;
      PrependedTwice(items, item, TakeBody(json[offset..]));
      items, found := items + [item], noted.value;
    }
    var end := SkipWs(json, offset);
    ok := end == |json| && found.typ && found.challenge && found.origin;
  }

  lemma ClosingTurn(json: Bytes, offset: nat, keyAt: nat)
    requires offset <= keyAt < |json| && json[keyAt] == CLOSE
    requires TakeWs(json[offset..]) == Read(json[offset..keyAt], json[keyAt..])
    ensures TakeBody(json[offset..]) == Some(Read(Body([], json[offset..keyAt]), json[keyAt + 1..]))
  {
    hide TakeWs;
    hide TakeMember;
    assert json[keyAt..][1..] == json[keyAt + 1..];
  }

  /** When a turn fails, the document cannot be accepted. */
  lemma FailedTurn(json: Bytes, offset: nat, found: Found, items: seq<Item>, challenge: Bytes, origin: Bytes)
    requires offset <= |json| && Noted(items, challenge, origin) == Some(found)
    requires TakeByte(TakeWs(json[offset..]).rest, CLOSE).None?
    requires || TakeMember(json[offset..]).None?
             || Note(found, TakeMember(json[offset..]).value.value, challenge, origin).None?
    ensures var b := TakeBody(json[offset..]);
            b.Some? ==> Noted(items + b.value.value.items, challenge, origin).None?
  {
    hide TakeWs;
    hide TakeMember;
    hide Note;
    var b := TakeBody(json[offset..]);
    if b.Some? {
      var first, rest := b.value.value.items[0], b.value.value.items[1..];
      assert (items + [first])[..|items|] == items;
      NotedPrefix(items + [first], rest, challenge, origin);
      assert items + b.value.value.items == items + [first] + rest;
    }
  }
}
