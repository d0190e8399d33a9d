/**
 * Client data as a conforming browser writes it, by the serialization of section 5.8.1.1 of W3C WebAuthn Level 2
 * (type, challenge, origin, crossOrigin), is accepted; and two ways in which the recogniser is stricter than JSON.
 */
module BrowserData {
  import opened Bytes
  import opened ClientData
  import opened Words
  import Base64Url

  // "crossOrigin", "true" and "false"
  const CROSS_ORIGIN: Bytes := [0x63, 0x72, 0x6f, 0x73, 0x73, 0x4f, 0x72, 0x69, 0x67, 0x69, 0x6e]
  const TRUE: Bytes := [0x74, 0x72, 0x75, 0x65]
  const FALSE: Bytes := [0x66, 0x61, 0x6c, 0x73, 0x65]

  function BooleanBytes(b: bool): Bytes {
    if b then TRUE else FALSE
  }

  /** "key":value */
  function Pair(key: Bytes, value: Bytes): Bytes {
    TextBytes(key) + ([COLON] + value)
  }

  /** The four pairs, with commas between them; strings of such bytes need no escape. */
  function FourPairs(challenge: Bytes, origin: Bytes, crossOrigin: bool): Bytes {
    Pair(TYPE, TextBytes(WEBAUTHN_GET)) + ([COMMA] + (Pair(CHALLENGE, TextBytes(challenge)) + ([COMMA]
    + (Pair(ORIGIN, TextBytes(origin)) + ([COMMA] + Pair(CROSS_ORIGIN, BooleanBytes(crossOrigin)))))))
  }

  /** The limited serialization. */
  function Written(challenge: Bytes, origin: Bytes, crossOrigin: bool): Bytes {
    [OPEN] + FourPairs(challenge, origin, crossOrigin) + [CLOSE]
  }

  lemma KeysAreSpelled()
    ensures TYPE == Ascii("type")
    ensures CHALLENGE == Ascii("challenge")
    ensures ORIGIN == Ascii("origin")
  {
    assert forall i | 0 <= i < 4 :: TYPE[i] == Ascii("type")[i];
    assert forall i | 0 <= i < 9 :: CHALLENGE[i] == Ascii("challenge")[i];
    assert forall i | 0 <= i < 6 :: ORIGIN[i] == Ascii("origin")[i];
  }

  lemma CrossOriginIsSpelled()
    ensures CROSS_ORIGIN == Ascii("crossOrigin")
  {
    assert forall i | 0 <= i < 11 :: CROSS_ORIGIN[i] == Ascii("crossOrigin")[i];
  }

  lemma TypeValueIsSpelled()
    ensures WEBAUTHN_GET == Ascii("webauthn.get")
  {
    assert forall i | 0 <= i < 12 :: WEBAUTHN_GET[i] == Ascii("webauthn.get")[i];
  }

  lemma BooleansAreSpelled()
    ensures TRUE == Ascii("true")
    ensures FALSE == Ascii("false")
  {
    assert forall i | 0 <= i < 4 :: TRUE[i] == Ascii("true")[i];
    assert forall i | 0 <= i < 5 :: FALSE[i] == Ascii("false")[i];
  }

  lemma NamesAreSpelled()
    ensures TYPE == Ascii("type") && CHALLENGE == Ascii("challenge") && ORIGIN == Ascii("origin")
    ensures CROSS_ORIGIN == Ascii("crossOrigin") && WEBAUTHN_GET == Ascii("webauthn.get")
    ensures TRUE == Ascii("true") && FALSE == Ascii("false")
  {
    hide Ascii;
    KeysAreSpelled();
    CrossOriginIsSpelled();
    TypeValueIsSpelled();
    BooleansAreSpelled();
  }

  /** "name":value, spelled out. */
  function Spelled(name: string, value: Bytes): Bytes
    requires forall c | c in name :: c < 0x80 as char
  {
    Ascii("\"") + Ascii(name) + Ascii("\":") + value
  }

  function Quoted(content: Bytes): Bytes {
    Ascii("\"") + content + Ascii("\"")
  }

  lemma PairIsSpelled(name: string, value: Bytes)
    requires forall c | c in name :: c < 0x80 as char
    ensures Pair(Ascii(name), value) == Spelled(name, value)
  {
    var n := Ascii(name);
    assert Ascii("\"") == [QUOTE] && Ascii("\":") == [QUOTE, COLON];
    assert [QUOTE, COLON] == [QUOTE] + [COLON];
  }

  /** The text of the serialization: {"type":"webauthn.get","challenge":"..","origin":"..","crossOrigin":..} */
  lemma WrittenIsSpelled(challenge: Bytes, origin: Bytes, crossOrigin: bool)
    ensures Written(challenge, origin, crossOrigin) ==
            Ascii("{") + (Spelled("type", Quoted(Ascii("webauthn.get"))) + (Ascii(",")
            + (Spelled("challenge", Quoted(challenge)) + (Ascii(",")
            + (Spelled("origin", Quoted(origin)) + (Ascii(",")
            + Spelled("crossOrigin", Ascii(if crossOrigin then "true" else "false")))))))) + Ascii("}")
  {
    hide Pair;
    hide Spelled;
    hide Ascii;
    NamesAreSpelled();
    QuotesAreText(WEBAUTHN_GET);
    QuotesAreText(challenge);
    QuotesAreText(origin);
    Punctuation();
    PairIsSpelled("type", TextBytes(WEBAUTHN_GET));
    PairIsSpelled("challenge", TextBytes(challenge));
    PairIsSpelled("origin", TextBytes(origin));
    PairIsSpelled("crossOrigin", BooleanBytes(crossOrigin));
  }

  lemma QuotesAreText(content: Bytes)
    ensures Quoted(content) == TextBytes(content)
  {
    assert Ascii("\"") == [QUOTE];
  }

  lemma Punctuation()
    ensures Ascii("{") == [OPEN] && Ascii("}") == [CLOSE] && Ascii(",") == [COMMA]
  {
  }

  /** White space is space, tab, line feed and carriage return; a string byte is none of the control characters,
      the quote and the backslash; an unquoted byte is neither a comma, a closing brace nor white space. */
  lemma BytesAreClassified(b: Byte)
    ensures Whitespace(b) <==> [b] == Ascii(" ") || [b] == Ascii("\t") || [b] == Ascii("\n") || [b] == Ascii("\r")
    ensures TextByte(b) <==> b >= 32 && [b] != Ascii("\"") && [b] != Ascii("\\")
    ensures PrimitiveByte(b) <==> [b] != Ascii(",") && [b] != Ascii("}") && !Whitespace(b)
  {
    assert Ascii(" ")[0] == 0x20 && Ascii("\t")[0] == 9 && Ascii("\n")[0] == 10 && Ascii("\r")[0] == 13;
    assert Ascii("\"")[0] == 0x22 && Ascii("\\")[0] == 0x5c && Ascii(",")[0] == 0x2c && Ascii("}")[0] == 0x7d;
    assert [b][0] == b;
  }

  function PlainMember(key: Bytes, value: Value): Member {
    Member([], key, [], [], value, [])
  }

  function FourMembers(challenge: Bytes, origin: Bytes, crossOrigin: bool): seq<Member> {
    [PlainMember(TYPE, Text(WEBAUTHN_GET)), PlainMember(CHALLENGE, Text(challenge)),
     PlainMember(ORIGIN, Text(origin)), PlainMember(CROSS_ORIGIN, Primitive(BooleanBytes(crossOrigin)))]
  }

  function FourItems(challenge: Bytes, origin: Bytes, crossOrigin: bool, more: bool): seq<Item> {
    var ms := FourMembers(challenge, origin, crossOrigin);
    [Item(ms[0], true), Item(ms[1], true), Item(ms[2], true), Item(ms[3], more)]
  }

  lemma PlainMemberBytes(key: Bytes, value: Value)
    ensures MemberBytes(PlainMember(key, value)) == Pair(key, ValueBytes(value))
  {
  }

  lemma PlainIsValid(key: Bytes, value: Value)
    requires All(key, TextByte) && ValidValue(value) && (Checked(key) ==> value.Text?)
    ensures ValidMember(PlainMember(key, value))
  {
    hide TextByte;
    hide Checked;
    hide ValidValue;
  }

  lemma NamesAreText()
    ensures All(TYPE, TextByte) && All(CHALLENGE, TextByte) && All(ORIGIN, TextByte) && All(CROSS_ORIGIN, TextByte)
    ensures All(WEBAUTHN_GET, TextByte)
    ensures |TYPE| == 4 && |CHALLENGE| == 9 && |ORIGIN| == 6 && |CROSS_ORIGIN| == 11
  {
  }

  lemma BooleansArePrimitive(b: bool)
    ensures ValidValue(Primitive(BooleanBytes(b)))
  {
  }

  lemma FourAreValid(challenge: Bytes, origin: Bytes, crossOrigin: bool, more: bool)
    requires All(challenge, TextByte) && All(origin, TextByte)
    ensures var items := FourItems(challenge, origin, crossOrigin, more);
            && |items| == 4
            && (forall i | 0 <= i < 4 :: ValidMember(items[i].member))
            && (forall i | 0 <= i < 4 :: items[i].comma == (i < 3 || more))
            && (forall i | 0 <= i < 4 :: items[i].member == FourMembers(challenge, origin, crossOrigin)[i])
  {
    hide All;
    hide ValidMember;
    hide PlainMember;
    hide BooleanBytes;
    NamesAreText();
    BooleansArePrimitive(crossOrigin);
    PlainIsValid(TYPE, Text(WEBAUTHN_GET));
    PlainIsValid(CHALLENGE, Text(challenge));
    PlainIsValid(ORIGIN, Text(origin));
    PlainIsValid(CROSS_ORIGIN, Primitive(BooleanBytes(crossOrigin)));
  }

  /** The bytes of a body that goes on behind the four pairs. */
  lemma FourItemsBytes(challenge: Bytes, origin: Bytes, crossOrigin: bool, more: bool, rest: Body)
    ensures BodyBytes(Body(FourItems(challenge, origin, crossOrigin, more) + rest.items, rest.ws)) ==
            FourPairs(challenge, origin, crossOrigin) + ((if more then [COMMA] else []) + BodyBytes(rest))
  {
    hide MemberBytes;
    hide BodyBytes;
    hide ValidBody;
    hide ValidMember;
    hide Pair;
    hide TextBytes;
    hide PlainMember;
    hide BooleanBytes;
    var items, ms := FourItems(challenge, origin, crossOrigin, more), FourMembers(challenge, origin, crossOrigin);
    PlainMemberBytes(TYPE, Text(WEBAUTHN_GET));
    PlainMemberBytes(CHALLENGE, Text(challenge));
    PlainMemberBytes(ORIGIN, Text(origin));
    PlainMemberBytes(CROSS_ORIGIN, Primitive(BooleanBytes(crossOrigin)));
    BodyCons(items[3], rest);
    var b3 := Body([items[3]] + rest.items, rest.ws);
    BodyCons(items[2], b3);
    var b2 := Body([items[2]] + b3.items, rest.ws);
    BodyCons(items[1], b2);
    var b1 := Body([items[1]] + b2.items, rest.ws);
    BodyCons(items[0], b1);
    assert [items[0]] + b1.items == items + rest.items;
    Associate(MemberBytes(ms[0]), MemberBytes(ms[1]), MemberBytes(ms[2]), MemberBytes(ms[3]), [COMMA],
              (if more then [COMMA] else []) + BodyBytes(rest));
  }

  lemma Associate(a: Bytes, b: Bytes, c: Bytes, d: Bytes, comma: Bytes, r: Bytes)
    ensures a + (comma + (b + (comma + (c + (comma + (d + r)))))) ==
            a + (comma + (b + (comma + (c + (comma + d))))) + r
  {
  }

  lemma FourBind(challenge: Bytes, origin: Bytes, crossOrigin: bool, d: Document)
    requires d.body.items == FourItems(challenge, origin, crossOrigin, false)
    ensures Binds(d, challenge, origin)
  {
    var items := d.body.items;
    assert |TYPE| == 4 && |CHALLENGE| == 9 && |ORIGIN| == 6 && |CROSS_ORIGIN| == 11;
    assert items[0].member.key == TYPE && items[1].member.key == CHALLENGE && items[2].member.key == ORIGIN;
    assert items[0].member.value == Text(WEBAUTHN_GET) && items[1].member.value == Text(challenge);
    assert items[2].member.value == Text(origin) && items[3].member.key == CROSS_ORIGIN;
  }

  /** What a browser writes for any challenge and any origin that needs no escape is accepted for them. */
  lemma WrittenIsAccepted(challenge: Bytes, origin: Bytes, crossOrigin: bool)
    requires All(challenge, TextByte) && All(origin, TextByte)
    ensures AcceptedClientData(Written(challenge, origin, crossOrigin), challenge, origin)
  {
    hide FourItems;
    hide FourPairs;
    hide ValidMember;
    hide Binds;
    hide BodyBytes;
    var items := FourItems(challenge, origin, crossOrigin, false);
    var d := Document([], Body(items, []), []);
    FourAreValid(challenge, origin, crossOrigin, false);
    FourItemsBytes(challenge, origin, crossOrigin, false, Body([], []));
    assert items + [] == items;
    assert BodyBytes(Body([], [])) == [CLOSE] by { EmptyBody(); }
    FourBind(challenge, origin, crossOrigin, d);
    assert ValidDocument(d) && Written(challenge, origin, crossOrigin) == DocumentBytes(d);
  }

  lemma EmptyBody()
    ensures BodyBytes(Body([], [])) == [CLOSE]
  {
  }

  lemma {:induction false} EncodedIsText(input: Bytes)
    ensures All(Base64Url.Encoded(input), TextByte)
    decreases |input|
  {
    if input != [] {
      EncodedIsText(if |input| <= 3 then [] else input[3..]);
    }
  }

  /** So the client data of every authorization digest and origin is accepted. */
  lemma DigestIsAccepted(digest: Digest, origin: Bytes, crossOrigin: bool)
    requires All(origin, TextByte)
    ensures var challenge := Base64Url.Encoded(digest);
            AcceptedClientData(Written(challenge, origin, crossOrigin), challenge, origin)
  {
    hide Base64Url.Encoded;
    EncodedIsText(digest);
    WrittenIsAccepted(Base64Url.Encoded(digest), origin, crossOrigin);
  }

  // ----- Each of the three, exactly once -----

  /** How often a key occurs among the members. */
  function KeyCount(items: seq<Item>, key: Bytes): nat {
    if items == [] then 0 else (if items[0].member.key == key then 1 else 0) + KeyCount(items[1..], key)
  }

  lemma {:induction false} NoKeyNoCount(items: seq<Item>, key: Bytes)
    ensures KeyCount(items, key) == 0 <==> forall i | 0 <= i < |items| :: items[i].member.key != key
  {
    if items != [] {
      NoKeyNoCount(items[1..], key);
      assert forall i | 0 <= i < |items| - 1 :: items[1..][i] == items[i + 1];
    }
  }

  lemma {:induction false} OneKeyIsCounted(items: seq<Item>, key: Bytes, i: nat)
    requires i < |items| && items[i].member.key == key
    ensures KeyCount(items, key) == 1 <==> forall j | 0 <= j < |items| && items[j].member.key == key :: j == i
  {
    var rest := items[1..];
    assert forall j | 0 <= j < |rest| :: rest[j] == items[j + 1];
    if i == 0 {
      NoKeyNoCount(rest, key);
    } else {
      OneKeyIsCounted(rest, key, i - 1);
      NoKeyNoCount(rest, key);
      assert rest[i - 1].member.key == key;
    }
  }

  lemma CarriedIsCounted(items: seq<Item>, key: Bytes, expected: Bytes)
    ensures CarriesOnce(items, key, expected) <==>
            && KeyCount(items, key) == 1
            && exists i :: 0 <= i < |items| && items[i].member.key == key && items[i].member.value == Text(expected)
  {
    forall i: nat | i < |items| && items[i].member.key == key
      ensures KeyCount(items, key) == 1 <==> forall j | 0 <= j < |items| && items[j].member.key == key :: j == i
    {
      OneKeyIsCounted(items, key, i);
    }
  }

  predicate HasText(items: seq<Item>, key: Bytes, expected: Bytes) {
    exists i :: 0 <= i < |items| && items[i].member.key == key && items[i].member.value == Text(expected)
  }

  /** A document is accepted exactly when each of the three keys occurs once, with the text it should have. */
  lemma AcceptedDocument(d: Document, challenge: Bytes, origin: Bytes)
    requires ValidDocument(d)
    ensures var items := d.body.items;
            AcceptedClientData(DocumentBytes(d), challenge, origin) <==>
            && KeyCount(items, Ascii("type")) == 1 && HasText(items, Ascii("type"), Ascii("webauthn.get"))
            && KeyCount(items, Ascii("challenge")) == 1 && HasText(items, Ascii("challenge"), challenge)
            && KeyCount(items, Ascii("origin")) == 1 && HasText(items, Ascii("origin"), origin)
  {
    hide ValidDocument;
    hide DocumentBytes;
    hide KeyCount;
    hide CarriesOnce;
    hide Ascii;
    NamesAreSpelled();
    CarriedIsCounted(d.body.items, TYPE, WEBAUTHN_GET);
    CarriedIsCounted(d.body.items, CHALLENGE, challenge);
    CarriedIsCounted(d.body.items, ORIGIN, origin);
    forall e | ValidDocument(e) && DocumentBytes(d) == DocumentBytes(e) ensures e == d {
      ParsedDocumentIsRead(DocumentBytes(d), d);
      ParsedDocumentIsRead(DocumentBytes(d), e);
    }
  }

  // ----- Stricter than JSON -----

  /** The same object with another member behind the four. */
  function WrittenWith(challenge: Bytes, origin: Bytes, crossOrigin: bool, more: Bytes): Bytes {
    [OPEN] + (FourPairs(challenge, origin, crossOrigin) + ([COMMA] + more))
  }

  lemma AcceptedIsRead(json: Bytes, challenge: Bytes, origin: Bytes)
    requires AcceptedClientData(json, challenge, origin)
    ensures ParseDocument(json).Some?
  {
    hide ParseDocument;
    hide ValidDocument;
    hide DocumentBytes;
    hide Binds;
    var d :| ValidDocument(d) && json == DocumentBytes(d) && Binds(d, challenge, origin);
    ParsedDocumentIsRead(json, d);
  }

  /** The reader behind one more member and its comma. */
  lemma BehindComma(m: Member, next: Bytes)
    requires ValidMember(m) && TakeBody(next).None?
    ensures TakeBody(MemberBytes(m) + ([COMMA] + next)).None?
  {
    hide TakeMember;
    hide TakeWs;
    hide MemberBytes;
    hide ValidMember;
    var s := MemberBytes(m) + ([COMMA] + next);
    MemberIsTaken(s, m, [COMMA] + next);
    assert ([COMMA] + next)[1..] == next;
  }

  lemma BehindFour(challenge: Bytes, origin: Bytes, crossOrigin: bool, more: Bytes)
    requires All(challenge, TextByte) && All(origin, TextByte) && TakeBody(more).None?
    ensures ParseDocument(WrittenWith(challenge, origin, crossOrigin, more)).None?
  {
    hide TakeBody;
    hide MemberBytes;
    hide ValidMember;
    hide Pair;
    hide Whitespace;
    hide TextBytes;
    hide PlainMember;
    hide BooleanBytes;
    var ms := FourMembers(challenge, origin, crossOrigin);
    FourAreValid(challenge, origin, crossOrigin, true);
    PlainMemberBytes(TYPE, Text(WEBAUTHN_GET));
    PlainMemberBytes(CHALLENGE, Text(challenge));
    PlainMemberBytes(ORIGIN, Text(origin));
    PlainMemberBytes(CROSS_ORIGIN, Primitive(BooleanBytes(crossOrigin)));
    var t3 := MemberBytes(ms[3]) + ([COMMA] + more);
    var t2 := MemberBytes(ms[2]) + ([COMMA] + t3);
    var t1 := MemberBytes(ms[1]) + ([COMMA] + t2);
    var t0 := MemberBytes(ms[0]) + ([COMMA] + t1);
    BehindComma(ms[3], more);
    BehindComma(ms[2], t3);
    BehindComma(ms[1], t2);
    BehindComma(ms[0], t1);
    Associate(MemberBytes(ms[0]), MemberBytes(ms[1]), MemberBytes(ms[2]), MemberBytes(ms[3]), [COMMA],
              [COMMA] + more);
    OpensWith(t0);
  }

  lemma OpensWith(inside: Bytes)
    requires TakeBody(inside).None?
    ensures ParseDocument([OPEN] + inside).None?
  {
    hide TakeBody;
    hide TakeWs;
    var json := [OPEN] + inside;
    assert [] + json == json;
    TakeWsIs(json, [], json);
    assert json[1..] == inside;
  }

  /** "a":"\n"} where the escape is a backslash and an n. */
  function Escaped(): Bytes {
    Pair([0x61], [QUOTE, BACKSLASH, 0x6e, QUOTE]) + [CLOSE]
  }

  lemma BackslashStops(s: Bytes)
    requires |s| > 1 && s[0] == QUOTE && s[1] == BACKSLASH
    ensures TakeText(s).None?
  {
    assert Span(s[1..], TextByte) == 0;
    assert s[1..][0..] == s[1..];
  }

  lemma NoSpace(s: Bytes)
    requires s != [] && !Whitespace(s[0])
    ensures TakeWs(s) == Read([], s)
  {
    assert [] + s == s;
    TakeWsIs(s, [], s);
  }

  lemma PairParts(key: Bytes, value: Bytes)
    requires All(key, TextByte)
    ensures Pair(key, value)[0] == QUOTE && TakeText(Pair(key, value)) == Some(Read(key, [COLON] + value))
  {
    hide TakeText;
    TakeTextIs(Pair(key, value), key, [COLON] + value);
  }

  /** No member is read whose string value starts with an escape. */
  lemma EscapedMember(key: Bytes, value: Bytes)
    requires All(key, TextByte) && |value| > 1 && value[0] == QUOTE && value[1] == BACKSLASH
    ensures TakeMember(Pair(key, value)).None? && TakeWs(Pair(key, value)).rest == Pair(key, value)
    ensures Pair(key, value)[0] == QUOTE
  {
    hide TakeWs;
    hide TakeText;
    hide TakePrimitive;
    hide Checked;
    hide Pair;
    hide All;
    var afterKey := [COLON] + value;
    PairParts(key, value);
    NoSpace(Pair(key, value));
    NoSpace(afterKey);
    assert afterKey[1..] == value;
    NoSpace(value);
    BackslashStops(value);
  }

  lemma EscapedIsNotTaken()
    ensures TakeBody(Escaped()).None?
  {
    hide TakeMember;
    hide TakeWs;
    hide Pair;
    var value := [QUOTE, BACKSLASH, 0x6e, QUOTE] + [CLOSE];
    assert Escaped() == Pair([0x61], value) by { PairAppend([0x61], [QUOTE, BACKSLASH, 0x6e, QUOTE], [CLOSE]); }
    EscapedMember([0x61], value);
  }

  lemma PairAppend(key: Bytes, value: Bytes, more: Bytes)
    ensures Pair(key, value) + more == Pair(key, value + more)
  {
    hide TextBytes;
  }

  /** A further member whose string has an escape makes the whole refused, whatever it is for. */
  lemma EscapesAreRefused(challenge: Bytes, origin: Bytes, crossOrigin: bool, c: Bytes, o: Bytes)
    requires All(challenge, TextByte) && All(origin, TextByte)
    ensures !AcceptedClientData(WrittenWith(challenge, origin, crossOrigin, Escaped()), c, o)
  {
    hide ParseDocument;
    hide AcceptedClientData;
    var json := WrittenWith(challenge, origin, crossOrigin, Escaped());
    EscapedIsNotTaken();
    BehindFour(challenge, origin, crossOrigin, Escaped());
    if AcceptedClientData(json, c, o) {
      AcceptedIsRead(json, c, o);
    }
  }

  // {"b":1 and 2
  const FIRST_PART: Bytes := [0x7b, 0x22, 0x62, 0x22, 0x3a, 0x31]
  const SECOND_PART: Bytes := [0x32]

  /** "a":{"b":1,"c":2}} */
  function Nested(): Bytes {
    Pair([0x61], FIRST_PART) + ([COMMA] + (Pair([0x63], SECOND_PART) + ([CLOSE] + [CLOSE])))
  }

  /** How the recogniser reads it: as two members with primitive values. */
  function NestedItems(): seq<Item> {
    [Item(PlainMember([0x61], Primitive(FIRST_PART)), true), Item(PlainMember([0x63], Primitive(SECOND_PART)), false)]
  }

  lemma NestedBytes()
    ensures BodyBytes(Body(NestedItems(), [])) + [CLOSE] == Nested()
  {
    hide BodyBytes;
    hide MemberBytes;
    hide ValidBody;
    hide ValidMember;
    hide Pair;
    hide PlainMember;
    var items := NestedItems();
    EmptyBody();
    BodyCons(items[1], Body([], []));
    BodyCons(items[0], Body([items[1]], []));
    assert [items[1]] + [] == [items[1]] && [items[0]] + [items[1]] == items;
    PlainMemberBytes([0x61], Primitive(FIRST_PART));
    PlainMemberBytes([0x63], Primitive(SECOND_PART));
    Regroup(Pair([0x61], FIRST_PART), [COMMA], Pair([0x63], SECOND_PART), [CLOSE], [CLOSE]);
  }

  lemma Regroup(a: Bytes, b: Bytes, c: Bytes, d: Bytes, e: Bytes)
    ensures a + (b + (c + ([] + d))) + e == a + (b + (c + (d + e)))
  {
    assert [] + d == d;
  }

  lemma NestedAreValid()
    ensures forall i | 0 <= i < 2 :: ValidMember(NestedItems()[i].member)
  {
    hide ValidMember;
    PlainIsValid([0x61], Primitive(FIRST_PART));
    PlainIsValid([0x63], Primitive(SECOND_PART));
  }

  /** A further member that is an object of several members makes the whole refused too: it ends too early. */
  lemma NestedObjectsAreRefused(challenge: Bytes, origin: Bytes, crossOrigin: bool, c: Bytes, o: Bytes)
    requires All(challenge, TextByte) && All(origin, TextByte)
    ensures !AcceptedClientData(WrittenWith(challenge, origin, crossOrigin, Nested()), c, o)
  {
    hide AcceptedClientData;
    hide ParseDocument;
    hide FourItems;
    hide NestedItems;
    hide Nested;
    hide FourPairs;
    hide ValidBody;
    hide BodyBytes;
    var json := WrittenWith(challenge, origin, crossOrigin, Nested());
    var pairs := FourPairs(challenge, origin, crossOrigin);
    var nested := Body(NestedItems(), []);
    var b := Body(FourItems(challenge, origin, crossOrigin, true) + NestedItems(), []);
    NestedBytes();
    FourItemsBytes(challenge, origin, crossOrigin, true, nested);
    FourThenTwo(challenge, origin, crossOrigin);
    assert BodyBytes(b) + [CLOSE] == pairs + ([COMMA] + Nested()) by {
      Push(pairs, [COMMA], BodyBytes(nested), [CLOSE]);
    }
    EndsEarly(json, b);
    if AcceptedClientData(json, c, o) {
      AcceptedIsRead(json, c, o);
    }
  }

  lemma Push(a: Bytes, b: Bytes, c: Bytes, d: Bytes)
    ensures a + (b + c) + d == a + (b + (c + d))
  {
  }

  lemma FourThenTwo(challenge: Bytes, origin: Bytes, crossOrigin: bool)
    requires All(challenge, TextByte) && All(origin, TextByte)
    ensures ValidBody(Body(FourItems(challenge, origin, crossOrigin, true) + NestedItems(), []))
  {
    hide All;
    hide ValidMember;
    hide FourItems;
    hide PlainMember;
    FourAreValid(challenge, origin, crossOrigin, true);
    NestedAreValid();
    var four, items := FourItems(challenge, origin, crossOrigin, true),
                       FourItems(challenge, origin, crossOrigin, true) + NestedItems();
    assert forall i | 0 <= i < 4 :: items[i] == four[i];
    assert forall i | 4 <= i < 6 :: items[i] == NestedItems()[i - 4];
    assert All([], Whitespace) by { NothingIsWhitespace(); }
  }

  lemma NothingIsWhitespace()
    ensures All([], Whitespace)
  {
  }

  /** A body with a brace behind it is no document. */
  lemma EndsEarly(json: Bytes, b: Body)
    requires ValidBody(b) && json == [OPEN] + (BodyBytes(b) + [CLOSE])
    ensures ParseDocument(json).None?
  {
    hide ValidBody;
    hide BodyBytes;
    hide TakeBody;
    hide TakeWs;
    var inside := BodyBytes(b) + [CLOSE];
    assert [] + json == json;
    TakeWsIs(json, [], json);
    assert json[1..] == inside;
    BodyIsTaken(inside, b, [CLOSE]);
    assert [] + [CLOSE] == [CLOSE];
    TakeWsIs([CLOSE], [], [CLOSE]);
  }
}
