/** Replies to evaluation requests: the escaping of error text and the reply line, checked
    against a scanner for JSON strings (section 7 of RFC 8259) and flat JSON objects. */
module JsonReply {

  type Byte = b: int | 0 <= b < 256

  const QUOTE: Byte := 0x22
  const BACKSLASH: Byte := 0x5C
  const NEWLINE: Byte := 0x0A
  const RETURN: Byte := 0x0D
  const TAB: Byte := 0x09

  // ----- what the server writes

  /** The value of a plain `char` holding byte `b`; signedness is the platform's choice. */
  function CharValue(b: Byte, signedChar: bool): int {
    if signedChar && b >= 0x80 then b - 0x100 else b
  }

  function EscapeByte(b: Byte, signedChar: bool): seq<Byte> {
    if b == QUOTE then [BACKSLASH, QUOTE]
    else if b == BACKSLASH then [BACKSLASH, BACKSLASH]
    else if b == NEWLINE then [BACKSLASH, 0x6E]
    else if b == RETURN then [BACKSLASH, 0x72]
    else if b == TAB then [BACKSLASH, 0x74]
    else if CharValue(b, signedChar) >= 0x20 then [b]
    else []
  }

  function Escape(s: seq<Byte>, signedChar: bool): seq<Byte> {
    if s == [] then [] else EscapeByte(s[0], signedChar) + Escape(s[1..], signedChar)
  }

  lemma {:induction false} EscapeConcat(s: seq<Byte>, t: seq<Byte>, signedChar: bool)
    ensures Escape(s + t, signedChar) == Escape(s, signedChar) + Escape(t, signedChar)
  {
    if s == [] {
      assert s + t == t;
    } else {
      assert (s + t)[1..] == s[1..] + t;
      EscapeConcat(s[1..], t, signedChar);
    }
  }

  /** `escape_json` as the loop it is. */
  method EscapeJson(s: seq<Byte>, signedChar: bool) returns (escaped: seq<Byte>)
    ensures escaped == Escape(s, signedChar)
  {
    escaped := [];
    for i := 0 to |s|
      invariant escaped == Escape(s[..i], signedChar)
    {
      assert s[..i + 1] == s[..i] + [s[i]];
      EscapeConcat(s[..i], [s[i]], signedChar);
      assert Escape([s[i]], signedChar) == EscapeByte(s[i], signedChar) + Escape([], signedChar);
      var c := s[i];
      match c {
        case 0x22 => escaped := escaped + [BACKSLASH, QUOTE];
        case 0x5C => escaped := escaped + [BACKSLASH, BACKSLASH];
        case 0x0A => escaped := escaped + [BACKSLASH, 0x6E];
        case 0x0D => escaped := escaped + [BACKSLASH, 0x72];
        case 0x09 => escaped := escaped + [BACKSLASH, 0x74];
        case _ =>
          if CharValue(c, signedChar) >= 0x20 {
            escaped := escaped + [c];
          }
      }
    }
    assert s[..|s|] == s;
  }

  const LBRACE: Byte := 0x7B
  const RBRACE: Byte := 0x7D
  const COLON: Byte := 0x3A
  const COMMA: Byte := 0x2C

  const STATUS: seq<Byte> := [0x73, 0x74, 0x61, 0x74, 0x75, 0x73]            // status
  const ERROR: seq<Byte> := [0x65, 0x72, 0x72, 0x6F, 0x72]                    // error
  const MESSAGE: seq<Byte> := [0x6D, 0x65, 0x73, 0x73, 0x61, 0x67, 0x65]      // message
  const EMPTY_MESSAGE: seq<Byte> :=
    [0x45, 0x6D, 0x70, 0x74, 0x79, 0x20, 0x6D, 0x65, 0x73, 0x73, 0x61, 0x67, 0x65]  // Empty message

  function Member(key: seq<Byte>, value: seq<Byte>): seq<Byte> {
    [QUOTE] + key + [QUOTE, COLON, QUOTE] + value + [QUOTE]
  }

  /** `{"status":"error","message":"` + text + `"}` */
  function ErrorReply(text: seq<Byte>): seq<Byte> {
    [LBRACE] + Member(STATUS, ERROR) + [COMMA] + Member(MESSAGE, text) + [RBRACE]
  }

  /** What `handle_server_message` answers for the interpreter's verdict. */
  datatype Verdict = Success | Error(text: seq<Byte>)

  datatype Response = Value(text: seq<Byte>) | Unexpected(error: seq<Byte>)

  function HandleMessage(message: seq<Byte>, verdict: Verdict, signedChar: bool): Response {
    if message == [] then Value(ErrorReply(EMPTY_MESSAGE))
    else if verdict.Success? then Value([])
    else Unexpected(Escape(verdict.text, signedChar))
  }

  /** The text handed to the socket, newline included. */
  function Sent(response: Response): seq<Byte> {
    (match response
     case Value(text) => text
     case Unexpected(error) => ErrorReply(error)) + [NEWLINE]
  }

  // ----- reference: scanning JSON text

  /** A character of a JSON string: a byte of its text, or a `\u` escape. */
  datatype Char = Literal(b: Byte) | Unit(code: nat)

  datatype Scanned = Closed(value: seq<Char>, rest: seq<Byte>) | Malformed

  function SimpleEscape(b: Byte): int {
    match b
    case 0x22 => 0x22
    case 0x5C => 0x5C
    case 0x2F => 0x2F
    case 0x62 => 0x08
    case 0x66 => 0x0C
    case 0x6E => 0x0A
    case 0x72 => 0x0D
    case 0x74 => 0x09
    case _ => -1
  }

  function HexValue(b: Byte): int {
    if 0x30 <= b <= 0x39 then b - 0x30
    else if 0x41 <= b <= 0x46 then b - 0x37
    else if 0x61 <= b <= 0x66 then b - 0x57
    else -1
  }

  function Prepend(c: Char, r: Scanned): Scanned {
    if r.Closed? then Closed([c] + r.value, r.rest) else Malformed
  }

  /** Scans a string whose opening quotation mark has been consumed. */
  function ScanString(s: seq<Byte>): (r: Scanned)
    ensures r.Closed? ==> |r.rest| < |s|
  {
    if s == [] then Malformed
    else if s[0] == QUOTE then Closed([], s[1..])
    else if s[0] == BACKSLASH then
      if |s| < 2 then Malformed
      else if SimpleEscape(s[1]) >= 0 then Prepend(Literal(SimpleEscape(s[1])), ScanString(s[2..]))
      else if s[1] == 0x75 && |s| >= 6 && (forall i :: 2 <= i < 6 ==> HexValue(s[i]) >= 0) then
        Prepend(Unit(((HexValue(s[2]) * 16 + HexValue(s[3])) * 16 + HexValue(s[4])) * 16 + HexValue(s[5])),
                ScanString(s[6..]))
      else Malformed
    else if s[0] < 0x20 then Malformed
    else Prepend(Literal(s[0]), ScanString(s[1..]))
  }

  datatype Pair = Pair(key: seq<Char>, value: seq<Char>, rest: seq<Byte>) | NoPair

  /** Scans one `"key":"value"` member. */
  function ScanPair(s: seq<Byte>): (r: Pair)
    ensures r.Pair? ==> |r.rest| < |s|
  {
    if s == [] || s[0] != QUOTE then NoPair
    else
      var key := ScanString(s[1..]);
      if key.Malformed? || |key.rest| < 2 || key.rest[0] != COLON || key.rest[1] != QUOTE then NoPair
      else
        var value := ScanString(key.rest[2..]);
        if value.Closed? then Pair(key.value, value.value, value.rest) else NoPair
  }

  datatype Members = Object(members: seq<(seq<Char>, seq<Char>)>, rest: seq<Byte>) | NotAnObject

  /** Scans members up to the closing brace. */
  function ScanMembers(s: seq<Byte>): Members
    decreases |s|
  {
    var m := ScanPair(s);
    if m.NoPair? || m.rest == [] then NotAnObject
    else if m.rest[0] == RBRACE then Object([(m.key, m.value)], m.rest[1..])
    else if m.rest[0] == COMMA then
      var more := ScanMembers(m.rest[1..]);
      if more.Object? then Object([(m.key, m.value)] + more.members, more.rest) else NotAnObject
    else NotAnObject
  }

  function ScanObject(s: seq<Byte>): Members {
    if s == [] || s[0] != LBRACE then NotAnObject else ScanMembers(s[1..])
  }

  // ----- laws

  /** Bytes that survive escaping; control characters without a short escape are dropped, and
      so is every byte from 0x80 up where `char` is signed. */
  predicate Survives(b: Byte, signedChar: bool) {
    EscapeByte(b, signedChar) != []
  }

  function Surviving(s: seq<Byte>, signedChar: bool): seq<Byte> {
    if s == [] then []
    else (if Survives(s[0], signedChar) then [s[0]] else []) + Surviving(s[1..], signedChar)
  }

  function Literals(s: seq<Byte>): seq<Char> {
    if s == [] then [] else [Literal(s[0])] + Literals(s[1..])
  }

  lemma ScanOne(b: Byte, rest: seq<Byte>, signedChar: bool)
    ensures ScanString(EscapeByte(b, signedChar) + rest)
            == if Survives(b, signedChar) then Prepend(Literal(b), ScanString(rest)) else ScanString(rest)
  {
    var e := EscapeByte(b, signedChar);
    var s := e + rest;
    if |e| == 2 {
      assert s[0] == BACKSLASH && s[1] == e[1] && s[2..] == rest;
      assert SimpleEscape(e[1]) == b;
    } else if |e| == 1 {
      assert s[0] == b && s[1..] == rest;
    } else {
      assert s == rest;
    }
  }

  /** A scanner started after the opening quote stops exactly at the server's closing quote,
      and unescaping gives back the error text minus the dropped bytes. */
  lemma {:induction false} EscapeRoundTrip(s: seq<Byte>, rest: seq<Byte>, signedChar: bool)
    ensures ScanString(Escape(s, signedChar) + [QUOTE] + rest) == Closed(Literals(Surviving(s, signedChar)), rest)
  {
    if s == [] {
      assert Escape(s, signedChar) + [QUOTE] + rest == [QUOTE] + rest;
      assert ([QUOTE] + rest)[1..] == rest;
    } else {
      var tail := Escape(s[1..], signedChar) + [QUOTE] + rest;
      assert Escape(s, signedChar) + [QUOTE] + rest == EscapeByte(s[0], signedChar) + tail;
      ScanOne(s[0], tail, signedChar);
      EscapeRoundTrip(s[1..], rest, signedChar);
      var kept := if Survives(s[0], signedChar) then [s[0]] else [];
      assert Surviving(s, signedChar)[|kept|..] == Surviving(s[1..], signedChar);
    }
  }

  lemma {:induction false} SurvivingIsShorter(s: seq<Byte>, signedChar: bool)
    ensures |Surviving(s, signedChar)| <= |s|
  {
    if s != [] { SurvivingIsShorter(s[1..], signedChar); }
  }

  /** Tab, line feed and carriage return survive, and every byte from 0x20 up, below 0x80
      where `char` is signed. */
  predicate Kept(b: Byte, signedChar: bool) {
    b == TAB || b == NEWLINE || b == RETURN || (0x20 <= b && (signedChar ==> b < 0x80))
  }

  /** Nothing is dropped exactly when every byte is kept. */
  lemma {:induction false} NothingDroppedIff(s: seq<Byte>, signedChar: bool)
    ensures Surviving(s, signedChar) == s <==> forall b :: b in s ==> Kept(b, signedChar)
  {
    if s != [] {
      NothingDroppedIff(s[1..], signedChar);
      SurvivingIsShorter(s[1..], signedChar);
      assert s == [s[0]] + s[1..];
      assert Survives(s[0], signedChar) <==> Kept(s[0], signedChar);
      if Survives(s[0], signedChar) { assert Surviving(s, signedChar)[1..] == Surviving(s[1..], signedChar); }
    }
  }

  /** Plain text needs no escaping. */
  predicate Plain(s: seq<Byte>) {
    forall i :: 0 <= i < |s| ==> 0x20 <= s[i] < 0x80 && s[i] != QUOTE && s[i] != BACKSLASH
  }

  lemma {:induction false} PlainScans(s: seq<Byte>, rest: seq<Byte>)
    requires Plain(s)
    ensures ScanString(s + [QUOTE] + rest) == Closed(Literals(s), rest)
  {
    if s == [] {
      assert s + [QUOTE] + rest == [QUOTE] + rest && ([QUOTE] + rest)[1..] == rest;
    } else {
      assert (s + [QUOTE] + rest)[1..] == s[1..] + [QUOTE] + rest;
      PlainScans(s[1..], rest);
    }
  }

  /** A member from the scans of its key and of its value. */
  lemma ScanParts(keyText: seq<Byte>, key: seq<Char>, valueText: seq<Byte>, value: seq<Char>, rest: seq<Byte>)
    requires ScanString(keyText) == Closed(key, [COLON, QUOTE] + valueText)
    requires ScanString(valueText) == Closed(value, rest)
    ensures ScanPair([QUOTE] + keyText) == Pair(key, value, rest)
  {
    assert ([QUOTE] + keyText)[1..] == keyText;
    assert ([COLON, QUOTE] + valueText)[2..] == valueText;
  }

  lemma ScanMember(key: seq<Byte>, value: seq<Byte>, text: seq<Char>, rest: seq<Byte>)
    requires Plain(key)
    requires ScanString(value + [QUOTE] + rest) == Closed(text, rest)
    ensures ScanPair(Member(key, value) + rest) == Pair(Literals(key), text, rest)
  {
    var after := [COLON, QUOTE] + (value + [QUOTE] + rest);
    PlainScans(key, after);
    ScanParts(key + [QUOTE] + after, Literals(key), value + [QUOTE] + rest, text, rest);
    MemberText(key, value, rest);
  }

  lemma MemberText(key: seq<Byte>, value: seq<Byte>, rest: seq<Byte>)
    ensures Member(key, value) + rest == [QUOTE] + (key + [QUOTE] + ([COLON, QUOTE] + (value + [QUOTE] + rest)))
  {
    assert [QUOTE, COLON, QUOTE] == [QUOTE] + [COLON, QUOTE];
  }

  /** The whole error reply is one JSON object with the members "status": "error" and
      "message": the error text minus the dropped bytes, followed by the newline. */
  lemma ErrorReplyIsJson(error: seq<Byte>, signedChar: bool)
    ensures ScanObject(Sent(Unexpected(Escape(error, signedChar))))
            == Object([(Literals(STATUS), Literals(ERROR)),
                       (Literals(MESSAGE), Literals(Surviving(error, signedChar)))],
                      [NEWLINE])
  {
    var text, value := Escape(error, signedChar), Literals(Surviving(error, signedChar));
    SecondMember(error, signedChar);
    ObjectOfTwo(Member(STATUS, ERROR), Member(MESSAGE, text), Literals(STATUS), Literals(ERROR),
                Literals(MESSAGE), value) by {
      FirstMember([COMMA] + (Member(MESSAGE, text) + [RBRACE, NEWLINE]));
    }
  }

  lemma FirstMember(rest: seq<Byte>)
    ensures ScanPair(Member(STATUS, ERROR) + rest) == Pair(Literals(STATUS), Literals(ERROR), rest)
  {
    PlainScans(ERROR, rest);
    ScanMember(STATUS, ERROR, Literals(ERROR), rest);
  }

  lemma SecondMember(error: seq<Byte>, signedChar: bool)
    ensures ScanPair(Member(MESSAGE, Escape(error, signedChar)) + [RBRACE, NEWLINE])
            == Pair(Literals(MESSAGE), Literals(Surviving(error, signedChar)), [RBRACE, NEWLINE])
  {
    EscapeRoundTrip(error, [RBRACE, NEWLINE], signedChar);
    ScanMember(MESSAGE, Escape(error, signedChar), Literals(Surviving(error, signedChar)), [RBRACE, NEWLINE]);
  }

  lemma ObjectOfTwo(a: seq<Byte>, b: seq<Byte>, k1: seq<Char>, v1: seq<Char>, k2: seq<Char>, v2: seq<Char>)
    requires ScanPair(a + ([COMMA] + (b + [RBRACE, NEWLINE]))) == Pair(k1, v1, [COMMA] + (b + [RBRACE, NEWLINE]))
    requires ScanPair(b + [RBRACE, NEWLINE]) == Pair(k2, v2, [RBRACE, NEWLINE])
    ensures ScanObject([LBRACE] + a + [COMMA] + b + [RBRACE] + [NEWLINE]) == Object([(k1, v1), (k2, v2)], [NEWLINE])
  {
    var second := b + [RBRACE, NEWLINE];
    TwoMembers(a + ([COMMA] + second), second, k1, v1, k2, v2);
    ObjectText(a, b);
    AfterBrace(a + ([COMMA] + second));
  }

  lemma ObjectText(a: seq<Byte>, b: seq<Byte>)
    ensures [LBRACE] + a + [COMMA] + b + [RBRACE] + [NEWLINE] == [LBRACE] + (a + ([COMMA] + (b + [RBRACE, NEWLINE])))
  {
    assert [RBRACE, NEWLINE] == [RBRACE] + [NEWLINE];
  }

  lemma AfterBrace(s: seq<Byte>)
    ensures ScanObject([LBRACE] + s) == ScanMembers(s)
  {
    assert ([LBRACE] + s)[1..] == s;
  }

  lemma TwoMembers(first: seq<Byte>, second: seq<Byte>, k1: seq<Char>, v1: seq<Char>, k2: seq<Char>, v2: seq<Char>)
    requires ScanPair(first) == Pair(k1, v1, [COMMA] + second)
    requires ScanPair(second) == Pair(k2, v2, [RBRACE, NEWLINE])
    ensures ScanMembers(first) == Object([(k1, v1), (k2, v2)], [NEWLINE])
  {
    LastMember(second, k2, v2);
    EarlierMember(first, k1, v1, second);
    assert [(k1, v1)] + [(k2, v2)] == [(k1, v1), (k2, v2)];
  }

  lemma LastMember(s: seq<Byte>, k: seq<Char>, v: seq<Char>)
    requires ScanPair(s) == Pair(k, v, [RBRACE, NEWLINE])
    ensures ScanMembers(s) == Object([(k, v)], [NEWLINE])
  {
    assert [RBRACE, NEWLINE][1..] == [NEWLINE];
  }

  lemma EarlierMember(s: seq<Byte>, k: seq<Char>, v: seq<Char>, next: seq<Byte>)
    requires ScanPair(s) == Pair(k, v, [COMMA] + next) && ScanMembers(next).Object?
    ensures ScanMembers(s) == Object([(k, v)] + ScanMembers(next).members, ScanMembers(next).rest)
  {
    assert ([COMMA] + next)[1..] == next;
  }

  lemma {:induction false} EscapeHasNoNewline(s: seq<Byte>, signedChar: bool)
    ensures NEWLINE !in Escape(s, signedChar)
  {
    if s != [] { EscapeHasNoNewline(s[1..], signedChar); }
  }

  /** Every reply to an evaluation request is one line: the only newline is the last byte. */
  lemma ReplyIsOneLine(message: seq<Byte>, verdict: Verdict, signedChar: bool)
    ensures var sent := Sent(HandleMessage(message, verdict, signedChar));
            forall i :: 0 <= i < |sent| ==> (sent[i] == NEWLINE <==> i == |sent| - 1)
  {
    if verdict.Error? { EscapeHasNoNewline(verdict.text, signedChar); }
    match HandleMessage(message, verdict, signedChar)
    case Value(text) =>
      if message == [] { ReplyHasNoNewline(EMPTY_MESSAGE); }
      LastNewline(text);
    case Unexpected(error) =>
      ReplyHasNoNewline(error);
      LastNewline(ErrorReply(error));
  }

  function Ascii(s: string): (r: seq<Byte>)
    requires forall i :: 0 <= i < |s| ==> s[i] < 128 as char
    ensures |r| == |s| && forall i :: 0 <= i < |s| ==> r[i] == s[i] as int
  {
    seq(|s|, i requires 0 <= i < |s| => s[i] as int)
  }

  /** The names and fixed texts, as they are written. */
  lemma FixedTexts()
    ensures STATUS == Ascii("status") && ERROR == Ascii("error") && MESSAGE == Ascii("message")
    ensures EMPTY_MESSAGE == Ascii("Empty message")
    ensures [LBRACE, RBRACE, COLON, COMMA, QUOTE] == Ascii("{}:,\"")
  {
  }

  /** A JSON object with the members "status": "error" and "message": `text`, then a newline. */
  ghost predicate IsErrorLine(sent: seq<Byte>, text: seq<Byte>) {
    ScanObject(sent) == Object([(Literals(STATUS), Literals(ERROR)), (Literals(MESSAGE), Literals(text))], [NEWLINE])
  }

  /** What goes over the wire: a successful evaluation is answered with the bare newline, a
      failed one and an empty request with the error object. */
  lemma RepliesSay(message: seq<Byte>, verdict: Verdict, signedChar: bool)
    ensures var sent := Sent(HandleMessage(message, verdict, signedChar));
            if message == [] then IsErrorLine(sent, EMPTY_MESSAGE)
            else if verdict.Success? then sent == [NEWLINE]
            else IsErrorLine(sent, Surviving(verdict.text, signedChar))
  {
    if message == [] {
      PlainReplySays(EMPTY_MESSAGE, signedChar);
    } else if verdict.Error? {
      ErrorReplyIsJson(verdict.text, signedChar);
    }
  }

  lemma PlainReplySays(text: seq<Byte>, signedChar: bool)
    requires Plain(text)
    ensures IsErrorLine(ErrorReply(text) + [NEWLINE], text)
  {
    PlainEscapes(text, signedChar);
    ErrorReplyIsJson(text, signedChar);
    assert Sent(Unexpected(text)) == ErrorReply(text) + [NEWLINE];
  }

  lemma {:induction false} PlainEscapes(s: seq<Byte>, signedChar: bool)
    requires Plain(s)
    ensures Escape(s, signedChar) == s && Surviving(s, signedChar) == s
  {
    if s != [] { PlainEscapes(s[1..], signedChar); }
  }

  lemma ReplyHasNoNewline(text: seq<Byte>)
    requires NEWLINE !in text
    ensures NEWLINE !in ErrorReply(text)
  {
    assert NEWLINE !in Member(STATUS, ERROR);
    assert NEWLINE !in Member(MESSAGE, text);
  }

  lemma LastNewline(text: seq<Byte>)
    requires NEWLINE !in text
    ensures forall i :: 0 <= i <= |text| ==> ((text + [NEWLINE])[i] == NEWLINE <==> i == |text|)
  {
  }
}
