/** The text a user's QR code carries: `JSON.stringify({ userId, qrToken })`
    (components/santa/QRDisplay.tsx), and the `JSON.parse` the scan page
    applies to it, restricted to objects whose members are all strings.

    Strings are written and read as section 7 of RFC 8259 describes, with the
    choices `JSON.stringify` makes when writing: `\"`, `\\`, `\b`, `\f`, `\n`,
    `\r`, `\t`, `\u00XX` in lower-case hex for the other control characters,
    and every other character as itself.  Objects follow section 4: members
    separated by commas, names and values separated by colons, whitespace
    allowed around every structural character; a repeated name keeps its
    last value, as `JSON.parse` does. */
module QrPayload {
  import opened Wrappers

  const UserIdKey: string := "userId"
  const QrTokenKey: string := "qrToken"

  // ---------------------------------------------------------------------
  // Hex digits

  function HexDigit(n: nat): (c: char)
    requires n < 16
    ensures '0' <= c <= 'f'
  {
    if n < 10 then ('0' as int + n) as char else ('a' as int + n - 10) as char
  }

  /** The value of a hex digit in either case. */
  function HexValue(c: char): (r: Option<nat>)
    ensures r.Some? ==> r.value < 16
  {
    if '0' <= c <= '9' then Some(c as int - '0' as int)
    else if 'a' <= c <= 'f' then Some(c as int - 'a' as int + 10)
    else if 'A' <= c <= 'F' then Some(c as int - 'A' as int + 10)
    else None
  }

  lemma HexDigitValue(n: nat)
    requires n < 16
    ensures HexValue(HexDigit(n)) == Some(n)
  {
  }

  /** The number four hex digits spell. */
  function Hex4(s: string): (r: Option<nat>)
    requires |s| == 4
    ensures r.Some? ==> r.value < 0x10000
  {
    match (HexValue(s[0]), HexValue(s[1]), HexValue(s[2]), HexValue(s[3]))
    case (Some(a), Some(b), Some(c), Some(d)) => Some(((a * 16 + b) * 16 + c) * 16 + d)
    case _ => None
  }

  // ---------------------------------------------------------------------
  // Writing

  /** No control character (below U+0020) occurs in `s`. */
  predicate Printable(s: string) {
    forall i :: 0 <= i < |s| ==> s[i] as int >= 0x20
  }

  /** How `JSON.stringify` writes one character inside a string literal. */
  function EscapeChar(c: char): (r: string)
    ensures |r| > 0
  {
    var n := c as int;
    if n == 0x22 then ['\\', '"']
    else if n == 0x5C then ['\\', '\\']
    else if n == 0x08 then ['\\', 'b']
    else if n == 0x0C then ['\\', 'f']
    else if n == 0x0A then ['\\', 'n']
    else if n == 0x0D then ['\\', 'r']
    else if n == 0x09 then ['\\', 't']
    else if n < 0x20 then ['\\', 'u', '0', '0', HexDigit(n / 16), HexDigit(n % 16)]
    else [c]
  }

  function Escape(s: string): string {
    if |s| == 0 then [] else EscapeChar(s[0]) + Escape(s[1..])
  }

  /** A JSON string literal holding `s`. */
  function Quote(s: string): string {
    ['"'] + Escape(s) + ['"']
  }

  /** The QR payload for a user: an object with the member `userId` and then
      the member `qrToken`, with no whitespace, as `JSON.stringify` writes it. */
  function Encode(userId: string, qrToken: string): (r: string)
    ensures |r| >= 2 && r[0] == '{' && r[|r| - 1] == '}'
  {
    ['{'] + Quote(UserIdKey) + [':'] + Quote(userId) + [','] + Quote(QrTokenKey) + [':'] + Quote(qrToken) + ['}']
  }

  lemma PrintableConcat(a: string, b: string)
    requires Printable(a) && Printable(b)
    ensures Printable(a + b)
  {
    forall i | 0 <= i < |a + b|
      ensures (a + b)[i] as int >= 0x20
    {
      if i >= |a| {
        assert (a + b)[i] == b[i - |a|];
      }
    }
  }

  /** Every character is written without raw control characters. */
  lemma EscapeCharPrintable(c: char)
    ensures Printable(EscapeChar(c))
  {
  }

  /** A written string literal holds no raw control character. */
  lemma {:induction false} QuotePrintable(s: string)
    ensures Printable(Escape(s)) && Printable(Quote(s))
  {
    if |s| > 0 {
      QuotePrintable(s[1..]);
      EscapeCharPrintable(s[0]);
      PrintableConcat(EscapeChar(s[0]), Escape(s[1..]));
    }
    PrintableConcat(['"'], Escape(s));
    PrintableConcat(['"'] + Escape(s), ['"']);
  }

  /** The payload holds no raw control character: `JSON.stringify` escapes
      every one inside the two strings, so the QR text is one printable line. */
  lemma EncodeIsPrintable(userId: string, qrToken: string)
    ensures Printable(Encode(userId, qrToken))
  {
    var head := ['{'] + Quote(UserIdKey) + [':'];
    QuotePrintable(UserIdKey);
    QuotePrintable(userId);
    QuotePrintable(QrTokenKey);
    QuotePrintable(qrToken);
    PrintableConcat(['{'], Quote(UserIdKey));
    PrintableConcat(['{'] + Quote(UserIdKey), [':']);
    PrintableConcat(head, Quote(userId));
    PrintableConcat(head + Quote(userId), [',']);
    PrintableConcat(head + Quote(userId) + [','], Quote(QrTokenKey));
    PrintableConcat(head + Quote(userId) + [','] + Quote(QrTokenKey), [':']);
    PrintableConcat(head + Quote(userId) + [','] + Quote(QrTokenKey) + [':'], Quote(qrToken));
    PrintableConcat(head + Quote(userId) + [','] + Quote(QrTokenKey) + [':'] + Quote(qrToken), ['}']);
  }

  // ---------------------------------------------------------------------
  // Reading

  /** Insignificant whitespace (section 2 of RFC 8259). */
  predicate IsWs(c: char) {
    c == ' ' || c == '\t' || c == '\n' || c == '\r'
  }

  function SkipWs(s: string): (r: string)
    ensures |r| <= |s|
    ensures |r| > 0 ==> !IsWs(r[0])
  {
    if |s| > 0 && IsWs(s[0]) then SkipWs(s[1..]) else s
  }

  /** The character an escape sequence stands for, and how many characters
      after the backslash it takes.  A `\u` escape of a surrogate must be the
      high half of a pair followed by the low half. */
  function ParseEscape(s: string): (r: Option<(char, nat)>)
    ensures r.Some? ==> 1 <= r.value.1 <= |s|
  {
    if |s| == 0 then None
    else if s[0] == '"' then Some(('"', 1))
    else if s[0] == '\\' then Some(('\\', 1))
    else if s[0] == '/' then Some(('/', 1))
    else if s[0] == 'b' then Some((0x08 as char, 1))
    else if s[0] == 'f' then Some((0x0C as char, 1))
    else if s[0] == 'n' then Some(('\n', 1))
    else if s[0] == 'r' then Some(('\r', 1))
    else if s[0] == 't' then Some(('\t', 1))
    else if s[0] == 'u' && |s| >= 5 then
      match Hex4(s[1..5])
      case None => None
      case Some(hi) =>
        if hi < 0xD800 || 0xE000 <= hi then Some((hi as char, 5))
        else if hi < 0xDC00 && |s| >= 11 && s[5] == '\\' && s[6] == 'u' then
          match Hex4(s[7..11])
          case Some(lo) =>
            if 0xDC00 <= lo < 0xE000 then Some(((0x10000 + (hi - 0xD800) * 0x400 + (lo - 0xDC00)) as char, 11))
            else None
          case None => None
        else None
    else None
  }

  /** The characters of a string literal after its opening quote, up to the
      closing quote: the decoded text and what follows the closing quote.
      Raw control characters are refused. */
  function ParseChars(s: string): (r: Option<(string, string)>)
    ensures r.Some? ==> |r.value.1| < |s|
  {
    if |s| == 0 then None
    else if s[0] == '"' then Some(([], s[1..]))
    else if s[0] == '\\' then
      match ParseEscape(s[1..])
      case None => None
      case Some((c, k)) =>
        match ParseChars(s[1 + k..])
        case None => None
        case Some((body, rest)) => Some(([c] + body, rest))
    else if (s[0] as int) < 0x20 then None
    else
      match ParseChars(s[1..])
      case None => None
      case Some((body, rest)) => Some(([s[0]] + body, rest))
  }

  /** A string literal at the start of `s`. */
  function ParseString(s: string): (r: Option<(string, string)>)
    ensures r.Some? ==> |r.value.1| < |s|
  {
    if |s| > 0 && s[0] == '"' then ParseChars(s[1..]) else None
  }

  /** One `name : value` member at the start of `s`, and what follows it. */
  function ParseMember(s: string): (r: Option<(string, string, string)>)
    ensures r.Some? ==> |r.value.2| < |s|
  {
    match ParseString(s)
    case None => None
    case Some((name, afterName)) =>
      var colon := SkipWs(afterName);
      if |colon| == 0 || colon[0] != ':' then None
      else
        match ParseString(SkipWs(colon[1..]))
        case None => None
        case Some((value, afterValue)) => Some((name, value, afterValue))
  }

  /** One or more members and the closing brace, the members read so far
      being `acc`. */
  function ParseMembers(s: string, acc: map<string, string>): (r: Option<(map<string, string>, string)>)
    ensures r.Some? ==> |r.value.1| < |s|
    decreases |s|
  {
    match ParseMember(s)
    case None => None
    case Some((name, value, afterValue)) =>
      var next := SkipWs(afterValue);
      var acc' := acc[name := value];
      if |next| == 0 then None
      else if next[0] == '}' then Some((acc', next[1..]))
      else if next[0] == ',' then ParseMembers(SkipWs(next[1..]), acc')
      else None
  }

  /** An object at the start of `s`, after optional whitespace. */
  function ParseObject(s: string): (r: Option<(map<string, string>, string)>)
    ensures r.Some? ==> |r.value.1| < |s|
  {
    var open := SkipWs(s);
    if |open| == 0 || open[0] != '{' then None
    else
      var first := SkipWs(open[1..]);
      if |first| > 0 && first[0] == '}' then Some((map[], first[1..]))
      else ParseMembers(first, map[])
  }

  /** `JSON.parse(data)` for a payload that is an object of string members:
      its members by name; nothing when `data` is not such a JSON text. */
  function Parse(data: string): (r: Option<map<string, string>>)
    ensures r.Some? ==> |SkipWs(data)| > 0 && SkipWs(data)[0] == '{'
  {
    match ParseObject(data)
    case None => None
    case Some((members, rest)) => if SkipWs(rest) == [] then Some(members) else None
  }

  /** `scanned.<name>`: the member's value, nothing for `undefined`. */
  function Member(members: map<string, string>, name: string): (r: Option<string>)
    ensures r.Some? <==> name in members
    ensures r.Some? ==> r.value == members[name]
  {
    if name in members then Some(members[name]) else None
  }

  // ---------------------------------------------------------------------
  // Round trip

  /** The result of reading `tail` with `c` put in front of the text. */
  function Prepend(c: char, r: Option<(string, string)>): Option<(string, string)> {
    match r
    case None => None
    case Some((body, rest)) => Some(([c] + body, rest))
  }

  /** A character written as itself reads back as itself. */
  lemma PlainCharParses(c: char, tail: string)
    requires 0x20 <= c as int && c != '"' && c != '\\'
    ensures ParseChars([c] + tail) == Prepend(c, ParseChars(tail))
  {
    assert ([c] + tail)[1..] == tail;
  }

  /** A two-character escape reads back as the character it stands for. */
  lemma ShortEscapeParses(c: char, e: char, tail: string)
    requires ParseEscape([e]) == Some((c, 1))
    ensures ParseChars(['\\', e] + tail) == Prepend(c, ParseChars(tail))
  {
    var s := ['\\', e] + tail;
    assert s[1..][..1] == [e];
    assert ParseEscape(s[1..]) == Some((c, 1));
    assert s[2..] == tail;
  }

  /** A `\u00XX` escape of a control character reads back as that character. */
  lemma UnicodeEscapeParses(c: char, tail: string)
    requires c as int < 0x20
    ensures ParseChars(['\\', 'u', '0', '0', HexDigit(c as int / 16), HexDigit(c as int % 16)] + tail)
      == Prepend(c, ParseChars(tail))
  {
    var n := c as int;
    var s := ['\\', 'u', '0', '0', HexDigit(n / 16), HexDigit(n % 16)] + tail;
    HexDigitValue(n / 16);
    HexDigitValue(n % 16);
    assert s[1..][1..5] == ['0', '0', HexDigit(n / 16), HexDigit(n % 16)];
    assert Hex4(s[1..][1..5]) == Some(n);
    assert ParseEscape(s[1..]) == Some((c, 5));
    assert s[6..] == tail;
  }

  /** Reading back one written character yields it and leaves the reader
      just after it. */
  lemma EscapeCharParses(c: char, tail: string)
    ensures ParseChars(EscapeChar(c) + tail) == Prepend(c, ParseChars(tail))
  {
    var n := c as int;
    if n == 0x22 { ShortEscapeParses(c, '"', tail); }
    else if n == 0x5C { ShortEscapeParses(c, '\\', tail); }
    else if n == 0x08 { ShortEscapeParses(c, 'b', tail); }
    else if n == 0x0C { ShortEscapeParses(c, 'f', tail); }
    else if n == 0x0A { ShortEscapeParses(c, 'n', tail); }
    else if n == 0x0D { ShortEscapeParses(c, 'r', tail); }
    else if n == 0x09 { ShortEscapeParses(c, 't', tail); }
    else if n < 0x20 { UnicodeEscapeParses(c, tail); }
    else { PlainCharParses(c, tail); }
  }

  /** A written string body followed by the closing quote reads back as the
      original text. */
  lemma {:induction false} EscapeParses(s: string, tail: string)
    ensures ParseChars(Escape(s) + ['"'] + tail) == Some((s, tail))
  {
    if |s| == 0 {
      assert Escape(s) + ['"'] + tail == ['"'] + tail;
    } else {
      EscapeParses(s[1..], tail);
      EscapeCharParses(s[0], Escape(s[1..]) + ['"'] + tail);
      assert Escape(s) == EscapeChar(s[0]) + Escape(s[1..]);
      EscapeFirst(EscapeChar(s[0]), Escape(s[1..]), tail);
      assert [s[0]] + s[1..] == s;
    }
  }

  /** Regrouping a written body around its first character's escape `a`. */
  lemma EscapeFirst(a: string, b: string, tail: string)
    ensures a + b + ['"'] + tail == a + (b + ['"'] + tail)
  {
    var q: string := ['"'];
    Regroup(a, b, q);
    Regroup(a, b + q, tail);
  }

  lemma Regroup(a: string, b: string, c: string)
    ensures a + b + c == a + (b + c)
  {
  }

  /** A written string literal reads back as the original text, leaving the
      reader just after it. */
  lemma QuoteParses(s: string, tail: string)
    ensures ParseString(Quote(s) + tail) == Some((s, tail))
  {
    EscapeParses(s, tail);
    assert (Quote(s) + tail)[1..] == Escape(s) + ['"'] + tail;
  }

  /** A string literal cannot start with whitespace. */
  lemma SkipWsBeforeQuote(s: string, tail: string)
    ensures SkipWs(Quote(s) + tail) == Quote(s) + tail
  {
  }

  /** A written `name:value` member reads back as that name and value. */
  lemma MemberParses(name: string, value: string, tail: string)
    ensures ParseMember(Quote(name) + ([':'] + Quote(value) + tail)) == Some((name, value, tail))
  {
    var afterName := [':'] + Quote(value) + tail;
    QuoteParses(name, afterName);
    QuoteParses(value, tail);
    assert SkipWs(afterName) == afterName;
    assert afterName[1..] == Quote(value) + tail;
    SkipWsBeforeQuote(value, tail);
  }

  /** A written last member and the closing brace complete the object. */
  lemma LastMemberParses(name: string, value: string, acc: map<string, string>)
    ensures ParseMembers(Quote(name) + ([':'] + Quote(value) + ['}']), acc) == Some((acc[name := value], []))
  {
    MemberParses(name, value, ['}']);
  }

  /** A written member followed by a comma hands the rest to the next member. */
  lemma MemberThenParses(name: string, value: string, nextName: string, more: string, acc: map<string, string>)
    ensures ParseMembers(Quote(name) + ([':'] + Quote(value) + ([','] + (Quote(nextName) + more))), acc)
      == ParseMembers(Quote(nextName) + more, acc[name := value])
  {
    var next := [','] + (Quote(nextName) + more);
    MemberParses(name, value, next);
    assert SkipWs(next) == next;
    assert next[1..] == Quote(nextName) + more;
    SkipWsBeforeQuote(nextName, more);
  }

  /** Regrouping the pieces of a payload around its members. */
  lemma PayloadShape(a: string, b: string, c: string, d: string)
    ensures ['{'] + a + [':'] + b + [','] + c + [':'] + d + ['}']
      == ['{'] + (a + ([':'] + b + ([','] + (c + ([':'] + d + ['}'])))))
  {
  }

  /** The two written members, after the opening brace, read back as the
      two-member map and consume the rest of the text. */
  lemma PayloadMembersParse(userId: string, qrToken: string)
    ensures var more := [':'] + Quote(qrToken) + ['}'];
      ParseMembers(Quote(UserIdKey) + ([':'] + Quote(userId) + ([','] + (Quote(QrTokenKey) + more))), map[])
        == Some((map[UserIdKey := userId, QrTokenKey := qrToken], []))
  {
    var more := [':'] + Quote(qrToken) + ['}'];
    MemberThenParses(UserIdKey, userId, QrTokenKey, more, map[]);
    LastMemberParses(QrTokenKey, qrToken, map[UserIdKey := userId]);
  }

  /** Parsing a payload recovers exactly the two members it was built from. */
  lemma RoundTrip(userId: string, qrToken: string)
    ensures Parse(Encode(userId, qrToken)) == Some(map[UserIdKey := userId, QrTokenKey := qrToken])
  {
    var more := [':'] + Quote(qrToken) + ['}'];
    var afterName := [':'] + Quote(userId) + ([','] + (Quote(QrTokenKey) + more));
    var first := Quote(UserIdKey) + afterName;
    PayloadShape(Quote(UserIdKey), Quote(userId), Quote(QrTokenKey), Quote(qrToken));
    assert Encode(userId, qrToken) == ['{'] + first;
    PayloadMembersParse(userId, qrToken);
    ObjectOfMembersParses(first, map[UserIdKey := userId, QrTokenKey := qrToken]);
  }

  /** An opening brace before members that read to the end of the text is
      a whole object. */
  lemma ObjectOfMembersParses(first: string, members: map<string, string>)
    requires |first| > 0 && first[0] == '"'
    requires ParseMembers(first, map[]) == Some((members, []))
    ensures Parse(['{'] + first) == Some(members)
  {
    var data := ['{'] + first;
    assert SkipWs(data) == data;
    assert data[1..] == first;
    assert SkipWs(first) == first;
    assert ParseObject(data) == Some((members, []));
    assert SkipWs([]) == [];
  }

  /** The scan page reads back the `userId` and `qrToken` a payload was built from. */
  lemma RoundTripMembers(userId: string, qrToken: string)
    ensures Parse(Encode(userId, qrToken)).Some?
    ensures Member(Parse(Encode(userId, qrToken)).value, UserIdKey) == Some(userId)
    ensures Member(Parse(Encode(userId, qrToken)).value, QrTokenKey) == Some(qrToken)
    ensures Parse(Encode(userId, qrToken)).value.Keys == {UserIdKey, QrTokenKey}
  {
    RoundTrip(userId, qrToken);
  }

  /** Distinct (userId, qrToken) pairs give distinct payloads. */
  lemma EncodeInjective(u1: string, t1: string, u2: string, t2: string)
    requires Encode(u1, t1) == Encode(u2, t2)
    ensures u1 == u2 && t1 == t2
  {
    RoundTripMembers(u1, t1);
    RoundTripMembers(u2, t2);
  }
}
