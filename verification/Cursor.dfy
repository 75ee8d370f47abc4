/** The opaque cursor of the change feed: a JSON object in unpadded URL-safe base64. */
module Cursor {
  import opened Basics
  import opened Decimal

  type Byte = b: int | 0 <= b < 0x100

  datatype Decoded = Seq(n: int) | InvalidCursor

  const CURSOR_VERSION := 1

  const MAX_SEQ := 0x7FFF_FFFF_FFFF_FFFF

  // ----- base64 -----

  /** The URL-safe alphabet. */
  function Symbol(n: int): char
    requires 0 <= n < 64
  {
    if n < 26 then ('A' as int + n) as char
    else if n < 52 then ('a' as int + n - 26) as char
    else if n < 62 then ('0' as int + n - 52) as char
    else if n == 62 then '-' else '_'
  }

  /** The value of a symbol; the decoder takes `+` and `/` as well. */
  function SymbolValue(c: char): Option<int> {
    if 'A' <= c <= 'Z' then Some(c as int - 'A' as int)
    else if 'a' <= c <= 'z' then Some(c as int - 'a' as int + 26)
    else if '0' <= c <= '9' then Some(c as int - '0' as int + 52)
    else if c == '-' || c == '+' then Some(62)
    else if c == '_' || c == '/' then Some(63)
    else None
  }

  /** The symbols for one byte and the bits above the next symbol boundary, for two, and for three. */
  function Two(a: Byte, high: int): string
    requires 0 <= high < 16
  {
    [Symbol(a / 4), Symbol(a % 4 * 16 + high)]
  }

  function Three(a: Byte, b: Byte, high: int): string
    requires 0 <= high < 4
  {
    Two(a, b / 16) + [Symbol(b % 16 * 4 + high)]
  }

  function Four(a: Byte, b: Byte, c: Byte): string { Three(a, b, c / 64) + [Symbol(c % 64)] }

  /** Section 5 of RFC 4648, with padding. */
  function Base64(bytes: seq<Byte>): string {
    match |bytes|
    case 0 => ""
    case 1 => Two(bytes[0], 0) + "=="
    case 2 => Three(bytes[0], bytes[1], 0) + "="
    case _ => Four(bytes[0], bytes[1], bytes[2]) + Base64(bytes[3..])
  }

  function StripPadding(s: string): string {
    if s != "" && s[|s| - 1] == '=' then StripPadding(s[..|s| - 1]) else s
  }

  function Padding(n: nat): string { seq(n, _ => '=') }

  function RestorePadding(s: string): string { s + Padding(PadsAfter(|s|)) }

  function Then(b: int, rest: Option<seq<Byte>>): Option<seq<Byte>> {
    if 0 <= b < 0x100 && rest.Some? then Some([b] + rest.value) else None
  }

  /** The lenient decoder: characters outside the alphabet are passed over, and enough padding
      ends the input.  `quad` symbols of the current group have been read, `left` are the bits of
      the last one not used yet, `pads` the padding seen since. */
  function Scan(s: string, quad: nat, left: int, pads: nat): Option<seq<Byte>> {
    if s == "" then (if quad == 0 then Some([]) else None)
    else if s[0] == '=' then
      if quad >= 2 && quad + pads + 1 >= 4 then Some([])
      else Scan(s[1..], quad, left, if quad >= 2 then pads + 1 else pads)
    else match SymbolValue(s[0])
      case None => Scan(s[1..], quad, left, pads)
      case Some(v) =>
        match quad
        case 0 => Scan(s[1..], 1, v, 0)
        case 1 => Then(left * 4 + v / 16, Scan(s[1..], 2, v % 16, 0))
        case 2 => Then(left * 16 + v / 4, Scan(s[1..], 3, v % 4, 0))
        case _ => Then(left * 64 + v, Scan(s[1..], 0, 0, 0))
  }

  function FromBase64(s: string): Option<seq<Byte>> { Scan(s, 0, 0, 0) }

  lemma SymbolIsRead(n: int)
    requires 0 <= n < 64
    ensures SymbolValue(Symbol(n)) == Some(n) && Symbol(n) != '='
  {
  }

  /** What is left to read after one symbol. */
  lemma ReadSymbol(v: int, tail: string, quad: nat, left: int, pads: nat)
    requires 0 <= v < 64
    ensures Scan([Symbol(v)] + tail, quad, left, pads) ==
            match quad
            case 0 => Scan(tail, 1, v, 0)
            case 1 => Then(left * 4 + v / 16, Scan(tail, 2, v % 16, 0))
            case 2 => Then(left * 16 + v / 4, Scan(tail, 3, v % 4, 0))
            case _ => Then(left * 64 + v, Scan(tail, 0, 0, 0))
  {
    SymbolIsRead(v);
    assert ([Symbol(v)] + tail)[1..] == tail;
  }

  lemma ReadTwo(a: Byte, high: int, tail: string)
    requires 0 <= high < 16
    ensures Scan(Two(a, high) + tail, 0, 0, 0) == Then(a, Scan(tail, 2, high, 0))
  {
    var second := [Symbol(a % 4 * 16 + high)] + tail;
    assert Two(a, high) + tail == [Symbol(a / 4)] + second;
    ReadSymbol(a / 4, second, 0, 0, 0);
    ReadSymbol(a % 4 * 16 + high, tail, 1, a / 4, 0);
    TopBits(a, high);
  }

  lemma TopBits(a: Byte, high: int)
    requires 0 <= high < 16
    ensures var v := a % 4 * 16 + high; a / 4 * 4 + v / 16 == a && v % 16 == high
  {
  }

  lemma ReadThree(a: Byte, b: Byte, high: int, tail: string)
    requires 0 <= high < 4
    ensures Scan(Three(a, b, high) + tail, 0, 0, 0) == Then(a, Then(b, Scan(tail, 3, high, 0)))
  {
    var third := [Symbol(b % 16 * 4 + high)] + tail;
    assert Three(a, b, high) + tail == Two(a, b / 16) + third;
    ReadTwo(a, b / 16, third);
    ReadSymbol(b % 16 * 4 + high, tail, 2, b / 16, 0);
    MiddleBits(b, high);
  }

  lemma MiddleBits(b: Byte, high: int)
    requires 0 <= high < 4
    ensures var v := b % 16 * 4 + high; 0 <= v < 64 && b / 16 * 16 + v / 4 == b && v % 4 == high
  {
  }

  lemma ReadFour(a: Byte, b: Byte, c: Byte, tail: string)
    ensures Scan(Four(a, b, c) + tail, 0, 0, 0) == Then(a, Then(b, Then(c, Scan(tail, 0, 0, 0))))
  {
    var fourth := [Symbol(c % 64)] + tail;
    assert Four(a, b, c) + tail == Three(a, b, c / 64) + fourth;
    ReadThree(a, b, c / 64, fourth);
    ReadSymbol(c % 64, tail, 3, c / 64, 0);
  }

  lemma PaddingEnds(quad: nat, left: int)
    requires 2 <= quad <= 3
    ensures Scan(Padding(4 - quad), quad, left, 0) == Some([])
  {
    if quad == 2 { assert Padding(2)[1..] == Padding(1); }
  }

  lemma {:induction false} Base64IsRead(bytes: seq<Byte>)
    ensures FromBase64(Base64(bytes)) == Some(bytes)
    decreases |bytes|
  {
    match |bytes| {
      case 0 =>
      case 1 =>
        assert "==" == Padding(2);
        ReadTwo(bytes[0], 0, Padding(2));
        PaddingEnds(2, 0);
        assert [bytes[0]] + [] == bytes;
      case 2 =>
        assert "=" == Padding(1);
        ReadThree(bytes[0], bytes[1], 0, Padding(1));
        PaddingEnds(3, 0);
        assert [bytes[0]] + ([bytes[1]] + []) == bytes;
      case _ =>
        Base64IsRead(bytes[3..]);
        ReadFour(bytes[0], bytes[1], bytes[2], Base64(bytes[3..]));
        assert [bytes[0]] + ([bytes[1]] + ([bytes[2]] + bytes[3..])) == bytes;
    }
  }

  // ----- padding -----

  predicate IsUrlSafe(c: char) { SymbolValue(c).Some? && c != '+' && c != '/' }

  predicate AllUrlSafe(s: string) { forall i | 0 <= i < |s| :: IsUrlSafe(s[i]) }

  lemma SymbolIsUrlSafe(n: int)
    requires 0 <= n < 64
    ensures IsUrlSafe(Symbol(n))
  {
  }

  lemma GroupIsUrlSafe(a: Byte, b: Byte, c: Byte)
    ensures AllUrlSafe(Four(a, b, c)) && |Four(a, b, c)| == 4
  {
    SymbolIsUrlSafe(a / 4);
    SymbolIsUrlSafe(a % 4 * 16 + b / 16);
    SymbolIsUrlSafe(b % 16 * 4 + c / 64);
    SymbolIsUrlSafe(c % 64);
  }

  lemma PartOfGroupIsUrlSafe(a: Byte, b: Byte)
    ensures AllUrlSafe(Two(a, 0)) && |Two(a, 0)| == 2
    ensures AllUrlSafe(Three(a, b, 0)) && |Three(a, b, 0)| == 3
  {
    GroupIsUrlSafe(a, 0, 0);
    assert Two(a, 0) == Four(a, 0, 0)[..2];
    GroupIsUrlSafe(a, b, 0);
    assert Three(a, b, 0) == Four(a, b, 0)[..3];
  }

  /** The encoding without its padding. */
  function Unpadded(bytes: seq<Byte>): string {
    match |bytes|
    case 0 => ""
    case 1 => Two(bytes[0], 0)
    case 2 => Three(bytes[0], bytes[1], 0)
    case _ => Four(bytes[0], bytes[1], bytes[2]) + Unpadded(bytes[3..])
  }

  function PadsAfter(n: nat): nat { -(n as int) % 4 }

  /** The padded form is a whole number of groups: symbols first, then at most two pads. */
  lemma {:induction false} Base64Shape(bytes: seq<Byte>)
    ensures Base64(bytes) == Unpadded(bytes) + Padding(PadsAfter(|Unpadded(bytes)|))
    ensures AllUrlSafe(Unpadded(bytes))
    decreases |bytes|
  {
    match |bytes| {
      case 0 =>
      case 1 =>
        PartOfGroupIsUrlSafe(bytes[0], 0);
        assert "==" == Padding(2);
      case 2 =>
        PartOfGroupIsUrlSafe(bytes[0], bytes[1]);
        assert "=" == Padding(1);
      case _ =>
        Base64Shape(bytes[3..]);
        GroupIsUrlSafe(bytes[0], bytes[1], bytes[2]);
        OneMoreGroup(Four(bytes[0], bytes[1], bytes[2]), Unpadded(bytes[3..]));
    }
  }

  lemma OneMoreGroup(group: string, rest: string)
    requires |group| == 4 && AllUrlSafe(group) && AllUrlSafe(rest)
    ensures AllUrlSafe(group + rest) && PadsAfter(|group + rest|) == PadsAfter(|rest|)
    ensures group + rest + Padding(PadsAfter(|rest|)) == group + (rest + Padding(PadsAfter(|rest|)))
  {
  }

  lemma {:induction false} StripTakesThePadding(body: string, pads: nat)
    requires body == "" || body[|body| - 1] != '='
    ensures StripPadding(body + Padding(pads)) == body
  {
    if pads > 0 {
      assert (body + Padding(pads))[..|body| + pads - 1] == body + Padding(pads - 1);
      StripTakesThePadding(body, pads - 1);
    } else {
      assert body + Padding(0) == body;
    }
  }

  /** The padding that was taken off can always be put back. */
  lemma PaddingIsRestored(bytes: seq<Byte>)
    ensures RestorePadding(StripPadding(Base64(bytes))) == Base64(bytes)
  {
    Base64Shape(bytes);
    StripTakesThePadding(Unpadded(bytes), PadsAfter(|Unpadded(bytes)|));
  }

  // ----- JSON, as far as objects without nesting go -----

  datatype Json = Int(n: int) | Bool(b: bool) | Null

  type Object = map<string, Json>

  function Printed(n: int): string { if n < 0 then "-" + Digits(-n) else Digits(n) }

  function PrintedMember(name: string, n: int): string { "\"" + name + "\":" + Printed(n) }

  /** How many digits `s` begins with. */
  function DigitRun(s: string): (k: nat)
    ensures k <= |s| && AllDigits(s[..k]) && (k < |s| ==> !IsDigit(s[k]))
  {
    if s == "" || !IsDigit(s[0]) then 0 else DigitRun(s[1..]) + 1
  }

  /** An unsigned integer, and what follows it. */
  function ReadNatural(s: string): Option<(nat, string)> {
    var k := DigitRun(s);
    if IsCanonical(s[..k]) then Some((Value(s[..k]), s[k..])) else None
  }

  function ReadValue(s: string): Option<(Json, string)> {
    if "true" <= s then Some((Bool(true), s[4..]))
    else if "false" <= s then Some((Bool(false), s[5..]))
    else if "null" <= s then Some((Null, s[4..]))
    else if "-" <= s then
      (match ReadNatural(s[1..])
       case None => None
       case Some((n, rest)) => Some((Int(-(n as int)), rest)))
    else match ReadNatural(s)
      case None => None
      case Some((n, rest)) => Some((Int(n), rest))
  }

  predicate IsPlain(c: char) { ' ' <= c <= '~' && c != '\"' && c != '\\' }

  /** How many characters of a member name `s` begins with. */
  function NameRun(s: string): (k: nat)
    ensures k <= |s|
  {
    if s == "" || !IsPlain(s[0]) then 0 else NameRun(s[1..]) + 1
  }

  /** `"name":value`, and what follows it. */
  function ReadMember(s: string): Option<(string, Json, string)> {
    if s == "" || s[0] != '\"' then None
    else
      var k := NameRun(s[1..]) + 1;
      if !("\":" <= s[k..]) then None
      else match ReadValue(s[k + 2..])
        case None => None
        case Some((v, rest)) => Some((s[1..k], v, rest))
  }

  /** The members up to the closing brace, which must end the text.  A repeated name keeps its last
      value. */
  function ReadMembers(s: string, sofar: Object): Option<Object>
    decreases |s|
  {
    match ReadMember(s)
    case None => None
    case Some((name, v, rest)) =>
      if rest == "}" then Some(sofar[name := v])
      else if "," <= rest && |rest| < |s| then ReadMembers(rest[1..], sofar[name := v])
      else None
  }

  /** `json.loads` of an object. */
  function ReadObject(s: string): Option<Object> {
    if s == "{}" then Some(map[]) else if "{" <= s then ReadMembers(s[1..], map[]) else None
  }

  // ----- the cursor -----

  function ToBytes(s: string): seq<Byte>
    requires forall i | 0 <= i < |s| :: s[i] as int < 0x80
  {
    seq(|s|, i requires 0 <= i < |s| => s[i] as int)
  }

  function ToText(bytes: seq<Byte>): Option<string> {
    if forall i | 0 <= i < |bytes| :: bytes[i] < 0x80 then
      Some(seq(|bytes|, i requires 0 <= i < |bytes| => (bytes[i] as int) as char))
    else None
  }

  function Text(n: int): (s: string)
    ensures forall i | 0 <= i < |s| :: s[i] as int < 0x80
  {
    PrintedIsAscii(n);
    PrintedIsAscii(CURSOR_VERSION);
    "{" + PrintedMember("v", CURSOR_VERSION) + "," + PrintedMember("seq", n) + "}"
  }

  function Encode(n: int): string { StripPadding(Base64(ToBytes(Text(n)))) }

  /** In the original's language `true == 1`, so a `true` version passes. */
  predicate IsVersion(v: Json) { v == Int(CURSOR_VERSION) || v == Bool(true) }

  function Checked(payload: Object): Decoded {
    if "v" !in payload || !IsVersion(payload["v"]) then InvalidCursor
    else if "seq" !in payload || !payload["seq"].Int? then InvalidCursor
    else if payload["seq"].n < 0 || payload["seq"].n > MAX_SEQ then InvalidCursor
    else Seq(payload["seq"].n)
  }

  function Payload(cursor: string): Option<Object> {
    match FromBase64(RestorePadding(cursor))
    case None => None
    case Some(bytes) =>
      match ToText(bytes)
      case None => None
      case Some(text) => ReadObject(text)
  }

  function Decode(cursor: string): Decoded {
    match Payload(cursor)
    case None => InvalidCursor
    case Some(payload) => Checked(payload)
  }

  lemma PrintedIsAscii(n: int)
    ensures forall i | 0 <= i < |Printed(n)| :: Printed(n)[i] as int < 0x80
  {
    DigitsAreRead(if n < 0 then -n else n);
  }

  lemma {:induction false} RunEnds(digits: string, tail: string)
    requires AllDigits(digits) && (tail != "" ==> !IsDigit(tail[0]))
    ensures DigitRun(digits + tail) == |digits|
    decreases |digits|
  {
    if digits == "" {
      assert digits + tail == tail;
    } else {
      assert (digits + tail)[1..] == digits[1..] + tail;
      RunEnds(digits[1..], tail);
    }
  }

  lemma NaturalIsRead(n: nat, tail: string)
    requires tail != "" ==> !IsDigit(tail[0])
    ensures ReadNatural(Digits(n) + tail) == Some((n, tail))
  {
    DigitsAreRead(n);
    RunEnds(Digits(n), tail);
  }

  lemma PositiveIsRead(n: nat, tail: string)
    requires tail != "" && !IsDigit(tail[0])
    ensures ReadValue(Digits(n) + tail) == Some((Int(n), tail))
  {
    var s := Digits(n) + tail;
    DigitsAreRead(n);
    NaturalIsRead(n, tail);
    assert s[0] == Digits(n)[0] && IsDigit(s[0]);
    OtherWords(s);
  }

  lemma NegativeIsRead(n: nat, tail: string)
    requires tail != "" && !IsDigit(tail[0])
    ensures ReadValue("-" + Digits(n) + tail) == Some((Int(-(n as int)), tail))
  {
    NaturalIsRead(n, tail);
    MinusIsRead("-" + Digits(n) + tail, Digits(n) + tail);
  }

  lemma MinusIsRead(s: string, digits: string)
    requires s == "-" + digits
    ensures ReadValue(s) ==
            match ReadNatural(digits)
            case None => None
            case Some((n, rest)) => Some((Int(-(n as int)), rest))
  {
    assert s[0] == '-' && s[1..] == digits;
    OtherWords(s);
  }

  /** A text that begins otherwise is none of the three words. */
  lemma OtherWords(s: string)
    requires s != "" && s[0] !in "tfn"
    ensures !("true" <= s) && !("false" <= s) && !("null" <= s)
    ensures "-" <= s <==> s[0] == '-'
  {
    assert "true"[0] == 't' && "false"[0] == 'f' && "null"[0] == 'n';
  }

  /** A printed integer is read back whole, up to the separator that follows it. */
  lemma ValueIsRead(n: int, tail: string)
    requires tail != "" && !IsDigit(tail[0])
    ensures ReadValue(Printed(n) + tail) == Some((Int(n), tail))
  {
    if n < 0 { NegativeIsRead(-n, tail); } else { PositiveIsRead(n, tail); }
  }

  lemma {:induction false} NameEnds(name: string, tail: string)
    requires forall i | 0 <= i < |name| :: IsPlain(name[i])
    requires tail != "" && !IsPlain(tail[0])
    ensures NameRun(name + tail) == |name|
    decreases |name|
  {
    if name == "" {
      assert name + tail == tail;
    } else {
      assert (name + tail)[1..] == name[1..] + tail;
      NameEnds(name[1..], tail);
    }
  }

  /** Where the parts of a member are. */
  lemma MemberParts(name: string, value: string, s: string)
    requires s == "\"" + name + "\":" + value
    ensures var k := |name| + 1;
            && s[0] == '\"' && s[1..] == name + ("\":" + value) && k + 2 <= |s|
            && s[1..k] == name && "\":" <= s[k..] && s[k + 2..] == value
  {
    var k := |name| + 1;
    assert s[k] == '\"' && s[k + 1] == ':';
    assert s[k..] == "\":" + value;
  }

  lemma MemberIsRead(name: string, n: int, tail: string)
    requires forall i | 0 <= i < |name| :: IsPlain(name[i])
    requires tail != "" && !IsDigit(tail[0])
    ensures ReadMember(PrintedMember(name, n) + tail) == Some((name, Int(n), tail))
  {
    var s, value := PrintedMember(name, n) + tail, Printed(n) + tail;
    assert s == "\"" + name + "\":" + value;
    NameThenValue(name, value, s);
    ValueIsRead(n, tail);
  }

  lemma NameThenValue(name: string, value: string, s: string)
    requires forall i | 0 <= i < |name| :: IsPlain(name[i])
    requires s == "\"" + name + "\":" + value
    ensures ReadMember(s) ==
            match ReadValue(value)
            case None => None
            case Some((v, rest)) => Some((name, v, rest))
  {
    MemberParts(name, value, s);
    NameEnds(name, "\":" + value);
  }

  lemma LastMemberIsRead(name: string, n: int, sofar: Object)
    requires forall i | 0 <= i < |name| :: IsPlain(name[i])
    ensures ReadMembers(PrintedMember(name, n) + "}", sofar) == Some(sofar[name := Int(n)])
  {
    MemberIsRead(name, n, "}");
  }

  lemma MoreMembersAreRead(name: string, n: int, rest: string, sofar: Object)
    requires forall i | 0 <= i < |name| :: IsPlain(name[i])
    ensures ReadMembers(PrintedMember(name, n) + ("," + rest), sofar) == ReadMembers(rest, sofar[name := Int(n)])
  {
    MemberIsRead(name, n, "," + rest);
    assert ("," + rest)[1..] == rest;
  }

  lemma BraceOpens(members: string)
    requires |members| > 1
    ensures ReadObject("{" + members) == ReadMembers(members, map[])
  {
    var s := "{" + members;
    assert s[1..] == members && s[0] == '{' && |s| > 2;
  }

  lemma TwoMembersAreRead(m: int, n: int)
    ensures ReadMembers(PrintedMember("v", m) + ("," + (PrintedMember("seq", n) + "}")), map[])
         == Some(map["v" := Int(m), "seq" := Int(n)])
  {
    MoreMembersAreRead("v", m, PrintedMember("seq", n) + "}", map[]);
    LastMemberIsRead("seq", n, map["v" := Int(m)]);
    assert map["v" := Int(m)]["seq" := Int(n)] == map["v" := Int(m), "seq" := Int(n)];
  }

  lemma TextIsRead(n: int)
    ensures ReadObject(Text(n)) == Some(map["v" := Int(CURSOR_VERSION), "seq" := Int(n)])
  {
    var members := PrintedMember("v", CURSOR_VERSION) + ("," + (PrintedMember("seq", n) + "}"));
    assert Text(n) == "{" + members;
    BraceOpens(members);
    TwoMembersAreRead(CURSOR_VERSION, n);
  }

  lemma TextOfBytes(s: string)
    requires forall i | 0 <= i < |s| :: s[i] as int < 0x80
    ensures ToText(ToBytes(s)) == Some(s)
  {
    var bytes := ToBytes(s);
    assert ToText(bytes).value == s;
  }

  /** Whatever number is wrapped, the wrapping comes off again. */
  lemma PayloadIsRead(n: int)
    ensures Payload(Encode(n)) == Some(map["v" := Int(CURSOR_VERSION), "seq" := Int(n)])
  {
    var bytes := ToBytes(Text(n));
    PaddingIsRestored(bytes);
    Base64IsRead(bytes);
    TextOfBytes(Text(n));
    TextIsRead(n);
  }

  /** The round trip: a cursor is accepted exactly when it was made from a number in the range of a
      sequence value, and then gives that number back. */
  lemma CursorRoundTrip(n: int)
    ensures Decode(Encode(n)) == if 0 <= n <= 9_223_372_036_854_775_807 then Seq(n) else InvalidCursor
  {
    PayloadIsRead(n);
  }

  lemma EncodeIsInjective(n: int, m: int)
    requires Encode(n) == Encode(m)
    ensures n == m
  {
    PayloadIsRead(n);
    PayloadIsRead(m);
    assert map["v" := Int(CURSOR_VERSION), "seq" := Int(n)]["seq"] == Int(n);
    assert map["v" := Int(CURSOR_VERSION), "seq" := Int(m)]["seq"] == Int(m);
  }

  /** A cursor can stand in a query string as it is. */
  lemma CursorIsUrlSafe(n: int)
    ensures AllUrlSafe(Encode(n))
  {
    var bytes := ToBytes(Text(n));
    Base64Shape(bytes);
    StripTakesThePadding(Unpadded(bytes), PadsAfter(|Unpadded(bytes)|));
  }

  // ----- base64 is a number in base 64 -----

  /** The bytes as the digits of a number, after those of `high`. */
  function Number(high: int, bytes: seq<Byte>): int
    decreases |bytes|
  {
    if bytes == [] then high else Number(high * 0x100 + bytes[0], bytes[1..])
  }

  /** The symbols as the digits of a number, after those of `high`; anything else counts as 0. */
  function SymbolNumber(high: int, s: string): int
    decreases |s|
  {
    if s == "" then high
    else SymbolNumber(high * 64 + (if SymbolValue(s[0]).Some? then SymbolValue(s[0]).value else 0), s[1..])
  }

  lemma {:induction false} SymbolNumberAppend(high: int, a: string, b: string)
    ensures SymbolNumber(high, a + b) == SymbolNumber(SymbolNumber(high, a), b)
    decreases |a|
  {
    if a == "" {
      assert a + b == b;
    } else {
      assert (a + b)[1..] == a[1..] + b;
      SymbolNumberAppend(high * 64 + (if SymbolValue(a[0]).Some? then SymbolValue(a[0]).value else 0), a[1..], b);
    }
  }

  lemma OneSymbolMore(high: int, v: int)
    requires 0 <= v < 64
    ensures SymbolNumber(high, [Symbol(v)]) == high * 64 + v
  {
    SymbolIsRead(v);
    assert [Symbol(v)][1..] == "";
  }

  lemma NumberOfTwo(high: int, a: Byte, rest: int)
    requires 0 <= rest < 16
    ensures SymbolNumber(high, Two(a, rest)) == high * 0x1000 + a * 16 + rest
  {
    var first, second := [Symbol(a / 4)], [Symbol(a % 4 * 16 + rest)];
    assert Two(a, rest) == first + second;
    SymbolNumberAppend(high, first, second);
    OneSymbolMore(high, a / 4);
    OneSymbolMore(high * 64 + a / 4, a % 4 * 16 + rest);
  }

  lemma NumberOfThree(high: int, a: Byte, b: Byte, rest: int)
    requires 0 <= rest < 4
    ensures SymbolNumber(high, Three(a, b, rest)) == high * 0x4_0000 + (a * 0x100 + b) * 4 + rest
  {
    SymbolNumberAppend(high, Two(a, b / 16), [Symbol(b % 16 * 4 + rest)]);
    NumberOfTwo(high, a, b / 16);
    OneSymbolMore(high * 0x1000 + a * 16 + b / 16, b % 16 * 4 + rest);
  }

  lemma NumberOfFour(high: int, a: Byte, b: Byte, c: Byte)
    ensures SymbolNumber(high, Four(a, b, c)) == high * 0x100_0000 + (a * 0x100 + b) * 0x100 + c
  {
    SymbolNumberAppend(high, Three(a, b, c / 64), [Symbol(c % 64)]);
    NumberOfThree(high, a, b, c / 64);
    OneSymbolMore(high * 0x4_0000 + (a * 0x100 + b) * 4 + c / 64, c % 64);
  }

  /** Three bytes behind `high`. */
  function GroupNumber(high: int, a: Byte, b: Byte, c: Byte): int { high * 0x100_0000 + (a as int * 0x100 + b) * 0x100 + c }

  lemma NumberStep(high: int, a: Byte, rest: seq<Byte>)
    ensures Number(high, [a] + rest) == Number(high * 0x100 + a, rest)
  {
    assert ([a] + rest)[1..] == rest;
  }

  lemma NumberOfGroup(high: int, a: Byte, b: Byte, c: Byte, rest: seq<Byte>)
    ensures Number(high, [a] + ([b] + ([c] + rest))) == Number(GroupNumber(high, a, b, c), rest)
  {
    NumberStep(high, a, [b] + ([c] + rest));
    NumberStep(high * 0x100 + a, b, [c] + rest);
    NumberStep((high * 0x100 + a) * 0x100 + b, c, rest);
    assert ((high * 0x100 + a) * 0x100 + b) * 0x100 + c == GroupNumber(high, a, b, c);
  }

  /** Zero bits that fill up the last symbol. */
  function Filling(n: nat): int { if n % 3 == 0 then 1 else if n % 3 == 1 then 16 else 4 }

  lemma NumberOfGroupOfSymbols(high: int, a: Byte, b: Byte, c: Byte, rest: string)
    ensures SymbolNumber(high, Four(a, b, c) + rest) == SymbolNumber(GroupNumber(high, a, b, c), rest)
  {
    SymbolNumberAppend(high, Four(a, b, c), rest);
    NumberOfFour(high, a, b, c);
  }

  lemma ShortIsTheNumber(high: int, a: Byte, b: Byte)
    ensures SymbolNumber(high, Two(a, 0)) == Number(high, [a]) * 16
    ensures SymbolNumber(high, Three(a, b, 0)) == Number(high, [a, b]) * 4
  {
    NumberOfTwo(high, a, 0);
    NumberOfThree(high, a, b, 0);
    NumberStep(high, a, []);
    NumberStep(high, a, [b]);
    NumberStep(high * 0x100 + a, b, []);
    assert [a] + [] == [a] && [a] + [b] == [a, b] && [b] + [] == [b];
  }

  lemma OneGroupOfBytesMore(high: int, bytes: seq<Byte>)
    requires |bytes| > 2
    ensures Number(high, bytes) == Number(GroupNumber(high, bytes[0], bytes[1], bytes[2]), bytes[3..])
  {
    NumberOfGroup(high, bytes[0], bytes[1], bytes[2], bytes[3..]);
    assert bytes == [bytes[0]] + ([bytes[1]] + ([bytes[2]] + bytes[3..]));
  }

  lemma GroupThenRest(bytes: seq<Byte>)
    requires |bytes| > 2
    ensures Unpadded(bytes) == Four(bytes[0], bytes[1], bytes[2]) + Unpadded(bytes[3..]) && Filling(|bytes|) == Filling(|bytes| - 3)
  {
  }

  lemma {:induction false} UnpaddedIsTheNumber(high: int, bytes: seq<Byte>, filling: int)
    requires filling == Filling(|bytes|)
    ensures SymbolNumber(high, Unpadded(bytes)) == Number(high, bytes) * filling
    decreases |bytes|
  {
    if |bytes| == 1 || |bytes| == 2 {
      ShortIsTheNumber(high, bytes[0], bytes[|bytes| - 1]);
      assert bytes == if |bytes| == 1 then [bytes[0]] else [bytes[0], bytes[1]];
    } else if |bytes| > 2 {
      GroupThenRest(bytes);
      UnpaddedIsTheNumber(GroupNumber(high, bytes[0], bytes[1], bytes[2]), bytes[3..], filling);
      NumberOfGroupOfSymbols(high, bytes[0], bytes[1], bytes[2], Unpadded(bytes[3..]));
      OneGroupOfBytesMore(high, bytes);
    }
  }

  /** The encoding writes the number of the bytes in base 64, most significant symbol first, with as
      many zero bits behind it as the last symbol has room for. */
  lemma Base64IsTheNumber(bytes: seq<Byte>)
    ensures SymbolNumber(0, StripPadding(Base64(bytes)))
            == Number(0, bytes) * (if |bytes| % 3 == 0 then 1 else if |bytes| % 3 == 1 then 16 else 4)
  {
    Base64Shape(bytes);
    StripTakesThePadding(Unpadded(bytes), PadsAfter(|Unpadded(bytes)|));
    UnpaddedIsTheNumber(0, bytes, Filling(|bytes|));
  }

  // ----- what else is accepted -----

  /** Characters outside the alphabet are passed over wherever they are. */
  lemma {:induction false} OthersArePassedOver(a: string, c: char, b: string, quad: nat, left: int, pads: nat)
    requires SymbolValue(c) == None && c != '='
    ensures Scan(a + [c] + b, quad, left, pads) == Scan(a + b, quad, left, pads)
    decreases |a|
  {
    if a == "" {
      assert a + [c] + b == [c] + b && a + b == b;
      assert ([c] + b)[1..] == b;
    } else {
      var s, t := a + [c] + b, a + b;
      assert s[0] == t[0] == a[0] && s[1..] == a[1..] + [c] + b && t[1..] == a[1..] + b;
      forall q: nat, l: int, p: nat
        ensures Scan(s[1..], q, l, p) == Scan(t[1..], q, l, p)
      {
        OthersArePassedOver(a[1..], c, b, q, l, p);
      }
    }
  }

  /** The symbols of the alphabet that is not URL-safe. */
  function Standard(s: string): string { seq(|s|, i requires 0 <= i < |s| => if s[i] == '-' then '+' else if s[i] == '_' then '/' else s[i]) }

  /** Either alphabet is read, to the same bytes. */
  lemma {:induction false} EitherAlphabetIsRead(s: string, quad: nat, left: int, pads: nat)
    ensures Scan(Standard(s), quad, left, pads) == Scan(s, quad, left, pads)
    decreases |s|
  {
    if s != "" {
      assert Standard(s)[1..] == Standard(s[1..]);
      forall q: nat, l: int, p: nat
        ensures Scan(Standard(s[1..]), q, l, p) == Scan(s[1..], q, l, p)
      {
        EitherAlphabetIsRead(s[1..], q, l, p);
      }
    }
  }

  /** A group that was begun needs at least two symbols, and and then pads enough to complete it. */
  lemma {:induction false} PaddingCompletes(quad: nat, left: int, pads: nat, n: nat)
    requires quad < 4
    ensures Scan(Padding(n), quad, left, pads) != None <==> quad == 0 || (quad >= 2 && n > 0 && quad + pads + n >= 4)
    decreases n
  {
    if n > 0 {
      assert Padding(n)[1..] == Padding(n - 1);
      PaddingCompletes(quad, left, if quad >= 2 then pads + 1 else pads, n - 1);
    }
  }

  /** What makes a text a cursor: the object inside has version 1, or `true`, and a whole number in
      the range of a sequence value; more members do no harm. */
  lemma DecodesIff(cursor: string, n: int)
    ensures Decode(cursor) == Seq(n) <==>
              && 0 <= n <= 9_223_372_036_854_775_807
              && exists payload :: Payload(cursor) == Some(payload)
                   && "v" in payload && (payload["v"] == Int(1) || payload["v"] == Bool(true))
                   && "seq" in payload && payload["seq"] == Int(n)
  {
    if Decode(cursor) == Seq(n) {
      assert Payload(cursor) == Some(Payload(cursor).value);
    }
  }

  /** The text inside, with nothing left out. */
  lemma TextSpelledOut(n: int)
    ensures Text(n) == "{\"v\":1,\"seq\":" + (if n < 0 then "-" + Digits(-n) else Digits(n)) + "}"
  {
    assert Digits(1) == "1";
    assert PrintedMember("v", 1) == "\"v\":1";
    assert "\"v\":1" + "," + ("\"" + "seq" + "\":") == "\"v\":1,\"seq\":";
  }
}
