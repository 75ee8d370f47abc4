/** The path and query of a webhook URL, percent-encoded to pure RFC 3986 ASCII. */
module PathNormalization {
  import opened Basics

  /** Characters of a string, which may be lone surrogates. */
  type CodePoint = c: int | 0 <= c < 0x11_0000

  type Byte = b: int | 0 <= b < 0x100

  datatype Rejection = UnencodablePath | InvalidAfterNormalization

  datatype Result<T> = Ok(value: T) | Rejected(why: Rejection)

  const PERCENT: CodePoint := '%' as int

  predicate IsSurrogate(c: CodePoint) { 0xD800 <= c < 0xE000 }

  predicate IsDigit(c: CodePoint) { '0' as int <= c <= '9' as int }
  predicate IsUpper(c: CodePoint) { 'A' as int <= c <= 'Z' as int }
  predicate IsLower(c: CodePoint) { 'a' as int <= c <= 'z' as int }

  predicate IsHex(c: CodePoint) { IsDigit(c) || 'A' as int <= c <= 'F' as int || 'a' as int <= c <= 'f' as int }

  /** Unreserved, sub-delims and `:@/?`, as they stand. */
  predicate IsUnescaped(c: CodePoint) {
    IsDigit(c) || IsUpper(c) || IsLower(c) || exists p <- "-._~!$&'()*+,;=:@/?" :: c == p as int
  }

  /** The string begins with a valid `%XX`. */
  predicate StartsWithEscape(s: seq<CodePoint>) { |s| >= 3 && s[0] == PERCENT && IsHex(s[1]) && IsHex(s[2]) }

  function Utf8(c: CodePoint): seq<Byte>
    requires !IsSurrogate(c)
  {
    if c < 0x80 then [c]
    else if c < 0x800 then [0xC0 + c / 0x40, 0x80 + c % 0x40]
    else if c < 0x1_0000 then [0xE0 + c / 0x1000, 0x80 + c / 0x40 % 0x40, 0x80 + c % 0x40]
    else [0xF0 + c / 0x4_0000, 0x80 + c / 0x1000 % 0x40, 0x80 + c / 0x40 % 0x40, 0x80 + c % 0x40]
  }

  function HexDigit(n: int): CodePoint
    requires 0 <= n < 16
  {
    if n < 10 then '0' as int + n else 'A' as int + n - 10
  }

  function HexValue(c: CodePoint): (n: int)
    requires IsHex(c)
    ensures 0 <= n < 16
  {
    if IsDigit(c) then c - '0' as int else if IsUpper(c) then c - 'A' as int + 10 else c - 'a' as int + 10
  }

  function Escape(b: Byte): seq<CodePoint> { [PERCENT, HexDigit(b / 16), HexDigit(b % 16)] }

  function EscapeAll(bytes: seq<Byte>): seq<CodePoint> {
    if bytes == [] then [] else Escape(bytes[0]) + EscapeAll(bytes[1..])
  }

  function Prepend<T>(front: seq<T>, rest: Result<seq<T>>): Result<seq<T>> {
    match rest
    case Ok(tail) => Ok(front + tail)
    case Rejected(_) => rest
  }

  /** A valid escape is kept as it is; any other character is kept if it may stand, and its UTF-8
      bytes are escaped if it may not. */
  function Encode(raw: seq<CodePoint>): Result<seq<CodePoint>> {
    if raw == [] then Ok([])
    else if StartsWithEscape(raw) then Prepend(raw[..3], Encode(raw[3..]))
    else if IsUnescaped(raw[0]) then Prepend([raw[0]], Encode(raw[1..]))
    else if IsSurrogate(raw[0]) then Rejected(UnencodablePath)
    else Prepend(EscapeAll(Utf8(raw[0])), Encode(raw[1..]))
  }

  /** The alphabet of a normalised path: characters that may stand, and escapes. */
  predicate Legal(s: seq<CodePoint>) {
    if s == [] then true
    else if StartsWithEscape(s) then Legal(s[3..])
    else IsUnescaped(s[0]) && Legal(s[1..])
  }

  function Normalized(raw: seq<CodePoint>): Result<seq<CodePoint>> {
    match Encode(raw)
    case Rejected(why) => Rejected(why)
    case Ok(out) => if Legal(out) then Ok(out) else Rejected(InvalidAfterNormalization)
  }

  lemma PrependNothing<T>(rest: Result<seq<T>>)
    ensures Prepend([], rest) == rest
  {
    if rest.Ok? { assert [] + rest.value == rest.value; }
  }

  lemma PrependTwice<T>(a: seq<T>, b: seq<T>, rest: Result<seq<T>>)
    ensures Prepend(a, Prepend(b, rest)) == Prepend(a + b, rest)
  {
    if rest.Ok? { assert a + (b + rest.value) == (a + b) + rest.value; }
  }

  /** The encoding from position `i` on, by the cases of the loop. */
  lemma EncodeFrom(raw: seq<CodePoint>, i: nat)
    requires i < |raw|
    ensures Encode(raw[i..]) ==
            if i + 2 < |raw| && raw[i] == PERCENT && IsHex(raw[i + 1]) && IsHex(raw[i + 2])
            then Prepend(raw[i..i + 3], Encode(raw[i + 3..]))
            else if IsUnescaped(raw[i]) then Prepend([raw[i]], Encode(raw[i + 1..]))
            else if IsSurrogate(raw[i]) then Rejected(UnencodablePath)
            else Prepend(EscapeAll(Utf8(raw[i])), Encode(raw[i + 1..]))
  {
    var rest := raw[i..];
    assert rest[1..] == raw[i + 1..];
    if |rest| >= 3 {
      assert rest[..3] == raw[i..i + 3] && rest[3..] == raw[i + 3..];
    }
  }

  method NormalizePathAndQuery(raw: seq<CodePoint>) returns (r: Result<seq<CodePoint>>)
    ensures r == Normalized(raw)
  {
    var out: seq<CodePoint> := [];
    var i, n := 0, |raw|;
    assert raw[0..] == raw;
    PrependNothing(Encode(raw));
    while i < n
      invariant 0 <= i <= n
      invariant Encode(raw) == Prepend(out, Encode(raw[i..]))
    {
      var ch := raw[i];
      EncodeFrom(raw, i);
      if ch == PERCENT && i + 2 < n && IsHex(raw[i + 1]) && IsHex(raw[i + 2]) {
        PrependTwice(out, raw[i..i + 3], Encode(raw[i + 3..]));
        out := out + raw[i..i + 3];
        i := i + 3;
        continue;
      }
      if IsUnescaped(ch) {
        PrependTwice(out, [ch], Encode(raw[i + 1..]));
        out := out + [ch];
        i := i + 1;
        continue;
      }
      if IsSurrogate(ch) {
        return Rejected(UnencodablePath);
      }
      var encoded := EscapeBytes(Utf8(ch));
      PrependTwice(out, encoded, Encode(raw[i + 1..]));
      out := out + encoded;
      i := i + 1;
    }
    assert raw[n..] == [];
    assert out + [] == out;
    if !Legal(out) {
      return Rejected(InvalidAfterNormalization);
    }
    r := Ok(out);
  }

  method EscapeBytes(bytes: seq<Byte>) returns (out: seq<CodePoint>)
    ensures out == EscapeAll(bytes)
  {
    out := [];
    for k := 0 to |bytes|
      invariant EscapeAll(bytes) == out + EscapeAll(bytes[k..])
    {
      assert bytes[k..][1..] == bytes[k + 1..];
      assert out + (Escape(bytes[k]) + EscapeAll(bytes[k + 1..])) == (out + Escape(bytes[k])) + EscapeAll(bytes[k + 1..]);
      out := out + Escape(bytes[k]);
    }
    assert bytes[|bytes|..] == [];
  }

  // ----- what the string means -----

  function Then<T>(front: seq<T>, rest: Option<seq<T>>): Option<seq<T>> {
    if rest.Some? then Some(front + rest.value) else None
  }

  /** The bytes a string stands for: escapes decoded as section 2.1 of RFC 3986 has it, everything
      else in UTF-8. */
  function Meaning(s: seq<CodePoint>): Option<seq<Byte>> {
    if s == [] then Some([])
    else if StartsWithEscape(s) then Then([HexValue(s[1]) * 16 + HexValue(s[2])], Meaning(s[3..]))
    else if IsSurrogate(s[0]) then None
    else Then(Utf8(s[0]), Meaning(s[1..]))
  }

  /** An escape made here is in upper case and stands for its byte. */
  lemma EscapeIsInverse(b: Byte)
    ensures StartsWithEscape(Escape(b)) && !IsLower(Escape(b)[1]) && !IsLower(Escape(b)[2])
    ensures HexValue(Escape(b)[1]) * 16 + HexValue(Escape(b)[2]) == b
  {
  }

  /** Escapes that come in are read in either case. */
  lemma EitherCaseIsRead(c: CodePoint, d: CodePoint)
    requires 0x41 <= c <= 0x46 && d == c + 0x20
    ensures IsHex(c) && IsHex(d) && HexValue(c) == HexValue(d) == c - 0x37
  {
  }

  lemma Utf8Length(c: CodePoint)
    requires !IsSurrogate(c)
    ensures var first := Utf8(c)[0];
            |Utf8(c)| == if first < 0x80 then 1 else if first < 0xE0 then 2 else if first < 0xF0 then 3 else 4
  {
  }

  function Bits(b: Byte, mark: int): int { b as int - mark }

  function Payload(bytes: seq<Byte>): int {
    match |bytes|
    case 1 => bytes[0]
    case 2 => Bits(bytes[0], 0xC0) * 0x40 + Bits(bytes[1], 0x80)
    case 3 => (Bits(bytes[0], 0xE0) * 0x40 + Bits(bytes[1], 0x80)) * 0x40 + Bits(bytes[2], 0x80)
    case 4 => ((Bits(bytes[0], 0xF0) * 0x40 + Bits(bytes[1], 0x80)) * 0x40 + Bits(bytes[2], 0x80)) * 0x40 + Bits(bytes[3], 0x80)
    case _ => 0
  }

  lemma Utf8Payload(c: CodePoint)
    requires !IsSurrogate(c)
    ensures Payload(Utf8(c)) == c
  {
    assert c / 0x1000 == c / 0x40 / 0x40;
    assert c / 0x4_0000 == c / 0x1000 / 0x40;
  }

  /** UTF-8 loses nothing: from the bytes one can read off the first character and where it ends. */
  lemma Utf8IsUniquelyReadable(c: CodePoint, d: CodePoint, x: seq<Byte>, y: seq<Byte>)
    requires !IsSurrogate(c) && !IsSurrogate(d) && Utf8(c) + x == Utf8(d) + y
    ensures c == d && x == y
  {
    var u, v := Utf8(c), Utf8(d);
    Utf8Length(c);
    Utf8Length(d);
    assert u[0] == (u + x)[0] == (v + y)[0] == v[0];
    SameSplit(u, v, x, y);
    Utf8Payload(c);
    Utf8Payload(d);
  }

  lemma SameSplit<T>(u: seq<T>, v: seq<T>, x: seq<T>, y: seq<T>)
    requires u + x == v + y && |u| == |v|
    ensures u == v && x == y
  {
    assert u == (u + x)[..|u|] && x == (u + x)[|u|..];
    assert v == (v + y)[..|v|] && y == (v + y)[|v|..];
  }

  predicate NoEscapes(s: seq<CodePoint>) { forall i | 0 <= i < |s| :: !StartsWithEscape(s[i..]) }

  lemma MeaningOfText(s: seq<CodePoint>)
    requires NoEscapes(s) && s != [] && Meaning(s).Some?
    ensures !IsSurrogate(s[0]) && NoEscapes(s[1..]) && Meaning(s[1..]).Some?
    ensures Meaning(s).value == Utf8(s[0]) + Meaning(s[1..]).value && |Meaning(s).value| > 0
  {
    assert s[0..] == s;
    forall i | 0 <= i < |s[1..]| ensures !StartsWithEscape(s[1..][i..]) {
      assert s[1..][i..] == s[i + 1..];
    }
  }

  /** Texts without escapes that mean the same bytes are the same text. */
  lemma {:induction false} EqualMeaningsAreEqualTexts(s: seq<CodePoint>, t: seq<CodePoint>)
    requires NoEscapes(s) && NoEscapes(t) && Meaning(s).Some? && Meaning(s) == Meaning(t)
    ensures s == t
    decreases |s|
  {
    if s != [] { MeaningOfText(s); }
    if t != [] { MeaningOfText(t); }
    if s != [] && t != [] {
      Utf8IsUniquelyReadable(s[0], t[0], Meaning(s[1..]).value, Meaning(t[1..]).value);
      EqualMeaningsAreEqualTexts(s[1..], t[1..]);
      assert s == [s[0]] + s[1..] && t == [t[0]] + t[1..];
    }
  }

  lemma EscapeThen(b: Byte, tail: seq<CodePoint>)
    ensures Legal(Escape(b) + tail) == Legal(tail)
    ensures Meaning(Escape(b) + tail) == Then([b], Meaning(tail))
  {
    var s := Escape(b) + tail;
    EscapeIsInverse(b);
    assert s[..3] == Escape(b) && s[3..] == tail && s[1] == Escape(b)[1] && s[2] == Escape(b)[2];
  }

  lemma ThenTwice<T>(a: seq<T>, b: seq<T>, rest: Option<seq<T>>)
    ensures Then(a, Then(b, rest)) == Then(a + b, rest)
  {
    if rest.Some? { assert a + (b + rest.value) == (a + b) + rest.value; }
  }

  /** After escaped bytes the string reads on from where it was. */
  lemma {:induction false} EscapedThen(bytes: seq<Byte>, tail: seq<CodePoint>)
    ensures Legal(EscapeAll(bytes) + tail) == Legal(tail)
    ensures Meaning(EscapeAll(bytes) + tail) == Then(bytes, Meaning(tail))
    decreases |bytes|
  {
    if bytes == [] {
      assert EscapeAll(bytes) + tail == tail;
      if Meaning(tail).Some? { assert [] + Meaning(tail).value == Meaning(tail).value; }
    } else {
      var rest := EscapeAll(bytes[1..]) + tail;
      assert EscapeAll(bytes) + tail == Escape(bytes[0]) + rest;
      EscapeThen(bytes[0], rest);
      EscapedThen(bytes[1..], tail);
      ThenTwice([bytes[0]], bytes[1..], Meaning(tail));
      assert [bytes[0]] + bytes[1..] == bytes;
    }
  }

  /** Every result is legal and means what the input means. */
  lemma {:induction false} EncodeKeepsTheMeaning(raw: seq<CodePoint>)
    requires Encode(raw).Ok?
    ensures Legal(Encode(raw).value)
    ensures Meaning(raw).Some? && Meaning(Encode(raw).value) == Meaning(raw)
    decreases |raw|
  {
    if raw != [] {
      var out := Encode(raw).value;
      if StartsWithEscape(raw) {
        EncodeKeepsTheMeaning(raw[3..]);
        assert out[3..] == Encode(raw[3..]).value;
      } else {
        EncodeKeepsTheMeaning(raw[1..]);
        if IsUnescaped(raw[0]) {
          assert out[1..] == Encode(raw[1..]).value;
        } else {
          EscapedThen(Utf8(raw[0]), Encode(raw[1..]).value);
        }
      }
    }
  }

  ghost predicate HasSurrogate(s: seq<CodePoint>) { exists i :: 0 <= i < |s| && IsSurrogate(s[i]) }

  lemma {:induction false} EncodeFailsOnSurrogates(raw: seq<CodePoint>)
    ensures Encode(raw) == Rejected(UnencodablePath) || Encode(raw).Ok?
    ensures Encode(raw).Rejected? <==> HasSurrogate(raw)
    decreases |raw|
  {
    if raw != [] {
      var step := if StartsWithEscape(raw) then 3 else 1;
      EncodeFailsOnSurrogates(raw[step..]);
      if StartsWithEscape(raw) || !IsSurrogate(raw[0]) {
        SurrogateIsBehind(raw, step);
      }
    }
  }

  lemma SurrogateIsBehind(s: seq<CodePoint>, k: nat)
    requires k <= |s| && forall i | 0 <= i < k :: !IsSurrogate(s[i])
    ensures HasSurrogate(s) <==> HasSurrogate(s[k..])
  {
    if HasSurrogate(s) {
      var i :| 0 <= i < |s| && IsSurrogate(s[i]);
      assert s[k..][i - k] == s[i];
    }
  }

  /** The only strings refused are those with a lone surrogate: the last check never fails. */
  lemma RefusedIffSurrogate(raw: seq<CodePoint>)
    ensures Normalized(raw).Rejected? <==> HasSurrogate(raw)
    ensures Normalized(raw) != Rejected(InvalidAfterNormalization)
  {
    EncodeFailsOnSurrogates(raw);
    if Encode(raw).Ok? {
      EncodeKeepsTheMeaning(raw);
    }
  }

  /** Normalisation preserves meaning: the result has only legal characters and decodes to the same
      bytes as the input. */
  lemma NormalizationKeepsTheMeaning(raw: seq<CodePoint>)
    requires !HasSurrogate(raw)
    ensures Normalized(raw).Ok? && Legal(Normalized(raw).value)
    ensures Meaning(raw).Some? && Meaning(Normalized(raw).value) == Meaning(raw)
  {
    EncodeFailsOnSurrogates(raw);
    EncodeKeepsTheMeaning(raw);
  }

  lemma {:induction false} EncodeFixesLegal(s: seq<CodePoint>)
    requires Legal(s)
    ensures Encode(s) == Ok(s)
    decreases |s|
  {
    if s != [] {
      if StartsWithEscape(s) {
        EncodeFixesLegal(s[3..]);
        assert s[..3] + s[3..] == s;
      } else {
        EncodeFixesLegal(s[1..]);
        assert [s[0]] + s[1..] == s;
      }
    }
  }

  /** The legal strings are exactly those that normalisation leaves alone. */
  lemma LegalIffFixed(s: seq<CodePoint>)
    ensures Legal(s) <==> Normalized(s) == Ok(s)
  {
    if Legal(s) {
      EncodeFixesLegal(s);
    }
  }

  /** Normalising twice is normalising once. */
  lemma NormalizationIsIdempotent(raw: seq<CodePoint>)
    requires Normalized(raw).Ok?
    ensures Normalized(Normalized(raw).value) == Normalized(raw)
  {
    LegalIffFixed(Normalized(raw).value);
  }

  lemma UnescapedIsPrintable(c: CodePoint)
    requires IsUnescaped(c)
    ensures 0x21 <= c <= 0x7E
  {
  }

  lemma HexIsPrintable(c: CodePoint)
    requires IsHex(c) || c == PERCENT
    ensures 0x21 <= c <= 0x7E
  {
  }

  lemma LegalFront(s: seq<CodePoint>)
    requires Legal(s) && s != []
    ensures var step := if StartsWithEscape(s) then 3 else 1;
            Legal(s[step..]) && forall i | 0 <= i < step :: 0x21 <= s[i] <= 0x7E
  {
    if StartsWithEscape(s) {
      HexIsPrintable(s[0]);
      HexIsPrintable(s[1]);
      HexIsPrintable(s[2]);
    } else {
      UnescapedIsPrintable(s[0]);
    }
  }

  /** No control character, no space and nothing outside ASCII is left for the request line. */
  lemma {:induction false} LegalIsPrintable(s: seq<CodePoint>)
    requires Legal(s)
    ensures forall i | 0 <= i < |s| :: 0x21 <= s[i] <= 0x7E
    decreases |s|
  {
    if s != [] {
      var step := if StartsWithEscape(s) then 3 else 1;
      LegalFront(s);
      LegalIsPrintable(s[step..]);
      assert forall i | step <= i < |s| :: s[i] == s[step..][i - step];
    }
  }

  /** Which characters may stand, by their code points: the letters, the digits and
      `! $ & ' ( ) * + , - . / : ; = ? @ _ ~`; a percent sign stands before two hexadecimal digits. */
  lemma OneCharacter(c: CodePoint)
    ensures Normalized([c]) == Ok([c]) <==>
              || c in {0x21, 0x24, 0x3D, 0x3F, 0x5F, 0x7E} || 0x26 <= c <= 0x3B || 0x40 <= c <= 0x5A || 0x61 <= c <= 0x7A
    ensures Normalized([c]).Rejected? <==> 0xD800 <= c <= 0xDFFF
  {
    LegalIffFixed([c]);
    EncodeFailsOnSurrogates([c]);
    RefusedIffSurrogate([c]);
    assert [c][0] == c;
    assert [c][1..] == [];
    var marks := "-._~!$&'()*+,;=:@/?";
    assert forall p <- marks ::
        p as int in {0x21, 0x24, 0x3D, 0x3F, 0x5F, 0x7E} || 0x26 <= p as int <= 0x2F || p as int in {0x3A, 0x3B, 0x40};
    if c in {0x21, 0x24, 0x3D, 0x3F, 0x5F, 0x7E} || 0x26 <= c <= 0x2F || c in {0x3A, 0x3B, 0x40} {
      MarkIsFound(c);
    }
  }

  lemma MarkIsFound(c: CodePoint)
    requires c in {0x21, 0x24, 0x3D, 0x3F, 0x5F, 0x7E} || 0x26 <= c <= 0x2F || c in {0x3A, 0x3B, 0x40}
    ensures IsUnescaped(c)
  {
    var marks := "-._~!$&'()*+,;=:@/?";
    assert marks[0] in marks && marks[1] in marks && marks[2] in marks && marks[3] in marks && marks[4] in marks
        && marks[5] in marks && marks[6] in marks && marks[7] in marks && marks[8] in marks && marks[9] in marks
        && marks[10] in marks && marks[11] in marks && marks[12] in marks && marks[13] in marks && marks[14] in marks
        && marks[15] in marks && marks[16] in marks && marks[17] in marks && marks[18] in marks;
  }

  lemma EscapeStands(h: CodePoint, l: CodePoint)
    ensures Normalized([PERCENT, h, l]) == Ok([PERCENT, h, l]) <==>
              && (0x30 <= h <= 0x39 || 0x41 <= h <= 0x46 || 0x61 <= h <= 0x66)
              && (0x30 <= l <= 0x39 || 0x41 <= l <= 0x46 || 0x61 <= l <= 0x66)
  {
    var s := [PERCENT, h, l];
    LegalIffFixed(s);
    assert s[3..] == [];
    assert !IsUnescaped(PERCENT);
  }
}
