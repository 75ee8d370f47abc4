/** Bill identifiers: their canonical form, their URL slugs, and the way back. */
module BillNumber {
  import opened Basics
  import opened Decimal

  // ----- characters -----

  predicate IsUpper(c: char) { 'A' <= c <= 'Z' }

  predicate IsLower(c: char) { 'a' <= c <= 'z' }

  predicate IsAlphanumeric(c: char) { IsUpper(c) || IsLower(c) || IsDigit(c) }

  /** `\s` on text. */
  predicate IsSpace(c: char) {
    var n := c as int;
    || 0x09 <= n <= 0x0D || 0x1C <= n <= 0x20 || n == 0x85 || n == 0xA0 || n == 0x1680
    || 0x2000 <= n <= 0x200A || n == 0x2028 || n == 0x2029 || n == 0x202F || n == 0x205F || n == 0x3000
  }

  function ToUpper(c: char): char { if IsLower(c) then (c as int - 32) as char else c }

  /** Lower case, as far as it can yield an ASCII letter: two characters outside ASCII do. */
  function ToLower(c: char): string {
    if IsUpper(c) then [(c as int + 32) as char]
    else if c == KELVIN then "k"
    else if c == DOTTED_I then "i\U{0307}"
    else [c]
  }

  const KELVIN := '\U{212A}'
  const DOTTED_I := '\U{0130}'

  // ----- normalize_bill_number -----

  function Filter(p: char -> bool, s: string): string {
    if s == "" then "" else (if p(s[0]) then [s[0]] else "") + Filter(p, s[1..])
  }

  function Upper(s: string): string { seq(|s|, i requires 0 <= i < |s| => ToUpper(s[i])) }

  /** Each run of white space becomes one blank. */
  function Collapsed(s: string): string {
    if s == "" then ""
    else if IsSpace(s[0]) then (if |s| > 1 && IsSpace(s[1]) then "" else " ") + Collapsed(s[1..])
    else [s[0]] + Collapsed(s[1..])
  }

  function StripLeft(s: string): string { if s != "" && IsSpace(s[0]) then StripLeft(s[1..]) else s }

  function StripRight(s: string): string {
    if s != "" && IsSpace(s[|s| - 1]) then StripRight(s[..|s| - 1]) else s
  }

  function Kept(raw: string): string { Filter(c => IsAlphanumeric(c) || IsSpace(c), raw) }

  /** The three rewrites before the pattern is tried. */
  function Compact(raw: string): string {
    Filter(c => c != ' ', StripRight(StripLeft(Collapsed(Upper(Kept(raw))))))
  }

  function Run(p: char -> bool, s: string): (k: nat)
    ensures k <= |s| && (forall i | 0 <= i < k :: p(s[i])) && (k < |s| ==> !p(s[k]))
  {
    if s == "" || !p(s[0]) then 0 else Run(p, s[1..]) + 1
  }

  datatype Parts = Parts(prefix: string, digits: string, suffix: string)

  predicate AllUpper(s: string) { forall i | 0 <= i < |s| :: IsUpper(s[i]) }

  /** The pattern: letters, then digits, then letters, and nothing else. */
  ghost predicate Splits(s: string, p: Parts) {
    && s == p.prefix + p.digits + p.suffix
    && AllUpper(p.prefix) && AllUpper(p.suffix) && AllDigits(p.digits) && p.digits != ""
  }

  function Match(s: string): Option<Parts> {
    var a := Run(IsUpper, s);
    var b := Run(IsDigit, s[a..]);
    if b > 0 && AllUpper(s[a + b..]) then Some(Parts(s[..a], s[a..a + b], s[a + b..])) else None
  }

  /** Zeros that the pattern consumes before its group of digits. */
  function StripZeros(s: string): (r: string)
    ensures AllDigits(s) ==> AllDigits(r)
  {
    if |s| > 1 && s[0] == '0' then StripZeros(s[1..]) else s
  }

  function Rendered(prefix: string, number: string, suffix: string): string {
    (if prefix != "" then prefix + " " else "") + number + suffix
  }

  /** `None` is the original's `ValueError`. */
  function Normalize(raw: string): Option<string> {
    match Match(Compact(raw))
    case None => None
    case Some(p) => Some(Rendered(p.prefix, Digits(Value(StripZeros(p.digits))), p.suffix))
  }

  // ----- slugs -----

  function Lower(s: string): string { if s == "" then "" else ToLower(s[0]) + Lower(s[1..]) }

  predicate IsSlugChar(c: char) { IsLower(c) || IsDigit(c) }

  /** Each run of other characters becomes one hyphen. */
  function Hyphenated(s: string): string {
    if s == "" then ""
    else if IsSlugChar(s[0]) then [s[0]] + Hyphenated(s[1..])
    else (if |s| > 1 && !IsSlugChar(s[1]) then "" else "-") + Hyphenated(s[1..])
  }

  /** Each run of hyphens becomes one. */
  function CollapsedHyphens(s: string): string {
    if s == "" then ""
    else if s[0] == '-' && |s| > 1 && s[1] == '-' then CollapsedHyphens(s[1..])
    else [s[0]] + CollapsedHyphens(s[1..])
  }

  /** One hyphen at either end goes. */
  function Trimmed(s: string): string {
    var t := if s != "" && s[0] == '-' then s[1..] else s;
    if t != "" && t[|t| - 1] == '-' then t[..|t| - 1] else t
  }

  function Slugify(value: string): string { Trimmed(CollapsedHyphens(Hyphenated(Lower(value)))) }

  function BillSlug(identifier: string): string { Slugify(identifier) }

  function BillSlugToIdentifier(slug: string): string {
    seq(|slug|, i requires 0 <= i < |slug| => if slug[i] == '-' then ' ' else slug[i])
  }

  // ----- what the rewrites leave -----

  /** Letters and digits, in upper case; everything else is gone. */
  function Core(s: string): string {
    if s == "" then "" else (if IsAlphanumeric(s[0]) then [ToUpper(s[0])] else "") + Core(s[1..])
  }

  lemma {:induction false} CoreAppend(a: string, b: string)
    ensures Core(a + b) == Core(a) + Core(b)
    decreases |a|
  {
    if a == "" {
      assert a + b == b;
    } else {
      var head := if IsAlphanumeric(a[0]) then [ToUpper(a[0])] else "";
      CoreAppend(a[1..], b);
      assert (a + b)[1..] == a[1..] + b && (a + b)[0] == a[0];
      assert head + (Core(a[1..]) + Core(b)) == (head + Core(a[1..])) + Core(b);
    }
  }

  lemma {:induction false} CoreOfFilter(p: char -> bool, s: string)
    requires forall i | 0 <= i < |s| :: IsAlphanumeric(s[i]) ==> p(s[i])
    ensures Core(Filter(p, s)) == Core(s)
    decreases |s|
  {
    if s != "" {
      CoreOfFilter(p, s[1..]);
      CoreAppend(if p(s[0]) then [s[0]] else "", Filter(p, s[1..]));
    }
  }

  lemma {:induction false} CoreOfUpper(s: string)
    ensures Core(Upper(s)) == Core(s)
    decreases |s|
  {
    if s != "" {
      assert Upper(s)[1..] == Upper(s[1..]);
      CoreOfUpper(s[1..]);
    }
  }

  lemma {:induction false} CoreOfCollapsed(s: string)
    ensures Core(Collapsed(s)) == Core(s)
    decreases |s|
  {
    if s != "" {
      CoreOfCollapsed(s[1..]);
      assert "" + Collapsed(s[1..]) == Collapsed(s[1..]);
      CoreAppend(" ", Collapsed(s[1..]));
      CoreAppend([s[0]], Collapsed(s[1..]));
      assert Core(" ") == "";
    }
  }

  lemma {:induction false} CoreOfStripLeft(s: string)
    ensures Core(StripLeft(s)) == Core(s)
    decreases |s|
  {
    if s != "" && IsSpace(s[0]) {
      CoreOfStripLeft(s[1..]);
    }
  }

  lemma {:induction false} CoreOfStripRight(s: string)
    ensures Core(StripRight(s)) == Core(s)
    decreases |s|
  {
    if s != "" && IsSpace(s[|s| - 1]) {
      var n := |s| - 1;
      assert s == s[..n] + [s[n]];
      CoreAppend(s[..n], [s[n]]);
      assert Core([s[n]]) == "";
      CoreOfStripRight(s[..n]);
    }
  }

  predicate IsCanon(c: char) { IsUpper(c) || IsDigit(c) }

  predicate AllCanon(s: string) { forall i | 0 <= i < |s| :: IsCanon(s[i]) }

  lemma {:induction false} CoreOfCanon(s: string)
    requires AllCanon(s)
    ensures Core(s) == s
    decreases |s|
  {
    if s != "" {
      CoreOfCanon(s[1..]);
    }
  }

  lemma {:induction false} FilterKeeps(p: char -> bool, s: string)
    ensures forall i | 0 <= i < |Filter(p, s)| :: p(Filter(p, s)[i]) && Filter(p, s)[i] in s
    decreases |s|
  {
    if s != "" {
      FilterKeeps(p, s[1..]);
    }
  }

  lemma {:induction false} CollapsedKeeps(s: string)
    ensures forall i | 0 <= i < |Collapsed(s)| ::
              Collapsed(s)[i] == ' ' || (Collapsed(s)[i] in s && !IsSpace(Collapsed(s)[i]))
    decreases |s|
  {
    if s != "" {
      CollapsedKeeps(s[1..]);
    }
  }

  lemma {:induction false} StripLeftKeeps(s: string)
    ensures forall i | 0 <= i < |StripLeft(s)| :: StripLeft(s)[i] in s
    decreases |s|
  {
    if s != "" && IsSpace(s[0]) {
      StripLeftKeeps(s[1..]);
    }
  }

  lemma {:induction false} StripRightKeeps(s: string)
    ensures forall i | 0 <= i < |StripRight(s)| :: StripRight(s)[i] in s
    decreases |s|
  {
    if s != "" && IsSpace(s[|s| - 1]) {
      StripRightKeeps(s[..|s| - 1]);
    }
  }

  lemma SpacedIsCanon(raw: string)
    ensures forall c | c in Collapsed(Upper(Kept(raw))) :: IsCanon(c) || c == ' '
  {
    var kept := Kept(raw);
    FilterKeeps(c => IsAlphanumeric(c) || IsSpace(c), raw);
    CollapsedKeeps(Upper(kept));
    assert forall c | c in Upper(kept) :: IsCanon(c) || IsSpace(c);
  }

  lemma CompactIsCanon(raw: string)
    ensures AllCanon(Compact(raw))
  {
    var spaced := Collapsed(Upper(Kept(raw)));
    SpacedIsCanon(raw);
    StripLeftKeeps(spaced);
    StripRightKeeps(StripLeft(spaced));
    FilterKeeps(c => c != ' ', StripRight(StripLeft(spaced)));
  }

  /** The three rewrites together keep the letters and digits, in upper case. */
  lemma CompactIsCore(raw: string)
    ensures Compact(raw) == Core(raw)
  {
    var spaced := Collapsed(Upper(Kept(raw)));
    CompactIsCanon(raw);
    CoreOfCanon(Compact(raw));
    CoreOfFilter(c => IsAlphanumeric(c) || IsSpace(c), raw);
    CoreOfUpper(Kept(raw));
    CoreOfCollapsed(Upper(Kept(raw)));
    CoreOfStripLeft(spaced);
    CoreOfStripRight(StripLeft(spaced));
    CoreOfFilter(c => c != ' ', StripRight(StripLeft(spaced)));
  }

  // ----- the pattern -----

  /** Cutting a string in three. */
  lemma ThreeParts<T>(s: seq<T>, a: nat, b: nat)
    requires a + b <= |s|
    ensures s == s[..a] + s[a..a + b] + s[a + b..]
    ensures s[a..][..b] == s[a..a + b] && s[a..][b..] == s[a + b..]
  {
  }

  lemma FrontOfRun(p: char -> bool, s: string)
    ensures forall i | 0 <= i < Run(p, s) :: p(s[..Run(p, s)][i])
  {
  }

  lemma SplitsAt(s: string, a: nat, b: nat)
    requires a + b <= |s| && b > 0
    requires AllUpper(s[..a]) && AllDigits(s[a..][..b]) && AllUpper(s[a + b..])
    ensures Splits(s, Parts(s[..a], s[a..a + b], s[a + b..]))
  {
    ThreeParts(s, a, b);
  }

  lemma MatchSplitsAt(s: string, a: nat, rest: string, b: nat)
    requires a == Run(IsUpper, s) && rest == s[a..] && b == Run(IsDigit, rest) && b > 0 && AllUpper(s[a + b..])
    ensures Splits(s, Parts(s[..a], s[a..a + b], s[a + b..]))
  {
    FrontOfRun(IsUpper, s);
    FrontOfRun(IsDigit, rest);
    SplitsAt(s, a, b);
  }

  lemma MatchSplits(s: string)
    ensures Match(s).Some? ==> Splits(s, Match(s).value)
  {
    var a := Run(IsUpper, s);
    var b := Run(IsDigit, s[a..]);
    if b > 0 && AllUpper(s[a + b..]) {
      MatchSplitsAt(s, a, s[a..], b);
    }
  }

  lemma RunIs(p: char -> bool, front: string, tail: string)
    requires (forall i | 0 <= i < |front| :: p(front[i])) && (tail != "" ==> !p(tail[0]))
    ensures Run(p, front + tail) == |front|
  {
    var s := front + tail;
    assert forall i | 0 <= i < |front| :: s[i] == front[i] && p(s[i]);
    assert tail != "" ==> s[|front|] == tail[0];
  }

  /** A string splits in one way only, and that is the one that is found. */
  lemma SplitIsFound(s: string, p: Parts)
    requires Splits(s, p)
    ensures Match(s) == Some(p)
  {
    var a, b := |p.prefix|, |p.digits|;
    var rest := p.digits + p.suffix;
    assert s == p.prefix + rest;
    RunIs(IsUpper, p.prefix, rest);
    RunIs(IsDigit, p.digits, p.suffix);
    assert s[a..] == rest && s[..a] == p.prefix;
    ThreeParts(s, a, b);
    assert rest[..b] == p.digits && rest[b..] == p.suffix;
  }

  lemma {:induction false} StripZerosIsCanonical(s: string)
    requires AllDigits(s) && s != ""
    ensures IsCanonical(StripZeros(s)) && Value(StripZeros(s)) == Value(s)
    decreases |s|
  {
    if |s| > 1 && s[0] == '0' {
      assert s == "0" + s[1..];
      LeadingZero(s[1..]);
      StripZerosIsCanonical(s[1..]);
    }
  }

  // ----- normalised identifiers -----

  /** Capitals and a blank if there are any, a number without leading zeros, capitals. */
  ghost predicate IsIdentifier(x: string, p: Parts) {
    && AllUpper(p.prefix) && IsCanonical(p.digits) && AllUpper(p.suffix)
    && x == Rendered(p.prefix, p.digits, p.suffix)
  }

  lemma CoreOfThree(a: string, b: string, c: string)
    requires AllCanon(b) && AllCanon(c)
    ensures Core(a + b + c) == Core(a) + b + c
  {
    CoreAppend(a + b, c);
    CoreAppend(a, b);
    CoreOfCanon(b);
    CoreOfCanon(c);
  }

  lemma CoreOfHead(prefix: string)
    requires AllUpper(prefix)
    ensures Core(if prefix != "" then prefix + " " else "") == prefix
  {
    CoreAppend(prefix, " ");
    CoreOfCanon(prefix);
    assert Core(" ") == "";
  }

  lemma CoreOfRendered(p: Parts)
    requires AllUpper(p.prefix) && AllDigits(p.digits) && AllUpper(p.suffix)
    ensures Core(Rendered(p.prefix, p.digits, p.suffix)) == p.prefix + p.digits + p.suffix
  {
    CoreOfHead(p.prefix);
    CoreOfThree(if p.prefix != "" then p.prefix + " " else "", p.digits, p.suffix);
  }

  /** What is accepted and what comes out: exactly the strings whose letters and digits are of the
      form letters-digits-letters, and the zeros are all that is lost. */
  lemma NormalizeIs(raw: string)
    ensures Normalize(raw) == None <==> forall p :: !Splits(Core(raw), p)
    ensures forall p | Splits(Core(raw), p) ::
              && IsIdentifier(Rendered(p.prefix, StripZeros(p.digits), p.suffix), p.(digits := StripZeros(p.digits)))
              && Normalize(raw) == Some(Rendered(p.prefix, StripZeros(p.digits), p.suffix))
  {
    CompactIsCore(raw);
    MatchSplits(Core(raw));
    forall p | Splits(Core(raw), p)
      ensures IsIdentifier(Rendered(p.prefix, StripZeros(p.digits), p.suffix), p.(digits := StripZeros(p.digits)))
      ensures Normalize(raw) == Some(Rendered(p.prefix, StripZeros(p.digits), p.suffix))
    {
      SplitIsFound(Core(raw), p);
      StripZerosIsCanonical(p.digits);
      ValueIsPrinted(StripZeros(p.digits));
    }
  }

  lemma CanonicalIsKept(raw: string, p: Parts)
    requires Splits(Core(raw), p) && IsCanonical(p.digits)
    ensures Normalize(raw) == Some(Rendered(p.prefix, p.digits, p.suffix))
  {
    NormalizeIs(raw);
    assert StripZeros(p.digits) == p.digits;
  }

  lemma IdentifierIsFixed(x: string, p: Parts)
    requires IsIdentifier(x, p)
    ensures Normalize(x) == Some(x)
  {
    CoreOfRendered(p);
    CanonicalIsKept(x, p);
  }

  /** Normalising a result changes nothing. */
  lemma NormalizeIsIdempotent(raw: string)
    requires Normalize(raw).Some?
    ensures Normalize(Normalize(raw).value) == Normalize(raw)
  {
    CompactIsCore(raw);
    MatchSplits(Core(raw));
    NormalizeIs(raw);
    var p := Match(Core(raw)).value;
    IdentifierIsFixed(Normalize(raw).value, p.(digits := StripZeros(p.digits)));
  }

  /** Two spellings are the same bill number exactly when they agree in their letters and in the
      value of their digits. */
  lemma SameNumberIff(a: string, b: string, p: Parts, q: Parts)
    requires Splits(Core(a), p) && Splits(Core(b), q)
    ensures Normalize(a) == Normalize(b) <==>
            p.prefix == q.prefix && Value(p.digits) == Value(q.digits) && p.suffix == q.suffix
  {
    NormalizeIs(a);
    NormalizeIs(b);
    StripZerosIsCanonical(p.digits);
    StripZerosIsCanonical(q.digits);
    var p', q' := p.(digits := StripZeros(p.digits)), q.(digits := StripZeros(q.digits));
    ValueIsPrinted(p'.digits);
    ValueIsPrinted(q'.digits);
    if Normalize(a) == Normalize(b) {
      CoreOfRendered(p');
      CoreOfRendered(q');
      SplitIsFound(p'.prefix + p'.digits + p'.suffix, p');
      SplitIsFound(q'.prefix + q'.digits + q'.suffix, q');
    }
  }

  // ----- the way through a slug and back -----

  predicate FoldsToAscii(c: char) { c == KELVIN || c == DOTTED_I }

  predicate HasFolding(s: string) { exists i :: 0 <= i < |s| && FoldsToAscii(s[i]) }

  /** The two characters as the capitals whose lower case they share. */
  function Folded(s: string): string {
    seq(|s|, i requires 0 <= i < |s| => if s[i] == KELVIN then 'K' else if s[i] == DOTTED_I then 'I' else s[i])
  }

  lemma CoreOfLowerChar(c: char)
    ensures Core(ToLower(c)) == Core(Folded([c]))
    ensures forall i | 0 <= i < |ToLower(c)| :: !IsUpper(ToLower(c)[i])
  {
    if c == DOTTED_I {
      assert "i\U{0307}"[1..] == "\U{0307}";
    }
  }

  lemma {:induction false} CoreOfLower(s: string)
    ensures Core(Lower(s)) == Core(Folded(s))
    ensures forall i | 0 <= i < |Lower(s)| :: !IsUpper(Lower(s)[i])
    decreases |s|
  {
    if s != "" {
      CoreOfLower(s[1..]);
      CoreOfLowerChar(s[0]);
      CoreAppend(ToLower(s[0]), Lower(s[1..]));
      CoreAppend(Folded([s[0]]), Folded(s[1..]));
      assert Folded(s) == Folded([s[0]]) + Folded(s[1..]);
    }
  }

  lemma {:induction false} CoreOfHyphenated(s: string)
    requires forall i | 0 <= i < |s| :: !IsUpper(s[i])
    ensures Core(Hyphenated(s)) == Core(s)
    decreases |s|
  {
    if s != "" {
      CoreOfHyphenated(s[1..]);
      assert "" + Hyphenated(s[1..]) == Hyphenated(s[1..]);
      CoreAppend("-", Hyphenated(s[1..]));
      CoreAppend([s[0]], Hyphenated(s[1..]));
      assert Core("-") == "";
    }
  }

  lemma {:induction false} CoreOfCollapsedHyphens(s: string)
    ensures Core(CollapsedHyphens(s)) == Core(s)
    decreases |s|
  {
    if s != "" {
      CoreOfCollapsedHyphens(s[1..]);
      CoreAppend([s[0]], CollapsedHyphens(s[1..]));
    }
  }

  lemma CoreOfTrimmed(s: string)
    ensures Core(Trimmed(s)) == Core(s)
  {
    var t := if s != "" && s[0] == '-' then s[1..] else s;
    if t != "" && t[|t| - 1] == '-' {
      assert t == t[..|t| - 1] + "-";
      CoreAppend(t[..|t| - 1], "-");
      assert Core("-") == "";
    }
  }

  lemma {:induction false} CoreOfUnslugged(s: string)
    ensures Core(BillSlugToIdentifier(s)) == Core(s)
    decreases |s|
  {
    if s != "" {
      assert BillSlugToIdentifier(s)[1..] == BillSlugToIdentifier(s[1..]);
      CoreOfUnslugged(s[1..]);
    }
  }

  /** Any string, refused ones included, comes back from its slug as its folded form would. */
  lemma SlugFolds(x: string)
    ensures Normalize(BillSlugToIdentifier(BillSlug(x))) == Normalize(Folded(x))
  {
    var lower := Lower(x);
    CoreOfLower(x);
    CoreOfHyphenated(lower);
    CoreOfCollapsedHyphens(Hyphenated(lower));
    CoreOfTrimmed(CollapsedHyphens(Hyphenated(lower)));
    CoreOfUnslugged(BillSlug(x));
    CompactIsCore(Folded(x));
    CompactIsCore(BillSlugToIdentifier(BillSlug(x)));
  }

  function Letters(s: string): nat { if s == "" then 0 else (if IsUpper(s[0]) then 1 else 0) + Letters(s[1..]) }

  lemma {:induction false} LettersAppend(a: string, b: string)
    ensures Letters(a + b) == Letters(a) + Letters(b)
    decreases |a|
  {
    if a == "" {
      assert a + b == b;
    } else {
      assert (a + b)[1..] == a[1..] + b;
      LettersAppend(a[1..], b);
    }
  }

  lemma {:induction false} LettersOfRun(s: string)
    ensures AllUpper(s) ==> Letters(s) == |s|
    ensures AllDigits(s) ==> Letters(s) == 0
    decreases |s|
  {
    if s != "" {
      LettersOfRun(s[1..]);
    }
  }

  lemma LettersOfSplit(s: string, p: Parts)
    requires Splits(s, p)
    ensures Letters(s) == |p.prefix| + |p.suffix|
  {
    LettersAppend(p.prefix + p.digits, p.suffix);
    LettersAppend(p.prefix, p.digits);
    LettersOfRun(p.prefix);
    LettersOfRun(p.digits);
    LettersOfRun(p.suffix);
  }

  /** Folding adds a letter for each of the two characters. */
  lemma {:induction false} FoldingAddsLetters(s: string)
    ensures Letters(Core(s)) <= Letters(Core(Folded(s)))
    ensures HasFolding(s) ==> Letters(Core(s)) < Letters(Core(Folded(s)))
    ensures !HasFolding(s) ==> Folded(s) == s
    decreases |s|
  {
    if s != "" {
      var head, tail := [s[0]], s[1..];
      FoldingAddsLetters(tail);
      assert s == head + tail && Folded(s) == Folded(head) + Folded(tail);
      CoreAppend(head, tail);
      CoreAppend(Folded(head), Folded(tail));
      LettersAppend(Core(head), Core(tail));
      LettersAppend(Core(Folded(head)), Core(Folded(tail)));
      FoldingIsSomewhere(s);
      FoldingOneChar(s[0]);
    }
  }

  lemma FoldingIsSomewhere(s: string)
    requires s != ""
    ensures HasFolding(s) ==> FoldsToAscii(s[0]) || HasFolding(s[1..])
    ensures !HasFolding(s) ==> !HasFolding(s[1..])
  {
    var tail := s[1..];
    if HasFolding(s) && !FoldsToAscii(s[0]) {
      var i :| 0 <= i < |s| && FoldsToAscii(s[i]);
      assert tail[i - 1] == s[i];
    }
    assert forall i | 0 <= i < |tail| :: tail[i] == s[i + 1];
  }

  lemma FoldingOneChar(c: char)
    ensures Letters(Core([c])) + (if FoldsToAscii(c) then 1 else 0) == Letters(Core(Folded([c])))
    ensures !FoldsToAscii(c) ==> Folded([c]) == [c]
  {
  }

  lemma SomeSplit(x: string) returns (p: Parts)
    requires Normalize(x) != None
    ensures Splits(Core(x), p)
  {
    NormalizeIs(x);
    p :| Splits(Core(x), p);
  }

  /** A string normalises the same after a trip through its slug exactly when it has neither of the
      two characters, or is refused both as it is and folded. */
  lemma SlugKeepsTheNumberIff(x: string)
    ensures Normalize(BillSlugToIdentifier(BillSlug(x))) == Normalize(x)
            <==> !HasFolding(x) || (Normalize(x) == None && Normalize(Folded(x)) == None)
  {
    SlugFolds(x);
    FoldingAddsLetters(x);
    if HasFolding(x) && Normalize(x) != None && Normalize(Folded(x)) != None {
      var p := SomeSplit(x);
      var q := SomeSplit(Folded(x));
      LettersOfSplit(Core(x), p);
      LettersOfSplit(Core(Folded(x)), q);
      SameNumberIff(x, Folded(x), p, q);
    }
  }

  lemma RenderedIsAscii(prefix: string, number: string, suffix: string)
    requires AllUpper(prefix) && AllDigits(number) && AllUpper(suffix)
    ensures forall c | c in Rendered(prefix, number, suffix) :: !FoldsToAscii(c)
  {
    forall c | c in Rendered(prefix, number, suffix) ensures IsCanon(c) || c == ' ' {
      assert c in prefix || c == ' ' || c in number || c in suffix;
    }
  }

  lemma IdentifierIsAscii(raw: string, x: string)
    requires Normalize(raw) == Some(x)
    ensures !HasFolding(x)
  {
    CompactIsCore(raw);
    MatchSplits(Core(raw));
    NormalizeIs(raw);
    var p := Match(Core(raw)).value;
    RenderedIsAscii(p.prefix, StripZeros(p.digits), p.suffix);
    assert forall i | 0 <= i < |x| :: x[i] in x;
  }

  /** The round trip of every normalised identifier. */
  lemma SlugRoundTrip(raw: string, x: string)
    requires Normalize(raw) == Some(x)
    ensures Normalize(BillSlugToIdentifier(BillSlug(x))) == Some(x)
  {
    IdentifierIsAscii(raw, x);
    NormalizeIsIdempotent(raw);
    SlugKeepsTheNumberIff(x);
  }

  /** No two normalised identifiers share a slug. */
  lemma BillSlugIsInjective(raw: string, x: string, raw': string, y: string)
    requires Normalize(raw) == Some(x) && Normalize(raw') == Some(y) && BillSlug(x) == BillSlug(y)
    ensures x == y
  {
    SlugRoundTrip(raw, x);
    SlugRoundTrip(raw', y);
  }

  /** A character that is no letter, before a number. */
  lemma ForeignIsDropped(c: char)
    requires !IsAlphanumeric(c)
    ensures Normalize([c, '1']) == Some("1")
  {
    CoreOfCanon("1");
    assert [c, '1'][1..] == "1" && Core([c, '1']) == "1";
    var p := Parts("", "1", "");
    assert p.prefix + p.digits + p.suffix == "1";
    assert Rendered(p.prefix, p.digits, p.suffix) == "1";
    CanonicalIsKept([c, '1'], p);
  }

  lemma CapitalIsKept(c: char)
    requires IsUpper(c)
    ensures Normalize([c, '1']) == Some([c, ' ', '1'])
  {
    CoreOfCanon([c, '1']);
    var p := Parts([c], "1", "");
    assert p.prefix + p.digits + p.suffix == [c, '1'];
    assert Rendered(p.prefix, p.digits, p.suffix) == [c, ' ', '1'];
    CanonicalIsKept([c, '1'], p);
  }

  /** Strings that do not come back, the Kelvin sign or a dotted capital I before a number:
      lower-casing brings in a letter the number had not. */
  lemma KelvinSignGainsALetter()
    ensures Normalize("\U{212A}1") == Some("1") && Normalize(BillSlugToIdentifier(BillSlug("\U{212A}1"))) == Some("K 1")
    ensures Normalize("\U{0130}1") == Some("1") && Normalize(BillSlugToIdentifier(BillSlug("\U{0130}1"))) == Some("I 1")
  {
    FoldedAs(KELVIN, 'K');
    FoldedAs(DOTTED_I, 'I');
  }

  lemma FoldedAs(c: char, capital: char)
    requires (c == KELVIN && capital == 'K') || (c == DOTTED_I && capital == 'I')
    ensures Normalize([c, '1']) == Some("1") && Normalize(BillSlugToIdentifier(BillSlug([c, '1']))) == Some([capital, ' ', '1'])
  {
    SlugFolds([c, '1']);
    assert Folded([c, '1']) == [capital, '1'];
    ForeignIsDropped(c);
    CapitalIsKept(capital);
  }

  // ----- slugs are clean -----

  /** Letters, digits and single hyphens between them. */
  predicate IsClean(s: string) {
    && (forall i | 0 <= i < |s| :: IsSlugChar(s[i]) || s[i] == '-')
    && (forall i | 0 < i < |s| :: s[i - 1] == '-' ==> s[i] != '-')
    && (s != "" ==> s[0] != '-' && s[|s| - 1] != '-')
  }

  lemma {:induction false} HyphenatedChars(s: string)
    ensures forall i | 0 <= i < |Hyphenated(s)| :: IsSlugChar(Hyphenated(s)[i]) || Hyphenated(s)[i] == '-'
    decreases |s|
  {
    if s != "" {
      HyphenatedChars(s[1..]);
    }
  }

  lemma {:induction false} NoDoubleHyphens(s: string)
    ensures var t := CollapsedHyphens(s);
            && (forall i | 0 < i < |t| :: t[i - 1] == '-' ==> t[i] != '-')
            && (forall i | 0 <= i < |t| :: t[i] in s)
            && (s != "" ==> t != "" && t[0] == s[0])
    decreases |s|
  {
    if s != "" {
      NoDoubleHyphens(s[1..]);
    }
  }

  lemma SlugIsClean(value: string)
    ensures IsClean(Slugify(value))
  {
    var h := Hyphenated(Lower(value));
    HyphenatedChars(Lower(value));
    NoDoubleHyphens(h);
  }

  lemma {:induction false} CleanIsLower(s: string)
    requires forall i | 0 <= i < |s| :: IsSlugChar(s[i]) || s[i] == '-'
    ensures Lower(s) == s
    decreases |s|
  {
    if s != "" {
      CleanIsLower(s[1..]);
    }
  }

  lemma {:induction false} CleanIsHyphenated(s: string)
    requires forall i | 0 <= i < |s| :: IsSlugChar(s[i]) || s[i] == '-'
    requires forall i | 0 < i < |s| :: s[i - 1] == '-' ==> s[i] != '-'
    ensures Hyphenated(s) == s && CollapsedHyphens(s) == s
    decreases |s|
  {
    if s != "" {
      var t := s[1..];
      assert forall i | 0 < i < |t| :: t[i - 1] == s[i] && t[i] == s[i + 1];
      CleanIsHyphenated(t);
      assert s == [s[0]] + t;
    }
  }

  lemma CleanIsKept(s: string)
    requires IsClean(s)
    ensures Slugify(s) == s
  {
    CleanIsLower(s);
    CleanIsHyphenated(s);
  }

  /** Slugs are exactly the strings that slugging leaves alone. */
  lemma SlugIffFixed(s: string)
    ensures IsClean(s) <==> Slugify(s) == s
  {
    SlugIsClean(s);
    if IsClean(s) {
      CleanIsKept(s);
    }
  }

  // ----- identifiers and slugs, spelled out -----

  function Zeros(n: nat): string { seq(n, _ => '0') }

  lemma {:induction false} ZerosGo(zeros: nat, n: nat)
    ensures AllDigits(Zeros(zeros) + Digits(n)) && StripZeros(Zeros(zeros) + Digits(n)) == Digits(n)
  {
    DigitsAreRead(n);
    var s := Zeros(zeros) + Digits(n);
    if zeros == 0 {
      assert s == Digits(n);
    } else {
      ZerosGo(zeros - 1, n);
      assert s[0] == '0' && s[1..] == Zeros(zeros - 1) + Digits(n);
    }
  }

  lemma SplitIsNormalized(raw: string, p: Parts)
    requires Splits(Core(raw), p)
    ensures Normalize(raw) == Some(Rendered(p.prefix, StripZeros(p.digits), p.suffix))
  {
    NormalizeIs(raw);
  }

  lemma PartsAreCore(p: Parts)
    requires AllUpper(p.prefix) && AllDigits(p.digits) && AllUpper(p.suffix)
    ensures Core(p.prefix + p.digits + p.suffix) == p.prefix + p.digits + p.suffix
  {
    CoreOfCanon(p.prefix);
    CoreOfThree(p.prefix, p.digits, p.suffix);
  }

  /** However many zeros: capitals, one blank, the number, capitals; without capitals in front no blank. */
  lemma NormalizeSpelledOut(prefix: string, zeros: nat, n: nat, suffix: string)
    requires AllUpper(prefix) && AllUpper(suffix)
    ensures Normalize(prefix + (Zeros(zeros) + Digits(n)) + suffix)
            == Some(if prefix == "" then Digits(n) + suffix else prefix + " " + Digits(n) + suffix)
  {
    var p := Parts(prefix, Zeros(zeros) + Digits(n), suffix);
    ZerosGo(zeros, n);
    assert p.digits != "" by { DigitsAreRead(n); }
    PartsAreCore(p);
    SplitIsNormalized(prefix + p.digits + suffix, p);
    assert "" + Digits(n) + suffix == Digits(n) + suffix;
  }

  /** The small letters of capitals. */
  function Small(s: string): string
    requires AllUpper(s)
  {
    seq(|s|, i requires 0 <= i < |s| => (s[i] as int + 32) as char)
  }

  lemma {:induction false} LowerAppend(a: string, b: string)
    ensures Lower(a + b) == Lower(a) + Lower(b)
    decreases |a|
  {
    if a == "" {
      assert a + b == b;
    } else {
      LowerAppend(a[1..], b);
      assert (a + b)[1..] == a[1..] + b && (a + b)[0] == a[0];
      assert ToLower(a[0]) + (Lower(a[1..]) + Lower(b)) == (ToLower(a[0]) + Lower(a[1..])) + Lower(b);
    }
  }

  lemma {:induction false} LowerOfUpper(s: string)
    requires AllUpper(s)
    ensures Lower(s) == Small(s)
    decreases |s|
  {
    if s != "" {
      LowerOfUpper(s[1..]);
      assert Small(s) == [(s[0] as int + 32) as char] + Small(s[1..]);
    }
  }

  lemma LowerOfDigits(s: string)
    requires AllDigits(s)
    ensures Lower(s) == s
  {
    CleanIsLower(s);
  }

  lemma {:induction false} OneHyphen(a: string, b: string)
    requires (forall i | 0 <= i < |a| :: IsSlugChar(a[i])) && (forall i | 0 <= i < |b| :: IsSlugChar(b[i])) && b != ""
    ensures Hyphenated(a + (" " + b)) == a + ("-" + b)
    decreases |a|
  {
    if a == "" {
      var s := " " + b;
      CleanIsHyphenated(b);
      assert a + s == s && s[1..] == b && s[1] == b[0];
      assert a + ("-" + b) == "-" + b;
    } else {
      OneHyphen(a[1..], b);
      var s := a + (" " + b);
      assert s[0] == a[0] && s[1..] == a[1..] + (" " + b);
      assert a == [a[0]] + a[1..];
    }
  }

  predicate AllSlugChars(s: string) { forall i | 0 <= i < |s| :: IsSlugChar(s[i]) }

  lemma WithoutBlank(x: string)
    requires AllSlugChars(Lower(x))
    ensures Slugify(x) == Lower(x)
  {
    CleanIsHyphenated(Lower(x));
  }

  lemma BlankBecomesHyphen(x: string, a: string, b: string)
    requires AllSlugChars(a) && AllSlugChars(b) && a != "" && b != "" && Lower(x) == a + (" " + b)
    ensures Slugify(x) == a + ("-" + b)
  {
    OneHyphen(a, b);
    CleanIsHyphenated(a + ("-" + b));
  }

  lemma LowerWithBlank(a: string, b: string)
    ensures Lower(a + (" " + b)) == Lower(a) + (" " + Lower(b))
  {
    LowerAppend(a, " " + b);
    assert (" " + b)[1..] == b && ToLower(' ') == " ";
  }

  lemma NumberIsClean(digits: string, suffix: string)
    requires AllDigits(digits) && AllUpper(suffix)
    ensures Lower(digits + suffix) == digits + Small(suffix) && AllSlugChars(digits + Small(suffix))
  {
    LowerAppend(digits, suffix);
    LowerOfDigits(digits);
    LowerOfUpper(suffix);
  }

  /** The slug of a normalised identifier: everything in small letters, and a hyphen for the blank. */
  lemma SlugSpelledOut(p: Parts)
    requires AllUpper(p.prefix) && IsCanonical(p.digits) && AllUpper(p.suffix)
    ensures BillSlug(Rendered(p.prefix, p.digits, p.suffix))
            == if p.prefix == "" then p.digits + Small(p.suffix) else Small(p.prefix) + ("-" + (p.digits + Small(p.suffix)))
  {
    var x, number := Rendered(p.prefix, p.digits, p.suffix), p.digits + p.suffix;
    NumberIsClean(p.digits, p.suffix);
    if p.prefix == "" {
      assert x == number;
      WithoutBlank(x);
    } else {
      assert x == p.prefix + (" " + number);
      LowerWithBlank(p.prefix, number);
      LowerOfUpper(p.prefix);
      BlankBecomesHyphen(x, Small(p.prefix), p.digits + Small(p.suffix));
    }
  }
}
