/**
 The `Content-Range` request header of a resumable upload (section 14.4 of RFC 9110):
 `bytes <first>-<last>/<total>` for a chunk, a star in place of an unknown total, and a star in
 place of the range for a status probe.

 Header values are Latin-1 text; blanks and digits are those of Python on that alphabet.
 */
module ContentRange {
  import opened Basics
  import opened Decimal

  /** First and last byte of a chunk, with the size of the whole if known; or a probe. */
  datatype Range = Chunk(start: nat, end: nat, known: Option<nat>) | Probe(size: nat) {
    function Total(): Option<nat> { if Chunk? then known else Some(size) }
  }

  predicate IsSpace(c: char) {
    9 <= c as int <= 13 || 28 <= c as int <= 32 || c as int == 133 || c as int == 160
  }

  function SkipSpaces(s: string): (r: string)
    ensures |r| <= |s| && s[|s| - |r|..] == r
    ensures r == "" || !IsSpace(r[0])
  {
    if s != "" && IsSpace(s[0]) then SkipSpaces(s[1..]) else s
  }

  function DropTrailingSpaces(s: string): string {
    if s != "" && IsSpace(s[|s| - 1]) then DropTrailingSpaces(s[..|s| - 1]) else s
  }

  function Strip(s: string): string { DropTrailingSpaces(SkipSpaces(s)) }

  /** Number of leading digits. */
  function DigitRun(s: string): (n: nat)
    ensures n <= |s| && AllDigits(s[..n])
    ensures n < |s| ==> !IsDigit(s[n])
  {
    if s != "" && IsDigit(s[0]) then
      var n := DigitRun(s[1..]);
      assert s[..1 + n] == [s[0]] + s[1..][..n];
      1 + n
    else 0
  }

  /** What follows the unit and its blanks. */
  function ParseSpec(a: string): Option<Range> {
    if |a| >= 2 && a[0] == '*' && a[1] == '/' then
      if |a| > 2 && AllDigits(a[2..]) then Some(Probe(Value(a[2..]))) else None
    else
      var i := DigitRun(a);
      if i == 0 || i == |a| || a[i] != '-' then None
      else
        var b := a[i + 1..];
        var j := DigitRun(b);
        if j == 0 || j == |b| || b[j] != '/' then None
        else CheckRange(Value(a[..i]), Value(b[..j]), b[j + 1..])
  }

  function CheckRange(start: nat, end: nat, total: string): Option<Range> {
    if total != "*" && (total == "" || !AllDigits(total)) then None
    else
      var t: Option<nat> := if total == "*" then None else Some(Value(total));
      if end < start || (t.Some? && end >= t.value) then None
      else Some(Chunk(start, end, t))
  }

  /** Nothing when the header is malformed or its range makes no sense. */
  function Parse(value: string): Option<Range> {
    var s := Strip(value);
    if |s| < 5 || s[..5] != "bytes" then None
    else
      var a := SkipSpaces(s[5..]);
      if a == s[5..] then None else ParseSpec(a)
  }

  // ---- What an accepted header guarantees ----

  /** A range is not empty and lies inside the total. */
  predicate Sensible(r: Range) {
    r.Chunk? ==> r.start <= r.end && (r.known.Some? ==> r.end < r.known.value)
  }

  lemma ParseIsSensible(value: string)
    ensures Parse(value).Some? ==> Sensible(Parse(value).value)
  {
  }

  // ---- Every sensible header can be said, and is understood ----

  function RenderTotal(total: Option<nat>): string { if total.None? then "*" else Dec(total.value) }

  function RenderSpec(r: Range): string {
    match r
    case Probe(size) => "*/" + Dec(size)
    case Chunk(start, end, known) => Dec(start) + "-" + Dec(end) + "/" + RenderTotal(known)
  }

  function Render(r: Range): string { "bytes " + RenderSpec(r) }

  lemma {:induction false} DigitRunOf(digits: string, rest: string)
    requires AllDigits(digits) && (rest != "" ==> !IsDigit(rest[0]))
    ensures DigitRun(digits + rest) == |digits|
    decreases |digits|
  {
    if digits == "" {
      assert digits + rest == rest;
    } else {
      assert (digits + rest)[1..] == digits[1..] + rest;
      DigitRunOf(digits[1..], rest);
    }
  }

  lemma CheckRendered(start: nat, end: nat, total: Option<nat>)
    requires start <= end && (total.Some? ==> end < total.value)
    ensures CheckRange(start, end, RenderTotal(total)) == Some(Chunk(start, end, total))
  {
    if total.Some? {
      ValueOfDec(total.value);
      assert IsDigit(Dec(total.value)[0]);
    }
  }

  /** A number, a mark, and the rest come apart at the mark. */
  lemma CutAtMark(digits: string, mark: char, rest: string)
    requires AllDigits(digits) && !IsDigit(mark)
    ensures var s := digits + [mark] + rest;
            && DigitRun(s) == |digits| < |s| && s[..|digits|] == digits
            && s[|digits|] == mark && s[|digits| + 1..] == rest
  {
    assert digits + [mark] + rest == digits + ([mark] + rest);
    DigitRunOf(digits, [mark] + rest);
  }

  lemma RangeComesApart(first: string, last: string, total: string)
    requires first != "" && AllDigits(first) && last != "" && AllDigits(last)
    ensures ParseSpec(first + "-" + (last + "/" + total)) == CheckRange(Value(first), Value(last), total)
  {
    var b := last + "/" + total;
    CutAtMark(first, '-', b);
    CutAtMark(last, '/', total);
    var a := first + "-" + b;
    assert a[0] == first[0] && IsDigit(a[0]);
  }

  lemma ChunkRoundTrip(start: nat, end: nat, total: Option<nat>)
    requires start <= end && (total.Some? ==> end < total.value)
    ensures ParseSpec(Dec(start) + "-" + Dec(end) + "/" + RenderTotal(total)) == Some(Chunk(start, end, total))
  {
    var first, last, t := Dec(start), Dec(end), RenderTotal(total);
    assert first + "-" + last + "/" + t == first + "-" + (last + "/" + t);
    RangeComesApart(first, last, t);
    ValueOfDec(start);
    ValueOfDec(end);
    CheckRendered(start, end, total);
  }

  lemma SpecRoundTrip(r: Range)
    requires Sensible(r)
    ensures ParseSpec(RenderSpec(r)) == Some(r)
  {
    match r
    case Chunk(start, end, known) => ChunkRoundTrip(start, end, known);
    case Probe(size) =>
      ValueOfDec(size);
      assert RenderSpec(r)[2..] == Dec(size);
  }

  /** The specification neither starts nor ends in a blank, so stripping leaves it alone. */
  lemma SpecHasNoBlankEnds(r: Range)
    ensures var a := RenderSpec(r); |a| >= 2 && !IsSpace(a[0]) && !IsSpace(a[|a| - 1])
  {
    var a, t := RenderSpec(r), RenderTotal(r.Total());
    assert a[|a| - 1] == t[|t| - 1];
    assert r.Total().Some? ==> IsDigit(t[|t| - 1]);
    if r.Chunk? { assert a[0] == Dec(r.start)[0] && IsDigit(a[0]); }
  }

  lemma UnitComesOff(a: string)
    requires |a| >= 2 && !IsSpace(a[0]) && !IsSpace(a[|a| - 1])
    ensures Parse("bytes " + a) == ParseSpec(a)
  {
    var s := "bytes " + a;
    assert s[|s| - 1] == a[|a| - 1];
    assert Strip(s) == s;
    assert s[..5] == "bytes" && s[5..] == " " + a;
    assert (" " + a)[1..] == a;
    assert SkipSpaces(a) == a;
    assert SkipSpaces(" " + a) == a;
  }

  /** Parsing undoes rendering on every sensible range. */
  lemma ParseRender(r: Range)
    requires Sensible(r)
    ensures Parse(Render(r)) == Some(r)
  {
    SpecHasNoBlankEnds(r);
    UnitComesOff(RenderSpec(r));
    SpecRoundTrip(r);
  }

  // ---- The grammar: exactly which headers are understood, and as what ----

  predicate Blank(s: string) { forall i :: 0 <= i < |s| ==> IsSpace(s[i]) }

  /** Blanks are the space, the tab and the line breaks, among others; nothing else a header is made of is blank. */
  lemma BlanksExactly(c: char)
    ensures c in {' ', '\t', '\n', '\r'} ==> IsSpace(c)
    ensures '!' <= c <= '~' ==> !IsSpace(c)
  {
  }

  predicate Numeral(d: string, n: nat) { d != "" && AllDigits(d) && Value(d) == n }

  predicate TotalSpells(z: string, t: Option<nat>) { if t.None? then z == "*" else Numeral(z, t.value) }

  /** The parts of a header: `bytes`, blanks, and the numerals around their marks; blanks at either end. */
  datatype Parts = ChunkParts(first: string, last: string, total: string) | ProbeParts(size: string)

  function Spec(p: Parts): string {
    match p
    case ChunkParts(x, y, z) => x + "-" + (y + "/" + z)
    case ProbeParts(z) => "*/" + z
  }

  predicate Spells(p: Parts, r: Range) {
    match p
    case ChunkParts(x, y, z) => r.Chunk? && Numeral(x, r.start) && Numeral(y, r.end) && TotalSpells(z, r.known)
    case ProbeParts(z) => r.Probe? && Numeral(z, r.size)
  }

  lemma CheckRangeExactly(start: nat, end: nat, z: string, r: Range)
    ensures CheckRange(start, end, z) == Some(r) <==> r.Chunk? && r.start == start && r.end == end && TotalSpells(z, r.known) && Sensible(r)
  {
    assert !IsDigit("*"[0]);
  }

  /** Whatever spells a sensible range is parsed as that range. */
  lemma SpelledIsParsed(p: Parts, r: Range)
    requires Spells(p, r) && Sensible(r)
    ensures ParseSpec(Spec(p)) == Some(r)
  {
    match p
    case ChunkParts(x, y, z) =>
      RangeComesApart(x, y, z);
      CheckRangeExactly(r.start, r.end, z, r);
    case ProbeParts(z) =>
      assert Spec(p)[2..] == z;
  }

  lemma Cut(a: string, i: nat, mark: string)
    requires i < |a| && mark == [a[i]]
    ensures a == a[..i] + mark + a[i + 1..]
  {
  }

  lemma ChunkIsSpelled(a: string) returns (p: Parts)
    requires ParseSpec(a).Some? && !(|a| >= 2 && a[0] == '*' && a[1] == '/')
    ensures a == Spec(p) && Spells(p, ParseSpec(a).value)
  {
    var i := DigitRun(a);
    var b := a[i + 1..];
    var j := DigitRun(b);
    var x, y, z := a[..i], b[..j], b[j + 1..];
    p := ChunkParts(x, y, z);
    CheckRangeExactly(Value(x), Value(y), z, ParseSpec(a).value);
    Cut(a, i, "-");
    Cut(b, j, "/");
  }

  lemma ProbeIsSpelled(a: string) returns (p: Parts)
    requires ParseSpec(a).Some? && |a| >= 2 && a[0] == '*' && a[1] == '/'
    ensures a == Spec(p) && Spells(p, ParseSpec(a).value)
  {
    p := ProbeParts(a[2..]);
    assert a == "*/" + a[2..];
  }

  /** Whatever is parsed spells the range it is parsed as. */
  lemma ParsedIsSpelled(a: string) returns (p: Parts)
    requires ParseSpec(a).Some?
    ensures a == Spec(p) && Spells(p, ParseSpec(a).value)
  {
    if |a| >= 2 && a[0] == '*' && a[1] == '/' {
      p := ProbeIsSpelled(a);
    } else {
      p := ChunkIsSpelled(a);
    }
  }

  lemma {:induction false} SkipsBlanks(pre: string, s: string)
    requires Blank(pre) && (s != "" ==> !IsSpace(s[0]))
    ensures SkipSpaces(pre + s) == s
    decreases |pre|
  {
    if pre == "" {
      assert pre + s == s;
    } else {
      assert (pre + s)[1..] == pre[1..] + s;
      SkipsBlanks(pre[1..], s);
    }
  }

  lemma {:induction false} DropsBlanks(s: string, post: string)
    requires Blank(post) && s != "" && !IsSpace(s[|s| - 1])
    ensures DropTrailingSpaces(s + post) == s
    decreases |post|
  {
    if post == "" {
      assert s + post == s;
    } else {
      assert (s + post)[..|s + post| - 1] == s + post[..|post| - 1];
      DropsBlanks(s, post[..|post| - 1]);
    }
  }

  lemma Prepend(s: string, a: string, b: string)
    requires s != "" && s[1..] == a + b
    ensures s == [s[0]] + a + b
  {
    assert s == [s[0]] + s[1..];
  }

  lemma {:induction false} SkippedIsBlank(s: string) returns (pre: string)
    ensures Blank(pre) && s == pre + SkipSpaces(s)
    decreases |s|
  {
    if s != "" && IsSpace(s[0]) {
      var rest := SkippedIsBlank(s[1..]);
      pre := [s[0]] + rest;
      Prepend(s, rest, SkipSpaces(s[1..]));
    } else {
      pre := "";
    }
  }

  lemma {:induction false} DroppedIsBlank(s: string) returns (post: string)
    ensures Blank(post) && s == DropTrailingSpaces(s) + post
    decreases |s|
  {
    if s != "" && IsSpace(s[|s| - 1]) {
      var rest := DroppedIsBlank(s[..|s| - 1]);
      post := rest + [s[|s| - 1]];
      assert s == s[..|s| - 1] + [s[|s| - 1]];
    } else {
      post := "";
      assert s + post == s;
    }
  }

  lemma SpelledEnds(p: Parts, r: Range)
    requires Spells(p, r)
    ensures var a := Spec(p); |a| >= 2 && !IsSpace(a[0]) && !IsSpace(a[|a| - 1])
  {
    var a, z := Spec(p), if p.ChunkParts? then p.total else p.size;
    assert a[|a| - 1] == z[|z| - 1];
    if p.ChunkParts? { assert a[0] == p.first[0] && IsDigit(a[0]); }
    assert z != "*" ==> IsDigit(z[|z| - 1]);
  }

  lemma TextComesApart(pre: string, gap: string, a: string, post: string)
    requires Blank(pre) && Blank(gap) && gap != "" && Blank(post) && |a| >= 2 && !IsSpace(a[0]) && !IsSpace(a[|a| - 1])
    ensures Parse(pre + ("bytes" + gap + a + post)) == ParseSpec(a)
  {
    var core := "bytes" + gap + a;
    assert core[0] == 'b' && core[|core| - 1] == a[|a| - 1];
    assert core[..5] == "bytes" && core[5..] == gap + a;
    assert (core + post)[0] == 'b';
    SkipsBlanks(pre, core + post);
    DropsBlanks(core, post);
    SkipsBlanks(gap, a);
    assert |gap + a| != |a|;
  }

  /** A text made of these parts, with blanks where they may be, is understood as the range its numerals spell, if that is sensible. */
  lemma GrammarIsUnderstood(pre: string, gap: string, p: Parts, post: string, r: Range)
    requires Blank(pre) && Blank(gap) && gap != "" && Blank(post) && Spells(p, r) && Sensible(r)
    ensures Parse(pre + ("bytes" + gap + Spec(p) + post)) == Some(r)
  {
    SpelledEnds(p, r);
    TextComesApart(pre, gap, Spec(p), post);
    SpelledIsParsed(p, r);
  }

  lemma StrippedIsBlank(value: string) returns (pre: string, post: string)
    ensures Blank(pre) && Blank(post) && value == pre + (Strip(value) + post)
  {
    pre := SkippedIsBlank(value);
    post := DroppedIsBlank(SkipSpaces(value));
  }

  lemma UnitAndGap(s: string, gap: string, a: string)
    requires |s| >= 5 && s[..5] == "bytes" && s[5..] == gap + a
    ensures s == "bytes" + gap + a
  {
    assert s == s[..5] + s[5..];
  }

  /** And nothing else is: a text that is understood is made of such parts and spells the sensible range it is taken for. */
  lemma UnderstoodIsGrammar(value: string) returns (pre: string, gap: string, p: Parts, post: string)
    requires Parse(value).Some?
    ensures Blank(pre) && Blank(gap) && gap != "" && Blank(post)
    ensures value == pre + ("bytes" + gap + Spec(p) + post)
    ensures Spells(p, Parse(value).value) && Sensible(Parse(value).value)
  {
    ParseIsSensible(value);
    pre, post := StrippedIsBlank(value);
    var s := Strip(value);
    gap := SkippedIsBlank(s[5..]);
    var a := SkipSpaces(s[5..]);
    p := ParsedIsSpelled(a);
    UnitAndGap(s, gap, a);
  }

  // ---- The optional header ----

  datatype Header = Absent | Unreadable | Says(range: Range) {
    function Total(): Option<nat> { if Says? then range.Total() else None }
  }

  function ReadHeader(raw: Option<string>): (h: Header)
    ensures h.Says? ==> Sensible(h.range)
    ensures h.Absent? <==> raw.None?
  {
    if raw.None? then Absent
    else
      var r := Parse(raw.value);
      if r.None? then Unreadable else Says(r.value)
  }

  /** A header says exactly what its text is understood as, and is unreadable exactly when it is not understood. */
  lemma HeaderExactly(text: string, r: Range)
    ensures ReadHeader(Some(text)) == Says(r) <==> Parse(text) == Some(r)
    ensures ReadHeader(Some(text)) == Unreadable <==> Parse(text) == None
    ensures Sensible(r) ==> ReadHeader(Some(Render(r))) == Says(r)
  {
    if Sensible(r) { ParseRender(r); }
  }
}
