/** The lines of a seed file, as `registry_reprove.record_verification` reads them: what a line is, and how
    the value of a `verified_with:` key is rewritten. A line carries its own line ending. */
module SeedLines {
  import opened Common
  import opened TextLines
  import opened Template

  // ---- what the edit reads of a line ----

  predicate Starts(s: string, p: string) { |p| <= |s| && s[..|p|] == p }

  /** A new entry; the block's key; the date's key; a line of the block's depth; a blank line or a comment; any
    other. */
  datatype Shape = Entry | BlockKey | Validated | Deep | Skipped | Plain

  const ENTRY := "- "
  const BLOCK := "  verification:"
  const VALIDATED := "  last_validated:"
  const DEPTH := "    "
  const VERIFIED_WITH := "verified_with:"

  predicate IsBlank(ln: Line) { SkipSpace(ln, 0) == |ln| }

  predicate IsComment(ln: Line) { !IsBlank(ln) && ln[SkipSpace(ln, 0)] == '#' }

  function ShapeOf(ln: Line): Shape {
    if Starts(ln, DEPTH) && !IsBlank(ln) then Deep
    else if IsBlank(ln) || IsComment(ln) then Skipped
    else if Starts(ln, ENTRY) then Entry
    else if Starts(ln, BLOCK) then BlockKey
    else if Starts(ln, VALIDATED) then Validated
    else Plain
  }

  // ---- `verified_with` ----

  function SkipPlain(s: string, i: nat): (k: nat)
    requires i <= |s|
    ensures i <= k <= |s| && (k < |s| ==> !IsPlain(s[k])) && forall x :: i <= x < k ==> IsPlain(s[x])
    decreases |s| - i
  {
    if i < |s| && IsPlain(s[i]) then SkipPlain(s, i + 1) else i
  }

  function PastQuote(s: string, i: nat): (k: nat)
    requires i <= |s|
    ensures i <= k <= |s|
  {
    if i < |s| && s[i] == '"' then i + 1 else i
  }

  /** Where the value of an indented `verified_with:` key is: from its (optional) opening quote to past the closing
    one. */
  datatype Span = Span(from: nat, to: nat)

  function ValueAt(ln: Line): (at: Option<Span>)
    ensures at.Some? ==> 0 < |VERIFIED_WITH| < at.value.from < at.value.to <= |ln|
  {
    var i := SkipSpace(ln, 0);
    if i == 0 || !Starts(ln[i..], VERIFIED_WITH) then None
    else
      var j := SkipSpace(ln, i + |VERIFIED_WITH|);
      var q := PastQuote(ln, j);
      var k := SkipPlain(ln, q);
      if k == q then None else Some(Span(j, PastQuote(ln, k)))
  }

  /** The value replaced by the version, read as a replacement template: its group 1 is what comes before the
      value, its group 0 that and the value. */
  function Substituted(parts: seq<Part>, ln: Line): Line {
    var at := ValueAt(ln);
    if at.None? then ln
    else ln[..at.value.from] + Quoted(Expand(parts, ln[..at.value.from], ln[..at.value.to])) + ln[at.value.to..]
  }

  lemma {:induction false} SkipPlainIs(s: string, i: nat, k: nat)
    requires i <= k <= |s| && (k < |s| ==> !IsPlain(s[k])) && forall x :: i <= x < k ==> IsPlain(s[x])
    ensures SkipPlain(s, i) == k
    decreases k - i
  {
    if i < k {
      SkipPlainIs(s, i + 1, k);
    }
  }

  /** A `verified_with:` key after `i` white characters, its value after white characters up to `j`. */
  ghost predicate KeyLine(ln: Line, i: nat, j: nat) {
    && 0 < i && i + |VERIFIED_WITH| <= j <= |ln|
    && (forall x :: 0 <= x < i ==> IsSpace(ln[x])) && ln[i..i + |VERIFIED_WITH|] == VERIFIED_WITH
    && (forall x :: i + |VERIFIED_WITH| <= x < j ==> IsSpace(ln[x]))
  }

  /** A key line is read up to its value, whatever that is (but no white space). */
  lemma ReadsKey(pre: string, i: nat, value: string)
    requires KeyLine(pre, i, |pre|) && value != "" && !IsSpace(value[0])
    ensures var ln := pre + value;
      && SkipSpace(ln, 0) == i && Starts(ln[i..], VERIFIED_WITH) && SkipSpace(ln, i + |VERIFIED_WITH|) == |pre|
  {
    var ln := pre + value;
    assert ln[|pre|] == value[0] && ln[i] == pre[i] == pre[i..i + |VERIFIED_WITH|][0] == 'v';
    assert forall x :: 0 <= x < |pre| ==> ln[x] == pre[x];
    SkipSpaceIs(ln, 0, i);
    assert ln[i..][..|VERIFIED_WITH|] == pre[i..i + |VERIFIED_WITH|];
    SkipSpaceIs(ln, i + |VERIFIED_WITH|, |pre|);
  }

  /** `n` plain characters at the head of a text, and no more. */
  ghost predicate HeadIsPlain(v: string, n: nat) {
    n <= |v| && (n < |v| ==> !IsPlain(v[n])) && forall x :: 0 <= x < n ==> IsPlain(v[x])
  }

  lemma PlainOfQuoted(pre: string, v: string, n: nat, rest: string)
    requires HeadIsPlain(v, n)
    ensures var ln, j := pre + (Quoted(v) + rest), |pre|;
      && PastQuote(ln, j) == j + 1 && SkipPlain(ln, j + 1) == j + 1 + n
      && PastQuote(ln, j + 1 + n) == j + 1 + n + if n == |v| || v[n] == '"' then 1 else 0
  {
    var ln, j := pre + (Quoted(v) + rest), |pre|;
    assert ln[j] == '"' && ln[j + 1 + n] == (if n == |v| then '"' else v[n]);
    assert forall x :: j + 1 <= x < j + 1 + n ==> ln[x] == v[x - (j + 1)];
    SkipPlainIs(ln, j + 1, j + 1 + n);
  }

  /** Of a quoted text the plain characters at its head are read as the value, and the quote if it follows them. */
  lemma ReadsQuoted(pre: string, i: nat, v: string, n: nat, rest: string)
    requires KeyLine(pre, i, |pre|) && HeadIsPlain(v, n)
    ensures ValueAt(pre + Quoted(v) + rest) == if n == 0 then None
      else Some(Span(|pre|, |pre| + 1 + n + if n == |v| || v[n] == '"' then 1 else 0))
  {
    hide SkipSpace, Starts, SkipPlain, PastQuote, HeadIsPlain, IsPlain;
    assert pre + (Quoted(v) + rest) == pre + Quoted(v) + rest;
    ReadsKey(pre, i, Quoted(v) + rest);
    PlainOfQuoted(pre, v, n, rest);
    HeadIsShort(v, n);
  }

  lemma HeadIsShort(v: string, n: nat)
    requires HeadIsPlain(v, n)
    ensures n <= |v|
  {
  }

  lemma ValueFollowsKey(ln: Line)
    requires ValueAt(ln).Some?
    ensures KeyLine(ln[..ValueAt(ln).value.from], SkipSpace(ln, 0), ValueAt(ln).value.from)
  {
    var i, j := SkipSpace(ln, 0), ValueAt(ln).value.from;
    assert ln[..j][i..i + |VERIFIED_WITH|] == ln[i..][..|VERIFIED_WITH|];
  }

  /** A version whose head is plain and the rest is not: its closing quote is taken for part of the value. */
  predicate Grows(parts: seq<Part>) { 0 < PlainHead(parts) < |parts| }

  /** Writing a version over the same version leaves the line alone, or makes it longer: longer exactly when
      there is a value to write over, and the version is not read back whole. */
  lemma SubstitutedTwice(parts: seq<Part>, ln: Line)
    ensures var once := Substituted(parts, ln);
      if ValueAt(ln).Some? && Grows(parts) then |Substituted(parts, once)| > |once|
      else Substituted(parts, once) == once
  {
    hide ValueAt, KeyLine, Expand, PlainHead;
    var at := ValueAt(ln);
    if at.Some? {
      ValueFollowsKey(ln);
      var pre, rest := ln[..at.value.from], ln[at.value.to..];
      GroupsAreSpaced(ln);
      var v, n := Expand(parts, pre, ln[..at.value.to]), PlainHead(parts);
      ExpandsPlain(parts, pre, ln[..at.value.to]);
      var once := pre + Quoted(v) + rest;
      ReadsQuoted(pre, SkipSpace(ln, 0), v, n, rest);
      if n > 0 {
        var to := ValueAt(once).value.to;
        assert once[..|pre|] == pre && once[..to][0] == pre[0];
        ExpandsPlain(parts, pre, once[..to]);
        if n == |parts| {
          ExpandsAlike(parts, pre, ln[..at.value.to], once[..to]);
          assert once[to..] == rest;
        }
      }
    }
  }

  /** What comes before a value starts with white space. */
  lemma GroupsAreSpaced(ln: Line)
    requires ValueAt(ln).Some?
    ensures var at := ValueAt(ln).value;
      0 < at.from <= at.to <= |ln| && ln[..at.from][0] == ln[..at.to][0] && !IsPlain(ln[..at.from][0])
  {
  }

  /** A character of a prefix is there. */
  lemma StartsAt(ln: Line, p: string, x: nat)
    requires x < |p|
    ensures Starts(ln, p) ==> x < |ln| && ln[x] == p[x]
  {
    if Starts(ln, p) {
      assert ln[..|p|][x] == p[x];
    }
  }

  /** An indented `verified_with:` line is no entry, block or date, and not blank or a comment. */
  lemma KeyLineShape(ln: Line, i: nat, j: nat)
    requires KeyLine(ln, i, j)
    ensures ShapeOf(ln) == if Starts(ln, DEPTH) then Deep else Plain
  {
    assert ln[i] == ln[i..i + |VERIFIED_WITH|][0] == 'v';
    assert ln[i + 6] == ln[i..i + |VERIFIED_WITH|][6] == 'e';
    SkipSpaceIs(ln, 0, i);
    StartsAt(ln, ENTRY, 0);
    StartsAt(ln, BLOCK, 2);
    StartsAt(ln, BLOCK, 8);
    StartsAt(ln, BLOCK, 1);
    StartsAt(ln, BLOCK, 0);
    StartsAt(ln, VALIDATED, 2);
    StartsAt(ln, VALIDATED, 1);
    StartsAt(ln, VALIDATED, 0);
  }

  /** It changes neither what the line is nor what comes before the value. */
  lemma SubstitutedKeepsShape(parts: seq<Part>, ln: Line)
    ensures ShapeOf(Substituted(parts, ln)) == ShapeOf(ln)
    ensures Substituted(parts, ln) != ln ==> ShapeOf(ln) in {Deep, Plain}
  {
    var at := ValueAt(ln);
    if at.Some? {
      hide ValueAt, ShapeOf;
      ValueFollowsKey(ln);
      var i, j := SkipSpace(ln, 0), at.value.from;
      var after := Substituted(parts, ln);
      hide Expand;
      assert after[..j] == ln[..j];
      SameKey(ln, ln[..j], i);
      SameKey(after, ln[..j], i);
      KeyLineShape(ln, i, j);
      KeyLineShape(after, i, j);
      assert forall x :: 0 <= x < j ==> after[x] == ln[x];
      assert Starts(after, DEPTH) <==> Starts(ln, DEPTH) by {
        assert after[..4] == after[..j][..4] && ln[..4] == ln[..j][..4];
      }
    }
  }

  lemma SameKey(ln: Line, pre: string, i: nat)
    requires |pre| <= |ln| && ln[..|pre|] == pre && KeyLine(pre, i, |pre|)
    ensures KeyLine(ln, i, |pre|)
  {
    assert forall x :: 0 <= x < |pre| ==> ln[x] == pre[x];
    assert ln[i..i + |VERIFIED_WITH|] == pre[i..i + |VERIFIED_WITH|];
  }

  // ---- rewritten lines, as lines ----

  /** Writing the version can break the line. */
  predicate BreaksLines(parts: seq<Part>) { exists x :: 0 <= x < |parts| && parts[x].Lit? && IsBreak(parts[x].c) }

  lemma {:induction false} ExpandHolds(parts: seq<Part>, key: string, whole: string)
    requires !BreaksLines(parts) && !HasBreak(key) && !HasBreak(whole)
    ensures !HasBreak(Expand(parts, key, whole))
  {
    hide IsBreak;
    if parts != [] {
      assert forall x :: 0 <= x < |parts[1..]| ==> parts[1..][x] == parts[x + 1];
      ExpandHolds(parts[1..], key, whole);
    }
  }

  /** The break of a line comes after its value. */
  lemma ValueHasNoBreak(ln: Line)
    requires IsLine(ln) && ValueAt(ln).Some?
    ensures var at := ValueAt(ln).value; !HasBreak(ln[..at.from]) && !HasBreak(ln[..at.to])
  {
    var to := ValueAt(ln).value.to;
    assert !IsBreak(ln[to - 1]);
    var k := FirstBreak(ln, 0);
    assert to <= k;
  }

  /** A line with its head replaced by another without breaks is a line, and ends as it did. */
  lemma ReplacesHead(ln: Line, to: nat, head: string)
    requires IsLine(ln) && to <= |ln| && !HasBreak(ln[..to]) && head != "" && !HasBreak(head)
    ensures var after := head + ln[to..];
      IsLine(after) && (Ends(after) <==> Ends(ln)) && (EndsInReturn(after) <==> EndsInReturn(ln)) && after[0] == head[0]
  {
    var after, k := head + ln[to..], FirstBreak(ln, 0);
    assert forall x :: 0 <= x < to ==> ln[..to][x] == ln[x];
    assert k >= to;
    assert forall x :: to <= x < |ln| ==> after[|head| + x - to] == ln[x];
    FirstBreakIs(after, 0, |head| + k - to);
    if to == |ln| {
      assert !IsBreak(after[|after| - 1]) && !IsBreak(ln[..to][to - 1]);
    }
  }

  lemma SubstitutedLine(parts: seq<Part>, ln: Line)
    requires IsLine(ln) && (BreaksLines(parts) ==> ValueAt(ln).None?)
    ensures var after := Substituted(parts, ln);
      IsLine(after) && (Ends(after) <==> Ends(ln)) && (EndsInReturn(after) <==> EndsInReturn(ln)) && after[0] == ln[0]
  {
    hide IsLine, ValueAt, Expand, BreaksLines, HasBreak, Ends, IsBreak;
    var at := ValueAt(ln);
    if at.Some? {
      ValueHasNoBreak(ln);
      GroupsAreSpaced(ln);
      var pre := ln[..at.value.from];
      var v := Expand(parts, pre, ln[..at.value.to]);
      ExpandHolds(parts, pre, ln[..at.value.to]);
      HeadHasNoBreak(pre, v);
      assert pre + Quoted(v) + ln[at.value.to..] == (pre + Quoted(v)) + ln[at.value.to..];
      ReplacesHead(ln, at.value.to, pre + Quoted(v));
    }
  }

  lemma HeadHasNoBreak(pre: string, v: string)
    requires !HasBreak(pre) && !HasBreak(v)
    ensures !HasBreak(pre + Quoted(v))
  {
  }

  // ---- a line and the newline glued to it ----

  lemma SkipSpaceGlued(ln: Line, i: nat)
    requires i <= |ln|
    ensures SkipSpace(ln + "\n", i) == if SkipSpace(ln, i) < |ln| then SkipSpace(ln, i) else |ln| + 1
  {
    var k := SkipSpace(ln, i);
    SkipSpaceIs(ln + "\n", i, if k < |ln| then k else |ln| + 1);
  }

  lemma StartsGlued(ln: Line, p: string)
    requires p != "" && p[|p| - 1] != '\n'
    ensures Starts(ln + "\n", p) <==> Starts(ln, p)
  {
    var after := ln + "\n";
    if |p| <= |ln| {
      assert after[..|p|] == ln[..|p|];
    } else if |p| == |ln| + 1 {
      assert after[..|p|][|p| - 1] == '\n';
    }
  }

  lemma ShapeGlued(ln: Line)
    ensures ShapeOf(ln + "\n") == ShapeOf(ln)
  {
    hide Starts, SkipSpace;
    SkipSpaceGlued(ln, 0);
    StartsGlued(ln, ENTRY);
    StartsGlued(ln, BLOCK);
    StartsGlued(ln, VALIDATED);
    StartsGlued(ln, DEPTH);
  }

  lemma PlainGlued(ln: Line, q: nat)
    requires EndsInReturn(ln) && q <= |ln|
    ensures SkipPlain(ln + "\n", q) == SkipPlain(ln, q)
  {
    PlainStops(ln, q);
    assert forall x :: 0 <= x < |ln| ==> (ln + "\n")[x] == ln[x];
    SkipPlainIs(ln + "\n", q, SkipPlain(ln, q));
  }

  lemma QuoteGlued(ln: Line, i: nat)
    requires i <= |ln|
    ensures PastQuote(ln + "\n", i) == PastQuote(ln, i)
  {
  }

  lemma ValueGlued(ln: Line)
    requires EndsInReturn(ln)
    ensures ValueAt(ln + "\n") == ValueAt(ln)
  {
    hide Starts, SkipSpace, SkipPlain, PastQuote, IsPlain, IsSpace;
    var after, i := ln + "\n", SkipSpace(ln, 0);
    SkipSpaceGlued(ln, 0);
    if i < |ln| {
      assert after[i..] == ln[i..] + "\n";
      StartsGlued(ln[i..], VERIFIED_WITH);
      if Starts(ln[i..], VERIFIED_WITH) {
        StartsWithin(ln, i);
        SkipSpaceGlued(ln, i + |VERIFIED_WITH|);
        var j := SkipSpace(ln, i + |VERIFIED_WITH|);
        if j < |ln| {
          QuoteGlued(ln, j);
          PlainGlued(ln, PastQuote(ln, j));
          QuoteGlued(ln, SkipPlain(ln, PastQuote(ln, j)));
        } else {
          NothingToRead(ln, |ln|);
          NothingToRead(after, |after|);
        }
      }
    } else {
      NoKeyAtEnd(ln);
      NoKeyAtEnd(after);
    }
  }

  lemma NothingToRead(ln: Line, j: nat)
    requires j == |ln|
    ensures PastQuote(ln, j) == j && SkipPlain(ln, j) == j
  {
  }

  lemma NoKeyAtEnd(ln: Line)
    ensures !Starts(ln[|ln|..], VERIFIED_WITH)
  {
    assert ln[|ln|..] == "";
  }

  lemma StartsWithin(ln: Line, i: nat)
    requires i <= |ln| && Starts(ln[i..], VERIFIED_WITH)
    ensures i + |VERIFIED_WITH| <= |ln|
  {
  }

  /** The carriage return at the end of a line stops its value. */
  lemma PlainStops(ln: Line, q: nat)
    requires EndsInReturn(ln) && q <= |ln|
    ensures SkipPlain(ln, q) < |ln| || q == |ln|
  {
    assert !IsPlain(ln[|ln| - 1]);
  }

  lemma SubstitutedGlued(parts: seq<Part>, ln: Line)
    requires EndsInReturn(ln)
    ensures Substituted(parts, ln + "\n") == Substituted(parts, ln) + "\n"
  {
    hide ValueAt, Expand;
    ValueGlued(ln);
    var at, after := ValueAt(ln), ln + "\n";
    if at.Some? {
      var from, to := at.value.from, at.value.to;
      assert after[..from] == ln[..from] && after[..to] == ln[..to] && after[to..] == ln[to..] + "\n";
      var head := ln[..from] + Quoted(Expand(parts, ln[..from], ln[..to]));
      assert head + (ln[to..] + "\n") == head + ln[to..] + "\n";
    }
  }
}
