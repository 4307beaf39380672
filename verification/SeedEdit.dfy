/** `registry_reprove.record_verification`: a targeted edit of one entry of a seed file's text. The old
    `verification:` block goes, `verified_with` and `last_validated` are rewritten, a new block follows
    `last_validated`; nothing else changes. `isId` says whether a line, without its break, is the entry's
    `- id:` line. */
module SeedEdit {
  import opened Common
  import opened TextLines
  import opened Template
  import opened SeedLines

  /** No entry of that id; a version that is no replacement template; no date to write at. */
  datatype Problem = NoEntry | BadVersion | NoDate

  predicate IsDateChar(c: char) { IsDigit(c) || c == '-' }

  /** A date, written as year, month and day. */
  type Date = s: string | |s| == 10 && forall x | 0 <= x < 10 :: IsDateChar(s[x]) witness "2026-01-01"

  /** What is recorded: the date, and the values of the block's keys, empty when missing. */
  datatype Proof = Proof(on: Date, endpoint: string, python: string, template: string, config: string, worker: string)

  const MARGIN := "                    # written by "
  const WRITER := "agentic/registry_reprove.py"
  const REASON := " \U{2014} what the live run met"
  const HEADER := BLOCK + MARGIN + WRITER + REASON + "\n"

  function KeyLines(key: string, value: string): (r: seq<Line>) {
    if value == "" then [] else [DEPTH + key + ": \"" + value + "\"\n"]
  }

  function NewBlock(p: Proof): seq<Line> {
    [HEADER, DEPTH + "verified_on: " + p.on + "\n"]
    + KeyLines("endpoint_version", p.endpoint) + KeyLines("python_version", p.python)
    + KeyLines("template_sha256", p.template) + KeyLines("config_sha256", p.config) + KeyLines("worker", p.worker)
  }

  function DateLine(p: Proof): Line { VALIDATED + (" " + p.on + "\n") }

  // ---- finding lines ----

  /** The first line of a shape from `i` on, or the number of lines. */
  function FirstOf(lines: seq<Line>, shape: Shape, i: nat): (k: nat)
    requires i <= |lines|
    ensures i <= k <= |lines| && (k < |lines| ==> ShapeOf(lines[k]) == shape)
    ensures forall x :: i <= x < k ==> ShapeOf(lines[x]) != shape
    decreases |lines| - i
  {
    if i == |lines| || ShapeOf(lines[i]) == shape then i else FirstOf(lines, shape, i + 1)
  }

  /** A line without its break. */
  function Bare(ln: Line): Line {
    if ln != "" && ln[|ln| - 1] in {'\r', '\n'} then Bare(ln[..|ln| - 1]) else ln
  }

  function FirstId(isId: Line -> bool, lines: seq<Line>, i: nat): (k: nat)
    requires i <= |lines|
    ensures i <= k <= |lines| && (k < |lines| ==> isId(Bare(lines[k])))
    ensures forall x :: i <= x < k ==> !isId(Bare(lines[x]))
    decreases |lines| - i
  {
    if i == |lines| || isId(Bare(lines[i])) then i else FirstId(isId, lines, i + 1)
  }

  /** Past the last line of a block's depth from `i` on, reading over blank lines and comments: `end` when there is
    none. */
  function BlockEnd(body: seq<Line>, i: nat, end: nat): (e: nat)
    requires i <= |body| && end <= i
    ensures end <= e <= |body| && (e == end || i < e)
    decreases |body| - i
  {
    if i == |body| then end
    else if ShapeOf(body[i]) == Deep then BlockEnd(body, i + 1, i + 1)
    else if ShapeOf(body[i]) == Skipped then BlockEnd(body, i + 1, end)
    else end
  }

  // ---- the edit of an entry's lines ----

  /** Without its first block. */
  function WithoutBlock(body: seq<Line>): seq<Line> {
    var v := FirstOf(body, BlockKey, 0);
    if v == |body| then body else body[..v] + body[BlockEnd(body, v + 1, v + 1)..]
  }

  /** The version to write, as a template; None when there is none to write. */
  function Written(p: Proof): Option<seq<Part>> { if p.endpoint == "" then None else Parts(p.endpoint) }

  function Rewrite(w: Option<seq<Part>>, ln: Line): Line { if w.None? then ln else Substituted(w.value, ln) }

  function Rewritten(w: Option<seq<Part>>, body: seq<Line>): (r: seq<Line>)
    ensures |r| == |body| && forall x :: 0 <= x < |r| ==> r[x] == Rewrite(w, body[x])
  {
    seq(|body|, x requires 0 <= x < |body| => Rewrite(w, body[x]))
  }

  /** The date and the new block in place of line `d`. */
  function Dated(p: Proof, body: seq<Line>, d: nat): seq<Line>
    requires d < |body|
  {
    body[..d] + [DateLine(p)] + NewBlock(p) + body[d + 1..]
  }

  /** The entry's lines edited; None when it has no date. */
  function EditBody(p: Proof, body: seq<Line>): Option<seq<Line>> {
    var kept := Rewritten(Written(p), WithoutBlock(body));
    var d := FirstOf(kept, Validated, 0);
    if d == |kept| then None else Some(Dated(p, kept, d))
  }

  /** Where the entry is: from its id line to the next entry, or the end. */
  function Edit(isId: Line -> bool, p: Proof, lines: seq<Line>): Result<seq<Line>, Problem> {
    var start := FirstId(isId, lines, 0);
    if start == |lines| then Failure(NoEntry)
    else if p.endpoint != "" && Parts(p.endpoint).None? then Failure(BadVersion)
    else
      var end := FirstOf(lines, Entry, start + 1);
      var body := EditBody(p, lines[start..end]);
      if body.None? then Failure(NoDate) else Success(lines[..start] + body.value + lines[end..])
  }

  /** The text edited: split into lines, edited, joined. */
  function EditText(isId: Line -> bool, p: Proof, t: string): Result<string, Problem> {
    var after := Edit(isId, p, Lines(t));
    if after.Failure? then Failure(after.error) else Success(Join(after.value))
  }

  /** A seed file: the text the edit reads and writes back. */
  class SeedFile {
    var text: string

    constructor (text: string)
      ensures this.text == text
    {
      this.text := text;
    }

    method Record(isId: Line -> bool, p: Proof) returns (problem: Option<Problem>)
      modifies this
      ensures problem
        == (if EditText(isId, p, old(text)).Failure? then Some(EditText(isId, p, old(text)).error) else None)
      ensures text == if problem.Some? then old(text) else EditText(isId, p, old(text)).value
    {
      hide EditBody, FirstId, FirstOf, Lines, Join, Parts;
      var lines := Lines(text);
      var start := FirstId(isId, lines, 0);
      if start == |lines| {
        return Some(NoEntry);
      }
      if p.endpoint != "" && Parts(p.endpoint).None? {
        return Some(BadVersion);
      }
      var end := FirstOf(lines, Entry, start + 1);
      var body := RecordBody(p, lines[start..end]);
      if body.None? {
        return Some(NoDate);
      }
      text := Join(lines[..start] + body.value + lines[end..]);
      return None;
    }
  }

  method RecordBody(p: Proof, body: seq<Line>) returns (edited: Option<seq<Line>>)
    ensures edited == EditBody(p, body)
  {
    hide ShapeOf, Substituted, NewBlock, DateLine;
    var kept := DropBlock(body);
    kept := Rewritten(Written(p), kept);
    var d := FirstOf(kept, Validated, 0);
    if d == |kept| {
      return None;
    }
    edited := Some(Dated(p, kept, d));
  }

  method DropBlock(body: seq<Line>) returns (kept: seq<Line>)
    ensures kept == WithoutBlock(body)
  {
    hide ShapeOf, FirstOf;
    var v := FirstOf(body, BlockKey, 0);
    if v == |body| {
      return body;
    }
    var past, j := v + 1, v + 1;
    while j < |body|
      invariant v + 1 <= past <= j <= |body| && BlockEnd(body, j, past) == BlockEnd(body, v + 1, v + 1)
    {
      if ShapeOf(body[j]) == Deep {
        past := j + 1;
      } else if ShapeOf(body[j]) != Skipped {
        break;
      }
      j := j + 1;
    }
    kept := body[..v] + body[past..];
  }

  lemma RewriteKeepsShape(w: Option<seq<Part>>, ln: Line)
    ensures ShapeOf(Rewrite(w, ln)) == ShapeOf(ln)
    ensures Rewrite(w, ln) != ln ==> ShapeOf(ln) in {Deep, Plain}
  {
    hide ShapeOf, Substituted;
    if w.Some? {
      SubstitutedKeepsShape(w.value, ln);
    }
  }

  lemma {:induction false} FirstIs(lines: seq<Line>, shape: Shape, i: nat, k: nat)
    requires i <= k <= |lines| && (k < |lines| ==> ShapeOf(lines[k]) == shape)
    requires forall x :: i <= x < k ==> ShapeOf(lines[x]) != shape
    ensures FirstOf(lines, shape, i) == k
    decreases k - i
  {
    hide ShapeOf;
    if i < k {
      FirstIs(lines, shape, i + 1, k);
    }
  }

  // ---- what the edit leaves alone ----

  /** Outside the entry every line stays, and the entry is still between them. */
  lemma OutsideStays(isId: Line -> bool, p: Proof, lines: seq<Line>)
    requires Edit(isId, p, lines).Success?
    ensures var start, after := FirstId(isId, lines, 0), Edit(isId, p, lines).value;
      var end := FirstOf(lines, Entry, start + 1);
      && |after| >= start + |lines| - end
      && after[..start] == lines[..start] && after[|after| - (|lines| - end)..] == lines[end..]
  {
  }

  /** So does the text outside it: what comes before the entry and what follows it. */
  lemma TextOutsideStays(isId: Line -> bool, p: Proof, t: string)
    requires EditText(isId, p, t).Success?
    ensures var lines, after := Lines(t), EditText(isId, p, t).value;
      var start := FirstId(isId, lines, 0);
      var end := FirstOf(lines, Entry, start + 1);
      && EditBody(p, lines[start..end]).Some?
      && t == Join(lines[..start]) + Join(lines[start..end]) + Join(lines[end..])
      && after == Join(lines[..start]) + Join(EditBody(p, lines[start..end]).value) + Join(lines[end..])
  {
    hide EditBody, Lines, Join, FirstOf, FirstId, Parts;
    var lines := Lines(t);
    var start := FirstId(isId, lines, 0);
    var end := FirstOf(lines, Entry, start + 1);
    var body := EditBody(p, lines[start..end]).value;
    LinesAre(t);
    assert lines == lines[..start] + lines[start..end] + lines[end..];
    JoinConcat(lines[..start] + lines[start..end], lines[end..]);
    JoinConcat(lines[..start], lines[start..end]);
    JoinConcat(lines[..start] + body, lines[end..]);
    JoinConcat(lines[..start], body);
  }

  /** Line `i` of an entry is of its old block. */
  ghost predicate OfBlock(body: seq<Line>, i: nat) {
    var v := FirstOf(body, BlockKey, 0);
    v < |body| && v <= i < BlockEnd(body, v + 1, v + 1)
  }

  lemma {:induction false} BlockIsDeep(body: seq<Line>, i: nat, end: nat, x: nat)
    requires i <= |body| && end <= i && i <= x < BlockEnd(body, i, end)
    ensures ShapeOf(body[x]) == Deep || ShapeOf(body[x]) == Skipped
    ensures ShapeOf(body[BlockEnd(body, i, end) - 1]) == Deep
    decreases |body| - i
  {
    hide ShapeOf;
    if ShapeOf(body[i]) == Deep {
      if BlockEnd(body, i + 1, i + 1) > i + 1 {
        BlockIsDeep(body, i + 1, i + 1, if x == i then i + 1 else x);
      }
    } else if x > i {
      BlockIsDeep(body, i + 1, end, x);
    } else {
      BlockIsDeep(body, i + 1, end, i + 1);
    }
  }

  /** The old block is its key, lines of its depth, and blank lines or comments between those. */
  lemma OldBlockIs(body: seq<Line>, i: nat)
    requires OfBlock(body, i)
    ensures i < |body| && ShapeOf(body[i]) in {BlockKey, Deep, Skipped}
    ensures ShapeOf(body[i]) == BlockKey ==> i == FirstOf(body, BlockKey, 0)
  {
    hide ShapeOf;
    var v := FirstOf(body, BlockKey, 0);
    if i > v {
      BlockIsDeep(body, v + 1, v + 1, i);
    }
  }

  /** Where line `i` of an entry, not of its old block, is once the block is gone. */
  ghost function KeptAt(body: seq<Line>, i: nat): (k: nat)
    requires i < |body| && !OfBlock(body, i)
    ensures k < |WithoutBlock(body)| && WithoutBlock(body)[k] == body[i]
  {
    var v := FirstOf(body, BlockKey, 0);
    if i < v then
      CutBefore(body, i);
      i
    else
      CutAfter(body, i);
      i - (BlockEnd(body, v + 1, v + 1) - v)
  }

  lemma CutBefore(body: seq<Line>, i: nat)
    requires i < FirstOf(body, BlockKey, 0)
    ensures i < |WithoutBlock(body)| && WithoutBlock(body)[i] == body[i]
  {
    hide ShapeOf, FirstOf, BlockEnd;
  }

  lemma CutAfter(body: seq<Line>, i: nat)
    requires FirstOf(body, BlockKey, 0) <= i < |body| && !OfBlock(body, i)
    ensures var v := FirstOf(body, BlockKey, 0);
      var k := i - (BlockEnd(body, v + 1, v + 1) - v);
      0 <= k < |WithoutBlock(body)| && WithoutBlock(body)[k] == body[i]
  {
    hide ShapeOf, FirstOf, BlockEnd;
  }

  /** The lines kept are those of the entry that are not of its block. */
  lemma KeptIsOnto(body: seq<Line>, k: nat) returns (i: nat)
    requires k < |WithoutBlock(body)|
    ensures i < |body| && !OfBlock(body, i) && KeptAt(body, i) == k
  {
    hide ShapeOf, FirstOf, BlockEnd;
    var v := FirstOf(body, BlockKey, 0);
    i := if k < v || v == |body| then k else k + (BlockEnd(body, v + 1, v + 1) - v);
  }

  /** The date of an entry is not in its block, and is the date of what is kept. */
  lemma DateStays(w: Option<seq<Part>>, body: seq<Line>)
    requires FirstOf(body, Validated, 0) < |body|
    ensures var d := FirstOf(body, Validated, 0);
      !OfBlock(body, d) && FirstOf(Rewritten(w, WithoutBlock(body)), Validated, 0) == KeptAt(body, d)
  {
    hide ShapeOf, BlockEnd, Substituted, FirstOf;
    var d := FirstOf(body, Validated, 0);
    if OfBlock(body, d) {
      OldBlockIs(body, d);
    }
    var kept := Rewritten(w, WithoutBlock(body));
    forall k | 0 <= k < |kept| ensures ShapeOf(kept[k]) == ShapeOf(WithoutBlock(body)[k]) {
      RewriteKeepsShape(w, WithoutBlock(body)[k]);
    }
    forall k | 0 <= k < KeptAt(body, d) ensures ShapeOf(kept[k]) != Validated {
      var i := KeptIsOnto(body, k);
    }
    FirstIs(kept, Validated, 0, KeptAt(body, d));
  }

  /** Where line `i` of an entry, not of its old block, goes: the new block comes right after the date. */
  ghost function NewLine(p: Proof, body: seq<Line>, i: nat): nat
    requires i < |body| && !OfBlock(body, i)
  {
    if i <= FirstOf(body, Validated, 0) then KeptAt(body, i) else KeptAt(body, i) + |NewBlock(p)|
  }

  /** Inside the entry every line not of the old block goes to its new place, in order: the date rewritten,
      `verified_with` rewritten, anything else as it was; and right after the date stands the new block. */
  lemma InsideStays(p: Proof, body: seq<Line>, i: nat)
    requires i < |body| && !OfBlock(body, i) && EditBody(p, body).Some?
    ensures FirstOf(body, Validated, 0) < |body|
    ensures var after, d := EditBody(p, body).value, FirstOf(body, Validated, 0);
      && NewLine(p, body, i) < |after|
      && after[NewLine(p, body, i)] == (if i == d then DateLine(p) else Rewrite(Written(p), body[i]))
      && !OfBlock(body, d) && NewLine(p, body, d) + 1 + |NewBlock(p)| <= |after|
      && after[NewLine(p, body, d) + 1..NewLine(p, body, d) + 1 + |NewBlock(p)|] == NewBlock(p)
  {
    hide ShapeOf, Substituted, NewBlock, DateLine, FirstOf, BlockEnd, KeptAt, WithoutBlock, OfBlock, Dated;
    HasDate(Written(p), body);
    DateStays(Written(p), body);
    PlacedAround(p, Rewritten(Written(p), WithoutBlock(body)), KeptAt(body, FirstOf(body, Validated, 0)),
      KeptAt(body, i));
    KeptOrder(body, FirstOf(body, Validated, 0), i);
  }

  lemma HasDate(w: Option<seq<Part>>, body: seq<Line>)
    requires FirstOf(Rewritten(w, WithoutBlock(body)), Validated, 0) < |WithoutBlock(body)|
    ensures FirstOf(body, Validated, 0) < |body|
  {
    hide ShapeOf, BlockEnd, Substituted, FirstOf;
    var k := FirstOf(Rewritten(w, WithoutBlock(body)), Validated, 0);
    RewriteKeepsShape(w, WithoutBlock(body)[k]);
    var i := KeptIsOnto(body, k);
    assert ShapeOf(body[i]) == Validated;
  }

  lemma PlacedAround(p: Proof, kept: seq<Line>, d: nat, k: nat)
    requires d < |kept| && k < |kept|
    ensures var after, n := Dated(p, kept, d), |NewBlock(p)|;
      && |after| == |kept| + n && after[d] == DateLine(p) && after[d + 1..d + 1 + n] == NewBlock(p)
      && (k < d ==> after[k] == kept[k]) && (k > d ==> after[k + n] == kept[k])
  {
    hide NewBlock, DateLine;
  }

  /** Lines keep their order. */
  lemma KeptOrder(body: seq<Line>, i: nat, j: nat)
    requires i < |body| && j < |body| && !OfBlock(body, i) && !OfBlock(body, j)
    ensures (i < j <==> KeptAt(body, i) < KeptAt(body, j)) && (i == j <==> KeptAt(body, i) == KeptAt(body, j))
  {
    hide ShapeOf, FirstOf, BlockEnd;
  }
}
