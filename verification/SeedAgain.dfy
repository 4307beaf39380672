/** The second of two edits with the same proof. It reads the text the first one wrote, split into lines again:
    a value with a break in it has become several lines, and a break the old block stood in has closed. */
module SeedAgain {
  import opened Common
  import opened TextLines
  import opened Template
  import opened SeedLines
  import opened SeedEdit

  // ---- what matters of a list of lines ----

  /** The shapes of the lines that are neither blank nor comments. */
  function Shapes(ls: seq<Line>): seq<Shape> {
    if ls == [] then []
    else if ShapeOf(ls[0]) == Skipped then Shapes(ls[1..])
    else [ShapeOf(ls[0])] + Shapes(ls[1..])
  }

  /** No line of a block's depth comes before the next key: only blank lines and comments do. */
  predicate NothingDeepNext(ls: seq<Line>) { Shapes(ls) == [] || Shapes(ls)[0] != Deep }

  predicate HasValue(ls: seq<Line>) { exists x :: 0 <= x < |ls| && ValueAt(ls[x]).Some? }

  /** Writing the version breaks none of the lines. */
  predicate Fits(w: Option<seq<Part>>, ls: seq<Line>) { w.Some? && BreaksLines(w.value) ==> !HasValue(ls) }

  lemma {:induction false} ShapesHold(ls: seq<Line>, sh: Shape)
    requires sh != Skipped
    ensures sh in Shapes(ls) <==> exists x :: 0 <= x < |ls| && ShapeOf(ls[x]) == sh
  {
    hide ShapeOf;
    if ls != [] {
      ShapesHold(ls[1..], sh);
      assert forall x :: 0 <= x < |ls[1..]| ==> ls[1..][x] == ls[x + 1];
      if x :| 0 <= x < |ls| && ShapeOf(ls[x]) == sh {
        assert x > 0 ==> ls[1..][x - 1] == ls[x];
      }
    }
  }

  lemma NewlineIsSkipped()
    ensures ShapeOf("\n") == Skipped && ValueAt("\n").None?
  {
    SkipSpaceIs("\n", 0, 1);
    NoKeyAtEnd("\n");
  }

  lemma {:induction false} ShapesGlue(ls: seq<Line>)
    ensures Shapes(Glue(ls)) == Shapes(ls)
    decreases |ls|
  {
    hide ShapeOf, EndsInReturn;
    if ls == [] {
    } else if |ls| > 1 && EndsInReturn(ls[0]) && ls[1] == "\n" {
      ShapesGlue(ls[2..]);
      ShapeGlued(ls[0]);
      NewlineIsSkipped();
      assert ls[1..][1..] == ls[2..];
    } else {
      ShapesGlue(ls[1..]);
    }
  }

  lemma {:induction false} ShapesRewritten(w: Option<seq<Part>>, ls: seq<Line>)
    ensures Shapes(Rewritten(w, ls)) == Shapes(ls)
  {
    hide ShapeOf, Rewrite;
    if ls != [] {
      RewriteKeepsShape(w, ls[0]);
      assert Rewritten(w, ls)[1..] == Rewritten(w, ls[1..]);
      ShapesRewritten(w, ls[1..]);
    }
  }

  // ---- rewritten lines ----

  lemma RewriteLine(w: Option<seq<Part>>, ln: Line)
    requires IsLine(ln) && (w.Some? && BreaksLines(w.value) ==> ValueAt(ln).None?)
    ensures var after := Rewrite(w, ln);
      IsLine(after) && (Ends(after) <==> Ends(ln)) && (EndsInReturn(after) <==> EndsInReturn(ln))
        && (after == "\n" <==> ln == "\n")
  {
    hide IsLine, Ends, EndsInReturn, ValueAt, BreaksLines, Substituted;
    LineIsThere(ln);
    NewlineIsSkipped();
    if w.Some? {
      SubstitutedLine(w.value, ln);
      LineIsThere(Substituted(w.value, ln));
      if Substituted(w.value, ln) == "\n" {
        NewlineLine(ln);
      }
      if ln == "\n" {
        NewlineLine(Substituted(w.value, ln));
      }
    }
  }

  lemma RewrittenLines(w: Option<seq<Part>>, ls: seq<Line>)
    requires AreLines(ls) && Fits(w, ls)
    ensures AreLines(Rewritten(w, ls))
  {
    hide IsLine, Ends, EndsInReturn, ValueAt, BreaksLines, Rewrite;
    forall i | 0 <= i < |ls| ensures IsLine(Rewrite(w, ls[i])) && (Ends(Rewrite(w, ls[i])) <==> Ends(ls[i])) {
      RewriteLine(w, ls[i]);
    }
  }

  /** Lines that do not have a value to write over stay. */
  lemma NothingWritten(w: Option<seq<Part>>, ls: seq<Line>)
    requires !HasValue(ls)
    ensures Rewritten(w, ls) == ls
  {
    hide ValueAt;
  }

  /** Lines already written to can be written to again. */
  lemma FitsAgain(w: Option<seq<Part>>, ls: seq<Line>)
    requires Fits(w, ls)
    ensures Fits(w, Rewritten(w, ls))
  {
    hide HasValue, BreaksLines, Rewrite;
    if w.Some? && BreaksLines(w.value) {
      NothingWritten(w, ls);
    }
  }

  lemma {:induction false} RewrittenGlue(w: Option<seq<Part>>, ls: seq<Line>)
    requires AreLines(ls) && Fits(w, ls)
    ensures Rewritten(w, Glue(ls)) == Glue(Rewritten(w, ls))
    decreases |ls|
  {
    hide EndsInReturn, AreLines, Fits, Rewrite, Rewritten;
    if ls == [] {
      NothingToWrite(w);
    } else {
      FitsHead(w, ls);
      RewriteLine(w, ls[0]);
      RewrittenHead(w, ls);
      if |ls| > 1 {
        FitsHead(w, ls[1..]);
        RewriteLine(w, ls[1]);
        RewrittenHead(w, ls[1..]);
      }
      if |ls| > 1 && EndsInReturn(ls[0]) && ls[1] == "\n" {
        assert ls[1..][1..] == ls[2..];
        RewrittenGlue(w, ls[2..]);
        RewriteGlued(w, ls[0]);
        RewrittenHead(w, Glue(ls));
        assert Rewritten(w, ls)[2..] == Rewritten(w, ls[2..]);
      } else {
        RewrittenGlue(w, ls[1..]);
        RewrittenHead(w, Glue(ls));
      }
    }
  }

  lemma FitsHead(w: Option<seq<Part>>, ls: seq<Line>)
    requires AreLines(ls) && Fits(w, ls) && ls != []
    ensures IsLine(ls[0]) && (w.Some? && BreaksLines(w.value) ==> ValueAt(ls[0]).None?)
    ensures AreLines(ls[1..]) && Fits(w, ls[1..])
  {
    hide IsLine, Ends, ValueAt, BreaksLines, HasValue;
    ValueInTail(ls);
  }

  lemma RewriteGlued(w: Option<seq<Part>>, ln: Line)
    requires EndsInReturn(ln)
    ensures Rewrite(w, ln + "\n") == Rewrite(w, ln) + "\n"
  {
    hide Substituted;
    if w.Some? {
      SubstitutedGlued(w.value, ln);
    }
  }

  lemma RewriteAgain(w: Option<seq<Part>>, ln: Line)
    ensures var once := Rewrite(w, ln);
      if w.Some? && Grows(w.value) && ValueAt(ln).Some? then |Rewrite(w, once)| > |once| else Rewrite(w, once) == once
  {
    hide ValueAt, Substituted, Grows;
    if w.Some? {
      SubstitutedTwice(w.value, ln);
    }
  }

  lemma RewrittenHead(w: Option<seq<Part>>, ls: seq<Line>)
    requires ls != []
    ensures Rewritten(w, ls) == [Rewrite(w, ls[0])] + Rewritten(w, ls[1..])
  {
    hide Rewrite;
  }

  lemma JoinHead(ln: Line, ls: seq<Line>)
    ensures Join([ln] + ls) == ln + Join(ls)
  {
    assert ([ln] + ls)[1..] == ls;
  }

  /** Writing over lines already written to leaves them alone, or makes them longer. */
  lemma {:induction false} WrittenAgain(w: Option<seq<Part>>, ls: seq<Line>)
    ensures var once := Rewritten(w, ls); var twice := Rewritten(w, once);
      if w.Some? && Grows(w.value) && HasValue(ls) then |Join(twice)| > |Join(once)| else twice == once
  {
    hide ValueAt, HasValue, Rewrite, Rewritten, Grows, Join;
    if ls == [] {
      NothingToWrite(w);
    } else {
      var once := Rewritten(w, ls[1..]);
      WrittenAgain(w, ls[1..]);
      RewriteAgain(w, ls[0]);
      ValueInTail(ls);
      RewrittenHead(w, ls);
      RewrittenHead(w, [Rewrite(w, ls[0])] + once);
      assert ([Rewrite(w, ls[0])] + once)[1..] == once;
      JoinHead(Rewrite(w, ls[0]), once);
      JoinHead(Rewrite(w, Rewrite(w, ls[0])), Rewritten(w, once));
    }
  }

  lemma NothingToWrite(w: Option<seq<Part>>)
    ensures Rewritten(w, []) == [] && !HasValue([])
  {
  }

  lemma ValueInTail(ls: seq<Line>)
    requires ls != []
    ensures HasValue(ls) <==> ValueAt(ls[0]).Some? || HasValue(ls[1..])
  {
    hide ValueAt;
    if x :| 0 <= x < |ls| && ValueAt(ls[x]).Some? {
      assert x > 0 ==> ls[1..][x - 1] == ls[x];
    }
    if x :| 0 <= x < |ls[1..]| && ValueAt(ls[1..][x]).Some? {
      assert ls[1..][x] == ls[x + 1];
    }
  }

  lemma {:induction false} GlueValues(ls: seq<Line>)
    ensures HasValue(Glue(ls)) <==> HasValue(ls)
    decreases |ls|
  {
    hide ValueAt, EndsInReturn, HasValue;
    if ls == [] {
      assert Glue(ls) == ls;
    } else {
      var g := Glue(ls);
      ValueInTail(ls);
      ValueInTail(g);
      if |ls| > 1 && EndsInReturn(ls[0]) && ls[1] == "\n" {
        assert g[0] == ls[0] + "\n" && g[1..] == Glue(ls[2..]) && ls[1..][1..] == ls[2..];
        ValueGlued(ls[0]);
        NewlineIsSkipped();
        ValueInTail(ls[1..]);
        GlueValues(ls[2..]);
      } else {
        assert g[0] == ls[0] && g[1..] == Glue(ls[1..]);
        GlueValues(ls[1..]);
      }
    }
  }

  /** Lines written to and read back from the text: writing again leaves the text alone, or makes it longer. */
  lemma GluedAgain(w: Option<seq<Part>>, ls: seq<Line>)
    requires AreLines(ls) && Fits(w, ls)
    ensures var g := Glue(Rewritten(w, ls));
      && Fits(w, g)
      && if w.Some? && Grows(w.value) && HasValue(ls) then |Join(Rewritten(w, g))| > |Join(g)|
         else Join(Rewritten(w, g)) == Join(g)
  {
    hide AreLines, Rewritten, Grows, HasValue, BreaksLines;
    var once := Rewritten(w, ls);
    RewrittenLines(w, ls);
    FitsAgain(w, ls);
    RewrittenGlue(w, once);
    JoinGlue(once);
    JoinGlue(Rewritten(w, once));
    WrittenAgain(w, ls);
    GlueValues(once);
  }

  // ---- the end of a block ----

  lemma {:induction false} BlockEndShift(a: seq<Line>, b: seq<Line>, i: nat, end: nat)
    requires end <= i <= |b|
    ensures BlockEnd(a + b, |a| + i, |a| + end) == |a| + BlockEnd(b, i, end)
    decreases |b| - i
  {
    hide ShapeOf;
    if i < |b| {
      assert (a + b)[|a| + i] == b[i];
      BlockEndShift(a, b, i + 1, if ShapeOf(b[i]) == Deep then i + 1 else end);
    }
  }

  /** What follows is left alone exactly when nothing of the block's depth comes before the next key. */
  lemma {:induction false} BlockEndsThere(ls: seq<Line>, i: nat, end: nat)
    requires end <= i <= |ls|
    ensures BlockEnd(ls, i, end) == end <==> NothingDeepNext(ls[i..])
    decreases |ls| - i
  {
    hide ShapeOf;
    if i < |ls| {
      assert ls[i..][1..] == ls[i + 1..];
      if ShapeOf(ls[i]) == Skipped {
        BlockEndsThere(ls, i + 1, end);
      }
    }
  }

  /** A block ends with its own lines exactly when they are all it reads over, and nothing of its depth follows. */
  lemma {:induction false} CutsOwn(own: seq<Line>, after: seq<Line>, i: nat, end: nat)
    requires end <= i <= |own|
    ensures BlockEnd(own + after, i, end) == |own| <==> BlockEnd(own, i, end) == |own| && NothingDeepNext(after)
    decreases |own| - i
  {
    hide ShapeOf, Shapes;
    if i == |own| {
      assert (own + after)[i..] == after;
      BlockEndsThere(own + after, i, end);
    } else {
      assert (own + after)[i] == own[i];
      CutsOwn(own, after, i + 1, if ShapeOf(own[i]) == Deep then i + 1 else end);
    }
  }

  // ---- the second edit ----

  /** The text of a first edit, as lines: those outside the entry, the entry's before the date, the block's,
      and the entry's after it. */
  datatype Once = Once(front: seq<Line>, before: seq<Line>, own: seq<Line>, after: seq<Line>, rest: seq<Line>)

  function TailOf(o: Once): seq<Line> { o.own + o.after + o.rest }

  function AllOf(p: Proof, o: Once): seq<Line> { o.front + (o.before + [DateLine(p)] + TailOf(o)) }

  ghost predicate NoneOf(ls: seq<Line>, sh: Shape) { forall x :: 0 <= x < |ls| ==> ShapeOf(ls[x]) != sh }

  ghost predicate IsOnce(isId: Line -> bool, p: Proof, o: Once) {
    && (forall x :: 0 <= x < |o.front| ==> !isId(Bare(o.front[x])))
    && o.before != [] && isId(Bare(o.before[0])) && ShapeOf(o.before[0]) == Entry
    && NoneOf(o.before[1..], Entry) && NoneOf(o.before, Validated)
    && o.own != [] && o.own[0] == HEADER && Join(o.own) == Join(NewBlock(p))
    && NoneOf(o.after, Entry) && (o.rest != [] ==> ShapeOf(o.rest[0]) == Entry)
    && Lines(Join(AllOf(p, o))) == AllOf(p, o)
    && StaysOrGrows(Written(p), o.before) && StaysOrGrows(Written(p), o.after)
  }

  /** Writing the version to the entry's lines again breaks none of them. */
  ghost predicate FitsAll(p: Proof, o: Once) { Fits(Written(p), o.before) && Fits(Written(p), o.after) }

  /** Writing it again leaves their text alone. */
  ghost predicate StaysWritten(p: Proof, o: Once) {
    && Join(Rewritten(Written(p), o.before)) == Join(o.before)
    && Join(Rewritten(Written(p), o.after)) == Join(o.after)
  }

  ghost predicate StaysOrGrows(w: Option<seq<Part>>, ls: seq<Line>) {
    Join(Rewritten(w, ls)) == Join(ls) || |Join(Rewritten(w, ls))| > |Join(ls)|
  }

  /** Where the second edit takes the entry to end: at a line of the block that starts another entry, or at the rest. */
  function EntryEnd(o: Once): nat { FirstOf(TailOf(o), Entry, 0) }

  function Mine(o: Once): seq<Line> { TailOf(o)[..EntryEnd(o)] }

  /** Where the block ends that starts a list of lines. */
  function CutOf(ls: seq<Line>): (c: nat)
    ensures c <= |ls|
  {
    if ls == [] then 0 else BlockEnd(ls, 1, 1)
  }

  lemma {:induction false} FirstIdIs(isId: Line -> bool, lines: seq<Line>, i: nat, k: nat)
    requires i <= k <= |lines| && (k < |lines| ==> isId(Bare(lines[k])))
    requires forall x :: i <= x < k ==> !isId(Bare(lines[x]))
    ensures FirstId(isId, lines, i) == k
    decreases k - i
  {
    hide Bare;
    if i < k {
      FirstIdIs(isId, lines, i + 1, k);
    }
  }

  lemma DateShape(p: Proof)
    ensures ShapeOf(DateLine(p)) == Validated
  {
    KeyShape(DateLine(p), VALIDATED, Validated);
  }

  lemma HeaderShape()
    ensures ShapeOf(HEADER) == BlockKey
  {
    KeyShape(HEADER, BLOCK, BlockKey);
  }

  /** A line at the entry's own depth, two spaces in. */
  lemma KeyShape(ln: Line, key: string, shape: Shape)
    requires |ln| >= |key| && ln[..|key|] == key
    requires (key == BLOCK && shape == BlockKey) || (key == VALIDATED && shape == Validated)
    ensures ShapeOf(ln) == shape
  {
    assert ln[0] == key[0] == ' ' && ln[1] == key[1] == ' ' && ln[2] == key[2];
    SkipSpaceIs(ln, 0, 2);
    StartsAt(ln, DEPTH, 2);
    StartsAt(ln, ENTRY, 0);
    StartsAt(ln, BLOCK, 2);
  }

  lemma FindsAgain(isId: Line -> bool, p: Proof, o: Once)
    requires IsOnce(isId, p, o)
    ensures var all, m := AllOf(p, o), EntryEnd(o);
      && FirstId(isId, all, 0) == |o.front| < |all|
      && FirstOf(all, Entry, |o.front| + 1) == |o.front| + |o.before| + 1 + m
      && all[..|o.front|] == o.front
      && all[|o.front|..|o.front| + |o.before| + 1 + m] == o.before + [DateLine(p)] + Mine(o)
      && all[|o.front| + |o.before| + 1 + m..] == TailOf(o)[m..]
  {
    hide ShapeOf, Bare, DateLine, FirstOf, FirstId, TailOf, Lines, Join, Fits;
    DateShape(p);
    var all, m, mine := AllOf(p, o), EntryEnd(o), o.before + [DateLine(p)];
    var f := |o.front|;
    assert forall x :: 0 <= x < f ==> all[x] == o.front[x];
    assert all[f] == o.before[0];
    FirstIdIs(isId, all, 0, f);
    var k := f + |mine| + m;
    forall x | f + 1 <= x < k ensures ShapeOf(all[x]) != Entry {
      if x < f + |o.before| {
        assert all[x] == o.before[x - f] == o.before[1..][x - f - 1];
      } else if x > f + |o.before| {
        assert all[x] == TailOf(o)[x - f - |mine|];
      }
    }
    assert k < |all| ==> all[k] == TailOf(o)[m];
    FirstIs(all, Entry, f + 1, k);
    assert all == o.front + (mine + TailOf(o)) && all[f..k] == (mine + TailOf(o))[..|mine| + m]
      && all[k..] == (mine + TailOf(o))[|mine| + m..];
  }

  lemma CutSlices(before: seq<Line>, date: Line, tail: seq<Line>, v: nat, e: nat)
    requires v <= e <= |before|
    ensures var body := before + [date] + tail; body[..v] + body[e..] == before[..v] + before[e..] + [date] + tail
  {
    var body := before + [date] + tail;
    assert body[..v] == before[..v] && body[e..] == before[e..] + [date] + tail;
  }

  /** Without the block found before the date. */
  lemma CutsBefore(p: Proof, before: seq<Line>, tail: seq<Line>) returns (b: seq<Line>)
    requires before != [] && ShapeOf(before[0]) == Entry && !NoneOf(before, BlockKey)
    ensures WithoutBlock(before + [DateLine(p)] + tail) == b + [DateLine(p)] + tail
    ensures b != [] && b[0] == before[0] && |b| < |before| && forall x :: 0 <= x < |b| ==> b[x] in before
  {
    hide ShapeOf, DateLine, BlockEnd, FirstOf;
    DateShape(p);
    var body, v := before + [DateLine(p)] + tail, FirstOf(before, BlockKey, 0);
    assert v < |before| by {
      assert v == |before| ==> NoneOf(before, BlockKey);
    }
    assert forall x :: 0 <= x < |before| ==> body[x] == before[x];
    FirstIs(body, BlockKey, 0, v);
    var e := BlockEnd(body, v + 1, v + 1);
    assert body[|before|] == DateLine(p);
    if e > |before| {
      BlockIsDeep(body, v + 1, v + 1, |before|);
    }
    b := before[..v] + before[e..];
    CutSlices(before, DateLine(p), tail, v, e);
  }

  /** Without the first edit's own block, and whatever of its depth follows it. */
  lemma CutsTail(p: Proof, before: seq<Line>, tail: seq<Line>)
    requires NoneOf(before, BlockKey) && tail != [] && tail[0] == HEADER
    ensures WithoutBlock(before + [DateLine(p)] + tail) == before + [DateLine(p)] + tail[CutOf(tail)..]
  {
    hide ShapeOf, DateLine, BlockEnd, FirstOf, HEADER;
    DateShape(p);
    HeaderShape();
    var mine, c := before + [DateLine(p)], CutOf(tail);
    var body := mine + tail;
    assert forall x :: 0 <= x < |mine| ==> body[x] == if x < |before| then before[x] else DateLine(p);
    assert body[|mine|] == HEADER;
    FirstIs(body, BlockKey, 0, |mine|);
    BlockEndShift(mine, tail, 1, 1);
    assert body[|mine| + c..] == tail[c..] && body[..|mine|] == mine;
  }

  /** The edit of what is left of the entry writes the date and the block once more. */
  lemma WritesAgain(p: Proof, body: seq<Line>, b: seq<Line>, t: seq<Line>)
    requires WithoutBlock(body) == b + [DateLine(p)] + t && NoneOf(b, Validated)
    ensures EditBody(p, body) == Some(Rewritten(Written(p), b) + [DateLine(p)] + NewBlock(p) + Rewritten(Written(p), t))
  {
    hide ShapeOf, DateLine, NewBlock, WithoutBlock, Rewrite;
    DateShape(p);
    var w, was := Written(p), b + [DateLine(p)] + t;
    var kept := Rewritten(w, was);
    RewriteKeepsShape(w, DateLine(p));
    forall x | 0 <= x < |b| ensures ShapeOf(kept[x]) != Validated {
      RewriteKeepsShape(w, was[x]);
      assert was[x] == b[x];
    }
    assert was[|b|] == DateLine(p);
    assert kept[|b|] == DateLine(p);
    FirstIs(kept, Validated, 0, |b|);
    assert kept[..|b|] == Rewritten(w, b) && kept[|b| + 1..] == Rewritten(w, t);
  }

  /** The second edit of a file: what it keeps before the date, what after, and what is past the entry for it. */
  lemma SecondEdit(isId: Line -> bool, p: Proof, o: Once) returns (b: seq<Line>, t: seq<Line>)
    requires IsOnce(isId, p, o) && (p.endpoint != "" ==> Parts(p.endpoint).Some?)
    ensures Edit(isId, p, AllOf(p, o))
      == Success(o.front + (Rewritten(Written(p), b) + [DateLine(p)] + NewBlock(p) + Rewritten(Written(p), t))
        + TailOf(o)[EntryEnd(o)..])
    ensures b != [] && b[0] == o.before[0] && forall x :: 0 <= x < |b| ==> b[x] in o.before
    ensures !NoneOf(o.before, BlockKey) ==> |b| < |o.before|
    ensures NoneOf(o.before, BlockKey) ==> b == o.before && t == Mine(o)[CutOf(Mine(o))..]
  {
    hide ShapeOf, Bare, DateLine, NewBlock, FirstOf, FirstId, Lines, Join, Fits, WithoutBlock, BlockEnd, Rewritten,
      Parts;
    FindsAgain(isId, p, o);
    var mine := Mine(o);
    if NoneOf(o.before, BlockKey) {
      TailStarts(isId, p, o);
      CutsTail(p, o.before, mine);
      b, t := o.before, mine[CutOf(mine)..];
    } else {
      b := CutsBefore(p, o.before, mine);
      t := mine;
      assert forall x :: 0 <= x < |b| ==> b[x] in o.before;
    }
    assert NoneOf(b, Validated);
    WritesAgain(p, o.before + [DateLine(p)] + mine, b, t);
  }

  lemma TailStarts(isId: Line -> bool, p: Proof, o: Once)
    requires IsOnce(isId, p, o)
    ensures 0 < EntryEnd(o) <= |TailOf(o)| && Mine(o) != [] && Mine(o)[0] == HEADER
  {
    hide ShapeOf, Bare, Lines, Join, Fits;
    HeaderShape();
    assert TailOf(o)[0] == HEADER;
  }

  // ---- the two texts ----

  /** What the second edit writes. */
  function Again(p: Proof, o: Once, b: seq<Line>, t: seq<Line>): seq<Line> {
    o.front + (Rewritten(Written(p), b) + [DateLine(p)] + NewBlock(p) + Rewritten(Written(p), t))
      + TailOf(o)[EntryEnd(o)..]
  }

  lemma JoinAll(p: Proof, o: Once)
    ensures Join(AllOf(p, o))
      == Join(o.front) + ((Join(o.before) + DateLine(p)) + ((Join(o.own) + Join(o.after)) + Join(o.rest)))
  {
    hide DateLine, Join;
    JoinConcat(o.front, o.before + [DateLine(p)] + TailOf(o));
    JoinConcat(o.before + [DateLine(p)], TailOf(o));
    JoinConcat(o.before, [DateLine(p)]);
    JoinConcat(o.own + o.after, o.rest);
    JoinConcat(o.own, o.after);
    JoinOne(DateLine(p));
  }

  lemma JoinOne(ln: Line)
    ensures Join([ln]) == ln
  {
    JoinHead(ln, []);
    assert [ln] + [] == [ln];
  }

  lemma JoinAgain(p: Proof, o: Once, b: seq<Line>, t: seq<Line>)
    ensures var w := Written(p);
      Join(Again(p, o, b, t))
      == (Join(o.front) + (((Join(Rewritten(w, b)) + DateLine(p)) + Join(NewBlock(p))) + Join(Rewritten(w, t))))
        + Join(TailOf(o)[EntryEnd(o)..])
  {
    hide DateLine, NewBlock, Rewritten, Join, TailOf, EntryEnd;
    AboutEnd(o);
    JoinAbout(o.front, Rewritten(Written(p), b), DateLine(p), NewBlock(p), Rewritten(Written(p), t),
      TailOf(o)[EntryEnd(o)..]);
  }

  lemma AboutEnd(o: Once)
    ensures EntryEnd(o) <= |TailOf(o)|
  {
  }

  lemma JoinAbout(f: seq<Line>, b: seq<Line>, d: Line, n: seq<Line>, t: seq<Line>, r: seq<Line>)
    ensures Join(f + (b + [d] + n + t) + r) == (Join(f) + (((Join(b) + d) + Join(n)) + Join(t))) + Join(r)
  {
    hide Join;
    JoinConcat(f + (b + [d] + n + t), r);
    JoinConcat(f, b + [d] + n + t);
    JoinConcat(b + [d] + n, t);
    JoinConcat(b + [d], n);
    JoinConcat(b, [d]);
    JoinOne(d);
  }

  /** Where the entry ends for the second edit: at the rest, unless a line of the block starts another entry. */
  lemma EntryEndIs(isId: Line -> bool, p: Proof, o: Once)
    requires IsOnce(isId, p, o) && EntryEnd(o) >= |o.own|
    ensures EntryEnd(o) == |o.own| + |o.after| && TailOf(o)[EntryEnd(o)..] == o.rest && Mine(o) == o.own + o.after
  {
    hide ShapeOf, Bare, Lines, Join, Fits, StaysOrGrows;
    var m, k := EntryEnd(o), |o.own| + |o.after|;
    assert forall x :: 0 <= x < |o.after| ==> TailOf(o)[|o.own| + x] == o.after[x];
    if o.rest != [] {
      assert TailOf(o)[k] == o.rest[0];
    }
  }

  lemma LinesOfAll(isId: Line -> bool, p: Proof, o: Once)
    requires IsOnce(isId, p, o)
    ensures AreLines(AllOf(p, o)) && Settled(AllOf(p, o))
  {
    hide Lines, AreLines, Settled, AllOf;
    LinesAre(Join(AllOf(p, o)));
  }

  lemma LinesAreThere(ls: seq<Line>)
    requires AreLines(ls) && ls != []
    ensures |Join(ls)| > 0
  {
    LineIsThere(ls[0]);
  }

  /** A block that another entry's line cuts off: its rest follows the entry, and makes the text longer. */
  lemma LeftPast(o: Once)
    requires AreLines(o.own) && EntryEnd(o) < |o.own|
    ensures |Join(TailOf(o)[EntryEnd(o)..])| > |Join(o.after)| + |Join(o.rest)|
  {
    hide Join, AreLines, FirstOf;
    var m := EntryEnd(o);
    assert TailOf(o)[m..] == o.own[m..] + o.after + o.rest;
    JoinConcat(o.own[m..] + o.after, o.rest);
    JoinConcat(o.own[m..], o.after);
    AreLinesTail(o.own, m);
    LinesAreThere(o.own[m..]);
  }

  /** A block taken in part: what is left of it stays in the entry, and makes the text longer. */
  lemma LeftInside(w: Option<seq<Part>>, own: seq<Line>, after: seq<Line>, c: nat)
    requires AreLines(own) && c < |own| && StaysOrGrows(w, after)
    ensures |Join(Rewritten(w, (own + after)[c..]))| > |Join(after)|
  {
    hide Join, AreLines, Rewritten;
    assert (own + after)[c..] == own[c..] + after;
    RewrittenConcat(w, own[c..], after);
    JoinConcat(Rewritten(w, own[c..]), Rewritten(w, after));
    AreLinesTail(own, c);
    RewrittenIsThere(w, own[c..]);
  }

  /** A block cut short: what is left of it makes the text longer. */
  lemma LeftOver(isId: Line -> bool, p: Proof, o: Once, t: seq<Line>)
    requires IsOnce(isId, p, o) && CutOf(Mine(o)) < |o.own| && t == Mine(o)[CutOf(Mine(o))..]
    ensures EntryEnd(o) <= |TailOf(o)|
    ensures |Join(Rewritten(Written(p), t))| + |Join(TailOf(o)[EntryEnd(o)..])| > |Join(o.after)| + |Join(o.rest)|
  {
    hide Bare, Lines, Join, Fits, AreLines, AllOf, Rewritten, CutOf, NoneOf, Mine, EntryEnd, TailOf, StaysOrGrows;
    AboutEnd(o);
    OwnLines(isId, p, o);
    if EntryEnd(o) < |o.own| {
      LeftPast(o);
    } else {
      EntryEndIs(isId, p, o);
      LeftInside(Written(p), o.own, o.after, CutOf(Mine(o)));
    }
  }

  lemma OwnLines(isId: Line -> bool, p: Proof, o: Once)
    requires IsOnce(isId, p, o)
    ensures AreLines(o.own)
  {
    hide AreLines, Lines, IsOnce;
    LinesOfAll(isId, p, o);
    OwnPart(p, o);
    var i := |o.front| + |o.before| + 1;
    AreLinesPart(AllOf(p, o), i, i + |o.own|);
  }

  lemma OwnPart(p: Proof, o: Once)
    ensures var i := |o.front| + |o.before| + 1; i + |o.own| <= |AllOf(p, o)| && AllOf(p, o)[i..i + |o.own|] == o.own
  {
    hide DateLine;
  }

  lemma AreLinesPart(ls: seq<Line>, i: nat, j: nat)
    requires AreLines(ls) && i <= j <= |ls|
    ensures AreLines(ls[i..j])
    ensures j < |ls| ==> forall x | i <= x < j :: Ends(ls[x])
  {
    hide IsLine, Ends;
  }

  lemma AreLinesTail(ls: seq<Line>, i: nat)
    requires AreLines(ls) && i <= |ls|
    ensures AreLines(ls[i..])
  {
    hide IsLine, Ends;
  }

  lemma RewrittenConcat(w: Option<seq<Part>>, a: seq<Line>, b: seq<Line>)
    ensures Rewritten(w, a + b) == Rewritten(w, a) + Rewritten(w, b)
  {
    hide Rewrite;
  }

  lemma RewrittenIsThere(w: Option<seq<Part>>, ls: seq<Line>)
    requires AreLines(ls) && ls != []
    ensures |Join(Rewritten(w, ls))| > 0
  {
    hide Substituted;
    LineIsThere(ls[0]);
    RewrittenHead(w, ls);
    JoinHead(Rewrite(w, ls[0]), Rewritten(w, ls[1..]));
    if w.Some? {
      SubstitutedIsThere(w.value, ls[0]);
    }
  }

  lemma SubstitutedIsThere(parts: seq<Part>, ln: Line)
    requires ln != ""
    ensures Substituted(parts, ln) != ""
  {
  }

  /** The block taken whole and no more: the texts are the same unless a written line grows. */
  lemma CutWhole(isId: Line -> bool, p: Proof, o: Once)
    requires IsOnce(isId, p, o) && CutOf(Mine(o)) == |o.own|
    ensures Join(Again(p, o, o.before, Mine(o)[CutOf(Mine(o))..])) == Join(AllOf(p, o)) <==> StaysWritten(p, o)
  {
    hide ShapeOf, Bare, Lines, Join, Fits, AreLines, AllOf, Again, Rewritten, BlockEnd, NoneOf, DateLine, NewBlock;
    EntryEndIs(isId, p, o);
    assert Mine(o)[|o.own|..] == o.after;
    JoinAll(p, o);
    JoinAgain(p, o, o.before, o.after);
    Reassociate(Join(o.front), Join(o.before), DateLine(p), Join(o.own), Join(o.after), Join(o.rest));
  }

  lemma Reassociate(f: string, b: string, d: string, n: string, a: string, r: string)
    ensures (f + (((b + d) + n) + a)) + r == f + ((b + d) + ((n + a) + r))
  {
  }

  /** The block cut short: the text grows. */
  lemma CutShort(isId: Line -> bool, p: Proof, o: Once)
    requires IsOnce(isId, p, o) && CutOf(Mine(o)) < |o.own|
    ensures Join(Again(p, o, o.before, Mine(o)[CutOf(Mine(o))..])) != Join(AllOf(p, o))
  {
    hide ShapeOf, Bare, Lines, Join, Fits, AreLines, AllOf, Again, Rewritten, CutOf, NoneOf, DateLine, NewBlock,
      Mine, EntryEnd, TailOf;
    AboutEnd(o);
    var t := Mine(o)[CutOf(Mine(o))..];
    JoinAll(p, o);
    JoinAgain(p, o, o.before, t);
    LeftOver(isId, p, o, t);
  }

  /** Rewritten lines, one by one, are lines. */
  lemma RewrittenOneByOne(w: Option<seq<Part>>, was: seq<Line>, now: seq<Line>)
    requires AreLines(was) && |now| == |was|
    requires forall x :: 0 <= x < |was| ==>
      now[x] == was[x] || (now[x] == Rewrite(w, was[x]) && (w.Some? && BreaksLines(w.value) ==> ValueAt(was[x]).None?))
    ensures AreLines(now)
  {
    hide IsLine, Ends, EndsInReturn, ValueAt, BreaksLines, Rewrite;
    forall x | 0 <= x < |was| ensures IsLine(now[x]) && (Ends(now[x]) <==> Ends(was[x])) {
      if now[x] != was[x] {
        RewriteLine(w, was[x]);
      }
    }
  }

  lemma AreLinesCut(ls: seq<Line>, i: nat, j: nat)
    requires AreLines(ls) && i <= j <= |ls|
    ensures AreLines(ls[..i] + ls[j..])
  {
    hide IsLine, Ends;
    var r := ls[..i] + ls[j..];
    forall x | 0 <= x < |r| ensures IsLine(r[x]) && (x < |r| - 1 ==> Ends(r[x])) {
      assert r[x] == if x < i then ls[x] else ls[x - i + j];
    }
  }

  /** More than the block taken: the text has fewer lines. */
  lemma CutLong(isId: Line -> bool, p: Proof, o: Once)
    requires IsOnce(isId, p, o) && FitsAll(p, o) && CutOf(Mine(o)) > |o.own|
    ensures Join(Again(p, o, o.before, Mine(o)[CutOf(Mine(o))..])) != Join(AllOf(p, o))
  {
    hide ShapeOf, Bare, Lines, Join, Fits, AreLines, Rewritten, BlockEnd, NoneOf, DateLine, NewBlock, StaysOrGrows;
    var w, g := Written(p), CutOf(Mine(o)) - |o.own|;
    EntryEndIs(isId, p, o);
    var t := o.after[g..];
    assert Mine(o)[CutOf(Mine(o))..] == t;
    LinesOfAll(isId, p, o);
    var i := |o.front| + |o.before| + 1 + |o.own|;
    AreLinesCut(AllOf(p, o), i, i + g);
    var was := o.front + (o.before + [DateLine(p)] + o.own + t) + o.rest;
    assert was == AllOf(p, o)[..i] + AllOf(p, o)[i + g..];
    var now := o.front + (Rewritten(w, o.before) + [DateLine(p)] + o.own + Rewritten(w, t)) + o.rest;
    RewrittenAbout(w, o.front, o.before, DateLine(p), o.own, o.after, g, o.rest);
    LinesOfJoin(now);
    JoinAbout(o.front, Rewritten(w, o.before), DateLine(p), o.own, Rewritten(w, t), o.rest);
    JoinAgain(p, o, o.before, t);
    assert |Rewritten(w, o.before)| == |o.before| && |Rewritten(w, t)| == |t|;
    assert |now| < |AllOf(p, o)|;
  }

  lemma RewrittenAbout(w: Option<seq<Part>>, f: seq<Line>, b: seq<Line>, d: Line, n: seq<Line>, a: seq<Line>, g: nat,
                       r: seq<Line>)
    requires g <= |a| && Fits(w, b) && Fits(w, a) && AreLines(f + (b + [d] + n + a[g..]) + r)
    ensures AreLines(f + (Rewritten(w, b) + [d] + n + Rewritten(w, a[g..])) + r)
  {
    hide IsLine, Ends, ValueAt, BreaksLines, Rewrite, AreLines;
    var t := a[g..];
    var was, now := f + (b + [d] + n + t) + r, f + (Rewritten(w, b) + [d] + n + Rewritten(w, t)) + r;
    var i, j := |f|, |f| + |b| + 1 + |n|;
    forall x | 0 <= x < |was|
      ensures now[x] == was[x]
        || (now[x] == Rewrite(w, was[x]) && (w.Some? && BreaksLines(w.value) ==> ValueAt(was[x]).None?))
    {
      if i <= x < i + |b| {
        assert now[x] == Rewrite(w, b[x - i]) && was[x] == b[x - i];
      } else if j <= x < j + |t| {
        assert now[x] == Rewrite(w, t[x - j]) && was[x] == t[x - j] == a[g + x - j];
      }
    }
    RewrittenOneByOne(w, was, now);
  }

  // ---- the lines a proof writes ----

  lemma HeaderIsLine()
    ensures IsLine(HEADER) && Ends(HEADER) && !EndsInReturn(HEADER)
  {
    HeaderIsWhole();
    hide BLOCK, MARGIN, WRITER, REASON;
    assert !HasBreak(BLOCK + MARGIN + WRITER + REASON);
    TextIsLine(BLOCK + MARGIN + WRITER + REASON);
  }

  lemma HeaderIsWhole()
    ensures !HasBreak(BLOCK) && !HasBreak(MARGIN) && !HasBreak(WRITER) && !HasBreak(REASON)
  {
    WriterIsWhole();
    ReasonIsWhole();
  }

  lemma WriterIsWhole()
    ensures !HasBreak(WRITER)
  {
  }

  lemma ReasonIsWhole()
    ensures !HasBreak(REASON)
  {
  }

  /** A text without breaks and a newline is a line. */
  lemma TextIsLine(text: string)
    requires !HasBreak(text)
    ensures IsLine(text + "\n") && Ends(text + "\n") && !EndsInReturn(text + "\n")
  {
    var ln := text + "\n";
    assert forall x :: 0 <= x < |text| ==> ln[x] == text[x];
    FirstBreakIs(ln, 0, |text|);
  }

  lemma DateIsLine(p: Proof)
    ensures IsLine(DateLine(p)) && Ends(DateLine(p)) && !EndsInReturn(DateLine(p))
  {
    assert !HasBreak(VALIDATED) && !HasBreak(" ");
    assert !HasBreak(p.on) by {
      assert forall c | IsDateChar(c) :: !IsBreak(c);
    }
    TextIsLine(VALIDATED + " " + p.on);
    assert VALIDATED + " " + p.on + "\n" == DateLine(p);
  }

  /** The block as lines: its key first, and a newline at the end. */
  lemma OwnIs(p: Proof)
    ensures var own := Lines(Join(NewBlock(p)));
      && own != [] && own[0] == HEADER && AreLines(own) && Settled(own) && Join(own) == Join(NewBlock(p))
      && Ends(own[|own| - 1]) && !EndsInReturn(own[|own| - 1])
  {
    hide IsLine, Lines, Settled, NewBlock, HEADER;
    var block := NewBlock(p);
    BlockEndsInNewline(p);
    HeaderIsLine();
    LinesAre(Join(block));
    LinesOver(HEADER, Join(block[1..]));
    var own := Lines(Join(block));
    LineIsThere(own[|own| - 1]);
    JoinEnds(block);
    JoinEnds(own);
  }

  /** A text ends as its last line does. */
  lemma {:induction false} JoinEnds(ls: seq<Line>)
    requires ls != [] && ls[|ls| - 1] != ""
    ensures Join(ls) != "" && Join(ls)[|Join(ls)| - 1] == ls[|ls| - 1][|ls[|ls| - 1]| - 1]
  {
    if |ls| > 1 {
      JoinEnds(ls[1..]);
    }
  }

  lemma BlockEndsInNewline(p: Proof)
    ensures NewBlock(p) != [] && NewBlock(p)[0] == HEADER
    ensures forall x :: 0 <= x < |NewBlock(p)| ==> NewBlock(p)[x] != "" && NewBlock(p)[x][|NewBlock(p)[x]| - 1] == '\n'
  {
  }

  lemma AgainSplits(p: Proof, o: Once, b: seq<Line>, t: seq<Line>) returns (more: string)
    ensures Join(Again(p, o, b, t)) == Join(o.front + (Rewritten(Written(p), b) + [DateLine(p)])) + more
  {
    hide *;
    hide DateLine, NewBlock, Join, Rewritten;
    AboutEnd(o);
    var w := Written(p);
    var head, rest := o.front + (Rewritten(w, b) + [DateLine(p)]),
      NewBlock(p) + Rewritten(w, t) + TailOf(o)[EntryEnd(o)..];
    JoinConcat(head, rest);
    AgainIs(p, o, b, t);
    more := Join(rest);
  }

  lemma AgainIs(p: Proof, o: Once, b: seq<Line>, t: seq<Line>)
    requires EntryEnd(o) <= |TailOf(o)|
    ensures var w := Written(p);
      Again(p, o, b, t)
        == o.front + (Rewritten(w, b) + [DateLine(p)]) + (NewBlock(p) + Rewritten(w, t) + TailOf(o)[EntryEnd(o)..])
  {
    hide DateLine, NewBlock, Rewritten, TailOf, EntryEnd, Written;
  }

  /** A block left over before the date: the second edit takes that one, and the date moves up. */
  lemma CutAnother(isId: Line -> bool, p: Proof, o: Once, b: seq<Line>, t: seq<Line>)
    requires IsOnce(isId, p, o) && FitsAll(p, o)
    requires b != [] && b[0] == o.before[0] && |b| < |o.before| && forall x :: 0 <= x < |b| ==> b[x] in o.before
    ensures Join(Again(p, o, b, t)) != Join(AllOf(p, o))
  {
    hide ShapeOf, Bare, Lines, Join, AreLines, Rewritten, DateLine, StaysOrGrows, Fits, Again, TailOf;
    var r := Rewritten(Written(p), b);
    var more := AgainSplits(p, o, b, t);
    HeadLines(isId, p, o, b);
    DateIsLine(p);
    LinesThrough(o.front + (r + [DateLine(p)]), more);
    GlueHead(isId, p, o, b);
    RewrittenLength(Written(p), b);
    DateElsewhere(p, o, Glue(r), Lines(more));
  }

  lemma RewrittenLength(w: Option<seq<Part>>, ls: seq<Line>)
    ensures |Rewritten(w, ls)| == |ls|
  {
  }

  lemma DateElsewhere(p: Proof, o: Once, b: seq<Line>, more: seq<Line>)
    requires |b| < |o.before| && NoneOf(o.before, Validated)
    ensures o.front + (b + [DateLine(p)]) + more != AllOf(p, o)
  {
    hide ShapeOf, DateLine, TailOf;
    DateShape(p);
    var other := o.front + (b + [DateLine(p)]) + more;
    assert other[|o.front| + |b|] == DateLine(p);
    assert AllOf(p, o)[|o.front| + |b|] == o.before[|b|];
  }

  lemma HeadLines(isId: Line -> bool, p: Proof, o: Once, b: seq<Line>)
    requires IsOnce(isId, p, o) && FitsAll(p, o) && b != [] && forall x :: 0 <= x < |b| ==> b[x] in o.before
    ensures var head := o.front + (Rewritten(Written(p), b) + [DateLine(p)]); AreLines(head) && Ends(head[|head| - 1])
  {
    hide ShapeOf, Bare, Lines, Join, IsLine, Ends, NewBlock, DateLine, StaysOrGrows, ValueAt, BreaksLines, Settled,
      Rewrite;
    var w, all := Written(p), AllOf(p, o);
    LinesOfAll(isId, p, o);
    var was, now := o.front + (b + [DateLine(p)]), o.front + (Rewritten(w, b) + [DateLine(p)]);
    DateIsLine(p);
    assert forall x :: 0 <= x < |o.front| ==> o.front[x] == all[x];
    assert forall x :: 0 <= x < |o.before| ==> o.before[x] == all[|o.front| + x];
    forall x | 0 <= x < |b| ensures IsLine(b[x]) && Ends(b[x])
      && (w.Some? && BreaksLines(w.value) ==> ValueAt(b[x]).None?) {
      var y :| 0 <= y < |o.before| && o.before[y] == b[x];
    }
    forall x | 0 <= x < |was| ensures IsLine(was[x]) && Ends(was[x]) {
      if |o.front| <= x < |o.front| + |b| {
        assert was[x] == b[x - |o.front|];
      }
    }
    forall x | 0 <= x < |was|
      ensures now[x] == was[x]
        || (now[x] == Rewrite(w, was[x]) && (w.Some? && BreaksLines(w.value) ==> ValueAt(was[x]).None?))
    {
      if |o.front| <= x < |o.front| + |b| {
        assert was[x] == b[x - |o.front|] && now[x] == Rewrite(w, b[x - |o.front|]);
      }
    }
    RewrittenOneByOne(w, was, now);
  }

  lemma GlueHead(isId: Line -> bool, p: Proof, o: Once, b: seq<Line>)
    requires IsOnce(isId, p, o) && b != [] && b[0] == o.before[0]
    ensures Glue(o.front + (Rewritten(Written(p), b) + [DateLine(p)]))
      == o.front + (Glue(Rewritten(Written(p), b)) + [DateLine(p)])
  {
    hide ShapeOf, Bare, Lines, Join, AreLines, Rewrite, NewBlock, DateLine, StaysOrGrows, Fits;
    var r := Rewritten(Written(p), b);
    LinesOfAll(isId, p, o);
    assert forall x :: 0 <= x < |o.front| ==> o.front[x] == AllOf(p, o)[x];
    GlueSettled(o.front);
    RewriteKeepsShape(Written(p), b[0]);
    NewlineIsSkipped();
    DateShape(p);
    GlueConcat(o.front, r + [DateLine(p)]);
    GlueConcat(r, [DateLine(p)]);
    assert Glue([DateLine(p)]) == [DateLine(p)];
  }
}
