/** Recording the same proof twice: the text of the first edit as the second one reads it, exactly when the two
    texts are the same, and an entry for each way they are not. */
module SeedTwice {
  import opened Common
  import opened TextLines
  import opened Template
  import opened SeedLines
  import opened SeedEdit
  import opened SeedAgain

  // ---- the first edit ----

  /** A file's lines: before the entry, the entry's without its old block, the place of the date in them, and
      past the entry. */
  datatype File = File(front: seq<Line>, kept: seq<Line>, date: nat, rest: seq<Line>)

  function Split(isId: Line -> bool, lines: seq<Line>): File {
    var start := FirstId(isId, lines, 0);
    if start == |lines| then File(lines, [], 0, [])
    else
      var end := FirstOf(lines, Entry, start + 1);
      var kept := WithoutBlock(lines[start..end]);
      File(lines[..start], kept, FirstOf(kept, Validated, 0), lines[end..])
  }

  lemma FirstRewritten(w: Option<seq<Part>>, ls: seq<Line>, shape: Shape)
    ensures FirstOf(Rewritten(w, ls), shape, 0) == FirstOf(ls, shape, 0)
  {
    hide ShapeOf, Rewrite;
    forall x | 0 <= x < |ls| ensures ShapeOf(Rewritten(w, ls)[x]) == ShapeOf(ls[x]) {
      RewriteKeepsShape(w, ls[x]);
    }
    FirstIs(Rewritten(w, ls), shape, 0, FirstOf(ls, shape, 0));
  }

  /** What the first edit writes. */
  lemma EditIs(isId: Line -> bool, p: Proof, lines: seq<Line>)
    requires Edit(isId, p, lines).Success?
    ensures var f := Split(isId, lines);
      && f.date < |f.kept|
      && Edit(isId, p, lines).value == f.front
        + (Rewritten(Written(p), f.kept[..f.date]) + [DateLine(p)] + NewBlock(p)
          + Rewritten(Written(p), f.kept[f.date + 1..])) + f.rest
  {
    hide ShapeOf, Rewrite, FirstOf, FirstId, WithoutBlock, DateLine, NewBlock, Parts;
    var f := Split(isId, lines);
    FirstRewritten(Written(p), f.kept, Validated);
    var kept := Rewritten(Written(p), f.kept);
    assert kept[..f.date] == Rewritten(Written(p), f.kept[..f.date]);
    assert kept[f.date + 1..] == Rewritten(Written(p), f.kept[f.date + 1..]);
  }

  /** An id line starts an entry. */
  lemma {:induction false} BareIsHead(ln: Line)
    ensures |Bare(ln)| <= |ln| && Bare(ln) == ln[..|Bare(ln)|]
  {
    if ln != "" && ln[|ln| - 1] in {'\r', '\n'} {
      BareIsHead(ln[..|ln| - 1]);
    }
  }

  lemma EntryShape(ln: Line)
    requires Starts(Bare(ln), ENTRY)
    ensures ShapeOf(ln) == Entry
  {
    BareIsHead(ln);
    assert Bare(ln)[..2] == ENTRY && ln[0] == '-' && ln[1] == ' ';
    assert ln[..2] == ENTRY;
    SkipSpaceIs(ln, 0, 0);
    StartsAt(ln, DEPTH, 0);
  }

  /** What a file's lines are like around its entry. */
  ghost predicate Around(isId: Line -> bool, f: File) {
    && (forall x :: 0 <= x < |f.front| ==> !isId(Bare(f.front[x])))
    && 0 < f.date < |f.kept| && isId(Bare(f.kept[0])) && ShapeOf(f.kept[0]) == Entry && NoneOf(f.kept[1..], Entry)
    && NoneOf(f.kept[..f.date], Validated) && ShapeOf(f.kept[f.date]) == Validated
    && (f.rest != [] ==> ShapeOf(f.rest[0]) == Entry)
    && AreLines(f.front + f.kept + f.rest) && Settled(f.front) && Settled(f.rest)
  }

  lemma KeptHead(isId: Line -> bool, body: seq<Line>)
    requires body != [] && ShapeOf(body[0]) == Entry && NoneOf(body[1..], Entry)
    ensures var kept := WithoutBlock(body); kept != [] && kept[0] == body[0] && NoneOf(kept[1..], Entry)
  {
    hide ShapeOf, BlockEnd, FirstOf, WithoutBlock;
    assert !OfBlock(body, 0);
    assert KeptAt(body, 0) == 0;
    var kept := WithoutBlock(body);
    forall x | 0 <= x < |kept[1..]| ensures ShapeOf(kept[1..][x]) != Entry {
      var i := KeptIsOnto(body, x + 1);
      assert kept[1..][x] == body[i] == body[1..][i - 1];
    }
  }

  lemma KeptLines(front: seq<Line>, body: seq<Line>, rest: seq<Line>)
    requires AreLines(front + body + rest)
    ensures AreLines(front + WithoutBlock(body) + rest)
  {
    hide ShapeOf, FirstOf, AreLines, BlockEnd;
    var v := FirstOf(body, BlockKey, 0);
    if v < |body| {
      var e := BlockEnd(body, v + 1, v + 1);
      var all := front + body + rest;
      AreLinesCut(all, |front| + v, |front| + e);
      assert all[..|front| + v] + all[|front| + e..] == front + (body[..v] + body[e..]) + rest;
    }
  }

  lemma SettledPart(ls: seq<Line>, i: nat, j: nat)
    requires Settled(ls) && i <= j <= |ls|
    ensures Settled(ls[i..j])
  {
    hide EndsInReturn;
    assert forall x :: 0 <= x < j - i ==> ls[i..j][x] == ls[i + x];
  }

  lemma SplitLines(isId: Line -> bool, lines: seq<Line>)
    requires AreLines(lines) && Settled(lines) && FirstId(isId, lines, 0) < |lines|
    ensures var f := Split(isId, lines); AreLines(f.front + f.kept + f.rest) && Settled(f.front) && Settled(f.rest)
  {
    hide ShapeOf, Bare, AreLines, Settled, WithoutBlock, FirstId, FirstOf;
    var start := FirstId(isId, lines, 0);
    var end := FirstOf(lines, Entry, start + 1);
    assert lines[..start] + lines[start..end] + lines[end..] == lines;
    KeptLines(lines[..start], lines[start..end], lines[end..]);
    SettledPart(lines, 0, start);
    SettledPart(lines, end, |lines|);
    assert lines[0..start] == lines[..start] && lines[end..|lines|] == lines[end..];
  }

  lemma SplitIs(isId: Line -> bool, lines: seq<Line>)
    requires AreLines(lines) && Settled(lines) && forall s :: isId(s) ==> Starts(s, ENTRY)
    requires var f := Split(isId, lines); f.date < |f.kept|
    ensures Around(isId, Split(isId, lines))
  {
    hide ShapeOf, Bare, AreLines, Settled, WithoutBlock, Starts;
    var start := FirstId(isId, lines, 0);
    var end := FirstOf(lines, Entry, start + 1);
    var body := lines[start..end];
    SplitLines(isId, lines);
    EntryShape(lines[start]);
    assert body[0] == lines[start] && forall x :: 0 <= x < |body| - 1 ==> body[1..][x] == lines[start + 1 + x];
    KeptHead(isId, body);
  }

  /** The lines of the first edit's text. */
  function OnceOf(p: Proof, f: File): Once
    requires f.date < |f.kept|
  {
    Once(f.front, Glue(Rewritten(Written(p), f.kept[..f.date])), Lines(Join(NewBlock(p))),
         Glue(Rewritten(Written(p), f.kept[f.date + 1..])), f.rest)
  }

  /** Lines with others put in place of one of them. */
  lemma PutLines(all: seq<Line>, i: nat, d: Line, own: seq<Line>)
    requires AreLines(all) && i < |all| && IsLine(d) && Ends(d) && AreLines(own) && own != [] && Ends(own[|own| - 1])
    ensures AreLines(all[..i] + [d] + own + all[i + 1..])
  {
    hide AreLines, IsLine, Ends;
    var head, tail := all[..i], all[i + 1..];
    AreLinesPart(all, 0, i);
    assert all[0..i] == head;
    AreLinesTail(all, i + 1);
    LineAlone(d);
    AreLinesConcat(head, [d]);
    AreLinesConcat(head + [d], own);
    assert (head + [d] + own)[|head + [d] + own| - 1] == own[|own| - 1];
    AreLinesConcat(head + [d] + own, tail);
  }

  lemma PutAround(f: seq<Line>, k: seq<Line>, r: seq<Line>, i: nat, d: Line, own: seq<Line>)
    requires i < |k|
    ensures var all, j := f + k + r, |f| + i;
      all[..j] + [d] + own + all[j + 1..] == f + (k[..i] + [d] + own + k[i + 1..]) + r
  {
    var all, j := f + k + r, |f| + i;
    assert all[..j] == f + k[..i] && all[j + 1..] == k[i + 1..] + r;
  }

  /** Before they are split again: the block's lines among the entry's. */
  lemma WrittenLines(isId: Line -> bool, p: Proof, f: File)
    requires Around(isId, f) && Fits(Written(p), f.kept[..f.date]) && Fits(Written(p), f.kept[f.date + 1..])
    ensures var w := Written(p);
      AreLines(f.front
        + (Rewritten(w, f.kept[..f.date]) + [DateLine(p)] + Lines(Join(NewBlock(p)))
          + Rewritten(w, f.kept[f.date + 1..])) + f.rest)
  {
    hide ShapeOf, Bare, AreLines, Settled, Lines, Join, DateLine, NewBlock, Fits, Ends, EndsInReturn, IsLine, NoneOf,
      Rewritten;
    var own, d, after := Lines(Join(NewBlock(p))), DateLine(p), f.kept[f.date + 1..];
    OwnIs(p);
    DateIsLine(p);
    PutLines(f.front + f.kept + f.rest, |f.front| + f.date, d, own);
    PutAround(f.front, f.kept, f.rest, f.date, d, own);
    assert after[0..] == after;
    RewrittenAbout(Written(p), f.front, f.kept[..f.date], d, own, after, 0, f.rest);
  }

  lemma LineAlone(ln: Line)
    requires IsLine(ln)
    ensures AreLines([ln])
  {
    hide IsLine;
  }

  lemma GlueMiddle(b: seq<Line>, d: Line, n: seq<Line>, a: seq<Line>)
    requires Settled(n) && d != "\n" && !EndsInReturn(d) && n != [] && n[0] != "\n" && !EndsInReturn(n[|n| - 1])
    ensures Glue(b + [d] + n + a) == Glue(b) + [d] + n + Glue(a)
  {
    hide EndsInReturn, Glue;
    var bd := b + [d];
    assert bd[|bd| - 1] == d && (bd + n)[|bd + n| - 1] == n[|n| - 1];
    GlueConcat(bd + n, a);
    GlueConcat(bd, n);
    GlueConcat(b, [d]);
    GlueLine(d);
    GlueSettled(n);
  }

  lemma GlueLine(ln: Line)
    ensures Glue([ln]) == [ln]
  {
  }

  lemma GlueAround(f: seq<Line>, m: seq<Line>, r: seq<Line>)
    requires Settled(f) && Settled(r) && m != [] && m[0] != "\n" && (r != [] ==> r[0] != "\n")
    ensures Glue(f + m + r) == f + Glue(m) + r
  {
    hide EndsInReturn, Glue, Settled;
    GlueConcat(f + m, r);
    GlueConcat(f, m);
    GlueSettled(f);
    GlueSettled(r);
  }

  lemma Regroup(f: seq<Line>, b: seq<Line>, d: Line, n: seq<Line>, a: seq<Line>, r: seq<Line>)
    ensures f + (b + [d] + n + a) + r == f + (b + [d] + (n + a + r))
  {
  }

  lemma HeadOf(a: seq<Line>, b: seq<Line>)
    requires a != []
    ensures (a + b)[0] == a[0]
  {
  }

  lemma NotNewline(ln: Line, sh: Shape)
    requires ShapeOf(ln) == sh != Skipped
    ensures ln != "\n"
  {
    NewlineIsSkipped();
  }

  /** An entry's first line is not rewritten. */
  lemma HeadStays(w: Option<seq<Part>>, ln: Line)
    requires ShapeOf(ln) == Entry
    ensures Rewrite(w, ln) == ln
  {
    hide ShapeOf, Rewrite;
    RewriteKeepsShape(w, ln);
  }

  /** Split again, the first edit's text is the lines it wrote, the block's values apart, and breaks glued. */
  lemma TextIs(isId: Line -> bool, p: Proof, f: File)
    requires Around(isId, f) && Fits(Written(p), f.kept[..f.date]) && Fits(Written(p), f.kept[f.date + 1..])
    ensures var w := Written(p);
      var all := AllOf(p, OnceOf(p, f));
      var text := Join(f.front
        + (Rewritten(w, f.kept[..f.date]) + [DateLine(p)] + NewBlock(p) + Rewritten(w, f.kept[f.date + 1..])) + f.rest);
      text == Join(all) && Lines(text) == all
  {
    hide ShapeOf, Bare, AreLines, Settled, Lines, Join, DateLine, NewBlock, Fits, Ends, EndsInReturn, Glue,
      Rewritten, HEADER;
    var w, own, d := Written(p), Lines(Join(NewBlock(p))), DateLine(p);
    var b, a := Rewritten(w, f.kept[..f.date]), Rewritten(w, f.kept[f.date + 1..]);
    WrittenLines(isId, p, f);
    OwnIs(p);
    DateIsLine(p);
    RewrittenHead(w, f.kept[..f.date]);
    HeadStays(w, f.kept[0]);
    NotNewline(f.kept[0], Entry);
    DateShape(p);
    NotNewline(d, Validated);
    HeaderShape();
    NotNewline(HEADER, BlockKey);
    if f.rest != [] {
      NotNewline(f.rest[0], Entry);
    }
    GlueMiddle(b, d, own, a);
    HeadOf(b, [d] + own + a);
    assert b + ([d] + own + a) == b + [d] + own + a;
    GlueAround(f.front, b + [d] + own + a, f.rest);
    Regroup(f.front, Glue(b), d, own, Glue(a), f.rest);
    var lines := f.front + (b + [d] + own + a) + f.rest;
    LinesOfJoin(lines);
    JoinAbout(f.front, b, d, NewBlock(p), a, f.rest);
    JoinAbout(f.front, b, d, own, a, f.rest);
    LinesAre(Join(lines));
    AllIs(p, f);
  }

  lemma AllIs(p: Proof, f: File)
    requires f.date < |f.kept|
    ensures var w := Written(p);
      AllOf(p, OnceOf(p, f)) == f.front + (Glue(Rewritten(w, f.kept[..f.date])) + [DateLine(p)]
        + (Lines(Join(NewBlock(p))) + Glue(Rewritten(w, f.kept[f.date + 1..])) + f.rest))
  {
    hide DateLine, NewBlock, Lines, Join, Glue, Rewritten;
  }

  /** Blank lines and comments aside, rewritten and glued lines have the shapes they had. */
  lemma ShapesStay(w: Option<seq<Part>>, ls: seq<Line>, sh: Shape)
    requires sh != Skipped
    ensures Shapes(Glue(Rewritten(w, ls))) == Shapes(ls)
    ensures NoneOf(Glue(Rewritten(w, ls)), sh) <==> NoneOf(ls, sh)
  {
    hide ShapeOf, Shapes, Glue, Rewritten;
    var g := Glue(Rewritten(w, ls));
    ShapesGlue(Rewritten(w, ls));
    ShapesRewritten(w, ls);
    ShapesHold(g, sh);
    ShapesHold(ls, sh);
  }

  lemma BareGlued(ln: Line)
    ensures Bare(ln + "\n") == Bare(ln)
  {
    assert (ln + "\n")[..|ln|] == ln;
  }

  /** The entry still starts with its id line, and has no other. */
  lemma HeadGlued(isId: Line -> bool, w: Option<seq<Part>>, ls: seq<Line>)
    requires ls != [] && isId(Bare(ls[0])) && ShapeOf(ls[0]) == Entry && NoneOf(ls[1..], Entry)
    ensures var g := Glue(Rewritten(w, ls));
      g != [] && isId(Bare(g[0])) && ShapeOf(g[0]) == Entry && NoneOf(g[1..], Entry)
  {
    hide ShapeOf, Bare, EndsInReturn, Rewritten;
    HeadStays(w, ls[0]);
    RewrittenHead(w, ls);
    var once := Rewritten(w, ls);
    var g := Glue(once);
    BareGlued(ls[0]);
    ShapeGlued(ls[0]);
    assert g[0] == ls[0] || g[0] == ls[0] + "\n";
    ShapesStay(w, ls, Entry);
    assert Shapes(g) == [Entry] + Shapes(g[1..]) && Shapes(ls) == [Entry] + Shapes(ls[1..]);
    assert Shapes(g[1..]) == Shapes(g)[1..] == Shapes(ls[1..]);
    ShapesHold(g[1..], Entry);
    ShapesHold(ls[1..], Entry);
  }

  lemma OnceIs(isId: Line -> bool, p: Proof, f: File)
    requires Around(isId, f) && Fits(Written(p), f.kept[..f.date]) && Fits(Written(p), f.kept[f.date + 1..])
    ensures IsOnce(isId, p, OnceOf(p, f)) && FitsAll(p, OnceOf(p, f))
  {
    hide ShapeOf, Bare, AreLines, Settled, Lines, Join, DateLine, NewBlock, Fits, Ends, EndsInReturn, Glue,
      Rewritten, AllOf, HEADER, Shapes;
    var w, before, after := Written(p), f.kept[..f.date], f.kept[f.date + 1..];
    TextIs(isId, p, f);
    OwnIs(p);
    assert before[0] == f.kept[0];
    assert forall x :: 0 <= x < |before[1..]| ==> before[1..][x] == f.kept[1..][x];
    HeadGlued(isId, w, before);
    ShapesStay(w, before, Validated);
    assert forall x :: 0 <= x < |after| ==> after[x] == f.kept[1..][x + f.date];
    ShapesStay(w, after, Entry);
    EntryLines(isId, f);
    GluedAgain(w, before);
    GluedAgain(w, after);
  }

  lemma EntryLines(isId: Line -> bool, f: File)
    requires Around(isId, f)
    ensures AreLines(f.kept[..f.date]) && AreLines(f.kept[f.date + 1..])
  {
    hide ShapeOf, Bare, AreLines, Settled;
    var all, i := f.front + f.kept + f.rest, |f.front|;
    AreLinesPart(all, i, i + f.date);
    AreLinesPart(all, i + f.date + 1, i + |f.kept|);
    assert all[i..i + f.date] == f.kept[..f.date] && all[i + f.date + 1..i + |f.kept|] == f.kept[f.date + 1..];
  }

  // ---- twice is once ----

  /** The new block is read back as one block: its lines, after the key, are of a block's depth, but for blank
      lines and comments between them. */
  predicate ReadsBackWhole(p: Proof) {
    var own := Lines(Join(NewBlock(p)));
    own != [] && BlockEnd(own, 1, 1) == |own|
  }

  /** The version is not read back whole when it is written over a value. */
  predicate VersionGrows(p: Proof) { Written(p).Some? && Grows(Written(p).value) }

  /** A line of a shape comes before line `d`. */
  predicate Precedes(body: seq<Line>, shape: Shape, d: nat)
    requires d <= |body|
  {
    FirstOf(body, shape, 0) < d
  }

  /** The exact condition: of the entry without its old block, no block's key comes before the date, and after it
      nothing of a block's depth before the next key; the new block is read back whole; and the version is, or no
      line has a value to write it over. */
  predicate Repeats(p: Proof, f: File)
    requires f.date < |f.kept|
  {
    && !Precedes(f.kept, BlockKey, f.date) && NothingDeepNext(f.kept[f.date + 1..])
    && ReadsBackWhole(p) && !(VersionGrows(p) && HasValue(f.kept))
  }

  /** The cut is the first edit's block exactly when that is read back whole and nothing of its depth follows. */
  lemma CutIs(isId: Line -> bool, p: Proof, o: Once)
    requires IsOnce(isId, p, o) && o.own == Lines(Join(NewBlock(p)))
    ensures CutOf(Mine(o)) == |o.own| <==> ReadsBackWhole(p) && NothingDeepNext(o.after)
  {
    hide ShapeOf, Bare, Lines, Join, Fits, AllOf, StaysOrGrows, NewBlock, Shapes, BlockEnd, FirstOf, HEADER;
    if EntryEnd(o) < |o.own| {
      var m := EntryEnd(o);
      assert |Mine(o)| == m;
      assert TailOf(o)[m] == o.own[m];
      if BlockEnd(o.own, 1, 1) == |o.own| {
        HeaderShape();
        BlockIsDeep(o.own, 1, 1, m);
      }
    } else {
      EntryEndIs(isId, p, o);
      CutsOwn(o.own, o.after, 1, 1);
    }
  }

  /** The condition, read of the first edit's lines: the second one finds its own block, cuts that and no more, and
      writes over no value but with itself. */
  ghost predicate ReadsAgain(p: Proof, o: Once) {
    && NoneOf(o.before, BlockKey) && ReadsBackWhole(p) && NothingDeepNext(o.after)
    && StaysWritten(p, o)
  }

  /** The two texts are the same exactly when the condition, read of the first one's lines, holds. */
  lemma SameText(isId: Line -> bool, p: Proof, o: Once)
    requires IsOnce(isId, p, o) && FitsAll(p, o) && o.own == Lines(Join(NewBlock(p)))
      && (p.endpoint != "" ==> Parts(p.endpoint).Some?)
    ensures var text := Join(AllOf(p, o)); EditText(isId, p, text) == Success(text) <==> ReadsAgain(p, o)
  {
    hide Bare, Lines, Join, Fits, AllOf, StaysOrGrows, NewBlock, CutOf, Mine, TailOf, EntryEnd, Rewritten,
      NothingDeepNext, Parts, Edit;
    assert Lines(Join(AllOf(p, o))) == AllOf(p, o);
    var b, t := SecondEdit(isId, p, o);
    assert EditText(isId, p, Join(AllOf(p, o))) == Success(Join(Again(p, o, b, t)));
    CutIs(isId, p, o);
    if !NoneOf(o.before, BlockKey) {
      CutAnother(isId, p, o, b, t);
    } else if CutOf(Mine(o)) < |o.own| {
      CutShort(isId, p, o);
    } else if CutOf(Mine(o)) > |o.own| {
      CutLong(isId, p, o);
    } else {
      CutWhole(isId, p, o);
    }
  }

  /** A date has no version in it. */
  lemma DateHasNoValue(ln: Line)
    requires ShapeOf(ln) == Validated
    ensures ValueAt(ln).None?
  {
    if ValueAt(ln).Some? {
      hide ValueAt, ShapeOf;
      ValueFollowsKey(ln);
      SameKey(ln, ln[..ValueAt(ln).value.from], SkipSpace(ln, 0));
      KeyLineShape(ln, SkipSpace(ln, 0), ValueAt(ln).value.from);
    }
  }

  /** A version to write over is one before the date or after it. */
  lemma ValuesAround(f: File)
    requires f.date < |f.kept| && ShapeOf(f.kept[f.date]) == Validated
    ensures HasValue(f.kept) <==> HasValue(f.kept[..f.date]) || HasValue(f.kept[f.date + 1..])
  {
    hide ValueAt, ShapeOf;
    DateHasNoValue(f.kept[f.date]);
    var before, after := f.kept[..f.date], f.kept[f.date + 1..];
    assert forall x :: 0 <= x < |before| ==> before[x] == f.kept[x];
    assert forall x :: 0 <= x < |after| ==> after[x] == f.kept[f.date + 1 + x];
    if x :| 0 <= x < |f.kept| && ValueAt(f.kept[x]).Some? {
      assert x < f.date ==> before[x] == f.kept[x];
      assert x > f.date ==> after[x - f.date - 1] == f.kept[x];
    }
  }

  lemma PrecedesMeans(ls: seq<Line>, shape: Shape, d: nat)
    requires d <= |ls|
    ensures Precedes(ls, shape, d) <==> !NoneOf(ls[..d], shape)
  {
    hide ShapeOf;
    assert forall x :: 0 <= x < d ==> ls[..d][x] == ls[x];
  }

  /** The condition read of the first edit's lines is the condition read of the file before it. */
  lemma SameCondition(isId: Line -> bool, p: Proof, f: File)
    requires Around(isId, f) && Fits(Written(p), f.kept)
    ensures Repeats(p, f) <==> ReadsAgain(p, OnceOf(p, f))
  {
    hide ShapeOf, Bare, AreLines, Settled, Lines, Join, NewBlock, Glue, Rewritten, Shapes, HasValue, Grows,
      BreaksLines, Precedes, ReadsBackWhole;
    var w, before, after := Written(p), f.kept[..f.date], f.kept[f.date + 1..];
    ValuesAround(f);
    EntryLines(isId, f);
    GluedAgain(w, before);
    GluedAgain(w, after);
    ShapesStay(w, before, BlockKey);
    ShapesStay(w, after, Deep);
    PrecedesMeans(f.kept, BlockKey, f.date);
  }

  /** Recording a proof twice is recording it once exactly when the condition holds, as long as writing the
      version over the values in the entry breaks no line. */
  lemma TwiceIsOnce(isId: Line -> bool, p: Proof, t: string)
    requires forall s :: isId(s) ==> Starts(s, ENTRY)
    requires EditText(isId, p, t).Success?
    ensures var f, once := Split(isId, Lines(t)), EditText(isId, p, t).value;
      f.date < |f.kept| && (Fits(Written(p), f.kept) ==> (EditText(isId, p, once) == Success(once) <==> Repeats(p, f)))
  {
    hide ShapeOf, Bare, AreLines, Settled, Lines, Join, NewBlock, Glue, Rewritten, Shapes, HasValue, BreaksLines,
      Precedes, ReadsBackWhole,
      Starts, Parts, WithoutBlock, FirstOf, FirstId, DateLine, EditBody, NoneOf, Repeats, StaysOrGrows,
      NothingDeepNext, AllOf, Around, IsOnce, ReadsAgain;
    var f := Split(isId, Lines(t));
    LinesAre(t);
    EditIs(isId, p, Lines(t));
    if Fits(Written(p), f.kept) {
      SplitIs(isId, Lines(t));
      FitsParts(isId, p, f);
      TextIs(isId, p, f);
      OnceIs(isId, p, f);
      SameText(isId, p, OnceOf(p, f));
      SameCondition(isId, p, f);
    }
  }

  lemma FitsParts(isId: Line -> bool, p: Proof, f: File)
    requires Around(isId, f) && Fits(Written(p), f.kept)
    ensures Fits(Written(p), f.kept[..f.date]) && Fits(Written(p), f.kept[f.date + 1..])
  {
    hide ShapeOf, HasValue;
    ValuesAround(f);
  }

  // ---- a proof without breaks in its values ----

  lemma DeepShape(rest: string)
    requires rest != "" && !IsSpace(rest[0])
    ensures ShapeOf(DEPTH + rest) == Deep
  {
    var ln := DEPTH + rest;
    assert ln[..4] == DEPTH && ln[4] == rest[0];
    SkipSpaceIs(ln, 0, 4);
  }

  ghost predicate IsKey(key: string) { key != "" && !IsSpace(key[0]) && !HasBreak(key) }

  /** A line of a block, whole. */
  ghost predicate IsDeepLine(ln: Line) { ShapeOf(ln) == Deep && IsLine(ln) && Ends(ln) && !EndsInReturn(ln) }

  lemma DeepLine(text: string)
    requires text != "" && !IsSpace(text[0]) && !HasBreak(text)
    ensures IsDeepLine(DEPTH + text + "\n")
  {
    hide ShapeOf, IsLine, Ends, EndsInReturn;
    DeepShape(text + "\n");
    assert DEPTH + (text + "\n") == DEPTH + text + "\n";
    assert !HasBreak(DEPTH);
    assert !HasBreak(DEPTH + text);
    TextIsLine(DEPTH + text);
  }

  lemma KeyLinesDeep(key: string, value: string)
    requires IsKey(key) && !HasBreak(value)
    ensures forall ln | ln in KeyLines(key, value) :: IsDeepLine(ln)
  {
    hide IsDeepLine, IsSpace, IsBreak;
    var text := key + ": \"" + value + "\"";
    assert !HasBreak(": \"") && !HasBreak("\"") by { QuotesDoNotBreak(); }
    assert !HasBreak(text);
    DeepLine(text);
    assert DEPTH + key + ": \"" + value + "\"\n" == DEPTH + text + "\n";
  }

  lemma QuotesDoNotBreak()
    ensures !HasBreak(": \"") && !HasBreak("\"")
  {
  }

  lemma KeysAreKeys()
    ensures IsKey("endpoint_version") && IsKey("python_version") && IsKey("template_sha256") && IsKey("config_sha256")
      && IsKey("worker")
  {
    EndpointIsKey();
    TemplateIsKey();
  }

  lemma EndpointIsKey()
    ensures IsKey("endpoint_version") && IsKey("python_version")
  {
  }

  lemma TemplateIsKey()
    ensures IsKey("template_sha256") && IsKey("config_sha256") && IsKey("worker")
  {
  }

  lemma DateDeep(p: Proof)
    ensures IsDeepLine(DEPTH + "verified_on: " + p.on + "\n")
  {
    assert !HasBreak("verified_on: ");
    assert !HasBreak(p.on) by {
      assert forall c | IsDateChar(c) :: !IsBreak(c);
    }
    var text := "verified_on: " + p.on;
    assert text[0] == 'v';
    DeepLine(text);
    assert DEPTH + "verified_on: " + p.on + "\n" == DEPTH + text + "\n";
  }

  predicate OneLineEach(p: Proof) {
    !HasBreak(p.endpoint) && !HasBreak(p.python) && !HasBreak(p.template) && !HasBreak(p.config) && !HasBreak(p.worker)
  }

  lemma BlockLines(p: Proof)
    requires OneLineEach(p)
    ensures NewBlock(p) != [] && NewBlock(p)[0] == HEADER
    ensures forall x :: 1 <= x < |NewBlock(p)| ==> IsDeepLine(NewBlock(p)[x])
  {
    hide IsDeepLine, IsKey, HasBreak, KeyLines, HEADER;
    KeysAreKeys();
    DateDeep(p);
    KeyLinesDeep("endpoint_version", p.endpoint);
    KeyLinesDeep("python_version", p.python);
    KeyLinesDeep("template_sha256", p.template);
    KeyLinesDeep("config_sha256", p.config);
    KeyLinesDeep("worker", p.worker);
  }

  lemma {:induction false} BlockEndOverDeep(ls: seq<Line>, i: nat)
    requires i <= |ls| && forall x :: i <= x < |ls| ==> ShapeOf(ls[x]) == Deep
    ensures BlockEnd(ls, i, i) == |ls|
    decreases |ls| - i
  {
    hide ShapeOf;
    if i < |ls| {
      BlockEndOverDeep(ls, i + 1);
    }
  }

  /** Its block splits into its own lines. */
  lemma BlockSplits(p: Proof)
    requires OneLineEach(p)
    ensures Lines(Join(NewBlock(p))) == NewBlock(p)
  {
    hide ShapeOf, IsLine, Ends, EndsInReturn, NewBlock, HEADER, OneLineEach, Lines, Join;
    BlockLines(p);
    HeaderIsLine();
    var block := NewBlock(p);
    assert forall x :: 0 <= x < |block| ==> IsLine(block[x]) && Ends(block[x]) && !EndsInReturn(block[x]);
    LinesOfJoin(block);
    GlueSettled(block);
  }

  /** A proof whose values have no breaks is read back whole. */
  lemma OneLineReadsBack(p: Proof)
    requires OneLineEach(p)
    ensures ReadsBackWhole(p)
  {
    hide ShapeOf, NewBlock, HEADER, OneLineEach, Lines, Join;
    BlockLines(p);
    BlockSplits(p);
    BlockEndOverDeep(NewBlock(p), 1);
  }
}
