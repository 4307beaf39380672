/** Recording the same proof twice when the version breaks the lines it is written into: the condition is read of
    the lines the first edit's text has. */
module SeedBroken {
  import opened Common
  import opened TextLines
  import opened Template
  import opened SeedLines
  import opened SeedEdit
  import opened SeedAgain
  import opened SeedTwice

  // ---- the first edit's text, with lines broken by the version ----

  lemma PlainIsNoBreak(ln: Line, at: Span)
    requires ValueAt(ln) == Some(at)
    ensures !IsBreak(ln[at.to - 1])
  {
  }

  /** A rewritten line ends as it did. */
  lemma RewriteEnds(w: Option<seq<Part>>, ln: Line)
    requires Ends(ln)
    ensures var after := Rewrite(w, ln); Ends(after) && after[|after| - 1] == ln[|ln| - 1]
  {
    hide ValueAt, Expand;
    var at := ValueAt(ln);
    if w.Some? && at.Some? {
      PlainIsNoBreak(ln, at.value);
      assert at.value.to < |ln|;
    }
  }

  /** Lines that end in breaks, split anew, do. */
  lemma LinesEnd(ls: seq<Line>)
    requires ls != [] && Ends(ls[|ls| - 1])
    ensures var again := Lines(Join(ls)); again != [] && Ends(again[|again| - 1])
  {
    hide Lines, Join, IsLine, AreLines;
    JoinEnds(ls);
    LinesAre(Join(ls));
    var again := Lines(Join(ls));
    JoinNone(again);
    AreLinesTail(again, |again| - 1);
    LastIsThere(again);
    JoinEnds(again);
  }

  lemma JoinNone(ls: seq<Line>)
    ensures Join(ls) != "" ==> ls != []
  {
  }

  lemma LastIsThere(ls: seq<Line>)
    requires AreLines(ls) && ls != []
    ensures ls[|ls| - 1] != ""
  {
    LineIsThere(ls[|ls| - 1]);
  }

  /** The lines the first edit's text has. */
  function ReadOf(p: Proof, f: File): Once
    requires f.date < |f.kept|
  {
    Once(f.front, Lines(Join(Rewritten(Written(p), f.kept[..f.date]))), Lines(Join(NewBlock(p))),
         Lines(Join(Rewritten(Written(p), f.kept[f.date + 1..]))), f.rest)
  }

  /** The first line of rewritten lines is the first line, up to a break split between it and the next. */
  lemma HeadIsRead(w: Option<seq<Part>>, ls: seq<Line>)
    requires AreLines(ls) && |ls| > 0 && ShapeOf(ls[0]) == Entry && Ends(ls[0])
    ensures var again := Lines(Join(Rewritten(w, ls))); again != [] && (again[0] == ls[0] || again[0] == ls[0] + "\n")
  {
    hide ShapeOf, IsLine, Ends, EndsInReturn, LineEnd, Rewritten, Rewrite;
    HeadStays(w, ls[0]);
    RewrittenHead(w, ls);
    var more := Join(Rewritten(w, ls[1..]));
    JoinHead(ls[0], Rewritten(w, ls[1..]));
    LineIsThere(ls[0]);
    LineEndOver(ls[0], more);
    var t := ls[0] + more;
    assert t != "" && t[..|ls[0]|] == ls[0];
    assert more != "" ==> t[..|ls[0]| + 1] == ls[0] + [more[0]];
  }

  lemma KeptEnds(isId: Line -> bool, f: File)
    requires Around(isId, f)
    ensures forall x | 0 <= x < f.date :: Ends(f.kept[x])
    ensures f.rest != [] ==> forall x | 0 <= x < |f.kept| :: Ends(f.kept[x])
  {
    hide ShapeOf, Bare, IsLine, Ends, Settled, NoneOf;
    var all := f.front + f.kept + f.rest;
    assert forall x :: 0 <= x < |f.kept| ==> all[|f.front| + x] == f.kept[x];
  }

  /** The entry's lines before the date, as the text has them, start with its id line and end in a break. */
  lemma BeforeIsRead(isId: Line -> bool, p: Proof, f: File)
    requires Around(isId, f)
    ensures var b := ReadOf(p, f).before;
      && b != [] && isId(Bare(b[0])) && ShapeOf(b[0]) == Entry && b[0] != "\n"
      && AreLines(b) && Settled(b) && Ends(b[|b| - 1])
  {
    hide ShapeOf, Bare, IsLine, Ends, Settled, NoneOf, Rewritten, Lines, Join, AreLines, Rewrite;
    var w, before := Written(p), f.kept[..f.date];
    EntryLines(isId, f);
    KeptEnds(isId, f);
    assert before[0] == f.kept[0] && before[f.date - 1] == f.kept[f.date - 1];
    HeadIsRead(w, before);
    BareGlued(before[0]);
    ShapeGlued(before[0]);
    LinesAre(Join(Rewritten(w, before)));
    RewriteEnds(w, before[f.date - 1]);
    RewrittenLast(w, before);
    LinesEnd(Rewritten(w, before));
    NotNewline(ReadOf(p, f).before[0], Entry);
  }

  lemma RewrittenLast(w: Option<seq<Part>>, ls: seq<Line>)
    requires ls != []
    ensures Rewritten(w, ls) != [] && Rewritten(w, ls)[|ls| - 1] == Rewrite(w, ls[|ls| - 1])
      && |Rewritten(w, ls)| == |ls|
  {
    hide Rewrite;
  }

  /** Those after it end in a break, when anything follows the entry. */
  lemma AfterIsRead(isId: Line -> bool, p: Proof, f: File)
    requires Around(isId, f)
    ensures var a := ReadOf(p, f).after;
      AreLines(a) && Settled(a) && (a != [] && f.rest != [] ==> Ends(a[|a| - 1]))
  {
    hide ShapeOf, Bare, IsLine, Ends, Settled, NoneOf, Rewritten, Lines, Join, AreLines, Rewrite;
    var w, after := Written(p), f.kept[f.date + 1..];
    KeptEnds(isId, f);
    LinesAre(Join(Rewritten(w, after)));
    if after != [] && f.rest != [] {
      assert after[|after| - 1] == f.kept[|f.kept| - 1];
      RewriteEnds(w, after[|after| - 1]);
      RewrittenLast(w, after);
      LinesEnd(Rewritten(w, after));
    } else if after == [] {
      NothingToWrite(w);
      NoLines();
    }
  }

  lemma NoLines()
    ensures Lines(Join([])) == []
  {
  }

  /** Five lists of lines, one after another, with the date among them. */
  lemma PutTogether(f: seq<Line>, b: seq<Line>, d: Line, n: seq<Line>, a: seq<Line>, r: seq<Line>)
    requires AreLines(f) && (f == [] || Ends(f[|f| - 1])) && AreLines(b) && b != [] && Ends(b[|b| - 1])
    requires IsLine(d) && Ends(d) && AreLines(n) && n != [] && Ends(n[|n| - 1])
    requires AreLines(a) && AreLines(r) && (a == [] || r == [] || Ends(a[|a| - 1]))
    ensures AreLines(f + (b + [d] + n + a) + r)
  {
    hide AreLines, IsLine, Ends;
    LineAlone(d);
    var bd := b + [d];
    AreLinesConcat(b, [d]);
    assert bd[|bd| - 1] == d && (bd + n)[|bd + n| - 1] == n[|n| - 1];
    AreLinesConcat(bd, n);
    AreLinesConcat(bd + n, a);
    var m := bd + n + a;
    assert m[|m| - 1] == if a == [] then n[|n| - 1] else a[|a| - 1];
    AreLinesConcat(f, m);
    assert (f + m)[|f + m| - 1] == m[|m| - 1];
    AreLinesConcat(f + m, r);
  }

  lemma AroundLines(isId: Line -> bool, f: File)
    requires Around(isId, f)
    ensures AreLines(f.front) && AreLines(f.rest) && (f.front == [] || Ends(f.front[|f.front| - 1]))
  {
    hide ShapeOf, Bare, AreLines, Settled, NoneOf;
    var all := f.front + f.kept + f.rest;
    AreLinesPart(all, 0, |f.front|);
    AreLinesTail(all, |f.front| + |f.kept|);
    assert all[0..|f.front|] == f.front && all[|f.front| + |f.kept|..] == f.rest;
    assert f.front != [] ==> all[|f.front| - 1] == f.front[|f.front| - 1];
  }

  lemma ReadIs(isId: Line -> bool, p: Proof, f: File)
    requires Around(isId, f)
    ensures var o := ReadOf(p, f); Lines(Join(AllOf(p, o))) == AllOf(p, o)
  {
    hide ShapeOf, Bare, AreLines, Settled, NoneOf, Lines, Join, Ends, EndsInReturn, IsLine, Glue, NewBlock, DateLine,
      Rewritten, HEADER;
    var o, d := ReadOf(p, f), DateLine(p);
    BeforeIsRead(isId, p, f);
    AfterIsRead(isId, p, f);
    AroundLines(isId, f);
    OwnIs(p);
    DateIsLine(p);
    DateShape(p);
    NotNewline(d, Validated);
    HeaderShape();
    NotNewline(HEADER, BlockKey);
    if f.rest != [] {
      NotNewline(f.rest[0], Entry);
    }
    PutTogether(o.front, o.before, d, o.own, o.after, o.rest);
    GlueMiddle(o.before, d, o.own, o.after);
    GlueSettled(o.before);
    GlueSettled(o.after);
    var m := o.before + [d] + o.own + o.after;
    HeadOf(o.before, [d] + o.own + o.after);
    assert o.before + ([d] + o.own + o.after) == m;
    GlueAround(o.front, m, o.rest);
    LinesOfJoin(o.front + m + o.rest);
    Regroup(o.front, o.before, d, o.own, o.after, o.rest);
  }

  /** They are the first edit's text. */
  lemma ReadIsText(p: Proof, f: File)
    requires f.date < |f.kept|
    ensures var w := Written(p);
      Join(f.front + (Rewritten(w, f.kept[..f.date]) + [DateLine(p)] + NewBlock(p)
        + Rewritten(w, f.kept[f.date + 1..])) + f.rest)
      == Join(AllOf(p, ReadOf(p, f)))
  {
    hide AreLines, Settled, Lines, Join, NewBlock, DateLine, Rewritten;
    var w, o, d := Written(p), ReadOf(p, f), DateLine(p);
    var b, a := Rewritten(w, f.kept[..f.date]), Rewritten(w, f.kept[f.date + 1..]);
    LinesAre(Join(b));
    LinesAre(Join(a));
    LinesAre(Join(NewBlock(p)));
    JoinAbout(f.front, b, d, NewBlock(p), a, f.rest);
    JoinAbout(o.front, o.before, d, o.own, o.after, o.rest);
    Regroup(o.front, o.before, d, o.own, o.after, o.rest);
  }

  // ---- when twice is once ----

  /** Read back, the entry is still the first edit's: the version's breaks make no line that starts an entry, a
      date or a block, none of a block's depth after the new one, and no shorter value to write over. */
  ghost predicate ReadsClean(p: Proof, o: Once) {
    && o.before != [] && NoneOf(o.before[1..], Entry) && NoneOf(o.before, Validated) && NoneOf(o.before, BlockKey)
    && NoneOf(o.after, Entry) && NothingDeepNext(o.after)
    && StaysOrGrows(Written(p), o.before) && StaysOrGrows(Written(p), o.after)
  }

  lemma {:induction false} CutsNoMore(own: seq<Line>, after: seq<Line>, i: nat, end: nat)
    requires end <= i <= |own| && NothingDeepNext(after)
    ensures BlockEnd(own + after, i, end) <= |own|
    decreases |own| - i
  {
    hide ShapeOf, Shapes;
    if i == |own| {
      assert (own + after)[i..] == after;
      BlockEndsThere(own + after, i, end);
    } else {
      assert (own + after)[i] == own[i];
      CutsNoMore(own, after, i + 1, if ShapeOf(own[i]) == Deep then i + 1 else end);
    }
  }

  lemma CutIsWithin(isId: Line -> bool, p: Proof, o: Once)
    requires IsOnce(isId, p, o) && NothingDeepNext(o.after)
    ensures CutOf(Mine(o)) <= |o.own|
  {
    hide ShapeOf, Bare, Lines, Join, AllOf, StaysOrGrows, NewBlock, Shapes, BlockEnd, FirstOf, HEADER, NothingDeepNext;
    if EntryEnd(o) >= |o.own| {
      EntryEndIs(isId, p, o);
      CutsNoMore(o.own, o.after, 1, 1);
    } else {
      assert |Mine(o)| <= |o.own|;
    }
  }

  /** Recording a proof twice, whatever its version breaks: where the entry reads back clean, it is recording it
      once exactly when the new block is read back whole, and no line has a value that is written otherwise. */
  lemma BrokenTwiceIsOnce(isId: Line -> bool, p: Proof, t: string)
    requires forall s :: isId(s) ==> Starts(s, ENTRY)
    requires EditText(isId, p, t).Success?
    ensures var f, once := Split(isId, Lines(t)), EditText(isId, p, t).value;
      && f.date < |f.kept|
      && (ReadsClean(p, ReadOf(p, f)) ==> (EditText(isId, p, once) == Success(once) <==> ReadsAgain(p, ReadOf(p, f))))
  {
    hide ShapeOf, Bare, AreLines, Settled, Lines, Join, NewBlock, Rewritten, Shapes, Starts, Parts, FirstOf, FirstId,
      DateLine, EditBody,
      NoneOf, ReadsBackWhole, StaysOrGrows, NothingDeepNext, AllOf, Around, IsOnce, CutOf, Mine, TailOf, EntryEnd,
      Edit, Again, Split, ReadOf,
      ReadsClean, ReadsAgain;
    var f := Split(isId, Lines(t));
    LinesAre(t);
    EditIs(isId, p, Lines(t));
    SplitIs(isId, Lines(t));
    if ReadsClean(p, ReadOf(p, f)) {
      EditReads(isId, p, t);
      ReadIsText(p, f);
      CleanIsOnce(isId, p, f);
      CleanSameText(isId, p, ReadOf(p, f));
    }
  }

  lemma EditReads(isId: Line -> bool, p: Proof, t: string)
    requires EditText(isId, p, t).Success?
    ensures p.endpoint != "" ==> Parts(p.endpoint).Some?
    ensures Edit(isId, p, Lines(t)).Success? && EditText(isId, p, t).value == Join(Edit(isId, p, Lines(t)).value)
  {
    hide Lines, Join, EditBody, Parts, FirstOf, FirstId;
  }

  lemma CleanIsOnce(isId: Line -> bool, p: Proof, f: File)
    requires Around(isId, f) && ReadsClean(p, ReadOf(p, f))
    ensures IsOnce(isId, p, ReadOf(p, f)) && ReadOf(p, f).own == Lines(Join(NewBlock(p)))
  {
    hide ShapeOf, Bare, AreLines, Settled, Lines, Join, NewBlock, Rewritten, DateLine, NoneOf, NothingDeepNext,
      AllOf, StaysOrGrows, HEADER, Ends;
    BeforeIsRead(isId, p, f);
    ReadIs(isId, p, f);
    OwnIs(p);
  }

  lemma CleanSameText(isId: Line -> bool, p: Proof, o: Once)
    requires IsOnce(isId, p, o) && o.own == Lines(Join(NewBlock(p))) && (p.endpoint != "" ==> Parts(p.endpoint).Some?)
    requires ReadsClean(p, o)
    ensures var text := Join(AllOf(p, o)); EditText(isId, p, text) == Success(text) <==> ReadsAgain(p, o)
  {
    hide Bare, Lines, Join, AllOf, StaysOrGrows, NewBlock, CutOf, Mine, TailOf, EntryEnd, Rewritten, NothingDeepNext,
      Parts, Edit, ReadsBackWhole;
    assert Lines(Join(AllOf(p, o))) == AllOf(p, o);
    var b, t := SecondEdit(isId, p, o);
    assert EditText(isId, p, Join(AllOf(p, o))) == Success(Join(Again(p, o, b, t)));
    CutIs(isId, p, o);
    CutIsWithin(isId, p, o);
    if CutOf(Mine(o)) < |o.own| {
      CutShort(isId, p, o);
    } else {
      CutWhole(isId, p, o);
    }
  }
}
