/** An entry for each way of recording a proof twice that is not recording it once. */
module SeedCases {
  import opened Common
  import opened TextLines
  import opened Template
  import opened SeedLines
  import opened SeedEdit
  import opened SeedAgain
  import opened SeedTwice
  import opened SeedBroken

  const ID := "- id: a\n"
  const VALUE := "  verified_with: 3\n"
  const KEY := "  verification:\n"
  const DATED := "  last_validated:\n"
  const NOTE := "    note\n"

  predicate IsA(ln: Line) { ln == "- id: a" }

  /** A proof of a version, and of a Python. */
  function Proven(version: string, python: string): Proof { Proof("2026-10-07", version, python, "", "", "") }

  lemma IdLine()
    ensures ShapeOf(ID) == Entry && IsA(Bare(ID)) && IsLine(ID) && Ends(ID) && !EndsInReturn(ID) && ValueAt(ID).None?
  {
    assert ID == "- id: a" + "\n" && ID[..7] == "- id: a";
    assert Bare("- id: a") == "- id: a";
    assert Starts(Bare(ID), ENTRY);
    EntryShape(ID);
    TextIsLine("- id: a");
    SkipSpaceIs(ID, 0, 0);
  }

  lemma KeyedLine()
    ensures ShapeOf(KEY) == BlockKey && IsLine(KEY) && Ends(KEY) && !EndsInReturn(KEY)
  {
    assert KEY == BLOCK + "\n";
    assert KEY[..|BLOCK|] == BLOCK && !HasBreak(BLOCK);
    hide BLOCK, KEY;
    KeyShape(KEY, BLOCK, BlockKey);
    TextIsLine(BLOCK);
  }

  lemma DatedLine()
    ensures ShapeOf(DATED) == Validated && IsLine(DATED) && Ends(DATED) && !EndsInReturn(DATED)
  {
    assert DATED == VALIDATED + "\n";
    assert DATED[..|VALIDATED|] == VALIDATED && !HasBreak(VALIDATED);
    hide VALIDATED, DATED;
    KeyShape(DATED, VALIDATED, Validated);
    TextIsLine(VALIDATED);
  }

  lemma NoteLine()
    ensures ShapeOf(NOTE) == Deep && IsLine(NOTE) && Ends(NOTE) && !EndsInReturn(NOTE)
  {
    assert NOTE == DEPTH + ("note" + "\n") && NOTE == "    note" + "\n";
    DeepShape("note\n");
    TextIsLine("    note");
  }

  const BEFORE := "  verified_with: "

  lemma ValueHead()
    ensures SeedLines.KeyLine(BEFORE, 2, |BEFORE|)
  {
    assert BEFORE[2..16] == VERIFIED_WITH;
  }

  lemma ValueLine()
    ensures ShapeOf(VALUE) in {Deep, Plain} && ValueAt(VALUE) == Some(Span(17, 18))
  {
    hide SkipSpace, Starts, SkipPlain, ShapeOf, SeedLines.KeyLine;
    ValueHead();
    assert VALUE == BEFORE + "3\n" && VALUE[17] == '3' && VALUE[18] == '\n';
    ReadsKey(BEFORE, 2, "3\n");
    SkipPlainIs(VALUE, 17, 18);
    SameKey(VALUE, BEFORE, 2);
    KeyLineShape(VALUE, 2, 17);
  }

  lemma ValueIsLine()
    ensures IsLine(VALUE) && Ends(VALUE) && !EndsInReturn(VALUE)
  {
    TextIsLine("  verified_with: 3");
    assert VALUE == "  verified_with: 3" + "\n";
  }

  // ---- the five ways ----

  /** Recording the proof twice in a file of these lines is not recording it once. */
  ghost predicate Fails(p: Proof, lines: seq<Line>) {
    var once := EditText(IsA, p, Join(lines));
    once.Success? && EditText(IsA, p, once.value) != once
  }

  /** A file that is one entry: where its date is, when it has a block and when it has none. */
  lemma OneEntry(lines: seq<Line>)
    requires AreLines(lines) && lines != [] && lines[0] == ID && NoneOf(lines[1..], Entry)
    ensures Split(IsA, lines) == File([], WithoutBlock(lines), FirstOf(WithoutBlock(lines), Validated, 0), [])
    ensures FirstId(IsA, lines, 0) == 0 && FirstOf(lines, Entry, 1) == |lines|
  {
    hide ID, VALUE, KEY, DATED, NOTE, ShapeOf, WithoutBlock, AreLines, Bare;
    IdLine();
    FirstIdIs(IsA, lines, 0, 0);
    assert forall x :: 1 <= x < |lines| ==> lines[x] == lines[1..][x - 1];
    FirstIs(lines, Entry, 1, |lines|);
    assert lines[0..|lines|] == lines && lines[..0] == [] && lines[|lines|..] == [];
  }

  /** An entry with a date is edited. */
  lemma Succeeds(p: Proof, lines: seq<Line>)
    requires AreLines(lines) && Settled(lines) && lines != [] && lines[0] == ID && NoneOf(lines[1..], Entry)
    requires p.endpoint != "" ==> Parts(p.endpoint).Some?
    requires var f := Split(IsA, lines); f.date < |f.kept|
    ensures Lines(Join(lines)) == lines && EditText(IsA, p, Join(lines)).Success?
  {
    hide ID, VALUE, KEY, DATED, NOTE, ShapeOf, WithoutBlock, AreLines, Settled, Lines, Join, Parts, FirstOf, FirstId,
      NewBlock, DateLine;
    LinesOfJoin(lines);
    GlueSettled(lines);
    OneEntry(lines);
    FirstRewritten(Written(p), WithoutBlock(lines), Validated);
    assert lines[0..|lines|] == lines;
  }

  /** An entry that does not meet the condition is one that fails. */
  lemma NotRepeated(p: Proof, lines: seq<Line>)
    requires AreLines(lines) && Settled(lines) && lines != [] && lines[0] == ID && NoneOf(lines[1..], Entry)
    requires p.endpoint != "" ==> Parts(p.endpoint).Some?
    requires var f := Split(IsA, lines); f.date < |f.kept| && Fits(Written(p), f.kept) && !Repeats(p, f)
    ensures Fails(p, lines)
  {
    hide AreLines, Settled, Lines, Join, Repeats, Parts, Fits, EditText, Split;
    Succeeds(p, lines);
    IdStarts();
    TwiceIsOnce(IsA, p, Join(lines));
  }

  lemma IdStarts()
    ensures forall s :: IsA(s) ==> Starts(s, ENTRY)
  {
    assert "- id: a"[..2] == ENTRY;
  }

  lemma FirstKeyCut()
    ensures WithoutBlock([ID, KEY, KEY, DATED]) == [ID, KEY, DATED]
  {
    hide ID, VALUE, KEY, DATED, NOTE, ShapeOf, FirstOf;
    var lines := [ID, KEY, KEY, DATED];
    IdLine();
    KeyedLine();
    FirstIs(lines, BlockKey, 0, 1);
    assert BlockEnd(lines, 2, 2) == 2;
    assert lines[..1] == [ID] && lines[2..] == [KEY, DATED];
  }

  /** A second block before the date: each edit takes one of them. */
  lemma TwoBlocks()
    ensures Fails(Proven("", ""), [ID, KEY, KEY, DATED])
  {
    hide ID, VALUE, KEY, DATED, NOTE, ShapeOf, AreLines, Settled, NothingDeepNext, ReadsBackWhole, HasValue,
      WithoutBlock, FirstOf, NewBlock, Fails;
    var lines, kept := [ID, KEY, KEY, DATED], [ID, KEY, DATED];
    Lined(lines);
    IdLine();
    KeyedLine();
    DatedLine();
    FirstKeyCut();
    FirstIs(kept, Validated, 0, 2);
    FirstIs(kept, BlockKey, 0, 1);
    OneEntry(lines);
    NotRepeated(Proven("", ""), lines);
  }

  /** The lines of these cases are lines of a text. */
  lemma Lined(lines: seq<Line>)
    requires forall x :: 0 <= x < |lines| ==> lines[x] in {ID, VALUE, KEY, DATED, NOTE}
    ensures AreLines(lines) && Settled(lines)
  {
    hide IsLine, Ends, EndsInReturn, ID, VALUE, KEY, DATED, NOTE;
    IdLine();
    ValueIsLine();
    KeyedLine();
    DatedLine();
    NoteLine();
    assert forall x :: 0 <= x < |lines| ==> !EndsInReturn(lines[x]);
  }

  lemma NoteIsDeep()
    ensures !NothingDeepNext([NOTE])
  {
    hide ShapeOf, NOTE;
    NoteLine();
    assert Shapes([NOTE]) == [Deep] + Shapes([NOTE][1..]);
  }

  lemma NoteAfterDate()
    ensures Split(IsA, [ID, DATED, NOTE]) == File([], [ID, DATED, NOTE], 1, [])
    ensures NoneOf([ID, DATED, NOTE][1..], Entry)
  {
    hide ID, DATED, NOTE, ShapeOf, AreLines, Settled, Split;
    Lined([ID, DATED, NOTE]);
    IdLine();
    DatedLine();
    NoteLine();
    NoBlock([ID, DATED, NOTE], 1);
  }

  /** A line of a block's depth after the date: the second edit takes it with the block. */
  lemma DeepAfterDate()
    ensures Fails(Proven("", ""), [ID, DATED, NOTE])
  {
    hide ID, DATED, NOTE, ShapeOf, AreLines, Settled, ReadsBackWhole, HasValue, NothingDeepNext, Precedes, NoneOf,
      Split, Fails;
    var lines := [ID, DATED, NOTE];
    Lined(lines);
    NoteAfterDate();
    NoteIsDeep();
    assert lines[2..] == [NOTE];
    NotRepeated(Proven("", ""), lines);
  }

  lemma NoBlock(lines: seq<Line>, d: nat)
    requires AreLines(lines) && lines != [] && lines[0] == ID && NoneOf(lines[1..], Entry) && NoneOf(lines, BlockKey)
    requires d < |lines| && ShapeOf(lines[d]) == Validated && NoneOf(lines[..d], Validated)
    ensures Split(IsA, lines) == File([], lines, d, [])
  {
    hide ID, VALUE, KEY, DATED, NOTE, ShapeOf, AreLines;
    FirstIs(lines, BlockKey, 0, |lines|);
    assert forall x :: 0 <= x < d ==> lines[..d][x] == lines[x];
    FirstIs(lines, Validated, 0, d);
    OneEntry(lines);
  }

  lemma WithValue()
    ensures Split(IsA, [ID, VALUE, DATED]) == File([], [ID, VALUE, DATED], 2, []) && HasValue([ID, VALUE, DATED])
    ensures AreLines([ID, VALUE, DATED]) && Settled([ID, VALUE, DATED]) && NoneOf([ID, VALUE, DATED][1..], Entry)
  {
    hide ID, VALUE, KEY, DATED, NOTE, ShapeOf, AreLines, Settled, ValueAt;
    var lines := [ID, VALUE, DATED];
    Lined(lines);
    IdLine();
    DatedLine();
    ValueLine();
    NoBlock(lines, 2);
    assert lines[1] == VALUE;
  }

  /** A version with a space in it: its second half is left behind, and a second one is written before it. */
  lemma SpacedVersion()
    ensures Fails(Proven("4 x", ""), [ID, VALUE, DATED])
  {
    hide AreLines, Settled, HasValue, Split, ReadsBackWhole, NothingDeepNext;
    WithValue();
    PlainTemplate("4 x");
    var parts := Literal("4 x");
    assert parts == [Lit('4'), Lit(' '), Lit('x')];
    assert PlainHead(parts) == 1;
    NotRepeated(Proven("4 x", ""), [ID, VALUE, DATED]);
  }

  lemma ReferenceParts()
    ensures Parts("4\\1") == Some([Lit('4'), Key])
  {
    var ver, tail := "4\\1", "\\1";
    assert EscapeAt(tail) == Some(Escape([Key], 2));
    assert tail[2..] == "" && [Key] + [] == [Key];
    assert Parts(tail) == Some([Key]);
    assert ver[1..] == tail && [Lit('4')] + [Key] == [Lit('4'), Key];
  }

  /** A version with a group reference in it: what comes before the value is written into it. */
  lemma ReferenceInVersion()
    ensures Fails(Proven("4\\1", ""), [ID, VALUE, DATED])
  {
    hide AreLines, Settled, HasValue, Split, ReadsBackWhole, NothingDeepNext, Parts;
    WithValue();
    ReferenceParts();
    assert PlainHead([Lit('4'), Key]) == 1;
    NotRepeated(Proven("4\\1", ""), [ID, VALUE, DATED]);
  }

  /** A value with a break in it: what follows the break is left behind. */
  lemma BreakInValue()
    ensures Fails(Proven("", "3\n2"), [ID, DATED])
  {
    hide ID, VALUE, KEY, DATED, NOTE, ShapeOf, AreLines, Settled, HasValue, NothingDeepNext, ReadsBackWhole;
    var lines := [ID, DATED];
    Lined(lines);
    IdLine();
    DatedLine();
    NoBlock(lines, 1);
    BrokenBlock();
    NotRepeated(Proven("", "3\n2"), lines);
  }

  const PYTHON := "    python_version: \"3"

  lemma PythonLine()
    ensures IsDeepLine(PYTHON + "\n")
  {
    hide IsDeepLine;
    var text := "python_version: \"3";
    assert !HasBreak(text);
    DeepLine(text);
    assert DEPTH + text + "\n" == PYTHON + "\n";
  }

  lemma BrokenBlock()
    ensures !ReadsBackWhole(Proven("", "3\n2"))
  {
    hide ShapeOf, IsLine, Ends, EndsInReturn, HEADER, Lines, Join;
    var p := Proven("", "3\n2");
    var dated, rest := DEPTH + "verified_on: " + p.on + "\n", "2\"\n";
    BrokenLines(p);
    var lines := [HEADER, dated, PYTHON + "\n", rest];
    RestLine();
    HeaderIsLine();
    DateDeep(p);
    PythonLine();
    LinesOfJoin(lines);
    GlueSettled(lines);
    assert BlockEnd(lines, 3, 3) == 3;
  }

  lemma RestLine()
    ensures ShapeOf("2\"\n") == Plain && IsLine("2\"\n")
  {
    var ln := "2\"\n";
    TextIsLine("2\"");
    assert ln == "2\"" + "\n";
    SkipSpaceIs(ln, 0, 0);
    StartsAt(ln, DEPTH, 0);
    StartsAt(ln, ENTRY, 0);
    StartsAt(ln, BLOCK, 0);
    StartsAt(ln, VALIDATED, 0);
  }

  lemma BrokenLines(p: Proof)
    requires p == Proven("", "3\n2")
    ensures Join(NewBlock(p)) == Join([HEADER, DEPTH + "verified_on: " + p.on + "\n", PYTHON + "\n", "2\"\n"])
  {
    hide HEADER, Join;
    var dated := DEPTH + "verified_on: " + p.on + "\n";
    var long := PYTHON + "\n" + "2\"\n";
    assert DEPTH + "python_version" + ": \"" + "3\n2" + "\"\n" == long;
    assert NewBlock(p) == [HEADER, dated] + [long];
    JoinConcat([HEADER, dated], [long]);
    JoinConcat([HEADER, dated], [PYTHON + "\n", "2\"\n"]);
    assert [HEADER, dated] + [PYTHON + "\n", "2\"\n"] == [HEADER, dated, PYTHON + "\n", "2\"\n"];
    JoinOne(long);
    JoinHead(PYTHON + "\n", ["2\"\n"]);
    JoinOne("2\"\n");
    assert [PYTHON + "\n"] + ["2\"\n"] == [PYTHON + "\n", "2\"\n"];
  }

  // ---- a version that breaks a line it is written into ----

  const SPLIT_HEAD := "  verified_with: \"4\n"
  const SPLIT_TAIL := "- x\"\n"

  lemma SplitHeadLine()
    ensures ShapeOf(SPLIT_HEAD) in {Deep, Plain} && IsLine(SPLIT_HEAD) && Ends(SPLIT_HEAD)
  {
    hide SkipSpace, Starts, ShapeOf, SeedLines.KeyLine;
    ValueHead();
    assert SPLIT_HEAD == BEFORE + "\"4" + "\n" && SPLIT_HEAD == BEFORE + "\"4\n";
    ReadsKey(BEFORE, 2, "\"4\n");
    SameKey(SPLIT_HEAD, BEFORE, 2);
    KeyLineShape(SPLIT_HEAD, 2, 17);
    assert !HasBreak(BEFORE + "\"4");
    TextIsLine(BEFORE + "\"4");
  }

  /** The second edit of a file whose first lines are these finds an entry without a date. */
  lemma NoDateLeft(p: Proof, more: string)
    requires p.endpoint == "4\n- x"
    ensures EditText(IsA, p, Join([ID, SPLIT_HEAD]) + (SPLIT_TAIL + more)) == Failure(NoDate)
  {
    hide ShapeOf, Lines, Join, Bare, IsLine, Ends, EditBody;
    var head := [ID, SPLIT_HEAD];
    IdLine();
    SplitHeadLine();
    assert !EndsInReturn(SPLIT_HEAD);
    assert IsLine(head[0]) && IsLine(head[1]) && Ends(head[0]);
    assert AreLines(head);
    LinesThrough(head, SPLIT_TAIL + more);
    GlueSettled(head);
    SplitTailLine();
    LinesOver(SPLIT_TAIL, more);
    var lines := Lines(Join(head) + (SPLIT_TAIL + more));
    assert lines == head + ([SPLIT_TAIL] + Lines(more));
    FirstIdIs(IsA, lines, 0, 0);
    FirstIs(lines, Entry, 1, 2);
    assert lines[0..2] == head;
    NoDateIn(p, head);
    PlainTemplate(p.endpoint);
  }

  lemma SplitTailLine()
    ensures ShapeOf(SPLIT_TAIL) == Entry && IsLine(SPLIT_TAIL) && Ends(SPLIT_TAIL) && !EndsInReturn(SPLIT_TAIL)
  {
    assert SPLIT_TAIL == "- x\"" + "\n" && SPLIT_TAIL[..2] == ENTRY;
    TextIsLine("- x\"");
    SkipSpaceIs(SPLIT_TAIL, 0, 0);
    StartsAt(SPLIT_TAIL, DEPTH, 0);
  }

  lemma NoDateIn(p: Proof, head: seq<Line>)
    requires head == [ID, SPLIT_HEAD]
    ensures EditBody(p, head).None?
  {
    hide ShapeOf;
    IdLine();
    SplitHeadLine();
    FirstIs(head, BlockKey, 0, 2);
    FirstRewritten(Written(p), head, Validated);
    FirstIs(head, Validated, 0, 2);
  }

  lemma SplitValue(w: seq<Part>)
    requires w == Literal("4\n- x")
    ensures Substituted(w, VALUE) == SPLIT_HEAD + SPLIT_TAIL
  {
    hide ValueAt;
    ValueLine();
    ExpandsLiteral("4\n- x", VALUE[..17], VALUE[..18]);
    assert VALUE[..17] == BEFORE && VALUE[18..] == "\n";
  }

  lemma FirstText(p: Proof) returns (more: string)
    requires p == Proven("4\n- x", "")
    ensures EditText(IsA, p, Join([ID, VALUE, DATED])) == Success(Join([ID, SPLIT_HEAD]) + (SPLIT_TAIL + more))
  {
    hide SPLIT_HEAD, SPLIT_TAIL, ID, VALUE, KEY, DATED, NOTE, ShapeOf, Lines, Join, AreLines, Settled, Bare,
      NewBlock, DateLine, HasValue, NoneOf, WithoutBlock, FirstOf, FirstId, Rewritten, Parts, Substituted;
    var lines, w := [ID, VALUE, DATED], Written(p);
    WithValue();
    PlainTemplate(p.endpoint);
    LinesOfJoin(lines);
    GlueSettled(lines);
    OneEntry(lines);
    DatedLine();
    FirstRewritten(w, lines, Validated);
    NoBlockCut();
    assert lines[0..|lines|] == lines;
    EditIs(IsA, p, lines);
    IdLine();
    HeadStays(w, ID);
    SplitValue(w.value);
    var two := [ID, VALUE];
    assert lines[..2] == two && lines[3..] == [];
    RewrittenHead(w, two);
    assert two[1..] == [VALUE];
    RewrittenHead(w, [VALUE]);
    assert [VALUE][1..] == [];
    NothingToWrite(w);
    var tail := [DateLine(p)] + NewBlock(p);
    more := Join(tail);
    assert Edit(IsA, p, lines).value == [ID, SPLIT_HEAD + SPLIT_TAIL] + tail;
    SplitJoined(tail);
  }

  lemma NoBlockCut()
    ensures WithoutBlock([ID, VALUE, DATED]) == [ID, VALUE, DATED]
  {
    hide ID, VALUE, KEY, DATED, NOTE, ShapeOf, BlockEnd;
    IdLine();
    ValueLine();
    DatedLine();
    FirstIs([ID, VALUE, DATED], BlockKey, 0, 3);
  }

  lemma SplitJoined(tail: seq<Line>)
    ensures Join([ID, SPLIT_HEAD + SPLIT_TAIL] + tail) == Join([ID, SPLIT_HEAD]) + (SPLIT_TAIL + Join(tail))
  {
    hide Join, SPLIT_HEAD, SPLIT_TAIL, ID;
    JoinConcat([ID, SPLIT_HEAD + SPLIT_TAIL], tail);
    JoinHead(ID, [SPLIT_HEAD + SPLIT_TAIL]);
    JoinHead(ID, [SPLIT_HEAD]);
    JoinOne(SPLIT_HEAD + SPLIT_TAIL);
    JoinOne(SPLIT_HEAD);
    assert [ID] + [SPLIT_HEAD + SPLIT_TAIL] == [ID, SPLIT_HEAD + SPLIT_TAIL] && [ID] + [SPLIT_HEAD] == [ID, SPLIT_HEAD];
  }

  /** A version with a break in it, written over a value: the second edit can find another entry begun in it. */
  lemma BreakInVersion()
    ensures Fails(Proven("4\n- x", ""), [ID, VALUE, DATED]) && !Fits(Written(Proven("4\n- x", "")), [ID, VALUE, DATED])
  {
    hide AreLines, Settled, HasValue, Split, Join, EditText, Parts, NoneOf;
    var p := Proven("4\n- x", "");
    WithValue();
    PlainTemplate(p.endpoint);
    assert Literal(p.endpoint)[1] == Lit('\n');
    var more := FirstText(p);
    NoDateLeft(p, more);
  }

  // ---- a version that breaks a line, and does no harm ----

  const MARKED := "#\n    x"
  const MARK_HEAD := "  verified_with: \"#\n"
  const MARK_TAIL := "    x\"\n"
  const ENDPOINT := "    endpoint_version: \"#"

  lemma MarkHeadLine()
    ensures ShapeOf(MARK_HEAD) in {Deep, Plain} && ValueAt(MARK_HEAD).None?
    ensures IsLine(MARK_HEAD) && Ends(MARK_HEAD) && !EndsInReturn(MARK_HEAD)
  {
    hide SkipSpace, Starts, ShapeOf, SeedLines.KeyLine;
    ValueHead();
    assert MARK_HEAD == BEFORE + "\"#" + "\n" && MARK_HEAD == BEFORE + "\"#\n";
    ReadsKey(BEFORE, 2, "\"#\n");
    SameKey(MARK_HEAD, BEFORE, 2);
    KeyLineShape(MARK_HEAD, 2, 17);
    assert MARK_HEAD[17] == '"' && MARK_HEAD[18] == '#';
    SkipPlainIs(MARK_HEAD, 18, 18);
    assert !HasBreak(BEFORE + "\"#");
    TextIsLine(BEFORE + "\"#");
  }

  lemma MarkTailLine()
    ensures ShapeOf(MARK_TAIL) == Deep && ValueAt(MARK_TAIL).None?
    ensures IsLine(MARK_TAIL) && Ends(MARK_TAIL) && !EndsInReturn(MARK_TAIL)
  {
    assert MARK_TAIL == DEPTH + "x\"\n" && MARK_TAIL == "    x\"" + "\n";
    DeepShape("x\"\n");
    TextIsLine("    x\"");
    SkipSpaceIs(MARK_TAIL, 0, 4);
    assert MARK_TAIL[4] == 'x' && VERIFIED_WITH[0] == 'v';
    StartsAt(MARK_TAIL[4..], VERIFIED_WITH, 0);
  }

  lemma MarkedValue(w: seq<Part>)
    requires w == Literal(MARKED)
    ensures Substituted(w, VALUE) == MARK_HEAD + MARK_TAIL
  {
    hide ValueAt;
    ValueLine();
    ExpandsLiteral(MARKED, VALUE[..17], VALUE[..18]);
    assert VALUE[..17] == BEFORE && VALUE[18..] == "\n";
  }

  lemma EndpointLine()
    ensures IsDeepLine(ENDPOINT + "\n")
  {
    hide IsDeepLine;
    var text := "endpoint_version: \"#";
    assert !HasBreak(text);
    DeepLine(text);
    assert DEPTH + text + "\n" == ENDPOINT + "\n";
  }

  lemma MarkedText()
    ensures DEPTH + "endpoint_version" + ": \"" + MARKED + "\"\n" == ENDPOINT + "\n" + MARK_TAIL
  {
  }

  lemma MarkedKeys(p: Proof)
    requires p == Proven(MARKED, "")
    ensures NewBlock(p) == [HEADER, DEPTH + "verified_on: " + p.on + "\n"]
      + [DEPTH + "endpoint_version" + ": \"" + MARKED + "\"\n"]
  {
    hide HEADER;
    assert MARKED != "";
    hide MARKED;
  }

  lemma MarkedLines(p: Proof)
    requires p == Proven(MARKED, "")
    ensures Join(NewBlock(p)) == Join([HEADER, DEPTH + "verified_on: " + p.on + "\n", ENDPOINT + "\n", MARK_TAIL])
  {
    hide HEADER, Join, MARKED, MARK_TAIL, ENDPOINT, DEPTH, NewBlock;
    var dated := DEPTH + "verified_on: " + p.on + "\n";
    var long := ENDPOINT + "\n" + MARK_TAIL;
    MarkedText();
    MarkedKeys(p);
    JoinConcat([HEADER, dated], [long]);
    JoinConcat([HEADER, dated], [ENDPOINT + "\n", MARK_TAIL]);
    assert [HEADER, dated] + [ENDPOINT + "\n", MARK_TAIL] == [HEADER, dated, ENDPOINT + "\n", MARK_TAIL];
    JoinOne(long);
    JoinHead(ENDPOINT + "\n", [MARK_TAIL]);
    JoinOne(MARK_TAIL);
    assert [ENDPOINT + "\n"] + [MARK_TAIL] == [ENDPOINT + "\n", MARK_TAIL];
  }

  lemma MarkedBlock()
    ensures ReadsBackWhole(Proven(MARKED, ""))
  {
    hide ShapeOf, IsLine, Ends, EndsInReturn, HEADER, Lines, Join, ENDPOINT, MARK_TAIL, MARKED;
    var p := Proven(MARKED, "");
    var lines := [HEADER, DEPTH + "verified_on: " + p.on + "\n", ENDPOINT + "\n", MARK_TAIL];
    MarkedLines(p);
    HeaderIsLine();
    DateDeep(p);
    EndpointLine();
    MarkTailLine();
    LinesOfJoin(lines);
    GlueSettled(lines);
    BlockEndOverDeep(lines, 1);
  }

  /** The entry's lines before the date, read back: the value's line is two. */
  lemma MarkedBefore(w: Option<seq<Part>>)
    requires w == Some(Literal(MARKED))
    ensures Lines(Join(Rewritten(w, [ID, VALUE]))) == [ID, MARK_HEAD, MARK_TAIL]
  {
    hide ID, VALUE, MARK_HEAD, MARK_TAIL, MARKED, ShapeOf, Lines, Join, IsLine, Ends, EndsInReturn, Rewritten,
      Substituted;
    IdLine();
    HeadStays(w, ID);
    MarkedValue(w.value);
    RewrittenHead(w, [ID, VALUE]);
    assert [ID, VALUE][1..] == [VALUE] && [VALUE][1..] == [];
    RewrittenHead(w, [VALUE]);
    NothingToWrite(w);
    var long, lines := MARK_HEAD + MARK_TAIL, [ID, MARK_HEAD, MARK_TAIL];
    assert Rewritten(w, [ID, VALUE]) == [ID] + [long];
    JoinHead(ID, [long]);
    JoinOne(long);
    JoinHead(ID, [MARK_HEAD, MARK_TAIL]);
    JoinHead(MARK_HEAD, [MARK_TAIL]);
    JoinOne(MARK_TAIL);
    assert [MARK_HEAD] + [MARK_TAIL] == [MARK_HEAD, MARK_TAIL] && [ID] + [MARK_HEAD, MARK_TAIL] == lines;
    MarkHeadLine();
    MarkTailLine();
    LinesOfJoin(lines);
    GlueSettled(lines);
  }

  lemma MarkedReads(p: Proof)
    requires p == Proven(MARKED, "") && Written(p) == Some(Literal(MARKED))
    ensures ReadsClean(p, ReadOf(p, File([], [ID, VALUE, DATED], 2, [])))
    ensures ReadsAgain(p, ReadOf(p, File([], [ID, VALUE, DATED], 2, [])))
  {
    hide ID, VALUE, DATED, MARK_HEAD, MARK_TAIL, MARKED, ShapeOf, Lines, Join, Rewritten, ReadsBackWhole, ValueAt,
      NewBlock;
    var f := File([], [ID, VALUE, DATED], 2, []);
    var o, w := ReadOf(p, f), Written(p);
    assert f.kept[..2] == [ID, VALUE] && f.kept[3..] == [];
    MarkedBefore(w);
    NothingToWrite(w);
    NoLines();
    assert o.before == [ID, MARK_HEAD, MARK_TAIL] && o.after == [];
    IdLine();
    MarkHeadLine();
    MarkTailLine();
    NothingWritten(w, o.before);
    MarkedBlock();
  }

  /** A version with a break in it whose head is no value: recorded twice it is recorded once. */
  lemma BreakInVersionRepeats()
    ensures !Fits(Written(Proven(MARKED, "")), [ID, VALUE, DATED])
    ensures var once := EditText(IsA, Proven(MARKED, ""), Join([ID, VALUE, DATED]));
      once.Success? && EditText(IsA, Proven(MARKED, ""), once.value) == once
  {
    hide AreLines, Settled, Split, Lines, Join, EditText, Parts, NoneOf, ReadsClean, ReadsAgain, ReadOf, HasValue,
      MARKED;
    var p, lines := Proven(MARKED, ""), [ID, VALUE, DATED];
    WithValue();
    MarkedIsLiteral();
    LinesOfJoin(lines);
    GlueSettled(lines);
    IdStarts();
    Succeeds(p, lines);
    BrokenTwiceIsOnce(IsA, p, Join(lines));
    MarkedReads(p);
  }

  lemma MarkedIsLiteral()
    ensures MARKED != "" && Parts(MARKED) == Some(Literal(MARKED)) && BreaksLines(Literal(MARKED))
  {
    PlainTemplate(MARKED);
    assert Literal(MARKED)[1] == Lit('\n');
  }
}
