/** The edited entry as a reader of the seed file takes it: the keys of its lines and their values. */
module SeedReading {
  import opened Common
  import opened TextLines
  import opened Template
  import opened SeedLines
  import opened SeedEdit
  import opened SeedAgain
  import opened SeedTwice

  // ---- a line as a key and a value ----

  datatype Field = Field(key: string, value: string)

  /** The first colon from `i` on, or the end. */
  function Colon(ln: Line, i: nat): (k: nat)
    requires i <= |ln|
    ensures i <= k <= |ln|
    decreases |ln| - i
  {
    if i == |ln| || ln[i] == ':' then i else Colon(ln, i + 1)
  }

  /** Without the quotes about it. */
  function Unquoted(s: string): string {
    if |s| >= 2 && s[0] == '"' && s[|s| - 1] == '"' then s[1..|s| - 1] else s
  }

  /** An indented key up to its colon, a blank, and a value up to the newline, quoted or not. */
  function ReadField(ln: Line): Option<Field> {
    var i := SkipSpace(ln, 0);
    var k := Colon(ln, i);
    if k + 3 > |ln| || ln[k + 1] != ' ' || ln[|ln| - 1] != '\n' then None
    else Some(Field(ln[i..k], Unquoted(ln[k + 2..|ln| - 1])))
  }

  /** The fields of the lines that are read as one. */
  function Fields(ls: seq<Line>): seq<Field> {
    if ls == [] then []
    else (if ReadField(ls[0]).Some? then [ReadField(ls[0]).value] else []) + Fields(ls[1..])
  }

  /** A field, if there is anything to say. */
  function IfAny(key: string, value: string): seq<Field> { if value == "" then [] else [Field(key, value)] }

  /** What a block is to say: the date, and every value there is. */
  function Recorded(p: Proof): seq<Field> {
    [Field("verified_on", p.on)] + IfAny("endpoint_version", p.endpoint) + IfAny("python_version", p.python)
    + IfAny("template_sha256", p.template) + IfAny("config_sha256", p.config) + IfAny("worker", p.worker)
  }

  // ---- lines of the block ----

  ghost predicate IsName(key: string) { key != "" && !IsSpace(key[0]) && forall x :: 0 <= x < |key| ==> key[x] != ':' }

  lemma {:induction false} ColonIs(ln: Line, i: nat, k: nat)
    requires i <= k < |ln| && ln[k] == ':' && forall x :: i <= x < k ==> ln[x] != ':'
    ensures Colon(ln, i) == k
    decreases k - i
  {
    if i < k {
      ColonIs(ln, i + 1, k);
    }
  }

  /** A key at a depth and what follows its colon are read as they are. */
  lemma ReadsField(depth: string, key: string, value: string)
    requires IsName(key) && forall x :: 0 <= x < |depth| ==> IsSpace(depth[x])
    ensures ReadField(depth + key + ": " + value + "\n") == Some(Field(key, Unquoted(value)))
  {
    hide IsSpace, Unquoted;
    var ln, i, k := depth + key + ": " + value + "\n", |depth|, |depth| + |key|;
    assert forall x :: 0 <= x < i ==> ln[x] == depth[x];
    assert forall x :: i <= x < k ==> ln[x] == key[x - i];
    assert ln[i] == key[0];
    SkipSpaceIs(ln, 0, i);
    ColonIs(ln, i, k);
    assert ln[i..k] == key && ln[k + 2..|ln| - 1] == value;
  }

  lemma DepthIsSpace()
    ensures forall x :: 0 <= x < |DEPTH| ==> IsSpace(DEPTH[x])
    ensures forall x :: 0 <= x < |"  "| ==> IsSpace("  "[x])
  {
  }

  lemma UnquotedValue(value: string)
    ensures Unquoted("\"" + value + "\"") == value
  {
  }

  lemma ReadsKeyLines(key: string, value: string)
    requires IsName(key)
    ensures Fields(KeyLines(key, value)) == if value == "" then [] else [Field(key, value)]
  {
    hide ReadField, Unquoted, DEPTH, IsName;
    if value != "" {
      DepthIsSpace();
      ReadsField(DEPTH, key, "\"" + value + "\"");
      UnquotedValue(value);
      var ln := KeyLines(key, value)[0];
      assert ln == DEPTH + key + ": " + ("\"" + value + "\"") + "\n";
      OneField(ln);
    }
  }

  lemma OneField(ln: Line)
    ensures Fields([ln]) == if ReadField(ln).Some? then [ReadField(ln).value] else []
  {
    hide ReadField;
    assert [ln][1..] == [];
  }

  lemma {:induction false} FieldsConcat(a: seq<Line>, b: seq<Line>)
    ensures Fields(a + b) == Fields(a) + Fields(b)
  {
    hide ReadField;
    if a == [] {
      assert a + b == b;
    } else {
      var head := if ReadField(a[0]).Some? then [ReadField(a[0]).value] else [];
      assert (a + b)[0] == a[0] && (a + b)[1..] == a[1..] + b;
      FieldsConcat(a[1..], b);
      assert Fields(a + b) == head + (Fields(a[1..]) + Fields(b));
    }
  }

  lemma NamesAreNames()
    ensures IsName("endpoint_version") && IsName("python_version")
    ensures IsName("template_sha256") && IsName("config_sha256")
    ensures IsName("worker") && IsName("verified_on") && IsName("last_validated")
  {
  }

  lemma DateIsNoText(p: Proof)
    ensures Unquoted(p.on) == p.on
  {
    assert IsDateChar(p.on[0]);
  }

  lemma HeaderStarts()
    ensures Starts(HEADER, "  verification:")
  {
    assert HEADER == "  verification:" + (MARGIN + WRITER + REASON + "\n");
  }

  /** The block reads back: its first line is its key, and the others are the date and the values there are, each
      once and in the source's order. */
  lemma BlockReads(p: Proof)
    ensures NewBlock(p) != [] && ShapeOf(NewBlock(p)[0]) == BlockKey && Starts(NewBlock(p)[0], "  verification:")
    ensures Fields(NewBlock(p)[1..]) == Recorded(p) && |NewBlock(p)| == 1 + |Recorded(p)|
  {
    hide ReadField, Unquoted, DEPTH, KeyLines, HEADER, ShapeOf, IsName, Fields, Starts;
    HeaderShape();
    HeaderStarts();
    NamesAreNames();
    DateIsNoText(p);
    DepthIsSpace();
    ReadsField(DEPTH, "verified_on", p.on);
    var on := DEPTH + "verified_on" + ": " + p.on + "\n";
    assert on == DEPTH + "verified_on: " + p.on + "\n";
    OneField(on);
    ReadsKeyLines("endpoint_version", p.endpoint);
    ReadsKeyLines("python_version", p.python);
    ReadsKeyLines("template_sha256", p.template);
    ReadsKeyLines("config_sha256", p.config);
    ReadsKeyLines("worker", p.worker);
    var e, y, t, c, w := KeyLines("endpoint_version", p.endpoint), KeyLines("python_version", p.python),
      KeyLines("template_sha256", p.template), KeyLines("config_sha256", p.config), KeyLines("worker", p.worker);
    FieldsConcat([on] + e + y + t + c, w);
    FieldsConcat([on] + e + y + t, c);
    FieldsConcat([on] + e + y, t);
    FieldsConcat([on] + e, y);
    FieldsConcat([on], e);
    assert NewBlock(p)[1..] == [on] + e + y + t + c + w;
    KeyLinesCount("endpoint_version", p.endpoint);
    KeyLinesCount("python_version", p.python);
    KeyLinesCount("template_sha256", p.template);
    KeyLinesCount("config_sha256", p.config);
    KeyLinesCount("worker", p.worker);
  }

  lemma KeyLinesCount(key: string, value: string)
    ensures |KeyLines(key, value)| == |IfAny(key, value)|
  {
  }

  lemma DateReads(p: Proof)
    ensures ReadField(DateLine(p)) == Some(Field("last_validated", p.on))
  {
    hide ReadField, Unquoted;
    NamesAreNames();
    DateIsNoText(p);
    DepthIsSpace();
    ReadsField("  ", "last_validated", p.on);
    assert "  " + "last_validated" + ": " + p.on + "\n" == DateLine(p);
  }

  /** No key is said twice. */
  lemma RecordedOnce(p: Proof, x: nat, y: nat)
    requires x < y < |Recorded(p)|
    ensures Recorded(p)[x].key != Recorded(p)[y].key
  {
  }

  // ---- the edited entry ----

  /** At `d` the date, and after it the block with what is recorded, up to `e`. */
  ghost predicate SaysAt(p: Proof, ls: seq<Line>, d: nat, e: nat) {
    && d + 1 < e <= |ls| && ReadField(ls[d]) == Some(Field("last_validated", p.on))
    && ShapeOf(ls[d + 1]) == BlockKey && Starts(ls[d + 1], "  verification:") && Fields(ls[d + 2..e]) == Recorded(p)
  }

  lemma SaysAround(p: Proof, before: seq<Line>, after: seq<Line>)
    ensures SaysAt(p, before + ([DateLine(p)] + NewBlock(p) + after), |before|, |before| + 1 + |NewBlock(p)|)
  {
    hide ReadField, ShapeOf, Fields, Recorded, NewBlock, DateLine, Starts;
    BlockReads(p);
    DateReads(p);
    var ls, d, e := before + ([DateLine(p)] + NewBlock(p) + after), |before|, |before| + 1 + |NewBlock(p)|;
    assert ls[d] == DateLine(p) && ls[d + 1] == NewBlock(p)[0];
    assert ls[d + 2..e] == NewBlock(p)[1..];
  }

  lemma DatedSays(p: Proof, kept: seq<Line>, d: nat)
    requires d < |kept|
    ensures SaysAt(p, Dated(p, kept, d), d, d + 1 + |NewBlock(p)|)
  {
    hide NewBlock, DateLine, SaysAt;
    SaysAround(p, kept[..d], kept[d + 1..]);
    assert Dated(p, kept, d) == kept[..d] + ([DateLine(p)] + NewBlock(p) + kept[d + 1..]);
  }

  lemma EditIsDated(p: Proof, body: seq<Line>)
    requires EditBody(p, body).Some?
    ensures var kept := Rewritten(Written(p), WithoutBlock(body));
      var d := FirstOf(kept, Validated, 0);
      d < |kept| == |WithoutBlock(body)| && EditBody(p, body).value == Dated(p, kept, d)
  {
    hide ShapeOf, Rewrite, NewBlock, DateLine, WithoutBlock, Written, Dated, FirstOf;
  }

  /** Where the date was the edited entry says the new one, and after it what is recorded. */
  lemma EntryReads(p: Proof, body: seq<Line>)
    requires EditBody(p, body).Some?
    ensures var d := FirstOf(body, Validated, 0);
      && d < |body| && !OfBlock(body, d)
      && SaysAt(p, EditBody(p, body).value, KeptAt(body, d), KeptAt(body, d) + 1 + |NewBlock(p)|)
  {
    hide *;
    EditIsDated(p, body);
    HasDate(Written(p), body);
    DateStays(Written(p), body);
    DatedSays(p, Rewritten(Written(p), WithoutBlock(body)), KeptAt(body, FirstOf(body, Validated, 0)));
  }

  lemma AllAround(p: Proof, o: Once)
    ensures AllOf(p, o) == (o.front + o.before) + ([DateLine(p)] + o.own + (o.after + o.rest))
  {
    hide DateLine;
  }

  /** So does the text, split into lines again, when no value has a line break. */
  lemma TextReads(isId: Line -> bool, p: Proof, t: string) returns (d: nat)
    requires forall s :: isId(s) ==> Starts(s, ENTRY)
    requires EditText(isId, p, t).Success? && OneLineEach(p) && Fits(Written(p), Split(isId, Lines(t)).kept)
    ensures SaysAt(p, Lines(EditText(isId, p, t).value), d, d + 1 + |NewBlock(p)|)
  {
    hide ShapeOf, Bare, AreLines, Settled, Lines, Join, NewBlock, Glue, Rewritten, Shapes, HasValue, BreaksLines,
      Starts, Parts, WithoutBlock, FirstOf, FirstId, DateLine, EditBody, NoneOf, AllOf, Around, SaysAt, OneLineEach;
    var f := Split(isId, Lines(t));
    LinesAre(t);
    EditIs(isId, p, Lines(t));
    SplitIs(isId, Lines(t));
    FitsParts(isId, p, f);
    TextIs(isId, p, f);
    BlockSplits(p);
    var o := OnceOf(p, f);
    AllAround(p, o);
    d := |o.front + o.before|;
    SaysAround(p, o.front + o.before, o.after + o.rest);
  }

  // ---- the version ----

  /** The value of a `verified_with:` key at `j`: plain characters from `q` to `m`, with or without a quote on
      either side, up to `k`. */
  ghost predicate IsValue(ln: Line, i: nat, j: nat, q: nat, m: nat, k: nat) {
    && KeyLine(ln, i, j) && j <= q < m <= k <= |ln| && !IsSpace(ln[j])
    && q == (if ln[j] == '"' then j + 1 else j) && (forall x :: q <= x < m ==> IsPlain(ln[x]))
    && (m < |ln| ==> !IsPlain(ln[m])) && k == if m < |ln| && ln[m] == '"' then m + 1 else m
  }

  /** A value is found where there is one. */
  lemma ValueIsFound(ln: Line, i: nat, j: nat, q: nat, m: nat, k: nat)
    requires IsValue(ln, i, j, q, m, k)
    ensures ValueAt(ln) == Some(Span(j, k))
  {
    hide IsSpace;
    assert ln[i] == ln[i..i + |VERIFIED_WITH|][0] == 'v';
    assert !IsSpace('v') by { LetterIsNoSpace(); }
    SkipSpaceIs(ln, 0, i);
    assert ln[i..][..|VERIFIED_WITH|] == ln[i..i + |VERIFIED_WITH|];
    SkipSpaceIs(ln, i + |VERIFIED_WITH|, j);
    SkipPlainIs(ln, q, m);
  }

  lemma LetterIsNoSpace()
    ensures !IsSpace('v')
  {
  }

  /** Nothing else is taken for one. */
  lemma FoundIsValue(ln: Line) returns (q: nat, m: nat)
    requires ValueAt(ln).Some?
    ensures var at := ValueAt(ln).value; IsValue(ln, SkipSpace(ln, 0), at.from, q, m, at.to)
  {
    hide IsSpace;
    ValueFollowsKey(ln);
    var j := ValueAt(ln).value.from;
    var i := SkipSpace(ln, 0);
    assert ln[..j][i..i + |VERIFIED_WITH|] == ln[i..i + |VERIFIED_WITH|];
    q := PastQuote(ln, j);
    m := SkipPlain(ln, q);
  }

  /** A version of plain characters, rewritten, is the quoted value read back from the line, in its old place. */
  lemma VersionReadsBack(p: Proof, ln: Line)
    requires p.endpoint != "" && '\\' !in p.endpoint && forall x :: 0 <= x < |p.endpoint| ==> IsPlain(p.endpoint[x])
    requires ValueAt(ln).Some?
    ensures var once, at := Rewrite(Written(p), ln), ValueAt(ln).value;
      var to := at.from + |p.endpoint| + 2;
      && ValueAt(once) == Some(Span(at.from, to)) && once[at.from..to] == "\"" + p.endpoint + "\""
      && once[..at.from] == ln[..at.from] && once[to..] == ln[at.to..]
  {
    hide ValueAt, KeyLine, Expand, IsPlain;
    var v, pre, rest := p.endpoint, ln[..ValueAt(ln).value.from], ln[ValueAt(ln).value.to..];
    PlainTemplate(v);
    ExpandsLiteral(v, pre, ln[..ValueAt(ln).value.to]);
    ValueFollowsKey(ln);
    ReadsQuoted(pre, SkipSpace(ln, 0), v, |v|, rest);
  }

  // ---- the shapes of lines ----

  ghost predicate IsSkipped(ln: Line) {
    exists k: nat :: k <= |ln| && (forall x :: 0 <= x < k ==> IsSpace(ln[x])) && (k < |ln| ==> ln[k] == '#')
  }

  lemma SkippedIs(ln: Line)
    ensures IsSkipped(ln) <==> IsBlank(ln) || IsComment(ln)
  {
    var k := SkipSpace(ln, 0);
    if n: nat :| n <= |ln| && (forall x :: 0 <= x < n ==> IsSpace(ln[x])) && (n < |ln| ==> ln[n] == '#') {
      SkipSpaceIs(ln, 0, n);
    }
    assert IsBlank(ln) || IsComment(ln) ==> k == |ln| || ln[k] == '#';
  }

  /** The shapes exclude each other: a line is read as one that starts an entry, a block or the date exactly when it
      starts as one; as of a block's depth when it starts with four blanks and has anything else; and otherwise it is
      skipped when its first character that is not white is a `#`, or it has none. */
  lemma ShapesAre(ln: Line)
    ensures ShapeOf(ln) == Entry <==> Starts(ln, "- ")
    ensures ShapeOf(ln) == BlockKey <==> Starts(ln, "  verification:")
    ensures ShapeOf(ln) == Validated <==> Starts(ln, "  last_validated:")
    ensures ShapeOf(ln) == Deep <==> Starts(ln, "    ") && exists x :: 0 <= x < |ln| && !IsSpace(ln[x])
    ensures ShapeOf(ln) == Skipped <==> ShapeOf(ln) != Deep && IsSkipped(ln)
  {
    hide IsSkipped;
    StartsAt(ln, "- ", 0);
    StartsAt(ln, "- ", 1);
    StartsAt(ln, "  verification:", 0);
    StartsAt(ln, "  verification:", 1);
    StartsAt(ln, "  verification:", 2);
    StartsAt(ln, "  last_validated:", 0);
    StartsAt(ln, "  last_validated:", 1);
    StartsAt(ln, "  last_validated:", 2);
    StartsAt(ln, "    ", 0);
    StartsAt(ln, "    ", 1);
    StartsAt(ln, "    ", 2);
    SkippedIs(ln);
  }
}
