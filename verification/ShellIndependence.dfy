/** What the skeleton of a command cannot depend on: the text of a comment, and the text of a
    here-document's body. Two facts do the work. Up to a `#` or a newline the lexer only reads what is
    before it; and from a newline on it never looks back past it. */
module ShellIndependence {
  import opened ShellLexer

  /** The same characters at the positions `a <= x < b`. */
  ghost predicate Agree(c: string, d: string, a: nat, b: nat) {
    |c| == |d| && forall x :: a <= x < b && x < |c| ==> c[x] == d[x]
  }

  /** A `#` or newline at `j`: no reading of words, blanks or operators goes past it. */
  ghost predicate Stops(c: string, j: nat) { j < |c| && (c[j] == '#' || c[j] == '\n') }

  // ---- reading ahead stops at j ----

  lemma {:induction false} NewlineLocal(c: string, d: string, i: nat, j: nat)
    requires Agree(c, d, i, j + 1) && i <= |c| && NextNewline(c, i) <= j < |c|
    ensures NextNewline(d, i) == NextNewline(c, i)
    decreases |c| - i
  {
    if c[i] != '\n' {
      NewlineLocal(c, d, i + 1, j);
    }
  }

  lemma {:induction false} CloseLocal(c: string, d: string, k: nat, depth: int, j: nat)
    requires Agree(c, d, k, j) && k <= |c| && CloseParen(c, k, depth) < j <= |c|
    ensures CloseParen(d, k, depth) == CloseParen(c, k, depth)
    decreases |c| - k
  {
    var now := depth + (if c[k] == '(' then 1 else if c[k] == ')' then -1 else 0);
    if now != 0 {
      CloseLocal(c, d, k + 1, now, j);
    }
  }

  lemma {:induction false} BlanksLocal(c: string, d: string, i: nat, j: nat)
    requires Agree(c, d, i, j + 1) && i <= j && Stops(c, j)
    ensures SkipBlanks(d, i) == SkipBlanks(c, i) <= j
    decreases j - i
  {
    if i < j && c[i] in {' ', '\t'} {
      BlanksLocal(c, d, i + 1, j);
    }
  }

  lemma {:induction false} WordLocal(letter: char -> bool, c: string, d: string, i: nat, j: nat)
    requires Agree(c, d, i, j + 1) && i <= j && Stops(c, j)
    ensures SkipWord(letter, d, i) == SkipWord(letter, c, i) <= j
    decreases j - i
  {
    if i < j && IsDelimChar(letter, c[i]) {
      WordLocal(letter, c, d, i + 1, j);
    }
  }

  lemma SliceLocal(c: string, d: string, a: nat, b: nat, x: nat, y: nat)
    requires Agree(c, d, a, b) && a <= x <= y <= b && y <= |c|
    ensures c[x..y] == d[x..y]
  {
  }

  /** A character other than the stop's is read and passed only before the stop. */
  lemma PastLocal(c: string, d: string, i: nat, ch: char, j: nat)
    requires Agree(c, d, i, j + 1) && i <= j && Stops(c, j) && ch != '#' && ch != '\n'
    ensures Is(d, i, ch) == Is(c, i, ch) && Past(c, i, Is(c, i, ch)) <= j
  {
  }

  lemma HeredocLocal(letter: char -> bool, c: string, d: string, i: nat, j: nat)
    requires Agree(c, d, i, j + 1) && i <= j && Stops(c, j)
    ensures HeredocAfter(letter, d, i) == HeredocAfter(letter, c, i)
  {
    hide SkipBlanks, SkipWord, Past;
    PastLocal(c, d, i, '-', j);
    var j0 := Past(c, i, Is(c, i, '-'));
    BlanksLocal(c, d, j0, j);
    var j1 := SkipBlanks(c, j0);
    PastLocal(c, d, j1, '\\', j);
    var j2 := Past(c, j1, Is(c, j1, '\\'));
    PastLocal(c, d, j2, '\'', j);
    PastLocal(c, d, j2, '"', j);
    var j3 := Past(c, j2, Is(c, j2, '\'') || Is(c, j2, '"'));
    assert j3 <= j && d[j3] == c[j3] && c[j2] == d[j2];
    PastAgrees(c, d, i, Is(c, i, '-'));
    PastAgrees(c, d, j1, Is(c, j1, '\\'));
    PastAgrees(c, d, j2, Is(c, j2, '\'') || Is(c, j2, '"'));
    if IsInitial(c[j3]) {
      WordLocal(letter, c, d, j3 + 1, j);
      var j4 := SkipWord(letter, c, j3 + 1);
      SliceLocal(c, d, i, j + 1, j3, j4);
      if Is(c, j2, '\'') || Is(c, j2, '"') {
        PastLocal(c, d, j4, c[j2], j);
      }
    }
  }

  lemma PastAgrees(c: string, d: string, i: nat, yes: bool)
    requires |c| == |d| && i <= |c|
    ensures Past(c, i, yes) == Past(d, i, yes)
  {
  }

  lemma EndsDocLocal(c: string, d: string, a: nat, k: nat, doc: Heredoc)
    requires Agree(c, d, a, k) && a <= k <= |c|
    ensures EndsDoc(d, a, k, doc) == EndsDoc(c, a, k, doc)
  {
    assert c[a..k] == d[a..k];
  }

  lemma {:induction false} BodyLocal(c: string, d: string, i: nat, doc: Heredoc, j: nat)
    requires Agree(c, d, i, j) && i <= |c| && BodyEnd(c, i, doc) <= j < |c|
    ensures BodyEnd(d, i, doc) == BodyEnd(c, i, doc)
    decreases |c| - i
  {
    hide EndsDoc, NextNewline;
    if i < |c| {
      var k := NextNewline(c, i);
      if k < |c| {
        NewlineLocal(c, d, i, k);
        EndsDocLocal(c, d, i, k, doc);
        if !EndsDoc(c, i, k, doc) {
          BodyLocal(c, d, k + 1, doc, j);
        }
      }
    }
  }

  lemma {:induction false} BodiesGrow(c: string, i: nat, docs: seq<Heredoc>)
    requires i <= |c| && docs != []
    ensures BodyEnd(c, i, docs[0]) <= BodiesEnd(c, i, docs)
  {
  }

  lemma {:induction false} BodiesLocal(c: string, d: string, i: nat, docs: seq<Heredoc>, j: nat)
    requires Agree(c, d, i, j) && i <= |c| && BodiesEnd(c, i, docs) <= j < |c|
    ensures BodiesEnd(d, i, docs) == BodiesEnd(c, i, docs)
    decreases |docs|
  {
    if docs != [] {
      BodiesGrow(c, i, docs);
      BodyLocal(c, d, i, docs[0], j);
      BodiesLocal(c, d, BodyEnd(c, i, docs[0]), docs[1..], j);
    }
  }

  lemma BlankLocal(c: string, d: string, a: nat, b: nat)
    requires Agree(c, d, a, b) && a <= b <= |c|
    ensures Blank(c, a, b) == Blank(d, a, b)
  {
  }

  lemma ArithmeticLocal(c: string, d: string, st: Lexer, j: nat)
    requires Agree(c, d, 0, j + 1) && st.at + 1 < j < |c| && ArithmeticStep(c, st).to.at <= j
    ensures ArithmeticStep(d, st) == ArithmeticStep(c, st)
  {
    CloseLocal(c, d, st.at + 1, 0, j);
    BlankLocal(c, d, st.at, ArithmeticStep(c, st).to.at);
  }

  lemma CommentLocal(c: string, d: string, st: Lexer, j: nat)
    requires Agree(c, d, 0, j + 1) && j < |c| && StartsComment(c, st.at) && CommentStep(c, st).to.at <= j
    ensures StartsComment(d, st.at) && CommentStep(d, st) == CommentStep(c, st)
  {
    NewlineLocal(c, d, st.at, j);
    BlankLocal(c, d, st.at, NextNewline(c, st.at));
  }

  lemma HeredocStepLocal(letter: char -> bool, c: string, d: string, st: Lexer, j: nat)
    requires Agree(c, d, 0, j + 1) && Stops(c, j) && st.at < j && StartsHeredoc(c, st.at)
    requires HeredocStep(letter, c, st).to.at <= j
    ensures StartsHeredoc(d, st.at) && HeredocStep(letter, d, st) == HeredocStep(letter, c, st)
  {
    hide HeredocAfter;
    HeredocLocal(letter, c, d, st.at + 2, j);
    var m := HeredocAfter(letter, c, st.at + 2);
    if m.Some? {
      SliceLocal(c, d, 0, j + 1, st.at, m.value.end);
    }
  }

  lemma NewlineStepLocal(c: string, d: string, st: Lexer, j: nat)
    requires Agree(c, d, 0, j + 1) && st.at < j < |c| && NewlineStep(c, st).to.at <= j
    ensures NewlineStep(d, st) == NewlineStep(c, st)
  {
    BodiesLocal(c, d, st.at + 1, st.heredocs, j);
    BlankLocal(c, d, st.at + 1, BodiesEnd(c, st.at + 1, st.heredocs));
  }

  /** A step that lands at or before a stop reads nothing past it. */
  lemma OpenStepLocal(letter: char -> bool, c: string, d: string, st: Lexer, j: nat)
    requires Agree(c, d, 0, j + 1) && Stops(c, j) && st.at < j && OpenStep(letter, c, st).to.at <= j
    ensures OpenStep(letter, d, st) == OpenStep(letter, c, st)
  {
    hide ArithmeticStep, CommentStep, HeredocStep, NewlineStep;
    var i := st.at;
    var ch := c[i];
    if ch == '\\' {
    } else if ch == '$' && Is(c, i + 1, '(') && Is(c, i + 2, '(') {
      assert i + 1 < j;
      ArithmeticLocal(c, d, st, j);
    } else if ch == '$' && Is(c, i + 1, '(') {
      SliceLocal(c, d, 0, j + 1, i, i + 2);
    } else if ch in {'`', '\'', '"', '(', ')'} {
    } else if StartsComment(c, i) {
      CommentLocal(c, d, st, j);
    } else if StartsHeredoc(c, i) {
      HeredocStepLocal(letter, c, d, st, j);
    } else if ch == '\n' {
      NewlineStepLocal(c, d, st, j);
    } else {
    }
  }

  lemma StepLocal(letter: char -> bool, c: string, d: string, st: Lexer, j: nat)
    requires Agree(c, d, 0, j + 1) && Stops(c, j) && st.at < j && Step(letter, c, st).to.at <= j
    ensures Step(letter, d, st) == Step(letter, c, st)
  {
    hide OpenStep;
    if st.quote == Single || (st.quote == Double && (InDoubleText(c, st.at) || c[st.at] == '"')) {
    } else {
      OpenStepLocal(letter, c, d, st, j);
    }
  }

  /** Two commands that agree up to and including a `#` or newline put the lexer in the same place before it. */
  lemma {:induction false} AfterLocal(letter: char -> bool, c: string, d: string, k: nat, j: nat)
    requires Agree(c, d, 0, j + 1) && Stops(c, j) && After(letter, c, k).at <= j
    ensures After(letter, d, k) == After(letter, c, k) && LeftBy(letter, d, k) == LeftBy(letter, c, k)
  {
    hide Step;
    if k > 0 {
      AfterGrows(letter, c, k);
      AfterLocal(letter, c, d, k - 1, j);
      StepLocal(letter, c, d, After(letter, c, k - 1), j);
    }
  }

  // ---- from a newline on, nothing before it is read ----

  lemma {:induction false} NewlineFrom(c: string, d: string, a: nat, i: nat)
    requires Agree(c, d, a, |c|) && a <= i <= |c|
    ensures NextNewline(d, i) == NextNewline(c, i)
    decreases |c| - i
  {
    if i < |c| && c[i] != '\n' {
      NewlineFrom(c, d, a, i + 1);
    }
  }

  lemma {:induction false} CloseFrom(c: string, d: string, a: nat, k: nat, depth: int)
    requires Agree(c, d, a, |c|) && a <= k <= |c|
    ensures CloseParen(d, k, depth) == CloseParen(c, k, depth)
    decreases |c| - k
  {
    if k < |c| {
      CloseFrom(c, d, a, k + 1, depth + (if c[k] == '(' then 1 else if c[k] == ')' then -1 else 0));
    }
  }

  lemma {:induction false} BlanksFrom(c: string, d: string, a: nat, i: nat)
    requires Agree(c, d, a, |c|) && a <= i <= |c|
    ensures SkipBlanks(d, i) == SkipBlanks(c, i)
    decreases |c| - i
  {
    if i < |c| {
      BlanksFrom(c, d, a, i + 1);
    }
  }

  lemma {:induction false} WordFrom(letter: char -> bool, c: string, d: string, a: nat, i: nat)
    requires Agree(c, d, a, |c|) && a <= i <= |c|
    ensures SkipWord(letter, d, i) == SkipWord(letter, c, i)
    decreases |c| - i
  {
    if i < |c| {
      WordFrom(letter, c, d, a, i + 1);
    }
  }

  lemma HeredocFrom(letter: char -> bool, c: string, d: string, a: nat, i: nat)
    requires Agree(c, d, a, |c|) && a <= i <= |c|
    ensures HeredocAfter(letter, d, i) == HeredocAfter(letter, c, i)
  {
    hide SkipBlanks, SkipWord, Past;
    var j0 := Past(c, i, Is(c, i, '-'));
    PastAgrees(c, d, i, Is(c, i, '-'));
    BlanksFrom(c, d, a, j0);
    var j1 := SkipBlanks(c, j0);
    var j2 := Past(c, j1, Is(c, j1, '\\'));
    PastAgrees(c, d, j1, Is(c, j1, '\\'));
    var j3 := Past(c, j2, Is(c, j2, '\'') || Is(c, j2, '"'));
    PastAgrees(c, d, j2, Is(c, j2, '\'') || Is(c, j2, '"'));
    if j3 < |c| {
      assert c[j3] == d[j3];
      WordFrom(letter, c, d, a, j3 + 1);
      SliceLocal(c, d, a, |c|, j3, SkipWord(letter, c, j3 + 1));
    }
  }

  lemma {:induction false} BodyFrom(c: string, d: string, a: nat, i: nat, doc: Heredoc)
    requires Agree(c, d, a, |c|) && a <= i <= |c|
    ensures BodyEnd(d, i, doc) == BodyEnd(c, i, doc)
    decreases |c| - i
  {
    hide EndsDoc, NextNewline;
    if i < |c| {
      NewlineFrom(c, d, a, i);
      var k := NextNewline(c, i);
      if k < |c| {
        EndsDocLocal(c, d, i, k, doc);
        BodyFrom(c, d, a, k + 1, doc);
      }
    }
  }

  lemma {:induction false} BodiesFrom(c: string, d: string, a: nat, i: nat, docs: seq<Heredoc>)
    requires Agree(c, d, a, |c|) && a <= i <= |c|
    ensures BodiesEnd(d, i, docs) == BodiesEnd(c, i, docs)
    decreases |docs|
  {
    if docs != [] {
      BodyFrom(c, d, a, i, docs[0]);
      BodiesFrom(c, d, a, BodyEnd(c, i, docs[0]), docs[1..]);
    }
  }

  /** A place where the lexer does not look back: a newline, or past the first character they agree on. */
  ghost predicate NoLookBack(c: string, a: nat, i: nat) { a < i || (a == i < |c| && c[i] == '\n') }

  lemma ArithmeticFrom(c: string, d: string, a: nat, st: Lexer)
    requires Agree(c, d, a, |c|) && a <= st.at && st.at + 1 < |c|
    ensures ArithmeticStep(d, st) == ArithmeticStep(c, st)
  {
    CloseFrom(c, d, a, st.at + 1, 0);
    BlankLocal(c, d, st.at, ArithmeticStep(c, st).to.at);
  }

  lemma CommentFrom(c: string, d: string, a: nat, st: Lexer)
    requires Agree(c, d, a, |c|) && a <= st.at && StartsComment(c, st.at) && StartsComment(d, st.at)
    ensures CommentStep(d, st) == CommentStep(c, st)
  {
    NewlineFrom(c, d, a, st.at);
    BlankLocal(c, d, st.at, NextNewline(c, st.at));
  }

  lemma HeredocStepFrom(letter: char -> bool, c: string, d: string, a: nat, st: Lexer)
    requires Agree(c, d, a, |c|) && a <= st.at && StartsHeredoc(c, st.at) && StartsHeredoc(d, st.at)
    ensures HeredocStep(letter, d, st) == HeredocStep(letter, c, st)
  {
    hide HeredocAfter;
    HeredocFrom(letter, c, d, a, st.at + 2);
    var m := HeredocAfter(letter, c, st.at + 2);
    if m.Some? {
      SliceLocal(c, d, a, |c|, st.at, m.value.end);
    }
  }

  lemma NewlineStepFrom(c: string, d: string, a: nat, st: Lexer)
    requires Agree(c, d, a, |c|) && a <= st.at < |c|
    ensures NewlineStep(d, st) == NewlineStep(c, st)
  {
    BodiesFrom(c, d, a, st.at + 1, st.heredocs);
    BlankLocal(c, d, st.at + 1, BodiesEnd(c, st.at + 1, st.heredocs));
  }

  lemma OpenStepFrom(letter: char -> bool, c: string, d: string, a: nat, st: Lexer)
    requires Agree(c, d, a, |c|) && st.at < |c| && NoLookBack(c, a, st.at)
    ensures OpenStep(letter, d, st) == OpenStep(letter, c, st)
  {
    hide ArithmeticStep, CommentStep, HeredocStep, NewlineStep;
    var i := st.at;
    var ch := c[i];
    if ch == '$' && Is(c, i + 1, '(') && Is(c, i + 2, '(') {
      ArithmeticFrom(c, d, a, st);
    } else if ch == '$' && Is(c, i + 1, '(') {
      SliceLocal(c, d, a, |c|, i, i + 2);
    } else if StartsComment(c, i) {
      CommentFrom(c, d, a, st);
    } else if StartsHeredoc(c, i) {
      HeredocStepFrom(letter, c, d, a, st);
    } else if ch == '\n' {
      NewlineStepFrom(c, d, a, st);
    }
  }

  lemma StepFrom(letter: char -> bool, c: string, d: string, a: nat, st: Lexer)
    requires Agree(c, d, a, |c|) && st.at < |c| && NoLookBack(c, a, st.at)
    ensures Step(letter, d, st) == Step(letter, c, st)
  {
    hide OpenStep;
    if st.quote == Single || (st.quote == Double && (InDoubleText(c, st.at) || c[st.at] == '"')) {
    } else {
      OpenStepFrom(letter, c, d, a, st);
    }
  }

  /** Two commands that agree from a newline on are lexed alike from there. */
  lemma {:induction false} LexFrom(letter: char -> bool, c: string, d: string, a: nat, st: Lexer)
    requires Agree(c, d, a, |c|) && st.at <= |c| && (st.at < |c| ==> NoLookBack(c, a, st.at))
    ensures Lex(letter, d, st) == Lex(letter, c, st)
    decreases |c| - st.at
  {
    hide Step;
    if st.at < |c| {
      StepFrom(letter, c, d, a, st);
      LexFrom(letter, c, d, a, Step(letter, c, st).to);
    }
  }

  // ---- comments ----

  /** `d` is `c` with the text of one comment changed: the lexer of `c` starts a comment after `k` steps, and
      `d` differs only between its `#` and the end of that line, where it has no newline either. */
  ghost predicate CommentEdited(letter: char -> bool, c: string, d: string, k: nat) {
    var st := After(letter, c, k);
    && |c| == |d| && st.quote == Bare && StartsComment(c, st.at)
    && var q := NextNewline(c, st.at);
       && Agree(c, d, 0, st.at + 1) && Agree(c, d, q, |c|)
       && forall x :: st.at < x < q ==> d[x] != '\n'
  }

  lemma {:induction false} NewlineAt(c: string, i: nat, q: nat)
    requires i <= q <= |c| && (q < |c| ==> c[q] == '\n') && forall x :: i <= x < q ==> c[x] != '\n'
    ensures NextNewline(c, i) == q
    decreases q - i
  {
    if i < q {
      NewlineAt(c, i + 1, q);
    }
  }

  lemma {:induction false} NewlineStays(letter: char -> bool, c: string, d: string, st: Lexer)
    requires |c| == |d| && StartsComment(c, st.at) && Agree(c, d, 0, st.at + 1) && st.quote == Bare
    requires NextNewline(d, st.at) == NextNewline(c, st.at)
    ensures Step(letter, d, st) == Step(letter, c, st) && Step(letter, c, st).to.at == NextNewline(c, st.at)
  {
    var q := NextNewline(c, st.at);
    assert Blank(c, st.at, q) == Blank(d, st.at, q);
  }

  /** The text of a comment leaves no trace: only its length counts. */
  lemma CommentTextIsBlank(letter: char -> bool, c: string, d: string, k: nat)
    requires CommentEdited(letter, c, d, k)
    ensures Lex(letter, d, Start()) == Lex(letter, c, Start())
  {
    hide Step, Lex, NextNewline;
    var st := After(letter, c, k);
    var q := NextNewline(c, st.at);
    AfterLocal(letter, c, d, k, st.at);
    NewlineAt(d, st.at, q);
    NewlineStays(letter, c, d, st);
    LexSplits(letter, c, k + 1);
    LexSplits(letter, d, k + 1);
    LexFrom(letter, c, d, q, After(letter, c, k + 1));
  }

  // ---- here-document bodies ----

  /** `d` has the newlines of `c` from `i` on. */
  ghost predicate SameNewlines(c: string, d: string, i: nat) {
    |c| == |d| && i <= |c| && forall x :: i <= x < |c| ==> (c[x] == '\n' <==> d[x] == '\n')
  }

  /** `c[a..b]` is a whole line of the text from `i` on. */
  ghost predicate IsLine(c: string, i: nat, a: nat, b: nat) {
    && i <= a <= b < |c| && c[b] == '\n' && (a == i || c[a - 1] == '\n')
    && forall x :: a <= x < b ==> c[x] != '\n'
  }

  /** Of the lines of its body, that starts at `i`, the same end the here-document. */
  ghost predicate SameEnding(c: string, d: string, i: nat, doc: Heredoc)
    requires i <= |c| == |d|
  {
    forall a: nat, b: nat :: IsLine(c, i, a, b) && b < BodyEnd(c, i, doc) ==>
      (EndsDoc(c, a, b, doc) <==> EndsDoc(d, a, b, doc))
  }

  /** So for each of the here-documents, in its own body. */
  ghost predicate SameEndings(c: string, d: string, i: nat, docs: seq<Heredoc>)
    requires i <= |c| == |d|
    decreases |docs|
  {
    docs != [] ==> SameEnding(c, d, i, docs[0]) && SameEndings(c, d, BodyEnd(c, i, docs[0]), docs[1..])
  }

  lemma {:induction false} BodySame(c: string, d: string, i: nat, a: nat, doc: Heredoc)
    requires i <= a <= |c| && SameNewlines(c, d, i) && SameEnding(c, d, i, doc)
      && BodyEnd(c, a, doc) == BodyEnd(c, i, doc)
    requires a == i || a == |c| || c[a - 1] == '\n'
    ensures BodyEnd(d, a, doc) == BodyEnd(c, a, doc)
    decreases |c| - a
  {
    hide EndsDoc;
    if a < |c| {
      var k := NextNewline(c, a);
      NewlineAt(d, a, k);
      if k < |c| {
        assert IsLine(c, i, a, k);
        if !EndsDoc(c, a, k, doc) {
          BodySame(c, d, i, k + 1, doc);
        }
      }
    }
  }

  /** A body ends at the end of a line. */
  lemma {:induction false} BodyEndsLine(c: string, i: nat, doc: Heredoc)
    requires i <= |c|
    ensures var e := BodyEnd(c, i, doc); e == |c| || e == i || c[e - 1] == '\n'
    decreases |c| - i
  {
    hide EndsDoc;
    if i < |c| {
      var k := NextNewline(c, i);
      if k < |c| && !EndsDoc(c, i, k, doc) {
        BodyEndsLine(c, k + 1, doc);
      }
    }
  }

  lemma {:induction false} BodiesEndLine(c: string, i: nat, docs: seq<Heredoc>)
    requires i <= |c|
    ensures var e := BodiesEnd(c, i, docs); e == |c| || e == i || c[e - 1] == '\n'
    decreases |docs|
  {
    hide BodyEnd;
    if docs != [] {
      BodyEndsLine(c, i, docs[0]);
      BodiesEndLine(c, BodyEnd(c, i, docs[0]), docs[1..]);
    }
  }

  lemma NewlinesFrom(c: string, d: string, i: nat, j: nat)
    requires SameNewlines(c, d, i) && i <= j <= |c|
    ensures SameNewlines(c, d, j)
  {
  }

  /** The bodies end where they did when each here-document is ended by the same lines of its own body. */
  lemma {:induction false} BodiesSame(c: string, d: string, i: nat, docs: seq<Heredoc>)
    requires SameNewlines(c, d, i) && SameEndings(c, d, i, docs)
    ensures BodiesEnd(d, i, docs) == BodiesEnd(c, i, docs)
    decreases |docs|
  {
    hide SameNewlines, SameEnding, BodyEnd;
    if docs != [] {
      var e := BodyEnd(c, i, docs[0]);
      BodySame(c, d, i, i, docs[0]);
      NewlinesFrom(c, d, i, e);
      BodiesSame(c, d, e, docs[1..]);
    }
  }

  /** `d` is `c` with here-document bodies changed: the lexer of `c` is at the newline their bodies follow after
      `k` steps, and `d` differs only inside those bodies, keeps their newlines, and ends them in the same place. */
  ghost predicate BodyEdited(letter: char -> bool, c: string, d: string, k: nat) {
    var st := After(letter, c, k);
    && |c| == |d| && st.quote == Bare && st.at < |c| && c[st.at] == '\n'
    && Agree(c, d, 0, st.at + 1) && Agree(c, d, BodiesEnd(c, st.at + 1, st.heredocs), |c|)
    && SameNewlines(c, d, st.at + 1) && BodiesEnd(d, st.at + 1, st.heredocs) == BodiesEnd(c, st.at + 1, st.heredocs)
  }

  lemma BodyStays(letter: char -> bool, c: string, d: string, st: Lexer)
    requires |c| == |d| && st.quote == Bare && st.at < |c| && c[st.at] == d[st.at] == '\n'
    requires forall x :: st.at < x < |c| ==> (c[x] == '\n' <==> d[x] == '\n')
    requires BodiesEnd(d, st.at + 1, st.heredocs) == BodiesEnd(c, st.at + 1, st.heredocs)
    ensures Step(letter, d, st) == Step(letter, c, st)
    ensures Step(letter, c, st).to.at == BodiesEnd(c, st.at + 1, st.heredocs)
  {
    hide BodiesEnd, HeredocStep, CommentStep, ArithmeticStep;
    var e := BodiesEnd(c, st.at + 1, st.heredocs);
    assert Blank(c, st.at + 1, e) == Blank(d, st.at + 1, e);
  }

  lemma StopsThere(c: string, i: nat)
    ensures i < |c| && c[i] == '\n' ==> Stops(c, i)
  {
  }

  /** The text of here-document bodies leaves no trace: only their length, their newlines and where they end count. */
  lemma BodyTextIsBlank(letter: char -> bool, c: string, d: string, k: nat)
    requires BodyEdited(letter, c, d, k)
    ensures Lex(letter, d, Start()) == Lex(letter, c, Start())
  {
    hide Step, BodiesEnd, Lex, Blank, Stops;
    var st := After(letter, c, k);
    StopsThere(c, st.at);
    var e := BodiesEnd(c, st.at + 1, st.heredocs);
    AfterLocal(letter, c, d, k, st.at);
    BodiesEndLine(c, st.at + 1, st.heredocs);
    BodyStays(letter, c, d, st);
    LexSplits(letter, c, k + 1);
    LexSplits(letter, d, k + 1);
    assert c[e - 1] == '\n' == d[e - 1] || e == |c|;
    LexFrom(letter, c, d, if e == |c| then e else e - 1, After(letter, c, k + 1));
  }
}
