/** What the lexer leaves of each character, by how it reads it: quoted, escaped, bare, or not run at all. */
module ShellReading {
  import opened Common
  import opened ShellLexer
  import opened ShellIndependence
  import Skel = ShellSkeleton

  /** The lexer at the step that reads the character at `x`. */
  function Reader(letter: char -> bool, cmd: string, st: Lexer, x: nat): (r: Lexer)
    requires st.at <= x < |cmd|
    ensures st.at <= r.at <= x
    decreases |cmd| - st.at
  {
    var to := Step(letter, cmd, st).to;
    if x < to.at then st else Reader(letter, cmd, to, x)
  }

  /** What is left of the character. */
  function LeftAt(letter: char -> bool, cmd: string, x: nat): char
    requires x < |cmd|
  {
    Lex(letter, cmd, Start())[x]
  }

  lemma {:induction false} LeftByReader(letter: char -> bool, cmd: string, st: Lexer, x: nat)
    requires st.at <= x < |cmd|
    ensures var r := Reader(letter, cmd, st, x); var m := Step(letter, cmd, r);
      x < m.to.at && Lex(letter, cmd, st)[x - st.at] == m.left[x - r.at]
    decreases |cmd| - st.at
  {
    hide Step;
    var m := Step(letter, cmd, st);
    if x >= m.to.at {
      LeftByReader(letter, cmd, m.to, x);
    }
  }

  // ---- escapes ----

  /** The character is a backslash that escapes, or the one after it. */
  ghost predicate IsEscape(cmd: string, r: Lexer) {
    r.at < |cmd| && r.quote != Single && cmd[r.at] == '\\'
  }

  lemma EscapeIsRead(letter: char -> bool, cmd: string, r: Lexer)
    requires IsEscape(cmd, r)
    ensures Step(letter, cmd, r) == EscapeStep(cmd, r)
  {
    hide EscapeStep, ArithmeticStep, SubstitutionStep, BacktickStep, CloseStep, CommentStep, HeredocStep, NewlineStep;
  }

  /** An escaped character, and its backslash, are left as a blank or, outside quotes, as a letter: never as a
      boundary, a separator, a quote or a backtick, whatever the character is. */
  lemma EscapedLeft(letter: char -> bool, cmd: string, x: nat)
    requires x < |cmd| && IsEscape(cmd, Reader(letter, cmd, Start(), x))
    ensures var r, c := Reader(letter, cmd, Start(), x), LeftAt(letter, cmd, x);
      && x <= r.at + 1
      && c == (if x == r.at || cmd[x] == '\n' || r.quote == Double then ' ' else 'x')
      && !IsBoundary(c) && !InQuoteSeparator(c) && c !in {'`', '\'', '"'}
  {
    hide Step, Lex, Reader;
    EscapeIsRead(letter, cmd, Reader(letter, cmd, Start(), x));
    LeftByReader(letter, cmd, Start(), x);
  }

  // ---- quoted text ----

  /** Quoted text is left as it is, but for separators, backticks and the quotes themselves. */
  lemma QuotedIsLeft(letter: char -> bool, cmd: string, x: nat)
    requires x < |cmd|
    requires var r := Reader(letter, cmd, Start(), x);
      r.quote == Single || (r.quote == Double && InDoubleText(cmd, r.at))
    ensures var r, c := Reader(letter, cmd, Start(), x), LeftAt(letter, cmd, x);
      && x == r.at
      && c == if cmd[x] in {';', '&', '|', '(', ')', '\n'} || (r.quote == Single && cmd[x] in {'`', '\''}) then ' '
              else cmd[x]
  {
    hide OpenStep;
    LeftByReader(letter, cmd, Start(), x);
  }

  // ---- bare text ----

  /** The lexer reads the character itself, outside quotes: no escape, comment, arithmetic or here-document. */
  ghost predicate IsBare(cmd: string, r: Lexer, x: nat) {
    && x == r.at < |cmd| && r.quote == Bare && cmd[x] != '\\' && !StartsComment(cmd, x) && !StartsHeredoc(cmd, x)
    && !(cmd[x] == '$' && Is(cmd, x + 1, '('))
  }

  /** Bare, a separator stays, a backtick becomes a parenthesis, a quote a blank, and a `)` that closes nothing
      the marker of a case pattern; anything else is left as it is. */
  lemma BareLeft(letter: char -> bool, cmd: string, x: nat)
    requires x < |cmd| && IsBare(cmd, Reader(letter, cmd, Start(), x), x)
    ensures var r, c := Reader(letter, cmd, Start(), x), LeftAt(letter, cmd, x);
      var closes := r.nesting != [] && !r.nesting[|r.nesting| - 1].tick;
      var ends := r.nesting != [] && r.nesting[|r.nesting| - 1].tick;
      match cmd[x]
      case '`' => c == (if ends then ')' else '(')
      case '\'' => c == ' '
      case '"' => c == ' '
      case ')' => c == (if closes then ')' else CASE_CLOSE)
      case _ => c == cmd[x]
  {
    hide ArithmeticStep, SubstitutionStep, CommentStep, HeredocStep;
    LeftByReader(letter, cmd, Start(), x);
  }

  lemma LeftIsAsLong(letter: char -> bool, cmd: string)
    ensures |Lex(letter, cmd, Start())| == |cmd|
  {
  }

  /** Bare, a `;`, a `|`, a newline, an opening parenthesis or backtick, and a `)` that closes nothing cut the
      command line; no other character but `&` does. */
  lemma BareCuts(letter: char -> bool, cmd: string, x: nat)
    requires x < |cmd| && IsBare(cmd, Reader(letter, cmd, Start(), x), x) && cmd[x] !in {'&', CASE_CLOSE}
    ensures |Lex(letter, cmd, Start())| == |cmd|
    ensures var nesting := Reader(letter, cmd, Start(), x).nesting;
      Skel.Cuts(Lex(letter, cmd, Start()), x)
      <==> || cmd[x] in {';', '|', '\n', '('}
           || (cmd[x] == '`' && !(nesting != [] && nesting[|nesting| - 1].tick))
           || (cmd[x] == ')' && !(nesting != [] && !nesting[|nesting| - 1].tick))
  {
    hide Lex, Step, Reader;
    LeftIsAsLong(letter, cmd);
    BareLeft(letter, cmd, x);
  }

  /** An escaped character never does, and a quoted one only when it is the case pattern's marker itself. */
  lemma HiddenNeverCuts(letter: char -> bool, cmd: string, x: nat)
    requires x < |cmd|
    requires var r := Reader(letter, cmd, Start(), x);
      IsEscape(cmd, r) || r.quote == Single || (r.quote == Double && InDoubleText(cmd, r.at))
    ensures |Lex(letter, cmd, Start())| == |cmd|
    ensures Skel.Cuts(Lex(letter, cmd, Start()), x)
      <==> !IsEscape(cmd, Reader(letter, cmd, Start(), x)) && cmd[x] == CASE_CLOSE
  {
    hide Lex, Step, Reader;
    LeftIsAsLong(letter, cmd);
    if IsEscape(cmd, Reader(letter, cmd, Start(), x)) {
      EscapedLeft(letter, cmd, x);
    } else {
      QuotedIsLeft(letter, cmd, x);
    }
  }

  // ---- what the shell does not run as words ----

  lemma CommentIsRead(letter: char -> bool, cmd: string, r: Lexer)
    requires StartsComment(cmd, r.at) && r.quote == Bare
    ensures Step(letter, cmd, r) == CommentStep(cmd, r)
  {
    hide EscapeStep, ArithmeticStep, SubstitutionStep, BacktickStep, CloseStep, CommentStep, HeredocStep, NewlineStep;
  }

  lemma ArithmeticIsRead(letter: char -> bool, cmd: string, r: Lexer)
    requires r.at < |cmd| && r.quote == Bare && cmd[r.at] == '$' && Is(cmd, r.at + 1, '(') && Is(cmd, r.at + 2, '(')
    ensures Step(letter, cmd, r) == ArithmeticStep(cmd, r)
  {
    hide EscapeStep, ArithmeticStep, SubstitutionStep, BacktickStep, CloseStep, CommentStep, HeredocStep, NewlineStep;
  }

  lemma NewlineIsRead(letter: char -> bool, cmd: string, r: Lexer)
    requires r.at < |cmd| && r.quote == Bare && cmd[r.at] == '\n'
    ensures Step(letter, cmd, r) == NewlineStep(cmd, r)
  {
    hide EscapeStep, ArithmeticStep, SubstitutionStep, BacktickStep, CloseStep, CommentStep, HeredocStep, NewlineStep;
  }

  /** A comment, an arithmetic expansion and here-document bodies are blanked, but for their newlines. */
  lemma BlankedLeft(letter: char -> bool, cmd: string, x: nat)
    requires x < |cmd|
    requires var r := Reader(letter, cmd, Start(), x);
      && r.quote == Bare
      && (StartsComment(cmd, r.at) || (cmd[r.at] == '$' && Is(cmd, r.at + 1, '(') && Is(cmd, r.at + 2, '('))
          || cmd[r.at] == '\n')
    ensures LeftAt(letter, cmd, x) == if cmd[x] == '\n' then '\n' else ' '
  {
    hide Step, Lex, Reader, CloseParen, BodiesEnd, NextNewline;
    var r := Reader(letter, cmd, Start(), x);
    LeftByReader(letter, cmd, Start(), x);
    if StartsComment(cmd, r.at) {
      CommentIsRead(letter, cmd, r);
    } else if cmd[r.at] == '\n' {
      NewlineIsRead(letter, cmd, r);
    } else {
      ArithmeticIsRead(letter, cmd, r);
    }
  }

  // ---- how far quotes and substitutions reach ----

  lemma {:induction false} SingleFrom(letter: char -> bool, cmd: string, st: Lexer, e: nat, x: nat)
    requires st.quote == Single && st.at <= e < |cmd| && st.at <= x < |cmd|
    requires cmd[e] == '\'' && forall y :: st.at <= y < e ==> cmd[y] != '\''
    ensures Reader(letter, cmd, st, x)
      == if x <= e then st.(at := x) else Reader(letter, cmd, st.(at := e + 1, quote := Bare), x)
    decreases |cmd| - st.at
  {
    hide OpenStep;
    if st.at < x && st.at < e {
      SingleFrom(letter, cmd, st.(at := st.at + 1), e, x);
    }
  }

  /** A single quote reaches to the next one, whatever is between; the text after it is read as before it. */
  lemma SingleQuoteReaches(letter: char -> bool, cmd: string, st: Lexer, e: nat, x: nat)
    requires st.quote == Bare && st.at < e < |cmd| && st.at <= x < |cmd| && cmd[st.at] == '\''
    requires cmd[e] == '\'' && forall y :: st.at < y < e ==> cmd[y] != '\''
    ensures Reader(letter, cmd, st, x)
      == if x == st.at then st
         else if x <= e then st.(at := x, quote := Single)
         else Reader(letter, cmd, st.(at := e + 1), x)
  {
    hide EscapeStep, ArithmeticStep, SubstitutionStep, BacktickStep, CloseStep, CommentStep, HeredocStep, NewlineStep;
    if x > st.at {
      SingleFrom(letter, cmd, st.(at := st.at + 1, quote := Single), e, x);
    }
  }

  lemma {:induction false} DoubleFrom(letter: char -> bool, cmd: string, st: Lexer, e: nat, x: nat)
    requires st.quote == Double && st.at <= e < |cmd| && st.at <= x < |cmd|
    requires cmd[e] == '"' && forall y :: st.at <= y < e ==> InDoubleText(cmd, y)
    ensures Reader(letter, cmd, st, x)
      == if x <= e then st.(at := x) else Reader(letter, cmd, st.(at := e + 1, quote := Bare), x)
    decreases |cmd| - st.at
  {
    hide OpenStep;
    if st.at < x && st.at < e {
      DoubleFrom(letter, cmd, st.(at := st.at + 1), e, x);
    }
  }

  /** A double quote reaches to the next one, when no escape and no substitution is between. */
  lemma DoubleQuoteReaches(letter: char -> bool, cmd: string, st: Lexer, e: nat, x: nat)
    requires st.quote == Bare && st.at < e < |cmd| && st.at <= x < |cmd| && cmd[st.at] == '"'
    requires cmd[e] == '"' && forall y :: st.at < y < e ==> InDoubleText(cmd, y)
    ensures Reader(letter, cmd, st, x)
      == if x == st.at then st
         else if x <= e then st.(at := x, quote := Double)
         else Reader(letter, cmd, st.(at := e + 1), x)
  {
    hide EscapeStep, ArithmeticStep, SubstitutionStep, BacktickStep, CloseStep, CommentStep, HeredocStep, NewlineStep,
      InDoubleText;
    if x > st.at {
      DoubleFrom(letter, cmd, st.(at := st.at + 1, quote := Double), e, x);
    }
  }

  /** A letter of a command's words, or a blank between them. */
  predicate IsWordy(c: char) { 'a' <= c <= 'z' || 'A' <= c <= 'Z' || '0' <= c <= '9' || c in {' ', '-', '_', '.', '/'} }

  lemma WordyIsRead(letter: char -> bool, cmd: string, r: Lexer)
    requires r.at < |cmd| && r.quote == Bare && IsWordy(cmd[r.at])
    ensures Step(letter, cmd, r) == PlainStep(cmd, r)
  {
    hide EscapeStep, ArithmeticStep, SubstitutionStep, BacktickStep, CloseStep, CommentStep, HeredocStep, NewlineStep;
  }

  lemma {:induction false} WordsFrom(letter: char -> bool, cmd: string, st: Lexer, e: nat, x: nat)
    requires st.quote == Bare && st.at <= e <= x < |cmd| && forall y :: st.at <= y < e ==> IsWordy(cmd[y])
    ensures Reader(letter, cmd, st, x) == Reader(letter, cmd, st.(at := e), x)
    decreases e - st.at
  {
    hide Step, IsWordy;
    if st.at < e {
      WordyIsRead(letter, cmd, st);
      WordsFrom(letter, cmd, st.(at := st.at + 1), e, x);
    }
  }

  lemma SubstitutionOpens(letter: char -> bool, cmd: string, st: Lexer)
    requires st.at + 2 < |cmd| && st.quote != Single
    requires cmd[st.at] == '$' && cmd[st.at + 1] == '(' && cmd[st.at + 2] != '('
    ensures Step(letter, cmd, st).to
      == st.(at := st.at + 2, quote := Bare, nesting := st.nesting + [Opened(false, st.quote)])
  {
    hide EscapeStep, ArithmeticStep, BacktickStep, CloseStep, CommentStep, HeredocStep, NewlineStep;
  }

  /** A command substitution is read bare, and after its parenthesis the text is read as before it: quoted, when
      it stands in double quotes. */
  lemma SubstitutionReturns(letter: char -> bool, cmd: string, st: Lexer, e: nat, x: nat)
    requires st.quote != Single && st.at + 2 <= e < |cmd|
    requires cmd[st.at] == '$' && cmd[st.at + 1] == '(' && cmd[st.at + 2] != '('
    requires cmd[e] == ')' && (forall y :: st.at + 2 <= y < e ==> IsWordy(cmd[y])) && st.at + 2 <= x < |cmd|
    ensures var inside := st.(at := st.at + 2, quote := Bare, nesting := st.nesting + [Opened(false, st.quote)]);
      && (x <= e ==> Reader(letter, cmd, st, x) == inside.(at := x))
      && (x > e ==> Reader(letter, cmd, st, x) == Reader(letter, cmd, st.(at := e + 1), x))
  {
    hide Step, IsWordy;
    var inside := st.(at := st.at + 2, quote := Bare, nesting := st.nesting + [Opened(false, st.quote)]);
    SubstitutionOpens(letter, cmd, st);
    if x <= e {
      WordsFrom(letter, cmd, inside, x, x);
      assert x < e ==> IsWordy(cmd[x]);
      OneRead(letter, cmd, inside.(at := x));
    } else {
      WordsFrom(letter, cmd, inside, e, x);
      ParenthesisCloses(letter, cmd, inside.(at := e), st);
    }
  }

  lemma OneRead(letter: char -> bool, cmd: string, st: Lexer)
    requires st.at < |cmd|
    ensures Reader(letter, cmd, st, st.at) == st
  {
    hide Step;
  }

  lemma ParenthesisCloses(letter: char -> bool, cmd: string, st: Lexer, outside: Lexer)
    requires st.at < |cmd| && cmd[st.at] == ')' && st.quote == Bare
    requires st.nesting == outside.nesting + [Opened(false, outside.quote)] && st.heredocs == outside.heredocs
    ensures Step(letter, cmd, st).to == outside.(at := st.at + 1)
  {
    assert st.nesting[..|st.nesting| - 1] == outside.nesting;
  }

  /** Opening less closing parentheses among the characters `a` to `b - 1`. */
  function Parens(cmd: string, a: nat, b: nat): int
    requires a <= b <= |cmd|
    decreases b - a
  {
    if a == b then 0
    else (if cmd[a] == '(' then 1 else if cmd[a] == ')' then -1 else 0) + Parens(cmd, a + 1, b)
  }

  /** An arithmetic expansion ends at the first place where its parentheses balance, or at the end. */
  lemma {:induction false} CloseParenBalances(cmd: string, k: nat, depth: int)
    requires k <= |cmd|
    ensures var e := CloseParen(cmd, k, depth);
      && (forall y :: k < y <= e ==> depth + Parens(cmd, k, y) != 0)
      && (e < |cmd| ==> depth + Parens(cmd, k, e + 1) == 0)
    decreases |cmd| - k
  {
    if k < |cmd| {
      var d := depth + (if cmd[k] == '(' then 1 else if cmd[k] == ')' then -1 else 0);
      assert forall y :: k < y <= |cmd| ==> depth + Parens(cmd, k, y) == d + Parens(cmd, k + 1, y);
      if d != 0 {
        CloseParenBalances(cmd, k + 1, d);
      }
    }
  }

  // ---- here-documents ----

  lemma {:induction false} SkipBlanksIs(cmd: string, i: nat, k: nat)
    requires i <= k <= |cmd| && (k < |cmd| ==> cmd[k] !in {' ', '\t'})
    requires forall x :: i <= x < k ==> cmd[x] in {' ', '\t'}
    ensures SkipBlanks(cmd, i) == k
    decreases k - i
  {
    if i < k {
      SkipBlanksIs(cmd, i + 1, k);
    }
  }

  lemma {:induction false} SkipWordIs(letter: char -> bool, cmd: string, i: nat, k: nat)
    requires i <= k <= |cmd| && (k < |cmd| ==> !IsDelimChar(letter, cmd[k]))
    requires forall x :: i <= x < k ==> IsDelimChar(letter, cmd[x])
    ensures SkipWord(letter, cmd, i) == k
    decreases k - i
  {
    hide IsDelimChar;
    if i < k {
      SkipWordIs(letter, cmd, i + 1, k);
    }
  }

  /** A here-document's operator from `i`, after its `<<`, in parts: a dash up to `j0`, blanks up to `j1`, a
      backslash up to `j2`, a quote up to `j3`, and the word up to `k`, with the quote again after it. */
  ghost predicate Laid(letter: char -> bool, cmd: string, i: nat, j0: nat, j1: nat, j2: nat, j3: nat, k: nat) {
    && i <= j0 <= j1 <= j2 <= j3 < k <= |cmd|
    && j0 == (if cmd[i] == '-' then i + 1 else i)
    && (forall x :: j0 <= x < j1 ==> cmd[x] in {' ', '\t'}) && cmd[j1] !in {' ', '\t'}
    && j2 == (if cmd[j1] == '\\' then j1 + 1 else j1)
    && j3 == (if cmd[j2] in {'\'', '"'} then j2 + 1 else j2)
    && IsInitial(cmd[j3]) && (forall x :: j3 < x < k ==> IsDelimChar(letter, cmd[x]))
    && if j2 < j3 then k < |cmd| && cmd[k] == cmd[j2] else k < |cmd| ==> !IsDelimChar(letter, cmd[k])
  }

  /** However it is written, the operator's word is the here-document's delimiter, and the dash says that leading
      tabs are ignored. */
  lemma HeredocReads(letter: char -> bool, cmd: string, i: nat, j0: nat, j1: nat, j2: nat, j3: nat, k: nat)
    requires Laid(letter, cmd, i, j0, j1, j2, j3, k)
    ensures HeredocAfter(letter, cmd, i)
      == Some(HeredocMatch(Heredoc(cmd[j3..k], cmd[i] == '-'), if j2 < j3 then k + 1 else k))
  {
    assert !IsDelimChar(letter, '\'') && !IsDelimChar(letter, '"');
    hide IsDelimChar, SkipBlanks, SkipWord, IsInitial;
    SkipBlanksIs(cmd, j0, j1);
    SkipWordIs(letter, cmd, j3 + 1, k);
  }

  lemma {:induction false} SkippedBlanks(cmd: string, i: nat)
    requires i <= |cmd|
    ensures var k := SkipBlanks(cmd, i);
      (forall x :: i <= x < k ==> cmd[x] in {' ', '\t'}) && (k < |cmd| ==> cmd[k] !in {' ', '\t'})
    decreases |cmd| - i
  {
    if i < |cmd| && cmd[i] in {' ', '\t'} {
      SkippedBlanks(cmd, i + 1);
    }
  }

  lemma {:induction false} SkippedWord(letter: char -> bool, cmd: string, i: nat)
    requires i <= |cmd|
    ensures var k := SkipWord(letter, cmd, i);
      (forall x :: i <= x < k ==> IsDelimChar(letter, cmd[x])) && (k < |cmd| ==> !IsDelimChar(letter, cmd[k]))
    decreases |cmd| - i
  {
    hide IsDelimChar;
    if i < |cmd| && IsDelimChar(letter, cmd[i]) {
      SkippedWord(letter, cmd, i + 1);
    }
  }

  /** Nothing else is read as one. */
  lemma HeredocIsLaid(letter: char -> bool, cmd: string, i: nat)
    requires i <= |cmd| && HeredocAfter(letter, cmd, i).Some?
    ensures exists j0: nat, j1: nat, j2: nat, j3: nat, k: nat :: Laid(letter, cmd, i, j0, j1, j2, j3, k)
  {
    hide IsDelimChar, SkipBlanks, SkipWord, IsInitial;
    var j0 := if Is(cmd, i, '-') then i + 1 else i;
    var j1 := SkipBlanks(cmd, j0);
    SkippedBlanks(cmd, j0);
    var j2 := if Is(cmd, j1, '\\') then j1 + 1 else j1;
    var j3 := if j2 < |cmd| && cmd[j2] in {'\'', '"'} then j2 + 1 else j2;
    SkippedWord(letter, cmd, j3 + 1);
    assert Laid(letter, cmd, i, j0, j1, j2, j3, SkipWord(letter, cmd, j3 + 1));
  }

  /** The newline at `y` ends a line, from `a` on, that is the delimiter. */
  ghost predicate Delimits(cmd: string, i: nat, a: nat, doc: Heredoc, y: nat) {
    exists x: nat :: a <= x <= y && IsLine(cmd, i, x, y) && EndsDoc(cmd, x, y, doc)
  }

  lemma DelimitsNext(cmd: string, i: nat, a: nat, doc: Heredoc, y: nat)
    requires i <= a < |cmd| && (a == i || cmd[a - 1] == '\n') && NextNewline(cmd, a) < |cmd|
    ensures var k := NextNewline(cmd, a);
      Delimits(cmd, i, a, doc, y) <==> (y == k && EndsDoc(cmd, a, k, doc)) || Delimits(cmd, i, k + 1, doc, y)
  {
    hide EndsDoc;
    var k := NextNewline(cmd, a);
    assert IsLine(cmd, i, a, k);
    if x: nat :| a <= x <= y && IsLine(cmd, i, x, y) && EndsDoc(cmd, x, y, doc) {
      assert x <= k ==> x == a && y == k;
    }
  }

  lemma DelimitsNot(cmd: string, i: nat, a: nat, doc: Heredoc, y: nat)
    requires i <= a <= |cmd| && (a < |cmd| ==> NextNewline(cmd, a) == |cmd|)
    ensures !Delimits(cmd, i, a, doc, y)
  {
  }

  /** A here-document's body ends past the first line that is its delimiter, or at the end when none is. */
  lemma {:induction false} BodyEndIs(cmd: string, i: nat, a: nat, doc: Heredoc)
    requires i <= a <= |cmd| && (a == i || a == |cmd| || cmd[a - 1] == '\n')
    ensures var e := BodyEnd(cmd, a, doc);
      && (forall y: nat :: y + 1 < e ==> !Delimits(cmd, i, a, doc, y))
      && ((e > a && Delimits(cmd, i, a, doc, e - 1))
          || (e == |cmd| && forall y: nat :: !Delimits(cmd, i, a, doc, y)))
    decreases |cmd| - a
  {
    hide EndsDoc, Delimits;
    if a == |cmd| || NextNewline(cmd, a) == |cmd| {
      forall y: nat ensures !Delimits(cmd, i, a, doc, y) {
        DelimitsNot(cmd, i, a, doc, y);
      }
    } else {
      var k := NextNewline(cmd, a);
      forall y: nat
        ensures Delimits(cmd, i, a, doc, y) <==> (y == k && EndsDoc(cmd, a, k, doc)) || Delimits(cmd, i, k + 1, doc, y)
      {
        DelimitsNext(cmd, i, a, doc, y);
      }
      LaterDelimits(cmd, i, k + 1, doc);
      if !EndsDoc(cmd, a, k, doc) {
        BodyEndIs(cmd, i, k + 1, doc);
      }
    }
  }

  lemma LaterDelimits(cmd: string, i: nat, a: nat, doc: Heredoc)
    ensures forall y: nat :: Delimits(cmd, i, a, doc, y) ==> a <= y
  {
  }

  /** Leading tabs, and nothing else, are ignored. */
  lemma {:induction false} StripTabsIs(s: string, k: nat)
    requires k <= |s| && (forall x :: 0 <= x < k ==> s[x] == '\t') && (k < |s| ==> s[k] != '\t')
    ensures StripTabs(s) == s[k..]
  {
    if k > 0 {
      StripTabsIs(s[1..], k - 1);
      assert s[1..][k - 1..] == s[k..];
    }
  }
}
