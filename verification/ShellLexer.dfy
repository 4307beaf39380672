/** `invariants._shell_skeleton`'s lexer, one step at a time: what the shell would run as words, at the
    same length. A step reads the command at the lexer's position, says what it leaves there and where it goes on.
    `letter` says which characters outside ASCII are word characters (`\w`). */
module ShellLexer {
  import opened Common

  datatype Quote = Bare | Single | Double

  /** A here-document waiting for its body: its delimiter, and whether leading tabs are ignored (`<<-`). */
  datatype Heredoc = Heredoc(delim: string, tabs: bool)

  /** An open `(`, `$(` or backtick: what closes it, and the quote to return to. */
  datatype Opened = Opened(tick: bool, back: Quote)

  datatype Lexer = Lexer(at: nat, quote: Quote, nesting: seq<Opened>, heredocs: seq<Heredoc>)

  /** A step: the lexer after it, and the characters it leaves in place of those it read. */
  datatype Move = Move(to: Lexer, left: string)

  const CASE_CLOSE := '\U{0001}'

  function Start(): Lexer { Lexer(0, Bare, [], []) }

  // ---- reading the command ----

  predicate Is(cmd: string, i: nat, c: char) { i < |cmd| && cmd[i] == c }

  predicate InQuoteSeparator(c: char) { c in {';', '&', '|', '(', ')', '\n'} }

  predicate OpensWord(c: char) { c in {' ', '\t', '\n', ';', '&', '|', '(', ')'} }

  /** The first newline at or after `i`, or the end. */
  function NextNewline(cmd: string, i: nat): (k: nat)
    requires i <= |cmd|
    ensures i <= k <= |cmd| && (k < |cmd| ==> cmd[k] == '\n') && forall x :: i <= x < k ==> cmd[x] != '\n'
    decreases |cmd| - i
  {
    if i == |cmd| || cmd[i] == '\n' then i else NextNewline(cmd, i + 1)
  }

  /** The `)` that brings `depth` back to zero, counting naively from `k`, or the end. */
  function CloseParen(cmd: string, k: nat, depth: int): (e: nat)
    requires k <= |cmd|
    ensures k <= e <= |cmd|
    decreases |cmd| - k
  {
    if k == |cmd| then k
    else
      var d := depth + (if cmd[k] == '(' then 1 else if cmd[k] == ')' then -1 else 0);
      if d == 0 then k else CloseParen(cmd, k + 1, d)
  }

  /** `cmd[a..b]` blanked: newlines stay. */
  function Blank(cmd: string, a: nat, b: nat): (r: string)
    requires a <= b <= |cmd|
    ensures |r| == b - a && forall x :: 0 <= x < b - a ==> r[x] == if cmd[a + x] == '\n' then '\n' else ' '
  {
    seq(b - a, x requires 0 <= x < b - a => if cmd[a + x] == '\n' then '\n' else ' ')
  }

  function SkipBlanks(cmd: string, i: nat): (k: nat)
    requires i <= |cmd|
    ensures i <= k <= |cmd|
    decreases |cmd| - i
  {
    if i < |cmd| && cmd[i] in {' ', '\t'} then SkipBlanks(cmd, i + 1) else i
  }

  predicate IsInitial(c: char) { 'A' <= c <= 'Z' || 'a' <= c <= 'z' || c == '_' }

  predicate IsDelimChar(letter: char -> bool, c: char) {
    IsInitial(c) || '0' <= c <= '9' || c == '.' || c == '-' || (c as int >= 128 && letter(c))
  }

  function SkipWord(letter: char -> bool, cmd: string, i: nat): (k: nat)
    requires i <= |cmd|
    ensures i <= k <= |cmd|
    decreases |cmd| - i
  {
    if i < |cmd| && IsDelimChar(letter, cmd[i]) then SkipWord(letter, cmd, i + 1) else i
  }

  function Past(cmd: string, i: nat, yes: bool): (k: nat)
    requires i <= |cmd|
    ensures i <= k <= |cmd|
  {
    if yes && i < |cmd| then i + 1 else i
  }

  datatype HeredocMatch = HeredocMatch(doc: Heredoc, end: nat)

  /** The here-document operator at `i`, just past its `<<`: `-`, blanks, a backslash, a quote, the delimiter,
      the same quote. */
  function HeredocAfter(letter: char -> bool, cmd: string, i: nat): (m: Option<HeredocMatch>)
    requires i <= |cmd|
    ensures m.Some? ==> i < m.value.end <= |cmd|
  {
    var j0 := Past(cmd, i, Is(cmd, i, '-'));
    var j1 := SkipBlanks(cmd, j0);
    var j2 := Past(cmd, j1, Is(cmd, j1, '\\'));
    var quoted := Is(cmd, j2, '\'') || Is(cmd, j2, '"');
    var j3 := Past(cmd, j2, quoted);
    if j3 == |cmd| || !IsInitial(cmd[j3]) then None
    else
      var j4 := SkipWord(letter, cmd, j3 + 1);
      var doc := Heredoc(cmd[j3..j4], Is(cmd, i, '-'));
      if !quoted then Some(HeredocMatch(doc, j4))
      else if Is(cmd, j4, cmd[j2]) then Some(HeredocMatch(doc, j4 + 1))
      else None
  }

  function StripTabs(s: string): string { if s != [] && s[0] == '\t' then StripTabs(s[1..]) else s }

  /** The line `cmd[a..k]` is the delimiter line of `doc`. */
  predicate EndsDoc(cmd: string, a: nat, k: nat, doc: Heredoc)
    requires a <= k <= |cmd|
  {
    (if doc.tabs then StripTabs(cmd[a..k]) else cmd[a..k]) == doc.delim
  }

  /** Past the delimiter line of a here-document whose body starts at `i`, or the end. */
  function BodyEnd(cmd: string, i: nat, doc: Heredoc): (e: nat)
    requires i <= |cmd|
    ensures i <= e <= |cmd|
    decreases |cmd| - i
  {
    if i == |cmd| then i
    else
      var k := NextNewline(cmd, i);
      if k == |cmd| then k
      else if EndsDoc(cmd, i, k, doc) then k + 1
      else BodyEnd(cmd, k + 1, doc)
  }

  function BodiesEnd(cmd: string, i: nat, docs: seq<Heredoc>): (e: nat)
    requires i <= |cmd|
    ensures i <= e <= |cmd|
    decreases |docs|
  {
    if docs == [] then i else BodiesEnd(cmd, BodyEnd(cmd, i, docs[0]), docs[1..])
  }

  // ---- one step ----

  /** A step goes on, stays within the command, and leaves as many characters as it reads. */
  predicate Goes(cmd: string, st: Lexer, m: Move) { st.at < m.to.at <= |cmd| && |m.left| == m.to.at - st.at }

  /** Inside single quotes. */
  function SingleStep(cmd: string, st: Lexer): Move
    requires st.at < |cmd|
  {
    var c := cmd[st.at];
    if c == '\'' then Move(st.(at := st.at + 1, quote := Bare), " ")
    else Move(st.(at := st.at + 1), if InQuoteSeparator(c) || c == '`' then " " else [c])
  }

  /** Plain text inside double quotes: no quote, escape or substitution. */
  predicate InDoubleText(cmd: string, i: nat)
    requires i < |cmd|
  {
    cmd[i] !in {'"', '\\', '`'} && !(cmd[i] == '$' && Is(cmd, i + 1, '('))
  }

  function DoubleStep(cmd: string, st: Lexer): Move
    requires st.at < |cmd|
  {
    Move(st.(at := st.at + 1), if InQuoteSeparator(cmd[st.at]) then " " else [cmd[st.at]])
  }

  /** An escaped character is never a boundary. */
  function EscapeStep(cmd: string, st: Lexer): (m: Move)
    requires st.at < |cmd|
    ensures Goes(cmd, st, m)
  {
    var i := st.at;
    if i + 1 == |cmd| then Move(st.(at := i + 1), " ")
    else Move(st.(at := i + 2), if cmd[i + 1] == '\n' || st.quote != Bare then "  " else " x")
  }

  /** `$((…))`: no commands in it. */
  function ArithmeticStep(cmd: string, st: Lexer): (m: Move)
    requires st.at + 1 < |cmd|
    ensures Goes(cmd, st, m)
  {
    var e := CloseParen(cmd, st.at + 1, 0);
    var to := if e < |cmd| then e + 1 else e;
    Move(st.(at := to), Blank(cmd, st.at, to))
  }

  /** `$(`. */
  function SubstitutionStep(cmd: string, st: Lexer): (m: Move)
    requires st.at + 1 < |cmd|
    ensures Goes(cmd, st, m)
  {
    Move(st.(at := st.at + 2, quote := Bare, nesting := st.nesting + [Opened(false, st.quote)]), cmd[st.at..st.at + 2])
  }

  function Top(st: Lexer): Option<Opened> {
    if st.nesting == [] then None else Some(st.nesting[|st.nesting| - 1])
  }

  function Pop(st: Lexer): Lexer
    requires st.nesting != []
  {
    st.(quote := st.nesting[|st.nesting| - 1].back, nesting := st.nesting[..|st.nesting| - 1])
  }

  function BacktickStep(cmd: string, st: Lexer): (m: Move)
    requires st.at < |cmd|
    ensures Goes(cmd, st, m)
  {
    if Top(st).Some? && Top(st).value.tick then Move(Pop(st).(at := st.at + 1), ")")
    else Move(st.(at := st.at + 1, quote := Bare, nesting := st.nesting + [Opened(true, st.quote)]), "(")
  }

  function CloseStep(cmd: string, st: Lexer): (m: Move)
    requires st.at < |cmd|
    ensures Goes(cmd, st, m)
  {
    if Top(st).Some? && !Top(st).value.tick then Move(Pop(st).(at := st.at + 1), ")")
    else Move(st.(at := st.at + 1), [CASE_CLOSE])
  }

  predicate StartsComment(cmd: string, i: nat) {
    i < |cmd| && cmd[i] == '#' && (i == 0 || OpensWord(cmd[i - 1]))
  }

  function CommentStep(cmd: string, st: Lexer): (m: Move)
    requires StartsComment(cmd, st.at)
    ensures Goes(cmd, st, m)
  {
    var k := NextNewline(cmd, st.at);
    Move(st.(at := k), Blank(cmd, st.at, k))
  }

  /** `<<` that is no part of `<<<`. */
  predicate StartsHeredoc(cmd: string, i: nat) {
    Is(cmd, i, '<') && Is(cmd, i + 1, '<') && !Is(cmd, i + 2, '<') && (i == 0 || cmd[i - 1] != '<')
  }

  function PlainStep(cmd: string, st: Lexer): Move
    requires st.at < |cmd|
  {
    Move(st.(at := st.at + 1), [cmd[st.at]])
  }

  function HeredocStep(letter: char -> bool, cmd: string, st: Lexer): (m: Move)
    requires StartsHeredoc(cmd, st.at)
    ensures Goes(cmd, st, m)
  {
    var m := HeredocAfter(letter, cmd, st.at + 2);
    if m.None? then PlainStep(cmd, st)
    else Move(st.(at := m.value.end, heredocs := st.heredocs + [m.value.doc]), cmd[st.at..m.value.end])
  }

  /** The end of a line: every body waited for is blanked through its delimiter line. */
  function NewlineStep(cmd: string, st: Lexer): (m: Move)
    requires st.at < |cmd|
    ensures Goes(cmd, st, m)
  {
    var e := BodiesEnd(cmd, st.at + 1, st.heredocs);
    Move(st.(at := e, heredocs := []), "\n" + Blank(cmd, st.at + 1, e))
  }

  /** Outside quotes, or at what double quotes let through: an escape or a substitution. */
  function OpenStep(letter: char -> bool, cmd: string, st: Lexer): (m: Move)
    requires st.at < |cmd|
    ensures Goes(cmd, st, m)
  {
    var c := cmd[st.at];
    if c == '\\' then EscapeStep(cmd, st)
    else if c == '$' && Is(cmd, st.at + 1, '(') && Is(cmd, st.at + 2, '(') then ArithmeticStep(cmd, st)
    else if c == '$' && Is(cmd, st.at + 1, '(') then SubstitutionStep(cmd, st)
    else if c == '`' then BacktickStep(cmd, st)
    else if c == '\'' then Move(st.(at := st.at + 1, quote := Single), " ")
    else if c == '"' then Move(st.(at := st.at + 1, quote := Double), " ")
    else if c == '(' then Move(st.(at := st.at + 1, nesting := st.nesting + [Opened(false, Bare)]), "(")
    else if c == ')' then CloseStep(cmd, st)
    else if StartsComment(cmd, st.at) then CommentStep(cmd, st)
    else if StartsHeredoc(cmd, st.at) then HeredocStep(letter, cmd, st)
    else if c == '\n' then NewlineStep(cmd, st)
    else PlainStep(cmd, st)
  }

  function Step(letter: char -> bool, cmd: string, st: Lexer): (m: Move)
    requires st.at < |cmd|
    ensures st.at < m.to.at <= |cmd| && |m.left| == m.to.at - st.at
  {
    hide OpenStep;
    if st.quote == Single then SingleStep(cmd, st)
    else if st.quote == Double && InDoubleText(cmd, st.at) then DoubleStep(cmd, st)
    else if st.quote == Double && cmd[st.at] == '"' then Move(st.(at := st.at + 1, quote := Bare), " ")
    else OpenStep(letter, cmd, st)
  }

  /** What the lexer leaves of `cmd` from `st` on. */
  function Lex(letter: char -> bool, cmd: string, st: Lexer): (out: string)
    requires st.at <= |cmd|
    ensures |out| == |cmd| - st.at
    decreases |cmd| - st.at
  {
    if st.at == |cmd| then ""
    else
      var m := Step(letter, cmd, st);
      m.left + Lex(letter, cmd, m.to)
  }

  /** The lexer after `k` steps from the start (it stays once the command is read). */
  function After(letter: char -> bool, cmd: string, k: nat): (st: Lexer)
    ensures st.at <= |cmd|
  {
    if k == 0 then Start()
    else
      var st := After(letter, cmd, k - 1);
      if st.at == |cmd| then st else Step(letter, cmd, st).to
  }

  /** What those steps left. */
  function LeftBy(letter: char -> bool, cmd: string, k: nat): (out: string)
    ensures |out| == After(letter, cmd, k).at
  {
    if k == 0 then ""
    else
      var st := After(letter, cmd, k - 1);
      LeftBy(letter, cmd, k - 1) + if st.at == |cmd| then "" else Step(letter, cmd, st).left
  }

  lemma {:induction false} LexSplits(letter: char -> bool, cmd: string, k: nat)
    ensures Lex(letter, cmd, Start()) == LeftBy(letter, cmd, k) + Lex(letter, cmd, After(letter, cmd, k))
  {
    hide Step;
    if k > 0 {
      LexSplits(letter, cmd, k - 1);
    }
  }

  lemma {:induction false} AfterGrows(letter: char -> bool, cmd: string, k: nat)
    ensures k > 0 ==> After(letter, cmd, k - 1).at <= After(letter, cmd, k).at
    ensures k <= After(letter, cmd, k).at || After(letter, cmd, k).at == |cmd|
  {
    hide Step;
    if k > 0 {
      AfterGrows(letter, cmd, k - 1);
    }
  }

  // ---- quotes ----

  /** The character at `x` is the text of a quoted string: the lexer reads it inside single quotes, or as
      plain text inside double quotes. */
  ghost predicate QuotedAt(letter: char -> bool, cmd: string, st: Lexer, x: nat)
    requires st.at <= |cmd|
    decreases |cmd| - st.at
  {
    st.at < |cmd| &&
    if x < Step(letter, cmd, st).to.at then
      x >= st.at && (st.quote == Single || (st.quote == Double && InDoubleText(cmd, st.at)))
    else QuotedAt(letter, cmd, Step(letter, cmd, st).to, x)
  }

  /** Where a command line is split (the regex of the boundaries reads `&` in its context, so it is here too). */
  predicate IsBoundary(c: char) { c in {';', '&', '|', '\n', '(', CASE_CLOSE} }

  /** No quoted text is left as a separator or a backtick. It is left as a boundary exactly when it is the
      marker the lexer itself uses for a case pattern's `)`: a literal control character one. */
  lemma {:induction false} QuotedLeft(letter: char -> bool, cmd: string, st: Lexer, x: nat)
    requires st.at <= |cmd| && QuotedAt(letter, cmd, st, x)
    ensures st.at <= x < |cmd|
    ensures var c := Lex(letter, cmd, st)[x - st.at];
      && !InQuoteSeparator(c) && c != '`' && (c == ' ' || c == cmd[x])
      && (IsBoundary(c) <==> cmd[x] == CASE_CLOSE)
    decreases |cmd| - st.at
  {
    hide OpenStep;
    var m := Step(letter, cmd, st);
    if x >= m.to.at {
      QuotedLeft(letter, cmd, m.to, x);
    }
  }

  /** Such a character, quoted: the word it stands in is cut there all the same. */
  lemma QuotedMarkerCuts(letter: char -> bool)
    ensures var cmd := "'" + [CASE_CLOSE] + "'";
      QuotedAt(letter, cmd, Start(), 1) && IsBoundary(Lex(letter, cmd, Start())[1])
  {
    var cmd := "'" + [CASE_CLOSE] + "'";
    var inside := Step(letter, cmd, Start()).to;
    assert inside == Lexer(1, Single, [], []);
    assert QuotedAt(letter, cmd, inside, 1);
    QuotedLeft(letter, cmd, Start(), 1);
  }
}
