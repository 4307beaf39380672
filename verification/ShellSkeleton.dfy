/** `invariants._shell_skeleton` and `_scheduler_submits`: the lexer as the source runs it, rewriting a
    buffer in place; the bodies of functions blanked; the pieces between boundaries; and the scheduler
    commands they run. How a piece's words are walked (keywords, wrappers, options) is a parameter. */
module ShellSkeleton {
  import opened ShellLexer
  import opened ShellIndependence

  /** What a piece of the skeleton runs: scheduler commands, or a nested shell (or `eval`) whose script is
      read from the command itself. */
  datatype Action = Names(names: seq<string>) | Script(read: string -> string)

  /** The parameters: word characters outside ASCII, where a function's body opens, what a piece runs. */
  datatype Shell = Shell(letter: char -> bool, bodies: string -> seq<nat>, walk: (nat, string) -> Action)

  // ---- function bodies ----

  /** The brace closing the one at `k`, or the last character. */
  function CloseBrace(skel: string, k: nat, depth: int): (e: nat)
    requires k < |skel|
    ensures k <= e < |skel|
    decreases |skel| - k
  {
    var d := depth + (if skel[k] == '{' then 1 else if skel[k] == '}' then -1 else 0);
    if d == 0 || k + 1 == |skel| then k else CloseBrace(skel, k + 1, d)
  }

  function Spaces(n: nat): (r: string)
    ensures |r| == n
  {
    seq(n, _ => ' ')
  }

  function EraseBody(skel: string, open: nat): (r: string)
    ensures |r| == |skel|
  {
    if open >= |skel| then skel
    else
      var e := CloseBrace(skel, open, 0);
      skel[..open] + Spaces(e + 1 - open) + skel[e + 1..]
  }

  /** Opening less closing braces among the characters `a` to `b - 1`. */
  function Braces(skel: string, a: nat, b: nat): int
    requires a <= b <= |skel|
    decreases b - a
  {
    if a == b then 0
    else (if skel[a] == '{' then 1 else if skel[a] == '}' then -1 else 0) + Braces(skel, a + 1, b)
  }

  /** The closing brace is the first place where the braces balance, or the last character when they never do. */
  lemma {:induction false} CloseBraceBalances(skel: string, k: nat, depth: int)
    requires k < |skel|
    ensures var e := CloseBrace(skel, k, depth);
      && (forall y :: k < y <= e ==> depth + Braces(skel, k, y) != 0)
      && (e + 1 < |skel| ==> depth + Braces(skel, k, e + 1) == 0)
    decreases |skel| - k
  {
    var d := depth + (if skel[k] == '{' then 1 else if skel[k] == '}' then -1 else 0);
    assert forall y :: k < y <= |skel| ==> depth + Braces(skel, k, y) == d + Braces(skel, k + 1, y);
    if d != 0 && k + 1 < |skel| {
      CloseBraceBalances(skel, k + 1, d);
    }
  }

  /** Blanking a body changes nothing but the characters from its brace through the one closing it. */
  lemma BodyIsBlanked(skel: string, open: nat, x: nat)
    requires open < |skel| && x < |skel|
    ensures EraseBody(skel, open)[x] == if open <= x <= CloseBrace(skel, open, 0) then ' ' else skel[x]
  {
  }

  function EraseBodies(skel: string, opens: seq<nat>): (r: string)
    ensures |r| == |skel|
    decreases |opens|
  {
    if opens == [] then skel else EraseBodies(EraseBody(skel, opens[0]), opens[1..])
  }

  /** The skeleton: as long as the command. */
  function Skeleton(sh: Shell, cmd: string): (r: string)
    ensures |r| == |cmd|
  {
    var lexed := Lex(sh.letter, cmd, Start());
    EraseBodies(lexed, sh.bodies(lexed))
  }

  // ---- the lexer in place ----

  /** `out` is done up to the lexer, and still the command from there. */
  ghost predicate InStep(out: string, cmd: string, left: string, at: nat) {
    |left| == at <= |cmd| && out == left + cmd[at..]
  }

  lemma Rewrote(was: string, now: string, cmd: string, left: string, at: nat, m: Move)
    requires InStep(was, cmd, left, at) && Wrote(was, now, at, m)
    ensures InStep(now, cmd, left + m.left, m.to.at)
  {
  }

  method BlankInPlace(out: array<char>, a: nat, b: nat)
    requires a <= b <= out.Length
    modifies out
    ensures forall x :: 0 <= x < out.Length ==>
      out[x] == if a <= x < b && old(out[x]) != '\n' then ' ' else old(out[x])
  {
    for k := a to b
      invariant forall x :: 0 <= x < out.Length ==>
        out[x] == if a <= x < k && old(out[x]) != '\n' then ' ' else old(out[x])
    {
      if out[k] != '\n' {
        out[k] := ' ';
      }
    }
  }

  /** The body of a here-document: past its delimiter line. */
  method SkipBody(cmd: string, i: nat, doc: Heredoc) returns (e: nat)
    requires i <= |cmd|
    ensures e == BodyEnd(cmd, i, doc)
  {
    hide EndsDoc, NextNewline;
    e := i;
    while e < |cmd|
      invariant i <= e <= |cmd| && BodyEnd(cmd, e, doc) == BodyEnd(cmd, i, doc)
      decreases |cmd| - e
    {
      var k := NextNewline(cmd, e);
      if k == |cmd| {
        e := k;
      } else if EndsDoc(cmd, e, k, doc) {
        return k + 1;
      } else {
        e := k + 1;
      }
    }
  }

  /** The bodies of the pending here-documents: past the last delimiter line. */
  method SkipBodies(cmd: string, i: nat, docs: seq<Heredoc>) returns (e: nat)
    requires i <= |cmd|
    ensures e == BodiesEnd(cmd, i, docs)
  {
    hide BodyEnd;
    e := i;
    for d := 0 to |docs|
      invariant e <= |cmd| && BodiesEnd(cmd, e, docs[d..]) == BodiesEnd(cmd, i, docs)
    {
      assert docs[d..][0] == docs[d] && docs[d..][1..] == docs[d + 1..];
      e := SkipBody(cmd, e, docs[d]);
    }
  }

  /** A step written in place: what it leaves in the cells it reads, and every other cell as it was. */
  ghost predicate Wrote(was: string, now: string, at: nat, m: Move) {
    && |now| == |was| && at <= m.to.at <= |was| && |m.left| == m.to.at - at
    && forall x :: 0 <= x < |was| ==> now[x] == if at <= x < m.to.at then m.left[x - at] else was[x]
  }

  /** The buffer still is the command from the lexer on. */
  ghost predicate Unread(out: string, cmd: string, at: nat) {
    at < |cmd| == |out| && forall x :: at <= x < |cmd| ==> out[x] == cmd[x]
  }

  method EscapeInPlace(cmd: string, st: Lexer, out: array<char>) returns (to: Lexer)
    requires Unread(out[..], cmd, st.at)
    modifies out
    ensures to == EscapeStep(cmd, st).to && Wrote(old(out[..]), out[..], st.at, EscapeStep(cmd, st))
  {
    var i, n := st.at, |cmd|;
    out[i] := ' ';
    if i + 1 < n {
      out[i + 1] := if cmd[i + 1] == '\n' || st.quote != Bare then ' ' else 'x';
    }
    to := st.(at := if i + 1 < n then i + 2 else n);
  }

  method ArithmeticInPlace(cmd: string, st: Lexer, out: array<char>) returns (to: Lexer)
    requires Unread(out[..], cmd, st.at) && st.at + 1 < |cmd|
    modifies out
    ensures to == ArithmeticStep(cmd, st).to && Wrote(old(out[..]), out[..], st.at, ArithmeticStep(cmd, st))
  {
    hide CloseParen;
    var e := CloseParen(cmd, st.at + 1, 0);
    var past := if e < |cmd| then e + 1 else |cmd|;
    BlankInPlace(out, st.at, past);
    to := st.(at := past);
  }

  method BacktickInPlace(cmd: string, st: Lexer, out: array<char>) returns (to: Lexer)
    requires Unread(out[..], cmd, st.at)
    modifies out
    ensures to == BacktickStep(cmd, st).to && Wrote(old(out[..]), out[..], st.at, BacktickStep(cmd, st))
  {
    var i := st.at;
    if Top(st).Some? && Top(st).value.tick {
      out[i] := ')';
      to := Pop(st).(at := i + 1);
    } else {
      out[i] := '(';
      to := st.(at := i + 1, quote := Bare, nesting := st.nesting + [Opened(true, st.quote)]);
    }
  }

  method CloseInPlace(cmd: string, st: Lexer, out: array<char>) returns (to: Lexer)
    requires Unread(out[..], cmd, st.at) && cmd[st.at] == ')'
    modifies out
    ensures to == CloseStep(cmd, st).to && Wrote(old(out[..]), out[..], st.at, CloseStep(cmd, st))
  {
    var i := st.at;
    if Top(st).Some? && !Top(st).value.tick {
      to := Pop(st).(at := i + 1);
    } else {
      out[i] := CASE_CLOSE;
      to := st.(at := i + 1);
    }
  }

  method CommentInPlace(cmd: string, st: Lexer, out: array<char>) returns (to: Lexer)
    requires Unread(out[..], cmd, st.at) && StartsComment(cmd, st.at)
    modifies out
    ensures to == CommentStep(cmd, st).to && Wrote(old(out[..]), out[..], st.at, CommentStep(cmd, st))
  {
    hide NextNewline;
    var k := NextNewline(cmd, st.at);
    BlankInPlace(out, st.at, k);
    to := st.(at := k);
  }

  method HeredocInPlace(letter: char -> bool, cmd: string, st: Lexer, out: array<char>) returns (to: Lexer)
    requires Unread(out[..], cmd, st.at) && StartsHeredoc(cmd, st.at)
    ensures to == HeredocStep(letter, cmd, st).to && Wrote(out[..], out[..], st.at, HeredocStep(letter, cmd, st))
  {
    hide HeredocAfter;
    var m := HeredocAfter(letter, cmd, st.at + 2);
    to := if m.None? then st.(at := st.at + 1) else st.(at := m.value.end, heredocs := st.heredocs + [m.value.doc]);
  }

  method NewlineInPlace(cmd: string, st: Lexer, out: array<char>) returns (to: Lexer)
    requires Unread(out[..], cmd, st.at) && cmd[st.at] == '\n'
    modifies out
    ensures to == NewlineStep(cmd, st).to && Wrote(old(out[..]), out[..], st.at, NewlineStep(cmd, st))
  {
    hide BodiesEnd;
    var e := SkipBodies(cmd, st.at + 1, st.heredocs);
    BlankInPlace(out, st.at + 1, e);
    to := st.(at := e, heredocs := []);
  }

  /** A character left as it is, or replaced. */
  method PutInPlace(cmd: string, st: Lexer, c: char, out: array<char>, ghost m: Move)
    requires Unread(out[..], cmd, st.at) && m.to.at == st.at + 1 && m.left == [c]
    modifies out
    ensures Wrote(old(out[..]), out[..], st.at, m)
  {
    out[st.at] := c;
  }

  lemma LeavesTwo(cmd: string, st: Lexer, out: string)
    requires Unread(out, cmd, st.at) && st.at + 1 < |cmd|
    ensures Wrote(out, out, st.at, SubstitutionStep(cmd, st))
  {
  }

  /** One step, by the source's own writes. */
  method OpenInPlace(letter: char -> bool, cmd: string, st: Lexer, out: array<char>) returns (to: Lexer)
    requires Unread(out[..], cmd, st.at)
    modifies out
    ensures to == OpenStep(letter, cmd, st).to && Wrote(old(out[..]), out[..], st.at, OpenStep(letter, cmd, st))
  {
    hide EscapeStep, ArithmeticStep, BacktickStep, CloseStep, CommentStep, HeredocStep, NewlineStep,
      SubstitutionStep, Wrote,
      StartsComment, StartsHeredoc;
    var i, c := st.at, cmd[st.at];
    if c == '\\' {
      to := EscapeInPlace(cmd, st, out);
    } else if c == '$' && Is(cmd, i + 1, '(') && Is(cmd, i + 2, '(') {
      to := ArithmeticInPlace(cmd, st, out);
    } else if c == '$' && Is(cmd, i + 1, '(') {
      LeavesTwo(cmd, st, out[..]);
      to := st.(at := i + 2, quote := Bare, nesting := st.nesting + [Opened(false, st.quote)]);
      SubstitutionIs(cmd, st);
    } else if c == '`' {
      to := BacktickInPlace(cmd, st, out);
    } else if c == '\'' || c == '"' {
      to := st.(at := i + 1, quote := if c == '"' then Double else Single);
      PutInPlace(cmd, st, ' ', out, Move(to, " "));
    } else if c == '(' {
      to := st.(at := i + 1, nesting := st.nesting + [Opened(false, Bare)]);
      PutInPlace(cmd, st, c, out, Move(to, "("));
    } else if c == ')' {
      to := CloseInPlace(cmd, st, out);
    } else if StartsComment(cmd, i) {
      to := CommentInPlace(cmd, st, out);
    } else if StartsHeredoc(cmd, i) {
      to := HeredocInPlace(letter, cmd, st, out);
    } else if c == '\n' {
      to := NewlineInPlace(cmd, st, out);
    } else {
      to := st.(at := i + 1);
      PutInPlace(cmd, st, c, out, Move(to, [c]));
    }
  }

  lemma SubstitutionIs(cmd: string, st: Lexer)
    requires st.at + 1 < |cmd|
    ensures SubstitutionStep(cmd, st).to
      == st.(at := st.at + 2, quote := Bare, nesting := st.nesting + [Opened(false, st.quote)])
  {
  }

  method StepInPlace(letter: char -> bool, cmd: string, st: Lexer, out: array<char>, ghost left: string)
    returns (to: Lexer)
    requires st.at < |cmd| == out.Length && InStep(out[..], cmd, left, st.at)
    modifies out
    ensures to == Step(letter, cmd, st).to && InStep(out[..], cmd, left + Step(letter, cmd, st).left, to.at)
  {
    hide OpenStep, InDoubleText;
    var i, c := st.at, cmd[st.at];
    ghost var was := out[..];
    StillUnread(was, cmd, left, i);
    if st.quote == Single {
      to := st.(at := i + 1, quote := if c == '\'' then Bare else Single);
      PutInPlace(cmd, st, if c == '\'' || InQuoteSeparator(c) || c == '`' then ' ' else c, out, Step(letter, cmd, st));
    } else if st.quote == Double && InDoubleText(cmd, i) {
      to := st.(at := i + 1);
      PutInPlace(cmd, st, if InQuoteSeparator(c) then ' ' else c, out, Step(letter, cmd, st));
    } else if st.quote == Double && c == '"' {
      to := st.(at := i + 1, quote := Bare);
      PutInPlace(cmd, st, ' ', out, Step(letter, cmd, st));
    } else {
      to := OpenInPlace(letter, cmd, st, out);
    }
    Rewrote(was, out[..], cmd, left, i, Step(letter, cmd, st));
  }

  lemma StillUnread(out: string, cmd: string, left: string, at: nat)
    requires InStep(out, cmd, left, at) && at < |cmd|
    ensures Unread(out, cmd, at)
  {
  }

  method EraseInPlace(skel: string, opens: seq<nat>) returns (r: string)
    ensures r == EraseBodies(skel, opens)
  {
    r := skel;
    for k := 0 to |opens|
      invariant EraseBodies(r, opens[k..]) == EraseBodies(skel, opens)
    {
      assert opens[k..][0] == opens[k] && opens[k..][1..] == opens[k + 1..];
      r := EraseBody(r, opens[k]);
    }
  }

  method ShellSkeleton(sh: Shell, cmd: string) returns (skel: string)
    ensures skel == Skeleton(sh, cmd)
  {
    hide Step, Lex;
    var out := new char[|cmd|](k requires 0 <= k < |cmd| => cmd[k]);
    assert out[..] == cmd;
    var st := Start();
    ghost var left := "";
    ghost var k := 0;
    while st.at < |cmd|
      invariant st.at <= |cmd| && InStep(out[..], cmd, left, st.at)
      invariant st == After(sh.letter, cmd, k) && left == LeftBy(sh.letter, cmd, k)
      decreases |cmd| - st.at
    {
      ghost var m := Step(sh.letter, cmd, st);
      assert After(sh.letter, cmd, k + 1) == m.to && LeftBy(sh.letter, cmd, k + 1) == left + m.left;
      st := StepInPlace(sh.letter, cmd, st, out, left);
      left, k := left + m.left, k + 1;
    }
    LexSplits(sh.letter, cmd, k);
    LexEnds(sh.letter, cmd, st);
    skel := EraseInPlace(out[..], sh.bodies(out[..]));
  }

  lemma LexEnds(letter: char -> bool, cmd: string, st: Lexer)
    requires st.at == |cmd|
    ensures Lex(letter, cmd, st) == ""
  {
  }

  // ---- pieces, and what they submit ----

  /** A command boundary: `&` is none next to a redirection. */
  predicate Cuts(skel: string, x: nat)
    requires x < |skel|
  {
    skel[x] in {';', '|', '\n', '(', CASE_CLOSE}
    || (skel[x] == '&' && (x == 0 || skel[x - 1] !in {'<', '>'}) && !Is(skel, x + 1, '>'))
  }

  /** The pieces from `start` on, `x` characters read: what a case pattern's `)` closes is that pattern, no piece. */
  function Pieces(skel: string, start: nat, x: nat): seq<(nat, string)>
    requires start <= x <= |skel|
    decreases |skel| - x
  {
    if x == |skel| then [(start, skel[start..])]
    else if !Cuts(skel, x) then Pieces(skel, start, x + 1)
    else if skel[x] == CASE_CLOSE then Pieces(skel, x + 1, x + 1)
    else [(start, skel[start..x])] + Pieces(skel, x + 1, x + 1)
  }

  /** A stretch of the skeleton with no boundary in it, between boundaries or the ends, and not what a case
      pattern's `)` closes. */
  ghost predicate IsPiece(skel: string, p: (nat, string)) {
    var end := p.0 + |p.1|;
    && end <= |skel| && p.1 == skel[p.0..end]
    && (p.0 == 0 || Cuts(skel, p.0 - 1))
    && (forall y :: p.0 <= y < end ==> !Cuts(skel, y))
    && (end < |skel| ==> Cuts(skel, end) && skel[end] != CASE_CLOSE)
  }

  /** The pieces are exactly those stretches. */
  lemma {:induction false} PiecesMean(skel: string, start: nat, x: nat, p: (nat, string))
    requires start <= x <= |skel| && (start == 0 || Cuts(skel, start - 1))
    requires forall y :: start <= y < x ==> !Cuts(skel, y)
    ensures p in Pieces(skel, start, x) <==> start <= p.0 && IsPiece(skel, p)
    decreases |skel| - x
  {
    hide Cuts;
    var end := p.0 + |p.1|;
    if x == |skel| {
      if start <= p.0 && IsPiece(skel, p) {
        assert p.0 == start && end == |skel|;
        assert p.1 == skel[start..];
      }
    } else if !Cuts(skel, x) {
      PiecesMean(skel, start, x + 1, p);
    } else {
      PiecesMean(skel, x + 1, x + 1, p);
      if start <= p.0 <= x && IsPiece(skel, p) {
        assert p.0 == start && end == x;
      }
    }
  }

  method SplitPieces(skel: string) returns (pieces: seq<(nat, string)>)
    ensures pieces == Pieces(skel, 0, 0)
  {
    pieces := [];
    var start := 0;
    for x := 0 to |skel|
      invariant start <= x && pieces + Pieces(skel, start, x) == Pieces(skel, 0, 0)
    {
      if Cuts(skel, x) {
        if skel[x] != CASE_CLOSE {
          ghost var rest := Pieces(skel, x + 1, x + 1);
          assert pieces + ([(start, skel[start..x])] + rest) == pieces + [(start, skel[start..x])] + rest;
          pieces := pieces + [(start, skel[start..x])];
        }
        start := x + 1;
      }
    }
    pieces := pieces + [(start, skel[start..])];
  }

  /** The scheduler commands the pieces of `cmd` run, nested scripts (four deep) included. */
  function SubmitsOf(sh: Shell, pieces: seq<(nat, string)>, cmd: string, depth: nat): seq<string>
    requires depth <= 4
    decreases 4 - depth, 1, |pieces|
  {
    if pieces == [] then []
    else
      var found := match sh.walk(pieces[0].0, pieces[0].1)
        case Names(names) => names
        case Script(read) => if read(cmd) == "" || depth == 4 then [] else Submits(sh, read(cmd), depth + 1);
      found + SubmitsOf(sh, pieces[1..], cmd, depth)
  }

  function Submits(sh: Shell, cmd: string, depth: nat): seq<string>
    requires depth <= 4
    decreases 4 - depth, 2
  {
    SubmitsOf(sh, Pieces(Skeleton(sh, cmd), 0, 0), cmd, depth)
  }

  /** A piece of the command names the scheduler command. */
  ghost predicate NamedIn(sh: Shell, cmd: string, name: string) {
    exists p :: p in Pieces(Skeleton(sh, cmd), 0, 0) && NamedBy(sh, p, name)
  }

  predicate NamedBy(sh: Shell, p: (nat, string), name: string) {
    var a := sh.walk(p.0, p.1);
    a.Names? && name in a.names
  }

  /** A nested shell among its pieces reads the script. */
  ghost predicate RunsScript(sh: Shell, cmd: string, script: string) {
    exists p :: p in Pieces(Skeleton(sh, cmd), 0, 0) && ScriptBy(sh, cmd, p, script)
  }

  predicate ScriptBy(sh: Shell, cmd: string, p: (nat, string), script: string) {
    var a := sh.walk(p.0, p.1);
    a.Script? && a.read(cmd) == script != ""
  }

  /** Each script is read by a nested shell of the one before. */
  ghost predicate IsNest(sh: Shell, nest: seq<string>) {
    nest != [] && forall i, j :: 0 <= i < |nest| && j == i + 1 && j < |nest| ==> RunsScript(sh, nest[i], nest[j])
  }

  ghost predicate NestNames(sh: Shell, nest: seq<string>, cmd: string, depth: nat, name: string) {
    IsNest(sh, nest) && nest[0] == cmd && |nest| + depth <= 5 && NamedIn(sh, nest[|nest| - 1], name)
  }

  /** The piece names the command, or its nested shell's script does. */
  ghost predicate GivenBy(sh: Shell, p: (nat, string), cmd: string, depth: nat, name: string)
    requires depth <= 4
  {
    || NamedBy(sh, p, name)
    || (depth < 4 && exists script :: ScriptBy(sh, cmd, p, script) && name in Submits(sh, script, depth + 1))
  }

  lemma OfOnePiece(sh: Shell, p: (nat, string), cmd: string, depth: nat, name: string)
    requires depth <= 4
    ensures name in SubmitsOf(sh, [p], cmd, depth) <==> GivenBy(sh, p, cmd, depth, name)
  {
    hide Submits;
    assert SubmitsOf(sh, [p][1..], cmd, depth) == [];
    if sh.walk(p.0, p.1).Script? {
      var script := sh.walk(p.0, p.1).read(cmd);
      assert script != "" ==> ScriptBy(sh, cmd, p, script);
    }
  }

  lemma OfMorePieces(sh: Shell, pieces: seq<(nat, string)>, cmd: string, depth: nat)
    requires depth <= 4 && pieces != []
    ensures SubmitsOf(sh, pieces, cmd, depth)
      == SubmitsOf(sh, [pieces[0]], cmd, depth) + SubmitsOf(sh, pieces[1..], cmd, depth)
  {
    hide Submits;
    assert SubmitsOf(sh, [pieces[0]][1..], cmd, depth) == [];
  }

  lemma {:induction false} SubmitsOfMean(sh: Shell, pieces: seq<(nat, string)>, cmd: string, depth: nat, name: string)
    requires depth <= 4
    ensures name in SubmitsOf(sh, pieces, cmd, depth) <==> exists p :: p in pieces && GivenBy(sh, p, cmd, depth, name)
    decreases |pieces|
  {
    hide GivenBy;
    if pieces != [] {
      OfMorePieces(sh, pieces, cmd, depth);
      OfOnePiece(sh, pieces[0], cmd, depth, name);
      SubmitsOfMean(sh, pieces[1..], cmd, depth, name);
      assert forall p :: p in pieces <==> p == pieces[0] || p in pieces[1..];
    }
  }

  /** One nested shell deeper. */
  lemma NestsMore(sh: Shell, cmd: string, depth: nat, name: string, nest: seq<string>)
    requires depth < 4 && nest != [] && RunsScript(sh, cmd, nest[0]) && NestNames(sh, nest, nest[0], depth + 1, name)
    ensures NestNames(sh, [cmd] + nest, cmd, depth, name)
  {
    hide RunsScript, NamedIn;
    var more := [cmd] + nest;
    forall i, j | 0 <= i < |more| && j == i + 1 && j < |more| ensures RunsScript(sh, more[i], more[j]) {
      assert i > 0 ==> more[i] == nest[i - 1] && more[j] == nest[j - 1];
    }
  }

  lemma NestsLess(sh: Shell, cmd: string, depth: nat, name: string, nest: seq<string>)
    requires NestNames(sh, nest, cmd, depth, name) && |nest| > 1
    ensures RunsScript(sh, cmd, nest[1]) && NestNames(sh, nest[1..], nest[1], depth + 1, name)
  {
    hide RunsScript, NamedIn;
    var rest := nest[1..];
    forall i, j | 0 <= i < |rest| && j == i + 1 && j < |rest| ensures RunsScript(sh, rest[i], rest[j]) {
      assert rest[i] == nest[i + 1] && rest[j] == nest[j + 1];
    }
  }

  /** A scheduler command is found exactly when the command runs it, or a script nested in it at most four deep. */
  lemma {:induction false} SubmitsMean(sh: Shell, cmd: string, depth: nat, name: string)
    requires depth <= 4
    ensures name in Submits(sh, cmd, depth) <==> exists nest :: NestNames(sh, nest, cmd, depth, name)
    decreases 4 - depth
  {
    hide Skeleton, Pieces, NamedBy, ScriptBy;
    var pieces := Pieces(Skeleton(sh, cmd), 0, 0);
    SubmitsOfMean(sh, pieces, cmd, depth, name);
    if NamedIn(sh, cmd, name) {
      assert NestNames(sh, [cmd], cmd, depth, name);
    }
    if depth < 4 {
      if p, script :| p in pieces && ScriptBy(sh, cmd, p, script) && name in Submits(sh, script, depth + 1) {
        SubmitsMean(sh, script, depth + 1, name);
        var nest :| NestNames(sh, nest, script, depth + 1, name);
        NestsMore(sh, cmd, depth, name, nest);
      }
    }
    if nest :| NestNames(sh, nest, cmd, depth, name) {
      if |nest| > 1 {
        NestsLess(sh, cmd, depth, name, nest);
        SubmitsMean(sh, nest[1], depth + 1, name);
        var p :| p in pieces && ScriptBy(sh, cmd, p, nest[1]);
      }
    }
  }

  /** Every nested shell among the pieces reads the same script from `c` and from `d`. */
  ghost predicate SameScripts(sh: Shell, pieces: seq<(nat, string)>, c: string, d: string) {
    forall p | p in pieces :: var a := sh.walk(p.0, p.1); a.Script? ==> a.read(c) == a.read(d)
  }

  lemma {:induction false} SubmitsSame(sh: Shell, pieces: seq<(nat, string)>, c: string, d: string, depth: nat)
    requires depth <= 4 && SameScripts(sh, pieces, c, d)
    ensures SubmitsOf(sh, pieces, c, depth) == SubmitsOf(sh, pieces, d, depth)
    decreases |pieces|
  {
    if pieces != [] {
      assert pieces[0] in pieces;
      SubmitsSame(sh, pieces[1..], c, d, depth);
    }
  }

  /** Editing the text of a comment, or of here-document bodies, changes neither the skeleton nor (as long as
      no nested shell reads a script from there) the scheduler commands found. */
  lemma EditedTextSubmitsTheSame(sh: Shell, c: string, d: string, k: nat, depth: nat)
    requires depth <= 4 && (CommentEdited(sh.letter, c, d, k) || BodyEdited(sh.letter, c, d, k))
    ensures Skeleton(sh, d) == Skeleton(sh, c)
    ensures SameScripts(sh, Pieces(Skeleton(sh, c), 0, 0), c, d) ==> Submits(sh, d, depth) == Submits(sh, c, depth)
  {
    hide Lex;
    if CommentEdited(sh.letter, c, d, k) {
      CommentTextIsBlank(sh.letter, c, d, k);
    } else {
      BodyTextIsBlank(sh.letter, c, d, k);
    }
    var pieces := Pieces(Skeleton(sh, c), 0, 0);
    if SameScripts(sh, pieces, c, d) {
      SubmitsSame(sh, pieces, c, d, depth);
    }
  }
}
