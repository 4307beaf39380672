/** Python's view of a text as lines: `str.splitlines(keepends=True)` and the join that puts them back, with
    every character Python breaks lines at; and the white space its `strip` and `\s` read. */
module TextLines {

  type Line = string

  predicate IsSpace(c: char) {
    var p := c as int;
    || 9 <= p <= 13 || 28 <= p <= 32 || p == 0x85 || p == 0xA0 || p == 0x1680 || 0x2000 <= p <= 0x200A
    || p == 0x2028 || p == 0x2029 || p == 0x202F || p == 0x205F || p == 0x3000
  }

  /** Past the white space from `i` on. */
  function SkipSpace(s: string, i: nat): (k: nat)
    requires i <= |s|
    ensures i <= k <= |s| && (k < |s| ==> !IsSpace(s[k])) && forall x :: i <= x < k ==> IsSpace(s[x])
    decreases |s| - i
  {
    if i < |s| && IsSpace(s[i]) then SkipSpace(s, i + 1) else i
  }

  lemma {:induction false} SkipSpaceIs(s: string, i: nat, k: nat)
    requires i <= k <= |s| && (k < |s| ==> !IsSpace(s[k])) && forall x :: i <= x < k ==> IsSpace(s[x])
    ensures SkipSpace(s, i) == k
    decreases k - i
  {
    if i < k {
      SkipSpaceIs(s, i + 1, k);
    }
  }

  predicate IsBreak(c: char) {
    var p := c as int;
    10 <= p <= 13 || 28 <= p <= 30 || p == 0x85 || p == 0x2028 || p == 0x2029
  }

  predicate HasBreak(s: string) { exists x :: 0 <= x < |s| && IsBreak(s[x]) }

  /** The first break at or after `i`, or the end. */
  function FirstBreak(t: string, i: nat): (k: nat)
    requires i <= |t|
    ensures i <= k <= |t| && (k < |t| ==> IsBreak(t[k])) && forall x :: i <= x < k ==> !IsBreak(t[x])
    decreases |t| - i
  {
    if i == |t| || IsBreak(t[i]) then i else FirstBreak(t, i + 1)
  }

  /** Past the first line: a carriage return and the newline after it are one break. */
  function LineEnd(t: string): (e: nat)
    requires t != ""
    ensures 0 < e <= |t|
  {
    var k := FirstBreak(t, 0);
    if k == |t| then k
    else if t[k] == '\r' && k + 1 < |t| && t[k + 1] == '\n' then k + 2
    else k + 1
  }

  function Lines(t: string): (ls: seq<Line>) {
    if t == "" then [] else [t[..LineEnd(t)]] + Lines(t[LineEnd(t)..])
  }

  function Join(ls: seq<Line>): (t: string) {
    if ls == [] then "" else ls[0] + Join(ls[1..])
  }

  // ---- lists of lines ----

  predicate IsLine(ln: Line) { ln != "" && LineEnd(ln) == |ln| }

  predicate Ends(ln: Line) { ln != "" && IsBreak(ln[|ln| - 1]) }

  predicate EndsInReturn(ln: Line) { ln != "" && ln[|ln| - 1] == '\r' }

  /** Lines one after another: only the last may lack its break. */
  predicate AreLines(ls: seq<Line>) {
    && (forall i | 0 <= i < |ls| :: IsLine(ls[i]))
    && (forall i | 0 <= i < |ls| - 1 :: Ends(ls[i]))
  }

  /** A break that is split over two lines becomes one when they are joined. */
  function Glue(ls: seq<Line>): (r: seq<Line>)
    ensures |r| <= |ls| && (ls != [] ==> r != [])
  {
    if ls == [] then []
    else if |ls| > 1 && EndsInReturn(ls[0]) && ls[1] == "\n" then [ls[0] + "\n"] + Glue(ls[2..])
    else [ls[0]] + Glue(ls[1..])
  }

  lemma {:induction false} FirstBreakIs(t: string, i: nat, k: nat)
    requires i <= k <= |t| && (k < |t| ==> IsBreak(t[k])) && forall x :: i <= x < k ==> !IsBreak(t[x])
    ensures FirstBreak(t, i) == k
    decreases k - i
  {
    hide IsBreak;
    if i < k {
      FirstBreakIs(t, i + 1, k);
    }
  }

  /** The first line of a text that starts with a whole line is that line, up to a break split between the two. */
  lemma LineEndOver(ln: Line, more: string)
    requires IsLine(ln) && (Ends(ln) || more == "")
    ensures LineEnd(ln + more) == if EndsInReturn(ln) && more != "" && more[0] == '\n' then |ln| + 1 else |ln|
  {
    var k := FirstBreak(ln, 0);
    var t := ln + more;
    assert forall x :: 0 <= x < |ln| ==> t[x] == ln[x];
    if k < |ln| {
      FirstBreakIs(t, 0, k);
    } else {
      assert more == "" && t == ln;
    }
  }

  lemma LinesOver(ln: Line, more: string)
    requires IsLine(ln) && (Ends(ln) || more == "")
    requires !(EndsInReturn(ln) && more != "" && more[0] == '\n')
    ensures Lines(ln + more) == [ln] + Lines(more)
  {
    hide IsLine;
    LineEndOver(ln, more);
    assert (ln + more)[..|ln|] == ln && (ln + more)[|ln|..] == more;
    assert ln + more != "" by {
      assert ln != "" by { LineIsThere(ln); }
    }
  }

  lemma LineIsThere(ln: Line)
    requires IsLine(ln)
    ensures ln != ""
  {
  }

  /** A line that starts with a newline is just that. */
  lemma NewlineLine(ln: Line)
    requires IsLine(ln) && ln[0] == '\n'
    ensures ln == "\n"
  {
    FirstBreakIs(ln, 0, 0);
  }

  /** Joined and split again, lines are the same lines, but for breaks that were split between two of them. */
  lemma {:induction false} LinesOfJoin(ls: seq<Line>)
    requires AreLines(ls)
    ensures Lines(Join(ls)) == Glue(ls)
    decreases |ls|
  {
    hide IsLine, LineEnd, IsBreak;
    if ls == [] {
    } else {
      var ln, more := ls[0], Join(ls[1..]);
      LineIsThere(ln);
      if |ls| > 1 {
        LineIsThere(ls[1]);
        assert more[0] == ls[1][0];
        assert Ends(ln);
      } else {
        assert more == "";
      }
      if |ls| > 1 && EndsInReturn(ln) && ls[1][0] == '\n' {
        NewlineLine(ls[1]);
        LineEndOver(ln, more);
        var rest := Join(ls[2..]);
        assert ls[1..][1..] == ls[2..];
        assert ln + more == (ln + "\n") + rest;
        assert (ln + more)[..|ln| + 1] == ln + "\n" && (ln + more)[|ln| + 1..] == rest;
        LinesOfJoin(ls[2..]);
      } else {
        LinesOver(ln, more);
        LinesOfJoin(ls[1..]);
      }
    }
  }

  lemma FirstLineIs(t: string)
    requires t != ""
    ensures IsLine(t[..LineEnd(t)]) && (LineEnd(t) < |t| ==> Ends(t[..LineEnd(t)]))
    ensures LineEnd(t) < |t| && EndsInReturn(t[..LineEnd(t)]) ==> t[LineEnd(t)] != '\n'
  {
    var k, ln := FirstBreak(t, 0), t[..LineEnd(t)];
    assert forall x :: 0 <= x < |ln| ==> ln[x] == t[x];
    FirstBreakIs(ln, 0, k);
  }

  /** No break is split between two of the lines. */
  predicate Settled(ls: seq<Line>) {
    forall i | 0 <= i < |ls| - 1 :: !(EndsInReturn(ls[i]) && ls[i + 1] == "\n")
  }

  /** The lines of a text: put back together they are the text. */
  lemma {:induction false} LinesAre(t: string)
    ensures Join(Lines(t)) == t && AreLines(Lines(t)) && Settled(Lines(t))
    decreases |t|
  {
    hide IsLine, LineEnd, IsBreak;
    if t != "" {
      FirstLineIs(t);
      var ln, more := t[..LineEnd(t)], t[LineEnd(t)..];
      LinesAre(more);
      var ls := Lines(t);
      assert ls[0] == ln && ls[1..] == Lines(more);
      assert ln + more == t;
      if more != "" {
        assert Lines(more)[0][0] == more[0];
      }
      forall i | 0 <= i < |ls| ensures IsLine(ls[i]) {
        assert i > 0 ==> ls[i] == Lines(more)[i - 1];
      }
      forall i | 0 <= i < |ls| - 1 ensures Ends(ls[i]) && !(EndsInReturn(ls[i]) && ls[i + 1] == "\n") {
        assert ls[i + 1] == Lines(more)[i];
        if i > 0 {
          assert ls[i] == Lines(more)[i - 1];
        }
      }
    }
  }

  /** Nothing is split: nothing is glued. */
  lemma {:induction false} GlueSettled(ls: seq<Line>)
    requires Settled(ls)
    ensures Glue(ls) == ls
  {
    hide EndsInReturn;
    if ls != [] {
      assert forall i | 0 <= i < |ls[1..]| :: ls[1..][i] == ls[i + 1];
      GlueSettled(ls[1..]);
    }
  }

  lemma GlueOne(ln: Line, ls: seq<Line>)
    ensures Glue([ln] + ls) ==
      if ls != [] && EndsInReturn(ln) && ls[0] == "\n" then [ln + "\n"] + Glue(ls[1..]) else [ln] + Glue(ls)
  {
    hide EndsInReturn;
    assert ([ln] + ls)[1..] == ls;
    if ls != [] {
      assert ([ln] + ls)[2..] == ls[1..];
    }
  }

  lemma GlueNone()
    ensures Glue([]) == []
  {
  }

  /** Nothing is glued between two lists when no break is split between them. */
  lemma {:induction false} GlueConcat(a: seq<Line>, b: seq<Line>)
    requires a == [] || b == [] || !(EndsInReturn(a[|a| - 1]) && b[0] == "\n")
    ensures Glue(a + b) == Glue(a) + Glue(b)
    decreases |a|
  {
    hide EndsInReturn, Glue;
    GlueNone();
    if a == [] {
      assert a + b == b;
    } else if b == [] {
      assert a + b == a;
    } else {
      var ln, s := a[0], a[1..];
      assert a == [ln] + s && a + b == [ln] + (s + b);
      GlueOne(ln, s);
      GlueOne(ln, s + b);
      if s != [] && EndsInReturn(ln) && s[0] == "\n" {
        assert (s + b)[1..] == s[1..] + b;
        GlueConcat(s[1..], b);
      } else if s == [] {
        assert s + b == b;
      } else {
        GlueConcat(s, b);
      }
    }
  }

  lemma {:induction false} JoinConcat(a: seq<Line>, b: seq<Line>)
    ensures Join(a + b) == Join(a) + Join(b)
  {
    if a == [] {
      assert a + b == b;
    } else {
      assert (a + b)[1..] == a[1..] + b;
      JoinConcat(a[1..], b);
    }
  }

  lemma {:induction false} JoinGlue(ls: seq<Line>)
    ensures Join(Glue(ls)) == Join(ls)
    decreases |ls|
  {
    if ls == [] {
    } else if |ls| > 1 && EndsInReturn(ls[0]) && ls[1] == "\n" {
      JoinGlue(ls[2..]);
      assert ls[1..][1..] == ls[2..];
      assert ls[0] + ("\n" + Join(ls[2..])) == ls[0] + "\n" + Join(ls[2..]);
    } else {
      JoinGlue(ls[1..]);
    }
  }

  lemma AreLinesConcat(a: seq<Line>, b: seq<Line>)
    requires AreLines(a) && AreLines(b) && (a == [] || b == [] || Ends(a[|a| - 1]))
    ensures AreLines(a + b)
  {
    hide IsLine, Ends;
  }

  /** A text that starts with whole lines: those lines, and then the lines of the rest. */
  lemma LinesThrough(head: seq<Line>, more: string)
    requires AreLines(head) && head != [] && Ends(head[|head| - 1]) && !EndsInReturn(head[|head| - 1])
    ensures Lines(Join(head) + more) == Glue(head) + Lines(more)
  {
    hide *;
    LinesAre(more);
    JoinConcat(head, Lines(more));
    AreLinesConcat(head, Lines(more));
    LinesOfJoin(head + Lines(more));
    GlueConcat(head, Lines(more));
    GlueSettled(Lines(more));
  }
}
