/** A version as `re.sub` reads it: a replacement template, in which a backslash starts a group reference, an
    octal code or an escape, and is an error before any other letter. */
module Template {
  import opened Common
  import opened TextLines

  /** A character of a template, the text of group 1 (what comes before the value), or the whole match. */
  datatype Part = Lit(c: char) | Key | Whole

  // ---- reading a template ----

  predicate IsDigit(c: char) { '0' <= c <= '9' }

  predicate IsOctal(c: char) { '0' <= c <= '7' }

  predicate IsLetter(c: char) { 'a' <= c <= 'z' || 'A' <= c <= 'Z' }

  function DigitOf(c: char): nat
    requires IsDigit(c)
  {
    c as int - '0' as int
  }

  function NumberOf(s: string): nat
    requires forall x | 0 <= x < |s| :: IsDigit(s[x])
  {
    if s == "" then 0 else 10 * NumberOf(s[..|s| - 1]) + DigitOf(s[|s| - 1])
  }

  /** The first `>` from `i` on, or the end. */
  function Closing(s: string, i: nat): (k: nat)
    requires i <= |s|
    ensures i <= k <= |s| && (k < |s| ==> s[k] == '>')
    decreases |s| - i
  {
    if i == |s| || s[i] == '>' then i else Closing(s, i + 1)
  }

  /** A backslash, the character after it, and how long the escape is. */
  datatype Escape = Escape(parts: seq<Part>, length: nat)

  /** A group by its number: there are two. */
  function GroupOf(n: nat, length: nat): Option<Escape> {
    match n
    case 0 => Some(Escape([Whole], length))
    case 1 => Some(Escape([Key], length))
    case _ => None
  }

  /** `\g<number>`. */
  function NamedGroup(s: string): (e: Option<Escape>)
    requires |s| >= 2
    ensures e.Some? ==> 2 < e.value.length <= |s|
  {
    if |s| == 2 || s[2] != '<' then None
    else
      var k := Closing(s, 3);
      if k == |s| || k == 3 || exists x | 3 <= x < k :: !IsDigit(s[x]) then None
      else
        assert forall x | 0 <= x < k - 3 :: s[3..k][x] == s[x + 3];
        GroupOf(NumberOf(s[3..k]), k + 1)
  }

  /** A backslash and a digit: an octal code, or a group. */
  function Numbered(s: string): (e: Option<Escape>)
    requires |s| >= 2 && IsDigit(s[1])
    ensures e.Some? ==> 2 <= e.value.length <= |s|
  {
    var two := |s| > 2 && IsDigit(s[2]);
    var octal := |s| > 2 && IsOctal(s[2]);
    var three := octal && |s| > 3 && IsOctal(s[3]);
    if s[1] == '0' then
      if three then Some(Escape([Lit((8 * DigitOf(s[2]) + DigitOf(s[3])) as char)], 4))
      else if octal then Some(Escape([Lit(DigitOf(s[2]) as char)], 3))
      else Some(Escape([Lit(0 as char)], 2))
    else if three && IsOctal(s[1]) then
      var code := 64 * DigitOf(s[1]) + 8 * DigitOf(s[2]) + DigitOf(s[3]);
      if code > 255 then None else Some(Escape([Lit(code as char)], 4))
    else if two then GroupOf(10 * DigitOf(s[1]) + DigitOf(s[2]), 3)
    else GroupOf(DigitOf(s[1]), 2)
  }

  function Control(c: char): Option<char> {
    match c
    case 'a' => Some(7 as char)
    case 'b' => Some(8 as char)
    case 'f' => Some(12 as char)
    case 'n' => Some(10 as char)
    case 'r' => Some(13 as char)
    case 't' => Some(9 as char)
    case 'v' => Some(11 as char)
    case '\\' => Some('\\')
    case _ => None
  }

  /** The letters that escape a character of their own, and the backslash itself. */
  lemma ControlsAre(c: char)
    ensures Control('n') == Some('\n') && Control('r') == Some('\r') && Control('t') == Some('\t')
    ensures Control('a') == Some('\U{7}') && Control('b') == Some('\U{8}') && Control('v') == Some('\U{B}')
    ensures Control('f') == Some('\U{C}') && Control('\\') == Some('\\')
    ensures Control(c).Some? <==> c in {'a', 'b', 'f', 'n', 'r', 't', 'v', '\\'}
  {
  }

  /** The escape at the head of `s`; None when it is an error. A backslash at the end stands for itself: the
      template goes on with a quote. */
  function EscapeAt(s: string): (e: Option<Escape>)
    requires s != "" && s[0] == '\\'
    ensures e.Some? ==> 0 < e.value.length <= |s|
  {
    if |s| == 1 then Some(Escape([Lit('\\')], 1))
    else if s[1] == 'g' then NamedGroup(s)
    else if IsDigit(s[1]) then Numbered(s)
    else if Control(s[1]).Some? then Some(Escape([Lit(Control(s[1]).value)], 2))
    else if IsLetter(s[1]) then None
    else Some(Escape([Lit('\\'), Lit(s[1])], 2))
  }

  /** The parts of a version; None when it is no template. */
  function Parts(s: string): Option<seq<Part>>
    decreases |s|
  {
    if s == "" then Some([])
    else
      var e := if s[0] == '\\' then EscapeAt(s) else Some(Escape([Lit(s[0])], 1));
      if e.None? then None
      else
        var rest := Parts(s[e.value.length..]);
        if rest.None? then None else Some(e.value.parts + rest.value)
  }

  function Literal(s: string): (ps: seq<Part>)
    ensures |ps| == |s| && forall x :: 0 <= x < |s| ==> ps[x] == Lit(s[x])
  {
    seq(|s|, x requires 0 <= x < |s| => Lit(s[x]))
  }

  /** Without a backslash a version is its own characters. */
  lemma {:induction false} PlainTemplate(s: string)
    requires '\\' !in s
    ensures Parts(s) == Some(Literal(s))
  {
    if s != "" {
      assert s[0] in s;
      PlainTemplate(s[1..]);
      assert [Lit(s[0])] + Literal(s[1..]) == Literal(s);
    }
  }

  function Doubled(s: string): string {
    if s == "" then "" else (if s[0] == '\\' then "\\\\" else [s[0]]) + Doubled(s[1..])
  }

  /** With every backslash doubled, any text is written as it is. */
  lemma {:induction false} DoubledTemplate(s: string)
    ensures Parts(Doubled(s)) == Some(Literal(s))
  {
    hide NamedGroup, Numbered;
    if s != "" {
      DoubledTemplate(s[1..]);
      var t, n := Doubled(s), if s[0] == '\\' then 2 else 1;
      assert t[n..] == Doubled(s[1..]);
      assert [Lit(s[0])] + Literal(s[1..]) == Literal(s);
    }
  }

  // ---- what a template writes ----

  function TextOf(p: Part, key: string, whole: string): string {
    match p
    case Lit(c) => [c]
    case Key => key
    case Whole => whole
  }

  function Expand(ps: seq<Part>, key: string, whole: string): string {
    if ps == [] then "" else TextOf(ps[0], key, whole) + Expand(ps[1..], key, whole)
  }

  /** A template of its own characters writes them. */
  lemma {:induction false} ExpandsLiteral(s: string, key: string, whole: string)
    ensures Expand(Literal(s), key, whole) == s
  {
    if s != "" {
      assert Literal(s)[1..] == Literal(s[1..]);
      ExpandsLiteral(s[1..], key, whole);
    }
  }

  /** The characters a value is made of. */
  predicate IsPlain(c: char) { c != '"' && c != '#' && !IsSpace(c) }

  predicate IsPlainPart(p: Part) { p.Lit? && IsPlain(p.c) }

  /** How many plain characters a template starts with. */
  function PlainHead(ps: seq<Part>): (n: nat)
    ensures n <= |ps| && (n < |ps| ==> !IsPlainPart(ps[n])) && forall x :: 0 <= x < n ==> IsPlainPart(ps[x])
  {
    if ps == [] || !IsPlainPart(ps[0]) then 0 else 1 + PlainHead(ps[1..])
  }

  /** As many plain characters does what it writes start with, groups starting with none: all there is, or less. */
  lemma {:induction false} ExpandsPlain(ps: seq<Part>, key: string, whole: string)
    requires key != "" && !IsPlain(key[0]) && whole != "" && !IsPlain(whole[0])
    ensures var v, n := Expand(ps, key, whole), PlainHead(ps);
      && n <= |v| && (n < |v| ==> !IsPlain(v[n])) && (forall x :: 0 <= x < n ==> IsPlain(v[x]))
      && (n == |ps| <==> n == |v|)
  {
    hide IsPlain;
    if ps != [] && IsPlainPart(ps[0]) {
      ExpandsPlain(ps[1..], key, whole);
    }
  }

  /** A template that is all plain writes the same whatever its groups are. */
  lemma {:induction false} ExpandsAlike(ps: seq<Part>, key: string, whole: string, other: string)
    requires PlainHead(ps) == |ps|
    ensures Expand(ps, key, whole) == Expand(ps, key, other)
  {
    if ps != [] {
      ExpandsAlike(ps[1..], key, whole, other);
    }
  }
}
