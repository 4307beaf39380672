/** What the reader of a JSON string makes of text as a JSON writer puts it (RFC 8259, section 7): characters as
    themselves, the short escapes, hexadecimal escapes for the other control characters. */
module JsonText {
  import opened Common
  import opened TextLines
  import opened JsonString

  // ---- the writer ----

  /** A hexadecimal digit, a letter in either case. */
  function Nibble(n: nat, upper: bool): char
    requires n < 16
  {
    match n
    case 0 => '0'
    case 1 => '1'
    case 2 => '2'
    case 3 => '3'
    case 4 => '4'
    case 5 => '5'
    case 6 => '6'
    case 7 => '7'
    case 8 => '8'
    case 9 => '9'
    case 10 => if upper then 'A' else 'a'
    case 11 => if upper then 'B' else 'b'
    case 12 => if upper then 'C' else 'c'
    case 13 => if upper then 'D' else 'd'
    case 14 => if upper then 'E' else 'e'
    case 15 => if upper then 'F' else 'f'
  }

  /** A character as a JSON writer puts it; `slashes`: it escapes the slash, too. */
  function Put(c: char, slashes: bool): string {
    if c == '"' then "\\\""
    else if c == '\\' then "\\\\"
    else if c == '/' && slashes then "\\/"
    else if c as int == 8 then "\\b"
    else if c as int == 9 then "\\t"
    else if c as int == 10 then "\\n"
    else if c as int == 12 then "\\f"
    else if c as int == 13 then "\\r"
    else if c < ' ' then "\\u00" + [Nibble(c as int / 16, false)] + [Nibble(c as int % 16, false)]
    else [c]
  }

  function PutAll(t: string, slashes: bool): string {
    if t == "" then "" else Put(t[0], slashes) + PutAll(t[1..], slashes)
  }

  /** The code units are the text's: a character outside the first 65536 is two, that give it back. */
  predicate Spells(u: Units, t: string)
    decreases |t|
  {
    if t == "" then u == []
    else if t[0] as int < 0x10000 then u != [] && u[0] == t[0] as int && Spells(u[1..], t[1..])
    else
      && |u| >= 2 && 0xD800 <= u[0] < 0xDC00 && 0xDC00 <= u[1] < 0xE000
      && 0x10000 + (u[0] - 0xD800) * 0x400 + (u[1] - 0xDC00) == t[0] as int && Spells(u[2..], t[1..])
  }

  // ---- what the reader knows of escapes ----

  /** The short escapes, and no others. */
  lemma ShortEscapesAre(e: char)
    ensures ShortEscape(e).Some? <==> e in {'"', '\\', '/', 'b', 'f', 'n', 'r', 't'}
  {
  }

  /** The hexadecimal digits of either case, and nothing else. */
  lemma HexDigitsAre(c: char, n: nat, upper: bool)
    requires n < 16
    ensures HexValue(Nibble(n, upper)) == Some(n)
    ensures HexValue(c).Some? ==>
      HexValue(c).value < 16 && c in {Nibble(HexValue(c).value, true), Nibble(HexValue(c).value, false)}
  {
  }

  function PieceOf(c: char, slashes: bool): Piece {
    if c == '"' || c == '\\' || (c == '/' && slashes) then Short(c)
    else if c as int == 8 then Short('b')
    else if c as int == 9 then Short('t')
    else if c as int == 10 then Short('n')
    else if c as int == 12 then Short('f')
    else if c as int == 13 then Short('r')
    else if c < ' ' then Hex("00" + [Nibble(c as int / 16, false)] + [Nibble(c as int % 16, false)])
    else Raw(c)
  }

  function PiecesOf(t: string, slashes: bool): seq<Piece> {
    if t == "" then [] else [PieceOf(t[0], slashes)] + PiecesOf(t[1..], slashes)
  }

  lemma ControlIs(n: nat)
    requires n < 32
    ensures var h := ['0', '0', Nibble(n / 16, false), Nibble(n % 16, false)]; IsHex(h) && HexNumber(h) == n
  {
    HexDigitsAre('0', n / 16, false);
    HexDigitsAre('0', n % 16, false);
    HexDigitsAre('0', 0, false);
    assert Nibble(0, false) == '0';
    hide Nibble, HexValue, HexNumber;
    FourDigits(['0', '0', Nibble(n / 16, false), Nibble(n % 16, false)]);
  }

  lemma PieceIs(c: char, slashes: bool)
    ensures IsPiece(PieceOf(c, slashes)) && Render(PieceOf(c, slashes)) == Put(c, slashes)
    ensures PieceOf(c, slashes).Raw? || Means(PieceOf(c, slashes)) == [c as int]
  {
    hide Nibble, HexNumber, HexValue;
    if PieceOf(c, slashes).Hex? {
      ControlIs(c as int);
      assert PieceOf(c, slashes).digits == ['0', '0', Nibble(c as int / 16, false), Nibble(c as int % 16, false)];
    }
  }

  lemma {:induction false} PiecesAre(t: string, slashes: bool)
    ensures ArePieces(PiecesOf(t, slashes)) && RenderAll(PiecesOf(t, slashes)) == PutAll(t, slashes)
    ensures Spells(MeansAll(PiecesOf(t, slashes)), t)
  {
    hide PieceOf, Put, IsPiece;
    if t != "" {
      PieceIs(t[0], slashes);
      PiecesAre(t[1..], slashes);
      var ps := PiecesOf(t, slashes);
      assert ps[1..] == PiecesOf(t[1..], slashes);
      RawSpells(t[0], slashes);
      var head, rest := Means(ps[0]), MeansAll(ps[1..]);
      assert (head + rest)[|head|..] == rest;
    }
  }

  lemma RawSpells(c: char, slashes: bool)
    requires IsPiece(PieceOf(c, slashes))
    ensures Spells(Means(PieceOf(c, slashes)), [c])
    ensures |Means(PieceOf(c, slashes))| == if c as int < 0x10000 then 1 else 2
  {
    PieceIs(c, slashes);
  }

  /** Every text, written as a JSON writer puts it under a key, is read back as its own code units. */
  lemma TextRoundTrip(key: string, t: string, slashes: bool)
    ensures var value := ValueOf(Opening(key) + PutAll(t, slashes) + "\"}", key); value.Some? && Spells(value.value, t)
  {
    hide FindKey, Collect, Parse, Spells, Put;
    var pre, ps, after := Opening(key), PiecesOf(t, slashes), "}";
    PiecesAre(t, slashes);
    assert pre + PutAll(t, slashes) + "\"}" == pre + RenderAll(ps) + ("\"" + after);
    assert pre + RenderAll(ps) + ("\"" + after) == pre + (RenderAll(ps) + ("\"" + after));
    OpeningIsFound(key, RenderAll(ps) + ("\"" + after));
    ReadsEncoding(pre, ps, after, key);
  }

  // ---- the key ----

  /** At `p` the quoted key, after white space a colon at `i`, and after white space a quote at `j`. */
  ghost predicate IsKeyAt(s: string, key: string, p: nat, i: nat, j: nat) {
    && p + |key| + 2 <= i < j < |s| && s[p..p + |key| + 2] == "\"" + key + "\"" && s[i] == ':' && s[j] == '"'
    && (forall x :: p + |key| + 2 <= x < i ==> IsSpace(s[x])) && (forall x :: i < x < j ==> IsSpace(s[x]))
  }

  lemma KeyIsFound(s: string, key: string, p: nat, i: nat, j: nat)
    requires IsKeyAt(s, key, p, i, j)
    ensures KeyAt(s, key, p) == Some(j + 1)
  {
    SkipSpaceIs(s, p + |key| + 2, i);
    SkipSpaceIs(s, i + 1, j);
  }

  lemma FoundIsKey(s: string, key: string, p: nat) returns (i: nat, j: nat)
    requires KeyAt(s, key, p).Some?
    ensures IsKeyAt(s, key, p, i, j) && KeyAt(s, key, p) == Some(j + 1)
  {
    i := SkipSpace(s, p + |key| + 2);
    j := SkipSpace(s, i + 1);
  }

  /** The value is that of the first place where the key is, and there is none when it is nowhere. */
  lemma {:induction false} FirstKey(s: string, key: string, p: nat, q: nat, i: nat, j: nat)
    requires p <= q && IsKeyAt(s, key, q, i, j)
    requires forall x, y, z :: p <= x < q ==> !IsKeyAt(s, key, x, y, z)
    ensures FindKey(s, key, p) == Some(j + 1)
    decreases q - p
  {
    hide KeyAt, IsKeyAt;
    if p == q {
      KeyIsFound(s, key, p, i, j);
    } else {
      if KeyAt(s, key, p).Some? {
        var y, z := FoundIsKey(s, key, p);
      }
      InText(s, key, q, i, j);
      FirstKey(s, key, p + 1, q, i, j);
    }
  }

  lemma InText(s: string, key: string, p: nat, i: nat, j: nat)
    requires IsKeyAt(s, key, p, i, j)
    ensures p < |s|
  {
  }

  lemma {:induction false} NoKey(s: string, key: string, p: nat)
    requires p <= |s| && forall x: nat, y: nat, z: nat :: p <= x ==> !IsKeyAt(s, key, x, y, z)
    ensures FindKey(s, key, p).None?
    decreases |s| - p
  {
    hide KeyAt, IsKeyAt;
    if KeyAt(s, key, p).Some? {
      var y, z := FoundIsKey(s, key, p);
    }
    if p < |s| {
      NoKey(s, key, p + 1);
    }
  }

  // ---- only such text ----

  lemma HeadIsPiece(body: string) returns (p: Piece)
    requires body != "" && ParseHead(body).Some? && StepAt(body, 0) <= |body|
    ensures IsPiece(p) && Render(p) == body[..StepAt(body, 0)] && ParseHead(body) == Some(Means(p))
  {
    p := if body[0] != '\\' then Raw(body[0]) else if body[1] == 'u' then Hex(body[2..6]) else Short(body[1]);
  }

  /** What parses is such text and nothing else: characters as themselves, short escapes, and hexadecimal ones. */
  lemma {:induction false} ParsesOnlyPieces(body: string) returns (ps: seq<Piece>)
    requires Parse(body).Some?
    ensures ArePieces(ps) && RenderAll(ps) == body && Parse(body) == Some(MeansAll(ps))
    decreases |body|
  {
    hide IsPiece, ParseHead, StepAt, Render, Means;
    if body == "" {
      ps := [];
    } else {
      var p := HeadIsPiece(body);
      var rest := ParsesOnlyPieces(body[StepAt(body, 0)..]);
      ps := [p] + rest;
      assert ps[1..] == rest && body == body[..StepAt(body, 0)] + body[StepAt(body, 0)..];
    }
  }
}
