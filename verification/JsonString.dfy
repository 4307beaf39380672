/** `infra._json_string_at`: the first string value of a key in a text that may be cut off, even inside an
    escape. Text is Unicode characters; a value is UTF-16 code units, so that a pair of `\u` escapes and the
    character it names are the same value. */
module JsonString {
  import opened Common
  import opened TextLines

  type Units = seq<nat>

  // ---- characters and escapes ----

  /** The code units of a character. */
  function UnitsOf(c: char): (r: Units) {
    var p := c as int;
    if p < 0x10000 then [p] else [0xD800 + (p - 0x10000) / 0x400, 0xDC00 + (p - 0x10000) % 0x400]
  }

  function HexValue(c: char): Option<nat> {
    if '0' <= c <= '9' then Some(c as int - '0' as int)
    else if 'a' <= c <= 'f' then Some(c as int - 'a' as int + 10)
    else if 'A' <= c <= 'F' then Some(c as int - 'A' as int + 10)
    else None
  }

  predicate IsHex(h: string) { forall x | 0 <= x < |h| :: HexValue(h[x]).Some? }

  /** The value of hexadecimal digits. */
  function HexNumber(h: string): nat
    requires IsHex(h)
  {
    if h == "" then 0 else 16 * HexNumber(h[..|h| - 1]) + HexValue(h[|h| - 1]).value
  }

  /** The code unit a one-letter escape stands for. */
  function ShortEscape(e: char): Option<nat> {
    match e
    case '"' => Some(0x22)
    case '\\' => Some(0x5C)
    case '/' => Some(0x2F)
    case 'b' => Some(8)
    case 'f' => Some(12)
    case 'n' => Some(10)
    case 'r' => Some(13)
    case 't' => Some(9)
    case _ => None
  }

  // ---- the two halves of the source: collect what is whole, then have it parsed ----

  predicate StartsUnicode(s: string, i: nat) { i + 1 < |s| && s[i] == '\\' && s[i + 1] == 'u' }

  /** How many characters the source takes at `i`. */
  function StepAt(s: string, i: nat): (n: nat)
    requires i < |s|
    ensures n > 0
  {
    if StartsUnicode(s, i) then 6 else if s[i] == '\\' then 2 else 1
  }

  /** The characters up to the closing quote, or to an escape the cut split. */
  function Collect(s: string, i: nat): string
    requires i <= |s|
    decreases |s| - i
  {
    if i == |s| || s[i] == '"' || i + StepAt(s, i) > |s| then ""
    else s[i..i + StepAt(s, i)] + Collect(s, i + StepAt(s, i))
  }

  /** One character or escape at the head of a string's body, parsed; None when it is none. */
  function ParseHead(body: string): Option<Units>
    requires body != ""
  {
    if body[0] == '"' || body[0] < ' ' then None
    else if body[0] != '\\' then Some(UnitsOf(body[0]))
    else if |body| < 2 then None
    else if body[1] == 'u' then
      if |body| >= 6 && IsHex(body[2..6]) then Some([HexNumber(body[2..6])]) else None
    else
      var e := ShortEscape(body[1]);
      if e.Some? then Some([e.value]) else None
  }

  /** The value of a string's body, as a strict JSON parser reads it; None when the body is malformed. */
  function Parse(body: string): Option<Units>
    decreases |body|
  {
    if body == "" then Some([])
    else
      var head := ParseHead(body);
      var n := StepAt(body, 0);
      if head.None? || n > |body| then None
      else
        var rest := Parse(body[n..]);
        if rest.None? then None else Some(head.value + rest.value)
  }

  // ---- finding the key ----

  /** The key, a colon and an opening quote at `p`: the position after that quote. */
  function KeyAt(s: string, key: string, p: nat): (end: Option<nat>)
    ensures end.Some? ==> p < end.value <= |s|
  {
    var q := p + |Quoted(key)|;
    if q > |s| || s[p..q] != Quoted(key) then None
    else
      var i := SkipSpace(s, q);
      if i == |s| || s[i] != ':' then None
      else
        var j := SkipSpace(s, i + 1);
        if j == |s| || s[j] != '"' then None else Some(j + 1)
  }

  /** The first place from `p` on where the key's value starts. */
  function FindKey(s: string, key: string, p: nat): (end: Option<nat>)
    requires p <= |s|
    ensures end.Some? ==> p < end.value <= |s|
    decreases |s| - p
  {
    var here := KeyAt(s, key, p);
    if here.Some? then here else if p == |s| then None else FindKey(s, key, p + 1)
  }

  function ValueOf(s: string, key: string): Option<Units> {
    var start := FindKey(s, key, 0);
    if start.None? then None else Parse(Collect(s, start.value))
  }

  lemma Taken(out: string, s: string, i: nat)
    requires i < |s| && s[i] != '"' && i + StepAt(s, i) <= |s|
    ensures out + Collect(s, i) == out + s[i..i + StepAt(s, i)] + Collect(s, i + StepAt(s, i))
  {
  }

  method JsonStringAt(s: string, key: string) returns (value: Option<Units>)
    ensures value == ValueOf(s, key)
  {
    var start := FindKey(s, key, 0);
    if start.None? {
      return None;
    }
    hide FindKey, Parse, StepAt;
    var i, out := start.value, "";
    while i < |s|
      invariant i <= |s| && out + Collect(s, i) == Collect(s, start.value)
      decreases |s| - i
    {
      if s[i] == '"' {
        break;
      }
      var step := StepAt(s, i);
      if i + step > |s| {
        break;
      }
      Taken(out, s, i);
      out := out + s[i..i + step];
      i := i + step;
    }
    assert Collect(s, i) == "" && out + "" == out;
    value := Parse(out);
  }

  // ---- a cut text ----

  /** Taking a whole character or escape off the front of a body. */
  lemma ParseTail(tok: string, rest: string)
    requires tok != "" && |tok| == StepAt(tok + rest, 0)
    ensures ParseHead(tok + rest) == ParseHead(tok) && StepAt(tok, 0) == |tok|
    ensures Parse(tok + rest) ==
      if ParseHead(tok).None? || Parse(rest).None? then None else Some(ParseHead(tok).value + Parse(rest).value)
  {
    assert (tok + rest)[|tok|..] == rest;
    if |tok| == 6 {
      assert (tok + rest)[2..6] == tok[2..6];
    }
  }

  /** One more whole character or escape, of a text and of a beginning of it that holds it. */
  lemma CollectMore(s: string, k: nat, i: nat)
    requires i < k <= |s| && s[i] != '"' && i + StepAt(s, i) <= k
    ensures var n := StepAt(s, i);
      && Collect(s, i) == s[i..i + n] + Collect(s, i + n) && Collect(s[..k], i) == s[i..i + n] + Collect(s[..k], i + n)
  {
    var cut, n := s[..k], StepAt(s, i);
    assert StepAt(cut, i) == n && cut[i..i + n] == s[i..i + n];
  }

  /** A character or escape in a text is one by itself, whatever follows. */
  lemma StepAlone(s: string, i: nat, rest: string)
    requires i < |s| && i + StepAt(s, i) <= |s|
    ensures var tok := s[i..i + StepAt(s, i)]; tok != "" && |tok| == StepAt(tok + rest, 0)
  {
  }

  /** What is collected from a cut text is a beginning of what is collected from the whole: as many whole
      characters and escapes as fit. So where the whole parses, the cut parses to a prefix. */
  lemma {:induction false} CutCollects(s: string, k: nat, i: nat)
    requires i <= k <= |s| && Parse(Collect(s, i)).Some?
    ensures Parse(Collect(s[..k], i)).Some?
    ensures Parse(Collect(s[..k], i)).value <= Parse(Collect(s, i)).value
    decreases |s| - i
  {
    if i < k && s[i] != '"' && i + StepAt(s, i) <= k {
      hide Collect, Parse, ParseHead, StepAt;
      var n := StepAt(s, i);
      var tok, whole, part := s[i..i + n], Collect(s, i + n), Collect(s[..k], i + n);
      CollectMore(s, k, i);
      StepAlone(s, i, whole);
      StepAlone(s, i, part);
      ParseTail(tok, whole);
      CutCollects(s, k, i + n);
      ParseTail(tok, part);
    } else {
      CollectsNone(s, k, i);
    }
  }

  lemma CollectsNone(s: string, k: nat, i: nat)
    requires i <= k <= |s| && (i == k || s[i] == '"' || i + StepAt(s, i) > k)
    ensures Collect(s[..k], i) == "" && Parse("") == Some([])
  {
  }

  lemma SkipSpaceCut(s: string, k: nat, i: nat)
    requires i <= k <= |s|
    ensures SkipSpace(s[..k], i) == if SkipSpace(s, i) <= k then SkipSpace(s, i) else k
  {
    SkipSpaceIs(s[..k], i, if SkipSpace(s, i) <= k then SkipSpace(s, i) else k);
  }

  /** A cut text has the key where the whole has it, when the cut is past the opening quote, and nowhere else. */
  lemma KeyCut(s: string, key: string, k: nat, p: nat)
    requires p <= k <= |s|
    ensures KeyAt(s, key, p).Some? && KeyAt(s, key, p).value <= k ==> KeyAt(s[..k], key, p) == KeyAt(s, key, p)
    ensures KeyAt(s, key, p).None? ==> KeyAt(s[..k], key, p).None?
  {
    hide SkipSpace, Quoted, IsSpace;
    var cut := s[..k];
    var q := p + |Quoted(key)|;
    if q <= k {
      assert cut[p..q] == s[p..q];
      SkipSpaceCut(s, k, q);
      var i := SkipSpace(s, q);
      if i < k {
        assert cut[i] == s[i];
        SkipSpaceCut(s, k, i + 1);
        var j := SkipSpace(s, i + 1);
        assert j < k ==> cut[j] == s[j];
      }
    }
  }

  lemma {:induction false} FindCut(s: string, key: string, k: nat, p: nat)
    requires p <= |s| && FindKey(s, key, p).Some? && FindKey(s, key, p).value <= k <= |s|
    ensures FindKey(s[..k], key, p) == FindKey(s, key, p)
    decreases |s| - p
  {
    hide KeyAt;
    KeyCut(s, key, k, p);
    if KeyAt(s, key, p).None? {
      FindCut(s, key, k, p + 1);
    }
  }

  /** Wherever a text is cut after the opening quote, even inside an escape, a prefix of the value is read. */
  lemma CutReadsPrefix(s: string, key: string, k: nat)
    requires ValueOf(s, key).Some?
    requires FindKey(s, key, 0).value <= k <= |s|
    ensures ValueOf(s[..k], key).Some? && ValueOf(s[..k], key).value <= ValueOf(s, key).value
  {
    FindCut(s, key, k, 0);
    CutCollects(s, k, FindKey(s, key, 0).value);
  }

  // ---- every encoding of every value (RFC 8259, section 7) ----

  /** One character of a JSON string: as itself, as a one-letter escape, or as four hexadecimal digits. */
  datatype Piece = Raw(c: char) | Short(e: char) | Hex(digits: string)

  predicate IsPiece(p: Piece) {
    match p
    case Raw(c) => c != '"' && c != '\\' && c >= ' '
    case Short(e) => ShortEscape(e).Some?
    case Hex(digits) => |digits| == 4 && IsHex(digits)
  }

  predicate ArePieces(ps: seq<Piece>) { forall p | p in ps :: IsPiece(p) }

  function Render(p: Piece): string {
    match p
    case Raw(c) => [c]
    case Short(e) => ['\\', e]
    case Hex(digits) => "\\u" + digits
  }

  function Means(p: Piece): Units
    requires IsPiece(p)
  {
    match p
    case Raw(c) => UnitsOf(c)
    case Short(e) => [ShortEscape(e).value]
    case Hex(digits) => [HexNumber(digits)]
  }

  function RenderAll(ps: seq<Piece>): string {
    if ps == [] then "" else Render(ps[0]) + RenderAll(ps[1..])
  }

  function MeansAll(ps: seq<Piece>): Units
    requires ArePieces(ps)
  {
    if ps == [] then [] else Means(ps[0]) + MeansAll(ps[1..])
  }

  lemma PieceParses(p: Piece, rest: string)
    requires IsPiece(p)
    ensures Render(p) != "" && Render(p)[0] != '"'
    ensures StepAt(Render(p) + rest, 0) == |Render(p)| && ParseHead(Render(p)) == Some(Means(p))
  {
    if p.Hex? {
      assert Render(p)[2..6] == p.digits;
    } else if p.Short? {
      assert p.e != 'u';
    }
  }

  /** Collecting does not depend on what comes before. */
  lemma {:induction false} CollectShift(pre: string, s: string, i: nat)
    requires i <= |s|
    ensures Collect(pre + s, |pre| + i) == Collect(s, i)
    decreases |s| - i
  {
    var all := pre + s;
    if i < |s| {
      assert all[|pre| + i] == s[i] && StepAt(all, |pre| + i) == StepAt(s, i);
      if s[i] != '"' && i + StepAt(s, i) <= |s| {
        assert all[|pre| + i..|pre| + i + StepAt(s, i)] == s[i..i + StepAt(s, i)];
        CollectShift(pre, s, i + StepAt(s, i));
      }
    }
  }

  /** A whole character or escape is collected, and then what follows it. */
  lemma CollectHead(tok: string, rest: string)
    requires tok != "" && tok[0] != '"' && StepAt(tok + rest, 0) == |tok|
    ensures Collect(tok + rest, 0) == tok + Collect(rest, 0)
  {
    CollectShift(tok, rest, 0);
    assert (tok + rest)[0..|tok|] == tok;
  }

  /** What ends the collecting: the quote, nothing, or an escape that is cut. */
  predicate EndsValue(tail: string) { tail == "" || tail[0] == '"' || StepAt(tail, 0) > |tail| }

  /** Collecting takes all the pieces, up to the quote or the cut that follows, and they parse to their meaning. */
  lemma {:induction false} CollectsPieces(ps: seq<Piece>, tail: string)
    requires ArePieces(ps) && EndsValue(tail)
    ensures Collect(RenderAll(ps) + tail, 0) == RenderAll(ps)
    ensures Parse(RenderAll(ps)) == Some(MeansAll(ps))
    decreases |ps|
  {
    hide Render, ParseHead, IsPiece, StepAt;
    if ps == [] {
      assert RenderAll(ps) + tail == tail;
    } else {
      var tok, rest := Render(ps[0]), RenderAll(ps[1..]);
      PieceParses(ps[0], rest);
      PieceParses(ps[0], rest + tail);
      ParseTail(tok, rest);
      CollectsPieces(ps[1..], tail);
      assert RenderAll(ps) + tail == tok + (rest + tail);
      CollectHead(tok, rest + tail);
    }
  }

  lemma ReadsPieces(pre: string, ps: seq<Piece>, tail: string)
    requires ArePieces(ps) && EndsValue(tail)
    ensures Parse(Collect(pre + RenderAll(ps) + tail, |pre|)) == Some(MeansAll(ps))
  {
    hide *;
    CollectsPieces(ps, tail);
    CollectShift(pre, RenderAll(ps) + tail, 0);
    assert pre + RenderAll(ps) + tail == pre + (RenderAll(ps) + tail);
  }

  lemma CutPiece(p: Piece, j: nat)
    requires IsPiece(p) && j < |Render(p)|
    ensures EndsValue(Render(p)[..j])
  {
  }

  /** The inverse: whatever pieces a value is written with, reading the key gives the value back. */
  lemma ReadsEncoding(pre: string, ps: seq<Piece>, after: string, key: string)
    requires ArePieces(ps)
    requires FindKey(pre + RenderAll(ps) + ("\"" + after), key, 0) == Some(|pre|)
    ensures ValueOf(pre + RenderAll(ps) + ("\"" + after), key) == Some(MeansAll(ps))
  {
    ReadsPieces(pre, ps, "\"" + after);
  }

  /** A cut inside piece `m`, at its start or after `j` of its characters, gives exactly the pieces before it. */
  lemma ReadsWholePieces(pre: string, ps: seq<Piece>, key: string, m: nat, j: nat)
    requires ArePieces(ps) && m < |ps| && j < |Render(ps[m])|
    requires FindKey(pre + RenderAll(ps[..m]) + Render(ps[m])[..j], key, 0) == Some(|pre|)
    ensures ValueOf(pre + RenderAll(ps[..m]) + Render(ps[m])[..j], key) == Some(MeansAll(ps[..m]))
  {
    var tail := Render(ps[m])[..j];
    assert ps[m] in ps && IsPiece(ps[m]);
    CutPiece(ps[m], j);
    ReadsPieces(pre, ps[..m], tail);
  }

  function HexDigit(n: nat): (c: char)
    requires n < 16
    ensures HexValue(c) == Some(n)
  {
    if n < 10 then '0' + n as char else 'a' + (n - 10) as char
  }

  function HexDigits(u: nat): string
    requires u < 0x10000
  {
    var a := u / 16;
    var b := a / 16;
    [HexDigit(b / 16), HexDigit(b % 16), HexDigit(a % 16), HexDigit(u % 16)]
  }

  lemma FourDigits(h: string)
    requires |h| == 4 && IsHex(h)
    ensures HexNumber(h)
      == 16 * (16 * (16 * HexValue(h[0]).value + HexValue(h[1]).value) + HexValue(h[2]).value) + HexValue(h[3]).value
  {
    hide HexValue;
    assert h[..3][..2] == h[..2] && h[..2][..1] == h[..1] && h[..1][..0] == "";
    assert HexNumber(h[..1]) == HexValue(h[0]).value;
    assert HexNumber(h[..2]) == 16 * HexNumber(h[..1]) + HexValue(h[1]).value;
    assert HexNumber(h[..3]) == 16 * HexNumber(h[..2]) + HexValue(h[2]).value;
  }

  /** Four digits give their code unit back. */
  lemma HexRoundTrip(u: nat)
    requires u < 0x10000
    ensures IsHex(HexDigits(u)) && HexNumber(HexDigits(u)) == u
  {
    hide HexDigit, HexValue, HexNumber;
    FourDigits(HexDigits(u));
  }

  /** Every value can be written. */
  function Written(v: Units): (ps: seq<Piece>)
    requires forall x | 0 <= x < |v| :: v[x] < 0x10000
  {
    if v == [] then [] else [Hex(HexDigits(v[0]))] + Written(v[1..])
  }

  lemma {:induction false} EveryValueIsWritten(v: Units)
    requires forall x | 0 <= x < |v| :: v[x] < 0x10000
    ensures ArePieces(Written(v)) && MeansAll(Written(v)) == v
  {
    if v != [] {
      HexRoundTrip(v[0]);
      EveryValueIsWritten(v[1..]);
    }
  }

  // ---- a whole object ----

  function Opening(key: string): string { "{" + Quoted(key) + ":\"" }

  /** The object that holds `v` under `key`. */
  function Encode(key: string, v: Units): string
    requires forall x | 0 <= x < |v| :: v[x] < 0x10000
  {
    Opening(key) + RenderAll(Written(v)) + "\"}"
  }

  lemma OpeningIsFound(key: string, rest: string)
    ensures FindKey(Opening(key) + rest, key, 0) == Some(|Opening(key)|)
  {
    var s, q := Opening(key) + rest, 1 + |Quoted(key)|;
    assert s[1..q] == Quoted(key) && s[q] == ':' && s[q + 1] == '"';
    assert |Quoted(key)| <= |s| ==> s[0..|Quoted(key)|][0] == '{' != Quoted(key)[0];
    assert SkipSpace(s, q) == q && SkipSpace(s, q + 1) == q + 1;
    assert KeyAt(s, key, 1) == Some(q + 2);
    assert FindKey(s, key, 1) == Some(q + 2);
  }

  /** Every value comes back from the object that holds it; from the object cut anywhere past the opening
      quote, a prefix of it does. */
  lemma RoundTrip(key: string, v: Units, k: nat)
    requires forall x | 0 <= x < |v| :: v[x] < 0x10000
    requires |Opening(key)| <= k <= |Encode(key, v)|
    ensures ValueOf(Encode(key, v), key) == Some(v)
    ensures var cut := ValueOf(Encode(key, v)[..k], key); cut.Some? && cut.value <= v
  {
    hide FindKey, Collect, Parse;
    var pre, ps, after := Opening(key), Written(v), "}";
    EveryValueIsWritten(v);
    assert Encode(key, v) == pre + RenderAll(ps) + ("\"" + after);
    assert Encode(key, v) == pre + (RenderAll(ps) + ("\"" + after));
    OpeningIsFound(key, RenderAll(ps) + ("\"" + after));
    ReadsEncoding(pre, ps, after, key);
    CutReadsPrefix(Encode(key, v), key, k);
  }
}
