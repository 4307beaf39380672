/** `pairwise.py`: the greedy covering-array generator. Factors are known by their position in
    declaration order; a row gives each factor one of its levels. The loops are the source's; what
    they compute is pinned by specification functions, about which the theorems are proved. */
module Pairwise {
  import opened Common
  import opened StableSort

  type Factors = seq<seq<string>>
  type Row = seq<string>

  datatype Choice = Choice(factor: nat, level: string)
  datatype Pair = Pair(first: Choice, second: Choice)

  /** A whole-row rule, when there is one. */
  type Rule = Option<Row -> bool>

  datatype Problem = BadConstraint | NoRowCovers(left: set<Pair>)

  function Key(a: Choice, b: Choice): Pair { if a.factor < b.factor then Pair(a, b) else Pair(b, a) }

  // ---- constraints ----

  predicate IsLevel(factors: Factors, c: Choice) { c.factor < |factors| && c.level in factors[c.factor] }

  /** Every constraint names exactly two different factors, each with one of its levels. */
  predicate ConstraintsHold(factors: Factors, forbidden: seq<seq<Choice>>) {
    forall c: seq<Choice> | c in forbidden ::
      |c| == 2 && c[0].factor != c[1].factor && IsLevel(factors, c[0]) && IsLevel(factors, c[1])
  }

  /** The two levels of a constraint, the earlier factor's first. */
  predicate IsNamed(forbidden: seq<seq<Choice>>, p: Pair) {
    && p.first.factor < p.second.factor
    && exists c | c in forbidden :: |c| == 2 && (p == Pair(c[0], c[1]) || p == Pair(c[1], c[0]))
  }

  function ForbiddenPairs(factors: Factors, forbidden: seq<seq<Choice>>): (bad: set<Pair>)
    requires ConstraintsHold(factors, forbidden)
    ensures forall p :: p in bad <==> IsNamed(forbidden, p)
  {
    set c | c in forbidden :: Key(c[0], c[1])
  }

  // ---- pairs and rows ----

  predicate IsPair(factors: Factors, p: Pair) {
    p.first.factor < p.second.factor && IsLevel(factors, p.first) && IsLevel(factors, p.second)
  }

  function WithLevel(a: Choice, fb: nat, bs: seq<string>): (r: seq<Pair>)
    ensures forall p :: p in r <==> p.first == a && p.second.factor == fb && p.second.level in bs
  {
    if bs == [] then [] else [Pair(a, Choice(fb, bs[0]))] + WithLevel(a, fb, bs[1..])
  }

  function OfFactors(fa: nat, las: seq<string>, fb: nat, bs: seq<string>): (r: seq<Pair>)
    ensures forall p :: p in r <==> p.first.factor == fa && p.first.level in las
                                    && p.second.factor == fb && p.second.level in bs
  {
    if las == [] then [] else WithLevel(Choice(fa, las[0]), fb, bs) + OfFactors(fa, las[1..], fb, bs)
  }

  function WithLater(factors: Factors, fa: nat, fb: nat): (r: seq<Pair>)
    requires fa < fb <= |factors|
    ensures forall p :: p in r <==> p.first.factor == fa && fb <= p.second.factor && IsPair(factors, p)
    decreases |factors| - fb
  {
    if fb == |factors| then []
    else OfFactors(fa, factors[fa], fb, factors[fb]) + WithLater(factors, fa, fb + 1)
  }

  /** Every pair of levels of two different factors, in factor, then level, order. */
  function PairsFrom(factors: Factors, fa: nat): (r: seq<Pair>)
    requires fa <= |factors|
    ensures forall p :: p in r <==> fa <= p.first.factor && IsPair(factors, p)
    decreases |factors| - fa
  {
    if fa == |factors| then [] else WithLater(factors, fa, fa + 1) + PairsFrom(factors, fa + 1)
  }

  /** What the rows must cover: every pair no constraint names. */
  function AllPairs(factors: Factors, bad: set<Pair>): (r: set<Pair>)
    ensures forall p :: p in r <==> IsPair(factors, p) && p !in bad
  {
    set p | p in PairsFrom(factors, 0) && p !in bad
  }

  /** Pairs in the order seeds are tried. */
  function Ordered(factors: Factors, s: set<Pair>): (r: seq<Pair>) {
    Filter(PairsFrom(factors, 0), (p: Pair) => p in s)
  }

  predicate IsRow(factors: Factors, row: Row) {
    |row| == |factors| && forall f | 0 <= f < |row| :: row[f] in factors[f]
  }

  function PairAt(row: Row, a: nat, b: nat): Pair
    requires a < |row| && b < |row|
  {
    Pair(Choice(a, row[a]), Choice(b, row[b]))
  }

  function PairsOf(row: Row): (r: set<Pair>)
    ensures forall p :: p in r <==> p.first.factor < p.second.factor < |row|
                                    && p == PairAt(row, p.first.factor, p.second.factor)
  {
    set a: nat, b: nat | a < |row| && b < |row| && a < b :: PairAt(row, a, b)
  }

  predicate Allowed(row: Row, bad: set<Pair>) {
    forall a: nat, b: nat | a < b < |row| :: PairAt(row, a, b) !in bad
  }

  lemma AllowedMeans(row: Row, bad: set<Pair>)
    ensures Allowed(row, bad) <==> PairsOf(row) !! bad
  {
    if Allowed(row, bad) {
    } else {
      var a: nat, b: nat :| a < b < |row| && PairAt(row, a, b) in bad;
      assert PairAt(row, a, b) in PairsOf(row);
    }
  }

  predicate Keeps(valid: Rule, row: Row) { valid.None? || valid.value(row) }

  /** What every row of a table must be. */
  ghost predicate Good(factors: Factors, bad: set<Pair>, valid: Rule, row: Row) {
    IsRow(factors, row) && Allowed(row, bad) && Keeps(valid, row)
  }

  function Gain(row: Row, uncovered: set<Pair>): nat { |PairsOf(row) * uncovered| }

  // ---- the first best of a list: the loop the source writes three times ----

  /** The best admissible element of `xs`: the greatest gain, the earlier one on a tie. */
  function FirstBest<T(!new)>(xs: seq<T>, ok: T -> bool, gain: T -> nat): (best: Option<T>)
    ensures best.None? <==> forall x :: x in xs ==> !ok(x)
    ensures best.Some? ==>
      best.value in xs && ok(best.value) && forall x :: x in xs && ok(x) ==> gain(x) <= gain(best.value)
  {
    if xs == [] then None
    else
      var n := |xs| - 1;
      var best := FirstBest(xs[..n], ok, gain);
      assert forall x :: x in xs <==> x in xs[..n] || x == xs[n];
      if ok(xs[n]) && (best.None? || gain(xs[n]) > gain(best.value)) then Some(xs[n]) else best
  }

  /** Nothing admissible before the chosen element gains as much. */
  lemma {:induction false} FirstBestIsFirst<T(!new)>(xs: seq<T>, ok: T -> bool, gain: T -> nat)
    requires FirstBest(xs, ok, gain).Some?
    ensures var best := FirstBest(xs, ok, gain).value;
      exists i :: 0 <= i < |xs| && xs[i] == best
                  && forall j :: 0 <= j < i && ok(xs[j]) ==> gain(xs[j]) < gain(best)
  {
    var n := |xs| - 1;
    var before := FirstBest(xs[..n], ok, gain);
    if ok(xs[n]) && (before.None? || gain(xs[n]) > gain(before.value)) {
      assert xs[n] == FirstBest(xs, ok, gain).value;
      forall j | 0 <= j < n && ok(xs[j]) ensures gain(xs[j]) < gain(xs[n]) {
        assert xs[..n][j] == xs[j] && xs[j] in xs[..n];
      }
    } else {
      FirstBestIsFirst(xs[..n], ok, gain);
      var i :| 0 <= i < n && xs[..n][i] == before.value
               && forall j :: 0 <= j < i && ok(xs[..n][j]) ==> gain(xs[..n][j]) < gain(before.value);
      assert xs[i] == before.value;
      forall j | 0 <= j < i && ok(xs[j]) ensures gain(xs[j]) < gain(before.value) {
        assert xs[..n][j] == xs[j];
      }
    }
  }

  method PickBest<T(!new)>(xs: seq<T>, ok: T -> bool, gain: T -> nat) returns (best: Option<T>)
    ensures best == FirstBest(xs, ok, gain)
  {
    best := None;
    var bestGain: int := -1;
    for k := 0 to |xs|
      invariant best == FirstBest(xs[..k], ok, gain)
      invariant bestGain == if best.None? then -1 else gain(best.value)
    {
      assert xs[..k + 1][..k] == xs[..k];
      if ok(xs[k]) {
        var g := gain(xs[k]);
        if g > bestGain {
          best, bestGain := Some(xs[k]), g;
        }
      }
    }
    assert xs[..|xs|] == xs;
  }

  // ---- filling a row from a seed ----

  /** The level `lv` of factor `f` is in no forbidden pair with a level already chosen. */
  predicate Fits(row: map<nat, string>, f: nat, lv: string, bad: set<Pair>) {
    forall g | g in row :: Key(Choice(f, lv), Choice(g, row[g])) !in bad
  }

  function NewPairs(row: map<nat, string>, f: nat, lv: string, uncovered: set<Pair>): nat {
    |set g | g in row && Key(Choice(f, lv), Choice(g, row[g])) in uncovered|
  }

  function BestLevel(factors: Factors, row: map<nat, string>, f: nat, uncovered: set<Pair>,
                     bad: set<Pair>): Option<string>
    requires f < |factors|
  {
    FirstBest(factors[f], (lv: string) => Fits(row, f, lv, bad), (lv: string) => NewPairs(row, f, lv, uncovered))
  }

  function SeedRow(seed: Pair): map<nat, string> {
    map[seed.first.factor := seed.first.level, seed.second.factor := seed.second.level]
  }

  /** The partial row once the first `f` factors have been given a level; None when one has none left. */
  function Filled(factors: Factors, seed: Pair, uncovered: set<Pair>, bad: set<Pair>, f: nat): Option<map<nat, string>>
    requires f <= |factors|
  {
    if f == 0 then Some(SeedRow(seed))
    else
      var before := Filled(factors, seed, uncovered, bad, f - 1);
      if before.None? || f - 1 in before.value then before
      else
        var lv := BestLevel(factors, before.value, f - 1, uncovered, bad);
        if lv.None? then None else Some(before.value[f - 1 := lv.value])
  }

  /** A partial row: levels only, nothing forbidden together, the seed in place, `f` factors filled. */
  ghost predicate Partial(factors: Factors, seed: Pair, bad: set<Pair>, row: map<nat, string>, f: nat) {
    && (forall g | g in row :: IsLevel(factors, Choice(g, row[g])))
    && (forall g: nat | g < f :: g in row)
    && (forall g, h | g in row && h in row && g < h :: Pair(Choice(g, row[g]), Choice(h, row[h])) !in bad)
    && seed.first.factor in row && row[seed.first.factor] == seed.first.level
    && seed.second.factor in row && row[seed.second.factor] == seed.second.level
  }

  lemma SeedIsPartial(factors: Factors, seed: Pair, bad: set<Pair>)
    requires IsPair(factors, seed) && seed !in bad
    ensures Partial(factors, seed, bad, SeedRow(seed), 0)
  {
  }

  /** Giving a factor a level that fits keeps the row partial. */
  lemma FitKeepsPartial(factors: Factors, seed: Pair, bad: set<Pair>, row: map<nat, string>, f: nat, lv: string)
    requires Partial(factors, seed, bad, row, f) && f !in row
    requires IsLevel(factors, Choice(f, lv)) && Fits(row, f, lv, bad)
    ensures Partial(factors, seed, bad, row[f := lv], f + 1)
  {
    hide IsLevel;
    var more := row[f := lv];
    forall g, h | g in more && h in more && g < h ensures Pair(Choice(g, more[g]), Choice(h, more[h])) !in bad {
      if g == f || h == f {
        assert Key(Choice(f, lv), Choice(if g == f then h else g, row[if g == f then h else g])) !in bad;
      }
    }
  }

  lemma ChosenKeepsPartial(factors: Factors, seed: Pair, bad: set<Pair>, row: map<nat, string>, f: nat)
    requires Partial(factors, seed, bad, row, f) && f in row
    ensures Partial(factors, seed, bad, row, f + 1)
  {
  }

  lemma {:induction false} FilledIsPartial(factors: Factors, seed: Pair, uncovered: set<Pair>, bad: set<Pair>, f: nat)
    requires f <= |factors| && IsPair(factors, seed) && seed !in bad
    requires Filled(factors, seed, uncovered, bad, f).Some?
    ensures Partial(factors, seed, bad, Filled(factors, seed, uncovered, bad, f).value, f)
  {
    hide Partial, Fits, NewPairs, SeedRow, IsPair;
    if f == 0 {
      SeedIsPartial(factors, seed, bad);
    } else {
      FilledIsPartial(factors, seed, uncovered, bad, f - 1);
      var row := Filled(factors, seed, uncovered, bad, f - 1).value;
      if f - 1 !in row {
        FitKeepsPartial(factors, seed, bad, row, f - 1, BestLevel(factors, row, f - 1, uncovered, bad).value);
      } else {
        ChosenKeepsPartial(factors, seed, bad, row, f - 1);
      }
    }
  }

  function RowOf(factors: Factors, row: map<nat, string>): Row
    requires forall f: nat | f < |factors| :: f in row
  {
    seq(|factors|, f requires 0 <= f < |factors| => row[f])
  }

  lemma PartialMakesRow(factors: Factors, seed: Pair, bad: set<Pair>, row: map<nat, string>)
    requires Partial(factors, seed, bad, row, |factors|) && IsPair(factors, seed)
    ensures IsRow(factors, RowOf(factors, row)) && Allowed(RowOf(factors, row), bad)
      && seed in PairsOf(RowOf(factors, row))
  {
    var out := RowOf(factors, row);
    forall f | 0 <= f < |out| ensures out[f] in factors[f] {
      assert f in row && IsLevel(factors, Choice(f, row[f]));
    }
    assert seed == PairAt(out, seed.first.factor, seed.second.factor);
  }

  // ---- mending a row that breaks the whole-row rule ----

  predicate IsFree(seed: Pair, f: nat) { f != seed.first.factor && f != seed.second.factor }

  /** Factor `f` changed to each of `levels` but its own, in order. */
  function Changes(row: Row, f: nat, levels: seq<string>): (r: seq<Row>)
    requires f < |row|
    ensures forall c :: c in r <==> exists lv :: lv in levels && lv != row[f] && c == row[f := lv]
  {
    if levels == [] then []
    else
      var rest := Changes(row, f, levels[1..]);
      assert levels[0] in levels && forall lv :: lv in levels <==> lv == levels[0] || lv in levels[1..];
      if levels[0] == row[f] then rest else [row[f := levels[0]]] + rest
  }

  /** The rows one change of a free factor from `f` on away. */
  function OneChange(factors: Factors, row: Row, seed: Pair, f: nat): (r: seq<Row>)
    requires |row| == |factors| && f <= |row|
    decreases |row| - f
  {
    if f == |row| then []
    else if IsFree(seed, f) then Changes(row, f, factors[f]) + OneChange(factors, row, seed, f + 1)
    else OneChange(factors, row, seed, f + 1)
  }

  /** Each of `rows` with factor `g` changed. */
  function ChangesOfAll(rows: seq<Row>, g: nat, levels: seq<string>): (r: seq<Row>)
    requires forall c | c in rows :: g < |c|
  {
    if rows == [] then [] else Changes(rows[0], g, levels) + ChangesOfAll(rows[1..], g, levels)
  }

  /** Factor `f` and a later free factor, from `g` on, changed. */
  function TwoChangesFrom(factors: Factors, row: Row, seed: Pair, f: nat, g: nat): (r: seq<Row>)
    requires |row| == |factors| && f < g <= |row|
    decreases |row| - g
  {
    if g == |row| then []
    else if IsFree(seed, g) then
      ChangesOfAll(Changes(row, f, factors[f]), g, factors[g]) + TwoChangesFrom(factors, row, seed, f, g + 1)
    else TwoChangesFrom(factors, row, seed, f, g + 1)
  }

  function TwoChanges(factors: Factors, row: Row, seed: Pair, f: nat): (r: seq<Row>)
    requires |row| == |factors| && f <= |row|
    decreases |row| - f
  {
    if f == |row| then []
    else if IsFree(seed, f) then TwoChangesFrom(factors, row, seed, f, f + 1) + TwoChanges(factors, row, seed, f + 1)
    else TwoChanges(factors, row, seed, f + 1)
  }

  /** Factor `f`, free, changed to another of its levels. */
  ghost predicate ChangedOnce(factors: Factors, row: Row, seed: Pair, c: Row, f: nat, lv: string) {
    f < |row| == |factors| && IsFree(seed, f) && lv in factors[f] && lv != row[f] && c == row[f := lv]
  }

  lemma {:induction false} OneChangeIs(factors: Factors, row: Row, seed: Pair, f: nat, c: Row)
    requires |row| == |factors| && f <= |row|
    ensures c in OneChange(factors, row, seed, f)
      <==> exists h, lv :: f <= h && ChangedOnce(factors, row, seed, c, h, lv)
    decreases |row| - f
  {
    if f < |row| {
      OneChangeIs(factors, row, seed, f + 1, c);
      if IsFree(seed, f) && c in Changes(row, f, factors[f]) {
        var lv :| lv in factors[f] && lv != row[f] && c == row[f := lv];
        assert ChangedOnce(factors, row, seed, c, f, lv);
      }
    }
  }

  lemma {:induction false} ChangesOfAllIs(rows: seq<Row>, g: nat, levels: seq<string>, c: Row)
    requires forall b | b in rows :: g < |b|
    ensures c in ChangesOfAll(rows, g, levels) <==> exists b :: b in rows && c in Changes(b, g, levels)
  {
    if rows != [] {
      ChangesOfAllIs(rows[1..], g, levels, c);
      assert rows[0] in rows;
      if b :| b in rows && c in Changes(b, g, levels) {
        assert b == rows[0] || b in rows[1..];
      }
    }
  }

  /** Free factors `f` and a later `g` changed to other levels of theirs. */
  ghost predicate ChangedTwice(factors: Factors, row: Row, seed: Pair, c: Row, f: nat, g: nat, lv: string, lw: string) {
    && f < g < |row| == |factors| && IsFree(seed, f) && IsFree(seed, g)
    && lv in factors[f] && lv != row[f] && lw in factors[g] && lw != row[g]
    && c == row[f := lv][g := lw]
  }

  /** A change of a changed row is two changes. */
  lemma ChangedIsTwice(factors: Factors, row: Row, seed: Pair, f: nat, g: nat, b: Row, c: Row)
    returns (lv: string, lw: string)
    requires f < g < |row| == |factors| && IsFree(seed, f) && IsFree(seed, g)
    requires b in Changes(row, f, factors[f]) && |b| == |row| && c in Changes(b, g, factors[g])
    ensures ChangedTwice(factors, row, seed, c, f, g, lv, lw)
  {
    hide Changes, IsFree;
    lv :| lv in factors[f] && lv != row[f] && b == row[f := lv];
    lw :| lw in factors[g] && lw != b[g] && c == b[g := lw];
  }

  lemma TwiceIsChanged(factors: Factors, row: Row, seed: Pair, f: nat, g: nat, c: Row, lv: string, lw: string)
    requires ChangedTwice(factors, row, seed, c, f, g, lv, lw)
    ensures row[f := lv] in Changes(row, f, factors[f]) && c in Changes(row[f := lv], g, factors[g])
  {
    hide Changes, IsFree;
    var b := row[f := lv];
    assert b[g] == row[g] && c == b[g := lw];
  }

  lemma ChangesOfChanges(factors: Factors, row: Row, seed: Pair, f: nat, g: nat, c: Row)
    requires f < g < |row| == |factors| && IsFree(seed, f) && IsFree(seed, g)
    ensures c in ChangesOfAll(Changes(row, f, factors[f]), g, factors[g])
        <==> exists lv, lw :: ChangedTwice(factors, row, seed, c, f, g, lv, lw)
  {
    hide Changes, ChangesOfAll, IsFree, ChangedTwice;
    ChangesOfAllIs(Changes(row, f, factors[f]), g, factors[g], c);
    if c in ChangesOfAll(Changes(row, f, factors[f]), g, factors[g]) {
      var b :| b in Changes(row, f, factors[f]) && c in Changes(b, g, factors[g]);
      var lv, lw := ChangedIsTwice(factors, row, seed, f, g, b, c);
    }
    if lv, lw :| ChangedTwice(factors, row, seed, c, f, g, lv, lw) {
      TwiceIsChanged(factors, row, seed, f, g, c, lv, lw);
    }
  }

  lemma {:induction false} TwoChangesFromIs(factors: Factors, row: Row, seed: Pair, f: nat, g: nat, c: Row)
    requires |row| == |factors| && f < g <= |row| && IsFree(seed, f)
    ensures c in TwoChangesFrom(factors, row, seed, f, g)
        <==> exists h, lv, lw :: g <= h && ChangedTwice(factors, row, seed, c, f, h, lv, lw)
    decreases |row| - g
  {
    if g < |row| {
      TwoChangesFromIs(factors, row, seed, f, g + 1, c);
      if IsFree(seed, g) {
        ChangesOfChanges(factors, row, seed, f, g, c);
      }
    }
  }

  /** Free factor `f` and a later one changed. */
  ghost predicate TwiceFrom(factors: Factors, row: Row, seed: Pair, c: Row, f: nat) {
    exists g, lv, lw :: ChangedTwice(factors, row, seed, c, f, g, lv, lw)
  }

  lemma FromStart(factors: Factors, row: Row, seed: Pair, f: nat, c: Row)
    requires |row| == |factors| && f < |row|
    ensures TwiceFrom(factors, row, seed, c, f)
      <==> IsFree(seed, f) && c in TwoChangesFrom(factors, row, seed, f, f + 1)
  {
    hide TwoChangesFrom, IsFree;
    if IsFree(seed, f) {
      TwoChangesFromIs(factors, row, seed, f, f + 1, c);
    }
    if g, lv, lw :| ChangedTwice(factors, row, seed, c, f, g, lv, lw) {
      assert IsFree(seed, f) && f + 1 <= g;
    }
  }

  lemma {:induction false} TwoChangesStart(factors: Factors, row: Row, seed: Pair, f: nat, c: Row)
    requires |row| == |factors| && f <= |row|
    ensures c in TwoChanges(factors, row, seed, f)
      <==> exists e: nat :: f <= e < |row| && TwiceFrom(factors, row, seed, c, e)
    decreases |row| - f
  {
    hide TwiceFrom, TwoChangesFrom, IsFree;
    if f < |row| {
      TwoChangesStart(factors, row, seed, f + 1, c);
      FromStart(factors, row, seed, f, c);
    }
  }

  lemma TwoChangesIs(factors: Factors, row: Row, seed: Pair, f: nat, c: Row)
    requires |row| == |factors| && f <= |row|
    ensures c in TwoChanges(factors, row, seed, f)
        <==> exists e, g, lv, lw :: f <= e && ChangedTwice(factors, row, seed, c, e, g, lv, lw)
  {
    hide TwoChanges, IsFree;
    TwoChangesStart(factors, row, seed, f, c);
    if e, g, lv, lw :| f <= e && ChangedTwice(factors, row, seed, c, e, g, lv, lw) {
      assert TwiceFrom(factors, row, seed, c, e);
    }
  }

  /** The factors two rows give different levels. */
  ghost function Differing(row: Row, c: Row): (r: set<nat>)
    requires |row| == |c|
    ensures forall f: nat :: f in r <==> f < |row| && row[f] != c[f]
  {
    set f: nat | f < |row| && row[f] != c[f]
  }

  /** A row `d` changes away from `row`, each to another of the factor's levels, never one of the seed's factors. */
  ghost predicate Mends(factors: Factors, row: Row, seed: Pair, c: Row, d: nat) {
    && |c| == |row| == |factors| && |Differing(row, c)| == d
    && forall f | f in Differing(row, c) :: IsFree(seed, f) && c[f] in factors[f]
  }

  /** The one-change candidates are exactly the rows at distance one. */
  lemma OneChangeMends(factors: Factors, row: Row, seed: Pair, c: Row)
    requires |row| == |factors|
    ensures c in OneChange(factors, row, seed, 0) <==> Mends(factors, row, seed, c, 1)
  {
    OneChangeIs(factors, row, seed, 0, c);
    if f: nat, lv :| ChangedOnce(factors, row, seed, c, f, lv) {
      assert Differing(row, c) == {f};
    }
    if Mends(factors, row, seed, c, 1) {
      assert Differing(row, c) != {};
      var f :| f in Differing(row, c);
      assert |Differing(row, c) - {f}| == 0;
      assert Differing(row, c) == {f};
      assert c == row[f := c[f]];
      assert ChangedOnce(factors, row, seed, c, f, c[f]);
    }
  }

  lemma TwoOf(s: set<nat>) returns (f: nat, g: nat)
    requires |s| == 2
    ensures f < g && s == {f, g}
  {
    assert s != {};
    f :| f in s;
    assert |s - {f}| == 1 && s - {f} != {};
    g :| g in s - {f};
    assert |s - {f} - {g}| == 0;
    assert s == {f, g};
    if g < f {
      f, g := g, f;
    }
  }

  /** The two-change candidates are exactly the rows at distance two. */
  lemma TwoChangesMend(factors: Factors, row: Row, seed: Pair, c: Row)
    requires |row| == |factors|
    ensures c in TwoChanges(factors, row, seed, 0) <==> Mends(factors, row, seed, c, 2)
  {
    TwoChangesIs(factors, row, seed, 0, c);
    if f: nat, g: nat, lv, lw :| ChangedTwice(factors, row, seed, c, f, g, lv, lw) {
      assert Differing(row, c) == {f, g};
    }
    if Mends(factors, row, seed, c, 2) {
      var f, g := TwoOf(Differing(row, c));
      assert f in Differing(row, c) && g in Differing(row, c);
      assert c == row[f := c[f]][g := c[g]];
      assert ChangedTwice(factors, row, seed, c, f, g, c[f], c[g]);
    }
  }

  /** Of the rows one change away, or else two, the first that gains the most. */
  function Mended(factors: Factors, row: Row, seed: Pair, uncovered: set<Pair>, bad: set<Pair>,
                  valid: Row -> bool): Option<Row>
    requires |row| == |factors|
  {
    var ok := (c: Row) => Allowed(c, bad) && valid(c);
    var gain := (c: Row) => Gain(c, uncovered);
    var one := FirstBest(OneChange(factors, row, seed, 0), ok, gain);
    if one.Some? then one else FirstBest(TwoChanges(factors, row, seed, 0), ok, gain)
  }

  /** A mend that satisfies the constraints and the whole-row rule. */
  ghost predicate Works(factors: Factors, row: Row, seed: Pair, bad: set<Pair>, valid: Row -> bool, c: Row, d: nat) {
    Mends(factors, row, seed, c, d) && Allowed(c, bad) && valid(c)
  }

  /** `best` works at distance `d`, nothing works nearer, and nothing at `d` covers more uncovered pairs. */
  ghost predicate BestMend(factors: Factors, row: Row, seed: Pair, uncovered: set<Pair>, bad: set<Pair>,
                           valid: Row -> bool, best: Row, d: nat)
  {
    && Works(factors, row, seed, bad, valid, best, d)
    && (forall c :: Works(factors, row, seed, bad, valid, c, d) ==> Gain(c, uncovered) <= Gain(best, uncovered))
    && (d == 2 ==> forall c :: !Works(factors, row, seed, bad, valid, c, 1))
  }

  /** The best of the candidates at one distance. */
  lemma BestAtDistance(factors: Factors, row: Row, seed: Pair, uncovered: set<Pair>, bad: set<Pair>,
                       valid: Row -> bool, cands: seq<Row>, d: nat)
    requires forall c :: c in cands <==> Mends(factors, row, seed, c, d)
    ensures var best := FirstBest(cands, (c: Row) => Allowed(c, bad) && valid(c), (c: Row) => Gain(c, uncovered));
      && (best.None? <==> forall c :: !Works(factors, row, seed, bad, valid, c, d))
      && (best.Some? ==> Works(factors, row, seed, bad, valid, best.value, d))
      && (best.Some? ==>
        forall c :: Works(factors, row, seed, bad, valid, c, d) ==> Gain(c, uncovered) <= Gain(best.value, uncovered))
  {
    hide Mends, Allowed, Gain;
    var best := FirstBest(cands, (c: Row) => Allowed(c, bad) && valid(c), (c: Row) => Gain(c, uncovered));
    if best.Some? {
      assert Works(factors, row, seed, bad, valid, best.value, d);
    }
    forall c | Works(factors, row, seed, bad, valid, c, d) ensures c in cands {
    }
  }

  /** A mend is found exactly when one works at distance one or two; it is then at the smaller
      distance and covers the most uncovered pairs there. */
  lemma MendedIsBest(factors: Factors, row: Row, seed: Pair, uncovered: set<Pair>, bad: set<Pair>, valid: Row -> bool)
    requires |row| == |factors|
    ensures Mended(factors, row, seed, uncovered, bad, valid).None?
        <==> forall c, d :: 1 <= d <= 2 ==> !Works(factors, row, seed, bad, valid, c, d)
    ensures Mended(factors, row, seed, uncovered, bad, valid).Some? ==>
      var best := Mended(factors, row, seed, uncovered, bad, valid).value;
      BestMend(factors, row, seed, uncovered, bad, valid, best, 1)
        || BestMend(factors, row, seed, uncovered, bad, valid, best, 2)
  {
    hide Works, Mends, FirstBest, OneChange, TwoChanges;
    forall c
      ensures c in OneChange(factors, row, seed, 0) <==> Mends(factors, row, seed, c, 1)
      ensures c in TwoChanges(factors, row, seed, 0) <==> Mends(factors, row, seed, c, 2)
    {
      OneChangeMends(factors, row, seed, c);
      TwoChangesMend(factors, row, seed, c);
    }
    BestAtDistance(factors, row, seed, uncovered, bad, valid, OneChange(factors, row, seed, 0), 1);
    BestAtDistance(factors, row, seed, uncovered, bad, valid, TwoChanges(factors, row, seed, 0), 2);
  }

  /** A mend of a row made from a seed still holds the seed, and only levels. */
  lemma MendKeepsSeed(factors: Factors, row: Row, seed: Pair, c: Row, d: nat)
    requires IsRow(factors, row) && IsPair(factors, seed) && seed in PairsOf(row) && Mends(factors, row, seed, c, d)
    ensures IsRow(factors, c) && seed in PairsOf(c)
  {
    forall f | 0 <= f < |c| ensures c[f] in factors[f] {
      if c[f] != row[f] {
        assert f in Differing(row, c);
      }
    }
    forall f | f == seed.first.factor || f == seed.second.factor ensures c[f] == row[f] {
      assert f !in Differing(row, c);
    }
    assert seed == PairAt(c, seed.first.factor, seed.second.factor);
  }

  lemma MendedIsGood(factors: Factors, row: Row, seed: Pair, uncovered: set<Pair>, bad: set<Pair>, valid: Row -> bool)
    requires IsRow(factors, row) && IsPair(factors, seed) && seed in PairsOf(row)
    requires Mended(factors, row, seed, uncovered, bad, valid).Some?
    ensures var c := Mended(factors, row, seed, uncovered, bad, valid).value;
      IsRow(factors, c) && Allowed(c, bad) && valid(c) && seed in PairsOf(c)
  {
    hide Mended;
    MendedIsBest(factors, row, seed, uncovered, bad, valid);
    var c := Mended(factors, row, seed, uncovered, bad, valid).value;
    MendKeepsSeed(factors, row, seed, c, if Works(factors, row, seed, bad, valid, c, 1) then 1 else 2);
  }

  // ---- one round ----

  /** The row made from a seed: filled, then, when it breaks the whole-row rule, mended. */
  function Completed(factors: Factors, seed: Pair, uncovered: set<Pair>, bad: set<Pair>, valid: Rule): Option<Row>
    requires IsPair(factors, seed) && seed !in bad
  {
    var filled := Filled(factors, seed, uncovered, bad, |factors|);
    if filled.None? then None
    else
      FilledIsPartial(factors, seed, uncovered, bad, |factors|);
      var out := RowOf(factors, filled.value);
      if Keeps(valid, out) then Some(out) else Mended(factors, out, seed, uncovered, bad, valid.value)
  }

  /** A completed row is a good one and holds its seed. */
  lemma CompletedIsGood(factors: Factors, seed: Pair, uncovered: set<Pair>, bad: set<Pair>, valid: Rule)
    requires IsPair(factors, seed) && seed !in bad
    requires Completed(factors, seed, uncovered, bad, valid).Some?
    ensures var row := Completed(factors, seed, uncovered, bad, valid).value;
      Good(factors, bad, valid, row) && seed in PairsOf(row)
  {
    hide Filled, Mended, IsRow, Allowed, PairsOf;
    FilledIsPartial(factors, seed, uncovered, bad, |factors|);
    var filled := Filled(factors, seed, uncovered, bad, |factors|).value;
    var out := RowOf(factors, filled);
    PartialMakesRow(factors, seed, bad, filled);
    if !Keeps(valid, out) {
      MendedIsGood(factors, out, seed, uncovered, bad, valid.value);
    }
  }

  /** The row made is the nearest to the greedy one that keeps the rule: that one itself when it does, else the best
      mend, and none when no mend works. */
  lemma CompletedIsNearest(factors: Factors, seed: Pair, uncovered: set<Pair>, bad: set<Pair>, valid: Row -> bool)
    requires IsPair(factors, seed) && seed !in bad && Filled(factors, seed, uncovered, bad, |factors|).Some?
    ensures forall f: nat | f < |factors| :: f in Filled(factors, seed, uncovered, bad, |factors|).value
    ensures var greedy := RowOf(factors, Filled(factors, seed, uncovered, bad, |factors|).value);
      var made := Completed(factors, seed, uncovered, bad, Some(valid));
      && Completed(factors, seed, uncovered, bad, None) == Some(greedy)
      && if valid(greedy) then made == Some(greedy)
         else if made.None? then forall c, d :: 1 <= d <= 2 ==> !Works(factors, greedy, seed, bad, valid, c, d)
         else || BestMend(factors, greedy, seed, uncovered, bad, valid, made.value, 1)
              || BestMend(factors, greedy, seed, uncovered, bad, valid, made.value, 2)
  {
    hide Filled, Mended, Works, BestMend;
    FilledIsPartial(factors, seed, uncovered, bad, |factors|);
    MendedIsBest(factors, RowOf(factors, Filled(factors, seed, uncovered, bad, |factors|).value), seed, uncovered, bad,
      valid);
  }

  method Complete(factors: Factors, seed: Pair, uncovered: set<Pair>, bad: set<Pair>, valid: Rule)
    returns (made: Option<Row>)
    requires IsPair(factors, seed) && seed !in bad
    ensures made == Completed(factors, seed, uncovered, bad, valid)
  {
    hide Fits, NewPairs, FirstBest, SeedRow, Mended;
    var row := SeedRow(seed);
    for f := 0 to |factors|
      invariant Filled(factors, seed, uncovered, bad, f) == Some(row)
    {
      if f !in row {
        var best := PickBest(factors[f], (lv: string) => Fits(row, f, lv, bad),
          (lv: string) => NewPairs(row, f, lv, uncovered));
        if best.None? {
          FilledStops(factors, seed, uncovered, bad, f + 1, |factors|);
          return None;
        }
        row := row[f := best.value];
      }
    }
    FilledIsPartial(factors, seed, uncovered, bad, |factors|);
    var out := RowOf(factors, row);
    if Keeps(valid, out) {
      return Some(out);
    }
    made := Mend(factors, out, seed, uncovered, bad, valid.value);
  }

  lemma {:induction false} FilledStops(factors: Factors, seed: Pair, uncovered: set<Pair>, bad: set<Pair>, f: nat,
                                       upto: nat)
    requires f <= upto <= |factors| && Filled(factors, seed, uncovered, bad, f).None?
    ensures Filled(factors, seed, uncovered, bad, upto).None?
    decreases upto - f
  {
    if f < upto {
      FilledStops(factors, seed, uncovered, bad, f, upto - 1);
    }
  }

  method Mend(factors: Factors, row: Row, seed: Pair, uncovered: set<Pair>, bad: set<Pair>, valid: Row -> bool)
    returns (made: Option<Row>)
    requires |row| == |factors|
    ensures made == Mended(factors, row, seed, uncovered, bad, valid)
  {
    var ok := (c: Row) => Allowed(c, bad) && valid(c);
    var gain := (c: Row) => Gain(c, uncovered);
    made := PickBest(OneChange(factors, row, seed, 0), ok, gain);
    if made.None? {
      made := PickBest(TwoChanges(factors, row, seed, 0), ok, gain);
    }
  }

  /** The row a seed makes; None for what is no coverable pair at all. */
  function Made(factors: Factors, seed: Pair, uncovered: set<Pair>, bad: set<Pair>, valid: Rule): Option<Row> {
    if IsPair(factors, seed) && seed !in bad then Completed(factors, seed, uncovered, bad, valid) else None
  }

  /** The seeds a round looks at first. */
  function FirstSeeds(ordered: seq<Pair>, seeds: int): (r: seq<Pair>)
    ensures r <= ordered && (|r| <= 1 || |r| <= seeds) && (r == ordered || (1 <= |r| && seeds <= |r|))
  {
    var k := if seeds < 1 then 1 else seeds;
    if |ordered| <= k then ordered else ordered[..k]
  }

  /** Every seed a round may look at: past the first ones only under a whole-row rule. */
  function Tried(factors: Factors, uncovered: set<Pair>, valid: Rule, seeds: int): (r: seq<Pair>) {
    var ordered := Ordered(factors, uncovered);
    if valid.Some? then ordered else FirstSeeds(ordered, seeds)
  }

  lemma UncoveredSeeds(factors: Factors, uncovered: set<Pair>, bad: set<Pair>, valid: Rule, seeds: int)
    requires uncovered <= AllPairs(factors, bad)
    ensures forall s :: s in Ordered(factors, uncovered) <==> s in uncovered
    ensures FirstSeeds(Ordered(factors, uncovered), seeds) <= Tried(factors, uncovered, valid, seeds)
    ensures forall s :: s in Tried(factors, uncovered, valid, seeds) ==> s in uncovered
    ensures uncovered != {} ==> FirstSeeds(Ordered(factors, uncovered), seeds) != []
    ensures valid.None? ==>
      |Tried(factors, uncovered, valid, seeds)| == |FirstSeeds(Ordered(factors, uncovered), seeds)|
  {
    var ordered := Ordered(factors, uncovered);
    if uncovered != {} {
      var p :| p in uncovered;
      assert p in ordered;
    }
  }

  /** A seed's row, and how many uncovered pairs it covers: at least the seed. */
  method TrySeed(factors: Factors, seed: Pair, uncovered: set<Pair>, bad: set<Pair>, valid: Rule)
    returns (row: Option<Row>, gain: nat)
    requires uncovered <= AllPairs(factors, bad) && seed in uncovered
    ensures row == Made(factors, seed, uncovered, bad, valid)
    ensures if row.None? then gain == 0 else gain == Gain(row.value, uncovered) && gain > 0
  {
    row := Complete(factors, seed, uncovered, bad, valid);
    gain := 0;
    if row.Some? {
      CompletedIsGood(factors, seed, uncovered, bad, valid);
      assert seed in PairsOf(row.value) * uncovered;
      gain := Gain(row.value, uncovered);
    }
  }

  /** The round's choice, at position `i`: of the first seeds that make a row, the one covering the
      most uncovered pairs, the earlier on a tie; past them, the first seed that makes a row at all, and only under
      a whole-row rule. */
  ghost predicate Chosen(factors: Factors, uncovered: set<Pair>, bad: set<Pair>, valid: Rule, seeds: int, row: Row,
                         i: nat) {
    var tried := Tried(factors, uncovered, valid, seeds);
    var first := |FirstSeeds(Ordered(factors, uncovered), seeds)|;
    && i < |tried| && Made(factors, tried[i], uncovered, bad, valid) == Some(row) && (i < first || valid.Some?)
    && (forall j | 0 <= j < i && Made(factors, tried[j], uncovered, bad, valid).Some? ::
          j < first && Gain(Made(factors, tried[j], uncovered, bad, valid).value, uncovered) < Gain(row, uncovered))
    && (forall j | 0 <= j < first && j < |tried| && Made(factors, tried[j], uncovered, bad, valid).Some? ::
          Gain(Made(factors, tried[j], uncovered, bad, valid).value, uncovered) <= Gain(row, uncovered))
  }

  /** The row of one round: none exactly when no tried seed makes one. */
  method BestRow(factors: Factors, uncovered: set<Pair>, bad: set<Pair>, valid: Rule, seeds: int)
    returns (best: Option<Row>)
    requires uncovered <= AllPairs(factors, bad)
    ensures best.None?
      <==> forall s | s in Tried(factors, uncovered, valid, seeds) :: Made(factors, s, uncovered, bad, valid).None?
    ensures best.Some? ==> exists i: nat :: Chosen(factors, uncovered, bad, valid, seeds, best.value, i)
  {
    hide Made, Tried, FirstSeeds, Ordered, Gain, AllPairs;
    UncoveredSeeds(factors, uncovered, bad, valid, seeds);
    var tried := Tried(factors, uncovered, valid, seeds);
    var first := |FirstSeeds(Ordered(factors, uncovered), seeds)|;
    best := None;
    var bestGain := 0;
    ghost var at: nat := 0;
    for k := 0 to |tried|
      invariant best.None? ==> forall j | 0 <= j < k :: Made(factors, tried[j], uncovered, bad, valid).None?
      invariant best.Some? ==> 0 <= at < k && Made(factors, tried[at], uncovered, bad, valid) == best
      invariant bestGain == if best.Some? then Gain(best.value, uncovered) else 0
      invariant at <= k
      invariant forall j | 0 <= j < at && Made(factors, tried[j], uncovered, bad, valid).Some? ::
        j < first && Gain(Made(factors, tried[j], uncovered, bad, valid).value, uncovered) < bestGain
      invariant forall j | 0 <= j < k && j < first && Made(factors, tried[j], uncovered, bad, valid).Some? ::
        Gain(Made(factors, tried[j], uncovered, bad, valid).value, uncovered) <= bestGain
    {
      if best.Some? && k >= first {
        break;
      }
      assert tried[k] in tried;
      var row, gain := TrySeed(factors, tried[k], uncovered, bad, valid);
      if gain > bestGain {
        best, bestGain, at := row, gain, k;
      }
    }
    if best.Some? {
      assert tried[at] in tried && Chosen(factors, uncovered, bad, valid, seeds, best.value, at);
    }
  }

  // ---- the table ----

  /** No row of the table covers the pair. */
  predicate Misses(rows: seq<Row>, p: Pair) { forall r | r in rows :: p !in PairsOf(r) }

  /** The coverable pairs no row covers. */
  function Uncovered(factors: Factors, bad: set<Pair>, rows: seq<Row>): (left: set<Pair>)
    ensures forall p :: p in left <==> p in AllPairs(factors, bad) && Misses(rows, p)
  {
    set p | p in AllPairs(factors, bad) && Misses(rows, p)
  }

  lemma UncoveredNext(factors: Factors, bad: set<Pair>, rows: seq<Row>, row: Row)
    ensures Uncovered(factors, bad, rows + [row]) == Uncovered(factors, bad, rows) - PairsOf(row)
  {
    forall p ensures Misses(rows + [row], p) <==> Misses(rows, p) && p !in PairsOf(row) {
      assert row in rows + [row];
    }
  }

  method UncoveredPairs(factors: Factors, bad: set<Pair>, rows: seq<Row>) returns (left: seq<Pair>)
    ensures forall p :: p in left <==> p in Uncovered(factors, bad, rows)
  {
    var s := AllPairs(factors, bad);
    for k := 0 to |rows|
      invariant s == Uncovered(factors, bad, rows[..k])
    {
      UncoveredNext(factors, bad, rows[..k], rows[k]);
      assert rows[..k + 1] == rows[..k] + [rows[k]];
      s := s - PairsOf(rows[k]);
    }
    assert rows[..|rows|] == rows;
    left := Ordered(factors, s);
  }

  /** No constraint names the level. */
  ghost predicate IsFreeLevel(bad: set<Pair>, c: Choice) { forall p | p in bad :: p.first != c && p.second != c }

  /** Every factor has a level no constraint names. */
  ghost predicate FreeLevels(factors: Factors, bad: set<Pair>) {
    forall f: nat | f < |factors| :: exists lv :: lv in factors[f] && IsFreeLevel(bad, Choice(f, lv))
  }

  lemma {:induction false} FreeLevelsFill(factors: Factors, seed: Pair, uncovered: set<Pair>, bad: set<Pair>, f: nat)
    requires FreeLevels(factors, bad) && f <= |factors|
    ensures Filled(factors, seed, uncovered, bad, f).Some?
  {
    if f > 0 {
      FreeLevelsFill(factors, seed, uncovered, bad, f - 1);
      var row := Filled(factors, seed, uncovered, bad, f - 1).value;
      var lv :| lv in factors[f - 1] && IsFreeLevel(bad, Choice(f - 1, lv));
      assert Fits(row, f - 1, lv, bad);
    }
  }

  lemma FreeLevelsMake(factors: Factors, uncovered: set<Pair>, bad: set<Pair>, valid: Rule, seeds: int)
    requires uncovered != {} && uncovered <= AllPairs(factors, bad) && valid.None? && FreeLevels(factors, bad)
    ensures exists s :: s in Tried(factors, uncovered, valid, seeds) && Made(factors, s, uncovered, bad, valid).Some?
  {
    UncoveredSeeds(factors, uncovered, bad, valid, seeds);
    var s := Tried(factors, uncovered, valid, seeds)[0];
    assert s in Tried(factors, uncovered, valid, seeds);
    FreeLevelsFill(factors, s, uncovered, bad, |factors|);
  }

  lemma ChosenIsTried(factors: Factors, uncovered: set<Pair>, bad: set<Pair>, valid: Rule, seeds: int, row: Row, i: nat)
    requires Chosen(factors, uncovered, bad, valid, seeds, row, i)
    ensures exists s ::
      s in Tried(factors, uncovered, valid, seeds) && Made(factors, s, uncovered, bad, valid) == Some(row)
  {
    hide Tried, Made, Gain, FirstSeeds, Ordered;
    var tried := Tried(factors, uncovered, valid, seeds);
    assert tried[i] in tried;
  }

  /** A round's row is a good one, and covers something still uncovered. */
  lemma RoundShrinks(factors: Factors, uncovered: set<Pair>, bad: set<Pair>, valid: Rule, seeds: int, row: Row)
    requires uncovered <= AllPairs(factors, bad)
    requires exists i: nat :: Chosen(factors, uncovered, bad, valid, seeds, row, i)
    ensures Good(factors, bad, valid, row) && |uncovered - PairsOf(row)| < |uncovered|
  {
    hide Good, Completed, Chosen;
    UncoveredSeeds(factors, uncovered, bad, valid, seeds);
    var i: nat :| Chosen(factors, uncovered, bad, valid, seeds, row, i);
    ChosenIsTried(factors, uncovered, bad, valid, seeds, row, i);
    var s :| s in Tried(factors, uncovered, valid, seeds) && Made(factors, s, uncovered, bad, valid) == Some(row);
    CompletedIsGood(factors, s, uncovered, bad, valid);
    SmallerSubset(uncovered - PairsOf(row), uncovered - {s});
  }

  /** The failure of a round: no first seed makes a row, nor, under a whole-row rule, any pair left. */
  ghost predicate Stuck(factors: Factors, left: set<Pair>, bad: set<Pair>, valid: Rule, seeds: int) {
    && left != {} && left <= AllPairs(factors, bad)
    && (forall j | 0 <= j < |Ordered(factors, left)| && (j == 0 || j < seeds) ::
          Made(factors, Ordered(factors, left)[j], left, bad, valid).None?)
    && (valid.Some? ==> forall s | s in left :: Made(factors, s, left, bad, valid).None?)
  }

  lemma NothingTriedMakes(factors: Factors, left: set<Pair>, bad: set<Pair>, valid: Rule, seeds: int)
    requires left != {} && left <= AllPairs(factors, bad)
    requires forall s | s in Tried(factors, left, valid, seeds) :: Made(factors, s, left, bad, valid).None?
    ensures Stuck(factors, left, bad, valid, seeds)
  {
    hide Made, Ordered, AllPairs;
    UncoveredSeeds(factors, left, bad, valid, seeds);
    var first := FirstSeeds(Ordered(factors, left), seeds);
    forall j | 0 <= j < |Ordered(factors, left)| && (j == 0 || j < seeds)
      ensures Made(factors, Ordered(factors, left)[j], left, bad, valid).None?
    {
      assert Ordered(factors, left)[j] == first[j] && first[j] in first;
    }
  }

  /** The pairs that rows made so far leave uncovered. */
  ghost predicate LeftBy(factors: Factors, bad: set<Pair>, valid: Rule, left: set<Pair>) {
    exists rows: seq<Row> :: (forall r | r in rows :: Good(factors, bad, valid, r))
      && left == Uncovered(factors, bad, rows)
  }

  method Cover(factors: Factors, bad: set<Pair>, seeds: int, valid: Rule) returns (rows: seq<Row>, left: set<Pair>)
    ensures forall r | r in rows :: Good(factors, bad, valid, r)
    ensures left == Uncovered(factors, bad, rows) && |rows| + |left| <= |AllPairs(factors, bad)|
    ensures left != {} ==> Stuck(factors, left, bad, valid, seeds)
    ensures valid.None? && FreeLevels(factors, bad) ==> left == {}
  {
    hide Completed, Made, Good, Tried, Uncovered, FreeLevels, PairsOf;
    rows := [];
    left := AllPairs(factors, bad);
    NothingCovered(factors, bad);
    while left != {}
      invariant left == Uncovered(factors, bad, rows)
      invariant forall r | r in rows :: Good(factors, bad, valid, r)
      invariant |rows| + |left| <= |AllPairs(factors, bad)|
      decreases |left|
    {
      var best := BestRow(factors, left, bad, valid, seeds);
      if best.None? {
        if valid.None? && FreeLevels(factors, bad) {
          FreeLevelsMake(factors, left, bad, valid, seeds);
        }
        NothingTriedMakes(factors, left, bad, valid, seeds);
        return;
      }
      RoundShrinks(factors, left, bad, valid, seeds, best.value);
      UncoveredNext(factors, bad, rows, best.value);
      rows := rows + [best.value];
      left := left - PairsOf(best.value);
    }
  }

  lemma NothingCovered(factors: Factors, bad: set<Pair>)
    ensures Uncovered(factors, bad, []) == AllPairs(factors, bad)
  {
  }

  method Generate(factors: Factors, forbidden: seq<seq<Choice>>, seeds: int, valid: Rule)
    returns (table: Result<seq<Row>, Problem>)
    ensures table == Failure(BadConstraint) <==> !ConstraintsHold(factors, forbidden)
    // a table covers everything, breaks nothing and has at most one row per coverable pair
    ensures table.Success? ==> var bad := ForbiddenPairs(factors, forbidden);
      && (forall r | r in table.value :: Good(factors, bad, valid, r))
      && Uncovered(factors, bad, table.value) == {} && |table.value| <= |AllPairs(factors, bad)|
    // it gives up only when, after some rounds, none of the seeds of the next one makes a row: under a whole-row
    // rule, none of the pairs left at all
    ensures table.Failure? && table.error.NoRowCovers? ==>
      LeftBy(factors, ForbiddenPairs(factors, forbidden), valid, table.error.left)
      && Stuck(factors, table.error.left, ForbiddenPairs(factors, forbidden), valid, seeds)
    // and never when every factor has a level no constraint names, and there is no whole-row rule
    ensures ConstraintsHold(factors, forbidden) && valid.None? ==>
      FreeLevels(factors, ForbiddenPairs(factors, forbidden)) ==> table.Success?
  {
    if !ConstraintsHold(factors, forbidden) {
      return Failure(BadConstraint);
    }
    hide FreeLevels, Good, Stuck, Uncovered, ForbiddenPairs, ConstraintsHold;
    var rows, left := Cover(factors, ForbiddenPairs(factors, forbidden), seeds, valid);
    table := if left == {} then Success(rows) else Failure(NoRowCovers(left));
  }

  lemma {:induction false} SmallerSubset<T>(a: set<T>, b: set<T>)
    requires a <= b
    ensures |a| <= |b|
  {
    assert b == a + (b - a);
  }

  // ---- a pair no constraint names, and no row can hold ----

  const BLOCKED: Factors := [["a"], ["b"], ["c", "d"]]
  const BLOCKING: seq<seq<Choice>> :=
    [[Choice(0, "a"), Choice(2, "c")], [Choice(1, "b"), Choice(2, "d")]]

  lemma BlockingPairs()
    ensures ConstraintsHold(BLOCKED, BLOCKING)
    ensures ForbiddenPairs(BLOCKED, BLOCKING) ==
      {Pair(Choice(0, "a"), Choice(2, "c")), Pair(Choice(1, "b"), Choice(2, "d"))}
  {
    var c, d := BLOCKING[0], BLOCKING[1];
    assert c in BLOCKING && d in BLOCKING && forall x :: x in BLOCKING ==> x == c || x == d;
    assert Key(c[0], c[1]) == Pair(Choice(0, "a"), Choice(2, "c"))
      && Key(d[0], d[1]) == Pair(Choice(1, "b"), Choice(2, "d"));
    assert ForbiddenPairs(BLOCKED, BLOCKING) == {Key(c[0], c[1]), Key(d[0], d[1])};
  }

  lemma BlockedTogether(row: Row, bad: set<Pair>)
    requires |row| == 3 && row[0] == "a" && row[1] == "b" && (row[2] == "c" || row[2] == "d")
    requires Pair(Choice(0, "a"), Choice(2, "c")) in bad && Pair(Choice(1, "b"), Choice(2, "d")) in bad
    ensures !Allowed(row, bad)
  {
    assert PairAt(row, 0, 2) in bad || PairAt(row, 1, 2) in bad;
  }

  /** A pair can be named by no constraint and still be in no allowed row: two constraints can block
      it together, each taking one of a third factor's levels. */
  lemma UnnamedYetUncoverable()
    ensures ConstraintsHold(BLOCKED, BLOCKING)
    ensures var bad, p := ForbiddenPairs(BLOCKED, BLOCKING), Pair(Choice(0, "a"), Choice(1, "b"));
      p in AllPairs(BLOCKED, bad) && forall row | IsRow(BLOCKED, row) && p in PairsOf(row) :: !Allowed(row, bad)
  {
    BlockingPairs();
    hide ForbiddenPairs, AllPairs, Allowed, PairsOf;
    var bad, p := ForbiddenPairs(BLOCKED, BLOCKING), Pair(Choice(0, "a"), Choice(1, "b"));
    assert IsPair(BLOCKED, p);
    forall row | IsRow(BLOCKED, row) && p in PairsOf(row) ensures !Allowed(row, bad) {
      assert row[0] in BLOCKED[0] && row[1] in BLOCKED[1] && row[2] in BLOCKED[2];
      BlockedTogether(row, bad);
    }
  }

  // ---- a round that finds no row, though there is one ----

  const GREEDY: Factors := [["a"], ["b"], ["c", "d"], ["e"]]
  const GREEDY_RULES: seq<seq<Choice>> := [[Choice(2, "c"), Choice(3, "e")]]
  const GREEDY_SEED := Pair(Choice(0, "a"), Choice(1, "b"))
  const GREEDY_ROW: Row := ["a", "b", "d", "e"]

  lemma FirstPair(factors: Factors, s: set<Pair>)
    requires |factors| >= 2 && factors[0] != [] && factors[1] != []
    requires Pair(Choice(0, factors[0][0]), Choice(1, factors[1][0])) in s
    ensures Ordered(factors, s) != []
      && Ordered(factors, s)[0] == Pair(Choice(0, factors[0][0]), Choice(1, factors[1][0]))
  {
  }

  lemma GreedyForbids()
    ensures ConstraintsHold(GREEDY, GREEDY_RULES)
    ensures ForbiddenPairs(GREEDY, GREEDY_RULES) == {Pair(Choice(2, "c"), Choice(3, "e"))}
  {
    var c := GREEDY_RULES[0];
    assert c in GREEDY_RULES && forall x :: x in GREEDY_RULES ==> x == c;
    assert Key(c[0], c[1]) == Pair(Choice(2, "c"), Choice(3, "e"));
    assert ForbiddenPairs(GREEDY, GREEDY_RULES) == {Key(c[0], c[1])};
  }

  /** Either level of the third factor covers two uncovered pairs, so the first is taken. */
  lemma GreedyTakes(lv: string, all: set<Pair>, bad: set<Pair>)
    requires lv in ["c", "d"] && bad == {Pair(Choice(2, "c"), Choice(3, "e"))} && all == AllPairs(GREEDY, bad)
    ensures Fits(SeedRow(GREEDY_SEED), 2, lv, bad) && NewPairs(SeedRow(GREEDY_SEED), 2, lv, all) == 2
  {
    hide AllPairs;
    var row := SeedRow(GREEDY_SEED);
    forall g | g in row ensures Key(Choice(2, lv), Choice(g, row[g])) in all {
      assert IsPair(GREEDY, Pair(Choice(g, row[g]), Choice(2, lv)));
    }
    assert (set g | g in row && Key(Choice(2, lv), Choice(g, row[g])) in all) == {0, 1};
  }

  lemma GreedyStops(all: set<Pair>, bad: set<Pair>)
    requires bad == {Pair(Choice(2, "c"), Choice(3, "e"))} && all == AllPairs(GREEDY, bad)
    ensures Filled(GREEDY, GREEDY_SEED, all, bad, 4).None?
  {
    hide AllPairs, SeedRow, NewPairs, Fits;
    var row := SeedRow(GREEDY_SEED);
    SeedKeys();
    assert Filled(GREEDY, GREEDY_SEED, all, bad, 1) == Some(row);
    assert Filled(GREEDY, GREEDY_SEED, all, bad, 2) == Some(row);
    GreedyTakes("c", all, bad);
    GreedyTakes("d", all, bad);
    FirstOfTwo("c", "d", (lv: string) => Fits(row, 2, lv, bad), (lv: string) => NewPairs(row, 2, lv, all));
    assert Filled(GREEDY, GREEDY_SEED, all, bad, 3) == Some(row[2 := "c"]);
    LastDoesNotFit(row[2 := "c"], bad);
  }

  lemma SeedKeys()
    ensures SeedRow(GREEDY_SEED) == map[0 := "a", 1 := "b"]
  {
  }

  /** The earlier of two that gain alike. */
  lemma FirstOfTwo(x: string, y: string, ok: string -> bool, gain: string -> nat)
    requires ok(x) && ok(y) && gain(x) == gain(y)
    ensures FirstBest([x, y], ok, gain) == Some(x)
  {
    assert [x, y][..1] == [x] && [x][..0] == [];
    assert FirstBest([x], ok, gain) == Some(x);
  }

  lemma LastDoesNotFit(row: map<nat, string>, bad: set<Pair>)
    requires 2 in row && row[2] == "c" && bad == {Pair(Choice(2, "c"), Choice(3, "e"))}
    ensures !Fits(row, 3, "e", bad)
  {
    assert Key(Choice(3, "e"), Choice(2, row[2])) in bad;
  }

  lemma GreedyRowIsGood(bad: set<Pair>)
    requires bad == {Pair(Choice(2, "c"), Choice(3, "e"))}
    ensures Good(GREEDY, bad, None, GREEDY_ROW) && GREEDY_SEED in PairsOf(GREEDY_ROW)
  {
    assert PairAt(GREEDY_ROW, 0, 1) == GREEDY_SEED;
    assert PairAt(GREEDY_ROW, 2, 3) !in bad;
  }

  /** Giving up does not mean that no row can cover the pairs left: with one seed a round, the first round makes
      no row, and there is a good one that covers its seed. */
  lemma GivesUpTooSoon()
    ensures ConstraintsHold(GREEDY, GREEDY_RULES)
    ensures var bad := ForbiddenPairs(GREEDY, GREEDY_RULES);
      && Stuck(GREEDY, AllPairs(GREEDY, bad), bad, None, 1)
      && Good(GREEDY, bad, None, GREEDY_ROW) && GREEDY_SEED in AllPairs(GREEDY, bad) * PairsOf(GREEDY_ROW)
  {
    hide AllPairs, ForbiddenPairs, Good, PairsOf, Ordered, Filled, Keeps, RowOf;
    GreedyForbids();
    var bad := ForbiddenPairs(GREEDY, GREEDY_RULES);
    var all := AllPairs(GREEDY, bad);
    assert IsPair(GREEDY, GREEDY_SEED);
    FirstPair(GREEDY, all);
    GreedyStops(all, bad);
    assert Made(GREEDY, GREEDY_SEED, all, bad, None).None?;
    assert FirstSeeds(Ordered(GREEDY, all), 1) == [GREEDY_SEED];
    GreedyRowIsGood(bad);
  }
}
