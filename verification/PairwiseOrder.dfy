/** The order the pairwise generator tries its seeds in, and what a level it picks adds to its row. */
module PairwiseOrder {
  import opened StableSort
  import opened Pairwise

  // ---- the order of the seeds ----

  /** The first place of a level among the levels, or their number. */
  function PlaceOf(levels: seq<string>, level: string): (k: nat)
    ensures k <= |levels|
  {
    if levels == [] || levels[0] == level then 0 else 1 + PlaceOf(levels[1..], level)
  }

  predicate Distinct(levels: seq<string>) { forall i, j :: 0 <= i < j < |levels| ==> levels[i] != levels[j] }

  lemma {:induction false} PlaceIs(levels: seq<string>, k: nat)
    requires Distinct(levels) && k < |levels|
    ensures PlaceOf(levels, levels[k]) == k
  {
    if k > 0 {
      assert forall i :: 0 <= i < |levels| - 1 ==> levels[1..][i] == levels[i + 1];
      PlaceIs(levels[1..], k - 1);
    }
  }

  function LevelPlace(factors: Factors, c: Choice): nat
    requires c.factor < |factors|
  {
    PlaceOf(factors[c.factor], c.level)
  }

  /** In the order of the two factors, and then of their two levels. */
  predicate Precedes(factors: Factors, p: Pair, q: Pair)
    requires IsPair(factors, p) && IsPair(factors, q)
  {
    if p.first.factor != q.first.factor then p.first.factor < q.first.factor
    else if p.second.factor != q.second.factor then p.second.factor < q.second.factor
    else if LevelPlace(factors, p.first) != LevelPlace(factors, q.first) then
      LevelPlace(factors, p.first) < LevelPlace(factors, q.first)
    else LevelPlace(factors, p.second) < LevelPlace(factors, q.second)
  }

  ghost predicate InOrder(factors: Factors, s: seq<Pair>) {
    && (forall i :: 0 <= i < |s| ==> IsPair(factors, s[i]))
    && forall i, j :: 0 <= i < j < |s| ==> Precedes(factors, s[i], s[j])
  }

  lemma NoneInOrder(factors: Factors)
    ensures InOrder(factors, [])
  {
  }

  lemma ConcatInOrder(factors: Factors, a: seq<Pair>, b: seq<Pair>)
    requires InOrder(factors, a) && InOrder(factors, b)
    requires forall p, q :: p in a && q in b ==> IsPair(factors, p) && IsPair(factors, q) && Precedes(factors, p, q)
    ensures InOrder(factors, a + b)
  {
    hide Precedes, IsPair;
    var s := a + b;
    forall i, j | 0 <= i < j < |s| ensures Precedes(factors, s[i], s[j]) {
      if i < |a| <= j {
        assert s[i] in a && s[j] in b;
      }
    }
  }

  lemma {:induction false} WithLevelInOrder(factors: Factors, a: Choice, fb: nat, k: nat)
    requires IsLevel(factors, a) && a.factor < fb < |factors| && k <= |factors[fb]| && Distinct(factors[fb])
    ensures InOrder(factors, WithLevel(a, fb, factors[fb][k..]))
    decreases |factors[fb]| - k
  {
    var bs := factors[fb];
    if k < |bs| {
      WithLevelInOrder(factors, a, fb, k + 1);
      assert bs[k..][1..] == bs[k + 1..];
      PlaceIs(bs, k);
      forall level | level in bs[k + 1..] ensures PlaceOf(bs, level) > k {
        var m :| 0 <= m < |bs[k + 1..]| && bs[k + 1..][m] == level;
        PlaceIs(bs, k + 1 + m);
      }
      ConcatInOrder(factors, [Pair(a, Choice(fb, bs[k]))], WithLevel(a, fb, bs[k + 1..]));
    }
  }

  lemma {:induction false} OfFactorsInOrder(factors: Factors, fa: nat, k: nat, fb: nat)
    requires fa < fb < |factors| && k <= |factors[fa]| && Distinct(factors[fa]) && Distinct(factors[fb])
    ensures InOrder(factors, OfFactors(fa, factors[fa][k..], fb, factors[fb]))
    decreases |factors[fa]| - k
  {
    var las, bs := factors[fa], factors[fb];
    if k < |las| {
      OfFactorsInOrder(factors, fa, k + 1, fb);
      assert las[k..][1..] == las[k + 1..] && bs[0..] == bs;
      WithLevelInOrder(factors, Choice(fa, las[k]), fb, 0);
      PlaceIs(las, k);
      forall level | level in las[k + 1..] ensures PlaceOf(las, level) > k {
        var m :| 0 <= m < |las[k + 1..]| && las[k + 1..][m] == level;
        PlaceIs(las, k + 1 + m);
      }
      ConcatInOrder(factors, WithLevel(Choice(fa, las[k]), fb, bs), OfFactors(fa, las[k + 1..], fb, bs));
    }
  }

  lemma {:induction false} WithLaterInOrder(factors: Factors, fa: nat, fb: nat)
    requires fa < fb <= |factors| && forall f :: 0 <= f < |factors| ==> Distinct(factors[f])
    ensures InOrder(factors, WithLater(factors, fa, fb))
    decreases |factors| - fb
  {
    hide Distinct;
    if fb < |factors| {
      WithLaterInOrder(factors, fa, fb + 1);
      assert factors[fa][0..] == factors[fa];
      OfFactorsInOrder(factors, fa, 0, fb);
      ConcatInOrder(factors, OfFactors(fa, factors[fa], fb, factors[fb]), WithLater(factors, fa, fb + 1));
    }
  }

  lemma {:induction false} PairsInOrder(factors: Factors, fa: nat)
    requires fa <= |factors| && forall f :: 0 <= f < |factors| ==> Distinct(factors[f])
    ensures InOrder(factors, PairsFrom(factors, fa))
    decreases |factors| - fa
  {
    hide Distinct, InOrder, LevelPlace, IsLevel;
    if fa < |factors| {
      PairsInOrder(factors, fa + 1);
      WithLaterInOrder(factors, fa, fa + 1);
      ConcatInOrder(factors, WithLater(factors, fa, fa + 1), PairsFrom(factors, fa + 1));
    } else {
      NoneInOrder(factors);
    }
  }

  lemma {:induction false} FilterInOrder(factors: Factors, s: seq<Pair>, p: Pair -> bool)
    requires InOrder(factors, s)
    ensures InOrder(factors, Filter(s, p))
  {
    hide Precedes, IsPair;
    if s != [] {
      FilterInOrder(factors, s[1..], p);
      if p(s[0]) {
        forall q | q in Filter(s[1..], p)
          ensures IsPair(factors, s[0]) && IsPair(factors, q) && Precedes(factors, s[0], q)
        {
          var k :| 0 <= k < |s[1..]| && s[1..][k] == q;
          assert s[k + 1] == q;
        }
        ConcatInOrder(factors, [s[0]], Filter(s[1..], p));
      }
    }
  }

  /** Seeds are tried in the order of their factors and then of their levels, each once. */
  lemma SeedsInOrder(factors: Factors, s: set<Pair>)
    requires forall f :: 0 <= f < |factors| ==> Distinct(factors[f])
    ensures InOrder(factors, Ordered(factors, s))
    ensures forall i, j :: 0 <= i < j < |Ordered(factors, s)| ==> Ordered(factors, s)[i] != Ordered(factors, s)[j]
  {
    PairsInOrder(factors, 0);
    FilterInOrder(factors, PairsFrom(factors, 0), (p: Pair) => p in s);
  }

  // ---- what a level adds ----

  /** The pairs of a row that is not full yet. */
  ghost function Covers(row: map<nat, string>): set<Pair> {
    set g, h | g in row && h in row && g < h :: Pair(Choice(g, row[g]), Choice(h, row[h]))
  }

  /** The pairs of a level with those of some factors of the row. */
  ghost function With(row: map<nat, string>, f: nat, level: string, fits: set<nat>): set<Pair>
    requires fits <= row.Keys
  {
    set g | g in fits :: Key(Choice(f, level), Choice(g, row[g]))
  }

  lemma {:induction false} WithCounts(row: map<nat, string>, f: nat, level: string, fits: set<nat>)
    requires f !in row && fits <= row.Keys
    ensures |With(row, f, level, fits)| == |fits|
  {
    if fits != {} {
      var g :| g in fits;
      var rest := fits - {g};
      WithCounts(row, f, level, rest);
      assert Key(Choice(f, level), Choice(g, row[g])) !in With(row, f, level, rest);
      assert With(row, f, level, fits) == With(row, f, level, rest) + {Key(Choice(f, level), Choice(g, row[g]))};
    }
  }

  lemma CoversMore(row: map<nat, string>, f: nat, level: string)
    requires f !in row
    ensures Covers(row[f := level]) == Covers(row) + With(row, f, level, row.Keys)
    ensures Covers(row) !! With(row, f, level, row.Keys)
  {
    var more := row[f := level];
    forall p | p in With(row, f, level, row.Keys) ensures p in Covers(more) {
      var g :| g in row && p == Key(Choice(f, level), Choice(g, row[g]));
      assert more[g] == row[g] && more[f] == level && g != f;
    }
    forall p | p in Covers(row) ensures p in Covers(more) {
      var g, h :| g in row && h in row && g < h && p == Pair(Choice(g, row[g]), Choice(h, row[h]));
      assert more[g] == row[g] && more[h] == row[h];
    }
    forall p | p in Covers(more) ensures p in Covers(row) || p in With(row, f, level, row.Keys) {
      if p.first.factor == f || p.second.factor == f {
        var g := if p.first.factor == f then p.second.factor else p.first.factor;
        assert p == Key(Choice(f, level), Choice(g, row[g])) && g in row.Keys;
      }
    }
  }

  lemma WithUncovered(row: map<nat, string>, f: nat, level: string, uncovered: set<Pair>, fits: set<nat>)
    requires fits == set g | g in row && Key(Choice(f, level), Choice(g, row[g])) in uncovered
    ensures With(row, f, level, row.Keys) * uncovered == With(row, f, level, fits)
  {
    hide Key;
  }

  /** What a level is picked for is how many uncovered pairs it adds to those its row covers. */
  lemma LevelAdds(row: map<nat, string>, f: nat, level: string, uncovered: set<Pair>)
    requires f !in row
    ensures |Covers(row[f := level]) * uncovered| == |Covers(row) * uncovered| + NewPairs(row, f, level, uncovered)
  {
    hide Covers, With, Key;
    var fits := set g | g in row && Key(Choice(f, level), Choice(g, row[g])) in uncovered;
    WithCounts(row, f, level, fits);
    CoversMore(row, f, level);
    WithUncovered(row, f, level, uncovered, fits);
    assert Covers(row[f := level]) * uncovered == Covers(row) * uncovered + With(row, f, level, fits);
  }
}
