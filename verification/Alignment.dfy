/** `cli_runner._align`: the quadratic alignment of the operator's own hpc-bridge calls with the
    server's journal rows. The table and the traceback are imperative, as in the source; the
    specification is the best total score over all order-preserving matchings. */
module Alignment {

  import opened Common

  datatype Json =
    | JNull
    | JBool(b: bool)
    | JNumber(n: real)
    | JString(s: string)
    | JList(items: seq<Json>)
    | JObject(fields: map<string, Json>)

  type Args = map<string, Json>

  /** One tool call as the harness itself recorded it (`ran`: None when unknown). */
  datatype Native = Native(name: string, args: Args, hpcb: bool, ran: Option<bool>)

  /** One row of the server's journal. `tool` is absent on the batch engine's own event rows. */
  datatype Row = Row(tool: Option<string>, isEvent: bool, args: Args,
                     ts: Option<real>, ms: Option<real>, number: int, outcome: Json)

  const REDACTED := JString("<redacted>")

  function Get(args: Args, key: string): Json {
    if key in args then args[key] else JNull
  }

  /** `str(r.get("tool"))`: a missing tool reads "None". */
  function ToolText(r: Row): string {
    if r.tool.Some? then r.tool.value else "None"
  }

  /** Same arguments up to the coercion `loose` a harness may apply; a redacted value matches anything. */
  predicate SameArgs(loose: Json -> Json, native: Args, got: Args) {
    forall k | k in native.Keys + got.Keys ::
      Get(got, k) != REDACTED ==> loose(Get(native, k)) == loose(Get(got, k))
  }

  function Score(loose: Json -> Json, e: Native, r: Row): nat {
    if e.ran == Some(false) || e.name != ToolText(r) then 0
    else if SameArgs(loose, e.args, r.args) then 2 else 1
  }

  /** The value of an argument, absent read as null. */
  ghost function ValueOf(args: Args, key: string): Json { if key in args then args[key] else JNull }

  /** No point for a call the harness refused, or of another tool; two when the arguments agree, up to the
      harness's coercion, on every key of either but those the row has redacted; one otherwise. */
  lemma ScoreMeans(loose: Json -> Json, e: Native, r: Row)
    ensures Score(loose, e, r) <= 2
    ensures Score(loose, e, r) == 0
      <==> e.ran == Some(false) || !(r.tool == Some(e.name) || (r.tool.None? && e.name == "None"))
    ensures Score(loose, e, r) == 2
      <==> Score(loose, e, r) != 0 && forall key :: key in e.args || key in r.args ==>
             ValueOf(r.args, key) != JString("<redacted>") ==>
             loose(ValueOf(e.args, key)) == loose(ValueOf(r.args, key))
  {
    assert forall key :: key in e.args.Keys + r.args.Keys <==> key in e.args || key in r.args;
    assert forall key :: Get(e.args, key) == ValueOf(e.args, key) && Get(r.args, key) == ValueOf(r.args, key);
  }

  // ---- what an alignment is, and what it is worth ----

  /** The score of every (call, row) position: zero outside the two lists. */
  function Scores(loose: Json -> Json, es: seq<Native>, rs: seq<Row>): (nat, nat) -> nat {
    (i: nat, j: nat) => if i < |es| && j < |rs| then Score(loose, es[i], rs[j]) else 0
  }

  /** Order-preserving, and only between positions that score (so in range). */
  ghost predicate Matching(w: (nat, nat) -> nat, pairs: map<nat, nat>) {
    && (forall a | a in pairs :: w(a, pairs[a]) != 0)
    && (forall a, b | a in pairs && b in pairs && a < b :: pairs[a] < pairs[b])
  }

  /** The score of the pairs whose call is among the first `upto`. */
  ghost function Total(w: (nat, nat) -> nat, pairs: map<nat, nat>, upto: nat): nat {
    if upto == 0 then 0
    else Total(w, pairs, upto - 1) + if upto - 1 in pairs then w(upto - 1, pairs[upto - 1]) else 0
  }

  ghost function Worth(loose: Json -> Json, es: seq<Native>, rs: seq<Row>, pairs: map<nat, nat>): nat {
    Total(Scores(loose, es, rs), pairs, |es|)
  }

  /** A matching of the operator's calls `es` with the journal rows `rs`. */
  ghost predicate Aligns(loose: Json -> Json, es: seq<Native>, rs: seq<Row>, pairs: map<nat, nat>) {
    && (forall a | a in pairs :: a < |es| && pairs[a] < |rs| && Score(loose, es[a], rs[pairs[a]]) != 0)
    && (forall a, b | a in pairs && b in pairs && a < b :: pairs[a] < pairs[b])
  }

  /** A matching no other is worth more than. */
  ghost predicate BestAlignment(loose: Json -> Json, es: seq<Native>, rs: seq<Row>, pairs: map<nat, nat>) {
    && Aligns(loose, es, rs, pairs)
    && (forall other :: Aligns(loose, es, rs, other) ==> Worth(loose, es, rs, other) <= Worth(loose, es, rs, pairs))
  }

  /** The recurrence of the table: the best score of aligning the calls from `i` with the rows from `j`. */
  function Best(w: (nat, nat) -> nat, n: nat, m: nat, i: nat, j: nat): nat
    requires i <= n && j <= m
    decreases n - i + m - j
  {
    if i == n || j == m then 0
    else Max(Max(Best(w, n, m, i + 1, j), Best(w, n, m, i, j + 1)),
             if w(i, j) != 0 then w(i, j) + Best(w, n, m, i + 1, j + 1) else 0)
  }

  lemma TotalNext(w: (nat, nat) -> nat, p: map<nat, nat>, i: nat)
    ensures Total(w, p, i + 1) == Total(w, p, i) + if i in p then w(i, p[i]) else 0
  {
  }

  /** No matching does better on the calls from `i` on than the table says, when those calls only
      use rows from `j` on. */
  lemma {:induction false} BestBounds(w: (nat, nat) -> nat, n: nat, m: nat, p: map<nat, nat>, i: nat, j: nat)
    requires Matching(w, p) && i <= n && j <= m
    requires forall a | a in p :: a < n && p[a] < m
    requires forall a | a in p && a >= i :: p[a] >= j
    ensures Total(w, p, n) <= Total(w, p, i) + Best(w, n, m, i, j)
    decreases n - i + m - j
  {
    hide Total;
    TotalNext(w, p, i);
    if i == n {
    } else if i in p && p[i] == j {
      BestBounds(w, n, m, p, i + 1, j + 1);
    } else if i in p {
      BestBounds(w, n, m, p, i, j + 1);
    } else {
      BestBounds(w, n, m, p, i + 1, j);
    }
  }

  /** A matching is worth one or two points a pair, when its pairs are. */
  lemma {:induction false} TotalCounts(w: (nat, nat) -> nat, p: map<nat, nat>, upto: nat)
    requires forall a | a in p :: 1 <= w(a, p[a]) <= 2
    ensures var part := set a | a in p && a < upto; |part| <= Total(w, p, upto) <= 2 * |part|
  {
    var part := set a | a in p && a < upto;
    if upto == 0 {
      assert part == {};
    } else {
      TotalCounts(w, p, upto - 1);
      var before := set a | a in p && a < upto - 1;
      if upto - 1 in p {
        assert part == before + {upto - 1} && upto - 1 !in before;
      } else {
        assert part == before;
      }
    }
  }

  lemma WorthCounts(loose: Json -> Json, es: seq<Native>, rs: seq<Row>, p: map<nat, nat>)
    requires Aligns(loose, es, rs, p)
    ensures |p| <= Worth(loose, es, rs, p) <= 2 * |p|
  {
    TotalCounts(Scores(loose, es, rs), p, |es|);
    assert p.Keys == set a | a in p && a < |es|;
    assert |p| == |p.Keys|;
  }

  /** How many of the pairs have the same arguments. */
  ghost function Exact(loose: Json -> Json, es: seq<Native>, rs: seq<Row>, pairs: map<nat, nat>): int {
    Worth(loose, es, rs, pairs) - |pairs|
  }

  /** The pairs worth two points whose call is among the first `upto`. */
  ghost function TwoPoints(w: (nat, nat) -> nat, p: map<nat, nat>, upto: nat): set<nat> {
    set a | a in p && a < upto && w(a, p[a]) == 2
  }

  ghost function Upto(p: map<nat, nat>, upto: nat): set<nat> { set a | a in p && a < upto }

  lemma UptoNext(w: (nat, nat) -> nat, p: map<nat, nat>, n: nat)
    ensures Upto(p, n + 1) == if n in p then Upto(p, n) + {n} else Upto(p, n)
    ensures TwoPoints(w, p, n + 1) == if n in p && w(n, p[n]) == 2 then TwoPoints(w, p, n) + {n} else TwoPoints(w, p, n)
    ensures n !in Upto(p, n) && n !in TwoPoints(w, p, n)
  {
  }

  lemma {:induction false} TotalSplits(w: (nat, nat) -> nat, p: map<nat, nat>, upto: nat)
    requires forall a | a in p :: 1 <= w(a, p[a]) <= 2
    ensures Total(w, p, upto) == |Upto(p, upto)| + |TwoPoints(w, p, upto)|
  {
    if upto == 0 {
      assert Upto(p, 0) == {} && TwoPoints(w, p, 0) == {};
    } else {
      hide Upto, TwoPoints;
      TotalSplits(w, p, upto - 1);
      UptoNext(w, p, upto - 1);
    }
  }

  /** That is what it is: the pairs worth two points. */
  lemma ExactCounts(loose: Json -> Json, es: seq<Native>, rs: seq<Row>, p: map<nat, nat>)
    requires Aligns(loose, es, rs, p)
    ensures Exact(loose, es, rs, p) == |TwoPoints(Scores(loose, es, rs), p, |es|)|
  {
    TotalSplits(Scores(loose, es, rs), p, |es|);
    assert p.Keys == Upto(p, |es|);
    assert |p| == |p.Keys|;
  }

  ghost predicate AllScore(loose: Json -> Json, es: seq<Native>, rs: seq<Row>, k: nat) {
    forall e, r | e in es && r in rs && Score(loose, e, r) != 0 :: Score(loose, e, r) == k
  }

  /** All pairs that score, score alike: no call of a row's tool has its arguments, or every one does. */
  ghost predicate ScoresAlike(loose: Json -> Json, es: seq<Native>, rs: seq<Row>) {
    AllScore(loose, es, rs, 1) || AllScore(loose, es, rs, 2)
  }

  lemma {:induction false} TotalAlike(w: (nat, nat) -> nat, p: map<nat, nat>, upto: nat, k: nat)
    requires forall a | a in p :: w(a, p[a]) == k
    ensures Total(w, p, upto) == k * |Upto(p, upto)|
  {
    if upto == 0 {
      assert Upto(p, 0) == {};
    } else {
      hide Upto;
      TotalAlike(w, p, upto - 1, k);
      UptoNext(w, p, upto - 1);
    }
  }

  lemma WorthAlike(loose: Json -> Json, es: seq<Native>, rs: seq<Row>, p: map<nat, nat>, k: nat)
    requires Aligns(loose, es, rs, p) && AllScore(loose, es, rs, k)
    ensures Worth(loose, es, rs, p) == k * |p|
  {
    hide Score;
    var w := Scores(loose, es, rs);
    forall a | a in p ensures w(a, p[a]) == k {
      assert es[a] in es && rs[p[a]] in rs;
    }
    TotalAlike(w, p, |es|, k);
    assert p.Keys == Upto(p, |es|);
    assert |p| == |p.Keys|;
  }

  /** How far the alignment can be from matching the most calls: no matching has more pairs than it by more than
      it has more exact ones; so when all pairs that score, score alike, it has the most pairs. */
  lemma MostCallsWhenAlike(loose: Json -> Json, es: seq<Native>, rs: seq<Row>, pairs: map<nat, nat>,
                           other: map<nat, nat>)
    requires BestAlignment(loose, es, rs, pairs) && Aligns(loose, es, rs, other)
    ensures |other| - |pairs| <= Exact(loose, es, rs, pairs) - Exact(loose, es, rs, other)
    ensures ScoresAlike(loose, es, rs) ==> |other| <= |pairs|
  {
    hide Worth, AllScore, Aligns;
    if ScoresAlike(loose, es, rs) {
      var k := if AllScore(loose, es, rs, 1) then 1 else 2;
      WorthAlike(loose, es, rs, pairs, k);
      WorthAlike(loose, es, rs, other, k);
    }
  }

  lemma {:induction false} TotalFrame(w: (nat, nat) -> nat, p: map<nat, nat>, q: map<nat, nat>, upto: nat)
    requires forall a | a < upto :: (a in p <==> a in q) && (a in p ==> p[a] == q[a])
    ensures Total(w, p, upto) == Total(w, q, upto)
  {
    if upto > 0 {
      TotalFrame(w, p, q, upto - 1);
    }
  }

  /** Pairs made so far add nothing past the last call they use. */
  lemma {:induction false} TotalStops(w: (nat, nat) -> nat, p: map<nat, nat>, i: nat, upto: nat)
    requires i <= upto && forall a | a in p :: a < i
    ensures Total(w, p, upto) == Total(w, p, i)
    decreases upto - i
  {
    if i < upto {
      TotalStops(w, p, i, upto - 1);
    }
  }

  /** What the walk keeps: a matching of the calls before `i` with rows before `j`, that together
      with the table's entry here is worth the table's first entry. */
  ghost predicate OnBestPath(w: (nat, nat) -> nat, n: nat, m: nat, p: map<nat, nat>, i: nat, j: nat)
    requires i <= n && j <= m
  {
    && Matching(w, p)
    && (forall a | a in p :: a < i && p[a] < j)
    && Total(w, p, i) + Best(w, n, m, i, j) == Best(w, n, m, 0, 0)
  }

  lemma TakePair(w: (nat, nat) -> nat, n: nat, m: nat, p: map<nat, nat>, i: nat, j: nat)
    requires i < n && j < m && OnBestPath(w, n, m, p, i, j)
    requires w(i, j) != 0 && Best(w, n, m, i, j) == w(i, j) + Best(w, n, m, i + 1, j + 1)
    ensures OnBestPath(w, n, m, p[i := j], i + 1, j + 1)
  {
    TotalFrame(w, p, p[i := j], i);
  }

  lemma SkipCall(w: (nat, nat) -> nat, n: nat, m: nat, p: map<nat, nat>, i: nat, j: nat)
    requires i < n && j < m && OnBestPath(w, n, m, p, i, j)
    requires Best(w, n, m, i, j) == Best(w, n, m, i + 1, j)
    ensures OnBestPath(w, n, m, p, i + 1, j)
  {
    TotalStops(w, p, i, i + 1);
  }

  lemma SkipRow(w: (nat, nat) -> nat, n: nat, m: nat, p: map<nat, nat>, i: nat, j: nat)
    requires i < n && j < m && OnBestPath(w, n, m, p, i, j)
    requires Best(w, n, m, i, j) != Best(w, n, m, i + 1, j)
    requires w(i, j) == 0 || Best(w, n, m, i, j) != w(i, j) + Best(w, n, m, i + 1, j + 1)
    ensures OnBestPath(w, n, m, p, i, j + 1)
  {
  }

  // ---- the algorithm ----

  lemma BestNext(w: (nat, nat) -> nat, n: nat, m: nat, i: nat, j: nat)
    requires i < n && j < m
    ensures var s := w(i, j);
      Best(w, n, m, i, j) == Max(Max(Best(w, n, m, i + 1, j), Best(w, n, m, i, j + 1)),
                                 if s != 0 then s + Best(w, n, m, i + 1, j + 1) else 0)
  {
  }

  lemma BestAtEdge(w: (nat, nat) -> nat, n: nat, m: nat, i: nat, j: nat)
    requires i <= n && j <= m && (i == n || j == m)
    ensures Best(w, n, m, i, j) == 0
  {
  }

  method FillTable(w: (nat, nat) -> nat, n: nat, m: nat) returns (best: array2<nat>)
    ensures fresh(best) && best.Length0 == n + 1 && best.Length1 == m + 1
    ensures forall i, j {:trigger best[i, j]} :: 0 <= i <= n && 0 <= j <= m ==> best[i, j] == Best(w, n, m, i, j)
  {
    hide Best;
    best := new nat[n + 1, m + 1]((_, _) => 0);
    forall j: nat | j <= m ensures Best(w, n, m, n, j) == 0 {
      BestAtEdge(w, n, m, n, j);
    }
    var i := n;
    while i > 0
      invariant 0 <= i <= n
      invariant forall a, b {:trigger best[a, b]} :: i <= a <= n && 0 <= b <= m ==> best[a, b] == Best(w, n, m, a, b)
      invariant forall a, b :: 0 <= a < i && 0 <= b <= m ==> best[a, b] == 0
    {
      i := i - 1;
      var j := m;
      BestAtEdge(w, n, m, i, m);
      while j > 0
        invariant 0 <= j <= m
        invariant forall a, b {:trigger best[a, b]} :: i < a <= n && 0 <= b <= m ==> best[a, b] == Best(w, n, m, a, b)
        invariant forall b {:trigger best[i, b]} :: j <= b <= m ==> best[i, b] == Best(w, n, m, i, b)
        invariant forall a, b :: 0 <= a < i && 0 <= b <= m ==> best[a, b] == 0
      {
        j := j - 1;
        BestNext(w, n, m, i, j);
        var s := w(i, j);
        best[i, j] := Max(Max(best[i + 1, j], best[i, j + 1]), if s != 0 then s + best[i + 1, j + 1] else 0);
      }
    }
  }

  /** The walk through the table: a matching worth exactly the table's first entry. */
  method Walk(w: (nat, nat) -> nat, n: nat, m: nat, best: array2<nat>) returns (pairs: map<nat, nat>)
    requires best.Length0 == n + 1 && best.Length1 == m + 1
    requires forall i, j {:trigger best[i, j]} :: 0 <= i <= n && 0 <= j <= m ==> best[i, j] == Best(w, n, m, i, j)
    ensures Matching(w, pairs) && forall a | a in pairs :: a < n && pairs[a] < m
    ensures Total(w, pairs, n) == Best(w, n, m, 0, 0)
  {
    hide Best, Max;
    pairs := map[];
    var i, j := 0, 0;
    while i < n && j < m
      invariant 0 <= i <= n && 0 <= j <= m
      invariant OnBestPath(w, n, m, pairs, i, j)
      decreases n - i + m - j
    {
      BestNext(w, n, m, i, j);
      var s := w(i, j);
      if s != 0 && best[i, j] == s + best[i + 1, j + 1] {
        TakePair(w, n, m, pairs, i, j);
        pairs := pairs[i := j];
        i, j := i + 1, j + 1;
      } else if best[i, j] == best[i + 1, j] {
        SkipCall(w, n, m, pairs, i, j);
        i := i + 1;
      } else {
        SkipRow(w, n, m, pairs, i, j);
        j := j + 1;
      }
    }
    BestAtEdge(w, n, m, i, j);
    TotalStops(w, pairs, i, n);
  }

  /** A matching worth the table's first entry is worth the most, and has at least half as many pairs as any. */
  lemma FirstEntryIsBest(loose: Json -> Json, es: seq<Native>, rs: seq<Row>, pairs: map<nat, nat>, other: map<nat, nat>)
    requires Aligns(loose, es, rs, pairs) && Aligns(loose, es, rs, other)
    requires Worth(loose, es, rs, pairs) == Best(Scores(loose, es, rs), |es|, |rs|, 0, 0)
    ensures Worth(loose, es, rs, other) <= Worth(loose, es, rs, pairs) && |other| <= 2 * |pairs|
  {
    hide Score, Best;
    BestBounds(Scores(loose, es, rs), |es|, |rs|, other, 0, 0);
    WorthCounts(loose, es, rs, other);
    WorthCounts(loose, es, rs, pairs);
  }

  /** The alignment: a matching no order-preserving matching is worth more than, so with at least
      half as many pairs as any; and with the most, when all pairs that score, score alike. */
  method Align(loose: Json -> Json, es: seq<Native>, rs: seq<Row>) returns (pairs: map<nat, nat>)
    ensures BestAlignment(loose, es, rs, pairs)
    ensures forall other :: Aligns(loose, es, rs, other) ==> |other| <= 2 * |pairs|
    ensures ScoresAlike(loose, es, rs) ==> forall other :: Aligns(loose, es, rs, other) ==> |other| <= |pairs|
  {
    hide Score, Best, ScoresAlike;
    var best := FillTable(Scores(loose, es, rs), |es|, |rs|);
    pairs := Walk(Scores(loose, es, rs), |es|, |rs|, best);
    MatchingAligns(loose, es, rs, pairs);
    assert Worth(loose, es, rs, pairs) == Best(Scores(loose, es, rs), |es|, |rs|, 0, 0);
    hide *;
    forall other | Aligns(loose, es, rs, other)
      ensures Worth(loose, es, rs, other) <= Worth(loose, es, rs, pairs) && |other| <= 2 * |pairs|
    {
      FirstEntryIsBest(loose, es, rs, pairs, other);
    }
    BestIs(loose, es, rs, pairs);
    forall other | Aligns(loose, es, rs, other) && ScoresAlike(loose, es, rs) ensures |other| <= |pairs| {
      MostCallsWhenAlike(loose, es, rs, pairs, other);
    }
  }

  lemma BestIs(loose: Json -> Json, es: seq<Native>, rs: seq<Row>, pairs: map<nat, nat>)
    requires Aligns(loose, es, rs, pairs)
    requires forall other | Aligns(loose, es, rs, other) :: Worth(loose, es, rs, other) <= Worth(loose, es, rs, pairs)
    ensures BestAlignment(loose, es, rs, pairs)
  {
    hide Aligns, Worth;
  }

  // ---- the most points, not the most calls ----

  function Exactly(x: Json): Json { x }

  function Sent(v: real): Native { Native("run_shell", map["command" := JNumber(v)], true, None) }

  function Received(v: real): Row {
    Row(Some("run_shell"), false, map["command" := JNumber(v)], None, None, 0, JNull)
  }

  const THREE_CALLS := [Sent(1.0), Sent(2.0), Sent(3.0)]
  const THREE_ROWS := [Received(9.0), Received(1.0), Received(2.0)]
  const EXACT_PAIRS: map<nat, nat> := map[0 := 1, 1 := 2]
  const ALL_PAIRS: map<nat, nat> := map[0 := 0, 1 := 1, 2 := 2]

  lemma SentScore(a: real, b: real)
    ensures Score(Exactly, Sent(a), Received(b)) == if a == b then 2 else 1
  {
    assert "command" in Sent(a).args.Keys + Received(b).args.Keys;
    assert Get(Sent(a).args, "command") == JNumber(a) && Get(Received(b).args, "command") == JNumber(b);
  }

  lemma TotalOfThree(w: (nat, nat) -> nat, p: map<nat, nat>)
    ensures Total(w, p, 3) == (if 0 in p then w(0, p[0]) else 0) + (if 1 in p then w(1, p[1]) else 0)
                              + (if 2 in p then w(2, p[2]) else 0)
  {
    assert Total(w, p, 1) == if 0 in p then w(0, p[0]) else 0;
    assert Total(w, p, 2) == Total(w, p, 1) + if 1 in p then w(1, p[1]) else 0;
  }

  lemma ThreeScores()
    ensures var w := Scores(Exactly, THREE_CALLS, THREE_ROWS);
      w(0, 1) == 2 && w(1, 2) == 2 && w(0, 0) == 1 && w(1, 1) == 1 && w(2, 2) == 1
  {
    SentScore(1.0, 1.0);
    SentScore(2.0, 2.0);
    SentScore(1.0, 9.0);
    SentScore(2.0, 1.0);
    SentScore(3.0, 2.0);
  }

  lemma PairsWorth(w: (nat, nat) -> nat)
    requires w(0, 1) == 2 && w(1, 2) == 2 && w(0, 0) == 1 && w(1, 1) == 1 && w(2, 2) == 1
    ensures Total(w, EXACT_PAIRS, 3) == 4 && Total(w, ALL_PAIRS, 3) == 3
    ensures Matching(w, EXACT_PAIRS) && Matching(w, ALL_PAIRS)
  {
    TotalOfThree(w, EXACT_PAIRS);
    TotalOfThree(w, ALL_PAIRS);
  }

  lemma MatchingAligns(loose: Json -> Json, es: seq<Native>, rs: seq<Row>, p: map<nat, nat>)
    requires Matching(Scores(loose, es, rs), p)
    ensures Aligns(loose, es, rs, p)
  {
    forall a | a in p ensures a < |es| && p[a] < |rs| && Score(loose, es[a], rs[p[a]]) != 0 {
      assert Scores(loose, es, rs)(a, p[a]) != 0;
    }
  }

  lemma ExactBeatsMost(loose: Json -> Json, es: seq<Native>, rs: seq<Row>)
    requires |es| == 3
    requires var w := Scores(loose, es, rs);
      w(0, 1) == 2 && w(1, 2) == 2 && w(0, 0) == 1 && w(1, 1) == 1 && w(2, 2) == 1
    ensures Aligns(loose, es, rs, EXACT_PAIRS) && Aligns(loose, es, rs, ALL_PAIRS)
    ensures Worth(loose, es, rs, ALL_PAIRS) < Worth(loose, es, rs, EXACT_PAIRS)
  {
    PairsWorth(Scores(loose, es, rs));
    MatchingAligns(loose, es, rs, EXACT_PAIRS);
    MatchingAligns(loose, es, rs, ALL_PAIRS);
  }

  /** Three calls and three rows have one alignment of three pairs. */
  lemma ThreePairs(p: map<nat, nat>)
    requires |p| == 3 && (forall a | a in p :: a < 3 && p[a] < 3)
    requires forall a, b | a in p && b in p && a < b :: p[a] < p[b]
    ensures p == ALL_PAIRS
  {
    assert |p.Keys| == 3;
    AllOfThree(p.Keys);
    assert p[0] < p[1] < p[2] < 3;
    assert p.Keys == ALL_PAIRS.Keys;
  }

  lemma AllOfThree(s: set<nat>)
    requires |s| >= 3 && forall a | a in s :: a < 3
    ensures s == {0, 1, 2} && |s| == 3
  {
    var left := {0, 1, 2} - s;
    assert s + left == {0, 1, 2} && |s + left| == |s| + |left|;
    assert left == {};
  }

  /** An alignment worth the most has fewer pairs than one that is worth less. */
  lemma BestIsSmaller(loose: Json -> Json, es: seq<Native>, rs: seq<Row>, pairs: map<nat, nat>)
    requires |es| == |rs| == 3 && BestAlignment(loose, es, rs, pairs)
    requires Aligns(loose, es, rs, EXACT_PAIRS) && Worth(loose, es, rs, ALL_PAIRS) < Worth(loose, es, rs, EXACT_PAIRS)
    ensures |pairs| < 3
  {
    hide Worth, Score;
    if |pairs| >= 3 {
      assert |pairs.Keys| == |pairs|;
      AllOfThree(pairs.Keys);
      ThreePairs(pairs);
    }
  }

  /** The alignment is not always the one that matches the most calls: with calls 1, 2, 3 against
      rows 9, 1, 2 the two exact matches are worth 4, the three same-tool ones only 3; so whatever
      alignment is worth the most has fewer pairs than these three. */
  lemma MostPointsNotMostCalls()
    ensures Aligns(Exactly, THREE_CALLS, THREE_ROWS, EXACT_PAIRS) && Aligns(Exactly, THREE_CALLS, THREE_ROWS, ALL_PAIRS)
    ensures |EXACT_PAIRS| < |ALL_PAIRS|
    ensures Worth(Exactly, THREE_CALLS, THREE_ROWS, ALL_PAIRS) < Worth(Exactly, THREE_CALLS, THREE_ROWS, EXACT_PAIRS)
    ensures forall pairs :: BestAlignment(Exactly, THREE_CALLS, THREE_ROWS, pairs) ==> |pairs| < |ALL_PAIRS|
  {
    hide Score, Scores, Worth, Aligns, BestAlignment;
    ThreeScores();
    assert |EXACT_PAIRS| == 2 && |ALL_PAIRS| == 3;
    ExactBeatsMost(Exactly, THREE_CALLS, THREE_ROWS);
    forall pairs | BestAlignment(Exactly, THREE_CALLS, THREE_ROWS, pairs) ensures |pairs| < 3 {
      BestIsSmaller(Exactly, THREE_CALLS, THREE_ROWS, pairs);
    }
  }
}
