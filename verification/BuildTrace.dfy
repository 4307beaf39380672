/** `cli_runner.build_trace`: the operator's own record fixes the order of the calls, the journal
    says what each hpc-bridge tool received and returned. The merge loses nothing, duplicates
    nothing and keeps both orders. */
module BuildTrace {
  import opened Common
  import opened Alignment
  import opened StableSort

  /** Where a call of the trace comes from: the operator's own tool, a journal row (with the
      server's timing), or an hpc-bridge call no row accounts for. */
  datatype Call =
    | Own(event: Native)
    | Journaled(row: Row, tCall: Option<real>, tResult: Option<real>)
    | Unreached(event: Native, refused: bool)

  datatype Stats = Stats(native: nat, matched: nat, rejected: nat, notReaching: nat, unplaced: nat)

  datatype Trace = Trace(calls: seq<Call>, texts: seq<string>, textAt: seq<nat>, events: seq<Row>, t0: Option<real>)

  /** The batch engine's own rows: an event and no tool. */
  predicate IsHappening(r: Row) { r.isEvent && r.tool.None? }

  predicate IsToolRow(r: Row) { !IsHappening(r) }

  function Stamp(r: Row): real { if r.ts.Some? then r.ts.value else 0.0 }

  /** The order calls started in: rows without a time last, then `ts`, then `seq`. */
  predicate Earlier(a: Row, b: Row) {
    if a.ts.None? != b.ts.None? then b.ts.None?
    else if Stamp(a) != Stamp(b) then Stamp(a) < Stamp(b)
    else a.number <= b.number
  }

  function Started(rows: seq<Row>): seq<Row> { Sort(Filter(rows, IsToolRow), Earlier) }

  /** The order the source sorts by: a row without a time after those with one, then by time, then by number. */
  ghost predicate InStartOrder(rows: seq<Row>) {
    forall i, j | 0 <= i < j < |rows| ::
      && (rows[i].ts.None? ==> rows[j].ts.None?)
      && (rows[i].ts.Some? && rows[j].ts.Some? ==> rows[i].ts.value <= rows[j].ts.value)
      && (rows[i].ts == rows[j].ts ==> rows[i].number <= rows[j].number)
  }

  lemma SortedIsInOrder(rows: seq<Row>)
    requires Sorted(rows, Earlier)
    ensures InStartOrder(rows)
  {
    forall i, j | 0 <= i < j < |rows| ensures Earlier(rows[i], rows[j]) {
    }
  }

  /** The rows aligned are the journal's rows, but for the batch engine's own events, in that order. */
  lemma StartedIs(rows: seq<Row>)
    ensures InStartOrder(Started(rows))
    ensures forall r :: r in Started(rows) <==> r in rows && !(r.isEvent && r.tool.None?)
  {
    assert TotalPreorder(Earlier);
    SortSorts(Filter(rows, IsToolRow), Earlier);
    SortedIsInOrder(Started(rows));
    SortKeepsElements(Filter(rows, IsToolRow), Earlier);
  }

  /** The least `ts` of any row that has one. */
  function FirstStart(rows: seq<Row>): (t0: Option<real>)
    ensures t0.Some? ==> forall r :: r in rows && r.ts.Some? ==> t0.value <= r.ts.value
    ensures t0.Some? ==> exists r :: r in rows && r.ts == t0
    ensures t0.None? ==> forall r :: r in rows ==> r.ts.None?
  {
    if rows == [] then None
    else
      var rest := FirstStart(rows[1..]);
      if rows[0].ts.None? then rest
      else if rest.None? || rows[0].ts.value <= rest.value then rows[0].ts
      else rest
  }

  /** The server's own timing, relative to the first start (the rounding to milliseconds is left out). */
  function FromRow(r: Row, t0: Option<real>): Call {
    if t0.Some? && r.ts.Some? then
      Journaled(r, Some(r.ts.value - t0.value),
                if r.ms.Some? then Some(r.ts.value - t0.value + r.ms.value / 1000.0) else None)
    else Journaled(r, None, None)
  }

  /** The positions of the hpc-bridge calls among the first `n` events. */
  function HpcbAt(events: seq<Native>, n: nat): (hp: seq<nat>)
    requires n <= |events|
    ensures forall a :: 0 <= a < |hp| ==> hp[a] < n && events[hp[a]].hpcb
    ensures forall a, b :: 0 <= a < b < |hp| ==> hp[a] < hp[b]
    ensures forall k: nat :: k < n && events[k].hpcb ==> k in hp
  {
    if n == 0 then []
    else if events[n - 1].hpcb then HpcbAt(events, n - 1) + [n - 1]
    else HpcbAt(events, n - 1)
  }

  function HpcbCalls(events: seq<Native>): (es: seq<Native>) {
    var hp := HpcbAt(events, |events|);
    seq(|hp|, a requires 0 <= a < |hp| => events[hp[a]])
  }

  // ---- picking rows by position ----

  /** The elements of `s[..n]` at the positions in `at`, in order. */
  function Pick<T>(s: seq<T>, at: set<nat>, n: nat): (r: seq<T>)
    requires n <= |s|
  {
    if n == 0 then []
    else if n - 1 in at then Pick(s, at, n - 1) + [s[n - 1]]
    else Pick(s, at, n - 1)
  }

  lemma {:induction false} PickFrame<T>(s: seq<T>, at: set<nat>, more: set<nat>, n: nat)
    requires n <= |s| && forall j: nat | j < n :: j in at <==> j in more
    ensures Pick(s, at, n) == Pick(s, more, n)
  {
    if n > 0 {
      PickFrame(s, at, more, n - 1);
    }
  }

  /** A position past every picked one adds its element at the end. */
  lemma {:induction false} PickNext<T>(s: seq<T>, at: set<nat>, b: nat, n: nat)
    requires b < n <= |s| && forall j: nat | j in at :: j < b
    ensures Pick(s, at + {b}, n) == Pick(s, at, n) + [s[b]]
  {
    if n - 1 == b {
      PickFrame(s, at, at + {b}, n - 1);
    } else {
      PickNext(s, at, b, n - 1);
    }
  }

  /** Picking at some positions and at all the others takes every element exactly once. */
  lemma {:induction false} PickConserves<T>(s: seq<T>, at: set<nat>, others: set<nat>, n: nat)
    requires n <= |s| && forall j: nat | j < n :: j in at <==> j !in others
    ensures multiset(Pick(s, at, n)) + multiset(Pick(s, others, n)) == multiset(s[..n])
  {
    if n > 0 {
      PickConserves(s, at, others, n - 1);
      assert s[..n] == s[..n - 1] + [s[n - 1]];
    }
  }

  lemma {:induction false} PickNone<T>(s: seq<T>, n: nat)
    requires n <= |s|
    ensures Pick(s, {}, n) == []
  {
    if n > 0 {
      PickNone(s, n - 1);
    }
  }

  lemma {:induction false} PickSorted<T(!new)>(s: seq<T>, le: (T, T) -> bool, at: set<nat>, n: nat)
    requires n <= |s| && Sorted(s, le)
    ensures Sorted(Pick(s, at, n), le)
    ensures forall x :: x in Pick(s, at, n) ==> x in s[..n]
  {
    if n > 0 {
      PickSorted(s, le, at, n - 1);
      forall x | x in Pick(s, at, n - 1) ensures le(x, s[n - 1]) && x in s[..n] {
        var i :| 0 <= i < n - 1 && s[..n - 1][i] == x;
        assert s[i] == x && s[..n][i] == x;
      }
      assert s[..n][n - 1] == s[n - 1];
      var r := Pick(s, at, n - 1);
      forall i | 0 <= i < |r| ensures le(r[i], s[n - 1]) {
        assert r[i] in r;
      }
    }
  }

  /** The positions of `n` rows that are not `used`. */
  function Unused(n: nat, used: set<nat>): (r: set<nat>)
    ensures forall j: nat :: j in r <==> j < n && j !in used
  {
    set j: nat | j < n && j !in used
  }

  // ---- reading a trace back ----

  /** The journal rows a list of calls carries, in order. */
  ghost function RowsOf(calls: seq<Call>): seq<Row> {
    if calls == [] then []
    else if calls[|calls| - 1].Journaled? then RowsOf(calls[..|calls| - 1]) + [calls[|calls| - 1].row]
    else RowsOf(calls[..|calls| - 1])
  }

  lemma {:induction false} RowsOfConcat(a: seq<Call>, b: seq<Call>)
    ensures RowsOf(a + b) == RowsOf(a) + RowsOf(b)
  {
    if b == [] {
      assert a + b == a;
    } else {
      RowsOfConcat(a, b[..|b| - 1]);
      assert (a + b)[..|a + b| - 1] == a + b[..|b| - 1];
    }
  }

  predicate IsOwn(c: Call) { c.Own? }
  predicate IsRefused(c: Call) { c.Unreached? && c.refused }
  predicate IsLost(c: Call) { c.Unreached? && !c.refused }

  ghost function Count(calls: seq<Call>, p: Call -> bool): nat {
    if calls == [] then 0
    else Count(calls[..|calls| - 1], p) + if p(calls[|calls| - 1]) then 1 else 0
  }

  /** The call the trace holds for one of the operator's events. */
  ghost predicate Explains(c: Call, e: Native) {
    match c
    case Own(event) => event == e && !e.hpcb
    case Journaled(r, _, _) => e.hpcb && e.ran != Some(false)
      && (r.tool == Some(e.name) || (r.tool.None? && e.name == "None"))
    case Unreached(event, refused) => event == e && e.hpcb && refused == (e.ran == Some(false))
  }

  /** The server's own timing, from the first start on: the start is never negative, the end is the
      start and the milliseconds the call took, and a row without a start has neither. */
  ghost predicate Timed(c: Call, t0: Option<real>) {
    c.Journaled? ==>
      if c.row.ts.None? then c.tCall.None? && c.tResult.None?
      else
        && t0.Some? && c.tCall == Some(c.row.ts.value - t0.value) && c.tCall.value >= 0.0
        && c.tResult.Some? == c.row.ms.Some?
        && (c.row.ms.Some? ==> 1000.0 * (c.tResult.value - c.tCall.value) == c.row.ms.value)
  }

  /** The matched calls are those of an alignment worth the most: each of its pairs puts its row at
      its event, and no other call has a row. */
  ghost predicate FollowsPairs(events: seq<Native>, ordered: seq<Row>, p: map<nat, nat>, calls: seq<Call>) {
    && |calls| == |events|
    && (forall a | a in p :: a < |HpcbAt(events, |events|)| && p[a] < |ordered|)
    && (forall a | a in p :: IsRow(calls[HpcbAt(events, |events|)[a]], ordered[p[a]]))
    && |RowsOf(calls)| == |p|
  }

  predicate IsRow(c: Call, r: Row) { c.Journaled? && c.row == r }

  ghost predicate FollowsBest(loose: Json -> Json, events: seq<Native>, ordered: seq<Row>, calls: seq<Call>) {
    exists p :: BestAlignment(loose, HpcbCalls(events), ordered, p) && FollowsPairs(events, ordered, p, calls)
  }

  // ---- the pairs of hpc-bridge calls, as pairs of events ----

  /** Row `b` can be the record of event `k`: an hpc-bridge call the harness did not refuse, of the row's tool. */
  ghost predicate Accounts(events: seq<Native>, ordered: seq<Row>, k: nat, b: nat) {
    && k < |events| && events[k].hpcb && events[k].ran != Some(false)
    && b < |ordered| && events[k].name == ToolText(ordered[b])
  }

  ghost predicate EventPairs(events: seq<Native>, ordered: seq<Row>, pairs: map<nat, nat>) {
    && (forall k | k in pairs :: Accounts(events, ordered, k, pairs[k]))
    && (forall k, l | k in pairs && l in pairs && k < l :: pairs[k] < pairs[l])
  }

  /** The alignment's pairs are of positions among the hpc-bridge calls; these are of events. */
  ghost predicate Lifts(p: map<nat, nat>, hp: seq<nat>, pairs: map<nat, nat>) {
    && (forall a | a in p :: a < |hp| && hp[a] in pairs && pairs[hp[a]] == p[a])
    && (forall k | k in pairs :: exists a :: a in p && hp[a] == k)
  }

  lemma LiftedPair(loose: Json -> Json, events: seq<Native>, ordered: seq<Row>, a: nat, b: nat)
    requires a < |HpcbCalls(events)| && b < |ordered| && Score(loose, HpcbCalls(events)[a], ordered[b]) != 0
    ensures Accounts(events, ordered, HpcbAt(events, |events|)[a], b)
  {
  }

  lemma LiftedPairs(events: seq<Native>, ordered: seq<Row>, hp: seq<nat>, p: map<nat, nat>, pairs: map<nat, nat>)
    requires forall a, b :: 0 <= a < b < |hp| ==> hp[a] < hp[b]
    requires Lifts(p, hp, pairs)
    requires forall a | a in p :: Accounts(events, ordered, hp[a], p[a])
    requires forall a, b | a in p && b in p && a < b :: p[a] < p[b]
    ensures EventPairs(events, ordered, pairs)
  {
    forall k | k in pairs ensures Accounts(events, ordered, k, pairs[k]) {
      var a :| a in p && hp[a] == k;
    }
    forall k, l | k in pairs && l in pairs && k < l ensures pairs[k] < pairs[l] {
      var a :| a in p && hp[a] == k;
      var b :| b in p && hp[b] == l;
      assert a < b;
    }
  }

  method Lift(hp: seq<nat>, p: map<nat, nat>) returns (pairs: map<nat, nat>)
    requires forall a, b | 0 <= a < b < |hp| :: hp[a] < hp[b]
    requires forall a | a in p :: a < |hp|
    ensures Lifts(p, hp, pairs) && |pairs| == |p|
  {
    pairs := map a | a in p :: hp[a] := p[a];
    SameSize(p.Keys, hp, pairs.Keys);
    assert |p| == |p.Keys| && |pairs| == |pairs.Keys|;
  }

  lemma {:induction false} SameSize(p: set<nat>, hp: seq<nat>, pairs: set<nat>)
    requires forall a | a in p :: a < |hp| && hp[a] in pairs
    requires forall a, b | a in p && b in p && a != b :: hp[a] != hp[b]
    requires forall k | k in pairs :: exists a :: a in p && hp[a] == k
    ensures |pairs| == |p|
    decreases |p|
  {
    if p == {} {
      assert pairs == {};
    } else {
      var a :| a in p;
      forall k | k in pairs - {hp[a]} ensures exists b :: b in p - {a} && hp[b] == k {
        var b :| b in p && hp[b] == k;
        assert b in p - {a};
      }
      SameSize(p - {a}, hp, pairs - {hp[a]});
    }
  }

  // ---- the merge ----

  /** The journal positions the first `k` events use. */
  ghost function Used(pairs: map<nat, nat>, k: nat): set<nat> { set a | a in pairs && a < k :: pairs[a] }

  function Tally(stats: Stats, c: Call): Stats {
    match c
    case Own(_) => stats.(native := stats.native + 1)
    case Journaled(_, _, _) => stats.(matched := stats.matched + 1)
    case Unreached(_, true) => stats.(rejected := stats.rejected + 1)
    case Unreached(_, false) => stats.(notReaching := stats.notReaching + 1)
  }

  /** The counters after a list of calls. */
  ghost function Tallied(calls: seq<Call>): Stats {
    if calls == [] then Stats(0, 0, 0, 0, 0)
    else Tally(Tallied(calls[..|calls| - 1]), calls[|calls| - 1])
  }

  /** The counters are the numbers of calls of each kind, and account for every call. */
  lemma {:induction false} TalliesCount(calls: seq<Call>)
    ensures var stats := Tallied(calls);
      && stats.native == Count(calls, IsOwn) && stats.matched == |RowsOf(calls)|
      && stats.rejected == Count(calls, IsRefused) && stats.notReaching == Count(calls, IsLost)
      && stats.native + stats.matched + stats.rejected + stats.notReaching == |calls| && stats.unplaced == 0
  {
    if calls != [] {
      TalliesCount(calls[..|calls| - 1]);
    }
  }

  lemma {:induction false} UsedSize(pairs: map<nat, nat>, calls: seq<Call>, ordered: seq<Row>, n: nat)
    requires n <= |calls| && forall k | 0 <= k < n :: calls[k].Journaled? <==> k in pairs
    ensures |RowsOf(calls[..n])| == |set a | a in pairs && a < n|
  {
    var part := set a | a in pairs && a < n;
    if n == 0 {
      assert part == {};
    } else {
      UsedSize(pairs, calls, ordered, n - 1);
      var before := set a | a in pairs && a < n - 1;
      assert calls[..n][..n - 1] == calls[..n - 1];
      assert part == if n - 1 in pairs then before + {n - 1} else before;
    }
  }

  /** The call for event `k`. */
  function CallOf(events: seq<Native>, ordered: seq<Row>, pairs: map<nat, nat>, t0: Option<real>, k: nat): Call
    requires k < |events| && (k in pairs ==> pairs[k] < |ordered|)
  {
    var e := events[k];
    if !e.hpcb then Own(e)
    else if k in pairs then FromRow(ordered[pairs[k]], t0)
    else Unreached(e, e.ran == Some(false))
  }

  lemma UsedBelow(events: seq<Native>, ordered: seq<Row>, pairs: map<nat, nat>, k: nat)
    requires EventPairs(events, ordered, pairs) && k in pairs
    ensures Used(pairs, k + 1) == Used(pairs, k) + {pairs[k]} && pairs[k] < |ordered|
    ensures forall j | j in Used(pairs, k) :: j < pairs[k]
  {
    assert Accounts(events, ordered, k, pairs[k]);
  }

  lemma UsedNext(events: seq<Native>, ordered: seq<Row>, pairs: map<nat, nat>, k: nat)
    requires EventPairs(events, ordered, pairs)
    ensures Pick(ordered, Used(pairs, k + 1), |ordered|)
         == if k in pairs then Pick(ordered, Used(pairs, k), |ordered|) + [ordered[pairs[k]]]
            else Pick(ordered, Used(pairs, k), |ordered|)
  {
    hide Pick, Used, EventPairs;
    if k in pairs {
      UsedBelow(events, ordered, pairs, k);
      PickNext(ordered, Used(pairs, k), pairs[k], |ordered|);
    } else {
      UsedSame(pairs, k);
    }
  }

  lemma UsedSame(pairs: map<nat, nat>, k: nat)
    requires k !in pairs
    ensures Used(pairs, k + 1) == Used(pairs, k)
  {
  }

  lemma OneMore(calls: seq<Call>, c: Call)
    ensures RowsOf(calls + [c]) == if c.Journaled? then RowsOf(calls) + [c.row] else RowsOf(calls)
    ensures Tallied(calls + [c]) == Tally(Tallied(calls), c)
  {
    assert (calls + [c])[..|calls|] == calls;
  }

  lemma CallHasRow(events: seq<Native>, ordered: seq<Row>, pairs: map<nat, nat>, t0: Option<real>, k: nat)
    requires EventPairs(events, ordered, pairs) && k < |events|
    ensures k in pairs ==> pairs[k] < |ordered|
    ensures var c := CallOf(events, ordered, pairs, t0, k);
      (c.Journaled? <==> k in pairs) && (k in pairs ==> c.row == ordered[pairs[k]])
  {
    assert k in pairs ==> Accounts(events, ordered, k, pairs[k]);
  }

  /** The calls of the events, in order, with the counters. */
  method MergeEvents(events: seq<Native>, ordered: seq<Row>, pairs: map<nat, nat>, t0: Option<real>)
    returns (calls: seq<Call>, stats: Stats)
    requires EventPairs(events, ordered, pairs) && t0 == FirstStart(ordered)
    ensures |calls| == |events|
    ensures forall k | 0 <= k < |events| :: calls[k] == CallOf(events, ordered, pairs, t0, k)
    ensures RowsOf(calls) == Pick(ordered, Used(pairs, |events|), |ordered|)
    ensures stats == Tallied(calls)
  {
    calls := [];
    stats := Stats(0, 0, 0, 0, 0);
    assert Used(pairs, 0) == {};
    assert forall k | k in pairs :: Accounts(events, ordered, k, pairs[k]);
    hide CallOf, Tally, Pick, Used, EventPairs;
    PickNone(ordered, |ordered|);
    for k := 0 to |events|
      invariant |calls| == k
      invariant forall a | 0 <= a < k :: calls[a] == CallOf(events, ordered, pairs, t0, a)
      invariant RowsOf(calls) == Pick(ordered, Used(pairs, k), |ordered|)
      invariant stats == Tallied(calls)
    {
      CallHasRow(events, ordered, pairs, t0, k);
      var c := CallOf(events, ordered, pairs, t0, k);
      OneMore(calls, c);
      UsedNext(events, ordered, pairs, k);
      stats := Tally(stats, c);
      calls := calls + [c];
    }
  }

  lemma CallsExplain(events: seq<Native>, ordered: seq<Row>, pairs: map<nat, nat>, t0: Option<real>, k: nat)
    requires EventPairs(events, ordered, pairs) && t0 == FirstStart(ordered) && k < |events|
    ensures Explains(CallOf(events, ordered, pairs, t0, k), events[k])
    ensures Timed(CallOf(events, ordered, pairs, t0, k), t0)
  {
  }

  /** The rows no event accounts for, as calls. */
  function Appended(left: seq<Row>, t0: Option<real>): (more: seq<Call>)
    ensures |more| == |left| && forall j | 0 <= j < |left| :: more[j] == FromRow(left[j], t0)
  {
    if left == [] then []
    else Appended(left[..|left| - 1], t0) + [FromRow(left[|left| - 1], t0)]
  }

  lemma {:induction false} AllJournaled(left: seq<Row>, t0: Option<real>)
    ensures RowsOf(Appended(left, t0)) == left
  {
    if left != [] {
      AllJournaled(left[..|left| - 1], t0);
      assert Appended(left, t0)[..|left| - 1] == Appended(left[..|left| - 1], t0);
    }
  }

  lemma EarlierIsTotal()
    ensures TotalPreorder(Earlier)
  {
  }

  /** The alignment, as pairs of events and rows. */
  method AlignEvents(loose: Json -> Json, events: seq<Native>, ordered: seq<Row>)
    returns (pairs: map<nat, nat>, ghost p: map<nat, nat>)
    ensures BestAlignment(loose, HpcbCalls(events), ordered, p)
    ensures Lifts(p, HpcbAt(events, |events|), pairs) && |pairs| == |p| && EventPairs(events, ordered, pairs)
    ensures forall other :: Aligns(loose, HpcbCalls(events), ordered, other) ==> |other| <= 2 * |pairs|
    ensures ScoresAlike(loose, HpcbCalls(events), ordered) ==>
      forall other :: Aligns(loose, HpcbCalls(events), ordered, other) ==> |other| <= |pairs|
  {
    hide Score, ScoresAlike, Worth, Lifts, EventPairs, Accounts;
    var matched := Align(loose, HpcbCalls(events), ordered);
    p := matched;
    pairs := Lift(HpcbAt(events, |events|), matched);
    forall a | a in p ensures Accounts(events, ordered, HpcbAt(events, |events|)[a], p[a]) {
      LiftedPair(loose, events, ordered, a, p[a]);
    }
    LiftedPairs(events, ordered, HpcbAt(events, |events|), p, pairs);
  }

  method Build(loose: Json -> Json, rows: seq<Row>, events: seq<Native>, texts: seq<string>, textAt: seq<nat>)
    returns (t: Trace, stats: Stats)
    // every event is exactly one call, in order, before any row no event accounts for
    ensures |t.calls| == |events| + stats.unplaced
    ensures forall k | 0 <= k < |events| :: Explains(t.calls[k], events[k])
    ensures forall k | |events| <= k < |t.calls| :: t.calls[k].Journaled?
    // every tool row of the journal is in exactly one call
    ensures multiset(RowsOf(t.calls)) == multiset(Filter(rows, IsToolRow))
    ensures forall r :: r in Filter(rows, IsToolRow) <==> r in rows && !(r.isEvent && r.tool.None?)
    // matched rows, and then the unmatched ones, are in the order their calls started
    ensures InStartOrder(RowsOf(t.calls[..|events|])) && InStartOrder(RowsOf(t.calls[|events|..]))
    ensures Sorted(RowsOf(t.calls[..|events|]), Earlier) && Sorted(RowsOf(t.calls[|events|..]), Earlier)
    // the counters
    ensures stats.native == Count(t.calls[..|events|], IsOwn)
    ensures stats.rejected == Count(t.calls[..|events|], IsRefused)
    ensures stats.notReaching == Count(t.calls[..|events|], IsLost)
    ensures stats.native + stats.matched + stats.rejected + stats.notReaching == |events|
    ensures stats.matched + stats.unplaced == |Filter(rows, IsToolRow)|
    ensures forall other :: Aligns(loose, HpcbCalls(events), Started(rows), other) ==> |other| <= 2 * stats.matched
    ensures ScoresAlike(loose, HpcbCalls(events), Started(rows)) ==>
      forall other :: Aligns(loose, HpcbCalls(events), Started(rows), other) ==> |other| <= stats.matched
    ensures FollowsBest(loose, events, Started(rows), t.calls[..|events|])
    // the rest of the trace
    ensures t.t0 == FirstStart(Started(rows))
    ensures t.texts == texts && t.textAt == (if |textAt| == |texts| then textAt else [])
    ensures t.events == Filter(rows, IsHappening)
    ensures forall r :: r in t.events <==> r in rows && r.isEvent && r.tool.None?
    ensures forall c :: c in t.calls ==> Timed(c, t.t0)
  {
    hide BestAlignment, Aligns, ScoresAlike, FollowsPairs, Explains, Timed, Lifts, EventPairs, CallOf, FirstStart,
      Sorted, TotalPreorder,
      Filter, Sort, RowsOf, Count, Tallied, Pick, Appended, Unused, HpcbAt, HpcbCalls;
    var ordered := Started(rows);
    EarlierIsTotal();
    SortSorts(Filter(rows, IsToolRow), Earlier);
    SortPermutes(Filter(rows, IsToolRow), Earlier);
    var t0 := FirstStart(ordered);
    ghost var p;
    var pairs;
    pairs, p := AlignEvents(loose, events, ordered);
    var calls;
    calls, stats := MergeEvents(events, ordered, pairs, t0);
    var left := Pick(ordered, Unused(|ordered|, pairs.Values), |ordered|);
    var more := Appended(left, t0);
    stats := stats.(unplaced := |left|);
    t := Trace(calls + more, texts, if |textAt| == |texts| then textAt else [], Filter(rows, IsHappening), t0);
    MatchedSize(events, ordered, pairs, t0, calls);
    TalliesCount(calls);
    Conserves(ordered, pairs.Values, calls, left, t0);
    KeepsOrder(ordered, pairs.Values, t0);
    forall k | 0 <= k < |events| ensures Explains(calls[k], events[k]) && Timed(calls[k], t0) {
      CallsExplain(events, ordered, pairs, t0, k);
    }
    assert t.calls[..|events|] == calls && t.calls[|events|..] == more;
    SortedIsInOrder(RowsOf(calls));
    SortedIsInOrder(RowsOf(more));
    Follows(events, ordered, HpcbAt(events, |events|), p, pairs, t0, calls);
  }

  lemma Follows(events: seq<Native>, ordered: seq<Row>, hp: seq<nat>, p: map<nat, nat>, pairs: map<nat, nat>,
                t0: Option<real>, calls: seq<Call>)
    requires hp == HpcbAt(events, |events|) && Lifts(p, hp, pairs) && |pairs| == |p| == |RowsOf(calls)|
    requires EventPairs(events, ordered, pairs) && |calls| == |events|
    requires forall k | 0 <= k < |events| :: calls[k] == CallOf(events, ordered, pairs, t0, k)
    ensures FollowsPairs(events, ordered, p, calls)
  {
    forall a | a in p ensures p[a] < |ordered| && hp[a] < |events| && IsRow(calls[hp[a]], ordered[p[a]]) {
      hide *;
      PairedRow(events, ordered, hp, p, pairs, t0, a);
      assert calls[hp[a]] == CallOf(events, ordered, pairs, t0, hp[a]);
    }
  }

  lemma PairedRow(events: seq<Native>, ordered: seq<Row>, hp: seq<nat>, p: map<nat, nat>, pairs: map<nat, nat>,
                  t0: Option<real>, a: nat)
    requires Lifts(p, hp, pairs) && EventPairs(events, ordered, pairs) && a in p
    ensures a < |hp| && hp[a] < |events| && p[a] < |ordered| && (hp[a] in pairs ==> pairs[hp[a]] < |ordered|)
    ensures IsRow(CallOf(events, ordered, pairs, t0, hp[a]), ordered[p[a]])
  {
    assert Accounts(events, ordered, hp[a], pairs[hp[a]]);
  }

  /** Rows that started together are merged in the order the journal was written. */
  lemma TiesKeepWrittenOrder(rows: seq<Row>, ts: Option<real>, number: int)
    ensures var tied := (r: Row) => r.ts == ts && r.number == number;
      Filter(Started(rows), tied) == Filter(Filter(rows, IsToolRow), tied)
  {
    SortStable(Filter(rows, IsToolRow), Earlier, (r: Row) => r.ts == ts && r.number == number);
  }

  lemma MatchedSize(events: seq<Native>, ordered: seq<Row>, pairs: map<nat, nat>, t0: Option<real>, calls: seq<Call>)
    requires EventPairs(events, ordered, pairs) && |calls| == |events|
    requires forall k | 0 <= k < |events| :: calls[k] == CallOf(events, ordered, pairs, t0, k)
    ensures |RowsOf(calls)| == |pairs| && pairs.Values == Used(pairs, |events|)
  {
    UsedSize(pairs, calls, ordered, |events|);
    assert calls[..|events|] == calls;
    assert pairs.Keys == set a | a in pairs && a < |events|;
    assert |pairs| == |pairs.Keys|;
  }

  /** The rows of the matched calls and of the appended ones are the journal's, each once. */
  lemma Conserves(ordered: seq<Row>, used: set<nat>, calls: seq<Call>, left: seq<Row>, t0: Option<real>)
    requires RowsOf(calls) == Pick(ordered, used, |ordered|)
    requires left == Pick(ordered, Unused(|ordered|, used), |ordered|)
    ensures RowsOf(Appended(left, t0)) == left
    ensures multiset(RowsOf(calls + Appended(left, t0))) == multiset(ordered)
    ensures |RowsOf(calls)| + |left| == |ordered|
  {
    PickConserves(ordered, used, Unused(|ordered|, used), |ordered|);
    assert ordered[..|ordered|] == ordered;
    AllJournaled(left, t0);
    RowsOfConcat(calls, Appended(left, t0));
    assert |multiset(RowsOf(calls)) + multiset(left)| == |multiset(ordered)|;
  }

  /** A row is timed from the first start of the rows it is one of. */
  lemma RowIsTimed(ordered: seq<Row>, r: Row)
    requires r in ordered
    ensures Timed(FromRow(r, FirstStart(ordered)), FirstStart(ordered))
  {
    hide FirstStart;
  }

  lemma KeepsOrder(ordered: seq<Row>, used: set<nat>, t0: Option<real>)
    requires Sorted(ordered, Earlier) && t0 == FirstStart(ordered)
    ensures Sorted(Pick(ordered, used, |ordered|), Earlier)
    ensures var left := Pick(ordered, Unused(|ordered|, used), |ordered|);
      Sorted(left, Earlier) && forall c :: c in Appended(left, t0) ==> Timed(c, t0)
  {
    hide Timed, FromRow, FirstStart, Sorted, Pick, Unused;
    PickSorted(ordered, Earlier, used, |ordered|);
    PickSorted(ordered, Earlier, Unused(|ordered|, used), |ordered|);
    var left := Pick(ordered, Unused(|ordered|, used), |ordered|);
    forall c | c in Appended(left, t0) ensures Timed(c, t0) {
      var j :| 0 <= j < |left| && c == FromRow(left[j], t0);
      assert left[j] in left && left[j] in ordered[..|ordered|];
      RowIsTimed(ordered, left[j]);
    }
  }
}
