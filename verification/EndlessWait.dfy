/** `invariants.no_endless_wait_on`: one pass with five counters, proved equal to a declarative reading.
    The trace from the first marked answer splits into runs of unchanged terms; in each run the check
    counts the marked answers after the first, and the confirms that each use up a refusal or a stop. */
module EndlessWait {
  import opened Common
  import opened ToolCalls

  // ---- the declarative reading ----

  predicate Changes(c: Call) { c.name == "connect_facility" && c.details }

  function Or(a: string, b: string): string { if a != "" then a else b }

  /** The terms a compute request asks for, given those in force. */
  function Asked(c: Call, terms: Terms): Terms { Terms(Or(c.partition, terms.partition), Or(c.account, terms.account)) }

  /** The terms in force after call `k`. */
  function TermsAfter(t: Trace, first: nat, k: nat): Terms
    requires first <= k < |t|
  {
    if k == first then AskedTerms(t, first)
    else if Changes(t[k]) then Terms("", "")
    else if IsEnsure(t[k]) then Asked(t[k], TermsAfter(t, first, k - 1))
    else TermsAfter(t, first, k - 1)
  }

  /** Call `k` changes the terms: the next attempt is a fresh one. */
  predicate Fresh(t: Trace, first: nat, k: nat)
    requires first < k < |t|
  {
    Changes(t[k]) || (IsEnsure(t[k]) && Asked(t[k], TermsAfter(t, first, k - 1)) != TermsAfter(t, first, k - 1))
  }

  /** That is: a connect with new details, or a compute request that names a partition or an account other than
      the one in force. */
  lemma FreshMeans(t: Trace, first: nat, k: nat)
    requires first < k < |t|
    ensures var c, was := t[k], TermsAfter(t, first, k - 1);
      Fresh(t, first, k)
      <==> (c.name == "connect_facility" && c.details)
           || (c.name == "ensure_endpoint_up" && c.shape in {"", "compute"}
               && ((c.partition != "" && c.partition != was.partition)
                 || (c.account != "" && c.account != was.account)))
  {
  }

  function TermOf(terms: Terms, f: Term): string { if f.Partition? then terms.partition else terms.account }

  /** A call settles the term: it forgets it, or names it. */
  ghost predicate Settles(c: Call, f: Term) { Changes(c) || (IsEnsure(c) && Given(c, f) != "") }

  /** What a term is after a call that settles it. */
  ghost function SettledTo(c: Call, f: Term): string { if Changes(c) then "" else Given(c, f) }

  ghost predicate SettlesLast(t: Trace, first: nat, k: nat, f: Term, j: nat)
    requires first <= k < |t|
  {
    first < j <= k && Settles(t[j], f) && forall i :: j < i <= k ==> !Settles(t[i], f)
  }

  /** A term is the one a compute request named last since the last connect with new details, empty when none did
      since; and without either after the first marked answer, what that answer's block was asked on. */
  lemma {:induction false} TermsAreLastNamed(t: Trace, first: nat, k: nat, f: Term)
    requires first <= k < |t|
    ensures var term := TermOf(TermsAfter(t, first, k), f);
      || (exists j: nat :: SettlesLast(t, first, k, f, j) && term == SettledTo(t[j], f))
      || (term == TermOf(AskedTerms(t, first), f) && forall j :: first < j <= k ==> !Settles(t[j], f))
  {
    hide AskedTerms;
    if k > first {
      var before, was := k - 1, TermOf(TermsAfter(t, first, k - 1), f);
      TermsAreLastNamed(t, first, before, f);
      if Settles(t[k], f) {
        assert SettlesLast(t, first, k, f, k);
      } else if j: nat :| SettlesLast(t, first, before, f, j) && was == SettledTo(t[j], f) {
        assert SettlesLast(t, first, k, f, j);
      }
    }
  }

  /** Where the run of unchanged terms that holds call `k` starts. */
  function RunStart(t: Trace, first: nat, k: nat): (r: nat)
    requires first <= k < |t|
    ensures first <= r <= k
  {
    if k == first || Fresh(t, first, k) then k else RunStart(t, first, k - 1)
  }

  predicate IsHit(marked: Call -> bool, c: Call) { AboutBlock(c) && marked(c) }

  /** The marked answers among calls `a` to `b - 1`. */
  function Hits(marked: Call -> bool, t: Trace, a: nat, b: nat): nat
    requires a <= b <= |t|
  {
    if b == a then 0 else Hits(marked, t, a, b - 1) + if IsHit(marked, t[b - 1]) then 1 else 0
  }

  predicate IsConfirm(c: Call) { IsEnsure(c) && c.confirmsSpend && !RejectedByUser(c) }

  /** A call that voids the last request: a refusal, or (after the first answer) a stop. */
  predicate Voids(t: Trace, first: nat, v: nat)
    requires first <= v < |t|
  {
    RejectedAnswer(t[v]) || (v > first && IsStop(t[v]))
  }

  /** Refusal or stop `v`, of the run of call `n`, is left to use up after it. */
  ghost predicate Left(t: Trace, first: nat, n: nat, v: nat)
    requires first <= n < |t|
  {
    RunStart(t, first, n) <= v <= n && Voids(t, first, v) && forall u :: v < u <= n ==> !IsConfirm(t[u])
  }

  /** A refusal or stop in the run of the calls up to `n`, that no confirm has used up. */
  ghost predicate Unused(t: Trace, first: nat, n: nat)
    requires first <= n < |t|
  {
    exists v: nat :: Left(t, first, n, v)
  }

  /** Call `k` sends the same block again: a confirm that uses up a refusal or stop of its own run. */
  ghost predicate Resubmits(t: Trace, first: nat, k: nat)
    requires first < k < |t|
  {
    IsConfirm(t[k]) && !Fresh(t, first, k) && Unused(t, first, k - 1)
  }

  ghost function Resubmissions(t: Trace, first: nat, a: nat, b: nat): nat
    requires first <= a <= b <= |t|
  {
    if b == a then 0
    else Resubmissions(t, first, a, b - 1) + if b - 1 > first && Resubmits(t, first, b - 1) then 1 else 0
  }

  /** The marked answers, and the resubmissions, of the run of call `k`, so far. */
  ghost function RunHits(marked: Call -> bool, t: Trace, first: nat, k: nat): nat
    requires first <= k < |t|
  {
    Hits(marked, t, RunStart(t, first, k), k + 1)
  }

  ghost function RunResubmissions(t: Trace, first: nat, k: nat): nat
    requires first <= k < |t|
  {
    Resubmissions(t, first, RunStart(t, first, k), k + 1)
  }

  // ---- the one pass ----

  /** The counters of the one pass. `seen`: the marked answers since the first on these terms, None when there is
    none yet. */
  datatype Counters = Counters(terms: Terms, seen: Option<nat>, resubmits: nat, worstSeen: nat, worstResubmits: nat,
    voided: bool)

  function Begin(t: Trace, first: nat): Counters
    requires first < |t|
  {
    Counters(AskedTerms(t, first), Some(0), 0, 0, 0, RejectedAnswer(t[first]))
  }

  /** What an ensure does to the counters, before its answer is read. */
  function OnEnsure(c: Call, w: Counters): Counters {
    var asked := Asked(c, w.terms);
    var anew := if asked != w.terms then w.(seen := None, resubmits := 0, voided := false, terms := asked) else w;
    if IsConfirm(c) && anew.voided then
      anew.(resubmits := anew.resubmits + 1, worstResubmits := Max(w.worstResubmits, anew.resubmits + 1),
        voided := false)
    else anew
  }

  function OnAnswer(marked: Call -> bool, c: Call, w: Counters): Counters {
    var seen := if w.seen.None? then 0 else w.seen.value + 1;
    var hit := if IsHit(marked, c) then w.(seen := Some(seen), worstSeen := Max(w.worstSeen, seen)) else w;
    if RejectedAnswer(c) then hit.(voided := true) else hit
  }

  function Next(marked: Call -> bool, c: Call, w: Counters): Counters {
    if Changes(c) then w.(seen := None, resubmits := 0, voided := false, terms := Terms("", ""))
    else if IsStop(c) then w.(voided := true)
    else OnAnswer(marked, c, if IsEnsure(c) then OnEnsure(c, w) else w)
  }

  /** The counters after call `k`. */
  function CountersAfter(marked: Call -> bool, t: Trace, first: nat, k: nat): Counters
    requires first <= k < |t|
  {
    if k == first then Begin(t, first) else Next(marked, t[k], CountersAfter(marked, t, first, k - 1))
  }

  /** What the counters mean after call `k`: the run's counts, and the greatest over the runs so far. */
  ghost predicate Mean(marked: Call -> bool, t: Trace, first: nat, k: nat, w: Counters)
    requires first <= k < |t|
  {
    && w.terms == TermsAfter(t, first, k)
    && (RunHits(marked, t, first, k) == if w.seen.None? then 0 else w.seen.value + 1)
    && w.resubmits == RunResubmissions(t, first, k)
    && (w.voided <==> Unused(t, first, k))
  }

  lemma {:induction false} CountersMean(marked: Call -> bool, t: Trace, first: nat, k: nat)
    requires first <= k < |t| && IsHit(marked, t[first])
    ensures Mean(marked, t, first, k, CountersAfter(marked, t, first, k))
  {
    if k == first {
      BeginMeans(marked, t, first);
    } else {
      hide Mean, Next;
      CountersMean(marked, t, first, k - 1);
      NextMeans(marked, t, first, k, CountersAfter(marked, t, first, k - 1));
    }
  }

  lemma BeginMeans(marked: Call -> bool, t: Trace, first: nat)
    requires first < |t| && IsHit(marked, t[first])
    ensures Mean(marked, t, first, first, Begin(t, first))
  {
    assert Hits(marked, t, first, first) == 0 && Resubmissions(t, first, first, first) == 0;
    assert Left(t, first, first, first) <==> Voids(t, first, first);
    assert Unused(t, first, first) <==> Voids(t, first, first);
  }

  lemma NextMeans(marked: Call -> bool, t: Trace, first: nat, k: nat, w: Counters)
    requires first < k < |t| && Mean(marked, t, first, k - 1, w)
    ensures Mean(marked, t, first, k, Next(marked, t[k], w))
  {
    hide Unused, RunHits, RunResubmissions, RejectedByUser, Contains;
    UnusedNext(t, first, k);
    RunNext(marked, t, first, k);
  }

  /** The run's counts with one more call: a fresh run starts them again. */
  lemma RunNext(marked: Call -> bool, t: Trace, first: nat, k: nat)
    requires first < k < |t|
    ensures var hit, again := if IsHit(marked, t[k]) then 1 else 0, if Resubmits(t, first, k) then 1 else 0;
      if Fresh(t, first, k) then RunHits(marked, t, first, k) == hit && RunResubmissions(t, first, k) == 0
      else RunHits(marked, t, first, k) == RunHits(marked, t, first, k - 1) + hit
           && RunResubmissions(t, first, k) == RunResubmissions(t, first, k - 1) + again
  {
    hide Unused;
    if Fresh(t, first, k) {
      assert Hits(marked, t, k, k) == 0 && Resubmissions(t, first, k, k) == 0;
    }
  }

  lemma LeftNext(t: Trace, first: nat, k: nat, v: nat)
    requires first < k < |t|
    ensures Left(t, first, k, v)
      <==> (v == k && Voids(t, first, k)) || (!Fresh(t, first, k) && !IsConfirm(t[k]) && Left(t, first, k - 1, v))
  {
    hide Fresh, Voids, IsConfirm;
  }

  /** How one more call changes whether a refusal or stop is left to use up. */
  lemma UnusedNext(t: Trace, first: nat, k: nat)
    requires first < k < |t|
    ensures Unused(t, first, k)
      <==> Voids(t, first, k) || (!Fresh(t, first, k) && !IsConfirm(t[k]) && Unused(t, first, k - 1))
  {
    hide Left, Voids, Fresh, IsConfirm;
    var before := k - 1;
    if v: nat :| Left(t, first, k, v) {
      LeftNext(t, first, k, v);
    }
    if v: nat :| Left(t, first, before, v) {
      LeftNext(t, first, k, v);
    }
    LeftNext(t, first, k, k);
  }

  /** The worst counts are the greatest over the runs up to call `k`: no run exceeds them, some run attains them. */
  ghost predicate Greatest(marked: Call -> bool, t: Trace, first: nat, k: nat, seen: nat, resubmits: nat)
    requires first <= k < |t|
  {
    && (forall j :: first <= j <= k ==>
      RunHits(marked, t, first, j) <= seen + 1 && RunResubmissions(t, first, j) <= resubmits)
    && (exists j :: first <= j <= k && RunHits(marked, t, first, j) == seen + 1)
    && (resubmits == 0 || exists j :: first <= j <= k && RunResubmissions(t, first, j) == resubmits)
  }

  lemma BeginGreatest(marked: Call -> bool, t: Trace, first: nat)
    requires first < |t| && IsHit(marked, t[first])
    ensures Greatest(marked, t, first, first, 0, 0)
  {
    BeginMeans(marked, t, first);
  }

  /** One more call: the greatest counts, from its run's. */
  lemma GreatestNext(marked: Call -> bool, t: Trace, first: nat, k: nat, seen: nat, resubmits: nat, seenNow: nat,
                     resubmitsNow: nat)
    requires first < k < |t| && Greatest(marked, t, first, k - 1, seen, resubmits)
    requires seen <= seenNow && resubmits <= resubmitsNow
    requires RunHits(marked, t, first, k) <= seenNow + 1 && RunResubmissions(t, first, k) <= resubmitsNow
    requires seenNow == seen || RunHits(marked, t, first, k) == seenNow + 1
    requires resubmitsNow == resubmits || RunResubmissions(t, first, k) == resubmitsNow
    ensures Greatest(marked, t, first, k, seenNow, resubmitsNow)
  {
    hide RunHits, RunResubmissions;
  }

  /** The run of the last call is within the greatest counts. */
  lemma RunIsWithin(marked: Call -> bool, t: Trace, first: nat, k: nat, seen: nat, resubmits: nat)
    requires first <= k < |t| && Greatest(marked, t, first, k, seen, resubmits)
    ensures RunHits(marked, t, first, k) <= seen + 1 && RunResubmissions(t, first, k) <= resubmits
  {
    hide RunHits, RunResubmissions;
  }

  lemma {:induction false} WorstIsGreatest(marked: Call -> bool, t: Trace, first: nat, k: nat)
    requires first <= k < |t| && IsHit(marked, t[first])
    ensures var w := CountersAfter(marked, t, first, k); Greatest(marked, t, first, k, w.worstSeen, w.worstResubmits)
  {
    hide RunHits, RunResubmissions, Unused, Resubmits, Greatest, IsHit, Next, Fresh, Changes, IsStop, Begin;
    if k == first {
      BeginGreatest(marked, t, first);
      BeginIs(t, first);
    } else {
      var w, n := CountersAfter(marked, t, first, k - 1), CountersAfter(marked, t, first, k);
      WorstIsGreatest(marked, t, first, k - 1);
      RunIsWithin(marked, t, first, k - 1, w.worstSeen, w.worstResubmits);
      CountersMean(marked, t, first, k - 1);
      CountersMean(marked, t, first, k);
      RunNext(marked, t, first, k);
      WorstNext(marked, t[k], w);
      HitsAreSeen(t[k], marked);
      GreatestNext(marked, t, first, k, w.worstSeen, w.worstResubmits, n.worstSeen, n.worstResubmits);
    }
  }

  lemma BeginIs(t: Trace, first: nat)
    requires first < |t|
    ensures Begin(t, first).worstSeen == 0 && Begin(t, first).worstResubmits == 0
  {
  }

  /** A call about the block neither stops it nor changes the terms. */
  lemma HitsAreSeen(c: Call, marked: Call -> bool)
    ensures IsHit(marked, c) ==> !Changes(c) && !IsStop(c)
  {
  }

  /** The worst counts after a call, from the counts of its run. */
  lemma WorstNext(marked: Call -> bool, c: Call, w: Counters)
    ensures var n := Next(marked, c, w);
      && n.worstSeen == (if IsHit(marked, c) && n.seen.Some? then Max(w.worstSeen, n.seen.value) else w.worstSeen)
      && (n.worstResubmits == Max(w.worstResubmits, n.resubmits)
        || (n.worstResubmits == w.worstResubmits && n.resubmits <= w.resubmits))
      && (IsHit(marked, c) && !Changes(c) && !IsStop(c) ==> n.seen.Some?)
  {
  }

  /** The first marked answer about the block, or the length of the trace. */
  function FirstHit(marked: Call -> bool, t: Trace, i: nat): (f: nat)
    requires i <= |t|
    ensures i <= f <= |t| && (f < |t| ==> IsHit(marked, t[f])) && forall j :: i <= j < f ==> !IsHit(marked, t[j])
    decreases |t| - i
  {
    if i == |t| || IsHit(marked, t[i]) then i else FirstHit(marked, t, i + 1)
  }

  /** The one pass over the calls after the first marked answer. */
  method Count(marked: Call -> bool, t: Trace, first: nat) returns (worstSeen: nat, worstResubmits: nat)
    requires first < |t|
    ensures var w := CountersAfter(marked, t, first, |t| - 1);
      worstSeen == w.worstSeen && worstResubmits == w.worstResubmits
  {
    hide RejectedAnswer, IsConfirm, IsHit, IsEnsure, IsStop, Changes, Asked, AskedTerms;
    var terms := ComputeAskedTerms(t, first);
    var seen: Option<nat> := Some(0);
    var resubmits: nat := 0;
    worstSeen, worstResubmits := 0, 0;
    var voided := RejectedAnswer(t[first]);
    for k := first + 1 to |t|
      invariant CountersAfter(marked, t, first, k - 1)
        == Counters(terms, seen, resubmits, worstSeen, worstResubmits, voided)
    {
      var c := t[k];
      if Changes(c) {
        seen, resubmits := None, 0;
        voided, terms := false, Terms("", "");
        continue;
      }
      if IsStop(c) {
        voided := true;
        continue;
      }
      if IsEnsure(c) {
        var asked := Asked(c, terms);
        if asked != terms {
          seen, resubmits := None, 0;
          voided, terms := false, asked;
        }
        if IsConfirm(c) && voided {
          resubmits := resubmits + 1;
          worstResubmits := Max(worstResubmits, resubmits);
          voided := false;
        }
      }
      if IsHit(marked, c) {
        seen := if seen.None? then Some(0) else Some(seen.value + 1);
        worstSeen := Max(worstSeen, seen.value);
      }
      if RejectedAnswer(c) {
        voided := true;
      }
    }
  }

  /** Every run is within the caps. */
  ghost predicate WithinCaps(marked: Call -> bool, t: Trace, first: nat, cap: nat, resubmitCap: nat) {
    forall k :: first <= k < |t| ==>
      RunHits(marked, t, first, k) <= cap + 1 && RunResubmissions(t, first, k) <= resubmitCap
  }

  lemma GreatestDecides(marked: Call -> bool, t: Trace, first: nat, seen: nat, resubmits: nat, cap: nat,
                        resubmitCap: nat)
    requires first < |t| && Greatest(marked, t, first, |t| - 1, seen, resubmits)
    ensures WithinCaps(marked, t, first, cap, resubmitCap) <==> seen <= cap && resubmits <= resubmitCap
  {
    hide RunHits, RunResubmissions;
    var j :| first <= j <= |t| - 1 && RunHits(marked, t, first, j) == seen + 1;
    if resubmits > 0 {
      var i :| first <= i <= |t| - 1 && RunResubmissions(t, first, i) == resubmits;
      assert resubmits > resubmitCap ==> !WithinCaps(marked, t, first, cap, resubmitCap);
    }
    assert seen > cap ==> !WithinCaps(marked, t, first, cap, resubmitCap);
    if seen <= cap && resubmits <= resubmitCap {
      forall k | first <= k < |t|
        ensures RunHits(marked, t, first, k) <= cap + 1 && RunResubmissions(t, first, k) <= resubmitCap
      {
        assert RunHits(marked, t, first, k) <= seen + 1 && RunResubmissions(t, first, k) <= resubmits;
      }
    }
  }

  /** The check passes exactly when no run of unchanged terms has more than `cap` marked answers after
      its first, or more than `resubmitCap` resubmissions. */
  method Grade(marked: Call -> bool, t: Trace, cap: nat, resubmitCap: nat) returns (ok: bool)
    ensures ok <==> WithinCaps(marked, t, FirstHit(marked, t, 0), cap, resubmitCap)
  {
    var first := FirstHit(marked, t, 0);
    if first == |t| {
      return true;
    }
    var worstSeen, worstResubmits := Count(marked, t, first);
    ok := worstSeen <= cap && worstResubmits <= resubmitCap;
    WorstIsGreatest(marked, t, first, |t| - 1);
    GreatestDecides(marked, t, first, worstSeen, worstResubmits, cap, resubmitCap);
  }
}
