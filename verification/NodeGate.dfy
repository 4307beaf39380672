/** `run_suite.NodeGate` over `pool.NodeLaunches`: a cell is admitted when the idle nodes, less the launches of
    the last window, cover its need. Probe, decision and record are one step under a lock shared by every suite. */
module NodeGate {
  import opened Common
  import opened StableSort

  const WINDOW := 300
  const RETRY := 60

  // ---- the launch record ----

  predicate IsRecent(now: int, t: int) { now - t < WINDOW }

  /** The launches still inside the window. */
  function Kept(entries: seq<int>, now: int): seq<int> { Filter(entries, (t: int) => IsRecent(now, t)) }

  function Recent(entries: seq<int>, now: int): nat { |Kept(entries, now)| }

  datatype Outcome = Launch | Wait | Warm | Unguarded

  /** What one probe answers: whether a warm block runs (None: no probe, or it failed), and the idle nodes. */
  datatype Probe = Probe(warm: Option<bool>, idle: Option<nat>)

  function Decide(entries: seq<int>, now: int, need: nat, warmUser: bool, p: Probe): Outcome {
    if warmUser && p.warm == Some(true) then Warm
    else if p.idle.None? then Unguarded
    else if p.idle.value - Recent(entries, now) >= need then Launch
    else Wait
  }

  /** The launches of the last five minutes, by their places in the record. */
  ghost function LaunchedLately(entries: seq<int>, now: int): set<int> {
    set k | 0 <= k < |entries| && now - entries[k] < 300
  }

  lemma LatelyNext(entries: seq<int>, t: int, now: int)
    ensures |LaunchedLately(entries + [t], now)| == |LaunchedLately(entries, now)| + if now - t < 300 then 1 else 0
  {
    var more := entries + [t];
    assert LaunchedLately(more, now) == LaunchedLately(entries, now) + if now - t < 300 then {|entries|} else {};
  }

  lemma {:induction false} RecentCounts(entries: seq<int>, now: int)
    ensures Recent(entries, now) == |LaunchedLately(entries, now)|
  {
    hide LaunchedLately;
    if entries != [] {
      var before, t := entries[..|entries| - 1], entries[|entries| - 1];
      RecentCounts(before, now);
      FilterConcat(before, [t], (t: int) => IsRecent(now, t));
      assert entries == before + [t] && [t][1..] == [];
      LatelyNext(before, t, now);
    } else {
      NoneLately(now);
    }
  }

  lemma NoneLately(now: int)
    ensures LaunchedLately([], now) == {}
  {
  }

  /** A cell goes ahead unguarded when the probe gives no idle nodes, launches when they cover its need and the
      launches of the last five minutes, and otherwise waits; only the owner of a warm block is let in on it. */
  lemma GateDecides(entries: seq<int>, now: int, need: nat, warmUser: bool, p: Probe)
    ensures var d, owner := Decide(entries, now, need, warmUser, p), warmUser && p.warm == Some(true);
      && (d == Warm <==> owner)
      && (d == Unguarded <==> !owner && p.idle.None?)
      && (d == Launch
          <==> !owner && p.idle.Some? && p.idle.value >= need + |LaunchedLately(entries, now)|)
  {
    RecentCounts(entries, now);
  }

  class NodeLaunches {
    var entries: seq<int>

    constructor ()
      ensures entries == []
    {
      entries := [];
    }

    method CountRecent(now: int) returns (n: nat)
      ensures n == Recent(entries, now)
    {
      n := 0;
      for k := 0 to |entries|
        invariant n + |Kept(entries[k..], now)| == Recent(entries, now)
      {
        assert entries[k..][1..] == entries[k + 1..];
        if IsRecent(now, entries[k]) {
          n := n + 1;
        }
      }
    }

    /** One launch more, the expired ones dropped. */
    method Record(now: int)
      modifies this
      ensures entries == Kept(old(entries), now) + [now]
    {
      entries := Kept(entries, now) + [now];
    }

    /** One probe, decision and claim. */
    method Step(now: int, need: nat, warmUser: bool, p: Probe) returns (outcome: Outcome)
      modifies this
      ensures outcome == Decide(old(entries), now, need, warmUser, p)
      ensures entries == if outcome == Launch then Kept(old(entries), now) + [now] else old(entries)
    {
      if warmUser && p.warm == Some(true) {
        return Warm;
      }
      if p.idle.None? {
        return Unguarded;
      }
      var recent := CountRecent(now);
      if p.idle.value - recent >= need {
        Record(now);
        return Launch;
      }
      return Wait;
    }

    /** Steps, a retry apart, until one admits, the run is halted or the wait is over. `found`: the record as
        each step finds it, whatever other suites have written since. A launch records once; anything else
        leaves the record as it was found. */
    method Admit(clock: nat -> int, found: nat -> seq<int>, need: nat, warmUser: bool, probes: nat -> Probe,
                 halted: nat -> bool, maxWait: int)
      returns (admitted: Option<int>, tries: nat)
      requires forall k: nat :: clock(k + 1) >= clock(k) + RETRY
      modifies this
      ensures admitted.Some? && admitted.value >= 0 ==>
        && probes(tries).idle == Some(admitted.value) && admitted.value - Recent(found(tries), clock(tries)) >= need
        && entries == Kept(found(tries), clock(tries)) + [clock(tries)]
      ensures admitted == Some(-1) ==> entries == found(tries)
      ensures admitted.None? ==>
        || (halted(tries) && entries == if tries == 0 then old(entries) else found(tries - 1))
        || (clock(tries) - clock(0) >= maxWait && entries == found(tries))
      ensures admitted.Some? && admitted.value >= 0 ==>
        Decide(found(tries), clock(tries), need, warmUser, probes(tries)) == Launch
      ensures admitted.Some? ==> admitted.value >= -1
      ensures admitted == Some(-1) ==>
        Decide(found(tries), clock(tries), need, warmUser, probes(tries)) in {Warm, Unguarded}
      ensures forall k :: 0 <= k < tries ==> Decide(found(k), clock(k), need, warmUser, probes(k)) == Wait
    {
      tries := 0;
      var start := clock(0);
      while !halted(tries)
        invariant entries == if tries == 0 then old(entries) else found(tries - 1)
        invariant clock(tries) - start >= RETRY * tries
        invariant forall k :: 0 <= k < tries ==> Decide(found(k), clock(k), need, warmUser, probes(k)) == Wait
        decreases maxWait + RETRY - (clock(tries) - start)
      {
        entries := found(tries);
        var outcome := Step(clock(tries), need, warmUser, probes(tries));
        match outcome
        case Warm => return Some(-1), tries;
        case Unguarded => return Some(-1), tries;
        case Launch => return Some(probes(tries).idle.value), tries;
        case Wait =>
          if clock(tries) - start >= maxWait {
            return None, tries;
          }
          assert clock(tries + 1) >= clock(tries) + RETRY;
          tries := tries + 1;
      }
      return None, tries;
    }
  }

  // ---- any number of suites, in every interleaving ----

  /** The clock, the shared record, the nodes that are idle, and when each cell launched by outcome `Launch`
      and not placed yet was launched. Every cell needs `need` nodes. */
  datatype System = System(now: int, entries: seq<int>, idle: int, unplaced: seq<int>)

  datatype Move = Ask | Place(cell: nat) | Free(nodes: nat) | Tick(seconds: nat)

  /** A suite's locked step; a launched cell's block taking its nodes; nodes given back; time. Time passes only so
      far that every launched cell is placed within the window. */
  ghost predicate Enabled(s: System, m: Move) {
    match m
    case Ask => true
    case Place(cell) => cell < |s.unplaced|
    case Free(_) => true
    case Tick(seconds) => forall t | t in s.unplaced :: IsRecent(s.now + seconds, t)
  }

  ghost function Next(need: nat, s: System, m: Move): System
    requires Enabled(s, m)
  {
    match m
    case Ask =>
      if s.idle - Recent(s.entries, s.now) >= need
      then s.(entries := Kept(s.entries, s.now) + [s.now], unplaced := s.unplaced + [s.now])
      else s
    case Place(cell) => s.(idle := s.idle - need, unplaced := s.unplaced[..cell] + s.unplaced[cell + 1..])
    case Free(nodes) => s.(idle := s.idle + nodes)
    case Tick(seconds) => s.(now := s.now + seconds)
  }

  /** The step of the model is the gate's own, on an exact probe. */
  lemma AskIsTheGatesStep(need: nat, s: System)
    requires s.idle >= 0
    ensures var launched := Decide(s.entries, s.now, need, false, Probe(None, Some(s.idle))) == Launch;
      && (launched <==> Next(need, s, Ask) != s)
      && Next(need, s, Ask).entries == (if launched then Kept(s.entries, s.now) + [s.now] else s.entries)
  {
    var n := Next(need, s, Ask);
    assert |n.unplaced| == |s.unplaced| || |n.unplaced| == |s.unplaced| + 1;
  }

  /** Every cell not placed yet still counts in the record, and the idle nodes cover them all. */
  ghost predicate Safe(s: System) {
    && (forall t | t in s.unplaced :: IsRecent(s.now, t))
    && multiset(s.unplaced) <= multiset(s.entries)
    && |s.unplaced| <= s.idle
  }

  lemma {:induction false} KeptHolds(entries: seq<int>, now: int, t: int)
    ensures multiset(Kept(entries, now))[t] == if IsRecent(now, t) then multiset(entries)[t] else 0
  {
    if entries != [] {
      KeptHolds(entries[1..], now, t);
      assert entries == [entries[0]] + entries[1..];
      assert multiset(entries) == multiset{entries[0]} + multiset(entries[1..]);
    }
  }

  /** The record keeps every launch that is not placed yet. */
  lemma UnplacedAreKept(s: System)
    requires Safe(s)
    ensures multiset(s.unplaced) <= multiset(Kept(s.entries, s.now))
    ensures |s.unplaced| <= Recent(s.entries, s.now)
  {
    forall t ensures multiset(s.unplaced)[t] <= multiset(Kept(s.entries, s.now))[t] {
      KeptHolds(s.entries, s.now, t);
      if multiset(s.unplaced)[t] > 0 {
        assert t in s.unplaced;
      }
    }
    var left := multiset(Kept(s.entries, s.now)) - multiset(s.unplaced);
    assert multiset(Kept(s.entries, s.now)) == multiset(s.unplaced) + left;
    assert |multiset(Kept(s.entries, s.now))| == |multiset(s.unplaced)| + |left|;
  }

  lemma OneNodeKeepsSafe(s: System, m: Move)
    requires Safe(s) && Enabled(s, m)
    ensures Safe(Next(1, s, m))
  {
    hide Kept;
    match m
    case Ask => UnplacedAreKept(s);
    case Place(cell) => assert s.unplaced == s.unplaced[..cell] + [s.unplaced[cell]] + s.unplaced[cell + 1..];
    case _ =>
  }

  /** The system after a run of moves from `idle` idle nodes and an empty record; None when one is not enabled. */
  ghost function After(need: nat, idle: nat, moves: seq<Move>): Option<System> {
    if moves == [] then Some(System(0, [], idle, []))
    else
      var before := After(need, idle, moves[..|moves| - 1]);
      if before.None? || !Enabled(before.value, moves[|moves| - 1]) then None
      else Some(Next(need, before.value, moves[|moves| - 1]))
  }

  lemma {:induction false} OneNodeRunsAreSafe(idle: nat, moves: seq<Move>)
    requires After(1, idle, moves).Some?
    ensures Safe(After(1, idle, moves).value)
  {
    hide Safe;
    if moves == [] {
      EmptyIsSafe(idle);
    } else {
      OneNodeRunsAreSafe(idle, moves[..|moves| - 1]);
      OneNodeKeepsSafe(After(1, idle, moves[..|moves| - 1]).value, moves[|moves| - 1]);
    }
  }

  lemma EmptyIsSafe(idle: nat)
    ensures Safe(System(0, [], idle, []))
  {
  }

  /** In every run, the cells launched and not placed yet find their nodes. */
  ghost predicate NeverOversubscribed(need: nat) {
    forall idle: nat, moves: seq<Move> :: After(need, idle, moves).Some? ==>
      need * |After(need, idle, moves).value.unplaced| <= After(need, idle, moves).value.idle
  }

  /** Two cells of `need` nodes asked for at once, with one node more than one of them needs: both launch. */
  lemma BothLaunch(need: nat)
    ensures After(need, need + 1, [Ask, Ask]) == Some(System(0, [0, 0], need + 1, [0, 0]))
  {
    var s := System(0, [], need + 1, []);
    var s1 := System(0, [0], need + 1, [0]);
    assert Kept([], 0) == [] && [] + [0] == [0];
    assert Next(need, s, Ask) == s1;
    assert Kept([0], 0) == [0] by {
      assert [0][1..] == [];
    }
    assert Next(need, s1, Ask) == System(0, [0, 0], need + 1, [0, 0]);
    assert [Ask, Ask][..1] == [Ask] && [Ask][..0] == [];
    assert After(need, need + 1, [Ask]) == Some(s1);
  }

  lemma NoNodeRuns(idle: nat, moves: seq<Move>)
    requires After(0, idle, moves).Some?
    ensures After(0, idle, moves).value.idle >= 0
    decreases |moves|
  {
    if moves != [] {
      NoNodeRuns(idle, moves[..|moves| - 1]);
    }
  }

  /** A launch counts as one node, whatever the cell needs: the gate keeps cells of one size from
      oversubscribing the nodes exactly when that size is at most one. */
  lemma SafeForOneNodeOnly(need: nat)
    ensures NeverOversubscribed(need) <==> need <= 1
  {
    if need == 0 {
      forall idle: nat, moves: seq<Move> | After(0, idle, moves).Some?
        ensures 0 * |After(0, idle, moves).value.unplaced| <= After(0, idle, moves).value.idle
      {
        NoNodeRuns(idle, moves);
      }
    } else if need == 1 {
      forall idle: nat, moves: seq<Move> | After(1, idle, moves).Some?
        ensures 1 * |After(1, idle, moves).value.unplaced| <= After(1, idle, moves).value.idle
      {
        OneNodeRunsAreSafe(idle, moves);
      }
    } else {
      BothLaunch(need);
      var s := After(need, need + 1, [Ask, Ask]).value;
      assert need * |s.unplaced| == 2 * need > s.idle;
    }
  }
}
