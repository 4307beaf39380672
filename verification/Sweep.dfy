/** `batch_checks.window`: the most work out at once. Batch tasks are a set, replayed over the journal's
    events; `run_shell` commands are half-open intervals, counted by a sweep over their sorted ends. */
module Sweep {
  import opened Common
  import opened StableSort

  // ---- batch tasks: admitted and not settled ----

  datatype Event<K> = Admit(key: K) | Settle(key: K) | Other

  function NextOut<K(==)>(e: Event<K>, out: set<K>): set<K> {
    match e
    case Admit(key) => out + {key}
    case Settle(key) => out - {key}
    case Other => out
  }

  /** The tasks out after the first `n` events. */
  function OutAfter<K(==)>(events: seq<Event<K>>, n: nat): set<K>
    requires n <= |events|
  {
    if n == 0 then {} else NextOut(events[n - 1], OutAfter(events, n - 1))
  }

  /** Task `key` was admitted by event `k` and not settled since. */
  ghost predicate IsOut<K>(events: seq<Event<K>>, n: nat, key: K, k: nat)
    requires n <= |events|
  {
    k < n && events[k] == Admit(key) && forall j :: k < j < n ==> events[j] != Settle(key)
  }

  /** A task is out when it was admitted and not settled since. */
  lemma {:induction false} OutMeans<K>(events: seq<Event<K>>, n: nat, key: K)
    requires n <= |events|
    ensures key in OutAfter(events, n) <==> exists k: nat :: IsOut(events, n, key, k)
  {
    if n > 0 {
      var before := n - 1;
      OutMeans(events, before, key);
      if events[before] == Admit(key) {
        assert IsOut(events, n, key, before);
      } else if k: nat :| IsOut(events, before, key, k) {
        assert events[before] != Settle(key) ==> IsOut(events, n, key, k);
      }
      if k: nat :| IsOut(events, n, key, k) {
        assert k < before ==> IsOut(events, before, key, k);
      }
    }
  }

  /** Some prefix of the events leaves `peak` tasks out. */
  ghost predicate TasksReach<K>(events: seq<Event<K>>, peak: nat) {
    exists n :: 0 <= n <= |events| && |OutAfter(events, n)| == peak
  }

  /** No prefix leaves more than `peak` tasks out. */
  ghost predicate TasksWithin<K>(events: seq<Event<K>>, peak: nat) {
    forall n :: 0 <= n <= |events| ==> |OutAfter(events, n)| <= peak
  }

  /** The set grows only when a task is admitted. */
  lemma NextShrinks<K>(e: Event<K>, out: set<K>)
    ensures !e.Admit? ==> |NextOut(e, out)| <= |out|
  {
    if e.Settle? {
      assert out == (out - {e.key}) + (out * {e.key});
    }
  }

  method HighWater<K(==)>(events: seq<Event<K>>) returns (peak: nat)
    ensures TasksWithin(events, peak) && TasksReach(events, peak)
  {
    hide NextOut;
    peak := 0;
    var out: set<K> := {};
    ghost var at := 0;
    for n := 0 to |events|
      invariant out == OutAfter(events, n)
      invariant forall m :: 0 <= m <= n ==> |OutAfter(events, m)| <= peak
      invariant 0 <= at <= n && |OutAfter(events, at)| == peak
    {
      NextShrinks(events[n], out);
      out := NextOut(events[n], out);
      if events[n].Admit? && |out| > peak {
        peak, at := |out|, n + 1;
      }
    }
  }

  // ---- intervals ----

  datatype Interval = Interval(start: real, end: real)

  /** The intervals [start, end) that hold the instant `x`. */
  function Cover(spans: seq<Interval>, x: real): nat {
    if spans == [] then 0 else Cover(spans[1..], x) + if spans[0].start <= x < spans[0].end then 1 else 0
  }

  /** The intervals recorded with their end first, and `x` between. */
  function Inverted(spans: seq<Interval>, x: real): nat {
    if spans == [] then 0 else Inverted(spans[1..], x) + if spans[0].end <= x < spans[0].start then 1 else 0
  }

  predicate Ordered(spans: seq<Interval>) { forall i | 0 <= i < |spans| :: spans[i].start <= spans[i].end }

  // ---- the sweep ----

  datatype Mark = Mark(at: real, step: int)

  function MarksOf(spans: seq<Interval>): (ms: seq<Mark>)
    ensures forall m :: m in ms ==> m.step == 1 || m.step == -1
  {
    if spans == [] then [] else [Mark(spans[0].start, 1), Mark(spans[0].end, -1)] + MarksOf(spans[1..])
  }

  /** Ends before starts at the same instant. */
  predicate MarkBefore(a: Mark, b: Mark) { a.at < b.at || (a.at == b.at && a.step <= b.step) }

  /** What the marks up to the instant `x` add up to. */
  function SumUpTo(ms: seq<Mark>, x: real): int {
    if ms == [] then 0 else SumUpTo(ms[1..], x) + if ms[0].at <= x then ms[0].step else 0
  }

  lemma {:induction false} SumOfMarks(spans: seq<Interval>, x: real)
    ensures SumUpTo(MarksOf(spans), x) == Cover(spans, x) - Inverted(spans, x)
  {
    if spans != [] {
      SumOfMarks(spans[1..], x);
      var rest := MarksOf(spans[1..]);
      var two := [Mark(spans[0].start, 1), Mark(spans[0].end, -1)] + rest;
      assert two[1..][1..] == rest && two[1..][0] == Mark(spans[0].end, -1);
      assert SumUpTo(two[1..], x) == SumUpTo(rest, x) + if spans[0].end <= x then -1 else 0;
      assert SumUpTo(two, x) == SumUpTo(two[1..], x) + if spans[0].start <= x then 1 else 0;
    }
  }

  lemma {:induction false} SumInsert(m: Mark, ms: seq<Mark>, x: real)
    ensures SumUpTo(Insert(m, ms, MarkBefore), x) == SumUpTo(ms, x) + if m.at <= x then m.step else 0
  {
    if ms == [] || MarkBefore(m, ms[0]) {
      assert ([m] + ms)[1..] == ms;
    } else {
      SumInsert(m, ms[1..], x);
      assert ([ms[0]] + Insert(m, ms[1..], MarkBefore))[1..] == Insert(m, ms[1..], MarkBefore);
    }
  }

  lemma {:induction false} SumSorted(ms: seq<Mark>, x: real)
    ensures SumUpTo(Sort(ms, MarkBefore), x) == SumUpTo(ms, x)
  {
    if ms != [] {
      SumSorted(ms[1..], x);
      SumInsert(ms[0], Sort(ms[1..], MarkBefore), x);
    }
  }

  /** What the first `k` marks add up to: the running count of the sweep. */
  function Live(ms: seq<Mark>, k: nat): int
    requires k <= |ms|
  {
    if k == 0 then 0 else Live(ms, k - 1) + ms[k - 1].step
  }

  lemma {:induction false} LiveShift(ms: seq<Mark>, k: nat)
    requires 0 < k <= |ms|
    ensures Live(ms, k) == ms[0].step + Live(ms[1..], k - 1)
  {
    if k > 1 {
      LiveShift(ms, k - 1);
    }
  }

  /** How many of the sorted marks come up to `x`. */
  function Reach(ms: seq<Mark>, x: real): (k: nat)
    ensures k <= |ms|
  {
    if ms == [] || ms[0].at > x then 0 else 1 + Reach(ms[1..], x)
  }

  lemma {:induction false} SumNone(ms: seq<Mark>, x: real)
    requires forall m | m in ms :: m.at > x
    ensures SumUpTo(ms, x) == 0
  {
    if ms != [] {
      assert ms[0] in ms;
      SumNone(ms[1..], x);
    }
  }

  /** In sorted marks, those up to an instant come first. */
  lemma {:induction false} ReachIsSum(ms: seq<Mark>, x: real)
    requires Sorted(ms, MarkBefore)
    ensures Live(ms, Reach(ms, x)) == SumUpTo(ms, x)
    ensures forall i :: 0 <= i < |ms| ==> (i < Reach(ms, x) <==> ms[i].at <= x)
  {
    if ms == [] {
    } else if ms[0].at > x {
      forall m | m in ms ensures m.at > x {
        var i :| 0 <= i < |ms| && ms[i] == m;
        assert i == 0 || MarkBefore(ms[0], ms[i]);
      }
      SumNone(ms, x);
    } else {
      assert Sorted(ms[1..], MarkBefore);
      ReachIsSum(ms[1..], x);
      LiveShift(ms, Reach(ms, x));
    }
  }

  /** Marks that all open an interval only add to the count. */
  lemma {:induction false} LiveClimbs(ms: seq<Mark>, k: nat, l: nat)
    requires k <= l <= |ms| && forall i | k <= i < l :: ms[i].step >= 0
    ensures Live(ms, k) <= Live(ms, l)
    decreases l - k
  {
    if k < l {
      LiveClimbs(ms, k, l - 1);
    }
  }

  /** Whatever the running count reaches, it reaches at some instant once all its marks are counted. */
  lemma {:induction false} LiveIsReached(ms: seq<Mark>, k: nat)
    requires k <= |ms| && Sorted(ms, MarkBefore) && forall m | m in ms :: m.step == 1 || m.step == -1
    ensures Live(ms, k) <= 0 || exists x :: Live(ms, k) <= SumUpTo(ms, x)
  {
    if k > 0 {
      var m := ms[k - 1];
      assert m in ms;
      if m.step < 0 {
        LiveIsReached(ms, k - 1);
        if x :| Live(ms, k - 1) <= SumUpTo(ms, x) {
          assert Live(ms, k) <= SumUpTo(ms, x);
        }
      } else {
        ReachIsSum(ms, m.at);
        forall i | k <= i < Reach(ms, m.at) ensures ms[i].step >= 0 {
          assert MarkBefore(ms[k - 1], ms[i]);
        }
        LiveClimbs(ms, k, Reach(ms, m.at));
      }
    }
  }

  /** The greatest running count of the sorted marks. */
  ghost predicate IsPeakOf(ms: seq<Mark>, low: nat, peak: nat) {
    && low <= peak && (forall k :: 0 <= k <= |ms| ==> Live(ms, k) <= peak)
    && (peak == low || exists k :: 0 <= k <= |ms| && Live(ms, k) == peak)
  }

  method SweepMarks(ms: seq<Mark>, low: nat) returns (peak: nat)
    ensures IsPeakOf(ms, low, peak)
  {
    peak := low;
    var live := 0;
    for k := 0 to |ms|
      invariant live == Live(ms, k)
      invariant low <= peak && forall j :: 0 <= j <= k ==> Live(ms, j) <= peak
      invariant peak == low || exists j :: 0 <= j <= k && Live(ms, j) == peak
    {
      live := live + ms[k].step;
      assert live == Live(ms, k + 1);
      if live > peak {
        peak := live;
      }
    }
  }

  /** How many intervals hold an instant, less those recorded the wrong way round. */
  function Net(spans: seq<Interval>, x: real): int { Cover(spans, x) - Inverted(spans, x) }

  /** Some instant has a net cover of `peak`. */
  ghost predicate SpansReach(spans: seq<Interval>, peak: nat) { exists x :: Net(spans, x) == peak }

  /** No instant has a net cover of more than `peak`. */
  ghost predicate SpansWithin(spans: seq<Interval>, peak: nat) { forall x :: Net(spans, x) <= peak }

  /** The sweep's peak is the greatest net cover of any instant. */
  lemma PeakIsNet(spans: seq<Interval>, low: nat, peak: nat)
    requires IsPeakOf(Sort(MarksOf(spans), MarkBefore), low, peak)
    ensures SpansWithin(spans, peak) && (peak == low || SpansReach(spans, peak))
  {
    var ms := Sort(MarksOf(spans), MarkBefore);
    assert TotalPreorder(MarkBefore);
    SortSorts(MarksOf(spans), MarkBefore);
    SortKeepsElements(MarksOf(spans), MarkBefore);
    forall x ensures Net(spans, x) <= peak && SumUpTo(ms, x) == Net(spans, x) {
      SumSorted(MarksOf(spans), x);
      SumOfMarks(spans, x);
      ReachIsSum(ms, x);
    }
    if peak != low {
      var k :| 0 <= k <= |ms| && Live(ms, k) == peak;
      LiveIsReached(ms, k);
      var x :| Live(ms, k) <= SumUpTo(ms, x);
      assert Net(spans, x) == peak;
    }
  }

  // ---- the window ----

  /** The most tasks out at once. */
  ghost predicate TasksPeak<K>(events: seq<Event<K>>, tasks: nat) {
    TasksWithin(events, tasks) && TasksReach(events, tasks)
  }

  /** The peak: the larger of the most tasks out at once and the greatest net cover of any one instant. */
  method WindowPeak<K(==)>(events: seq<Event<K>>, spans: seq<Interval>) returns (peak: nat)
    ensures TasksWithin(events, peak) && SpansWithin(spans, peak)
    ensures TasksReach(events, peak) || SpansReach(spans, peak)
    ensures forall tasks, most :: TasksPeak(events, tasks) && IsMost(spans, most) ==>
      (peak == Max(tasks, most) <==> most <= tasks || ClearAtMost(spans, most))
  {
    var tasks := HighWater(events);
    peak := SweepMarks(Sort(MarksOf(spans), MarkBefore), tasks);
    PeakIsNet(spans, tasks, peak);
    forall other, most | TasksPeak(events, other) && IsMost(spans, most)
      ensures peak == Max(other, most) <==> most <= other || ClearAtMost(spans, most)
    {
      assert other == tasks;
      PeakIsMost(spans, tasks, most, peak);
    }
  }

  lemma {:induction false} OrderedHasNoInverted(spans: seq<Interval>, x: real)
    requires Ordered(spans)
    ensures Inverted(spans, x) == 0
  {
    if spans != [] {
      OrderedHasNoInverted(spans[1..], x);
    }
  }

  lemma {:induction false} InvertedCounts(spans: seq<Interval>, i: nat, x: real)
    requires i < |spans| && spans[i].end <= x < spans[i].start
    ensures Inverted(spans, x) > 0
  {
    if i > 0 {
      InvertedCounts(spans[1..], i - 1, x);
    }
  }

  /** The net cover is the number of intervals over the instant, everywhere, exactly when no interval ends
      before it starts. */
  lemma NetIsCoverWhenOrdered(spans: seq<Interval>)
    ensures (forall x :: Net(spans, x) == Cover(spans, x)) <==> Ordered(spans)
  {
    if Ordered(spans) {
      forall x ensures Net(spans, x) == Cover(spans, x) {
        OrderedHasNoInverted(spans, x);
      }
    } else {
      var i :| 0 <= i < |spans| && spans[i].start > spans[i].end;
      InvertedCounts(spans, i, spans[i].end);
      assert Net(spans, spans[i].end) != Cover(spans, spans[i].end);
    }
  }

  lemma OneAlone(i: Interval, x: real)
    ensures Cover([i], x) == if i.start <= x < i.end then 1 else 0
    ensures Inverted([i], x) == if i.end <= x < i.start then 1 else 0
  {
    assert [i][1..] == [];
  }

  /** An interval recorded the wrong way round hides another: one command over [3, 5) and one from 5 "to" 3
      are swept to a peak of 0. */
  lemma InvertedHides()
    ensures var spans := [Interval(3.0, 5.0), Interval(5.0, 3.0)];
      Cover(spans, 4.0) == 1 && forall x :: Net(spans, x) <= 0
  {
    var spans := [Interval(3.0, 5.0), Interval(5.0, 3.0)];
    assert spans[1..] == [Interval(5.0, 3.0)] && spans[1..][1..] == [];
    forall x ensures Net(spans, x) <= 0 {
      OneAlone(spans[1], x);
      assert Cover(spans[1..], x) == 0 && Inverted(spans[1..], x) == if 3.0 <= x < 5.0 then 1 else 0;
    }
  }

  // ---- the peak, and the most work out at once ----

  /** The most intervals over any one instant. */
  ghost predicate IsMost(spans: seq<Interval>, most: nat) {
    (forall x :: Cover(spans, x) <= most) && exists x :: Cover(spans, x) == most
  }

  lemma {:induction false} CoverBound(spans: seq<Interval>, x: real)
    ensures Cover(spans, x) <= |spans|
  {
    if spans != [] {
      CoverBound(spans[1..], x);
    }
  }

  lemma {:induction false} MostUpTo(spans: seq<Interval>, n: nat) returns (most: nat)
    requires forall x :: Cover(spans, x) <= n
    ensures IsMost(spans, most)
  {
    if exists x :: Cover(spans, x) == n {
      most := n;
    } else {
      assert Cover(spans, 0.0) < n;
      most := MostUpTo(spans, n - 1);
    }
  }

  lemma MostExists(spans: seq<Interval>) returns (most: nat)
    ensures IsMost(spans, most)
  {
    forall x ensures Cover(spans, x) <= |spans| {
      CoverBound(spans, x);
    }
    most := MostUpTo(spans, |spans|);
  }

  /** Some instant with the most intervals over it has none recorded the wrong way round over it. */
  ghost predicate ClearAtMost(spans: seq<Interval>, most: nat) {
    exists x :: Cover(spans, x) == most && Inverted(spans, x) == 0
  }

  /** The peak is the most work out at once exactly when no more commands than tasks ran at once, or the most
      commands at once is read at an instant no interval recorded the wrong way round hides. */
  lemma PeakIsMost(spans: seq<Interval>, tasks: nat, most: nat, peak: nat)
    requires IsMost(spans, most)
    requires tasks <= peak && SpansWithin(spans, peak) && (peak == tasks || SpansReach(spans, peak))
    ensures peak == Max(tasks, most) <==> most <= tasks || ClearAtMost(spans, most)
  {
    forall x ensures Net(spans, x) <= Cover(spans, x) <= most && Net(spans, x) <= peak {
    }
    if x :| Cover(spans, x) == most && Inverted(spans, x) == 0 {
      assert Net(spans, x) == most;
    }
    if peak != tasks {
      var x :| Net(spans, x) == peak;
      assert peak == most ==> Cover(spans, x) == most && Inverted(spans, x) == 0;
    }
  }

  /** Intervals none of which ends before it starts hide nothing. */
  lemma OrderedIsClear(spans: seq<Interval>, most: nat)
    requires IsMost(spans, most) && Ordered(spans)
    ensures ClearAtMost(spans, most)
  {
    var x :| Cover(spans, x) == most;
    OrderedHasNoInverted(spans, x);
  }

  // ---- the intervals of a trace ----

  datatype Tool = RunShell | PollTask | OtherTool

  /** A call: its stamps, and the task its answer (or, for a poll, its input) names. */
  datatype Call = Call(tool: Tool, compute: bool, tCall: Option<real>, tResult: Option<real>, phase: string,
    task: string)

  /** `c.t_result or c.t_call or 0.0`: a zero stamp reads as missing. */
  function LastStamp(c: Call): real {
    if c.tResult.Some? && c.tResult.value != 0.0 then c.tResult.value
    else if c.tCall.Some? then c.tCall.value
    else 0.0
  }

  function EndOfRun(calls: seq<Call>): (end: real)
    ensures end >= 0.0 && forall c :: c in calls ==> LastStamp(c) <= end
  {
    if calls == [] then 0.0
    else
      var rest := EndOfRun(calls[1..]);
      if LastStamp(calls[0]) > rest then LastStamp(calls[0]) else rest
  }

  predicate Resolves(c: Call, task: string) {
    c.tool.PollTask? && c.phase in {"complete", "failed"} && c.task != "" && c.task == task && c.tResult.Some?
  }

  /** When the first poll that resolved the task returned. */
  function ResolvedAt(calls: seq<Call>, task: string): (at: Option<real>)
    ensures at.Some? ==> exists c :: c in calls && Resolves(c, task) && c.tResult == at
  {
    if calls == [] then None
    else if Resolves(calls[0], task) then calls[0].tResult
    else ResolvedAt(calls[1..], task)
  }

  /** The interval of one call, if it has one. */
  function IntervalOf(calls: seq<Call>, c: Call): Option<Interval> {
    if !c.tool.RunShell? || !c.compute || c.tCall.None? then None
    else if c.phase == "running" && c.task != "" then
      var resolved := ResolvedAt(calls, c.task);
      Some(Interval(c.tCall.value, if resolved.Some? then resolved.value else EndOfRun(calls)))
    else if c.phase in {"complete", "failed"} then
      Some(Interval(c.tCall.value, if c.tResult.Some? then c.tResult.value else c.tCall.value))
    else None
  }

  function IntervalsOf(calls: seq<Call>, n: nat): seq<Interval>
    requires n <= |calls|
  {
    if n == 0 then []
    else
      var here := IntervalOf(calls, calls[n - 1]);
      if here.Some? then IntervalsOf(calls, n - 1) + [here.value] else IntervalsOf(calls, n - 1)
  }

  /** When each task was first resolved. */
  method ResolvedPolls(calls: seq<Call>) returns (resolved: map<string, real>)
    ensures FirstResolved(calls, resolved)
  {
    hide FirstResolved, ResolvedAt;
    FirstResolvedNone();
    hide Resolves;
    resolved := map[];
    for k := 0 to |calls|
      invariant FirstResolved(calls[..k], resolved)
    {
      assert calls[..k + 1] == calls[..k] + [calls[k]];
      FirstResolvedNext(calls[..k], calls[k], resolved);
      if Resolves(calls[k], calls[k].task) && calls[k].task !in resolved {
        resolved := resolved[calls[k].task := calls[k].tResult.value];
      }
    }
    assert calls[..|calls|] == calls;
  }

  lemma FirstResolvedNone()
    ensures FirstResolved([], map[])
  {
  }

  ghost predicate FirstResolved(calls: seq<Call>, resolved: map<string, real>) {
    forall task :: ResolvedAt(calls, task) == if task in resolved then Some(resolved[task]) else None
  }

  lemma FirstResolvedNext(calls: seq<Call>, c: Call, resolved: map<string, real>)
    requires FirstResolved(calls, resolved)
    ensures Resolves(c, c.task) ==> c.tResult.Some?
    ensures FirstResolved(calls + [c],
      if Resolves(c, c.task) && c.task !in resolved then resolved[c.task := c.tResult.value] else resolved)
  {
    hide ResolvedAt;
    forall task ensures ResolvedAt(calls + [c], task) ==
      if ResolvedAt(calls, task).Some? then ResolvedAt(calls, task) else if Resolves(c, task) then c.tResult else None
    {
      ResolvedNext(calls, c, task);
    }
  }

  method ShellIntervals(calls: seq<Call>) returns (spans: seq<Interval>)
    ensures spans == IntervalsOf(calls, |calls|)
  {
    hide ResolvedAt, EndOfRun;
    var endOfRun := EndOfRun(calls);
    var resolved := ResolvedPolls(calls);
    spans := [];
    for k := 0 to |calls|
      invariant spans == IntervalsOf(calls, k)
    {
      var c := calls[k];
      if c.tool.RunShell? && c.compute && c.tCall.Some? {
        if c.phase == "running" && c.task != "" {
          spans := spans + [Interval(c.tCall.value, if c.task in resolved then resolved[c.task] else endOfRun)];
        } else if c.phase in {"complete", "failed"} {
          spans := spans + [Interval(c.tCall.value, if c.tResult.Some? then c.tResult.value else c.tCall.value)];
        }
      }
    }
  }

  lemma {:induction false} ResolvedNext(calls: seq<Call>, c: Call, task: string)
    ensures ResolvedAt(calls + [c], task) ==
      if ResolvedAt(calls, task).Some? then ResolvedAt(calls, task) else if Resolves(c, task) then c.tResult else None
  {
    if calls != [] {
      ResolvedNext(calls[1..], c, task);
      assert (calls + [c])[1..] == calls[1..] + [c];
    }
  }

  /** Poll `k` is the first that says how the task ended, and has a stamp. */
  ghost predicate FirstPoll(calls: seq<Call>, task: string, k: nat) {
    && k < |calls| && SaysHow(calls[k], task) && forall i :: 0 <= i < k ==> !SaysHow(calls[i], task)
  }

  ghost predicate SaysHow(c: Call, task: string) {
    c.tool == PollTask && (c.phase == "complete" || c.phase == "failed") && c.task == task && c.tResult.Some?
  }

  lemma {:induction false} ResolvedByFirst(calls: seq<Call>, task: string, k: nat)
    requires task != ""
    ensures FirstPoll(calls, task, k) ==> ResolvedAt(calls, task) == calls[k].tResult
    ensures (forall c :: c in calls ==> !SaysHow(c, task)) ==> ResolvedAt(calls, task).None?
  {
    if calls != [] {
      ResolvedByFirst(calls[1..], task, if k == 0 then 0 else k - 1);
      assert calls[0] in calls;
    }
  }

  /** The latest stamp of the run, a zero one aside: of the returns, and of the calls that have none. */
  ghost predicate IsEnd(calls: seq<Call>, end: real) {
    && (forall c :: c in calls && c.tResult.Some? ==> c.tResult.value <= end)
    && (forall c :: c in calls && c.tCall.Some? && (c.tResult.None? || c.tResult == Some(0.0)) ==> c.tCall.value <= end)
    && (end == 0.0 || exists c :: c in calls && (c.tResult == Some(end) || c.tCall == Some(end)))
  }

  /** The interval of a compute command that was made at some time: one left running is out until the first poll
      that says how its task ended, or to the end of the run when none does; one that came back, until it did. */
  lemma CommandIsOut(calls: seq<Call>, c: Call, k: nat)
    requires c.tool == RunShell && c.compute && c.tCall.Some?
    ensures c.phase == "running" && c.task != "" && FirstPoll(calls, c.task, k) ==>
      IntervalOf(calls, c) == Some(Interval(c.tCall.value, calls[k].tResult.value))
    ensures c.phase == "running" && c.task != "" && (forall p :: p in calls ==> !SaysHow(p, c.task)) ==>
      exists end :: IsEnd(calls, end) && IntervalOf(calls, c) == Some(Interval(c.tCall.value, end))
    ensures c.phase in {"complete", "failed"} && c.tResult.Some? ==>
      IntervalOf(calls, c) == Some(Interval(c.tCall.value, c.tResult.value))
    ensures c.phase in {"complete", "failed"} && c.tResult.None? ==>
      IntervalOf(calls, c) == Some(Interval(c.tCall.value, c.tCall.value))
    ensures c.phase !in {"running", "complete", "failed"} ==> IntervalOf(calls, c).None?
  {
    if c.phase == "running" && c.task != "" {
      ResolvedByFirst(calls, c.task, k);
      EndIsEnd(calls);
    }
  }

  lemma {:induction false} EndIsReached(calls: seq<Call>)
    ensures EndOfRun(calls) == 0.0 || exists c :: c in calls && LastStamp(c) == EndOfRun(calls)
  {
    hide LastStamp;
    if calls != [] {
      EndIsReached(calls[1..]);
      assert calls[0] in calls;
    }
  }

  lemma EndIsEnd(calls: seq<Call>)
    ensures IsEnd(calls, EndOfRun(calls))
  {
    hide EndOfRun;
    EndIsReached(calls);
    forall c | c in calls ensures LastStamp(c) <= EndOfRun(calls) {
    }
  }

  /** A call returns after it was made, and a task is resolved after it was started. */
  ghost predicate WellStamped(calls: seq<Call>) {
    && (forall c | c in calls :: c.tCall.Some? && c.tResult.Some? ==> c.tCall.value <= c.tResult.value)
    && (forall c, p | c in calls && p in calls :: c.tool.RunShell? && c.tCall.Some? && Resolves(p, c.task) ==>
      c.tCall.value <= p.tResult.value)
  }

  /** With such stamps no interval is recorded the wrong way round: the window counts true overlap. */
  lemma {:induction false} StampedIntervalsAreOrdered(calls: seq<Call>, n: nat)
    requires n <= |calls| && WellStamped(calls)
    ensures Ordered(IntervalsOf(calls, n))
  {
    if n > 0 {
      StampedIntervalsAreOrdered(calls, n - 1);
      var c := calls[n - 1];
      assert c in calls && LastStamp(c) <= EndOfRun(calls);
    }
  }

  /** A poll that resolved task "t" before a command ran under that name again; and a command from 3 to 5. */
  const REUSED_TASK: seq<Call> :=
    [Call(RunShell, true, Some(3.0), Some(5.0), "complete", ""),
     Call(PollTask, false, Some(2.0), Some(3.0), "complete", "t"),
     Call(RunShell, true, Some(5.0), Some(5.0), "running", "t")]

  /** Calls whose stamps are each in order can have an interval that is not: the window of these two commands is
      none, though one of them ran. */
  lemma ReusedTaskHides()
    ensures var spans := IntervalsOf(REUSED_TASK, 3);
      && spans == [Interval(3.0, 5.0), Interval(5.0, 3.0)]
      && (forall c | c in REUSED_TASK :: c.tCall.value <= c.tResult.value)
      && IsMost(spans, 1) && !ClearAtMost(spans, 1)
  {
    var calls, spans := REUSED_TASK, [Interval(3.0, 5.0), Interval(5.0, 3.0)];
    assert calls[1..][0] == calls[1] && ResolvedAt(calls[1..], "t") == Some(3.0);
    assert ResolvedAt(calls, "t") == Some(3.0);
    assert IntervalsOf(calls, 1) == [Interval(3.0, 5.0)];
    assert IntervalsOf(calls, 2) == [Interval(3.0, 5.0)];
    assert IntervalsOf(calls, 3) == spans;
    assert spans[1..] == [Interval(5.0, 3.0)] && spans[1..][1..] == [];
    forall x ensures Cover(spans, x) <= 1 && (Cover(spans, x) == 1 ==> Inverted(spans, x) == 1) {
      OneAlone(spans[1], x);
      assert Cover(spans[1..], x) == 0 && Inverted(spans[1..], x) == if 3.0 <= x < 5.0 then 1 else 0;
    }
    assert Cover(spans, 4.0) == 1;
  }

  /** The window of a run: over the journal's events and the trace's own `run_shell` commands. */
  method Window<K(==)>(events: seq<Event<K>>, calls: seq<Call>) returns (peak: nat)
    ensures var spans := IntervalsOf(calls, |calls|);
      && TasksWithin(events, peak) && SpansWithin(spans, peak) && (TasksReach(events, peak) || SpansReach(spans, peak))
    ensures var spans := IntervalsOf(calls, |calls|);
      forall tasks, most :: TasksPeak(events, tasks) && IsMost(spans, most) ==>
        (peak == Max(tasks, most) <==> most <= tasks || ClearAtMost(spans, most))
        && (WellStamped(calls) ==> peak == Max(tasks, most))
    ensures WellStamped(calls) ==>
      forall x :: Cover(IntervalsOf(calls, |calls|), x) == Net(IntervalsOf(calls, |calls|), x) <= peak
  {
    hide IntervalsOf;
    var spans := ShellIntervals(calls);
    peak := WindowPeak(events, spans);
    if WellStamped(calls) {
      StampedIntervalsAreOrdered(calls, |calls|);
      NetIsCoverWhenOrdered(spans);
      forall most | IsMost(spans, most) ensures ClearAtMost(spans, most) {
        OrderedIsClear(spans, most);
      }
    }
  }
}
