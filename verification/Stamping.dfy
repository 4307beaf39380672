/** `hermes_trace.stamp_exchanges`: the user's prose answers are put into the trace as synthetic calls, in
    place, highest position first. Whatever is put in can be erased again, and every call's new place is known. */
module Stamping {
  import opened StableSort

  /** A message of the user: after which call it came, the operator's prose before it, what it said, and
      whether it was a nudge. */
  datatype Exchange = Exchange(callIndex: nat, question: string, answer: string, nudge: bool)

  /** A call of the trace: the operator's own, or a stamped one. */
  datatype Entry<C> = Own(call: C) | Stamped(exchange: Exchange)

  /** An exchange with neither a question nor a nudge is left out. */
  predicate IsStamped(e: Exchange) { e.question != "" || e.nudge }

  predicate HigherFirst(a: Exchange, b: Exchange) { a.callIndex >= b.callIndex }

  /** The exchanges to stamp, highest position first. */
  function Todo(exchanges: seq<Exchange>): seq<Exchange> { Sort(Filter(exchanges, IsStamped), HigherFirst) }

  /** What is stamped is the exchanges left in, highest first. */
  lemma TodoSorts(exchanges: seq<Exchange>)
    ensures Sorted(Todo(exchanges), HigherFirst)
    ensures multiset(Todo(exchanges)) == multiset(Filter(exchanges, IsStamped))
  {
    assert TotalPreorder(HigherFirst);
    SortSorts(Filter(exchanges, IsStamped), HigherFirst);
    SortPermutes(Filter(exchanges, IsStamped), HigherFirst);
  }

  /** Every exchange with a question or a nudge is there as often as it was given, no other is, and none comes
      before one of a higher index. */
  lemma TodoDescends(exchanges: seq<Exchange>, e: Exchange, i: nat, j: nat)
    ensures multiset(Todo(exchanges))[e] == if e.question == "" && !e.nudge then 0 else multiset(exchanges)[e]
    ensures i < j < |Todo(exchanges)| ==> Todo(exchanges)[i].callIndex >= Todo(exchanges)[j].callIndex
  {
    hide Todo;
    TodoSorts(exchanges);
    FilterCounts(exchanges, IsStamped, e);
  }

  // ---- inserting ----

  function InsertAt<T>(s: seq<T>, at: nat, x: T): (r: seq<T>)
    requires at <= |s|
  {
    s[..at] + [x] + s[at..]
  }

  function PlaceOf(e: Exchange, n: nat): (at: nat)
    ensures at <= n
  {
    if e.callIndex + 1 <= n then e.callIndex + 1 else n
  }

  function StampAll<C>(calls: seq<Entry<C>>, todo: seq<Exchange>): seq<Entry<C>>
    decreases |todo|
  {
    if todo == [] then calls
    else StampAll(InsertAt(calls, PlaceOf(todo[0], |calls|), Stamped(todo[0])), todo[1..])
  }

  /** A trace, and the operation that stamps it in place. */
  class Recorded<C> {
    var calls: seq<Entry<C>>

    constructor (calls: seq<Entry<C>>)
      ensures this.calls == calls
    {
      this.calls := calls;
    }

    method Stamp(exchanges: seq<Exchange>)
      modifies this
      ensures calls == StampAll(old(calls), Todo(exchanges))
    {
      var todo := Todo(exchanges);
      for k := 0 to |todo|
        invariant StampAll(calls, todo[k..]) == StampAll(old(calls), todo)
      {
        assert todo[k..][0] == todo[k] && todo[k..][1..] == todo[k + 1..];
        var e := todo[k];
        calls := InsertAt(calls, PlaceOf(e, |calls|), Stamped(e));
      }
    }
  }

  // ---- erasing ----

  /** The operator's own calls, in order. */
  function Erase<C>(calls: seq<Entry<C>>): seq<C> {
    if calls == [] then []
    else if calls[0].Own? then [calls[0].call] + Erase(calls[1..])
    else Erase(calls[1..])
  }

  lemma {:induction false} EraseInsert<C>(calls: seq<Entry<C>>, at: nat, e: Exchange)
    requires at <= |calls|
    ensures Erase(InsertAt(calls, at, Stamped(e))) == Erase(calls)
  {
    var after := InsertAt(calls, at, Stamped(e));
    if at == 0 {
      assert after[1..] == calls;
    } else {
      EraseInsert(calls[1..], at - 1, e);
      assert after[1..] == InsertAt(calls[1..], at - 1, Stamped(e));
    }
  }

  /** Stamping loses no call, adds none of the operator's and keeps their order. */
  lemma {:induction false} StampErases<C>(calls: seq<Entry<C>>, todo: seq<Exchange>)
    ensures Erase(StampAll(calls, todo)) == Erase(calls)
    decreases |todo|
  {
    if todo != [] {
      EraseInsert(calls, PlaceOf(todo[0], |calls|), todo[0]);
      StampErases(InsertAt(calls, PlaceOf(todo[0], |calls|), Stamped(todo[0])), todo[1..]);
    }
  }

  // ---- where everything ends up ----

  /** The exchanges that come before call `i`. */
  function Before(todo: seq<Exchange>, i: nat): nat {
    if todo == [] then 0 else Before(todo[1..], i) + if todo[0].callIndex < i then 1 else 0
  }

  /** Highest first: a call moves by one for every exchange stamped before it, whatever is already stamped. */
  lemma {:induction false} StampMoves<C>(calls: seq<Entry<C>>, todo: seq<Exchange>, i: nat, at: nat)
    requires i <= at < |calls| && Sorted(todo, HigherFirst)
    requires at == i || forall e | e in todo :: e.callIndex < i
    ensures at + Before(todo, i) < |StampAll(calls, todo)| && StampAll(calls, todo)[at + Before(todo, i)] == calls[at]
    decreases |todo|
  {
    if todo != [] {
      var e := todo[0];
      var place := PlaceOf(e, |calls|);
      var next := InsertAt(calls, place, Stamped(e));
      assert e in todo;
      assert Sorted(todo[1..], HigherFirst);
      if e.callIndex < i {
        forall d | d in todo[1..] ensures d.callIndex < i {
          var k :| 0 <= k < |todo[1..]| && todo[1..][k] == d;
          assert HigherFirst(todo[0], todo[k + 1]);
        }
        assert next[at + 1] == calls[at];
        StampMoves(next, todo[1..], i, at + 1);
      } else {
        assert next[at] == calls[at];
        StampMoves(next, todo[1..], i, at);
      }
    }
  }

  lemma {:induction false} BeforeInsert(e: Exchange, todo: seq<Exchange>, i: nat)
    ensures Before(Insert(e, todo, HigherFirst), i) == Before([e] + todo, i)
  {
    assert ([e] + todo)[1..] == todo;
    if todo != [] && !HigherFirst(e, todo[0]) {
      BeforeInsert(e, todo[1..], i);
      assert ([e] + todo[1..])[1..] == todo[1..];
    }
  }

  /** Sorting does not change how many come before a call. */
  lemma {:induction false} BeforeSorted(todo: seq<Exchange>, i: nat)
    ensures Before(Sort(todo, HigherFirst), i) == Before(todo, i)
  {
    if todo != [] {
      BeforeSorted(todo[1..], i);
      BeforeInsert(todo[0], Sort(todo[1..], HigherFirst), i);
      assert ([todo[0]] + Sort(todo[1..], HigherFirst))[1..] == Sort(todo[1..], HigherFirst);
    }
  }

  /** Where original call `i` ends: one further for every stamped exchange with a lower index. */
  function NewPlace(exchanges: seq<Exchange>, i: nat): nat { i + Before(Filter(exchanges, IsStamped), i) }

  lemma CallIsPlaced<C>(calls: seq<Entry<C>>, exchanges: seq<Exchange>, i: nat)
    requires i < |calls|
    ensures var after := StampAll(calls, Todo(exchanges));
      NewPlace(exchanges, i) < |after| && after[NewPlace(exchanges, i)] == calls[i]
  {
    hide Before, StampAll;
    TodoSorts(exchanges);
    BeforeSorted(Filter(exchanges, IsStamped), i);
    StampMoves(calls, Todo(exchanges), i, i);
  }

  // ---- where an exchange ends up ----

  lemma RestDescends(todo: seq<Exchange>)
    requires todo != [] && Sorted(todo, HigherFirst)
    ensures Sorted(todo[1..], HigherFirst) && forall e | e in todo[1..] :: e.callIndex <= todo[0].callIndex
  {
    forall e | e in todo[1..] ensures e.callIndex <= todo[0].callIndex {
      var j :| 0 <= j < |todo[1..]| && todo[1..][j] == e;
      assert HigherFirst(todo[0], todo[j + 1]);
    }
  }

  /** Where the `k`-th exchange of a descending list is put: after its call, or at the end when the trace, with
      the exchanges stamped so far, ends before. */
  function PutAt(n: nat, todo: seq<Exchange>, k: nat): (at: nat)
    requires k < |todo|
    ensures at <= n + k
  {
    PlaceOf(todo[k], n + k)
  }

  /** Where it ends: one further for every later exchange whose call comes before that place. */
  function EndsAt(n: nat, todo: seq<Exchange>, k: nat): nat
    requires k < |todo|
  {
    PutAt(n, todo, k) + Before(todo[k + 1..], PutAt(n, todo, k))
  }

  lemma EndsShift(n: nat, todo: seq<Exchange>, k: nat)
    requires 0 < k < |todo|
    ensures EndsAt(n + 1, todo[1..], k - 1) == EndsAt(n, todo, k)
  {
    assert todo[1..][k - 1] == todo[k] && todo[1..][k..] == todo[k + 1..];
  }

  lemma {:induction false} ExchangePlace<C>(calls: seq<Entry<C>>, todo: seq<Exchange>, k: nat)
    requires k < |todo| && Sorted(todo, HigherFirst)
    ensures var q := EndsAt(|calls|, todo, k);
      q < |StampAll(calls, todo)| && StampAll(calls, todo)[q] == Stamped(todo[k])
    decreases |todo|
  {
    hide Before, EndsAt;
    var place := PlaceOf(todo[0], |calls|);
    var next := InsertAt(calls, place, Stamped(todo[0]));
    RestDescends(todo);
    if k == 0 {
      assert next[place] == Stamped(todo[0]);
      StampMoves(next, todo[1..], place, place);
      FirstEnds(|calls|, todo);
    } else {
      ExchangePlace(next, todo[1..], k - 1);
      EndsShift(|calls|, todo, k);
    }
  }

  lemma FirstEnds(n: nat, todo: seq<Exchange>)
    requires todo != []
    ensures EndsAt(n, todo, 0) == PlaceOf(todo[0], n) + Before(todo[1..], PlaceOf(todo[0], n))
  {
  }

  /** In a descending list, what comes before a place is a tail of it. */
  lemma {:induction false} BeforeIsTail(todo: seq<Exchange>, k: nat, i: nat)
    requires k < |todo| && Sorted(todo, HigherFirst)
    ensures i <= todo[k].callIndex ==> Before(todo, i) == Before(todo[k + 1..], i)
    ensures i > todo[k].callIndex ==> Before(todo, i) >= |todo| - k && Before(todo[k + 1..], i) == |todo| - k - 1
    decreases |todo|
  {
    RestDescends(todo);
    if k > 0 {
      assert HigherFirst(todo[0], todo[k]);
      assert todo[1..][k..] == todo[k + 1..];
      BeforeIsTail(todo[1..], k - 1, i);
    } else if i > todo[0].callIndex {
      BeforeAll(todo[1..], i);
    }
  }

  lemma {:induction false} BeforeAll(todo: seq<Exchange>, i: nat)
    requires forall e | e in todo :: e.callIndex < i
    ensures Before(todo, i) == |todo|
  {
    if todo != [] {
      assert todo[0] in todo;
      BeforeAll(todo[1..], i);
    }
  }

  lemma {:induction false} BeforeGrows(todo: seq<Exchange>, i: nat, j: nat)
    requires i <= j
    ensures Before(todo, i) <= Before(todo, j) <= |todo|
  {
    if todo != [] {
      BeforeGrows(todo[1..], i, j);
    }
  }

  /** A call, and an exchange of a descending list: the call comes first exactly when the exchange comes after it. */
  lemma CallOrExchange(todo: seq<Exchange>, n: nat, k: nat, i: nat)
    requires k < |todo| && Sorted(todo, HigherFirst) && i < n
    ensures i + Before(todo, i) < EndsAt(n, todo, k) <==> i <= todo[k].callIndex
  {
    BeforeIsTail(todo, k, i);
    var place := PutAt(n, todo, k);
    if i <= todo[k].callIndex {
      BeforeGrows(todo[k + 1..], i, place);
    } else {
      BeforeGrows(todo[k + 1..], place, place);
    }
  }

  /** A stamped exchange sits after exactly the calls up to its index: after all of them, when it has the index of
      none. */
  lemma ExchangeIsBetween<C>(calls: seq<Entry<C>>, exchanges: seq<Exchange>, k: nat)
    requires k < |Todo(exchanges)|
    ensures var todo, after := Todo(exchanges), StampAll(calls, Todo(exchanges));
      var q := EndsAt(|calls|, todo, k);
      && q < |after| && after[q] == Stamped(todo[k])
      && forall i :: 0 <= i < |calls| ==> (NewPlace(exchanges, i) < q <==> i <= todo[k].callIndex)
  {
    var todo := Todo(exchanges);
    TodoSorts(exchanges);
    ExchangePlace(calls, todo, k);
    forall i | 0 <= i < |calls| ensures NewPlace(exchanges, i) < EndsAt(|calls|, todo, k) <==> i <= todo[k].callIndex {
      BeforeSorted(Filter(exchanges, IsStamped), i);
      CallOrExchange(todo, |calls|, k, i);
    }
  }

  /** Two exchanges after the same call, `l` later in the list: they are stamped in reverse exactly when, as the
      first of them is put in, there is an entry at their place; past the end they keep the order they came in. */
  lemma EqualIndicesOrder<C>(calls: seq<Entry<C>>, todo: seq<Exchange>, k: nat, l: nat)
    requires k < l < |todo| && Sorted(todo, HigherFirst) && todo[k].callIndex == todo[l].callIndex
    ensures var after, p, q := StampAll(calls, todo), EndsAt(|calls|, todo, k), EndsAt(|calls|, todo, l);
      && p < |after| && q < |after| && p != q && after[p] == Stamped(todo[k]) && after[q] == Stamped(todo[l])
      && (q < p <==> todo[k].callIndex < |calls| + k)
  {
    var n, c := |calls|, todo[k].callIndex;
    ExchangePlace(calls, todo, k);
    ExchangePlace(calls, todo, l);
    var a, b := PutAt(n, todo, k), PutAt(n, todo, l);
    BeforeIsTail(todo, k, a);
    BeforeIsTail(todo, l, a);
    BeforeIsTail(todo, l, b);
    BeforeGrows(todo[l + 1..], a, b);
    BeforeGrows(todo[l + 1..], b, b);
  }

  /** The sort keeps exchanges after the same call in the order they came in. */
  lemma EqualIndicesKeepOrder(exchanges: seq<Exchange>, index: nat)
    ensures Filter(Todo(exchanges), (e: Exchange) => e.callIndex == index)
         == Filter(Filter(exchanges, IsStamped), (e: Exchange) => e.callIndex == index)
  {
    SortStable(Filter(exchanges, IsStamped), HigherFirst, (e: Exchange) => e.callIndex == index);
  }
}
