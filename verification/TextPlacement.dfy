/** Where the operator's texts come among its calls: the readers of `cli_runner.py` count the calls before each
    text, `_placed_by_match` finds a harness's texts in the relay's record, and `invariants.said_after` reads what
    was said after a call. */
module TextPlacement {
  import opened Common

  /** Positions that never go back, and never past the `n` calls there are. */
  ghost predicate Placed(at: seq<nat>, n: nat) {
    && (forall i, j :: 0 <= i < j < |at| ==> at[i] <= at[j])
    && (forall i :: 0 <= i < |at| ==> at[i] <= n)
  }

  // ---- the event streams (`codex_events`, `pi_events`) ----

  /** An item of a stream: a call's, under its id (a call may have several items), the operator's prose, or another. */
  datatype Item = Started(id: string) | Said(text: string) | Other

  /** The calls among the first `n` items, each id once, in the order they first appear. */
  function Ids(items: seq<Item>, n: nat): seq<string>
    requires n <= |items|
  {
    if n == 0 then []
    else
      var before := Ids(items, n - 1);
      if items[n - 1].Started? && items[n - 1].id !in before then before + [items[n - 1].id] else before
  }

  /** The prose of the first `n` items. */
  function Texts(items: seq<Item>, n: nat): seq<string>
    requires n <= |items|
  {
    if n == 0 then []
    else if items[n - 1].Said? then Texts(items, n - 1) + [items[n - 1].text]
    else Texts(items, n - 1)
  }

  /** For each of them, the number of calls that had appeared. */
  function CallsBefore(items: seq<Item>, n: nat): (at: seq<nat>)
    requires n <= |items|
    ensures |at| == |Texts(items, n)|
  {
    if n == 0 then []
    else if items[n - 1].Said? then CallsBefore(items, n - 1) + [|Ids(items, n - 1)|]
    else CallsBefore(items, n - 1)
  }

  lemma {:induction false} StreamIsPlaced(items: seq<Item>, n: nat)
    requires n <= |items|
    ensures Placed(CallsBefore(items, n), |Ids(items, n)|)
  {
    if n > 0 {
      StreamIsPlaced(items, n - 1);
    }
  }

  /** The calls that have an item before `n`. */
  ghost function Appeared(items: seq<Item>, n: nat): set<string>
    requires n <= |items|
  {
    set k | 0 <= k < n && items[k].Started? :: items[k].id
  }

  /** Each of them is counted once. */
  lemma {:induction false} IdsAre(items: seq<Item>, n: nat)
    requires n <= |items|
    ensures (forall id :: id in Ids(items, n) <==> id in Appeared(items, n)) && |Ids(items, n)| == |Appeared(items, n)|
  {
    hide Appeared;
    if n > 0 {
      var x, ids, seen := items[n - 1], Ids(items, n - 1), Appeared(items, n - 1);
      IdsAre(items, n - 1);
      AppearedNext(items, n - 1);
      if x.Started? {
        assert x.id in ids <==> x.id in seen;
        assert x.id in seen ==> seen + {x.id} == seen;
        assert x.id !in seen ==> |seen + {x.id}| == |seen| + 1;
      }
      forall id ensures id in Ids(items, n) <==> id in Appeared(items, n) {
        assert id in ids <==> id in seen;
      }
    } else {
      NoneAppeared(items);
    }
  }

  lemma NoneAppeared(items: seq<Item>)
    ensures Appeared(items, 0) == {}
  {
  }

  lemma AppearedNext(items: seq<Item>, n: nat)
    requires n < |items|
    ensures Appeared(items, n + 1)
      == if items[n].Started? then Appeared(items, n) + {items[n].id} else Appeared(items, n)
  {
  }

  /** The prose of item `k` stands after exactly the calls that have an item before it. */
  lemma {:induction false} TextSits(items: seq<Item>, k: nat, n: nat)
    requires k < n <= |items| && items[k].Said?
    ensures var i := |Texts(items, k)|;
      i < |Texts(items, n)| && Texts(items, n)[i] == items[k].text && CallsBefore(items, n)[i] == |Appeared(items, k)|
  {
    if k < n - 1 {
      TextSits(items, k, n - 1);
    } else {
      IdsAre(items, k);
    }
  }

  method ReadStream(items: seq<Item>) returns (order: seq<string>, texts: seq<string>, textAt: seq<nat>)
    ensures order == Ids(items, |items|) && texts == Texts(items, |items|) && textAt == CallsBefore(items, |items|)
    ensures Placed(textAt, |order|) && |textAt| == |texts|
  {
    order, texts, textAt := [], [], [];
    var byId: set<string> := {};
    for k := 0 to |items|
      invariant order == Ids(items, k) && texts == Texts(items, k) && textAt == CallsBefore(items, k)
      invariant forall id :: id in byId <==> id in order
    {
      match items[k]
      case Said(text) =>
        texts := texts + [text];
        textAt := textAt + [|order|];
      case Started(id) =>
        if id !in byId {
          byId := byId + {id};
          order := order + [id];
        }
      case Other =>
    }
    StreamIsPlaced(items, |items|);
  }

  // ---- the relay's hops and the message log (`relay_events`, `hermes_events`) ----

  /** A hop of the relay, or an assistant row of the log: its texts come before its own calls. */
  datatype Hop<C> = Hop(texts: seq<string>, calls: seq<C>)

  function CallsOf<C>(hops: seq<Hop<C>>, n: nat): seq<C>
    requires n <= |hops|
  {
    if n == 0 then [] else CallsOf(hops, n - 1) + hops[n - 1].calls
  }

  function SaidBy<C>(hops: seq<Hop<C>>, n: nat): seq<string>
    requires n <= |hops|
  {
    if n == 0 then [] else SaidBy(hops, n - 1) + hops[n - 1].texts
  }

  function Repeat(x: nat, n: nat): (r: seq<nat>)
    ensures |r| == n && forall i :: 0 <= i < n ==> r[i] == x
  {
    seq(n, _ => x)
  }

  /** A hop's texts are placed after the calls of the hops before it. */
  function HopAt<C>(hops: seq<Hop<C>>, n: nat): seq<nat>
    requires n <= |hops|
  {
    if n == 0 then [] else HopAt(hops, n - 1) + Repeat(|CallsOf(hops, n - 1)|, |hops[n - 1].texts|)
  }

  lemma {:induction false} HopsArePlaced<C>(hops: seq<Hop<C>>, n: nat)
    requires n <= |hops|
    ensures Placed(HopAt(hops, n), |CallsOf(hops, n)|)
  {
    if n > 0 {
      HopsArePlaced(hops, n - 1);
    }
  }

  /** A stretch of a list. */
  ghost predicate Holds<T>(s: seq<T>, at: nat, part: seq<T>) { at + |part| <= |s| && s[at..at + |part|] == part }

  lemma HoldsMore<T>(s: seq<T>, more: seq<T>, at: nat, part: seq<T>)
    requires Holds(s, at, part)
    ensures Holds(s + more, at, part)
  {
    assert (s + more)[at..at + |part|] == s[at..at + |part|];
  }

  lemma HoldsLast<T>(s: seq<T>, part: seq<T>)
    ensures Holds(s + part, |s|, part)
  {
  }

  /** The texts and the calls of hop `k` where they are in the whole: a text comes after the calls of the hops
      before its own and before its own hop's. */
  lemma {:induction false} HopSits<C>(hops: seq<Hop<C>>, k: nat, n: nat)
    requires k < n <= |hops|
    ensures var before, said, x := |CallsOf(hops, k)|, |SaidBy(hops, k)|, hops[k];
      && Holds(CallsOf(hops, n), before, x.calls) && Holds(SaidBy(hops, n), said, x.texts)
      && |SaidBy(hops, n)| == |HopAt(hops, n)| && Holds(HopAt(hops, n), said, Repeat(before, |x.texts|))
  {
    hide Holds, Repeat;
    AsManyHopTexts(hops, n);
    AsManyHopTexts(hops, k);
    var calls, texts, at := hops[n - 1].calls, hops[n - 1].texts, Repeat(|CallsOf(hops, n - 1)|, |hops[n - 1].texts|);
    if k < n - 1 {
      HopSits(hops, k, n - 1);
      HoldsMore(CallsOf(hops, n - 1), calls, |CallsOf(hops, k)|, hops[k].calls);
      HoldsMore(SaidBy(hops, n - 1), texts, |SaidBy(hops, k)|, hops[k].texts);
      HoldsMore(HopAt(hops, n - 1), at, |SaidBy(hops, k)|, Repeat(|CallsOf(hops, k)|, |hops[k].texts|));
    } else {
      HoldsLast(CallsOf(hops, k), calls);
      HoldsLast(SaidBy(hops, k), texts);
      HoldsLast(HopAt(hops, k), at);
    }
  }

  lemma {:induction false} AsManyHopTexts<C>(hops: seq<Hop<C>>, n: nat)
    requires n <= |hops|
    ensures |SaidBy(hops, n)| == |HopAt(hops, n)|
  {
    if n > 0 {
      AsManyHopTexts(hops, n - 1);
    }
  }

  method ReadHops<C>(hops: seq<Hop<C>>) returns (events: seq<C>, texts: seq<string>, textAt: seq<nat>)
    ensures events == CallsOf(hops, |hops|) && texts == SaidBy(hops, |hops|) && textAt == HopAt(hops, |hops|)
    ensures |texts| == |textAt|
    ensures Placed(textAt, |events|)
  {
    events, texts, textAt := [], [], [];
    for k := 0 to |hops|
      invariant events == CallsOf(hops, k) && texts == SaidBy(hops, k) && textAt == HopAt(hops, k)
        && |texts| == |textAt|
    {
      texts := texts + hops[k].texts;
      textAt := textAt + Repeat(|events|, |hops[k].texts|);
      events := events + hops[k].calls;
    }
    HopsArePlaced(hops, |hops|);
  }

  // ---- finding one record's texts in another ----

  /** `f` gives each said text a relayed text of the same words, further on each time. */
  ghost predicate Finds(words: string -> string, said: seq<string>, relayed: seq<string>, f: seq<nat>) {
    && |f| == |said|
    && (forall i :: 0 <= i < |f| ==> f[i] < |relayed| && words(relayed[f[i]]) == words(said[i]))
    && (forall i, j :: 0 <= i < j < |f| ==> f[i] < f[j])
  }

  /** The next relayed text, from `j` on, with the words of `x`. */
  function NextMatch(words: string -> string, relayed: seq<string>, x: string, j: nat): (k: nat)
    requires j <= |relayed|
    ensures j <= k <= |relayed| && (k < |relayed| ==> words(relayed[k]) == words(x))
    ensures forall i :: j <= i < k ==> words(relayed[i]) != words(x)
    decreases |relayed| - j
  {
    if j == |relayed| || words(relayed[j]) == words(x) then j else NextMatch(words, relayed, x, j + 1)
  }

  /** Where the search goes on: past the last text found. */
  function Onward(found: seq<nat>): nat { if found == [] then 0 else found[|found| - 1] + 1 }

  /** The first `k` said texts found one by one, each at the next relayed text of its words; None when one is not
    found. */
  function Greedy(words: string -> string, said: seq<string>, relayed: seq<string>, k: nat): (g: Option<seq<nat>>)
    requires k <= |said|
    ensures g.Some? ==> |g.value| == k && Onward(g.value) <= |relayed|
  {
    if k == 0 then Some([])
    else
      var before := Greedy(words, said, relayed, k - 1);
      if before.None? then None
      else
        var j := NextMatch(words, relayed, said[k - 1], Onward(before.value));
        if j == |relayed| then None else Some(before.value + [j])
  }

  /** One more found, past the others. */
  lemma FindsMore(words: string -> string, said: seq<string>, x: string, relayed: seq<string>, f: seq<nat>, j: nat)
    requires Finds(words, said, relayed, f) && Onward(f) <= j < |relayed| && words(relayed[j]) == words(x)
    ensures Finds(words, said + [x], relayed, f + [j])
  {
    assert forall i :: 0 <= i < |f| ==> f[i] < Onward(f);
  }

  lemma {:induction false} GreedyFinds(words: string -> string, said: seq<string>, relayed: seq<string>, k: nat)
    requires k <= |said| && Greedy(words, said, relayed, k).Some?
    ensures Finds(words, said[..k], relayed, Greedy(words, said, relayed, k).value)
  {
    hide Finds, Onward, NextMatch;
    if k == 0 {
      FindsNone(words, said[..0], relayed);
    } else {
      GreedyFinds(words, said, relayed, k - 1);
      var before := Greedy(words, said, relayed, k - 1).value;
      FindsMore(words, said[..k - 1], said[k - 1], relayed, before,
        NextMatch(words, relayed, said[k - 1], Onward(before)));
      assert said[..k] == said[..k - 1] + [said[k - 1]];
    }
  }

  lemma FindsNone(words: string -> string, said: seq<string>, relayed: seq<string>)
    requires said == []
    ensures Finds(words, said, relayed, [])
  {
  }

  /** Searching greedily loses nothing: whatever embedding there is, the search finds one no later anywhere. */
  lemma {:induction false} GreedyIsEarliest(words: string -> string, said: seq<string>, relayed: seq<string>,
                                            f: seq<nat>, k: nat)
    requires k <= |said| && Finds(words, said, relayed, f)
    ensures Greedy(words, said, relayed, k).Some?
    ensures forall i :: 0 <= i < k ==> Greedy(words, said, relayed, k).value[i] <= f[i]
  {
    if k > 0 {
      GreedyIsEarliest(words, said, relayed, f, k - 1);
      var before := Greedy(words, said, relayed, k - 1).value;
      assert k > 1 ==> f[k - 2] < f[k - 1];
      assert Onward(before) <= f[k - 1];
    }
  }

  /** The whole search finds an embedding exactly when there is one. */
  lemma GreedyDecides(words: string -> string, said: seq<string>, relayed: seq<string>)
    ensures Greedy(words, said, relayed, |said|).Some? <==> exists f :: Finds(words, said, relayed, f)
  {
    assert said[..|said|] == said;
    if Greedy(words, said, relayed, |said|).Some? {
      GreedyFinds(words, said, relayed, |said|);
    }
    if f :| Finds(words, said, relayed, f) {
      GreedyIsEarliest(words, said, relayed, f, |said|);
    }
  }

  function PositionsOf(relayedAt: seq<nat>, found: seq<nat>): (at: seq<nat>)
    requires forall i :: 0 <= i < |found| ==> found[i] < |relayedAt|
    ensures |at| == |found| && forall i :: 0 <= i < |found| ==> at[i] == relayedAt[found[i]]
  {
    seq(|found|, i requires 0 <= i < |found| => relayedAt[found[i]])
  }

  /** The positions of the said texts in the relay's order: none when one is not found, and never going back
      when the relay's own do not. */
  method PlacedByMatch(words: string -> string, said: seq<string>, relayed: seq<string>, relayedAt: seq<nat>)
    returns (out: seq<nat>)
    requires |relayedAt| == |relayed|
    ensures Greedy(words, said, relayed, |said|).None? ==> out == []
    ensures Greedy(words, said, relayed, |said|).Some? ==>
      var found := Greedy(words, said, relayed, |said|).value;
      (forall i :: 0 <= i < |found| ==> found[i] < |relayed|) && out == PositionsOf(relayedAt, found)
  {
    hide Greedy, NextMatch, Onward;
    GreedyStarts(words, said, relayed);
    out := [];
    var j := 0;
    ghost var found: seq<nat> := [];
    for k := 0 to |said|
      invariant Greedy(words, said, relayed, k) == Some(found) && j == Onward(found) && |out| == |found| == k
      invariant forall i :: 0 <= i < k ==> found[i] < |relayed| && out[i] == relayedAt[found[i]]
    {
      ghost var from := j;
      GreedyNext(words, said, relayed, k);
      while j < |relayed| && words(relayed[j]) != words(said[k])
        invariant from <= j <= |relayed|
          && NextMatch(words, relayed, said[k], j) == NextMatch(words, relayed, said[k], from)
      {
        MatchOn(words, relayed, said[k], j);
        j := j + 1;
      }
      MatchHere(words, relayed, said[k], j);
      if j == |relayed| {
        GreedyStops(words, said, relayed, k + 1, |said|);
        return [];
      }
      out := out + [relayedAt[j]];
      found := found + [j];
      j := j + 1;
    }
  }

  lemma GreedyStarts(words: string -> string, said: seq<string>, relayed: seq<string>)
    ensures Greedy(words, said, relayed, 0) == Some([]) && Onward([]) == 0
    ensures forall found: seq<nat>, j: nat :: Onward(found + [j]) == j + 1
  {
  }

  lemma GreedyNext(words: string -> string, said: seq<string>, relayed: seq<string>, k: nat)
    requires k < |said| && Greedy(words, said, relayed, k).Some?
    ensures var before := Greedy(words, said, relayed, k).value;
      var j := NextMatch(words, relayed, said[k], Onward(before));
      Greedy(words, said, relayed, k + 1) == if j == |relayed| then None else Some(before + [j])
  {
  }

  lemma MatchOn(words: string -> string, relayed: seq<string>, x: string, j: nat)
    requires j < |relayed| && words(relayed[j]) != words(x)
    ensures NextMatch(words, relayed, x, j) == NextMatch(words, relayed, x, j + 1)
  {
  }

  lemma MatchHere(words: string -> string, relayed: seq<string>, x: string, j: nat)
    requires j <= |relayed| && (j < |relayed| ==> words(relayed[j]) == words(x))
    ensures NextMatch(words, relayed, x, j) == j
  {
  }

  lemma {:induction false} GreedyStops(words: string -> string, said: seq<string>, relayed: seq<string>, k: nat, n: nat)
    requires k <= n <= |said| && Greedy(words, said, relayed, k).None?
    ensures Greedy(words, said, relayed, n).None?
    decreases n - k
  {
    if k < n {
      GreedyStops(words, said, relayed, k, n - 1);
    }
  }

  /** Placed texts of the relay make placed texts of what was said. */
  lemma MatchIsPlaced(words: string -> string, said: seq<string>, relayed: seq<string>, relayedAt: seq<nat>,
                      found: seq<nat>, n: nat)
    requires |relayedAt| == |relayed| && Placed(relayedAt, n) && Finds(words, said, relayed, found)
    ensures Placed(PositionsOf(relayedAt, found), n)
  {
    var at := PositionsOf(relayedAt, found);
    forall i, j | 0 <= i < j < |at| ensures at[i] <= at[j] {
      assert found[i] < found[j];
    }
  }

  // ---- what was said after a call ----

  /** The texts placed after call `i`; every text when they are not placed; none when there was no such call. */
  function SaidAfter(texts: seq<string>, textAt: seq<nat>, i: Option<nat>): seq<string> {
    if i.None? then []
    else if |textAt| == |texts| then After(texts, textAt, i.value)
    else texts
  }

  function After(texts: seq<string>, textAt: seq<nat>, i: nat): seq<string>
    requires |textAt| == |texts|
  {
    if texts == [] then []
    else if textAt[0] > i then [texts[0]] + After(texts[1..], textAt[1..], i)
    else After(texts[1..], textAt[1..], i)
  }

  /** A text placed after call `i` was said after it, and one placed before was not; not placed, all were. */
  lemma {:induction false} SaidAfterHolds(texts: seq<string>, textAt: seq<nat>, i: nat, x: string)
    ensures |textAt| != |texts| ==> SaidAfter(texts, textAt, Some(i)) == texts
    ensures |textAt| == |texts| ==>
      (x in SaidAfter(texts, textAt, Some(i)) <==> exists k :: 0 <= k < |texts| && texts[k] == x && textAt[k] > i)
    decreases |texts|
  {
    if |textAt| == |texts| && texts != [] {
      SaidAfterHolds(texts[1..], textAt[1..], i, x);
      if k :| 0 <= k < |texts| && texts[k] == x && textAt[k] > i {
        assert k > 0 ==> texts[1..][k - 1] == x && textAt[1..][k - 1] > i;
      }
    }
  }

  /** The first position past `i`. */
  function FirstAfter(textAt: seq<nat>, i: nat): (k: nat)
    ensures k <= |textAt| && (k < |textAt| ==> textAt[k] > i) && forall x :: 0 <= x < k ==> textAt[x] <= i
  {
    if textAt == [] || textAt[0] > i then 0 else 1 + FirstAfter(textAt[1..], i)
  }

  lemma {:induction false} AllAfter(texts: seq<string>, textAt: seq<nat>, i: nat)
    requires |textAt| == |texts| && forall x :: 0 <= x < |textAt| ==> textAt[x] > i
    ensures After(texts, textAt, i) == texts
  {
    if texts != [] {
      AllAfter(texts[1..], textAt[1..], i);
    }
  }

  /** With placed texts, what was said after a call is a tail of what was said. */
  lemma {:induction false} SaidAfterIsTail(texts: seq<string>, textAt: seq<nat>, n: nat, i: nat)
    requires |textAt| == |texts| && Placed(textAt, n)
    ensures SaidAfter(texts, textAt, Some(i)) == texts[FirstAfter(textAt, i)..]
  {
    if texts == [] {
    } else if textAt[0] > i {
      AllAfter(texts, textAt, i);
    } else {
      SaidAfterIsTail(texts[1..], textAt[1..], n, i);
    }
  }

  /** Later calls have fewer texts after them: the tails shrink, and none is left past the last call. */
  lemma SaidAfterShrinks(texts: seq<string>, textAt: seq<nat>, n: nat, i: nat, j: nat)
    requires |textAt| == |texts| && Placed(textAt, n) && i <= j
    ensures FirstAfter(textAt, i) <= FirstAfter(textAt, j)
    ensures var early, late := SaidAfter(texts, textAt, Some(i)), SaidAfter(texts, textAt, Some(j));
      |late| <= |early| && late == early[|early| - |late|..]
    ensures i >= n ==> SaidAfter(texts, textAt, Some(i)) == []
  {
    SaidAfterIsTail(texts, textAt, n, i);
    SaidAfterIsTail(texts, textAt, n, j);
  }
}
