/** The readers that place the user's messages (`hermes_trace`, `claude_transcript`): the position of a reply
    is the number of calls the operator made before it, counted as the trace's own reader counts them. */
module Readers {
  import opened Common
  import opened StableSort
  import opened Stamping

  /** A row of the operator's message log. `calls`: the tool calls of an assistant row, None when it has none
      or they do not parse as a list. */
  datatype Message<C> =
    | Assistant(calls: Option<seq<C>>, prose: string)
    | User
    | Other

  /** A message the user sent. */
  datatype Reply = Reply(answer: string, nudge: bool)

  function CallsIn<C>(m: Message<C>): seq<C> {
    if m.Assistant? && m.calls.Some? then m.calls.value else []
  }

  /** The calls of the first `n` rows. */
  function CallsOf<C>(rows: seq<Message<C>>, n: nat): seq<C>
    requires n <= |rows|
  {
    if n == 0 then [] else CallsOf(rows, n - 1) + CallsIn(rows[n - 1])
  }

  /** The prose last said in the first `n` rows. */
  function LastProse<C>(rows: seq<Message<C>>, n: nat): string
    requires n <= |rows|
  {
    if n == 0 then ""
    else if rows[n - 1].Assistant? && rows[n - 1].prose != "" then rows[n - 1].prose
    else LastProse(rows, n - 1)
  }

  /** All the prose said in the first `n` rows, in order. */
  function ProseOf<C>(rows: seq<Message<C>>, n: nat): (texts: seq<string>)
    requires n <= |rows|
    ensures LastProse(rows, n) == if texts == [] then "" else texts[|texts| - 1]
  {
    if n == 0 then []
    else if rows[n - 1].Assistant? && rows[n - 1].prose != "" then ProseOf(rows, n - 1) + [rows[n - 1].prose]
    else ProseOf(rows, n - 1)
  }

  function UsersBefore<C>(rows: seq<Message<C>>, n: nat): nat
    requires n <= |rows|
  {
    if n == 0 then 0 else UsersBefore(rows, n - 1) + if rows[n - 1].User? then 1 else 0
  }

  /** The exchange of a reply that came as row `r`. */
  function ExchangeAt<C>(rows: seq<Message<C>>, r: nat, reply: Reply): Exchange
    requires r <= |rows|
  {
    var calls := |CallsOf(rows, r)|;
    Exchange(if calls == 0 then 0 else calls - 1, Tail(LastProse(rows, r), 1000), reply.answer, reply.nudge)
  }

  /** Every user row after the first (the task), with the replies in order. */
  function ExchangesOf<C>(rows: seq<Message<C>>, replies: seq<Reply>, n: nat): (out: seq<Exchange>)
    requires n <= |rows|
    ensures |out| <= |replies|
  {
    if n == 0 then []
    else
      var out := ExchangesOf(rows, replies, n - 1);
      if rows[n - 1].User? && UsersBefore(rows, n - 1) >= 1 && |out| < |replies|
      then out + [ExchangeAt(rows, n - 1, replies[|out|])]
      else out
  }

  /** The trace's reader: the calls and the prose, in order. */
  method TraceFromMessages<C>(rows: seq<Message<C>>) returns (calls: seq<C>, texts: seq<string>)
    ensures calls == CallsOf(rows, |rows|) && texts == ProseOf(rows, |rows|)
  {
    calls, texts := [], [];
    for r := 0 to |rows|
      invariant calls == CallsOf(rows, r) && texts == ProseOf(rows, r)
    {
      calls := calls + CallsIn(rows[r]);
      if rows[r].Assistant? && rows[r].prose != "" {
        texts := texts + [rows[r].prose];
      }
    }
  }

  /** The prose is what the rows say, in order, each once. */
  lemma {:induction false} ProseIs<C>(rows: seq<Message<C>>, n: nat, x: string)
    requires n <= |rows|
    ensures "" !in ProseOf(rows, n)
    ensures x in ProseOf(rows, n) <==> x != "" && exists r :: 0 <= r < n && rows[r].Assistant? && rows[r].prose == x
  {
    if n > 0 {
      ProseIs(rows, n - 1, x);
    }
  }

  /** The reader of the replies: it counts calls as the trace's reader does. */
  method ExchangesFromMessages<C>(rows: seq<Message<C>>, replies: seq<Reply>) returns (out: seq<Exchange>)
    ensures out == ExchangesOf(rows, replies, |rows|)
  {
    out := [];
    var callCount, lastProse, userSeen, replyI := 0, "", 0, 0;
    for r := 0 to |rows|
      invariant out == ExchangesOf(rows, replies, r) && replyI == |out|
      invariant callCount == |CallsOf(rows, r)| && lastProse == LastProse(rows, r) && userSeen == UsersBefore(rows, r)
    {
      match rows[r]
      case Assistant(calls, prose) =>
        callCount := callCount + if calls.Some? then |calls.value| else 0;
        if prose != "" {
          lastProse := prose;
        }
      case User =>
        userSeen := userSeen + 1;
        if userSeen == 1 {
          continue;
        }
        if replyI < |replies| {
          var rep := replies[replyI];
          var index := if callCount - 1 > 0 then callCount - 1 else 0;
          out := out + [Exchange(index, Tail(lastProse, 1000), rep.answer, rep.nudge)];
          replyI := replyI + 1;
        }
      case Other =>
    }
  }

  /** Exchange `j` is reply `j`, at the user row with `j + 1` user rows before it. */
  ghost predicate ComesAs<C>(rows: seq<Message<C>>, replies: seq<Reply>, e: Exchange, j: nat, r: nat) {
    r < |rows| && rows[r].User? && UsersBefore(rows, r) == j + 1 && j < |replies|
      && e == ExchangeAt(rows, r, replies[j])
  }

  /** As many exchanges as there are user rows after the first, or replies. */
  lemma {:induction false} ExchangesNumber<C>(rows: seq<Message<C>>, replies: seq<Reply>, n: nat)
    requires n <= |rows|
    ensures var users := UsersBefore(rows, n);
      |ExchangesOf(rows, replies, n)|
      == if users == 0 then 0 else if users - 1 < |replies| then users - 1 else |replies|
  {
    hide ExchangeAt;
    if n > 0 {
      ExchangesNumber(rows, replies, n - 1);
    }
  }

  /** Exchange `j` is reply `j`, and comes as a user row. */
  lemma {:induction false} ExchangesPair<C>(rows: seq<Message<C>>, replies: seq<Reply>, n: nat, j: nat)
    requires n <= |rows| && j < |ExchangesOf(rows, replies, n)|
    ensures exists r: nat :: r < n && ComesAs(rows, replies, ExchangesOf(rows, replies, n)[j], j, r)
  {
    hide ExchangeAt;
    if n > 0 {
      ExchangesNumber(rows, replies, n - 1);
      var before := ExchangesOf(rows, replies, n - 1);
      if j < |before| {
        ExchangesPair(rows, replies, n - 1, j);
        assert ExchangesOf(rows, replies, n)[j] == before[j];
      } else {
        assert ComesAs(rows, replies, ExchangesOf(rows, replies, n)[j], j, n - 1);
      }
    }
  }

  lemma {:induction false} CallsGrow<C>(rows: seq<Message<C>>, m: nat, n: nat)
    requires m <= n <= |rows|
    ensures |CallsOf(rows, m)| <= |CallsOf(rows, n)| && CallsOf(rows, m) <= CallsOf(rows, n)
    decreases n - m
  {
    if m < n {
      CallsGrow(rows, m, n - 1);
    }
  }

  /** A recorded call of the trace. */
  function Entries<C>(calls: seq<C>): (r: seq<Entry<C>>)
    ensures |r| == |calls| && forall i :: 0 <= i < |r| ==> r[i] == Own(calls[i])
  {
    seq(|calls|, i requires 0 <= i < |calls| => Own(calls[i]))
  }

  /** The stamp of exchange `e` sits between the calls made before row `r` and those made after it. */
  ghost predicate SitsAt<C>(after: seq<Entry<C>>, exchanges: seq<Exchange>, e: Exchange, before: nat, all: nat,
                            q: nat) {
    && q < |after| && after[q] == Stamped(e)
    && forall i :: 0 <= i < all ==> (NewPlace(exchanges, i) < q <==> i < before)
  }

  /** A reply the operator had made `c` calls before, out of all of `calls`: its stamp sits between those and the
      rest, when some call came before it. A reply before the first call is stamped after it. */
  lemma ReplySits<C>(calls: seq<Entry<C>>, exchanges: seq<Exchange>, k: nat, c: nat)
    requires k < |Todo(exchanges)| && c <= |calls|
    requires Todo(exchanges)[k].callIndex == if c == 0 then 0 else c - 1
    ensures var after, e := StampAll(calls, Todo(exchanges)), Todo(exchanges)[k];
      exists q :: SitsAt(after, exchanges, e, AtLeastOne(c), |calls|, q)
    ensures calls != [] ==> StampAll(calls, Todo(exchanges)) != [] && StampAll(calls, Todo(exchanges))[0] == calls[0]
  {
    hide Todo, StampAll, EndsAt, Before;
    ExchangeIsBetween(calls, exchanges, k);
    var after, e := StampAll(calls, Todo(exchanges)), Todo(exchanges)[k];
    assert SitsAt(after, exchanges, e, AtLeastOne(c), |calls|, EndsAt(|calls|, Todo(exchanges), k));
    if calls != [] {
      CallIsPlaced(calls, exchanges, 0);
      BeforeZero(Filter(exchanges, IsStamped));
    }
  }

  lemma {:induction false} BeforeZero(todo: seq<Exchange>)
    ensures Before(todo, 0) == 0
  {
    if todo != [] {
      BeforeZero(todo[1..]);
    }
  }

  /** End to end: reply `j`, if it is stamped, is stamped between the calls made before it and those made after
      it; or after the first call, when none was made before it. */
  lemma RepliesArePlaced<C>(rows: seq<Message<C>>, replies: seq<Reply>, j: nat)
    requires j < |ExchangesOf(rows, replies, |rows|)| && IsStamped(ExchangesOf(rows, replies, |rows|)[j])
    ensures var exchanges := ExchangesOf(rows, replies, |rows|);
      var after := StampAll(Entries(CallsOf(rows, |rows|)), Todo(exchanges));
      exists r: nat, q :: r < |rows| && ComesAs(rows, replies, exchanges[j], j, r)
        && SitsAt(after, exchanges, exchanges[j], AtLeastOne(|CallsOf(rows, r)|), |CallsOf(rows, |rows|)|, q)
  {
    var exchanges := ExchangesOf(rows, replies, |rows|);
    ExchangesPair(rows, replies, |rows|, j);
    var r: nat :| r < |rows| && ComesAs(rows, replies, exchanges[j], j, r);
    CallsGrow(rows, r, |rows|);
    SortKeepsElements(Filter(exchanges, IsStamped), HigherFirst);
    assert exchanges[j] in Filter(exchanges, IsStamped) && exchanges[j] in Todo(exchanges);
    var k :| 0 <= k < |Todo(exchanges)| && Todo(exchanges)[k] == exchanges[j];
    ReplySits(Entries(CallsOf(rows, |rows|)), exchanges, k, |CallsOf(rows, r)|);
  }

  function AtLeastOne(n: nat): nat { if n == 0 then 1 else n }

  /** The task, an instruction the user adds, and only then the operator's first call. */
  function Prompted<C>(c: C): seq<Message<C>> { [User, User, Assistant(Some([c]), "")] }

  /** The instruction came before the call, and is stamped after it. */
  lemma EarlyReplyIsLate<C>(c: C)
    ensures var exchanges := ExchangesOf(Prompted(c), [Reply("go on", true)], 3);
      StampAll(Entries(CallsOf(Prompted(c), 3)), Todo(exchanges)) == [Own(c), Stamped(Exchange(0, "", "go on", true))]
  {
    var rows, replies, e := Prompted(c), [Reply("go on", true)], Exchange(0, "", "go on", true);
    assert UsersBefore(rows, 0) == 0 && LastProse(rows, 0) == "" && ExchangesOf(rows, replies, 0) == [];
    assert CallsOf(rows, 0) == [] && CallsOf(rows, 1) == [] && CallsOf(rows, 2) == [] && CallsOf(rows, 3) == [c];
    assert LastProse(rows, 1) == "" && UsersBefore(rows, 1) == 1;
    assert ExchangesOf(rows, replies, 1) == [];
    assert ExchangesOf(rows, replies, 2) == [e];
    assert ExchangesOf(rows, replies, 3) == [e];
    assert [e][1..] == [] && Filter([e], IsStamped) == [e];
    assert Sort([], HigherFirst) == [] && Sort([e], HigherFirst) == [e];
    var calls := Entries(CallsOf(rows, 3));
    assert calls == [Own(c)] && InsertAt(calls, 1, Stamped(e)) == [Own(c), Stamped(e)];
    assert StampAll([Own(c), Stamped(e)], []) == [Own(c), Stamped(e)];
  }

  // ---- the Claude transcript ----

  /** A line of the transcript: an assistant's, with its tool uses; a prompt; anything else. */
  datatype Line<C> = Said(uses: seq<C>, prose: string, sidechain: bool) | Prompt | Aside

  /** A transcript read as messages, sidechains included (the default) or not. */
  function AsMessages<C>(lines: seq<Line<C>>, sidechains: bool): (rows: seq<Message<C>>)
    ensures |rows| == |lines|
  {
    if lines == [] then []
    else
      var m := match lines[0]
        case Said(uses, prose, side) => if side && !sidechains then Other else Assistant(Some(uses), prose)
        case Prompt => User
        case Aside => Other;
      [m] + AsMessages(lines[1..], sidechains)
  }

  lemma {:induction false} MessageAt<C>(lines: seq<Line<C>>, sidechains: bool, i: nat)
    requires i < |lines|
    ensures AsMessages(lines, sidechains)[i] == match lines[i]
      case Said(uses, prose, side) => if side && !sidechains then Other else Assistant(Some(uses), prose)
      case Prompt => User
      case Aside => Other
  {
    if i > 0 {
      MessageAt(lines[1..], sidechains, i - 1);
    }
  }

  lemma SizeNext<C>(rows: seq<Message<C>>, n: nat)
    requires n < |rows|
    ensures |CallsOf(rows, 0)| == 0 && |CallsOf(rows, n + 1)| == |CallsOf(rows, n)| + |CallsIn(rows[n])|
  {
  }

  /** A line counts alike unless it is a sidechain's that is skipped, and uses a tool. */
  lemma LineCounts<C>(lines: seq<Line<C>>, sidechains: bool, n: nat)
    requires n < |lines|
    ensures var kept, all := CallsIn(AsMessages(lines, sidechains)[n]), CallsIn(AsMessages(lines, true)[n]);
      |kept| == |all| <==> sidechains || (lines[n].Said? && lines[n].sidechain ==> lines[n].uses == [])
  {
    MessageAt(lines, sidechains, n);
    MessageAt(lines, true, n);
  }

  /** The exchanges' reader counts every tool use; the trace's reader skips sidechains when told to. The two
      counts agree at every line exactly when sidechains are included or none uses a tool. */
  lemma {:induction false} CountsAgree<C>(lines: seq<Line<C>>, sidechains: bool, n: nat)
    requires n <= |lines|
    ensures (forall i :: 0 <= i <= n ==>
      |CallsOf(AsMessages(lines, sidechains), i)| == |CallsOf(AsMessages(lines, true), i)|)
        <==> sidechains || forall i :: 0 <= i < n && lines[i].Said? && lines[i].sidechain ==> lines[i].uses == []
  {
    hide CallsOf, CallsIn, AsMessages;
    if n > 0 {
      CountsAgree(lines, sidechains, n - 1);
      SizeNext(AsMessages(lines, sidechains), n - 1);
      SizeNext(AsMessages(lines, true), n - 1);
      LineCounts(lines, sidechains, n - 1);
    } else {
      NoCalls(AsMessages(lines, sidechains));
      NoCalls(AsMessages(lines, true));
    }
  }

  lemma NoCalls<C>(rows: seq<Message<C>>)
    ensures CallsOf(rows, 0) == []
  {
  }

  /** A transcript whose only tool use is a subagent's: read without sidechains, the two readers disagree. */
  lemma SidechainMiscounts<C>(c: C)
    ensures var lines := [Said([c], "", true)];
      CallsOf(AsMessages(lines, false), 1) == [] && CallsOf(AsMessages(lines, true), 1) == [c]
  {
    var lines := [Said([c], "", true)];
    MessageAt(lines, false, 0);
    MessageAt(lines, true, 0);
    assert CallsOf(AsMessages(lines, true), 0) == [] && CallsOf(AsMessages(lines, false), 0) == [];
  }
}
