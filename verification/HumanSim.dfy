/** The simulated user as the source keeps it, an object whose methods update its counters and append to its
    dialogue; the responder that records the replies it sends; and the bounded session that drives both. */
module HumanSim {
  import opened Common
  import opened SimPolicy

  class HumanSim {
    const rd: Readings
    const player: Player
    var dialogue: seq<Exchange>
    var answers: nat
    var nudges: nat
    var followupsCapped: bool
    var nudgesCapped: bool
    var codeRequests: nat
    var scriptedAnswers: nat
    var codeGiven: bool

    function State(): Sim
      reads this
    {
      Sim(dialogue, answers, nudges, followupsCapped, nudgesCapped, codeRequests, scriptedAnswers, codeGiven)
    }

    constructor (rd: Readings, player: Player)
      ensures this.rd == rd && this.player == player && State() == NEW_SIM && Valid(rd, State())
    {
      this.rd, this.player := rd, player;
      dialogue, answers, nudges, followupsCapped, nudgesCapped := [], 0, 0, false, false;
      codeRequests, scriptedAnswers, codeGiven := 0, 0, false;
      new;
      NewIsValid(rd);
    }

    /** The script's answer to a one-time-code request, if it has one. */
    method ScriptedCodeReply(asked: string, question: bool, code: Code, stale: Code) returns (reply: Option<string>)
      modifies this
      ensures (reply, State()) == ScriptedReply(rd, player, old(State()), asked, question, code, stale)
    {
      hide StageReply;
      if !IsScripted(player) || !rd.asksForCode(asked, question) {
        return None;
      }
      if codeRequests >= MAX_SCRIPTED_CODE_ANSWERS {
        return None;
      }
      if codeGiven && !rd.codeRejected(asked) {
        return None;
      }
      codeRequests := codeRequests + 1;
      reply := Some(StageReply(player, codeRequests, code, stale));
      if GivesCode(player, codeRequests) {
        codeGiven := true;
      }
    }

    /** A menu call: one exchange, answered by the script at most once, otherwise by the model. */
    method Answer(questions: seq<string>, model: map<string, string>, code: Code, stale: Code)
      returns (given: map<string, string>)
      requires Valid(rd, State())
      modifies this
      ensures (given, State()) == Answered(rd, player, old(State()), questions, model, code, stale)
      ensures Valid(rd, State())
    {
      ghost var was := State();
      var scripted: map<string, string> := map[];
      for k := 0 to |questions|
        invariant dialogue == was.dialogue
        invariant ScriptedMenu(rd, player, was, questions, code, stale)
          == if scripted != map[] then (scripted, State())
            else ScriptedMenu(rd, player, State(), questions[k..], code, stale)
      {
        if scripted == map[] {
          assert questions[k..][0] == questions[k] && questions[k..][1..] == questions[k + 1..];
          var said := ScriptedCodeReply(questions[k], true, code, stale);
          if said.Some? {
            scripted := map[questions[k] := said.value];
            assert questions[k] in scripted;
          }
        }
      }
      var both := model + scripted;
      given := map q | q in both && q in questions :: both[q];
      dialogue := dialogue + [Exchange(questions, given, Menu, scripted != map[])];
      AnsweredKeeps(rd, player, was, questions, model, code, stale);
    }

    /** Read backwards, the first exchange that says anything about spending. */
    method StandingDecline() returns (stands: bool)
      ensures stands == Standing(rd, dialogue)
    {
      var k := |dialogue|;
      assert dialogue[..k] == dialogue;
      while k > 0
        invariant 0 <= k <= |dialogue|
        invariant Standing(rd, dialogue) == Standing(rd, dialogue[..k])
      {
        k := k - 1;
        assert dialogue[..k + 1][..k] == dialogue[..k];
        var says := Reads(rd, dialogue[k]);
        if says.Some? {
          return says.value;
        }
      }
      return false;
    }

    /** The guards, and the exchange recorded. */
    method Settle(move: Move, said: string, scripted: bool) returns (final: Move)
      modifies this
      ensures (State(), final) == Settled(rd, old(State()), move, said, scripted)
    {
      hide Standing;
      var q := [Tail(said, 500)];
      final := move;
      var declined := StandingDecline();
      if move.action == Nudge && declined {
        final := CONCLUDED;
      } else if move.action == Nudge && nudges >= MAX_NUDGES {
        nudgesCapped, final := true, CONCLUDED;
      } else if move.action == Reply && !scripted && answers - scriptedAnswers >= MAX_PROSE_FOLLOWUPS {
        followupsCapped, final := true, CONCLUDED;
      }
      match final.action
      case Nudge =>
        nudges := nudges + 1;
        dialogue := dialogue + [Exchange(q, map["reply" := final.reply], Nudged, false)];
      case Reply =>
        answers := answers + 1;
        scriptedAnswers := scriptedAnswers + if scripted then 1 else 0;
        dialogue := dialogue + [Exchange(q, map["reply" := final.reply], final.kind, scripted)];
      case Conclude =>
        dialogue := dialogue + [Exchange(q, map[], Ended, false)];
    }

    /** What the user does after an operator turn. */
    method Next(text: string, parsed: Option<Parsed>, code: Code, stale: Code) returns (move: Move)
      requires Valid(rd, State())
      modifies this
      ensures (State(), move) == Moved(rd, player, old(State()), Tail(text, 2500), parsed, code, stale)
      ensures Valid(rd, State()) && Proper(move)
      ensures Left(State()) == Left(old(State())) - (if move.action == Conclude then 0 else 1)
      // a refusal to spend that is sent stands
      ensures !ScriptAnswers(rd, player, old(State()), Tail(text, 2500), false) && move.action == Reply
        && parsed.Some? && parsed.value.action == "reply" && parsed.value.reply != "" && parsed.value.kind == "decline"
        ==> Standing(rd, dialogue)
    {
      var said := Tail(text, 2500);
      MovedKeeps(rd, player, State(), said, parsed, code, stale);
      if !ScriptAnswers(rd, player, State(), said, false) && parsed.Some? && parsed.value.action == "reply"
        && parsed.value.reply != "" && parsed.value.kind == "decline" {
        ReplyIsRecorded(rd, player, State(), said, parsed.value, code, stale);
      }
      hide Settled;
      var scripted := ScriptedCodeReply(said, false, code, stale);
      if scripted.Some? {
        move := Settle(Move(Reply, scripted.value, SimPolicy.Answer), said, true);
      } else {
        move := Settle(ParseMove(parsed), said, false);
      }
    }
  }

  // ---- the session ----

  /** What the world does in one prompt turn: the menus the operator puts to the user on the way (with the
      model's answers), its closing prose, the model's move after it, and what the authenticator shows. */
  datatype Turn = Turn(menus: seq<(seq<string>, map<string, string>)>, text: string, parsed: Option<Parsed>,
    code: Code, stale: Code)

  /** A message sent to the operator. */
  datatype Sent = Sent(answer: string, kind: Kind)

  /** The messages a dialogue records as sent in prose, in order. */
  function SentIn(dialogue: seq<Exchange>): seq<Sent> {
    if dialogue == [] then []
    else
      var x := dialogue[|dialogue| - 1];
      if (IsReply(x) || IsNudge(x)) && "reply" in x.answers
      then SentIn(dialogue[..|dialogue| - 1]) + [Sent(x.answers["reply"], x.kind)]
      else SentIn(dialogue[..|dialogue| - 1])
  }

  lemma SentNext(dialogue: seq<Exchange>, x: Exchange)
    ensures SentIn(dialogue + [x]) ==
      if (IsReply(x) || IsNudge(x)) && "reply" in x.answers then SentIn(dialogue) + [Sent(x.answers["reply"], x.kind)]
      else SentIn(dialogue)
  {
    assert (dialogue + [x])[..|dialogue|] == dialogue;
  }

  /** What the messages become with a move. */
  function WithMove(sent: seq<Sent>, move: Move): seq<Sent> {
    if move.action == Conclude then sent else sent + [Sent(move.reply, move.kind)]
  }

  lemma RecordedSends(sim: Sim, move: Move, said: string, scripted: bool)
    requires Proper(move)
    ensures SentIn(Recorded(sim, move, said, scripted).dialogue) == WithMove(SentIn(sim.dialogue), move)
  {
    hide Tail, SentIn;
    var q := [Tail(said, 500)];
    match move.action
    case Nudge => SentNext(sim.dialogue, Exchange(q, map["reply" := move.reply], Nudged, false));
    case Reply => SentNext(sim.dialogue, Exchange(q, map["reply" := move.reply], move.kind, scripted));
    case Conclude => SentNext(sim.dialogue, Exchange(q, map[], Ended, false));
  }

  lemma SettledSends(rd: Readings, sim: Sim, move: Move, said: string, scripted: bool)
    requires Proper(move)
    ensures var (next, final) := Settled(rd, sim, move, said, scripted);
      SentIn(next.dialogue) == WithMove(SentIn(sim.dialogue), final)
  {
    hide Standing, Recorded, SentIn;
    var (guarded, final) := Guarded(rd, sim, move, scripted);
    RecordedSends(guarded, final, said, scripted);
  }

  /** A turn records the message it sends, and nothing when it concludes. */
  lemma MoveIsSent(rd: Readings, p: Player, sim: Sim, said: string, parsed: Option<Parsed>, code: Code, stale: Code)
    requires Valid(rd, sim)
    ensures var (next, move) := Moved(rd, p, sim, said, parsed, code, stale);
      SentIn(next.dialogue) == WithMove(SentIn(sim.dialogue), move)
  {
    hide Settled, SentIn, Valid, Proper;
    ParsedIsProper(parsed);
    ScriptKeeps(rd, p, sim, said, code, stale);
    var (scripted, next) := ScriptedReply(rd, p, sim, said, false, code, stale);
    assert next.dialogue == sim.dialogue;
    if scripted.Some? {
      SettledSends(rd, next, Move(Reply, scripted.value, SimPolicy.Answer), said, true);
    } else {
      SettledSends(rd, next, ParseMove(parsed), said, false);
    }
  }

  /** One prompt turn: the menus on the way, then the user's move. */
  method TakeTurn(sim: HumanSim, t: Turn) returns (move: Move)
    requires Valid(sim.rd, sim.State())
    modifies sim
    ensures Valid(sim.rd, sim.State())
    ensures Left(sim.State()) == Left(old(sim.State())) - (if move.action == Conclude then 0 else 1) >= 0
    ensures SentIn(sim.dialogue) == WithMove(SentIn(old(sim.dialogue)), move)
  {
    hide Moved, SentIn;
    Menus(sim, t);
    MoveIsSent(sim.rd, sim.player, sim.State(), Tail(t.text, 2500), t.parsed, t.code, t.stale);
    move := sim.Next(t.text, t.parsed, t.code, t.stale);
    LeftIsNat(sim.rd, sim.State());
  }

  /** The session: up to `maxTurns` prompts, each answered by the simulated user, until it concludes. `prompts`
      are the messages the operator got, `replies` what the responder recorded. */
  method RunSession(sim: HumanSim, task: string, turns: nat -> Turn, maxTurns: int)
    returns (prompts: seq<string>, replies: seq<Sent>, concluded: bool)
    requires Valid(sim.rd, sim.State()) && sim.State().dialogue == []
    modifies sim
    ensures Valid(sim.rd, sim.State())
    // every message sent is recorded, in order, and was the next prompt
    ensures replies == SentIn(sim.dialogue)
    ensures |prompts| >= 1 && prompts[0] == task && |prompts| <= |replies| + 1
    ensures forall k :: 1 <= k < |prompts| ==> prompts[k] == replies[k - 1].answer
    // the session ends by concluding, well before the bound, or the bound was hit
    ensures concluded ==> |prompts| == |replies| + 1
    ensures |replies| <= Left(old(sim.State()))
    ensures maxTurns > Left(old(sim.State())) ==> concluded
  {
    hide Valid, Left, SentIn;
    EmptySession(sim.rd, sim.State());
    prompts, replies, concluded := [task], [], false;
    var bound := if maxTurns < 1 then 1 else maxTurns;
    var next := task;
    for turn := 0 to bound
      invariant Valid(sim.rd, sim.State()) && !concluded
      invariant replies == SentIn(sim.dialogue) && |replies| == turn
      invariant |prompts| == (if turn == 0 then 1 else turn)
      invariant Left(sim.State()) == Left(old(sim.State())) - turn >= 0
      invariant next == (if turn == 0 then task else replies[turn - 1].answer)
      invariant prompts[0] == task && forall k :: 1 <= k < |prompts| ==> prompts[k] == replies[k - 1].answer
    {
      if turn > 0 {
        prompts := prompts + [next];
      }
      var move := TakeTurn(sim, turns(turn));
      if move.action == Conclude {
        concluded := true;
        return;
      }
      replies := replies + [Sent(move.reply, move.kind)];
      next := move.reply;
    }
  }

  lemma EmptySession(rd: Readings, sim: Sim)
    requires Valid(rd, sim) && sim.dialogue == []
    ensures SentIn(sim.dialogue) == [] && Left(sim) >= 0
  {
  }

  lemma LeftIsNat(rd: Readings, sim: Sim)
    requires Valid(rd, sim)
    ensures Left(sim) >= 0
  {
  }

  /** The menus of a turn spend no budget and send no prose. */
  method Menus(sim: HumanSim, t: Turn)
    requires Valid(sim.rd, sim.State())
    modifies sim
    ensures Valid(sim.rd, sim.State())
    ensures Left(sim.State()) == Left(old(sim.State())) && SentIn(sim.dialogue) == SentIn(old(sim.dialogue))
  {
    for m := 0 to |t.menus|
      invariant Valid(sim.rd, sim.State())
      invariant Left(sim.State()) == Left(old(sim.State())) && SentIn(sim.dialogue) == SentIn(old(sim.dialogue))
    {
      ghost var was := sim.State();
      ScriptedMenuKeeps(sim.rd, sim.player, was, t.menus[m].0, t.code, t.stale);
      var given := sim.Answer(t.menus[m].0, t.menus[m].1, t.code, t.stale);
      SentNext(was.dialogue, sim.dialogue[|was.dialogue|]);
    }
  }

  /** A fresh session at the source's bound: at most ten replies and eleven prompts, and it always concludes. */
  method RunAcp(rd: Readings, player: Player, task: string, turns: nat -> Turn)
    returns (prompts: seq<string>, replies: seq<Sent>, concluded: bool)
    ensures concluded && |prompts| == |replies| + 1 && |prompts| <= ACP_MAX_TURNS
    ensures prompts[0] == task && forall k :: 1 <= k < |prompts| ==> prompts[k] == replies[k - 1].answer
  {
    var sim := new HumanSim(rd, player);
    prompts, replies, concluded := RunSession(sim, task, turns, ACP_MAX_TURNS);
  }
}
