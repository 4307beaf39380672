/** `invariants._voided_by_rejection` and the starts a stop must release. Read forward from a start, the
    first answer about a block decides; a decided verdict never changes as the run goes on. */
module Rejection {
  import opened ToolCalls

  datatype Verdict = Passed | Voided | Billed

  /** What call `j` says about the start at `k`: `Passed` when it decides nothing. */
  function Says(t: Trace, k: nat, j: nat): Verdict
    requires k < j < |t|
  {
    var c := t[j];
    var same := AskedTerms(t, j) == AskedTerms(t, k);
    if RejectedAnswer(c) then (if same then Voided else Billed)
    else if IsStop(c) || Rebinds(c) then Billed
    else if IsEnsure(c) then (if Status(c) == "provisioning" && same then Passed else Billed)
    else if AboutBlock(c) then (if Phase(c) == "cold_start" then Passed else Billed)
    else Passed
  }

  /** The verdict of the calls from `j` on. */
  function VerdictFrom(t: Trace, k: nat, j: nat): Verdict
    requires k < j <= |t|
    decreases |t| - j
  {
    if j == |t| then Passed
    else if Says(t, k, j) != Passed then Says(t, k, j)
    else VerdictFrom(t, k, j + 1)
  }

  /** The block the start at `k` asked for was never created. */
  predicate IsVoided(t: Trace, k: nat)
    requires k < |t|
  {
    Status(t[k]) == "provisioning" && VerdictFrom(t, k, k + 1) == Voided
  }

  method VoidedByRejection(t: Trace, k: nat) returns (voided: bool)
    requires k < |t|
    ensures voided == IsVoided(t, k)
  {
    if Status(t[k]) != "provisioning" {
      return false;
    }
    var terms := ComputeAskedTerms(t, k);
    for j := k + 1 to |t|
      invariant VerdictFrom(t, k, k + 1) == VerdictFrom(t, k, j)
    {
      var c := t[j];
      if RejectedAnswer(c) {
        var now := ComputeAskedTerms(t, j);
        return now == terms;
      }
      if IsStop(c) || Rebinds(c) {
        return false;
      }
      var pending;
      if IsEnsure(c) {
        var now := ComputeAskedTerms(t, j);
        pending := Status(c) == "provisioning" && now == terms;
      } else if AboutBlock(c) {
        pending := Phase(c) == "cold_start";
      } else {
        continue;
      }
      if !pending {
        return false;
      }
    }
    return false;
  }

  /** Call `i` is the first from `j` on that says anything. */
  ghost predicate FirstSay(t: Trace, k: nat, j: nat, i: nat)
    requires k < j
  {
    j <= i < |t| && Says(t, k, i) != Passed && forall h :: j <= h < i ==> Says(t, k, h) == Passed
  }

  /** A verdict is that of the first call that says anything. */
  lemma {:induction false} FirstSayDecides(t: Trace, k: nat, j: nat)
    requires k < j <= |t|
    ensures VerdictFrom(t, k, j) == Passed <==> forall i :: j <= i < |t| ==> Says(t, k, i) == Passed
    ensures VerdictFrom(t, k, j) != Passed ==>
      exists i: nat :: FirstSay(t, k, j, i) && Says(t, k, i) == VerdictFrom(t, k, j)
    decreases |t| - j
  {
    hide Says;
    if j < |t| {
      if Says(t, k, j) == Passed {
        FirstSayDecides(t, k, j + 1);
        if VerdictFrom(t, k, j + 1) != Passed {
          var i: nat :| FirstSay(t, k, j + 1, i) && Says(t, k, i) == VerdictFrom(t, k, j + 1);
          assert FirstSay(t, k, j, i);
        }
      } else {
        assert FirstSay(t, k, j, j);
      }
    }
  }

  /** Answer `j` refuses the very terms of the start at `k`. */
  predicate Refuses(t: Trace, k: nat, j: nat)
    requires k < j < |t|
  {
    RejectedAnswer(t[j]) && AskedTerms(t, j) == AskedTerms(t, k)
  }

  /** Call `j` leaves open what became of the start at `k`: no refusal, stop or re-binding connect, no compute
      request but one still provisioning on the same terms, and no other answer about the block but that the
      pilot is starting. */
  ghost predicate LeavesOpen(t: Trace, k: nat, j: nat)
    requires k < j < |t|
  {
    var c := t[j];
    && !RejectedAnswer(c) && c.name !in {"stop_endpoint", "teardown_endpoint"} && !Rebinds(c)
    && (c.name == "ensure_endpoint_up" && IsCompute(c) ==>
          Status(c) == "provisioning" && AskedTerms(t, j) == AskedTerms(t, k))
    && (c.name == "poll_task" || (c.name in {"run_shell", "reset_session"} && IsCompute(c)) ==>
      Phase(c) == "cold_start")
  }

  lemma OpenSaysNothing(t: Trace, k: nat, j: nat)
    requires k < j < |t|
    ensures LeavesOpen(t, k, j) <==> Says(t, k, j) == Passed
    ensures Refuses(t, k, j) <==> Says(t, k, j) == Voided
  {
    hide AskedTerms, RejectedAnswer, Rebinds, Status, Phase;
  }

  /** Call `j` refuses the very terms of the start at `k`, and what came between leaves it open. */
  ghost predicate RefusedFirst(t: Trace, k: nat, j: nat)
    requires k < |t|
  {
    k < j < |t| && Refuses(t, k, j) && forall h :: k < h < j ==> LeavesOpen(t, k, h)
  }

  /** A start is voided exactly when the first later call that does not leave it open refuses its very terms. */
  lemma VoidedMeans(t: Trace, k: nat)
    requires k < |t|
    ensures IsVoided(t, k) <==> Status(t[k]) == "provisioning" && exists j: nat :: RefusedFirst(t, k, j)
  {
    hide Says, Refuses, LeavesOpen;
    FirstSayDecides(t, k, k + 1);
    forall h | k < h < |t|
      ensures (LeavesOpen(t, k, h) <==> Says(t, k, h) == Passed) && (Refuses(t, k, h) <==> Says(t, k, h) == Voided)
    {
      OpenSaysNothing(t, k, h);
    }
    if VerdictFrom(t, k, k + 1) == Voided {
      var i: nat :| FirstSay(t, k, k + 1, i) && Says(t, k, i) == VerdictFrom(t, k, k + 1);
      assert RefusedFirst(t, k, i);
    }
    if j: nat :| RefusedFirst(t, k, j) {
      assert FirstSay(t, k, k + 1, j) && VerdictFrom(t, k, k + 1) != Passed;
      var i: nat :| FirstSay(t, k, k + 1, i) && Says(t, k, i) == VerdictFrom(t, k, k + 1);
      FirstIsUnique(t, k, i, j);
    }
  }

  lemma FirstIsUnique(t: Trace, k: nat, i: nat, j: nat)
    requires FirstSay(t, k, k + 1, i) && FirstSay(t, k, k + 1, j)
    ensures i == j
  {
  }

  lemma SaysOfPrefix(t: Trace, more: Trace, k: nat, j: nat)
    requires k < j < |t| && t <= more
    ensures Says(more, k, j) == Says(t, k, j)
  {
    hide TermAt, RejectedAnswer, IsStop, Rebinds, IsEnsure, AboutBlock, Status, Phase;
    TermOfPrefix(t, more, j + 1, Partition);
    TermOfPrefix(t, more, j + 1, Account);
    TermOfPrefix(t, more, k + 1, Partition);
    TermOfPrefix(t, more, k + 1, Account);
  }

  /** Once an answer decides, no extension of the trace changes the verdict. */
  lemma {:induction false} VerdictIsStable(t: Trace, more: Trace, k: nat, j: nat)
    requires k < j <= |t| && t <= more
    requires VerdictFrom(t, k, j) != Passed
    ensures VerdictFrom(more, k, j) == VerdictFrom(t, k, j)
    decreases |t| - j
  {
    SaysOfPrefix(t, more, k, j);
    if Says(t, k, j) == Passed {
      VerdictIsStable(t, more, k, j + 1);
    }
  }

  // ---- the starts a stop must release ----

  /** A confirmed compute start that requested a block (a missing answer counts). */
  predicate EnsureStarts(c: Call) {
    && IsEnsure(c) && c.confirmsSpend && !RejectedByUser(c)
    && (c.result.None? || Status(c) !in {"down", "needs_confirmation", "needs_account"})
  }

  /** A confirmed batch that its answer does not say started nothing. */
  predicate BatchStarts(c: Call) {
    && c.name == "run_batch" && IsCompute(c) && c.confirmsSpend && !RejectedByUser(c)
    && (c.result.Some? ==>
          && !c.result.value.isError && Phase(c) !in {"needs_confirmation", "needs_account", "refused"}
          && (Phase(c) == "needs_sizing" ==> c.result.value.block))
  }

  predicate IsBilledStart(c: Call) { EnsureStarts(c) || BatchStarts(c) }

  /** A billed start is a confirmed compute request the user did not interrupt: one to bring the endpoint up, but for
      the answers that say it is down or ask something; or a batch, but for an error, a question, a refusal, or sizing
      that started no block. No answer counts as a start. */
  lemma BilledStartIs(c: Call)
    ensures IsBilledStart(c)
      <==> && c.confirmsSpend && !RejectedByUser(c) && c.shape in {"", "compute"}
           && match c.name
              case "ensure_endpoint_up" => Status(c) !in {"down", "needs_confirmation", "needs_account"}
              case "run_batch" =>
                c.result.Some? ==>
                  && !c.result.value.isError
                  && (c.result.value.block || Phase(c) != "needs_sizing")
                  && Phase(c) !in {"needs_confirmation", "needs_account", "refused"}
              case _ => false
  {
    hide RejectedByUser;
  }

  predicate ToRelease(t: Trace, k: nat)
    requires k < |t|
  {
    IsBilledStart(t[k]) && !IsVoided(t, k)
  }

  method StartsToRelease(t: Trace) returns (starts: seq<nat>)
    ensures forall k: nat :: k in starts <==> k < |t| && ToRelease(t, k)
    ensures forall i, j :: 0 <= i < j < |starts| ==> starts[i] < starts[j]
  {
    hide IsVoided, EnsureStarts, BatchStarts;
    starts := [];
    for k := 0 to |t|
      invariant forall i: nat :: i in starts <==> i < k && ToRelease(t, i)
      invariant forall i, j :: 0 <= i < j < |starts| ==> starts[i] < starts[j]
    {
      if IsBilledStart(t[k]) {
        var voided := VoidedByRejection(t, k);
        if !voided {
          assert forall i | 0 <= i < |starts| :: starts[i] in starts;
          starts := starts + [k];
        }
      }
    }
  }

  /** As the run goes on, a start already in the trace can only leave the list; and it leaves exactly when
      nothing had decided on it yet and a later answer refuses its terms. */
  lemma ReleaseOnlyShrinks(t: Trace, more: Trace, k: nat)
    requires k < |t| && t <= more
    ensures ToRelease(more, k) ==> ToRelease(t, k)
    ensures ToRelease(t, k) && !ToRelease(more, k) <==>
      IsBilledStart(t[k]) && VerdictFrom(t, k, k + 1) == Passed && IsVoided(more, k)
  {
    hide Says, IsBilledStart;
    if VerdictFrom(t, k, k + 1) != Passed {
      VerdictIsStable(t, more, k, k + 1);
    }
  }
}
