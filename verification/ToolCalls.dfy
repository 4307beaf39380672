/** What the graders of `invariants.py` read of a tool call, and the readings they share. A string field
    is empty when the source's value is missing (or falsy, where it reads `x or y`). */
module ToolCalls {
  import opened Common

  /** A call's answer. `refusedArguments`: its words say a connect refused its own arguments before any
      SSH and started nothing (a test of the notice's opening and closing words, given here). */
  datatype Answer = Answer(status: string, phase: string, notice: string, text: string, isError: bool,
                           block: bool, endpointId: string, refusedArguments: bool)

  datatype Call = Call(name: string, shape: string, partition: string, account: string, details: bool,
                       confirmsSpend: bool, result: Option<Answer>)

  type Trace = seq<Call>

  predicate OccursAt(s: string, t: string, i: nat) { i + |t| <= |s| && s[i..i + |t|] == t }

  predicate Contains(s: string, t: string) { exists i: nat :: i <= |s| && OccursAt(s, t, i) }

  function Status(c: Call): string { if c.result.Some? then c.result.value.status else "" }

  function Phase(c: Call): string { if c.result.Some? then c.result.value.phase else "" }

  function Notice(c: Call): string { if c.result.Some? then c.result.value.notice else "" }

  /** An omitted shape is the billed one. */
  predicate IsCompute(c: Call) { c.shape == "" || c.shape == "compute" }

  predicate IsEnsure(c: Call) { c.name == "ensure_endpoint_up" && IsCompute(c) }

  predicate IsStop(c: Call) { c.name == "stop_endpoint" || c.name == "teardown_endpoint" }

  /** The user interrupted the call: the tool never ran. */
  predicate RejectedByUser(c: Call) {
    c.result.Some? && Contains(c.result.value.text, "The user doesn't want to proceed with this tool use")
  }

  /** A connect that is not a no-op answer: it re-binds, and the server forgets the terms. */
  predicate Rebinds(c: Call) {
    c.name == "connect_facility"
    && !(c.result.Some? && c.result.value.endpointId == "" && c.result.value.phase == "failed"
      && c.result.value.refusedArguments)
  }

  /** The scheduler refused a block's submission, on the call that met it. */
  predicate RejectedAnswer(c: Call) {
    && (IsEnsure(c) || (c.name in {"run_shell", "reset_session"} && IsCompute(c)))
    && (if Status(c) != "" then Status(c) else Phase(c)) in {"down", "failed"}
    && Contains(Notice(c), "REJECTED") && Contains(Notice(c), "bills nothing")
  }

  /** A call whose answer reports on the compute block. */
  predicate AboutBlock(c: Call) {
    c.name == "poll_task" || IsEnsure(c) || (c.name in {"run_shell", "reset_session"} && IsCompute(c))
  }

  // ---- the terms a block was asked on ----

  datatype Term = Partition | Account

  /** What a call names for a term; empty when it names none. */
  function Given(c: Call, f: Term): string { if f.Partition? then c.partition else c.account }

  /** A term after one more call. */
  function NextTerm(c: Call, f: Term, was: string): string {
    if Rebinds(c) then ""
    else if IsEnsure(c) && Given(c, f) != "" then Given(c, f)
    else was
  }

  /** A term after the first `n` calls: the running fold. */
  function TermAt(t: Trace, n: nat, f: Term): string
    requires n <= |t|
  {
    if n == 0 then "" else NextTerm(t[n - 1], f, TermAt(t, n - 1, f))
  }

  datatype Terms = Terms(partition: string, account: string)

  /** The terms a block requested at call `i` went out on. */
  function AskedTerms(t: Trace, i: nat): Terms
    requires i < |t|
  {
    Terms(TermAt(t, i + 1, Partition), TermAt(t, i + 1, Account))
  }

  method ComputeAskedTerms(t: Trace, i: nat) returns (terms: Terms)
    requires i < |t|
    ensures terms == AskedTerms(t, i)
  {
    var partition, account := "", "";
    for k := 0 to i + 1
      invariant partition == TermAt(t, k, Partition) && account == TermAt(t, k, Account)
    {
      var c := t[k];
      if Rebinds(c) {
        partition, account := "", "";
      } else if IsEnsure(c) {
        partition := if c.partition != "" then c.partition else partition;
        account := if c.account != "" then c.account else account;
      }
    }
    terms := Terms(partition, account);
  }

  ghost predicate Names(t: Trace, j: nat, f: Term)
    requires j < |t|
  {
    IsEnsure(t[j]) && !Rebinds(t[j]) && Given(t[j], f) != ""
  }

  /** Call `j` is the last to name the term before call `n`, and no re-binding connect came since. */
  ghost predicate NamesLast(t: Trace, n: nat, f: Term, j: nat)
    requires n <= |t|
  {
    j < n && Names(t, j, f) && forall i: nat :: j < i < n ==> !Rebinds(t[i]) && !Names(t, i, f)
  }

  /** The term is the last one a compute request named since the last re-binding connect, and empty when
      none was named since. */
  lemma {:induction false} TermIsLastNamed(t: Trace, n: nat, f: Term)
    requires n <= |t|
    ensures TermAt(t, n, f) != "" ==> exists j: nat :: NamesLast(t, n, f, j) && TermAt(t, n, f) == Given(t[j], f)
    ensures TermAt(t, n, f) == "" ==>
      forall j: nat :: j < n && Names(t, j, f) ==> exists i: nat :: j < i < n && Rebinds(t[i])
  {
    if n > 0 {
      TermIsLastNamed(t, n - 1, f);
      if Names(t, n - 1, f) {
        assert NamesLast(t, n, f, n - 1);
      } else if !Rebinds(t[n - 1]) && TermAt(t, n - 1, f) != "" {
        var j: nat :| NamesLast(t, n - 1, f, j) && TermAt(t, n - 1, f) == Given(t[j], f);
        assert NamesLast(t, n, f, j);
      }
    }
  }

  /** The terms at a call do not depend on what follows it. */
  lemma {:induction false} TermOfPrefix(t: Trace, more: Trace, n: nat, f: Term)
    requires n <= |t| && t <= more
    ensures TermAt(more, n, f) == TermAt(t, n, f)
  {
    if n > 0 {
      TermOfPrefix(t, more, n - 1, f);
    }
  }
}
