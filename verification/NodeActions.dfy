/** `node_actions.py`: a script in the jail asks, over two log files, for a login node, a QOS or the
    accounting daemon to be taken away or given back; the host acts, answers, and remembers what to undo.
    A command's exit code is 0 exactly when it took effect; login hosts are neither the controller nor the service. */
module NodeActions {
  import opened Common

  const CONTROLLER := "slurmctld"
  const SERVICE := "slurmdbd"

  datatype Action = SshdOff | SshdClosed | SshdOn | QosRetire | QosRestore | DbdOff | DbdOn | Unknown(name: string)

  datatype Request = Request(id: nat, action: Action, host: string, arg: Option<string>)

  datatype Answer = Answer(id: nat, rc: int)

  /** The action that gives back what an action takes away. */
  function Undo(a: Action): Option<Action> {
    match a
    case SshdOff => Some(SshdOn)
    case SshdClosed => Some(SshdOn)
    case QosRetire => Some(QosRestore)
    case DbdOff => Some(DbdOn)
    case _ => None
  }

  // ---- the shape of a QOS name ----

  predicate IsLower(c: char) { 'a' <= c <= 'z' }

  predicate IsNameChar(c: char) { IsLower(c) || '0' <= c <= '9' || c == '_' }

  predicate EndsLine(s: string) { s != "" && s[|s| - 1] == '\n' }

  /** Without the newline its pattern lets through at the end. */
  function Chomped(s: string): string { if EndsLine(s) then s[..|s| - 1] else s }

  predicate IsName(s: string) {
    var name := Chomped(s);
    1 <= |name| <= 32 && IsLower(name[0]) && forall x | 1 <= x < |name| :: IsNameChar(name[x])
  }

  // ---- the world the actions change ----

  /** The login hosts that do not answer, the retired QOS names, and whether the accounting daemon is up. */
  datatype World = World(closed: set<string>, retired: set<string>, daemonUp: bool)

  const UNTOUCHED := World({}, {}, true)

  function Effect(w: World, a: Action, host: string, arg: Option<string>): World {
    match a
    case SshdOff => w.(closed := w.closed + {host})
    case SshdClosed => w.(closed := w.closed + {host})
    case SshdOn => w.(closed := w.closed - {host})
    case QosRetire => w.(retired := w.retired + if arg.Some? && !EndsLine(arg.value) then {arg.value} else {})
    case QosRestore => w.(retired := {})
    case DbdOff => w.(daemonUp := false)
    case DbdOn => w.(daemonUp := true)
    case Unknown(_) => w
  }

  // ---- the server ----

  /** The cell's login hosts, and whether it can stop and start services. */
  datatype Cell = Cell(hosts: set<string>, hasService: bool)

  ghost predicate Distinct(cell: Cell) { CONTROLLER !in cell.hosts && SERVICE !in cell.hosts }

  predicate IsService(a: Action) { a == DbdOff || a == DbdOn }

  predicate IsController(a: Action) { a == QosRetire || a == QosRestore }

  /** The server refuses (exit code 2) before it runs anything: a wrong host, action or argument. */
  predicate Refuses(cell: Cell, a: Action, host: string, arg: Option<string>) {
    if IsService(a) then host != SERVICE || !cell.hasService
    else
      || a.Unknown?
      || (if IsController(a) then host != CONTROLLER else host !in cell.hosts)
      || (a == QosRetire && !(arg.Some? && IsName(arg.value)))
  }

  /** How an attempt ends: whether a container answered to the host, and the command's own exit code. */
  datatype Outcome = Outcome(container: bool, exit: int)

  function ExitCode(cell: Cell, a: Action, host: string, arg: Option<string>, o: Outcome): int {
    if Refuses(cell, a, host, arg) then 2
    else if !IsService(a) && !o.container then 2
    else o.exit
  }

  /** A lowercase letter and at most 31 lowercase letters, digits and underscores. */
  ghost predicate IsShort(name: string) {
    && 1 <= |name| <= 32 && 'a' <= name[0] <= 'z'
    && forall x :: 1 <= x < |name| ==> 'a' <= name[x] <= 'z' || '0' <= name[x] <= '9' || name[x] == '_'
  }

  /** A QOS name is that, and (as the source's pattern has it) maybe a newline. */
  lemma NamesAreShort(s: string)
    ensures IsName(s) <==> IsShort(s) || (s != "" && s[|s| - 1] == '\n' && IsShort(s[..|s| - 1]))
  {
    if EndsLine(s) {
      assert s[|s| - 1] == '\n';
      assert !IsShort(s);
    }
  }

  /** An action takes effect exactly when it is one of the seven, on the one host it is for, with the argument it
      needs, when a container answers to the host, and when its command succeeds. */
  lemma ActionsSucceed(cell: Cell, a: Action, host: string, arg: Option<string>, o: Outcome)
    ensures ExitCode(cell, a, host, arg, o) == 0
      <==> && o.exit == 0
           && match a
              case DbdOff => host == "slurmdbd" && cell.hasService
              case DbdOn => host == "slurmdbd" && cell.hasService
              case QosRetire => host == "slurmctld" && o.container && arg.Some? && IsName(arg.value)
              case QosRestore => host == "slurmctld" && o.container
              case Unknown(_) => false
              case _ => host in cell.hosts && o.container
  {
  }

  /** What is away after an action that took effect. */
  lemma EffectIs(w: World, a: Action, host: string, arg: Option<string>, x: string)
    ensures var after := Effect(w, a, host, arg);
      && (x in after.closed
          <==> if x == host && a in {SshdOff, SshdClosed, SshdOn} then a != SshdOn else x in w.closed)
      && (x in after.retired
          <==> if a == QosRetire && arg == Some(x) && !EndsLine(x) then true else x in w.retired && a != QosRestore)
      && (after.daemonUp <==> if a in {DbdOff, DbdOn} then a == DbdOn else w.daemonUp)
  {
  }

  /** What there is to undo after an action: kept when it took something away, dropped when it gave it back. */
  function Booked(pending: map<string, Action>, a: Action, host: string, rc: int): map<string, Action> {
    if rc != 0 then pending
    else if Undo(a).Some? then pending[host := Undo(a).value]
    else map h | h in pending && !(h == host && pending[h] == a) :: pending[h]
  }

  class Server {
    const cell: Cell
    var answered: set<nat>
    var pendingUndo: map<string, Action>

    constructor (cell: Cell)
      ensures this.cell == cell && answered == {} && pendingUndo == map[]
    {
      this.cell, answered, pendingUndo := cell, {}, map[];
    }

    /** One action, and what it leaves to undo. */
    method Act(a: Action, host: string, arg: Option<string>, o: Outcome, w: World) returns (rc: int, after: World)
      modifies this`pendingUndo
      ensures rc == ExitCode(cell, a, host, arg, o)
      ensures after == Acted(w, a, host, arg, rc)
      ensures pendingUndo == Booked(old(pendingUndo), a, host, rc)
    {
      after := w;
      if IsService(a) {
        if host != SERVICE || !cell.hasService {
          return 2, w;
        }
        rc := o.exit;
      } else {
        if Refuses(cell, a, host, arg) {
          return 2, w;
        }
        if !o.container {
          return 2, w;
        }
        rc := o.exit;
      }
      if rc == 0 {
        after := Effect(w, a, host, arg);
        if Undo(a).Some? {
          pendingUndo := pendingUndo[host := Undo(a).value];
        } else {
          pendingUndo := map h | h in pendingUndo && !(h == host && pendingUndo[h] == a) :: pendingUndo[h];
        }
      }
    }

    /** One pass over the request log: the requests not answered yet, in order, each number once. */
    method AnswerNew(rows: seq<Request>, outcomes: nat -> Outcome, w: World) returns (done: seq<Answer>, after: World)
      modifies this
      ensures answered == old(answered) + set r | r in rows :: r.id
      ensures Pass(done, pendingUndo, after)
        == ActAll(cell, ToDo(rows, old(answered)), outcomes, 0, old(pendingUndo), w)
    {
      hide Booked, ExitCode, Acted, ActAll, Prepended, ToDo;
      done, after := [], w;
      assert rows[0..] == rows;
      ghost var was := answered;
      ghost var whole := ActAll(cell, ToDo(rows, was), outcomes, 0, pendingUndo, w);
      PrependedNone(whole);
      for k := 0 to |rows|
        invariant answered == was + set r | r in rows[..k] :: r.id
        invariant Prepended(done, ActAll(cell, ToDo(rows[k..], answered), outcomes, |done|, pendingUndo, after))
          == whole
      {
        var row := rows[k];
        assert rows[..k + 1] == rows[..k] + [row];
        ToDoNext(rows, k, answered);
        if row.id in answered {
          continue;
        }
        answered := answered + {row.id};
        ActNext(cell, row, ToDo(rows[k + 1..], answered), outcomes, done, pendingUndo, after);
        var rc, next := Act(row.action, row.host, row.arg, outcomes(|done|), after);
        done, after := done + [Answer(row.id, rc)], next;
      }
      assert rows[..|rows|] == rows;
      ActNone(cell, rows, answered, outcomes, done, pendingUndo, after);
    }

    /** The restoring actions, in the order they were booked; one that fails stays to be undone. */
    method UndoAll(hosts: seq<string>, outcomes: nat -> Outcome, w: World) returns (after: World)
      requires Distinct(cell) && Possible(cell, w) && Covered(w, pendingUndo) && Restoring(cell, pendingUndo)
      requires forall h :: h in hosts <==> h in pendingUndo
      requires forall i, j :: 0 <= i < j < |hosts| ==> hosts[i] != hosts[j]
      modifies this`pendingUndo
      ensures Possible(cell, after) && Covered(after, pendingUndo)
      // left to undo: exactly what failed
      ensures forall h | h in pendingUndo :: h in old(pendingUndo) && pendingUndo[h] == old(pendingUndo)[h]
      ensures forall i :: 0 <= i < |hosts| ==>
        (hosts[i] in pendingUndo <==> ExitCode(cell, old(pendingUndo)[hosts[i]], hosts[i], None, outcomes(i)) != 0)
      // a fully successful undo gives everything back
      ensures (forall i :: 0 <= i < |hosts| ==>
        ExitCode(cell, old(pendingUndo)[hosts[i]], hosts[i], None, outcomes(i)) == 0) ==>
        pendingUndo == map[] && after == UNTOUCHED
    {
      hide Covered, Possible, ExitCode, Effect, Acted, Distinct, Booked, Undo, Restoring, IsName, Refuses;
      after := w;
      ghost var was := pendingUndo;
      for k := 0 to |hosts|
        invariant Possible(cell, after) && Covered(after, pendingUndo)
        invariant forall h | h in pendingUndo :: h in was && pendingUndo[h] == was[h]
        invariant forall i | k <= i < |hosts| :: hosts[i] in pendingUndo
        invariant forall i | 0 <= i < k :: (hosts[i] in pendingUndo
          <==> ExitCode(cell, was[hosts[i]], hosts[i], None, outcomes(i)) != 0)
      {
        var h := hosts[k];
        var a := pendingUndo[h];
        ActKeepsCovered(cell, after, pendingUndo, a, h, None, outcomes(k));
        RestoresOnly(cell, was, h);
        BookedRestored(pendingUndo, h, ExitCode(cell, a, h, None, outcomes(k)));
        var rc, next := Act(a, h, None, outcomes(k), after);
        after := next;
      }
      NothingLeft(after, pendingUndo);
    }
  }

  lemma RestoresOnly(cell: Cell, pending: map<string, Action>, h: string)
    requires Restoring(cell, pending) && h in pending
    ensures Undo(pending[h]).None?
  {
  }

  /** Running what gives a host back takes just that host off the list, when it succeeds. */
  lemma BookedRestored(pending: map<string, Action>, h: string, rc: int)
    requires h in pending && Undo(pending[h]).None?
    ensures Booked(pending, pending[h], h, rc) == if rc == 0 then pending - {h} else pending
  {
  }

  /** With nothing left to undo, nothing is away. */
  lemma NothingLeft(w: World, pending: map<string, Action>)
    requires Covered(w, pending)
    ensures pending == map[] <==> (forall h :: h !in pending)
    ensures pending == map[] ==> w == UNTOUCHED
  {
    if pending == map[] {
      assert w.closed == {};
    }
  }

  /** What a pass leaves: its answers, what there is to undo, and the world. */
  datatype Pass = Pass(done: seq<Answer>, pending: map<string, Action>, world: World)

  /** The requests acted on one after another, each on the world the one before it left; `from` were acted on before. */
  function ActAll(cell: Cell, todo: seq<Request>, outcomes: nat -> Outcome, from: nat, pending: map<string, Action>,
                  w: World): Pass
    decreases |todo|
  {
    if todo == [] then Pass([], pending, w)
    else
      var r := todo[0];
      var rc := ExitCode(cell, r.action, r.host, r.arg, outcomes(from));
      Prepended([Answer(r.id, rc)],
                ActAll(cell, todo[1..], outcomes, from + 1, Booked(pending, r.action, r.host, rc),
                  Acted(w, r.action, r.host, r.arg, rc)))
  }

  function Prepended(done: seq<Answer>, p: Pass): Pass { p.(done := done + p.done) }

  lemma PrependedNone(p: Pass)
    ensures Prepended([], p) == p
  {
    assert [] + p.done == p.done;
  }

  lemma ActNone(cell: Cell, rows: seq<Request>, answered: set<nat>, outcomes: nat -> Outcome, done: seq<Answer>,
                pending: map<string, Action>, w: World)
    ensures Prepended(done, ActAll(cell, ToDo(rows[|rows|..], answered), outcomes, |done|, pending, w))
      == Pass(done, pending, w)
  {
    assert rows[|rows|..] == [] && done + [] == done;
  }

  lemma ToDoNext(rows: seq<Request>, k: nat, answered: set<nat>)
    requires k < |rows|
    ensures ToDo(rows[k..], answered) ==
      if rows[k].id in answered then ToDo(rows[k + 1..], answered)
        else [rows[k]] + ToDo(rows[k + 1..], answered + {rows[k].id})
  {
    assert rows[k..][0] == rows[k] && rows[k..][1..] == rows[k + 1..];
  }

  lemma ActNext(cell: Cell, r: Request, rest: seq<Request>, outcomes: nat -> Outcome, done: seq<Answer>,
                pending: map<string, Action>, w: World)
    ensures var rc := ExitCode(cell, r.action, r.host, r.arg, outcomes(|done|));
      Prepended(done, ActAll(cell, [r] + rest, outcomes, |done|, pending, w))
      == Prepended(done + [Answer(r.id, rc)],
                   ActAll(cell, rest, outcomes, |done| + 1, Booked(pending, r.action, r.host, rc),
                     Acted(w, r.action, r.host, r.arg, rc)))
  {
    hide ExitCode, Booked, Acted;
    var rc := ExitCode(cell, r.action, r.host, r.arg, outcomes(|done|));
    assert ([r] + rest)[1..] == rest;
    var more := ActAll(cell, rest, outcomes, |done| + 1, Booked(pending, r.action, r.host, rc),
      Acted(w, r.action, r.host, r.arg, rc));
    assert done + ([Answer(r.id, rc)] + more.done) == done + [Answer(r.id, rc)] + more.done;
  }

  /** A pass answers exactly the requests it acts on, in order, and keeps everything away covered. */
  lemma {:induction false} PassKeepsCovered(cell: Cell, todo: seq<Request>, outcomes: nat -> Outcome, from: nat,
                                            pending: map<string, Action>, w: World)
    requires Distinct(cell) && Possible(cell, w) && Covered(w, pending) && Restoring(cell, pending)
    ensures var p := ActAll(cell, todo, outcomes, from, pending, w);
      && Possible(cell, p.world) && Covered(p.world, p.pending) && Restoring(cell, p.pending)
      && |p.done| == |todo| && forall i :: 0 <= i < |todo| ==> p.done[i].id == todo[i].id
    decreases |todo|
  {
    hide Covered, Possible, Booked, ExitCode, Acted, Restoring, Distinct;
    if todo != [] {
      var r := todo[0];
      var rc := ExitCode(cell, r.action, r.host, r.arg, outcomes(from));
      ActKeepsCovered(cell, w, pending, r.action, r.host, r.arg, outcomes(from));
      BookedIsRestoring(cell, pending, r.action, r.host, r.arg, outcomes(from));
      PassKeepsCovered(cell, todo[1..], outcomes, from + 1, Booked(pending, r.action, r.host, rc),
        Acted(w, r.action, r.host, r.arg, rc));
    }
  }

  /** The requests a pass acts on: the first with each number not answered yet. */
  function ToDo(rows: seq<Request>, answered: set<nat>): seq<Request> {
    if rows == [] then []
    else if rows[0].id in answered then ToDo(rows[1..], answered)
    else [rows[0]] + ToDo(rows[1..], answered + {rows[0].id})
  }

  /** No number is acted on twice, in this pass or after an earlier one. */
  lemma {:induction false} ToDoIsOnce(rows: seq<Request>, answered: set<nat>)
    ensures forall i :: 0 <= i < |ToDo(rows, answered)| ==> ToDo(rows, answered)[i].id !in answered
    ensures forall i, j :: 0 <= i < j < |ToDo(rows, answered)| ==>
      ToDo(rows, answered)[i].id != ToDo(rows, answered)[j].id
  {
    if rows != [] {
      ToDoIsOnce(rows[1..], answered);
      ToDoIsOnce(rows[1..], answered + {rows[0].id});
    }
  }

  // ---- everything away can be given back ----

  /** Everything away has its restoring action in what there is to undo. */
  ghost predicate Covered(w: World, pending: map<string, Action>) {
    && (forall h | h in w.closed :: h in pending && pending[h] == SshdOn)
    && (w.retired != {} ==> CONTROLLER in pending && pending[CONTROLLER] == QosRestore)
    && (!w.daemonUp ==> SERVICE in pending && pending[SERVICE] == DbdOn)
  }

  /** Only login hosts can be closed. */
  ghost predicate Possible(cell: Cell, w: World) { w.closed <= cell.hosts }

  /** The world after an action. */
  function Acted(w: World, a: Action, host: string, arg: Option<string>, rc: int): World {
    if rc == 0 then Effect(w, a, host, arg) else w
  }

  /** An action and its booking, together, keep everything away covered. */
  lemma ActKeepsCovered(cell: Cell, w: World, pending: map<string, Action>, a: Action, host: string,
                        arg: Option<string>, o: Outcome)
    requires Distinct(cell) && Possible(cell, w) && Covered(w, pending)
    ensures var rc := ExitCode(cell, a, host, arg, o);
      Possible(cell, Acted(w, a, host, arg, rc)) && Covered(Acted(w, a, host, arg, rc), Booked(pending, a, host, rc))
  {
    var rc := ExitCode(cell, a, host, arg, o);
    var next := Booked(pending, a, host, rc);
    if rc == 0 && Undo(a).None? {
      assert forall h | h in pending && h != host :: h in next && next[h] == pending[h];
    }
  }

  /** The world once the restoring actions of `hosts` have all run with success. */
  function Undone(w: World, pending: map<string, Action>, hosts: seq<string>): World
    requires forall h | h in hosts :: h in pending
    decreases |hosts|
  {
    if hosts == [] then w
    else Undone(Effect(w, pending[hosts[0]], hosts[0], None), pending, hosts[1..])
  }

  /** Only restoring actions are ever left to undo, each under its own host. */
  ghost predicate Restoring(cell: Cell, pending: map<string, Action>) {
    forall h | h in pending ::
      || (pending[h] == SshdOn && h in cell.hosts)
      || (pending[h] == QosRestore && h == CONTROLLER)
      || (pending[h] == DbdOn && h == SERVICE)
  }

  lemma BookedIsRestoring(cell: Cell, pending: map<string, Action>, a: Action, host: string, arg: Option<string>,
                          o: Outcome)
    requires Restoring(cell, pending)
    ensures Restoring(cell, Booked(pending, a, host, ExitCode(cell, a, host, arg, o)))
  {
  }

  /** What the undo gives back: the hosts, the QOS list and the daemon whose restoring action is among them. */
  lemma {:induction false} UndoneMeans(cell: Cell, w: World, pending: map<string, Action>, hosts: seq<string>)
    requires Restoring(cell, pending) && forall h | h in hosts :: h in pending
    ensures var u := Undone(w, pending, hosts);
      && (forall h :: h in u.closed <==> h in w.closed && !(h in hosts && pending[h] == SshdOn))
      && u.retired == (if CONTROLLER in hosts && pending[CONTROLLER] == QosRestore then {} else w.retired)
      && (u.daemonUp <==> w.daemonUp || (SERVICE in hosts && pending[SERVICE] == DbdOn))
    decreases |hosts|
  {
    if hosts != [] {
      var rest := hosts[1..];
      assert forall h :: h in hosts <==> h == hosts[0] || h in rest;
      UndoneMeans(cell, Effect(w, pending[hosts[0]], hosts[0], None), pending, rest);
    }
  }

  /** A fully successful undo restores the untouched world exactly when everything away was covered, in
      whatever order the restoring actions run. */
  lemma UndoRestores(cell: Cell, w: World, pending: map<string, Action>, hosts: seq<string>)
    requires Restoring(cell, pending) && forall h :: h in hosts <==> h in pending
    ensures Undone(w, pending, hosts) == UNTOUCHED <==> Covered(w, pending)
  {
    UndoneMeans(cell, w, pending, hosts);
    var u := Undone(w, pending, hosts);
    if Covered(w, pending) {
      assert u.closed == {};
    }
    if u == UNTOUCHED {
      forall h | h in w.closed ensures h in pending && pending[h] == SshdOn {
        assert h !in u.closed;
      }
    }
  }

  // ---- one client and the server, in every interleaving ----

  /** Where the server is with a request: it marks the request answered, runs the command, books what to undo,
      and writes the answer; the client, or a signal to stop, may come between any two. */
  datatype Phase =
    | Idle
    | Taken(request: Request)
    | Ran(request: Request, rc: int)
    | Noted(request: Request, rc: int)

  /** Where the client is: it counts the request file's lines, appends its own, and waits for the answer with its
    number. */
  datatype Client = Resting | Counted(request: Request) | Waiting(request: Request)

  /** The two logs, the server and the world; `outcomes` remembers what each acted request came to, and
      `received` what the client was told, each with its request. */
  datatype System = System(
    requests: seq<Request>, done: seq<Answer>, answered: set<nat>, pending: map<string, Action>, world: World,
    phase: Phase, client: Client, outcomes: map<nat, int>, received: seq<(Request, int)>)

  const INITIAL := System([], [], {}, map[], UNTOUCHED, Idle, Resting, map[], [])

  datatype Step =
    | Ask(action: Action, host: string, arg: Option<string>)
    | Write
    | Read(line: nat)
    | GiveUp
    | Take(line: nat)
    | Run(outcome: Outcome)
    | Note
    | Reply

  ghost predicate Enabled(s: System, step: Step) {
    match step
    case Ask(_, _, _) => s.client.Resting?
    case Write => s.client.Counted?
    case Read(line) => s.client.Waiting? && line < |s.done| && s.done[line].id == s.client.request.id
    case GiveUp => s.client.Waiting?
    case Take(line) => s.phase.Idle? && line < |s.requests| && s.requests[line].id !in s.answered
    case Run(_) => s.phase.Taken?
    case Note => s.phase.Ran?
    case Reply => s.phase.Noted?
  }

  ghost function Next(cell: Cell, s: System, step: Step): System
    requires Enabled(s, step)
  {
    match step
    case Ask(action, host, arg) => s.(client := Counted(Request(|s.requests| + 1, action, host, arg)))
    case Write => s.(requests := s.requests + [s.client.request], client := Waiting(s.client.request))
    case Read(line) => s.(received := s.received + [(s.client.request, s.done[line].rc)], client := Resting)
    case GiveUp => s.(client := Resting)
    case Take(line) => s.(answered := s.answered + {s.requests[line].id}, phase := Taken(s.requests[line]))
    case Run(o) =>
      var r := s.phase.request;
      var rc := ExitCode(cell, r.action, r.host, r.arg, o);
      s.(world := Acted(s.world, r.action, r.host, r.arg, rc), phase := Ran(r, rc), outcomes := s.outcomes[r.id := rc])
    case Note =>
      var r := s.phase.request;
      s.(pending := Booked(s.pending, r.action, r.host, s.phase.rc), phase := Noted(r, s.phase.rc))
    case Reply => s.(done := s.done + [Answer(s.phase.request.id, s.phase.rc)], phase := Idle)
  }

  /** Requests are numbered by their line; each is acted on at most once; answers are outcomes. */
  ghost predicate Logs(s: System) {
    && (forall i :: 0 <= i < |s.requests| ==> s.requests[i].id == i + 1)
    && (forall id :: id in s.answered ==> 1 <= id <= |s.requests|)
    && (s.client.Counted? ==> s.client.request.id == |s.requests| + 1)
    && (s.client.Waiting? ==> s.client.request in s.requests)
    && (forall d :: d in s.done ==> d.id in s.outcomes && d.rc == s.outcomes[d.id])
    && (forall id :: id in s.outcomes ==> id in s.answered)
    && (!s.phase.Idle? ==> s.phase.request in s.requests && s.phase.request.id in s.answered)
    && (s.phase.Taken? ==> s.phase.request.id !in s.outcomes)
    && (s.phase.Ran? || s.phase.Noted? ==>
      s.phase.request.id in s.outcomes && s.outcomes[s.phase.request.id] == s.phase.rc)
    && (forall p :: p in s.received ==> p.0.id in s.outcomes && p.1 == s.outcomes[p.0.id] && p.0 in s.requests)
  }

  /** What a command took away, when it did, is away, a QOS aside. */
  ghost predicate Shows(w: World, a: Action, host: string, rc: int) {
    rc == 0 && Undo(a).Some? ==>
      match a
      case QosRetire => host == CONTROLLER
      case DbdOff => host == SERVICE && !w.daemonUp
      case _ => host in w.closed
  }

  lemma RunShows(cell: Cell, w: World, a: Action, host: string, arg: Option<string>, o: Outcome)
    ensures var rc := ExitCode(cell, a, host, arg, o); Shows(Acted(w, a, host, arg, rc), a, host, rc)
  {
  }

  /** What gives a host back is booked already, from an earlier request: there is nothing left to book. */
  predicate BookedAlready(pending: map<string, Action>, a: Action, host: string, rc: int) {
    rc == 0 && Undo(a).Some? ==> host in pending && pending[host] == Undo(a).value
  }

  /** Between a command and its booking everything away is covered exactly when there is nothing left to book: it is
      booked already, or the command retired no QOS after all. */
  lemma CoveredUnbooked(w: World, pending: map<string, Action>, a: Action, host: string, rc: int)
    requires Shows(w, a, host, rc) && Covered(w, Booked(pending, a, host, rc))
    ensures Covered(w, pending) <==> BookedAlready(pending, a, host, rc) || (a == QosRetire && w.retired == {})
  {
    var next := Booked(pending, a, host, rc);
    if BookedAlready(pending, a, host, rc) {
      assert forall h | h in next :: h in pending && next[h] == pending[h];
    }
  }

  /** Everything away is covered; between a command and its booking, once it is booked. */
  ghost predicate Kept(cell: Cell, s: System) {
    && Restoring(cell, s.pending) && Possible(cell, s.world)
    && if s.phase.Ran? then
         var r := s.phase.request;
         && Shows(s.world, r.action, r.host, s.phase.rc)
         && Restoring(cell, Booked(s.pending, r.action, r.host, s.phase.rc))
         && Covered(s.world, Booked(s.pending, r.action, r.host, s.phase.rc))
       else Covered(s.world, s.pending)
  }

  ghost predicate Invariant(cell: Cell, s: System) { Logs(s) && Kept(cell, s) }

  lemma InitialHolds(cell: Cell)
    ensures Invariant(cell, INITIAL)
  {
  }

  lemma LogsKept(cell: Cell, s: System, step: Step)
    requires Logs(s) && Enabled(s, step)
    ensures Logs(Next(cell, s, step))
  {
    hide ExitCode, Acted, Booked;
    var n := Next(cell, s, step);
    match step
    case Write =>
      assert n.requests[|s.requests|] == s.client.request;
    case Take(line) =>
      assert s.requests[line] in s.requests;
    case Reply =>
      assert forall d :: d in n.done ==> d in s.done || d == Answer(s.phase.request.id, s.phase.rc);
    case Read(line) =>
      assert s.done[line] in s.done;
      assert forall p :: p in n.received ==> p in s.received || p == (s.client.request, s.done[line].rc);
    case _ =>
  }

  lemma KeptKept(cell: Cell, s: System, step: Step)
    requires Distinct(cell) && Kept(cell, s) && Enabled(s, step)
    ensures Kept(cell, Next(cell, s, step))
  {
    hide Covered, Restoring, Possible, ExitCode, Booked, Acted, Shows;
    if step.Run? {
      var r := s.phase.request;
      ActKeepsCovered(cell, s.world, s.pending, r.action, r.host, r.arg, step.outcome);
      BookedIsRestoring(cell, s.pending, r.action, r.host, r.arg, step.outcome);
      RunShows(cell, s.world, r.action, r.host, r.arg, step.outcome);
    }
  }

  /** The system after a run of steps, each enabled in its turn; None when one is not. */
  ghost function After(cell: Cell, steps: seq<Step>): Option<System> {
    if steps == [] then Some(INITIAL)
    else
      var before := After(cell, steps[..|steps| - 1]);
      if before.None? || !Enabled(before.value, steps[|steps| - 1]) then None
      else Some(Next(cell, before.value, steps[|steps| - 1]))
  }

  lemma {:induction false} EveryRunKeeps(cell: Cell, steps: seq<Step>)
    requires Distinct(cell) && After(cell, steps).Some?
    ensures Invariant(cell, After(cell, steps).value)
  {
    hide Logs, Kept;
    if steps == [] {
      InitialHolds(cell);
    } else {
      EveryRunKeeps(cell, steps[..|steps| - 1]);
      var before, step := After(cell, steps[..|steps| - 1]).value, steps[|steps| - 1];
      LogsKept(cell, before, step);
      KeptKept(cell, before, step);
    }
  }

  /** In every interleaving: no request is acted on twice, and what the client is told is what its own request came
    to. */
  lemma AnswersAreOwn(cell: Cell, steps: seq<Step>, step: Step)
    requires Distinct(cell) && After(cell, steps).Some? && Enabled(After(cell, steps).value, step)
    ensures var s := After(cell, steps).value;
      && (step.Run? ==> s.phase.request.id !in s.outcomes)
      && (forall p :: p in s.received ==> p.0.id in s.outcomes && p.1 == s.outcomes[p.0.id])
      && (forall p, q :: p in s.requests && q in s.requests && p.id == q.id ==> p == q)
  {
    EveryRunKeeps(cell, steps);
  }

  predicate NothingUnbooked(s: System) {
    s.phase.Ran? ==>
      || BookedAlready(s.pending, s.phase.request.action, s.phase.request.host, s.phase.rc)
      || (s.phase.request.action == QosRetire && s.world.retired == {})
  }

  /** Wherever the server stops, a fully successful undo restores the untouched world exactly unless it stopped
      between a command that took something away and its booking, and nothing booked earlier gives that back. */
  lemma StopRestores(cell: Cell, steps: seq<Step>, hosts: seq<string>)
    requires Distinct(cell) && After(cell, steps).Some?
    requires forall h :: h in hosts <==> h in After(cell, steps).value.pending
    ensures var s := After(cell, steps).value; Undone(s.world, s.pending, hosts) == UNTOUCHED <==> NothingUnbooked(s)
  {
    EveryRunKeeps(cell, steps);
    hide Covered, Restoring, Undone, BookedAlready, Shows;
    var s := After(cell, steps).value;
    UndoRestores(cell, s.world, s.pending, hosts);
    if s.phase.Ran? {
      CoveredUnbooked(s.world, s.pending, s.phase.request.action, s.phase.request.host, s.phase.rc);
    }
  }

  // ---- what the guarantees rest on ----

  /** A system whose client asked to close a login host, and whose server ran the command and no more. */
  function ClosedNotBooked(r: Request): System {
    System([r], [], {r.id}, map[], World({r.host}, {}, true), Ran(r, 0), Waiting(r), map[r.id := 0], [])
  }

  /** A signal between a command and its booking loses the undo: a system is reachable in which a login host
      is closed, and what there is to undo does not give it back. */
  lemma UnbookedIsLost(cell: Cell, host: string)
    requires Distinct(cell) && host in cell.hosts
    ensures var r := Request(1, SshdOff, host, None);
      && After(cell, [Ask(SshdOff, host, None), Write, Take(0), Run(Outcome(true, 0))]) == Some(ClosedNotBooked(r))
      && !Covered(ClosedNotBooked(r).world, ClosedNotBooked(r).pending)
  {
    var r := Request(1, SshdOff, host, None);
    var s1 := INITIAL.(client := Counted(r));
    var s2 := INITIAL.(requests := [r], client := Waiting(r));
    var s3 := s2.(answered := {1}, phase := Taken(r));
    var t1 := [Ask(SshdOff, host, None)];
    AfterNext(cell, [], INITIAL, Ask(SshdOff, host, None));
    assert [] + t1 == t1 && Next(cell, INITIAL, Ask(SshdOff, host, None)) == s1;
    AfterNext(cell, t1, s1, Write);
    assert [] + [r] == [r] && Next(cell, s1, Write) == s2;
    AfterNext(cell, t1 + [Write], s2, Take(0));
    assert Next(cell, s2, Take(0)) == s3;
    AfterNext(cell, t1 + [Write] + [Take(0)], s3, Run(Outcome(true, 0)));
    RunsClosing(cell, host, s3);
    assert t1 + [Write] + [Take(0)] + [Run(Outcome(true, 0))]
      == [Ask(SshdOff, host, None), Write, Take(0), Run(Outcome(true, 0))];
  }

  lemma RunsClosing(cell: Cell, host: string, s: System)
    requires host in cell.hosts && s.phase == Taken(Request(1, SshdOff, host, None)) && s.world == UNTOUCHED
      && s.outcomes == map[]
    ensures var r := Request(1, SshdOff, host, None);
      Next(cell, s, Run(Outcome(true, 0)))
        == s.(world := World({host}, {}, true), phase := Ran(r, 0), outcomes := map[1 := 0])
  {
    assert {} + {host} == {host};
  }

  lemma AfterNext(cell: Cell, steps: seq<Step>, s: System, step: Step)
    requires After(cell, steps) == Some(s) && Enabled(s, step)
    ensures After(cell, steps + [step]) == Some(Next(cell, s, step))
  {
    assert (steps + [step])[..|steps|] == steps;
  }

  /** Two clients that count the lines before either writes get the same number: the server acts on the first
      one's request only, whatever the second asked for. */
  lemma TwoClientsCollide(log: seq<Request>, answered: set<nat>, first: Request, second: Request)
    requires (forall r | r in log :: r.id in answered) && first.id == second.id == |log| + 1 && first.id !in answered
    ensures ToDo(log + [first, second], answered) == [first]
  {
    AnsweredAreSkipped(log, answered, first, second);
  }

  lemma {:induction false} AnsweredAreSkipped(log: seq<Request>, answered: set<nat>, first: Request, second: Request)
    requires (forall r | r in log :: r.id in answered) && first.id == second.id && first.id !in answered
    ensures ToDo(log + [first, second], answered) == [first]
  {
    var rows := log + [first, second];
    if log == [] {
      assert rows[1..] == [second] && rows[1..][1..] == [];
      assert ToDo([second], answered + {first.id}) == [];
    } else {
      assert log[0] in log && rows[1..] == log[1..] + [first, second];
      AnsweredAreSkipped(log[1..], answered, first, second);
    }
  }
}
