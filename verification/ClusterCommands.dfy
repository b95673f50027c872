/**
 Commands to the replicas of a deployment: given from any replica, collected by
 the one addressed through conditional UPDATEs, and closed when nobody finishes
 them. Every statement is one step; clocks are read before the statements they stamp.
 */
module ClusterCommands {
  import opened Wrappers

  type Instance = string

  datatype Action = Stop | Start | Restart | Unknown(name: string)

  datatype Status = Pending | Executing | Done | Failed | Expired

  datatype Command = Command(instance: Instance, action: Action, status: Status, requestedAt: int,
                             claimedAt: Option<int>)

  type Commands = map<nat, Command>

  datatype Mode = Serving | Stopped

  datatype Member = Member(lastSeen: Option<int>, mode: Mode, canRestart: bool)

  const HEARTBEAT_SECONDS := 10
  const MISSED_HEARTBEATS := 3
  const COMMAND_TTL := 5 * 60

  predicate Open(c: Command) {
    c.status.Pending? || c.status.Executing?
  }

  predicate IsAlive(lastSeen: Option<int>, now: int) {
    lastSeen.Some? && now - lastSeen.value <= HEARTBEAT_SECONDS * MISSED_HEARTBEATS
  }

  // ---------- what an administrator may ask ----------

  predicate Serves(members: map<Instance, Member>, id: Instance, now: int) {
    id in members && members[id].mode.Serving? && IsAlive(members[id].lastSeen, now)
  }

  /** The HTTP status a command is refused with, or None. */
  function Check(action: Action, target: Instance, members: map<Instance, Member>, open: bool, force: bool,
                 now: int): Option<int>
  {
    if action.Unknown? then Some(400)
    else if target !in members then Some(404)
    else if !IsAlive(members[target].lastSeen, now) then Some(409)
    else if open then Some(409)
    else if action.Restart? && !members[target].canRestart then Some(409)
    else if action.Stop? && members[target].mode.Serving? && !force
            && !exists id <- members :: id != target && Serves(members, id, now) then Some(409)
    else None
  }

  /** A replica answers when it was seen within thirty seconds. */
  lemma IsAliveIff(lastSeen: Option<int>, now: int)
    ensures IsAlive(lastSeen, now) <==> lastSeen.Some? && now - lastSeen.value <= 30
  {
  }

  /** What is refused, and with what: an unknown action, an unknown replica, and what cannot or must not be done. */
  lemma CheckIs(action: Action, target: Instance, members: map<Instance, Member>, open: bool, force: bool, now: int)
    ensures Check(action, target, members, open, force, now) == Some(400) <==> action.Unknown?
    ensures Check(action, target, members, open, force, now) == Some(404) <==> !action.Unknown? && target !in members
    ensures Check(action, target, members, open, force, now).None? <==>
      && !action.Unknown? && target in members && !open
      && members[target].lastSeen.Some? && now - members[target].lastSeen.value <= 30
      && (action.Restart? ==> members[target].canRestart)
      && (action.Stop? && members[target].mode.Serving? && !force ==>
            exists id <- members :: id != target && members[id].mode.Serving?
                                    && members[id].lastSeen.Some? && now - members[id].lastSeen.value <= 30)
    ensures Check(action, target, members, open, force, now).Some? ==>
              Check(action, target, members, open, force, now).value in {400, 404, 409}
  {
    if exists id <- members :: id != target && Serves(members, id, now) {
      var id :| id in members && id != target && Serves(members, id, now);
      assert members[id].mode.Serving? && now - members[id].lastSeen.value <= 30;
    }
    if id :| id in members && id != target && members[id].mode.Serving?
             && members[id].lastSeen.Some? && now - members[id].lastSeen.value <= 30 {
      assert Serves(members, id, now);
    }
  }

  /** An unforced stop that is accepted leaves a live replica serving, if one was. */
  lemma StopLeavesOneServing(target: Instance, members: map<Instance, Member>, open: bool, now: int)
    requires Check(Stop, target, members, open, false, now).None?
    ensures var after := members[target := members[target].(mode := Stopped)];
            (exists id <- members :: Serves(members, id, now)) ==> exists id <- after :: Serves(after, id, now)
  {
    var after := members[target := members[target].(mode := Stopped)];
    if exists id <- members :: Serves(members, id, now) {
      var id :| id in members && id != target && Serves(members, id, now);
      assert Serves(after, id, now);
    }
  }

  /** And it is refused exactly when it would leave none serving though the target answers and is free. */
  lemma StopRefusedIff(target: Instance, members: map<Instance, Member>, now: int)
    requires Serves(members, target, now)
    ensures Check(Stop, target, members, false, false, now).Some?
       <==> forall id :: Serves(members, id, now) ==> id == target
    ensures Check(Stop, target, members, false, true, now).None?
  {
  }

  // ---------- the statements ----------

  function Claimed(commands: Commands, id: nat, now: int): Commands {
    if id in commands && commands[id].status.Pending?
    then commands[id := commands[id].(status := Executing, claimedAt := Some(now))]
    else commands
  }

  /** WHERE id = :id, whatever the status has become. */
  function Finished(commands: Commands, id: nat, status: Status): Commands {
    if id in commands then commands[id := commands[id].(status := status)] else commands
  }

  function PendingClosed(commands: Commands, cutoff: int): Commands {
    map id | id in commands ::
      if commands[id].status.Pending? && commands[id].requestedAt < cutoff
      then commands[id].(status := Expired) else commands[id]
  }

  function ExecutingClosed(commands: Commands, cutoff: int): Commands {
    map id | id in commands ::
      if commands[id].status.Executing? && commands[id].claimedAt.Some? && commands[id].claimedAt.value < cutoff
      then commands[id].(status := Expired) else commands[id]
  }

  ghost predicate OpenFor(commands: Commands, instance: Instance) {
    exists id <- commands :: commands[id].instance == instance && Open(commands[id])
  }

  // ---------- the machine ----------

  /** Where a replica's pass stands, with the clock it read at its start. */
  datatype Pass =
    | Begun(at: int)
    | HalfClosed(at: int)
    | Closed(at: int)
    | Claiming(at: int, left: seq<nat>)

  /** `swept` is the latest clock at which both kinds of stale command were closed. */
  datatype State = State(now: int, commands: Commands, members: map<Instance, Member>,
                         passes: map<Instance, Pass>, executed: seq<(Instance, nat)>, swept: Option<int>)

  datatype Step =
    | Tick(dt: nat)
    | SetMembers(members: map<Instance, Member>)
    | Give(id: nat, instance: Instance, action: Action, force: bool, stamp: int)
    | Begin(replica: Instance)
    | ClosePending(replica: Instance)
    | CloseExecuting(replica: Instance)
    | ReadPending(replica: Instance, list: seq<nat>)
    | Claim(replica: Instance)
    | Finish(id: nat, status: Status)
    | End(replica: Instance)

  predicate At(s: State, replica: Instance) {
    replica in s.passes
  }

  predicate WasExecuted(s: State, id: nat) {
    exists e <- s.executed :: e.1 == id
  }

  /** Statements run within `lag` of the clock they are stamped with. */
  ghost predicate Enabled(lag: int, s: State, e: Step) {
    match e
    case Tick(_) => true
    case SetMembers(_) => true
    case Give(id, _, _, _, stamp) => id !in s.commands && stamp <= s.now <= stamp + lag
    case Begin(r) => !At(s, r)
    case ClosePending(r) => At(s, r) && s.passes[r].Begun?
    case CloseExecuting(r) => At(s, r) && s.passes[r].HalfClosed?
    case ReadPending(r, list) =>
      At(s, r) && s.passes[r].Closed?
      && forall id <- list :: id in s.commands && s.commands[id].instance == r && s.commands[id].status.Pending?
    case Claim(r) => At(s, r) && s.passes[r].Claiming? && s.passes[r].left != [] && s.now <= s.passes[r].at + lag
    case Finish(id, status) => WasExecuted(s, id) && (status.Done? || status.Failed?)
    case End(r) => At(s, r)
  }

  function Later(a: Option<int>, b: int): Option<int> {
    if a.Some? && a.value >= b then a else Some(b)
  }

  ghost function Apply(lag: int, s: State, e: Step): State
    requires Enabled(lag, s, e)
  {
    match e
    case Tick(dt) => s.(now := s.now + dt)
    case SetMembers(members) => s.(members := members)
    case Give(id, instance, action, force, stamp) =>
      if Check(action, instance, s.members, OpenFor(s.commands, instance), force, stamp).Some? then s
      else s.(commands := s.commands[id := Command(instance, action, Pending, stamp, None)])
    case Begin(r) => s.(passes := s.passes[r := Begun(s.now)])
    case ClosePending(r) =>
      var at := s.passes[r].at;
      s.(commands := PendingClosed(s.commands, at - COMMAND_TTL), passes := s.passes[r := HalfClosed(at)])
    case CloseExecuting(r) =>
      var at := s.passes[r].at;
      s.(commands := ExecutingClosed(s.commands, at - COMMAND_TTL), passes := s.passes[r := Closed(at)],
         swept := Later(s.swept, at))
    case ReadPending(r, list) => s.(passes := s.passes[r := Claiming(s.passes[r].at, list)])
    case Claim(r) =>
      var pass := s.passes[r];
      var id := pass.left[0];
      var won := id in s.commands && s.commands[id].status.Pending?;
      s.(commands := Claimed(s.commands, id, pass.at), passes := s.passes[r := pass.(left := pass.left[1..])],
         executed := if won then s.executed + [(r, id)] else s.executed)
    case Finish(id, status) => s.(commands := Finished(s.commands, id, status))
    case End(r) => s.(passes := s.passes - {r})
  }

  ghost predicate Legal(lag: int, s: State, steps: seq<Step>)
    decreases |steps|
  {
    steps == [] || (Enabled(lag, s, steps[0]) && Legal(lag, Apply(lag, s, steps[0]), steps[1..]))
  }

  ghost function After(lag: int, s: State, steps: seq<Step>): State
    requires Legal(lag, s, steps)
    decreases |steps|
  {
    if steps == [] then s else After(lag, Apply(lag, s, steps[0]), steps[1..])
  }

  predicate Init(s: State) {
    s.commands == map[] && s.passes == map[] && s.executed == [] && s.swept.None?
  }

  // ---------- at most once ----------

  ghost predicate OnceInv(s: State) {
    && (forall i, j :: 0 <= i < j < |s.executed| ==> s.executed[i].1 != s.executed[j].1)
    && (forall e <- s.executed ::
          e.1 in s.commands && !s.commands[e.1].status.Pending? && s.commands[e.1].instance == e.0)
    && (forall r <- s.passes :: s.passes[r].Claiming? ==>
          forall id <- s.passes[r].left :: id in s.commands && s.commands[id].instance == r)
  }

  lemma ClosingKeepsOnce(lag: int, s: State, e: Step)
    requires OnceInv(s) && Enabled(lag, s, e) && (e.ClosePending? || e.CloseExecuting?)
    ensures OnceInv(Apply(lag, s, e))
  {
  }

  lemma StepKeepsOnce(lag: int, s: State, e: Step)
    requires OnceInv(s) && Enabled(lag, s, e)
    ensures OnceInv(Apply(lag, s, e))
  {
    hide Check, OpenFor, PendingClosed, ExecutingClosed;
    if e.ClosePending? || e.CloseExecuting? {
      ClosingKeepsOnce(lag, s, e);
    } else if e.Claim? {
      var pass := s.passes[e.replica];
      assert pass.left[0] in pass.left;
    }
  }

  /** How far a command has come; nothing takes one back. */
  function Progress(s: Status): nat {
    match s
    case Pending => 0
    case Executing => 1
    case _ => 2
  }

  lemma StepMovesOn(lag: int, s: State, e: Step, id: nat)
    requires OnceInv(s) && Enabled(lag, s, e) && id in s.commands
    ensures var s' := Apply(lag, s, e);
      && id in s'.commands && Progress(s'.commands[id].status) >= Progress(s.commands[id].status)
      && s'.commands[id].instance == s.commands[id].instance && s'.commands[id].action == s.commands[id].action
      && s'.commands[id].requestedAt == s.commands[id].requestedAt
  {
  }

  /** A command never returns to pending, and a closed one never opens again. */
  lemma {:induction false} StatusMovesOn(lag: int, s: State, steps: seq<Step>, id: nat)
    requires OnceInv(s) && Legal(lag, s, steps) && id in s.commands
    ensures var s' := After(lag, s, steps);
            OnceInv(s') && id in s'.commands && Progress(s'.commands[id].status) >= Progress(s.commands[id].status)
    decreases |steps|
  {
    if steps != [] {
      StepKeepsOnce(lag, s, steps[0]);
      StepMovesOn(lag, s, steps[0], id);
      StatusMovesOn(lag, Apply(lag, s, steps[0]), steps[1..], id);
    }
  }

  lemma {:induction false} OnceOverRuns(lag: int, s: State, steps: seq<Step>)
    requires OnceInv(s) && Legal(lag, s, steps)
    ensures OnceInv(After(lag, s, steps))
    decreases |steps|
  {
    if steps != [] {
      StepKeepsOnce(lag, s, steps[0]);
      OnceOverRuns(lag, Apply(lag, s, steps[0]), steps[1..]);
    }
  }

  /** Over any passes of any number of replicas, a command is carried out at most once, by the one addressed. */
  lemma ExecutedAtMostOnce(lag: int, s: State, steps: seq<Step>)
    requires Init(s) && Legal(lag, s, steps)
    ensures var s' := After(lag, s, steps);
      && (forall i, j :: 0 <= i < j < |s'.executed| ==> s'.executed[i].1 != s'.executed[j].1)
      && (forall e <- s'.executed :: e.1 in s'.commands && s'.commands[e.1].instance == e.0)
  {
    OnceOverRuns(lag, s, steps);
  }

  // ---------- no replica stays blocked ----------

  /** How long an open command may lie behind a sweep: its time to live, or the lag of a statement if that is longer. */
  function Span(lag: int): int {
    if lag > COMMAND_TTL then lag else COMMAND_TTL
  }

  /** Every open command is younger than the latest sweep allows. */
  ghost predicate Swept(span: int, commands: Commands, at: int) {
    forall id <- commands ::
      && (commands[id].status.Pending? ==> commands[id].requestedAt >= at - span)
      && (commands[id].status.Executing? ==>
            commands[id].claimedAt.Some? && commands[id].claimedAt.value >= at - span)
  }

  ghost predicate PendingSince(span: int, commands: Commands, at: int) {
    forall id <- commands :: commands[id].status.Pending? ==> commands[id].requestedAt >= at - span
  }

  /** A command was claimed within that span of being asked for. */
  ghost predicate ClaimedInTime(span: int, commands: Commands) {
    forall id <- commands :: commands[id].status.Executing? ==>
      commands[id].claimedAt.Some? && commands[id].requestedAt >= commands[id].claimedAt.value - span
  }

  ghost predicate TimeInv(span: int, s: State) {
    && ClaimedInTime(span, s.commands)
    && (s.swept.Some? ==> s.swept.value <= s.now && Swept(span, s.commands, s.swept.value))
    && forall r <- s.passes ::
         && s.passes[r].at <= s.now
         && (!s.passes[r].Begun? ==> PendingSince(span, s.commands, s.passes[r].at))
         && (s.passes[r].Claiming? ==>
               forall id <- s.passes[r].left ::
                 id in s.commands && s.commands[id].requestedAt >= s.passes[r].at - span)
  }

  lemma GiveKeepsTime(lag: int, s: State, e: Step)
    requires 0 <= lag && TimeInv(Span(lag), s) && Enabled(lag, s, e) && e.Give?
    ensures TimeInv(Span(lag), Apply(lag, s, e))
  {
  }

  lemma ClosingKeepsTime(lag: int, s: State, e: Step)
    requires 0 <= lag && TimeInv(Span(lag), s) && Enabled(lag, s, e)
    requires e.ClosePending? || e.CloseExecuting?
    ensures TimeInv(Span(lag), Apply(lag, s, e))
  {
    assert PendingSince(Span(lag), Apply(lag, s, e).commands, s.passes[e.replica].at);
  }

  lemma ClaimKeepsTime(lag: int, s: State, e: Step)
    requires 0 <= lag && TimeInv(Span(lag), s) && Enabled(lag, s, e) && e.Claim?
    ensures TimeInv(Span(lag), Apply(lag, s, e))
  {
    var pass := s.passes[e.replica];
    assert pass.left[0] in pass.left;
  }

  lemma StepKeepsTime(lag: int, s: State, e: Step)
    requires 0 <= lag && TimeInv(Span(lag), s) && Enabled(lag, s, e)
    ensures TimeInv(Span(lag), Apply(lag, s, e))
  {
    match e
    case Give(_, _, _, _, _) => GiveKeepsTime(lag, s, e);
    case ClosePending(_) => ClosingKeepsTime(lag, s, e);
    case CloseExecuting(_) => ClosingKeepsTime(lag, s, e);
    case Claim(_) => ClaimKeepsTime(lag, s, e);
    case _ =>
  }

  lemma {:induction false} TimeOverRuns(lag: int, s: State, steps: seq<Step>)
    requires 0 <= lag && TimeInv(Span(lag), s) && Legal(lag, s, steps)
    ensures TimeInv(Span(lag), After(lag, s, steps))
    decreases |steps|
  {
    if steps != [] {
      StepKeepsTime(lag, s, steps[0]);
      TimeOverRuns(lag, Apply(lag, s, steps[0]), steps[1..]);
    }
  }

  /**
   After any replica swept at an instant, and for ever after, every command still
   open was asked for, or claimed, within the time to live before it, or within
   the lag of a statement if that is longer, and asked for within twice that. So
   nothing blocks a replica longer.
   */
  lemma NothingOldStaysOpen(lag: int, s: State, steps: seq<Step>, id: nat)
    requires 0 <= lag && Init(s) && Legal(lag, s, steps)
    requires var s' := After(lag, s, steps); s'.swept.Some? && id in s'.commands && Open(s'.commands[id])
    ensures var s', span := After(lag, s, steps), Span(lag);
            var c := s'.commands[id];
            && (c.status.Pending? ==> c.requestedAt >= s'.swept.value - span)
            && (c.status.Executing? ==> c.claimedAt.Some? && c.claimedAt.value >= s'.swept.value - span)
            && c.requestedAt >= s'.swept.value - 2 * span
            && (lag <= COMMAND_TTL ==> span == COMMAND_TTL)
  {
    TimeOverRuns(lag, s, steps);
  }

  // ---------- one open command at a time ----------

  ghost predicate OneOpen(commands: Commands) {
    forall a <- commands, b <- commands ::
      Open(commands[a]) && Open(commands[b]) && commands[a].instance == commands[b].instance ==> a == b
  }

  lemma StepKeepsOneOpen(lag: int, s: State, e: Step)
    requires OnceInv(s) && OneOpen(s.commands) && Enabled(lag, s, e)
    ensures OneOpen(Apply(lag, s, e).commands)
  {
    var s' := Apply(lag, s, e);
    forall id | id in s.commands && id in s'.commands && Open(s'.commands[id])
      ensures Open(s.commands[id]) && s'.commands[id].instance == s.commands[id].instance
    {
      StepMovesOn(lag, s, e, id);
    }
    if e.Give? && e.id in s'.commands {
      assert Check(e.action, e.instance, s.members, OpenFor(s.commands, e.instance), e.force, e.stamp).None?;
      forall id | id in s.commands && s.commands[id].instance == e.instance ensures !Open(s.commands[id]) {}
    }
  }

  /** Commands given one at a time: a replica never has two open. */
  lemma {:induction false} OneOpenPerReplica(lag: int, s: State, steps: seq<Step>)
    requires OnceInv(s) && OneOpen(s.commands) && Legal(lag, s, steps)
    ensures OneOpen(After(lag, s, steps).commands)
    decreases |steps|
  {
    if steps != [] {
      StepKeepsOneOpen(lag, s, steps[0]);
      StepKeepsOnce(lag, s, steps[0]);
      OneOpenPerReplica(lag, Apply(lag, s, steps[0]), steps[1..]);
    }
  }
}
