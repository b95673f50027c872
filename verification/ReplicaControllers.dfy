/** One replica's side of the cluster: its state, and what it does with the commands addressed to it. */
module ReplicaControllers {
  import opened Wrappers
  import opened ClusterCommands

  /** Asked for, or claimed, more than five minutes ago and still open. */
  predicate IsStale(c: Command, now: int) {
    || (c.status.Pending? && now - c.requestedAt > 5 * 60)
    || (c.status.Executing? && c.claimedAt.Some? && now - c.claimedAt.value > 5 * 60)
  }

  /** The table after both statements of a sweep. */
  function Expiring(commands: Commands, now: int): Commands {
    ExecutingClosed(PendingClosed(commands, now - COMMAND_TTL), now - COMMAND_TTL)
  }

  /** The tables cluster_members and cluster_commands. */
  class ClusterTables {
    var members: map<Instance, Member>
    var commands: Commands

    constructor ()
      ensures members == map[] && commands == map[]
    {
      members, commands := map[], map[];
    }

    method PublishMember(id: Instance, member: Member)
      modifies this`members
      ensures members == old(members)[id := member]
    {
      members := members[id := member];
    }

    method WriteState(id: Instance, mode: Mode)
      modifies this`members
      ensures members == if id in old(members) then old(members)[id := old(members)[id].(mode := mode)]
                         else old(members)
    {
      if id in members {
        members := members[id := members[id].(mode := mode)];
      }
    }

    /** Taken exactly when it was still pending. */
    method ClaimCommand(id: nat, now: int) returns (claimed: bool)
      modifies this`commands
      ensures claimed <==> id in old(commands) && old(commands)[id].status.Pending?
      ensures commands == Claimed(old(commands), id, now)
    {
      claimed := id in commands && commands[id].status.Pending?;
      if claimed {
        commands := commands[id := commands[id].(status := Executing, claimedAt := Some(now))];
      }
    }

    method FinishCommand(id: nat, status: Status)
      modifies this`commands
      ensures commands == Finished(old(commands), id, status)
    {
      if id in commands {
        commands := commands[id := commands[id].(status := status)];
      }
    }

    /** After it at `now`, nothing older than the time to live is open, and nothing else changed. */
    method ExpireCommands(now: int)
      modifies this`commands
      ensures commands == Expiring(old(commands), now)
      ensures commands.Keys == old(commands).Keys
      ensures forall id <- commands ::
        commands[id] == if IsStale(old(commands)[id], now) then old(commands)[id].(status := Expired) else old(commands)[id]
      ensures (forall id <- old(commands) :: old(commands)[id].status.Executing? ==> old(commands)[id].claimedAt.Some?)
              ==> Swept(COMMAND_TTL, commands, now)
    {
      var cutoff := now - COMMAND_TTL;
      commands := map id | id in commands ::
        if commands[id].status.Pending? && commands[id].requestedAt < cutoff
        then commands[id].(status := Expired) else commands[id];
      commands := map id | id in commands ::
        if commands[id].status.Executing? && commands[id].claimedAt.Some? && commands[id].claimedAt.value < cutoff
        then commands[id].(status := Expired) else commands[id];
    }
  }

  // ---------- what a list of commands comes to ----------

  lemma ExpiringIs(commands: Commands, now: int)
    ensures Expiring(commands, now)
         == map id | id in commands ::
              if IsStale(commands[id], now) then commands[id].(status := Expired) else commands[id]
  {
  }

  /** The state a replica is in after these actions in order: the last stop or start decides. */
  function ModeAfter(mode: Mode, actions: seq<Action>): Mode {
    if actions == [] then mode
    else
      var last := actions[|actions| - 1];
      if last.Stop? then Stopped else if last.Start? then Serving
      else ModeAfter(mode, actions[..|actions| - 1])
  }

  /** The replica is left stopped or serving as the last stop or start says, and without one as it was. */
  ghost predicate LeftIn(was: Mode, actions: seq<Action>, mode: Mode) {
    && (forall i :: 0 <= i < |actions| && (actions[i].Stop? || actions[i].Start?)
                    && (forall j :: i < j < |actions| ==> !actions[j].Stop? && !actions[j].Start?)
                    ==> (mode.Stopped? <==> actions[i].Stop?))
    && ((forall i :: 0 <= i < |actions| ==> !actions[i].Stop? && !actions[i].Start?) ==> mode == was)
  }

  lemma {:induction false} ModeIsLeft(was: Mode, actions: seq<Action>)
    ensures LeftIn(was, actions, ModeAfter(was, actions))
  {
    if actions != [] {
      var n := |actions| - 1;
      var front := actions[..n];
      ModeIsLeft(was, front);
      assert forall i :: 0 <= i < n ==> actions[i] == front[i];
    }
  }

  /** How a command ends on a replica that can, or cannot, restart itself. */
  function EndOf(action: Action, canRestart: bool): (end: Status)
    ensures !end.Pending?
  {
    match action
    case Restart => if canRestart then Executing else Failed
    case Unknown(_) => Failed
    case _ => Done
  }

  /** The actions of these commands, one by one. */
  function ActionsOf(commands: Commands, ids: seq<nat>): (actions: seq<Action>)
    requires forall id <- ids :: id in commands
    ensures |actions| == |ids| && forall i :: 0 <= i < |ids| ==> actions[i] == commands[ids[i]].action
  {
    seq(|ids|, i requires 0 <= i < |ids| => commands[ids[i]].action)
  }

  /** The commands of a replica that are still pending, oldest first. */
  ghost predicate PendingFor(commands: Commands, instance: Instance, ids: seq<nat>) {
    && (forall id :: id in ids <==> id in commands && commands[id].instance == instance && commands[id].status.Pending?)
    && (forall i, j :: 0 <= i < j < |ids| ==> ids[i] < ids[j])
  }

  /** The table once these commands, and no others, were carried out. */
  function CarriedOut(commands: Commands, ids: seq<nat>, canRestart: bool, now: int): Commands {
    map id | id in commands ::
      if id in ids then commands[id].(status := EndOf(commands[id].action, canRestart), claimedAt := Some(now))
      else commands[id]
  }

  /** The status a command ends with, action by action. */
  predicate EndsWith(action: Action, canRestart: bool, status: Status) {
    && (action.Stop? || action.Start? ==> status.Done?)
    && (action.Unknown? || (action.Restart? && !canRestart) ==> status.Failed?)
    && (action.Restart? && canRestart ==> status.Executing?)
  }

  /** This command is ended as its action says, and no other one is touched. */
  ghost predicate OnlyEnds(before: Commands, id: nat, canRestart: bool, after: Commands)
    requires id in before
  {
    && after.Keys == before.Keys
    && (forall other <- before :: other != id ==> after[other] == before[other])
    && after[id] == before[id].(status := after[id].status)
    && EndsWith(before[id].action, canRestart, after[id].status)
  }

  /** Each command of the list is claimed now and ended as its action says; no other one is touched. */
  ghost predicate ExactlyThese(before: Commands, ids: seq<nat>, canRestart: bool, now: int, after: Commands) {
    && after.Keys == before.Keys
    && (forall id <- before :: id !in ids ==> after[id] == before[id])
    && forall id <- before :: id in ids ==>
         && after[id] == before[id].(status := after[id].status, claimedAt := Some(now))
         && EndsWith(before[id].action, canRestart, after[id].status)
  }

  lemma CarriedIsExact(before: Commands, ids: seq<nat>, canRestart: bool, now: int)
    ensures ExactlyThese(before, ids, canRestart, now, CarriedOut(before, ids, canRestart, now))
  {
  }

  /** Of the members only the replica's own mode changed. */
  ghost predicate OnlyMode(before: map<Instance, Member>, after: map<Instance, Member>, own: Instance, mode: Mode) {
    && after.Keys == before.Keys
    && (forall id <- before :: id != own ==> after[id] == before[id])
    && (own in before ==> after[own] == before[own].(mode := mode))
  }

  lemma CarriedOneMore(commands: Commands, ids: seq<nat>, id: nat, canRestart: bool, now: int)
    requires id in commands && id !in ids && commands[id].status.Pending?
    ensures CarriedOut(commands, ids + [id], canRestart, now)
         == Finished(Claimed(CarriedOut(commands, ids, canRestart, now), id, now), id,
                     EndOf(commands[id].action, canRestart))
    ensures id in CarriedOut(commands, ids, canRestart, now)
            && CarriedOut(commands, ids, canRestart, now)[id] == commands[id]
  {
  }

  lemma NothingCarried(commands: Commands, canRestart: bool, now: int, mode: Mode)
    ensures CarriedOut(commands, [], canRestart, now) == commands
    ensures ModeAfter(mode, ActionsOf(commands, [])) == mode
  {
  }

  lemma ModeOneMore(commands: Commands, ids: seq<nat>, id: nat, mode: Mode)
    requires id in commands && forall x <- ids :: x in commands
    ensures ModeAfter(mode, ActionsOf(commands, ids + [id]))
         == ModeAfter(ModeAfter(mode, ActionsOf(commands, ids)), [commands[id].action])
  {
    assert (ids + [id])[..|ids|] == ids;
    var front, action := ActionsOf(commands, ids), commands[id].action;
    assert forall x <- ids + [id] :: x in commands;
    assert ActionsOf(commands, ids + [id]) == front + [action];
    assert (front + [action])[..|front|] == front;
    assert [action][..0] == [];
  }

  // ---------- the controller ----------

  class ReplicaController {
    const instance: Instance
    const blocker: Option<string>
    const tables: ClusterTables
    var mode: Mode
    var restartRequested: bool

    constructor (instance: Instance, blocker: Option<string>, tables: ClusterTables)
      ensures this.instance == instance && this.blocker == blocker && this.tables == tables
      ensures mode.Serving? && !restartRequested
    {
      this.instance, this.blocker, this.tables := instance, blocker, tables;
      mode, restartRequested := Serving, false;
    }

    /** The registry says of this replica what it is. */
    ghost predicate Published()
      reads this, tables
    {
      instance in tables.members && tables.members[instance].mode == mode
    }

    method SetMode(mode: Mode)
      modifies this`mode, tables`members
      ensures this.mode == mode && OnlyMode(old(tables.members), tables.members, instance, mode)
      ensures old(instance in tables.members) ==> Published()
    {
      this.mode := mode;
      tables.WriteState(instance, mode);
    }

    /**
     Carries out a command just claimed. It ends done or failed, except that a
     restart stays executing for the process that comes back from it.
     */
    method Execute(id: nat)
      requires id in tables.commands && tables.commands[id].status.Executing? && Published()
      modifies this`mode, this`restartRequested, tables
      ensures var action := old(tables.commands)[id].action;
        && mode == ModeAfter(old(mode), [action])
        && restartRequested == (old(restartRequested) || (action.Restart? && blocker.None?))
        && tables.commands == Finished(old(tables.commands), id, EndOf(action, blocker.None?))
      ensures var action := old(tables.commands)[id].action;
        && (action.Stop? ==> mode.Stopped?) && (action.Start? ==> mode.Serving?)
        && (!action.Stop? && !action.Start? ==> mode == old(mode))
      ensures OnlyEnds(old(tables.commands), id, blocker.None?, tables.commands)
      ensures Published() && OnlyMode(old(tables.members), tables.members, instance, mode)
    {
      var action := tables.commands[id].action;
      match action {
        case Stop =>
          if mode.Stopped? {
            tables.FinishCommand(id, Done);
            return;
          }
          SetMode(Stopped);
          tables.FinishCommand(id, Done);
        case Start =>
          if mode.Serving? {
            tables.FinishCommand(id, Done);
            return;
          }
          SetMode(Serving);
          tables.FinishCommand(id, Done);
        case Restart =>
          if blocker.Some? {
            tables.FinishCommand(id, Failed);
            return;
          }
          restartRequested := true;
          assert tables.commands == Finished(tables.commands, id, Executing);
        case Unknown(_) =>
          tables.FinishCommand(id, Failed);
      }
    }

    /**
     The pass over what was read, with nobody else writing meanwhile: each command
     is carried out once and in order, every other one is untouched.
     */
    method ClaimAndExecute(pending: seq<nat>, now: int)
      requires PendingFor(tables.commands, instance, pending) && Published()
      modifies this`mode, this`restartRequested, tables
      ensures Published()
      ensures mode == ModeAfter(old(mode), ActionsOf(old(tables.commands), pending))
      ensures tables.commands == CarriedOut(old(tables.commands), pending, blocker.None?, now)
      ensures ExactlyThese(old(tables.commands), pending, blocker.None?, now, tables.commands)
      ensures LeftIn(old(mode), ActionsOf(old(tables.commands), pending), mode)
      ensures OnlyMode(old(tables.members), tables.members, instance, mode)
    {
      hide ModeAfter, EndOf, ActionsOf, CarriedOut, Finished, LeftIn, ExactlyThese, OnlyEnds;
      ghost var before, members := tables.commands, tables.members;
      NothingCarried(before, blocker.None?, now, mode);
      assert pending[..0] == [];
      var i := 0;
      while i < |pending|
        invariant 0 <= i <= |pending| && Published()
        invariant tables.commands == CarriedOut(before, pending[..i], blocker.None?, now)
        invariant mode == ModeAfter(old(mode), ActionsOf(before, pending[..i]))
        invariant OnlyMode(members, tables.members, instance, mode)
      {
        var id := pending[i];
        assert pending[..i + 1] == pending[..i] + [id];
        assert id in pending && id !in pending[..i];
        CarriedOneMore(before, pending[..i], id, blocker.None?, now);
        ModeOneMore(before, pending[..i], id, old(mode));
        var claimed := tables.ClaimCommand(id, now);
        if claimed {
          Execute(id);
        }
        i := i + 1;
      }
      assert pending[..i] == pending;
      CarriedIsExact(before, pending, blocker.None?, now);
      ModeIsLeft(old(mode), ActionsOf(before, pending));
    }

    /**
     One heartbeat with nobody else writing: the replica publishes itself, stale
     commands are closed, and none of its own is left pending.
     */
    method Tick(pending: seq<nat>, now: int)
      requires PendingFor(Expiring(tables.commands, now), instance, pending)
      modifies this`mode, this`restartRequested, tables
      ensures Published()
      ensures ExactlyThese(Expiring(old(tables.commands), now), pending, blocker.None?, now, tables.commands)
      ensures forall id <- pending :: id in old(tables.commands)
      ensures LeftIn(old(mode), ActionsOf(old(tables.commands), pending), mode)
      ensures forall id <- old(tables.members) :: id != instance ==>
                id in tables.members && tables.members[id] == old(tables.members)[id]
      ensures tables.members.Keys == old(tables.members).Keys + {instance}
      ensures tables.members[instance] == Member(Some(now), mode, blocker.None?)
      ensures forall id <- tables.commands :: tables.commands[id].instance == instance ==>
                !tables.commands[id].status.Pending?
      ensures forall id <- old(tables.commands) :: IsStale(old(tables.commands)[id], now) ==>
                id in tables.commands && tables.commands[id] == old(tables.commands)[id].(status := Expired)
    {
      ghost var swept := Expiring(tables.commands, now);
      ExpiringIs(tables.commands, now);
      assert ActionsOf(swept, pending) == ActionsOf(tables.commands, pending);
      hide ModeAfter, ActionsOf, EndOf, Swept, LeftIn, Expiring;
      tables.PublishMember(instance, Member(Some(now), mode, blocker.None?));
      tables.ExpireCommands(now);
      ClaimAndExecute(pending, now);
    }

    /**
     A process that comes back: stopped if it was left stopped, and the restarts
     it was carrying out are done.
     */
    method Restore(restarts: seq<nat>)
      requires forall id ::
        id in restarts <==> id in tables.commands && tables.commands[id].instance == instance
                            && tables.commands[id].action.Restart? && tables.commands[id].status.Executing?
      modifies this`mode, tables
      ensures mode == if instance in old(tables.members) && old(tables.members)[instance].mode.Stopped?
                      then Stopped else old(mode)
      ensures tables.commands.Keys == old(tables.commands).Keys
      ensures forall id <- old(tables.commands) ::
        tables.commands[id] ==
        if id in restarts then old(tables.commands)[id].(status := Done) else old(tables.commands)[id]
    {
      ghost var before := tables.commands;
      if instance in tables.members && tables.members[instance].mode.Stopped? {
        SetMode(Stopped);
      }
      ghost var left := mode;
      var i := 0;
      while i < |restarts|
        invariant mode == left
        invariant 0 <= i <= |restarts| && tables.commands.Keys == before.Keys
        invariant forall id <- before ::
          tables.commands[id] == if id in restarts[..i] then before[id].(status := Done) else before[id]
      {
        assert restarts[..i + 1] == restarts[..i] + [restarts[i]];
        tables.FinishCommand(restarts[i], Done);
        i := i + 1;
      }
      assert restarts[..i] == restarts;
    }
  }
}
