/**
 One production host while a delivery process runs on it: the disk, the process's own life,
 and the run so far. `Perform` is the only operation that writes; it may throw before or
 after its write, and the process may die there. A dead process changes nothing more, so a
 crash between two writes is a death between two `Perform` calls. On a calm host nothing
 throws, nobody dies and services do not write, except that the releases in `unready` never
 become ready.
 */
module ProductionHost {
  import opened Outcomes
  import opened ActivationRecords
  import opened ActivationProtocol
  import opened ActivationRuns

  datatype Recovery = NotPromoted | Promoted(identity: FileIdentity)

  /** Running services may have rewritten the live file; its object and lineage stay. */
  predicate Drifted(a: Disk, b: Disk) {
    && b == a.(live := b.live, clock := b.clock, running := b.running)
    && a.clock <= b.clock
    && (a.live.None? <==> b.live.None?)
    && (a.live.Some? ==>
          && b.live.value.image.owner == a.live.value.image.owner
          && b.live.value.identity.inode == a.live.value.identity.inode)
  }

  /** The live databases have the same contents, or there is none in either. */
  predicate SameImage(a: Disk, b: Disk) {
    (a.live.None? && b.live.None?) || (a.live.Some? && b.live.Some? && a.live.value.image == b.live.value.image)
  }

  predicate SameArtifacts(a: Disk, b: Disk) {
    a.releases == b.releases && a.runtimes == b.runtimes
  }

  predicate OnlyWorkspaces(a: Disk, b: Disk) {
    b == a.(workspaces := b.workspaces, clock := b.clock) && a.clock <= b.clock
  }

  /** The first activation has no services to restart. */
  predicate Restartable(previous: Option<Artifact>, unready: set<Artifact>) {
    previous.Some? ==> previous.value !in unready
  }

  /** What the restore of a promoted database still needs on disk. */
  predicate CanRestore(d: Disk, j: Journal) {
    match j.previousDatabase
    case Unrecorded => false
    case Absent => j.transitionId in d.workspaces
    case Present(_, _) => HasCandidateDirectory(d, j.transitionId)
  }

  /** Migration leaves a database of the same release alone. */
  function Migrated(database: Option<DatabaseFile>, artifact: Artifact, clock: nat): Image {
    if database.None? then Image(artifact, clock)
    else Image(artifact, database.value.image.contents)
  }

  class Host {
    var disk: Disk
    var alive: bool
    const calm: bool
    const unready: set<Artifact>
    ghost var states: seq<Disk>
    ghost var steps: seq<Action>

    ghost predicate Valid()
      reads this
    {
      && IsRun(states, steps)
      && states[|steps|] == disk
      && Invariant(disk)
    }

    /** The run is only ever extended. */
    ghost predicate Extends(before: seq<Disk>, did: seq<Action>)
      reads this
    {
      before <= states && did <= steps
    }

    constructor (initial: Disk, calm: bool, unready: set<Artifact>)
      requires Invariant(initial)
      ensures Valid() && disk == initial && alive && states == [initial] && steps == []
      ensures this.calm == calm && this.unready == unready
    {
      disk, alive, states, steps := initial, true, [initial], [];
      this.calm, this.unready := calm, unready;
    }

    ghost method Record(action: Action, next: Disk)
      requires Valid() && Enabled(disk, action) && next == Apply(disk, action)
      modifies this`states, this`steps
      ensures IsRun(states, steps) && states == old(states) + [next] && steps == old(steps) + [action]
      ensures Invariant(next)
    {
      StepKeepsInvariant(disk, action);
      states, steps := states + [next], steps + [action];
      forall i | 0 <= i < |steps| ensures StepAt(states, steps, i) {
        if i < |old(steps)| {
          assert StepAt(old(states), old(steps), i);
        }
      }
    }

    /** One durable write that may throw before or after it happened. */
    method Perform(action: Action) returns (ok: bool)
      requires Valid() && Enabled(disk, action)
      modifies this
      ensures Valid() && Extends(old(states), old(steps))
      ensures disk == old(disk) || disk == Apply(old(disk), action)
      ensures ok ==> alive && disk == Apply(old(disk), action)
      ensures calm && old(alive) ==> ok
      ensures !old(alive) ==> !alive && disk == old(disk)
    {
      ok := false;
      if !alive { return; }
      var early: bool := *;
      if early && !calm {
        alive := *;
        return;
      }
      var next := Apply(disk, action);
      Record(action, next);
      disk := next;
      var late: bool := *;
      if late && !calm {
        alive := *;
        return;
      }
      ok := true;
    }

    /** A read, a check or an external command that leaves the modelled disk alone. */
    method Depend() returns (ok: bool)
      requires Valid()
      modifies this`alive
      ensures Valid()
      ensures ok ==> alive
      ensures calm && old(alive) ==> ok
      ensures !old(alive) ==> !alive
    {
      ok := false;
      if !alive { return; }
      var fails: bool := *;
      if fails && !calm {
        alive := *;
        return;
      }
      ok := true;
    }

    /** Whatever services are running may write their database now. */
    method Serve()
      requires Valid()
      modifies this`disk, this`states, this`steps
      ensures Valid() && Extends(old(states), old(steps))
      ensures Drifted(old(disk), disk) && disk.running == old(disk.running)
      ensures calm || old(disk.running).None? ==> disk == old(disk)
    {
      var writes: bool := *;
      if writes && !calm && disk.running.Some? && disk.live.Some? {
        var next := Apply(disk, ServiceWrite);
        Record(ServiceWrite, next);
        disk := next;
      }
    }

    /** A new delivery process after a crash; services survived it and may have written. */
    method Restart()
      requires Valid()
      modifies this
      ensures Valid() && Extends(old(states), old(steps)) && alive
      ensures Drifted(old(disk), disk) && disk.running == old(disk.running)
    {
      alive := true;
      Serve();
    }

    method StopServices() returns (ok: bool)
      requires Valid()
      modifies this
      ensures Valid() && Extends(old(states), old(steps))
      ensures Drifted(old(disk), disk)
      ensures disk.running.None? || disk.running == old(disk.running)
      ensures ok ==> alive && disk.running.None?
      ensures calm || old(disk.running).None? ==> disk.live == old(disk.live)
      ensures calm && old(alive) ==> ok
    {
      Serve();
      ok := Perform(Action.StopServices);
    }

    /** Provision, prepare and start; a throw can leave the services running or not. */
    method PrepareAndStartServices(artifact: Artifact) returns (ok: bool)
      requires Valid()
      modifies this
      ensures Valid() && Extends(old(states), old(steps))
      ensures Drifted(old(disk), disk)
      ensures disk.running == Some(artifact) || disk.running == old(disk.running)
      ensures ok ==> alive && disk.running == Some(artifact)
      ensures calm ==> disk.live == old(disk.live)
      ensures calm && old(alive) ==> ok
    {
      ok := Depend();
      if !ok { return; }
      ok := Perform(StartServices(artifact));
      Serve();
    }

    method VerifyReady(artifact: Artifact) returns (ok: bool)
      requires Valid()
      modifies this
      ensures Valid() && Extends(old(states), old(steps))
      ensures Drifted(old(disk), disk) && disk.running == old(disk.running)
      ensures ok ==> alive
      ensures calm ==> disk.live == old(disk.live)
      ensures calm && old(alive) ==> alive && ok == (artifact !in unready)
    {
      Serve();
      ok := Depend();
      if calm && artifact in unready {
        ok := false;
      }
    }

    method Settle() returns (ok: bool)
      requires Valid()
      modifies this
      ensures Valid() && Extends(old(states), old(steps))
      ensures Drifted(old(disk), disk) && disk.running == old(disk.running)
      ensures ok ==> alive
      ensures calm ==> disk.live == old(disk.live)
      ensures calm && old(alive) ==> ok
    {
      Serve();
      ok := Depend();
    }

    method LoadJournal() returns (ok: bool, journal: Option<Journal>)
      requires Valid()
      modifies this`alive
      ensures Valid()
      ensures ok ==> alive && journal == disk.journal
      ensures calm && old(alive) ==> ok
      ensures !old(alive) ==> !alive
    {
      ok := Depend();
      journal := if ok then disk.journal else None;
    }

    method LoadActivation() returns (ok: bool, activation: Option<ActivationFile>)
      requires Valid()
      modifies this`alive
      ensures Valid()
      ensures ok ==> alive && activation == disk.activation
      ensures calm && old(alive) ==> ok
      ensures !old(alive) ==> !alive
    {
      ok := Depend();
      activation := if ok then disk.activation else None;
    }

    method LoadArtifacts(artifact: Artifact) returns (ok: bool)
      requires Valid()
      modifies this`alive
      ensures Valid()
      ensures ok ==> alive && Published(disk, artifact)
      ensures calm && old(alive) ==> alive && ok == Published(disk, artifact)
      ensures !old(alive) ==> !alive
    {
      ok := Depend();
      if !Published(disk, artifact) {
        ok := false;
      }
    }

    /** The journal's four phase transitions: exact compare-and-swap, then replace. */
    method MarkJournal(expected: Journal, next: Journal) returns (ok: bool)
      requires Valid() && Enabled(disk, AdvanceJournal(next)) && disk.journal == Some(expected)
      modifies this
      ensures Valid() && Extends(old(states), old(steps))
      ensures disk == old(disk) || disk == old(disk).(journal := Some(next))
      ensures ok ==> alive && disk == old(disk).(journal := Some(next))
      ensures calm && old(alive) ==> ok
    {
      var read, actual := LoadJournal();
      if !read || actual != Some(expected) { return false; }
      ok := Perform(AdvanceJournal(next));
    }

    method ClearJournal(expected: Journal) returns (ok: bool)
      requires Valid() && (disk.journal == Some(expected) ==> Enabled(disk, Action.ClearJournal))
      modifies this
      ensures Valid() && Extends(old(states), old(steps))
      ensures disk == old(disk) || (disk == old(disk).(journal := None) && old(disk).journal == Some(expected))
      ensures ok ==> alive && disk == old(disk).(journal := None)
      ensures calm && old(alive) && old(disk).journal == Some(expected) ==> ok
    {
      var read, actual := LoadJournal();
      if !read || actual != Some(expected) { return false; }
      ok := Perform(Action.ClearJournal);
    }

    /** Removes the files, the candidate directory and the root, in that order. */
    method DiscardWorkspace(id: nat) returns (ok: bool)
      requires Valid() && MayDiscard(disk, id)
      modifies this
      ensures Valid() && Extends(old(states), old(steps))
      ensures OnlyWorkspaces(old(disk), disk)
      ensures ok ==> alive && id !in disk.workspaces
      ensures calm && old(alive) ==> ok
    {
      ok := Depend();
      if !ok { return; }
      if HasCandidateDirectory(disk, id) {
        ok := DiscardCandidateDirectory(id);
        if !ok { return; }
      }
      if id in disk.workspaces {
        ok := Perform(RemoveWorkspace(id));
      }
    }

    method DiscardCandidateDirectory(id: nat) returns (ok: bool)
      requires Valid() && MayDiscard(disk, id) && HasCandidateDirectory(disk, id)
      modifies this
      ensures Valid() && Extends(old(states), old(steps))
      ensures OnlyWorkspaces(old(disk), disk)
      ensures ok ==> alive && id in disk.workspaces && disk.workspaces[id].Bare?
      ensures calm && old(alive) ==> ok
    {
      ok := Perform(EmptyCandidate(id));
      if !ok { return; }
      ok := Perform(RemoveCandidateDirectory(id));
    }

    /** Copies one verified immutable snapshot into the emptied candidate directory. */
    method CopySnapshot(id: nat, snapshotId: nat, manifest: Image) returns (ok: bool)
      requires Valid() && HasCandidateDirectory(disk, id)
      modifies this
      ensures Valid() && Extends(old(states), old(steps))
      ensures OnlyWorkspaces(old(disk), disk) && HasCandidateDirectory(disk, id)
      ensures disk.workspaces.Keys == old(disk).workspaces.Keys
      ensures ok ==> alive && disk.workspaces[id].database.Some? && disk.workspaces[id].database.value.image == manifest
      ensures calm && old(alive) && snapshotId in disk.snapshots && disk.snapshots[snapshotId] == manifest ==> ok
    {
      ok := Depend();
      if !ok { return; }
      if snapshotId !in disk.snapshots || disk.snapshots[snapshotId] != manifest { return false; }
      var torn: bool := *;
      if torn && !calm {
        var part: Image := *;
        var wrote := Perform(WriteCandidate(id, part));
        return false;
      }
      ok := Perform(WriteCandidate(id, manifest));
    }

    /** The release's maintenance process migrates the candidate; a failed one can leave anything. */
    method MaintainCandidate(id: nat, artifact: Artifact) returns (ok: bool)
      requires Valid() && HasCandidateDirectory(disk, id)
      modifies this
      ensures Valid() && Extends(old(states), old(steps))
      ensures OnlyWorkspaces(old(disk), disk) && HasCandidateDirectory(disk, id)
      ensures ok ==> alive && disk.workspaces[id].database.Some?
      ensures ok ==> disk.workspaces[id].database.value.image ==
                     Migrated(old(disk).workspaces[id].database, artifact, old(disk).clock)
      ensures calm && old(alive) && Published(disk, artifact) ==> ok
    {
      ok := LoadArtifacts(artifact);
      if !ok { return; }
      var torn: bool := *;
      if torn && !calm {
        var part: Image := *;
        var wrote := Perform(WriteCandidate(id, part));
        return false;
      }
      ok := Perform(WriteCandidate(id, Migrated(disk.workspaces[id].database, artifact, disk.clock)));
    }
  }
}
