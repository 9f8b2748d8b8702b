/**
 The backups directory under retention: retired snapshots are emptied, abandoned stages and
 doomed snapshots are renamed to retired ones first, one durable step at a time.
 */
module SnapshotStore {
  import opened Outcomes
  import opened SnapshotRetention

  /** The forms in which a retired snapshot may have been named. */
  datatype RetiredForm = Plain | FromFinal | FromStage

  datatype Name = Published(id: nat) | Staged(id: nat) | Retired(id: nat, form: RetiredForm)

  /** What a snapshot directory holds; foreign means anything but its two files. */
  datatype Files = Files(database: bool, manifest: bool, foreign: bool)

  /** Unknown counts directory entries no snapshot name matches. */
  datatype Backups = Backups(entries: map<Name, Files>, maintenance: bool, unknown: nat)

  function PublishedIds(d: Backups): set<nat> {
    set name | name in d.entries && name.Published? :: name.id
  }

  predicate Doomed(d: Backups, protected: set<nat>, now: nat, name: Name) {
    match name
    case Retired(_, _) => true
    case Staged(id) => id !in protected
    case Published(id) => !Survives(PublishedIds(d), protected, now, id)
  }

  /** The checks made before the first change. */
  predicate Accepted(d: Backups, protected: set<nat>, now: nat) {
    && d.unknown == 0
    && |d.entries.Keys| + (if d.maintenance then 1 else 0) <= ROOT_ENTRY_MAXIMUM
    && forall name :: name in d.entries ==>
         && Timestamp(name.id) <= now
         && (name.Retired? ==> name.id !in protected)
  }

  predicate DoomedAreClean(d: Backups, protected: set<nat>, now: nat) {
    forall name :: name in d.entries && Doomed(d, protected, now, name) ==> !d.entries[name].foreign
  }

  function Retained(d: Backups, protected: set<nat>, now: nat): Backups {
    d.(entries := map name | name in d.entries && !Doomed(d, protected, now, name) :: d.entries[name])
  }

  /** What is left are exactly the survivors, and the stages of protected snapshots. */
  lemma EndHoldsTheSurvivors(d: Backups, protected: set<nat>, now: nat)
    ensures PublishedIds(Retained(d, protected, now)) == Survivors(PublishedIds(d), protected, now)
    ensures |PublishedIds(Retained(d, protected, now))| <=
            (if |PublishedIds(d) * protected| > RETENTION_MAXIMUM then |PublishedIds(d) * protected|
             else RETENTION_MAXIMUM)
    ensures forall id :: Staged(id) in Retained(d, protected, now).entries <==>
                         Staged(id) in d.entries && id in protected
    ensures forall id, form :: Retired(id, form) !in Retained(d, protected, now).entries
  {
    SurvivorsAreFew(PublishedIds(d), protected, now);
    var left := PublishedIds(Retained(d, protected, now));
    forall id | id in Survivors(PublishedIds(d), protected, now) ensures id in left {
      assert Published(id) in Retained(d, protected, now).entries;
    }
  }

  // ---------------------------------------------------------------- durable steps

  datatype Step =
    | RemoveDatabase(name: Name)
    | RemoveManifest(name: Name)
    | RemoveDirectory(name: Name)
    | Rename(name: Name)

  predicate Enabled(d: Backups, step: Step, protected: set<nat>, now: nat) {
    && step.name in d.entries
    && match step
       case RemoveDatabase(name) => name.Retired?
       case RemoveManifest(name) => name.Retired?
       case RemoveDirectory(name) => name.Retired? && d.entries[name] == Files(false, false, false)
       case Rename(name) =>
         !name.Retired? && Doomed(d, protected, now, name) && Retired(name.id, Plain) !in d.entries
  }

  function Apply(d: Backups, step: Step): Backups {
    if step.name !in d.entries then d
    else
      var files := d.entries[step.name];
      match step
      case RemoveDatabase(name) => d.(entries := d.entries[name := files.(database := false)])
      case RemoveManifest(name) => d.(entries := d.entries[name := files.(manifest := false)])
      case RemoveDirectory(name) => d.(entries := d.entries - {name})
      case Rename(name) => d.(entries := (d.entries - {name})[Retired(name.id, Plain) := files])
  }

  lemma StepOnIds(d: Backups, step: Step, protected: set<nat>, now: nat)
    requires Enabled(d, step, protected, now)
    ensures PublishedIds(Apply(d, step)) ==
            (if step.Rename? && step.name.Published? then PublishedIds(d) - {step.name.id} else PublishedIds(d))
  {
    var e := Apply(d, step);
    forall id | id in PublishedIds(d) && !(step.Rename? && step.name == Published(id))
      ensures id in PublishedIds(e)
    {
      assert Published(id) in e.entries;
    }
    forall id | id in PublishedIds(e) ensures Published(id) in d.entries {
    }
  }

  /** A step leaves every other verdict as it is, now and at any later time. */
  lemma StepKeepsVerdicts(d: Backups, step: Step, protected: set<nat>, now: nat, later: nat, name: Name)
    requires Enabled(d, step, protected, now) && now <= later
    requires name in Apply(d, step).entries && name != Retired(step.name.id, Plain)
    ensures Doomed(Apply(d, step), protected, later, name) <==> Doomed(d, protected, later, name)
  {
    StepOnIds(d, step, protected, now);
    var ids := PublishedIds(d);
    if step.Rename? && step.name.Published? {
      var gone := step.name.id;
      assert gone in ids;
      DoomedStayDoomed(ids, protected, now, later, gone);
      DoomedDoNotMatter(ids, protected, later, gone);
      if name.Published? {
        assert name.id in ids - {gone};
        assert name.id in Survivors(ids - {gone}, protected, later) <==> name.id in Survivors(ids, protected, later);
      }
    }
  }

  lemma RenamedIsDoomedLater(d: Backups, protected: set<nat>, now: nat, later: nat, name: Name)
    requires name in d.entries && Doomed(d, protected, now, name) && now <= later
    ensures Doomed(d, protected, later, name)
  {
    if name.Published? {
      assert name.id in PublishedIds(d);
      DoomedStayDoomed(PublishedIds(d), protected, now, later, name.id);
    }
  }

  /** Each durable step leaves the end state of every later retention where it was. */
  lemma StepKeepsEnd(d: Backups, step: Step, protected: set<nat>, now: nat, later: nat)
    requires Enabled(d, step, protected, now) && now <= later
    ensures Retained(Apply(d, step), protected, later) == Retained(d, protected, later)
  {
    var e := Apply(d, step);
    RenamedIsDoomedLater(d, protected, now, later, step.name);
    forall name | name in e.entries && name != Retired(step.name.id, Plain)
      ensures Doomed(e, protected, later, name) <==> Doomed(d, protected, later, name)
    {
      StepKeepsVerdicts(d, step, protected, now, later, name);
    }
    assert Retained(e, protected, later).entries == Retained(d, protected, later).entries;
  }

  lemma WithoutOne(names: set<Name>, name: Name)
    requires name in names
    ensures |names - {name}| == |names| - 1
  {
  }

  lemma StepCounts(d: Backups, step: Step, protected: set<nat>, now: nat)
    requires Enabled(d, step, protected, now)
    ensures |Apply(d, step).entries.Keys| <= |d.entries.Keys|
  {
    var e := Apply(d, step);
    match step
    case RemoveDatabase(name) => assert e.entries.Keys == d.entries.Keys;
    case RemoveManifest(name) => assert e.entries.Keys == d.entries.Keys;
    case RemoveDirectory(name) =>
      assert e.entries.Keys == d.entries.Keys - {name};
      WithoutOne(d.entries.Keys, name);
    case Rename(name) =>
      assert e.entries.Keys == d.entries.Keys - {name} + {Retired(name.id, Plain)};
      WithoutOne(d.entries.Keys, name);
  }

  lemma StepKeepsAccepted(d: Backups, step: Step, protected: set<nat>, now: nat)
    requires Enabled(d, step, protected, now) && Accepted(d, protected, now)
    ensures Accepted(Apply(d, step), protected, now)
  {
    StepCounts(d, step, protected, now);
  }

  /** Where an entry is found after a step. */
  function Moved(step: Step, name: Name): Name {
    if step == Rename(name) then Retired(name.id, Plain) else name
  }

  /** Foreign contents in a doomed entry are never removed. */
  lemma StepKeepsClean(d: Backups, step: Step, protected: set<nat>, now: nat)
    requires Enabled(d, step, protected, now)
    ensures DoomedAreClean(Apply(d, step), protected, now) <==> DoomedAreClean(d, protected, now)
  {
    var e := Apply(d, step);
    forall name | name in e.entries && name != Retired(step.name.id, Plain)
      ensures Doomed(e, protected, now, name) <==> Doomed(d, protected, now, name)
    {
      StepKeepsVerdicts(d, step, protected, now, now, name);
    }
    if !DoomedAreClean(d, protected, now) {
      var name :| name in d.entries && Doomed(d, protected, now, name) && d.entries[name].foreign;
      assert Moved(step, name) in e.entries && e.entries[Moved(step, name)].foreign;
      assert Doomed(e, protected, now, Moved(step, name));
    }
  }

  // ---------------------------------------------------------------- retention

  /** A later retention ends in the same state from here as from the origin. */
  ghost predicate SameEnds(d: Backups, origin: Backups, protected: set<nat>, now: nat) {
    forall later :: now <= later ==> Retained(d, protected, later) == Retained(origin, protected, later)
  }

  ghost predicate Recoverable(d: Backups, origin: Backups, protected: set<nat>, now: nat) {
    && Accepted(d, protected, now)
    && SameEnds(d, origin, protected, now)
    && (DoomedAreClean(d, protected, now) <==> DoomedAreClean(origin, protected, now))
  }

  lemma StepRecovers(d: Backups, step: Step, protected: set<nat>, now: nat)
    requires Enabled(d, step, protected, now) && Accepted(d, protected, now)
    ensures Recoverable(Apply(d, step), d, protected, now)
  {
    StepKeepsAccepted(d, step, protected, now);
    StepKeepsClean(d, step, protected, now);
    forall later | now <= later
      ensures Retained(Apply(d, step), protected, later) == Retained(d, protected, later)
    {
      StepKeepsEnd(d, step, protected, now, later);
    }
  }

  lemma RecoverableChain(a: Backups, b: Backups, c: Backups, protected: set<nat>, now: nat)
    requires Recoverable(b, a, protected, now) && Recoverable(c, b, protected, now)
    ensures Recoverable(c, a, protected, now)
  {
  }

  function RetiredNames(d: Backups): set<Name> {
    set name | name in d.entries && name.Retired?
  }

  function AbandonedStages(d: Backups, protected: set<nat>): set<Name> {
    set name | name in d.entries && name.Staged? && name.id !in protected
  }

  function DoomedPublished(d: Backups, protected: set<nat>, now: nat): set<Name> {
    set name | name in d.entries && name.Published? && Doomed(d, protected, now, name)
  }

  /**
   The backups directory. A durable step may throw before or after it happened, and the process
   may die there; a dead process writes nothing more.
   */
  class Store {
    var disk: Backups
    var alive: bool
    const calm: bool
    ghost var states: seq<Backups>

    constructor (disk: Backups, calm: bool)
      ensures this.disk == disk && this.calm == calm && alive && states == [disk]
    {
      this.disk, this.calm, alive, states := disk, calm, true, [disk];
    }

    /** Every state written since is one from which a later retention ends the same. */
    ghost predicate Continues(origin: Backups, log: seq<Backups>, protected: set<nat>, now: nat)
      reads this
    {
      && log <= states
      && Recoverable(disk, origin, protected, now)
      && forall i :: |log| <= i < |states| ==> Recoverable(states[i], origin, protected, now)
    }

    method Depend() returns (ok: bool)
      modifies this`alive
      ensures ok ==> alive
      ensures calm || !old(alive) ==> alive == old(alive)
      ensures calm && old(alive) ==> ok
    {
      ok := false;
      if !alive { return; }
      var fails: bool := *;
      if fails && !calm {
        alive := *;
        return;
      }
      ok := true;
    }

    method Perform(step: Step, protected: set<nat>, now: nat, ghost origin: Backups, ghost log: seq<Backups>)
      returns (ok: bool)
      requires Enabled(disk, step, protected, now) && Continues(origin, log, protected, now)
      modifies this
      ensures Continues(origin, log, protected, now)
      ensures disk == old(disk) || disk == Apply(old(disk), step)
      ensures ok ==> alive && disk == Apply(old(disk), step)
      ensures calm && old(alive) ==> ok
      ensures calm ==> alive == old(alive)
    {
      ok := Depend();
      if !ok { return; }
      StepRecovers(disk, step, protected, now);
      RecoverableChain(origin, disk, Apply(disk, step), protected, now);
      disk := Apply(disk, step);
      states := states + [disk];
      ok := Depend();
    }

    /** Unlinks the database and the manifest, in that order, where they exist. */
    method EmptyRetired(name: Name, protected: set<nat>, now: nat, ghost origin: Backups, ghost log: seq<Backups>)
      returns (ok: bool)
      requires alive && name in disk.entries && name.Retired? && !disk.entries[name].foreign
      requires Continues(origin, log, protected, now)
      modifies this
      ensures Continues(origin, log, protected, now)
      ensures ok ==> alive && disk == old(disk).(entries := old(disk).entries[name := Files(false, false, false)])
      ensures calm ==> alive && ok
    {
      var files := disk.entries[name];
      assert disk.entries[name := files] == disk.entries;
      ok := true;
      if files.database {
        ok := Perform(RemoveDatabase(name), protected, now, origin, log);
        if !ok { return; }
      }
      if files.manifest {
        ok := Perform(RemoveManifest(name), protected, now, origin, log);
      }
    }

    /** Empties one retired snapshot and removes its directory; foreign contents stop it first. */
    method Reap(name: Name, protected: set<nat>, now: nat, ghost origin: Backups, ghost log: seq<Backups>)
      returns (ok: bool)
      requires alive && name in disk.entries && name.Retired? && Continues(origin, log, protected, now)
      modifies this
      ensures Continues(origin, log, protected, now)
      ensures ok ==> alive && disk == old(disk).(entries := old(disk).entries - {name})
      ensures calm ==> alive && (ok <==> !old(disk).entries[name].foreign)
    {
      ok := Depend();
      if !ok { return; }
      if disk.entries[name].foreign { return false; }
      ok := EmptyRetired(name, protected, now, origin, log);
      if !ok { return; }
      ok := Perform(RemoveDirectory(name), protected, now, origin, log);
      assert old(disk).entries[name := Files(false, false, false)] - {name} == old(disk).entries - {name};
    }

    /** Retires one doomed stage or snapshot, then reaps it. */
    method RetireAndReap(name: Name, protected: set<nat>, now: nat, ghost origin: Backups, ghost log: seq<Backups>)
      returns (ok: bool)
      requires alive && name in disk.entries && !name.Retired? && Doomed(disk, protected, now, name)
      requires RetiredNames(disk) == {} && Continues(origin, log, protected, now)
      modifies this
      ensures Continues(origin, log, protected, now)
      ensures ok ==> alive && disk == old(disk).(entries := old(disk).entries - {name})
      ensures calm ==> alive && (ok <==> !old(disk).entries[name].foreign)
    {
      assert Retired(name.id, Plain) !in RetiredNames(disk);
      ok := Perform(Rename(name), protected, now, origin, log);
      if !ok { return; }
      ok := Reap(Retired(name.id, Plain), protected, now, origin, log);
    }

    method ReapRetired(protected: set<nat>, now: nat, ghost origin: Backups, ghost log: seq<Backups>)
      returns (ok: bool)
      requires alive && Continues(origin, log, protected, now)
      modifies this
      ensures Continues(origin, log, protected, now)
      ensures ok ==> alive && RetiredNames(disk) == {}
      ensures calm ==> alive && (!ok ==> !DoomedAreClean(origin, protected, now))
    {
      while RetiredNames(disk) != {}
        invariant alive && Continues(origin, log, protected, now)
        decreases |RetiredNames(disk)|
      {
        var name :| name in RetiredNames(disk);
        ghost var before := RetiredNames(disk);
        ok := Reap(name, protected, now, origin, log);
        if !ok { return; }
        assert RetiredNames(disk) == before - {name};
      }
      return true;
    }

    method RetireStages(protected: set<nat>, now: nat, ghost origin: Backups, ghost log: seq<Backups>)
      returns (ok: bool)
      requires alive && RetiredNames(disk) == {} && Continues(origin, log, protected, now)
      modifies this
      ensures Continues(origin, log, protected, now)
      ensures ok ==> alive && RetiredNames(disk) == {} && AbandonedStages(disk, protected) == {}
      ensures calm ==> alive && (!ok ==> !DoomedAreClean(origin, protected, now))
    {
      while AbandonedStages(disk, protected) != {}
        invariant alive && RetiredNames(disk) == {} && Continues(origin, log, protected, now)
        decreases |AbandonedStages(disk, protected)|
      {
        var name :| name in AbandonedStages(disk, protected);
        ghost var before, retired := AbandonedStages(disk, protected), RetiredNames(disk);
        ok := RetireAndReap(name, protected, now, origin, log);
        if !ok { return; }
        assert AbandonedStages(disk, protected) == before - {name};
        assert RetiredNames(disk) == retired;
      }
      return true;
    }

    /** The doomed are selected once; removing some never changes the verdict on the others. */
    method RetirePublished(protected: set<nat>, now: nat, ghost origin: Backups, ghost log: seq<Backups>)
      returns (ok: bool)
      requires alive && RetiredNames(disk) == {} && AbandonedStages(disk, protected) == {}
      requires Continues(origin, log, protected, now)
      modifies this
      ensures Continues(origin, log, protected, now)
      ensures ok ==> alive && RetiredNames(disk) == {} && AbandonedStages(disk, protected) == {}
      ensures ok ==> DoomedPublished(disk, protected, now) == {}
      ensures calm ==> alive && (!ok ==> !DoomedAreClean(origin, protected, now))
    {
      var listed := Listing(PublishedIds(disk));
      var kept := KeptUnprotected(listed, protected, now);
      var todo := set id | id in PublishedIds(disk) && id !in protected && id !in kept :: Published(id);
      assert Elements(listed) == PublishedIds(disk);
      assert todo == DoomedPublished(disk, protected, now);
      while todo != {}
        invariant alive && Continues(origin, log, protected, now)
        invariant RetiredNames(disk) == {} && AbandonedStages(disk, protected) == {}
        invariant todo == DoomedPublished(disk, protected, now)
        decreases |todo|
      {
        var name :| name in todo;
        ghost var stages, retired := AbandonedStages(disk, protected), RetiredNames(disk);
        ghost var d := disk;
        ok := RetireAndReap(name, protected, now, origin, log);
        if !ok { return; }
        assert AbandonedStages(disk, protected) == stages && RetiredNames(disk) == retired;
        DoomedWithout(d, disk, protected, now, name);
        todo := todo - {name};
      }
      return true;
    }

    /**
     The whole retention. Refused, it changes nothing. Otherwise every durable state leads to
     the same end under any later retention, and a return has reached the end itself.
     */
    method Retain(protected: set<nat>, now: nat) returns (ok: bool)
      modifies this
      ensures !Accepted(old(disk), protected, now) ==> !ok && disk == old(disk) && states == old(states)
      ensures Accepted(old(disk), protected, now) ==> Continues(old(disk), old(states), protected, now)
      ensures ok ==> disk == Retained(old(disk), protected, now)
      ensures calm && old(alive) ==>
                (ok <==> Accepted(old(disk), protected, now) && DoomedAreClean(old(disk), protected, now))
    {
      ok := Depend();
      if !ok { return; }
      if !Accepted(disk, protected, now) { return false; }
      ghost var origin, log := disk, states;
      ok := ReapRetired(protected, now, origin, log);
      if !ok { return; }
      ok := RetireStages(protected, now, origin, log);
      if !ok { return; }
      ok := RetirePublished(protected, now, origin, log);
      if !ok { return; }
      NothingDoomed(disk, protected, now);
      ok := Depend();
    }
  }

  /** The directory listing, in some order. */
  method Listing(ids: set<nat>) returns (listed: seq<nat>)
    ensures NoRepeats(listed) && Elements(listed) == ids
  {
    listed := [];
    var rest := ids;
    while rest != {}
      invariant NoRepeats(listed) && rest <= ids && Elements(listed) == ids - rest
      decreases rest
    {
      var id :| id in rest;
      assert id !in Elements(listed);
      assert Elements(listed + [id]) == Elements(listed) + {id};
      listed, rest := listed + [id], rest - {id};
    }
  }

  lemma DoomedWithout(d: Backups, e: Backups, protected: set<nat>, now: nat, gone: Name)
    requires gone in DoomedPublished(d, protected, now) && e == d.(entries := d.entries - {gone})
    ensures DoomedPublished(e, protected, now) == DoomedPublished(d, protected, now) - {gone}
  {
    var ids := PublishedIds(d);
    forall id | id in ids - {gone.id} ensures id in PublishedIds(e) {
      assert Published(id) in e.entries;
    }
    assert PublishedIds(e) == ids - {gone.id};
    DoomedDoNotMatter(ids, protected, now, gone.id);
    forall name | name in e.entries && name.Published?
      ensures Doomed(e, protected, now, name) <==> Doomed(d, protected, now, name)
    {
      assert name.id in PublishedIds(e);
      assert name.id in Survivors(ids - {gone.id}, protected, now) <==> name.id in Survivors(ids, protected, now);
    }
  }

  lemma NothingDoomed(d: Backups, protected: set<nat>, now: nat)
    requires RetiredNames(d) == {} && AbandonedStages(d, protected) == {} && DoomedPublished(d, protected, now) == {}
    ensures Retained(d, protected, now) == d && DoomedAreClean(d, protected, now)
  {
    forall name | name in d.entries ensures !Doomed(d, protected, now, name) {
      assert name !in RetiredNames(d) && name !in AbandonedStages(d, protected);
      assert name !in DoomedPublished(d, protected, now);
    }
    assert Retained(d, protected, now).entries == d.entries;
  }

  /** Rerunning at the same time removes nothing. */
  lemma RetentionIsIdempotent(d: Backups, protected: set<nat>, now: nat)
    ensures Retained(Retained(d, protected, now), protected, now) == Retained(d, protected, now)
  {
    var e := Retained(d, protected, now);
    var ids := PublishedIds(d);
    EndHoldsTheSurvivors(d, protected, now);
    SurvivorsSurvive(ids, protected, now);
    forall name | name in e.entries ensures !Doomed(e, protected, now, name) {
      if name.Published? {
        assert name.id in PublishedIds(e);
        assert name.id in Survivors(PublishedIds(e), protected, now);
      }
    }
    assert Retained(e, protected, now).entries == e.entries;
  }

  /** An interrupted retention followed by a later one ends as the later one alone would. */
  method RetainTwice(store: Store, protected: set<nat>, now: nat, later: nat) returns (ok: bool)
    requires now <= later
    modifies store
    ensures ok && Accepted(old(store.disk), protected, now) ==>
              store.disk == Retained(old(store.disk), protected, later)
  {
    var first := store.Retain(protected, now);
    store.alive := true;
    ok := store.Retain(protected, later);
  }
}
