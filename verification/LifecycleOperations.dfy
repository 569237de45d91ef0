/**
The procedures that drive a Battle activation: prepare, back up, commit with compensation, recover,
verify, roll back and clean up. Each one works on the disk step by step. Any file operation may fail,
as an oracle decides, and then has no effect; a crash is a procedure that stops between two steps.
Every disk state a procedure passes through is recorded, and every procedure proves that the record
stays a run of LifecycleProtocol, so the theorems there hold wherever a crash falls.
 */
module LifecycleOperations {
  import opened Common
  import opened LifecycleMarker
  import opened LifecycleProtocol
  import ActivationPreparation

  // How a journal procedure ends: the source's InvalidDataException family, its I/O family, and
  // InvalidOperationException.
  datatype Status = Done | Invalid | Unreachable | Illegal

  datatype CommitResult = Succeeded | Compensated | Blocked | Unavailable | Threw

  datatype RecoveryResult = NoOperation | Recovered | RecoveryBlocked | RecoveryUnavailable

  datatype BackupResult = BackupSucceeded | BackupBlocked | BackupUnavailable | BackupThrew

  function Latest(d: Disk): Option<Marker> { if d.next.Some? then d.next else d.marker }

  /** The operation has durably started to commit, perhaps only in a staged successor. */
  predicate Started(d: Disk) {
    d.marker.Some? && !PreCommit(Latest(d).value.stage)
  }

  /** The highest rung the resources stand on; 0 when they stand on none. */
  function Level(m: Marker, r: Resources): nat
    requires Bound(m)
  {
    if r == Rung(m, 3) then 3 else if r == Rung(m, 2) then 2 else if r == Rung(m, 1) then 1 else 0
  }

  /** The journal accepts s as the next marker. */
  predicate ReadyFor(d: Disk, s: Marker) {
    Inspect(d).state == Readable && d.marker.Some? && ValidSuccessor(d.marker.value, s)
  }

  lemma ReadableHasMarker(d: Disk)
    ensures Inspect(d).state == Readable ==> d.marker.Some? && Inspect(d).marker == d.marker
    ensures Inspect(d).state == RecoverableResidue ==> d.marker.Some?
    ensures Inspect(d).state == Absent <==> d.marker.None? && d.directory.Missing?
  {
  }

  lemma StagingIsPermitted(op: Operation, d: Disk, s: Marker)
    requires Inv(op, d) && ReadyFor(d, s)
    requires s.configuration.Some? && BackupIsFaithful(d, s) && s.stage != Failed
    requires s.stage == CommitStarted ==> Bound(s) && d.resources == Before(s)
    requires s.stage == CommitVerified ==>
      Bound(s) && d.resources == After(s) && s.configuration.value.source != s.configuration.value.candidate
    ensures Permits(op, d, StageSuccessor(s))
    ensures Apply(op, d, StageSuccessor(s)) == d.(next := Some(s))
  {
    hide ValidMarker;
    var m := d.marker.value;
    assert m.configuration.Some?;
    assert NextStage(m.stage).Some?;
    assert m.configuration.value.candidatePath in ExpectedCandidates(m).value;
    assert d.directory.CandidateDirectory?;
  }

  lemma InstallingIsPermitted(op: Operation, d: Disk)
    requires d.marker.Some? && d.next.Some?
    ensures Permits(op, d, InstallSuccessor)
    ensures Apply(op, d, InstallSuccessor) == d.(marker := d.next, next := None)
  {
  }

  lemma StartedInspection(op: Operation, d: Disk)
    requires Inv(op, d)
    ensures Inspect(d).state == RecoverableSuccessor ==> d.marker.Some? && d.next.Some?
    ensures Started(d) ==> Inspect(d).state == if d.next.Some? then RecoverableSuccessor else Readable
  {
    if d.marker.Some? {
      var m := d.marker.value;
      if d.next.Some? {
        SuccessorInspection(op, d);
      } else if !PreCommit(m.stage) {
        InspectionAfterCommitStarted(op, d);
      }
    }
  }

  lemma SuccessorInspection(op: Operation, d: Disk)
    requires Inv(op, d) && d.marker.Some? && d.next.Some?
    ensures Inspect(d).state == RecoverableSuccessor
  {
    hide ValidMarker, ValidSuccessor;
  }

  /** Installing a staged successor leaves a readable journal. */
  lemma InstalledIsReadable(op: Operation, d: Disk)
    requires Inv(op, d) && d.marker.Some? && d.next.Some?
    requires Inv(op, d.(marker := d.next, next := None))
    ensures Inspect(d.(marker := d.next, next := None)).state == Readable
  {
    hide ValidMarker;
    var m, s := d.marker.value, d.next.value;
    SuccessorKeepsBinding(m, s);
    BindingDetermines(m, s);
    assert m.configuration.value.candidatePath in ExpectedCandidates(m).value;
  }

  lemma PreparedIsUnbacked(op: Operation, d: Disk)
    requires Inv(op, d) && d.marker.Some? && d.marker.value.configuration.Some?
    requires d.marker.value.stage == Prepared || d.marker.value.stage == Quiesced
    ensures BackupOf(d.marker.value).None?
  {
  }

  /** Backups lie outside the journal. */
  lemma BackupsDoNotShow(d: Disk, d': Disk)
    requires d' == d.(backups := d'.backups)
    ensures Inspect(d') == Inspect(d)
  {
    hide ValidMarker, ValidSuccessor;
  }

  /** The next marker of a readable journal leaves it readable. */
  lemma ReadableAfterAdvance(d: Disk, s: Marker)
    requires ReadyFor(d, s) && d.marker.value.configuration.Some? && Binding(s) == Binding(d.marker.value)
    ensures Inspect(d.(marker := Some(s), next := None)).state == Readable
  {
    hide ValidMarker;
    assert ValidMarker(s);
    BindingDetermines(d.marker.value, s);
    assert d.marker.value.configuration.value.candidatePath in ExpectedCandidates(s).value;
  }

  /** Quiescing is accepted from Prepared unless the clock went back. */
  lemma QuiesceIsReady(d: Disk, m: Marker, s: Marker)
    requires Inspect(d).state == Readable && d.marker == Some(m) && m.stage == Prepared && m.configuration.Some?
    requires s == m.(stage := Quiesced, updated := s.updated)
    ensures ReadyFor(d, s) <==> m.updated <= s.updated
    ensures m.updated <= s.updated ==> Inspect(d.(marker := Some(s), next := None)).state == Readable && ValidMarker(s)
    ensures Inspect(d).state == Readable ==> ValidMarker(m)
  {
    assert ValidMarker(m);
    hide ValidMarker, Inspect;
    if m.updated <= s.updated {
      NextMarkerIsValid(m, s);
      ReadableAfterAdvance(d, s);
    }
  }

  /** Recording the verified backup is accepted from Quiesced unless the clock went back. */
  lemma BackupIsReady(d: Disk, m: Marker, s: Marker, id: string)
    requires Inspect(d).state == Readable && d.marker == Some(m) && m.stage == Quiesced && m.configuration.Some?
    requires BackupOf(m).None?
    requires s == m.(stage := BackupVerified, updated := s.updated,
                     configuration := Some(m.configuration.value.(backupId := Some(id), backupContents := Some(m.configuration.value.source))))
    ensures ReadyFor(d, s) <==> m.updated <= s.updated
  {
    assert ValidMarker(m);
    if m.updated <= s.updated {
      BackedUpIsValid(m, s, id);
      hide ValidMarker, Inspect;
      BackupSuccession(m, s);
    } else {
      hide ValidMarker, Inspect;
    }
  }

  lemma BackedUpIsValid(m: Marker, s: Marker, id: string)
    requires ValidMarker(m) && m.stage == Quiesced && m.configuration.Some? && BackupOf(m).None? && m.updated <= s.updated
    requires s == m.(stage := BackupVerified, updated := s.updated,
                     configuration := Some(m.configuration.value.(backupId := Some(id), backupContents := Some(m.configuration.value.source))))
    ensures ValidMarker(s) && m.configuration.value.backupId.None?
  {
    assert OwnedPaths(s) == OwnedPaths(m);
  }

  /** The prepared or quiesced marker a backup starts from, and the times it can start at. */
  predicate CanBackUp(d: Disk, source: Bytes, quiescedAt: int, verifiedAt: int) {
    && Inspect(d).state == Readable && d.marker.Some?
    && var m := d.marker.value;
       && !m.sharedBefore && m.configuration.Some? && m.configuration.value.source == source
       && if m.stage == Prepared then m.updated <= quiescedAt <= verifiedAt
          else m.stage == Quiesced && m.updated <= verifiedAt
  }

  lemma RecordingIsPermitted(op: Operation, d: Disk, id: string, contents: Bytes)
    requires id !in d.backups
    ensures Permits(op, d, RecordBackup(id, contents))
    ensures Apply(op, d, RecordBackup(id, contents)) == d.(backups := d.backups[id := contents])
  {
  }

  lemma CleanupIsReadable(op: Operation, d: Disk)
    requires Inv(op, d)
    ensures Inspect(d).state == Readable ==> Inspect(d).marker == d.marker && d.marker.Some?
    ensures d.marker.Some? && d.marker.value.stage == CleanupPending ==>
      Inspect(d).state == Readable && Deleting(d)
  {
    ReadableHasMarker(d);
    if d.marker.Some? && d.marker.value.stage == CleanupPending {
      InspectionAfterCommitStarted(op, d);
    }
  }

  lemma PreCommitInspection(op: Operation, d: Disk)
    requires Inv(op, d)
    ensures d.marker.Some? ==> Inspect(d).marker == d.marker && Inspect(d).successor == d.next
    ensures d.marker.Some? ==> Inspect(d).state != Absent && Inspect(d).state != RecoveryFailed
    ensures d.marker.None? ==> Inspect(d).marker.None?
  {
    hide ValidMarker, ValidSuccessor;
    if d.marker.Some? && d.next.Some? {
      SuccessorInspection(op, d);
    }
  }

  /** While committing, the resources stand on a rung; this is the lowest one they equal. */
  lemma Lowest(op: Operation, d: Disk) returns (i: nat)
    requires Inv(op, d) && Committing(d)
    ensures i <= 3 && d.resources == Rung(d.marker.value, i)
    ensures forall j: nat :: j < i ==> d.resources != Rung(d.marker.value, j)
  {
    var m := d.marker.value;
    i := if d.resources == Rung(m, 0) then 0
         else if d.resources == Rung(m, 1) then 1
         else if d.resources == Rung(m, 2) then 2 else 3;
  }

  lemma WritableOnceConfigured(op: Operation, d: Disk, i: nat)
    requires Inv(op, d) && Committing(d) && 2 <= i <= 3 && d.resources == Rung(d.marker.value, i)
    requires d.marker.value.configuration.value.source != d.marker.value.configuration.value.candidate
    ensures Writable(op, d.marker.value)
  {
  }

  /** The journal is readable at a stage from which a commit may start or go on. */
  predicate CanStart(d: Disk) {
    && Inspect(d).state == Readable && d.marker.Some?
    && (d.marker.value.stage == BackupVerified ==> Bound(d.marker.value) && d.resources == Before(d.marker.value))
  }

  /** The caller presents the operation the marker describes, bytes and all, and its backup reads back. */
  predicate Presented(d: Disk, m: Marker, operation: string, owner: string, credential: Bytes, candidate: Bytes, source: Bytes)
  {
    && (m.stage == BackupVerified || m.stage == CommitStarted)
    && m.operationId == operation && m.ownerId == owner
    && Bound(m)
    && credential == m.credential.value.contents
    && candidate == m.configuration.value.candidate
    && source == m.configuration.value.source
    && BackupOf(m).Some?
    && BackupOf(m).value.0 in d.backups
    && d.backups[BackupOf(m).value.0] == source == BackupOf(m).value.1
  }

  /** The commit asked for is the one under way on this disk: its names, its bytes and a backup that still reads back. */
  predicate Asked(d: Disk, operation: string, owner: string, credential: Bytes, candidate: Bytes, source: Bytes) {
    d.marker.Some? &&
    var m := d.marker.value;
    && m.stage in {BackupVerified, CommitStarted} && m.operationId == operation && m.ownerId == owner
    && m.credential.Some? && m.credential.value.contents == credential
    && m.configuration.Some? && m.configuration.value.source == source && m.configuration.value.candidate == candidate
    && m.configuration.value.backupId.Some? && m.configuration.value.backupContents == Some(source)
    && m.configuration.value.backupId.value in d.backups && d.backups[m.configuration.value.backupId.value] == source
  }

  lemma PresentedIsAsked(d: Disk, operation: string, owner: string, credential: Bytes, candidate: Bytes, source: Bytes)
    requires d.marker.Some? && Presented(d, d.marker.value, operation, owner, credential, candidate, source)
    ensures Asked(d, operation, owner, credential, candidate, source)
  {
  }

  /** What the resources hold allows the commit to start, or to go on. */
  predicate MayCommit(r: Resources, m: Marker)
    requires Bound(m)
  {
    && (r.preferences == PreferencesOf(m, true) || r.preferences == PreferencesOf(m, false))
    && (r.credential.None? || r.credential == Some(m.credential.value.contents))
    && (r.configuration == Some(m.configuration.value.source) || r.configuration == Some(m.configuration.value.candidate))
    && (m.stage == BackupVerified ==> r == Before(m))
  }

  lemma StartableMayCommit(op: Operation, d: Disk)
    requires Inv(op, d) && CanStart(d) && Bound(d.marker.value)
    requires d.marker.value.stage == BackupVerified || d.marker.value.stage == CommitStarted
    ensures MayCommit(d.resources, d.marker.value)
  {
  }

  lemma LevelsFollowRungs(m: Marker, i: nat, j: nat)
    requires Bound(m) && i <= j <= 3
    ensures Level(m, Rung(m, j)) >= Level(m, Rung(m, i))
  {
  }

  lemma CommittedIsReady(op: Operation, d: Disk, m: Marker, s: Marker)
    requires Inv(op, d) && Committing(d) && d.marker == Some(m)
    requires s == m.(stage := CommitVerified, updated := s.updated) && m.updated <= s.updated
    ensures ReadyFor(d, s) && BackupIsFaithful(d, s)
    ensures s.configuration == m.configuration && Bound(s) && After(s) == After(m)
  {
    hide ValidMarker, ValidSuccessor, Inspect;
    InspectionAfterCommitStarted(op, d);
    NextMarkerIsValid(m, s);
    BindingDetermines(m, s);
  }

  lemma StartedIsReady(op: Operation, d: Disk, m: Marker, s: Marker)
    requires Inv(op, d) && d.marker == Some(m) && m.stage == BackupVerified && Bound(m)
    requires s == m.(stage := CommitStarted, updated := s.updated) && m.updated <= s.updated
    ensures BackupIsFaithful(d, s) && s.configuration == m.configuration && s.credential == m.credential
    ensures Bound(s) && Before(s) == Before(m) && After(s) == After(m)
    ensures CredentialFits(s) == CredentialFits(m) && Writable(op, s) == Writable(op, m)
    ensures Inspect(d).state == Readable ==> ReadyFor(d, s)
    ensures Binding(s) == Binding(m)
  {
    hide ValidMarker, ValidSuccessor, Inspect;
    NextMarkerIsValid(m, s);
    BindingDetermines(m, s);
  }

  lemma CommittingBinds(op: Operation, d: Disk)
    requires Inv(op, d) && Committing(d)
    ensures Bound(op.prepared)
    ensures forall r: Resources :: Level(op.prepared, r) == Level(d.marker.value, r)
  {
    BindingDetermines(d.marker.value, op.prepared);
  }

  lemma StartedHasNoSuccessor(op: Operation, d: Disk)
    requires Inv(op, d) && d.marker.Some? && d.marker.value.stage == CommitStarted
    ensures Inspect(d).state == Readable ==> Committing(d)
  {
    hide ValidMarker, ValidSuccessor, Inspect;
    InspectionAfterCommitStarted(op, d);
  }

  /** What recovery relies on from the durable CommitStarted marker on. */
  lemma CommittedDisk(op: Operation, d: Disk)
    requires Inv(op, d) && d.marker.Some? && !PreCommit(d.marker.value.stage)
    ensures Bound(d.marker.value) && BackupOf(d.marker.value).Some?
    ensures var m, b := d.marker.value, BackupOf(d.marker.value).value;
      b.0 in d.backups && d.backups[b.0] == m.configuration.value.source == b.1
    ensures d.marker.value.stage == CommitStarted || d.marker.value.stage == CommitVerified || d.marker.value.stage == CleanupPending
    ensures d.marker.value.stage != CommitStarted ==> d.resources == After(d.marker.value)
    ensures d.marker.value.stage != CleanupPending ==> LockMatches(d, d.marker.value)
    ensures d.lock.Some? ==> LockMatches(d, d.marker.value)
    ensures RuntimeContents(d.marker.value).Some?
  {
    var m := d.marker.value;
    assert m.configuration.value.candidatePath in ExpectedCandidates(m).value;
    RuntimeIsBound(m);
  }

  lemma PreparedIsValid(op: Operation, d: Disk)
    requires Inv(op, d)
    ensures ValidMarker(op.prepared)
  {
    hide ValidMarker;
  }

  /** The two ends of the ladder, for the marker on disk. */
  lemma MarkerShows(op: Operation, d: Disk)
    requires Inv(op, d) && d.marker.Some? && Bound(d.marker.value)
    ensures Untouched(Before(d.marker.value), d.marker.value) && Promised(After(d.marker.value), d.marker.value)
  {
    EndsOfTheLadder(d.marker.value);
    hide ValidMarker, Untouched, Promised;
  }

  /** An operation the preparer created passes the stores' own checks at every stage. */
  lemma CreatedCommits(op: Operation, d: Disk)
    requires Inv(op, d) && d.marker.Some? && ActivationPreparation.Created(op)
    ensures Recoverable(op)
    ensures Bound(d.marker.value) && CredentialFits(d.marker.value) && Writable(op, d.marker.value)
  {
    hide ValidMarker, ValidSuccessor, Inspect, ActivationPreparation.Created;
    ActivationPreparation.CreatedIsRecoverable(op);
    BindingDetermines(d.marker.value, op.prepared);
  }

  lemma {:induction false} LookupIsFirst(resources: seq<ResourceTransition>, r: ResourceTransition)
    requires StrictlyOrderedRoles(resources) && r in resources
    ensures LookupRole(resources, r.role) == Some(r)
  {
    var i :| 0 <= i < |resources| && resources[i] == r;
    LookupFinds(resources, i);
  }

  lemma RuntimeIsBound(m: Marker)
    requires ValidMarker(m)
    ensures RuntimeContents(m).Some?
  {
    var r :| r in m.resources && r.role == RuntimeLock && r.after.Some?;
    LookupIsFirst(m.resources, r);
  }

  lemma ConfigurationIsExpected(m: Marker)
    requires ValidMarker(m) && m.configuration.Some? && ExpectedCandidates(m).Some?
    ensures var c := m.configuration.value;
      && c.candidatePath in ExpectedCandidates(m).value
      && ExpectedCandidates(m).value[c.candidatePath] == c.candidate
      && |c.candidate| <= MAXIMUM_CONFIGURATION_BYTES
  {
  }

  lemma CredentialIsExpected(m: Marker)
    requires ValidMarker(m) && m.credential.Some? && ExpectedCandidates(m).Some?
    ensures LookupRole(m.resources, IngestCredential).Some?
    ensures var r := LookupRole(m.resources, IngestCredential).value;
      r.candidatePath.Some? ==>
        r.candidatePath.value in ExpectedCandidates(m).value
        && ExpectedCandidates(m).value[r.candidatePath.value] == m.credential.value.contents
  {
    var x :| x in m.resources && x.role == IngestCredential && x.after == Some(m.credential.value.contents);
    LookupIsFirst(m.resources, x);
    if x.candidatePath.Some? {
      var i :| 0 <= i < |m.resources| && m.resources[i] == x;
      ResourceCandidateIsExpected(m.resources, i);
    }
  }

  /** The two candidates recovery reads back, and the bytes it expects of them. */
  lemma CandidatesToResume(op: Operation, d: Disk)
    requires Inv(op, d) && Committing(d)
    ensures var m := d.marker.value; var r := LookupRole(m.resources, IngestCredential).value;
      && ExpectedCandidates(m) == Some(d.candidates)
      && m.configuration.value.candidatePath in d.candidates
      && d.candidates[m.configuration.value.candidatePath] == m.configuration.value.candidate
      && |m.configuration.value.candidate| <= MAXIMUM_CONFIGURATION_BYTES
      && (r.candidatePath.Some? ==>
            r.candidatePath.value in d.candidates
            && d.candidates[r.candidatePath.value] == m.credential.value.contents)
  {
    hide ValidMarker, ValidSuccessor, Inspect, ExpectedCandidates;
    var m := d.marker.value;
    InspectionAfterCommitStarted(op, d);
    ConfigurationIsExpected(m);
    CredentialIsExpected(m);
  }

  lemma {:induction false} ResourceCandidateIsExpected(resources: seq<ResourceTransition>, i: nat)
    requires i < |resources| && resources[i].candidatePath.Some? && CandidatesOfResources(resources).Some?
    ensures resources[i].after.Some?
    ensures resources[i].candidatePath.value in CandidatesOfResources(resources).value
    ensures CandidatesOfResources(resources).value[resources[i].candidatePath.value] == resources[i].after.value
  {
    if i > 0 {
      ResourceCandidateIsExpected(resources[1..], i - 1);
    }
  }

  lemma RecoverableAt(op: Operation, d: Disk)
    requires Inv(op, d) && Committing(d)
    ensures var m := d.marker.value;
      Recoverable(op) <==>
        && CredentialFits(m) && Writable(op, m) && 0 < |m.configuration.value.candidate|
        && LookupRole(m.resources, IngestCredential).value.candidatePath.Some?
  {
    hide ValidMarker, ValidSuccessor, Inspect;
    var m := d.marker.value;
    BindingDetermines(m, op.prepared);
    assert m.resources == Binding(m).resources;
    assert op.prepared.resources == Binding(op.prepared).resources;
  }

  lemma ResumePresents(op: Operation, d: Disk, credential: Bytes, candidate: Bytes, source: Bytes)
    requires Inv(op, d) && Committing(d)
    requires credential == d.marker.value.credential.value.contents
    requires candidate == d.marker.value.configuration.value.candidate
    requires source == d.marker.value.configuration.value.source
    ensures CanStart(d)
    ensures Presented(d, d.marker.value, d.marker.value.operationId, d.marker.value.ownerId, credential, candidate, source)
  {
    hide ValidMarker, ValidSuccessor, Inspect;
    InspectionAfterCommitStarted(op, d);
    CommittedDisk(op, d);
  }

  lemma CleaningIsReady(op: Operation, d: Disk, m: Marker, s: Marker)
    requires Inv(op, d) && d.marker == Some(m) && m.stage == CommitVerified
    requires s == m.(stage := CleanupPending, updated := s.updated) && m.updated <= s.updated
    ensures BackupIsFaithful(d, s) && s.configuration.Some?
    ensures Inspect(d).state == Readable ==> ReadyFor(d, s)
  {
    hide ValidMarker, ValidSuccessor, Inspect;
    NextMarkerIsValid(m, s);
  }

  /** A staged or installed successor keeps the operation's latest stage. */
  lemma InstallKeepsLatest(op: Operation, d: Disk)
    requires Inv(op, d) && Started(d)
    requires Inv(op, d.(marker := Latest(d), next := None))
    ensures var d' := d.(marker := Latest(d), next := None);
      Inspect(d').state == Readable && Started(d') && Latest(d') == Latest(d)
      && (d'.marker.value.stage == CommitStarted ==> Committing(d'))
  {
    hide ValidMarker, ValidSuccessor, Inspect;
    InspectionAfterCommitStarted(op, d.(marker := Latest(d), next := None));
  }

  lemma StartIsSafe(op: Operation, d: Disk)
    requires Start(op, d)
    ensures Run(op, [d]) && Inv(op, d)
  {
  }

  class BattleLifecycle {
    var disk: Disk
    var clock: nat
    const faults: nat -> bool
    const isDocument: Bytes -> bool
    ghost var op: Operation
    ghost var history: seq<Disk>

    ghost predicate Valid()
      reads this
    {
      && Run(op, history)
      && history[|history| - 1] == disk
      && op.isDocument == isDocument
      && Inv(op, disk)
    }

    ghost predicate FaultFree() { forall n: nat :: !faults(n) }

    twostate predicate Continues()
      reads this
    {
      Valid() && op == old(op) && old(history) <= history
    }

    /** One file operation: it takes effect exactly when this returns true. */
    method Io() returns (ok: bool)
      modifies this`clock
      ensures ok == !faults(old(clock))
    {
      ok := !faults(clock);
      clock := clock + 1;
    }

    /** The disk has just been changed by one action of the protocol. */
    ghost method Record(before: Disk, a: Action)
      requires Run(op, history) && history[|history| - 1] == before && op.isDocument == isDocument
      requires Inv(op, before) && Permits(op, before, a) && disk == Apply(op, before, a)
      modifies this`history
      ensures Valid() && history == old(history) + [disk]
    {
      hide Run, Inv, Permits, Apply;
      ExtendRun(op, history, a);
      history := history + [disk];
    }

    // ------------------------------------------------------------- preparation

    /**
    Creates the prepared marker, then the runtime lock, then the candidates: the start of a run.
    The preparer gives every candidate path contents, and binds a lock that did not exist before.
     */
    method Prepare(m: Marker) returns (status: Status)
      requires ExpectedCandidates(m).Some? && RuntimeContents(m).Some?
      requires disk.candidates == map[] && disk.next.None? && disk.lock.None?
      modifies this
      ensures status == Illegal || status == Invalid ==> disk == old(disk)
      ensures disk.marker != old(disk).marker ==>
        Valid() && op.prepared == m && op.origin == old(disk).resources && disk.marker == Some(m)
      ensures disk.resources == old(disk).resources
      ensures status.Done? ==>
        && disk.marker == Some(m) && LockMatches(disk, m)
        && ExpectedCandidates(m) == Some(disk.candidates)
      ensures FaultFree() ==>
        (status.Done? <==> m.stage == Prepared && Inspect(old(disk)).state == Absent && ValidMarker(m))
    {
      hide ValidMarker;
      if m.stage != Prepared || Inspect(disk).state != Absent {
        return Illegal;
      }
      if !ValidMarker(m) {
        return Invalid;
      }
      var ok := Io();
      if !ok {
        return Unreachable;
      }
      op := Operation(m, disk.resources, isDocument);
      disk := disk.(marker := Some(m));
      history := [disk];
      StartIsSafe(op, disk);
      label created:
      ok := Io();
      if !ok {
        return Unreachable;
      }
      disk := disk.(lock := Some(Lock(m.ownerId, RuntimeContents(m).value)));
      Record(old@created(disk), CreateLock);
      status := WritePreparedCandidates(m);
    }

    method OpenCandidateDirectory() returns (ok: bool)
      requires Valid() && disk.marker.Some? && disk.directory.Missing?
      modifies this
      ensures Continues()
      ensures disk == old(disk).(directory := disk.directory)
      ensures ok ==> disk.directory.CandidateDirectory?
      ensures FaultFree() ==> ok
    {
      hide Run, Inv;
      var before := disk;
      ok := Io();
      if ok {
        disk := disk.(directory := OperationOnly);
        Record(before, OpenDirectory(OperationOnly));
        ok := Io();
        if ok {
          before := disk;
          disk := disk.(directory := CandidateDirectory);
          Record(before, OpenDirectory(CandidateDirectory));
        }
      }
    }

    method WriteCandidateFile(path: string, contents: Bytes) returns (ok: bool)
      requires Valid() && disk.marker.Some? && disk.marker.value.stage == Prepared && disk.next.None?
      requires LockMatches(disk, disk.marker.value) && disk.directory.CandidateDirectory?
      requires ExpectedCandidates(disk.marker.value).Some?
      requires path in ExpectedCandidates(disk.marker.value).value
      requires contents == ExpectedCandidates(disk.marker.value).value[path]
      modifies this
      ensures Continues()
      ensures disk == if ok then old(disk).(candidates := old(disk).candidates[path := contents]) else old(disk)
      ensures FaultFree() ==> ok
    {
      hide Run, Inv, ExpectedCandidates, LockMatches;
      var before := disk;
      ok := Io();
      if ok {
        disk := disk.(candidates := disk.candidates[path := contents]);
        Record(before, WriteCandidate(path));
      }
    }

    method WritePreparedCandidates(m: Marker) returns (status: Status)
      requires Valid() && disk.marker == Some(m) && m.stage == Prepared && disk.next.None? && LockMatches(disk, m)
      requires disk.candidates == map[] && disk.directory.Missing? && ExpectedCandidates(m).Some?
      modifies this
      ensures Continues()
      ensures status.Done? || status.Unreachable?
      ensures disk.marker == Some(m) && disk.resources == old(disk).resources
      ensures status.Done? ==> LockMatches(disk, m) && ExpectedCandidates(m) == Some(disk.candidates)
      ensures FaultFree() ==> status.Done?
    {
      hide Run, Inv, ExpectedCandidates, RuntimeContents;
      var ok := OpenCandidateDirectory();
      if !ok {
        return Unreachable;
      }
      var expected := ExpectedCandidates(m).value;
      while disk.candidates.Keys != expected.Keys
        invariant Valid() && op == old(op) && old(history) <= history
        invariant disk.marker == Some(m) && disk.next.None? && disk.lock == old(disk).lock
        invariant disk.directory == CandidateDirectory && disk.resources == old(disk).resources
        invariant Within(disk.candidates, expected)
        decreases expected.Keys - disk.candidates.Keys
      {
        var path :| path in expected && path !in disk.candidates;
        ghost var remaining := expected.Keys - disk.candidates.Keys;
        ok := WriteCandidateFile(path, expected[path]);
        if !ok {
          return Unreachable;
        }
        assert expected.Keys - disk.candidates.Keys == remaining - {path};
      }
      assert disk.candidates == expected;
      return Done;
    }

    // ------------------------------------------------------------------ journal

    /**
    Stages a successor, verifies it, and replaces the marker by it. The callers have established what
    the successor's stage claims. A marker that binds a configuration keeps its candidate directory,
    so the directories the source secures and prunes here are already there and stay.
     */
    method Advance(s: Marker) returns (status: Status)
      requires Valid() && s.configuration.Some? && BackupIsFaithful(disk, s) && s.stage != Failed
      requires s.stage == CommitStarted ==> Bound(s) && disk.resources == Before(s)
      requires s.stage == CommitVerified ==>
        Bound(s) && disk.resources == After(s) && s.configuration.value.source != s.configuration.value.candidate
      modifies this
      ensures Continues()
      ensures status.Done? ==> disk == old(disk).(marker := Some(s), next := None)
      ensures status == Invalid || status == Illegal ==> disk == old(disk)
      ensures disk == old(disk) || disk == old(disk).(next := Some(s)) || disk == old(disk).(marker := Some(s), next := None)
      ensures disk != old(disk) ==> ReadyFor(old(disk), s)
      ensures FaultFree() ==> (status.Done? <==> ReadyFor(old(disk), s))
      ensures status == Illegal <==> Inspect(old(disk)).state != Readable
      ensures FaultFree() ==> status != Unreachable
    {
      hide ValidMarker, Run, Inv, Permits, ValidSuccessor, Inspect;
      var before := disk;
      ReadableHasMarker(disk);
      if Inspect(disk).state != Readable {
        return Illegal;
      }
      if !ValidSuccessor(disk.marker.value, s) {
        return Invalid;
      }
      var ok := Io();
      if !ok {
        return Unreachable;
      }
      disk := disk.(next := Some(s));
      StagingIsPermitted(op, before, s);
      Record(before, StageSuccessor(s));
      ok := Io();
      if !ok {
        return Unreachable;
      }
      before := disk;
      disk := disk.(marker := Some(s), next := None);
      InstallingIsPermitted(op, before);
      Record(before, InstallSuccessor);
      ok := Io();
      return if ok then Done else Unreachable;
    }

    /** Clears the empty directories of an interrupted preparation or rollback. */
    method ClearResidue() returns (status: Status)
      requires Valid() && Inspect(disk).state == RecoverableResidue
      modifies this
      ensures Continues()
      ensures disk == old(disk) || disk == old(disk).(directory := OperationOnly) || disk == old(disk).(directory := Missing)
      ensures status.Done? ==> disk.directory.Missing?
      ensures status.Done? ==> Inspect(disk).state == Readable || Inspect(disk).state == RecoverableResidue
    {
      hide ValidMarker, Run, ValidSuccessor;
      if disk.directory.Missing? {
        return Unreachable;
      }
      if disk.candidates != map[] {
        return Illegal;
      }
      var before := disk;
      if disk.directory.CandidateDirectory? {
        var ok := Io();
        if !ok {
          return Unreachable;
        }
        disk := disk.(directory := OperationOnly);
        Record(before, PruneDirectory(OperationOnly));
      }
      var ok := Io();
      if !ok {
        return Unreachable;
      }
      before := disk;
      disk := disk.(directory := Missing);
      Record(before, PruneDirectory(Missing));
      return Done;
    }

    /** Finishes or clears what an interrupted step left, without choosing anything new. */
    method RecoverJournal() returns (status: Status)
      requires Valid()
      modifies this
      ensures Continues()
      ensures status.Done? ==> Inspect(disk).state == Absent || Inspect(disk).state == Readable || Inspect(disk).state == RecoverableResidue
      ensures disk.resources == old(disk).resources
      ensures disk == old(disk) || disk.next.None?
      ensures disk.marker == old(disk).marker || (disk.marker == old(disk).next && disk == old(disk).(marker := old(disk).next, next := None))
      ensures FaultFree() && Started(old(disk)) ==>
        status.Done? && Inspect(disk).state == Readable
        && disk == old(disk).(marker := Latest(old(disk)), next := None)
      ensures status.Done? && Started(old(disk)) ==> disk == old(disk).(marker := Latest(old(disk)), next := None)
      ensures old(disk).marker.None? ==> disk == old(disk)
      ensures old(disk).marker.Some? ==> disk.marker.Some?
    {
      hide ValidMarker, Run, Permits, ValidSuccessor;
      var inspection := Inspect(disk);
      StartedInspection(op, disk);
      if inspection.state == Absent || inspection.state == Readable {
        return Done;
      }
      if inspection.state == RecoveryFailed {
        return Illegal;
      }
      if inspection.state == RecoverableResidue {
        status := ClearResidue();
        return;
      }
      var before := disk;
      var ok := Io();
      if !ok {
        return Unreachable;
      }
      disk := disk.(marker := disk.next, next := None);
      InstallingIsPermitted(op, before);
      Record(before, InstallSuccessor);
      InstalledIsReadable(op, before);
      ok := Io();
      return if ok then Done else Unreachable;
    }

    /** Whether the runtime lock is the marker's; None when the marker changed underneath. */
    function RuntimeLockVerdict(m: Marker, allowAbsent: bool): Option<bool>
      reads this
    {
      if Inspect(disk).state != Readable || Inspect(disk).marker != Some(m) || RuntimeContents(m).None? then None
      else if disk.lock.None? then Some(allowAbsent)
      else Some(LockMatches(disk, m))
    }

    /** Reads back a candidate the marker binds, refusing an empty or oversized one. */
    method ReadExactCandidate(m: Marker, path: string, expected: Bytes) returns (status: Status, contents: Bytes)
      ensures status.Done? ==>
        && contents == expected && 0 < |expected| <= MAXIMUM_CONFIGURATION_BYTES
        && path in disk.candidates && disk.candidates[path] == expected
      ensures FaultFree() && Inspect(disk).state == Readable && disk.marker == Some(m)
              && ExpectedCandidates(m) == Some(disk.candidates) && path in disk.candidates ==>
        (status.Done? <==> disk.candidates[path] == expected && 0 < |expected| <= MAXIMUM_CONFIGURATION_BYTES)
      modifies this`clock
    {
      contents := [];
      ReadableHasMarker(disk);
      if Inspect(disk).state != Readable || Inspect(disk).marker != Some(m) || ExpectedCandidates(m).None? {
        return Illegal, contents;
      }
      var bound := ExpectedCandidates(m).value;
      if path !in bound || bound[path] != expected || |expected| == 0 || |expected| > MAXIMUM_CONFIGURATION_BYTES {
        return Invalid, contents;
      }
      var ok := Io();
      if !ok || path !in disk.candidates {
        return Unreachable, contents;
      }
      contents := disk.candidates[path];
      if contents != expected {
        return Invalid, contents;
      }
      return Done, contents;
    }

    // ------------------------------------------------------------------- backup

    /**
    Quiesces, backs up the source configuration under a fresh id, verifies it and records it. It takes
    the clock's time as it is, so a clock behind the marker's last update blocks it.
     */
    method PrepareVerifiedBackup(admitted: bool, source: Bytes, backupId: string, quiescedAt: int, verifiedAt: int)
      returns (result: BackupResult)
      requires Valid() && backupId !in disk.backups
      modifies this
      ensures Continues()
      ensures disk.resources == old(disk).resources
      ensures result.BackupSucceeded? ==>
        && disk.marker.Some? && disk.marker.value.stage == BackupVerified && disk.next.None?
        && BackupOf(disk.marker.value) == Some((backupId, source))
        && disk.backups == old(disk).backups[backupId := source]
      ensures FaultFree() ==>
        (result.BackupSucceeded? <==> admitted && CanBackUp(old(disk), source, quiescedAt, verifiedAt))
      ensures FaultFree() && !result.BackupSucceeded? ==> result.BackupBlocked?
      ensures !result.BackupThrew?
    {
      hide ValidMarker, Run, Inv, Permits, ValidSuccessor, Inspect, Apply, ReadyFor;
      ReadableHasMarker(disk);
      if Inspect(disk).state != Readable || (disk.marker.value.stage != Prepared && disk.marker.value.stage != Quiesced)
         || disk.marker.value.sharedBefore || disk.marker.value.configuration.None? || !admitted
         || source != disk.marker.value.configuration.value.source
      {
        return BackupBlocked;
      }
      var m := disk.marker.value;
      PreparedIsUnbacked(op, disk);
      var quiesced := m;
      if quiesced.stage == Prepared {
        quiesced := quiesced.(stage := Quiesced, updated := quiescedAt);
        QuiesceIsReady(disk, m, quiesced);
        var status := Advance(quiesced);
        if !status.Done? {
          return BackupFailure(status);
        }
      }
      result := BackUpQuiesced(quiesced, source, backupId, verifiedAt);
    }

    /** From the quiesced marker: the backup is made, read back and recorded in the marker. */
    method BackUpQuiesced(quiesced: Marker, source: Bytes, backupId: string, verifiedAt: int) returns (result: BackupResult)
      requires Valid() && backupId !in disk.backups && disk.marker == Some(quiesced) && quiesced.stage == Quiesced
      requires quiesced.configuration.Some? && source == quiesced.configuration.value.source && BackupOf(quiesced).None?
      requires Inspect(disk).state == Readable
      modifies this
      ensures Continues()
      ensures disk.resources == old(disk).resources
      ensures result.BackupSucceeded? ==>
        && disk.marker.Some? && disk.marker.value.stage == BackupVerified && disk.next.None?
        && BackupOf(disk.marker.value) == Some((backupId, source))
        && disk.backups == old(disk).backups[backupId := source]
      ensures FaultFree() ==> (result.BackupSucceeded? <==> quiesced.updated <= verifiedAt)
      ensures FaultFree() && !result.BackupSucceeded? ==> result.BackupBlocked?
      ensures !result.BackupThrew?
    {
      hide ValidMarker, Run, Inv, Permits, ValidSuccessor, Inspect, Apply, ReadyFor;
      var ok := Io();
      if !ok {
        return BackupUnavailable;
      }
      var before := disk;
      disk := disk.(backups := disk.backups[backupId := source]);
      RecordingIsPermitted(op, before, backupId, source);
      Record(before, RecordBackup(backupId, source));
      BackupsDoNotShow(before, disk);
      ok := Io();
      if !ok {
        return BackupUnavailable;
      }
      if disk.backups[backupId] != source {
        return BackupBlocked;
      }
      var binding := quiesced.configuration.value.(backupId := Some(backupId), backupContents := Some(source));
      var verified := quiesced.(stage := BackupVerified, updated := verifiedAt, configuration := Some(binding));
      BackupIsReady(disk, quiesced, verified, backupId);
      var status := Advance(verified);
      return if status.Done? then BackupSucceeded else BackupFailure(status);
    }

    function BackupFailure(status: Status): BackupResult {
      if status == Invalid then BackupBlocked else if status == Illegal then BackupThrew else BackupUnavailable
    }

    // ----------------------------------------------------------------- deletion

    method DeleteCandidate(path: string) returns (ok: bool)
      requires Valid() && Deleting(disk) && path in disk.candidates
      modifies this
      ensures Continues()
      ensures disk == if ok then old(disk).(candidates := old(disk).candidates - {path}) else old(disk)
      ensures FaultFree() ==> ok
    {
      hide Run, Inv;
      var before := disk;
      ok := Io();
      if ok {
        disk := disk.(candidates := disk.candidates - {path});
        Record(before, DropCandidate(path));
      }
    }

    method DeleteCandidates() returns (ok: bool)
      requires Valid() && Deleting(disk)
      modifies this
      ensures Continues()
      ensures disk == old(disk).(candidates := disk.candidates)
      ensures ok ==> disk.candidates == map[]
      ensures FaultFree() ==> ok
    {
      hide Run, Inv, Permits, Apply;
      ok := true;
      while disk.candidates != map[]
        invariant Valid() && op == old(op) && old(history) <= history
        invariant disk == old(disk).(candidates := disk.candidates)
        decreases disk.candidates.Keys
      {
        ghost var remaining := disk.candidates.Keys;
        var path :| path in disk.candidates;
        ok := DeleteCandidate(path);
        if !ok {
          return;
        }
        assert disk.candidates.Keys == remaining - {path};
      }
    }

    method DeleteLock() returns (ok: bool)
      requires Valid() && Deleting(disk) && disk.candidates == map[]
      modifies this
      ensures Continues()
      ensures disk == old(disk).(lock := disk.lock)
      ensures if ok then disk.lock.None? else disk == old(disk)
      ensures FaultFree() ==> ok
    {
      hide Run, Inv;
      ok := true;
      if disk.lock.Some? {
        var before := disk;
        ok := Io();
        if ok {
          disk := disk.(lock := None);
          Record(before, DropLock);
        }
      }
    }

    method DeleteDirectories() returns (ok: bool)
      requires Valid() && Deleting(disk) && disk.candidates == map[]
      modifies this
      ensures Continues()
      ensures disk == old(disk).(directory := disk.directory)
      ensures ok ==> disk.directory.Missing?
      ensures FaultFree() ==> ok
    {
      hide Run, Inv;
      ok := true;
      if disk.directory.CandidateDirectory? {
        var before := disk;
        ok := Io();
        if !ok {
          return;
        }
        disk := disk.(directory := OperationOnly);
        Record(before, PruneDirectory(OperationOnly));
      }
      if disk.directory.OperationOnly? {
        var before := disk;
        ok := Io();
        if !ok {
          return;
        }
        disk := disk.(directory := Missing);
        Record(before, PruneDirectory(Missing));
      }
    }

    method DeleteMarker(retainLock: bool) returns (ok: bool)
      requires Valid() && Permits(op, disk, DropMarker(retainLock))
      modifies this
      ensures Continues()
      ensures disk == if ok then old(disk).(marker := None) else old(disk)
      ensures FaultFree() ==> ok
    {
      hide Run, Inv;
      var before := disk;
      ok := Io();
      if ok {
        disk := disk.(marker := None);
        Record(before, DropMarker(retainLock));
      }
    }

    /** Deletes everything the operation owns, the marker last. */
    method DeleteOperation(retainLock: bool) returns (ok: bool)
      requires Valid() && Deleting(disk)
      requires PreCommit(disk.marker.value.stage) ==>
        && !retainLock && disk.resources.credential.None? && disk.marker.value.configuration.Some?
        && disk.resources.configuration == Some(disk.marker.value.configuration.value.source)
      modifies this
      ensures Continues()
      ensures disk.resources == old(disk).resources && disk.next.None?
      ensures disk.marker == old(disk).marker || disk.marker.None?
      ensures ok ==> disk.marker.None? && disk.candidates == map[] && disk.directory.Missing?
      ensures ok ==> disk.lock == if retainLock then old(disk).lock else None
      ensures FaultFree() ==> ok
    {
      hide Run, Inv, Apply;
      ok := DeleteCandidates();
      if ok && !retainLock {
        ok := DeleteLock();
      }
      if ok {
        ok := DeleteDirectories();
      }
      if ok {
        ok := DeleteMarker(retainLock);
      }
    }

    /**
    Terminal cleanup: the candidates, then the runtime lock unless its owner keeps it, then the
    directories, and the marker last.
     */
    method DeleteCommittedArtifacts(m: Marker, retainLock: bool) returns (status: Status)
      requires Valid()
      modifies this
      ensures Continues()
      ensures disk.resources == old(disk).resources && disk.next == old(disk).next
      ensures disk.marker == old(disk).marker || disk.marker.None?
      ensures status == Illegal || status == Invalid ==> disk == old(disk)
      ensures status.Done? ==> old(disk).marker == Some(m) && m.stage == CleanupPending
      ensures status.Done? ==> disk.marker.None? && disk.candidates == map[] && Inspect(disk).state == Absent
      ensures status.Done? ==> disk.lock == if retainLock then old(disk).lock else None
      ensures FaultFree() ==>
        (status.Done? <==>
          && m.stage == CleanupPending && old(disk).marker == Some(m)
          && RuntimeContents(m).Some? && (retainLock ==> old(disk).lock.Some?))
    {
      hide Run, Permits, Apply, ValidMarker, ValidSuccessor;
      if m.stage != CleanupPending {
        return Illegal;
      }
      CleanupIsReadable(op, disk);
      if Inspect(disk).state != Readable || Inspect(disk).marker != Some(m) {
        return Illegal;
      }
      if RuntimeContents(m).None? || (disk.lock.Some? && !retainLock && !LockMatches(disk, m))
         || (disk.lock.None? && retainLock)
      {
        return Invalid;
      }
      var ok := DeleteOperation(retainLock);
      return if ok then Done else Unreachable;
    }

    /**
    Rolls an operation back before its commit starts. It checks the configuration and the credential
    against the marker; it never looks at the preferences.
     */
    method RollbackPrepared(pathMatches: bool) returns (result: RecoveryResult)
      requires Valid()
      modifies this
      ensures Continues()
      ensures disk.resources == old(disk).resources
      ensures result.NoOperation? ==> disk == old(disk) && disk.marker.None?
      ensures result.RecoveryBlocked? ==> disk == old(disk)
      ensures result.Recovered? ==> disk.marker.None? && disk.resources == op.origin && Inspect(disk).state == Absent
      ensures FaultFree() ==>
        (result.Recovered? <==>
          && old(disk).marker.Some? && PreCommit(old(disk).marker.value.stage) && old(disk).next.None?
          && pathMatches && old(disk).marker.value.configuration.Some?
          && op.origin.configuration == Some(old(disk).marker.value.configuration.value.source)
          && op.origin.credential.None?)
    {
      hide Run, ValidMarker, ValidSuccessor, Permits, Apply;
      PreCommitInspection(op, disk);
      var inspection := Inspect(disk);
      if inspection.state == Absent {
        return NoOperation;
      }
      if inspection.marker.None? || !PreCommit(inspection.marker.value.stage) || inspection.successor.Some?
         || (inspection.state == RecoveryFailed && !inspection.mismatch)
      {
        return RecoveryBlocked;
      }
      var m := inspection.marker.value;
      if m.configuration.None? || !pathMatches || disk.resources.configuration != Some(m.configuration.value.source) {
        return RecoveryBlocked;
      }
      if disk.resources.credential.Some? {
        return RecoveryBlocked;
      }
      if ExpectedCandidates(m).None? || !(disk.candidates.Keys <= ExpectedCandidates(m).value.Keys) {
        return RecoveryBlocked;
      }
      var ok := DeleteOperation(false);
      return if ok then Recovered else RecoveryUnavailable;
    }

    // ---------------------------------------------------------- the three resources

    /** Creates the credential file, unless there is one already or its bytes do not fit. */
    method CreateCredential(contents: Bytes) returns (ok: bool)
      requires Valid() && Committing(disk) && contents == disk.marker.value.credential.value.contents
      modifies this
      ensures Continues()
      ensures disk == if ok then old(disk).(resources := Rung(old(disk).marker.value, 1)) else old(disk)
      ensures ok ==> old(disk).resources.credential.None? && CredentialFits(disk.marker.value)
      ensures FaultFree() ==> (ok <==> old(disk).resources.credential.None? && 1 <= |contents| <= 16 * 1024)
      ensures CredentialFits(disk.marker.value) <==> 1 <= |contents| <= 16 * 1024
    {
      hide Run, FilesInv;
      if |contents| == 0 || |contents| > MAXIMUM_CREDENTIAL_BYTES {
        return false;
      }
      ok := Io();
      if !ok || disk.resources.credential.Some? {
        return false;
      }
      var before := disk;
      disk := disk.(resources := disk.resources.(credential := Some(contents)));
      Record(before, Promote(1));
    }

    /** Deletes the credential this very run created. */
    method RollbackCredential() returns (ok: bool)
      requires Valid() && Committing(disk) && disk.resources == Rung(disk.marker.value, 1)
      modifies this
      ensures Continues()
      ensures disk == if ok then old(disk).(resources := Rung(old(disk).marker.value, 0)) else old(disk)
      ensures FaultFree() ==> ok
    {
      hide Run, Inv;
      var before := disk;
      ok := Io();
      if ok {
        disk := disk.(resources := disk.resources.(credential := None));
        Record(before, Undo(1));
      }
    }

    /** Replaces the configuration when it still holds the expected bytes and there is a change to save. */
    method SaveDocument(expected: Bytes, updated: Bytes, ghost action: Action) returns (ok: bool)
      requires Valid() && Committing(disk)
      requires var m, r := disk.marker.value, disk.resources;
        var source, candidate := m.configuration.value.source, m.configuration.value.candidate;
        || (action == Promote(2) && expected == source && updated == candidate && r.credential.Some?)
        || (action == Undo(2) && expected == candidate && updated == source && r.preferences == PreferencesOf(m, true))
      modifies this
      ensures Continues()
      ensures disk == if ok then old(disk).(resources := Rung(old(disk).marker.value, if action == Promote(2) then 2 else 1))
                      else old(disk)
      ensures ok ==> Writable(op, disk.marker.value) && old(disk).resources.configuration == Some(expected)
      ensures FaultFree() ==>
        (ok <==> isDocument(expected) && isDocument(updated) && expected != updated
                 && old(disk).resources.configuration == Some(expected))
      ensures Writable(op, disk.marker.value) <==> isDocument(expected) && isDocument(updated) && expected != updated
    {
      hide Run, FilesInv;
      if !isDocument(expected) || !isDocument(updated) || expected == updated {
        return false;
      }
      ok := Io();
      if !ok || disk.resources.configuration != Some(expected) {
        return false;
      }
      var before := disk;
      ok := Io();
      if ok {
        disk := disk.(resources := disk.resources.(configuration := Some(updated)));
        Record(before, action);
      }
    }

    /** Replaces the Battle preferences when they still hold the expected values. */
    method SavePreferences(expected: Preferences, updated: Preferences, ghost action: Action) returns (ok: bool)
      requires Valid() && Committing(disk)
      requires var m, r := disk.marker.value, disk.resources;
        && r.credential.Some? && r.configuration == Some(m.configuration.value.candidate)
        && (|| (action == Promote(3) && expected == PreferencesOf(m, true) && updated == PreferencesOf(m, false))
            || (action == Undo(3) && expected == PreferencesOf(m, false) && updated == PreferencesOf(m, true)))
      modifies this
      ensures Continues()
      ensures disk == if ok then old(disk).(resources := Rung(old(disk).marker.value, if action == Promote(3) then 3 else 2))
                      else old(disk)
      ensures ok ==> old(disk).resources.preferences == expected
      ensures FaultFree() ==> (ok <==> old(disk).resources.preferences == expected)
    {
      hide Run, FilesInv;
      if disk.resources.preferences != expected {
        return false;
      }
      var before := disk;
      ok := Io();
      if ok {
        disk := disk.(resources := disk.resources.(preferences := updated));
        Record(before, action);
      }
    }

    method PromoteCredential(m: Marker, credential: Bytes, ghost at: nat)
      returns (ok: bool, promoted: bool, ghost to: nat)
      requires Valid() && Committing(disk) && disk.marker == Some(m) && at <= 3 && disk.resources == Rung(m, at)
      requires credential == m.credential.value.contents
      modifies this
      ensures Continues()
      ensures to <= 3
      ensures disk == old(disk).(resources := Rung(m, to))
      ensures if promoted then ok && at == 0 && to == 1 else to == at
      ensures ok ==> to >= 1
      ensures FaultFree() ==> (ok <==> CredentialFits(m))
    {
      hide Run, Permits, Apply, FilesInv;
      ok, promoted, to := false, false, at;
      var read := Io();
      if !read {
        return;
      }
      if disk.resources.credential.None? {
        promoted := CreateCredential(credential);
        ok := promoted;
        to := if ok then 1 else at;
      } else {
        ok := disk.resources.credential == Some(credential);
      }
    }

    method PromoteConfiguration(m: Marker, source: Bytes, candidate: Bytes, ghost at: nat)
      returns (ok: bool, configured: bool, ghost to: nat)
      requires Valid() && Committing(disk) && disk.marker == Some(m) && 1 <= at <= 3 && disk.resources == Rung(m, at)
      requires source == m.configuration.value.source && candidate == m.configuration.value.candidate
      modifies this
      ensures Continues()
      ensures to <= 3
      ensures disk == old(disk).(resources := Rung(m, to))
      ensures if configured then ok && at == 1 && to == 2 else to == at
      ensures ok ==> to >= 2 && source != candidate
      ensures FaultFree() ==> (ok <==> Writable(op, m))
    {
      hide Run, Permits, Apply, FilesInv;
      ok, configured, to := false, false, at;
      var read := Io();
      if !read {
        return;
      }
      if disk.resources.configuration == Some(source) {
        configured := SaveDocument(source, candidate, Promote(2));
        ok := configured;
        to := if ok then 2 else at;
      } else {
        ok := disk.resources.configuration == Some(candidate);
      }
    }

    method PromotePreferences(m: Marker, ghost at: nat) returns (ok: bool, preferred: bool, ghost to: nat)
      requires Valid() && Committing(disk) && disk.marker == Some(m) && 2 <= at <= 3 && disk.resources == Rung(m, at)
      requires at == 3 ==> disk.resources != Rung(m, 2)
      modifies this
      ensures Continues()
      ensures to <= 3
      ensures disk == old(disk).(resources := Rung(m, to))
      ensures if preferred then ok && at == 2 && to == 3 else to == at
      ensures ok ==> to == 3 || Rung(m, 2) == Rung(m, 3)
      ensures FaultFree() ==> ok
    {
      hide Run, Permits, Apply, FilesInv;
      ok, preferred, to := false, false, at;
      var read := Io();
      if !read {
        return;
      }
      if disk.resources.preferences == PreferencesOf(m, true) {
        preferred := SavePreferences(PreferencesOf(m, true), PreferencesOf(m, false), Promote(3));
        ok := preferred;
        to := if ok then 3 else at;
      } else {
        ok := disk.resources.preferences == PreferencesOf(m, false);
      }
    }

    /** Reads back all three resources; a configuration that still equals its source is not after. */
    method VerifyPromoted(credential: Bytes, source: Bytes, candidate: Bytes, preferences: Preferences) returns (ok: bool)
      modifies this`clock
      ensures ok ==> disk.resources == Resources(Some(credential), Some(candidate), preferences) && source != candidate
      ensures FaultFree() ==>
        (ok <==> disk.resources == Resources(Some(credential), Some(candidate), preferences) && source != candidate)
    {
      ok := Io();
      ok := ok
        && disk.resources.credential == Some(credential)
        && disk.resources.configuration != Some(source) && disk.resources.configuration == Some(candidate)
        && disk.resources.preferences == preferences;
    }

    /**
    Promotes whatever is not promoted yet, then verifies all three. The flags say what this run
    changed; from and to are the rungs it found and left.
     */
    method PromoteResources(m: Marker, credential: Bytes, source: Bytes, candidate: Bytes)
      returns (ok: bool, promoted: bool, configured: bool, preferred: bool, ghost from: nat, ghost to: nat)
      requires Valid() && Committing(disk) && disk.marker == Some(m)
      requires credential == m.credential.value.contents
      requires source == m.configuration.value.source && candidate == m.configuration.value.candidate
      modifies this
      ensures Continues()
      ensures from <= to <= 3
      ensures old(disk).resources == Rung(m, from) && disk == old(disk).(resources := Rung(m, to))
      ensures forall i: nat :: i < from ==> old(disk).resources != Rung(m, i)
      ensures to == if preferred then 3 else if configured then 2 else if promoted then 1 else from
      ensures promoted ==> from == 0
      ensures configured ==> from <= 1 && (from == 0 ==> promoted) && source != candidate
      ensures preferred ==> from <= 2 && (from <= 1 ==> configured) && (from == 0 ==> promoted)
      ensures ok ==> disk.resources == After(m) && source != candidate
      ensures FaultFree() ==> (ok <==> CredentialFits(m) && Writable(op, m))
    {
      hide Run, Inv, Permits, Apply;
      ok, promoted, configured, preferred := false, false, false, false;
      from := Lowest(op, disk);
      ok, promoted, to := PromoteCredential(m, credential, from);
      if ok {
        ok, configured, to := PromoteConfiguration(m, source, candidate, to);
      }
      if ok {
        ok, preferred, to := PromotePreferences(m, to);
      }
      if ok {
        ok := VerifyPromoted(credential, source, candidate, PreferencesOf(m, false));
      }
    }

    /**
    Undoes, in reverse order, exactly what the failed run changed, and says whether everything is back
    before. It stops at the first step that fails, keeping what is still promoted.
     */
    method Compensate(m: Marker, credential: Bytes, source: Bytes, candidate: Bytes,
                      promoted: bool, configured: bool, preferred: bool, ghost from: nat, ghost to: nat)
      returns (compensated: bool, ghost left: nat)
      requires Valid() && Committing(disk) && disk.marker == Some(m)
      requires credential == m.credential.value.contents
      requires source == m.configuration.value.source && candidate == m.configuration.value.candidate
      requires from <= to <= 3 && disk.resources == Rung(m, to)
      requires to == if preferred then 3 else if configured then 2 else if promoted then 1 else from
      requires promoted ==> from == 0
      requires configured ==> from <= 1 && (from == 0 ==> promoted) && source != candidate
      requires preferred ==> from <= 2 && (from <= 1 ==> configured) && (from == 0 ==> promoted)
      modifies this
      ensures Continues()
      ensures from <= left <= to && disk == old(disk).(resources := Rung(m, left))
      ensures compensated ==> disk.resources == Before(m)
      ensures FaultFree() && from == 0 ==> compensated
    {
      hide Run, Inv, Permits, Apply;
      left := to;
      compensated := false;
      if preferred {
        var undone := SavePreferences(PreferencesOf(m, false), PreferencesOf(m, true), Undo(3));
        if !undone {
          return;
        }
        left := 2;
      }
      if configured {
        WritableOnceConfigured(op, disk, left);
        var undone := SaveDocument(candidate, source, Undo(2));
        if !undone {
          return;
        }
        left := 1;
      }
      if promoted {
        var undone := RollbackCredential();
        if !undone {
          return;
        }
        left := 0;
      }
      var read := Io();
      compensated := read
        && disk.resources.credential.None?
        && disk.resources.configuration == Some(source)
        && disk.resources.preferences == PreferencesOf(m, true);
    }

    // ------------------------------------------------------------------- commit

    /**
    Starts the commit, or resumes it: promotes the three resources, and either records the verdict or
    compensates what this run did. After the resources are verified it never compensates.
     */
    method CommitExact(operation: string, owner: string, credential: Bytes, candidate: Bytes, source: Bytes,
                       admitted: bool, startedAt: int, verifiedAt: int)
      returns (result: CommitResult)
      requires Valid()
      modifies this
      ensures Continues()
      ensures result.Succeeded? ==>
        && disk.marker.Some? && disk.marker.value.stage == CommitVerified && disk.next.None?
        && disk.resources == After(disk.marker.value)
        && Promised(disk.resources, disk.marker.value)
      ensures result.Compensated? ==>
        && disk.marker.Some? && disk.marker.value.stage == CommitStarted && disk.next.None?
        && disk.resources == Before(disk.marker.value)
        && Untouched(disk.resources, disk.marker.value)
      ensures result.Blocked? ==> disk == old(disk)
      ensures !result.Blocked? ==>
        admitted && Inspect(old(disk)).state == Readable && Asked(old(disk), operation, owner, credential, candidate, source)
      ensures Committing(old(disk)) ==>
        && Bound(op.prepared)
        && Level(op.prepared, disk.resources) >= Level(op.prepared, old(disk).resources)
      ensures FaultFree() && CanStart(old(disk)) && Bound(old(disk).marker.value)
              && Presented(old(disk), old(disk).marker.value, operation, owner, credential, candidate, source) ==>
        (result.Succeeded? <==> admitted && CredentialFits(old(disk).marker.value) && Writable(op, old(disk).marker.value))
      ensures FaultFree() && ActivationPreparation.Created(op) && CanStart(old(disk))
              && Presented(old(disk), old(disk).marker.value, operation, owner, credential, candidate, source) ==>
        (result.Succeeded? <==> admitted)
    {
      hide Run, Inv, Permits, Apply, Inspect, ValidMarker, ValidSuccessor, Promised, Untouched, ActivationPreparation.Created, Asked;
      ReadableHasMarker(disk);
      if ActivationPreparation.Created(op) && disk.marker.Some? {
        CreatedCommits(op, disk);
      }
      if Committing(disk) {
        CommittingBinds(op, disk);
      }
      if Inspect(disk).state != Readable
         || !Presented(disk, disk.marker.value, operation, owner, credential, candidate, source) || !admitted
      {
        return Blocked;
      }
      PresentedIsAsked(disk, operation, owner, credential, candidate, source);
      var m := disk.marker.value;
      if CanStart(disk) {
        StartableMayCommit(op, disk);
      }
      var ok := Io();
      if !ok {
        return Unavailable;
      }
      if !MayCommit(disk.resources, m) {
        return Blocked;
      }
      if m.stage == BackupVerified {
        var started := m.(stage := CommitStarted, updated := if startedAt < m.updated then m.updated else startedAt);
        StartedIsReady(op, disk, m, started);
        m := started;
        var status := Advance(m);
        if !status.Done? {
          return if status == Unreachable then Unavailable else if status == Invalid then Blocked else Threw;
        }
      }
      StartedHasNoSuccessor(op, disk);
      result := CommitStartedMarker(m, credential, candidate, source, verifiedAt);
    }

    /** The commit from its durable CommitStarted marker on. */
    method CommitStartedMarker(m: Marker, credential: Bytes, candidate: Bytes, source: Bytes, verifiedAt: int)
      returns (result: CommitResult)
      requires Valid() && Committing(disk) && disk.marker == Some(m)
      requires credential == m.credential.value.contents
      requires source == m.configuration.value.source && candidate == m.configuration.value.candidate
      modifies this
      ensures Continues()
      ensures !result.Blocked? && !result.Threw?
      ensures result.Succeeded? ==>
        && disk.marker.Some? && disk.marker.value.stage == CommitVerified && disk.next.None?
        && disk.resources == After(disk.marker.value) && Promised(disk.resources, disk.marker.value)
      ensures result.Compensated? ==>
        disk.marker == Some(m) && disk.next.None? && disk.resources == Before(m) && Untouched(disk.resources, m)
      ensures Level(m, disk.resources) >= Level(m, old(disk).resources)
      ensures FaultFree() ==> (result.Succeeded? <==> CredentialFits(m) && Writable(op, m))
    {
      hide Run, Inv, Permits, Apply, Inspect, ValidMarker, ValidSuccessor, Promised, Untouched;
      ghost var from, to;
      var promoted, configured, preferred;
      var ok: bool;
      ok, promoted, configured, preferred, from, to := PromoteResources(m, credential, source, candidate);
      LevelsFollowRungs(m, from, to);
      if !ok {
        ghost var left;
        ok, left := Compensate(m, credential, source, candidate, promoted, configured, preferred, from, to);
        LevelsFollowRungs(m, from, left);
        MarkerShows(op, disk);
        return if ok then Compensated else Unavailable;
      }
      var committed := m.(stage := CommitVerified, updated := if verifiedAt < m.updated then m.updated else verifiedAt);
      CommittedIsReady(op, disk, m, committed);
      var status := Advance(committed);
      if status.Done? {
        MarkerShows(op, disk);
      }
      return if status.Done? then Succeeded else Unavailable;
    }

    // ----------------------------------------------------------------- recovery

    /** Checks a recorded verdict against the backup and all three resources, changing nothing. */
    method VerifyCommitted(admitted: bool) returns (result: CommitResult)
      requires Valid()
      modifies this`clock
      ensures result.Succeeded? ==>
        && Inspect(disk).state == Readable && disk.marker.Some?
        && (disk.marker.value.stage == CommitVerified || disk.marker.value.stage == CleanupPending)
        && Bound(disk.marker.value) && disk.resources == After(disk.marker.value)
      ensures FaultFree() ==>
        (result.Succeeded? <==>
          && admitted && Inspect(disk).state == Readable && disk.marker.Some?
          && (disk.marker.value.stage == CommitVerified || disk.marker.value.stage == CleanupPending))
    {
      hide Run, Inv, Permits, Apply, Inspect, ValidMarker, ValidSuccessor;
      ReadableHasMarker(disk);
      if Inspect(disk).state != Readable
         || (disk.marker.value.stage != CommitVerified && disk.marker.value.stage != CleanupPending)
      {
        return Blocked;
      }
      var m := disk.marker.value;
      CommittedDisk(op, disk);
      if !Bound(m) || BackupOf(m).None? || !admitted {
        return Blocked;
      }
      var read := Io();
      if !read {
        return Unavailable;
      }
      var (id, contents) := BackupOf(m).value;
      if id !in disk.backups || |disk.backups[id]| != |m.configuration.value.source| || disk.backups[id] != contents {
        return Blocked;
      }
      read := Io();
      if !read {
        return Unavailable;
      }
      if disk.resources.credential != Some(m.credential.value.contents)
         || disk.resources.configuration != Some(m.configuration.value.candidate)
         || disk.resources.preferences != PreferencesOf(m, false)
      {
        return Blocked;
      }
      return Succeeded;
    }

    /** Resumes a commit from its durable CommitStarted marker, presenting the candidates kept beside it. */
    method RecoverCommitStarted(admitted: bool, verifiedAt: int) returns (result: CommitResult)
      requires Valid()
      modifies this
      ensures Continues()
      ensures result.Succeeded? ==>
        && disk.marker.Some? && disk.marker.value.stage == CommitVerified && disk.next.None?
        && disk.resources == After(disk.marker.value)
      ensures FaultFree() && Committing(old(disk)) ==> (result.Succeeded? <==> admitted && Recoverable(op))
      ensures FaultFree() && Committing(old(disk)) && ActivationPreparation.Created(op) ==> (result.Succeeded? <==> admitted)
    {
      hide Run, Inv, Permits, Apply, Inspect, ValidMarker, ValidSuccessor, Recoverable, ActivationPreparation.Created;
      if ActivationPreparation.Created(op) {
        ActivationPreparation.CreatedIsRecoverable(op);
      }
      StartedInspection(op, disk);
      var status := RecoverJournal();
      ReadableHasMarker(disk);
      if !status.Done? {
        return if status.Unreachable? then Unavailable else Blocked;
      }
      if Inspect(disk).state != Readable || disk.marker.value.stage != CommitStarted
         || BackupOf(disk.marker.value).None? || disk.marker.value.credential.None?
      {
        if Committing(old(disk)) {
          CommittedDisk(op, disk);
        }
        return Blocked;
      }
      StartedHasNoSuccessor(op, disk);
      CommittedDisk(op, disk);
      RecoverableAt(op, disk);
      var m := disk.marker.value;
      if !admitted || RuntimeLockVerdict(m, false) != Some(true) {
        return Blocked;
      }
      result := ResumeFromCandidates(m, admitted, verifiedAt);
    }

    /** Reads the backup and both candidates back, then hands them to the commit. */
    method ResumeFromCandidates(m: Marker, admitted: bool, verifiedAt: int) returns (result: CommitResult)
      requires Valid() && Committing(disk) && disk.marker == Some(m) && BackupOf(m).Some?
      modifies this
      ensures Continues()
      ensures result.Succeeded? ==>
        && disk.marker.Some? && disk.marker.value.stage == CommitVerified && disk.next.None?
        && disk.resources == After(disk.marker.value)
      ensures FaultFree() ==>
        (result.Succeeded? <==>
          && admitted && CredentialFits(m) && Writable(op, m) && 0 < |m.configuration.value.candidate|
          && LookupRole(m.resources, IngestCredential).value.candidatePath.Some?)
    {
      hide Run, Inv, Permits, Apply, Inspect, ValidMarker, ValidSuccessor, Presented;
      CandidatesToResume(op, disk);
      CommittedDisk(op, disk);
      InspectionAfterCommitStarted(op, disk);
      var read := Io();
      var id := BackupOf(m).value.0;
      if !read {
        return Unavailable;
      }
      if id !in disk.backups {
        return Blocked;
      }
      var source := disk.backups[id];
      var status, candidate :=
        ReadExactCandidate(m, m.configuration.value.candidatePath, m.configuration.value.candidate);
      if !status.Done? {
        return if status.Unreachable? then Unavailable else Blocked;
      }
      var credentialResource := LookupRole(m.resources, IngestCredential);
      if credentialResource.None? || credentialResource.value.candidatePath.None? {
        return Blocked;
      }
      var credential;
      status, credential :=
        ReadExactCandidate(m, credentialResource.value.candidatePath.value, m.credential.value.contents);
      if !status.Done? {
        return if status.Unreachable? then Unavailable else Blocked;
      }
      ResumePresents(op, disk, credential, candidate, source);
      result := CommitExact(m.operationId, m.ownerId, credential, candidate, source, admitted, m.updated, verifiedAt);
    }

    /**
    The recovery run: finishes an interrupted step, resumes a started commit, verifies the verdict,
    enters cleanup, verifies again and deletes everything, the marker last. Without failures it
    converges from every state whose latest marker is CommitStarted or later, and for an operation the
    preparer created only the admission of the installation can stand in its way.
     */
    method Recover(admitted: bool, verifiedAt: int, cleanedAt: int) returns (result: RecoveryResult)
      requires Valid()
      modifies this
      ensures Continues()
      ensures result.NoOperation? ==> disk == old(disk) && disk.marker.None?
      ensures result.Recovered? ==>
        && disk.marker.None? && Inspect(disk).state == Absent && disk.candidates == map[] && disk.lock.None?
        && Bound(op.prepared) && disk.resources == After(op.prepared)
        && Promised(disk.resources, op.prepared)
      ensures FaultFree() && Started(old(disk)) ==>
        (result.Recovered? <==> admitted && (Latest(old(disk)).value.stage == CommitStarted ==> Recoverable(op)))
      ensures FaultFree() && Started(old(disk)) && ActivationPreparation.Created(op) ==> (result.Recovered? <==> admitted)
    {
      hide Run, Inv, Permits, Apply, Inspect, ValidMarker, ValidSuccessor, Promised, Untouched, Recoverable, ActivationPreparation.Created;
      if ActivationPreparation.Created(op) {
        ActivationPreparation.CreatedIsRecoverable(op);
      }
      if Started(disk) {
        StartedInspection(op, disk);
      }
      ReadableHasMarker(disk);
      var status := RecoverJournal();
      ReadableHasMarker(disk);
      if !status.Done? {
        return if status.Unreachable? then RecoveryUnavailable else RecoveryBlocked;
      }
      if Started(old(disk)) {
        InstallKeepsLatest(op, old(disk));
        CommittedDisk(op, disk);
      }
      if Inspect(disk).state == Absent {
        return NoOperation;
      }
      if Inspect(disk).state != Readable {
        return RecoveryBlocked;
      }
      if disk.marker.value.stage == CommitStarted {
        var resumed := RecoverCommitStarted(admitted, verifiedAt);
        if !resumed.Succeeded? {
          return if resumed.Blocked? then RecoveryBlocked else RecoveryUnavailable;
        }
      }
      result := FinishCommitted(admitted, cleanedAt);
      if result.Recovered? {
        PreparedIsValid(op, disk);
        EndsOfTheLadder(op.prepared);
      }
    }

    /** From a recorded verdict to a clean disk. */
    method FinishCommitted(admitted: bool, cleanedAt: int) returns (result: RecoveryResult)
      requires Valid()
      modifies this
      ensures Continues()
      ensures !result.NoOperation?
      ensures result.Recovered? ==>
        && disk.marker.None? && Inspect(disk).state == Absent && disk.candidates == map[] && disk.lock.None?
        && Bound(op.prepared) && disk.resources == After(op.prepared)
      ensures FaultFree() && old(disk).marker.Some? && old(disk).next.None?
              && (old(disk).marker.value.stage == CommitVerified || old(disk).marker.value.stage == CleanupPending) ==>
        (result.Recovered? <==> admitted)
    {
      hide Run, Inv, Permits, Apply, Inspect, ValidMarker, ValidSuccessor, ExpectedCandidates, RuntimeContents, Bound, After;
      if disk.marker.Some? && !PreCommit(disk.marker.value.stage) {
        InspectionAfterCommitStarted(op, disk);
      }
      ReadableHasMarker(disk);
      if Inspect(disk).state != Readable
         || (disk.marker.value.stage != CommitVerified && disk.marker.value.stage != CleanupPending)
      {
        return RecoveryBlocked;
      }
      var verified := VerifyCommitted(admitted);
      if !verified.Succeeded? {
        return if verified.Blocked? then RecoveryBlocked else RecoveryUnavailable;
      }
      VerdictMeansAfter(op, disk);
      var status := EnterCleanup(cleanedAt);
      if !status.Done? {
        return if status.Unreachable? then RecoveryUnavailable else RecoveryBlocked;
      }
      verified := VerifyCommitted(admitted);
      if !verified.Succeeded? {
        return if verified.Blocked? then RecoveryBlocked else RecoveryUnavailable;
      }
      CommittedDisk(op, disk);
      status := DeleteCommittedArtifacts(disk.marker.value, false);
      return if status.Done? then Recovered else if status.Unreachable? then RecoveryUnavailable else RecoveryBlocked;
    }

    /** Checks the runtime lock and moves a verified commit on to its cleanup stage. */
    method EnterCleanup(cleanedAt: int) returns (status: Status)
      requires Valid() && Inspect(disk).state == Readable && disk.marker.Some? && disk.next.None?
      requires disk.marker.value.stage == CommitVerified || disk.marker.value.stage == CleanupPending
      modifies this
      ensures Continues()
      ensures disk.resources == old(disk).resources
      ensures status.Done? ==>
        && disk.marker.Some? && disk.marker.value.stage == CleanupPending && disk.next.None?
        && Inspect(disk).state == Readable
      ensures FaultFree() ==> status.Done?
    {
      hide Run, Inv, Permits, Apply, Inspect, ValidMarker, ValidSuccessor;
      var m := disk.marker.value;
      CommittedDisk(op, disk);
      ReadableHasMarker(disk);
      if RuntimeLockVerdict(m, m.stage == CleanupPending) != Some(true) {
        return Invalid;
      }
      status := Done;
      if m.stage == CommitVerified {
        var cleaning := m.(stage := CleanupPending, updated := if cleanedAt < m.updated then m.updated else cleanedAt);
        CleaningIsReady(op, disk, m, cleaning);
        status := Advance(cleaning);
        CleanupIsReadable(op, disk);
      }
    }
  }
}
