/**
The durable state of one Battle activation and every single durable action its coordinators take.
A crash may fall between any two actions, so a run of the protocol is any sequence of enabled
actions, in any order: the safety theorems below are about every state of every such run.
LifecycleOperations shows that the coordinators' procedures take only these actions.
 */
module LifecycleProtocol {
  import opened Common
  import opened LifecycleMarker

  // --------------------------------------------------------------------- disk

  datatype Preferences = Preferences(battle: Preference, fleet: Preference)

  datatype Lock = Lock(owner: string, contents: Bytes)

  // How much of recovery/<operation>/candidate exists.
  datatype Directory = Missing | OperationOnly | CandidateDirectory

  /** The three authoritative resources. */
  datatype Resources = Resources(credential: Option<Bytes>, configuration: Option<Bytes>, preferences: Preferences)

  datatype Disk = Disk(
    marker: Option<Marker>,
    next: Option<Marker>,
    directory: Directory,
    candidates: map<string, Bytes>,
    lock: Option<Lock>,
    backups: map<string, Bytes>,
    resources: Resources)

  /** The operation a run belongs to: its prepared marker, what the resources held then, and which bytes are TOML. */
  datatype Operation = Operation(prepared: Marker, origin: Resources, isDocument: Bytes -> bool)

  // --------------------------------------------------------------- inspection

  datatype JournalState = Absent | Readable | RecoverableSuccessor | RecoverableResidue | RecoveryFailed

  datatype Inspection = Inspection(
    state: JournalState, marker: Option<Marker>, successor: Option<Marker>, mismatch: bool)

  function CandidatesOfResources(resources: seq<ResourceTransition>): Option<map<string, Bytes>> {
    if resources == [] then Some(map[])
    else
      var rest := CandidatesOfResources(resources[1..]);
      var r := resources[0];
      if rest.None? then None
      else if r.candidatePath.None? then rest
      else if r.after.None? || r.candidatePath.value in rest.value then None
      else Some(rest.value[r.candidatePath.value := r.after.value])
  }

  /** The candidate files a marker binds, or None when its inventory is inconsistent. */
  function ExpectedCandidates(m: Marker): Option<map<string, Bytes>> {
    var fromResources := CandidatesOfResources(m.resources);
    if fromResources.None? || m.configuration.None? then fromResources
    else if m.configuration.value.candidatePath in fromResources.value then None
    else Some(fromResources.value[m.configuration.value.candidatePath := m.configuration.value.candidate])
  }

  function Failure(m: Option<Marker>): Inspection { Inspection(RecoveryFailed, m, None, false) }

  function Inspect(d: Disk): Inspection {
    if d.marker.None? then
      if d.directory.Missing? then Inspection(Absent, None, None, false) else Failure(None)
    else
      var m := d.marker.value;
      var expected := ExpectedCandidates(m);
      if !ValidMarker(m) || expected.None? then Failure(None)
      else
        var readable := Inspection(Readable, Some(m), None, false);
        var residue := Inspection(RecoverableResidue, Some(m), None, false);
        if d.directory.Missing? then
          if expected.value == map[] || m.stage == CleanupPending then readable else residue
        else if d.directory.OperationOnly? || (d.candidates == map[] && d.next.None?) then
          if m.stage == CleanupPending then readable else residue
        else if !(d.candidates.Keys <= expected.value.Keys) then Failure(Some(m))
        else if exists p :: p in d.candidates && d.candidates[p] != expected.value[p] then
          Inspection(RecoveryFailed, Some(m), None, true)
        else
          var missing := d.candidates.Keys != expected.value.Keys;
          if d.next.Some? then
            if missing then Failure(Some(m))
            else if !ValidSuccessor(m, d.next.value) then Failure(None)
            else Inspection(RecoverableSuccessor, Some(m), d.next, false)
          else if missing && m.stage != CleanupPending then residue
          else readable
  }

  // ---------------------------------------------------------- what a marker binds

  function PreferencesOf(m: Marker, before: bool): Preferences
    requires |m.features| == 2
  {
    if before then Preferences(m.features[0].before, m.features[1].before)
    else Preferences(m.features[0].after, m.features[1].after)
  }

  function RuntimeContents(m: Marker): Option<Bytes> {
    var r := LookupRole(m.resources, RuntimeLock);
    if r.None? then None else r.value.after
  }

  predicate LockMatches(d: Disk, m: Marker) {
    d.lock.Some? && d.lock.value.owner == m.ownerId && Some(d.lock.value.contents) == RuntimeContents(m)
  }

  /** The marker creates the credential: the path check both commit and verification make. */
  predicate CreatesCredential(m: Marker) {
    var r := LookupRole(m.resources, IngestCredential);
    r.Some? && r.value.before.None? && r.value.after.Some?
  }

  /** The marker binds all three resources. */
  predicate Bound(m: Marker) {
    m.configuration.Some? && m.credential.Some? && CreatesCredential(m) && |m.features| == 2
  }

  /** The credential bytes are ones the credential store accepts. */
  predicate CredentialFits(m: Marker)
    requires m.credential.Some?
  {
    0 < |m.credential.value.contents| <= MAXIMUM_CREDENTIAL_BYTES
  }

  /** The configuration store replaces source by candidate: both parse, and there is a change to save. */
  predicate Writable(op: Operation, m: Marker)
    requires m.configuration.Some?
  {
    var c := m.configuration.value;
    c.source != c.candidate && op.isDocument(c.source) && op.isDocument(c.candidate)
  }

  /** Conditions a caller can check on a marker: recovery from CommitStarted needs exactly these. */
  predicate Recoverable(op: Operation) {
    && Bound(op.prepared)
    && CredentialFits(op.prepared)
    && Writable(op, op.prepared)
    && 0 < |op.prepared.configuration.value.candidate|
    && LookupRole(op.prepared.resources, IngestCredential).value.candidatePath.Some?
  }

  /**
  How far the resources have come: 0 none promoted, 1 the credential, 2 the configuration too,
  3 all three.
   */
  function Rung(m: Marker, i: nat): Resources
    requires Bound(m) && i <= 3
  {
    Resources(
      if i >= 1 then Some(m.credential.value.contents) else None,
      Some(if i >= 2 then m.configuration.value.candidate else m.configuration.value.source),
      PreferencesOf(m, i < 3))
  }

  function Before(m: Marker): Resources
    requires Bound(m)
  {
    Rung(m, 0)
  }

  function After(m: Marker): Resources
    requires Bound(m)
  {
    Rung(m, 3)
  }

  /** The stored preference of every feature is its transition's value before, or after, the operation. */
  predicate Shows(p: Preferences, features: seq<FeatureTransition>, after: bool) {
    forall t :: t in features ==>
      (if t.feature.BattleCollection? then p.battle else p.fleet) == (if after then t.after else t.before)
  }

  /** The resources as the marker promises them, one by one. */
  predicate Promised(r: Resources, m: Marker) {
    && m.credential.Some? && r.credential == Some(m.credential.value.contents)
    && m.configuration.Some? && r.configuration == Some(m.configuration.value.candidate)
    && Shows(r.preferences, m.features, true)
  }

  /** The resources as the marker found them, one by one. */
  predicate Untouched(r: Resources, m: Marker) {
    && r.credential.None?
    && m.configuration.Some? && r.configuration == Some(m.configuration.value.source)
    && Shows(r.preferences, m.features, false)
  }

  /** The two ends of the ladder are what the marker found and what it promises. */
  lemma EndsOfTheLadder(m: Marker)
    requires ValidMarker(m) && Bound(m)
    ensures Untouched(Before(m), m) && Promised(After(m), m)
  {
    assert m.features == [m.features[0], m.features[1]];
  }

  // ------------------------------------------------------------------ actions

  datatype Action =
    | CreateLock
    | OpenDirectory(to: Directory)
    | PruneDirectory(to: Directory)
    | WriteCandidate(path: string)
    | RecordBackup(id: string, contents: Bytes)
    | StageSuccessor(successor: Marker)
    | InstallSuccessor
    | Promote(rung: nat)
    | Undo(rung: nat)
    | DropCandidate(path: string)
    | DropLock
    | DropMarker(retainLock: bool)

  predicate PreCommit(stage: Stage) {
    stage.Rank() < CommitStarted.Rank()
  }

  /** Files may be deleted: by rollback before the commit, by cleanup after it. */
  predicate Deleting(d: Disk) {
    d.marker.Some? && d.next.None? && (PreCommit(d.marker.value.stage) || d.marker.value.stage == CleanupPending)
  }

  predicate BackupIsFaithful(d: Disk, m: Marker) {
    var b := BackupOf(m);
    b.Some? ==>
      && m.configuration.Some?
      && b.value.1 == m.configuration.value.source
      && b.value.0 in d.backups
      && d.backups[b.value.0] == m.configuration.value.source
  }

  predicate Committing(d: Disk) {
    d.marker.Some? && d.marker.value.stage == CommitStarted && d.next.None? && Bound(d.marker.value)
  }

  /** What the code has established just before it takes the action. */
  predicate Permits(op: Operation, d: Disk, a: Action) {
    match a
    case CreateLock =>
      && d.marker.Some? && d.marker.value.stage == Prepared && d.next.None? && d.lock.None?
      && RuntimeContents(d.marker.value).Some?
    case OpenDirectory(to) =>
      && d.marker.Some? && (d.directory.Missing? || to.CandidateDirectory?)
    case PruneDirectory(to) =>
      && d.candidates == map[] && d.next.None? && (to.Missing? || (to.OperationOnly? && d.directory.CandidateDirectory?))
    case WriteCandidate(path) =>
      && d.marker.Some? && d.marker.value.stage == Prepared && d.next.None? && LockMatches(d, d.marker.value)
      && d.directory.CandidateDirectory?
      && ExpectedCandidates(d.marker.value).Some? && path in ExpectedCandidates(d.marker.value).value
    case RecordBackup(id, contents) =>
      id !in d.backups
    case StageSuccessor(s) =>
      && Inspect(d).state == Readable && d.directory.CandidateDirectory?
      && d.marker.Some? && d.marker.value.configuration.Some? && ValidSuccessor(d.marker.value, s) && s.stage != Failed
      && BackupIsFaithful(d, s)
      && (s.stage == CommitStarted ==> Bound(s) && d.resources == Before(s))
      && (s.stage == CommitVerified ==>
            Bound(s) && d.resources == After(s) && s.configuration.value.source != s.configuration.value.candidate)
    case InstallSuccessor =>
      d.marker.Some? && d.next.Some?
    case Promote(rung) =>
      && Committing(d) && 1 <= rung <= 3 && d.resources == Rung(d.marker.value, rung - 1)
      && (rung == 1 ==> CredentialFits(d.marker.value))
      && (rung == 2 ==> Writable(op, d.marker.value))
    case Undo(rung) =>
      Committing(d) && 1 <= rung <= 3 && d.resources == Rung(d.marker.value, rung)
    case DropCandidate(path) =>
      Deleting(d) && path in d.candidates
    case DropLock =>
      Deleting(d) && d.lock.Some? && d.candidates == map[]
    case DropMarker(retainLock) =>
      && Deleting(d) && d.candidates == map[] && d.directory.Missing? && (d.lock.None? || retainLock)
      && (retainLock ==> d.marker.value.stage == CleanupPending)
      && (PreCommit(d.marker.value.stage) ==>
            && d.resources.credential.None?
            && d.marker.value.configuration.Some?
            && d.resources.configuration == Some(d.marker.value.configuration.value.source))
  }

  function Apply(op: Operation, d: Disk, a: Action): Disk
    requires Permits(op, d, a)
  {
    match a
    case CreateLock =>
      d.(lock := Some(Lock(d.marker.value.ownerId, RuntimeContents(d.marker.value).value)))
    case OpenDirectory(to) => d.(directory := to)
    case PruneDirectory(to) => d.(directory := to)
    case WriteCandidate(path) =>
      d.(candidates := d.candidates[path := ExpectedCandidates(d.marker.value).value[path]])
    case RecordBackup(id, contents) => d.(backups := d.backups[id := contents])
    case StageSuccessor(s) => d.(next := Some(s))
    case InstallSuccessor => d.(marker := d.next, next := None)
    case Promote(rung) => d.(resources := Rung(d.marker.value, rung))
    case Undo(rung) => d.(resources := Rung(d.marker.value, rung - 1))
    case DropCandidate(path) => d.(candidates := d.candidates - {path})
    case DropLock => d.(lock := None)
    case DropMarker(_) => d.(marker := None)
  }

  ghost predicate Next(op: Operation, d: Disk, d': Disk) {
    exists a :: Permits(op, d, a) && d' == Apply(op, d, a)
  }

  /** The disk when the prepared marker has just been created on one that held no operation. */
  predicate Start(op: Operation, d: Disk) {
    && ValidMarker(op.prepared) && op.prepared.stage == Prepared && ExpectedCandidates(op.prepared).Some?
    && d.marker == Some(op.prepared) && d.next.None? && d.directory.Missing? && d.candidates == map[]
    && d.lock.None? && d.resources == op.origin
  }

  /** Every state of a run: what any interleaving of procedures and crashes can leave on disk. */
  ghost predicate Run(op: Operation, ds: seq<Disk>) {
    && |ds| > 0
    && Start(op, ds[0])
    && forall i :: 0 < i < |ds| ==> Next(op, ds[i - 1], ds[i])
  }

  // ---------------------------------------------------------------- invariant

  predicate Within(candidates: map<string, Bytes>, expected: map<string, Bytes>) {
    forall p :: p in candidates ==> p in expected && expected[p] == candidates[p]
  }

  /** What holds of the files while a marker exists, whatever its stage. */
  predicate FilesInv(op: Operation, d: Disk, m: Marker) {
    && ValidMarker(m) && Binding(m) == Binding(op.prepared) && m.stage != Failed
    && ExpectedCandidates(m).Some?
    && Within(d.candidates, ExpectedCandidates(m).value)
    && (d.candidates != map[] || d.next.Some? ==> d.directory.CandidateDirectory?)
    && (d.candidates != map[] && m.stage != CleanupPending ==> LockMatches(d, m))
    && (d.lock.Some? ==> LockMatches(d, m))
    && (m.stage != Prepared ==> m.configuration.Some?)
    && BackupIsFaithful(d, m)
    && (d.next.Some? ==>
          && m.configuration.Some?
          && d.candidates == ExpectedCandidates(m).value
          && ValidSuccessor(m, d.next.value) && NextStage(m.stage) == Some(d.next.value.stage)
          && BackupIsFaithful(d, d.next.value))
  }

  /** The part about the resources, stage by stage. */
  predicate ResourcesInv(op: Operation, d: Disk, m: Marker) {
    if PreCommit(m.stage) then
      && d.resources == op.origin
      && (d.next.Some? && d.next.value.stage == CommitStarted ==> Bound(m) && d.resources == Before(m))
    else
      && Bound(m) && ExpectedCandidates(m).Some?
      && (m.stage != CleanupPending ==> d.candidates == ExpectedCandidates(m).value)
      && op.origin == Before(m)
      && if m.stage == CommitStarted then
           && (d.resources == Rung(m, 0) || d.resources == Rung(m, 1) || d.resources == Rung(m, 2) || d.resources == Rung(m, 3))
           && (d.resources.credential.Some? ==> CredentialFits(m))
           && (d.resources.configuration != Some(m.configuration.value.source) ==> Writable(op, m))
           && (d.next.Some? ==>
                 d.resources == After(m) && m.configuration.value.source != m.configuration.value.candidate)
         else
           d.resources == After(m) && CredentialFits(m) && Writable(op, m)
  }

  predicate Inv(op: Operation, d: Disk) {
    && ValidMarker(op.prepared) && op.prepared.stage == Prepared
    && if d.marker.None? then
         && d.next.None? && d.candidates == map[]
         && (d.resources == op.origin || (Bound(op.prepared) && d.resources == After(op.prepared)))
       else FilesInv(op, d, d.marker.value) && ResourcesInv(op, d, d.marker.value)
  }

  // ------------------------------------------------- every action keeps the invariant

  lemma BindingDetermines(m: Marker, m': Marker)
    requires Binding(m) == Binding(m')
    ensures ExpectedCandidates(m) == ExpectedCandidates(m')
    ensures RuntimeContents(m) == RuntimeContents(m') && m.ownerId == m'.ownerId
    ensures m.configuration.Some? == m'.configuration.Some?
    ensures Bound(m) == Bound(m')
    ensures Bound(m) ==> forall i: nat :: i <= 3 ==> Rung(m, i) == Rung(m', i)
    ensures Bound(m) ==> CredentialFits(m) == CredentialFits(m')
    ensures m.configuration.Some? ==> m.configuration.value.source == m'.configuration.value.source
    ensures m.configuration.Some? ==> m.configuration.value.candidate == m'.configuration.value.candidate
  {
    assert m.resources == Binding(m).resources && m'.resources == Binding(m').resources;
    assert m.credential == Binding(m).credential && m'.credential == Binding(m').credential;
    assert m.features == Binding(m).features && m'.features == Binding(m').features;
    assert m.ownerId == Binding(m).ownerId && m'.ownerId == Binding(m').ownerId;
    assert Unbacked(m.configuration) == Unbacked(m'.configuration);
    if m.configuration.Some? {
      var c, c' := m.configuration.value, m'.configuration.value;
      assert c.(backupId := None, backupContents := None) == c'.(backupId := None, backupContents := None);
      assert c.candidatePath == c'.candidatePath && c.candidate == c'.candidate && c.source == c'.source;
    }
  }

  /** A marker that is ready to advance has every candidate it binds on disk. */
  lemma ReadableIsComplete(d: Disk)
    requires Inspect(d).state == Readable && d.marker.Some? && d.marker.value.stage != CleanupPending
    requires d.directory.CandidateDirectory?
    ensures ExpectedCandidates(d.marker.value) == Some(d.candidates) && d.next.None?
  {
    var expected := ExpectedCandidates(d.marker.value).value;
    assert d.candidates.Keys == expected.Keys;
    assert forall p :: p in d.candidates ==> d.candidates[p] == expected[p];
    assert d.candidates == expected;
  }

  lemma StagingKeepsResourcesInv(op: Operation, d: Disk, m: Marker, s: Marker)
    requires d.next.None? && d.marker == Some(m)
    requires ResourcesInv(op, d, m)
    requires ExpectedCandidates(m) == Some(d.candidates)
    requires NextStage(m.stage) == Some(s.stage) && Binding(m) == Binding(s)
    requires s.stage == CommitStarted ==> Bound(s) && d.resources == Before(s)
    requires s.stage == CommitVerified ==>
      Bound(s) && d.resources == After(s) && s.configuration.value.source != s.configuration.value.candidate
    ensures ResourcesInv(op, d.(next := Some(s)), m)
  {
    BindingDetermines(m, s);
  }

  lemma StagingKeepsInv(op: Operation, d: Disk, a: Action)
    requires Inv(op, d) && Permits(op, d, a) && a.StageSuccessor?
    ensures Inv(op, Apply(op, d, a))
  {
    hide ValidMarker;
    var m, s := d.marker.value, a.successor;
    assert NextStage(m.stage) == Some(s.stage);
    ReadableIsComplete(d);
    SuccessorKeepsBinding(m, s);
    StagingKeepsResourcesInv(op, d, m, s);
    assert FilesInv(op, d.(next := Some(s)), m);
  }

  lemma InstallingKeepsResourcesInv(op: Operation, d: Disk, m: Marker, s: Marker)
    requires d.marker == Some(m) && d.next == Some(s)
    requires ResourcesInv(op, d, m)
    requires ExpectedCandidates(m) == Some(d.candidates)
    requires NextStage(m.stage) == Some(s.stage) && Binding(m) == Binding(s)
    ensures ResourcesInv(op, d.(marker := Some(s), next := None), s)
  {
    BindingDetermines(m, s);
  }

  lemma InstallingKeepsInv(op: Operation, d: Disk, a: Action)
    requires Inv(op, d) && Permits(op, d, a) && a.InstallSuccessor?
    ensures Inv(op, Apply(op, d, a))
  {
    hide ValidMarker;
    var m, s := d.marker.value, d.next.value;
    SuccessorKeepsBinding(m, s);
    BindingDetermines(m, s);
    assert NextStage(m.stage) == Some(s.stage);
    InstallingKeepsResourcesInv(op, d, m, s);
    assert ValidMarker(s);
    assert FilesInv(op, d.(marker := Some(s), next := None), s);
  }

  lemma ResourceActionsKeepInv(op: Operation, d: Disk, a: Action)
    requires Inv(op, d) && Permits(op, d, a) && (a.Promote? || a.Undo?)
    ensures Inv(op, Apply(op, d, a))
  {
    hide ValidMarker;
  }

  lemma DeletionsKeepInv(op: Operation, d: Disk, a: Action)
    requires Inv(op, d) && Permits(op, d, a) && (a.DropCandidate? || a.DropLock? || a.DropMarker?)
    ensures Inv(op, Apply(op, d, a))
  {
    hide ValidMarker;
    BindingDetermines(d.marker.value, op.prepared);
  }

  lemma PreparationsKeepInv(op: Operation, d: Disk, a: Action)
    requires Inv(op, d) && Permits(op, d, a)
    requires a.CreateLock? || a.OpenDirectory? || a.PruneDirectory? || a.RecordBackup?
    ensures Inv(op, Apply(op, d, a))
  {
    hide ValidMarker;
    if d.marker.Some? {
      var m, d' := d.marker.value, Apply(op, d, a);
      assert ResourcesInv(op, d', m);
      assert FilesInv(op, d', m);
    }
  }

  lemma WritingKeepsInv(op: Operation, d: Disk, a: Action)
    requires Inv(op, d) && Permits(op, d, a) && a.WriteCandidate?
    ensures Inv(op, Apply(op, d, a))
  {
    hide ValidMarker;
    var m, d' := d.marker.value, Apply(op, d, a);
    assert Within(d'.candidates, ExpectedCandidates(m).value);
    assert ResourcesInv(op, d', m);
  }

  lemma ActionsKeepInv(op: Operation, d: Disk, a: Action)
    requires Inv(op, d) && Permits(op, d, a)
    ensures Inv(op, Apply(op, d, a))
  {
    hide *;
    match a
    case StageSuccessor(_) => StagingKeepsInv(op, d, a);
    case InstallSuccessor => InstallingKeepsInv(op, d, a);
    case Promote(_) => ResourceActionsKeepInv(op, d, a);
    case Undo(_) => ResourceActionsKeepInv(op, d, a);
    case DropCandidate(_) => DeletionsKeepInv(op, d, a);
    case DropLock => DeletionsKeepInv(op, d, a);
    case DropMarker(_) => DeletionsKeepInv(op, d, a);
    case WriteCandidate(_) => WritingKeepsInv(op, d, a);
    case _ => PreparationsKeepInv(op, d, a);
  }

  // -------------------------------------------------------------- whole runs

  lemma {:induction false} RunsKeepInv(op: Operation, ds: seq<Disk>, i: nat)
    requires Run(op, ds) && i < |ds|
    ensures Inv(op, ds[i])
  {
    if i > 0 {
      RunsKeepInv(op, ds, i - 1);
      assert Next(op, ds[i - 1], ds[i]);
      var a :| Permits(op, ds[i - 1], a) && ds[i] == Apply(op, ds[i - 1], a);
      ActionsKeepInv(op, ds[i - 1], a);
    }
  }

  /**
  All or nothing: whenever the marker is gone, the three resources are what they were when the
  operation was prepared, or all three hold what it promised.
   */
  lemma MarkerGoneIsAllOrNothing(op: Operation, ds: seq<Disk>, i: nat)
    requires Run(op, ds) && i < |ds| && ds[i].marker.None?
    ensures ds[i].resources == op.origin || (Bound(op.prepared) && ds[i].resources == After(op.prepared))
  {
    RunsKeepInv(op, ds, i);
  }

  /** Nothing changes until the CommitStarted marker itself is durable: a staged successor is not enough. */
  lemma NothingChangesBeforeCommitStarted(op: Operation, ds: seq<Disk>, i: nat)
    requires Run(op, ds) && i < |ds| && ds[i].marker.Some? && PreCommit(ds[i].marker.value.stage)
    ensures ds[i].resources == op.origin
  {
    RunsKeepInv(op, ds, i);
  }

  /**
  Resources change as a chain: in every state of every run, preferences that differ from the origin
  mean the configuration is the candidate, and a changed configuration means the credential is in place.
   */
  lemma ResourcesChangeAsAChain(op: Operation, ds: seq<Disk>, i: nat)
    requires Run(op, ds) && i < |ds|
    ensures ds[i].resources.preferences != op.origin.preferences ==>
      && Bound(op.prepared)
      && ds[i].resources.configuration == Some(op.prepared.configuration.value.candidate)
      && ds[i].resources.credential == Some(op.prepared.credential.value.contents)
    ensures ds[i].resources.configuration != op.origin.configuration ==>
      && Bound(op.prepared)
      && ds[i].resources.configuration == Some(op.prepared.configuration.value.candidate)
      && ds[i].resources.credential == Some(op.prepared.credential.value.contents)
    ensures ds[i].resources.credential != op.origin.credential ==>
      && Bound(op.prepared)
      && op.origin.credential.None?
      && ds[i].resources.credential == Some(op.prepared.credential.value.contents)
    ensures ds[i].resources != op.origin ==> Bound(op.prepared) && op.origin == Before(op.prepared)
  {
    RunsKeepInv(op, ds, i);
    RunOriginIsBefore(op, ds, i);
    if ds[i].marker.Some? {
      BindingDetermines(ds[i].marker.value, op.prepared);
    }
  }

  lemma {:induction false} RunOriginIsBefore(op: Operation, ds: seq<Disk>, i: nat)
    requires Run(op, ds) && i < |ds|
    ensures ds[i].resources != op.origin ==> Bound(op.prepared) && op.origin == Before(op.prepared)
  {
    RunsKeepInv(op, ds, i);
    if ds[i].marker.Some? {
      BindingDetermines(ds[i].marker.value, op.prepared);
    }
    if i > 0 {
      RunOriginIsBefore(op, ds, i - 1);
      assert Next(op, ds[i - 1], ds[i]);
    }
  }

  /** The durable files carry a commit verdict: on the marker, or on a successor still to be installed. */
  predicate SaysCommitted(d: Disk) {
    || (d.marker.Some? && (d.marker.value.stage == CommitVerified || d.marker.value.stage == CleanupPending))
    || (d.next.Some? && (d.next.value.stage == CommitVerified || d.next.value.stage == CleanupPending))
  }

  lemma VerdictMeansAfter(op: Operation, d: Disk)
    requires Inv(op, d) && SaysCommitted(d)
    ensures Bound(op.prepared) && d.resources == After(op.prepared)
  {
    BindingDetermines(d.marker.value, op.prepared);
  }

  /** How one action moves the marker file, and when it may touch the resources. */
  lemma ActionMoves(op: Operation, d: Disk, a: Action)
    requires Inv(op, d) && Permits(op, d, a)
    ensures d.marker.None? ==> Apply(op, d, a).marker.None? && Apply(op, d, a).resources == d.resources
    ensures Apply(op, d, a).marker != d.marker ==>
      || (Apply(op, d, a).marker.None? && d.next.None?)
      || (Apply(op, d, a).marker == d.next && d.marker.Some? && NextStage(d.marker.value.stage) == Some(d.next.value.stage))
    ensures d.next.Some? && Apply(op, d, a).next != d.next ==> Apply(op, d, a).marker == d.next
    ensures Apply(op, d, a).resources != d.resources ==> Committing(d)
  {
    hide ValidMarker, Inspect;
    if a.StageSuccessor? {
      ReadableHasNoSuccessor(d);
    }
  }

  lemma ReadableHasNoSuccessor(d: Disk)
    requires Inspect(d).state == Readable && d.directory.CandidateDirectory?
    ensures d.next.None?
  {
  }

  lemma VerdictIsStable(op: Operation, d: Disk, a: Action)
    requires Inv(op, d) && Permits(op, d, a)
    requires SaysCommitted(d) || d.marker.None?
    ensures SaysCommitted(Apply(op, d, a)) || Apply(op, d, a).marker.None?
    ensures Apply(op, d, a).resources == d.resources
  {
    hide ValidMarker;
    ActionMoves(op, d, a);
    var d' := Apply(op, d, a);
    if d.marker.Some? && d'.marker.Some? && d'.marker != d.marker {
      assert d'.marker == d.next;
    }
  }

  lemma RunGrows(op: Operation, ds: seq<Disk>, d': Disk)
    requires Run(op, ds) && Next(op, ds[|ds| - 1], d')
    ensures Run(op, ds + [d'])
  {
    hide Start, Next;
    var ds' := ds + [d'];
    forall i | 0 < i < |ds'|
      ensures Next(op, ds'[i - 1], ds'[i])
    {
      if i < |ds| {
        assert Next(op, ds[i - 1], ds[i]);
      }
    }
  }

  /** Taking a permitted action extends a run and keeps its invariant. */
  lemma ExtendRun(op: Operation, ds: seq<Disk>, a: Action)
    requires Run(op, ds) && Inv(op, ds[|ds| - 1]) && Permits(op, ds[|ds| - 1], a)
    ensures Run(op, ds + [Apply(op, ds[|ds| - 1], a)]) && Inv(op, Apply(op, ds[|ds| - 1], a))
  {
    var d := ds[|ds| - 1];
    hide Run, Inv, Permits, Apply;
    ActionsKeepInv(op, d, a);
    assert Next(op, d, Apply(op, d, a));
    RunGrows(op, ds, Apply(op, d, a));
  }

  /** Reading one step of a run. */
  lemma StepOf(op: Operation, ds: seq<Disk>, j: nat) returns (a: Action)
    requires Run(op, ds) && 0 < j < |ds|
    ensures Inv(op, ds[j - 1]) && Permits(op, ds[j - 1], a) && ds[j] == Apply(op, ds[j - 1], a)
  {
    RunsKeepInv(op, ds, j - 1);
    assert Next(op, ds[j - 1], ds[j]);
    a :| Permits(op, ds[j - 1], a) && ds[j] == Apply(op, ds[j - 1], a);
  }

  lemma VerdictAt(op: Operation, ds: seq<Disk>, i: nat)
    requires Run(op, ds) && i < |ds| && SaysCommitted(ds[i])
    ensures Bound(op.prepared) && ds[i].resources == After(op.prepared)
  {
    RunsKeepInv(op, ds, i);
    VerdictMeansAfter(op, ds[i]);
  }

  lemma VerdictCarries(op: Operation, ds: seq<Disk>, j: nat)
    requires Run(op, ds) && 0 < j < |ds|
    requires SaysCommitted(ds[j - 1]) || ds[j - 1].marker.None?
    ensures SaysCommitted(ds[j]) || ds[j].marker.None?
    ensures ds[j].resources == ds[j - 1].resources
  {
    var a := StepOf(op, ds, j);
    VerdictIsStable(op, ds[j - 1], a);
  }

  /**
  A commit verdict is never wrong and never taken back: from the first state whose marker or staged
  successor says the commit is verified, all three resources are after in every later state, so
  compensation never runs again.
   */
  lemma {:induction false} VerdictIsNeverWrong(op: Operation, ds: seq<Disk>, i: nat, j: nat)
    requires Run(op, ds) && i <= j < |ds|
    requires exists m ::
      (ds[i].marker == Some(m) || ds[i].next == Some(m)) && (m.stage == CommitVerified || m.stage == CleanupPending)
    ensures Bound(op.prepared) && ds[j].resources == After(op.prepared)
    ensures SaysCommitted(ds[j]) || ds[j].marker.None?
    decreases j
  {
    if i == j {
      VerdictAt(op, ds, j);
    } else {
      VerdictIsNeverWrong(op, ds, i, j - 1);
      VerdictCarries(op, ds, j);
    }
  }

  lemma CommitStartedIsStable(op: Operation, d: Disk, a: Action)
    requires Inv(op, d) && Permits(op, d, a) && d.marker.Some? && !PreCommit(d.marker.value.stage)
    ensures Apply(op, d, a).marker.Some? ==> !PreCommit(Apply(op, d, a).marker.value.stage)
    ensures Apply(op, d, a).marker.None? ==> Bound(op.prepared) && Apply(op, d, a).resources == After(op.prepared)
  {
    hide ValidMarker;
    ActionMoves(op, d, a);
    BindingDetermines(d.marker.value, op.prepared);
    if Apply(op, d, a).marker.None? {
      assert a.DropMarker? || a.InstallSuccessor?;
      assert Deleting(d);
    }
  }

  /** Once CommitStarted is durable the operation can only end committed. */
  lemma {:induction false} CommitStartedNeverRollsBack(op: Operation, ds: seq<Disk>, i: nat, j: nat)
    requires Run(op, ds) && i <= j < |ds|
    requires ds[i].marker.Some? && !PreCommit(ds[i].marker.value.stage)
    ensures ds[j].marker.Some? ==> !PreCommit(ds[j].marker.value.stage)
    ensures ds[j].marker.None? ==> Bound(op.prepared) && ds[j].resources == After(op.prepared)
    decreases j
  {
    hide ValidMarker;
    if i < j {
      CommitStartedNeverRollsBack(op, ds, i, j - 1);
      var a := StepOf(op, ds, j);
      if ds[j - 1].marker.Some? {
        CommitStartedIsStable(op, ds[j - 1], a);
      } else {
        ActionMoves(op, ds[j - 1], a);
      }
    }
  }

  /**
  What inspection says of every state of a run: a staged successor, an operation all of whose candidates are
  there or that is only being cleaned up, or residue of an interrupted preparation or rollback. Nothing else.
   */
  lemma InspectionExactly(op: Operation, d: Disk)
    requires Inv(op, d)
    ensures d.marker.None? ==> Inspect(d) == if d.directory.Missing? then Inspection(Absent, None, None, false) else Failure(None)
    ensures d.marker.Some? ==>
      var m := d.marker.value;
      && ExpectedCandidates(m).Some?
      && var complete := d.candidates == ExpectedCandidates(m).value && (d.candidates == map[] ==> d.directory.Missing?);
         Inspect(d) ==
         if d.next.Some? then Inspection(RecoverableSuccessor, d.marker, d.next, false)
         else if m.stage == CleanupPending || complete then Inspection(Readable, d.marker, None, false)
         else Inspection(RecoverableResidue, d.marker, None, false)
  {
    hide ValidMarker, ValidSuccessor;
    if d.marker.Some? {
      var m, expected := d.marker.value, ExpectedCandidates(d.marker.value).value;
      if d.next.Some? {
        assert m.configuration.value.candidatePath in expected;
      }
      assert d.candidates.Keys == expected.Keys ==> d.candidates == expected;
    }
  }

  /**
  What inspection says of files no run leaves behind. A foreign file, changed bytes, or a successor beside missing
  candidates or of an invalid succession is a failure; only changed bytes are reported as a mismatch.
   */
  lemma InspectionDetects(d: Disk)
    requires d.marker.Some? && d.directory.CandidateDirectory?
    ensures !ValidMarker(d.marker.value) || ExpectedCandidates(d.marker.value).None? ==> Inspect(d) == Failure(None)
    ensures ValidMarker(d.marker.value) && ExpectedCandidates(d.marker.value).Some? && (d.candidates != map[] || d.next.Some?) ==>
      var m, expected := d.marker.value, ExpectedCandidates(d.marker.value).value;
      var foreign := exists p :: p in d.candidates && p !in expected;
      var changed := exists p :: p in d.candidates && p in expected && d.candidates[p] != expected[p];
      var missing := exists p :: p in expected && p !in d.candidates;
      && (foreign ==> Inspect(d) == Inspection(RecoveryFailed, Some(m), None, false))
      && (!foreign && changed ==> Inspect(d) == Inspection(RecoveryFailed, Some(m), None, true))
      && (!foreign && !changed && missing && d.next.Some? ==> Inspect(d) == Inspection(RecoveryFailed, Some(m), None, false))
      && (!foreign && !changed && !missing && d.next.Some? && !ValidSuccessor(m, d.next.value) ==>
            Inspect(d) == Inspection(RecoveryFailed, None, None, false))
  {
    hide ValidMarker, ValidSuccessor, ExpectedCandidates;
    if ExpectedCandidates(d.marker.value).Some? {
      var expected := ExpectedCandidates(d.marker.value).value;
      assert d.candidates.Keys <= expected.Keys <==> forall p :: p in d.candidates ==> p in expected;
      assert d.candidates.Keys == expected.Keys <==>
        (forall p :: p in d.candidates ==> p in expected) && forall p :: p in expected ==> p in d.candidates;
    }
  }

  /**
  Candidates survive until CleanupPending, and the journal stays readable after it: in every state
  of every run from CommitStarted on, inspection reports a recoverable successor exactly when one is
  staged and is Readable otherwise, under every partial cleanup.
   */
  lemma InspectionAfterCommitStarted(op: Operation, d: Disk)
    requires Inv(op, d) && d.marker.Some? && !PreCommit(d.marker.value.stage)
    ensures d.marker.value.stage != CleanupPending ==> ExpectedCandidates(d.marker.value) == Some(d.candidates)
    ensures d.marker.value.stage == CleanupPending ==> d.next.None?
    ensures Inspect(d) ==
      if d.next.Some? then Inspection(RecoverableSuccessor, d.marker, d.next, false)
      else Inspection(Readable, d.marker, None, false)
  {
    var m := d.marker.value;
    var expected := ExpectedCandidates(m).value;
    if d.next.Some? {
      assert ValidSuccessor(m, d.next.value);
    }
    assert m.configuration.value.candidatePath in expected;
    if m.stage != CleanupPending {
      assert d.candidates == expected;
    }
    assert d.candidates.Keys <= expected.Keys;
  }

  lemma JournalStaysReadable(op: Operation, ds: seq<Disk>, i: nat)
    requires Run(op, ds) && i < |ds| && ds[i].marker.Some? && !PreCommit(ds[i].marker.value.stage)
    ensures ds[i].marker.value.stage != CleanupPending ==> ExpectedCandidates(op.prepared) == Some(ds[i].candidates)
    ensures Inspect(ds[i]) ==
      if ds[i].next.Some? then Inspection(RecoverableSuccessor, ds[i].marker, ds[i].next, false)
      else Inspection(Readable, ds[i].marker, None, false)
  {
    RunsKeepInv(op, ds, i);
    InspectionAfterCommitStarted(op, ds[i]);
    BindingDetermines(ds[i].marker.value, op.prepared);
  }

  /** The distinct markers the marker file holds over a run, in order. */
  function Markers(ds: seq<Disk>): seq<Marker>
  {
    if ds == [] then []
    else
      var earlier := Markers(ds[..|ds| - 1]);
      var m := ds[|ds| - 1].marker;
      if m.None? || (earlier != [] && earlier[|earlier| - 1] == m.value) then earlier else earlier + [m.value]
  }

  lemma {:induction false} RunHasHistory(op: Operation, ds: seq<Disk>)
    requires Run(op, ds)
    ensures History(Markers(ds))
    ensures ds[|ds| - 1].marker.Some? ==> Markers(ds)[|Markers(ds)| - 1] == ds[|ds| - 1].marker.value
  {
    hide ValidMarker;
    if |ds| == 1 {
      assert Markers(ds[..0]) == [];
      assert Markers(ds) == [op.prepared];
    } else {
      var init := ds[..|ds| - 1];
      assert init[|init| - 1] == ds[|ds| - 2];
      RunPrefix(op, ds);
      RunHasHistory(op, init);
      StepIsSuccession(op, ds, |ds| - 1);
      ExtendHistory(Markers(init), ds[|ds| - 2], ds[|ds| - 1]);
    }
  }

  lemma RunPrefix(op: Operation, ds: seq<Disk>)
    requires Run(op, ds) && |ds| > 1
    ensures Run(op, ds[..|ds| - 1])
  {
  }

  lemma StepIsSuccession(op: Operation, ds: seq<Disk>, j: nat)
    requires Run(op, ds) && 0 < j < |ds|
    ensures var p, m := ds[j - 1].marker, ds[j].marker;
      m.Some? && m != p ==> p.Some? && ValidSuccessor(p.value, m.value)
  {
    var a := StepOf(op, ds, j);
    MarkerChangesBySuccession(op, ds[j - 1], a);
  }

  lemma MarkerChangesBySuccession(op: Operation, d: Disk, a: Action)
    requires Inv(op, d) && Permits(op, d, a)
    ensures var m := Apply(op, d, a).marker;
      m.Some? && m != d.marker ==> d.marker.Some? && ValidSuccessor(d.marker.value, m.value)
  {
    if a.InstallSuccessor? {
      assert ValidSuccessor(d.marker.value, d.next.value);
    }
  }

  lemma ExtendHistory(ms: seq<Marker>, p: Disk, d: Disk)
    requires History(ms)
    requires p.marker.Some? ==> ms[|ms| - 1] == p.marker.value
    requires d.marker.Some? && d.marker != p.marker ==> p.marker.Some? && ValidSuccessor(p.marker.value, d.marker.value)
    ensures d.marker.Some? && ms[|ms| - 1] != d.marker.value ==> History(ms + [d.marker.value])
    ensures d.marker.Some? && d.marker == p.marker ==> ms[|ms| - 1] == d.marker.value
  {
    if d.marker.Some? && ms[|ms| - 1] != d.marker.value {
      var ms' := ms + [d.marker.value];
      forall i | 0 < i < |ms'|
        ensures ValidSuccessor(ms'[i - 1], ms'[i])
      {
        if i < |ms| {
          assert ValidSuccessor(ms[i - 1], ms[i]);
        }
      }
      assert ms'[0] == ms[0];
    }
  }

  /**
  Over any run, whether a step was taken by an advance or finished by recovery, the marker file goes
  through at most five advances and keeps what HistoriesAreBoundedAndBinding says.
   */
  lemma RunHistoriesAreBoundedAndBinding(op: Operation, ds: seq<Disk>)
    requires Run(op, ds)
    ensures BoundedAndBinding(Markers(ds))
    ensures Markers(ds)[0] == op.prepared
  {
    RunHasHistory(op, ds);
    HistoriesAreBoundedAndBinding(Markers(ds));
    MarkersStartPrepared(op, ds);
  }

  lemma {:induction false} MarkersStartPrepared(op: Operation, ds: seq<Disk>)
    requires Run(op, ds)
    ensures Markers(ds) != [] && Markers(ds)[0] == op.prepared
  {
    if |ds| == 1 {
      assert Markers(ds[..0]) == [];
    } else {
      MarkersStartPrepared(op, ds[..|ds| - 1]);
    }
  }
}
