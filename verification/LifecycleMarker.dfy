/**
The Battle recovery marker: its validity, and the rule that decides which marker may succeed which.
Digests are the contents they identify; hexadecimal, path and token spelling rules are not modelled.
 */
module LifecycleMarker {
  import opened Common

  const MAXIMUM_CONFIGURATION_BYTES := 8 * 1024 * 1024
  const MAXIMUM_CREDENTIAL_BYTES := 16 * 1024
  const MAXIMUM_RESOURCES := 8

  datatype Stage =
    | Prepared | Quiesced | BackupVerified | CommitStarted | CommitVerified | CleanupPending | Failed
  {
    /** The position in the source's enumeration, which its comparisons use. */
    function Rank(): nat {
      match this
      case Prepared => 0
      case Quiesced => 1
      case BackupVerified => 2
      case CommitStarted => 3
      case CommitVerified => 4
      case CleanupPending => 5
      case Failed => 6
    }
  }

  // Constructors in the ordinal order of the names they stand for.
  datatype Role = BattleStore | IngestCredential | RuntimeLock {
    function Rank(): nat {
      match this
      case BattleStore => 0
      case IngestCredential => 1
      case RuntimeLock => 2
    }
  }

  datatype Feature = BattleCollection | FleetCollection {
    function Rank(): nat { if BattleCollection? then 0 else 1 }
  }

  datatype Preference = Unset | Enabled | Disabled

  datatype ResourceTransition = ResourceTransition(
    role: Role,
    before: Option<Bytes>,
    candidatePath: Option<string>,
    after: Option<Bytes>,
    displacedPath: Option<string>,
    backupPath: Option<string>)

  datatype CredentialBinding = CredentialBinding(generation: int, contents: Bytes)

  datatype ConfigurationBinding = ConfigurationBinding(
    sourceRevision: Bytes,
    sourcePath: string,
    source: Bytes,
    candidatePath: string,
    candidate: Bytes,
    mutationReceipt: string,
    backupId: Option<string>,
    backupContents: Option<Bytes>)

  datatype FeatureTransition = FeatureTransition(feature: Feature, before: Preference, after: Preference)

  datatype Marker = Marker(
    operationId: string,
    ownerId: string,
    stage: Stage,
    affected: seq<Feature>,
    resources: seq<ResourceTransition>,
    credential: Option<CredentialBinding>,
    configuration: Option<ConfigurationBinding>,
    features: seq<FeatureTransition>,
    sharedBefore: bool,
    sharedAfter: bool,
    started: int,
    updated: int,
    implementation: string,
    mutationBlocked: bool,
    safeReadsAllowed: bool)

  // ---------------------------------------------------------------- validity

  predicate StrictlyOrderedRoles(resources: seq<ResourceTransition>) {
    forall i, j :: 0 <= i < j < |resources| ==> resources[i].role.Rank() < resources[j].role.Rank()
  }

  predicate StrictlyOrderedFeatures(features: seq<Feature>) {
    forall i, j :: 0 <= i < j < |features| ==> features[i].Rank() < features[j].Rank()
  }

  function PathOf(path: Option<string>): seq<string> {
    if path.Some? then [path.value] else []
  }

  /** Every recovery path the marker owns, in the order the source collects them. */
  function ResourcePaths(resources: seq<ResourceTransition>): seq<string> {
    if resources == [] then []
    else
      PathOf(resources[0].candidatePath) + PathOf(resources[0].displacedPath) + PathOf(resources[0].backupPath)
      + ResourcePaths(resources[1..])
  }

  function OwnedPaths(m: Marker): seq<string> {
    ResourcePaths(m.resources) + (if m.configuration.Some? then [m.configuration.value.candidatePath] else [])
  }

  predicate Distinct(paths: seq<string>) {
    forall i, j :: 0 <= i < j < |paths| ==> paths[i] != paths[j]
  }

  predicate ValidFeatures(m: Marker) {
    && |m.features| == 2
    && m.features[0].feature == BattleCollection
    && m.features[1].feature == FleetCollection
    && (forall i :: 0 <= i < 2 ==>
          if m.features[i].feature in m.affected then m.features[i].after == Enabled
          else m.features[i].before == m.features[i].after)
    && m.sharedBefore == (m.features[0].before == Enabled || m.features[1].before == Enabled)
    && m.sharedAfter == (m.features[0].after == Enabled || m.features[1].after == Enabled)
  }

  predicate ValidConfiguration(stage: Stage, c: ConfigurationBinding) {
    && c.sourceRevision == c.source
    && |c.candidate| <= MAXIMUM_CONFIGURATION_BYTES
    && (c.backupId.None? <==> c.backupContents.None?)
    && (stage.Rank() < BackupVerified.Rank() ==> c.backupId.None?)
    && (stage.Rank() >= BackupVerified.Rank() && stage != Failed ==> c.backupId.Some?)
  }

  predicate ValidMarker(m: Marker) {
    && 0 < |m.affected| <= 2
    && StrictlyOrderedFeatures(m.affected)
    && 0 < |m.resources| <= MAXIMUM_RESOURCES
    && StrictlyOrderedRoles(m.resources)
    && ValidFeatures(m)
    && m.started <= m.updated
    && m.mutationBlocked
    && m.safeReadsAllowed
    && Distinct(OwnedPaths(m))
    && (forall r :: r in m.resources && r.role == RuntimeLock ==> r.candidatePath.None?)
    && (exists r :: r in m.resources && r.role == RuntimeLock && r.after.Some?)
    && (m.credential.Some? ==>
          && m.credential.value.generation > 0
          && exists r :: r in m.resources && r.role == IngestCredential
                         && r.after == Some(m.credential.value.contents))
    && (m.configuration.Some? ==> ValidConfiguration(m.stage, m.configuration.value))
  }

  /** The three roles, in the ordinal order of their names, each at most once. */
  predicate RolesInOrder(resources: seq<ResourceTransition>) {
    forall i, j :: 0 <= i < j < |resources| ==>
      (resources[i].role, resources[j].role)
      in {(BattleStore, IngestCredential), (BattleStore, RuntimeLock), (IngestCredential, RuntimeLock)}
  }

  /** Battle before fleet; an affected feature becomes enabled, any other stays as it is, and the summaries tell the truth. */
  predicate FeaturesTell(m: Marker) {
    && (m.affected == [BattleCollection] || m.affected == [FleetCollection] || m.affected == [BattleCollection, FleetCollection])
    && |m.features| == 2 && m.features[0].feature == BattleCollection && m.features[1].feature == FleetCollection
    && (forall t :: t in m.features ==> t.after == if t.feature in m.affected then Enabled else t.before)
    && (m.sharedBefore <==> exists t :: t in m.features && t.before == Enabled)
    && (m.sharedAfter <==> exists t :: t in m.features && t.after == Enabled)
  }

  /** A backup is bound from BackupVerified on and never before. */
  predicate ConfigurationTells(stage: Stage, c: ConfigurationBinding) {
    && c.sourceRevision == c.source && |c.candidate| <= 8 * 1024 * 1024
    && c.backupId.Some? == c.backupContents.Some?
    && (stage in {Prepared, Quiesced} ==> c.backupId.None?)
    && (stage in {BackupVerified, CommitStarted, CommitVerified, CleanupPending} ==> c.backupId.Some?)
  }

  /** What makes a marker valid, part by part. */
  lemma ValidMarkerMeans(m: Marker)
    ensures ValidMarker(m) <==>
      && FeaturesTell(m)
      && 1 <= |m.resources| <= 8 && RolesInOrder(m.resources)
      && m.started <= m.updated && m.mutationBlocked && m.safeReadsAllowed
      && (forall i, j :: 0 <= i < |OwnedPaths(m)| && 0 <= j < |OwnedPaths(m)| && OwnedPaths(m)[i] == OwnedPaths(m)[j] ==> i == j)
      && (exists r :: r in m.resources && r.role == RuntimeLock && r.after.Some?)
      && (forall r :: r in m.resources && r.role == RuntimeLock ==> r.candidatePath.None?)
      && (m.credential.Some? ==>
            && m.credential.value.generation >= 1
            && exists r :: r in m.resources && r.role == IngestCredential && r.after == Some(m.credential.value.contents))
      && (m.configuration.Some? ==> ConfigurationTells(m.stage, m.configuration.value))
  {
    FeaturesMean(m);
    RolesMean(m.resources);
    hide ValidFeatures, StrictlyOrderedFeatures, StrictlyOrderedRoles, RolesInOrder, FeaturesTell, OwnedPaths;
  }

  lemma FeaturesMean(m: Marker)
    ensures FeaturesTell(m) <==> 0 < |m.affected| <= 2 && StrictlyOrderedFeatures(m.affected) && ValidFeatures(m)
  {
    AffectedMean(m.affected);
    if |m.features| == 2 {
      assert m.features == [m.features[0], m.features[1]];
      assert m.features[0] in m.features && m.features[1] in m.features;
    }
    hide StrictlyOrderedFeatures;
  }

  lemma AffectedMean(affected: seq<Feature>)
    ensures 0 < |affected| <= 2 && StrictlyOrderedFeatures(affected) <==>
      affected == [BattleCollection] || affected == [FleetCollection] || affected == [BattleCollection, FleetCollection]
  {
    if |affected| == 1 {
      assert affected == [affected[0]];
      assert affected[0] == BattleCollection || affected[0] == FleetCollection;
    } else if |affected| == 2 {
      var a, b := affected[0], affected[1];
      assert affected == [a, b];
      assert StrictlyOrderedFeatures(affected) <==> a.Rank() < b.Rank();
      assert a.Rank() < b.Rank() <==> a == BattleCollection && b == FleetCollection;
      assert [a, b][0] == a && [a, b][1] == b;
      assert affected == [BattleCollection, FleetCollection] <==> a == BattleCollection && b == FleetCollection;
    } else {
      assert affected != [BattleCollection] && affected != [FleetCollection] && affected != [BattleCollection, FleetCollection];
    }
  }

  lemma RolesMean(resources: seq<ResourceTransition>)
    ensures StrictlyOrderedRoles(resources) <==> RolesInOrder(resources)
  {
    forall i, j | 0 <= i < j < |resources|
      ensures resources[i].role.Rank() < resources[j].role.Rank() <==>
        (resources[i].role, resources[j].role)
        in {(BattleStore, IngestCredential), (BattleStore, RuntimeLock), (IngestCredential, RuntimeLock)}
    {
      OneRoleBefore(resources[i].role, resources[j].role);
    }
  }

  lemma OneRoleBefore(a: Role, b: Role)
    ensures a.Rank() < b.Rank() <==>
      (a, b) in {(BattleStore, IngestCredential), (BattleStore, RuntimeLock), (IngestCredential, RuntimeLock)}
  {
  }

  // -------------------------------------------------------------- succession

  function LookupRole(resources: seq<ResourceTransition>, role: Role): (r: Option<ResourceTransition>)
    ensures r.Some? ==> r.value in resources && r.value.role == role
    ensures r.None? ==> forall x :: x in resources ==> x.role != role
  {
    if resources == [] then None
    else if resources[0].role == role then Some(resources[0])
    else LookupRole(resources[1..], role)
  }

  function NextStage(stage: Stage): Option<Stage> {
    match stage
    case Prepared => Some(Quiesced)
    case Quiesced => Some(BackupVerified)
    case BackupVerified => Some(CommitStarted)
    case CommitStarted => Some(CommitVerified)
    case CommitVerified => Some(CleanupPending)
    case CleanupPending => None
    case Failed => None
  }

  predicate ConfigurationSuccessorIsValid(
    current: Option<ConfigurationBinding>, successor: Option<ConfigurationBinding>, successorStage: Stage)
  {
    if current.None? || successor.None? then current.None? && successor.None?
    else
      var c, s := current.value, successor.value;
      && c.sourceRevision == s.sourceRevision
      && c.sourcePath == s.sourcePath
      && c.source == s.source
      && c.candidatePath == s.candidatePath
      && c.candidate == s.candidate
      && c.mutationReceipt == s.mutationReceipt
      && if c.backupId.Some? then c.backupId == s.backupId && c.backupContents == s.backupContents
         else if successorStage == BackupVerified then s.backupId.Some? && s.backupContents.Some?
         else s.backupId.None? && s.backupContents.None?
  }

  predicate ValidSuccessor(current: Marker, successor: Marker) {
    && ValidMarker(current)
    && ValidMarker(successor)
    && NextStage(current.stage).Some?
    && (Some(successor.stage) == NextStage(current.stage) || successor.stage == Failed)
    && current.operationId == successor.operationId
    && current.ownerId == successor.ownerId
    && current.started == successor.started
    && current.implementation == successor.implementation
    && current.mutationBlocked == successor.mutationBlocked
    && current.safeReadsAllowed == successor.safeReadsAllowed
    && current.sharedBefore == successor.sharedBefore
    && current.sharedAfter == successor.sharedAfter
    && current.updated <= successor.updated
    && current.affected == successor.affected
    && current.features == successor.features
    && (forall i :: 0 <= i < |current.resources| ==>
          LookupRole(successor.resources, current.resources[i].role) == Some(current.resources[i]))
    && |successor.resources| == |current.resources|
    && current.credential == successor.credential
    && ConfigurationSuccessorIsValid(current.configuration, successor.configuration, successor.stage)
  }

  // ------------------------------------------------------- what succession keeps

  function Unbacked(c: Option<ConfigurationBinding>): Option<ConfigurationBinding> {
    if c.None? then None else Some(c.value.(backupId := None, backupContents := None))
  }

  /** Everything about a marker except how far it has come: what every stage of one operation shares. */
  function Binding(m: Marker): Marker {
    m.(stage := Prepared, updated := m.started, configuration := Unbacked(m.configuration))
  }

  function BackupOf(m: Marker): Option<(string, Bytes)> {
    if m.configuration.Some? && m.configuration.value.backupId.Some? && m.configuration.value.backupContents.Some?
    then Some((m.configuration.value.backupId.value, m.configuration.value.backupContents.value))
    else None
  }

  predicate Ascending<T>(s: seq<T>, rank: T -> int) {
    forall i, j :: 0 <= i < j < |s| ==> rank(s[i]) < rank(s[j])
  }

  /** All but the last of an ascending list is ascending, and ranks below the last. */
  lemma AscendingPrefix<T>(s: seq<T>, rank: T -> int)
    requires Ascending(s, rank) && s != []
    ensures Ascending(s[..|s| - 1], rank)
    ensures forall x :: x in s ==> x in s[..|s| - 1] || x == s[|s| - 1]
    ensures forall x :: x in s[..|s| - 1] ==> x in s && rank(x) < rank(s[|s| - 1])
  {
  }

  /** An ascending list of some of an ascending list's items is no longer, and equal if as long. */
  lemma {:induction false} AscendingSublist<T>(c: seq<T>, s: seq<T>, rank: T -> int)
    requires Ascending(c, rank) && Ascending(s, rank)
    requires forall x :: x in c ==> x in s
    ensures |c| <= |s|
    ensures |c| == |s| ==> c == s
    decreases |s|
  {
    if c != [] {
      var x := c[|c| - 1];
      assert x in c && x in s;
      var c', s', y := c[..|c| - 1], s[..|s| - 1], s[|s| - 1];
      AscendingPrefix(c, rank);
      AscendingPrefix(s, rank);
      hide Ascending;
      if x == y {
        AscendingSublist(c', s', rank);
        assert c == c' + [x] && s == s' + [y];
      } else {
        AscendingSublist(c, s', rank);
      }
    }
  }

  /**
  The source compares resources by role and then by count. For lists in strict role order that is
  equality of the lists.
   */
  lemma StrictOrderDeterminesResources(c: seq<ResourceTransition>, s: seq<ResourceTransition>)
    requires StrictlyOrderedRoles(c) && StrictlyOrderedRoles(s)
    requires forall r :: r in c ==> r in s
    ensures |c| <= |s|
    ensures |c| == |s| ==> c == s
  {
    AscendingSublist(c, s, (r: ResourceTransition) => r.role.Rank());
  }

  /**
  What one accepted succession amounts to: the next stage or Failed, the same binding, and a backup
  that is kept once set and set only on reaching BackupVerified.
   */
  predicate Advances(current: Marker, successor: Marker) {
    && NextStage(current.stage).Some?
    && (Some(successor.stage) == NextStage(current.stage) || successor.stage == Failed)
    && Binding(successor) == Binding(current)
    && current.updated <= successor.updated
    && (BackupOf(current).Some? ==> BackupOf(successor) == BackupOf(current))
    && (BackupOf(current).None? ==>
          (BackupOf(successor).Some? <==> successor.stage == BackupVerified && successor.configuration.Some?))
  }

  /** A successor keeps the operation's identity, owner, resources, candidates, features and source. */
  lemma SuccessorKeepsBinding(current: Marker, successor: Marker)
    requires ValidSuccessor(current, successor)
    ensures Advances(current, successor)
  {
    forall r | r in current.resources
      ensures r in successor.resources
    {
      var i :| 0 <= i < |current.resources| && current.resources[i] == r;
      assert LookupRole(successor.resources, current.resources[i].role) == Some(current.resources[i]);
    }
    StrictOrderDeterminesResources(current.resources, successor.resources);
  }

  lemma {:induction false} LookupFinds(resources: seq<ResourceTransition>, i: nat)
    requires StrictlyOrderedRoles(resources) && i < |resources|
    ensures LookupRole(resources, resources[i].role) == Some(resources[i])
  {
    if i > 0 {
      LookupFinds(resources[1..], i - 1);
    }
  }

  /**
  The accepted successions, exactly: one stage further or failed before cleanup, nothing else changed but the time,
  which does not go back, and the backup, which is set on reaching BackupVerified and then kept.
   */
  lemma SuccessionIsExactly(current: Marker, successor: Marker)
    requires ValidMarker(current) && ValidMarker(successor)
    ensures ValidSuccessor(current, successor) <==>
      && ((current.stage, successor.stage)
          in {(Prepared, Quiesced), (Quiesced, BackupVerified), (BackupVerified, CommitStarted), (CommitStarted, CommitVerified),
              (CommitVerified, CleanupPending)}
          || (successor.stage == Failed && current.stage != CleanupPending && current.stage != Failed))
      && successor == current.(stage := successor.stage, updated := successor.updated, configuration := successor.configuration)
      && current.updated <= successor.updated
      && (current.configuration.Some? <==> successor.configuration.Some?)
      && (current.configuration.Some? ==>
            var c, s := current.configuration.value, successor.configuration.value;
            && s == c.(backupId := s.backupId, backupContents := s.backupContents)
            && (c.backupId.Some? ==> s == c)
            && (c.backupId.None? ==> (s.backupId.Some? <==> successor.stage == BackupVerified)))
  {
    StagesFollow(current.stage, successor.stage);
    forall i | 0 <= i < |current.resources| && successor.resources == current.resources
      ensures LookupRole(successor.resources, current.resources[i].role) == Some(current.resources[i])
    {
      LookupFinds(current.resources, i);
    }
    if ValidSuccessor(current, successor) {
      SuccessorKeepsBinding(current, successor);
      assert Binding(successor).resources == Binding(current).resources;
    }
    hide ValidFeatures, StrictlyOrderedRoles, StrictlyOrderedFeatures, NextStage, OwnedPaths, LookupRole;
  }

  lemma StagesFollow(a: Stage, b: Stage)
    ensures NextStage(a) == Some(b) <==>
      (a, b) in {(Prepared, Quiesced), (Quiesced, BackupVerified), (BackupVerified, CommitStarted), (CommitStarted, CommitVerified),
                 (CommitVerified, CleanupPending)}
    ensures NextStage(a).None? <==> a == CleanupPending || a == Failed
  {
  }

  /** Moving a valid marker to its next stage, with the backup its stage calls for, is a valid succession. */
  lemma NextMarkerIsValid(m: Marker, s: Marker)
    requires ValidMarker(m) && NextStage(m.stage) == Some(s.stage) && s.stage != BackupVerified
    requires s == m.(stage := s.stage, updated := s.updated) && m.updated <= s.updated
    ensures ValidSuccessor(m, s) && Binding(m) == Binding(s) && BackupOf(m) == BackupOf(s)
  {
    forall i | 0 <= i < |m.resources|
      ensures LookupRole(s.resources, m.resources[i].role) == Some(m.resources[i])
    {
      LookupFinds(m.resources, i);
    }
    assert OwnedPaths(s) == OwnedPaths(m);
  }

  /** Recording the backup of the source configuration is a valid succession. */
  lemma BackupSuccession(m: Marker, s: Marker)
    requires ValidMarker(m) && ValidMarker(s) && m.configuration.Some? && s.configuration.Some?
    requires m.stage == Quiesced && m.configuration.value.backupId.None?
    requires s.configuration.value.backupId.Some? && s.configuration.value.backupContents.Some?
    requires s == m.(stage := BackupVerified, updated := s.updated, configuration := s.configuration)
    requires m.updated <= s.updated
    requires m.configuration.value
             == s.configuration.value.(backupId := None, backupContents := m.configuration.value.backupContents)
    ensures ValidSuccessor(m, s) && Binding(m) == Binding(s)
  {
    forall i | 0 <= i < |m.resources|
      ensures LookupRole(s.resources, m.resources[i].role) == Some(m.resources[i])
    {
      LookupFinds(m.resources, i);
    }
    hide ValidMarker;
  }

  // ------------------------------------------------------------------ histories

  /** The markers one operation's marker file has held, oldest first. */
  predicate History(ms: seq<Marker>) {
    && |ms| > 0
    && ValidMarker(ms[0])
    && ms[0].stage == Prepared
    && forall i :: 0 < i < |ms| ==> ValidSuccessor(ms[i - 1], ms[i])
  }

  function StageAt(i: nat): Stage {
    match i
    case 0 => Prepared
    case 1 => Quiesced
    case 2 => BackupVerified
    case 3 => CommitStarted
    case 4 => CommitVerified
    case _ => CleanupPending
  }

  lemma {:induction false} LinkedStages(ms: seq<Marker>, k: nat)
    requires k < |ms| && ms[0].stage == Prepared && BackupOf(ms[0]).None?
    requires forall i :: 0 < i < |ms| ==> Advances(ms[i - 1], ms[i])
    ensures k <= 5
    ensures ms[k].stage == StageAt(k) || (ms[k].stage == Failed && k == |ms| - 1)
    ensures Binding(ms[k]) == Binding(ms[0])
    ensures k <= 1 ==> BackupOf(ms[k]).None?
    ensures k >= 2 ==> BackupOf(ms[k]) == BackupOf(ms[2])
  {
    if k > 0 {
      LinkedStages(ms, k - 1);
      assert Advances(ms[k - 1], ms[k]);
      if k < |ms| - 1 {
        assert Advances(ms[k], ms[k + 1]);
      }
    }
  }

  lemma HistoryIsLinked(ms: seq<Marker>)
    requires History(ms)
    ensures BackupOf(ms[0]).None?
    ensures forall i :: 0 < i < |ms| ==> Advances(ms[i - 1], ms[i])
  {
    forall i | 0 < i < |ms|
      ensures Advances(ms[i - 1], ms[i])
    {
      assert ValidSuccessor(ms[i - 1], ms[i]);
      SuccessorKeepsBinding(ms[i - 1], ms[i]);
    }
  }

  predicate BoundedAndBinding(ms: seq<Marker>) {
    && 1 <= |ms| <= 6
    && (forall i, j :: 0 <= i < |ms| && 0 <= j < |ms| ==> Binding(ms[i]) == Binding(ms[j]))
    && (forall i :: 0 <= i < |ms| ==> ms[i].stage == StageAt(i) || (ms[i].stage == Failed && i == |ms| - 1))
    && (forall i :: 0 <= i < |ms| ==>
          (BackupOf(ms[i]).Some? <==> i >= 2 && ms[2].stage == BackupVerified && ms[0].configuration.Some?))
    && (forall i :: 2 <= i < |ms| ==> BackupOf(ms[i]) == BackupOf(ms[2]))
  }

  lemma LinkedMarkersAreBoundedAndBinding(ms: seq<Marker>)
    requires |ms| > 0 && ms[0].stage == Prepared && BackupOf(ms[0]).None?
    requires forall i :: 0 < i < |ms| ==> Advances(ms[i - 1], ms[i])
    ensures BoundedAndBinding(ms)
  {
    forall i | 0 <= i < |ms|
      ensures Binding(ms[i]) == Binding(ms[0])
      ensures ms[i].stage == StageAt(i) || (ms[i].stage == Failed && i == |ms| - 1)
      ensures i <= 1 ==> BackupOf(ms[i]).None?
      ensures i >= 2 ==> BackupOf(ms[i]) == BackupOf(ms[2])
    {
      LinkedStages(ms, i);
    }
    LinkedStages(ms, |ms| - 1);
    if |ms| > 2 {
      LinkedStages(ms, 1);
      assert Advances(ms[1], ms[2]);
      assert Binding(ms[2]).configuration == Binding(ms[0]).configuration;
    }
  }

  /**
  Every marker history from Prepared makes at most five advances, never changes its binding, passes
  through the stages in order, and sets the backup binding once: at the third marker or never.
   */
  lemma HistoriesAreBoundedAndBinding(ms: seq<Marker>)
    requires History(ms)
    ensures BoundedAndBinding(ms)
  {
    HistoryIsLinked(ms);
    LinkedMarkersAreBoundedAndBinding(ms);
  }
}
