/**
Why the preparer's checks are needed. The journal and the commit accept a marker whose configuration
candidate equals its source and start its commit, yet the configuration store saves no such change:
the operation could then neither commit nor, having started, roll back. The preparer never creates one.
 */
module LifecycleLimits {
  import opened Common
  import opened LifecycleMarker
  import opened LifecycleProtocol
  import ActivationPreparation

  lemma VerdictNeedsSavableChange(op: Operation, d: Disk)
    requires Inv(op, d) && SaysCommitted(d)
    ensures Bound(op.prepared) && CredentialFits(op.prepared) && Writable(op, op.prepared)
  {
    hide ValidMarker, ValidSuccessor;
    BindingDetermines(d.marker.value, op.prepared);
  }

  /** Only an operation whose stores accept both changes ever reaches a commit verdict. */
  lemma OnlySavableOperationsCommit(op: Operation, ds: seq<Disk>, i: nat)
    requires Run(op, ds) && i < |ds| && SaysCommitted(ds[i])
    ensures Bound(op.prepared) && CredentialFits(op.prepared) && Writable(op, op.prepared)
  {
    RunsKeepInv(op, ds, i);
    VerdictNeedsSavableChange(op, ds[i]);
  }

  /** A started operation its stores do not accept stays started in every later state of every run. */
  lemma {:induction false} UnsavableOperationsStayStarted(op: Operation, ds: seq<Disk>, i: nat, j: nat)
    requires Run(op, ds) && i <= j < |ds|
    requires ds[i].marker.Some? && ds[i].marker.value.stage == CommitStarted
    requires Bound(op.prepared) ==> !CredentialFits(op.prepared) || !Writable(op, op.prepared)
    ensures ds[j].marker.Some? && ds[j].marker.value.stage == CommitStarted && ds[j].next.None?
    decreases j
  {
    hide ValidMarker, Run;
    RunsKeepInv(op, ds, j);
    if i < j {
      UnsavableOperationsStayStarted(op, ds, i, j - 1);
      var a := StepOf(op, ds, j);
      ActionMoves(op, ds[j - 1], a);
    }
    if SaysCommitted(ds[j]) {
      VerdictNeedsSavableChange(op, ds[j]);
    }
  }

  // ------------------------------------------------------- a run that gets stuck

  function UnchangedMarker(stage: Stage): Marker {
    var backup := if stage.Rank() < BackupVerified.Rank() then None else Some("backup");
    Marker(
      "operation", "owner", stage, [BattleCollection],
      [ResourceTransition(IngestCredential, None, Some("credential"), Some([7]), None, None),
       ResourceTransition(RuntimeLock, None, None, Some([8]), None, None)],
      Some(CredentialBinding(1, [7])),
      Some(ConfigurationBinding(
             [1], "settings", [1], "candidate", [1], "receipt",
             backup, if backup.None? then None else Some([1]))),
      [FeatureTransition(BattleCollection, Unset, Enabled), FeatureTransition(FleetCollection, Unset, Unset)],
      false, true, 0, 0, "implementation", true, true)
  }

  function UnchangedOperation(): Operation {
    Operation(UnchangedMarker(Prepared), Before(UnchangedMarker(Prepared)), _ => true)
  }

  function Candidates(): map<string, Bytes> { map["credential" := [7], "candidate" := [1]] }

  lemma UnchangedMarkerIsValid(stage: Stage)
    requires stage != Failed
    ensures ValidMarker(UnchangedMarker(stage))
    ensures ExpectedCandidates(UnchangedMarker(stage)) == Some(Candidates())
    ensures RuntimeContents(UnchangedMarker(stage)) == Some([8])
    ensures Bound(UnchangedMarker(stage))
    ensures Before(UnchangedMarker(stage)) == UnchangedOperation().origin
  {
    var m := UnchangedMarker(stage);
    assert ResourcePaths(m.resources[1..]) == [];
    assert OwnedPaths(m) == ["credential", "candidate"];
    assert "credential" != "candidate" by {
      assert |"credential"| != |"candidate"|;
    }
    assert m.resources[0].role == IngestCredential && m.resources[1].role == RuntimeLock;
    assert m.resources[1] in m.resources && m.resources[0] in m.resources;
    assert m.resources[1..] == [m.resources[1]] && m.resources[1..][1..] == [];
    assert LookupRole(m.resources, RuntimeLock) == Some(m.resources[1]);
    assert CandidatesOfResources(m.resources[1..][1..]) == Some(map[]);
    assert CandidatesOfResources(m.resources[1..]) == Some(map[]);
    assert CandidatesOfResources(m.resources) == Some(map["credential" := [7]]);
  }

  lemma UnchangedSuccession(stage: Stage)
    requires stage != Failed && NextStage(stage).Some?
    ensures ValidSuccessor(UnchangedMarker(stage), UnchangedMarker(NextStage(stage).value))
  {
    var m, s := UnchangedMarker(stage), UnchangedMarker(NextStage(stage).value);
    UnchangedMarkerIsValid(stage);
    UnchangedMarkerIsValid(s.stage);
    if stage == Quiesced {
      BackupSuccession(m, s);
    } else {
      hide ValidMarker, ValidSuccessor;
      NextMarkerIsValid(m, s);
    }
  }

  function At(stage: Stage, next: Option<Marker>, backups: map<string, Bytes>): Disk {
    Disk(Some(UnchangedMarker(stage)), next, CandidateDirectory, Candidates(), Some(Lock("owner", [8])), backups,
         UnchangedOperation().origin)
  }

  lemma StagingFits(op: Operation, d: Disk, m: Marker, s: Marker)
    requires Inspect(d).state == Readable && d.directory.CandidateDirectory? && d.marker == Some(m)
    requires m.configuration.Some? && ValidSuccessor(m, s) && s.stage != Failed && BackupIsFaithful(d, s)
    requires Bound(s) && d.resources == Before(s) && s.stage != CommitVerified
    ensures Permits(op, d, StageSuccessor(s))
  {
    hide ValidSuccessor, Inspect, BackupIsFaithful, Bound, Rung;
  }

  lemma ExampleBackup(stage: Stage, backups: map<string, Bytes>)
    requires PreCommit(stage)
    requires stage != Prepared ==> backups == map["backup" := [1]]
    ensures NextStage(stage).Some?
    ensures var d, m, s := At(stage, None, backups), UnchangedMarker(stage), UnchangedMarker(NextStage(stage).value);
      && d.directory.CandidateDirectory? && d.marker == Some(m)
      && m.configuration.Some? && s.stage != Failed && s.stage != CommitVerified
      && d.resources == UnchangedOperation().origin
      && BackupIsFaithful(d, s)
  {
    hide Rung, Bound;
  }

  lemma ExampleIsReady(stage: Stage, backups: map<string, Bytes>)
    requires PreCommit(stage)
    requires stage != Prepared ==> backups == map["backup" := [1]]
    ensures Permits(UnchangedOperation(), At(stage, None, backups), StageSuccessor(UnchangedMarker(NextStage(stage).value)))
  {
    var d, s := At(stage, None, backups), UnchangedMarker(NextStage(stage).value);
    UnchangedMarkerIsValid(s.stage);
    UnchangedSuccession(stage);
    ExampleIsReadable(stage, backups);
    ExampleBackup(stage, backups);
    hide *;
    StagingFits(UnchangedOperation(), d, UnchangedMarker(stage), s);
  }

  lemma ExampleIsReadable(stage: Stage, backups: map<string, Bytes>)
    requires stage != Failed
    ensures Inspect(At(stage, None, backups)).state == Readable
  {
    UnchangedMarkerIsValid(stage);
    hide ValidMarker, ExpectedCandidates, UnchangedMarker;
    var d := At(stage, None, backups);
    assert d.candidates == Candidates();
  }

  /** Advancing the example from one stage to the next, in two durable actions. */
  lemma AdvanceExample(ds: seq<Disk>, stage: Stage, backups: map<string, Bytes>) returns (ds': seq<Disk>)
    requires PreCommit(stage)
    requires ds != [] && Run(UnchangedOperation(), ds) && ds[|ds| - 1] == At(stage, None, backups)
    requires stage != Prepared ==> backups == map["backup" := [1]]
    ensures ds' != [] && Run(UnchangedOperation(), ds')
    ensures ds'[|ds'| - 1] == At(NextStage(stage).value, None, backups)
  {
    hide Run, UnchangedMarker, Candidates, UnchangedOperation, Inspect, ValidSuccessor;
    ExampleIsReady(stage, backups);
    ds' := ExtendExample(ds, StageSuccessor(UnchangedMarker(NextStage(stage).value)));
    ds' := ExtendExample(ds', InstallSuccessor);
  }

  /** The example's preparation: marker, lock, directories and the one candidate. */
  lemma PrepareExample() returns (ds: seq<Disk>)
    ensures ds != [] && Run(UnchangedOperation(), ds) && ds[|ds| - 1] == At(Prepared, None, map[])
  {
    hide ValidMarker, Inv;
    var op, m := UnchangedOperation(), UnchangedMarker(Prepared);
    UnchangedMarkerIsValid(Prepared);
    var d0 := Disk(Some(m), None, Missing, map[], None, map[], op.origin);
    ds := [d0];
    assert Run(op, ds);
    hide Run;
    ds := ExtendExample(ds, CreateLock);
    ds := ExtendExample(ds, OpenDirectory(CandidateDirectory));
    ds := ExtendExample(ds, WriteCandidate("credential"));
    ds := ExtendExample(ds, WriteCandidate("candidate"));
    assert map[]["credential" := [7]]["candidate" := [1]] == Candidates();
  }

  lemma ExtendExample(ds: seq<Disk>, a: Action) returns (ds': seq<Disk>)
    requires ds != [] && Run(UnchangedOperation(), ds) && Permits(UnchangedOperation(), ds[|ds| - 1], a)
    ensures ds' != [] && Run(UnchangedOperation(), ds')
    ensures ds'[|ds'| - 1] == Apply(UnchangedOperation(), ds[|ds| - 1], a)
  {
    hide Run, Permits, Apply, Inv;
    RunsKeepInv(UnchangedOperation(), ds, |ds| - 1);
    ExtendRun(UnchangedOperation(), ds, a);
    ds' := ds + [Apply(UnchangedOperation(), ds[|ds| - 1], a)];
  }

  /** No continuation of the run ever leaves CommitStarted. */
  ghost predicate Stuck(op: Operation, ds: seq<Disk>) {
    forall longer: seq<Disk> :: Run(op, longer) && ds <= longer && longer != [] ==>
      var d := longer[|longer| - 1];
      d.marker.Some? && d.marker.value.stage == CommitStarted
  }

  /** The preparer never creates the example, nor any operation the stores do not accept. */
  lemma PreparerRefusesUnsavable(op: Operation)
    requires Bound(op.prepared) ==> !CredentialFits(op.prepared) || !Writable(op, op.prepared)
    ensures !ActivationPreparation.Created(op)
  {
    if ActivationPreparation.Created(op) {
      ActivationPreparation.CreatedIsRecoverable(op);
    }
  }

  /**
  The concrete case: a marker that changes nothing in its configuration, which the preparer refuses to
  build. Were it prepared, backed up and durably started, then no continuation of the run, with any
  recovery, would ever end it.
   */
  lemma UnchangedConfigurationGetsStuck()
    ensures !ActivationPreparation.Created(UnchangedOperation())
    ensures exists ds: seq<Disk> ::
      && Run(UnchangedOperation(), ds)
      && ds != [] && ds[|ds| - 1].marker == Some(UnchangedMarker(CommitStarted))
      && Stuck(UnchangedOperation(), ds)
  {
    hide Run, Inv, Permits, Apply, ValidMarker;
    var op := UnchangedOperation();
    PreparerRefusesUnsavable(op);
    var ds := PrepareExample();
    ds := AdvanceExample(ds, Prepared, map[]);
    ds := BackUpExample(ds);
    ds := AdvanceExample(ds, Quiesced, map["backup" := [1]]);
    ds := AdvanceExample(ds, BackupVerified, map["backup" := [1]]);
    forall longer: seq<Disk> | Run(op, longer) && ds <= longer
      ensures var d := longer[|longer| - 1]; d.marker.Some? && d.marker.value.stage == CommitStarted
    {
      UnsavableOperationsStayStarted(op, longer, |ds| - 1, |longer| - 1);
    }
  }

  lemma BackUpExample(ds: seq<Disk>) returns (ds': seq<Disk>)
    requires ds != [] && Run(UnchangedOperation(), ds) && ds[|ds| - 1] == At(Quiesced, None, map[])
    ensures ds' != [] && Run(UnchangedOperation(), ds')
    ensures ds'[|ds'| - 1] == At(Quiesced, None, map["backup" := [1]])
  {
    hide Run, Inv;
    ds' := ExtendExample(ds, RecordBackup("backup", [1]));
    assert map[]["backup" := [1]] == map["backup" := [1]];
  }
}
