/**
The preparer of a Battle activation: the checks on the requested features, the planned edit of the
local target in the configuration, and the prepared marker it binds everything in. What it guarantees
is what a commit and a recovery later need. A configuration is known by the settings it assigns.
 */
module ActivationPreparation {
  import opened Common
  import opened LifecycleMarker
  import opened LifecycleProtocol

  // ------------------------------------------------------------- configuration

  /** A setting: one of the seven the preparer may write, another of the local target, or any other. */
  datatype Setting =
    | EnabledKey | TransportKey | PipeKey | UrlKey | TokenKey | BattleKey | FleetKey
    | LocalKey(name: string)
    | ElsewhereKey(path: string)

  datatype Scalar = Flag(on: bool) | Text(text: string) | OtherScalar

  type Settings = map<Setting, Scalar>

  datatype Transport = LegacyHttp | NamedPipe

  /** The local target as its settings are read; None is a setting left to its default. */
  datatype Target = Target(
    enabled: bool, transport: Option<Transport>, pipe: Option<string>, url: string, token: string,
    battle: Option<bool>, fleet: Option<bool>)

  const DEFAULT_URL := "http://127.0.0.1:43127/api/sidecar/ingest"

  const NEW_TARGET := Target(false, None, None, DEFAULT_URL, "", None, None)

  predicate Owned(key: Setting) { !key.LocalKey? && !key.ElsewhereKey? }

  function FlagAt(settings: Settings, key: Setting): Option<bool> {
    if key in settings && settings[key].Flag? then Some(settings[key].on) else None
  }

  function TextAt(settings: Settings, key: Setting): Option<string> {
    if key in settings && settings[key].Text? then Some(settings[key].text) else None
  }

  function TransportOf(text: Option<string>): Option<Transport> {
    if text == Some("legacy_http") then Some(LegacyHttp)
    else if text == Some("named_pipe") then Some(NamedPipe)
    else None
  }

  function OrElse<T>(value: Option<T>, fallback: T): T { if value.Some? then value.value else fallback }

  ghost predicate HasTarget(settings: Settings) { exists key :: key in settings && !key.ElsewhereKey? }

  ghost function ReadTarget(settings: Settings): Option<Target> {
    if !HasTarget(settings) then None
    else
      Some(Target(
             OrElse(FlagAt(settings, EnabledKey), false),
             TransportOf(TextAt(settings, TransportKey)),
             TextAt(settings, PipeKey),
             OrElse(TextAt(settings, UrlKey), DEFAULT_URL),
             OrElse(TextAt(settings, TokenKey), ""),
             FlagAt(settings, BattleKey),
             FlagAt(settings, FleetKey)))
  }

  /** No setting of the local target has a value the reader reports as an error. */
  predicate WellTyped(settings: Settings) {
    && (forall key :: key in {EnabledKey, BattleKey, FleetKey} && key in settings ==> settings[key].Flag?)
    && (forall key :: key in {PipeKey, UrlKey, TokenKey, TransportKey} && key in settings ==> settings[key].Text?)
    && (TransportKey in settings ==> TransportOf(TextAt(settings, TransportKey)).Some?)
  }

  // ------------------------------------------------------------------- editing

  datatype Mutation = Set(key: Setting, value: Scalar) | Clear(key: Setting)

  function Edited(settings: Settings, m: Mutation): Settings {
    match m
    case Set(key, value) => settings[key := value]
    case Clear(key) => settings - {key}
  }

  /**
  The TOML reader and editor: what bytes assign (None when they are no document), one edit (None when
  it is refused), whether anything but the local target is reported as an error, and the plan's receipt.
   */
  datatype Toml = Toml(
    read: Bytes -> Option<Settings>,
    edit: (Bytes, Mutation) -> Option<Bytes>,
    otherErrors: Settings -> bool,
    receipt: seq<Mutation> -> string)

  /** An edit changes the assignment it names and no other; an empty file assigns nothing. */
  ghost predicate EditorHolds(toml: Toml) {
    && (toml.read([]).Some? ==> toml.read([]).value == map[])
    && forall b: Bytes, m: Mutation :: toml.read(b).Some? && toml.edit(b, m).Some? ==>
         toml.read(toml.edit(b, m).value) == Some(Edited(toml.read(b).value, m))
  }

  function EditedAll(settings: Settings, plan: seq<Mutation>): Settings {
    if plan == [] then settings else Edited(EditedAll(settings, plan[..|plan| - 1]), plan[|plan| - 1])
  }

  datatype Edit = RefusedEdit | Edit(contents: Bytes, changed: bool)

  /** A whole plan applied to the source, and whether any single edit changed the bytes. */
  function Applied(toml: Toml, source: Bytes, plan: seq<Mutation>): Edit {
    if plan == [] then Edit(source, false)
    else
      var before := Applied(toml, source, plan[..|plan| - 1]);
      if before.RefusedEdit? || toml.read(before.contents).None? then RefusedEdit
      else
        var after := toml.edit(before.contents, plan[|plan| - 1]);
        if after.None? then RefusedEdit
        else Edit(after.value, before.changed || after.value != before.contents)
  }

  lemma {:induction false} RefusalStays(toml: Toml, source: Bytes, plan: seq<Mutation>, n: nat)
    requires n <= |plan| && Applied(toml, source, plan[..n]).RefusedEdit?
    ensures Applied(toml, source, plan).RefusedEdit?
    decreases |plan|
  {
    if n == |plan| {
      assert plan[..n] == plan;
    } else {
      assert plan[..|plan| - 1][..n] == plan[..n];
      RefusalStays(toml, source, plan[..|plan| - 1], n);
    }
  }

  /** Applies a plan edit by edit, stopping at the first refusal. */
  method Apply(toml: Toml, source: Bytes, plan: seq<Mutation>) returns (result: Edit)
    ensures result == Applied(toml, source, plan)
  {
    var contents, changed := source, false;
    for i := 0 to |plan|
      invariant Applied(toml, source, plan[..i]) == Edit(contents, changed)
    {
      assert plan[..i + 1][..i] == plan[..i];
      var edited := if toml.read(contents).None? then None else toml.edit(contents, plan[i]);
      if edited.None? {
        RefusalStays(toml, source, plan, i + 1);
        return RefusedEdit;
      }
      contents, changed := edited.value, changed || edited.value != contents;
    }
    assert plan[..|plan|] == plan;
    return Edit(contents, changed);
  }

  // ------------------------------------------------------------------ planning

  /** The target as the activation wants it. */
  function Desired(before: Target, pipe: string, credential: string, battle: bool, fleet: bool): Target {
    before.(enabled := battle || fleet, transport := Some(NamedPipe), pipe := Some(pipe), token := credential,
            battle := Some(battle), fleet := Some(fleet))
  }

  /** An edit the planner makes only when it is needed. */
  datatype Choice = Choice(needed: bool, edit: Mutation)

  /** The edits of the local target, in the order the planner adds them. */
  function Choices(before: Option<Target>, pipe: string, credential: string, battle: bool, fleet: bool): seq<Choice> {
    var absent := before.None?;
    var found := OrElse(before, NEW_TARGET);
    [Choice(absent || found.enabled != (battle || fleet), Set(EnabledKey, Flag(battle || fleet))),
     Choice(absent || found.transport != Some(NamedPipe), Set(TransportKey, Text("named_pipe"))),
     Choice(absent || found.pipe != Some(pipe), Set(PipeKey, Text(pipe))),
     Choice(!absent && found.transport != Some(NamedPipe), Clear(UrlKey)),
     Choice(absent || found.token != credential, Set(TokenKey, Text(credential))),
     Choice(absent || found.battle != Some(battle), Set(BattleKey, Flag(battle))),
     Choice(absent || found.fleet != Some(fleet), Set(FleetKey, Flag(fleet)))]
  }

  function Needed(choices: seq<Choice>): seq<Mutation> {
    if choices == [] then []
    else
      var last := choices[|choices| - 1];
      Needed(choices[..|choices| - 1]) + if last.needed then [last.edit] else []
  }

  /** The edits that lead from the target as it is to the one wanted. */
  function Plan(before: Option<Target>, pipe: string, credential: string, battle: bool, fleet: bool): seq<Mutation> {
    Needed(Choices(before, pipe, credential, battle, fleet))
  }

  predicate Configured(token: string) { exists c :: c in token && c !in " \t\r\n" }

  /** The candidate, read back, shows the target as wanted. */
  ghost predicate Verifies(settings: Settings, pipe: string, battle: bool, fleet: bool) {
    var t := ReadTarget(settings);
    && t.Some?
    && t.value.enabled == (battle || fleet)
    && Configured(t.value.token)
    && OrElse(t.value.transport, LegacyHttp) == NamedPipe
    && OrElse(t.value.pipe, "") == pipe
    && OrElse(t.value.battle, false) == battle
    && OrElse(t.value.fleet, false) == fleet
  }

  // ------------------------------------------------------- what the plan achieves

  function At(settings: Settings, key: Setting): Option<Scalar> { if key in settings then Some(settings[key]) else None }

  predicate DistinctKeys(choices: seq<Choice>) {
    forall i, j :: 0 <= i < j < |choices| ==> choices[i].edit.key != choices[j].edit.key
  }

  /** A setting that no edit names keeps its value. */
  lemma {:induction false} UnnamedStays(settings: Settings, choices: seq<Choice>, key: Setting)
    requires forall i :: 0 <= i < |choices| ==> choices[i].edit.key != key
    ensures At(EditedAll(settings, Needed(choices)), key) == At(settings, key)
  {
    if choices != [] {
      UnnamedStays(settings, choices[..|choices| - 1], key);
      LastNeeded(settings, choices);
    }
  }

  lemma LastNeeded(settings: Settings, choices: seq<Choice>)
    requires choices != []
    ensures var before, last := EditedAll(settings, Needed(choices[..|choices| - 1])), choices[|choices| - 1];
      EditedAll(settings, Needed(choices)) == if last.needed then Edited(before, last.edit) else before
  {
    var before := Needed(choices[..|choices| - 1]);
    var last := choices[|choices| - 1];
    if last.needed {
      assert Needed(choices) == before + [last.edit] && (before + [last.edit])[..|before|] == before;
    } else {
      assert Needed(choices) == before;
    }
  }

  function Result(settings: Settings, c: Choice): Option<Scalar> {
    if !c.needed then At(settings, c.edit.key) else if c.edit.Set? then Some(c.edit.value) else None
  }

  /** Edits of different settings do not disturb each other. */
  lemma {:induction false} NamedIsEdited(settings: Settings, choices: seq<Choice>, i: nat)
    requires DistinctKeys(choices) && i < |choices|
    ensures At(EditedAll(settings, Needed(choices)), choices[i].edit.key) == Result(settings, choices[i])
  {
    var n := |choices| - 1;
    LastNeeded(settings, choices);
    if i < n {
      NamedIsEdited(settings, choices[..n], i);
    } else {
      UnnamedStays(settings, choices[..n], choices[n].edit.key);
    }
  }

  lemma {:induction false} NothingNeeded(choices: seq<Choice>)
    ensures Needed(choices) == [] <==> forall i :: 0 <= i < |choices| ==> !choices[i].needed
  {
    if choices != [] {
      NothingNeeded(choices[..|choices| - 1]);
    }
  }

  lemma ChoicesAreDistinct(before: Option<Target>, pipe: string, credential: string, battle: bool, fleet: bool)
    ensures DistinctKeys(Choices(before, pipe, credential, battle, fleet))
    ensures forall c :: c in Choices(before, pipe, credential, battle, fleet) ==> Owned(c.edit.key)
  {
  }

  /** The settings that are read back, each as planned: the address is not among them. */
  predicate AsPlanned(settings: Settings, after: Settings, choices: seq<Choice>)
    requires |choices| == 7
  {
    && At(after, EnabledKey) == Result(settings, choices[0])
    && At(after, TransportKey) == Result(settings, choices[1])
    && At(after, PipeKey) == Result(settings, choices[2])
    && At(after, TokenKey) == Result(settings, choices[4])
    && At(after, BattleKey) == Result(settings, choices[5])
    && At(after, FleetKey) == Result(settings, choices[6])
  }

  lemma PlanIsCarriedOut(settings: Settings, before: Option<Target>, pipe: string, credential: string, battle: bool, fleet: bool)
    ensures AsPlanned(settings, EditedAll(settings, Plan(before, pipe, credential, battle, fleet)),
                      Choices(before, pipe, credential, battle, fleet))
  {
    var choices := Choices(before, pipe, credential, battle, fleet);
    ChoicesAreDistinct(before, pipe, credential, battle, fleet);
    hide EditedAll, Needed, DistinctKeys, At, Result;
    NamedIsEdited(settings, choices, 0);
    NamedIsEdited(settings, choices, 1);
    NamedIsEdited(settings, choices, 2);
    NamedIsEdited(settings, choices, 4);
    NamedIsEdited(settings, choices, 5);
    NamedIsEdited(settings, choices, 6);
  }

  /**
  Reading back what the plan leads to gives the target as wanted. The address of the old transport is
  not kept for a named pipe.
   */
  lemma PlanReadsBack(settings: Settings, pipe: string, credential: string, battle: bool, fleet: bool)
    ensures var before := ReadTarget(settings);
      var after := ReadTarget(EditedAll(settings, Plan(before, pipe, credential, battle, fleet)));
      && after.Some?
      && after.value.(url := "") == Desired(OrElse(before, NEW_TARGET), pipe, credential, battle, fleet).(url := "")
  {
    var before := ReadTarget(settings);
    PlanIsCarriedOut(settings, before, pipe, credential, battle, fleet);
    hide EditedAll, Plan;
    assert TransportKey in EditedAll(settings, Plan(before, pipe, credential, battle, fleet));
  }

  /** Settings other than the seven are left alone. */
  lemma PlanStaysWithinOwnership(settings: Settings, pipe: string, credential: string, battle: bool, fleet: bool, key: Setting)
    requires !Owned(key)
    ensures var after := EditedAll(settings, Plan(ReadTarget(settings), pipe, credential, battle, fleet));
      && (key in after <==> key in settings)
      && (key in settings ==> after[key] == settings[key])
  {
    var before := ReadTarget(settings);
    UnnamedStays(settings, Choices(before, pipe, credential, battle, fleet), key);
    hide EditedAll, Needed, Choices;
  }

  /** Among the needed edits one sets a value the source does not have. */
  lemma SomeSet(settings: Settings, pipe: string, credential: string, battle: bool, fleet: bool) returns (i: nat)
    requires exists j :: 0 <= j < 7 && Choices(ReadTarget(settings), pipe, credential, battle, fleet)[j].needed
    ensures i < 7
    ensures var c := Choices(ReadTarget(settings), pipe, credential, battle, fleet)[i];
      Result(settings, c) != At(settings, c.edit.key)
  {
    var cs := Choices(ReadTarget(settings), pipe, credential, battle, fleet);
    i := if cs[0].needed then 0 else if cs[1].needed then 1 else if cs[2].needed then 2
         else if cs[4].needed then 4 else if cs[5].needed then 5 else 6;
    assert !cs[1].needed ==> !cs[3].needed;
  }

  /** A plan with any edit at all changes what is assigned. */
  lemma PlansChangeSettings(settings: Settings, pipe: string, credential: string, battle: bool, fleet: bool)
    requires Plan(ReadTarget(settings), pipe, credential, battle, fleet) != []
    ensures EditedAll(settings, Plan(ReadTarget(settings), pipe, credential, battle, fleet)) != settings
  {
    var before := ReadTarget(settings);
    var choices := Choices(before, pipe, credential, battle, fleet);
    ChoicesAreDistinct(before, pipe, credential, battle, fleet);
    NothingNeeded(choices);
    var i := SomeSet(settings, pipe, credential, battle, fleet);
    NamedIsEdited(settings, choices, i);
    hide EditedAll, Needed, DistinctKeys;
  }

  lemma {:induction false} AppliedEdits(toml: Toml, source: Bytes, plan: seq<Mutation>)
    requires EditorHolds(toml) && toml.read(source).Some? && Applied(toml, source, plan).Edit?
    ensures toml.read(Applied(toml, source, plan).contents) == Some(EditedAll(toml.read(source).value, plan))
    decreases |plan|
  {
    if plan != [] {
      AppliedEdits(toml, source, plan[..|plan| - 1]);
    }
  }

  // ------------------------------------------------------------------ preparing

  const CREDENTIAL_FILE := "ingest-credential-v1.dpapi"
  const CONFIGURATION_FILE := "community_patch_settings.toml"
  const IMPLEMENTATION := "battle-activation-prepare-v1"

  /** What the player's feature shows when the activation is asked for. */
  datatype FeatureState = FeatureState(active: bool, preference: Preference)

  /** The player's review of a change to a local target that exists already. */
  datatype Review = Review(source: Bytes, affected: seq<Feature>, pipe: string)

  /** The request, and what the clock, the random source and the credential protector return for it. */
  datatype Request = Request(
    requested: seq<Feature>,
    battle: FeatureState,
    fleet: FeatureState,
    source: Bytes,
    sourcePath: string,
    pipe: string,
    review: Option<Review>,
    credential: string,
    protected: Bytes,
    lock: Bytes,
    operationId: string,
    ownerId: string,
    now: int)
  {
    function Of(feature: Feature): FeatureState { if feature.BattleCollection? then battle else fleet }

    function Transition(feature: Feature): FeatureTransition {
      FeatureTransition(feature, Of(feature).preference,
                        if feature in requested then Enabled else Of(feature).preference)
    }

    predicate Wants(feature: Feature) { Transition(feature).after == Enabled }
  }

  datatype Refusal = NotAClosedSet | NotEligible | AlreadyShared | CredentialOutOfBounds | SourceInvalid | ReviewMissing
    | PlanInvalid | CandidateInvalid | CandidateUnverified | MarkerInvalid

  datatype Preparation = Refused(reason: Refusal) | Ready(marker: Marker, candidates: map<string, Bytes>)

  datatype Candidate = NoCandidate(reason: Refusal) | Candidate(contents: Bytes, receipt: string)

  predicate Reviewed(r: Request) {
    r.review.Some? && r.review.value == Review(r.source, r.requested, r.pipe)
  }

  /** The configuration candidate: the planned edit of the source, checked and read back. */
  ghost function BuildCandidate(toml: Toml, r: Request): Candidate {
    var read := toml.read(r.source);
    if read.None? then NoCandidate(SourceInvalid)
    else
      var before := ReadTarget(read.value);
      var battle, fleet := r.Wants(BattleCollection), r.Wants(FleetCollection);
      if before.Some? && !Reviewed(r) then NoCandidate(ReviewMissing)
      else
        var plan := Plan(before, r.pipe, r.credential, battle, fleet);
        if !WellTyped(read.value) || toml.otherErrors(read.value) || plan == [] then NoCandidate(PlanInvalid)
        else
          var edit := Applied(toml, r.source, plan);
          if edit.RefusedEdit? || !edit.changed || |edit.contents| > MAXIMUM_CONFIGURATION_BYTES then
            NoCandidate(CandidateInvalid)
          else if toml.read(edit.contents).None? || !Verifies(toml.read(edit.contents).value, r.pipe, battle, fleet) then
            NoCandidate(CandidateUnverified)
          else Candidate(edit.contents, toml.receipt(plan))
  }

  function CandidatePath(operationId: string, file: string): string {
    "battle/recovery/" + operationId + "/candidate/" + file + ".next"
  }

  /** The prepared marker that binds the three resources. */
  function MarkerFor(r: Request, candidate: Bytes, receipt: string): Marker {
    var transitions := [r.Transition(BattleCollection), r.Transition(FleetCollection)];
    Marker(
      r.operationId, r.ownerId, Prepared, r.requested,
      [ResourceTransition(
         IngestCredential, None, Some(CandidatePath(r.operationId, CREDENTIAL_FILE)), Some(r.protected), None, None),
       ResourceTransition(RuntimeLock, None, None, Some(r.lock), None, None)],
      Some(CredentialBinding(1, r.protected)),
      Some(ConfigurationBinding(
             r.source, r.sourcePath, r.source, CandidatePath(r.operationId, CONFIGURATION_FILE), candidate, receipt,
             None, None)),
      transitions,
      transitions[0].before == Enabled || transitions[1].before == Enabled,
      transitions[0].after == Enabled || transitions[1].after == Enabled,
      r.now, r.now, IMPLEMENTATION, true, true)
  }

  /** Every check of the preparer, in its order, and the marker it ends with. */
  ghost function Create(toml: Toml, r: Request): Preparation {
    if !(0 < |r.requested| <= 2) || !StrictlyOrderedFeatures(r.requested) then Refused(NotAClosedSet)
    else if exists f :: f in r.requested && (!r.Of(f).active || r.Of(f).preference == Enabled) then
      Refused(NotEligible)
    else if exists f: Feature :: f !in r.requested && r.Of(f).preference == Enabled then Refused(AlreadyShared)
    else if !(0 < |r.protected| <= MAXIMUM_CREDENTIAL_BYTES) then Refused(CredentialOutOfBounds)
    else
      match BuildCandidate(toml, r)
      case NoCandidate(reason) => Refused(reason)
      case Candidate(contents, receipt) =>
        var m := MarkerFor(r, contents, receipt);
        if !ValidMarker(m) then Refused(MarkerInvalid)
        else
          Ready(m, map[CandidatePath(r.operationId, CREDENTIAL_FILE) := r.protected,
                          CandidatePath(r.operationId, CONFIGURATION_FILE) := contents])
  }

  // --------------------------------------------------------- what it guarantees

  lemma {:induction false} UnchangedIsSource(toml: Toml, source: Bytes, plan: seq<Mutation>)
    requires Applied(toml, source, plan).Edit? && !Applied(toml, source, plan).changed
    ensures Applied(toml, source, plan).contents == source
    decreases |plan|
  {
    if plan != [] {
      UnchangedIsSource(toml, source, plan[..|plan| - 1]);
    }
  }

  /** The settings the preparer plans an edit of. */
  predicate Plannable(toml: Toml, r: Request) {
    toml.read(r.source).Some? && WellTyped(toml.read(r.source).value) && !toml.otherErrors(toml.read(r.source).value)
  }

  ghost function PlanFor(toml: Toml, r: Request): seq<Mutation>
    requires toml.read(r.source).Some?
  {
    Plan(ReadTarget(toml.read(r.source).value), r.pipe, r.credential, r.Wants(BattleCollection), r.Wants(FleetCollection))
  }

  /** A value the reader takes without an error: flags, texts, and one of two transports; other settings are not its concern. */
  predicate Legible(key: Setting, value: Scalar) {
    match key
    case EnabledKey => value.Flag?
    case BattleKey => value.Flag?
    case FleetKey => value.Flag?
    case TransportKey => value == Text("legacy_http") || value == Text("named_pipe")
    case PipeKey => value.Text?
    case UrlKey => value.Text?
    case TokenKey => value.Text?
    case LocalKey(_) => true
    case ElsewhereKey(_) => true
  }

  lemma LegibleMeans(settings: Settings)
    ensures WellTyped(settings) <==> forall key: Setting :: key in settings ==> Legible(key, settings[key])
  {
  }

  /**
  A candidate is built exactly when the source can be planned, a change to an existing target was
  reviewed, and the edits of a plan that is not empty are accepted within the size bound. It then
  differs from its source, and reading it back never fails.
   */
  lemma CandidateExactly(toml: Toml, r: Request)
    requires EditorHolds(toml) && Configured(r.credential)
    ensures BuildCandidate(toml, r).Candidate? <==>
      && toml.read(r.source).Some? && !toml.otherErrors(toml.read(r.source).value)
      && (forall key: Setting :: key in toml.read(r.source).value ==> Legible(key, toml.read(r.source).value[key]))
      && ((exists key :: key in toml.read(r.source).value && !key.ElsewhereKey?) ==>
            r.review == Some(Review(r.source, r.requested, r.pipe)))
      && PlanFor(toml, r) != []
      && var edit := Applied(toml, r.source, PlanFor(toml, r));
         edit.Edit? && |edit.contents| <= MAXIMUM_CONFIGURATION_BYTES
  {
    if toml.read(r.source).Some? {
      LegibleMeans(toml.read(r.source).value);
    }
    if Plannable(toml, r) && PlanFor(toml, r) != [] && Applied(toml, r.source, PlanFor(toml, r)).Edit? {
      var edit := CandidateReads(toml, r);
    }
    hide Plan, Verifies, ReadTarget, WellTyped, EditorHolds, Applied;
  }

  lemma CandidateReads(toml: Toml, r: Request) returns (edit: Edit)
    requires EditorHolds(toml) && Configured(r.credential) && Plannable(toml, r)
    requires PlanFor(toml, r) != [] && Applied(toml, r.source, PlanFor(toml, r)).Edit?
    ensures edit == Applied(toml, r.source, PlanFor(toml, r)) && edit.changed && edit.contents != r.source
    ensures toml.read(edit.contents).Some?
    ensures Verifies(toml.read(edit.contents).value, r.pipe, r.Wants(BattleCollection), r.Wants(FleetCollection))
  {
    var settings, plan := toml.read(r.source).value, PlanFor(toml, r);
    edit := Applied(toml, r.source, plan);
    AppliedEdits(toml, r.source, plan);
    var battle, fleet := r.Wants(BattleCollection), r.Wants(FleetCollection);
    PlansChangeSettings(settings, r.pipe, r.credential, battle, fleet);
    PlanReadsBack(settings, r.pipe, r.credential, battle, fleet);
    hide Plan, ReadTarget, WellTyped, EditorHolds, Applied, EditedAll;
    if !edit.changed {
      UnchangedIsSource(toml, r.source, plan);
    }
  }

  lemma CandidatePathsDiffer(operationId: string)
    ensures CandidatePath(operationId, CREDENTIAL_FILE) != CandidatePath(operationId, CONFIGURATION_FILE)
  {
    assert |CandidatePath(operationId, CREDENTIAL_FILE)| != |CandidatePath(operationId, CONFIGURATION_FILE)|;
  }

  /** The marker the preparer builds always passes the codec's own validation. */
  lemma BuiltMarkerIsValid(r: Request, candidate: Bytes, receipt: string)
    requires 0 < |r.requested| <= 2 && StrictlyOrderedFeatures(r.requested)
    requires |candidate| <= MAXIMUM_CONFIGURATION_BYTES
    ensures ValidMarker(MarkerFor(r, candidate, receipt))
  {
    var m := MarkerFor(r, candidate, receipt);
    CandidatePathsDiffer(r.operationId);
    assert m.resources[0] in m.resources && m.resources[1] in m.resources;
    assert m.resources[1..] == [m.resources[1]] && m.resources[1..][1..] == [];
    hide CandidatePath;
    assert ResourcePaths(m.resources[1..]) == [];
    assert OwnedPaths(m) == [CandidatePath(r.operationId, CREDENTIAL_FILE), CandidatePath(r.operationId, CONFIGURATION_FILE)];
  }

  /** What the marker binds: all three resources, and exactly the candidates the preparer holds. */
  lemma BuiltMarkerBinds(r: Request, candidate: Bytes, receipt: string)
    ensures var m := MarkerFor(r, candidate, receipt);
      && Bound(m)
      && RuntimeContents(m) == Some(r.lock)
      && LookupRole(m.resources, IngestCredential).value.candidatePath.Some?
      && ExpectedCandidates(m)
         == Some(map[CandidatePath(r.operationId, CREDENTIAL_FILE) := r.protected,
                     CandidatePath(r.operationId, CONFIGURATION_FILE) := candidate])
  {
    var m := MarkerFor(r, candidate, receipt);
    CandidatePathsDiffer(r.operationId);
    hide CandidatePath;
    assert m.resources[1..] == [m.resources[1]] && m.resources[1..][1..] == [];
    assert LookupRole(m.resources, IngestCredential) == Some(m.resources[0]);
    assert LookupRole(m.resources[1..], RuntimeLock) == Some(m.resources[1]);
    assert CandidatesOfResources(m.resources[1..][1..]) == Some(map[]);
    assert CandidatesOfResources(m.resources[1..]) == Some(map[]);
  }

  /**
  An activation is prepared exactly for a closed set of eligible features while no other feature shares
  the target, with a credential within bounds and a candidate that can be built. The marker's own
  validation never refuses it.
   */
  lemma CreateExactly(toml: Toml, r: Request)
    ensures Create(toml, r).Ready? <==>
      && 0 < |r.requested| <= 2 && StrictlyOrderedFeatures(r.requested)
      && (forall f :: f in r.requested ==> r.Of(f).active)
      && (forall f: Feature :: r.Of(f).preference != Enabled)
      && 0 < |r.protected| <= MAXIMUM_CREDENTIAL_BYTES
      && BuildCandidate(toml, r).Candidate?
  {
    var built := BuildCandidate(toml, r);
    hide ValidMarker, MarkerFor, CandidatePath;
    if built.Candidate? && 0 < |r.requested| <= 2 && StrictlyOrderedFeatures(r.requested) {
      BuiltMarkerIsValid(r, built.contents, built.receipt);
    }
    hide BuildCandidate, StrictlyOrderedFeatures;
  }

  /** The operation's prepared marker is one the preparer built, from an editor that keeps its promises. */
  ghost predicate Created(op: Operation) {
    exists toml: Toml, r: Request ::
      && Create(toml, r).Ready? && Create(toml, r).marker == op.prepared
      && EditorHolds(toml) && Configured(r.credential)
      && forall b: Bytes :: op.isDocument(b) <==> toml.read(b).Some?
  }

  /** The preparer checks everything a commit and its recovery rely on, so both can always be finished. */
  lemma CreatedIsRecoverable(op: Operation)
    requires Created(op)
    ensures Recoverable(op) && ValidMarker(op.prepared) && !op.prepared.sharedBefore
    ensures ExpectedCandidates(op.prepared).Some? && RuntimeContents(op.prepared).Some?
  {
    var toml: Toml, r: Request :|
      && Create(toml, r).Ready? && Create(toml, r).marker == op.prepared
      && EditorHolds(toml) && Configured(r.credential)
      && forall b: Bytes :: op.isDocument(b) <==> toml.read(b).Some?;
    CandidateExactly(toml, r);
    CreateExactly(toml, r);
    var edit := CandidateReads(toml, r);
    var built := BuildCandidate(toml, r);
    BuiltMarkerBinds(r, built.contents, built.receipt);
    BuiltMarkerIsValid(r, built.contents, built.receipt);
    assert HasTarget(toml.read(edit.contents).value);
    hide ValidMarker, ExpectedCandidates, RuntimeContents, Plan, Verifies, ReadTarget, WellTyped, Applied, CandidatePath;
  }

  /**
  What the request promises: exactly the requested features become enabled and no other preference
  moves, the credential appears, and the configuration goes from its source to the candidate.
   */
  lemma CreatedPromises(toml: Toml, r: Request)
    requires Create(toml, r).Ready?
    ensures var m := Create(toml, r).marker;
      && Bound(m)
      && Before(m) == Resources(None, Some(r.source), Preferences(r.battle.preference, r.fleet.preference))
      && After(m).credential == Some(r.protected)
      && After(m).configuration == Some(Create(toml, r).candidates[m.configuration.value.candidatePath])
      && After(m).preferences.battle == (if BattleCollection in r.requested then Enabled else r.battle.preference)
      && After(m).preferences.fleet == (if FleetCollection in r.requested then Enabled else r.fleet.preference)
      && (After(m).preferences.battle == Enabled <==> BattleCollection in r.requested)
      && (After(m).preferences.fleet == Enabled <==> FleetCollection in r.requested)
  {
    CreateExactly(toml, r);
    var built := BuildCandidate(toml, r);
    CandidatePathsDiffer(r.operationId);
    BuiltMarkerBinds(r, built.contents, built.receipt);
    BuiltMarkerIsValid(r, built.contents, built.receipt);
    hide ValidMarker, BuildCandidate, CandidatePath;
  }

  /**
  Where an activation starts: unbacked and at its first stage, from a target that is not shared to one that is, a
  first-generation credential beside the source it was edited from, and a runtime lock that is no candidate.
   */
  lemma CreatedMarkerStarts(toml: Toml, r: Request)
    requires Create(toml, r).Ready?
    ensures var m := Create(toml, r).marker;
      var directory := "battle/recovery/" + r.operationId + "/candidate/";
      && m.operationId == r.operationId && m.ownerId == r.ownerId && m.affected == r.requested
      && m.stage == Prepared && m.started == r.now && m.updated == r.now
      && !m.sharedBefore && m.sharedAfter && m.mutationBlocked && m.safeReadsAllowed
      && m.credential == Some(CredentialBinding(1, r.protected)) && BackupOf(m).None?
      && m.configuration.Some? && m.configuration.value.source == r.source && m.configuration.value.sourceRevision == r.source
      && m.configuration.value.sourcePath == r.sourcePath
      && m.configuration.value.candidatePath == directory + CONFIGURATION_FILE + ".next"
      && |m.features| == 2 && RolesInOrder(m.resources)
      && LookupRole(m.resources, BattleStore).None?
      && LookupRole(m.resources, IngestCredential)
         == Some(ResourceTransition(IngestCredential, None, Some(directory + CREDENTIAL_FILE + ".next"), Some(r.protected), None, None))
      && LookupRole(m.resources, RuntimeLock) == Some(ResourceTransition(RuntimeLock, None, None, Some(r.lock), None, None))
  {
    CreateExactly(toml, r);
    WantsTheRequested(toml, r);
    var built := BuildCandidate(toml, r);
    var m := MarkerFor(r, built.contents, built.receipt);
    assert m.resources[1..] == [m.resources[1]] && m.resources[1..][1..] == [];
    RolesMean(m.resources);
    hide ValidMarker, BuildCandidate;
  }

  /** The seven settings of the local target as the request wants them, and nothing else touched. */
  ghost predicate Configures(before: Settings, after: Settings, r: Request) {
    && At(after, EnabledKey) == Some(Flag(true))
    && At(after, TransportKey) == Some(Text("named_pipe"))
    && At(after, PipeKey) == Some(Text(r.pipe))
    && At(after, TokenKey) == Some(Text(r.credential))
    && At(after, BattleKey) == Some(Flag(BattleCollection in r.requested))
    && At(after, FleetKey) == Some(Flag(FleetCollection in r.requested))
    && At(after, UrlKey) == (if At(before, TransportKey) == Some(Text("named_pipe")) then At(before, UrlKey) else None)
    && forall key: Setting :: key.LocalKey? || key.ElsewhereKey? ==> At(after, key) == At(before, key)
  }

  lemma PlanConfigures(settings: Settings, r: Request)
    requires Configured(r.credential) && (r.Wants(BattleCollection) || r.Wants(FleetCollection))
    requires r.Wants(BattleCollection) == (BattleCollection in r.requested)
    requires r.Wants(FleetCollection) == (FleetCollection in r.requested)
    ensures Configures(
      settings,
      EditedAll(settings, Plan(ReadTarget(settings), r.pipe, r.credential, r.Wants(BattleCollection), r.Wants(FleetCollection))), r)
  {
    var before, battle, fleet := ReadTarget(settings), r.Wants(BattleCollection), r.Wants(FleetCollection);
    PlanIsCarriedOut(settings, before, r.pipe, r.credential, battle, fleet);
    AddressFollowsTransport(settings, r.pipe, r.credential, battle, fleet);
    forall key: Setting | !Owned(key)
      ensures At(EditedAll(settings, Plan(before, r.pipe, r.credential, battle, fleet)), key) == At(settings, key)
    {
      PlanStaysWithinOwnership(settings, r.pipe, r.credential, battle, fleet, key);
    }
    hide EditedAll, Plan;
  }

  lemma AddressFollowsTransport(settings: Settings, pipe: string, credential: string, battle: bool, fleet: bool)
    ensures At(EditedAll(settings, Plan(ReadTarget(settings), pipe, credential, battle, fleet)), UrlKey)
         == if At(settings, TransportKey) == Some(Text("named_pipe")) then At(settings, UrlKey) else None
  {
    var choices := Choices(ReadTarget(settings), pipe, credential, battle, fleet);
    ChoicesAreDistinct(ReadTarget(settings), pipe, credential, battle, fleet);
    hide EditedAll, Needed, DistinctKeys;
    NamedIsEdited(settings, choices, 3);
  }

  lemma BuiltFeatures(r: Request, candidate: Bytes, receipt: string)
    ensures var m := MarkerFor(r, candidate, receipt);
      && m.configuration.Some? && m.configuration.value.candidate == candidate
      && forall t :: t in m.features ==> (t.after == Enabled <==> r.Wants(t.feature))
  {
    hide CandidatePath;
  }

  lemma CreatedFromEdit(toml: Toml, r: Request)
    requires EditorHolds(toml) && Configured(r.credential) && Create(toml, r).Ready?
    ensures BuildCandidate(toml, r).Candidate? && Plannable(toml, r)
    ensures var built := BuildCandidate(toml, r);
      && Create(toml, r).marker == MarkerFor(r, built.contents, built.receipt)
      && Applied(toml, r.source, PlanFor(toml, r)).Edit?
      && built.contents == Applied(toml, r.source, PlanFor(toml, r)).contents
  {
    CreateExactly(toml, r);
    CandidateExactly(toml, r);
    hide ValidMarker, MarkerFor, Plan, Applied, ReadTarget, WellTyped, EditorHolds, CandidatePath;
  }

  lemma ConfiguresFlags(before: Settings, after: Settings, r: Request)
    requires Configures(before, after, r)
    ensures At(after, BattleKey) == Some(Flag(BattleCollection in r.requested))
    ensures At(after, FleetKey) == Some(Flag(FleetCollection in r.requested))
  {
  }

  lemma WantsTheRequested(toml: Toml, r: Request)
    requires Create(toml, r).Ready?
    ensures r.Wants(BattleCollection) == (BattleCollection in r.requested)
    ensures r.Wants(FleetCollection) == (FleetCollection in r.requested)
    ensures BattleCollection in r.requested || FleetCollection in r.requested
  {
    CreateExactly(toml, r);
    assert r.requested[0] in r.requested;
    hide BuildCandidate;
  }

  /**
  The bound candidate configures exactly what was requested, and what it switches on are the features
  that the marker enables.
   */
  lemma CandidateShowsRequest(toml: Toml, r: Request)
    requires EditorHolds(toml) && Configured(r.credential) && Create(toml, r).Ready?
    ensures var m := Create(toml, r).marker;
      && m.configuration.Some? && toml.read(r.source).Some? && toml.read(m.configuration.value.candidate).Some?
      && Configures(toml.read(r.source).value, toml.read(m.configuration.value.candidate).value, r)
      && forall t :: t in m.features ==>
           (t.after == Enabled <==>
              At(toml.read(m.configuration.value.candidate).value, if t.feature.BattleCollection? then BattleKey else FleetKey)
              == Some(Flag(true)))
  {
    hide ValidMarker, MarkerFor, Plan, EditedAll, Applied, ReadTarget, WellTyped, EditorHolds, Create, BuildCandidate, Request.Wants,
      Configures, Configured;
    CreatedFromEdit(toml, r);
    WantsTheRequested(toml, r);
    var built := BuildCandidate(toml, r);
    AppliedEdits(toml, r.source, PlanFor(toml, r));
    PlanConfigures(toml.read(r.source).value, r);
    BuiltFeatures(r, built.contents, built.receipt);
    ConfiguresFlags(toml.read(r.source).value, toml.read(built.contents).value, r);
  }

  /** The candidates the preparer hands over are the ones its marker binds. */
  lemma CreatedCandidates(toml: Toml, r: Request)
    requires Create(toml, r).Ready?
    ensures ExpectedCandidates(Create(toml, r).marker) == Some(Create(toml, r).candidates)
  {
    CreateExactly(toml, r);
    var built := BuildCandidate(toml, r);
    BuiltMarkerBinds(r, built.contents, built.receipt);
    BuiltMarkerIsValid(r, built.contents, built.receipt);
    hide ValidMarker, ExpectedCandidates, BuildCandidate, MarkerFor, CandidatePath;
  }
}
