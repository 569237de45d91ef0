/**
The Battle history tables, what one transaction does to them, and the invariant every transaction
keeps. Identities are the tuples they are hashed from; rows are addressed by their insertion index.
No uniqueness constraint of the schema is assumed: uniqueness is proved from the code.
 */
module CaptureTables {
  import opened Common

  datatype AliasKind = BattleId | JournalId

  /** What an event's exact bytes say; the last three are optional in the event. */
  datatype Fields = Fields(
    timestampText: string, timestamp: int, journal: string, battle: Option<string>, battleType: Option<string>,
    session: Option<string>, source: Option<string>, modVersion: Option<string>)

  datatype Envelope = Envelope(source: string, session: string, modVersion: string, batchId: string, events: seq<Bytes>)

  /** How bytes are read: an envelope's contents, an event's fields (None when it is malformed), its compressed form. */
  datatype Codec = Codec(envelope: Bytes -> Envelope, fields: Bytes -> Option<Fields>, compress: Bytes -> Bytes)

  datatype Capture = Capture(ns: string, raw: Bytes, compressed: Bytes, fields: Fields)

  datatype EvidenceState = Accepted | AssociationConflict

  datatype Evidence = Evidence(
    ns: string, raw: Bytes, compressed: Bytes, source: string, modVersion: string, session: string,
    timestampText: string, timestamp: int, journal: string, battle: Option<string>, blob: nat, state: EvidenceState)

  datatype Blob = Blob(raw: Bytes, compressed: Bytes)

  datatype BattleState = Uncontested | CaptureConflict

  datatype Battle = Battle(
    ns: string, keyKind: AliasKind, keyValue: string, captured: int, battleType: Option<string>, state: BattleState)

  datatype Alias = Alias(ns: string, kind: AliasKind, value: string, battle: nat)

  datatype Role = Canonical | Conflicting

  datatype Link = Link(evidence: nat, battle: nat, role: Role)

  datatype Disposition = FirstSeen | ExactRetry

  datatype Receipt = Receipt(ordinal: nat, evidence: nat, disposition: Disposition)

  datatype Batch = Batch(
    ns: string, source: string, session: string, batchId: string, exact: Bytes, accepted: nat, receipts: seq<Receipt>)

  datatype Tables = Tables(
    evidence: seq<Evidence>, blobs: seq<Blob>, battles: seq<Battle>, aliases: seq<Alias>, links: seq<Link>,
    batches: seq<Batch>)

  const EMPTY := Tables([], [], [], [], [], [])

  // ----------------------------------------------------------------- queries

  function FirstIndex<T>(rows: seq<T>, p: T -> bool): (r: Option<nat>)
    ensures r.Some? ==> r.value < |rows| && p(rows[r.value])
    ensures r.None? ==> forall x :: x in rows ==> !p(x)
  {
    if rows == [] then None
    else if p(rows[0]) then Some(0)
    else
      var rest := FirstIndex(rows[1..], p);
      if rest.None? then None else Some(rest.value + 1)
  }

  function FindBattle(aliases: seq<Alias>, ns: string, kind: AliasKind, value: string): (r: Option<nat>)
    ensures r.Some? ==> Alias(ns, kind, value, r.value) in aliases
    ensures r.None? ==> forall a :: a in aliases ==> !(a.ns == ns && a.kind == kind && a.value == value)
  {
    var i := FirstIndex(aliases, (a: Alias) => a.ns == ns && a.kind == kind && a.value == value);
    if i.None? then None else Some(aliases[i.value].battle)
  }

  function OwnedValue(aliases: seq<Alias>, battle: nat, kind: AliasKind): (r: Option<string>)
    ensures r.Some? ==> exists a :: a in aliases && a.battle == battle && a.kind == kind && a.value == r.value
    ensures r.None? ==> forall a :: a in aliases ==> !(a.battle == battle && a.kind == kind)
  {
    var i := FirstIndex(aliases, (a: Alias) => a.battle == battle && a.kind == kind);
    if i.None? then None else Some(aliases[i.value].value)
  }

  function FindOccurrence(evidence: seq<Evidence>, ns: string, journal: string, raw: Bytes): (r: Option<nat>)
    ensures r.Some? ==>
      r.value < |evidence| && evidence[r.value].ns == ns && evidence[r.value].journal == journal && evidence[r.value].raw == raw
    ensures r.None? ==> forall e :: e in evidence ==> !(e.ns == ns && e.journal == journal && e.raw == raw)
  {
    FirstIndex(evidence, (e: Evidence) => e.ns == ns && e.journal == journal && e.raw == raw)
  }

  function FindBlob(blobs: seq<Blob>, raw: Bytes): (r: Option<nat>)
    ensures r.Some? ==> r.value < |blobs| && blobs[r.value].raw == raw
    ensures r.None? ==> forall b :: b in blobs ==> b.raw != raw
  {
    FirstIndex(blobs, (b: Blob) => b.raw == raw)
  }

  function FindBatch(batches: seq<Batch>, ns: string, source: string, session: string, batchId: string): (r: Option<nat>)
    ensures r.Some? ==> r.value < |batches| && SameBatch(batches[r.value], ns, source, session, batchId)
    ensures r.None? ==> forall b :: b in batches ==> !SameBatch(b, ns, source, session, batchId)
  {
    FirstIndex(batches, (b: Batch) => SameBatch(b, ns, source, session, batchId))
  }

  predicate SameBatch(b: Batch, ns: string, source: string, session: string, batchId: string) {
    b.ns == ns && b.source == source && b.session == session && b.batchId == batchId
  }

  function CanonicalOf(links: seq<Link>, battle: nat): (r: Option<Link>)
    ensures r.Some? ==> r.value in links && r.value.battle == battle && r.value.role == Canonical
    ensures r.None? ==> forall l :: l in links ==> !(l.battle == battle && l.role == Canonical)
  {
    var i := FirstIndex(links, (l: Link) => l.battle == battle && l.role == Canonical);
    if i.None? then None else Some(links[i.value])
  }

  function LinkOf(links: seq<Link>, evidence: nat): (r: Option<Link>)
    ensures r.Some? ==> r.value in links && r.value.evidence == evidence
    ensures r.None? ==> forall l :: l in links ==> l.evidence != evidence
  {
    var i := FirstIndex(links, (l: Link) => l.evidence == evidence);
    if i.None? then None else Some(links[i.value])
  }

  function Count(links: seq<Link>, battle: nat, role: Role): nat {
    if links == [] then 0
    else
      var last := links[|links| - 1];
      Count(links[..|links| - 1], battle, role) + (if last.battle == battle && last.role == role then 1 else 0)
  }

  // ------------------------------------------------------------ associating a battle

  /** The aliases an event asks for, in the order the source tries them. */
  function WantedAliases(c: Capture): seq<(AliasKind, string)> {
    (if c.fields.battle.Some? then [(BattleId, c.fields.battle.value)] else []) + [(JournalId, c.fields.journal)]
  }

  predicate Disagrees(aliases: seq<Alias>, battle: nat, kind: AliasKind, value: Option<string>) {
    value.Some? && OwnedValue(aliases, battle, kind).Some? && OwnedValue(aliases, battle, kind) != value
  }

  datatype Association = Contested | Joins(battle: nat) | Opens

  /** Which battle an event belongs to, decided from the aliases alone. */
  function Decide(aliases: seq<Alias>, c: Capture): Association {
    var byBattle := if c.fields.battle.Some? then FindBattle(aliases, c.ns, BattleId, c.fields.battle.value) else None;
    var byJournal := FindBattle(aliases, c.ns, JournalId, c.fields.journal);
    if byBattle.Some? && byJournal.Some? && byBattle != byJournal then Contested
    else if byBattle.None? && byJournal.None? then Opens
    else
      var b := if byBattle.Some? then byBattle.value else byJournal.value;
      if Disagrees(aliases, b, BattleId, c.fields.battle) || Disagrees(aliases, b, JournalId, Some(c.fields.journal))
      then Contested
      else Joins(b)
  }

  /** The wanted aliases of kinds the battle does not own yet, as rows. */
  function MissingAliases(aliases: seq<Alias>, ns: string, wanted: seq<(AliasKind, string)>, battle: nat): seq<Alias> {
    if wanted == [] then []
    else
      var w := wanted[|wanted| - 1];
      MissingAliases(aliases, ns, wanted[..|wanted| - 1], battle)
      + (if OwnedValue(aliases, battle, w.0).None? then [Alias(ns, w.0, w.1, battle)] else [])
  }

  function MarkEvidence(evidence: seq<Evidence>, e: nat): seq<Evidence> {
    if e < |evidence| then evidence[e := evidence[e].(state := AssociationConflict)] else evidence
  }

  function MarkBattle(battles: seq<Battle>, b: nat): seq<Battle> {
    if b < |battles| then battles[b := battles[b].(state := CaptureConflict)] else battles
  }

  /** Links evidence to a battle: the first capture of a battle is canonical, any other one contests it. */
  function Linked(t: Tables, e: nat, b: nat): Tables {
    if CanonicalOf(t.links, b).None? then t.(links := t.links + [Link(e, b, Canonical)])
    else t.(links := t.links + [Link(e, b, Conflicting)], battles := MarkBattle(t.battles, b))
  }

  function OpenedBattle(c: Capture): Battle {
    var w := WantedAliases(c)[0];
    Battle(c.ns, w.0, w.1, c.fields.timestamp, c.fields.battleType, Uncontested)
  }

  /** The effect of associating one event's evidence; a contested event changes only its own state. */
  function Associated(t: Tables, c: Capture, e: nat): Tables {
    match Decide(t.aliases, c)
    case Contested => t.(evidence := MarkEvidence(t.evidence, e))
    case Joins(b) => Linked(t.(aliases := t.aliases + MissingAliases(t.aliases, c.ns, WantedAliases(c), b)), e, b)
    case Opens =>
      var b := |t.battles|;
      Linked(
        t.(battles := t.battles + [OpenedBattle(c)],
           aliases := t.aliases + MissingAliases([], c.ns, WantedAliases(c), b)),
        e, b)
  }

  // ----------------------------------------------------------- persisting captures

  function WithBlob(blobs: seq<Blob>, c: Capture): (r: (seq<Blob>, nat))
    ensures r.1 < |r.0| && r.0[r.1].raw == c.raw && blobs <= r.0
  {
    var found := FindBlob(blobs, c.raw);
    if found.Some? then (blobs, found.value) else (blobs + [Blob(c.raw, c.compressed)], |blobs|)
  }

  function OwnOr(own: Option<string>, fallback: string): string { if own.Some? then own.value else fallback }

  function EvidenceRow(c: Capture, envelope: Envelope, blob: nat): Evidence {
    Evidence(
      c.ns, c.raw, c.compressed,
      OwnOr(c.fields.source, envelope.source), OwnOr(c.fields.modVersion, envelope.modVersion),
      OwnOr(c.fields.session, envelope.session),
      c.fields.timestampText, c.fields.timestamp, c.fields.journal, c.fields.battle, blob, Accepted)
  }

  /** The tables after one capture, the evidence its receipt names, and how it was disposed of. */
  function Persisted(t: Tables, c: Capture, envelope: Envelope): (Tables, nat, Disposition) {
    var existing := FindOccurrence(t.evidence, c.ns, c.fields.journal, c.raw);
    if existing.Some? then (t, existing.value, ExactRetry)
    else
      var (blobs, blob) := WithBlob(t.blobs, c);
      var e := |t.evidence|;
      (Associated(t.(blobs := blobs, evidence := t.evidence + [EvidenceRow(c, envelope, blob)]), c, e), e, FirstSeen)
  }

  function PersistedAll(t: Tables, captures: seq<Capture>, envelope: Envelope): (r: (Tables, seq<Receipt>))
    ensures |r.1| == |captures|
  {
    if captures == [] then (t, [])
    else
      var n := |captures| - 1;
      var (before, receipts) := PersistedAll(t, captures[..n], envelope);
      var (after, e, disposition) := Persisted(before, captures[n], envelope);
      (after, receipts + [Receipt(n, e, disposition)])
  }

  // ---------------------------------------------------------------- invariant

  predicate SameName(a: Alias, b: Alias) { a.ns == b.ns && a.kind == b.kind && a.value == b.value }

  predicate SameSlot(a: Alias, b: Alias) { a.battle == b.battle && a.kind == b.kind }

  /** No two alias rows share a name, and no battle owns two aliases of one kind. */
  predicate UniqueAliases(aliases: seq<Alias>) {
    forall i, j :: 0 <= i < j < |aliases| ==> !SameName(aliases[i], aliases[j]) && !SameSlot(aliases[i], aliases[j])
  }

  predicate AliasTable(aliases: seq<Alias>, battles: seq<Battle>) {
    && UniqueAliases(aliases)
    && forall a :: a in aliases ==> a.battle < |battles| && battles[a.battle].ns == a.ns
  }

  /** Every battle owns the alias its key was made from. */
  predicate BattleKeys(aliases: seq<Alias>, battles: seq<Battle>) {
    forall b: nat :: b < |battles| ==> Alias(battles[b].ns, battles[b].keyKind, battles[b].keyValue, b) in aliases
  }

  predicate BlobTable(codec: Codec, blobs: seq<Blob>) {
    forall b :: b in blobs ==> b.compressed == codec.compress(b.raw)
  }

  /** A row says what its bytes say, and its blob holds those bytes. */
  predicate EvidenceFits(codec: Codec, row: Evidence, blobs: seq<Blob>) {
    && codec.fields(row.raw).Some?
    && row.compressed == codec.compress(row.raw)
    && row.blob < |blobs| && blobs[row.blob] == Blob(row.raw, row.compressed)
    && var f := codec.fields(row.raw).value;
       && row.journal == f.journal && row.battle == f.battle
       && row.timestampText == f.timestampText && row.timestamp == f.timestamp
       && (f.source.Some? ==> row.source == f.source.value)
       && (f.modVersion.Some? ==> row.modVersion == f.modVersion.value)
       && (f.session.Some? ==> row.session == f.session.value)
  }

  predicate EvidenceTable(codec: Codec, evidence: seq<Evidence>, blobs: seq<Blob>) {
    && (forall i :: 0 <= i < |evidence| ==> EvidenceFits(codec, evidence[i], blobs))
    && (forall i, j :: 0 <= i < j < |evidence| ==> !(evidence[i].ns == evidence[j].ns && evidence[i].raw == evidence[j].raw))
  }

  /** Links are in evidence order, and a link is canonical exactly when it is its battle's first. */
  predicate LinkTable(evidence: seq<Evidence>, battles: seq<Battle>, links: seq<Link>) {
    && (forall l :: l in links ==>
          && l.evidence < |evidence| && l.battle < |battles|
          && evidence[l.evidence].state == Accepted && evidence[l.evidence].ns == battles[l.battle].ns)
    && (forall i, j :: 0 <= i < j < |links| ==> links[i].evidence < links[j].evidence)
    && (forall i :: 0 <= i < |links| ==> (links[i].role == Canonical <==> OpensBattle(links, i)))
  }

  /** No earlier link is to the same battle. */
  predicate OpensBattle(links: seq<Link>, i: nat)
    requires i < |links|
  {
    forall j :: 0 <= j < i ==> links[j].battle != links[i].battle
  }

  predicate EvidenceLinked(evidence: seq<Evidence>, links: seq<Link>) {
    forall e: nat :: e < |evidence| && evidence[e].state == Accepted ==> exists l :: l in links && l.evidence == e
  }

  predicate BattleLinked(battles: seq<Battle>, links: seq<Link>, b: nat)
    requires b < |battles|
  {
    && (exists l :: l in links && l.battle == b)
    && (battles[b].state == CaptureConflict <==> exists l :: l in links && l.battle == b && l.role == Conflicting)
  }

  predicate BattlesLinked(battles: seq<Battle>, links: seq<Link>) {
    forall b: nat :: b < |battles| ==> BattleLinked(battles, links, b)
  }

  predicate HasAliases(aliases: seq<Alias>, row: Evidence, battle: nat) {
    && Alias(row.ns, JournalId, row.journal, battle) in aliases
    && (row.battle.Some? ==> Alias(row.ns, BattleId, row.battle.value, battle) in aliases)
  }

  predicate LinkedAliases(evidence: seq<Evidence>, aliases: seq<Alias>, links: seq<Link>) {
    forall l :: l in links ==> l.evidence < |evidence| && HasAliases(aliases, evidence[l.evidence], l.battle)
  }

  /**
  A recorded association conflict can still be explained by the aliases: the event's two names belong
  to different battles, or one name's battle owns another value of the other, unresolved, name.
   */
  predicate CoherentConflict(aliases: seq<Alias>, ns: string, journal: string, battle: Option<string>) {
    battle.Some? &&
    var byJournal, byBattle := FindBattle(aliases, ns, JournalId, journal), FindBattle(aliases, ns, BattleId, battle.value);
    if byJournal.Some? && byBattle.Some? then byJournal != byBattle
    else if byJournal.Some? then Disagrees(aliases, byJournal.value, BattleId, battle)
    else if byBattle.Some? then Disagrees(aliases, byBattle.value, JournalId, Some(journal))
    else false
  }

  predicate ConflictsCoherent(evidence: seq<Evidence>, aliases: seq<Alias>) {
    forall e: nat :: e < |evidence| && evidence[e].state == AssociationConflict ==>
      CoherentConflict(aliases, evidence[e].ns, evidence[e].journal, evidence[e].battle)
  }

  predicate BatchFits(codec: Codec, evidence: seq<Evidence>, batch: Batch) {
    var envelope := codec.envelope(batch.exact);
    && SameBatch(batch, batch.ns, envelope.source, envelope.session, envelope.batchId)
    && |batch.receipts| == |envelope.events| == batch.accepted
    && forall i :: 0 <= i < |batch.receipts| ==>
         var r := batch.receipts[i];
         r.ordinal == i && r.evidence < |evidence|
         && evidence[r.evidence].ns == batch.ns && evidence[r.evidence].raw == envelope.events[i]
  }

  predicate BatchTable(codec: Codec, evidence: seq<Evidence>, batches: seq<Batch>) {
    && (forall b :: b in batches ==> BatchFits(codec, evidence, b))
    && (forall i, j :: 0 <= i < j < |batches| ==>
          !SameBatch(batches[i], batches[j].ns, batches[j].source, batches[j].session, batches[j].batchId))
  }

  predicate Inv(codec: Codec, t: Tables) {
    && AliasTable(t.aliases, t.battles)
    && BattleKeys(t.aliases, t.battles)
    && BlobTable(codec, t.blobs)
    && EvidenceTable(codec, t.evidence, t.blobs)
    && LinkTable(t.evidence, t.battles, t.links)
    && EvidenceLinked(t.evidence, t.links)
    && BattlesLinked(t.battles, t.links)
    && LinkedAliases(t.evidence, t.aliases, t.links)
    && ConflictsCoherent(t.evidence, t.aliases)
    && BatchTable(codec, t.evidence, t.batches)
  }

  // -------------------------------------------------------------- alias lemmas

  lemma FindsItsBattle(aliases: seq<Alias>, a: Alias)
    requires UniqueAliases(aliases) && a in aliases
    ensures FindBattle(aliases, a.ns, a.kind, a.value) == Some(a.battle)
  {
    var r := FindBattle(aliases, a.ns, a.kind, a.value);
    var i :| 0 <= i < |aliases| && aliases[i] == a;
    var j :| 0 <= j < |aliases| && aliases[j] == Alias(a.ns, a.kind, a.value, r.value);
  }

  lemma FindsItsValue(aliases: seq<Alias>, a: Alias)
    requires UniqueAliases(aliases) && a in aliases
    ensures OwnedValue(aliases, a.battle, a.kind) == Some(a.value)
  {
    var r := OwnedValue(aliases, a.battle, a.kind);
    var x :| x in aliases && x.battle == a.battle && x.kind == a.kind && x.value == r.value;
    var i :| 0 <= i < |aliases| && aliases[i] == a;
    var j :| 0 <= j < |aliases| && aliases[j] == x;
    assert SameSlot(a, x);
  }

  /** A recorded conflict stays explained however the aliases grow. */
  lemma ConflictStaysCoherent(aliases: seq<Alias>, more: seq<Alias>, ns: string, journal: string, battle: Option<string>)
    requires UniqueAliases(aliases + more) && CoherentConflict(aliases, ns, journal, battle)
    ensures CoherentConflict(aliases + more, ns, journal, battle)
  {
    var all := aliases + more;
    assert UniqueAliases(aliases) by {
      forall i, j | 0 <= i < j < |aliases|
        ensures !SameName(aliases[i], aliases[j]) && !SameSlot(aliases[i], aliases[j])
      {
        assert all[i] == aliases[i] && all[j] == aliases[j];
      }
    }
    var byJournal, byBattle := FindBattle(aliases, ns, JournalId, journal), FindBattle(aliases, ns, BattleId, battle.value);
    if byJournal.Some? {
      FindsItsBattle(all, Alias(ns, JournalId, journal, byJournal.value));
      if byBattle.Some? {
        FindsItsBattle(all, Alias(ns, BattleId, battle.value, byBattle.value));
      } else {
        SlotStaysTaken(aliases, more, byJournal.value, BattleId, battle.value, ns);
      }
    } else {
      FindsItsBattle(all, Alias(ns, BattleId, battle.value, byBattle.value));
      SlotStaysTaken(aliases, more, byBattle.value, JournalId, journal, ns);
    }
  }

  /** A battle that owns another value of a kind never comes to be found by this value. */
  lemma SlotStaysTaken(aliases: seq<Alias>, more: seq<Alias>, b: nat, kind: AliasKind, value: string, ns: string)
    requires UniqueAliases(aliases) && UniqueAliases(aliases + more) && Disagrees(aliases, b, kind, Some(value))
    ensures FindBattle(aliases + more, ns, kind, value) != Some(b)
    ensures Disagrees(aliases + more, b, kind, Some(value))
  {
    var all := aliases + more;
    var a :| a in aliases && a.battle == b && a.kind == kind && a.value == OwnedValue(aliases, b, kind).value;
    FindsItsValue(all, a);
    if FindBattle(all, ns, kind, value) == Some(b) {
      FindsItsValue(all, Alias(ns, kind, value, b));
    }
  }

  lemma UniqueAppend(aliases: seq<Alias>, a: Alias)
    requires UniqueAliases(aliases)
    requires forall x :: x in aliases ==> !SameName(x, a) && !SameSlot(x, a)
    ensures UniqueAliases(aliases + [a])
  {
    var all := aliases + [a];
    forall i, j | 0 <= i < j < |all|
      ensures !SameName(all[i], all[j]) && !SameSlot(all[i], all[j])
    {
      assert all[i] == aliases[i];
      if j < |aliases| {
        assert all[j] == aliases[j];
      }
    }
  }
}
