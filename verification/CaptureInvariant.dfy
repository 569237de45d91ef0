/** Every step of a capture transaction keeps the invariant of the Battle history tables. */
module CaptureInvariant {
  import opened Common
  import opened CaptureTables

  /** The row is a capture's, not yet associated. */
  predicate RowOf(row: Evidence, c: Capture) {
    row.state == Accepted && row.ns == c.ns && row.journal == c.fields.journal && row.battle == c.fields.battle
  }

  predicate BattleFresh(battles: seq<Battle>, links: seq<Link>, b: nat)
    requires b < |battles|
  {
    battles[b].state == Uncontested && forall l :: l in links ==> l.battle != b
  }

  /** Every evidence row but the last is linked as it should be; the last is not. */
  predicate LinkedButLast(evidence: seq<Evidence>, links: seq<Link>) {
    && (forall l :: l in links ==> l.evidence < |evidence| - 1)
    && (forall e: nat :: e < |evidence| - 1 && evidence[e].state == Accepted ==> exists l :: l in links && l.evidence == e)
  }

  /** The last evidence row is a capture's and not linked yet; all else is as the invariant asks. */
  predicate Pending(codec: Codec, t: Tables, c: Capture) {
    && |t.evidence| > 0 && RowOf(t.evidence[|t.evidence| - 1], c)
    && LinkedButLast(t.evidence, t.links)
    && AliasTable(t.aliases, t.battles)
    && BattleKeys(t.aliases, t.battles)
    && BlobTable(codec, t.blobs)
    && EvidenceTable(codec, t.evidence, t.blobs)
    && LinkTable(t.evidence, t.battles, t.links)
    && LinkedAliases(t.evidence, t.aliases, t.links)
    && ConflictsCoherent(t.evidence, t.aliases)
    && BatchTable(codec, t.evidence, t.batches)
  }

  /** Every battle is linked as it should be, except that b may be one just opened. */
  predicate BattlesLinkedBut(battles: seq<Battle>, links: seq<Link>, b: nat) {
    forall x: nat :: x < |battles| ==> BattleLinked(battles, links, x) || (x == b && BattleFresh(battles, links, x))
  }

  /** Pending, and battle b is the one to link to. */
  predicate LinkReady(codec: Codec, t: Tables, c: Capture, b: nat) {
    && Pending(codec, t, c)
    && b < |t.battles| && t.battles[b].ns == c.ns
    && HasAliases(t.aliases, t.evidence[|t.evidence| - 1], b)
    && BattlesLinkedBut(t.battles, t.links, b)
  }

  lemma EvidenceGrows(codec: Codec, evidence: seq<Evidence>, row: Evidence, batches: seq<Batch>)
    requires BatchTable(codec, evidence, batches)
    ensures BatchTable(codec, evidence + [row], batches)
  {
    forall b | b in batches
      ensures BatchFits(codec, evidence + [row], b)
    {
      assert BatchFits(codec, evidence, b);
    }
  }

  lemma BlobStored(codec: Codec, blobs: seq<Blob>, c: Capture)
    requires BlobTable(codec, blobs) && c.compressed == codec.compress(c.raw)
    ensures BlobTable(codec, WithBlob(blobs, c).0)
    ensures var (stored, id) := WithBlob(blobs, c); stored[id] == Blob(c.raw, c.compressed)
  {
  }

  lemma RowAppended(codec: Codec, evidence: seq<Evidence>, blobs: seq<Blob>, row: Evidence, stored: seq<Blob>)
    requires EvidenceTable(codec, evidence, blobs) && blobs <= stored && EvidenceFits(codec, row, stored)
    requires forall e :: e in evidence ==> !(e.ns == row.ns && e.raw == row.raw)
    ensures EvidenceTable(codec, evidence + [row], stored)
  {
    var all := evidence + [row];
    forall i | 0 <= i < |all|
      ensures EvidenceFits(codec, all[i], stored)
    {
      if i < |evidence| {
        assert EvidenceFits(codec, evidence[i], blobs);
      }
    }
  }

  /** The tables with the capture's blob and evidence row in place. */
  function Inserted(t: Tables, c: Capture, envelope: Envelope): Tables {
    var (blobs, blob) := WithBlob(t.blobs, c);
    t.(blobs := blobs, evidence := t.evidence + [EvidenceRow(c, envelope, blob)])
  }

  predicate Describes(codec: Codec, c: Capture) {
    codec.fields(c.raw) == Some(c.fields) && c.compressed == codec.compress(c.raw)
  }

  lemma OccurrenceIsNew(codec: Codec, t: Tables, c: Capture)
    requires Inv(codec, t) && Describes(codec, c) && FindOccurrence(t.evidence, c.ns, c.fields.journal, c.raw).None?
    ensures forall e :: e in t.evidence ==> !(e.ns == c.ns && e.raw == c.raw)
  {
    forall e | e in t.evidence
      ensures !(e.ns == c.ns && e.raw == c.raw)
    {
      var i :| 0 <= i < |t.evidence| && t.evidence[i] == e;
      assert EvidenceFits(codec, t.evidence[i], t.blobs);
    }
  }

  lemma RowFrames(evidence: seq<Evidence>, row: Evidence, battles: seq<Battle>, links: seq<Link>, aliases: seq<Alias>)
    requires LinkTable(evidence, battles, links) && EvidenceLinked(evidence, links)
    requires LinkedAliases(evidence, aliases, links) && ConflictsCoherent(evidence, aliases) && row.state == Accepted
    ensures LinkTable(evidence + [row], battles, links) && LinkedButLast(evidence + [row], links)
    ensures LinkedAliases(evidence + [row], aliases, links) && ConflictsCoherent(evidence + [row], aliases)
  {
    hide CoherentConflict, HasAliases;
  }

  lemma InsertingIsPending(codec: Codec, t: Tables, c: Capture, envelope: Envelope)
    requires Inv(codec, t) && Describes(codec, c)
    requires FindOccurrence(t.evidence, c.ns, c.fields.journal, c.raw).None?
    ensures Pending(codec, Inserted(t, c, envelope), c)
  {
    hide AliasTable, BattleKeys, BlobTable, EvidenceTable, LinkTable, EvidenceLinked, BattlesLinked, LinkedAliases, ConflictsCoherent, BatchTable, LinkedButLast;
    var t' := Inserted(t, c, envelope);
    var row := t'.evidence[|t.evidence|];
    OccurrenceIsNew(codec, t, c);
    BlobStored(codec, t.blobs, c);
    RowAppended(codec, t.evidence, t.blobs, row, t'.blobs);
    EvidenceGrows(codec, t.evidence, row, t.batches);
    RowFrames(t.evidence, row, t.battles, t.links, t.aliases);
  }

  // --------------------------------------------------------------- contested

  lemma ContestIsCoherent(aliases: seq<Alias>, c: Capture)
    requires UniqueAliases(aliases) && Decide(aliases, c).Contested?
    ensures CoherentConflict(aliases, c.ns, c.fields.journal, c.fields.battle)
  {
    var byBattle := if c.fields.battle.Some? then FindBattle(aliases, c.ns, BattleId, c.fields.battle.value) else None;
    var byJournal := FindBattle(aliases, c.ns, JournalId, c.fields.journal);
    if byBattle.Some? {
      FindsItsValue(aliases, Alias(c.ns, BattleId, c.fields.battle.value, byBattle.value));
    }
    if byJournal.Some? {
      FindsItsValue(aliases, Alias(c.ns, JournalId, c.fields.journal, byJournal.value));
    }
  }

  /** Marking the last, unlinked row as a conflict disturbs no link, alias or batch. */
  lemma MarkFrames(codec: Codec, t: Tables, evidence: seq<Evidence>)
    requires |t.evidence| > 0 && evidence == MarkEvidence(t.evidence, |t.evidence| - 1)
    requires LinkTable(t.evidence, t.battles, t.links) && LinkedButLast(t.evidence, t.links)
    requires LinkedAliases(t.evidence, t.aliases, t.links)
    ensures LinkTable(evidence, t.battles, t.links) && EvidenceLinked(evidence, t.links)
    ensures LinkedAliases(evidence, t.aliases, t.links)
  {
    hide HasAliases;
    forall l | l in t.links
      ensures evidence[l.evidence] == t.evidence[l.evidence]
    {
    }
  }

  lemma MarkedRowFits(codec: Codec, t: Tables, evidence: seq<Evidence>)
    requires |t.evidence| > 0 && evidence == MarkEvidence(t.evidence, |t.evidence| - 1)
    requires EvidenceTable(codec, t.evidence, t.blobs) && BatchTable(codec, t.evidence, t.batches)
    ensures EvidenceTable(codec, evidence, t.blobs) && BatchTable(codec, evidence, t.batches)
  {
    forall i | 0 <= i < |evidence|
      ensures EvidenceFits(codec, evidence[i], t.blobs)
    {
      assert EvidenceFits(codec, t.evidence[i], t.blobs);
    }
    forall b | b in t.batches
      ensures BatchFits(codec, evidence, b)
    {
      assert BatchFits(codec, t.evidence, b);
    }
  }

  lemma ContestedKeepsInv(codec: Codec, t: Tables, c: Capture)
    requires Pending(codec, t, c) && Decide(t.aliases, c).Contested?
    requires BattlesLinked(t.battles, t.links)
    ensures Inv(codec, Associated(t, c, |t.evidence| - 1))
  {
    var evidence := MarkEvidence(t.evidence, |t.evidence| - 1);
    assert UniqueAliases(t.aliases);
    ContestIsCoherent(t.aliases, c);
    hide CoherentConflict, Decide;
    assert ConflictsCoherent(evidence, t.aliases);
    hide AliasTable, BattleKeys, BlobTable, EvidenceTable, LinkTable, EvidenceLinked, BattlesLinked, LinkedAliases, ConflictsCoherent, BatchTable, LinkedButLast;
    MarkFrames(codec, t, evidence);
    MarkedRowFits(codec, t, evidence);
  }

  // ---------------------------------------------------------------- aliases added

  lemma OneMissing(ns: string, w: (AliasKind, string), aliases: seq<Alias>, b: nat)
    ensures MissingAliases(aliases, ns, [w], b)
         == if OwnedValue(aliases, b, w.0).None? then [Alias(ns, w.0, w.1, b)] else []
  {
    assert [w][..0] == [];
    assert MissingAliases(aliases, ns, [], b) == [];
  }

  lemma TwoMissing(ns: string, v: (AliasKind, string), w: (AliasKind, string), aliases: seq<Alias>, b: nat)
    ensures MissingAliases(aliases, ns, [v, w], b)
         == (if OwnedValue(aliases, b, v.0).None? then [Alias(ns, v.0, v.1, b)] else [])
            + (if OwnedValue(aliases, b, w.0).None? then [Alias(ns, w.0, w.1, b)] else [])
  {
    assert [v, w][..1] == [v];
    OneMissing(ns, v, aliases, b);
  }

  /** Adding one wanted alias that no battle has under this name and b lacks under this kind. */
  lemma AliasAdded(aliases: seq<Alias>, battles: seq<Battle>, a: Alias)
    requires AliasTable(aliases, battles) && a.battle < |battles| && battles[a.battle].ns == a.ns
    requires OwnedValue(aliases, a.battle, a.kind).None?
    requires FindBattle(aliases, a.ns, a.kind, a.value).None?
    ensures AliasTable(aliases + [a], battles)
  {
    UniqueAppend(aliases, a);
  }

  /** What a wanted alias resolves to when the event joins b: nothing, or b itself. */
  lemma JoinResolves(aliases: seq<Alias>, c: Capture, b: nat, w: (AliasKind, string))
    requires UniqueAliases(aliases) && Decide(aliases, c) == Joins(b) && w in WantedAliases(c)
    ensures FindBattle(aliases, c.ns, w.0, w.1) == None || FindBattle(aliases, c.ns, w.0, w.1) == Some(b)
    ensures OwnedValue(aliases, b, w.0).None? ==> FindBattle(aliases, c.ns, w.0, w.1).None?
    ensures OwnedValue(aliases, b, w.0).Some? ==>
      OwnedValue(aliases, b, w.0) == Some(w.1)
  {
    var found := FindBattle(aliases, c.ns, w.0, w.1);
    if found.Some? {
      FindsItsValue(aliases, Alias(c.ns, w.0, w.1, found.value));
    }
  }

  lemma JoinedBattle(aliases: seq<Alias>, battles: seq<Battle>, c: Capture, b: nat)
    requires AliasTable(aliases, battles) && Decide(aliases, c) == Joins(b)
    ensures b < |battles| && battles[b].ns == c.ns
  {
  }

  /** An owned slot of the right value is the wanted alias itself, because a battle has one namespace. */
  lemma OwnedIsWanted(aliases: seq<Alias>, battles: seq<Battle>, b: nat, kind: AliasKind, value: string)
    requires AliasTable(aliases, battles) && b < |battles| && OwnedValue(aliases, b, kind) == Some(value)
    ensures Alias(battles[b].ns, kind, value, b) in aliases
  {
    var a :| a in aliases && a.battle == b && a.kind == kind && a.value == value;
    assert a == Alias(battles[b].ns, kind, value, b);
  }

  lemma WantedAdded(aliases: seq<Alias>, battles: seq<Battle>, ns: string, w: (AliasKind, string), b: nat) returns (all: seq<Alias>)
    requires AliasTable(aliases, battles) && b < |battles| && battles[b].ns == ns
    requires OwnedValue(aliases, b, w.0).None? ==> FindBattle(aliases, ns, w.0, w.1).None?
    requires OwnedValue(aliases, b, w.0).Some? ==> OwnedValue(aliases, b, w.0) == Some(w.1)
    ensures all == aliases + if OwnedValue(aliases, b, w.0).None? then [Alias(ns, w.0, w.1, b)] else []
    ensures AliasTable(all, battles)
    ensures Alias(ns, w.0, w.1, b) in all
  {
    if OwnedValue(aliases, b, w.0).None? {
      all := aliases + [Alias(ns, w.0, w.1, b)];
      AliasAdded(aliases, battles, Alias(ns, w.0, w.1, b));
    } else {
      all := aliases;
      OwnedIsWanted(aliases, battles, b, w.0, w.1);
    }
  }

  /** An alias of one kind says nothing about names and slots of the other. */
  lemma OtherKindUnaffected(aliases: seq<Alias>, a: Alias, ns: string, kind: AliasKind, value: string, b: nat)
    requires UniqueAliases(aliases + [a]) && UniqueAliases(aliases) && a.kind != kind
    ensures FindBattle(aliases + [a], ns, kind, value) == FindBattle(aliases, ns, kind, value)
    ensures OwnedValue(aliases + [a], b, kind) == OwnedValue(aliases, b, kind)
  {
    var found, owned := FindBattle(aliases, ns, kind, value), OwnedValue(aliases, b, kind);
    if found.Some? {
      FindsItsBattle(aliases + [a], Alias(ns, kind, value, found.value));
    }
    if owned.Some? {
      var x :| x in aliases && x.battle == b && x.kind == kind && x.value == owned.value;
      FindsItsValue(aliases + [a], x);
    }
  }

  lemma UniqueOf(aliases: seq<Alias>, battles: seq<Battle>)
    requires AliasTable(aliases, battles)
    ensures UniqueAliases(aliases)
  {
  }

  lemma TwoWantedAdded(aliases: seq<Alias>, battles: seq<Battle>, ns: string, battle: string, journal: string, b: nat)
    returns (all: seq<Alias>)
    requires AliasTable(aliases, battles) && b < |battles| && battles[b].ns == ns
    requires OwnedValue(aliases, b, BattleId).None? ==> FindBattle(aliases, ns, BattleId, battle).None?
    requires OwnedValue(aliases, b, BattleId).Some? ==> OwnedValue(aliases, b, BattleId) == Some(battle)
    requires OwnedValue(aliases, b, JournalId).None? ==> FindBattle(aliases, ns, JournalId, journal).None?
    requires OwnedValue(aliases, b, JournalId).Some? ==> OwnedValue(aliases, b, JournalId) == Some(journal)
    ensures all == aliases + MissingAliases(aliases, ns, [(BattleId, battle), (JournalId, journal)], b)
    ensures AliasTable(all, battles)
    ensures Alias(ns, BattleId, battle, b) in all && Alias(ns, JournalId, journal, b) in all
  {
    hide AliasTable, MissingAliases;
    UniqueOf(aliases, battles);
    TwoMissing(ns, (BattleId, battle), (JournalId, journal), aliases, b);
    var some := WantedAdded(aliases, battles, ns, (BattleId, battle), b);
    UniqueOf(some, battles);
    if OwnedValue(aliases, b, BattleId).None? {
      OtherKindUnaffected(aliases, Alias(ns, BattleId, battle, b), ns, JournalId, journal, b);
    } else {
      assert some == aliases;
    }
    all := WantedAdded(some, battles, ns, (JournalId, journal), b);
    assert all == aliases + MissingAliases(aliases, ns, [(BattleId, battle), (JournalId, journal)], b);
  }

  /** Adding everything the event wants and b lacks keeps the aliases unique and gives b all of it. */
  lemma MissingAdded(aliases: seq<Alias>, battles: seq<Battle>, c: Capture, b: nat)
    requires AliasTable(aliases, battles) && b < |battles| && battles[b].ns == c.ns
    requires forall w :: w in WantedAliases(c) ==>
      && (OwnedValue(aliases, b, w.0).None? ==> FindBattle(aliases, c.ns, w.0, w.1).None?)
      && (OwnedValue(aliases, b, w.0).Some? ==> OwnedValue(aliases, b, w.0) == Some(w.1))
    ensures var all := aliases + MissingAliases(aliases, c.ns, WantedAliases(c), b);
      && AliasTable(all, battles)
      && forall w :: w in WantedAliases(c) ==> Alias(c.ns, w.0, w.1, b) in all
  {
    hide AliasTable, MissingAliases;
    var journal := (JournalId, c.fields.journal);
    assert journal in WantedAliases(c);
    if c.fields.battle.None? {
      assert WantedAliases(c) == [journal];
      OneMissing(c.ns, journal, aliases, b);
      var all := WantedAdded(aliases, battles, c.ns, journal, b);
    } else {
      var battle := (BattleId, c.fields.battle.value);
      assert WantedAliases(c) == [battle, journal];
      assert battle in WantedAliases(c);
      var all := TwoWantedAdded(aliases, battles, c.ns, battle.1, journal.1, b);
    }
  }

  lemma WantedMeansHas(aliases: seq<Alias>, row: Evidence, c: Capture, b: nat)
    requires RowOf(row, c) && forall w :: w in WantedAliases(c) ==> Alias(c.ns, w.0, w.1, b) in aliases
    ensures HasAliases(aliases, row, b)
  {
    assert (JournalId, c.fields.journal) in WantedAliases(c);
    if c.fields.battle.Some? {
      assert (BattleId, c.fields.battle.value) in WantedAliases(c);
    }
  }

  lemma MoreAliasesKeepConflicts(evidence: seq<Evidence>, aliases: seq<Alias>, more: seq<Alias>)
    requires ConflictsCoherent(evidence, aliases) && UniqueAliases(aliases + more)
    ensures ConflictsCoherent(evidence, aliases + more)
  {
    forall e: nat | e < |evidence| && evidence[e].state == AssociationConflict
      ensures CoherentConflict(aliases + more, evidence[e].ns, evidence[e].journal, evidence[e].battle)
    {
      ConflictStaysCoherent(aliases, more, evidence[e].ns, evidence[e].journal, evidence[e].battle);
    }
  }

  // -------------------------------------------------------------------- joining

  lemma MoreAliasesFrame(t: Tables, more: seq<Alias>)
    requires BattleKeys(t.aliases, t.battles) && LinkedAliases(t.evidence, t.aliases, t.links)
    ensures BattleKeys(t.aliases + more, t.battles) && LinkedAliases(t.evidence, t.aliases + more, t.links)
  {
  }

  lemma AllLinkedButNone(battles: seq<Battle>, links: seq<Link>, b: nat)
    requires BattlesLinked(battles, links)
    ensures BattlesLinkedBut(battles, links, b)
  {
    forall x: nat | x < |battles|
      ensures BattleLinked(battles, links, x)
    {
    }
  }

  lemma JoinedAliases(aliases: seq<Alias>, battles: seq<Battle>, c: Capture, b: nat)
    requires AliasTable(aliases, battles) && Decide(aliases, c) == Joins(b)
    ensures b < |battles| && battles[b].ns == c.ns
    ensures var all := aliases + MissingAliases(aliases, c.ns, WantedAliases(c), b);
      && AliasTable(all, battles)
      && forall w :: w in WantedAliases(c) ==> Alias(c.ns, w.0, w.1, b) in all
  {
    UniqueOf(aliases, battles);
    JoinedBattle(aliases, battles, c, b);
    hide AliasTable, Decide;
    forall w | w in WantedAliases(c)
      ensures OwnedValue(aliases, b, w.0).None? ==> FindBattle(aliases, c.ns, w.0, w.1).None?
      ensures OwnedValue(aliases, b, w.0).Some? ==> OwnedValue(aliases, b, w.0) == Some(w.1)
    {
      JoinResolves(aliases, c, b, w);
    }
    MissingAdded(aliases, battles, c, b);
  }

  lemma JoiningIsReady(codec: Codec, t: Tables, c: Capture, b: nat)
    requires Pending(codec, t, c) && BattlesLinked(t.battles, t.links) && Decide(t.aliases, c) == Joins(b)
    ensures LinkReady(codec, t.(aliases := t.aliases + MissingAliases(t.aliases, c.ns, WantedAliases(c), b)), c, b)
  {
    hide AliasTable, BattleKeys, BlobTable, EvidenceTable, LinkTable, EvidenceLinked, BattlesLinked, LinkedAliases, ConflictsCoherent, BatchTable, LinkedButLast, BattlesLinkedBut, Decide, HasAliases, WantedAliases, MissingAliases, RowOf;
    var more := MissingAliases(t.aliases, c.ns, WantedAliases(c), b);
    JoinedAliases(t.aliases, t.battles, c, b);
    UniqueOf(t.aliases + more, t.battles);
    MoreAliasesKeepConflicts(t.evidence, t.aliases, more);
    MoreAliasesFrame(t, more);
    WantedMeansHas(t.aliases + more, t.evidence[|t.evidence| - 1], c, b);
    AllLinkedButNone(t.battles, t.links, b);
  }

  lemma NewBattleOwnsNothing(aliases: seq<Alias>, ns: string, wanted: seq<(AliasKind, string)>, battles: seq<Battle>)
    requires AliasTable(aliases, battles)
    ensures MissingAliases([], ns, wanted, |battles|) == MissingAliases(aliases, ns, wanted, |battles|)
  {
    if wanted != [] {
      NewBattleOwnsNothing(aliases, ns, wanted[..|wanted| - 1], battles);
    }
  }

  lemma OpenedFrames(t: Tables, battle: Battle)
    requires AliasTable(t.aliases, t.battles) && BattlesLinked(t.battles, t.links) && battle.state == Uncontested
    requires LinkTable(t.evidence, t.battles, t.links)
    ensures AliasTable(t.aliases, t.battles + [battle])
    ensures LinkTable(t.evidence, t.battles + [battle], t.links)
    ensures BattlesLinkedBut(t.battles + [battle], t.links, |t.battles|)
  {
    var battles := t.battles + [battle];
    forall x: nat | x < |battles|
      ensures BattleLinked(battles, t.links, x) || (x == |t.battles| && BattleFresh(battles, t.links, x))
    {
      if x < |t.battles| {
        assert BattleLinked(t.battles, t.links, x);
      }
    }
  }

  lemma OpenedAliases(t: Tables, c: Capture)
    requires AliasTable(t.aliases, t.battles) && AliasTable(t.aliases, t.battles + [OpenedBattle(c)])
    requires BattleKeys(t.aliases, t.battles) && Decide(t.aliases, c).Opens?
    ensures var b, battles := |t.battles|, t.battles + [OpenedBattle(c)];
      var all := t.aliases + MissingAliases([], c.ns, WantedAliases(c), b);
      && AliasTable(all, battles) && BattleKeys(all, battles)
      && forall w :: w in WantedAliases(c) ==> Alias(c.ns, w.0, w.1, b) in all
  {
    var b, battles := |t.battles|, t.battles + [OpenedBattle(c)];
    NewBattleOwnsNothing(t.aliases, c.ns, WantedAliases(c), t.battles);
    forall w | w in WantedAliases(c)
      ensures OwnedValue(t.aliases, b, w.0).None?
      ensures FindBattle(t.aliases, c.ns, w.0, w.1).None?
    {
    }
    hide AliasTable, Decide;
    MissingAdded(t.aliases, battles, c, b);
    assert WantedAliases(c)[0] in WantedAliases(c);
  }

  lemma OpeningIsReady(codec: Codec, t: Tables, c: Capture)
    requires Pending(codec, t, c) && BattlesLinked(t.battles, t.links) && Decide(t.aliases, c).Opens?
    ensures var b := |t.battles|;
      LinkReady(codec,
        t.(battles := t.battles + [OpenedBattle(c)],
           aliases := t.aliases + MissingAliases([], c.ns, WantedAliases(c), b)), c, b)
  {
    hide AliasTable, BattleKeys, BlobTable, EvidenceTable, LinkTable, EvidenceLinked, BattlesLinked, LinkedAliases, ConflictsCoherent, BatchTable, LinkedButLast, BattlesLinkedBut, Decide, HasAliases, WantedAliases, MissingAliases, RowOf;
    var b, battles := |t.battles|, t.battles + [OpenedBattle(c)];
    var more := MissingAliases([], c.ns, WantedAliases(c), b);
    OpenedFrames(t, OpenedBattle(c));
    OpenedAliases(t, c);
    UniqueOf(t.aliases + more, battles);
    MoreAliasesKeepConflicts(t.evidence, t.aliases, more);
    MoreAliasesFrame(t, more);
    WantedMeansHas(t.aliases + more, t.evidence[|t.evidence| - 1], c, b);
  }

  // -------------------------------------------------------------------- linking

  /** A linked battle has a canonical link, and only one. */
  lemma FirstLinkIsCanonical(evidence: seq<Evidence>, battles: seq<Battle>, links: seq<Link>, i: nat) returns (k: nat)
    requires LinkTable(evidence, battles, links) && i < |links|
    ensures k <= i && links[k].battle == links[i].battle && links[k].role == Canonical
    ensures forall j :: 0 <= j < k ==> links[j].battle != links[i].battle
    decreases i
  {
    if j :| 0 <= j < i && links[j].battle == links[i].battle {
      k := FirstLinkIsCanonical(evidence, battles, links, j);
    } else {
      k := i;
    }
  }

  lemma LinkAppended(evidence: seq<Evidence>, battles: seq<Battle>, links: seq<Link>, l: Link)
    requires LinkTable(evidence, battles, links)
    requires l.evidence < |evidence| && l.battle < |battles| && evidence[l.evidence].state == Accepted
    requires evidence[l.evidence].ns == battles[l.battle].ns
    requires forall x :: x in links ==> x.evidence < l.evidence
    requires l.role == Canonical <==> forall x :: x in links ==> x.battle != l.battle
    ensures LinkTable(evidence, battles, links + [l])
  {
    var all := links + [l];
    forall i | 0 <= i < |all|
      ensures all[i].role == Canonical <==> forall j :: 0 <= j < i ==> all[j].battle != all[i].battle
    {
      if i < |links| {
        assert all[i] == links[i];
        assert forall j :: 0 <= j < i ==> all[j] == links[j];
      } else {
        assert forall j :: 0 <= j < i ==> all[j] == links[j] && links[j] in links;
      }
    }
  }

  lemma MarkedBattles(evidence: seq<Evidence>, battles: seq<Battle>, links: seq<Link>, aliases: seq<Alias>, b: nat)
    requires LinkTable(evidence, battles, links) && AliasTable(aliases, battles) && BattleKeys(aliases, battles)
    ensures LinkTable(evidence, MarkBattle(battles, b), links)
    ensures AliasTable(aliases, MarkBattle(battles, b)) && BattleKeys(aliases, MarkBattle(battles, b))
  {
  }

  lemma LinkingCoversBattle(battles: seq<Battle>, links: seq<Link>, l: Link, x: nat)
    requires l.battle < |battles| && x < |battles|
    requires BattleLinked(battles, links, x) || (x == l.battle && BattleFresh(battles, links, x))
    requires l.role == Canonical <==> forall y :: y in links ==> y.battle != l.battle
    ensures BattleLinked(if l.role == Canonical then battles else MarkBattle(battles, l.battle), links + [l], x)
  {
    var all := links + [l];
    assert l in all && forall y :: y in all <==> y in links || y == l;
    if BattleLinked(battles, links, x) {
      var y :| y in links && y.battle == x;
      assert y in all;
      if z :| z in links && z.battle == x && z.role == Conflicting {
        assert z in all;
      }
    }
  }

  lemma LinkingCoversBattles(battles: seq<Battle>, links: seq<Link>, l: Link)
    requires l.battle < |battles| && BattlesLinkedBut(battles, links, l.battle)
    requires l.role == Canonical <==> forall x :: x in links ==> x.battle != l.battle
    ensures BattlesLinked(if l.role == Canonical then battles else MarkBattle(battles, l.battle), links + [l])
  {
    var after := if l.role == Canonical then battles else MarkBattle(battles, l.battle);
    forall x: nat | x < |after|
      ensures BattleLinked(after, links + [l], x)
    {
      LinkingCoversBattle(battles, links, l, x);
    }
  }

  lemma LinkingCoversEvidence(t: Tables, l: Link)
    requires |t.evidence| > 0 && l.evidence == |t.evidence| - 1 && LinkedButLast(t.evidence, t.links)
    ensures EvidenceLinked(t.evidence, t.links + [l])
  {
    var all := t.links + [l];
    assert l in all;
    forall e: nat | e < |t.evidence| && t.evidence[e].state == Accepted
      ensures exists x :: x in all && x.evidence == e
    {
      if e < |t.evidence| - 1 {
        var x :| x in t.links && x.evidence == e;
        assert x in all;
      }
    }
  }

  lemma CanonicalMeansLinked(evidence: seq<Evidence>, battles: seq<Battle>, links: seq<Link>, b: nat)
    requires LinkTable(evidence, battles, links)
    ensures CanonicalOf(links, b).None? <==> forall l :: l in links ==> l.battle != b
  {
    if l :| l in links && l.battle == b {
      var i :| 0 <= i < |links| && links[i] == l;
      var k := FirstLinkIsCanonical(evidence, battles, links, i);
      assert links[k] in links;
    }
  }

  /** The new link fits the link table and has its aliases. */
  lemma LinkIsAdded(t: Tables, c: Capture, b: nat) returns (l: Link)
    requires |t.evidence| > 0 && RowOf(t.evidence[|t.evidence| - 1], c) && LinkedButLast(t.evidence, t.links)
    requires b < |t.battles| && t.battles[b].ns == c.ns && HasAliases(t.aliases, t.evidence[|t.evidence| - 1], b)
    requires LinkTable(t.evidence, t.battles, t.links) && LinkedAliases(t.evidence, t.aliases, t.links)
    ensures l == Link(|t.evidence| - 1, b, if CanonicalOf(t.links, b).None? then Canonical else Conflicting)
    ensures l.role == Canonical <==> forall x :: x in t.links ==> x.battle != b
    ensures LinkTable(t.evidence, t.battles, t.links + [l])
    ensures LinkedAliases(t.evidence, t.aliases, t.links + [l])
  {
    l := Link(|t.evidence| - 1, b, if CanonicalOf(t.links, b).None? then Canonical else Conflicting);
    CanonicalMeansLinked(t.evidence, t.battles, t.links, b);
    LinkAppended(t.evidence, t.battles, t.links, l);
  }

  lemma LinkingKeepsInv(codec: Codec, t: Tables, c: Capture, b: nat)
    requires LinkReady(codec, t, c, b)
    ensures Inv(codec, Linked(t, |t.evidence| - 1, b))
  {
    hide AliasTable, BattleKeys, BlobTable, EvidenceTable, LinkTable, EvidenceLinked, BattlesLinked, LinkedAliases, ConflictsCoherent, BatchTable, LinkedButLast, BattlesLinkedBut, HasAliases, RowOf, MarkBattle;
    var l := LinkIsAdded(t, c, b);
    MarkedBattles(t.evidence, t.battles, t.links + [l], t.aliases, b);
    LinkingCoversBattles(t.battles, t.links, l);
    LinkingCoversEvidence(t, l);
  }

  // ------------------------------------------------------------ whole transactions

  lemma AssociatingKeepsInv(codec: Codec, t: Tables, c: Capture)
    requires Pending(codec, t, c) && BattlesLinked(t.battles, t.links)
    ensures Inv(codec, Associated(t, c, |t.evidence| - 1))
  {
    hide Inv, Pending, LinkReady, BattlesLinked, Decide, Linked;
    match Decide(t.aliases, c)
    case Contested => ContestedKeepsInv(codec, t, c);
    case Joins(b) =>
      JoiningIsReady(codec, t, c, b);
      LinkingKeepsInv(codec, t.(aliases := t.aliases + MissingAliases(t.aliases, c.ns, WantedAliases(c), b)), c, b);
    case Opens =>
      var b := |t.battles|;
      OpeningIsReady(codec, t, c);
      LinkingKeepsInv(codec,
        t.(battles := t.battles + [OpenedBattle(c)],
           aliases := t.aliases + MissingAliases([], c.ns, WantedAliases(c), b)), c, b);
  }

  lemma InsertedKeepsInv(codec: Codec, t: Tables, c: Capture, envelope: Envelope)
    requires Inv(codec, t) && Describes(codec, c)
    requires FindOccurrence(t.evidence, c.ns, c.fields.journal, c.raw).None?
    ensures Inv(codec, Associated(Inserted(t, c, envelope), c, |t.evidence|))
  {
    InsertingIsPending(codec, t, c, envelope);
    hide AliasTable, BattleKeys, BlobTable, EvidenceTable, LinkTable, EvidenceLinked, BattlesLinked, LinkedAliases, ConflictsCoherent, BatchTable, Pending, Associated, FindOccurrence;
    AssociatingKeepsInv(codec, Inserted(t, c, envelope), c);
  }

  lemma PersistingKeepsInv(codec: Codec, t: Tables, c: Capture, envelope: Envelope)
    requires Inv(codec, t) && Describes(codec, c)
    ensures Inv(codec, Persisted(t, c, envelope).0)
  {
    hide Inv, Associated, FindOccurrence;
    if FindOccurrence(t.evidence, c.ns, c.fields.journal, c.raw).None? {
      InsertedKeepsInv(codec, t, c, envelope);
    }
  }
}
