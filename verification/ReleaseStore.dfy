/**
The release state store and the discovery run on top of it. File operations may fail, as an oracle
decides, and then have no effect; a crash is an operation that stops. Replacing a file is atomic. The
store's history of a channel is then always a chain of advances.
 */
module ReleaseStore {
  import opened Common
  import opened ReleasePolicy
  import opened ReleaseSelection

  type Document = map<Channel, ChannelState>

  predicate ValidDocument(d: Document) {
    forall c :: c in d ==> d[c].channel == c && ValidState(d[c])
  }

  /**
  A discovered release with its verified evidence: the tag it was found under, whether its manifest
  offers a launcher archive for this build, and the time at which it was evaluated.
   */
  datatype Offer = Offer(manifest: Manifest, receipt: Receipt, tag: Version, hasArchive: bool, now: int)

  predicate Fits(o: Offer, channel: Channel) {
    o.manifest.tag == o.tag && o.manifest.channel == channel && o.hasArchive
  }

  /** The offers that the policy accepts and that fit the channel, in the order they were discovered. */
  function AcceptedOffers(
    anchor: Anchor, offers: seq<Offer>, channel: Channel, installed: Version, previous: Option<ChannelState>): seq<Candidate>
  {
    if offers == [] then []
    else
      var before := AcceptedOffers(anchor, offers[..|offers| - 1], channel, installed, previous);
      var o := offers[|offers| - 1];
      var state := Evaluate(anchor, o.manifest, o.receipt, installed, o.now, previous);
      if state.Some? && Fits(o, channel) then before + [Candidate(o.manifest, o.receipt, o.now, state.value)] else before
  }

  lemma {:induction false} OffersAreAccepted(
    anchor: Anchor, offers: seq<Offer>, channel: Channel, installed: Version, previous: Option<ChannelState>)
    requires forall o :: o in offers ==> Parsed(o.manifest)
    ensures forall c :: c in AcceptedOffers(anchor, offers, channel, installed, previous) ==>
      Accepted(anchor, c, installed, previous) && c.manifest.channel == channel
  {
    hide Evaluate, UniqueSelectors;
    if offers != [] {
      assert offers[|offers| - 1] in offers;
      OffersAreAccepted(anchor, offers[..|offers| - 1], channel, installed, previous);
    }
  }

  /** No offer that the policy accepts and that fits is passed over. */
  lemma {:induction false} AcceptedOffersAreKept(
    anchor: Anchor, offers: seq<Offer>, channel: Channel, installed: Version, previous: Option<ChannelState>, o: Offer)
    requires o in offers && Evaluate(anchor, o.manifest, o.receipt, installed, o.now, previous).Some?
    requires o.manifest.tag == o.tag && o.manifest.channel == channel && o.hasArchive
    ensures Candidate(o.manifest, o.receipt, o.now, Evaluate(anchor, o.manifest, o.receipt, installed, o.now, previous).value)
         in AcceptedOffers(anchor, offers, channel, installed, previous)
  {
    hide Evaluate;
    if o != offers[|offers| - 1] {
      assert offers == offers[..|offers| - 1] + [offers[|offers| - 1]];
      AcceptedOffersAreKept(anchor, offers[..|offers| - 1], channel, installed, previous, o);
    }
  }

  /** Every candidate is an offer that fits. */
  lemma {:induction false} CandidatesAreOffers(
    anchor: Anchor, offers: seq<Offer>, channel: Channel, installed: Version, previous: Option<ChannelState>, c: Candidate)
    requires c in AcceptedOffers(anchor, offers, channel, installed, previous)
    ensures exists o :: o in offers && o.manifest == c.manifest && o.receipt == c.receipt && o.now == c.now
                        && o.manifest.tag == o.tag && o.manifest.channel == channel && o.hasArchive
  {
    hide Evaluate;
    var o, before := offers[|offers| - 1], AcceptedOffers(anchor, offers[..|offers| - 1], channel, installed, previous);
    if c in before {
      CandidatesAreOffers(anchor, offers[..|offers| - 1], channel, installed, previous, c);
      var x :| x in offers[..|offers| - 1] && x.manifest == c.manifest && x.receipt == c.receipt && x.now == c.now
               && x.manifest.tag == x.tag && x.manifest.channel == channel && x.hasArchive;
      assert x in offers;
    } else {
      assert o in offers;
    }
  }

  /**
  What a discovery may find, from the offers alone: an upgrade of the installed version that one of them
  carries, strictly after every other one the policy accepts and that fits.
   */
  ghost predicate Best(
    anchor: Anchor, offers: seq<Offer>, channel: Channel, installed: Version, previous: Option<ChannelState>, c: Candidate)
  {
    && Precedes(Semantic(installed), Semantic(c.manifest.version))
    && (exists o :: o in offers && o.manifest == c.manifest && o.receipt == c.receipt
                    && o.manifest.tag == o.tag && o.manifest.channel == channel && o.hasArchive)
    && forall o :: o in offers && Evaluate(anchor, o.manifest, o.receipt, installed, o.now, previous).Some?
                   && o.manifest.tag == o.tag && o.manifest.channel == channel && o.hasArchive ==>
         o.manifest == c.manifest
         || (o.manifest.sequence < c.manifest.sequence && Precedes(Semantic(o.manifest.version), Semantic(c.manifest.version)))
  }

  lemma DominantIsBest(
    anchor: Anchor, offers: seq<Offer>, channel: Channel, installed: Version, previous: Option<ChannelState>, i: nat)
    requires ValidAnchor(anchor) && forall o :: o in offers ==> Parsed(o.manifest)
    requires previous.Some? ==> ValidState(previous.value)
    requires Dominates(AcceptedOffers(anchor, offers, channel, installed, previous), i)
    ensures i < |AcceptedOffers(anchor, offers, channel, installed, previous)|
    ensures Best(anchor, offers, channel, installed, previous, AcceptedOffers(anchor, offers, channel, installed, previous)[i])
  {
    var cs := AcceptedOffers(anchor, offers, channel, installed, previous);
    OffersAreAccepted(anchor, offers, channel, installed, previous);
    assert i < |cs| && cs[i] in cs;
    CandidatesAreOffers(anchor, offers, channel, installed, previous, cs[i]);
    AcceptedIsUpgrade(anchor, cs[i].manifest, cs[i].receipt, installed, cs[i].now, previous);
    hide Evaluate, Precedes, AcceptedOffers, Dominates, Semantic, ValidState, UniqueSelectors;
    forall o | o in offers && Evaluate(anchor, o.manifest, o.receipt, installed, o.now, previous).Some?
               && o.manifest.tag == o.tag && o.manifest.channel == channel && o.hasArchive
      ensures o.manifest == cs[i].manifest
              || (o.manifest.sequence < cs[i].manifest.sequence && Precedes(Semantic(o.manifest.version), Semantic(cs[i].manifest.version)))
    {
      AcceptedOffersAreKept(anchor, offers, channel, installed, previous, o);
      var c := Candidate(o.manifest, o.receipt, o.now, Evaluate(anchor, o.manifest, o.receipt, installed, o.now, previous).value);
      var j: nat :| j < |cs| && cs[j] == c;
      SelectionDominates(anchor, cs, i, installed, previous, j);
    }
  }

  lemma AcceptedIsUpgrade(anchor: Anchor, m: Manifest, r: Receipt, installed: Version, now: int, previous: Option<ChannelState>)
    requires ValidAnchor(anchor) && (previous.Some? ==> ValidState(previous.value))
    requires Evaluate(anchor, m, r, installed, now, previous).Some?
    ensures Precedes(Semantic(installed), Semantic(m.version))
  {
    hide Evaluate;
    if previous.Some? {
      LaterAcceptance(anchor, m, r, installed, now, previous.value);
    } else {
      FirstAcceptance(anchor, m, r, installed, now);
    }
  }

  /** The document holds the last state of each channel's history, and every history is a chain of advances. */
  predicate HistoryOf(history: map<Channel, seq<ChannelState>>, document: Document) {
    && history.Keys == document.Keys
    && forall c :: c in history ==>
         |history[c]| > 0 && Chain(history[c]) && history[c][|history[c]| - 1] == document[c]
  }

  lemma HistoryGrows(history: map<Channel, seq<ChannelState>>, document: Document, candidate: ChannelState)
    requires HistoryOf(history, document) && ValidDocument(document) && ValidState(candidate)
    requires candidate.channel in document ==> ValidAdvance(document[candidate.channel], candidate)
    ensures var before := if candidate.channel in history then history[candidate.channel] else [];
      HistoryOf(history[candidate.channel := before + [candidate]], document[candidate.channel := candidate])
    ensures ValidDocument(document[candidate.channel := candidate])
  {
    hide ValidState, ValidAdvance;
    var before := if candidate.channel in history then history[candidate.channel] else [];
    ChainGrows(before, candidate);
    hide Chain;
  }

  lemma StoredIsValid(d: Document, channel: Channel)
    requires ValidDocument(d)
    ensures channel in d ==> ValidState(d[channel])
  {
  }

  class ReleaseStateStore {
    var primary: Option<Document>
    var backup: Option<Document>
    var clock: nat
    const faults: nat -> bool
    ghost var history: map<Channel, seq<ChannelState>>

    ghost predicate FaultFree() { forall n: nat :: !faults(n) }

    function Stored(): Document
      reads this
    {
      if primary.Some? then primary.value else map[]
    }

    ghost predicate Valid()
      reads this
    {
      && (primary.None? ==> backup.None?)
      && ValidDocument(Stored())
      && HistoryOf(history, Stored())
    }

    constructor (faults: nat -> bool)
      ensures Valid() && primary.None? && this.faults == faults
    {
      this.faults := faults;
      primary, backup, clock, history := None, None, 0, map[];
    }

    method Io() returns (ok: bool)
      modifies this`clock
      ensures ok == !faults(old(clock))
    {
      ok := !faults(clock);
      clock := clock + 1;
    }

    /** Reads the document; a missing primary beside a backup is refused, not taken for an empty store. */
    method LoadDocument() returns (ok: bool, document: Document)
      requires Valid()
      modifies this`clock
      ensures ok ==> document == Stored()
      ensures FaultFree() ==> ok
    {
      document := map[];
      if primary.None? {
        return backup.None?, document;
      }
      ok := Io();
      document := primary.value;
    }

    /** Writes a temporary file and puts it in the primary's place, keeping the old primary as backup. */
    method WriteAtomically(document: Document) returns (ok: bool)
      requires primary.None? ==> backup.None?
      modifies this`primary, this`backup, this`clock
      ensures primary == if ok then Some(document) else old(primary)
      ensures primary.None? ==> backup.None?
      ensures if ok then backup == old(primary) else backup == old(backup) || backup.None?
      ensures FaultFree() ==> ok
    {
      ok := Io();
      if !ok {
        return;
      }
      if primary.Some? {
        if backup.Some? {
          ok := Io();
          if !ok {
            return;
          }
          backup := None;
        }
        ok := Io();
        if ok {
          primary, backup := Some(document), primary;
        }
      } else {
        ok := Io();
        if ok {
          primary := Some(document);
        }
      }
    }

    /** Stores a channel's next state when it advances the one held; otherwise the store is unchanged. */
    method Advance(candidate: ChannelState) returns (ok: bool)
      requires Valid()
      modifies this
      ensures Valid()
      ensures if ok then primary == Some(old(Stored())[candidate.channel := candidate]) else primary == old(primary)
      ensures ok ==> ValidState(candidate)
      ensures ok && candidate.channel in old(Stored()) ==> ValidAdvance(old(Stored())[candidate.channel], candidate)
      ensures FaultFree() ==>
        (ok <==> ValidState(candidate)
                 && (candidate.channel in old(Stored()) ==> ValidAdvance(old(Stored())[candidate.channel], candidate)))
    {
      hide ValidState, ValidAdvance, HistoryOf, ValidDocument;
      if !ValidState(candidate) {
        return false;
      }
      ok := Io();
      if !ok {
        return;
      }
      var document;
      ok, document := LoadDocument();
      if !ok {
        return;
      }
      if candidate.channel in document && !ValidAdvance(document[candidate.channel], candidate) {
        return false;
      }
      HistoryGrows(history, document, candidate);
      ok := WriteAtomically(document[candidate.channel := candidate]);
      if ok {
        history := history[candidate.channel :=
          (if candidate.channel in history then history[candidate.channel] else []) + [candidate]];
      }
    }

    /**
    One discovery run: evaluates every offer against the stored state, chooses, and advances. When
    nothing fails on disk it succeeds exactly when the accepted offers tell one history: the store never
    rejects what the policy has chosen.
     */
    method Discover(anchor: Anchor, offers: seq<Offer>, channel: Channel, installed: Version)
      returns (found: Option<Candidate>)
      requires Valid() && ValidAnchor(anchor) && forall o :: o in offers ==> Parsed(o.manifest)
      modifies this
      ensures Valid()
      ensures found.Some? ==> channel in Stored() && Stored()[channel] == found.value.state
      ensures found.None? ==> primary == old(primary)
      ensures
        var previous := if channel in old(Stored()) then Some(old(Stored())[channel]) else None;
        var accepted := AcceptedOffers(anchor, offers, channel, installed, previous);
        && (found.Some? ==> exists i: nat :: Dominates(accepted, i) && found == Some(accepted[i]))
        && (found.Some? ==> Best(anchor, offers, channel, installed, previous, found.value))
        && (FaultFree() ==> (found.Some? <==> accepted != [] && OneHistory(accepted)))
    {
      hide Evaluate, ValidState, ValidAdvance, OneHistory, Dominates, HistoryOf, ValidDocument, Best;
      var ok, document := LoadDocument();
      if !ok {
        return None;
      }
      var previous := if channel in document then Some(document[channel]) else None;
      var accepted: seq<Candidate> := [];
      for i := 0 to |offers|
        invariant accepted == AcceptedOffers(anchor, offers[..i], channel, installed, previous)
        invariant unchanged(`primary, `backup, `history)
      {
        var o := offers[i];
        assert offers[..i + 1][..i] == offers[..i];
        var state := Evaluate(anchor, o.manifest, o.receipt, installed, o.now, previous);
        if state.Some? && Fits(o, channel) {
          accepted := accepted + [Candidate(o.manifest, o.receipt, o.now, state.value)];
        }
      }
      assert offers[..|offers|] == offers;
      var chosen := Select(accepted);
      if chosen.None? {
        return None;
      }
      var c := accepted[chosen.value];
      ChosenAdvances(anchor, offers, channel, installed, previous, c);
      StoredIsValid(document, channel);
      DominantIsBest(anchor, offers, channel, installed, previous, chosen.value);
      ok := Advance(c.state);
      return if ok then Some(c) else None;
    }
  }

  lemma ChainGrows(states: seq<ChannelState>, next: ChannelState)
    requires Chain(states) && (states != [] ==> ValidAdvance(states[|states| - 1], next))
    ensures Chain(states + [next])
  {
    hide ValidAdvance;
    var all := states + [next];
    forall i | 0 < i < |all|
      ensures ValidAdvance(all[i - 1], all[i])
    {
      if i < |states| {
        assert ValidAdvance(states[i - 1], states[i]);
      }
    }
  }

  lemma ChosenAdvances(
    anchor: Anchor, offers: seq<Offer>, channel: Channel, installed: Version, previous: Option<ChannelState>, c: Candidate)
    requires ValidAnchor(anchor) && forall o :: o in offers ==> Parsed(o.manifest)
    requires c in AcceptedOffers(anchor, offers, channel, installed, previous)
    ensures ValidState(c.state) && c.state.channel == channel
    ensures previous.Some? ==> ValidAdvance(previous.value, c.state)
  {
    OffersAreAccepted(anchor, offers, channel, installed, previous);
    PolicyImpliesStore(anchor, c.manifest, c.receipt, installed, c.now, previous);
    StateIsForChannel(anchor, c, installed, previous);
    hide Evaluate, ValidState, ValidAdvance;
  }

  lemma StateIsForChannel(anchor: Anchor, c: Candidate, installed: Version, previous: Option<ChannelState>)
    requires Accepted(anchor, c, installed, previous)
    ensures c.state.channel == c.manifest.channel
  {
  }
}
