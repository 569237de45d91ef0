/**
Access-control lists as bytes (sections 2.4.4, 2.4.4.2 and 2.4.5 of MS-DTYP): checking one, and adding
the explicit full grant a token's default list needs for its own user. Arrays are read in bounds only.
 */
module AclGrant {
  import opened Common

  const SECURITY_BYTES := 4096
  const MAXIMUM_ACES := 128
  const GENERIC_ALL := 0x1000_0000

  function U16(d: Bytes, o: nat): (n: nat)
    requires o + 2 <= |d|
    ensures n < 0x1_0000
  {
    d[o] as nat + 0x100 * (d[o + 1] as nat)
  }

  function U32(d: Bytes, o: nat): nat
    requires o + 4 <= |d|
  {
    U16(d, o) + 0x1_0000 * U16(d, o + 2)
  }

  function Le16(n: nat): (b: Bytes)
    requires n < 0x1_0000
    ensures |b| == 2 && U16(b, 0) == n
  {
    [(n % 0x100) as Byte, (n / 0x100) as Byte]
  }

  function Le32(n: nat): (b: Bytes)
    requires n < 0x1_0000_0000
    ensures |b| == 4 && U32(b, 0) == n
  {
    var low, high := Le16(n % 0x1_0000), Le16(n / 0x1_0000);
    assert (low + high)[0] == low[0] && (low + high)[1] == low[1] && (low + high)[2] == high[0] && (low + high)[3] == high[1];
    low + high
  }

  // ---------------------------------------------------------------- well-formedness

  /** So many entries lie one after the other from the offset on, each within the list. */
  predicate EntriesFit(d: Bytes, o: nat, count: nat)
    requires o <= |d|
    decreases count
  {
    count == 0 ||
    (&& o + 4 <= |d|
     && var bytes := U16(d, o + 2);
        && bytes >= 4 && bytes % 4 == 0 && bytes <= |d| - o
        && EntriesFit(d, o + bytes, count - 1))
  }

  function Entries(d: Bytes, o: nat, count: nat): (r: seq<Bytes>)
    requires o <= |d| && EntriesFit(d, o, count)
    ensures |r| == count
    decreases count
  {
    if count == 0 then []
    else
      var bytes := U16(d, o + 2);
      [d[o..o + bytes]] + Entries(d, o + bytes, count - 1)
  }

  function EntriesEnd(d: Bytes, o: nat, count: nat): (e: nat)
    requires o <= |d| && EntriesFit(d, o, count)
    ensures o <= e <= |d| && (count > 0 ==> e >= o + 4)
    decreases count
  {
    if count == 0 then o else EntriesEnd(d, o + U16(d, o + 2), count - 1)
  }

  predicate HeaderHolds(d: Bytes) {
    8 <= |d| <= SECURITY_BYTES && (d[0] == 2 || d[0] == 4) && U16(d, 2) == |d| && U16(d, 4) <= MAXIMUM_ACES
  }

  predicate ValidAcl(d: Bytes) { HeaderHolds(d) && EntriesFit(d, 8, U16(d, 4)) }

  function AclEntries(d: Bytes): seq<Bytes>
    requires ValidAcl(d)
  {
    Entries(d, 8, U16(d, 4))
  }

  datatype AclState = Empty | Populated

  /** Checks a list; None when it is refused. */
  method AclBytes(data: array?<Byte>) returns (state: Option<AclState>)
    ensures state.Some? <==> data != null && ValidAcl(data[..])
    ensures state.Some? ==> (state.value.Populated? <==> AclEntries(data[..]) != [])
  {
    if data == null || data.Length < 8 || data.Length > SECURITY_BYTES || (data[0] != 2 && data[0] != 4)
       || U16(data[..], 2) != data.Length
    {
      return None;
    }
    var count, offset := U16(data[..], 4), 8;
    if count > MAXIMUM_ACES {
      return None;
    }
    for i := 0 to count
      invariant 8 <= offset <= data.Length
      invariant EntriesFit(data[..], 8, count) <==> EntriesFit(data[..], offset, count - i)
    {
      if offset > data.Length - 4 {
        return None;
      }
      var bytes := U16(data[..], offset + 2);
      if bytes < 4 || bytes % 4 != 0 || bytes > data.Length - offset {
        return None;
      }
      offset := offset + bytes;
    }
    return Some(if count == 0 then Empty else Populated);
  }

  // ------------------------------------------------------------------ the grant

  predicate ValidSid(user: Bytes) {
    12 <= |user| <= 68 && user[0] == 1 && 0 < user[1] <= 15 && |user| == 8 + 4 * (user[1] as nat)
  }

  /** The explicit, not inherited, allow entry giving this user everything. */
  function GrantEntry(user: Bytes): (r: Bytes)
    requires |user| <= 68
    ensures |r| == 8 + |user|
  {
    [0, 0] + Le16(8 + |user|) + Le32(GENERIC_ALL) + user
  }

  /** The used part of the list with the grant appended, and the header that says so. */
  function Grown(acl: Bytes, user: Bytes, end: nat, count: nat): Bytes
    requires 8 <= end <= |acl| && ValidSid(user) && end + 8 + |user| <= SECURITY_BYTES && count < MAXIMUM_ACES
  {
    acl[..2] + Le16(end + 8 + |user|) + Le16(count + 1) + acl[6..end] + GrantEntry(user)
  }

  /** The list with the user's grant: itself if it has one, else grown by it where there is room. */
  function WithGrant(acl: Bytes, user: Bytes): Option<Bytes> {
    if !ValidAcl(acl) || AclEntries(acl) == [] || !ValidSid(user) then None
    else if GrantEntry(user) in AclEntries(acl) then Some(acl)
    else
      var count := U16(acl, 4);
      var end := EntriesEnd(acl, 8, count);
      if count < MAXIMUM_ACES && end + 8 + |user| <= SECURITY_BYTES then Some(Grown(acl, user, end, count)) else None
  }

  /** What the code compares field by field is equality with the grant. */
  lemma GrantFields(e: Bytes, user: Bytes)
    requires |e| >= 4 && U16(e, 2) == |e| && |user| <= 68
    ensures e == GrantEntry(user) <==>
      && e[0] == 0 && e[1] == 0 && |e| == 8 + |user| && U32(e, 4) == GENERIC_ALL && e[8..] == user
  {
    var g := GrantEntry(user);
    assert g[..2] == [0, 0] && g[2..4] == Le16(8 + |user|) && g[4..8] == Le32(GENERIC_ALL) && g[8..] == user;
    assert g[2] == g[2..4][0] && g[3] == g[2..4][1];
    assert g[4] == g[4..8][0] && g[5] == g[4..8][1] && g[6] == g[4..8][2] && g[7] == g[4..8][3];
    assert U16(g, 2) == 8 + |user| && U32(g, 4) == GENERIC_ALL;
    if |e| == 8 + |user| && e[0] == 0 && e[1] == 0 && U32(e, 4) == GENERIC_ALL && e[8..] == user {
      SameU16(e, g, 2);
      SameU16(e, g, 4);
      SameU16(e, g, 6);
      assert forall i :: 8 <= i < |e| ==> e[i] == e[8..][i - 8] && g[i] == g[8..][i - 8];
    }
  }

  lemma SameU16(a: Bytes, b: Bytes, o: nat)
    requires o + 2 <= |a| && o + 2 <= |b| && U16(a, o) % 0x1_0000 == U16(b, o) % 0x1_0000
    ensures a[o] == b[o] && a[o + 1] == b[o + 1]
  {
    assert U16(a, o) % 0x100 == a[o] as nat && U16(b, o) % 0x100 == b[o] as nat;
  }

  /** The walk has passed i entries, none of them the grant. */
  predicate Walked(d: Bytes, count: nat, i: nat, end: nat, grant: Bytes) {
    && i <= count && 8 <= end <= |d|
    && EntriesFit(d, 8, count) && EntriesFit(d, end, count - i)
    && EntriesEnd(d, 8, count) == EntriesEnd(d, end, count - i)
    && (grant in Entries(d, 8, count) <==> grant in Entries(d, end, count - i))
  }

  lemma WalkStarts(d: Bytes, count: nat, grant: Bytes)
    requires 8 <= |d| && EntriesFit(d, 8, count)
    ensures Walked(d, count, 0, 8, grant)
  {
  }

  lemma WalkStep(d: Bytes, count: nat, i: nat, end: nat, grant: Bytes)
    requires Walked(d, count, i, end, grant) && i < count
    ensures end + 4 <= |d| && 4 <= U16(d, end + 2) <= |d| - end
    ensures var e := d[end..end + U16(d, end + 2)];
      && (e == grant ==> grant in Entries(d, 8, count))
      && (e != grant ==> Walked(d, count, i + 1, end + U16(d, end + 2), grant))
  {
    var bytes := U16(d, end + 2);
    assert Entries(d, end, count - i) == [d[end..end + bytes]] + Entries(d, end + bytes, count - i - 1);
  }

  /** Compares one entry with the grant, field by field. */
  method EntryIsGrant(acl: array<Byte>, user: array<Byte>, end: nat, bytes: nat) returns (same: bool)
    requires end + bytes <= acl.Length && bytes >= 4 && bytes == U16(acl[..], end + 2) && ValidSid(user[..])
    ensures same <==> acl[..][end..end + bytes] == GrantEntry(user[..])
  {
    hide GrantEntry, U16;
    GrantAt(acl[..], end, bytes, user[..]);
    same := acl[end] == 0 && acl[end + 1] == 0 && bytes == 8 + user.Length && U32(acl[..], end + 4) == GENERIC_ALL
      && acl[end + 8..end + 8 + user.Length] == user[..];
    if bytes == 8 + user.Length {
      assert acl[end + 8..end + 8 + user.Length] == acl[..][end + 8..end + 8 + user.Length];
    }
  }

  /** Walks the entries up to the user's grant, or to their end. */
  method FindGrant(acl: array<Byte>, user: array<Byte>) returns (found: bool, end: nat)
    requires ValidAcl(acl[..]) && ValidSid(user[..])
    ensures found <==> GrantEntry(user[..]) in AclEntries(acl[..])
    ensures !found ==> end == EntriesEnd(acl[..], 8, U16(acl[..], 4))
  {
    hide GrantEntry, U16, Walked, EntriesFit, Entries, EntriesEnd;
    ghost var d, grant := acl[..], GrantEntry(user[..]);
    var count := U16(acl[..], 4);
    end := 8;
    WalkStarts(d, count, grant);
    hide ValidAcl;
    for i := 0 to count
      invariant Walked(d, count, i, end, grant)
    {
      WalkStep(d, count, i, end, grant);
      var bytes := U16(acl[..], end + 2);
      found := EntryIsGrant(acl, user, end, bytes);
      if found {
        return;
      }
      end := end + bytes;
    }
    WalkEnds(d, count, end, grant);
    found := false;
  }

  lemma WalkEnds(d: Bytes, count: nat, end: nat, grant: Bytes)
    requires Walked(d, count, count, end, grant)
    ensures EntriesFit(d, 8, count) && grant !in Entries(d, 8, count) && end == EntriesEnd(d, 8, count)
  {
  }

  /** The comparison made at an entry is equality of the entry with the grant. */
  lemma GrantAt(d: Bytes, o: nat, bytes: nat, user: Bytes)
    requires o + bytes <= |d| && bytes >= 4 && bytes == U16(d, o + 2) && ValidSid(user)
    ensures d[o..o + bytes] == GrantEntry(user) <==>
      && d[o] == 0 && d[o + 1] == 0 && bytes == 8 + |user| && U32(d, o + 4) == GENERIC_ALL
      && d[o + 8..o + 8 + |user|] == user
  {
    hide GrantEntry;
    var e := d[o..o + bytes];
    EntryFields(d, o, bytes);
    GrantFields(e, user);
    if bytes == 8 + |user| {
      assert e[8..] == d[o + 8..o + 8 + |user|];
    }
  }

  /**
  Adds the grant unless it is there, and answers with bytes of its own; null is a refusal. The closing
  check of the result never refuses.
   */
  method UserDefaultDacl(acl: array?<Byte>, user: array?<Byte>) returns (result: array?<Byte>)
    ensures acl == null || user == null ==> result == null
    ensures acl != null && user != null ==> (result == null <==> WithGrant(acl[..], user[..]).None?)
    ensures result != null ==>
      acl != null && user != null && fresh(result) && Some(result[..]) == WithGrant(acl[..], user[..])
  {
    var state := AclBytes(acl);
    if state != Some(Populated) {
      return null;
    }
    if user == null || user.Length < 12 || user.Length > 68 || user[0] != 1 || user[1] == 0 || user[1] > 15
       || user.Length != 8 + 4 * (user[1] as nat)
    {
      return null;
    }
    var found, end := FindGrant(acl, user);
    hide GrantEntry, Grown, EntriesFit, Entries, EntriesEnd;
    if found {
      result := Clone(acl);
      return;
    }
    var count := U16(acl[..], 4);
    if count >= MAXIMUM_ACES || end + 8 + user.Length > SECURITY_BYTES {
      return null;
    }
    result := AppendGrant(acl, user, end, count);
    GrantKeepsEntries(acl[..], user[..]);
    state := AclBytes(result);
    if state != Some(Populated) {
      result := null;
    }
  }

  method Clone(data: array<Byte>) returns (copy: array<Byte>)
    ensures fresh(copy) && copy[..] == data[..]
  {
    copy := new Byte[data.Length];
    forall i | 0 <= i < data.Length {
      copy[i] := data[i];
    }
  }

  function Spliced(s: Bytes, at: nat, bytes: Bytes): Bytes
    requires at + |bytes| <= |s|
  {
    s[..at] + bytes + s[at + |bytes|..]
  }

  /** Copies bytes into a buffer, leaving the rest of it alone. */
  method CopyInto(buffer: array<Byte>, at: nat, bytes: Bytes)
    requires at + |bytes| <= buffer.Length
    modifies buffer
    ensures buffer[..] == Spliced(old(buffer[..]), at, bytes)
  {
    forall i | 0 <= i < |bytes| {
      buffer[at + i] := bytes[i];
    }
  }

  lemma SpliceBetween(before: Bytes, gone: Bytes, after: Bytes, bytes: Bytes)
    requires |gone| == |bytes|
    ensures Spliced(before + gone + after, |before|, bytes) == before + bytes + after
  {
  }

  /** The copies of AppendGrant, one after the other, make the grown list. */
  lemma CopiesMakeGrown(blank: Bytes, acl: Bytes, user: Bytes, end: nat, count: nat)
    requires 8 <= end <= |acl| && ValidSid(user) && end + 8 + |user| <= SECURITY_BYTES && count < MAXIMUM_ACES
    requires |blank| == end + 8 + |user|
    ensures var total := end + 8 + |user|;
      var kept := Spliced(Spliced(Spliced(blank, 0, acl[..end]), 2, Le16(total)), 4, Le16(count + 1));
      && Spliced(Spliced(Spliced(Spliced(kept, end, [0, 0]), end + 2, Le16(8 + |user|)), end + 4, Le32(GENERIC_ALL)), end + 8, user)
         == Grown(acl, user, end, count)
  {
    var total := end + 8 + |user|;
    var kept := Spliced(Spliced(Spliced(blank, 0, acl[..end]), 2, Le16(total)), 4, Le16(count + 1));
    var header := acl[..2] + Le16(total) + Le16(count + 1) + acl[6..end];
    HeaderCopied(blank, acl, end, Le16(total), Le16(count + 1));
    var tail := blank[end..];
    hide Spliced, Le16, Le32;
    GrantCopied(header, tail, user);
    assert Grown(acl, user, end, count) == header + GrantEntry(user);
  }

  lemma HeaderCopied(blank: Bytes, acl: Bytes, end: nat, size: Bytes, number: Bytes)
    requires 8 <= end <= |acl| && end <= |blank| && |size| == 2 && |number| == 2
    ensures Spliced(Spliced(Spliced(blank, 0, acl[..end]), 2, size), 4, number)
         == acl[..2] + size + number + acl[6..end] + blank[end..]
  {
    var tail := blank[end..];
    assert Spliced(blank, 0, acl[..end]) == acl[..2] + acl[2..4] + (acl[4..end] + tail);
    SpliceBetween(acl[..2], acl[2..4], acl[4..end] + tail, size);
    assert acl[..2] + size + (acl[4..end] + tail) == (acl[..2] + size) + acl[4..6] + (acl[6..end] + tail);
    SpliceBetween(acl[..2] + size, acl[4..6], acl[6..end] + tail, number);
    assert acl[..2] + size + number + (acl[6..end] + tail) == acl[..2] + size + number + acl[6..end] + tail;
  }

  lemma GrantCopied(header: Bytes, tail: Bytes, user: Bytes)
    requires ValidSid(user) && |tail| == 8 + |user|
    ensures var end := |header|;
      Spliced(Spliced(Spliced(Spliced(header + tail, end, [0, 0]), end + 2, Le16(8 + |user|)), end + 4, Le32(GENERIC_ALL)), end + 8, user)
      == header + GrantEntry(user)
  {
    var size, mask := Le16(8 + |user|), Le32(GENERIC_ALL);
    hide Spliced, Le16, Le32;
    assert header + tail == header + tail[..2] + tail[2..];
    SpliceBetween(header, tail[..2], tail[2..], [0, 0]);
    var a := header + [0, 0];
    assert a + tail[2..] == a + tail[2..4] + tail[4..];
    SpliceBetween(a, tail[2..4], tail[4..], size);
    var b := a + size;
    assert b + tail[4..] == b + tail[4..8] + tail[8..];
    SpliceBetween(b, tail[4..8], tail[8..], mask);
    var c := b + mask;
    assert c + tail[8..] == c + tail[8..] + [];
    SpliceBetween(c, tail[8..], [], user);
    assert c + user + [] == header + ([0, 0] + size + mask + user);
  }

  /** Writes the kept entries, the new header and the grant into a new buffer. */
  method AppendGrant(acl: array<Byte>, user: array<Byte>, end: nat, count: nat) returns (result: array<Byte>)
    requires 8 <= end <= acl.Length && ValidSid(user[..]) && end + 8 + user.Length <= SECURITY_BYTES && count < MAXIMUM_ACES
    ensures fresh(result) && result[..] == Grown(acl[..], user[..], end, count)
  {
    hide Spliced, Grown, Le16, Le32;
    var entryBytes := 8 + user.Length;
    var total := end + entryBytes;
    result := new Byte[total];
    ghost var blank := result[..];
    assert acl[..][..end] == acl[..end];
    CopyInto(result, 0, acl[..end]);
    CopyInto(result, 2, Le16(total));
    CopyInto(result, 4, Le16(count + 1));
    CopyInto(result, end, [0, 0]);
    CopyInto(result, end + 2, Le16(entryBytes));
    CopyInto(result, end + 4, Le32(GENERIC_ALL));
    CopyInto(result, end + 8, user[..]);
    CopiesMakeGrown(blank, acl[..], user[..], end, count);
  }

  lemma EntryFields(d: Bytes, o: nat, bytes: nat)
    requires o + bytes <= |d| && bytes >= 4 && bytes == U16(d, o + 2)
    ensures var e := d[o..o + bytes];
      e[0] == d[o] && e[1] == d[o + 1] && U16(e, 2) == |e| && (bytes >= 8 ==> U32(e, 4) == U32(d, o + 4))
  {
  }

  // --------------------------------------------------------------- preservation

  predicate Agree(d: Bytes, d': Bytes, from: nat, to: nat)
    requires to <= |d| && to <= |d'|
  {
    forall i :: from <= i < to ==> d[i] == d'[i]
  }

  /** Entries are determined by the bytes they span. */
  lemma {:induction false} EntriesCarryOver(d: Bytes, d': Bytes, o: nat, count: nat)
    requires o <= |d| && EntriesFit(d, o, count)
    requires EntriesEnd(d, o, count) <= |d'| && Agree(d, d', o, EntriesEnd(d, o, count))
    ensures EntriesFit(d', o, count)
    ensures Entries(d', o, count) == Entries(d, o, count) && EntriesEnd(d', o, count) == EntriesEnd(d, o, count)
    decreases count
  {
    if count == 0 {
      hide U16, Agree;
    } else {
      var bytes := U16(d, o + 2);
      assert o + bytes <= EntriesEnd(d, o, count);
      FirstCarriesOver(d, d', o, bytes, EntriesEnd(d, o, count));
      assert EntriesEnd(d, o + bytes, count - 1) == EntriesEnd(d, o, count);
      assert Entries(d, o, count) == [d[o..o + bytes]] + Entries(d, o + bytes, count - 1);
      hide U16, Agree, Entries, EntriesFit, EntriesEnd;
      EntriesCarryOver(d, d', o + bytes, count - 1);
      EntriesUnfold(d', o, count);
    }
  }

  lemma FirstCarriesOver(d: Bytes, d': Bytes, o: nat, bytes: nat, end: nat)
    requires 4 <= bytes && o + bytes <= end <= |d| && end <= |d'| && Agree(d, d', o, end)
    ensures U16(d', o + 2) == U16(d, o + 2) && d'[o..o + bytes] == d[o..o + bytes] && Agree(d, d', o + bytes, end)
  {
  }

  lemma {:induction false} EntriesExtend(d: Bytes, o: nat, count: nat)
    requires o <= |d| && EntriesFit(d, o, count) && EntriesFit(d, EntriesEnd(d, o, count), 1)
    ensures EntriesFit(d, o, count + 1)
    ensures Entries(d, o, count + 1) == Entries(d, o, count) + Entries(d, EntriesEnd(d, o, count), 1)
    decreases count
  {
    if count > 0 {
      EntriesExtend(d, o + U16(d, o + 2), count - 1);
    }
  }

  /** The bytes of the grown list, part by part. */
  lemma GrownParts(acl: Bytes, user: Bytes, end: nat, count: nat)
    requires 8 <= end <= |acl| && ValidSid(user) && end + 8 + |user| <= SECURITY_BYTES && count < MAXIMUM_ACES
    ensures var r := Grown(acl, user, end, count);
      && |r| == end + 8 + |user| && r[0] == acl[0] && U16(r, 2) == |r| && U16(r, 4) == count + 1
      && r[8..end] == acl[8..end] && r[end..] == GrantEntry(user)
      && U16(r, end + 2) == 8 + |user|
  {
    var total := end + 8 + |user|;
    var g := GrantEntry(user);
    var r := Grown(acl, user, end, count);
    assert r[2..4] == Le16(total) && r[4..6] == Le16(count + 1) && r[end..] == g && g[2..4] == Le16(8 + |user|);
    assert r[2] == r[2..4][0] && r[3] == r[2..4][1] && r[4] == r[4..6][0] && r[5] == r[4..6][1];
    assert r[end + 2] == g[2] == g[2..4][0] && r[end + 3] == g[3] == g[2..4][1];
  }

  lemma GrownEntries(acl: Bytes, user: Bytes, end: nat, count: nat)
    requires ValidAcl(acl) && ValidSid(user) && count == U16(acl, 4) && end == EntriesEnd(acl, 8, count)
    requires end + 8 + |user| <= SECURITY_BYTES && count < MAXIMUM_ACES
    ensures var r := Grown(acl, user, end, count);
      ValidAcl(r) && r[0] == acl[0] && AclEntries(r) == AclEntries(acl) + [GrantEntry(user)]
  {
    GrownParts(acl, user, end, count);
    hide Grown, GrantEntry, U16, Entries, EntriesFit, EntriesEnd;
    var r := Grown(acl, user, end, count);
    assert Agree(acl, r, 8, end) by {
      assert forall i :: 8 <= i < end ==> acl[i] == acl[8..end][i - 8] && r[i] == r[8..end][i - 8];
    }
    EntriesCarryOver(acl, r, 8, count);
    OneEntry(r, end, user);
    EntriesExtend(r, 8, count);
  }

  lemma OneEntry(r: Bytes, end: nat, user: Bytes)
    requires ValidSid(user) && |r| == end + 8 + |user| && r[end..] == GrantEntry(user) && U16(r, end + 2) == 8 + |user|
    ensures EntriesFit(r, end, 1) && Entries(r, end, 1) == [GrantEntry(user)]
  {
    hide GrantEntry, U16;
    var bytes := 8 + |user|;
    assert bytes % 4 == 0;
    assert r[end..end + bytes] == r[end..];
    assert EntriesFit(r, end + bytes, 0) && Entries(r, end + bytes, 0) == [];
  }

  /**
  Every accepted list keeps all its entries in order, gains at most the one grant, ends up holding it,
  and is a populated list that the check accepts.
   */
  lemma GrantKeepsEntries(acl: Bytes, user: Bytes)
    requires WithGrant(acl, user).Some?
    ensures var r := WithGrant(acl, user).value;
      && ValidAcl(r) && r[0] == acl[0]
      && GrantEntry(user) in AclEntries(r)
      && AclEntries(r) == AclEntries(acl) + if GrantEntry(user) in AclEntries(acl) then [] else [GrantEntry(user)]
  {
    hide Grown, GrantEntry, EntriesFit, Entries, EntriesEnd;
    if GrantEntry(user) !in AclEntries(acl) {
      GrownEntries(acl, user, EntriesEnd(acl, 8, U16(acl, 4)), U16(acl, 4));
      assert (AclEntries(acl) + [GrantEntry(user)])[|AclEntries(acl)|] == GrantEntry(user);
    }
  }

  /** Applying the grant twice is applying it once. */
  lemma GrantIsIdempotent(acl: Bytes, user: Bytes)
    requires WithGrant(acl, user).Some?
    ensures WithGrant(WithGrant(acl, user).value, user) == WithGrant(acl, user)
  {
    GrantKeepsEntries(acl, user);
    hide GrantEntry, EntriesFit, Entries;
  }

  /** A populated list is refused only for want of room: 128 entries already, or too few bytes left. */
  lemma GrantRefusedOnlyWhenFull(acl: Bytes, user: Bytes)
    requires ValidAcl(acl) && AclEntries(acl) != [] && ValidSid(user)
    ensures WithGrant(acl, user).None? <==>
      && GrantEntry(user) !in AclEntries(acl)
      && (|AclEntries(acl)| == MAXIMUM_ACES
          || 8 + Used(AclEntries(acl)) + |GrantEntry(user)| > SECURITY_BYTES)
  {
    UsedIsEnd(acl, 8, U16(acl, 4));
  }

  function Used(entries: seq<Bytes>): nat {
    if entries == [] then 0 else |entries[0]| + Used(entries[1..])
  }

  lemma {:induction false} UsedIsEnd(d: Bytes, o: nat, count: nat)
    requires o <= |d| && EntriesFit(d, o, count)
    ensures EntriesEnd(d, o, count) == o + Used(Entries(d, o, count))
    decreases count
  {
    if count > 0 {
      UsedIsEnd(d, o + U16(d, o + 2), count - 1);
      assert Entries(d, o, count)[1..] == Entries(d, o + U16(d, o + 2), count - 1);
    }
  }

  // ------------------------------------------------------------ how a list is built

  /** One entry by itself: at least its header, in whole words, as long as it says. */
  predicate EntryHolds(e: Bytes) { 4 <= |e| && |e| % 4 == 0 && e[2] as nat + 256 * (e[3] as nat) == |e| }

  function Concat(entries: seq<Bytes>): Bytes { if entries == [] then [] else entries[0] + Concat(entries[1..]) }

  /** The entries one after the other from a place on, and unused bytes behind them. */
  predicate LaidAt(d: Bytes, o: nat, entries: seq<Bytes>, unused: Bytes) {
    o <= |d| && d[o..] == Concat(entries) + unused && forall e :: e in entries ==> EntryHolds(e)
  }

  /** A header of either revision that tells length and count, the entries one after the other, and unused bytes. */
  predicate BuiltOf(d: Bytes, entries: seq<Bytes>, unused: Bytes) {
    && 8 <= |d| <= 4096 && (d[0] == 2 || d[0] == 4)
    && d[2] as nat + 256 * (d[3] as nat) == |d|
    && d[4] as nat + 256 * (d[5] as nat) == |entries| <= 128
    && LaidAt(d, 8, entries, unused)
  }

  lemma EntriesUnfold(d: Bytes, o: nat, count: nat)
    requires o + 4 <= |d| && count > 0 && U16(d, o + 2) >= 4 && U16(d, o + 2) % 4 == 0 && U16(d, o + 2) <= |d| - o
    requires EntriesFit(d, o + U16(d, o + 2), count - 1)
    ensures EntriesFit(d, o, count)
    ensures Entries(d, o, count) == [d[o..o + U16(d, o + 2)]] + Entries(d, o + U16(d, o + 2), count - 1)
    ensures EntriesEnd(d, o, count) == EntriesEnd(d, o + U16(d, o + 2), count - 1)
  {
  }

  lemma LaidFirst(d: Bytes, o: nat, e: Bytes, rest: seq<Bytes>, unused: Bytes)
    requires LaidAt(d, o, [e] + rest, unused)
    ensures o + |e| <= |d| && d[o..o + |e|] == e && LaidAt(d, o + |e|, rest, unused)
    ensures |e| >= 4 && |e| % 4 == 0 && U16(d, o + 2) == |e|
  {
    var list := [e] + rest;
    assert e in list && EntryHolds(e) && (forall x :: x in rest ==> x in list);
    assert list[1..] == rest && Concat(list) == e + Concat(rest);
    hide Concat;
    hide EntryHolds;
    FirstPiece(d, o, e, Concat(rest) + unused);
  }

  lemma FirstPiece(d: Bytes, o: nat, e: Bytes, more: Bytes)
    requires o <= |d| && |e| >= 4 && d[o..] == e + more
    ensures o + |e| <= |d| && d[o..o + |e|] == e && d[o + |e|..] == more && d[o + 2] == e[2] && d[o + 3] == e[3]
  {
    assert |d| - o == |e| + |more|;
    assert forall i :: 0 <= i < |e| + |more| ==> d[o + i] == d[o..][i] == (e + more)[i];
  }

  lemma LaidMore(d: Bytes, o: nat, bytes: nat, rest: seq<Bytes>, unused: Bytes)
    requires 4 <= bytes && o + bytes <= |d| && bytes % 4 == 0 && U16(d, o + 2) == bytes
    requires LaidAt(d, o + bytes, rest, unused)
    ensures LaidAt(d, o, [d[o..o + bytes]] + rest, unused)
  {
    var e := d[o..o + bytes];
    assert e[2] == d[o + 2] && e[3] == d[o + 3];
    assert EntryHolds(e);
    assert ([e] + rest)[1..] == rest && Concat([e] + rest) == e + Concat(rest);
    hide Concat;
    assert d[o..] == e + d[o + bytes..];
    assert d[o..] == e + Concat(rest) + unused;
  }

  lemma {:induction false} EntriesAsBuilt(d: Bytes, o: nat, entries: seq<Bytes>, unused: Bytes)
    requires o <= |d| && LaidAt(d, o, entries, unused)
    ensures EntriesFit(d, o, |entries|) && Entries(d, o, |entries|) == entries
    decreases |entries|
  {
    hide U16, LaidAt;
    if entries != [] {
      hide Entries, EntriesFit, EntriesEnd;
      var e, rest := entries[0], entries[1..];
      assert entries == [e] + rest;
      LaidFirst(d, o, e, rest, unused);
      EntriesAsBuilt(d, o + |e|, rest, unused);
      EntriesUnfold(d, o, |entries|);
    }
  }

  lemma {:induction false} EntriesAsRead(d: Bytes, o: nat, count: nat)
    requires o <= |d| && EntriesFit(d, o, count)
    ensures LaidAt(d, o, Entries(d, o, count), d[EntriesEnd(d, o, count)..])
    decreases count
  {
    if count > 0 {
      hide LaidAt, Entries, EntriesEnd;
      var bytes := U16(d, o + 2);
      assert 4 <= bytes && o + bytes <= |d| && bytes % 4 == 0 && EntriesFit(d, o + bytes, count - 1);
      hide U16, EntriesFit;
      EntriesUnfold(d, o, count);
      EntriesAsRead(d, o + bytes, count - 1);
      LaidMore(d, o, bytes, Entries(d, o + bytes, count - 1), d[EntriesEnd(d, o, count)..]);
    }
  }

  /** A list is accepted exactly when it is built of well-formed entries, and then those are its entries. */
  lemma ListsAreBuilt(d: Bytes)
    ensures ValidAcl(d) <==> exists entries, unused :: BuiltOf(d, entries, unused)
    ensures forall entries, unused :: BuiltOf(d, entries, unused) ==> ValidAcl(d) && AclEntries(d) == entries
  {
    forall entries, unused | BuiltOf(d, entries, unused)
      ensures ValidAcl(d) && AclEntries(d) == entries
    {
      EntriesAsBuilt(d, 8, entries, unused);
    }
    if ValidAcl(d) {
      EntriesAsRead(d, 8, U16(d, 4));
      assert BuiltOf(d, AclEntries(d), d[EntriesEnd(d, 8, U16(d, 4))..]);
    }
  }

  /** A user's identifier: revision one and as many words of sub-authorities, one to fifteen, as it says. */
  lemma IdentifiersAre(user: Bytes)
    ensures ValidSid(user) <==> exists n: nat :: 1 <= n <= 15 && |user| == 8 + 4 * n && user[0] == 1 && user[1] as nat == n
  {
    if ValidSid(user) {
      var n := user[1] as nat;
      assert 1 <= n <= 15 && |user| == 8 + 4 * n && user[0] == 1 && user[1] as nat == n;
    }
  }

  // --------------------------------------------------------- borrowed pointers

  const POINTER_BYTES := 8
  const UINT64_LIMIT := 0x1_0000_0000_0000_0000
  const UINT32_LIMIT := 0x1_0000_0000

  /** The checks on a borrowed pointer before it is read, in 64-bit arithmetic. */
  predicate SecurityRange(basis: nat, returned: nat, pointer: nat, lower: nat, bytes: nat)
    requires basis < UINT64_LIMIT && pointer < UINT64_LIMIT
    requires returned < UINT32_LIMIT && lower < UINT32_LIMIT && bytes < UINT32_LIMIT
  {
    && bytes >= 8 && returned <= SECURITY_BYTES + POINTER_BYTES && returned >= bytes && pointer >= basis
    && var offset := (UINT64_LIMIT + pointer - basis) % UINT64_LIMIT;
       var room := (UINT32_LIMIT + returned - bytes) % UINT32_LIMIT;
       && offset >= lower && offset <= room
       && basis <= UINT64_LIMIT - 1 - returned
  }

  /** They hold exactly when the bytes read lie in the returned buffer behind its header and nothing wraps around. */
  lemma RangeIsContainment(basis: nat, returned: nat, pointer: nat, lower: nat, bytes: nat)
    requires basis < UINT64_LIMIT && pointer < UINT64_LIMIT
    requires returned < UINT32_LIMIT && lower < UINT32_LIMIT && bytes < UINT32_LIMIT
    ensures SecurityRange(basis, returned, pointer, lower, bytes) <==>
      && 8 <= bytes && returned <= SECURITY_BYTES + POINTER_BYTES
      && basis + lower <= pointer && pointer + bytes <= basis + returned < UINT64_LIMIT
  {
    if pointer >= basis && returned >= bytes {
      assert (UINT64_LIMIT + pointer - basis) % UINT64_LIMIT == pointer - basis;
      assert (UINT32_LIMIT + returned - bytes) % UINT32_LIMIT == returned - bytes;
    }
  }
}
