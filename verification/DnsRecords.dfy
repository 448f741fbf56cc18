/** One DNS zone: what `syncZone` of the two DNS clients does to its list of records. */
module DnsRecords {
  import opened Text

  datatype Record = Record(id: nat, name: string, typ: string, content: string)

  /** The records of a zone in listing order. */
  type Zone = seq<Record>

  /** What a client writes and recognises. Cloudflare compares content and type before an update, NetBird the content
      alone; both delete only records with the target's content and type. */
  datatype Policy = Policy(target: string, recordType: string, checksType: bool)

  function Cloudflare(target: string, targetIsIp: bool): Policy {
    Policy(target, if targetIsIp then "A" else "CNAME", true)
  }

  function NetBird(target: string): Policy {
    Policy(target, "A", false)
  }

  predicate NeedsUpdate(p: Policy, r: Record) {
    r.content != p.target || (p.checksType && r.typ != p.recordType)
  }

  predicate Owned(p: Policy, r: Record) {
    r.content == p.target && r.typ == p.recordType
  }

  function IdsOf(zone: Zone): set<nat> {
    set r | r in zone :: r.id
  }

  function NamesOf(zone: Zone): set<string> {
    set r | r in zone :: r.name
  }

  ghost predicate UniqueIds(zone: Zone) {
    forall i, j :: 0 <= i < j < |zone| ==> zone[i].id != zone[j].id
  }

  /** `k` is where the first record with its name is. */
  predicate IsFirst(zone: Zone, k: nat)
    requires k < |zone|
  {
    forall j :: 0 <= j < k ==> zone[j].name != zone[k].name
  }

  function Rewritten(p: Policy, r: Record): Record {
    r.(content := p.target, typ := p.recordType)
  }

  /** The zone once the hosts in `updated` have been taken care of: of each, the first record only. */
  function Retarget(p: Policy, zone: Zone, updated: set<string>): (z: Zone)
    ensures |z| == |zone|
    ensures forall k :: 0 <= k < |zone| ==> z[k] == RetargetAt(p, zone, updated, k)
  {
    seq(|zone|, k requires 0 <= k < |zone| => RetargetAt(p, zone, updated, k))
  }

  function RetargetAt(p: Policy, zone: Zone, updated: set<string>, k: nat): Record
    requires k < |zone|
  {
    if zone[k].name in updated && IsFirst(zone, k) && NeedsUpdate(p, zone[k]) then Rewritten(p, zone[k]) else zone[k]
  }

  /** The zone without the records whose ids are in `gone`. */
  function Drop(zone: Zone, gone: set<nat>): Zone {
    if zone == [] then []
    else Drop(zone[..|zone| - 1], gone) + if zone[|zone| - 1].id in gone then [] else [zone[|zone| - 1]]
  }

  /** A record with this id takes new values, in place. */
  function Replace(zone: Zone, r: Record): (z: Zone)
    ensures |z| == |zone|
    ensures forall k :: 0 <= k < |zone| ==> z[k] == if zone[k].id == r.id then r else zone[k]
  {
    seq(|zone|, k requires 0 <= k < |zone| => if zone[k].id == r.id then r else zone[k])
  }

  predicate Stale(p: Policy, r: Record, active: set<string>, ignored: set<string>) {
    r.name !in active && r.name !in ignored && Owned(p, r)
  }

  function StaleIds(p: Policy, zone: Zone, active: set<string>, ignored: set<string>, cleanup: bool): set<nat> {
    if cleanup then set r | r in zone && Stale(p, r, active, ignored) :: r.id else {}
  }

  /** New records for hosts that had none. */
  ghost predicate Created(p: Policy, zone: Zone, created: Zone) {
    && UniqueIds(created) && IdsOf(created) !! IdsOf(zone)
    && (forall i, j :: 0 <= i < j < |created| ==> created[i].name != created[j].name)
    && (forall r <- created :: Owned(p, r) && r.name !in NamesOf(zone))
  }

  /** What a sync of one zone may leave: `updated` are the hosts seen to, `gone` the records deleted, `created` the new
      ones. When no call fails these are all that were asked for. */
  ghost predicate Outcome(p: Policy, before: Zone, after: Zone, active: set<string>, ignored: set<string>,
      cleanup: bool,
      updated: set<string>, gone: set<nat>, created: Zone, faultFree: bool)
  {
    && updated <= active
    && gone <= StaleIds(p, before, active, ignored, cleanup)
    && Created(p, before, created) && NamesOf(created) <= active
    && after == Drop(Retarget(p, before, updated), gone) + created
    && (faultFree ==>
          && updated == active
          && gone == StaleIds(p, before, active, ignored, cleanup)
          && NamesOf(created) == active - NamesOf(before))
  }

  ghost predicate ZoneSynced(p: Policy, before: Zone, after: Zone, active: set<string>, ignored: set<string>,
      cleanup: bool,
      faultFree: bool)
  {
    exists updated: set<string>, gone: set<nat>, created: Zone ::
      Outcome(p, before, after, active, ignored, cleanup, updated, gone, created, faultFree)
  }

  /** No host lacks a record, each host's first record has the target's content, and its type where types are compared,
      and nothing is left to delete. */
  ghost predicate Settled(p: Policy, zone: Zone, active: set<string>, ignored: set<string>, cleanup: bool) {
    && active <= NamesOf(zone)
    && (forall k :: 0 <= k < |zone| && zone[k].name in active && IsFirst(zone, k) ==>
          zone[k].content == p.target && (p.checksType ==> zone[k].typ == p.recordType))
    && (cleanup ==> forall r <- zone ::
          r.name in active || r.name in ignored || r.content != p.target || r.typ != p.recordType)
  }

  // ---------- dropping records ----------

  lemma {:induction false} DropMembers(zone: Zone, gone: set<nat>)
    ensures forall r :: r in Drop(zone, gone) <==> r in zone && r.id !in gone
  {
    if zone != [] {
      DropMembers(zone[..|zone| - 1], gone);
      assert zone == zone[..|zone| - 1] + [zone[|zone| - 1]];
    }
  }

  lemma {:induction false} DropNothing(zone: Zone, gone: set<nat>)
    requires IdsOf(zone) !! gone
    ensures Drop(zone, gone) == zone
  {
    if zone != [] {
      var n := |zone| - 1;
      assert zone == zone[..n] + [zone[n]];
      assert zone[n] in zone && zone[n].id in IdsOf(zone);
      assert forall r <- zone[..n] :: r in zone;
      DropNothing(zone[..n], gone);
    }
  }

  lemma {:induction false} DropDrop(zone: Zone, a: set<nat>, b: set<nat>)
    ensures Drop(Drop(zone, a), b) == Drop(zone, a + b)
  {
    if zone != [] {
      var n := |zone| - 1;
      DropDrop(zone[..n], a, b);
      if zone[n].id in a {
        assert Drop(zone, a) == Drop(zone[..n], a);
      } else {
        DropAppend(Drop(zone[..n], a), [zone[n]], b);
        assert Drop([zone[n]], b) == if zone[n].id in b then [] else [zone[n]];
      }
    }
  }

  lemma {:induction false} DropAppend(a: Zone, b: Zone, gone: set<nat>)
    ensures Drop(a + b, gone) == Drop(a, gone) + Drop(b, gone)
  {
    if b == [] {
      assert a + b == a;
    } else {
      var n := |b| - 1;
      assert (a + b)[..|a + b| - 1] == a + b[..n];
      DropAppend(a, b[..n], gone);
    }
  }

  lemma {:induction false} DropUnique(zone: Zone, gone: set<nat>)
    requires UniqueIds(zone)
    ensures UniqueIds(Drop(zone, gone))
  {
    if zone != [] {
      var n := |zone| - 1;
      DropUnique(zone[..n], gone);
      DropMembers(zone[..n], gone);
      forall r | r in Drop(zone[..n], gone) ensures r.id != zone[n].id {
        var i :| 0 <= i < n && zone[i] == r;
      }
    }
  }

  /** The first record with a name survives as the first one when no record of that name is dropped. */
  lemma {:induction false} DropKeepsFirst(zone: Zone, gone: set<nat>, k: nat) returns (at: nat)
    requires k < |zone|
    requires forall i :: 0 <= i <= k && zone[i].name == zone[k].name ==> zone[i].id !in gone
    ensures at < |Drop(zone, gone)| && Drop(zone, gone)[at] == zone[k]
    ensures IsFirst(zone, k) ==> IsFirst(Drop(zone, gone), at)
  {
    var n := |zone| - 1;
    if k == n {
      at := |Drop(zone[..n], gone)|;
      DropMembers(zone[..n], gone);
      if IsFirst(zone, k) {
        forall j | 0 <= j < at ensures Drop(zone, gone)[j].name != zone[k].name {
          assert Drop(zone[..n], gone)[j] in zone[..n];
        }
      }
    } else {
      at := DropKeepsFirst(zone[..n], gone, k);
      assert Drop(zone, gone)[..|Drop(zone[..n], gone)|] == Drop(zone[..n], gone);
    }
  }

  // ---------- one sync ----------

  lemma RetargetFacts(p: Policy, zone: Zone, updated: set<string>)
    ensures var z := Retarget(p, zone, updated);
      && IdsOf(z) == IdsOf(zone) && NamesOf(z) == NamesOf(zone)
      && (UniqueIds(zone) ==> UniqueIds(z))
      && forall k :: 0 <= k < |zone| ==> z[k].name == zone[k].name && z[k].id == zone[k].id
  {
    hide NeedsUpdate, IsFirst, Retarget;
    SameColumns(Retarget(p, zone, updated), zone);
  }

  lemma SameColumns(a: Zone, b: Zone)
    requires |a| == |b| && forall k :: 0 <= k < |a| ==> a[k].name == b[k].name && a[k].id == b[k].id
    ensures IdsOf(a) == IdsOf(b) && NamesOf(a) == NamesOf(b)
    ensures UniqueIds(b) ==> UniqueIds(a)
  {
  }

  lemma FirstOf(zone: Zone, name: string) returns (k: nat)
    requires name in NamesOf(zone)
    ensures k < |zone| && zone[k].name == name && IsFirst(zone, k)
  {
    k := 0;
    while zone[k].name != name
      invariant k < |zone| && forall j :: 0 <= j < k ==> zone[j].name != name
      invariant exists j :: k <= j < |zone| && zone[j].name == name
      decreases |zone| - k
    {
      k := k + 1;
    }
  }

  lemma StaleIdsName(p: Policy, zone: Zone, active: set<string>, ignored: set<string>, cleanup: bool, k: nat)
    requires UniqueIds(zone) && k < |zone|
    ensures zone[k].id in StaleIds(p, zone, active, ignored, cleanup) <==> cleanup && Stale(p, zone[k], active, ignored)
  {
  }

  /** Where the first record of an active host is after a sync, and what it says. */
  lemma ActiveFirst(p: Policy, before: Zone, after: Zone, active: set<string>, ignored: set<string>, cleanup: bool,
      updated: set<string>, gone: set<nat>, created: Zone, k: nat)
    returns (at: nat)
    requires UniqueIds(before)
    requires Outcome(p, before, after, active, ignored, cleanup, updated, gone, created, false)
    requires k < |before| && before[k].name in active && IsFirst(before, k)
    ensures at < |after| && after[at] == RetargetAt(p, before, updated, k) && IsFirst(after, at)
  {
    hide NeedsUpdate, Owned;
    var z := Retarget(p, before, updated);
    RetargetFacts(p, before, updated);
    forall i | 0 <= i <= k && z[i].name == z[k].name ensures z[i].id !in gone {
      StaleIdsName(p, before, active, ignored, cleanup, i);
    }
    at := DropKeepsFirst(z, gone, k);
    var kept := Drop(z, gone);
    assert IsFirst(z, k);
    assert forall j :: 0 <= j < |kept| ==> after[j] == kept[j];
  }

  lemma SameFirst(zone: Zone, j: nat, k: nat)
    requires j < |zone| && k < |zone| && zone[j].name == zone[k].name && IsFirst(zone, j) && IsFirst(zone, k)
    ensures j == k
  {
  }

  lemma KeptRecords(p: Policy, before: Zone, after: Zone, active: set<string>, ignored: set<string>, cleanup: bool,
      updated: set<string>, gone: set<nat>, created: Zone, r: Record)
    requires Outcome(p, before, after, active, ignored, cleanup, updated, gone, created, false)
    requires r.name !in active
    ensures r in after <==> r in before && r.id !in gone
  {
    hide NeedsUpdate, Owned, StaleIds;
    var z := Retarget(p, before, updated);
    DropMembers(z, gone);
    assert r in created ==> r.name in NamesOf(created);
    if r in before {
      var k :| 0 <= k < |before| && before[k] == r;
      assert z[k] == r;
    }
    if r in z {
      var k :| 0 <= k < |z| && z[k] == r;
      assert before[k].name == r.name;
      assert before[k] == r;
    }
  }

  lemma ActiveHasRecord(p: Policy, before: Zone, after: Zone, active: set<string>, ignored: set<string>, cleanup: bool,
      updated: set<string>, gone: set<nat>, created: Zone, host: string)
    requires UniqueIds(before) && host in active
    requires Outcome(p, before, after, active, ignored, cleanup, updated, gone, created, true)
    ensures host in NamesOf(after)
    ensures forall j :: 0 <= j < |after| && after[j].name == host && IsFirst(after, j) ==> !NeedsUpdate(p, after[j])
  {
    hide StaleIds, Retarget, Drop;
    if host in NamesOf(before) {
      var k := FirstOf(before, host);
      var at := ActiveFirst(p, before, after, active, ignored, cleanup, updated, gone, created, k);
      assert after[at] in after;
      forall j | 0 <= j < |after| && after[j].name == host && IsFirst(after, j) ensures j == at {
        SameFirst(after, j, at);
      }
    } else {
      var kept := Drop(Retarget(p, before, updated), gone);
      assert host in NamesOf(created);
      var r :| r in created && r.name == host;
      assert r in after;
      NotInKept(p, before, updated, gone, host);
      forall j | 0 <= j < |after| && after[j].name == host ensures Owned(p, after[j]) {
        assert after[j] in kept || after[j] in created;
      }
    }
  }

  lemma FirstsRight(p: Policy, zone: Zone, active: set<string>)
    requires forall h <- active, k ::
      0 <= k < |zone| && zone[k].name == h && IsFirst(zone, k) ==> !NeedsUpdate(p, zone[k])
    ensures forall k :: 0 <= k < |zone| && zone[k].name in active && IsFirst(zone, k) ==>
      zone[k].content == p.target && (p.checksType ==> zone[k].typ == p.recordType)
  {
  }

  /** After a sync without failures nothing is left to do. */
  lemma SyncSettles(p: Policy, before: Zone, after: Zone, active: set<string>, ignored: set<string>, cleanup: bool)
    requires UniqueIds(before) && ZoneSynced(p, before, after, active, ignored, cleanup, true)
    ensures Settled(p, after, active, ignored, cleanup)
  {
    hide NeedsUpdate, IsFirst, Retarget, Drop;
    var updated: set<string>, gone: set<nat>, created: Zone :|
      Outcome(p, before, after, active, ignored, cleanup, updated, gone, created, true);
    forall h | h in active
      ensures h in NamesOf(after)
      ensures forall j :: 0 <= j < |after| && after[j].name == h && IsFirst(after, j) ==> !NeedsUpdate(p, after[j])
    {
      ActiveHasRecord(p, before, after, active, ignored, cleanup, updated, gone, created, h);
    }
    FirstsRight(p, after, active);
    forall r | r in after && cleanup ensures !Stale(p, r, active, ignored) {
      if r.name !in active {
        KeptRecords(p, before, after, active, ignored, cleanup, updated, gone, created, r);
      }
    }
  }

  lemma NotInKept(p: Policy, before: Zone, updated: set<string>, gone: set<nat>, name: string)
    requires name !in NamesOf(before)
    ensures forall r <- Drop(Retarget(p, before, updated), gone) :: r.name != name
  {
    RetargetFacts(p, before, updated);
    DropMembers(Retarget(p, before, updated), gone);
  }

  /** A settled zone is left exactly as it is, and leaving it is a sync. */
  lemma SettledIsFixed(p: Policy, zone: Zone, after: Zone, active: set<string>, ignored: set<string>, cleanup: bool,
      faultFree: bool)
    requires Settled(p, zone, active, ignored, cleanup)
    ensures ZoneSynced(p, zone, after, active, ignored, cleanup, faultFree) <==> after == zone
  {
    if ZoneSynced(p, zone, after, active, ignored, cleanup, faultFree) {
      var updated: set<string>, gone: set<nat>, created: Zone :|
        Outcome(p, zone, after, active, ignored, cleanup, updated, gone, created, faultFree);
      SettledOutcome(p, zone, active, updated);
      NothingStale(p, zone, active, ignored, cleanup);
      assert gone == {};
      assert forall r <- created :: r.name in NamesOf(created);
      assert NamesOf(created) == {};
      NoNames(created);
      DropNothing(zone, {});
    } else if after == zone {
      SettledOutcome(p, zone, active, active);
      NothingStale(p, zone, active, ignored, cleanup);
      DropNothing(zone, {});
      assert zone + [] == zone;
      assert Outcome(p, zone, zone, active, ignored, cleanup, active, {}, [], faultFree);
    }
  }

  lemma NothingStale(p: Policy, zone: Zone, active: set<string>, ignored: set<string>, cleanup: bool)
    ensures StaleIds(p, zone, active, ignored, cleanup) == {} <==>
      (cleanup ==> forall r <- zone ::
        r.name in active || r.name in ignored || r.content != p.target || r.typ != p.recordType)
  {
    if r :| r in zone && Stale(p, r, active, ignored) && cleanup {
      assert r.id in StaleIds(p, zone, active, ignored, cleanup);
    }
  }

  lemma NoNames(zone: Zone)
    ensures NamesOf(zone) == {} ==> zone == []
  {
    if zone != [] {
      assert zone[0].name in NamesOf(zone);
    }
  }

  lemma SettledOutcome(p: Policy, zone: Zone, active: set<string>, updated: set<string>)
    requires updated <= active
    requires forall k :: 0 <= k < |zone| && zone[k].name in active && IsFirst(zone, k) ==>
      zone[k].content == p.target && (p.checksType ==> zone[k].typ == p.recordType)
    ensures Retarget(p, zone, updated) == zone
  {
  }

  lemma SyncKeepsIdsUnique(p: Policy, before: Zone, after: Zone, active: set<string>, ignored: set<string>,
      cleanup: bool,
      faultFree: bool)
    requires UniqueIds(before) && ZoneSynced(p, before, after, active, ignored, cleanup, faultFree)
    ensures UniqueIds(after)
    ensures NamesOf(after) <= NamesOf(before) + active
  {
    var updated: set<string>, gone: set<nat>, created: Zone :|
      Outcome(p, before, after, active, ignored, cleanup, updated, gone, created, faultFree);
    var z := Retarget(p, before, updated);
    RetargetFacts(p, before, updated);
    DropUnique(z, gone);
    DropMembers(z, gone);
    var kept := Drop(z, gone);
    forall i, j | 0 <= i < j < |after| ensures after[i].id != after[j].id {
      if i < |kept| <= j {
        assert kept[i] in kept && kept[i].id in IdsOf(z);
        assert created[j - |kept|] in created && created[j - |kept|].id in IdsOf(created);
      }
    }
    forall r | r in after ensures r.name in NamesOf(before) + active {
      if r in kept {
        assert r.name in NamesOf(z);
      } else {
        assert r in created && r.name in NamesOf(created);
      }
    }
  }

  /** The names that own a record with the target's content and type. */
  function Owners(p: Policy, zone: Zone): set<string> {
    set r | r in zone && r.content == p.target && r.typ == p.recordType :: r.name
  }

  /** The first record of this name, if any, has the target's content and a type that is not looked at, or right. */
  predicate FirstSkipped(p: Policy, zone: Zone, name: string) {
    exists k :: 0 <= k < |zone| && zone[k].name == name && IsFirst(zone, k)
      && zone[k].content == p.target && (p.checksType ==> zone[k].typ == p.recordType)
  }

  /** Who owns a record after a sync without failures: an active host, unless its first record was left alone and none
      of its records was owned before; any other owner from before, unless cleanup was on and it was not ignored. */
  lemma OwnersAfter(p: Policy, before: Zone, after: Zone, active: set<string>, ignored: set<string>, cleanup: bool,
      name: string)
    requires UniqueIds(before) && ZoneSynced(p, before, after, active, ignored, cleanup, true)
    ensures name in Owners(p, after) <==>
      if name in active then FirstSkipped(p, before, name) ==> name in Owners(p, before)
      else name in Owners(p, before) && (cleanup ==> name in ignored)
  {
    var updated: set<string>, gone: set<nat>, created: Zone :|
      Outcome(p, before, after, active, ignored, cleanup, updated, gone, created, true);
    if name !in active {
      OtherOwner(p, before, after, active, ignored, cleanup, updated, gone, created, name);
    } else if name in NamesOf(before) {
      ActiveOwner(p, before, after, active, ignored, cleanup, updated, gone, created, name);
    } else {
      assert name in NamesOf(created);
      var r :| r in created && r.name == name;
      assert r in after;
    }
  }

  lemma OtherOwner(p: Policy, before: Zone, after: Zone, active: set<string>, ignored: set<string>, cleanup: bool,
      updated: set<string>, gone: set<nat>, created: Zone, name: string)
    requires UniqueIds(before) && name !in active
    requires Outcome(p, before, after, active, ignored, cleanup, updated, gone, created, true)
    ensures name in Owners(p, after) <==> name in Owners(p, before) && (cleanup ==> name in ignored)
  {
    forall r: Record | r.name == name && Owned(p, r)
      ensures r in after <==> r in before && (cleanup ==> name in ignored)
    {
      KeptRecords(p, before, after, active, ignored, cleanup, updated, gone, created, r);
      if r in before {
        var k :| 0 <= k < |before| && before[k] == r;
        StaleIdsName(p, before, active, ignored, cleanup, k);
      }
    }
  }

  lemma ActiveOwner(p: Policy, before: Zone, after: Zone, active: set<string>, ignored: set<string>, cleanup: bool,
      updated: set<string>, gone: set<nat>, created: Zone, name: string)
    requires UniqueIds(before) && name in active && name in NamesOf(before)
    requires Outcome(p, before, after, active, ignored, cleanup, updated, gone, created, true)
    ensures name in Owners(p, after) <==> (FirstSkipped(p, before, name) ==> name in Owners(p, before))
  {
    var k := FirstOf(before, name);
    var at := ActiveFirst(p, before, after, active, ignored, cleanup, updated, gone, created, k);
    if NeedsUpdate(p, before[k]) {
      assert Owned(p, after[at]) && after[at] in after;
      assert !FirstSkipped(p, before, name);
    } else {
      assert FirstSkipped(p, before, name);
      RecordsOfName(p, before, after, active, ignored, cleanup, updated, gone, created, k);
    }
  }

  /** When the first record of an active host is left alone, so are all its records. */
  lemma RecordsOfName(p: Policy, before: Zone, after: Zone, active: set<string>, ignored: set<string>, cleanup: bool,
      updated: set<string>, gone: set<nat>, created: Zone, k: nat)
    requires UniqueIds(before) && k < |before| && before[k].name in active && IsFirst(before, k)
    requires !NeedsUpdate(p, before[k])
    requires Outcome(p, before, after, active, ignored, cleanup, updated, gone, created, true)
    ensures forall r: Record :: r.name == before[k].name ==> (r in after <==> r in before)
  {
    hide NeedsUpdate, Owned, Drop;
    var name, z := before[k].name, Retarget(p, before, updated);
    DropMembers(z, gone);
    assert name in NamesOf(before) by { assert before[k] in before; }
    forall r: Record | r.name == name ensures r in after <==> r in before {
      assert r in created ==> r.name !in NamesOf(before);
      if r in before {
        var j :| 0 <= j < |before| && before[j] == r;
        StaleIdsName(p, before, active, ignored, cleanup, j);
        assert IsFirst(before, j) ==> j == k;
        assert z[j] == r;
      }
      if r in z {
        var j :| 0 <= j < |z| && z[j] == r;
        assert before[j].name == name;
        assert IsFirst(before, j) ==> j == k;
        assert before[j] == r;
      }
    }
  }

  /** Whatever fails, a record that vanished was stale: cleanup on, its name neither active nor ignored, its content and
      type the target's. Every other record of a name that is not active is still there unchanged. */
  lemma TargetLock(p: Policy, before: Zone, after: Zone, active: set<string>, ignored: set<string>, cleanup: bool,
      faultFree: bool, r: Record)
    requires UniqueIds(before) && ZoneSynced(p, before, after, active, ignored, cleanup, faultFree) && r in before
    ensures r.id !in IdsOf(after) ==>
      cleanup && r.name !in active && r.name !in ignored && r.content == p.target && r.typ == p.recordType
    ensures r.name !in active && (!cleanup || r.name in ignored || r.content != p.target || r.typ != p.recordType) ==>
      r in after
  {
    var updated: set<string>, gone: set<nat>, created: Zone :|
      Outcome(p, before, after, active, ignored, cleanup, updated, gone, created, faultFree);
    var k :| 0 <= k < |before| && before[k] == r;
    StaleIdsName(p, before, active, ignored, cleanup, k);
    var z := Retarget(p, before, updated);
    DropMembers(z, gone);
    if r.id !in gone {
      assert z[k] in z && z[k].id == r.id && z[k] in after;
    }
    if r.name !in active {
      KeptRecords(p, before, after, active, ignored, cleanup, updated, gone, created, r);
    }
  }

  /** Whatever fails, of an active name only the first record may change, and only if it has other content or, where
      types are compared, another type than it should: it keeps id and name, and gets the target's content and type. */
  lemma OnlyFirstChanges(p: Policy, before: Zone, after: Zone, active: set<string>, ignored: set<string>, cleanup: bool,
      faultFree: bool, k: nat)
    requires UniqueIds(before) && ZoneSynced(p, before, after, active, ignored, cleanup, faultFree)
    requires k < |before| && before[k].name in active
    ensures var r := before[k];
      var right := r.content == p.target && (p.checksType ==> r.typ == p.recordType);
      if right || exists j :: 0 <= j < k && before[j].name == r.name then r in after
      else r in after || Record(r.id, r.name, p.recordType, p.target) in after
  {
    hide StaleIds, Drop, Created;
    var updated: set<string>, gone: set<nat>, created: Zone :|
      Outcome(p, before, after, active, ignored, cleanup, updated, gone, created, faultFree);
    var z := Retarget(p, before, updated);
    StaleIdsName(p, before, active, ignored, cleanup, k);
    DropMembers(z, gone);
    assert z[k] in z && z[k].id !in gone;
    assert z[k] in after;
  }

  /** A record that is new has the name of an active host that had none, and the target's content and type; it is the
      only one of that name. */
  lemma NewRecords(p: Policy, before: Zone, after: Zone, active: set<string>, ignored: set<string>, cleanup: bool,
      faultFree: bool, r: Record)
    requires ZoneSynced(p, before, after, active, ignored, cleanup, faultFree)
    requires r in after && r.id !in IdsOf(before)
    ensures r.name in active && r.name !in NamesOf(before) && r.content == p.target && r.typ == p.recordType
    ensures forall q <- after :: q.name == r.name ==> q == r
  {
    hide StaleIds, Drop;
    var updated: set<string>, gone: set<nat>, created: Zone :|
      Outcome(p, before, after, active, ignored, cleanup, updated, gone, created, faultFree);
    var z := Retarget(p, before, updated);
    RetargetFacts(p, before, updated);
    DropMembers(z, gone);
    assert r in z ==> r.id in IdsOf(z);
    assert r in created && r.name in NamesOf(created);
    NotInKept(p, before, updated, gone, r.name);
    forall q | q in after && q.name == r.name ensures q == r {
      assert q in created;
      var i :| 0 <= i < |created| && created[i] == q;
      var j :| 0 <= j < |created| && created[j] == r;
      assert i == j;
    }
  }
}
