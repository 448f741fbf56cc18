/** The DNS clients of internal/dns/cloudflare/client.go and internal/dns/netbird/client.go; the provider's policy is
    their only difference once hosts have been extracted. */
module DnsClient {
  import opened Text
  import opened DnsZones
  import opened DnsRecords
  import MeshHosts

  /** A write the client sends, whether or not it succeeds. */
  datatype Call =
    | UpdateCall(zoneId: string, id: nat, name: string)
    | CreateCall(zoneId: string, name: string)
    | DeleteCall(zoneId: string, id: nat)

  /** The provider's API, with logs of the writes and of the listings asked for. Any call may fail, and then changes
      nothing; none does when `reliable`. */
  class DnsServer {
    const reliable: bool
    var zones: map<string, Zone>
    var nextId: nat
    var calls: seq<Call>
    var lists: seq<string>

    ghost predicate Valid()
      reads this
    {
      forall z <- zones :: UniqueIds(zones[z]) && forall r <- zones[z] :: r.id < nextId
    }

    constructor (zones: map<string, Zone>, nextId: nat, reliable: bool)
      requires forall z <- zones :: UniqueIds(zones[z]) && forall r <- zones[z] :: r.id < nextId
      ensures Valid() && this.zones == zones && this.reliable == reliable && calls == [] && lists == []
    {
      this.zones, this.nextId, this.reliable, calls, lists := zones, nextId, reliable, [], [];
    }

    method Succeeds() returns (ok: bool)
      ensures reliable ==> ok
    {
      ok := *;
      ok := ok || reliable;
    }

    method ListRecords(zoneId: string) returns (records: Option<Zone>)
      requires zoneId in zones
      modifies this`lists
      ensures lists == old(lists) + [zoneId]
      ensures records.Some? ==> records.value == zones[zoneId]
      ensures reliable ==> records.Some?
    {
      lists := lists + [zoneId];
      var ok := Succeeds();
      records := if ok then Some(zones[zoneId]) else None;
    }

    method UpdateRecord(zoneId: string, r: Record) returns (ok: bool)
      requires zoneId in zones
      modifies this`zones, this`calls
      ensures zones == if ok then old(zones)[zoneId := Replace(old(zones)[zoneId], r)] else old(zones)
      ensures calls == old(calls) + [UpdateCall(zoneId, r.id, r.name)]
      ensures reliable ==> ok
    {
      calls := calls + [UpdateCall(zoneId, r.id, r.name)];
      ok := Succeeds();
      if ok {
        zones := zones[zoneId := Replace(zones[zoneId], r)];
      }
    }

    method CreateRecord(zoneId: string, name: string, typ: string, content: string) returns (ok: bool)
      requires zoneId in zones
      modifies this`zones, this`calls, this`nextId
      ensures nextId == if ok then old(nextId) + 1 else old(nextId)
      ensures zones == if ok
        then old(zones)[zoneId := old(zones)[zoneId] + [Record(old(nextId), name, typ, content)]] else old(zones)
      ensures calls == old(calls) + [CreateCall(zoneId, name)]
      ensures reliable ==> ok
    {
      calls := calls + [CreateCall(zoneId, name)];
      ok := Succeeds();
      if ok {
        zones := zones[zoneId := zones[zoneId] + [Record(nextId, name, typ, content)]];
        nextId := nextId + 1;
      }
    }

    method DeleteRecord(zoneId: string, id: nat) returns (ok: bool)
      requires zoneId in zones
      modifies this`zones, this`calls
      ensures zones == if ok then old(zones)[zoneId := Drop(old(zones)[zoneId], {id})] else old(zones)
      ensures calls == old(calls) + [DeleteCall(zoneId, id)]
      ensures reliable ==> ok
    {
      calls := calls + [DeleteCall(zoneId, id)];
      ok := Succeeds();
      if ok {
        zones := zones[zoneId := Drop(zones[zoneId], {id})];
      }
    }
  }

  // ---------- the steps of one zone's sync ----------

  lemma HostUpdated(p: Policy, records: Zone, updated: set<string>, created: Zone, k: nat)
    requires UniqueIds(records) && k < |records| && IsFirst(records, k) && NeedsUpdate(p, records[k])
    requires IdsOf(created) !! IdsOf(records)
    ensures Replace(Retarget(p, records, updated) + created, Rewritten(p, records[k]))
      == Retarget(p, records, updated + {records[k].name}) + created
  {
    hide NeedsUpdate;
    var old', new' := Retarget(p, records, updated), Retarget(p, records, updated + {records[k].name});
    forall i | 0 <= i < |created| ensures created[i].id != records[k].id {
      assert created[i] in created && created[i].id in IdsOf(created);
      assert records[k] in records && records[k].id in IdsOf(records);
    }
    forall i | 0 <= i < |records|
      ensures new'[i] == if old'[i].id == records[k].id then Rewritten(p, records[k]) else old'[i]
    {
      if records[i].name == records[k].name && i != k {
        assert IsFirst(records, i) ==> i < k;
      }
    }
  }

  lemma HostLeft(p: Policy, records: Zone, updated: set<string>, k: nat)
    requires k < |records| && IsFirst(records, k) && !NeedsUpdate(p, records[k])
    ensures Retarget(p, records, updated) == Retarget(p, records, updated + {records[k].name})
  {
  }

  lemma HostAbsent(p: Policy, records: Zone, updated: set<string>, host: string)
    requires host !in NamesOf(records)
    ensures Retarget(p, records, updated) == Retarget(p, records, updated + {host})
  {
  }

  lemma OneMoreCreated(p: Policy, records: Zone, created: Zone, r: Record)
    requires Created(p, records, created) && Owned(p, r)
    requires r.name !in NamesOf(records) && r.name !in NamesOf(created)
    requires r.id !in IdsOf(records) && r.id !in IdsOf(created)
    ensures Created(p, records, created + [r])
    ensures NamesOf(created + [r]) == NamesOf(created) + {r.name}
    ensures IdsOf(created + [r]) == IdsOf(created) + {r.id}
  {
  }

  /** How hosts are extracted: Cloudflare applies the pipeline's filter, NetBird none. */
  datatype Extractor = Filtered(filter: Option<string>, filterValue: string) | Unfiltered

  ghost function Extract(e: Extractor, services: seq<MeshHosts.Service>, orders: seq<seq<string>>,
      active: bool): set<string>
    requires MeshHosts.Orders(services, orders)
  {
    match e
    case Filtered(filter, filterValue) => MeshHosts.Gather(filter, filterValue, services, orders, active)
    case Unfiltered => MeshHosts.PlainGather(services, orders, active)
  }

  class Client {
    const policy: Policy
    const extractor: Extractor
    const zoneMap: ZoneMap
    const cleanup: bool
    const server: DnsServer
    var lastHosts: Option<set<string>>
    var lastIgnored: Option<set<string>>

    ghost predicate Valid()
      reads this, server
    {
      server.Valid() && forall d <- zoneMap :: zoneMap[d] in server.zones
    }

    constructor (policy: Policy, extractor: Extractor, zoneMap: ZoneMap, cleanup: bool, server: DnsServer)
      requires server.Valid() && forall d <- zoneMap :: zoneMap[d] in server.zones
      ensures Valid() && this.policy == policy && this.zoneMap == zoneMap && this.cleanup == cleanup
      ensures this.server == server && this.extractor == extractor && lastHosts == None && lastIgnored == None
    {
      this.extractor := extractor;
      this.policy, this.zoneMap, this.cleanup, this.server := policy, zoneMap, cleanup, server;
      lastHosts, lastIgnored := None, None;
    }

    /** What the loop over active hosts has brought about so far. */
    ghost predicate Progress(zoneId: string, start: map<string, Zone>, done: set<string>, updated: set<string>,
        created: Zone)
      requires zoneId in start
      reads server
    {
      var records := start[zoneId];
      && updated <= done
      && Created(policy, records, created) && NamesOf(created) <= done
      && zoneId in server.zones
      && server.zones == start[zoneId := Retarget(policy, records, updated) + created]
      && (server.reliable ==> updated == done && NamesOf(created) == done - NamesOf(records))
      && (forall id <- IdsOf(records) :: id < server.nextId)
      && (forall id <- IdsOf(created) :: id < server.nextId)
    }

    /** The first record of an active host: updated unless it already says what it should. */
    method UpdateFirst(zoneId: string, records: Zone, k: nat, ghost start: map<string, Zone>, ghost done: set<string>,
        ghost updated: set<string>, ghost created: Zone)
      returns (ghost updated': set<string>)
      requires zoneId in start && records == start[zoneId] && UniqueIds(records)
      requires k < |records| && IsFirst(records, k) && records[k].name !in done
      requires Progress(zoneId, start, done, updated, created)
      modifies server`zones, server`calls, server`nextId
      ensures Progress(zoneId, start, done + {records[k].name}, updated', created)
      ensures server.calls == old(server.calls) +
        if records[k].content != policy.target || (policy.checksType && records[k].typ != policy.recordType)
        then [UpdateCall(zoneId, records[k].id, records[k].name)] else []
      ensures old(server.nextId) <= server.nextId
    {
      hide Owned, IsFirst;
      var host := records[k].name;
      assert records[k] in records && host in NamesOf(records);
      updated' := updated + {host};
      if NeedsUpdate(policy, records[k]) {
        HostUpdated(policy, records, updated, created, k);
        var ok := server.UpdateRecord(zoneId, Record(records[k].id, host, policy.recordType, policy.target));
        if !ok {
          updated' := updated;
        }
      } else {
        HostLeft(policy, records, updated, k);
      }
    }

    /** An active host without a record gets one. */
    method CreateMissing(zoneId: string, host: string, ghost start: map<string, Zone>, ghost done: set<string>,
        ghost updated: set<string>, ghost created: Zone)
      returns (ghost created': Zone)
      requires zoneId in start && host !in NamesOf(start[zoneId]) && host !in done
      requires Progress(zoneId, start, done, updated, created)
      modifies server`zones, server`calls, server`nextId
      ensures Progress(zoneId, start, done + {host}, updated + {host}, created')
      ensures server.calls == old(server.calls) + [CreateCall(zoneId, host)] && old(server.nextId) <= server.nextId
    {
      hide NeedsUpdate, Created;
      ghost var records := start[zoneId];
      HostAbsent(policy, records, updated, host);
      ghost var r := Record(server.nextId, host, policy.recordType, policy.target);
      OneMoreCreated(policy, records, created, r);
      var ok := server.CreateRecord(zoneId, host, policy.recordType, policy.target);
      created' := if ok then created + [r] else created;
      ghost var kept := Retarget(policy, records, updated);
      assert (kept + created) + [r] == kept + (created + [r]);
    }

    /** One round of the loop over active hosts. */
    method SyncHost(zoneId: string, records: Zone, host: string, ghost start: map<string, Zone>,
        ghost done: set<string>,
        ghost updated: set<string>, ghost created: Zone)
      returns (ghost updated': set<string>, ghost created': Zone)
      requires zoneId in start && records == start[zoneId] && UniqueIds(records)
      requires Progress(zoneId, start, done, updated, created) && host !in done
      modifies server`zones, server`calls, server`nextId
      ensures Progress(zoneId, start, done + {host}, updated', created')
      ensures server.calls == old(server.calls) <==> HostSettled(policy, records, host)
      ensures SentForHost(policy, zoneId, records, host, old(server.calls), server.calls)
      ensures old(server.calls) <= server.calls && old(server.nextId) <= server.nextId
    {
      hide NeedsUpdate, Progress;
      created' := created;
      var exists' := false;
      for k := 0 to |records|
        invariant !exists' && forall j :: 0 <= j < k ==> records[j].name != host
        invariant server.calls == old(server.calls) && server.nextId == old(server.nextId)
        invariant Progress(zoneId, start, done, updated, created)
        invariant created' == created
      {
        if records[k].name == host {
          exists' := true;
          FirstIsOnly(records, k);
          updated' := UpdateFirst(zoneId, records, k, start, done, updated, created);
          break;
        }
      }
      if !exists' {
        NoRecord(records, host);
        updated' := updated + {host};
        created' := CreateMissing(zoneId, host, start, done, updated, created);
      }
    }

    /** The cleanup loop over the listed records. */
    method CleanupZone(zoneId: string, records: Zone, active: set<string>, ignored: set<string>)
      returns (ghost gone: set<nat>)
      requires zoneId in server.zones
      modifies server`zones, server`calls
      ensures server.zones == old(server.zones)[zoneId := Drop(old(server.zones)[zoneId], gone)]
      ensures gone <= StaleIds(policy, records, active, ignored, true)
      ensures server.reliable ==> gone == StaleIds(policy, records, active, ignored, true)
      ensures server.calls == old(server.calls) <==> StaleIds(policy, records, active, ignored, true) == {}
      ensures old(server.calls) <= server.calls
      ensures forall c :: c in server.calls[|old(server.calls)|..] <==>
        DueDelete(policy, zoneId, records, active, ignored, true, c)
    {
      hide StaleIds, Drop, DueDelete;
      ghost var n := |server.calls|;
      forall c {
        NothingDue(policy, zoneId, records, active, ignored, c);
      }
      gone := {};
      ghost var start := server.zones;
      DropNothing(start[zoneId], {});
      assert start[zoneId := start[zoneId]] == start;
      NoneStale(policy, active, ignored);
      for k := 0 to |records|
        invariant zoneId in server.zones && server.zones == start[zoneId := Drop(start[zoneId], gone)]
        invariant gone <= StaleIds(policy, records[..k], active, ignored, true)
        invariant server.reliable ==> gone == StaleIds(policy, records[..k], active, ignored, true)
        invariant old(server.calls) <= server.calls
        invariant server.calls == old(server.calls) <==> StaleIds(policy, records[..k], active, ignored, true) == {}
        invariant forall c :: c in server.calls[n..] <==>
          DueDelete(policy, zoneId, records[..k], active, ignored, true, c)
      {
        var rec := records[k];
        ghost var sent := server.calls;
        StaleIdsGrow(policy, records, active, ignored, k);
        if rec.name !in active && rec.name !in ignored {
          if rec.content == policy.target && rec.typ == policy.recordType {
            assert Stale(policy, rec, active, ignored);
            DropDrop(start[zoneId], gone, {rec.id});
            var ok := server.DeleteRecord(zoneId, rec.id);
            if ok {
              gone := gone + {rec.id};
            }
          }
        }
        DeletesGrow(policy, zoneId, records, active, ignored, k, n, sent, server.calls);
      }
      assert records[..|records|] == records;
    }

    /** The loop over active hosts, in whatever order the map yields them. */
    method SyncHosts(zoneId: string, records: Zone, active: set<string>)
      returns (ghost updated: set<string>, ghost created: Zone)
      requires Valid() && zoneId in server.zones && records == server.zones[zoneId]
      modifies server`zones, server`calls, server`nextId
      ensures Progress(zoneId, old(server.zones), active, updated, created)
      ensures server.calls == old(server.calls) <==> forall h :: h in active ==> HostSettled(policy, records, h)
      ensures old(server.calls) <= server.calls && old(server.nextId) <= server.nextId
      ensures forall c :: c in server.calls[|old(server.calls)|..] <==> DueToHost(policy, zoneId, records, active, c)
    {
      hide Progress, HostSettled, SentForHost, DueToHost;
      ghost var n := |server.calls|;
      forall c {
        NothingDue(policy, zoneId, records, active, {}, c);
      }
      ghost var start := server.zones;
      var todo := active;
      updated, created := {}, [];
      ProgressStarts(zoneId);
      assert active - todo == {};
      while todo != {}
        invariant todo <= active && Progress(zoneId, start, active - todo, updated, created)
        invariant old(server.calls) <= server.calls && old(server.nextId) <= server.nextId
        invariant server.calls == old(server.calls) <==>
          forall h :: h in active - todo ==> HostSettled(policy, records, h)
        invariant forall c :: c in server.calls[n..] <==> DueToHost(policy, zoneId, records, active - todo, c)
      {
        var host :| host in todo;
        ghost var done, sent := active - todo, server.calls;
        updated, created := SyncHost(zoneId, records, host, start, done, updated, created);
        forall c {
          HostDue(policy, zoneId, records, done, host, sent, server.calls, c);
        }
        assert server.calls[n..] == sent[n..] + server.calls[|sent|..];
        todo := todo - {host};
        assert active - todo == done + {host};
      }
      assert active - todo == active;
    }

    /** The cleanup, if it is on, of a zone whose active hosts have been seen to. */
    method FinishZone(zoneId: string, records: Zone, active: set<string>, ignored: set<string>,
        ghost start: map<string, Zone>, ghost updated: set<string>, ghost created: Zone)
      requires zoneId in start && records == start[zoneId] && UniqueIds(records)
      requires Progress(zoneId, start, active, updated, created)
      modifies server`zones, server`calls
      ensures zoneId in server.zones && server.zones == start[zoneId := server.zones[zoneId]]
      ensures ZoneSynced(policy, records, server.zones[zoneId], active, ignored, cleanup, server.reliable)
      ensures UniqueIds(server.zones[zoneId]) && forall id <- IdsOf(server.zones[zoneId]) :: id < server.nextId
      ensures server.calls == old(server.calls) <==> StaleIds(policy, records, active, ignored, cleanup) == {}
      ensures old(server.calls) <= server.calls
      ensures forall c :: c in server.calls[|old(server.calls)|..] <==>
        DueDelete(policy, zoneId, records, active, ignored, cleanup, c)
    {
      hide Progress, Outcome, Created, StaleIds, Drop, Retarget, DueDelete;
      forall c {
        NothingDue(policy, zoneId, records, active, ignored, c);
      }
      ghost var gone: set<nat> := {};
      ghost var middle := Retarget(policy, records, updated) + created;
      ProgressEnds(zoneId, start, active, updated, created);
      NoCleanup(policy, records, active, ignored, middle);
      if cleanup {
        gone := CleanupZone(zoneId, records, active, ignored);
      }
      OutcomeReached(policy, records, active, ignored, cleanup, updated, gone, created, server.reliable);
    }

    /** `syncZone`: lists the zone once, sees to the active hosts, then cleans up. A zone that cannot be listed is left
        alone; otherwise every write that is due is sent, whichever of them fail. */
    method SyncZone(zoneId: string, active: set<string>, ignored: set<string>)
      requires Valid() && zoneId in server.zones
      modifies server
      ensures Valid() && zoneId in server.zones
      ensures server.zones == old(server.zones)[zoneId := server.zones[zoneId]]
      ensures ZoneSynced(policy, old(server.zones)[zoneId], server.zones[zoneId], active, ignored, cleanup,
                server.reliable)
      ensures Settled(policy, old(server.zones)[zoneId], active, ignored, cleanup) ==> server.calls == old(server.calls)
      ensures server.reliable && server.calls == old(server.calls) ==>
        Settled(policy, old(server.zones)[zoneId], active, ignored, cleanup)
      ensures old(server.calls) <= server.calls && server.lists == old(server.lists) + [zoneId]
      ensures (!server.reliable && server.calls == old(server.calls)) ||
        forall c :: c in server.calls[|old(server.calls)|..] <==>
          Due(policy, zoneId, old(server.zones)[zoneId], active, ignored, cleanup, c)
    {
      hide Progress, HostSettled, Settled, Outcome, DueToHost, DueDelete;
      ghost var start, calls := server.zones, server.calls;
      assert start[zoneId := start[zoneId]] == start;
      var listed := server.ListRecords(zoneId);
      if listed.None? {
        NothingDone(policy, start[zoneId], active, ignored, cleanup);
        return;
      }
      var records := listed.value;
      SettledMeans(policy, records, active, ignored, cleanup);
      ghost var updated, created := SyncHosts(zoneId, records, active);
      ghost var sent := server.calls;
      FinishZone(zoneId, records, active, ignored, start, updated, created);
      assert server.calls[|calls|..] == sent[|calls|..] + server.calls[|sent|..];
      forall r | r in server.zones[zoneId] ensures r.id < server.nextId {
        assert r.id in IdsOf(server.zones[zoneId]);
      }
    }

    /** Where the loop over zones stands: `calls` and `lists` are those sent before it. */
    ghost predicate Visited(start: map<string, Zone>, calls: seq<Call>, lists: seq<string>,
        actives: map<string, string>, ignoreds: map<string, string>, visited: set<string>)
      reads server
    {
      && lists <= server.lists && (forall id :: id in server.lists[|lists|..] <==> id in visited)
      && calls <= server.calls
      && SyncedIn(policy, zoneMap, cleanup, start, server.zones, actives, ignoreds, visited, server.reliable)
      && (SettledIn(policy, zoneMap, cleanup, start, actives, ignoreds, visited) ==> server.calls == calls)
      && (server.reliable && server.calls == calls ==>
            SettledIn(policy, zoneMap, cleanup, start, actives, ignoreds, visited))
      && SentIn(policy, zoneMap, cleanup, start, actives, ignoreds, server.calls[|calls|..], visited, server.reliable)
    }

    method VisitZone(zoneId: string, active: set<string>, ignored: set<string>, ghost start: map<string, Zone>,
        ghost calls: seq<Call>, ghost lists: seq<string>, ghost actives: map<string, string>,
        ghost ignoreds: map<string, string>, ghost visited: set<string>)
      requires Valid() && zoneId in server.zones && zoneId !in visited
      requires active == Bucket(zoneMap, actives, zoneId) && ignored == Bucket(zoneMap, ignoreds, zoneId)
      requires Visited(start, calls, lists, actives, ignoreds, visited)
      modifies server
      ensures Valid() && Visited(start, calls, lists, actives, ignoreds, visited + {zoneId})
    {
      hide SyncedIn, SettledIn, ZoneSynced, Settled, Bucket, SentIn, Due;
      ghost var between, before, listed := server.zones, server.calls, server.lists;
      OneMoreZone(policy, zoneMap, cleanup, start, between, actives, ignoreds, visited, zoneId, server.reliable);
      SyncZone(zoneId, active, ignored);
      OneMoreSynced(policy, zoneMap, cleanup, start, between, server.zones, actives, ignoreds, visited, zoneId,
        server.reliable);
      OneMoreSent(policy, zoneMap, cleanup, start, actives, ignoreds, before[|calls|..], server.calls[|before|..],
        visited, zoneId, server.reliable);
      assert server.calls[|calls|..] == before[|calls|..] + server.calls[|before|..];
      assert server.lists[|lists|..] == listed[|lists|..] + [zoneId];
    }

    /** The first half of `Sync`: hosts into zones, and the zones to visit. */
    method PlanZones(active: set<string>, ignored: set<string>)
      returns (activeByZone: map<string, set<string>>, ignoredByZone: map<string, set<string>>,
        zonesToSync: set<string>,
        ghost actives: map<string, string>, ghost ignoreds: map<string, string>)
      ensures Bucketing(zoneMap, active, actives) && Bucketing(zoneMap, ignored, ignoreds)
      ensures Filled(zoneMap, actives, activeByZone) && Filled(zoneMap, ignoreds, ignoredByZone)
      ensures zonesToSync == ToSync(zoneMap, cleanup, actives, ignoreds) && zonesToSync <= zoneMap.Values
    {
      hide Bucketing, Filled;
      activeByZone, actives := BucketHosts(zoneMap, active);
      ignoredByZone, ignoreds := BucketHosts(zoneMap, ignored);
      ZonesNamed(zoneMap, active, actives, activeByZone);
      ZonesNamed(zoneMap, ignored, ignoreds, ignoredByZone);
      zonesToSync := (if cleanup then zoneMap.Values else {}) + activeByZone.Keys + ignoredByZone.Keys;
    }

    /** `Sync`: buckets the hosts and syncs every zone that has some, or every zone when cleaning up, in whatever order
        the map yields them and whatever fails in another zone. It reports no error. */
    method Sync(active: set<string>, ignored: set<string>)
      returns (ghost actives: map<string, string>, ghost ignoreds: map<string, string>)
      requires Valid()
      modifies server
      ensures Valid()
      ensures Bucketing(zoneMap, active, actives) && Bucketing(zoneMap, ignored, ignoreds)
      ensures Synced(policy, zoneMap, cleanup, old(server.zones), server.zones, actives, ignoreds, server.reliable)
      ensures AllSettled(policy, zoneMap, cleanup, old(server.zones), actives, ignoreds) ==>
        server.calls == old(server.calls)
      ensures server.reliable && server.calls == old(server.calls) ==>
        AllSettled(policy, zoneMap, cleanup, old(server.zones), actives, ignoreds)
      ensures var zones := ToSync(zoneMap, cleanup, actives, ignoreds);
        && old(server.lists) <= server.lists && old(server.calls) <= server.calls
        && (forall id :: id in server.lists[|old(server.lists)|..] <==> id in zones)
        && SentIn(policy, zoneMap, cleanup, old(server.zones), actives, ignoreds,
             server.calls[|old(server.calls)|..], zones, server.reliable)
    {
      hide SyncedIn, SettledIn, Bucketing, Filled, ToSync, Lookup, Bucket, SentIn;
      var activeByZone, ignoredByZone, zonesToSync;
      activeByZone, ignoredByZone, zonesToSync, actives, ignoreds := PlanZones(active, ignored);
      ghost var start, calls, lists := server.zones, server.calls, server.lists;
      NoZoneYet(policy, zoneMap, cleanup, start, actives, ignoreds, server.reliable);
      var todo := zonesToSync;
      ghost var visited := {};
      assert server.calls[|calls|..] == [] && server.lists[|lists|..] == [];
      while todo != {}
        invariant todo <= zonesToSync && visited == zonesToSync - todo
        invariant Valid() && Visited(start, calls, lists, actives, ignoreds, visited)
      {
        hide Visited;
        var zoneId :| zoneId in todo;
        FilledAt(zoneMap, actives, activeByZone, zoneId);
        FilledAt(zoneMap, ignoreds, ignoredByZone, zoneId);
        VisitZone(zoneId, Lookup(activeByZone, zoneId), Lookup(ignoredByZone, zoneId), start, calls, lists, actives,
          ignoreds, visited);
        todo := todo - {zoneId};
        visited := visited + {zoneId};
      }
      assert visited == zonesToSync;
    }

    /** `Process`: extracts the hosts and syncs unless both sets are what they were in the last cycle. */
    method Process(services: seq<MeshHosts.Service>)
      returns (ghost active: set<string>, ghost ignored: set<string>, ghost orders: seq<seq<string>>,
        ghost actives: map<string, string>, ghost ignoreds: map<string, string>)
      requires Valid()
      modifies this`lastHosts, this`lastIgnored, server
      ensures Valid() && MeshHosts.Orders(services, orders)
      ensures active == Extract(extractor, services, orders, true)
      ensures ignored == Extract(extractor, services, orders, false)
      ensures lastHosts == Some(active) && lastIgnored == Some(ignored)
      ensures if old(lastHosts) == Some(active) && old(lastIgnored) == Some(ignored)
        then server.zones == old(server.zones) && server.calls == old(server.calls)
        else
          && Bucketing(zoneMap, active, actives) && Bucketing(zoneMap, ignored, ignoreds)
          && Synced(policy, zoneMap, cleanup, old(server.zones), server.zones, actives, ignoreds, server.reliable)
          && old(server.calls) <= server.calls && old(server.lists) <= server.lists
          && (forall id :: id in server.lists[|old(server.lists)|..] <==>
                id in ToSync(zoneMap, cleanup, actives, ignoreds))
          && SentIn(policy, zoneMap, cleanup, old(server.zones), actives, ignoreds,
               server.calls[|old(server.calls)|..], ToSync(zoneMap, cleanup, actives, ignoreds), server.reliable)
    {
      hide Synced, AllSettled, SentIn, ToSync, Bucketing, MeshHosts.Gather, MeshHosts.PlainGather;
      actives, ignoreds := map[], map[];
      var activeHosts, ignoredHosts;
      match extractor {
        case Filtered(filter, filterValue) =>
          activeHosts, ignoredHosts, orders := MeshHosts.ExtractMeshHosts(services, filter, filterValue);
        case Unfiltered =>
          activeHosts, ignoredHosts, orders := MeshHosts.ExtractPlainHosts(services);
      }
      active, ignored := activeHosts, ignoredHosts;
      if lastHosts != Some(activeHosts) || lastIgnored != Some(ignoredHosts) {
        actives, ignoreds := Sync(activeHosts, ignoredHosts);
        lastHosts, lastIgnored := Some(activeHosts), Some(ignoredHosts);
      }
    }

    lemma ProgressStarts(zoneId: string)
      requires Valid() && zoneId in server.zones
      ensures Progress(zoneId, server.zones, {}, {}, [])
    {
      var records := server.zones[zoneId];
      NothingDone(policy, records, {}, {}, false);
      assert Retarget(policy, records, {}) + [] == records;
      assert server.zones[zoneId := records] == server.zones;
    }

    lemma ProgressEnds(zoneId: string, start: map<string, Zone>, active: set<string>, updated: set<string>,
        created: Zone)
      requires zoneId in start && Progress(zoneId, start, active, updated, created)
      ensures zoneId in server.zones
      ensures server.zones == start[zoneId := Retarget(policy, start[zoneId], updated) + created]
      ensures updated <= active && Created(policy, start[zoneId], created) && NamesOf(created) <= active
      ensures server.reliable ==> updated == active && NamesOf(created) == active - NamesOf(start[zoneId])
      ensures forall id <- IdsOf(start[zoneId]) :: id < server.nextId
      ensures forall id <- IdsOf(created) :: id < server.nextId
    {
    }
  }

  /** The zones a sync visits. */
  function ToSync(zones: ZoneMap, cleanup: bool, actives: map<string, string>,
      ignoreds: map<string, string>): set<string> {
    (if cleanup then zones.Values else {}) + ZonesOf(zones, actives) + ZonesOf(zones, ignoreds)
  }

  function ZonesOf(zones: ZoneMap, choice: map<string, string>): set<string> {
    set host | host in choice && choice[host] in zones :: zones[choice[host]]
  }

  lemma ZonesNamed(zones: ZoneMap, hosts: set<string>, choice: map<string, string>, buckets: map<string, set<string>>)
    requires Bucketing(zones, hosts, choice) && Filled(zones, choice, buckets)
    ensures buckets.Keys == ZonesOf(zones, choice) && buckets.Keys <= zones.Values
  {
    hide InZone;
    forall id | id in buckets ensures id in ZonesOf(zones, choice) && id in zones.Values {
      assert Lookup(buckets, id) == Bucket(zones, choice, id);
      var host :| host in buckets[id];
    }
    forall id | id in ZonesOf(zones, choice) ensures id in buckets {
      assert Lookup(buckets, id) == Bucket(zones, choice, id);
      var host :| host in choice && choice[host] in zones && zones[choice[host]] == id;
      assert host in Bucket(zones, choice, id);
    }
  }

  /** What a sync of the zones in `visited` may leave, given how hosts were bucketed. */
  ghost predicate SyncedIn(p: Policy, zones: ZoneMap, cleanup: bool, before: map<string, Zone>,
      after: map<string, Zone>,
      actives: map<string, string>, ignoreds: map<string, string>, visited: set<string>, faultFree: bool)
  {
    && after.Keys == before.Keys
    && forall id <- before :: if id in visited
         then ZoneSynced(p, before[id], after[id], Bucket(zones, actives, id), Bucket(zones, ignoreds, id), cleanup,
                faultFree)
         else after[id] == before[id]
  }

  ghost predicate Synced(p: Policy, zones: ZoneMap, cleanup: bool, before: map<string, Zone>, after: map<string, Zone>,
      actives: map<string, string>, ignoreds: map<string, string>, faultFree: bool)
  {
    SyncedIn(p, zones, cleanup, before, after, actives, ignoreds, ToSync(zones, cleanup, actives, ignoreds), faultFree)
  }

  ghost predicate ZoneSettled(p: Policy, zones: ZoneMap, cleanup: bool, at: map<string, Zone>,
      actives: map<string, string>,
      ignoreds: map<string, string>, id: string)
  {
    id in at && Settled(p, at[id], Bucket(zones, actives, id), Bucket(zones, ignoreds, id), cleanup)
  }

  ghost predicate SettledIn(p: Policy, zones: ZoneMap, cleanup: bool, at: map<string, Zone>,
      actives: map<string, string>,
      ignoreds: map<string, string>, visited: set<string>)
  {
    forall id <- visited :: ZoneSettled(p, zones, cleanup, at, actives, ignoreds, id)
  }

  ghost predicate AllSettled(p: Policy, zones: ZoneMap, cleanup: bool, at: map<string, Zone>,
      actives: map<string, string>,
      ignoreds: map<string, string>)
  {
    SettledIn(p, zones, cleanup, at, actives, ignoreds, ToSync(zones, cleanup, actives, ignoreds))
  }

  lemma NoZoneYet(p: Policy, zones: ZoneMap, cleanup: bool, start: map<string, Zone>,
      actives: map<string, string>, ignoreds: map<string, string>, faultFree: bool)
    ensures SyncedIn(p, zones, cleanup, start, start, actives, ignoreds, {}, faultFree)
    ensures SettledIn(p, zones, cleanup, start, actives, ignoreds, {})
    ensures SentIn(p, zones, cleanup, start, actives, ignoreds, [], {}, faultFree)
  {
  }

  /** What was sent to a zone: every write that was due, or nothing where the zone could not be listed. */
  ghost predicate ZoneSent(p: Policy, zones: ZoneMap, cleanup: bool, start: map<string, Zone>,
      actives: map<string, string>, ignoreds: map<string, string>, sent: seq<Call>, id: string, faultFree: bool)
  {
    && id in start
    && ((!faultFree && forall c <- sent :: c.zoneId != id) ||
        forall c: Call | c.zoneId == id :: c in sent <==>
          Due(p, id, start[id], Bucket(zones, actives, id), Bucket(zones, ignoreds, id), cleanup, c))
  }

  ghost predicate SentIn(p: Policy, zones: ZoneMap, cleanup: bool, start: map<string, Zone>,
      actives: map<string, string>, ignoreds: map<string, string>, sent: seq<Call>, visited: set<string>,
      faultFree: bool)
  {
    && (forall c <- sent :: c.zoneId in visited)
    && forall id <- visited :: ZoneSent(p, zones, cleanup, start, actives, ignoreds, sent, id, faultFree)
  }

  lemma OneMoreSent(p: Policy, zones: ZoneMap, cleanup: bool, start: map<string, Zone>, actives: map<string, string>,
      ignoreds: map<string, string>, sent: seq<Call>, more: seq<Call>, visited: set<string>, id: string,
      faultFree: bool)
    requires SentIn(p, zones, cleanup, start, actives, ignoreds, sent, visited, faultFree)
    requires id in start && id !in visited
    requires (!faultFree && more == []) || forall c :: c in more <==>
      Due(p, id, start[id], Bucket(zones, actives, id), Bucket(zones, ignoreds, id), cleanup, c)
    ensures SentIn(p, zones, cleanup, start, actives, ignoreds, sent + more, visited + {id}, faultFree)
  {
  }

  /** Before a zone is visited it is as it was, so it is settled now if it was settled at the start. */
  lemma OneMoreZone(p: Policy, zones: ZoneMap, cleanup: bool, start: map<string, Zone>, now: map<string, Zone>,
      actives: map<string, string>, ignoreds: map<string, string>, visited: set<string>, id: string, faultFree: bool)
    requires SyncedIn(p, zones, cleanup, start, now, actives, ignoreds, visited, faultFree)
    requires id in now && id !in visited
    ensures id in start && now[id] == start[id]
    ensures SettledIn(p, zones, cleanup, start, actives, ignoreds, visited + {id}) <==>
      SettledIn(p, zones, cleanup, start, actives, ignoreds, visited) &&
      Settled(p, now[id], Bucket(zones, actives, id), Bucket(zones, ignoreds, id), cleanup)
  {
  }

  lemma OneMoreSynced(p: Policy, zones: ZoneMap, cleanup: bool, start: map<string, Zone>, between: map<string, Zone>,
      now: map<string, Zone>, actives: map<string, string>, ignoreds: map<string, string>, visited: set<string>,
      id: string,
      faultFree: bool)
    requires SyncedIn(p, zones, cleanup, start, between, actives, ignoreds, visited, faultFree)
    requires id in between && id !in visited && id in now && now == between[id := now[id]]
    requires ZoneSynced(p, between[id], now[id], Bucket(zones, actives, id), Bucket(zones, ignoreds, id), cleanup,
               faultFree)
    ensures SyncedIn(p, zones, cleanup, start, now, actives, ignoreds, visited + {id}, faultFree)
  {
  }

  lemma NoneStale(p: Policy, active: set<string>, ignored: set<string>)
    ensures StaleIds(p, [], active, ignored, true) == {}
  {
  }

  lemma StaleIdsGrow(p: Policy, records: Zone, active: set<string>, ignored: set<string>, k: nat)
    requires k < |records|
    ensures StaleIds(p, records[..k + 1], active, ignored, true) ==
      StaleIds(p, records[..k], active, ignored, true) +
        if Stale(p, records[k], active, ignored) then {records[k].id} else {}
  {
  }

  lemma NoCleanup(p: Policy, records: Zone, active: set<string>, ignored: set<string>, zone: Zone)
    ensures StaleIds(p, records, active, ignored, false) == {} && Drop(zone, {}) == zone
  {
  }

  /** Doing nothing is a possible outcome when calls may fail. */
  lemma NothingDone(p: Policy, zone: Zone, active: set<string>, ignored: set<string>, cleanup: bool)
    ensures Outcome(p, zone, zone, active, ignored, cleanup, {}, {}, [], false)
  {
    DropNothing(zone, {});
    assert Retarget(p, zone, {}) == zone;
    assert zone + [] == zone;
  }

  lemma OutcomeReached(p: Policy, before: Zone, active: set<string>, ignored: set<string>, cleanup: bool,
      updated: set<string>, gone: set<nat>, created: Zone, faultFree: bool)
    requires UniqueIds(before)
    requires updated <= active && Created(p, before, created) && NamesOf(created) <= active
    requires gone <= StaleIds(p, before, active, ignored, cleanup)
    requires faultFree ==> updated == active && NamesOf(created) == active - NamesOf(before)
    requires faultFree ==> gone == StaleIds(p, before, active, ignored, cleanup)
    ensures var after := Drop(Retarget(p, before, updated) + created, gone);
      && Outcome(p, before, after, active, ignored, cleanup, updated, gone, created, faultFree)
      && UniqueIds(after) && IdsOf(after) <= IdsOf(before) + IdsOf(created)
  {
    hide NeedsUpdate, Owned;
    var z := Retarget(p, before, updated);
    var after := Drop(z + created, gone);
    DropAppend(z, created, gone);
    assert gone <= IdsOf(before);
    DropNothing(created, gone);
    assert Outcome(p, before, after, active, ignored, cleanup, updated, gone, created, faultFree);
    SyncKeepsIdsUnique(p, before, after, active, ignored, cleanup, faultFree);
    DropMembers(z, gone);
    RetargetFacts(p, before, updated);
    forall r | r in after ensures r.id in IdsOf(before) + IdsOf(created) {
      assert r in Drop(z, gone) || r in created;
    }
  }

  lemma SettledMeans(p: Policy, records: Zone, active: set<string>, ignored: set<string>, cleanup: bool)
    ensures Settled(p, records, active, ignored, cleanup) <==>
      (forall h :: h in active ==> HostSettled(p, records, h)) && StaleIds(p, records, active, ignored, cleanup) == {}
  {
    hide StaleIds;
    NothingStale(p, records, active, ignored, cleanup);
  }

  /** The one call that a host needs has been sent, if it needs one: a create without a record, an update where the
      first record has other content than it should, or another type where types are compared. */
  ghost predicate SentForHost(p: Policy, zoneId: string, records: Zone, host: string, before: seq<Call>,
      after: seq<Call>)
  {
    && (host !in NamesOf(records) ==> after == before + [CreateCall(zoneId, host)])
    && (forall k :: 0 <= k < |records| && records[k].name == host && IsFirst(records, k) ==>
          after == before +
            if records[k].content != p.target || (p.checksType && records[k].typ != p.recordType)
            then [UpdateCall(zoneId, records[k].id, host)] else [])
  }

  /** A write that a zone sync owes: to an active host, or for a record with the target's content and type under a name
      that is neither active nor ignored. */
  ghost predicate Due(p: Policy, zoneId: string, records: Zone, active: set<string>, ignored: set<string>,
      cleanup: bool, c: Call)
  {
    DueToHost(p, zoneId, records, active, c) || DueDelete(p, zoneId, records, active, ignored, cleanup, c)
  }

  ghost predicate DueToHost(p: Policy, zoneId: string, records: Zone, hosts: set<string>, c: Call) {
    match c
    case CreateCall(z, name) => z == zoneId && name in hosts && name !in NamesOf(records)
    case UpdateCall(z, id, name) =>
      && z == zoneId && name in hosts
      && exists k :: 0 <= k < |records| && records[k].name == name && records[k].id == id && IsFirst(records, k)
           && (records[k].content != p.target || (p.checksType && records[k].typ != p.recordType))
    case DeleteCall(_, _) => false
  }

  ghost predicate DueDelete(p: Policy, zoneId: string, records: Zone, active: set<string>, ignored: set<string>,
      cleanup: bool, c: Call)
  {
    cleanup && c.DeleteCall? && c.zoneId == zoneId && exists r <- records ::
      r.id == c.id && r.name !in active && r.name !in ignored && r.content == p.target && r.typ == p.recordType
  }

  lemma NothingDue(p: Policy, zoneId: string, records: Zone, active: set<string>, ignored: set<string>, c: Call)
    ensures !DueToHost(p, zoneId, records, {}, c)
    ensures !DueDelete(p, zoneId, [], active, ignored, true, c)
    ensures !DueDelete(p, zoneId, records, active, ignored, false, c)
  {
  }

  lemma HostDue(p: Policy, zoneId: string, records: Zone, done: set<string>, host: string, before: seq<Call>,
      after: seq<Call>, c: Call)
    requires SentForHost(p, zoneId, records, host, before, after) && before <= after
    ensures DueToHost(p, zoneId, records, done + {host}, c) <==>
      DueToHost(p, zoneId, records, done, c) || c in after[|before|..]
  {
    if host in NamesOf(records) {
      var k := FirstOf(records, host);
      forall j | 0 <= j < |records| && records[j].name == host && IsFirst(records, j) ensures j == k {
        SameFirst(records, j, k);
      }
    }
  }

  lemma DeletesGrow(p: Policy, zoneId: string, records: Zone, active: set<string>, ignored: set<string>, k: nat, n: nat,
      before: seq<Call>, after: seq<Call>)
    requires k < |records| && n <= |before|
    requires after == before + if Stale(p, records[k], active, ignored) then [DeleteCall(zoneId, records[k].id)] else []
    requires forall c :: c in before[n..] <==> DueDelete(p, zoneId, records[..k], active, ignored, true, c)
    ensures forall c :: c in after[n..] <==> DueDelete(p, zoneId, records[..k + 1], active, ignored, true, c)
  {
    assert records[..k + 1] == records[..k] + [records[k]];
    assert after[n..] == before[n..] + after[|before|..];
  }

  /** The host has a record, and its first one says what it should. */
  ghost predicate HostSettled(p: Policy, records: Zone, host: string) {
    && host in NamesOf(records)
    && forall k :: 0 <= k < |records| && records[k].name == host && IsFirst(records, k) ==>
         records[k].content == p.target && (p.checksType ==> records[k].typ == p.recordType)
  }

  lemma NoRecord(records: Zone, host: string)
    requires forall j :: 0 <= j < |records| ==> records[j].name != host
    ensures host !in NamesOf(records)
  {
  }

  lemma FirstIsOnly(records: Zone, k: nat)
    requires k < |records| && forall j :: 0 <= j < k ==> records[j].name != records[k].name
    ensures IsFirst(records, k) && records[k].name in NamesOf(records)
    ensures forall j :: 0 <= j < |records| && records[j].name == records[k].name && IsFirst(records, j) ==> j == k
  {
  }
}
