/** Whole runs of a DNS client: cycle after cycle of `Process` against the provider's zones, with no outside writer. */
module DnsRuns {
  import opened Text
  import opened DnsZones
  import opened DnsRecords
  import opened DnsClient
  import MeshHosts

  type Zones = map<string, Zone>

  datatype Config = Config(policy: Policy, zones: ZoneMap, cleanup: bool)

  /** What one cycle extracts from the running containers. */
  datatype Input = Input(active: set<string>, ignored: set<string>)

  /** The assumptions on zones under which bucketing does not depend on map order. */
  ghost predicate GoodZones(c: Config) {
    NotNested(c.zones) && DistinctIds(c.zones)
  }

  /** Record ids are unique and every record's name lies in its zone. */
  ghost predicate GoodRecords(c: Config, st: Zones) {
    forall d <- c.zones :: c.zones[d] in st && GoodZone(st[c.zones[d]], d)
  }

  ghost predicate GoodZone(zone: Zone, domain: string) {
    UniqueIds(zone) && forall r <- zone :: InZone(r.name, domain)
  }

  function Active(c: Config, i: Input, id: string): set<string> {
    HostsIn(c.zones, i.active, id)
  }

  function Ignored(c: Config, i: Input, id: string): set<string> {
    HostsIn(c.zones, i.ignored, id)
  }

  /** The zones a sync of this input visits. */
  predicate Visits(c: Config, i: Input, id: string) {
    || (c.cleanup && id in c.zones.Values)
    || Active(c, i, id) != {}
    || Ignored(c, i, id) != {}
  }

  /** One whole sync, described without reference to any iteration order. */
  ghost predicate SyncStep(c: Config, i: Input, before: Zones, after: Zones, faultFree: bool) {
    after.Keys == before.Keys && forall id <- before :: ZoneStep(c, i, before, after, id, faultFree)
  }

  ghost predicate ZoneStep(c: Config, i: Input, before: Zones, after: Zones, id: string, faultFree: bool)
    requires id in before
  {
    id in after &&
    if Visits(c, i, id)
    then ZoneSynced(c.policy, before[id], after[id], Active(c, i, id), Ignored(c, i, id), c.cleanup, faultFree)
    else after[id] == before[id]
  }

  lemma VisitsForced(c: Config, i: Input, actives: map<string, string>, ignoreds: map<string, string>, id: string)
    requires NotNested(c.zones)
    requires Bucketing(c.zones, i.active, actives) && Bucketing(c.zones, i.ignored, ignoreds)
    ensures Bucket(c.zones, actives, id) == Active(c, i, id) && Bucket(c.zones, ignoreds, id) == Ignored(c, i, id)
    ensures id in ToSync(c.zones, c.cleanup, actives, ignoreds) <==> Visits(c, i, id)
  {
    hide NotNested, Bucketing, HostsIn;
    BucketsAreForced(c.zones, i.active, actives, id);
    BucketsAreForced(c.zones, i.ignored, ignoreds, id);
    ZoneHasHost(c.zones, actives, id);
    ZoneHasHost(c.zones, ignoreds, id);
  }

  lemma ZoneHasHost(zones: ZoneMap, choice: map<string, string>, id: string)
    ensures id in ZonesOf(zones, choice) <==> Bucket(zones, choice, id) != {}
  {
    if Bucket(zones, choice, id) != {} {
      var host :| host in Bucket(zones, choice, id);
    }
    if id in ZonesOf(zones, choice) {
      var host :| host in choice && choice[host] in zones && zones[choice[host]] == id;
      assert host in Bucket(zones, choice, id);
    }
  }

  /** With zones that are not nested, every order in which `Sync` may visit hosts and zones is this one step. */
  lemma SyncIsOrderFree(c: Config, i: Input, before: Zones, after: Zones, actives: map<string, string>,
      ignoreds: map<string, string>, faultFree: bool)
    requires NotNested(c.zones)
    requires Bucketing(c.zones, i.active, actives) && Bucketing(c.zones, i.ignored, ignoreds)
    ensures Synced(c.policy, c.zones, c.cleanup, before, after, actives, ignoreds, faultFree)
      <==> SyncStep(c, i, before, after, faultFree)
  {
    hide NotNested, Bucketing, ZoneSynced, Bucket, Visits, ToSync, Active, Ignored;
    forall id | id in before
      ensures Bucket(c.zones, actives, id) == Active(c, i, id) && Bucket(c.zones, ignoreds, id) == Ignored(c, i, id)
      ensures id in ToSync(c.zones, c.cleanup, actives, ignoreds) <==> Visits(c, i, id)
    {
      VisitsForced(c, i, actives, ignoreds, id);
    }
  }

  ghost predicate SettledFor(c: Config, i: Input, st: Zones) {
    forall id <- st :: Visits(c, i, id) ==> Settled(c.policy, st[id], Active(c, i, id), Ignored(c, i, id), c.cleanup)
  }

  ghost predicate AllUnique(st: Zones) {
    forall id <- st :: UniqueIds(st[id])
  }

  lemma StepSettles(c: Config, i: Input, before: Zones, after: Zones)
    requires AllUnique(before) && SyncStep(c, i, before, after, true)
    ensures SettledFor(c, i, after) && AllUnique(after)
  {
    hide Visits, Active, Ignored, ZoneSynced, Settled, UniqueIds;
    forall id | id in after
      ensures Visits(c, i, id) ==> Settled(c.policy, after[id], Active(c, i, id), Ignored(c, i, id), c.cleanup)
      ensures UniqueIds(after[id])
    {
      assert ZoneStep(c, i, before, after, id, true);
      if Visits(c, i, id) {
        SyncSettles(c.policy, before[id], after[id], Active(c, i, id), Ignored(c, i, id), c.cleanup);
        SyncKeepsIdsUnique(c.policy, before[id], after[id], Active(c, i, id), Ignored(c, i, id), c.cleanup, true);
      }
    }
  }

  /** Once settled, a sync for the same input may do one thing only: nothing. */
  lemma SettledStep(c: Config, i: Input, st: Zones, after: Zones, faultFree: bool)
    requires SettledFor(c, i, st)
    ensures SyncStep(c, i, st, after, faultFree) <==> after == st
  {
    hide Visits, Active, Ignored, ZoneSynced, Settled;
    forall id | id in st && id in after
      ensures ZoneStep(c, i, st, after, id, faultFree) <==> after[id] == st[id]
    {
      if Visits(c, i, id) {
        SettledIsFixed(c.policy, st[id], after[id], Active(c, i, id), Ignored(c, i, id), c.cleanup, faultFree);
      }
    }
    if SyncStep(c, i, st, after, faultFree) {
      assert forall id <- st :: ZoneStep(c, i, st, after, id, faultFree);
    }
  }

  // ---------- memoised and simple runs ----------

  /** What `Process` compares the input of cycle `k` with: the input of the cycle before, nothing in the first one. */
  function Remembered(inputs: seq<Input>, k: nat): Option<Input>
    requires k <= |inputs|
  {
    if k == 0 then None else Some(inputs[k - 1])
  }

  ghost predicate Cycle(c: Config, inputs: seq<Input>, j: nat, before: Zones, after: Zones)
    requires j < |inputs|
  {
    if Remembered(inputs, j) == Some(inputs[j]) then after == before else SyncStep(c, inputs[j], before, after, true)
  }

  ghost predicate MemoStep(c: Config, inputs: seq<Input>, states: seq<Zones>, k: nat)
    requires |states| == |inputs| + 1 && k < |inputs|
  {
    Cycle(c, inputs, k, states[k], states[k + 1])
  }

  /** `Process` cycle by cycle, skipping when the input is the one remembered. */
  ghost predicate MemoRun(c: Config, inputs: seq<Input>, states: seq<Zones>) {
    |states| == |inputs| + 1 && forall k: nat :: k < |inputs| ==> MemoStep(c, inputs, states, k)
  }

  /** `Sync` in every cycle. */
  ghost predicate SimpleRun(c: Config, inputs: seq<Input>, states: seq<Zones>) {
    |states| == |inputs| + 1 && forall k: nat :: k < |inputs| ==> SyncStep(c, inputs[k], states[k], states[k + 1], true)
  }

  ghost predicate SettledAt(c: Config, inputs: seq<Input>, states: seq<Zones>, k: nat)
    requires k < |states| && k <= |inputs|
  {
    AllUnique(states[k]) && (k > 0 ==> SettledFor(c, inputs[k - 1], states[k]))
  }

  lemma {:induction false} EachCycleSettles(c: Config, inputs: seq<Input>, states: seq<Zones>, k: nat)
    requires |states| == |inputs| + 1 && k < |states| && AllUnique(states[0])
    requires forall j: nat :: j < k ==>
      MemoStep(c, inputs, states, j) || SyncStep(c, inputs[j], states[j], states[j + 1], true)
    ensures SettledAt(c, inputs, states, k)
  {
    hide SyncStep, SettledFor, AllUnique;
    if k > 0 {
      EachCycleSettles(c, inputs, states, k - 1);
      if SyncStep(c, inputs[k - 1], states[k - 1], states[k], true) {
        StepSettles(c, inputs[k - 1], states[k - 1], states[k]);
      } else {
        assert MemoStep(c, inputs, states, k - 1);
      }
    }
  }

  lemma MemoStepIsSync(c: Config, inputs: seq<Input>, states: seq<Zones>, k: nat)
    requires |states| == |inputs| + 1 && k < |inputs| && SettledAt(c, inputs, states, k)
    ensures MemoStep(c, inputs, states, k) <==> SyncStep(c, inputs[k], states[k], states[k + 1], true)
  {
    hide SyncStep, SettledFor, AllUnique;
    if Remembered(inputs, k) == Some(inputs[k]) {
      SettledStep(c, inputs[k], states[k], states[k + 1], true);
    }
  }

  /** For every sequence of cycles without failures, the histories of remote records that skipping unchanged cycles can
      produce are exactly those that syncing in every cycle can produce. */
  lemma MemoIsSimple(c: Config, inputs: seq<Input>, states: seq<Zones>)
    requires states != [] && AllUnique(states[0])
    ensures MemoRun(c, inputs, states) <==> SimpleRun(c, inputs, states)
  {
    hide SyncStep, MemoStep, AllUnique, SettledAt;
    if MemoRun(c, inputs, states) {
      forall k: nat | k < |inputs| ensures SyncStep(c, inputs[k], states[k], states[k + 1], true) {
        EachCycleSettles(c, inputs, states, k);
        MemoStepIsSync(c, inputs, states, k);
      }
    }
    if SimpleRun(c, inputs, states) {
      forall k: nat | k < |inputs| ensures MemoStep(c, inputs, states, k) {
        EachCycleSettles(c, inputs, states, k);
        MemoStepIsSync(c, inputs, states, k);
      }
    }
  }

  /** A second sync right after a fault-free one, with the same input, leaves every zone as it is. */
  lemma SyncTwice(c: Config, i: Input, first: Zones, second: Zones, third: Zones, faultFree: bool)
    requires AllUnique(first) && SyncStep(c, i, first, second, true)
    ensures SyncStep(c, i, second, third, faultFree) <==> third == second
  {
    StepSettles(c, i, first, second);
    SettledStep(c, i, second, third, faultFree);
  }

  lemma SettledMeansQuiet(c: Config, i: Input, st: Zones, actives: map<string, string>, ignoreds: map<string, string>)
    requires NotNested(c.zones) && SettledFor(c, i, st) && forall d <- c.zones :: c.zones[d] in st
    requires Bucketing(c.zones, i.active, actives) && Bucketing(c.zones, i.ignored, ignoreds)
    ensures AllSettled(c.policy, c.zones, c.cleanup, st, actives, ignoreds)
  {
    hide NotNested, Bucketing, Settled, Bucket, Visits, Active, Ignored;
    forall id | id in ToSync(c.zones, c.cleanup, actives, ignoreds)
      ensures ZoneSettled(c.policy, c.zones, c.cleanup, st, actives, ignoreds, id)
    {
      VisitsForced(c, i, actives, ignoreds, id);
    }
  }

  /** A sync of which no call fails leaves its input settled. */
  method SyncAndSettle(client: Client, active: set<string>, ignored: set<string>)
    requires client.Valid() && client.server.reliable && NotNested(client.zoneMap)
    modifies client.server
    ensures client.Valid()
    ensures var c, i := Config(client.policy, client.zoneMap, client.cleanup), Input(active, ignored);
      && SyncStep(c, i, old(client.server.zones), client.server.zones, true)
      && SettledFor(c, i, client.server.zones)
  {
    hide NotNested, Bucketing, Synced, SyncStep, SettledFor, AllSettled;
    ghost var c, i := Config(client.policy, client.zoneMap, client.cleanup), Input(active, ignored);
    ghost var start := client.server.zones;
    ghost var actives, ignoreds := client.Sync(active, ignored);
    SyncIsOrderFree(c, i, start, client.server.zones, actives, ignoreds, true);
    StepSettles(c, i, start, client.server.zones);
  }

  /** A sync for a settled input sends no update, create or delete and changes nothing, in whatever order it meets hosts
      and zones, whatever would fail, and even where several records share a name. */
  method Resync(client: Client, active: set<string>, ignored: set<string>)
    requires client.Valid() && NotNested(client.zoneMap)
    requires SettledFor(Config(client.policy, client.zoneMap, client.cleanup), Input(active, ignored),
               client.server.zones)
    modifies client.server
    ensures client.Valid()
    ensures client.server.calls == old(client.server.calls) && client.server.zones == old(client.server.zones)
  {
    hide NotNested, Bucketing, Synced, SyncStep, SettledFor, AllSettled;
    ghost var c, i := Config(client.policy, client.zoneMap, client.cleanup), Input(active, ignored);
    ghost var settled := client.server.zones;
    ghost var actives, ignoreds := client.Sync(active, ignored);
    SettledMeansQuiet(c, i, settled, actives, ignoreds);
    SyncIsOrderFree(c, i, settled, client.server.zones, actives, ignoreds, client.server.reliable);
    SettledStep(c, i, settled, client.server.zones, client.server.reliable);
  }

  // ---------- what may be deleted ----------

  lemma InputInZone(c: Config, hosts: set<string>, name: string, d: string)
    requires GoodZones(c) && d in c.zones
    ensures name in HostsIn(c.zones, hosts, c.zones[d]) <==> name in hosts && InZone(name, d)
  {
  }

  lemma StepKeepsGood(c: Config, i: Input, before: Zones, after: Zones, faultFree: bool)
    requires GoodZones(c) && GoodRecords(c, before) && SyncStep(c, i, before, after, faultFree)
    ensures GoodRecords(c, after)
  {
    hide InZone, NotNested, ZoneSynced, Visits, UniqueIds;
    forall d | d in c.zones ensures c.zones[d] in after && GoodZone(after[c.zones[d]], d) {
      var id := c.zones[d];
      assert ZoneStep(c, i, before, after, id, faultFree) && GoodZone(before[id], d);
      if Visits(c, i, id) {
        SyncKeepsIdsUnique(c.policy, before[id], after[id], Active(c, i, id), Ignored(c, i, id), c.cleanup, faultFree);
        forall r | r in after[id] ensures InZone(r.name, d) {
          assert r.name in NamesOf(after[id]);
          if r.name in NamesOf(before[id]) {
            var q :| q in before[id] && q.name == r.name;
          } else {
            InputInZone(c, i.active, r.name, d);
          }
        }
      }
    }
  }

  /** One sync, whatever fails: a record that vanished had a name neither active nor ignored in the whole input and the
      target's content and type, and cleanup was on; every record whose name is not active and that was not owned, or
      was ignored, is still there as it was. */
  lemma StepLock(c: Config, i: Input, before: Zones, after: Zones, faultFree: bool, d: string, r: Record)
    requires GoodZones(c) && GoodRecords(c, before) && SyncStep(c, i, before, after, faultFree)
    requires d in c.zones && r in before[c.zones[d]]
    ensures r.id !in IdsOf(after[c.zones[d]]) ==>
      && c.cleanup && r.name !in i.active && r.name !in i.ignored
      && r.content == c.policy.target && r.typ == c.policy.recordType
    ensures r.name !in i.active ==>
      !c.cleanup || r.name in i.ignored || r.content != c.policy.target || r.typ != c.policy.recordType ==>
      r in after[c.zones[d]]
  {
    hide InZone, NotNested, ZoneSynced, Visits, UniqueIds;
    var id := c.zones[d];
    assert ZoneStep(c, i, before, after, id, faultFree) && GoodZone(before[id], d);
    InputInZone(c, i.active, r.name, d);
    InputInZone(c, i.ignored, r.name, d);
    if Visits(c, i, id) {
      TargetLock(c.policy, before[id], after[id], Active(c, i, id), Ignored(c, i, id), c.cleanup, faultFree, r);
    } else {
      assert r.id in IdsOf(before[id]);
    }
  }

  /** Cycles in which any call may fail; a cycle may also be skipped. */
  ghost predicate FaultyRun(c: Config, inputs: seq<Input>, states: seq<Zones>) {
    && |states| == |inputs| + 1
    && forall k :: 0 <= k < |inputs| ==>
         states[k + 1] == states[k] || SyncStep(c, inputs[k], states[k], states[k + 1], false)
  }

  lemma {:induction false} RunKeepsGood(c: Config, inputs: seq<Input>, states: seq<Zones>, k: nat)
    requires FaultyRun(c, inputs, states) && k < |states|
    requires GoodZones(c) && GoodRecords(c, states[0])
    ensures GoodRecords(c, states[k])
  {
    hide SyncStep, GoodRecords, GoodZones;
    if k > 0 {
      RunKeepsGood(c, inputs, states, k - 1);
      if states[k] != states[k - 1] {
        StepKeepsGood(c, inputs[k - 1], states[k - 1], states[k], false);
      }
    }
  }

  /** The target lock over whole runs: in no cycle, whatever calls fail, does a record disappear unless cleanup is on,
      its name is in neither host set of that cycle, and its content and type are the target's. */
  lemma TargetLockOverRuns(c: Config, inputs: seq<Input>, states: seq<Zones>, k: nat, d: string, r: Record)
    requires FaultyRun(c, inputs, states) && k < |inputs|
    requires GoodZones(c) && GoodRecords(c, states[0])
    requires d in c.zones && c.zones[d] in states[k] && r in states[k][c.zones[d]]
    ensures c.zones[d] in states[k + 1]
    ensures r.id !in IdsOf(states[k + 1][c.zones[d]]) ==>
      && c.cleanup && r.name !in inputs[k].active && r.name !in inputs[k].ignored
      && r.content == c.policy.target && r.typ == c.policy.recordType
  {
    hide GoodZones, GoodZone, ZoneStep;
    RunKeepsGood(c, inputs, states, k);
    RunKeepsGood(c, inputs, states, k + 1);
    if states[k + 1] == states[k] {
      assert r.id in IdsOf(states[k][c.zones[d]]);
    } else {
      StepLock(c, inputs[k], states[k], states[k + 1], false, d, r);
    }
  }

  // ---------- writes that failed ----------

  /** A cycle in which any call may fail. Both host sets are remembered whether or not it does. */
  ghost predicate FaultyCycle(c: Config, inputs: seq<Input>, j: nat, before: Zones, after: Zones)
    requires j < |inputs|
  {
    if Remembered(inputs, j) == Some(inputs[j]) then after == before else SyncStep(c, inputs[j], before, after, false)
  }

  ghost predicate FaultyMemoRun(c: Config, inputs: seq<Input>, states: seq<Zones>) {
    && |states| == |inputs| + 1
    && forall j: nat :: j < |inputs| ==> FaultyCycle(c, inputs, j, states[j], states[j + 1])
  }

  /** A write that failed is not sent again while the extracted hosts stay what they are: all that time the records stay
      what the cycle left, settled or not. */
  lemma {:induction false} FailedWritesStay(c: Config, inputs: seq<Input>, states: seq<Zones>, k: nat, l: nat)
    requires FaultyMemoRun(c, inputs, states) && k < l <= |inputs|
    requires forall j :: k < j < l ==> inputs[j] == inputs[k]
    ensures states[l] == states[k + 1]
    ensures SettledFor(c, inputs[k], states[l]) <==> SettledFor(c, inputs[k], states[k + 1])
  {
    if l > k + 1 {
      hide SyncStep, SettledFor;
      FailedWritesStay(c, inputs, states, k, l - 1);
      assert FaultyCycle(c, inputs, l - 1, states[l - 1], states[l]);
    }
  }

  /** And a cycle may leave any records as they were, when its calls fail; so there are runs of any length that never
      settle what was not settled. */
  lemma NeverSettled(c: Config, i: Input, st: Zones, n: nat)
    ensures SyncStep(c, i, st, st, false)
    ensures var inputs, states := seq(n, _ => i), seq(n + 1, _ => st); FaultyMemoRun(c, inputs, states)
  {
    hide Visits, Active, Ignored, Outcome;
    forall id | id in st ensures ZoneStep(c, i, st, st, id, false) {
      if Visits(c, i, id) {
        NothingDone(c.policy, st[id], Active(c, i, id), Ignored(c, i, id), c.cleanup);
        assert Outcome(c.policy, st[id], st[id], Active(c, i, id), Ignored(c, i, id), c.cleanup, {}, {}, [], false);
      }
    }
  }

  // ---------- exact reconciliation ----------

  /** The names that own a record with the target's content and type, in any of the configured zones. */
  ghost function OwnersAll(c: Config, st: Zones): set<string> {
    set d, n | d in c.zones && c.zones[d] in st && n in Owners(c.policy, st[c.zones[d]]) :: n
  }

  function WithZone(c: Config, hosts: set<string>): set<string> {
    set h, d | h in hosts && d in c.zones && InZone(h, d) :: h
  }

  /** The host's first record has the target's content, types are not compared, and none of its records has the target's
      content and type. */
  ghost predicate LeftUnowned(c: Config, st: Zones, d: string, host: string)
    requires d in c.zones && c.zones[d] in st
  {
    var zone := st[c.zones[d]];
    && !c.policy.checksType
    && (exists k :: 0 <= k < |zone| && zone[k].name == host && zone[k].content == c.policy.target && IsFirst(zone, k))
    && forall r <- zone :: r.name != host || r.content != c.policy.target || r.typ != c.policy.recordType
  }

  lemma LeftIsSkipped(c: Config, st: Zones, d: string, host: string)
    requires d in c.zones && c.zones[d] in st
    ensures LeftUnowned(c, st, d, host)
      <==> FirstSkipped(c.policy, st[c.zones[d]], host) && host !in Owners(c.policy, st[c.zones[d]])
  {
  }

  lemma OwnerInZone(c: Config, st: Zones, d: string, name: string)
    requires GoodRecords(c, st) && d in c.zones && name in Owners(c.policy, st[c.zones[d]])
    ensures InZone(name, d)
  {
  }

  /** Zone by zone: who owns a record after a fault-free sync with cleanup. */
  lemma OwnersInZone(c: Config, i: Input, before: Zones, after: Zones, d: string, name: string)
    requires GoodZones(c) && GoodRecords(c, before) && SyncStep(c, i, before, after, true) && c.cleanup
    requires d in c.zones && InZone(name, d)
    ensures c.zones[d] in before && c.zones[d] in after
    ensures name in Owners(c.policy, after[c.zones[d]]) <==>
      if name in i.active then !LeftUnowned(c, before, d, name)
      else name in Owners(c.policy, before[c.zones[d]]) && name in i.ignored
  {
    hide InZone, NotNested, ZoneSynced, UniqueIds, Owners, FirstSkipped, LeftUnowned;
    var id := c.zones[d];
    LeftIsSkipped(c, before, d, name);
    assert ZoneStep(c, i, before, after, id, true) && GoodZone(before[id], d);
    InputInZone(c, i.active, name, d);
    InputInZone(c, i.ignored, name, d);
    OwnersAfter(c.policy, before[id], after[id], Active(c, i, id), Ignored(c, i, id), c.cleanup, name);
  }

  /** After a fault-free sync with cleanup the owners are exactly the active hosts that have a zone and the ignored
      hosts that were owners before, if and only if no active host's first record was left alone while unowned. */
  lemma ExactReconciliation(c: Config, i: Input, before: Zones, after: Zones)
    requires GoodZones(c) && GoodRecords(c, before) && SyncStep(c, i, before, after, true) && c.cleanup
    ensures OwnersAll(c, after) == WithZone(c, i.active) + i.ignored * OwnersAll(c, before)
      <==> forall d, h :: d in c.zones && h in i.active && InZone(h, d) ==> !LeftUnowned(c, before, d, h)
  {
    hide InZone, SyncStep, GoodZone, Owners, LeftUnowned, GoodZones;
    StepKeepsGood(c, i, before, after, true);
    forall n
      ensures n in OwnersAll(c, after) ==> n in WithZone(c, i.active) + i.ignored * OwnersAll(c, before)
      ensures n in i.ignored * OwnersAll(c, before) ==> n in OwnersAll(c, after)
    {
      if n in OwnersAll(c, after) {
        var d :| d in c.zones && n in Owners(c.policy, after[c.zones[d]]);
        OwnerInZone(c, after, d, n);
        OwnersInZone(c, i, before, after, d, n);
      }
      if n in i.ignored * OwnersAll(c, before) {
        var d :| d in c.zones && n in Owners(c.policy, before[c.zones[d]]);
        OwnerInZone(c, before, d, n);
        OwnersInZone(c, i, before, after, d, n);
        OwnedNotLeft(c, before, d, n);
      }
    }
    forall d, h | d in c.zones && h in i.active && InZone(h, d)
      ensures h in OwnersAll(c, after) <==> !LeftUnowned(c, before, d, h)
    {
      OwnersInZone(c, i, before, after, d, h);
      OneOwnerZone(c, after, d, h);
    }
  }

  lemma OwnedNotLeft(c: Config, st: Zones, d: string, name: string)
    requires d in c.zones && c.zones[d] in st && name in Owners(c.policy, st[c.zones[d]])
    ensures !LeftUnowned(c, st, d, name)
  {
  }

  lemma OneOwnerZone(c: Config, st: Zones, d: string, name: string)
    requires GoodZones(c) && GoodRecords(c, st) && d in c.zones && InZone(name, d)
    ensures name in OwnersAll(c, st) <==> name in Owners(c.policy, st[c.zones[d]])
  {
    hide InZone, Owners, NotNested, GoodZone;
    if name in OwnersAll(c, st) {
      var e :| e in c.zones && name in Owners(c.policy, st[c.zones[e]]);
      OwnerInZone(c, st, e, name);
      AtMostOneZone(c.zones, name, d, e);
    }
  }

  /** Cloudflare compares the type too, so its reconciliation is always exact. */
  lemma CloudflareIsExact(c: Config, i: Input, before: Zones, after: Zones, target: string, targetIsIp: bool)
    requires GoodZones(c) && GoodRecords(c, before) && SyncStep(c, i, before, after, true) && c.cleanup
    requires c.policy == Cloudflare(target, targetIsIp)
    ensures OwnersAll(c, after) == WithZone(c, i.active) + i.ignored * OwnersAll(c, before)
  {
    hide SyncStep, InZone, GoodZones, GoodZone;
    ExactReconciliation(c, i, before, after);
  }

  /** NetBird compares the content alone, so a host whose first record has the target's content under another type
      counts as settled although it owns nothing. */
  lemma NetBirdLeavesOtherTypes(target: string, host: string, cleanup: bool)
    ensures var zone := [Record(0, host, "CNAME", target)];
      Settled(NetBird(target), zone, {host}, {}, cleanup) && host !in Owners(NetBird(target), zone)
  {
  }

  /** After a fault-free sync every active host with a zone has a record there, and the first one has the target's
      content, and its type where types are compared; with cleanup, no configured zone has a record with the target's
      content and type under a name that is neither active nor ignored. */
  lemma EveryHostServed(c: Config, i: Input, before: Zones, after: Zones, d: string, k: nat, host: string)
    requires GoodZones(c) && GoodRecords(c, before) && SyncStep(c, i, before, after, true) && d in c.zones
    ensures c.zones[d] in after
    ensures host in i.active && (host == d || HasSuffix(host, "." + d)) ==>
      exists r <- after[c.zones[d]] :: r.name == host
    ensures var zone, p := after[c.zones[d]], c.policy;
      k < |zone| && zone[k].name in i.active && (forall j :: 0 <= j < k ==> zone[j].name != zone[k].name) ==>
      zone[k].content == p.target && (p.checksType ==> zone[k].typ == p.recordType)
    ensures c.cleanup ==> forall r <- after[c.zones[d]] ::
      r.content == c.policy.target && r.typ == c.policy.recordType ==> r.name in i.active || r.name in i.ignored
  {
    hide NotNested, ZoneSynced, UniqueIds, InZone;
    var id := c.zones[d];
    assert ZoneStep(c, i, before, after, id, true) && GoodZone(before[id], d);
    StepKeepsGood(c, i, before, after, true);
    assert GoodZone(after[id], d);
    HostHasZone(host, d);
    InputInZone(c, i.active, host, d);
    if Visits(c, i, id) {
      SyncSettles(c.policy, before[id], after[id], Active(c, i, id), Ignored(c, i, id), c.cleanup);
      SettledServes(c.policy, after[id], Active(c, i, id), Ignored(c, i, id), c.cleanup, host);
      forall r | r in after[id] ensures r.name in i.active <==> r.name in Active(c, i, id) {
        InputInZone(c, i.active, r.name, d);
      }
      assert k < |after[id]| ==> after[id][k] in after[id];
    } else {
      forall r | r in after[id] ensures r.name !in i.active {
        InputInZone(c, i.active, r.name, d);
      }
      assert k < |after[id]| ==> after[id][k] in after[id];
    }
  }

  lemma HostHasZone(host: string, d: string)
    ensures InZone(host, d) <==> host == d || HasSuffix(host, "." + d)
  {
  }

  lemma SettledServes(p: Policy, zone: Zone, active: set<string>, ignored: set<string>, cleanup: bool, host: string)
    requires Settled(p, zone, active, ignored, cleanup)
    ensures host in active ==> exists r <- zone :: r.name == host
  {
  }

  /** With Cloudflare that first record is an A record where the target is an address, and a CNAME otherwise. */
  lemma CloudflareServes(c: Config, i: Input, before: Zones, after: Zones, d: string, k: nat, target: string,
      targetIsIp: bool)
    requires GoodZones(c) && GoodRecords(c, before) && SyncStep(c, i, before, after, true) && d in c.zones
    requires c.policy == Cloudflare(target, targetIsIp) && c.zones[d] in after
    ensures var zone := after[c.zones[d]];
      k < |zone| && zone[k].name in i.active && (forall j :: 0 <= j < k ==> zone[j].name != zone[k].name) ==>
      zone[k].content == target && zone[k].typ == if targetIsIp then "A" else "CNAME"
  {
    hide GoodZones, GoodRecords, SyncStep;
    EveryHostServed(c, i, before, after, d, k, "");
  }

  /** With NetBird it has the target as content, whatever its type; records that are new are A records. */
  lemma NetBirdServes(c: Config, i: Input, before: Zones, after: Zones, d: string, r: Record, target: string,
      faultFree: bool)
    requires GoodZones(c) && GoodRecords(c, before) && SyncStep(c, i, before, after, faultFree) && d in c.zones
    requires c.policy == NetBird(target) && c.zones[d] in after
    ensures r in after[c.zones[d]] && r.id !in IdsOf(before[c.zones[d]]) ==>
      r.name in i.active && r.content == target && r.typ == "A"
  {
    hide NotNested, ZoneSynced, UniqueIds, InZone;
    var id := c.zones[d];
    assert ZoneStep(c, i, before, after, id, faultFree) && GoodZone(before[id], d);
    if r in after[id] && r.id !in IdsOf(before[id]) && Visits(c, i, id) {
      NewRecords(c.policy, before[id], after[id], Active(c, i, id), Ignored(c, i, id), c.cleanup, faultFree, r);
      assert r.name in Active(c, i, id);
    }
  }

  // ---------- the client itself, cycle after cycle ----------

  /** What a cycle extracts, which for consistent labels does not depend on any map order. */
  ghost function InputOf(e: Extractor, services: seq<MeshHosts.Service>): Input {
    var orders := MeshHosts.SomeOrders(services);
    Input(Extract(e, services, orders, true), Extract(e, services, orders, false))
  }

  ghost predicate ConsistentFor(e: Extractor, services: seq<MeshHosts.Service>) {
    MeshHosts.AllConsistent(if e.Filtered? then e.filter else None, services)
  }

  lemma ExtractIsInput(e: Extractor, services: seq<MeshHosts.Service>, orders: seq<seq<string>>, active: bool)
    requires ConsistentFor(e, services) && MeshHosts.Orders(services, orders)
    ensures Extract(e, services, orders, active) == Extract(e, services, MeshHosts.SomeOrders(services), active)
  {
    hide MeshHosts.Gather, MeshHosts.PlainGather, MeshHosts.AllConsistent;
    var some := MeshHosts.SomeOrders(services);
    match e
    case Filtered(filter, filterValue) =>
      MeshHosts.GatherIgnoresOrder(filter, filterValue, services, orders, some, active);
    case Unfiltered =>
      MeshHosts.GatherIgnoresOrder(None, "", services, orders, some, active);
      MeshHosts.GatherRefines(None, "", services, orders, active);
      MeshHosts.GatherRefines(None, "", services, some, active);
  }

  /** A cycle may extract this input from the services, for some iteration order of each label map. */
  ghost predicate Extracts(e: Extractor, services: seq<MeshHosts.Service>, i: Input) {
    exists orders :: MeshHosts.Orders(services, orders) &&
      i == Input(Extract(e, services, orders, true), Extract(e, services, orders, false))
  }

  /** For consistent labels there is one such input. */
  lemma ConsistentInput(e: Extractor, services: seq<MeshHosts.Service>, i: Input)
    requires Extracts(e, services, i) && ConsistentFor(e, services)
    ensures i == InputOf(e, services)
  {
    hide ConsistentFor, Extract;
    var orders :| MeshHosts.Orders(services, orders) &&
      i == Input(Extract(e, services, orders, true), Extract(e, services, orders, false));
    ExtractIsInput(e, services, orders, true);
    ExtractIsInput(e, services, orders, false);
  }

  /** With plain labels, and a filter label of one star if any, the input is what the containers' labels ask for. */
  lemma InputAsked(e: Extractor, services: seq<MeshHosts.Service>, i: Input, star: Option<(string, string)>,
      filterValue: string, host: string)
    requires Extracts(e, services, i) && MeshHosts.OneStar(star)
    requires forall svc <- services :: MeshHosts.PlainLabels(svc.labels)
    requires e == Filtered(MeshHosts.Label(star), filterValue) || (e == Unfiltered && star == None)
    ensures host in i.active <==> exists svc <- services :: MeshHosts.Asks(svc, star, filterValue, true, host)
    ensures host in i.ignored <==> exists svc <- services :: MeshHosts.Asks(svc, star, filterValue, false, host)
  {
    hide MeshHosts.Gather, MeshHosts.PlainGather, MeshHosts.Asks, MeshHosts.PlainLabels;
    var orders :| MeshHosts.Orders(services, orders) &&
      i == Input(Extract(e, services, orders, true), Extract(e, services, orders, false));
    MeshHosts.GatherAsked(star, filterValue, services, orders, true, host);
    MeshHosts.GatherAsked(star, filterValue, services, orders, false, host);
  }

  /** One cycle of a client whose memory holds the previous input, whatever its labels say. */
  method RunCycle(client: Client, services: seq<MeshHosts.Service>) returns (ghost i: Input)
    requires client.Valid() && client.server.reliable && NotNested(client.zoneMap)
    modifies client, client.server
    ensures client.Valid() && Extracts(client.extractor, services, i)
    ensures client.lastHosts == Some(i.active) && client.lastIgnored == Some(i.ignored)
    ensures if old(client.lastHosts) == Some(i.active) && old(client.lastIgnored) == Some(i.ignored)
      then client.server.zones == old(client.server.zones)
      else SyncStep(Config(client.policy, client.zoneMap, client.cleanup), i, old(client.server.zones),
             client.server.zones, true)
  {
    hide Synced, SyncStep, Bucketing, NotNested, Extract;
    ghost var before := client.server.zones;
    ghost var active, ignored, orders, actives, ignoreds := client.Process(services);
    i := Input(active, ignored);
    if old(client.lastHosts) != Some(i.active) || old(client.lastIgnored) != Some(i.ignored) {
      SyncIsOrderFree(Config(client.policy, client.zoneMap, client.cleanup), i, before, client.server.zones,
        actives, ignoreds, true);
    }
  }

  /** The first cycles of a memoised run. */
  ghost predicate MemoUpTo(c: Config, inputs: seq<Input>, states: seq<Zones>) {
    && |states| == |inputs| + 1
    && forall j: nat :: j < |inputs| ==> Cycle(c, inputs, j, states[j], states[j + 1])
  }

  lemma MemoGrows(c: Config, inputs: seq<Input>, states: seq<Zones>, i: Input, next: Zones)
    requires MemoUpTo(c, inputs, states)
    requires Cycle(c, inputs + [i], |inputs|, states[|inputs|], next)
    ensures MemoUpTo(c, inputs + [i], states + [next])
  {
  }

  lemma MemoAll(c: Config, inputs: seq<Input>, states: seq<Zones>)
    requires MemoUpTo(c, inputs, states)
    ensures MemoRun(c, inputs, states)
  {
  }

  /** A fresh client run over any sequence of service lists, with no call failing, leaves after each cycle what syncing
      in every cycle would, for the inputs that its cycles extracted. */
  method RunCycles(client: Client, batches: seq<seq<MeshHosts.Service>>)
    returns (ghost inputs: seq<Input>, ghost states: seq<Zones>)
    requires client.Valid() && client.server.reliable && client.lastHosts == None && client.lastIgnored == None
    requires NotNested(client.zoneMap)
    modifies client, client.server
    ensures |inputs| == |batches|
    ensures forall k :: 0 <= k < |batches| ==> Extracts(client.extractor, batches[k], inputs[k])
    ensures |states| == |batches| + 1 && states[0] == old(client.server.zones)
    ensures states[|batches|] == client.server.zones
    ensures SimpleRun(Config(client.policy, client.zoneMap, client.cleanup), inputs, states)
  {
    hide SyncStep, NotNested, Extracts;
    ghost var c := Config(client.policy, client.zoneMap, client.cleanup);
    inputs, states := [], [client.server.zones];
    for k := 0 to |batches|
      invariant client.Valid() && |inputs| == k && |states| == k + 1
      invariant forall j :: 0 <= j < k ==> Extracts(client.extractor, batches[j], inputs[j])
      invariant states[0] == old(client.server.zones) && states[k] == client.server.zones
      invariant client.lastHosts == (if k == 0 then None else Some(inputs[k - 1].active))
      invariant client.lastIgnored == (if k == 0 then None else Some(inputs[k - 1].ignored))
      invariant MemoUpTo(c, inputs, states)
    {
      hide MemoUpTo;
      ghost var i := RunCycle(client, batches[k]);
      MemoGrows(c, inputs, states, i, client.server.zones);
      inputs, states := inputs + [i], states + [client.server.zones];
    }
    MemoAll(c, inputs, states);
    MemoIsSimple(c, inputs, states);
  }

  // ---------- the client when calls fail ----------

  lemma FaultsAllowed(c: Config, i: Input, before: Zones, after: Zones, faultFree: bool)
    requires SyncStep(c, i, before, after, faultFree)
    ensures SyncStep(c, i, before, after, false)
  {
    hide Outcome, Visits, Active, Ignored;
    forall id | id in before ensures ZoneStep(c, i, before, after, id, false) {
      assert ZoneStep(c, i, before, after, id, faultFree);
      if Visits(c, i, id) {
        OutcomeWithFaults(c.policy, before[id], after[id], Active(c, i, id), Ignored(c, i, id), c.cleanup, faultFree);
      }
    }
  }

  lemma OutcomeWithFaults(p: Policy, before: Zone, after: Zone, active: set<string>, ignored: set<string>,
      cleanup: bool,
      faultFree: bool)
    requires ZoneSynced(p, before, after, active, ignored, cleanup, faultFree)
    ensures ZoneSynced(p, before, after, active, ignored, cleanup, false)
  {
    hide Created, StaleIds;
    var updated: set<string>, gone: set<nat>, created: Zone :|
      Outcome(p, before, after, active, ignored, cleanup, updated, gone, created, faultFree);
    assert Outcome(p, before, after, active, ignored, cleanup, updated, gone, created, false);
  }

  /** One cycle of a client, with any calls failing, is a cycle of a faulty run. */
  method RunFaultyCycle(client: Client, services: seq<MeshHosts.Service>) returns (ghost i: Input)
    requires client.Valid() && NotNested(client.zoneMap)
    modifies client, client.server
    ensures client.Valid() && Extracts(client.extractor, services, i)
    ensures client.lastHosts == Some(i.active) && client.lastIgnored == Some(i.ignored)
    ensures if old(client.lastHosts) == Some(i.active) && old(client.lastIgnored) == Some(i.ignored)
      then client.server.zones == old(client.server.zones)
      else SyncStep(Config(client.policy, client.zoneMap, client.cleanup), i, old(client.server.zones),
             client.server.zones, false)
  {
    hide Synced, SyncStep, Bucketing, NotNested, Extract;
    ghost var c, before := Config(client.policy, client.zoneMap, client.cleanup), client.server.zones;
    ghost var active, ignored, orders, actives, ignoreds := client.Process(services);
    i := Input(active, ignored);
    if old(client.lastHosts) != Some(i.active) || old(client.lastIgnored) != Some(i.ignored) {
      SyncIsOrderFree(c, i, before, client.server.zones, actives, ignoreds, client.server.reliable);
      FaultsAllowed(c, i, before, client.server.zones, client.server.reliable);
    }
  }

  lemma NothingRun(c: Config, st: Zones)
    ensures FaultyMemoRun(c, [], [st])
  {
  }

  lemma FaultyMemoGrows(c: Config, inputs: seq<Input>, states: seq<Zones>, i: Input, next: Zones)
    requires FaultyMemoRun(c, inputs, states)
    requires FaultyCycle(c, inputs + [i], |inputs|, states[|inputs|], next)
    ensures FaultyMemoRun(c, inputs + [i], states + [next])
  {
  }

  /** A client run over any sequence of service lists, with any calls failing, goes through a faulty run; so what it
      deletes is subject to the target lock. A fresh client skips the cycles whose hosts it remembers, whether or not
      their writes went through. */
  method RunFaultyCycles(client: Client, batches: seq<seq<MeshHosts.Service>>)
    returns (ghost inputs: seq<Input>, ghost states: seq<Zones>)
    requires client.Valid() && NotNested(client.zoneMap)
    modifies client, client.server
    ensures |inputs| == |batches|
    ensures forall k :: 0 <= k < |batches| ==> Extracts(client.extractor, batches[k], inputs[k])
    ensures |states| == |batches| + 1
    ensures states[0] == old(client.server.zones) && states[|batches|] == client.server.zones
    ensures FaultyRun(Config(client.policy, client.zoneMap, client.cleanup), inputs, states)
    ensures old(client.lastHosts) == None && old(client.lastIgnored) == None ==>
      FaultyMemoRun(Config(client.policy, client.zoneMap, client.cleanup), inputs, states)
  {
    hide SyncStep, NotNested, Extracts, FaultyMemoRun;
    ghost var fresh' := client.lastHosts == None && client.lastIgnored == None;
    ghost var c := Config(client.policy, client.zoneMap, client.cleanup);
    inputs, states := [], [client.server.zones];
    NothingRun(c, client.server.zones);
    for k := 0 to |batches|
      invariant client.Valid() && |inputs| == k && |states| == k + 1
      invariant forall j :: 0 <= j < k ==> Extracts(client.extractor, batches[j], inputs[j])
      invariant states[0] == old(client.server.zones) && states[k] == client.server.zones
      invariant forall j :: 0 <= j < k ==>
        states[j + 1] == states[j] || SyncStep(c, inputs[j], states[j], states[j + 1], false)
      invariant fresh' ==> client.lastHosts == if k == 0 then None else Some(inputs[k - 1].active)
      invariant fresh' ==> client.lastIgnored == if k == 0 then None else Some(inputs[k - 1].ignored)
      invariant fresh' ==> FaultyMemoRun(c, inputs, states)
    {
      ghost var i := RunFaultyCycle(client, batches[k]);
      if fresh' {
        FaultyMemoGrows(c, inputs, states, i, client.server.zones);
      }
      inputs, states := inputs + [i], states + [client.server.zones];
    }
  }
}
