/** Which monitors the Uptime Kuma client creates: the dedupe maps of internal/monitor/kuma/client.go. */
module KumaMonitors {
  import opened Text

  datatype Monitor = Monitor(id: int, url: string, name: string)

  /** A router that wants a monitor, with its URL and name already resolved from labels. */
  datatype Desired = Desired(url: string, name: string, allowDuplicates: bool)

  /** A monitor id passed on to the tag manager and the coordinator for a router. */
  datatype Handed = Handed(id: int, desired: Desired)

  /** The two maps the client keeps from dedupe key to monitor id. */
  datatype Memory = Memory(trackedURLs: map<string, int>, tracked: map<string, int>)

  const EMPTY_MEMORY := Memory(map[], map[])

  function Key(url: string, name: string): string {
    url + name
  }

  function KeyOf(d: Desired): string {
    Key(d.url, d.name)
  }

  predicate Skipped(d: Desired) {
    d.url == "" || d.url == "https://"
  }

  /** The dedupe keys of the monitors Uptime Kuma has, leaving out those without a URL. */
  function KeysOf(remote: seq<Monitor>): set<string> {
    set m | m in remote && m.url != "" :: Key(m.url, m.name)
  }

  function Learn(memory: Memory, m: Monitor): Memory {
    if m.url == "" then memory
    else
      var key := Key(m.url, m.name);
      Memory(memory.trackedURLs[key := m.id], memory.tracked[key := m.id])
  }

  function LearnAll(memory: Memory, monitors: seq<Monitor>): Memory {
    if monitors == [] then memory
    else Learn(LearnAll(memory, monitors[..|monitors| - 1]), monitors[|monitors| - 1])
  }

  /** The client's memory, the keys created in this cycle, what Uptime Kuma has, and logs: the create calls sent, those
      that succeeded, and the ids handed on. */
  datatype Cycle = Cycle(
    memory: Memory, cycleURLs: map<string, int>, remote: seq<Monitor>,
    sent: seq<Desired>, created: seq<Desired>, handed: seq<Handed>)

  /** The lookup that decides whether a monitor exists already. */
  function Lookup(c: Cycle, d: Desired): Option<int> {
    var key := KeyOf(d);
    if d.allowDuplicates then (if key in c.memory.tracked then Some(c.memory.tracked[key]) else None)
    else if key in c.memory.trackedURLs then Some(c.memory.trackedURLs[key])
    else if key in c.cycleURLs then Some(c.cycleURLs[key])
    else None
  }

  function Hand(c: Cycle, id: int, d: Desired): Cycle {
    if id != 0 then c.(handed := c.handed + [Handed(id, d)]) else c
  }

  /** One router: nothing to create, or a create call that Uptime Kuma answers with an id or refuses. */
  function Visit(c: Cycle, d: Desired, reply: Option<int>): Cycle {
    if Skipped(d) then c
    else match Lookup(c, d)
      case Some(id) => Hand(c, id, d)
      case None =>
        var asked := c.(sent := c.sent + [d]);
        if reply.None? then asked
        else
          var id := reply.value;
          Hand(Cycle(
            Memory(c.memory.trackedURLs[KeyOf(d) := id], c.memory.tracked), c.cycleURLs[KeyOf(d) := id],
            c.remote + [Monitor(id, d.url, d.name)], asked.sent, c.created + [d], c.handed), id, d)
  }

  function VisitAll(c: Cycle, desired: seq<Desired>, replies: seq<Option<int>>): Cycle
    requires |replies| == |desired|
  {
    if desired == [] then c
    else
      var n := |desired| - 1;
      Visit(VisitAll(c, desired[..n], replies[..n]), desired[n], replies[n])
  }

  ghost predicate Has(remote: seq<Monitor>, id: int, key: string) {
    exists m <- remote :: m.url != "" && m.id == id && Key(m.url, m.name) == key
  }

  /** `tracked` is a submap of `trackedURLs`, and this cycle's keys are among its keys. */
  ghost predicate MapsNested(c: Cycle) {
    && (forall key <- c.memory.tracked ::
          key in c.memory.trackedURLs && c.memory.trackedURLs[key] == c.memory.tracked[key])
    && (forall key <- c.cycleURLs :: key in c.memory.trackedURLs)
  }

  /** Every id remembered or handed on is that of a monitor with the same key. */
  ghost predicate IdsTrue(c: Cycle) {
    && (forall key <- c.memory.tracked :: Has(c.remote, c.memory.tracked[key], key))
    && (forall key <- c.memory.trackedURLs :: Has(c.remote, c.memory.trackedURLs[key], key))
    && (forall h <- c.handed :: Has(c.remote, h.id, KeyOf(h.desired)))
  }

  /** A key is created a second time only on a request that allows duplicates. */
  ghost predicate CreatedOnce(c: Cycle) {
    && (forall d <- c.created :: KeyOf(d) in KeysOf(c.remote))
    && forall i, j :: 0 <= i < j < |c.created| && KeyOf(c.created[i]) == KeyOf(c.created[j]) ==>
         c.created[j].allowDuplicates
  }

  /** Every wanted key is that of some monitor. */
  ghost predicate Covered(remote: seq<Monitor>, desired: seq<Desired>) {
    forall d <- desired :: Skipped(d) || KeyOf(d) in KeysOf(remote)
  }

  /** The routers of a cycle that have a URL, in order. */
  function WithUrl(desired: seq<Desired>): seq<Desired> {
    if desired == [] then []
    else
      var d, earlier := desired[|desired| - 1], WithUrl(desired[..|desired| - 1]);
      if d.url == "" || d.url == "https://" then earlier else earlier + [d]
  }

  /** The routers that monitors were handed on for. */
  function Routers(handed: seq<Handed>): (routers: seq<Desired>)
    ensures |routers| == |handed| && forall i :: 0 <= i < |handed| ==> routers[i] == handed[i].desired
  {
    seq(|handed|, i requires 0 <= i < |handed| => handed[i].desired)
  }

  /** No monitor of Uptime Kuma has the id 0. */
  ghost predicate IdsCount(remote: seq<Monitor>) {
    forall m <- remote :: m.id != 0
  }

  /** The client knows every monitor Uptime Kuma has. */
  ghost predicate Knows(c: Cycle) {
    KeysOf(c.remote) <= c.memory.trackedURLs.Keys
  }

  ghost predicate Sound(c: Cycle) {
    MapsNested(c) && IdsTrue(c) && CreatedOnce(c)
  }

  lemma KeysOfAppend(remote: seq<Monitor>, m: Monitor)
    ensures KeysOf(remote + [m]) == KeysOf(remote) + if m.url != "" then {Key(m.url, m.name)} else {}
  {
  }

  lemma HasAppend(remote: seq<Monitor>, m: Monitor, id: int, key: string)
    ensures Has(remote + [m], id, key) <==>
      Has(remote, id, key) || (m.url != "" && m.id == id && Key(m.url, m.name) == key)
  {
  }

  /** What syncing leaves: the old memory, overwritten by what Uptime Kuma has. */
  lemma {:induction false} LearnAllKnows(memory: Memory, monitors: seq<Monitor>)
    ensures var after := LearnAll(memory, monitors);
      && after.trackedURLs.Keys == memory.trackedURLs.Keys + KeysOf(monitors)
      && after.tracked.Keys == memory.tracked.Keys + KeysOf(monitors)
  {
    if monitors != [] {
      var n := |monitors| - 1;
      LearnAllKnows(memory, monitors[..n]);
      KeysOfAppend(monitors[..n], monitors[n]);
      assert monitors[..n] + [monitors[n]] == monitors;
    }
  }

  /** And each key is remembered with the id of the last monitor listed that has it. */
  lemma {:induction false} LearnAllIds(memory: Memory, monitors: seq<Monitor>, i: nat)
    requires i < |monitors| && monitors[i].url != ""
    requires forall j :: i < j < |monitors| ==>
      monitors[j].url + monitors[j].name != monitors[i].url + monitors[i].name || monitors[j].url == ""
    ensures var after, key := LearnAll(memory, monitors), monitors[i].url + monitors[i].name;
      && key in after.tracked && after.tracked[key] == monitors[i].id
      && key in after.trackedURLs && after.trackedURLs[key] == monitors[i].id
  {
    var n := |monitors| - 1;
    if i < n {
      LearnAllIds(memory, monitors[..n], i);
    }
  }

  /** Learning a monitor that Uptime Kuma has keeps the memory sound. */
  lemma LearnKeepsSound(c: Cycle, m: Monitor)
    requires Sound(c) && m in c.remote
    ensures Sound(c.(memory := Learn(c.memory, m)))
  {
  }

  lemma {:induction false} LearnAllKeepsSound(c: Cycle, monitors: seq<Monitor>)
    requires Sound(c) && forall m <- monitors :: m in c.remote
    ensures Sound(c.(memory := LearnAll(c.memory, monitors)))
  {
    hide Sound;
    if monitors != [] {
      var n := |monitors| - 1;
      LearnAllKeepsSound(c, monitors[..n]);
      LearnKeepsSound(c.(memory := LearnAll(c.memory, monitors[..n])), monitors[n]);
    }
  }

  /** Once the maps are nested, the cycle's own map never knows a key that `trackedURLs` does not. */
  lemma CycleMapIsRedundant(c: Cycle, d: Desired)
    requires MapsNested(c) && !d.allowDuplicates
    ensures Lookup(c, d).Some? <==> KeyOf(d) in c.memory.trackedURLs
  {
  }

  /** So the lookup is one in the map that counts for the router. */
  lemma LookupIs(c: Cycle, d: Desired)
    requires MapsNested(c)
    ensures var key, known := d.url + d.name, if d.allowDuplicates then c.memory.tracked else c.memory.trackedURLs;
      Lookup(c, d) == if key in known then Some(known[key]) else None
  {
  }

  lemma VisitWithoutCall(c: Cycle, d: Desired, reply: Option<int>)
    ensures Skipped(d) ==> Visit(c, d, reply) == c
    ensures !Skipped(d) && Lookup(c, d).Some? ==> Visit(c, d, reply) == Hand(c, Lookup(c, d).value, d)
  {
  }

  lemma VisitKeepsMaps(c: Cycle, d: Desired, reply: Option<int>)
    requires MapsNested(c) && IdsTrue(c)
    ensures MapsNested(Visit(c, d, reply)) && IdsTrue(Visit(c, d, reply))
  {
    hide Has;
    var after := Visit(c, d, reply);
    if after.remote != c.remote {
      var m := Monitor(reply.value, d.url, d.name);
      forall id, key ensures Has(after.remote, id, key) <==> Has(c.remote, id, key) || (m.id == id && KeyOf(d) == key) {
        HasAppend(c.remote, m, id, key);
      }
    } else if Lookup(c, d).Some? {
      LookupIsTrue(c, d);
    }
  }

  lemma LookupIsTrue(c: Cycle, d: Desired)
    requires MapsNested(c) && IdsTrue(c) && Lookup(c, d).Some?
    ensures Has(c.remote, Lookup(c, d).value, KeyOf(d))
  {
  }

  /** A client that knows what Uptime Kuma has goes on knowing it, and creates a key again only where duplicates are
      allowed. */
  lemma VisitCreatesOnce(c: Cycle, d: Desired, reply: Option<int>)
    requires MapsNested(c) && CreatedOnce(c) && Knows(c)
    ensures CreatedOnce(Visit(c, d, reply)) && Knows(Visit(c, d, reply))
    ensures KeysOf(c.remote) <= KeysOf(Visit(c, d, reply).remote)
  {
    hide KeysOf;
    var after := Visit(c, d, reply);
    if after.created != c.created {
      KeysOfAppend(c.remote, Monitor(reply.value, d.url, d.name));
      assert after.created[..|c.created|] == c.created;
    }
  }

  /** What one visit does, in terms of the two maps: a router without a URL is passed over; one whose key is remembered,
      in the map that counts for it, is handed on with that id; for any other a create call is sent, and the router is
      handed on with the id that comes back. An id of 0 is never handed on. */
  lemma VisitHandsOn(c: Cycle, d: Desired, reply: Option<int>)
    requires MapsNested(c)
    ensures var key, after := d.url + d.name, Visit(c, d, reply);
      var known := if d.allowDuplicates then c.memory.tracked else c.memory.trackedURLs;
      var id := if key in known then Some(known[key]) else reply;
      if d.url == "" || d.url == "https://" then after == c
      else
        && after.sent == c.sent + (if key in known then [] else [d])
        && after.handed == c.handed + (if id.None? || id.value == 0 then [] else [Handed(id.value, d)])
        && after.remote == c.remote +
             (if key in known || reply.None? then [] else [Monitor(reply.value, d.url, d.name)])
  {
  }

  /** Without allow_duplicates a create call is sent exactly when Uptime Kuma has no monitor with that key. */
  lemma SentIffMissing(c: Cycle, d: Desired, reply: Option<int>)
    requires MapsNested(c) && IdsTrue(c) && Knows(c) && !d.allowDuplicates
    ensures Visit(c, d, reply).sent == (if Skipped(d) || KeyOf(d) in KeysOf(c.remote) then c.sent else c.sent + [d])
  {
  }

  /** With allow_duplicates what counts is only what the last sync saw: creations are not remembered. */
  lemma {:induction false} DuplicatesAreCreatedAgain(c: Cycle, d: Desired, desired: seq<Desired>,
      replies: seq<Option<int>>)
    requires |replies| == |desired| && forall i :: 0 <= i < |replies| ==> replies[i].Some?
    requires d.allowDuplicates && !Skipped(d) && forall i :: 0 <= i < |desired| ==> desired[i] == d
    ensures var after := VisitAll(c, desired, replies);
      && after.memory.tracked == c.memory.tracked
      && |after.created| == |c.created| + if KeyOf(d) in c.memory.tracked then 0 else |desired|
  {
    if desired != [] {
      var n := |desired| - 1;
      DuplicatesAreCreatedAgain(c, d, desired[..n], replies[..n]);
    }
  }

  lemma {:induction false} VisitAllKeepsSound(c: Cycle, desired: seq<Desired>, replies: seq<Option<int>>)
    requires |replies| == |desired| && Sound(c) && Knows(c)
    ensures Sound(VisitAll(c, desired, replies)) && Knows(VisitAll(c, desired, replies))
  {
    hide MapsNested, IdsTrue, CreatedOnce, Knows, Visit;
    if desired != [] {
      var n := |desired| - 1;
      VisitAllKeepsSound(c, desired[..n], replies[..n]);
      VisitKeepsMaps(VisitAll(c, desired[..n], replies[..n]), desired[n], replies[n]);
      VisitCreatesOnce(VisitAll(c, desired[..n], replies[..n]), desired[n], replies[n]);
    }
  }

  /** Uptime Kuma has the very monitor that the router wants. */
  ghost predicate Own(remote: seq<Monitor>, d: Desired) {
    exists m <- remote :: m.url == d.url && m.name == d.name
  }

  predicate SameMonitor(a: Desired, b: Desired) {
    a.url == b.url && a.name == b.name
  }

  /** Router `j` gets a monitor created if no call fails: its key is new to Uptime Kuma and to the routers before it, or
      duplicates are allowed and the last sync did not see it. */
  predicate Creates(c: Cycle, desired: seq<Desired>, j: nat)
    requires j < |desired|
  {
    && !Skipped(desired[j])
    && if desired[j].allowDuplicates then KeyOf(desired[j]) !in c.memory.tracked
       else KeyOf(desired[j]) !in KeysOf(c.remote) + WantedKeys(desired[..j])
  }

  function WantedKeys(desired: seq<Desired>): set<string> {
    set d | d in desired && !Skipped(d) :: KeyOf(d)
  }

  lemma WantedKeysLast(desired: seq<Desired>)
    requires desired != []
    ensures var n := |desired| - 1;
      WantedKeys(desired) == WantedKeys(desired[..n]) + if Skipped(desired[n]) then {} else {KeyOf(desired[n])}
  {
  }

  /** A visit whose call succeeds gives a monitor of its own to a router, and to no other, exactly when none is
      found. */
  lemma VisitOwns(c: Cycle, d: Desired, reply: Option<int>, e: Desired)
    requires reply.Some?
    ensures Own(Visit(c, d, reply).remote, e)
      <==> Own(c.remote, e) || (SameMonitor(d, e) && !Skipped(d) && Lookup(c, d).None?)
  {
  }

  /** What a fault-free cycle knows after the routers so far: the keys it began with and those it met. */
  lemma {:induction false} FaultFreeKeys(c: Cycle, desired: seq<Desired>, replies: seq<Option<int>>)
    requires |replies| == |desired| && (forall i :: 0 <= i < |replies| ==> replies[i].Some?) && Sound(c) && Knows(c)
    ensures var after := VisitAll(c, desired, replies);
      && Sound(after) && Knows(after)
      && KeysOf(after.remote) == KeysOf(c.remote) + WantedKeys(desired)
      && after.memory.tracked == c.memory.tracked
  {
    hide MapsNested, IdsTrue, CreatedOnce, Knows, Visit, KeysOf, WantedKeys;
    if desired == [] {
      assert WantedKeys(desired) == {} by { NoneWanted(); }
    } else {
      var n := |desired| - 1;
      FaultFreeKeys(c, desired[..n], replies[..n]);
      VisitAllKeepsSound(c, desired, replies);
      VisitKeys(VisitAll(c, desired[..n], replies[..n]), desired[n], replies[n]);
      WantedKeysLast(desired);
    }
  }

  /** So it leaves a monitor with the key of every router that wants one. */
  lemma FaultFreeCovers(c: Cycle, desired: seq<Desired>, replies: seq<Option<int>>)
    requires |replies| == |desired| && (forall i :: 0 <= i < |replies| ==> replies[i].Some?) && Sound(c) && Knows(c)
    ensures Covered(VisitAll(c, desired, replies).remote, desired)
  {
    hide Sound, Knows, VisitAll;
    FaultFreeKeys(c, desired, replies);
    forall d | d in desired && !Skipped(d) ensures KeyOf(d) in WantedKeys(desired) {
    }
  }

  lemma NoneWanted()
    ensures WantedKeys([]) == {}
  {
  }

  lemma VisitKeys(c: Cycle, d: Desired, reply: Option<int>)
    requires MapsNested(c) && IdsTrue(c) && reply.Some?
    ensures KeysOf(Visit(c, d, reply).remote) == KeysOf(c.remote) + if Skipped(d) then {} else {KeyOf(d)}
    ensures Visit(c, d, reply).memory.tracked == c.memory.tracked
  {
    hide KeysOf, Has;
    KeysOfAppend(c.remote, Monitor(reply.value, d.url, d.name));
    if Lookup(c, d).Some? {
      LookupIsTrue(c, d);
      HasKey(c.remote, Lookup(c, d).value, KeyOf(d));
    }
  }

  lemma HasKey(remote: seq<Monitor>, id: int, key: string)
    requires Has(remote, id, key)
    ensures key in KeysOf(remote)
  {
  }

  /** After a fault-free cycle Uptime Kuma has the very monitor of a router if and only if it had it before, or some
      router wanting that monitor gets one created: one whose key no monitor and no earlier router has. */
  lemma {:induction false} FaultFreeOwns(c: Cycle, desired: seq<Desired>, replies: seq<Option<int>>, d: Desired)
    requires |replies| == |desired| && (forall i :: 0 <= i < |replies| ==> replies[i].Some?) && Sound(c) && Knows(c)
    ensures Own(VisitAll(c, desired, replies).remote, d)
      <==> Own(c.remote, d) || exists j :: 0 <= j < |desired| && SameMonitor(desired[j], d) && Creates(c, desired, j)
  {
    hide Sound, Knows, Own, Visit, SameMonitor, WantedKeys, KeysOf;
    if desired != [] {
      var n := |desired| - 1;
      var before := VisitAll(c, desired[..n], replies[..n]);
      FaultFreeOwns(c, desired[..n], replies[..n], d);
      FaultFreeKeys(c, desired[..n], replies[..n]);
      VisitOwns(before, desired[n], replies[n], d);
      FoundOrNot(before, desired[n]);
      forall j | 0 <= j < n ensures Creates(c, desired, j) <==> Creates(c, desired[..n], j) {
        assert desired[..n][..j] == desired[..j];
      }
      if j :| 0 <= j < n && SameMonitor(desired[..n][j], d) && Creates(c, desired[..n], j) {
        assert SameMonitor(desired[j], d) && Creates(c, desired, j);
      }
    }
  }

  /** What the lookup of a client that knows what Uptime Kuma has depends on. */
  lemma FoundOrNot(c: Cycle, d: Desired)
    requires Sound(c) && Knows(c)
    ensures Lookup(c, d).None? <==>
      if d.allowDuplicates then KeyOf(d) !in c.memory.tracked else KeyOf(d) !in KeysOf(c.remote)
  {
  }

  lemma FoundCounts(c: Cycle, d: Desired)
    requires MapsNested(c) && IdsTrue(c) && IdsCount(c.remote) && Lookup(c, d).Some?
    ensures Lookup(c, d).value != 0
  {
  }

  lemma OneHandedOn(c: Cycle, d: Desired, reply: Option<int>)
    requires MapsNested(c) && IdsTrue(c) && IdsCount(c.remote) && reply.Some? && reply.value != 0
    ensures var after := Visit(c, d, reply);
      && IdsCount(after.remote) && c.handed <= after.handed
      && Routers(after.handed) == Routers(c.handed) + if d.url == "" || d.url == "https://" then [] else [d]
  {
  }

  /** A cycle whose create calls all succeed hands each of its routers that has a URL on to the tag manager and the
      coordinator, once and in order, with the id of a monitor that has the router's key. */
  lemma {:induction false} FaultFreeHandsOn(c: Cycle, desired: seq<Desired>, replies: seq<Option<int>>)
    requires |replies| == |desired| && (forall i :: 0 <= i < |replies| ==> replies[i].Some? && replies[i].value != 0)
    requires MapsNested(c) && IdsTrue(c) && IdsCount(c.remote)
    ensures var after := VisitAll(c, desired, replies);
      && MapsNested(after) && IdsTrue(after) && IdsCount(after.remote)
      && c.handed <= after.handed
      && Routers(after.handed) == Routers(c.handed) + WithUrl(desired)
      && forall h <- after.handed :: exists m <- after.remote ::
           m.id == h.id && m.url + m.name == h.desired.url + h.desired.name
  {
    if desired == [] {
      TrueIds(c);
    } else {
      hide MapsNested, IdsTrue, Visit, IdsCount;
      var n := |desired| - 1;
      FaultFreeHandsOn(c, desired[..n], replies[..n]);
      VisitKeepsMaps(VisitAll(c, desired[..n], replies[..n]), desired[n], replies[n]);
      OneHandedOn(VisitAll(c, desired[..n], replies[..n]), desired[n], replies[n]);
      TrueIds(VisitAll(c, desired, replies));
    }
  }

  lemma TrueIds(c: Cycle)
    requires IdsTrue(c)
    ensures forall h <- c.handed :: exists m <- c.remote ::
      m.id == h.id && m.url + m.name == h.desired.url + h.desired.name
  {
  }

  /** Where the last sync saw every monitor wanted, a cycle sends no create call, duplicates allowed or not. */
  lemma {:induction false} KnownIsQuiet(c: Cycle, desired: seq<Desired>, replies: seq<Option<int>>)
    requires |replies| == |desired| && MapsNested(c)
    requires forall d <- desired :: Skipped(d) || KeyOf(d) in c.memory.tracked
    ensures var after := VisitAll(c, desired, replies);
      after.sent == c.sent && after.remote == c.remote && after.memory == c.memory
  {
    if desired != [] {
      var n := |desired| - 1;
      KnownIsQuiet(c, desired[..n], replies[..n]);
      assert desired[n] in desired;
    }
  }

  lemma {:induction false} FirstSyncAgrees(monitors: seq<Monitor>)
    ensures var after := LearnAll(EMPTY_MEMORY, monitors); after.tracked == after.trackedURLs
  {
    if monitors != [] {
      FirstSyncAgrees(monitors[..|monitors| - 1]);
    }
  }

  /** After a cycle whose creations all succeeded, a restarted client that has synced sends no create call for the same
      routers, whatever Uptime Kuma would answer. */
  lemma RestartIsQuiet(c: Cycle, desired: seq<Desired>, replies: seq<Option<int>>, later: seq<Option<int>>)
    requires |replies| == |desired| == |later| && Sound(c) && Knows(c)
    requires forall i :: 0 <= i < |replies| ==> replies[i].Some?
    ensures var done := VisitAll(c, desired, replies);
      var restarted := done.(memory := LearnAll(EMPTY_MEMORY, done.remote), cycleURLs := map[]);
      && VisitAll(restarted, desired, later).sent == done.sent
      && VisitAll(restarted, desired, later).remote == done.remote
  {
    hide IdsTrue, CreatedOnce, Knows, Visit, VisitAll;
    var done := VisitAll(c, desired, replies);
    FaultFreeCovers(c, desired, replies);
    LearnAllKnows(EMPTY_MEMORY, done.remote);
    FirstSyncAgrees(done.remote);
    KnownIsQuiet(done.(memory := LearnAll(EMPTY_MEMORY, done.remote), cycleURLs := map[]), desired, later);
  }

  /** Two monitors share a dedupe key exactly when the longer URL goes on into what the other has as name. */
  lemma KeysCollide(url1: string, name1: string, url2: string, name2: string)
    requires |url1| <= |url2|
    ensures Key(url1, name1) == Key(url2, name2) <==> url1 <= url2 && name1 == url2[|url1|..] + name2
  {
    if url1 <= url2 && name1 == url2[|url1|..] + name2 {
      assert url2 == url1 + url2[|url1|..];
    }
    if Key(url1, name1) == Key(url2, name2) {
      assert url1 == Key(url1, name1)[..|url1|] == url2[..|url1|];
      assert name1 == Key(url2, name2)[|url1|..];
    }
  }

  /** So a monitor can be missing for good: the first of these hides the second, in this cycle and in every later
      one. */
  lemma CollisionExample(id: int, reply: Option<int>)
    ensures var first, second := Desired("https://a.b", "/upx", false), Desired("https://a.b/up", "x", false);
      var after := Visit(Cycle(EMPTY_MEMORY, map[], [], [], [], []), first, Some(id));
      && Own(after.remote, first) && Visit(after, second, reply).remote == after.remote
      && Covered(after.remote, [first, second]) && !Own(after.remote, second)
  {
    var first, second := Desired("https://a.b", "/upx", false), Desired("https://a.b/up", "x", false);
    var after := Visit(Cycle(EMPTY_MEMORY, map[], [], [], [], []), first, Some(id));
    assert KeyOf(first) == "https://a.b/upx" == KeyOf(second);
    assert after.remote == [Monitor(id, first.url, first.name)];
    assert after.remote[0] in after.remote;
  }
}
