/** The client of internal/monitor/kuma/client.go as an object: its methods take exactly the steps of `KumaRuns`. */
module KumaClient {
  import opened Text
  import opened KumaMonitors
  import opened KumaRuns

  /** Uptime Kuma: a call over a connection succeeds, or fails without effect; none fails, and no new monitor has the
      id 0, when it is `reliable`. */
  class KumaServer {
    const reliable: bool
    var monitors: seq<Monitor>
    var sent: seq<Desired>
    var created: seq<Desired>
    var connections: nat

    method Connect() returns (connection: Option<nat>)
      modifies this`connections
      ensures connection.Some? ==> connection.value == old(connections) && connections == old(connections) + 1
      ensures connection.None? ==> connections == old(connections)
    {
      var ok: bool := *;
      connection := None;
      if ok {
        connection, connections := Some(connections), connections + 1;
      }
    }

    method GetMonitors(connection: nat) returns (reply: Option<seq<Monitor>>)
      ensures reply.Some? ==> reply.value == monitors
      ensures reliable ==> reply.Some?
    {
      var ok: bool := *;
      reply := if ok || reliable then Some(monitors) else None;
    }

    method CreateMonitor(connection: nat, d: Desired) returns (reply: Option<int>)
      modifies this`monitors, this`sent, this`created
      ensures sent == old(sent) + [d]
      ensures reply.None? ==> monitors == old(monitors) && created == old(created)
      ensures reply.Some? ==>
        monitors == old(monitors) + [Monitor(reply.value, d.url, d.name)] && created == old(created) + [d]
      ensures reliable ==> reply.Some? && reply.value != 0
    {
      var ok: bool, id: int := *, *;
      sent := sent + [d];
      reply := None;
      if reliable {
        ok, id := true, if id == 0 then 1 else id;
      }
      if ok {
        monitors, created := monitors + [Monitor(id, d.url, d.name)], created + [d];
        reply := Some(id);
      }
    }
  }

  /** The calls made so far, leaving out what they led to. */
  function Calls(steps: seq<Step>): seq<Step> {
    if steps == [] then []
    else
      var last := steps[|steps| - 1];
      Calls(steps[..|steps| - 1]) + if last.CallSync? || last.CallProcess? || last.Restart? then [last] else []
  }

  lemma RunStarted(run: seq<System>, steps: seq<Step>)
    requires Behaviour(run, steps)
    ensures run != []
  {
  }

  lemma RunGrows(run: seq<System>, steps: seq<Step>, step: Step)
    requires run != [] && Behaviour(run, steps) && Enabled(run[|run| - 1], step)
    ensures Behaviour(run + [Do(run[|run| - 1], step)], steps + [step])
  {
  }

  lemma Restarts(s: System)
    ensures Do(s, Restart) == Started(s.cycle, s.connections)
  {
  }

  lemma OneMoreRouter(desired: seq<Desired>, i: nat)
    requires i < |desired|
    ensures var d := desired[i];
      WithUrl(desired[..i + 1]) == WithUrl(desired[..i]) + if d.url == "" || d.url == "https://" then [] else [d]
  {
    assert desired[..i + 1][..i] == desired[..i];
  }

  lemma NoRouter()
    ensures WithUrl([]) == []
  {
  }

  lemma HandedSince(start: seq<Desired>, before: seq<Desired>, after: seq<Desired>, d: Desired, desired: seq<Desired>)
    requires start <= before && (after == before || after == before + [d]) && d in desired
    requires forall e <- before[|start|..] :: e in desired
    ensures forall e <- after[|start|..] :: e in desired
  {
  }

  class Client {
    const server: KumaServer
    var client: Option<nat>
    var managers: Option<nat>
    var connecting: bool
    var synced: bool
    var trackedURLs: map<string, int>
    var tracked: map<string, int>
    /** What was passed on to the tag manager and the coordinator. */
    ghost var handed: seq<Handed>
    ghost var run: seq<System>
    ghost var steps: seq<Step>

    ghost function State(): System
      reads this
    {
      if run == [] then Started(Cycle(EMPTY_MEMORY, map[], [], [], [], []), 0) else run[|run| - 1]
    }

    /** The history is a run of the connection protocol, and the fields are its present state. */
    ghost predicate Valid()
      reads this, server
    {
      && Behaviour(run, steps)
      && Matches(State())
    }

    ghost predicate Matches(s: System)
      reads this, server
    {
      && s.client == client && s.managers == managers && s.connecting == connecting && s.synced == synced
      && s.connections == server.connections
      && s.cycle.memory == Memory(trackedURLs, tracked) && s.cycle.handed == handed
      && s.cycle.remote == server.monitors && s.cycle.sent == server.sent && s.cycle.created == server.created
    }

    /** `New`, when the logs begin: the first connection attempt starts at once. */
    constructor (server: KumaServer)
      requires server.sent == server.created == [] && server.connections == 0
      ensures Valid() && this.server == server && steps == [] && State().phase.Idle?
    {
      this.server := server;
      client, managers, connecting, synced := None, None, true, false;
      trackedURLs, tracked, handed := map[], map[], [];
      run, steps := [Started(Cycle(EMPTY_MEMORY, map[], server.monitors, [], [], []), 0)], [];
    }

    /** `New` after the companion was stopped, at any point of what the client before it was doing: nothing is left
        of that client but what it did to Uptime Kuma. */
    constructor Restarted(server: KumaServer, ghost previous: Client)
      requires previous.Valid() && previous.server == server
      ensures Valid() && this.server == server && State().phase.Idle?
      ensures steps == previous.steps + [Restart] && State() == Do(previous.State(), Restart)
      ensures trackedURLs == map[] && tracked == map[]
    {
      this.server := server;
      client, managers, connecting, synced := None, None, true, false;
      trackedURLs, tracked := map[], map[];
      handed := previous.handed;
      ghost var next := Do(previous.State(), Restart);
      run, steps := previous.run + [next], previous.steps + [Restart];
      new;
      hide Do;
      RunStarted(previous.run, previous.steps);
      RunGrows(previous.run, previous.steps, Restart);
      Restarts(previous.State());
    }

    /** What holds of every run holds of Uptime Kuma behind any client, at any time. */
    lemma ServerHasNoRepeats()
      requires Valid()
      ensures forall i, j :: 0 <= i < j < |server.created| && KeyOf(server.created[i]) == KeyOf(server.created[j]) ==>
        server.created[j].allowDuplicates
      ensures forall h <- handed :: Has(server.monitors, h.id, KeyOf(h.desired))
    {
      NeverCreatedTwice(run, steps, |run| - 1);
    }

    lemma MapsTrue()
      requires Valid()
      ensures MapsNested(State().cycle) && IdsTrue(State().cycle)
    {
      hide Remembers;
      RunStarted(run, steps);
      AlwaysInv(run, steps, |run| - 1);
      NestedMaps(State());
    }

    lemma MemoryIs()
      requires Valid()
      ensures State().cycle.memory == Memory(trackedURLs, tracked)
    {
    }

    /** Nothing has been handed on or created since. */
    twostate predicate NoneHandedOn()
      reads this, server
    {
      handed == old(handed) && server.monitors == old(server.monitors) && server.sent == old(server.sent)
    }

    ghost method Advance(step: Step)
      requires Behaviour(run, steps) && Enabled(State(), step) && Matches(Do(State(), step))
      modifies this`run, this`steps
      ensures Valid() && State() == Do(old(State()), step) && steps == old(steps) + [step]
      ensures Calls(steps) ==
        Calls(old(steps)) + if step.CallSync? || step.CallProcess? || step.Restart? then [step] else []
    {
      hide Do, Behaviour, Enabled, Started;
      RunStarted(run, steps);
      RunGrows(run, steps, step);
      var next := Do(State(), step);
      run, steps := run + [next], steps + [step];
      assert steps[..|steps| - 1] == old(steps);
    }

    /** The background attempt may end here, if there is one; never under a caller that `ensureConnected` let
        through. */
    method Background()
      requires Valid()
      modifies this, server
      ensures Valid() && old(steps) <= steps && Calls(steps) == Calls(old(steps))
      ensures State().phase == old(State().phase)
      ensures !old(State().phase.Idle?) ==> State() == old(State()) && steps == old(steps) && synced == old(synced)
      ensures NoneHandedOn()
    {
      AlwaysInv(run, steps, |run| - 1);
      var done: bool := *;
      if connecting && done {
        var connection := server.Connect();
        connecting := false;
        if connection.Some? {
          client, managers, synced := connection, connection, false;
        }
        Advance(Connected(connection.Some?));
      }
    }

    method EnsureConnected(ghost call: Step) returns (ready: bool)
      requires Valid() && State().phase.Idle? && (call.CallSync? || call.CallProcess?)
      modifies this
      ensures Valid() && State() == Do(old(State()), call)
      ensures ready <==> !State().phase.Idle?
      ensures NoneHandedOn() && (old(client).Some? ==> ready)
      ensures old(steps) + [call] == steps && Calls(steps) == Calls(old(steps)) + [call]
    {
      ready := client.Some?;
      if !ready && !connecting {
        connecting := true;
      }
      Advance(call);
    }

    method ResetClient()
      modifies this`client, this`managers, this`synced
      ensures client == managers == None && !synced
    {
      client, managers, synced := None, None, false;
    }

    method Fetch() returns (reply: Option<seq<Monitor>>)
      requires Valid() && State().phase.Syncing?
      modifies this
      ensures Valid() && old(steps) <= steps && Calls(steps) == Calls(old(steps))
      ensures reply.None? ==> State().phase.Idle?
      ensures reply.Some? ==> State().phase == Learning(old(State().phase.next), reply.value, 0)
      ensures NoneHandedOn() && (server.reliable ==> reply.Some?)
    {
      hide Calls, Remembers, Visit;
      AlwaysInv(run, steps, |run| - 1);
      reply := server.GetMonitors(client.value);
      if reply.None? {
        ResetClient();
      }
      Advance(KumaRuns.Fetch(reply.Some?));
    }

    method LearnMonitor(m: Monitor)
      requires Valid() && Enabled(State(), LearnNext) && State().phase.snapshot[State().phase.n] == m
      modifies this
      ensures Valid() && old(steps) <= steps && Calls(steps) == Calls(old(steps))
      ensures var phase := old(State().phase); State().phase == Learning(phase.next, phase.snapshot, phase.n + 1)
      ensures NoneHandedOn()
    {
      hide Calls, Behaviour, Visit;
      if m.url != "" {
        var dedupeKey := Key(m.url, m.name);
        trackedURLs := trackedURLs[dedupeKey := m.id];
        tracked := tracked[dedupeKey := m.id];
      }
      Advance(LearnNext);
    }

    method MarkSynced()
      requires Valid() && Enabled(State(), KumaRuns.MarkSynced)
      modifies this
      ensures Valid() && old(steps) <= steps && Calls(steps) == Calls(old(steps))
      ensures match old(State().phase.next)
        case None => State().phase.Idle?
        case Some(desired) => State().phase == Working(desired) && State().cycle.cycleURLs == map[]
      ensures NoneHandedOn()
    {
      hide Calls, Behaviour, Visit, Learn;
      synced := true;
      Advance(KumaRuns.MarkSynced);
    }

    /** Learns every monitor Uptime Kuma has. */
    method DoSync() returns (ok: bool)
      requires Valid() && State().phase.Syncing?
      modifies this, server
      ensures Valid() && old(steps) <= steps && Calls(steps) == Calls(old(steps))
      ensures !ok ==> State().phase.Idle?
      ensures ok ==> match old(State().phase.next)
        case None => State().phase.Idle?
        case Some(desired) => State().phase == Working(desired) && State().cycle.cycleURLs == map[]
      ensures NoneHandedOn() && (server.reliable ==> ok)
    {
      hide Calls, Client.Valid;
      var reply := Fetch();
      if reply.None? {
        return false;
      }
      var monitors := reply.value;
      var i := 0;
      while i < |monitors|
        invariant i <= |monitors|
        invariant Valid() && old(steps) <= steps && Calls(steps) == Calls(old(steps))
        invariant State().phase == Learning(old(State().phase.next), monitors, i) && NoneHandedOn()
      {
        Background();
        LearnMonitor(monitors[i]);
        i := i + 1;
      }
      Background();
      MarkSynced();
      return true;
    }

    method SyncState()
      requires Valid() && State().phase.Idle?
      modifies this, server
      ensures Valid() && State().phase.Idle?
      ensures old(steps) <= steps && Calls(steps) == Calls(old(steps)) + [CallSync]
    {
      var ready := EnsureConnected(CallSync);
      if ready {
        Background();
        var _ := DoSync();
      }
    }

    method FindMonitor(d: Desired, cycleURLs: map<string, int>) returns (monitorID: Option<int>)
      requires Valid() && State().cycle.cycleURLs == cycleURLs
      ensures monitorID == Lookup(State().cycle, d)
    {
      hide Behaviour;
      var dedupeKey := Key(d.url, d.name);
      monitorID := None;
      if d.allowDuplicates {
        if dedupeKey in tracked {
          monitorID := Some(tracked[dedupeKey]);
        }
      } else if dedupeKey in trackedURLs {
        monitorID := Some(trackedURLs[dedupeKey]);
      } else if dedupeKey in cycleURLs {
        monitorID := Some(cycleURLs[dedupeKey]);
      }
    }

    /** Passes a monitor on to the tag manager and the coordinator. */
    method HandOn(monitorID: int, d: Desired)
      modifies this`handed
      ensures handed == if monitorID != 0 then old(handed) + [Handed(monitorID, d)] else old(handed)
    {
      if monitorID != 0 {
        handed := handed + [Handed(monitorID, d)];
      }
    }

    /** A monitor just created is remembered for later cycles and for the rest of this one. */
    method CreateMissing(d: Desired, cycleURLs: map<string, int>)
      returns (urls: map<string, int>, ghost reply: Option<int>)
      requires Valid() && State().phase.Working? && State().phase.todo != [] && State().phase.todo[0] == d
      requires State().cycle.cycleURLs == cycleURLs && !Skipped(d) && Lookup(State().cycle, d).None?
      modifies this, server
      ensures Valid() && old(steps) <= steps && Calls(steps) == Calls(old(steps))
      ensures State().phase == Working(old(State().phase.todo[1..])) && State().cycle.cycleURLs == urls
      ensures server.sent == old(server.sent) + [d]
      ensures server.monitors == old(server.monitors) +
        if reply.Some? then [Monitor(reply.value, d.url, d.name)] else []
      ensures handed == old(handed) + if reply.None? || reply.value == 0 then [] else [Handed(reply.value, d)]
      ensures server.reliable ==> reply.Some? && reply.value != 0
    {
      hide Calls, Behaviour, Remembers, Learn, Lookup;
      AlwaysInv(run, steps, |run| - 1);
      urls := cycleURLs;
      var dedupeKey := Key(d.url, d.name);
      var monitorID := server.CreateMonitor(client.value, d);
      if monitorID.Some? {
        trackedURLs := trackedURLs[dedupeKey := monitorID.value];
        urls := cycleURLs[dedupeKey := monitorID.value];
        HandOn(monitorID.value, d);
      }
      reply := monitorID;
      Advance(Work(monitorID));
    }

    /** A router that needs no create call: a monitor that was found is handed on. */
    method HandOnFound(monitorID: Option<int>, d: Desired)
      requires Valid() && State().phase.Working? && State().phase.todo != [] && State().phase.todo[0] == d
      requires monitorID == if Skipped(d) then None else Lookup(State().cycle, d)
      requires !Skipped(d) ==> monitorID.Some?
      modifies this
      ensures Valid() && old(steps) <= steps && Calls(steps) == Calls(old(steps))
      ensures State().phase == Working(old(State().phase.todo[1..]))
      ensures State().cycle.cycleURLs == old(State().cycle.cycleURLs)
      ensures handed == old(handed) +
        if monitorID.None? || monitorID.value == 0 then [] else [Handed(monitorID.value, d)]
    {
      hide Calls, Behaviour, Learn, Lookup, Visit;
      VisitWithoutCall(State().cycle, d, None);
      if monitorID.Some? {
        HandOn(monitorID.value, d);
      }
      Advance(Work(None));
    }

    /** One router: passed over without a URL; handed on with the id its key is remembered with; or created and then
        handed on. */
    method VisitRouter(d: Desired, cycleURLs: map<string, int>)
      returns (urls: map<string, int>, ghost reply: Option<int>)
      requires Valid() && State().phase.Working? && State().phase.todo != [] && State().phase.todo[0] == d
      requires State().cycle.cycleURLs == cycleURLs
      modifies this, server
      ensures Valid() && old(steps) <= steps && Calls(steps) == Calls(old(steps))
      ensures State().phase == Working(old(State().phase.todo[1..])) && State().cycle.cycleURLs == urls
      ensures var key, known := d.url + d.name, if d.allowDuplicates then old(tracked) else old(trackedURLs);
        if d.url == "" || d.url == "https://" then NoneHandedOn()
        else
          var id := if key in known then Some(known[key]) else reply;
          && handed == old(handed) + (if id.None? || id.value == 0 then [] else [Handed(id.value, d)])
          && server.sent == old(server.sent) + (if key in known then [] else [d])
          && server.monitors == old(server.monitors) +
               (if key in known || reply.None? then [] else [Monitor(reply.value, d.url, d.name)])
          && (server.reliable && key !in known ==> reply.Some? && reply.value != 0)
    {
      hide Calls, Client.Valid, MapsNested, IdsTrue, Lookup;
      MapsTrue();
      LookupIs(State().cycle, d);
      MemoryIs();
      urls, reply := cycleURLs, None;
      if d.url == "" || d.url == "https://" {
        HandOnFound(None, d);
        return;
      }
      var monitorID := FindMonitor(d, cycleURLs);
      if monitorID.None? {
        urls, reply := CreateMissing(d, cycleURLs);
      } else {
        HandOnFound(monitorID, d);
      }
    }

    /** What a visit adds to what has been handed on. */
    method VisitNext(d: Desired, cycleURLs: map<string, int>) returns (urls: map<string, int>)
      requires Valid() && State().phase.Working? && State().phase.todo != [] && State().phase.todo[0] == d
      requires State().cycle.cycleURLs == cycleURLs
      modifies this, server
      ensures Valid() && old(steps) <= steps && Calls(steps) == Calls(old(steps))
      ensures State().phase == Working(old(State().phase.todo[1..])) && State().cycle.cycleURLs == urls
      ensures old(handed) <= handed
      ensures Routers(handed) == Routers(old(handed)) || Routers(handed) == Routers(old(handed)) + [d]
      ensures server.reliable && IdsCount(old(server.monitors)) ==>
        && IdsCount(server.monitors)
        && Routers(handed) == Routers(old(handed)) + if d.url == "" || d.url == "https://" then [] else [d]
    {
      hide Calls, MapsNested, Client.Valid, Lookup;
      IdsRemembered(d);
      ghost var reply;
      urls, reply := VisitRouter(d, cycleURLs);
    }

    lemma IdsRemembered(d: Desired)
      requires Valid()
      ensures var key, known := d.url + d.name, if d.allowDuplicates then tracked else trackedURLs;
        IdsCount(server.monitors) && key in known ==> known[key] != 0
    {
      hide Remembers, Behaviour, MapsNested, IdsTrue, Lookup;
      MapsTrue();
      LookupIs(State().cycle, d);
      if IdsCount(server.monitors) && Lookup(State().cycle, d).Some? {
        FoundCounts(State().cycle, d);
      }
    }

    /** The loop over routers. */
    method VisitRouters(desired: seq<Desired>)
      requires Valid() && State().phase == Working(desired) && State().cycle.cycleURLs == map[]
      modifies this, server
      ensures Valid() && State().phase == Working([])
      ensures old(steps) <= steps && Calls(steps) == Calls(old(steps))
      ensures old(handed) <= handed && forall d <- Routers(handed)[|old(handed)|..] :: d in desired
      ensures server.reliable && IdsCount(old(server.monitors)) ==>
        Routers(handed) == Routers(old(handed)) + WithUrl(desired)
    {
      hide Calls, Client.Valid, Visit, Learn, Started, IdsCount, WithUrl;
      ghost var sure := server.reliable && IdsCount(server.monitors);
      NoRouter();
      var cycleURLs: map<string, int> := map[];
      var i := 0;
      while i < |desired|
        invariant i <= |desired|
        invariant Valid() && old(steps) <= steps && Calls(steps) == Calls(old(steps))
        invariant State().phase == Working(desired[i..]) && State().cycle.cycleURLs == cycleURLs
        invariant old(handed) <= handed && forall d <- Routers(handed)[|old(handed)|..] :: d in desired
        invariant sure ==> IdsCount(server.monitors) && Routers(handed) == Routers(old(handed)) + WithUrl(desired[..i])
      {
        Background();
        ghost var before := Routers(handed);
        cycleURLs := VisitNext(desired[i], cycleURLs);
        OneMoreRouter(desired, i);
        HandedSince(Routers(old(handed)), before, Routers(handed), desired[i], desired);
        i := i + 1;
      }
      assert desired[..|desired|] == desired;
    }

    ghost method FinishCycle()
      requires Valid() && Enabled(State(), Finish)
      modifies this`run, this`steps
      ensures Valid() && State().phase.Idle? && old(steps) <= steps && Calls(steps) == Calls(old(steps))
    {
      hide Calls, Behaviour, Visit, Learn;
      Advance(Finish);
    }

    method ReadSynced() returns (needsSync: bool)
      requires Valid() && State().phase.Checked?
      modifies this
      ensures Valid() && old(steps) <= steps && Calls(steps) == Calls(old(steps))
      ensures var desired := old(State().phase.desired);
        if needsSync then State().phase == Syncing(Some(desired))
        else State().phase == Working(desired) && State().cycle.cycleURLs == map[]
      ensures NoneHandedOn() && (needsSync <==> !old(synced))
    {
      hide Calls, Behaviour, Visit, Learn;
      needsSync := !synced;
      Advance(KumaRuns.ReadSynced);
    }

    /** One cycle: nothing without a connection; otherwise a sync if one is due, and then router after router.
        Monitors are handed on for routers of this cycle only; on a connected and reliable server without a monitor
        0, for each of them that has a URL, once and in order. */
    method Process(desired: seq<Desired>)
      requires Valid() && State().phase.Idle?
      modifies this, server
      ensures Valid() && State().phase.Idle?
      ensures old(handed) <= handed && forall d <- Routers(handed)[|old(handed)|..] :: d in desired
      ensures server.reliable && old(client).Some? && IdsCount(old(server.monitors)) ==>
        Routers(handed) == Routers(old(handed)) + WithUrl(desired)
      ensures old(steps) <= steps && Calls(steps) == Calls(old(steps)) + [CallProcess(desired)]
    {
      hide Calls, Client.Valid, Visit, Learn, Started;
      var ready := EnsureConnected(CallProcess(desired));
      if !ready {
        return;
      }
      Background();
      var needsSync := ReadSynced();
      if needsSync {
        var ok := DoSync();
        if !ok {
          return;
        }
      }
      VisitRouters(desired);
      FinishCycle();
    }
  }
}
