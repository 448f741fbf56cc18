/** The Gatus client as an object; its methods do to cache and bridge what the functions of `Gatus` say. */
module GatusClient {
  import opened Text
  import opened Gatus
  import opened GatusQuery

  /** The bridge, with logs of the adds and deletes asked for: a call succeeds, or fails without effect; a reliable
      bridge does not fail. */
  class Server {
    const reliable: bool
    var endpoints: set<Endpoint>
    var adds: seq<Endpoint>
    var deletes: seq<Endpoint>

    method GetEndpoints() returns (reply: Option<set<Endpoint>>)
      ensures reply.Some? ==> reply.value == endpoints
      ensures reliable ==> reply.Some?
    {
      var ok: bool := *;
      reply := if ok || reliable then Some(endpoints) else None;
    }

    method AddEndpoint(ep: Endpoint) returns (ok: bool)
      modifies this`endpoints, this`adds
      ensures endpoints == if ok then old(endpoints) + {ep} else old(endpoints)
      ensures adds == old(adds) + [ep]
      ensures reliable ==> ok
    {
      adds := adds + [ep];
      ok := *;
      ok := ok || reliable;
      if ok {
        endpoints := endpoints + {ep};
      }
    }

    /** Deletes the endpoint that the query is about as the bridge reads it. A bridge that does not know it answers 404,
        which the client takes for success. */
    method DeleteEndpoint(name: string, group: string) returns (ok: bool)
      modifies this`endpoints, this`deletes
      ensures endpoints == if ok then old(endpoints) - {Read(Endpoint(group, name))} else old(endpoints)
      ensures deletes == old(deletes) + [Endpoint(group, name)]
      ensures reliable ==> ok
    {
      deletes := deletes + [Endpoint(group, name)];
      ok := *;
      ok := ok || reliable;
      if ok {
        endpoints := endpoints - {Read(Endpoint(group, name))};
      }
    }
  }

  class Client {
    const server: Server
    var tracked: set<string>

    ghost function State(): Bridge
      reads this, server
    {
      Bridge(tracked, server.endpoints)
    }

    constructor (server: Server)
      ensures this.server == server && tracked == {}
    {
      this.server := server;
      tracked := {};
    }

    /** Called once, before the first cycle. */
    method SyncState() returns (ok: bool)
      modifies this
      ensures tracked == if ok then old(tracked) + Keys(server.endpoints) else old(tracked)
      ensures ok && old(tracked) == {} ==> State() == Seeded(server.endpoints)
      ensures server.reliable ==> ok
    {
      var reply := server.GetEndpoints();
      ok := reply.Some?;
      if ok {
        var todo := reply.value;
        while todo != {}
          invariant todo <= server.endpoints
          invariant tracked == old(tracked) + Keys(server.endpoints - todo)
        {
          var ep: Endpoint :| ep in todo;
          assert server.endpoints - (todo - {ep}) == (server.endpoints - todo) + {ep};
          tracked := tracked + {ep.group + "/" + ep.name};
          todo := todo - {ep};
        }
        assert server.endpoints - {} == server.endpoints;
      }
    }

    /** One router: a call for its endpoint if it has a URL and its key is not tracked. */
    method AddRouter(w: Wanted) returns (ok: bool)
      modifies this, server`endpoints, server`adds
      ensures State() == Add(old(State()), w, ok)
      ensures server.adds == old(server.adds) +
        if w.url != "" && w.url != "https://" && w.endpoint.group + "/" + w.endpoint.name !in old(tracked)
        then [w.endpoint] else []
      ensures server.reliable ==> ok
    {
      ok := true;
      if w.url != "" && w.url != "https://" {
        var cacheKey := w.endpoint.group + "/" + w.endpoint.name;
        if cacheKey !in tracked {
          ok := server.AddEndpoint(w.endpoint);
          if ok {
            tracked := tracked + {cacheKey};
          }
        }
      }
    }

    /** Every router with a URL whose key is not tracked gets a call, whichever calls fail. */
    method AddWanted(wanted: seq<Wanted>) returns (activeKeys: set<string>, ghost oks: seq<bool>)
      modifies this, server`endpoints, server`adds
      ensures activeKeys == Active(wanted)
      ensures |oks| == |wanted| && State() == AddAll(old(State()), wanted, oks)
      ensures server.adds == old(server.adds) + Asked(old(State()), wanted, oks)
      ensures server.reliable ==> AllTrue(oks)
    {
      hide Add, AddAll, Asked, Active, AllTrue;
      activeKeys, oks := {}, [];
      NoFaults();
      NoneWanted(State());
      assert wanted[..0] == [];
      for n := 0 to |wanted|
        invariant activeKeys == Active(wanted[..n])
        invariant |oks| == n && State() == AddAll(old(State()), wanted[..n], oks)
        invariant server.adds == old(server.adds) + Asked(old(State()), wanted[..n], oks)
        invariant server.reliable ==> AllTrue(oks)
      {
        var w := wanted[n];
        ActiveAppend(wanted[..n], w);
        if w.url != "" && w.url != "https://" {
          activeKeys := activeKeys + {w.endpoint.group + "/" + w.endpoint.name};
        }
        var ok := AddRouter(w);
        OneMoreAdd(old(State()), wanted, n, oks, ok);
        OneMoreCall(oks, ok);
        assert wanted[..n + 1] == wanted[..n] + [w];
        oks := oks + [ok];
      }
      assert wanted[..|wanted|] == wanted;
    }

    /** One tracked key: a call for what it is split into, unless it is active or has no slash. */
    method DropKey(trackedKey: string, activeKeys: set<string>) returns (ok: bool)
      requires trackedKey in tracked
      modifies this, server`endpoints, server`deletes
      ensures State() == Drop(old(State()), activeKeys, trackedKey, ok)
      ensures server.deletes == old(server.deletes) + AskedFor(trackedKey, activeKeys)
      ensures server.reliable ==> ok
    {
      hide Read, Cut;
      ok := true;
      if trackedKey !in activeKeys {
        var parts := Cut(trackedKey, '/');
        if parts.Some? {
          var (group, name) := parts.value;
          ok := server.DeleteEndpoint(name, group);
          if ok {
            tracked := tracked - {trackedKey};
          }
        }
      }
    }

    /** Orphan cleanup, meeting the tracked keys in whatever order the map yields them; each orphan gets a call,
        whichever calls fail. */
    method CleanUp(activeKeys: set<string>) returns (ghost order: seq<string>, ghost oks: seq<bool>)
      modifies this, server`endpoints, server`deletes
      ensures |oks| == |order| && State() == DropAll(old(State()), activeKeys, order, oks)
      ensures forall key :: key in order <==> key in old(tracked)
      ensures server.deletes == old(server.deletes) + AskedForAll(order, activeKeys)
      ensures server.reliable ==> AllTrue(oks)
    {
      hide Read, Cut, AllTrue, Drop;
      order, oks := [], [];
      NoFaults();
      var todo := tracked;
      while todo != {}
        invariant |oks| == |order| && State() == DropAll(old(State()), activeKeys, order, oks)
        invariant todo <= old(tracked) && todo <= tracked
        invariant forall key :: key in order <==> key in old(tracked) - todo
        invariant server.deletes == old(server.deletes) + AskedForAll(order, activeKeys)
        invariant server.reliable ==> AllTrue(oks)
      {
        var trackedKey: string :| trackedKey in todo;
        todo := todo - {trackedKey};
        DropsOne(State(), activeKeys, trackedKey);
        var ok := DropKey(trackedKey, activeKeys);
        assert (order + [trackedKey])[..|order|] == order && (oks + [ok])[..|oks|] == oks;
        OneMoreCall(oks, ok);
        order, oks := order + [trackedKey], oks + [ok];
      }
    }

    /** One cycle is a round of `Gatus`; so a client in sync stays so whatever fails where every inactive endpoint
        can be deleted, and on a reliable bridge it ends up with the active endpoints and no others exactly then.
        Whatever fails, every router with a URL is tracked at the end or has had a call, and so has every key that was
        tracked and is not wanted, if it has a slash. */
    method Process(wanted: seq<Wanted>)
      returns (ghost round: Round, ghost adds: seq<Endpoint>, ghost deletes: seq<Endpoint>)
      modifies this, server
      ensures round.wanted == wanted && Fits(old(State()), round) && State() == Processed(old(State()), round)
      ensures server.reliable ==> FaultFree(round)
      ensures server.adds == old(server.adds) + adds && server.deletes == old(server.deletes) + deletes
      ensures forall w <- wanted :: w.url != "" && w.url != "https://" ==>
        w.endpoint.group + "/" + w.endpoint.name in tracked || w.endpoint in adds
      ensures forall ep <- adds ::
        ep.group + "/" + ep.name !in old(tracked) && WantedKey(wanted, ep.group + "/" + ep.name)
      ensures forall ep :: ep in deletes <==>
        exists key <- old(tracked) :: !WantedKey(wanted, key) && Cut(key, '/') == Some((ep.group, ep.name))
      ensures InSync(old(State())) ==>
        var clean := Deletable(old(server.endpoints), Active(wanted));
        && (clean ==> InSync(State()))
        && (server.reliable ==> tracked == Active(wanted) && (Keys(server.endpoints) == Active(wanted) <==> clean))
    {
      hide AddAll, DropAll, Active, Deletable, InSync, Asked, AskedForAll, WantedKey, Cut;
      var activeKeys, addOks := AddWanted(wanted);
      ghost var mid := State();
      var order, dropOks := CleanUp(activeKeys);
      round := Round(wanted, addOks, order, dropOks);
      adds, deletes := Asked(old(State()), wanted, addOks), AskedForAll(order, activeKeys);
      AskedOrTracked(old(State()), wanted, addOks);
      AskedAreWanted(old(State()), wanted, addOks);
      AddAllFacts(old(State()), wanted, addOks);
      AskedForFacts(old(tracked), wanted, mid.tracked, order);
      DropAllFacts(mid, activeKeys, order, dropOks);
      WantedIsActive(wanted);
      if InSync(old(State())) {
        if Deletable(old(server.endpoints), Active(wanted)) {
          RoundStaysInSync(old(State()), round);
        }
        if server.reliable {
          FaultFreeConverges(old(State()), round);
        }
      }
    }
  }

  /** The endpoints that a cycle asks the bridge to add. */
  function Asked(b: Bridge, wanted: seq<Wanted>, oks: seq<bool>): seq<Endpoint>
    requires |oks| == |wanted|
  {
    if wanted == [] then []
    else
      var n := |wanted| - 1;
      var w := wanted[n];
      Asked(b, wanted[..n], oks[..n]) +
        if w.url != "" && w.url != "https://" &&
          w.endpoint.group + "/" + w.endpoint.name !in AddAll(b, wanted[..n], oks[..n]).tracked
        then [w.endpoint] else []
  }

  /** And those that its cleanup asks it to delete. */
  function AskedFor(key: string, active: set<string>): seq<Endpoint> {
    if key in active then []
    else match Cut(key, '/')
      case None => []
      case Some((group, name)) => [Endpoint(group, name)]
  }

  function AskedForAll(order: seq<string>, active: set<string>): seq<Endpoint> {
    if order == [] then []
    else AskedForAll(order[..|order| - 1], active) + AskedFor(order[|order| - 1], active)
  }

  lemma NoneWanted(b: Bridge)
    ensures Active([]) == {} && AddAll(b, [], []) == b && Asked(b, [], []) == []
  {
  }

  lemma OneMoreAdd(b: Bridge, wanted: seq<Wanted>, n: nat, oks: seq<bool>, ok: bool)
    requires n == |oks| < |wanted|
    ensures var w, before := wanted[n], AddAll(b, wanted[..n], oks);
      && AddAll(b, wanted[..n + 1], oks + [ok]) == Add(before, w, ok)
      && Asked(b, wanted[..n + 1], oks + [ok]) == Asked(b, wanted[..n], oks) +
           if w.url != "" && w.url != "https://" && w.endpoint.group + "/" + w.endpoint.name !in before.tracked
           then [w.endpoint] else []
  {
    hide Add;
    assert wanted[..n + 1][..n] == wanted[..n] && (oks + [ok])[..n] == oks;
  }

  /** Each router with a URL is tracked after the adds, or has been asked for. */
  lemma {:induction false} AskedOrTracked(b: Bridge, wanted: seq<Wanted>, oks: seq<bool>)
    requires |oks| == |wanted|
    ensures var after := AddAll(b, wanted, oks);
      forall w <- wanted :: w.url != "" && w.url != "https://" ==>
        w.endpoint.group + "/" + w.endpoint.name in after.tracked || w.endpoint in Asked(b, wanted, oks)
  {
    if wanted != [] {
      hide AddAll;
      var n := |wanted| - 1;
      AskedOrTracked(b, wanted[..n], oks[..n]);
      AddGrows(b, wanted, oks);
      assert wanted == wanted[..n] + [wanted[n]];
    }
  }

  lemma {:induction false} AskedAreWanted(b: Bridge, wanted: seq<Wanted>, oks: seq<bool>)
    requires |oks| == |wanted|
    ensures forall ep <- Asked(b, wanted, oks) ::
      ep.group + "/" + ep.name !in b.tracked && WantedKey(wanted, ep.group + "/" + ep.name)
  {
    if wanted != [] {
      hide WantedKey, AddAll;
      var n := |wanted| - 1;
      AskedAreWanted(b, wanted[..n], oks[..n]);
      AddAllFacts(b, wanted[..n], oks[..n]);
      WantedLast(wanted);
    }
  }

  lemma AddGrows(b: Bridge, wanted: seq<Wanted>, oks: seq<bool>)
    requires |oks| == |wanted| && wanted != []
    ensures var n := |wanted| - 1; AddAll(b, wanted[..n], oks[..n]).tracked <= AddAll(b, wanted, oks).tracked
  {
  }

  lemma WantedLast(wanted: seq<Wanted>)
    requires wanted != []
    ensures var w := wanted[|wanted| - 1];
      && (forall key :: WantedKey(wanted[..|wanted| - 1], key) ==> WantedKey(wanted, key))
      && (w.url != "" && w.url != "https://" ==> WantedKey(wanted, w.endpoint.group + "/" + w.endpoint.name))
  {
  }

  lemma {:induction false} AskedForEach(order: seq<string>, active: set<string>, ep: Endpoint)
    ensures ep in AskedForAll(order, active) <==>
      exists key <- order :: key !in active && Cut(key, '/') == Some((ep.group, ep.name))
  {
    if order != [] {
      hide Cut, AskedFor;
      var n := |order| - 1;
      AskedForEach(order[..n], active, ep);
      AskedForOne(order[n], active, ep);
      assert order == order[..n] + [order[n]];
    }
  }

  lemma AskedForOne(key: string, active: set<string>, ep: Endpoint)
    ensures ep in AskedFor(key, active) <==> key !in active && Cut(key, '/') == Some((ep.group, ep.name))
  {
  }

  lemma AskedForFacts(before: set<string>, wanted: seq<Wanted>, mid: set<string>, order: seq<string>)
    requires before <= mid <= before + Active(wanted) && forall key :: key in order <==> key in mid
    ensures forall ep :: ep in AskedForAll(order, Active(wanted)) <==>
      exists key <- before :: !WantedKey(wanted, key) && Cut(key, '/') == Some((ep.group, ep.name))
  {
    hide AskedForAll, WantedKey, Active, Cut;
    WantedIsActive(wanted);
    forall ep {
      AskedForEach(order, Active(wanted), ep);
    }
  }

  lemma WantedIsActive(wanted: seq<Wanted>)
    ensures forall key :: key in Active(wanted) <==> WantedKey(wanted, key)
    ensures forall w <- wanted :: w.url != "" && w.url != "https://" ==>
      w.endpoint.group + "/" + w.endpoint.name in Active(wanted)
  {
  }

  /** Dropping one key leaves the other tracked keys. */
  lemma DropsOne(b: Bridge, active: set<string>, key: string)
    ensures forall ok :: b.tracked - {key} <= Drop(b, active, key, ok).tracked
  {
  }

  lemma NoFaults()
    ensures AllTrue([])
  {
  }

  lemma OneMoreCall(oks: seq<bool>, ok: bool)
    ensures AllTrue(oks) && ok ==> AllTrue(oks + [ok])
  {
  }
}
