/** The Gatus client of internal/monitor/gatus/client.go: a set of tracked keys that follows the bridge's endpoints. */
module Gatus {
  import opened Text
  import opened GatusQuery

  /** A router that wants an endpoint, with URL, group and name already resolved from labels. */
  datatype Wanted = Wanted(url: string, endpoint: Endpoint)

  /** The client's tracked keys and the endpoints the bridge has. */
  datatype Bridge = Bridge(tracked: set<string>, remote: set<Endpoint>)

  function Key(ep: Endpoint): string {
    ep.group + "/" + ep.name
  }

  function Keys(remote: set<Endpoint>): set<string> {
    set ep <- remote :: Key(ep)
  }

  predicate Skipped(w: Wanted) {
    w.url == "" || w.url == "https://"
  }

  function Active(wanted: seq<Wanted>): set<string> {
    set w | w in wanted && !Skipped(w) :: Key(w.endpoint)
  }

  /** The endpoint that orphan cleanup takes a key to stand for. */
  function Target(key: string): Option<Endpoint> {
    match Cut(key, '/')
    case None => None
    case Some((group, name)) => Some(Endpoint(group, name))
  }

  /** The endpoint that the bridge takes the delete for a key to be about. */
  function Reached(key: string): Option<Endpoint> {
    match Target(key)
    case None => None
    case Some(ep) => Some(Read(ep))
  }

  /** No slash in the group, and nothing in group or name that a query changes. */
  predicate Clear(ep: Endpoint) {
    '/' !in ep.group && Plain(ep.group) && Plain(ep.name)
  }

  /** Splitting a key gives back its endpoint exactly when the group has no slash. */
  lemma SplitInvertsKey(ep: Endpoint)
    ensures Target(Key(ep)) == Some(ep) <==> '/' !in ep.group
  {
    assert Key(ep)[|ep.group|] == '/';
    if '/' !in ep.group {
      CutAt(ep.group, '/', ep.name);
      assert Key(ep) == ep.group + ['/'] + ep.name;
    }
  }

  /** But it always gives some endpoint with that key. */
  lemma TargetHasKey(key: string)
    ensures '/' in key ==> Target(key).Some? && Key(Target(key).value) == key && '/' !in Target(key).value.group
    ensures '/' !in key ==> Target(key).None?
  {
  }

  lemma KeyWeight(ep: Endpoint)
    ensures Weight(Key(ep)) == Total(ep) + Weight("/") && '/' in Key(ep)
  {
    hide Weight;
    WeightConcat(ep.group, "/");
    WeightConcat(ep.group + "/", ep.name);
    assert Key(ep)[|ep.group|] == '/';
  }

  /** What a delete reaches is what its key stands for, or weighs less than every endpoint with that key. */
  lemma ReachedShrinks(ep: Endpoint)
    ensures Reached(Key(ep)).Some?
    ensures Reached(Key(ep)) == Target(Key(ep)) || Total(Reached(Key(ep)).value) < Total(ep)
  {
    hide Key, Target, Total, Read;
    KeyWeight(ep);
    TargetHasKey(Key(ep));
    var target := Target(Key(ep)).value;
    KeyWeight(target);
    ReadShrinks(target);
  }

  /** The delete for an endpoint's key reaches that endpoint if and only if the endpoint is clear. */
  lemma ReachedIffClear(ep: Endpoint)
    ensures Reached(Key(ep)) == Some(ep) <==> Clear(ep)
  {
    hide Key, Target, Total, Read, Plain;
    KeyWeight(ep);
    TargetHasKey(Key(ep));
    SplitInvertsKey(ep);
    ReachedShrinks(ep);
    ReadAsMeant(ep);
  }

  function Add(b: Bridge, w: Wanted, ok: bool): Bridge {
    if Skipped(w) || Key(w.endpoint) in b.tracked || !ok then b
    else Bridge(b.tracked + {Key(w.endpoint)}, b.remote + {w.endpoint})
  }

  function AddAll(b: Bridge, wanted: seq<Wanted>, oks: seq<bool>): Bridge
    requires |oks| == |wanted|
  {
    if wanted == [] then b
    else
      var n := |wanted| - 1;
      Add(AddAll(b, wanted[..n], oks[..n]), wanted[n], oks[n])
  }

  /** Orphan cleanup for one tracked key. An acknowledged delete drops the key, whatever endpoint it reached. */
  function Drop(b: Bridge, active: set<string>, key: string, ok: bool): Bridge {
    var reached := Reached(key);
    if key !in b.tracked || key in active || reached.None? || !ok then b
    else Bridge(b.tracked - {key}, b.remote - {reached.value})
  }

  function DropAll(b: Bridge, active: set<string>, order: seq<string>, oks: seq<bool>): Bridge
    requires |oks| == |order|
  {
    if order == [] then b
    else
      var n := |order| - 1;
      Drop(DropAll(b, active, order[..n], oks[..n]), active, order[n], oks[n])
  }

  /** What one `Process` meets: the routers, the order in which the tracked keys come up, and which calls succeed. */
  datatype Round = Round(wanted: seq<Wanted>, addOks: seq<bool>, order: seq<string>, dropOks: seq<bool>)

  ghost predicate Fits(b: Bridge, r: Round) {
    && |r.addOks| == |r.wanted| && |r.dropOks| == |r.order|
    && (forall key :: key in r.order <==> key in AddAll(b, r.wanted, r.addOks).tracked)
  }

  ghost predicate AllTrue(oks: seq<bool>) {
    forall i :: 0 <= i < |oks| ==> oks[i]
  }

  ghost predicate FaultFree(r: Round) {
    AllTrue(r.addOks) && AllTrue(r.dropOks)
  }

  ghost function Processed(b: Bridge, r: Round): Bridge
    requires Fits(b, r)
  {
    DropAll(AddAll(b, r.wanted, r.addOks), Active(r.wanted), r.order, r.dropOks)
  }

  ghost predicate InSync(b: Bridge) {
    b.tracked == Keys(b.remote)
  }

  /** Every endpoint that is not active is one whose delete reaches it. */
  ghost predicate Deletable(remote: set<Endpoint>, active: set<string>) {
    forall ep <- remote :: Key(ep) in active || Clear(ep)
  }

  lemma ActiveAppend(wanted: seq<Wanted>, w: Wanted)
    ensures Active(wanted + [w]) == Active(wanted) + if Skipped(w) then {} else {Key(w.endpoint)}
  {
  }

  /** Whatever fails, adding keeps the client in sync, loses nothing, and adds active endpoints only; when nothing fails
      all active keys are there. */
  lemma {:induction false} AddAllFacts(b: Bridge, wanted: seq<Wanted>, oks: seq<bool>)
    requires |oks| == |wanted|
    ensures var after := AddAll(b, wanted, oks);
      && b.remote <= after.remote && b.tracked <= after.tracked <= b.tracked + Active(wanted)
      && (forall ep <- after.remote :: ep in b.remote || Key(ep) in Active(wanted))
      && (InSync(b) ==> InSync(after))
      && (AllTrue(oks) ==> after.tracked == b.tracked + Active(wanted))
  {
    if wanted != [] {
      hide Key;
      var n := |wanted| - 1;
      AddAllFacts(b, wanted[..n], oks[..n]);
      ActiveAppend(wanted[..n], wanted[n]);
      assert wanted[..n] + [wanted[n]] == wanted;
    }
  }

  /** The router at `j` has a URL, and its key is neither tracked nor that of an earlier router with a URL. */
  predicate Adds(tracked: set<string>, wanted: seq<Wanted>, j: nat)
    requires j < |wanted|
  {
    var w := wanted[j];
    && w.url != "" && w.url != "https://"
    && w.endpoint.group + "/" + w.endpoint.name !in tracked
    && forall i :: 0 <= i < j && wanted[i].url != "" && wanted[i].url != "https://" ==>
         wanted[i].endpoint.group + "/" + wanted[i].endpoint.name != w.endpoint.group + "/" + w.endpoint.name
  }

  ghost predicate AddsIt(tracked: set<string>, wanted: seq<Wanted>, ep: Endpoint) {
    exists j :: 0 <= j < |wanted| && wanted[j].endpoint == ep && Adds(tracked, wanted, j)
  }

  /** Where all calls succeed, a cycle adds exactly the endpoints of these routers. */
  lemma {:induction false} AddsByUrl(b: Bridge, wanted: seq<Wanted>, oks: seq<bool>, ep: Endpoint)
    requires |oks| == |wanted| && AllTrue(oks)
    ensures ep in AddAll(b, wanted, oks).remote <==> ep in b.remote || AddsIt(b.tracked, wanted, ep)
  {
    if wanted != [] {
      hide AddsIt, Adds;
      var n := |wanted| - 1;
      AddsByUrl(b, wanted[..n], oks[..n], ep);
      AddAllFacts(b, wanted[..n], oks[..n]);
      AddsLast(b.tracked, wanted);
      AddsFront(b.tracked, wanted, ep);
    } else {
      assert !AddsIt(b.tracked, wanted, ep);
    }
  }

  lemma AddsLast(tracked: set<string>, wanted: seq<Wanted>)
    requires wanted != []
    ensures var n := |wanted| - 1;
      Adds(tracked, wanted, n) <==>
      !Skipped(wanted[n]) && Key(wanted[n].endpoint) !in tracked + Active(wanted[..n])
  {
  }

  lemma AddsFront(tracked: set<string>, wanted: seq<Wanted>, ep: Endpoint)
    requires wanted != []
    ensures var n := |wanted| - 1;
      AddsIt(tracked, wanted, ep) <==>
      AddsIt(tracked, wanted[..n], ep) || (wanted[n].endpoint == ep && Adds(tracked, wanted, n))
  {
  }

  /** Whatever fails, the keys tracked after a cycle are those of before and of routers with a URL; so where nothing
      fails they are exactly the latter. */
  lemma TracksByUrl(b: Bridge, r: Round, key: string)
    requires Fits(b, r)
    ensures key in Processed(b, r).tracked ==> key in b.tracked || WantedKey(r.wanted, key)
    ensures FaultFree(r) && InSync(b) ==> (key in Processed(b, r).tracked <==> WantedKey(r.wanted, key))
  {
    hide InSync, FaultFree, AddAll, DropAll, Key;
    AddAllFacts(b, r.wanted, r.addOks);
    DropAllFacts(AddAll(b, r.wanted, r.addOks), Active(r.wanted), r.order, r.dropOks);
    ActiveIs(r.wanted, key);
    if FaultFree(r) && InSync(b) {
      FaultFreeConverges(b, r);
    }
  }

  ghost predicate WantedKey(wanted: seq<Wanted>, key: string) {
    exists w <- wanted :: w.url != "" && w.url != "https://" && key == w.endpoint.group + "/" + w.endpoint.name
  }

  lemma ActiveIs(wanted: seq<Wanted>, key: string)
    ensures key in Active(wanted) <==> WantedKey(wanted, key)
  {
  }

  // ---------- cleanup ----------

  lemma DropStaysInSync(b: Bridge, active: set<string>, key: string, ok: bool)
    requires InSync(b) && Deletable(b.remote, active)
    ensures var after := Drop(b, active, key, ok); InSync(after) && Deletable(after.remote, active)
  {
    hide Key, Reached, Clear;
    forall ep | ep in b.remote ensures Reached(Key(ep)) == Some(ep) <==> Clear(ep) {
      ReachedIffClear(ep);
    }
  }

  lemma {:induction false} DropAllStaysInSync(b: Bridge, active: set<string>, order: seq<string>, oks: seq<bool>)
    requires |oks| == |order| && InSync(b) && Deletable(b.remote, active)
    ensures var after := DropAll(b, active, order, oks); InSync(after) && Deletable(after.remote, active)
  {
    if order != [] {
      hide Drop, InSync, Deletable;
      var n := |order| - 1;
      DropAllStaysInSync(b, active, order[..n], oks[..n]);
      DropStaysInSync(DropAll(b, active, order[..n], oks[..n]), active, order[n], oks[n]);
    }
  }

  /** The delete for some orphan among these keys reaches the endpoint. */
  ghost predicate Hit(b: Bridge, active: set<string>, order: seq<string>, ep: Endpoint) {
    exists key <- order :: key in b.tracked && key !in active && Reached(key) == Some(ep)
  }

  lemma HitLast(b: Bridge, active: set<string>, order: seq<string>, ep: Endpoint)
    requires order != []
    ensures var n := |order| - 1;
      var hitsNow := order[n] in b.tracked && order[n] !in active && Reached(order[n]) == Some(ep);
      Hit(b, active, order, ep) <==> Hit(b, active, order[..n], ep) || hitsNow
  {
  }

  /** Cleanup never drops an active key, and removes an endpoint only where an orphan's delete reaches it; when nothing
      fails, every tracked orphan goes and every endpoint reached. */
  lemma {:induction false} DropAllFacts(b: Bridge, active: set<string>, order: seq<string>, oks: seq<bool>)
    requires |oks| == |order|
    ensures var after := DropAll(b, active, order, oks);
      && b.tracked * active <= after.tracked <= b.tracked
      && after.remote <= b.remote
      && (forall ep <- b.remote :: !Hit(b, active, order, ep) ==> ep in after.remote)
      && (forall key :: key in b.tracked && key !in order ==> key in after.tracked)
    ensures AllTrue(oks) ==>
      var after := DropAll(b, active, order, oks);
      && (forall key :: key in after.tracked <==>
            key in b.tracked && !(key in order && key !in active && Reached(key).Some?))
      && (forall ep :: ep in after.remote <==> ep in b.remote && !Hit(b, active, order, ep))
  {
    if order != [] {
      hide Reached, Hit;
      var n := |order| - 1;
      var before, key := DropAll(b, active, order[..n], oks[..n]), order[n];
      DropAllFacts(b, active, order[..n], oks[..n]);
      assert order == order[..n] + [key];
      var drops := key in b.tracked && key !in active;
      forall ep
        ensures Hit(b, active, order, ep) <==> Hit(b, active, order[..n], ep) || (drops && Reached(key) == Some(ep))
      {
        HitLast(b, active, order, ep);
      }
      assert AllTrue(oks) ==> AllTrue(oks[..n]) && oks[n];
      if AllTrue(oks) && key !in before.tracked && key in b.tracked {
        RepeatedKey(b, active, order[..n], key);
      }
    } else {
      NoHit(b, active);
    }
  }

  lemma NoHit(b: Bridge, active: set<string>)
    ensures forall ep :: !Hit(b, active, [], ep)
  {
  }

  lemma RepeatedKey(b: Bridge, active: set<string>, order: seq<string>, key: string)
    requires key in order && key in b.tracked && key !in active && Reached(key).Some?
    ensures Hit(b, active, order, Reached(key).value)
  {
  }

  /** An active endpoint survives the cleanup for every combination of failures if and only if no orphan's delete
      reaches it; no active key is ever dropped from the tracked set. */
  lemma ActiveIsKeptIff(b: Bridge, active: set<string>, order: seq<string>, ep: Endpoint)
    requires ep in b.remote
    ensures (forall oks: seq<bool> | |oks| == |order| :: ep in DropAll(b, active, order, oks).remote)
      <==> !Hit(b, active, order, ep)
    ensures forall oks: seq<bool> | |oks| == |order| :: b.tracked * active <= DropAll(b, active, order, oks).tracked
  {
    hide DropAll, Hit;
    forall oks: seq<bool> | |oks| == |order|
      ensures !Hit(b, active, order, ep) ==> ep in DropAll(b, active, order, oks).remote
      ensures b.tracked * active <= DropAll(b, active, order, oks).tracked
    {
      DropAllFacts(b, active, order, oks);
    }
    var all := seq(|order|, _ => true);
    DropAllFacts(b, active, order, all);
    assert |all| == |order| && AllTrue(all);
  }

  /** Where every orphan's group and name mean themselves in a query, no active endpoint is deleted, whatever fails. */
  lemma ActiveIsKept(b: Bridge, active: set<string>, order: seq<string>, oks: seq<bool>, ep: Endpoint)
    requires |oks| == |order| && ep in b.remote && Key(ep) in active
    requires forall key <- b.tracked - active :: Reached(key) == Target(key)
    ensures ep in DropAll(b, active, order, oks).remote
  {
    hide DropAll, Reached, Key;
    DropAllFacts(b, active, order, oks);
    if key :| key in order && key in b.tracked && key !in active && Reached(key) == Some(ep) {
      assert key in b.tracked - active;
      TargetHasKey(key);
    }
  }

  // ---------- whole cycles ----------

  lemma MidDeletable(b: Bridge, r: Round)
    requires Fits(b, r)
    ensures Deletable(AddAll(b, r.wanted, r.addOks).remote, Active(r.wanted)) <==> Deletable(b.remote, Active(r.wanted))
  {
    hide AddAll, Active, Key, Clear;
    AddAllFacts(b, r.wanted, r.addOks);
  }

  /** Whichever calls fail, a client in sync stays in sync where every inactive endpoint can be deleted. */
  lemma RoundStaysInSync(b: Bridge, r: Round)
    requires Fits(b, r) && InSync(b) && Deletable(b.remote, Active(r.wanted))
    ensures InSync(Processed(b, r)) && Deletable(Processed(b, r).remote, Active(r.wanted))
  {
    AddAllFacts(b, r.wanted, r.addOks);
    MidDeletable(b, r);
    DropAllStaysInSync(AddAll(b, r.wanted, r.addOks), Active(r.wanted), r.order, r.dropOks);
  }

  /** Among the inactive endpoints that are not clear, one that weighs most. */
  lemma {:induction false} Heaviest(remote: set<Endpoint>, active: set<string>) returns (top: Endpoint)
    requires !Deletable(remote, active)
    ensures top in remote && Key(top) !in active && !Clear(top)
    ensures forall ep <- remote :: Key(ep) in active || Clear(ep) || Total(ep) <= Total(top)
    decreases |remote|
  {
    hide Key, Clear, Total;
    top :| top in remote && Key(top) !in active && !Clear(top);
    var rest := remote - {top};
    if !Deletable(rest, active) {
      var other := Heaviest(rest, active);
      if Total(other) > Total(top) {
        top := other;
      }
    }
  }

  /** No delete for an orphan reaches that one. */
  lemma HeaviestStays(b: Bridge, active: set<string>, order: seq<string>, top: Endpoint)
    requires InSync(b) && top in b.remote && Key(top) !in active && !Clear(top)
    requires forall ep <- b.remote :: Key(ep) in active || Clear(ep) || Total(ep) <= Total(top)
    ensures !Hit(b, active, order, top)
  {
    hide Key, Clear, Total, Reached, Target;
    forall key | key in order && key in b.tracked && key !in active ensures Reached(key) != Some(top) {
      var ep :| ep in b.remote && Key(ep) == key;
      ReachedIffClear(ep);
      ReachedShrinks(ep);
      KeyWeight(ep);
      TargetHasKey(key);
      if Reached(key) == Target(key) == Some(top) {
        ReachedIffClear(top);
      }
    }
  }

  /** A fault-free cycle leaves exactly the active keys tracked; the bridge has exactly those too if and only if every
      inactive endpoint it had was one whose delete reaches it. */
  lemma FaultFreeConverges(b: Bridge, r: Round)
    requires Fits(b, r) && FaultFree(r) && InSync(b)
    ensures var after, active := Processed(b, r), Active(r.wanted);
      && after.tracked == active
      && (Keys(after.remote) == active <==> Deletable(b.remote, active))
  {
    hide Key, Active, AddAll, DropAll, Clear, Hit, Reached, Deletable;
    var mid, active, after := AddAll(b, r.wanted, r.addOks), Active(r.wanted), Processed(b, r);
    AddAllFacts(b, r.wanted, r.addOks);
    MidDeletable(b, r);
    DropAllFacts(mid, active, r.order, r.dropOks);
    forall key | key in mid.tracked ensures Reached(key).Some? {
      var ep :| ep in mid.remote && Key(ep) == key;
      ReachedShrinks(ep);
    }
    assert after.tracked == active;
    if Deletable(b.remote, active) {
      RoundStaysInSync(b, r);
    } else {
      var top := Heaviest(mid.remote, active);
      HeaviestStays(mid, active, r.order, top);
      assert top in after.remote && Key(top) in Keys(after.remote);
    }
  }

  /** And then the bridge has exactly these endpoints: those it had and those the cycle adds, without any that is
      reached by the delete for a key which was tracked and which no router with a URL wants. */
  lemma FaultFreeRemote(b: Bridge, r: Round, ep: Endpoint)
    requires Fits(b, r) && FaultFree(r)
    ensures ep in Processed(b, r).remote <==>
      && (ep in b.remote || AddsIt(b.tracked, r.wanted, ep))
      && !exists key <- b.tracked :: !WantedKey(r.wanted, key) && Reached(key) == Some(ep)
  {
    hide Key, AddAll, DropAll, Active, AddsIt, WantedKey, Reached;
    var mid, active := AddAll(b, r.wanted, r.addOks), Active(r.wanted);
    AddsByUrl(b, r.wanted, r.addOks, ep);
    AddAllFacts(b, r.wanted, r.addOks);
    DropAllFacts(mid, active, r.order, r.dropOks);
    forall key ensures key in active <==> WantedKey(r.wanted, key) {
      ActiveIs(r.wanted, key);
    }
    assert forall key :: key in mid.tracked && key !in active ==> key in b.tracked;
  }

  lemma {:induction false} CanOrder(keys: set<string>) returns (order: seq<string>)
    ensures forall key :: key in order <==> key in keys
    decreases |keys|
  {
    if keys == {} {
      order := [];
    } else {
      var key :| key in keys;
      var rest := CanOrder(keys - {key});
      order := rest + [key];
    }
  }

  /** A client in sync is sure to be in sync after a cycle, whichever calls fail and in whatever order the map yields
      the keys, if and only if every inactive endpoint is one whose delete reaches it. */
  lemma StaysInSyncIff(b: Bridge, wanted: seq<Wanted>)
    requires InSync(b)
    ensures (forall r: Round | Fits(b, r) && r.wanted == wanted :: InSync(Processed(b, r)))
      <==> Deletable(b.remote, Active(wanted))
  {
    hide InSync, Deletable, Active, Processed;
    if Deletable(b.remote, Active(wanted)) {
      forall r: Round | Fits(b, r) && r.wanted == wanted ensures InSync(Processed(b, r)) {
        RoundStaysInSync(b, r);
      }
    }
    var oks := seq(|wanted|, _ => true);
    var order := CanOrder(AddAll(b, wanted, oks).tracked);
    var r := Round(wanted, oks, order, seq(|order|, _ => true));
    assert Fits(b, r) && FaultFree(r);
    FaultFreeConverges(b, r);
    InSyncIs(Processed(b, r));
  }

  lemma InSyncIs(b: Bridge)
    ensures InSync(b) <==> b.tracked == Keys(b.remote)
  {
  }

  /** The order in which a fault-free cleanup meets the tracked keys makes no difference. */
  lemma CleanupOrderIrrelevant(b: Bridge, active: set<string>, order1: seq<string>, order2: seq<string>,
      oks1: seq<bool>, oks2: seq<bool>)
    requires |oks1| == |order1| && |oks2| == |order2| && (forall key :: key in order1 <==> key in order2)
    requires AllTrue(oks1) && AllTrue(oks2)
    ensures DropAll(b, active, order1, oks1) == DropAll(b, active, order2, oks2)
  {
    hide Reached, DropAll;
    DropAllFacts(b, active, order1, oks1);
    DropAllFacts(b, active, order2, oks2);
    var after1, after2 := DropAll(b, active, order1, oks1), DropAll(b, active, order2, oks2);
    assert forall ep :: Hit(b, active, order1, ep) <==> Hit(b, active, order2, ep);
    assert after1.tracked == after2.tracked && after1.remote == after2.remote;
  }

  // ---------- runs ----------

  /** `SyncState`, when the bridge answers. */
  function Seeded(remote: set<Endpoint>): Bridge {
    Bridge(Keys(remote), remote)
  }

  ghost predicate Behaviour(run: seq<Bridge>, rounds: seq<Round>) {
    && |run| == |rounds| + 1
    && run[0] == Seeded(run[0].remote)
    && forall i :: 0 <= i < |rounds| ==> Fits(run[i], rounds[i]) && run[i + 1] == Processed(run[i], rounds[i])
  }

  /** From cycle `k` on the endpoint never has to be deleted, or its delete reaches it. */
  ghost predicate Safe(rounds: seq<Round>, k: nat, ep: Endpoint) {
    Clear(ep) || forall j :: k <= j < |rounds| ==> Key(ep) in Active(rounds[j].wanted)
  }

  ghost predicate AllSafe(rounds: seq<Round>, k: nat, remote: set<Endpoint>) {
    forall ep <- remote :: Safe(rounds, k, ep)
  }

  ghost predicate Wants(wanted: seq<Wanted>, ep: Endpoint) {
    exists w <- wanted :: w.endpoint == ep && !Skipped(w)
  }

  lemma ProcessedWithin(b: Bridge, r: Round)
    requires Fits(b, r)
    ensures forall ep <- Processed(b, r).remote :: ep in b.remote || Wants(r.wanted, ep)
  {
    AddAllWithin(b, r.wanted, r.addOks);
    DropAllFacts(AddAll(b, r.wanted, r.addOks), Active(r.wanted), r.order, r.dropOks);
  }

  lemma {:induction false} AddAllWithin(b: Bridge, wanted: seq<Wanted>, oks: seq<bool>)
    requires |oks| == |wanted|
    ensures forall ep <- AddAll(b, wanted, oks).remote :: ep in b.remote || Wants(wanted, ep)
  {
    if wanted != [] {
      hide Key;
      var n := |wanted| - 1;
      AddAllWithin(b, wanted[..n], oks[..n]);
      assert wanted == wanted[..n] + [wanted[n]];
      assert forall ep :: Wants(wanted[..n], ep) ==> Wants(wanted, ep);
    }
  }

  /** The cache equals the bridge's keys after every cycle of every run, whichever calls fail, where every endpoint
      there was or is wanted can be deleted, or never has to be. */
  lemma {:induction false} CacheEqualsRemote(run: seq<Bridge>, rounds: seq<Round>, k: nat)
    requires Behaviour(run, rounds) && k < |run|
    requires AllSafe(rounds, 0, run[0].remote)
    requires forall i, w :: 0 <= i < |rounds| && w in rounds[i].wanted && !Skipped(w) ==> Safe(rounds, i, w.endpoint)
    ensures run[k].tracked == Keys(run[k].remote) && AllSafe(rounds, k, run[k].remote)
  {
    if k > 0 {
      hide Fits, Processed, Safe, Active, Clear, Key;
      CacheEqualsRemote(run, rounds, k - 1);
      var b, r := run[k - 1], rounds[k - 1];
      forall ep | ep in b.remote ensures Key(ep) in Active(r.wanted) || Clear(ep) {
        SafeNow(rounds, k - 1, ep);
      }
      RoundStaysInSync(b, r);
      ProcessedWithin(b, r);
      forall ep | ep in run[k].remote ensures Safe(rounds, k, ep) {
        SafeLater(rounds, k - 1, ep);
      }
    }
  }

  lemma SafeNow(rounds: seq<Round>, k: nat, ep: Endpoint)
    requires k < |rounds| && Safe(rounds, k, ep)
    ensures Key(ep) in Active(rounds[k].wanted) || Clear(ep)
  {
  }

  lemma SafeLater(rounds: seq<Round>, k: nat, ep: Endpoint)
    ensures Safe(rounds, k, ep) ==> Safe(rounds, k + 1, ep)
  {
  }

  // ---------- what goes wrong otherwise ----------

  /** An orphan in a group with a slash, or with an ampersand, is forgotten but stays on the bridge. */
  lemma UnclearLeaks(ep: Endpoint)
    requires !Clear(ep)
    ensures Drop(Seeded({ep}), {}, Key(ep), true) == Bridge({}, {ep})
  {
    hide Key, Reached, Clear;
    ReachedIffClear(ep);
    ReachedShrinks(ep);
    assert Keys({ep}) == {Key(ep)};
  }

  lemma UnclearExamples(name: string)
    ensures !Clear(Endpoint("a/b", name)) && !Clear(Endpoint("R&D", name))
  {
  }

  lemma TwoKeys(a: Endpoint, b: Endpoint)
    ensures Keys({a, b}) == {Key(a), Key(b)}
  {
  }

  lemma KeysDiffer(name: string)
    ensures Key(Endpoint("R&D", name)) != Key(Endpoint("R", name))
  {
  }

  /** Worse, the delete for an orphan of the group R&D removes an active endpoint of the group R, which the client
      goes on tracking and so never adds again. */
  lemma MisreadExample(name: string)
    requires Plain(name)
    ensures var orphan, active := Endpoint("R&D", name), Endpoint("R", name);
      Drop(Seeded({orphan, active}), {Key(active)}, Key(orphan), true) == Bridge({Key(active)}, {orphan})
  {
    hide Read, Plain, Key, Target, Cut;
    var orphan, active := Endpoint("R&D", name), Endpoint("R", name);
    AmpersandExample(name);
    SplitInvertsKey(orphan);
    TwoKeys(orphan, active);
    KeysDiffer(name);
    assert Reached(Key(orphan)) == Some(active);
  }
}
