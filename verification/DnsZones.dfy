/** Which zone a host belongs to: the bucketing at the start of `Sync` in both DNS clients. */
module DnsZones {
  import opened Text

  /** From zone name to zone id. */
  type ZoneMap = map<string, string>

  predicate InZone(host: string, domain: string) {
    host == domain || HasSuffix(host, "." + domain)
  }

  /** The zone's own name lies in it, and so does every name that ends in a dot and the zone's name. */
  lemma InZoneMeans(host: string, domain: string)
    ensures InZone(host, domain) <==> host == domain || exists front: string :: host == front + "." + domain
  {
    if HasSuffix(host, "." + domain) {
      assert host == host[..|host| - |domain| - 1] + "." + domain;
    }
    if front: string :| host == front + "." + domain {
      assert host[|host| - |domain| - 1..] == "." + domain;
    }
  }

  /** No zone name is a dotted suffix of another. */
  ghost predicate NotNested(zones: ZoneMap) {
    forall a, b :: a in zones && b in zones && a != b ==> !HasSuffix(a, "." + b)
  }

  ghost predicate DistinctIds(zones: ZoneMap) {
    forall a, b :: a in zones && b in zones && zones[a] == zones[b] ==> a == b
  }

  /** The zone name that each host with a zone was put under. */
  ghost predicate Bucketing(zones: ZoneMap, hosts: set<string>, choice: map<string, string>) {
    && (forall host <- choice :: host in hosts && choice[host] in zones && InZone(host, choice[host]))
    && (forall host, domain :: host in hosts && domain in zones && InZone(host, domain) ==> host in choice)
  }

  function Bucket(zones: ZoneMap, choice: map<string, string>, id: string): set<string> {
    set host | host in choice && choice[host] in zones && zones[choice[host]] == id
  }

  /** The hosts that lie in the zone with this id. */
  function HostsIn(zones: ZoneMap, hosts: set<string>, id: string): set<string> {
    set host, domain | host in hosts && domain in zones && zones[domain] == id && InZone(host, domain) :: host
  }

  /** A missing bucket reads as an empty one. */
  function Lookup(buckets: map<string, set<string>>, id: string): set<string> {
    if id in buckets then buckets[id] else {}
  }

  /** The buckets are those of `choice`, and none of them is empty. */
  ghost predicate Filled(zones: ZoneMap, choice: map<string, string>, buckets: map<string, set<string>>) {
    && (forall id :: Lookup(buckets, id) == Bucket(zones, choice, id))
    && (forall id <- buckets :: buckets[id] != {})
  }

  /** `bucketHosts`: the outer loop visits hosts and the inner one zones in whatever order the maps yield them; the
      first zone that fits is taken. */
  method BucketHosts(zones: ZoneMap, hosts: set<string>)
    returns (buckets: map<string, set<string>>, ghost choice: map<string, string>)
    ensures Bucketing(zones, hosts, choice)
    ensures Filled(zones, choice, buckets)
    ensures NotNested(zones) ==> forall id :: Lookup(buckets, id) == HostsIn(zones, hosts, id)
  {
    hide InZone, Bucketing, Filled, NotNested, HostsIn, Bucket;
    buckets, choice := map[], map[];
    NothingBucketed(zones);
    var todo := hosts;
    assert hosts - todo == {};
    while todo != {}
      invariant todo <= hosts && choice.Keys !! todo
      invariant Bucketing(zones, hosts - todo, choice)
      invariant Filled(zones, choice, buckets)
    {
      var host :| host in todo;
      var domain := PickZone(zones, host);
      ghost var done := hosts - todo;
      OneMoreHost(zones, done, choice, buckets, host, domain);
      todo := todo - {host};
      assert hosts - todo == done + {host};
      if domain.Some? {
        var id := zones[domain.value];
        buckets := buckets[id := Lookup(buckets, id) + {host}];
        choice := choice[host := domain.value];
      }
    }
    assert hosts - todo == hosts;
    if NotNested(zones) {
      forall id ensures Lookup(buckets, id) == HostsIn(zones, hosts, id) {
        BucketsAreForced(zones, hosts, choice, id);
        FilledAt(zones, choice, buckets, id);
      }
    }
  }

  lemma FilledAt(zones: ZoneMap, choice: map<string, string>, buckets: map<string, set<string>>, id: string)
    requires Filled(zones, choice, buckets)
    ensures Lookup(buckets, id) == Bucket(zones, choice, id)
  {
  }

  lemma NothingBucketed(zones: ZoneMap)
    ensures Bucketing(zones, {}, map[]) && Filled(zones, map[], map[])
  {
  }

  lemma OneMoreHost(zones: ZoneMap, done: set<string>, choice: map<string, string>, buckets: map<string, set<string>>,
      host: string, domain: Option<string>)
    requires Bucketing(zones, done, choice) && Filled(zones, choice, buckets) && host !in done
    requires domain.Some? ==> domain.value in zones && InZone(host, domain.value)
    requires domain.None? ==> forall d <- zones :: !InZone(host, d)
    ensures domain.None? ==> Bucketing(zones, done + {host}, choice)
    ensures domain.Some? ==>
      var id := zones[domain.value];
      && Bucketing(zones, done + {host}, choice[host := domain.value])
      && Filled(zones, choice[host := domain.value], buckets[id := Lookup(buckets, id) + {host}])
  {
    hide InZone;
    if domain.Some? {
      var id := zones[domain.value];
      var more, after := buckets[id := Lookup(buckets, id) + {host}], choice[host := domain.value];
      forall i ensures Lookup(more, i) == Bucket(zones, after, i) {
        assert Lookup(buckets, i) == Bucket(zones, choice, i);
        BucketGrows(zones, choice, host, domain.value, i);
      }
    }
  }

  method PickZone(zones: ZoneMap, host: string) returns (domain: Option<string>)
    ensures domain.Some? ==> domain.value in zones && InZone(host, domain.value)
    ensures domain.None? ==> forall d <- zones :: !InZone(host, d)
  {
    var todo := zones.Keys;
    while todo != {}
      invariant todo <= zones.Keys && forall d :: d in zones.Keys - todo ==> !InZone(host, d)
    {
      var d :| d in todo;
      if InZone(host, d) {
        return Some(d);
      }
      todo := todo - {d};
    }
    return None;
  }

  lemma BucketGrows(zones: ZoneMap, choice: map<string, string>, host: string, domain: string, id: string)
    requires host !in choice && domain in zones
    ensures Bucket(zones, choice[host := domain], id) ==
      Bucket(zones, choice, id) + if id == zones[domain] then {host} else {}
  {
  }

  lemma {:induction false} SuffixesNest(host: string, a: string, b: string)
    requires InZone(host, a) && InZone(host, b) && |a| <= |b|
    ensures a == b || HasSuffix(b, "." + a)
  {
    var n := |host|;
    assert host[n - |a|..] == a && host[n - |b|..] == b by {
      EndsWithZone(host, a);
      EndsWithZone(host, b);
    }
    if |a| < |b| {
      var dotted := "." + a;
      assert host[n - |a| - 1..] == dotted;
      assert b[|b| - |a| - 1..] == host[n - |b|..][|b| - |a| - 1..] == host[n - |a| - 1..];
    }
  }

  lemma EndsWithZone(host: string, domain: string)
    requires InZone(host, domain)
    ensures |domain| <= |host| && host[|host| - |domain|..] == domain
  {
  }

  /** When zones are not nested a host lies in at most one of them. */
  lemma AtMostOneZone(zones: ZoneMap, host: string, a: string, b: string)
    requires NotNested(zones) && a in zones && b in zones
    requires InZone(host, a) && InZone(host, b)
    ensures a == b
  {
    if |a| <= |b| {
      SuffixesNest(host, a, b);
    } else {
      SuffixesNest(host, b, a);
    }
  }

  /** So every bucketing is the same one: each zone gets the hosts that lie in it. */
  lemma BucketsAreForced(zones: ZoneMap, hosts: set<string>, choice: map<string, string>, id: string)
    requires NotNested(zones) && Bucketing(zones, hosts, choice)
    ensures Bucket(zones, choice, id) == HostsIn(zones, hosts, id)
  {
    hide InZone, NotNested;
    forall host | host in HostsIn(zones, hosts, id) ensures host in Bucket(zones, choice, id) {
      var domain :| domain in zones && zones[domain] == id && InZone(host, domain);
      AtMostOneZone(zones, host, domain, choice[host]);
    }
  }

  /** With zones that are not nested, a host is put under a zone exactly if it is the zone's name or ends in a dot and
      the zone's name. */
  lemma BucketedByName(zones: ZoneMap, hosts: set<string>, choice: map<string, string>, host: string, domain: string)
    requires NotNested(zones) && Bucketing(zones, hosts, choice) && host in hosts && domain in zones
    ensures host in choice && choice[host] == domain
      <==> host == domain || exists front: string :: host == front + "." + domain
  {
    hide InZone, NotNested;
    InZoneMeans(host, domain);
    if InZone(host, domain) {
      AtMostOneZone(zones, host, domain, choice[host]);
    }
  }

  /** A host is put under its zone `domain` by every bucketing exactly when all zones it lies in have that id: with
      nested zones the map's iteration order decides. */
  lemma AlwaysBucketedIff(zones: ZoneMap, hosts: set<string>, host: string, domain: string)
    requires host in hosts && domain in zones && InZone(host, domain)
    ensures (forall choice :: Bucketing(zones, hosts, choice) ==> host in Bucket(zones, choice, zones[domain]))
      <==> forall other :: other in zones && InZone(host, other) ==> zones[other] == zones[domain]
  {
    hide InZone;
    if other :| other in zones && InZone(host, other) && zones[other] != zones[domain] {
      var choice := map h | h in hosts && exists d :: d in zones && InZone(h, d) ::
        if h == host then other else SomeZone(zones, h);
      assert Bucketing(zones, hosts, choice);
      assert choice[host] == other && host !in Bucket(zones, choice, zones[domain]);
    }
  }

  ghost function SomeZone(zones: ZoneMap, host: string): (domain: string)
    requires exists d :: d in zones && InZone(host, d)
    ensures domain in zones && InZone(host, domain)
  {
    var d :| d in zones && InZone(host, d);
    d
  }
}
