/** The status pages held by Uptime Kuma together with the companion's cache of their groups, as values. */
module PageStore {
  import opened Text
  import opened PageLayout

  datatype Page = Page(domains: seq<string>, groups: Layout)

  datatype Store = Store(remote: map<string, Page>, cache: map<string, Layout>)

  const BLANK_PAGE := Page([], [])

  /** The page `ensurePage` hands out: a missing page is created blank. */
  function Base(s: Store, slug: string): Page {
    if slug in s.remote then s.remote[slug] else BLANK_PAGE
  }

  /** The groups an attach starts from: the cached ones when there are any. */
  function Working(s: Store, slug: string): Layout {
    if slug in s.cache then s.cache[slug] else Base(s, slug).groups
  }

  /** Whether an attach finds something to save. */
  predicate AttachSaves(fold: Fold, s: Store, slug: string, id: int, name: string) {
    Changes(fold, Working(s, slug), id, name)
  }

  function PageAfter(fold: Fold, s: Store, slug: string, id: int, name: string): Page {
    if AttachSaves(fold, s, slug, id, name)
    then Base(s, slug).(groups := Attach(fold, Working(s, slug), id, name))
    else Base(s, slug)
  }

  /** One attach with every call succeeding: fetch or create the page, edit its groups, save and cache if changed. */
  function AttachStep(fold: Fold, s: Store, slug: string, id: int, name: string): Store {
    Store(
      s.remote[slug := PageAfter(fold, s, slug, id, name)],
      if AttachSaves(fold, s, slug, id, name) then s.cache[slug := Attach(fold, Working(s, slug), id, name)]
      else s.cache)
  }

  /** What an attach whose save fails leaves in a cached page: the edits made through the shared groups stay, a
      group appended to the fetched page's own list does not. */
  function CacheAhead(fold: Fold, before: Layout, id: int, name: string): Layout {
    if TargetIndex(fold, before, name) == -1 then Prune(fold, before, id, name) else Attach(fold, before, id, name)
  }

  function AttachFailed(fold: Fold, s: Store, slug: string, id: int, name: string): Store {
    Store(
      s.remote[slug := Base(s, slug)],
      if slug in s.cache then s.cache[slug := CacheAhead(fold, s.cache[slug], id, name)] else s.cache)
  }

  function CleanHost(host: string): string {
    TrimPrefix(TrimPrefix(host, "https://"), "http://")
  }

  predicate BindSaves(s: Store, slug: string, host: string) {
    host !in Base(s, slug).domains
  }

  function BindStep(s: Store, slug: string, host: string): Store {
    var page := Base(s, slug);
    if BindSaves(s, slug, host)
    then s.(remote := s.remote[slug := Page(page.domains + [CleanHost(host)], Working(s, slug))])
    else s.(remote := s.remote[slug := page])
  }

  /** The page is there, blank if it was missing. */
  function WithPage(s: Store, slug: string): Store {
    s.(remote := s.remote[slug := Base(s, slug)])
  }

  /** How the calls for one page turn out: all succeed; the save, if there is one, fails; the page can be neither
      fetched nor created; or it may have been created, but then cannot be fetched. */
  datatype Fate = Done | SaveFails | Unreachable | OnlyCreated

  function AttachFate(fold: Fold, s: Store, slug: string, id: int, name: string, fate: Fate): Store {
    match fate
    case Done => AttachStep(fold, s, slug, id, name)
    case SaveFails =>
      if AttachSaves(fold, s, slug, id, name) then AttachFailed(fold, s, slug, id, name)
      else AttachStep(fold, s, slug, id, name)
    case Unreachable => s
    case OnlyCreated => WithPage(s, slug)
  }

  function BindFate(s: Store, slug: string, host: string, fate: Fate): Store {
    match fate
    case Done => BindStep(s, slug, host)
    case SaveFails => WithPage(s, slug)
    case Unreachable => s
    case OnlyCreated => WithPage(s, slug)
  }

  datatype Event =
    | AttachEvent(slug: string, id: int, name: string, fate: Fate)
    | BindEvent(slug: string, host: string, fate: Fate)

  function Apply(fold: Fold, s: Store, e: Event): Store {
    match e
    case AttachEvent(slug, id, name, fate) => AttachFate(fold, s, slug, id, name, fate)
    case BindEvent(slug, host, fate) => BindFate(s, slug, host, fate)
  }

  /** No save of an attach to this page fails. */
  predicate SavedAt(e: Event, slug: string) {
    e.AttachEvent? && e.slug == slug ==> e.fate != SaveFails
  }

  /** The attach went through, for this page. */
  predicate Attaches(e: Event, slug: string) {
    e.AttachEvent? && e.slug == slug && e.fate == Done
  }

  function Run(fold: Fold, s: Store, events: seq<Event>): Store {
    if events == [] then s else Apply(fold, Run(fold, s, events[..|events| - 1]), events[|events| - 1])
  }

  /** Creating the missing page first makes no difference to the attach. */
  lemma EnsureThenAttach(fold: Fold, s: Store, slug: string, id: int, name: string, fate: Fate)
    requires fate.Done? || fate.SaveFails?
    ensures AttachFate(fold, WithPage(s, slug), slug, id, name, fate) == AttachFate(fold, s, slug, id, name, fate)
  {
    hide Attach, Changes, CacheAhead;
    var t := WithPage(s, slug);
    assert Base(t, slug) == Base(s, slug) && Working(t, slug) == Working(s, slug);
    assert t.remote[slug := Base(s, slug)] == s.remote[slug := Base(s, slug)];
    assert t.remote[slug := PageAfter(fold, s, slug, id, name)] == s.remote[slug := PageAfter(fold, s, slug, id, name)];
  }

  /** What a successful attach leaves behind, where page and cache agree: the groups cached or else stored, with the
      monitor at the end of the last group of that name or in a new group at the end, stored and, if that is a change,
      cached; the page's domains and all other pages are as they were. */
  lemma AttachedPage(fold: Fold, s: Store, slug: string, id: int, name: string)
    requires slug in s.cache ==> slug in s.remote && s.remote[slug].groups == s.cache[slug]
    ensures var before := if slug in s.remote then s.remote[slug].groups else [];
      var after := AttachStep(fold, s, slug, id, name);
      && after.remote.Keys == s.remote.Keys + {slug}
      && after.remote[slug].domains == (if slug in s.remote then s.remote[slug].domains else [])
      && (forall p <- s.remote :: p != slug ==> after.remote[p] == s.remote[p])
      && var t, groups := TargetIndex(fold, before, name), after.remote[slug].groups;
      && (t != -1 ==>
            && |groups| == |before|
            && groups[t].monitors == before[t].monitors + (if id in before[t].monitors then [] else [id]))
      && (t == -1 ==> |groups| == |before| + 1 && groups[|before|] == Group(name, |before| + 1, [id]))
      && after.cache == if groups == before then s.cache else s.cache[slug := groups]
  {
    hide Attach, TargetIndex;
    var before := Working(s, slug);
    AttachGroups(fold, before, id, name);
    ChangesIffDifferent(fold, before, id, name);
  }

  /** Every cached page shows the groups that Uptime Kuma has. */
  ghost predicate Coherent(s: Store) {
    forall slug <- s.cache :: slug in s.remote && s.remote[slug].groups == s.cache[slug]
  }

  /** The page, if it is cached, is there and has the groups that the cache shows. */
  predicate CoherentAt(s: Store, slug: string) {
    slug in s.cache ==> slug in s.remote && s.remote[slug].groups == s.cache[slug]
  }

  /** The page is well-formed and stands for `home`; a page that does not exist stands for nothing. */
  ghost predicate Abstracts(fold: Fold, s: Store, slug: string, home: Arrivals) {
    if slug in s.remote
    then WellFormed(fold, s.remote[slug].groups) && StandsFor(fold, s.remote[slug].groups, home)
    else home == []
  }

  /** Last writer wins: the attach requests of one page replayed on a plain list of arrivals. */
  function LastWrites(fold: Fold, home: Arrivals, events: seq<Event>, slug: string): Arrivals {
    if events == [] then home
    else Written(fold, LastWrites(fold, home, events[..|events| - 1], slug), events[|events| - 1], slug)
  }

  function Written(fold: Fold, home: Arrivals, e: Event, slug: string): Arrivals {
    if Attaches(e, slug) then Moved(home, e.id, fold(e.name)) else home
  }

  /** The group named by the last request for this monitor on this page. */
  function LastRequest(events: seq<Event>, slug: string, id: int): Option<string> {
    if events == [] then None
    else
      var last := events[|events| - 1];
      if Attaches(last, slug) && last.id == id then Some(last.name)
      else LastRequest(events[..|events| - 1], slug, id)
  }

  /** The replayed list has a monitor in the group that the last request for it named, or where it was at first. */
  lemma {:induction false} LastRequestWins(fold: Fold, home: Arrivals, events: seq<Event>, slug: string, id: int,
      group: string)
    requires OneGroupEach(home)
    ensures var now := LastWrites(fold, home, events, slug);
      && OneGroupEach(now)
      && (Arrival(id, group) in now <==>
            match LastRequest(events, slug, id)
            case Some(name) => group == fold(name)
            case None => Arrival(id, group) in home)
  {
    if events != [] {
      hide Moved, OneGroupEach;
      var last := events[|events| - 1];
      LastRequestWins(fold, home, events[..|events| - 1], slug, id, group);
      if Attaches(last, slug) {
        MovedOneEach(LastWrites(fold, home, events[..|events| - 1], slug), last.id, fold(last.name));
      }
    }
  }

  lemma StepKeepsCoherence(fold: Fold, s: Store, e: Event, slug: string)
    requires CoherentAt(s, slug) && SavedAt(e, slug)
    ensures CoherentAt(Apply(fold, s, e), slug)
  {
    hide Attach, Changes, CleanHost, CacheAhead;
  }

  lemma AttachRefines(fold: Fold, s: Store, slug: string, id: int, name: string, home: Arrivals)
    requires CoherentAt(s, slug) && Abstracts(fold, s, slug, home)
    ensures Abstracts(fold, AttachStep(fold, s, slug, id, name), slug, Moved(home, id, fold(name)))
  {
    hide Attach, Changes, WellFormed, StandsFor, Moved;
    var before := Working(s, slug);
    assert before == Base(s, slug).groups;
    BlankStandsForNothing(fold);
    AttachMoves(fold, before, id, name, home);
    ChangesIffDifferent(fold, before, id, name);
  }

  lemma BlankStandsForNothing(fold: Fold)
    ensures WellFormed(fold, BLANK_PAGE.groups) && StandsFor(fold, BLANK_PAGE.groups, [])
  {
  }

  lemma StepRefines(fold: Fold, s: Store, e: Event, slug: string, home: Arrivals)
    requires CoherentAt(s, slug) && Abstracts(fold, s, slug, home) && SavedAt(e, slug)
    ensures Abstracts(fold, Apply(fold, s, e), slug,
              if Attaches(e, slug) then Moved(home, e.id, fold(e.name)) else home)
  {
    hide Attach, Changes, CacheAhead, WellFormed, StandsFor, CleanHost, Moved;
    if Attaches(e, slug) {
      AttachRefines(fold, s, slug, e.id, e.name, home);
    } else {
      BlankStandsForNothing(fold);
    }
  }

  /** Over any run in which no save of an attach to this page fails, whatever fails on other pages and in binds, the
      page and its cached groups agree, and its groups list the monitors that last-writer-wins puts there, in the order
      in which they came. */
  lemma {:induction false} RunRefinesLastWrites(fold: Fold, s: Store, events: seq<Event>, slug: string,
      home: Arrivals)
    requires CoherentAt(s, slug) && Abstracts(fold, s, slug, home) && forall e <- events :: SavedAt(e, slug)
    ensures CoherentAt(Run(fold, s, events), slug)
    ensures Abstracts(fold, Run(fold, s, events), slug, LastWrites(fold, home, events, slug))
  {
    if events != [] {
      hide Apply, Abstracts, SavedAt, Moved;
      var earlier, last := events[..|events| - 1], events[|events| - 1];
      assert last in events;
      RunRefinesLastWrites(fold, s, earlier, slug, home);
      StepKeepsCoherence(fold, Run(fold, s, earlier), last, slug);
      StepRefines(fold, Run(fold, s, earlier), last, slug, LastWrites(fold, home, earlier, slug));
    }
  }

  // ---------- the order in which monitors came ----------

  /** The request that brought the monitor into its group: the first of the last ones for it that all name that group. A
      monitor that no request has moved came before them all, at -1. */
  function Came(fold: Fold, home: Arrivals, events: seq<Event>, slug: string, id: int): (k: int)
    ensures -1 <= k < |events|
  {
    if events == [] then -1
    else
      var n := |events| - 1;
      var moves := Attaches(events[n], slug) && events[n].id == id
        && Arrival(id, fold(events[n].name)) !in LastWrites(fold, home, events[..n], slug);
      if moves then n else Came(fold, home, events[..n], slug, id)
  }

  /** `a` is listed before `b`. */
  ghost predicate Before(home: Arrivals, a: Arrival, b: Arrival) {
    exists i, j :: 0 <= i < j < |home| && home[i] == a && home[j] == b
  }

  lemma {:induction false} LeaveInOrder(home: Arrivals, id: int, x: nat, y: nat)
    requires x < y < |Leave(home, id)|
    ensures Before(home, Leave(home, id)[x], Leave(home, id)[y])
  {
    var n := |home| - 1;
    var front := Leave(home[..n], id);
    if y < |front| {
      LeaveInOrder(home[..n], id, x, y);
      var i, j :| 0 <= i < j < n && home[..n][i] == front[x] && home[..n][j] == front[y];
      assert home[i] == front[x] && home[j] == front[y];
    } else {
      LeaveMembers(home[..n], id);
      assert front[x] in front;
      var i :| 0 <= i < n && home[i] == front[x];
      assert home[n] == Leave(home, id)[y];
    }
  }

  lemma {:induction false} IdsInOrder(home: Arrivals, group: string, x: nat, y: nat)
    requires x < y < |IdsIn(home, group)|
    ensures Before(home, Arrival(IdsIn(home, group)[x], group), Arrival(IdsIn(home, group)[y], group))
  {
    var n := |home| - 1;
    var front := IdsIn(home[..n], group);
    if y < |front| {
      IdsInOrder(home[..n], group, x, y);
      var i, j :| 0 <= i < j < n
        && home[..n][i] == Arrival(front[x], group) && home[..n][j] == Arrival(front[y], group);
      assert home[i] == Arrival(front[x], group) && home[j] == Arrival(front[y], group);
    } else {
      IdsInMembers(home[..n], group);
      assert front[x] in front;
      var i :| 0 <= i < n && home[i] == Arrival(front[x], group);
      assert home[n] == Arrival(IdsIn(home, group)[y], group);
    }
  }

  /** The replayed list is in order of arrival: what came with an earlier request is listed before what came with a
      later one, and monitors that no request moved are listed first, in the order they were in. */
  lemma {:induction false} ArrivalsInOrder(fold: Fold, home: Arrivals, events: seq<Event>, slug: string, a: Arrival,
      b: Arrival)
    requires Before(LastWrites(fold, home, events, slug), a, b)
    ensures var k, l := Came(fold, home, events, slug, a.id), Came(fold, home, events, slug, b.id);
      k < l || (k == l == -1 && Before(home, a, b))
  {
    if events != [] {
      hide Moved, Attaches, Leave;
      var n := |events| - 1;
      var earlier, e := LastWrites(fold, home, events[..n], slug), events[n];
      if Attaches(e, slug) && Arrival(e.id, fold(e.name)) !in earlier {
        MovedBefore(earlier, e.id, fold(e.name), a, b);
        if b != Arrival(e.id, fold(e.name)) {
          ArrivalsInOrder(fold, home, events[..n], slug, a, b);
        }
      } else {
        StaysPut(fold, earlier, e, slug);
        ArrivalsInOrder(fold, home, events[..n], slug, a, b);
      }
    }
  }

  lemma StaysPut(fold: Fold, home: Arrivals, e: Event, slug: string)
    ensures (Attaches(e, slug) && Arrival(e.id, fold(e.name)) !in home) || Written(fold, home, e, slug) == home
  {
  }

  lemma MovedBefore(home: Arrivals, id: int, group: string, a: Arrival, b: Arrival)
    requires Arrival(id, group) !in home && Before(Moved(home, id, group), a, b)
    ensures a.id != id && (b == Arrival(id, group) || (b.id != id && Before(home, a, b)))
  {
    var front := Leave(home, id);
    LeaveMembers(home, id);
    var x, y :| 0 <= x < y < |front| + 1 && Moved(home, id, group)[x] == a && Moved(home, id, group)[y] == b;
    assert a in front;
    if y < |front| {
      assert b in front;
      LeaveInOrder(home, id, x, y);
    }
  }

  /** So over such a run each group of the page lists its monitors in the order in which requests brought them. */
  lemma ListedByArrival(fold: Fold, s: Store, events: seq<Event>, slug: string, home: Arrivals, i: nat, x: nat, y: nat)
    requires CoherentAt(s, slug) && Abstracts(fold, s, slug, home) && forall e <- events :: SavedAt(e, slug)
    requires slug in Run(fold, s, events).remote && i < |Run(fold, s, events).remote[slug].groups|
    requires x < y < |Run(fold, s, events).remote[slug].groups[i].monitors|
    ensures var group := Run(fold, s, events).remote[slug].groups[i];
      var k := Came(fold, home, events, slug, group.monitors[x]);
      var l := Came(fold, home, events, slug, group.monitors[y]);
      k < l || (k == l == -1 &&
        Before(home, Arrival(group.monitors[x], fold(group.name)), Arrival(group.monitors[y], fold(group.name))))
  {
    hide Run, LastWrites, IdsIn, Came, Before, WellFormed, OneGroupEach;
    RunRefinesLastWrites(fold, s, events, slug, home);
    var group, now := Run(fold, s, events).remote[slug].groups[i], LastWrites(fold, home, events, slug);
    assert group.monitors == IdsIn(now, fold(group.name));
    IdsInOrder(now, fold(group.name), x, y);
    ArrivalsInOrder(fold, home, events, slug, Arrival(group.monitors[x], fold(group.name)),
      Arrival(group.monitors[y], fold(group.name)));
  }

  // ---------- binding ----------

  /** Binding a domain leaves every cached page and, when the cache is coherent, every remote page's groups alone. */
  lemma BindKeepsGroups(s: Store, slug: string, host: string)
    requires Coherent(s)
    ensures var t := BindStep(s, slug, host);
      && t.cache == s.cache && Coherent(t)
      && t.remote.Keys == s.remote.Keys + {slug}
      && forall p <- t.remote :: t.remote[p].groups == Base(s, p).groups
  {
  }

  /** The initial sync: the cache takes over the groups of every page that could be fetched. */
  function Hydrate(s: Store, slugs: set<string>): Store {
    s.(cache := map slug | slug in s.cache.Keys + (slugs * s.remote.Keys) ::
      if slug in slugs && slug in s.remote then s.remote[slug].groups else s.cache[slug])
  }

  /** The sync, with the configured domain enforced on the global page once that page has been fetched. */
  function Synced(s: Store, slugs: set<string>, globalSlug: string, domain: string): Store {
    if globalSlug in slugs && globalSlug in s.remote && domain != ""
    then BindStep(Hydrate(s, slugs), globalSlug, domain)
    else Hydrate(s, slugs)
  }

  /** After a sync that reached every page the cache agrees with the remote pages if its other entries did. */
  lemma SyncIsCoherent(s: Store, slugs: set<string>, globalSlug: string, domain: string)
    ensures Coherent(Synced(s, slugs, globalSlug, domain))
      <==> forall slug <- s.cache :: slug in s.remote && (slug in slugs || s.remote[slug].groups == s.cache[slug])
  {
    var h := Hydrate(s, slugs);
    var t := Synced(s, slugs, globalSlug, domain);
    forall slug | slug in s.remote ensures slug in t.remote && t.remote[slug].groups == s.remote[slug].groups {
    }
    if Coherent(t) {
      forall slug | slug in s.cache
        ensures slug in s.remote && (slug in slugs || s.remote[slug].groups == s.cache[slug])
      {
        assert slug in t.cache;
      }
    }
  }

  /** One more fetched page, whether or not the domain has been enforced already. */
  lemma SyncOneMore(s: Store, slugs: set<string>, slug: string, globalSlug: string, domain: string)
    requires slug in s.remote && slug !in slugs
    ensures var t := Synced(s, slugs, globalSlug, domain);
      var one := t.(cache := t.cache[slug := s.remote[slug].groups]);
      && slug in t.remote && t.remote[slug].groups == s.remote[slug].groups
      && Synced(s, slugs + {slug}, globalSlug, domain) ==
        if slug == globalSlug && domain != "" then BindStep(one, globalSlug, domain) else one
  {
    hide CleanHost;
    var h, more := Hydrate(s, slugs), Hydrate(s, slugs + {slug});
    assert more.cache == h.cache[slug := s.remote[slug].groups];
  }

  predicate HasScheme(host: string) {
    HasPrefix(host, "https://") || HasPrefix(host, "http://")
  }

  /** One scheme in front of a bare domain is cut off; where there are two, http is cut off behind https, but https is
      left behind http. */
  lemma CleanHostMeans(d: string)
    requires !("http://" <= d) && !("https://" <= d)
    ensures CleanHost(d) == CleanHost("http://" + d) == CleanHost("https://" + d) == d
    ensures CleanHost("https://" + ("http://" + d)) == d
    ensures CleanHost("http://" + ("https://" + d)) == "https://" + d
  {
    assert ("http://" + d)[7..] == d && ("https://" + d)[8..] == d;
    assert ("http://" + d)[4] == ':';
    assert ("https://" + ("http://" + d))[8..] == "http://" + d;
    assert ("http://" + ("https://" + d))[7..] == "https://" + d;
    assert ("http://" + ("https://" + d))[4] == ':';
  }

  /** Binding a domain, written bare or with one scheme, lists it bare at the end of the page's domains, unless that
      very spelling is listed; no other page changes. */
  lemma BindLists(s: Store, slug: string, scheme: string, d: string)
    requires scheme in {"", "http://", "https://"} && !("http://" <= d) && !("https://" <= d)
    ensures var listed := if slug in s.remote then s.remote[slug].domains else [];
      var after := BindStep(s, slug, scheme + d);
      && after.remote.Keys == s.remote.Keys + {slug} && after.cache == s.cache
      && after.remote[slug].domains == (if scheme + d in listed then listed else listed + [d])
      && forall p <- s.remote :: p != slug ==> after.remote[p] == s.remote[p]
  {
    hide CleanHost, HasPrefix;
    CleanHostMeans(d);
    assert "" + d == d;
    assert CleanHost(scheme + d) == d;
  }

  /** A sync that reaches the global page binds the configured domain to it in the same way. */
  lemma SyncBinds(s: Store, slugs: set<string>, globalSlug: string, scheme: string, d: string)
    requires scheme in {"", "http://", "https://"} && !("http://" <= d) && !("https://" <= d)
    requires globalSlug in slugs && globalSlug in s.remote && d != ""
    ensures var listed, after := s.remote[globalSlug].domains, Synced(s, slugs, globalSlug, scheme + d);
      && globalSlug in after.remote
      && after.remote[globalSlug].domains == (if scheme + d in listed then listed else listed + [d])
      && forall p <- s.remote :: p in after.remote && (p != globalSlug ==> after.remote[p] == s.remote[p])
  {
    hide BindStep;
    assert scheme + d != "";
    BindLists(Hydrate(s, slugs), globalSlug, scheme, d);
  }

  lemma CleanHostIsIdentity(host: string)
    ensures CleanHost(host) == host <==> !HasScheme(host)
  {
  }

  /** A second bind of the same domain saves again exactly when it was written with a scheme and was not listed in
      that very spelling: the check compares the raw spelling, the list receives the stripped one. */
  lemma BindTwice(s: Store, slug: string, host: string)
    ensures BindSaves(BindStep(s, slug, host), slug, host) <==> HasScheme(host) && host !in Base(s, slug).domains
  {
  }

  function BindTimes(s: Store, slug: string, host: string, n: nat): Store {
    if n == 0 then s else BindStep(BindTimes(s, slug, host, n - 1), slug, host)
  }

  /** Such a domain is appended once more by every bind. */
  lemma {:induction false} BindGrows(s: Store, slug: string, host: string, n: nat)
    requires HasScheme(host) && host !in Base(s, slug).domains
    ensures Base(BindTimes(s, slug, host, n), slug).domains == Base(s, slug).domains + seq(n, _ => CleanHost(host))
  {
    CleanHostIsIdentity(host);
    if n > 0 {
      BindGrows(s, slug, host, n - 1);
      assert seq(n, _ => CleanHost(host)) == seq(n - 1, _ => CleanHost(host)) + [CleanHost(host)];
    }
  }

  // ---------- a save that fails ----------

  /** A change made through groups the cache shares with the page being edited. */
  predicate ChangesSharedGroups(fold: Fold, layout: Layout, id: int, name: string) {
    || HeldElsewhere(fold, layout, id, name, |layout|)
    || (TargetIndex(fold, layout, name) != -1 && id !in layout[TargetIndex(fold, layout, name)].monitors)
  }

  lemma PruneChanges(fold: Fold, layout: Layout, id: int, name: string)
    ensures Prune(fold, layout, id, name) == layout <==> !HeldElsewhere(fold, layout, id, name, |layout|)
  {
    var pruned := Prune(fold, layout, id, name);
    forall i | 0 <= i < |layout|
      ensures RemoveFirst(layout[i].monitors, id) == layout[i].monitors <==> id !in layout[i].monitors
    {
      RemoveFirstFacts(layout[i].monitors, id);
    }
    if pruned == layout {
      forall i | 0 <= i < |layout| && !SameName(fold, layout[i].name, name) ensures id !in layout[i].monitors {
        assert pruned[i] == layout[i];
      }
    }
  }

  /** After a failed save the cache still agrees with the remote page exactly when no shared group was edited. */
  lemma FailedSaveCoherence(fold: Fold, s: Store, slug: string, id: int, name: string)
    requires Coherent(s)
    ensures Coherent(AttachFailed(fold, s, slug, id, name))
      <==> slug !in s.cache || !ChangesSharedGroups(fold, s.cache[slug], id, name)
  {
    var t := AttachFailed(fold, s, slug, id, name);
    if slug in s.cache {
      var before := s.cache[slug];
      PruneChanges(fold, before, id, name);
      ChangesIffDifferent(fold, before, id, name);
      assert t.cache[slug] == CacheAhead(fold, before, id, name);
      assert t.remote[slug].groups == before;
      assert CacheAhead(fold, before, id, name) == before <==> !ChangesSharedGroups(fold, before, id, name);
      if t.cache[slug] == before {
        assert t.cache == s.cache;
      }
    }
  }

  /** A request that had something to save and whose save failed finds something to save when it is repeated next if and
      only if the page was not cached or lacked the group: otherwise the cache already shows it as done. */
  lemma FailedSaveIsForgotten(fold: Fold, s: Store, slug: string, id: int, name: string)
    requires CoherentAt(s, slug) && AttachSaves(fold, s, slug, id, name)
    requires slug in s.cache ==> WellFormed(fold, s.cache[slug])
    ensures var failed := AttachFailed(fold, s, slug, id, name);
      var missing := slug !in s.cache || TargetIndex(fold, s.cache[slug], name) == -1;
      && (AttachSaves(fold, failed, slug, id, name) <==> missing)
      && (!AttachSaves(fold, failed, slug, id, name) ==>
            AttachStep(fold, failed, slug, id, name).remote[slug] == s.remote[slug])
  {
    hide Attach, WellFormed;
    if slug in s.cache {
      var before := s.cache[slug];
      if TargetIndex(fold, before, name) == -1 {
        PruneKeepsNames(fold, before, id, name);
        TargetStable(fold, before, Prune(fold, before, id, name), name);
      } else {
        AttachTwice(fold, before, id, name);
      }
    }
  }

  /** But the failed edit is not gone: the next bind that is saved publishes what the cache shows, here the edit
      itself or, where the group was missing, the page without the monitor. */
  lemma NextBindPublishes(fold: Fold, s: Store, slug: string, id: int, name: string, host: string)
    requires slug in s.cache && BindSaves(s, slug, host)
    ensures var failed := AttachFailed(fold, s, slug, id, name);
      var published := BindStep(failed, slug, host).remote[slug].groups;
      published == if TargetIndex(fold, s.cache[slug], name) == -1
        then Prune(fold, s.cache[slug], id, name) else Attach(fold, s.cache[slug], id, name)
  {
  }

  /** After a reconnect the coordinator of the old connection may go on with its own manager. A write by one of two
      managers that agree with the pages leaves the other in agreement if and only if nothing was saved or the other has
      not cached that page. */
  lemma OtherManagerCoherence(fold: Fold, s: Store, other: map<string, Layout>, slug: string, id: int, name: string)
    requires Coherent(s) && Coherent(s.(cache := other))
    ensures Coherent(AttachStep(fold, s, slug, id, name).(cache := other))
      <==> slug !in other || !AttachSaves(fold, s, slug, id, name)
  {
    hide Attach, Changes;
    ChangesIffDifferent(fold, Working(s, slug), id, name);
    var t := AttachStep(fold, s, slug, id, name).(cache := other);
    if slug in other {
      assert Working(s, slug) == other[slug] == s.remote[slug].groups;
    }
  }

  // ---------- one payload over several pages ----------

  function FateOf(fates: map<string, Fate>, slug: string): Fate {
    if slug in fates then fates[slug] else Done
  }

  /** The two stores agree on a page and on its cached groups. */
  ghost predicate SamePage(s: Store, t: Store, slug: string) {
    && (slug in t.remote <==> slug in s.remote) && (slug in t.remote ==> t.remote[slug] == s.remote[slug])
    && (slug in t.cache <==> slug in s.cache) && (slug in t.cache ==> t.cache[slug] == s.cache[slug])
  }

  /** What a page looks like once the payload has been attached to it, or left out of it. */
  ghost predicate PageAttached(fold: Fold, s: Store, id: int, pages: map<string, string>, fates: map<string, Fate>,
      t: Store, slug: string)
  {
    SamePage(if slug in pages then AttachFate(fold, s, slug, id, pages[slug], FateOf(fates, slug)) else s, t, slug)
  }

  /** The result of attaching one payload to its pages, whatever their order. */
  ghost predicate PagesAttached(fold: Fold, s: Store, id: int, pages: map<string, string>, fates: map<string, Fate>,
      t: Store)
  {
    forall slug :: PageAttached(fold, s, id, pages, fates, t, slug)
  }

  /** An attach depends on its own page alone, and changes no other. */
  lemma AttachIsLocal(fold: Fold, s: Store, t: Store, slug: string, id: int, name: string, fate: Fate)
    requires SamePage(s, t, slug)
    ensures SamePage(AttachFate(fold, s, slug, id, name, fate), AttachFate(fold, t, slug, id, name, fate), slug)
    ensures forall p :: p != slug ==> SamePage(t, AttachFate(fold, t, slug, id, name, fate), p)
  {
    hide Attach, Changes, CacheAhead;
    assert Base(s, slug) == Base(t, slug) && Working(s, slug) == Working(t, slug);
  }

  lemma AttachOneMore(fold: Fold, s: Store, id: int, pages: map<string, string>, fates: map<string, Fate>, t: Store,
      slug: string, name: string)
    requires slug !in pages && PagesAttached(fold, s, id, pages, fates, t)
    ensures PagesAttached(fold, s, id, pages[slug := name], fates,
              AttachFate(fold, t, slug, id, name, FateOf(fates, slug)))
  {
    hide AttachFate;
    var u, more := AttachFate(fold, t, slug, id, name, FateOf(fates, slug)), pages[slug := name];
    assert PageAttached(fold, s, id, pages, fates, t, slug);
    AttachIsLocal(fold, s, t, slug, id, name, FateOf(fates, slug));
    forall p ensures PageAttached(fold, s, id, more, fates, u, p) {
      assert PageAttached(fold, s, id, pages, fates, t, p);
      assert p != slug ==> SamePage(t, u, p);
    }
  }

  /** The attaches of a payload, one page after the other. */
  function AttachEvents(order: seq<string>, id: int, pages: map<string, string>, fates: map<string, Fate>)
    : (events: seq<Event>)
    requires forall slug <- order :: slug in pages
    ensures |events| == |order|
    ensures forall i :: 0 <= i < |order| ==>
      events[i] == AttachEvent(order[i], id, pages[order[i]], FateOf(fates, order[i]))
  {
    seq(|order|, i requires 0 <= i < |order| => AttachEvent(order[i], id, pages[order[i]], FateOf(fates, order[i])))
  }

  function Restrict(pages: map<string, string>, slugs: seq<string>): map<string, string> {
    map slug | slug in slugs && slug in pages :: pages[slug]
  }

  ghost predicate NoRepeat(order: seq<string>) {
    forall i, j :: 0 <= i < j < |order| ==> order[i] != order[j]
  }

  lemma PagesAttachedNone(fold: Fold, s: Store, id: int, fates: map<string, Fate>)
    ensures PagesAttached(fold, s, id, map[], fates, s)
  {
  }

  lemma RunLast(fold: Fold, s: Store, events: seq<Event>)
    requires events != []
    ensures Run(fold, s, events) == Apply(fold, Run(fold, s, events[..|events| - 1]), events[|events| - 1])
  {
  }

  lemma {:induction false} AnyPageOrder(fold: Fold, s: Store, id: int, pages: map<string, string>,
      fates: map<string, Fate>, order: seq<string>)
    requires (forall slug <- order :: slug in pages) && NoRepeat(order)
    ensures PagesAttached(fold, s, id, Restrict(pages, order), fates,
              Run(fold, s, AttachEvents(order, id, pages, fates)))
  {
    hide PagesAttached, Run, AttachFate;
    if order == [] {
      assert Restrict(pages, order) == map[];
      PagesAttachedNone(fold, s, id, fates);
      assert Run(fold, s, []) == s by { RunNone(fold, s); }
    } else {
      var n := |order| - 1;
      var earlier, slug, events := order[..n], order[n], AttachEvents(order, id, pages, fates);
      AnyPageOrder(fold, s, id, pages, fates, earlier);
      assert events[..n] == AttachEvents(earlier, id, pages, fates);
      RunLast(fold, s, events);
      AttachOneMore(fold, s, id, Restrict(pages, earlier), fates, Run(fold, s, events[..n]), slug, pages[slug]);
      assert Restrict(pages, order) == Restrict(pages, earlier)[slug := pages[slug]];
    }
  }

  lemma RunNone(fold: Fold, s: Store)
    ensures Run(fold, s, []) == s
  {
  }

  lemma PagesAttachedUnique(fold: Fold, s: Store, id: int, pages: map<string, string>, fates: map<string, Fate>,
      t: Store, u: Store)
    requires PagesAttached(fold, s, id, pages, fates, t) && PagesAttached(fold, s, id, pages, fates, u)
    ensures t == u
  {
    hide AttachFate;
    forall p ensures SamePage(t, u, p) {
      assert PageAttached(fold, s, id, pages, fates, t, p) && PageAttached(fold, s, id, pages, fates, u, p);
    }
    StoresEqual(t, u);
  }

  lemma StoresEqual(t: Store, u: Store)
    requires forall p :: SamePage(t, u, p)
    ensures t == u
  {
    assert forall p :: p in t.remote ==> SamePage(t, u, p);
    assert forall p :: p in u.remote ==> SamePage(t, u, p);
    assert forall p :: p in t.cache ==> SamePage(t, u, p);
    assert forall p :: p in u.cache ==> SamePage(t, u, p);
    assert t.remote == u.remote;
    assert t.cache == u.cache;
  }

  /** So attaching in any order is the one result that attaching page by page has. */
  lemma OrderedRun(fold: Fold, s: Store, id: int, pages: map<string, string>, fates: map<string, Fate>,
      order: seq<string>, t: Store)
    requires (forall slug :: slug in order <==> slug in pages) && NoRepeat(order)
    ensures PagesAttached(fold, s, id, pages, fates, t) <==> t == Run(fold, s, AttachEvents(order, id, pages, fates))
  {
    hide PagesAttached, Run;
    AnyPageOrder(fold, s, id, pages, fates, order);
    assert Restrict(pages, order) == pages;
    if PagesAttached(fold, s, id, pages, fates, t) {
      PagesAttachedUnique(fold, s, id, pages, fates, t, Run(fold, s, AttachEvents(order, id, pages, fates)));
    }
  }

  /** Whatever order a Go map yields the pages of a payload in, and whatever fails, the result is the same. */
  lemma PageOrderIrrelevant(fold: Fold, s: Store, id: int, pages: map<string, string>, fates: map<string, Fate>,
      a: seq<string>, b: seq<string>)
    requires (forall slug :: slug in a <==> slug in pages) && NoRepeat(a)
    requires (forall slug :: slug in b <==> slug in pages) && NoRepeat(b)
    ensures Run(fold, s, AttachEvents(a, id, pages, fates)) == Run(fold, s, AttachEvents(b, id, pages, fates))
  {
    hide PagesAttached, Run;
    OrderedRun(fold, s, id, pages, fates, a, Run(fold, s, AttachEvents(a, id, pages, fates)));
    OrderedRun(fold, s, id, pages, fates, b, Run(fold, s, AttachEvents(a, id, pages, fates)));
  }
}
