/** What a page and its cached groups stand for through every failure: two lists of the monitors in their groups, in the
    order in which they came, the one the cache shows and the one that is stored. */
module PageViews {
  import opened Text
  import opened PageLayout
  import opened PageStore

  /** What a list of groups stands for, and the folded names of its groups, empty ones included. */
  datatype View = View(home: Arrivals, names: set<string>)

  const BLANK := View([], {})

  function NamesOf(fold: Fold, layout: Layout): set<string> {
    set i | 0 <= i < |layout| :: fold(layout[i].name)
  }

  ghost predicate Shows(fold: Fold, layout: Layout, v: View) {
    WellFormed(fold, layout) && StandsFor(fold, layout, v.home) && NamesOf(fold, layout) == v.names
  }

  /** A page as its two views; a page that is not cached, or not there, has none. */
  datatype PageView = PageView(cached: Option<View>, stored: Option<View>, domains: seq<string>)

  function Stored(p: PageView): View {
    if p.stored.Some? then p.stored.value else BLANK
  }

  /** What an attach starts from. */
  function Shown(p: PageView): View {
    if p.cached.Some? then p.cached.value else Stored(p)
  }

  function Write(v: View, id: int, group: string): View {
    View(Moved(v.home, id, group), v.names + {group})
  }

  /** What a failed save leaves in the cache: the monitor in its new group if the page has that group, else in none. */
  function Ahead(v: View, id: int, group: string): View {
    if group in v.names then Write(v, id, group) else View(Leave(v.home, id), v.names)
  }

  predicate InGroup(v: View, id: int, group: string) {
    Arrival(id, group) in v.home
  }

  function ViewAttach(p: PageView, id: int, group: string, fate: Fate): PageView {
    var there := p.(stored := Some(Stored(p)));
    match fate
    case Unreachable => p
    case OnlyCreated => there
    case Done =>
      if InGroup(Shown(p), id, group) then there
      else there.(cached := Some(Write(Shown(p), id, group)), stored := Some(Write(Shown(p), id, group)))
    case SaveFails =>
      if InGroup(Shown(p), id, group) || p.cached.None? then there
      else there.(cached := Some(Ahead(Shown(p), id, group)))
  }

  function ViewBind(p: PageView, host: string, fate: Fate): PageView {
    if fate == Unreachable then p
    else if fate == Done && host !in p.domains then
      p.(stored := Some(Shown(p)), domains := p.domains + [CleanHost(host)])
    else p.(stored := Some(Stored(p)))
  }

  function ViewApply(fold: Fold, p: PageView, slug: string, e: Event): PageView {
    if e.slug != slug then p
    else match e
      case AttachEvent(_, id, name, fate) => ViewAttach(p, id, fold(name), fate)
      case BindEvent(_, host, fate) => ViewBind(p, host, fate)
  }

  function ViewRun(fold: Fold, p: PageView, slug: string, events: seq<Event>): PageView {
    if events == [] then p
    else ViewApply(fold, ViewRun(fold, p, slug, events[..|events| - 1]), slug, events[|events| - 1])
  }

  /** The store has this page and this cache entry, well-formed where there are any. */
  ghost predicate Depicts(fold: Fold, s: Store, slug: string, p: PageView) {
    && (p.cached.Some? <==> slug in s.cache)
    && (slug in s.cache ==> Shows(fold, s.cache[slug], p.cached.value))
    && (p.stored.Some? <==> slug in s.remote)
    && (slug in s.remote ==> Shows(fold, s.remote[slug].groups, p.stored.value))
    && p.domains == Base(s, slug).domains
  }

  lemma BlankShows(fold: Fold)
    ensures Shows(fold, BLANK_PAGE.groups, BLANK)
  {
  }

  lemma TargetKnown(fold: Fold, layout: Layout, name: string)
    ensures TargetIndex(fold, layout, name) == -1 <==> fold(name) !in NamesOf(fold, layout)
  {
    var t := TargetIndex(fold, layout, name);
    if t >= 0 {
      assert fold(layout[t].name) in NamesOf(fold, layout);
    }
  }

  /** A page without the group, once the monitor is pruned from it. */
  lemma PruneShows(fold: Fold, layout: Layout, id: int, name: string, v: View)
    requires Shows(fold, layout, v) && TargetIndex(fold, layout, name) == -1
    ensures Shows(fold, Prune(fold, layout, id, name), View(Leave(v.home, id), v.names))
  {
    hide TargetIndex, IdsIn, Leave, OneGroupEach, Others;
    var pruned := Prune(fold, layout, id, name);
    LeaveOneEach(v.home, id);
    LeaveMembers(v.home, id);
    PruneLeaves(fold, layout, id, name, v.home);
    PrunedIsWell(fold, layout, id, name);
    assert NamesOf(fold, pruned) == NamesOf(fold, layout);
    forall a | a in Leave(v.home, id) ensures HasGroup(fold, pruned, a.group) {
      var i :| 0 <= i < |layout| && fold(layout[i].name) == a.group;
      assert pruned[i].name == layout[i].name;
    }
  }

  lemma PruneLeaves(fold: Fold, layout: Layout, id: int, name: string, home: Arrivals)
    requires WellFormed(fold, layout) && StandsFor(fold, layout, home) && TargetIndex(fold, layout, name) == -1
    ensures var pruned := Prune(fold, layout, id, name);
      forall i :: 0 <= i < |layout| ==> pruned[i].monitors == IdsIn(Leave(home, id), fold(pruned[i].name))
  {
    hide IdsIn, Leave, OneGroupEach, Others, RemoveFirst, TargetIndex;
    var pruned := Prune(fold, layout, id, name);
    forall i | 0 <= i < |layout| ensures pruned[i].monitors == IdsIn(Leave(home, id), fold(pruned[i].name)) {
      LeaveKeepsOrder(home, id, fold(layout[i].name));
      RemoveFirstIsOthers(layout[i].monitors, id);
    }
  }

  lemma PrunedIsWell(fold: Fold, layout: Layout, id: int, name: string)
    requires WellFormed(fold, layout)
    ensures WellFormed(fold, Prune(fold, layout, id, name))
  {
    hide Others, NoRepeats;
    var pruned := Prune(fold, layout, id, name);
    forall i | 0 <= i < |layout|
      ensures NoRepeats(pruned[i].monitors) && forall x :: x in pruned[i].monitors ==> x in layout[i].monitors
    {
      RemoveFirstFacts(layout[i].monitors, id);
      RemoveFirstWithin(layout[i].monitors, id);
    }
  }

  lemma {:induction false} RemoveFirstWithin(s: seq<int>, id: int)
    ensures forall x :: x in RemoveFirst(s, id) ==> x in s
  {
    if s != [] {
      RemoveFirstWithin(s[1..], id);
      assert s == [s[0]] + s[1..];
    }
  }

  lemma AttachShows(fold: Fold, layout: Layout, id: int, name: string, v: View)
    requires Shows(fold, layout, v)
    ensures Shows(fold, Attach(fold, layout, id, name), Write(v, id, fold(name)))
    ensures Changes(fold, layout, id, name) <==> !InGroup(v, id, fold(name))
  {
    hide Attach, Changes, TargetIndex, Moved;
    AttachMoves(fold, layout, id, name, v.home);
    AttachNames(fold, layout, id, name);
    NothingToChange(fold, layout, id, name, v.home);
  }

  lemma AttachNames(fold: Fold, layout: Layout, id: int, name: string)
    ensures NamesOf(fold, Attach(fold, layout, id, name)) == NamesOf(fold, layout) + {fold(name)}
  {
    hide Attach;
    AttachKeepsOthers(fold, layout, id, name);
    AttachIsAttached(fold, layout, id, name);
    TargetKnown(fold, layout, name);
    var after := Attach(fold, layout, id, name);
    forall n ensures n in NamesOf(fold, after) <==> n in NamesOf(fold, layout) || n == fold(name) {
      if i :| 0 <= i < |layout| && fold(layout[i].name) == n {
        assert after[i].name == layout[i].name;
      }
      if |after| > |layout| {
        assert after[|layout|].name == name;
      }
    }
  }

  /** On a well-formed page an attach has nothing to change exactly when the monitor is in that group already. */
  lemma NothingToChange(fold: Fold, layout: Layout, id: int, name: string, home: Arrivals)
    requires WellFormed(fold, layout) && StandsFor(fold, layout, home)
    ensures Changes(fold, layout, id, name) <==> Arrival(id, fold(name)) !in home
  {
    hide IdsIn, OneGroupEach;
    var t := TargetIndex(fold, layout, name);
    TargetIsOnly(fold, layout, name, t);
    IdsInMembers(home, fold(name));
    if Arrival(id, fold(name)) in home {
      assert HasGroup(fold, layout, Arrival(id, fold(name)).group);
    }
  }

  // ---------- every step, whatever fails ----------

  lemma ShownDepicted(fold: Fold, s: Store, slug: string, p: PageView)
    requires Depicts(fold, s, slug, p)
    ensures Shows(fold, Working(s, slug), Shown(p)) && Shows(fold, Base(s, slug).groups, Stored(p))
  {
    hide Shows;
    BlankShows(fold);
  }

  lemma AheadShows(fold: Fold, layout: Layout, id: int, name: string, v: View)
    requires Shows(fold, layout, v)
    ensures Shows(fold, CacheAhead(fold, layout, id, name), Ahead(v, id, fold(name)))
  {
    hide Shows, Attach, Prune, TargetIndex;
    TargetKnown(fold, layout, name);
    NamesShown(fold, layout, v);
    if TargetIndex(fold, layout, name) == -1 {
      PruneShows(fold, layout, id, name, v);
    } else {
      AttachShows(fold, layout, id, name, v);
    }
  }

  lemma NamesShown(fold: Fold, layout: Layout, v: View)
    requires Shows(fold, layout, v)
    ensures v.names == NamesOf(fold, layout)
  {
  }

  lemma AttachDepicts(fold: Fold, s: Store, slug: string, id: int, name: string, fate: Fate, p: PageView)
    requires Depicts(fold, s, slug, p)
    ensures Depicts(fold, AttachFate(fold, s, slug, id, name, fate), slug, ViewAttach(p, id, fold(name), fate))
  {
    hide Shows, Attach, Changes, CacheAhead, Ahead, Write;
    ShownDepicted(fold, s, slug, p);
    AttachShows(fold, Working(s, slug), id, name, Shown(p));
    if slug in s.cache {
      AheadShows(fold, s.cache[slug], id, name, Shown(p));
    }
  }

  lemma BindDepicts(fold: Fold, s: Store, slug: string, host: string, fate: Fate, p: PageView)
    requires Depicts(fold, s, slug, p)
    ensures Depicts(fold, BindFate(s, slug, host, fate), slug, ViewBind(p, host, fate))
  {
    hide Shows, CleanHost;
    ShownDepicted(fold, s, slug, p);
  }

  /** Every step, whatever fails, does to a page and its cache what the step on the two views says; in particular group
      names stay distinct and no monitor is twice on a page, stored or cached. */
  lemma StepDepicts(fold: Fold, s: Store, e: Event, slug: string, p: PageView)
    requires Depicts(fold, s, slug, p)
    ensures Depicts(fold, Apply(fold, s, e), slug, ViewApply(fold, p, slug, e))
  {
    hide Shows, AttachFate, BindFate, ViewAttach, ViewBind, Depicts;
    if e.slug == slug {
      match e {
        case AttachEvent(_, id, name, fate) => AttachDepicts(fold, s, slug, id, name, fate, p);
        case BindEvent(_, host, fate) => BindDepicts(fold, s, slug, host, fate, p);
      }
    } else {
      OtherPageSame(fold, s, e, slug);
      SameDepicted(fold, s, Apply(fold, s, e), slug, p);
    }
  }

  lemma OtherPageSame(fold: Fold, s: Store, e: Event, slug: string)
    requires e.slug != slug
    ensures SamePage(s, Apply(fold, s, e), slug)
  {
    hide Attach, Changes, CacheAhead, CleanHost;
  }

  lemma SameDepicted(fold: Fold, s: Store, t: Store, slug: string, p: PageView)
    requires Depicts(fold, s, slug, p) && SamePage(s, t, slug)
    ensures Depicts(fold, t, slug, p)
  {
    hide Shows;
  }

  /** So over every run of attaches and binds, with any calls failing. */
  lemma {:induction false} RunDepicts(fold: Fold, s: Store, events: seq<Event>, slug: string, p: PageView)
    requires Depicts(fold, s, slug, p)
    ensures Depicts(fold, Run(fold, s, events), slug, ViewRun(fold, p, slug, events))
  {
    if events != [] {
      hide Depicts, Apply, ViewApply;
      RunDepicts(fold, s, events[..|events| - 1], slug, p);
      StepDepicts(fold, Run(fold, s, events[..|events| - 1]), events[|events| - 1], slug,
        ViewRun(fold, p, slug, events[..|events| - 1]));
    }
  }

  // ---------- well-formedness ----------

  /** Every stored page and every cached list of groups is well-formed. */
  ghost predicate AllWell(fold: Fold, s: Store) {
    && (forall slug <- s.remote :: WellFormed(fold, s.remote[slug].groups))
    && (forall slug <- s.cache :: WellFormed(fold, s.cache[slug]))
  }

  /** A well-formed list of groups stands for something. */
  lemma HasView(fold: Fold, layout: Layout) returns (v: View)
    requires WellFormed(fold, layout)
    ensures Shows(fold, layout, v)
  {
    var home := HomeOf(fold, layout, |layout|);
    v := View(home, NamesOf(fold, layout));
  }

  function Arriving(ids: seq<int>, group: string): (home: Arrivals)
    ensures |home| == |ids| && forall k :: 0 <= k < |ids| ==> home[k] == Arrival(ids[k], group)
  {
    seq(|ids|, k requires 0 <= k < |ids| => Arrival(ids[k], group))
  }

  lemma {:induction false} ArriveTogether(home: Arrivals, ids: seq<int>, group: string, other: string)
    ensures IdsIn(home + Arriving(ids, group), other) == IdsIn(home, other) + if other == group then ids else []
  {
    hide IdsIn;
    if ids == [] {
      assert home + Arriving(ids, group) == home;
      assert IdsIn(home, other) + [] == IdsIn(home, other);
    } else {
      var n := |ids| - 1;
      var before := home + Arriving(ids[..n], group);
      ArriveTogether(home, ids[..n], group, other);
      assert home + Arriving(ids, group) == before + [Arrival(ids[n], group)];
      ArriveLast(before, Arrival(ids[n], group), other);
      assert IdsIn(before, other) + [] == IdsIn(before, other);
      assert ids == ids[..n] + [ids[n]];
    }
  }

  /** The monitors of the first `n` groups, group after group. */
  ghost predicate Covers(fold: Fold, layout: Layout, n: nat, home: Arrivals)
    requires n <= |layout|
  {
    && OneGroupEach(home)
    && (forall i :: 0 <= i < |layout| ==>
          IdsIn(home, fold(layout[i].name)) == if i < n then layout[i].monitors else [])
    && forall a <- home :: HeldBefore(fold, layout, n, a)
  }

  ghost predicate HeldBefore(fold: Fold, layout: Layout, n: nat, a: Arrival)
    requires n <= |layout|
  {
    exists i :: 0 <= i < n && fold(layout[i].name) == a.group && a.id in layout[i].monitors
  }

  lemma {:induction false} HomeOf(fold: Fold, layout: Layout, n: nat) returns (home: Arrivals)
    requires WellFormed(fold, layout) && n <= |layout|
    ensures Covers(fold, layout, n, home)
    ensures n == |layout| ==> StandsFor(fold, layout, home)
  {
    hide IdsIn, Covers, WellFormed, StandsFor;
    if n == 0 {
      home := [];
      NothingCovered(fold, layout);
    } else {
      var earlier := HomeOf(fold, layout, n - 1);
      var ids, group := layout[n - 1].monitors, fold(layout[n - 1].name);
      home := earlier + Arriving(ids, group);
      OneMoreGroup(fold, layout, n - 1, earlier);
    }
    if n == |layout| {
      CoveredStands(fold, layout, home);
    }
  }

  lemma NothingCovered(fold: Fold, layout: Layout)
    ensures Covers(fold, layout, 0, [])
  {
  }

  lemma CoveredStands(fold: Fold, layout: Layout, home: Arrivals)
    requires Covers(fold, layout, |layout|, home)
    ensures StandsFor(fold, layout, home)
  {
    hide IdsIn, OneGroupEach;
    forall a | a in home ensures HasGroup(fold, layout, a.group) {
      assert HeldBefore(fold, layout, |layout|, a);
    }
  }

  lemma OneMoreGroup(fold: Fold, layout: Layout, n: nat, earlier: Arrivals)
    requires WellFormed(fold, layout) && n < |layout| && Covers(fold, layout, n, earlier)
    ensures Covers(fold, layout, n + 1, earlier + Arriving(layout[n].monitors, fold(layout[n].name)))
  {
    hide IdsIn;
    var ids, group := layout[n].monitors, fold(layout[n].name);
    var home := earlier + Arriving(ids, group);
    forall i | 0 <= i < |layout|
      ensures IdsIn(home, fold(layout[i].name)) == if i < n + 1 then layout[i].monitors else []
    {
      ArriveTogether(earlier, ids, group, fold(layout[i].name));
      assert i < n ==> !SameName(fold, layout[i].name, layout[n].name);
      assert n < i ==> !SameName(fold, layout[n].name, layout[i].name);
    }
    forall a | a in home ensures HeldBefore(fold, layout, n + 1, a) {
      if a in earlier {
        assert HeldBefore(fold, layout, n, a);
      }
    }
    StillOneEach(fold, layout, n, earlier);
  }

  lemma StillOneEach(fold: Fold, layout: Layout, n: nat, earlier: Arrivals)
    requires WellFormed(fold, layout) && n < |layout| && Covers(fold, layout, n, earlier)
    ensures OneGroupEach(earlier + Arriving(layout[n].monitors, fold(layout[n].name)))
  {
    hide IdsIn;
    var home := earlier + Arriving(layout[n].monitors, fold(layout[n].name));
    forall x, y | 0 <= x < y < |home| ensures home[x].id != home[y].id {
      if x < |earlier| <= y {
        assert home[x] in earlier && HeldBefore(fold, layout, n, home[x]);
      }
    }
  }

  lemma CanDepict(fold: Fold, s: Store, slug: string) returns (p: PageView)
    requires AllWell(fold, s)
    ensures Depicts(fold, s, slug, p)
  {
    hide WellFormed, Shows;
    p := PageView(None, None, Base(s, slug).domains);
    if slug in s.cache {
      var v := HasView(fold, s.cache[slug]);
      p := p.(cached := Some(v));
    }
    if slug in s.remote {
      var v := HasView(fold, s.remote[slug].groups);
      p := p.(stored := Some(v));
    }
  }

  ghost predicate Depictable(fold: Fold, s: Store, slug: string) {
    exists p :: Depicts(fold, s, slug, p)
  }

  lemma DepictedIsWell(fold: Fold, s: Store)
    requires forall slug :: Depictable(fold, s, slug)
    ensures AllWell(fold, s)
  {
    hide WellFormed, StandsFor, NamesOf;
    forall slug
      ensures slug in s.remote ==> WellFormed(fold, s.remote[slug].groups)
      ensures slug in s.cache ==> WellFormed(fold, s.cache[slug])
    {
      assert Depictable(fold, s, slug);
    }
  }

  /** Whatever calls fail, in any run, every page and every cached list of groups stays well-formed: group names
      distinct up to case, and each monitor at most once on a page. */
  lemma RunKeepsWell(fold: Fold, s: Store, events: seq<Event>)
    requires AllWell(fold, s)
    ensures AllWell(fold, Run(fold, s, events))
  {
    hide Depicts, AllWell, Run, ViewRun;
    forall slug ensures Depictable(fold, Run(fold, s, events), slug) {
      var p := CanDepict(fold, s, slug);
      RunDepicts(fold, s, events, slug, p);
    }
    DepictedIsWell(fold, Run(fold, s, events));
  }

  // ---------- what a failed save costs ----------

  /** A step that saves the page and is not about this monitor. */
  predicate SavesForOthers(fold: Fold, p: PageView, e: Event, id: int) {
    match e
    case AttachEvent(_, other, name, fate) => fate == Done && other != id && !InGroup(Shown(p), other, fold(name))
    case BindEvent(_, host, fate) => fate == Done && host !in p.domains
  }

  /** Two views with the same groups and the same monitors in them. */
  ghost predicate SameGroups(v: View, w: View) {
    v.names == w.names && forall a :: a in v.home <==> a in w.home
  }

  /** A monitor's attach fails to be saved on a page whose cache agrees with it, and then something else is saved. That
      publishes the failed edit: the monitor turns up in its new group if the page was cached and had the group, is gone
      from the page if it was cached and lacked the group, and is where it was if the page was not cached. */
  lemma FailedThenSaved(fold: Fold, p: PageView, slug: string, id: int, name: string, next: Event, group: string)
    requires next.slug == slug && !InGroup(Shown(p), id, fold(name))
    requires p.cached.Some? ==> p.stored.Some? && SameGroups(p.cached.value, p.stored.value)
    requires OneGroupEach(Shown(p).home)
    requires SavesForOthers(fold, ViewAttach(p, id, fold(name), SaveFails), next, id)
    ensures var failed := ViewAttach(p, id, fold(name), SaveFails);
      && Stored(failed) == Stored(p)
      && (InGroup(Stored(ViewApply(fold, failed, slug, next)), id, group) <==>
            if p.cached.None? then InGroup(Stored(p), id, group)
            else fold(name) in Stored(p).names && group == fold(name))
  {
    hide OneGroupEach, Moved, Leave;
    var failed := ViewAttach(p, id, fold(name), SaveFails);
    MovedOneEach(Shown(p).home, id, fold(name));
    LeaveMembers(Shown(p).home, id);
    LeaveOneEach(Shown(p).home, id);
    if next.AttachEvent? {
      MovedOneEach(Shown(failed).home, next.id, fold(next.name));
    }
  }

  /** Somewhere on the page. */
  ghost predicate OnPage(v: View, id: int) {
    exists group :: InGroup(v, id, group)
  }

  lemma HoldsShown(fold: Fold, layout: Layout, v: View, id: int)
    requires Shows(fold, layout, v)
    ensures Holds(layout, id) <==> OnPage(v, id)
  {
    hide IdsIn, OneGroupEach, WellFormed;
    if i :| 0 <= i < |layout| && id in layout[i].monitors {
      IdsInMembers(v.home, fold(layout[i].name));
      assert InGroup(v, id, fold(layout[i].name));
    }
    if group :| InGroup(v, id, group) {
      assert HasGroup(fold, layout, Arrival(id, group).group);
      var i :| 0 <= i < |layout| && fold(layout[i].name) == group;
      IdsInMembers(v.home, group);
    }
  }

  lemma FailedOnPage(fold: Fold, p: PageView, slug: string, id: int, name: string, next: Event)
    requires next.slug == slug && !InGroup(Shown(p), id, fold(name))
    requires p.cached.Some? ==> p.stored.Some? && SameGroups(p.cached.value, p.stored.value)
    requires OneGroupEach(Shown(p).home)
    requires SavesForOthers(fold, ViewAttach(p, id, fold(name), SaveFails), next, id)
    ensures var failed := ViewAttach(p, id, fold(name), SaveFails);
      && Stored(failed) == Stored(p)
      && (OnPage(Stored(ViewApply(fold, failed, slug, next)), id) <==>
            if p.cached.None? then OnPage(Stored(p), id) else fold(name) in Stored(p).names)
  {
    hide OneGroupEach, ViewAttach, ViewApply, InGroup, SavesForOthers, SameGroups;
    var after := Stored(ViewApply(fold, ViewAttach(p, id, fold(name), SaveFails), slug, next));
    forall group ensures InGroup(after, id, group) <==>
      if p.cached.None? then InGroup(Stored(p), id, group) else fold(name) in Stored(p).names && group == fold(name)
    {
      FailedThenSaved(fold, p, slug, id, name, next, group);
    }
    FailedThenSaved(fold, p, slug, id, name, next, fold(name));
  }

  lemma SameShown(fold: Fold, layout: Layout, v: View, w: View)
    requires Shows(fold, layout, v) && Shows(fold, layout, w)
    ensures SameGroups(v, w)
  {
    hide IdsIn, OneGroupEach, WellFormed;
    forall a ensures a in v.home <==> a in w.home {
      IdsInMembers(v.home, a.group);
      IdsInMembers(w.home, a.group);
      if a in v.home {
        var i :| 0 <= i < |layout| && fold(layout[i].name) == a.group;
      }
      if a in w.home {
        var i :| 0 <= i < |layout| && fold(layout[i].name) == a.group;
      }
    }
  }

  lemma OneEachShown(fold: Fold, layout: Layout, v: View)
    requires Shows(fold, layout, v)
    ensures OneGroupEach(v.home)
  {
  }

  /** So a monitor that was on the page is lost from it if and only if the page was cached and lacked the group. */
  lemma MonitorLostIff(fold: Fold, s: Store, slug: string, id: int, name: string, next: Event, p: PageView)
    requires Depicts(fold, s, slug, p) && Coherent(s) && next.slug == slug
    requires slug in s.remote && Holds(s.remote[slug].groups, id) && AttachSaves(fold, s, slug, id, name)
    requires SavesForOthers(fold, ViewAttach(p, id, fold(name), SaveFails), next, id)
    ensures var failed := AttachFailed(fold, s, slug, id, name);
      var after := Apply(fold, failed, next);
      && slug in after.remote && slug in failed.remote
      && Holds(failed.remote[slug].groups, id)
      && (!Holds(after.remote[slug].groups, id)
          <==> slug in s.cache && TargetIndex(fold, s.cache[slug], name) == -1)
  {
    hide Shows, Apply, AttachFailed, AttachStep, Attach, Changes, ViewAttach, ViewApply, SavesForOthers;
    hide Holds, TargetIndex, InGroup, OneGroupEach;
    var failed := AttachFailed(fold, s, slug, id, name);
    var q, after := ViewAttach(p, id, fold(name), SaveFails), Apply(fold, failed, next);
    if slug in s.cache {
      SameShown(fold, s.cache[slug], p.cached.value, p.stored.value);
      NamesShown(fold, s.cache[slug], p.cached.value);
      TargetKnown(fold, s.cache[slug], name);
    }
    ShownDepicted(fold, s, slug, p);
    AttachShows(fold, Working(s, slug), id, name, Shown(p));
    AttachDepicts(fold, s, slug, id, name, SaveFails, p);
    StepDepicts(fold, failed, next, slug, q);
    OneEachShown(fold, Working(s, slug), Shown(p));
    FailedOnPage(fold, p, slug, id, name, next);
    FailedIsThere(p, id, fold(name));
    SavedIsThere(fold, q, slug, next, id);
    HoldsShown(fold, s.remote[slug].groups, p.stored.value, id);
    HoldsShown(fold, failed.remote[slug].groups, q.stored.value, id);
    HoldsShown(fold, after.remote[slug].groups, ViewApply(fold, q, slug, next).stored.value, id);
  }

  lemma FailedIsThere(p: PageView, id: int, group: string)
    ensures ViewAttach(p, id, group, SaveFails).stored.Some?
  {
  }

  lemma SavedIsThere(fold: Fold, p: PageView, slug: string, next: Event, id: int)
    requires next.slug == slug && SavesForOthers(fold, p, next, id)
    ensures ViewApply(fold, p, slug, next).stored.Some?
  {
  }
}
