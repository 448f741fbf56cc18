/** The status-page manager of internal/monitor/kuma/status_page.go. A list of groups is a Go slice: a length and a
    backing array that the fetched page and the cache share, so an edit made through one is seen through the other. */
module StatusPages {
  import opened Text
  import opened PageLayout
  import opened PageLabels
  import opened PageStore

  datatype Slice = Slice(cells: array<Group>, len: nat) {
    ghost predicate Shows(layout: Layout)
      reads cells
    {
      len <= cells.Length && cells[..len] == layout
    }
  }

  /** The inner loop of `attachToGroup`: cuts the first occurrence of `id` out of a monitor list. */
  method PruneMonitors(monitors: seq<int>, id: int) returns (pruned: seq<int>, removed: bool)
    ensures pruned == RemoveFirst(monitors, id)
    ensures removed <==> id in monitors
  {
    for j := 0 to |monitors|
      invariant id !in monitors[..j]
    {
      if monitors[j] == id {
        RemoveFirstAt(monitors, j, id);
        return monitors[..j] + monitors[j + 1..], true;
      }
    }
    assert monitors[..|monitors|] == monitors;
    RemoveFirstFacts(monitors, id);
    return monitors, false;
  }

  method Contains(monitors: seq<int>, id: int) returns (found: bool)
    ensures found <==> id in monitors
  {
    found := false;
    for i := 0 to |monitors|
      invariant !found && id !in monitors[..i]
    {
      if monitors[i] == id {
        return true;
      }
    }
  }

  /** A fresh list for a stored layout, as a decoded reply gives. */
  method Decode(layout: Layout) returns (list: Slice)
    ensures list.Shows(layout) && fresh(list.cells)
  {
    var cells := new Group[|layout|](i requires 0 <= i < |layout| => layout[i]);
    list := Slice(cells, |layout|);
    assert cells[..|layout|] == layout;
  }

  /** Go's `append`: in place when the backing array has room behind the slice, otherwise into a larger copy. */
  method Append(list: Slice, group: Group, ghost shown: Layout) returns (longer: Slice)
    requires list.Shows(shown)
    modifies list.cells
    ensures longer.Shows(shown + [group])
    ensures longer.cells == list.cells || fresh(longer.cells)
    ensures list.Shows(shown)
  {
    if list.len < list.cells.Length {
      list.cells[list.len] := group;
      longer := Slice(list.cells, list.len + 1);
    } else {
      var cells := new Group[2 * list.len + 1](i requires 0 <= i < 2 * list.len + 1 reads list.cells =>
        if i < list.len then list.cells[i] else group);
      longer := Slice(cells, list.len + 1);
      assert cells[..list.len + 1] == shown + [group];
    }
  }

  /** Finds the target group and removes the monitor from every other one. */
  method PruneOthers(fold: Fold, list: Slice, id: int, name: string, ghost before: Layout)
    returns (target: int, changed: bool)
    requires list.Shows(before)
    modifies list.cells
    ensures list.Shows(Prune(fold, before, id, name))
    ensures target == TargetIndex(fold, before, name)
    ensures changed <==> HeldElsewhere(fold, before, id, name, |before|)
  {
    hide RemoveFirst, Prune, TargetIndex, SameName;
    target, changed := -1, false;
    for i := 0 to list.len
      invariant forall k :: 0 <= k < i ==> list.cells[k] == PruneGroup(fold, before[k], id, name)
      invariant forall k :: i <= k < list.len ==> list.cells[k] == before[k]
      invariant -1 <= target < i
      invariant target >= 0 ==> SameName(fold, before[target].name, name)
      invariant forall k :: target < k < i ==> !SameName(fold, before[k].name, name)
      invariant changed <==> HeldElsewhere(fold, before, id, name, i)
    {
      var group := list.cells[i];
      if SameName(fold, group.name, name) {
        target := i;
        continue;
      }
      var monitors, removed := PruneMonitors(group.monitors, id);
      list.cells[i] := group.(monitors := monitors);
      changed := changed || removed;
    }
  }

  method AddIfAbsent(list: Slice, target: nat, id: int, ghost full: Layout) returns (changed: bool)
    requires list.Shows(full) && target < list.len
    modifies list.cells
    ensures var Group(name, weight, monitors) := full[target];
      list.Shows(full[target := Group(name, weight, if id in monitors then monitors else monitors + [id])])
    ensures changed <==> id !in full[target].monitors
  {
    changed := false;
    var group := list.cells[target];
    assert group == full[target];
    var existsInTarget := Contains(group.monitors, id);
    if !existsInTarget {
      list.cells[target] := group.(monitors := group.monitors + [id]);
      changed := true;
    }
  }

  lemma EditCases(fold: Fold, before: Layout, id: int, name: string)
    ensures var t, pruned := TargetIndex(fold, before, name), Prune(fold, before, id, name);
      var created := Group(name, |before| + 1, []);
      if t == -1 then
        && Attach(fold, before, id, name) == (pruned + [created])[|before| := AddTo(created, id)]
        && CacheAhead(fold, before, id, name) == pruned && Changes(fold, before, id, name)
      else
        && Attach(fold, before, id, name) == CacheAhead(fold, before, id, name) == pruned[t := AddTo(pruned[t], id)]
        && (Changes(fold, before, id, name)
            <==> HeldElsewhere(fold, before, id, name, |before|) || id !in pruned[t].monitors)
  {
    hide Attach, RemoveFirst, TargetIndex;
    AttachCases(fold, before, id, name);
  }

  /** The edit of `attachToGroup` on the list it works on: prune elsewhere, create the group if missing, append if
      absent. A created group is in the returned list only. */
  method EditGroups(fold: Fold, list: Slice, id: int, name: string, ghost before: Layout)
    returns (edited: Slice, changed: bool)
    requires list.Shows(before)
    modifies list.cells
    ensures edited.Shows(Attach(fold, before, id, name))
    ensures changed <==> Changes(fold, before, id, name)
    ensures list.Shows(CacheAhead(fold, before, id, name))
    ensures edited.cells == list.cells || fresh(edited.cells)
  {
    hide Attach, Changes, CacheAhead, PruneGroup, TargetIndex, HeldElsewhere;
    var target;
    target, changed := PruneOthers(fold, list, id, name, before);
    EditCases(fold, before, id, name);
    ghost var pruned := Prune(fold, before, id, name);
    if target == -1 {
      var created := Group(name, list.len + 1, []);
      edited := Append(list, created, pruned);
      var _ := AddIfAbsent(edited, list.len, id, pruned + [created]);
      assert list.cells[..list.len] == pruned;
      changed := true;
    } else {
      edited := list;
      var added := AddIfAbsent(edited, target, id, pruned);
      changed := changed || added;
    }
  }

  /** A page as `GetStatusPage` hands it out. */
  class StatusPage {
    const slug: string
    var domains: seq<string>
    var groups: Slice

    constructor (slug: string, domains: seq<string>, groups: Slice)
      ensures this.slug == slug && this.domains == domains && this.groups == groups
    {
      this.slug, this.domains, this.groups := slug, domains, groups;
    }
  }

  /** Uptime Kuma as the companion sees it: stored pages, and a log of the saves it accepted. */
  class KumaServer {
    var pages: map<string, Page>
    var saves: seq<string>

    constructor ()
      ensures pages == map[] && saves == []
    {
      pages, saves := map[], [];
    }

    method GetStatusPage(slug: string) returns (page: StatusPage?)
      ensures page != null <==> slug in pages
      ensures page != null ==>
        && fresh(page) && page.slug == slug && page.domains == pages[slug].domains
        && page.groups.Shows(pages[slug].groups) && fresh(page.groups.cells)
    {
      page := null;
      if slug in pages {
        var groups := Decode(pages[slug].groups);
        page := new StatusPage(slug, pages[slug].domains, groups);
      }
    }

    method AddStatusPage(slug: string)
      modifies this`pages
      ensures pages == old(pages)[slug := BLANK_PAGE]
    {
      pages := pages[slug := BLANK_PAGE];
    }

    /** A save that succeeds stores the page and replies with the groups it stored; one that fails does nothing. */
    method SaveStatusPage(page: StatusPage, saveOk: bool) returns (updated: Option<Slice>)
      requires page.groups.len <= page.groups.cells.Length
      modifies this
      ensures saveOk ==>
        && pages == old(pages)[page.slug := Page(page.domains, page.groups.cells[..page.groups.len])]
        && saves == old(saves) + [page.slug]
        && updated.Some? && updated.value.Shows(page.groups.cells[..page.groups.len]) && fresh(updated.value.cells)
      ensures !saveOk ==> pages == old(pages) && saves == old(saves) && updated.None?
    {
      updated := None;
      if saveOk {
        var layout := page.groups.cells[..page.groups.len];
        pages := pages[page.slug := Page(page.domains, layout)];
        saves := saves + [page.slug];
        var groups := Decode(layout);
        updated := Some(groups);
      }
    }
  }

  class StatusPageManager {
    const fold: Fold
    const server: KumaServer
    const globalSlug: string
    const globalDomain: string
    var cache: map<string, Slice>

    ghost var cached: map<string, Layout>       // what the cached lists show
    ghost var owner: map<array<Group>, string>  // the slug each of their backing arrays belongs to

    ghost predicate Valid()
      reads this, owner.Keys
    {
      && cache.Keys == cached.Keys
      && (forall slug <- cache :: cache[slug].cells in owner && owner[cache[slug].cells] == slug)
      && (forall slug <- cache :: cache[slug].Shows(cached[slug]))
    }

    ghost function State(): Store
      reads this, server
    {
      Store(server.pages, cached)
    }

    constructor (fold: Fold, server: KumaServer, globalSlug: string, globalDomain: string)
      ensures Valid() && fresh(owner.Keys) && this.fold == fold && this.server == server
      ensures this.globalSlug == globalSlug && this.globalDomain == globalDomain
      ensures State() == Store(server.pages, map[])
    {
      this.fold, this.server, this.globalSlug, this.globalDomain := fold, server, globalSlug, globalDomain;
      cache, cached, owner := map[], map[], map[];
    }

    /** The page says what the server has stored. */
    ghost predicate Current(page: StatusPage)
      reads server, page, page.groups.cells
    {
      && page.slug in server.pages
      && page.domains == server.pages[page.slug].domains
      && page.groups.Shows(server.pages[page.slug].groups)
    }

    /** A current page that does not share anything with the cache yet. */
    ghost predicate Fetched(page: StatusPage)
      reads this, server, page, page.groups.cells
    {
      Current(page) && page.groups.cells !in owner
    }

    /** Fetches the page, creating it first when the fetch gives none. */
    method EnsurePage(slug: string, fate: Fate) returns (page: StatusPage?)
      requires Valid()
      modifies server`pages
      ensures Valid()
      ensures page != null <==> fate.Done? || fate.SaveFails?
      ensures State() == if fate.Unreachable? then old(State()) else WithPage(old(State()), slug)
      ensures page != null ==> fresh(page) && page.slug == slug && Fetched(page) && fresh(page.groups.cells)
    {
      if fate.Unreachable? {
        return null;
      }
      page := server.GetStatusPage(slug);
      if page == null {
        server.AddStatusPage(slug);
        page := server.GetStatusPage(slug);
      } else {
        assert server.pages[slug := server.pages[slug]] == server.pages;
      }
      if fate.OnlyCreated? {
        page := null;
      }
    }

    /** The edit of a page. Its list is the cached one when there is one, so the edits show in the cache at once. */
    method EditPage(page: StatusPage, id: int, name: string) returns (changed: bool)
      requires Valid() && Fetched(page)
      modifies this`cached, page, owner.Keys, page.groups.cells
      ensures Valid()
      ensures var before := old(Working(State(), page.slug));
        && changed == Changes(fold, before, id, name)
        && page.groups.Shows(Attach(fold, before, id, name))
        && cached == if page.slug in old(cached)
             then old(cached)[page.slug := CacheAhead(fold, before, id, name)] else old(cached)
      ensures page.domains == old(page.domains)
    {
      hide Attach, Changes, CacheAhead, Slice.Shows;
      ghost var before := Working(State(), page.slug);
      if page.slug in cache {
        page.groups := cache[page.slug];
      }
      var edited;
      edited, changed := EditGroups(fold, page.groups, id, name, before);
      page.groups := edited;
      if page.slug in cache {
        cached := cached[page.slug := CacheAhead(fold, before, id, name)];
      }
    }

    /** Saves an edited page; the reply replaces the cached list. */
    method SaveEdited(page: StatusPage, ghost after: Layout, saveOk: bool)
      requires Valid() && page.groups.Shows(after)
      modifies this`cache, this`cached, this`owner, server
      ensures Valid() && fresh(owner.Keys - old(owner.Keys))
      ensures saveOk ==>
        && server.pages == old(server.pages)[page.slug := Page(page.domains, after)]
        && cached == old(cached)[page.slug := after]
        && server.saves == old(server.saves) + [page.slug]
      ensures !saveOk ==> State() == old(State()) && server.saves == old(server.saves)
    {
      var updated := server.SaveStatusPage(page, saveOk);
      if updated.Some? {
        cache := cache[page.slug := updated.value];
        cached := cached[page.slug := after];
        owner := owner[updated.value.cells := page.slug];
      }
    }

    /** Moves a monitor to one group of a page, and saves the page if that changed anything. */
    method AttachToGroup(page: StatusPage, id: int, name: string, saveOk: bool)
      requires Valid() && Fetched(page)
      modifies this`cache, this`cached, this`owner, server, page, owner.Keys, page.groups.cells
      ensures Valid() && fresh(owner.Keys - old(owner.Keys))
      ensures State() ==
        if saveOk || !AttachSaves(fold, old(State()), page.slug, id, name)
        then AttachStep(fold, old(State()), page.slug, id, name)
        else AttachFailed(fold, old(State()), page.slug, id, name)
      ensures server.saves == old(server.saves) +
        if saveOk && AttachSaves(fold, old(State()), page.slug, id, name) then [page.slug] else []
    {
      hide Attach, Changes, CacheAhead, Valid, Slice.Shows;
      ghost var s, before := State(), Working(State(), page.slug);
      AttachOutcome(fold, s, page.slug, id, name);
      var changed := EditPage(page, id, name);
      if changed {
        SaveEdited(page, Attach(fold, before, id, name), saveOk);
      }
    }

    /** Adds a domain to a page unless the page lists it in that very spelling. Cached groups replace the fetched
        ones before the save; the reply is not cached. */
    method EnsureDomainMapping(page: StatusPage, host: string, saveOk: bool)
      requires Valid() && Current(page)
      modifies server, page
      ensures Valid() && cached == old(cached)
      ensures State() ==
        BindFate(old(State()), page.slug, host, if saveOk then Done else SaveFails)
      ensures server.saves == old(server.saves) +
        if saveOk && BindSaves(old(State()), page.slug, host) then [page.slug] else []
    {
      hide CleanHost;
      assert server.pages[page.slug := server.pages[page.slug]] == server.pages;
      var cleanHost := CleanHost(host);
      var found := false;
      for i := 0 to |page.domains|
        invariant found <==> host in page.domains[..i]
      {
        if page.domains[i] == host {
          found := true;
          break;
        }
      }
      assert page.domains[..|page.domains|] == page.domains;
      if !found {
        page.domains := page.domains + [cleanHost];
        if page.slug in cache {
          page.groups := cache[page.slug];
        }
        var _ := server.SaveStatusPage(page, saveOk);
      }
    }

    /** Fills the cache from every page that can be fetched, in listing order, and enforces the global domain. */
    method SyncState(order: seq<string>, fetched: set<string>, listed: bool, saveOk: bool) returns (ok: bool)
      requires Valid()
      requires (forall slug <- order :: slug in server.pages) && NoRepeat(order)
      modifies this`cache, this`cached, this`owner, server
      ensures Valid() && fresh(owner.Keys - old(owner.Keys)) && ok == listed
      ensures State() == if !listed then old(State())
        else Synced(old(State()), Listed(order, fetched), globalSlug, if saveOk then globalDomain else "")
    {
      hide BindStep, Slice.Shows, Hydrate;
      if !listed {
        return false;
      }
      ghost var domain := if saveOk then globalDomain else "";
      HydrateNone(State());
      assert Listed(order[..0], fetched) == {};
      for i := 0 to |order|
        invariant Valid() && fresh(owner.Keys - old(owner.Keys))
        invariant State() == Synced(old(State()), Listed(order[..i], fetched), globalSlug, domain)
      {
        ghost var done := Listed(order[..i], fetched);
        assert Listed(order[..i + 1], fetched) == if order[i] in fetched then done + {order[i]} else done;
        if order[i] in fetched {
          SyncOneMore(old(State()), done, order[i], globalSlug, domain);
          HydratePage(order[i], saveOk);
        }
      }
      assert order[..|order|] == order;
      return true;
    }

    /** Puts the groups of a page just fetched into the cache. */
    method CachePage(page: StatusPage)
      requires Valid() && Fetched(page)
      modifies this`cache, this`cached, this`owner
      ensures Valid() && owner.Keys == old(owner.Keys) + {page.groups.cells}
      ensures cached == old(cached)[page.slug := server.pages[page.slug].groups]
    {
      hide Slice.Shows;
      cache := cache[page.slug := page.groups];
      cached := cached[page.slug := server.pages[page.slug].groups];
      owner := owner[page.groups.cells := page.slug];
    }

    /** One round of the sync; a save that fails is only logged. */
    method HydratePage(slug: string, saveOk: bool)
      requires Valid() && slug in server.pages
      modifies this`cache, this`cached, this`owner, server
      ensures Valid() && fresh(owner.Keys - old(owner.Keys))
      ensures var s := old(State());
        var one := s.(cache := s.cache[slug := s.remote[slug].groups]);
        State() == if slug == globalSlug && globalDomain != "" && saveOk then BindStep(one, slug, globalDomain) else one
    {
      hide BindStep, BindSaves, Slice.Shows;
      var page := server.GetStatusPage(slug);
      CachePage(page);
      if slug == globalSlug && globalDomain != "" {
        UnsavedBind(State(), slug, globalDomain);
        EnsureDomainMapping(page, globalDomain, saveOk);
      }
    }

    /** `BindDomain`; an unreachable page is left alone. */
    method BindDomain(slug: string, domain: string, fate: Fate)
      requires Valid()
      modifies server
      ensures Valid() && cached == old(cached)
      ensures State() == BindFate(old(State()), slug, domain, fate)
      ensures server.saves ==
        old(server.saves) + if fate.Done? && BindSaves(old(State()), slug, domain) then [slug] else []
    {
      hide BindFate, WithPage, Slice.Shows;
      BindEnsured(State(), slug, domain, fate);
      var page := EnsurePage(slug, fate);
      if page != null {
        EnsureDomainMapping(page, domain, fate.Done?);
      }
    }

    /** Fetches or creates one page and attaches the monitor to it. */
    method AttachToPage(slug: string, id: int, name: string, fate: Fate)
      requires Valid()
      modifies this`cache, this`cached, this`owner, server, owner.Keys
      ensures Valid() && fresh(owner.Keys - old(owner.Keys))
      ensures State() == AttachFate(fold, old(State()), slug, id, name, fate)
    {
      hide AttachStep, AttachFailed, AttachSaves, WithPage;
      if fate.Done? || fate.SaveFails? {
        EnsureThenAttach(fold, State(), slug, id, name, fate);
      }
      var page := EnsurePage(slug, fate);
      if page != null {
        AttachToGroup(page, id, name, fate.Done?);
      }
    }

    /** One payload: every page it names gets its attach, as far as calls succeed, in whatever order the map yields
        them. */
    method ProcessStatusPages(id: int, labels: Labels, fates: map<string, Fate>)
      requires Valid()
      modifies this`cache, this`cached, this`owner, server, owner.Keys
      ensures Valid() && fresh(owner.Keys - old(owner.Keys))
      ensures PagesAttached(fold, old(State()), id, Requested(globalSlug, labels), fates, State())
    {
      hide AttachFate, PageAttached, PagesFrom;
      PagesAttachedNone(fold, State(), id, fates);
      if HIDE_LABEL in labels && Lower(labels[HIDE_LABEL]) == "true" {
        return;
      }
      var pages := GetPagesFromLabels(globalSlug, labels);
      var todo := pages.Keys;
      assert pages - todo == map[];
      while todo != {}
        invariant todo <= pages.Keys
        invariant Valid() && fresh(owner.Keys - old(owner.Keys))
        invariant PagesAttached(fold, old(State()), id, pages - todo, fates, State())
      {
        var slug :| slug in todo;
        ghost var done := pages - todo;
        AttachOneMore(fold, old(State()), id, done, fates, State(), slug, pages[slug]);
        AttachToPage(slug, id, pages[slug], FateOf(fates, slug));
        todo := todo - {slug};
        assert pages - todo == done[slug := pages[slug]];
      }
      assert pages - todo == pages;
    }
  }

  /** Creating the missing page first makes no difference to a bind. */
  lemma BindEnsured(s: Store, slug: string, host: string, fate: Fate)
    ensures var there := WithPage(s, slug);
      && BindSaves(there, slug, host) == BindSaves(s, slug, host)
      && (fate.Done? || fate.SaveFails? ==> BindFate(there, slug, host, fate) == BindFate(s, slug, host, fate))
      && BindFate(s, slug, host, Unreachable) == s && BindFate(s, slug, host, OnlyCreated) == there
  {
    hide CleanHost;
    var there := WithPage(s, slug);
    assert Base(there, slug) == Base(s, slug) && Working(there, slug) == Working(s, slug);
    var bound := Page(Base(s, slug).domains + [CleanHost(host)], Working(s, slug));
    assert there.remote[slug := bound] == s.remote[slug := bound];
    assert there.remote[slug := Base(s, slug)] == s.remote[slug := Base(s, slug)];
  }

  /** A bind on an existing page whose save fails changes nothing. */
  lemma UnsavedBind(s: Store, slug: string, host: string)
    requires slug in s.remote
    ensures BindFate(s, slug, host, SaveFails) == s
  {
  }

  /** A hidden container asks for no page, and one without a pages label for the global page alone, if there is one. */
  lemma RequestedPages(globalSlug: string, labels: Labels)
    ensures "mesh.kuma.hide_status" in labels && Lower(labels["mesh.kuma.hide_status"]) == "true" ==>
      Requested(globalSlug, labels) == map[]
    ensures "mesh.kuma.hide_status" !in labels || Lower(labels["mesh.kuma.hide_status"]) != "true" ==>
      Requested(globalSlug, labels) == PagesFrom(globalSlug, labels)
    ensures "mesh.kuma.pages" !in labels ==>
      PagesFrom(globalSlug, labels) ==
      if globalSlug == "" || globalSlug == "none" then map[] else map[globalSlug := DefaultGroup(labels)]
  {
  }

  /** The pages a payload asks for: none when it asks to stay hidden. */
  function Requested(globalSlug: string, labels: Labels): map<string, string> {
    if HIDE_LABEL in labels && Lower(labels[HIDE_LABEL]) == "true" then map[] else PagesFrom(globalSlug, labels)
  }

  function Listed(order: seq<string>, fetched: set<string>): set<string> {
    set slug | slug in order && slug in fetched
  }

  lemma HydrateNone(s: Store)
    ensures Hydrate(s, {}) == s
  {
  }

  /** How the steps of an existing page read in terms of the edit and of what the edit shows in the cache. */
  lemma AttachOutcome(fold: Fold, s: Store, slug: string, id: int, name: string)
    requires slug in s.remote
    ensures var before := Working(s, slug);
      var after := Attach(fold, before, id, name);
      var ahead := if slug in s.cache then s.cache[slug := CacheAhead(fold, before, id, name)] else s.cache;
      && AttachSaves(fold, s, slug, id, name) == Changes(fold, before, id, name)
      && AttachFailed(fold, s, slug, id, name) == Store(s.remote, ahead)
      && AttachStep(fold, s, slug, id, name) ==
        if Changes(fold, before, id, name)
        then Store(s.remote[slug := Page(s.remote[slug].domains, after)], ahead[slug := after])
        else Store(s.remote, ahead)
  {
    var before := Working(s, slug);
    ChangesIffDifferent(fold, before, id, name);
    hide Attach, Changes;
    assert s.remote[slug := s.remote[slug]] == s.remote;
    if slug in s.cache {
      assert s.cache[slug := before] == s.cache;
      assert TargetIndex(fold, before, name) == -1 ==> Changes(fold, before, id, name) by {
        MissingGroupChanges(fold, before, id, name);
      }
    }
  }

  lemma MissingGroupChanges(fold: Fold, before: Layout, id: int, name: string)
    ensures TargetIndex(fold, before, name) == -1 ==> Changes(fold, before, id, name)
  {
  }
}
