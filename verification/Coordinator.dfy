/** The coordinator of internal/monitor/kuma/coordinator.go: a bounded queue of attach requests drained by one loop. */
module Coordinator {
  import opened Text
  import opened PageLayout
  import opened PageLabels
  import opened PageStore
  import opened PageViews
  import opened StatusPages

  const CAPACITY := 100

  datatype Payload = Payload(id: int, labels: Labels)

  /** One coordinator on the server node, with the manager it feeds. */
  class Coordinator {
    const statusManager: StatusPageManager
    var attachQueue: seq<Payload>

    ghost predicate Valid()
      reads this, statusManager, statusManager.owner.Keys
    {
      |attachQueue| <= CAPACITY && statusManager.Valid()
    }

    constructor (statusManager: StatusPageManager)
      requires statusManager.Valid()
      ensures Valid() && this.statusManager == statusManager && attachQueue == []
    {
      this.statusManager := statusManager;
      attachQueue := [];
    }

    /** A send into the channel; a sender that finds it full stays blocked, here by not being accepted yet. */
    method RequestAttach(payload: Payload) returns (accepted: bool)
      requires Valid()
      modifies this`attachQueue
      ensures Valid()
      ensures accepted <==> |old(attachQueue)| < 100
      ensures attachQueue == if accepted then old(attachQueue) + [payload] else old(attachQueue)
    {
      accepted := |attachQueue| < CAPACITY;
      if accepted {
        attachQueue := attachQueue + [payload];
      }
    }

    /** One round of the drain loop: the oldest request is taken and attached to its pages as far as calls succeed. */
    method ProcessNext(fates: map<string, Fate>)
      requires Valid() && attachQueue != []
      modifies this`attachQueue, statusManager, statusManager.server, statusManager.owner.Keys
      ensures Valid() && attachQueue == old(attachQueue)[1..]
      ensures fresh(statusManager.owner.Keys - old(statusManager.owner.Keys))
      ensures DrainStep(statusManager.fold, statusManager.globalSlug, old(attachQueue)[0], fates,
                old(statusManager.State()), statusManager.State())
    {
      hide StatusPageManager.Valid, PagesAttached, Requested;
      var payload := attachQueue[0];
      attachQueue := attachQueue[1..];
      statusManager.ProcessStatusPages(payload.id, payload.labels, fates);
    }

    /** The drain loop, until the channel is empty: requests are taken one at a time in arrival order, and each is
        attached to its pages as far as calls succeed. Whatever fails, every page and its cache entry end up showing
        what the requests do to its two views; a page on which no save failed lists, in order of arrival, what the
        requests that got through to it put there. */
    method ProcessQueue(fates: seq<map<string, Fate>>) returns (ghost states: seq<Store>)
      requires Valid() && |fates| == |attachQueue|
      modifies this`attachQueue, statusManager, statusManager.server, statusManager.owner.Keys
      ensures Valid() && attachQueue == []
      ensures Drained(statusManager.fold, statusManager.globalSlug, old(attachQueue), fates, states)
      ensures states[0] == old(statusManager.State()) && states[|fates|] == statusManager.State()
      ensures AllWell(statusManager.fold, states[0]) ==> AllWell(statusManager.fold, statusManager.State())
      ensures forall slug, p :: Depicts(statusManager.fold, states[0], slug, p) ==>
        Depicts(statusManager.fold, statusManager.State(), slug,
          ViewDrain(statusManager.fold, statusManager.globalSlug, p, old(attachQueue), fates, slug))
      ensures forall slug, home ::
        SavedOn(fates, slug) && CoherentAt(states[0], slug) && Abstracts(statusManager.fold, states[0], slug, home) ==>
        && CoherentAt(statusManager.State(), slug)
        && Abstracts(statusManager.fold, statusManager.State(), slug,
             RequestWrites(statusManager.fold, statusManager.globalSlug, home,
               ServedBy(old(attachQueue), fates), slug))
    {
      hide AllWell, Depicts, SavedOn, CoherentAt, Abstracts, ViewDrain, RequestWrites;
      ghost var fold, global, all := statusManager.fold, statusManager.globalSlug, attachQueue;
      states := [statusManager.State()];
      for n := 0 to |fates|
        invariant attachQueue == all[n..] && |states| == n + 1
        invariant Valid() && fresh(statusManager.owner.Keys - old(statusManager.owner.Keys))
        invariant states[0] == old(statusManager.State()) && states[n] == statusManager.State()
        invariant forall k :: 0 <= k < n ==> DrainStep(fold, global, all[k], fates[k], states[k], states[k + 1])
      {
        hide Coordinator.Valid, DrainStep;
        ProcessNext(fates[n]);
        states := states + [statusManager.State()];
      }
      DrainFacts(fold, global, all, fates, states);
    }
  }

  /** One request leads from one store to the next. */
  ghost predicate DrainStep(fold: Fold, globalSlug: string, p: Payload, fates: map<string, Fate>, s: Store, t: Store) {
    PagesAttached(fold, s, p.id, Requested(globalSlug, p.labels), fates, t)
  }

  ghost predicate Drained(fold: Fold, globalSlug: string, requests: seq<Payload>, fates: seq<map<string, Fate>>,
      states: seq<Store>)
  {
    && |fates| == |requests| && |states| == |requests| + 1
    && forall k :: 0 <= k < |requests| ==>
         DrainStep(fold, globalSlug, requests[k], fates[k], states[k], states[k + 1])
  }

  /** No save of an attach to this page fails. */
  ghost predicate SavedOn(fates: seq<map<string, Fate>>, slug: string) {
    forall k :: 0 <= k < |fates| ==> FateOf(fates[k], slug) != SaveFails
  }

  /** A request the drain loop has dealt with, and the pages of it that were not attached. */
  datatype Served = Served(payload: Payload, missed: set<string>)

  function Missed(fates: map<string, Fate>): set<string> {
    set slug | slug in fates && fates[slug] != Done
  }

  function ServedBy(requests: seq<Payload>, fates: seq<map<string, Fate>>): (served: seq<Served>)
    requires |fates| == |requests|
    ensures |served| == |requests|
    ensures forall k :: 0 <= k < |requests| ==> served[k] == Served(requests[k], Missed(fates[k]))
  {
    seq(|requests|, k requires 0 <= k < |requests| => Served(requests[k], Missed(fates[k])))
  }

  /** Last writer wins over whole requests, for one page. */
  function RequestWrites(fold: Fold, globalSlug: string, home: Arrivals, served: seq<Served>, slug: string): Arrivals {
    if served == [] then home
    else
      var last := served[|served| - 1];
      var earlier := RequestWrites(fold, globalSlug, home, served[..|served| - 1], slug);
      WriteOf(fold, globalSlug, earlier, last, slug)
  }

  function WriteOf(fold: Fold, globalSlug: string, home: Arrivals, s: Served, slug: string): Arrivals {
    var pages := Requested(globalSlug, s.payload.labels);
    if slug in pages && slug !in s.missed then Moved(home, s.payload.id, fold(pages[slug])) else home
  }

  /** What one request does to the two views of a page. */
  function ViewRequest(fold: Fold, globalSlug: string, v: PageView, p: Payload, fates: map<string, Fate>, slug: string)
    : PageView
  {
    var pages := Requested(globalSlug, p.labels);
    if slug in pages then ViewAttach(v, p.id, fold(pages[slug]), FateOf(fates, slug)) else v
  }

  function ViewDrain(fold: Fold, globalSlug: string, v: PageView, requests: seq<Payload>,
      fates: seq<map<string, Fate>>, slug: string): PageView
    requires |fates| == |requests|
  {
    if requests == [] then v
    else
      var n := |requests| - 1;
      ViewRequest(fold, globalSlug, ViewDrain(fold, globalSlug, v, requests[..n], fates[..n], slug),
        requests[n], fates[n], slug)
  }

  /** One payload on several pages does to each page what its attach does, whatever fails. */
  lemma AttachedDepicts(fold: Fold, globalSlug: string, s: Store, p: Payload, fates: map<string, Fate>, t: Store,
      slug: string, v: PageView)
    requires DrainStep(fold, globalSlug, p, fates, s, t) && Depicts(fold, s, slug, v)
    ensures Depicts(fold, t, slug, ViewRequest(fold, globalSlug, v, p, fates, slug))
  {
    hide AttachFate, ViewAttach, Depicts, Requested, SamePage;
    var pages := Requested(globalSlug, p.labels);
    assert PageAttached(fold, s, p.id, pages, fates, t, slug);
    if slug in pages {
      AttachDepicts(fold, s, slug, p.id, pages[slug], FateOf(fates, slug), v);
      SameDepicted(fold, AttachFate(fold, s, slug, p.id, pages[slug], FateOf(fates, slug)), t, slug,
        ViewRequest(fold, globalSlug, v, p, fates, slug));
    } else {
      SameDepicted(fold, s, t, slug, v);
    }
  }

  lemma AttachedStaysCoherent(fold: Fold, s: Store, id: int, pages: map<string, string>, fates: map<string, Fate>,
      t: Store, slug: string)
    requires CoherentAt(s, slug) && PagesAttached(fold, s, id, pages, fates, t) && FateOf(fates, slug) != SaveFails
    ensures CoherentAt(t, slug)
  {
    hide AttachFate;
    assert PageAttached(fold, s, id, pages, fates, t, slug);
    if slug in pages {
      StepKeepsCoherence(fold, s, AttachEvent(slug, id, pages[slug], FateOf(fates, slug)), slug);
    }
  }

  lemma AttachedRefines(fold: Fold, s: Store, id: int, pages: map<string, string>, fates: map<string, Fate>, t: Store,
      slug: string, home: Arrivals)
    requires CoherentAt(s, slug) && Abstracts(fold, s, slug, home)
    requires PagesAttached(fold, s, id, pages, fates, t) && FateOf(fates, slug) != SaveFails
    ensures Abstracts(fold, t, slug,
              if slug in pages && slug !in Missed(fates) then Moved(home, id, fold(pages[slug])) else home)
  {
    hide AttachFate, WellFormed, StandsFor, Moved;
    assert PageAttached(fold, s, id, pages, fates, t, slug);
    if slug in pages {
      StepRefines(fold, s, AttachEvent(slug, id, pages[slug], FateOf(fates, slug)), slug, home);
    }
  }

  /** Whatever fails, a whole drain does to each page what its requests do to the two views. */
  lemma {:induction false} DrainDepicts(fold: Fold, globalSlug: string, requests: seq<Payload>,
      fates: seq<map<string, Fate>>, states: seq<Store>, slug: string, v: PageView)
    requires Drained(fold, globalSlug, requests, fates, states) && Depicts(fold, states[0], slug, v)
    ensures Depicts(fold, states[|requests|], slug, ViewDrain(fold, globalSlug, v, requests, fates, slug))
  {
    hide Depicts, DrainStep, ViewRequest;
    if requests != [] {
      var n := |requests| - 1;
      assert DrainStep(fold, globalSlug, requests[n], fates[n], states[n], states[n + 1]);
      DrainDepicts(fold, globalSlug, requests[..n], fates[..n], states[..n + 1], slug, v);
      AttachedDepicts(fold, globalSlug, states[n], requests[n], fates[n], states[n + 1], slug,
        ViewDrain(fold, globalSlug, v, requests[..n], fates[..n], slug));
    }
  }

  /** A whole drain without failing saves on this page, whatever fails on others, refines last writer wins over the
      requests that got through to it. */
  lemma {:induction false} DrainRefines(fold: Fold, globalSlug: string, requests: seq<Payload>,
      fates: seq<map<string, Fate>>, states: seq<Store>, slug: string, home: Arrivals)
    requires Drained(fold, globalSlug, requests, fates, states) && SavedOn(fates, slug)
    requires CoherentAt(states[0], slug) && Abstracts(fold, states[0], slug, home)
    ensures CoherentAt(states[|requests|], slug)
    ensures Abstracts(fold, states[|requests|], slug,
              RequestWrites(fold, globalSlug, home, ServedBy(requests, fates), slug))
  {
    hide CoherentAt, Abstracts, PagesAttached, Requested, Moved;
    if requests != [] {
      var n := |requests| - 1;
      var last, earlier := requests[n], ServedBy(requests[..n], fates[..n]);
      assert DrainStep(fold, globalSlug, last, fates[n], states[n], states[n + 1]);
      DrainRefines(fold, globalSlug, requests[..n], fates[..n], states[..n + 1], slug, home);
      var pages := Requested(globalSlug, last.labels);
      AttachedStaysCoherent(fold, states[n], last.id, pages, fates[n], states[n + 1], slug);
      AttachedRefines(fold, states[n], last.id, pages, fates[n], states[n + 1], slug,
        RequestWrites(fold, globalSlug, home, earlier, slug));
      assert ServedBy(requests, fates)[..n] == earlier;
    }
  }

  lemma DrainFacts(fold: Fold, globalSlug: string, requests: seq<Payload>, fates: seq<map<string, Fate>>,
      states: seq<Store>)
    requires Drained(fold, globalSlug, requests, fates, states)
    ensures var last := states[|requests|];
      && (AllWell(fold, states[0]) ==> AllWell(fold, last))
      && (forall slug, v :: Depicts(fold, states[0], slug, v) ==>
            Depicts(fold, last, slug, ViewDrain(fold, globalSlug, v, requests, fates, slug)))
      && (forall slug, home ::
            SavedOn(fates, slug) && CoherentAt(states[0], slug) && Abstracts(fold, states[0], slug, home) ==>
                CoherentAt(last, slug)
                && Abstracts(fold, last, slug, RequestWrites(fold, globalSlug, home, ServedBy(requests, fates), slug)))
  {
    hide Depicts, CoherentAt, Abstracts, DrainStep, RequestWrites, ViewDrain, SavedOn, AllWell;
    var last := states[|requests|];
    forall slug, v | Depicts(fold, states[0], slug, v)
      ensures Depicts(fold, last, slug, ViewDrain(fold, globalSlug, v, requests, fates, slug))
    {
      DrainDepicts(fold, globalSlug, requests, fates, states, slug, v);
    }
    forall slug, home | SavedOn(fates, slug) && CoherentAt(states[0], slug) && Abstracts(fold, states[0], slug, home)
      ensures CoherentAt(last, slug)
      ensures Abstracts(fold, last, slug, RequestWrites(fold, globalSlug, home, ServedBy(requests, fates), slug))
    {
      DrainRefines(fold, globalSlug, requests, fates, states, slug, home);
    }
    if AllWell(fold, states[0]) {
      forall slug ensures Depictable(fold, last, slug) {
        var v := CanDepict(fold, states[0], slug);
        assert Depicts(fold, last, slug, ViewDrain(fold, globalSlug, v, requests, fates, slug));
      }
      DepictedIsWell(fold, last);
    }
  }
}
