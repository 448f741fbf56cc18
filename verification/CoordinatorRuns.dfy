/** Every interleaving of producers, the drain loop and domain bindings around one coordinator on the server node.
    Attaching one page and binding one domain are atomic; any call may fail. */
module CoordinatorRuns {
  import opened PageLayout
  import opened PageStore
  import opened PageViews
  import opened StatusPages
  import opened Coordinator

  /** The request the drain loop is working on, with the pages it has not come to yet and those it had to leave. */
  datatype Hand = Free | Busy(payload: Payload, todo: set<string>, missed: set<string>)

  /** `accepted`, `processed` and `log` record the run so far. */
  datatype System = System(
    queue: seq<Payload>, hand: Hand, store: Store,
    accepted: seq<Payload>, processed: seq<Served>, log: seq<Event>)

  datatype Config = Config(fold: Fold, globalSlug: string)

  datatype Step =
    | Accept(payload: Payload)
    | Take
    | AttachPage(slug: string, fate: Fate)
    | Finish
    | Bind(page: string, host: string, outcome: Fate)

  function Pages(c: Config, p: Payload): map<string, string> {
    Requested(c.globalSlug, p.labels)
  }

  predicate Enabled(c: Config, s: System, step: Step) {
    match step
    case Accept(_) => |s.queue| < CAPACITY
    case Take => s.hand.Free? && s.queue != []
    case AttachPage(slug, _) => s.hand.Busy? && slug in s.hand.todo && slug in Pages(c, s.hand.payload)
    case Finish => s.hand.Busy? && s.hand.todo == {}
    case Bind(_, _, _) => true
  }

  function Do(c: Config, s: System, step: Step): System
    requires Enabled(c, s, step)
  {
    match step
    case Accept(p) => s.(queue := s.queue + [p], accepted := s.accepted + [p])
    case Take => s.(queue := s.queue[1..], hand := Busy(s.queue[0], Pages(c, s.queue[0]).Keys, {}))
    case AttachPage(slug, fate) =>
      var e := AttachEvent(slug, s.hand.payload.id, Pages(c, s.hand.payload)[slug], fate);
      var missed := if fate.Done? then s.hand.missed else s.hand.missed + {slug};
      s.(hand := Busy(s.hand.payload, s.hand.todo - {slug}, missed),
        store := Apply(c.fold, s.store, e), log := s.log + [e])
    case Finish => s.(hand := Free, processed := s.processed + [Served(s.hand.payload, s.hand.missed)])
    case Bind(page, host, outcome) =>
      var e := BindEvent(page, host, outcome);
      s.(store := Apply(c.fold, s.store, e), log := s.log + [e])
  }

  ghost predicate Init(s: System, start: Store) {
    s == System([], Free, start, [], [], [])
  }

  ghost predicate Behaviour(c: Config, start: Store, run: seq<System>, steps: seq<Step>) {
    && |run| == |steps| + 1
    && Init(run[0], start)
    && forall i :: 0 <= i < |steps| ==> Enabled(c, run[i], steps[i]) && run[i + 1] == Do(c, run[i], steps[i])
  }

  function Payloads(served: seq<Served>): (payloads: seq<Payload>)
    ensures |payloads| == |served| && forall i :: 0 <= i < |served| ==> payloads[i] == served[i].payload
  {
    seq(|served|, i requires 0 <= i < |served| => served[i].payload)
  }

  function InHand(s: System): seq<Payload> {
    if s.hand.Busy? then [s.hand.payload] else []
  }

  /** The requests a page has seen: those processed, and the one in hand once it got to this page. */
  function ReachedBy(s: System, slug: string): seq<Served> {
    if s.hand.Busy? && slug !in s.hand.todo then s.processed + [Served(s.hand.payload, s.hand.missed)] else s.processed
  }

  ghost predicate Inv(c: Config, start: Store, s: System) {
    && s.accepted == Payloads(s.processed) + InHand(s) + s.queue
    && |s.queue| <= CAPACITY
    && (s.hand.Busy? ==> s.hand.todo <= Pages(c, s.hand.payload).Keys && s.hand.missed !! s.hand.todo)
    && s.store == Run(c.fold, start, s.log)
    && forall slug, home :: LogMatches(c, s, slug, home)
  }

  ghost predicate LogMatches(c: Config, s: System, slug: string, home: Arrivals) {
    LastWrites(c.fold, home, s.log, slug) == RequestWrites(c.fold, c.globalSlug, home, ReachedBy(s, slug), slug)
  }

  lemma LogGrows(c: Config, home: Arrivals, log: seq<Event>, e: Event, slug: string)
    ensures LastWrites(c.fold, home, log + [e], slug) ==
      var earlier := LastWrites(c.fold, home, log, slug);
      if Attaches(e, slug) then Moved(earlier, e.id, c.fold(e.name)) else earlier
  {
  }

  lemma RequestsGrow(c: Config, home: Arrivals, served: seq<Served>, s: Served, slug: string)
    ensures RequestWrites(c.fold, c.globalSlug, home, served + [s], slug) ==
      WriteOf(c.fold, c.globalSlug, RequestWrites(c.fold, c.globalSlug, home, served, slug), s, slug)
  {
  }

  lemma StepKeepsLog(c: Config, s: System, step: Step, slug: string, home: Arrivals)
    requires Enabled(c, s, step) && LogMatches(c, s, slug, home)
    requires s.hand.Busy? ==> s.hand.todo <= Pages(c, s.hand.payload).Keys && s.hand.missed !! s.hand.todo
    ensures LogMatches(c, Do(c, s, step), slug, home)
  {
    hide Apply, Requested, Run, LastWrites, RequestWrites, Moved;
    var t := Do(c, s, step);
    match step
    case Accept(_) =>
    case Take => RequestsGrow(c, home, s.processed, Served(s.queue[0], {}), slug);
    case AttachPage(at, fate) =>
      LogGrows(c, home, s.log, AttachEvent(at, s.hand.payload.id, Pages(c, s.hand.payload)[at], fate), slug);
      RequestsGrow(c, home, s.processed, Served(s.hand.payload, s.hand.missed), slug);
      RequestsGrow(c, home, s.processed, Served(s.hand.payload, t.hand.missed), slug);
    case Finish =>
    case Bind(page, host, outcome) => LogGrows(c, home, s.log, BindEvent(page, host, outcome), slug);
  }

  lemma StepKeepsInv(c: Config, start: Store, s: System, step: Step)
    requires Inv(c, start, s) && Enabled(c, s, step)
    ensures Inv(c, start, Do(c, s, step))
  {
    hide Apply, Requested, LogMatches, Run, LastWrites, RequestWrites;
    var t := Do(c, s, step);
    forall slug, home ensures LogMatches(c, t, slug, home) {
      StepKeepsLog(c, s, step, slug, home);
    }
    if t.log != s.log {
      assert t.log[..|s.log|] == s.log;
      RunLast(c.fold, start, t.log);
    }
    if step.Finish? {
      assert Payloads(t.processed) == Payloads(s.processed) + [s.hand.payload];
    }
  }

  lemma {:induction false} AlwaysInv(c: Config, start: Store, run: seq<System>, steps: seq<Step>, k: nat)
    requires Behaviour(c, start, run, steps) && k < |run|
    ensures Inv(c, start, run[k])
  {
    if k == 0 {
      forall slug, home ensures LogMatches(c, run[0], slug, home) {
      }
    } else {
      AlwaysInv(c, start, run, steps, k - 1);
      StepKeepsInv(c, start, run[k - 1], steps[k - 1]);
    }
  }

  /** At every moment of every run the accepted requests are, in order, those processed, then the one in hand, then the
      queue, and the queue holds at most a hundred. So each request is processed at most once, in the order of
      acceptance, one at a time. */
  lemma QueueIsFair(c: Config, start: Store, run: seq<System>, steps: seq<Step>, k: nat)
    requires Behaviour(c, start, run, steps) && k < |run|
    ensures var s := run[k];
      && s.accepted == Payloads(s.processed) + (if s.hand.Busy? then [s.hand.payload] else []) + s.queue
      && |s.queue| <= 100
  {
    AlwaysInv(c, start, run, steps, k);
  }

  /** History only grows: what has been accepted or processed stays so, in the same place. */
  lemma {:induction false} HistoryGrows(c: Config, start: Store, run: seq<System>, steps: seq<Step>, k: nat, l: nat)
    requires Behaviour(c, start, run, steps) && k <= l < |run|
    ensures run[k].accepted <= run[l].accepted && run[k].processed <= run[l].processed
  {
    if k < l {
      HistoryGrows(c, start, run, steps, k, l - 1);
    }
  }

  /** No save of an attach to this page fails. */
  ghost predicate SavesSucceed(steps: seq<Step>, slug: string) {
    forall i :: 0 <= i < |steps| && steps[i].AttachPage? && steps[i].slug == slug ==> steps[i].fate != SaveFails
  }

  lemma {:induction false} LogIsSaved(c: Config, start: Store, run: seq<System>, steps: seq<Step>, k: nat, slug: string)
    requires Behaviour(c, start, run, steps) && k < |run| && SavesSucceed(steps, slug)
    ensures forall e <- run[k].log :: SavedAt(e, slug)
  {
    if k > 0 {
      LogIsSaved(c, start, run, steps, k - 1, slug);
    }
  }

  /** At every moment of every run in which no save of an attach to this page fails, whatever else fails, with binds
      interleaved anywhere, the page and its cache entry agree, and the page is well-formed and lists, in order of
      arrival, what the requests that got through to it have put there: the last request for a monitor wins. */
  lemma PagesFollowRequests(c: Config, start: Store, run: seq<System>, steps: seq<Step>, k: nat,
      slug: string, home: Arrivals)
    requires Behaviour(c, start, run, steps) && k < |run| && SavesSucceed(steps, slug)
    requires CoherentAt(start, slug) && Abstracts(c.fold, start, slug, home)
    ensures CoherentAt(run[k].store, slug)
    ensures Abstracts(c.fold, run[k].store, slug,
              RequestWrites(c.fold, c.globalSlug, home, ReachedBy(run[k], slug), slug))
  {
    hide RequestWrites, LastWrites;
    AlwaysInv(c, start, run, steps, k);
    LogIsSaved(c, start, run, steps, k, slug);
    RunRefinesLastWrites(c.fold, start, run[k].log, slug, home);
    assert LogMatches(c, run[k], slug, home);
  }

  /** At every such moment each group of the page lists its monitors in the order of the attaches that brought them. */
  lemma GroupsListArrivals(c: Config, start: Store, run: seq<System>, steps: seq<Step>, k: nat, slug: string,
      home: Arrivals, i: nat, x: nat, y: nat)
    requires Behaviour(c, start, run, steps) && k < |run| && SavesSucceed(steps, slug)
    requires CoherentAt(start, slug) && Abstracts(c.fold, start, slug, home)
    requires slug in run[k].store.remote && i < |run[k].store.remote[slug].groups|
    requires x < y < |run[k].store.remote[slug].groups[i].monitors|
    ensures var group := run[k].store.remote[slug].groups[i];
      var a, b := group.monitors[x], group.monitors[y];
      var m, n := Came(c.fold, home, run[k].log, slug, a), Came(c.fold, home, run[k].log, slug, b);
      m < n || (m == n == -1 && Before(home, Arrival(a, c.fold(group.name)), Arrival(b, c.fold(group.name))))
  {
    hide Abstracts, Came, Before, Run, LogMatches;
    AlwaysInv(c, start, run, steps, k);
    LogIsSaved(c, start, run, steps, k, slug);
    ListedByArrival(c.fold, start, run[k].log, slug, home, i, x, y);
  }

  /** At every moment of every run, whatever fails, every page and its cache entry show what the steps so far do to
      its two views, and every page and every cached list of groups is well-formed. */
  lemma PagesStayWell(c: Config, start: Store, run: seq<System>, steps: seq<Step>, k: nat, slug: string, p: PageView)
    requires Behaviour(c, start, run, steps) && k < |run|
    ensures Depicts(c.fold, start, slug, p) ==>
      Depicts(c.fold, run[k].store, slug, ViewRun(c.fold, p, slug, run[k].log))
    ensures AllWell(c.fold, start) ==> AllWell(c.fold, run[k].store)
  {
    hide Depicts, AllWell, ViewRun;
    AlwaysInv(c, start, run, steps, k);
    if Depicts(c.fold, start, slug, p) {
      RunDepicts(c.fold, start, run[k].log, slug, p);
    }
    if AllWell(c.fold, start) {
      RunKeepsWell(c.fold, start, run[k].log);
    }
  }

  // ---------- the coordinator object takes these steps ----------

  ghost predicate Reaches(c: Config, s: System, steps: seq<Step>, t: System)
    decreases |steps|
  {
    if steps == [] then s == t
    else Enabled(c, s, steps[0]) && Reaches(c, Do(c, s, steps[0]), steps[1..], t)
  }

  lemma {:induction false} ReachesJoin(c: Config, s: System, a: seq<Step>, t: System, b: seq<Step>, u: System)
    requires Reaches(c, s, a, t) && Reaches(c, t, b, u)
    ensures Reaches(c, s, a + b, u)
    decreases |a|
  {
    hide Do, Enabled;
    if a == [] {
      assert a + b == b;
    } else {
      ReachesJoin(c, Do(c, s, a[0]), a[1..], t, b, u);
      assert (a + b)[1..] == a[1..] + b;
    }
  }

  lemma OneStep(c: Config, s: System, step: Step)
    requires Enabled(c, s, step)
    ensures Reaches(c, s, [step], Do(c, s, step))
  {
  }

  /** Attaching the request in hand to some of its pages, one after the other. */
  lemma {:induction false} AttachPages(c: Config, s: System, order: seq<string>, fates: map<string, Fate>)
    returns (steps: seq<Step>, t: System)
    requires s.hand.Busy? && NoRepeat(order) && forall slug <- order :: slug in s.hand.todo
    requires s.hand.todo <= Pages(c, s.hand.payload).Keys
    ensures Reaches(c, s, steps, t)
    ensures var p := s.hand.payload;
      && t.hand.Busy? && t.hand.payload == p && t.hand.todo == s.hand.todo - (set slug | slug in order)
      && t.store == Run(c.fold, s.store, AttachEvents(order, p.id, Pages(c, p), fates))
      && t.queue == s.queue && t.accepted == s.accepted && t.processed == s.processed
  {
    hide Apply, Requested, Run;
    var p := s.hand.payload;
    if order == [] {
      steps, t := [], s;
      RunNone(c.fold, s.store);
    } else {
      var n := |order| - 1;
      var before, mid := AttachPages(c, s, order[..n], fates);
      var step, events := AttachPage(order[n], FateOf(fates, order[n])), AttachEvents(order, p.id, Pages(c, p), fates);
      assert order == order[..n] + [order[n]] && order[n] in order;
      assert (set slug | slug in order) == (set slug | slug in order[..n]) + {order[n]};
      t := Do(c, mid, step);
      steps := before + [step];
      OneStep(c, mid, step);
      ReachesJoin(c, s, before, mid, [step], t);
      RunLast(c.fold, s.store, events);
      assert events[..n] == AttachEvents(order[..n], p.id, Pages(c, p), fates);
    }
  }

  lemma {:induction false} InSomeOrder(slugs: set<string>) returns (order: seq<string>)
    ensures NoRepeat(order) && forall slug :: slug in order <==> slug in slugs
    decreases |slugs|
  {
    if slugs == {} {
      order := [];
    } else {
      var slug :| slug in slugs;
      var rest := InSomeOrder(slugs - {slug});
      order := rest + [slug];
    }
  }

  /** One round of the coordinator's drain loop is a run: take a request, attach it to its pages, finish. */
  lemma RoundIsRun(c: Config, s: System, fates: map<string, Fate>, store: Store) returns (steps: seq<Step>, t: System)
    requires s.hand.Free? && s.queue != [] && DrainStep(c.fold, c.globalSlug, s.queue[0], fates, s.store, store)
    ensures Reaches(c, s, steps, t)
    ensures t.hand.Free? && t.queue == s.queue[1..] && t.store == store && t.accepted == s.accepted
    ensures Payloads(t.processed) == Payloads(s.processed) + [s.queue[0]]
  {
    hide Requested, PagesAttached, Run, Reaches;
    var p := s.queue[0];
    var taken := Do(c, s, Take);
    OneStep(c, s, Take);
    var order := InSomeOrder(Pages(c, p).Keys);
    var attaches, mid := AttachPages(c, taken, order, fates);
    OrderedRun(c.fold, s.store, p.id, Pages(c, p), fates, order, store);
    assert (set slug | slug in order) == Pages(c, p).Keys;
    assert mid.hand.todo == {};
    t := Do(c, mid, Finish);
    OneStep(c, mid, Finish);
    ReachesJoin(c, s, [Take], taken, attaches, mid);
    ReachesJoin(c, s, [Take] + attaches, mid, [Finish], t);
    steps := [Take] + attaches + [Finish];
  }

  /** Whatever `Coordinator.ProcessQueue` does is such a run, from the queue it found to the empty queue. */
  lemma {:induction false} DrainIsRun(c: Config, s: System, fates: seq<map<string, Fate>>, states: seq<Store>)
    returns (steps: seq<Step>, t: System)
    requires s.hand.Free? && Drained(c.fold, c.globalSlug, s.queue, fates, states) && states[0] == s.store
    ensures Reaches(c, s, steps, t)
    ensures t.hand.Free? && t.queue == [] && t.store == states[|fates|] && t.accepted == s.accepted
    ensures Payloads(t.processed) == Payloads(s.processed) + s.queue
    decreases |s.queue|
  {
    hide DrainStep, Enabled, Do;
    if s.queue == [] {
      steps, t := [], s;
    } else {
      assert DrainStep(c.fold, c.globalSlug, s.queue[0], fates[0], states[0], states[1]);
      var first, mid := RoundIsRun(c, s, fates[0], states[1]);
      var rest;
      rest, t := DrainIsRun(c, mid, fates[1..], states[1..]);
      ReachesJoin(c, s, first, mid, rest, t);
      steps := first + rest;
      assert Payloads(s.processed) + [s.queue[0]] + s.queue[1..] == Payloads(s.processed) + s.queue;
    }
  }
}
