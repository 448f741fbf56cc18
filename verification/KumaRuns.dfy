/** Every interleaving of the Uptime Kuma client's caller thread with its background connection attempts, and with
    restarts of the companion. Critical sections, remote calls and single routers are the atomic steps. */
module KumaRuns {
  import opened Text
  import opened KumaMonitors

  /** Where the caller thread is. `next` holds the routers of the cycle that a sync is part of, if any. */
  datatype Phase =
    | Idle
    | Checked(desired: seq<Desired>)
    | Syncing(next: Option<seq<Desired>>)
    | Learning(next: Option<seq<Desired>>, snapshot: seq<Monitor>, n: nat)
    | Working(todo: seq<Desired>)

  /** `client` and `managers` hold the number of the connection they were made for. `inFlight`, `connections` and
      `syncedFor` record what the program itself does not: how many background attempts there are, how many
      connections there have been, and which of them was synced last. */
  datatype System = System(
    client: Option<nat>, managers: Option<nat>, connecting: bool, synced: bool, phase: Phase, cycle: Cycle,
    inFlight: nat, connections: nat, syncedFor: Option<nat>)

  datatype Step =
    | CallSync
    | CallProcess(desired: seq<Desired>)
    | ReadSynced
    | Fetch(ok: bool)
    | LearnNext
    | MarkSynced
    | Work(reply: Option<int>)
    | Finish
    | Connected(ok: bool)
    | Restart

  predicate Enabled(s: System, step: Step) {
    match step
    case CallSync => s.phase.Idle?
    case CallProcess(_) => s.phase.Idle?
    case ReadSynced => s.phase.Checked?
    case Fetch(_) => s.phase.Syncing?
    case LearnNext => s.phase.Learning? && s.phase.n < |s.phase.snapshot|
    case MarkSynced => s.phase.Learning? && s.phase.n == |s.phase.snapshot|
    case Work(_) => s.phase.Working? && s.phase.todo != []
    case Finish => s.phase.Working? && s.phase.todo == []
    case Connected(_) => s.inFlight > 0
    case Restart => true
  }

  /** `ensureConnected`, and on success the caller's next phase. */
  function Ensure(s: System, next: Phase): System {
    if s.client.Some? then s.(phase := next)
    else if s.connecting then s
    else s.(connecting := true, inFlight := s.inFlight + 1)
  }

  function Reset(s: System): System {
    s.(client := None, managers := None, synced := false, phase := Idle)
  }

  function StartCycle(s: System, desired: seq<Desired>): System {
    s.(phase := Working(desired), cycle := s.cycle.(cycleURLs := map[]))
  }

  /** The companion just after it was started, with its first connection attempt under way. */
  function Started(cycle: Cycle, connections: nat): System {
    System(None, None, true, false, Idle, cycle.(memory := EMPTY_MEMORY, cycleURLs := map[]), 1, connections, None)
  }

  function Do(s: System, step: Step): System
    requires Enabled(s, step)
  {
    match step
    case CallSync => Ensure(s, Syncing(None))
    case CallProcess(desired) => Ensure(s, Checked(desired))
    case ReadSynced =>
      if s.synced then StartCycle(s, s.phase.desired) else s.(phase := Syncing(Some(s.phase.desired)))
    case Fetch(ok) => if ok then s.(phase := Learning(s.phase.next, s.cycle.remote, 0)) else Reset(s)
    case LearnNext =>
      s.(cycle := s.cycle.(memory := Learn(s.cycle.memory, s.phase.snapshot[s.phase.n])),
        phase := s.phase.(n := s.phase.n + 1))
    case MarkSynced =>
      var t := s.(synced := true, syncedFor := s.client);
      if s.phase.next.None? then t.(phase := Idle) else StartCycle(t, s.phase.next.value)
    case Work(reply) =>
      s.(cycle := Visit(s.cycle, s.phase.todo[0], reply), phase := Working(s.phase.todo[1..]))
    case Finish => s.(phase := Idle)
    case Connected(ok) =>
      var t := s.(connecting := false, inFlight := s.inFlight - 1);
      if ok then
        t.(client := Some(s.connections), managers := Some(s.connections), synced := false,
          connections := s.connections + 1)
      else t
    case Restart => Started(s.cycle, s.connections)
  }

  ghost predicate Init(s: System) {
    s == Started(Cycle(EMPTY_MEMORY, map[], s.cycle.remote, [], [], []), 0)
  }

  ghost predicate Behaviour(run: seq<System>, steps: seq<Step>) {
    && |run| == |steps| + 1
    && Init(run[0])
    && forall i :: 0 <= i < |steps| ==> Enabled(run[i], steps[i]) && run[i + 1] == Do(run[i], steps[i])
  }

  ghost predicate Linked(s: System) {
    && s.inFlight == (if s.connecting then 1 else 0)
    && (s.connecting ==> s.client.None?)
    && s.managers == s.client
    && (s.synced ==> s.client.Some? && s.syncedFor == s.client)
    && (!s.phase.Idle? ==> s.client.Some?)
    && (s.phase.Working? ==> s.synced)
  }

  ghost predicate Remembers(s: System) {
    && Sound(s.cycle)
    && (s.synced ==> Knows(s.cycle))
    && (s.phase.Learning? ==>
          && s.phase.snapshot == s.cycle.remote && s.phase.n <= |s.phase.snapshot|
          && KeysOf(s.phase.snapshot[..s.phase.n]) <= s.cycle.memory.trackedURLs.Keys)
  }

  lemma StepKeepsLinked(s: System, step: Step)
    requires Linked(s) && Enabled(s, step)
    ensures Linked(Do(s, step))
    ensures !s.phase.Idle? && !Do(s, step).phase.Idle? ==> Do(s, step).client == s.client
  {
  }

  lemma WorkKeepsRemembers(s: System, reply: Option<int>)
    requires Linked(s) && Remembers(s) && Enabled(s, Work(reply))
    ensures Remembers(Do(s, Work(reply)))
  {
    hide MapsNested, IdsTrue, CreatedOnce, Knows, Visit;
    VisitKeepsMaps(s.cycle, s.phase.todo[0], reply);
    VisitCreatesOnce(s.cycle, s.phase.todo[0], reply);
  }

  lemma LearnKeepsRemembers(s: System)
    requires Remembers(s) && Enabled(s, LearnNext)
    ensures Remembers(Do(s, LearnNext))
  {
    hide MapsNested, IdsTrue, CreatedOnce, KeysOf;
    var m, n := s.phase.snapshot[s.phase.n], s.phase.n;
    LearnKeepsSound(s.cycle, m);
    KeysOfAppend(s.phase.snapshot[..n], m);
    assert s.phase.snapshot[..n + 1] == s.phase.snapshot[..n] + [m];
  }

  lemma ForgettingKeepsSound(c: Cycle)
    requires Sound(c)
    ensures Sound(c.(cycleURLs := map[])) && Sound(c.(memory := EMPTY_MEMORY, cycleURLs := map[]))
  {
  }

  lemma StepKeepsRemembers(s: System, step: Step)
    requires Linked(s) && Remembers(s) && Enabled(s, step)
    ensures Remembers(Do(s, step))
  {
    hide Sound, Visit, Learn;
    match step
    case Work(reply) => WorkKeepsRemembers(s, reply);
    case LearnNext => LearnKeepsRemembers(s);
    case MarkSynced =>
      assert s.phase.snapshot[..s.phase.n] == s.cycle.remote;
      ForgettingKeepsSound(s.cycle);
    case _ => ForgettingKeepsSound(s.cycle);
  }

  lemma {:induction false} AlwaysInv(run: seq<System>, steps: seq<Step>, k: nat)
    requires Behaviour(run, steps) && k < |run|
    ensures Linked(run[k]) && Remembers(run[k])
  {
    if k > 0 {
      hide Remembers, Do;
      AlwaysInv(run, steps, k - 1);
      StepKeepsLinked(run[k - 1], steps[k - 1]);
      StepKeepsRemembers(run[k - 1], steps[k - 1]);
    }
  }

  /** At every moment of every run: there is at most one connection attempt, exactly while `connecting` holds, and then
      there is no client; client and managers belong to one connection; `synced` holds only for the present client; and
      the caller never finds the client missing once `ensureConnected` has let it through. */
  lemma ConnectionSafety(run: seq<System>, steps: seq<Step>, k: nat)
    requires Behaviour(run, steps) && k < |run|
    ensures var s := run[k];
      && s.inFlight <= 1 && (s.inFlight == 1 <==> s.connecting)
      && (s.connecting ==> s.client.None?)
      && s.managers == s.client
      && (s.synced ==> s.client.Some? && s.syncedFor == s.client)
      && (!s.phase.Idle? ==> s.client.Some?)
  {
    AlwaysInv(run, steps, k);
  }

  /** A call works on one connection from beginning to end, whatever the background does meanwhile. */
  lemma OneConnectionPerCall(run: seq<System>, steps: seq<Step>, k: nat)
    requires Behaviour(run, steps) && k < |steps|
    ensures !run[k].phase.Idle? && !run[k + 1].phase.Idle? ==>
      run[k + 1].client == run[k].client && run[k + 1].managers == run[k].managers
  {
    AlwaysInv(run, steps, k);
    StepKeepsLinked(run[k], steps[k]);
  }

  /** A create call goes out exactly for a router whose key Uptime Kuma does not have (or the last sync did not show,
      where duplicates are allowed), and only on a connection that has been synced. */
  lemma CreatesExactlyTheMissing(run: seq<System>, steps: seq<Step>, k: nat)
    requires Behaviour(run, steps) && k < |steps|
    ensures var s, t := run[k], run[k + 1];
      if !steps[k].Work? then t.cycle.sent == s.cycle.sent && t.cycle.created == s.cycle.created
      else
        var d := s.phase.todo[0];
        var wanted := !Skipped(d) &&
          if d.allowDuplicates then KeyOf(d) !in s.cycle.memory.tracked else KeyOf(d) !in KeysOf(s.cycle.remote);
        && t.cycle.sent == (if wanted then s.cycle.sent + [d] else s.cycle.sent)
        && t.cycle.created == (if wanted && steps[k].reply.Some? then s.cycle.created + [d] else s.cycle.created)
        && s.client.Some? && s.synced && s.syncedFor == s.client
  {
    AlwaysInv(run, steps, k);
    if steps[k].Work? && !run[k].phase.todo[0].allowDuplicates {
      SentIffMissing(run[k].cycle, run[k].phase.todo[0], steps[k].reply);
    }
  }

  /** In every run, connected or reconnected in whatever way, a router that is worked on is handed on exactly if it
      has a URL and a monitor with an id other than 0 is found in the map that counts for it, or else is created;
      nothing else hands on anything. */
  lemma HandsOnExactly(run: seq<System>, steps: seq<Step>, k: nat)
    requires Behaviour(run, steps) && k < |steps|
    ensures var c, after := run[k].cycle, run[k + 1].cycle;
      if !steps[k].Work? then after.handed == c.handed
      else
        var d := run[k].phase.todo[0];
        var known := if d.allowDuplicates then c.memory.tracked else c.memory.trackedURLs;
        var id := if d.url + d.name in known then Some(known[d.url + d.name]) else steps[k].reply;
        after.handed == c.handed +
          if d.url == "" || d.url == "https://" || id.None? || id.value == 0 then [] else [Handed(id.value, d)]
  {
    hide Remembers, Linked, Visit, Learn;
    AlwaysInv(run, steps, k);
    NestedMaps(run[k]);
    if steps[k].Work? {
      VisitHandsOn(run[k].cycle, run[k].phase.todo[0], steps[k].reply);
    }
  }

  lemma NestedMaps(s: System)
    requires Remembers(s)
    ensures MapsNested(s.cycle) && IdsTrue(s.cycle)
  {
  }

  /** Over a whole run, restarts and reconnects included, no key is created twice without allow_duplicates, and every id
      handed on is that of a monitor with the router's key. */
  lemma NeverCreatedTwice(run: seq<System>, steps: seq<Step>, k: nat)
    requires Behaviour(run, steps) && k < |run|
    ensures var created := run[k].cycle.created;
      forall i, j :: 0 <= i < j < |created| && KeyOf(created[i]) == KeyOf(created[j]) ==> created[j].allowDuplicates
    ensures forall h <- run[k].cycle.handed :: Has(run[k].cycle.remote, h.id, KeyOf(h.desired))
  {
    AlwaysInv(run, steps, k);
  }

  /** `tracked` is always a submap of `trackedURLs`, duplicates or not, and the lookup in the cycle's own map never
      finds what `trackedURLs` missed. */
  lemma CycleMapNeverHelps(run: seq<System>, steps: seq<Step>, k: nat, d: Desired)
    requires Behaviour(run, steps) && k < |run|
    ensures var m := run[k].cycle.memory;
      forall key <- m.tracked :: key in m.trackedURLs && m.trackedURLs[key] == m.tracked[key]
    ensures !d.allowDuplicates ==> (Lookup(run[k].cycle, d).Some? <==> KeyOf(d) in run[k].cycle.memory.trackedURLs)
  {
    AlwaysInv(run, steps, k);
  }

  lemma {:induction false} RemoteGrows(run: seq<System>, steps: seq<Step>, k: nat, l: nat)
    requires Behaviour(run, steps) && k <= l < |run|
    ensures run[k].cycle.remote <= run[l].cycle.remote
  {
    if k < l {
      RemoteGrows(run, steps, k, l - 1);
    }
  }

  /** A cycle that starts at `k` and whose create calls all succeed until it is done at `l`. */
  ghost predicate FaultFree(run: seq<System>, steps: seq<Step>, k: nat, l: nat)
    requires |run| == |steps| + 1
  {
    && k <= l < |run| && run[k].phase.Working? && l == k + |run[k].phase.todo|
    && forall i :: k <= i < l ==> steps[i].Work? && steps[i].reply.Some?
  }

  function Replies(steps: seq<Step>, k: nat, n: nat): (replies: seq<Option<int>>)
    requires k + n <= |steps| && forall i :: k <= i < k + n ==> steps[i].Work?
    ensures |replies| == n && forall i :: 0 <= i < n ==> replies[i] == steps[k + i].reply
  {
    seq(n, i requires 0 <= i < n => steps[k + i].reply)
  }

  /** The steps of a cycle add up to visiting its routers in order. */
  lemma {:induction false} CycleIsVisitAll(run: seq<System>, steps: seq<Step>, k: nat, n: nat)
    requires Behaviour(run, steps) && k + n < |run| && run[k].phase.Working? && n <= |run[k].phase.todo|
    requires forall i :: k <= i < k + n ==> steps[i].Work?
    ensures run[k + n].phase == Working(run[k].phase.todo[n..])
    ensures run[k + n].cycle == VisitAll(run[k].cycle, run[k].phase.todo[..n], Replies(steps, k, n))
  {
    hide Visit;
    if n > 0 {
      var todo := run[k].phase.todo;
      CycleIsVisitAll(run, steps, k, n - 1);
      assert todo[..n][..n - 1] == todo[..n - 1];
      assert Replies(steps, k, n)[..n - 1] == Replies(steps, k, n - 1);
      assert steps[k + n - 1].Work?;
    }
  }

  /** At the end of a fault-free cycle every router that wants a monitor has one with its key, and has the very monitor
      it wants if and only if Uptime Kuma had it before or some router wanting it gets one created. */
  lemma FaultFreeCycleCovers(run: seq<System>, steps: seq<Step>, k: nat, l: nat, d: Desired)
    requires Behaviour(run, steps) && FaultFree(run, steps, k, l)
    ensures var desired := run[k].phase.todo;
      && Covered(run[l].cycle.remote, desired)
      && (Own(run[l].cycle.remote, d) <==>
            Own(run[k].cycle.remote, d) ||
            exists j :: 0 <= j < |desired| && SameMonitor(desired[j], d) && Creates(run[k].cycle, desired, j))
  {
    hide Visit, Sound, Knows, VisitAll, Own, Creates, SameMonitor, Covered;
    var desired, n := run[k].phase.todo, l - k;
    AlwaysInv(run, steps, k);
    CycleIsVisitAll(run, steps, k, n);
    assert desired[..n] == desired;
    FaultFreeCovers(run[k].cycle, desired, Replies(steps, k, n));
    FaultFreeOwns(run[k].cycle, desired, Replies(steps, k, n), d);
  }

  /** And every router of such a cycle that has a URL has been handed on, once and in order, with the id of a monitor
      that has its key. */
  lemma FaultFreeCycleHandsOn(run: seq<System>, steps: seq<Step>, k: nat, l: nat)
    requires Behaviour(run, steps) && FaultFree(run, steps, k, l)
    requires (forall m <- run[k].cycle.remote :: m.id != 0) && forall i :: k <= i < l ==> steps[i].reply != Some(0)
    ensures var before, after := run[k].cycle, run[l].cycle;
      && before.handed <= after.handed
      && Routers(after.handed) == Routers(before.handed) + WithUrl(run[k].phase.todo)
      && forall h <- after.handed :: exists m <- after.remote ::
           m.id == h.id && m.url + m.name == h.desired.url + h.desired.name
  {
    hide Visit, Sound, Knows, VisitAll, Linked, Remembers;
    var desired, n := run[k].phase.todo, l - k;
    AlwaysInv(run, steps, k);
    NestedMaps(run[k]);
    CycleIsVisitAll(run, steps, k, n);
    assert desired[..n] == desired;
    forall i | 0 <= i < n ensures Replies(steps, k, n)[i] != Some(0) {
      assert steps[k + i].Work?;
    }
    FaultFreeHandsOn(run[k].cycle, desired, Replies(steps, k, n));
  }

  /** A call that finds no client leaves an attempt under way, and the attempt alone brings a client back; a fetch that
      fails drops client and managers, so that the next call starts one. */
  lemma CallsReconnect(run: seq<System>, steps: seq<Step>, k: nat)
    requires Behaviour(run, steps) && k < |steps|
    ensures var s, t := run[k], run[k + 1];
      && (steps[k].CallSync? || steps[k].CallProcess? ==>
            if s.client.Some? then t.client == s.client && !t.phase.Idle? else t.phase.Idle? && t.inFlight == 1)
      && (steps[k] == Fetch(false) ==> t.client.None? && t.managers.None? && !t.synced && t.phase.Idle?)
      && (s.client.None? && t.client.Some? ==> steps[k] == Connected(true))
      && (steps[k] == Connected(true) ==>
            t.client.Some? && t.managers == t.client && !t.synced && !t.connecting && t.inFlight == 0)
      && (steps[k] == Connected(false) ==> t.client.None? && !t.connecting && t.inFlight == 0)
  {
    hide Remembers, Visit, Learn;
    AlwaysInv(run, steps, k);
  }

  /** A cycle that is preceded by a sync was not synced. */
  ghost predicate SyncDue(s: System) {
    (s.phase.Syncing? || s.phase.Learning?) && s.phase.next.Some? ==> !s.synced
  }

  /** A cycle fetches monitors only when the present connection has not been synced, and then before any router is
      worked on; otherwise it goes straight to its routers. */
  lemma {:induction false} SyncsWhenDue(run: seq<System>, steps: seq<Step>, k: nat)
    requires Behaviour(run, steps) && k < |run|
    ensures SyncDue(run[k])
    ensures k < |steps| && steps[k] == ReadSynced ==>
      run[k + 1].phase ==
      if run[k].synced then Working(run[k].phase.desired) else Syncing(Some(run[k].phase.desired))
  {
    if k > 0 {
      hide Remembers, Visit, Learn;
      SyncsWhenDue(run, steps, k - 1);
      AlwaysInv(run, steps, k - 1);
    }
  }

  /** From one router to the next a cycle goes on whatever comes of a create call, and it ends after its last router, or
      with a restart. */
  lemma CyclesGoOn(run: seq<System>, steps: seq<Step>, k: nat)
    requires Behaviour(run, steps) && k < |steps| && run[k].phase.Working?
    ensures var todo, next := run[k].phase.todo, run[k + 1].phase;
      if todo == [] then steps[k] == Finish || steps[k] == Restart
      else steps[k] == Restart || (steps[k].Work? && next == Working(todo[1..]))
  {
    hide Remembers, Visit, Learn;
    AlwaysInv(run, steps, k);
  }

  /** The steps of a sync add up to learning every monitor that the fetch has returned, in order. */
  lemma {:induction false} SyncIsLearnAll(run: seq<System>, steps: seq<Step>, k: nat, n: nat)
    requires Behaviour(run, steps) && k + 1 + n < |run| && run[k].phase.Syncing? && steps[k] == Fetch(true)
    requires n <= |run[k].cycle.remote| && forall i :: k < i <= k + n ==> steps[i] == LearnNext
    ensures run[k + 1 + n].phase == Learning(run[k].phase.next, run[k].cycle.remote, n)
    ensures run[k + 1 + n].cycle ==
      run[k].cycle.(memory := LearnAll(run[k].cycle.memory, run[k].cycle.remote[..n]))
  {
    hide Learn;
    var remote := run[k].cycle.remote;
    if n > 0 {
      SyncIsLearnAll(run, steps, k, n - 1);
      assert remote[..n][..n - 1] == remote[..n - 1];
      assert steps[k + n] == LearnNext;
    }
  }

  /** A sync that is not interrupted ends synced, with every monitor's key in both maps, and the cycle that it was
      for goes on to its routers. */
  lemma SyncGetsThrough(run: seq<System>, steps: seq<Step>, k: nat, l: nat)
    requires Behaviour(run, steps) && k < |steps| && run[k].phase.Syncing? && steps[k] == Fetch(true)
    requires l == k + 1 + |run[k].cycle.remote| && l < |steps| && steps[l] == MarkSynced
    requires forall i :: k < i < l ==> steps[i] == LearnNext
    ensures var s, t := run[k], run[l + 1];
      && t.synced && t.client == s.client && t.syncedFor == s.client
      && t.phase == (if s.phase.next.None? then Idle else Working(s.phase.next.value))
      && t.cycle.memory == LearnAll(s.cycle.memory, s.cycle.remote)
      && forall m <- s.cycle.remote :: m.url != "" ==>
           m.url + m.name in t.cycle.memory.tracked && m.url + m.name in t.cycle.memory.trackedURLs
  {
    hide Remembers, Visit, Learn, LearnAll;
    var s, n := run[k], |run[k].cycle.remote|;
    SyncIsLearnAll(run, steps, k, n);
    assert s.cycle.remote[..n] == s.cycle.remote;
    AlwaysInv(run, steps, l);
    SameClient(run, steps, k, n);
    LearnAllKnows(s.cycle.memory, s.cycle.remote);
    forall m | m in s.cycle.remote && m.url != "" ensures m.url + m.name in KeysOf(s.cycle.remote) {
      assert Key(m.url, m.name) == m.url + m.name;
    }
  }

  lemma {:induction false} SameClient(run: seq<System>, steps: seq<Step>, k: nat, n: nat)
    requires Behaviour(run, steps) && k + 1 + n < |run| && run[k].phase.Syncing? && steps[k] == Fetch(true)
    requires forall i :: k < i <= k + n ==> steps[i] == LearnNext
    ensures run[k + 1 + n].client == run[k].client
  {
    hide Learn;
    if n > 0 {
      SameClient(run, steps, k, n - 1);
      assert steps[k + n] == LearnNext;
    }
  }

  ghost predicate KeysLast(m: Memory, n: Memory) {
    m.trackedURLs.Keys <= n.trackedURLs.Keys && m.tracked.Keys <= n.tracked.Keys
  }

  /** The memory of a client outlives its connections: in no run does a step other than a restart forget a key. */
  lemma MemoryLasts(run: seq<System>, steps: seq<Step>, k: nat)
    requires Behaviour(run, steps) && k < |steps| && steps[k] != Restart
    ensures KeysLast(run[k].cycle.memory, run[k + 1].cycle.memory)
  {
    hide Do, KeysLast;
    StepKeepsMemory(run[k], steps[k]);
  }

  lemma StepKeepsMemory(s: System, step: Step)
    requires Enabled(s, step) && !step.Restart?
    ensures KeysLast(s.cycle.memory, Do(s, step).cycle.memory)
  {
    hide Lookup, Skipped;
  }

  lemma KeysGrow(before: seq<Monitor>, after: seq<Monitor>)
    requires before <= after
    ensures KeysOf(before) <= KeysOf(after)
  {
  }

  /** After a cycle without faults, and however often the companion is restarted, reconnects or fails in between, no
      create call is ever sent again for one of that cycle's routers unless it allows duplicates. */
  lemma SettledForGood(run: seq<System>, steps: seq<Step>, k: nat, l: nat, later: nat)
    requires Behaviour(run, steps) && FaultFree(run, steps, k, l) && l <= later < |steps|
    requires steps[later].Work?
    ensures var d := run[later].phase.todo[0];
      d in run[k].phase.todo && !d.allowDuplicates ==> run[later + 1].cycle.sent == run[later].cycle.sent
  {
    hide Visit, KeysOf;
    FaultFreeCycleCovers(run, steps, k, l, run[later].phase.todo[0]);
    RemoteGrows(run, steps, l, later);
    KeysGrow(run[l].cycle.remote, run[later].cycle.remote);
    CreatesExactlyTheMissing(run, steps, later);
  }
}
