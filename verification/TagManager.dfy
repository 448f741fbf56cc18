/** The tag manager as an object; its methods do what the functions of `Tags` say. */
module TagManager {
  import opened Text
  import opened TagDefs
  import opened Tags

  /** Uptime Kuma's tags, with a log of the creations asked for: a call succeeds, or fails without effect; an honest
      server reports only true duplicates. */
  class TagServer {
    const honest: bool
    var tags: seq<(string, int)>
    var attached: set<Pair>
    var creates: seq<TagDef>

    method GetTags() returns (reply: Option<seq<(string, int)>>)
      ensures reply.Some? ==> reply.value == tags
    {
      var ok: bool := *;
      reply := if ok then Some(tags) else None;
    }

    method CreateTag(def: TagDef) returns (id: Option<int>)
      modifies this`tags, this`creates
      ensures creates == old(creates) + [def]
      ensures tags == if id.Some? then old(tags) + [(def.name, id.value)] else old(tags)
    {
      var ok: bool, number: int := *, *;
      creates := creates + [def];
      id := None;
      if ok {
        id, tags := Some(number), tags + [(def.name, number)];
      }
    }

    method AddMonitorTag(p: Pair) returns (error: Option<string>)
      modifies this`attached
      ensures attached == if error.None? then old(attached) + {p} else old(attached)
      ensures honest && error.Some? && SaysDuplicate(error.value) ==> p in old(attached)
    {
      var ok: bool, text: string := *, *;
      if ok || (honest && SaysDuplicate(text) && p !in attached) {
        attached, error := attached + {p}, None;
      } else {
        error := Some(text);
      }
    }
  }

  ghost function Pairs(cache: map<int, set<int>>): set<Pair> {
    set monitor, tag | monitor in cache && tag in cache[monitor] :: Pair(monitor, tag)
  }

  /** A run and what happened in it, one step further. */
  lemma RunGrows(run: seq<Session>, events: seq<Event>, e: Event)
    requires run != [] && Behaviour(run, events)
    ensures Behaviour(run + [Do(run[|run| - 1], e)], events + [e])
  {
  }

  lemma RunStarted(run: seq<Session>, events: seq<Event>)
    requires Behaviour(run, events)
    ensures run != []
  {
  }

  /** Uptime Kuma has told the truth in every event of the run. */
  ghost predicate Told(run: seq<Session>, events: seq<Event>) {
    |run| == |events| + 1 && forall i :: 0 <= i < |events| ==> Honest(run[i], events[i])
  }

  lemma ToldGrows(run: seq<Session>, events: seq<Event>, next: Session, e: Event)
    requires Told(run, events) && Honest(run[|run| - 1], e)
    ensures Told(run + [next], events + [e])
  {
  }

  class TagManager {
    const server: TagServer
    const defaultTags: seq<string>
    var tagsCache: map<string, int>
    var attachedCache: map<int, set<int>>
    /** The tags this manager has created, the attach calls it has sent, and its whole history. */
    ghost var created: seq<TagDef>
    ghost var sent: seq<Pair>
    ghost var run: seq<Session>
    ghost var events: seq<Event>

    ghost function State(): Session
      reads this, server
    {
      Session(tagsCache, Pairs(attachedCache), server.attached, created, sent)
    }

    /** The history is a run, and it has led to the present state. */
    ghost predicate Valid()
      reads this, server
    {
      run != [] && Behaviour(run, events) && run[|run| - 1] == State()
    }

    constructor (server: TagServer, defaultTags: seq<string>)
      ensures this.server == server && this.defaultTags == defaultTags
      ensures Valid() && events == [] && Told(run, events)
      ensures State() == Session(map[], {}, server.attached, [], [])
    {
      this.server, this.defaultTags := server, defaultTags;
      tagsCache, attachedCache := map[], map[];
      created, sent := [], [];
      run, events := [Session(map[], {}, server.attached, [], [])], [];
    }

    /** What holds of every run holds of any manager, at any time. */
    lemma HistoryFacts(k: nat, p: Pair)
      requires Valid()
      ensures forall i, j :: 0 <= i < j < |created| ==> created[i].name != created[j].name
      ensures Told(run, events) ==> Pairs(attachedCache) <= server.attached
      ensures k < |run| && p in run[k].attached ==> run[k].sent <= sent && p !in sent[|run[k].sent|..]
    {
      NoNameCreatedTwice(run, events, |run| - 1);
      if Told(run, events) {
        CacheIsSound(run, events, |run| - 1);
      }
      if k < |run| && p in run[k].attached {
        NeverSentAgain(run, events, k, |run| - 1, p);
      }
    }

    /** Enters an event into the history. */
    ghost method Record(e: Event)
      requires run != [] && Behaviour(run, events) && State() == Do(run[|run| - 1], e)
      modifies this`run, this`events
      ensures Valid() && events == old(events) + [e] && run == old(run) + [State()]
      ensures old(Told(run, events)) && Honest(old(run[|run| - 1]), e) ==> Told(run, events)
    {
      hide Do, Honest, Behaviour, Told;
      RunGrows(run, events, e);
      if Told(run, events) && Honest(run[|run| - 1], e) {
        ToldGrows(run, events, State(), e);
      }
      run, events := run + [State()], events + [e];
    }

    method SyncState() returns (ok: bool)
      requires Valid()
      modifies this`tagsCache, this`run, this`events
      ensures Valid() && (old(Told(run, events)) ==> Told(run, events))
      ensures State() == if ok then Do(old(State()), SyncEvent(server.tags)) else old(State())
      ensures events == old(events) + if ok then [SyncEvent(server.tags)] else []
    {
      hide Behaviour, Told;
      var reply := server.GetTags();
      ok := reply.Some?;
      if ok {
        var known := reply.value;
        for n := 0 to |known|
          invariant tagsCache == LearnTags(old(tagsCache), known[..n])
          invariant run == old(run) && events == old(events)
        {
          assert known[..n + 1][..n] == known[..n];
          tagsCache := tagsCache[known[n].0 := known[n].1];
        }
        assert known[..|known|] == known;
        Record(SyncEvent(known));
      }
    }

    /** Makes sure there is an inner set, so that adding to it cannot fail. */
    method OpenMonitor(monitorID: int)
      modifies this`attachedCache
      ensures monitorID in attachedCache && old(attachedCache.Keys) <= attachedCache.Keys
      ensures Pairs(attachedCache) == old(Pairs(attachedCache))
    {
      if monitorID !in attachedCache {
        attachedCache := attachedCache[monitorID := {}];
      }
    }

    method Remember(p: Pair)
      requires p.monitor in attachedCache
      modifies this`attachedCache
      ensures Pairs(attachedCache) == old(Pairs(attachedCache)) + {p}
      ensures attachedCache.Keys == old(attachedCache.Keys)
    {
      attachedCache := attachedCache[p.monitor := attachedCache[p.monitor] + {p.tag}];
    }

    /** Keeps the history truthful where the tags listed for the monitor are attached to it. */
    method SeedMonitorTags(monitorID: int, existingTagIDs: seq<int>)
      requires Valid()
      modifies this`attachedCache, this`run, this`events
      ensures Valid() && State() == Do(old(State()), SeedEvent(monitorID, existingTagIDs))
      ensures events == old(events) + [SeedEvent(monitorID, existingTagIDs)]
      ensures old(Told(run, events)) && (forall tag <- existingTagIDs :: Pair(monitorID, tag) in server.attached) ==>
        Told(run, events)
    {
      hide Pairs, Behaviour, Told;
      OpenMonitor(monitorID);
      for n := 0 to |existingTagIDs|
        invariant monitorID in attachedCache && run == old(run) && events == old(events)
        invariant Pairs(attachedCache) ==
          old(Pairs(attachedCache)) + set tag | tag in existingTagIDs[..n] :: Pair(monitorID, tag)
      {
        assert existingTagIDs[..n + 1] == existingTagIDs[..n] + [existingTagIDs[n]];
        Remember(Pair(monitorID, existingTagIDs[n]));
      }
      assert existingTagIDs[..|existingTagIDs|] == existingTagIDs;
      Record(SeedEvent(monitorID, existingTagIDs));
    }

    method EnsureTag(def: TagDef) returns (id: Option<int>, ghost reply: Option<int>)
      modifies this`tagsCache, this`created, server`tags, server`creates
      ensures server.creates == old(server.creates) + if def.name in old(tagsCache) then [] else [def]
      ensures State() == Ensure(old(State()), def, reply)
      ensures id == if def.name in tagsCache then Some(tagsCache[def.name]) else None
    {
      reply := None;
      if def.name in tagsCache {
        return Some(tagsCache[def.name]), None;
      }
      id := server.CreateTag(def);
      reply := id;
      if id.Some? {
        tagsCache := tagsCache[def.name := id.value];
        created := created + [def];
      }
    }

    method AttachTag(p: Pair) returns (ghost error: Option<string>)
      requires p.monitor in attachedCache
      modifies this`attachedCache, this`sent, server`attached
      ensures State() == Attach(old(State()), p, error) && attachedCache.Keys == old(attachedCache.Keys)
      ensures server.honest ==> Truthful(old(State()), p, error)
    {
      hide SaysDuplicate;
      error := None;
      if p.tag == 0 {
        return;
      }
      assert p in Pairs(attachedCache) <==> p.tag in attachedCache[p.monitor];
      if p.tag in attachedCache[p.monitor] {
        return;
      }
      sent := sent + [p];
      var reply := server.AddMonitorTag(p);
      error := reply;
      if reply.None? || SaysDuplicate(reply.value) {
        Remember(p);
      }
    }

    method ProcessTag(monitorID: int, def: TagDef) returns (ghost reply: Reply)
      requires Valid() && monitorID in attachedCache
      modifies this, server
      ensures Valid() && State() == Do(old(State()), TagEvent(monitorID, def, reply))
      ensures events == old(events) + [TagEvent(monitorID, def, reply)]
      ensures server.honest ==> Honest(old(State()), TagEvent(monitorID, def, reply))
      ensures server.honest && old(Told(run, events)) ==> Told(run, events)
      ensures monitorID in attachedCache && old(tagsCache.Keys) <= tagsCache.Keys
      ensures server.creates == old(server.creates) + if def.name in old(tagsCache) then [] else [def]
    {
      hide Pairs, Attach, Truthful, Behaviour, Told;
      var tagID, create := EnsureTag(def);
      ghost var error: Option<string> := None;
      if tagID.Some? {
        error := AttachTag(Pair(monitorID, tagID.value));
      }
      reply := Reply(create, error);
      Record(TagEvent(monitorID, def, reply));
    }

    /** Does to a monitor what `TagAll` says for the tags of `BuildTagDefs`; if building those panics, nothing. A
        creation is asked for where one is needed, whichever fail. */
    method ProcessTags(monitorID: int, labels: map<string, string>)
      returns (done: bool, ghost replies: seq<Reply>, ghost asked: seq<TagDef>)
      requires Valid()
      modifies this, server
      ensures Valid() && old(events) <= events
      ensures server.honest && old(Told(run, events)) ==> Told(run, events)
      ensures var defs := Build(defaultTags + Labelled(labels));
        && (done <==> defs.Some?)
        && (!done ==> State() == old(State()))
        && (done ==> |replies| == |defs.value| && State() == TagAll(old(State()), monitorID, defs.value, replies))
        && (done && server.honest ==> AllHonest(old(State()), monitorID, defs.value, replies))
        && server.creates == old(server.creates) + asked
        && (done ==> Tried(defs.value, tagsCache.Keys, asked))
    {
      hide Pairs, Build, Tag, Honest, Behaviour, Told, Tried, AllHonest;
      replies, asked := [], [];
      var desired := BuildTagDefs(defaultTags, labels);
      if desired.None? {
        return false, [], [];
      }
      OpenMonitor(monitorID);
      replies, asked := TagEach(monitorID, desired.value);
      done := true;
    }

    /** The loop over desired tags. */
    method TagEach(monitorID: int, desiredTags: seq<TagDef>)
      returns (ghost replies: seq<Reply>, ghost asked: seq<TagDef>)
      requires Valid() && monitorID in attachedCache
      modifies this, server
      ensures Valid() && old(events) <= events
      ensures server.honest && old(Told(run, events)) ==> Told(run, events)
      ensures |replies| == |desiredTags| && State() == TagAll(old(State()), monitorID, desiredTags, replies)
      ensures server.honest ==> AllHonest(old(State()), monitorID, desiredTags, replies)
      ensures server.creates == old(server.creates) + asked && Tried(desiredTags, tagsCache.Keys, asked)
    {
      hide Pairs, Tag, Honest, Behaviour, Told, Tried, AllHonest;
      replies, asked := [], [];
      NothingTried(State(), monitorID, tagsCache.Keys);
      for n := 0 to |desiredTags|
        invariant Valid() && old(events) <= events && monitorID in attachedCache && |replies| == n
        invariant server.honest && old(Told(run, events)) ==> Told(run, events)
        invariant State() == TagAll(old(State()), monitorID, desiredTags[..n], replies)
        invariant server.honest ==> AllHonest(old(State()), monitorID, desiredTags[..n], replies)
        invariant server.creates == old(server.creates) + asked
        invariant Tried(desiredTags[..n], tagsCache.Keys, asked)
      {
        ghost var before := replies;
        ghost var known, tried := tagsCache.Keys, asked;
        ghost var reply := ProcessTag(monitorID, desiredTags[n]);
        asked := asked + if desiredTags[n].name in known then [] else [desiredTags[n]];
        OneMoreTried(desiredTags, n, known, tried, tagsCache.Keys, asked);
        replies := replies + [reply];
        assert desiredTags[..n + 1][..n] == desiredTags[..n] && replies[..n] == before;
        if server.honest {
          HonestExtends(old(State()), monitorID, desiredTags[..n], before, desiredTags[n], reply);
          assert desiredTags[..n + 1] == desiredTags[..n] + [desiredTags[n]];
        }
      }
      assert desiredTags[..|desiredTags|] == desiredTags;
    }
  }

  /** Every tag is known, or its creation has been asked for. */
  ghost predicate Tried(defs: seq<TagDef>, names: set<string>, asked: seq<TagDef>) {
    forall def <- defs :: def.name in names || def in asked
  }

  lemma NothingTried(s: Session, monitor: int, names: set<string>)
    ensures Tried([], names, []) && AllHonest(s, monitor, [], [])
  {
  }

  lemma OneMoreTried(defs: seq<TagDef>, n: nat, known: set<string>, before: seq<TagDef>, names: set<string>,
      asked: seq<TagDef>)
    requires n < |defs| && Tried(defs[..n], known, before) && known <= names
    requires asked == before + if defs[n].name in known then [] else [defs[n]]
    ensures Tried(defs[..n + 1], names, asked)
  {
  }

  lemma HonestExtends(s: Session, monitor: int, defs: seq<TagDef>, replies: seq<Reply>, def: TagDef, reply: Reply)
    requires |replies| == |defs| && AllHonest(s, monitor, defs, replies)
    requires Honest(TagAll(s, monitor, defs, replies), TagEvent(monitor, def, reply))
    ensures AllHonest(s, monitor, defs + [def], replies + [reply])
  {
    hide TagAll, Honest;
    var n := |defs|;
    forall i | 0 <= i <= n
      ensures Honest(TagAll(s, monitor, (defs + [def])[..i], (replies + [reply])[..i]),
                TagEvent(monitor, (defs + [def])[i], (replies + [reply])[i]))
    {
      if i < n {
        assert (defs + [def])[..i] == defs[..i] && (replies + [reply])[..i] == replies[..i];
      } else {
        assert (defs + [def])[..i] == defs && (replies + [reply])[..i] == replies;
      }
    }
  }
}
