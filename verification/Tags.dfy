/** Creating and attaching tags: the caches of internal/monitor/kuma/tag_manager.go. */
module Tags {
  import opened Text
  import opened TagDefs

  datatype Pair = Pair(monitor: int, tag: int)

  /** What Uptime Kuma answers when a tag is created (its id, or failure) and when it is attached (an error, or
      none). */
  datatype Reply = Reply(create: Option<int>, error: Option<string>)

  /** The manager's caches, the pairs attached in Uptime Kuma, and logs of the tags created and the attach calls
      sent. */
  datatype Session = Session(
    tagsCache: map<string, int>, attached: set<Pair>, remote: set<Pair>, created: seq<TagDef>, sent: seq<Pair>)

  predicate SaysDuplicate(error: string) {
    Contains(Lower(error), "unique constraint") || Contains(Lower(error), "already")
  }

  function Ensure(s: Session, def: TagDef, reply: Option<int>): Session {
    if def.name in s.tagsCache || reply.None? then s
    else s.(tagsCache := s.tagsCache[def.name := reply.value], created := s.created + [def])
  }

  function Attach(s: Session, p: Pair, error: Option<string>): Session {
    if p.tag == 0 || p in s.attached then s
    else
      var asked := s.(sent := s.sent + [p]);
      match error
      case None => asked.(attached := s.attached + {p}, remote := s.remote + {p})
      case Some(text) => if SaysDuplicate(text) then asked.(attached := s.attached + {p}) else asked
  }

  /** One desired tag of one monitor. */
  function Tag(s: Session, monitor: int, def: TagDef, reply: Reply): Session {
    var t := Ensure(s, def, reply.create);
    if def.name in t.tagsCache then Attach(t, Pair(monitor, t.tagsCache[def.name]), reply.error) else t
  }

  function TagAll(s: Session, monitor: int, defs: seq<TagDef>, replies: seq<Reply>): Session
    requires |replies| == |defs|
  {
    if defs == [] then s
    else
      var n := |defs| - 1;
      Tag(TagAll(s, monitor, defs[..n], replies[..n]), monitor, defs[n], replies[n])
  }

  function Seed(s: Session, monitor: int, tags: seq<int>): Session {
    s.(attached := s.attached + set tag | tag in tags :: Pair(monitor, tag))
  }

  function LearnTags(cache: map<string, int>, tags: seq<(string, int)>): map<string, int> {
    if tags == [] then cache
    else
      var n := |tags| - 1;
      LearnTags(cache, tags[..n])[tags[n].0 := tags[n].1]
  }

  /** Learning gives each listed name the last id listed for it. */
  lemma {:induction false} LearnTagsLast(cache: map<string, int>, tags: seq<(string, int)>, i: nat)
    requires i < |tags| && forall j :: i < j < |tags| ==> tags[j].0 != tags[i].0
    ensures var now := LearnTags(cache, tags); tags[i].0 in now && now[tags[i].0] == tags[i].1
  {
    if i < |tags| - 1 {
      LearnTagsLast(cache, tags[..|tags| - 1], i);
    }
  }

  /** And leaves the other names alone. */
  lemma {:induction false} LearnTagsOthers(cache: map<string, int>, tags: seq<(string, int)>, name: string)
    requires forall i :: 0 <= i < |tags| ==> tags[i].0 != name
    ensures var now := LearnTags(cache, tags);
      (name in now <==> name in cache) && (name in now ==> now[name] == cache[name])
  {
    if tags != [] {
      LearnTagsOthers(cache, tags[..|tags| - 1], name);
    }
  }

  /** An error counts as a duplicate when it speaks of a unique constraint, or says already, in any case. */
  lemma DuplicateMeans(error: string)
    ensures SaysDuplicate(error) <==>
      exists a: string, word, b: string ::
        Lower(error) == a + word + b && (word == "unique constraint" || word == "already")
  {
    hide Lower, Contains;
    ContainsMeans(Lower(error), "unique constraint");
    ContainsMeans(Lower(error), "already");
  }

  ghost predicate Sound(s: Session) {
    s.attached <= s.remote
  }

  /** A reply that speaks of a duplicate speaks the truth. */
  ghost predicate Truthful(s: Session, p: Pair, error: Option<string>) {
    error.Some? && SaysDuplicate(error.value) ==> p in s.remote
  }

  /** Where the cache was sound it stays so exactly if the reply was truthful, or no call was made. */
  lemma AttachKeepsSound(s: Session, p: Pair, error: Option<string>)
    requires Sound(s)
    ensures Sound(Attach(s, p, error)) <==> p.tag == 0 || p in s.attached || Truthful(s, p, error)
  {
  }

  /** What one desired tag does: its id is the cached one, or what the create call returns, which is then cached; a pair
      that is not cached is sent unless its id is 0; and an answer of success, or of a duplicate, caches it. */
  lemma TagSends(s: Session, monitor: int, def: TagDef, reply: Reply)
    ensures var t := Tag(s, monitor, def, reply);
      var id := if def.name in s.tagsCache then Some(s.tagsCache[def.name]) else reply.create;
      if id.None? then t == s
      else
        var p := Pair(monitor, id.value);
        var asks := id.value != 0 && p !in s.attached;
        var attached := asks && reply.error.None?;
        && t.tagsCache == s.tagsCache[def.name := id.value]
        && t.created == s.created + (if def.name in s.tagsCache then [] else [def])
        && t.sent == s.sent + (if asks then [p] else [])
        && t.remote == s.remote + (if attached then {p} else {})
        && t.attached == s.attached +
             (if attached || (asks && SaysDuplicate(reply.error.value)) then {p} else {})
  {
  }

  datatype Event =
    | SeedEvent(monitor: int, tags: seq<int>)
    | SyncEvent(known: seq<(string, int)>)
    | TagEvent(monitor: int, def: TagDef, reply: Reply)

  function Do(s: Session, e: Event): Session {
    match e
    case SeedEvent(monitor, tags) => Seed(s, monitor, tags)
    case SyncEvent(known) => s.(tagsCache := LearnTags(s.tagsCache, known))
    case TagEvent(monitor, def, reply) => Tag(s, monitor, def, reply)
  }

  /** Uptime Kuma tells the truth: about the tags attached to a monitor, and about duplicates. */
  ghost predicate Honest(s: Session, e: Event) {
    match e
    case SeedEvent(monitor, tags) => forall tag <- tags :: Pair(monitor, tag) in s.remote
    case SyncEvent(_) => true
    case TagEvent(monitor, def, reply) =>
      var t := Ensure(s, def, reply.create);
      def.name in t.tagsCache ==> Truthful(t, Pair(monitor, t.tagsCache[def.name]), reply.error)
  }

  /** One manager's lifetime, from empty caches, with the work of any number of monitors interleaved. */
  ghost predicate Behaviour(run: seq<Session>, events: seq<Event>) {
    && |run| == |events| + 1
    && run[0] == Session(map[], {}, run[0].remote, [], [])
    && forall i :: 0 <= i < |events| ==> run[i + 1] == Do(run[i], events[i])
  }

  lemma TagFacts(s: Session, monitor: int, def: TagDef, reply: Reply)
    ensures var t := Tag(s, monitor, def, reply);
      && s.attached <= t.attached && s.remote <= t.remote && s.tagsCache.Keys <= t.tagsCache.Keys
      && (t.sent == s.sent || exists p :: t.sent == s.sent + [p] && p !in s.attached && p.tag != 0)
      && (t.created == s.created ||
          (t.created == s.created + [def] && def.name !in s.tagsCache && def.name in t.tagsCache))
    ensures Sound(s) && Honest(s, TagEvent(monitor, def, reply)) ==> Sound(Tag(s, monitor, def, reply))
  {
  }

  lemma {:induction false} LearnTagsGrows(cache: map<string, int>, tags: seq<(string, int)>)
    ensures cache.Keys <= LearnTags(cache, tags).Keys
  {
    if tags != [] {
      LearnTagsGrows(cache, tags[..|tags| - 1]);
    }
  }

  lemma DoFacts(s: Session, e: Event)
    ensures var t := Do(s, e);
      && s.attached <= t.attached && s.tagsCache.Keys <= t.tagsCache.Keys && s.sent <= t.sent
      && (forall p <- s.attached :: p !in t.sent[|s.sent|..])
    ensures Sound(s) && Honest(s, e) ==> Sound(Do(s, e))
  {
    hide Tag, Ensure;
    match e
    case SeedEvent(_, _) =>
    case SyncEvent(known) => LearnTagsGrows(s.tagsCache, known);
    case TagEvent(monitor, def, reply) => TagFacts(s, monitor, def, reply);
  }

  /** Every pair in the cache is attached in Uptime Kuma, at every moment, if Uptime Kuma is honest. */
  lemma {:induction false} CacheIsSound(run: seq<Session>, events: seq<Event>, k: nat)
    requires Behaviour(run, events) && k < |run|
    requires forall i :: 0 <= i < |events| ==> Honest(run[i], events[i])
    ensures run[k].attached <= run[k].remote
  {
    hide Honest, Do;
    if k > 0 {
      CacheIsSound(run, events, k - 1);
      DoFacts(run[k - 1], events[k - 1]);
    }
  }

  /** A pair once cached is never sent again in this manager's lifetime. */
  lemma {:induction false} NeverSentAgain(run: seq<Session>, events: seq<Event>, k: nat, l: nat, p: Pair)
    requires Behaviour(run, events) && k <= l < |run| && p in run[k].attached
    ensures p in run[l].attached && run[k].sent <= run[l].sent && p !in run[l].sent[|run[k].sent|..]
  {
    hide Do, Honest;
    if k < l {
      NeverSentAgain(run, events, k, l - 1, p);
      DoFacts(run[l - 1], events[l - 1]);
      var m, n := |run[k].sent|, |run[l - 1].sent|;
      assert run[l].sent[m..] == run[l - 1].sent[m..] + run[l].sent[n..];
    }
  }

  /** So the tags listed for a monitor are never sent for it. */
  lemma SeededNeverSent(run: seq<Session>, events: seq<Event>, k: nat, l: nat, monitor: int, tags: seq<int>, tag: int)
    requires Behaviour(run, events) && k < l < |run| && events[k] == SeedEvent(monitor, tags) && tag in tags
    ensures Pair(monitor, tag) in run[l].attached
    ensures run[k].sent <= run[l].sent && Pair(monitor, tag) !in run[l].sent[|run[k].sent|..]
  {
    assert run[k + 1] == Seed(run[k], monitor, tags);
    NeverSentAgain(run, events, k + 1, l, Pair(monitor, tag));
  }

  /** So is a pair once it has been answered for, with success or as a duplicate. */
  lemma AnsweredNeverSentAgain(run: seq<Session>, events: seq<Event>, k: nat, l: nat, monitor: int, def: TagDef,
      reply: Reply)
    requires Behaviour(run, events) && k < l < |run| && events[k] == TagEvent(monitor, def, reply)
    requires reply.error.None? || SaysDuplicate(reply.error.value)
    ensures var s := run[k + 1];
      def.name in s.tagsCache && s.tagsCache[def.name] != 0 ==>
        var p := Pair(monitor, s.tagsCache[def.name]);
        p in s.attached && s.sent <= run[l].sent && p !in run[l].sent[|s.sent|..]
  {
    hide Tag, SaysDuplicate, Honest;
    TagSends(run[k], monitor, def, reply);
    assert run[k + 1] == Tag(run[k], monitor, def, reply);
    if def.name in run[k + 1].tagsCache && run[k + 1].tagsCache[def.name] != 0 {
      NeverSentAgain(run, events, k + 1, l, Pair(monitor, run[k + 1].tagsCache[def.name]));
    }
  }

  ghost predicate CreatedOnce(s: Session) {
    && (forall def <- s.created :: def.name in s.tagsCache)
    && forall i, j :: 0 <= i < j < |s.created| ==> s.created[i].name != s.created[j].name
  }

  lemma DoKeepsCreatedOnce(s: Session, e: Event)
    requires CreatedOnce(s)
    ensures CreatedOnce(Do(s, e))
  {
    hide Tag, Ensure, Sound;
    DoFacts(s, e);
    if e.TagEvent? {
      TagFacts(s, e.monitor, e.def, e.reply);
    }
  }

  /** No tag name is created twice by one manager. */
  lemma {:induction false} NoNameCreatedTwice(run: seq<Session>, events: seq<Event>, k: nat)
    requires Behaviour(run, events) && k < |run|
    ensures CreatedOnce(run[k])
  {
    hide Do;
    if k > 0 {
      NoNameCreatedTwice(run, events, k - 1);
      DoKeepsCreatedOnce(run[k - 1], events[k - 1]);
    }
  }

  lemma {:induction false} LearnTagsHas(cache: map<string, int>, tags: seq<(string, int)>, i: nat)
    requires i < |tags|
    ensures tags[i].0 in LearnTags(cache, tags)
  {
    if i < |tags| - 1 {
      LearnTagsHas(cache, tags[..|tags| - 1], i);
    }
  }

  lemma {:induction false} KnownNeverCreated(run: seq<Session>, events: seq<Event>, k: nat, l: nat, name: string)
    requires Behaviour(run, events) && k <= l < |run| && name in run[k].tagsCache
    ensures name in run[l].tagsCache && run[k].created <= run[l].created
    ensures forall def <- run[l].created[|run[k].created|..] :: def.name != name
  {
    hide Do;
    if k < l {
      KnownNeverCreated(run, events, k, l - 1, name);
      DoFacts(run[l - 1], events[l - 1]);
      CreatesUnknown(run[l - 1], events[l - 1]);
    }
  }

  lemma CreatesUnknown(s: Session, e: Event)
    ensures var t := Do(s, e);
      s.created <= t.created && forall def <- t.created[|s.created|..] :: def.name !in s.tagsCache
  {
  }

  /** And a tag that a sync has listed is never created. */
  lemma ListedNeverCreated(run: seq<Session>, events: seq<Event>, k: nat, l: nat, known: seq<(string, int)>, i: nat)
    requires Behaviour(run, events) && k < l < |run| && events[k] == SyncEvent(known) && i < |known|
    ensures run[k].created <= run[l].created
    ensures forall def <- run[l].created[|run[k].created|..] :: def.name != known[i].0
  {
    LearnTagsHas(run[k].tagsCache, known, i);
    KnownNeverCreated(run, events, k + 1, l, known[i].0);
  }

  predicate Succeeds(reply: Reply) {
    reply.create.Some? && (reply.error.None? || SaysDuplicate(reply.error.value))
  }

  ghost predicate AllHonest(s: Session, monitor: int, defs: seq<TagDef>, replies: seq<Reply>)
    requires |replies| == |defs|
  {
    forall i :: 0 <= i < |defs| ==>
      Honest(TagAll(s, monitor, defs[..i], replies[..i]), TagEvent(monitor, defs[i], replies[i]))
  }

  /** The monitor has the tag of that name in Uptime Kuma, unless the tag's id is 0, which the manager ignores. */
  ghost predicate Has(s: Session, monitor: int, name: string) {
    name in s.tagsCache && (s.tagsCache[name] != 0 ==> Pair(monitor, s.tagsCache[name]) in s.remote)
  }

  /** Nothing cached or attached is lost, and the cache is sound. */
  ghost predicate Grown(s: Session, t: Session) {
    && Sound(t) && s.remote <= t.remote
    && forall name <- s.tagsCache :: name in t.tagsCache && t.tagsCache[name] == s.tagsCache[name]
  }

  /** Whatever is newly attached is attached to this monitor and is one of these tags. */
  ghost predicate OnlyThese(s: Session, monitor: int, names: set<string>, t: Session) {
    forall p <- t.remote - s.remote ::
      p.monitor == monitor && exists name <- names :: name in t.tagsCache && t.tagsCache[name] == p.tag
  }

  lemma TagAttaches(s: Session, monitor: int, def: TagDef, reply: Reply)
    requires Sound(s) && Honest(s, TagEvent(monitor, def, reply))
    ensures var t := Tag(s, monitor, def, reply);
      && Grown(s, t) && OnlyThese(s, monitor, {def.name}, t)
      && (Succeeds(reply) ==> Has(t, monitor, def.name))
  {
  }

  lemma HonestFront(s: Session, monitor: int, defs: seq<TagDef>, replies: seq<Reply>)
    requires |replies| == |defs| && defs != [] && AllHonest(s, monitor, defs, replies)
    ensures AllHonest(s, monitor, defs[..|defs| - 1], replies[..|defs| - 1])
  {
    hide TagAll, Honest;
    var n := |defs| - 1;
    forall i | 0 <= i < n
      ensures Honest(TagAll(s, monitor, defs[..n][..i], replies[..n][..i]),
                TagEvent(monitor, defs[..n][i], replies[..n][i]))
    {
      assert defs[..n][..i] == defs[..i] && replies[..n][..i] == replies[..i];
    }
  }

  function NamesOf(defs: seq<TagDef>): set<string> {
    set def | def in defs :: def.name
  }

  lemma OnlyTheseGrows(s: Session, monitor: int, names: set<string>, t: Session, name: string, u: Session)
    requires OnlyThese(s, monitor, names, t) && Grown(t, u) && OnlyThese(t, monitor, {name}, u)
    ensures OnlyThese(s, monitor, names + {name}, u)
  {
  }

  /** Processing a monitor's tags attaches none but the desired tags, whatever fails. */
  lemma {:induction false} AttachesOnlyDesired(s: Session, monitor: int, defs: seq<TagDef>, replies: seq<Reply>)
    requires |replies| == |defs| && Sound(s) && AllHonest(s, monitor, defs, replies)
    ensures var t := TagAll(s, monitor, defs, replies); Grown(s, t) && OnlyThese(s, monitor, NamesOf(defs), t)
  {
    if defs != [] {
      hide Tag, Honest, AllHonest, OnlyThese, SaysDuplicate;
      var n := |defs| - 1;
      var before := TagAll(s, monitor, defs[..n], replies[..n]);
      HonestFront(s, monitor, defs, replies);
      AttachesOnlyDesired(s, monitor, defs[..n], replies[..n]);
      HonestLast(s, monitor, defs, replies);
      TagAttaches(before, monitor, defs[n], replies[n]);
      OnlyTheseGrows(s, monitor, NamesOf(defs[..n]), before, defs[n].name, TagAll(s, monitor, defs, replies));
      NamesOfLast(defs);
    }
  }

  ghost predicate HasAll(s: Session, monitor: int, defs: seq<TagDef>) {
    forall i :: 0 <= i < |defs| ==> Has(s, monitor, defs[i].name)
  }

  ghost predicate FaultFree(replies: seq<Reply>) {
    forall i :: 0 <= i < |replies| ==> Succeeds(replies[i])
  }

  /** Where no call fails, every desired tag is attached afterwards. */
  lemma {:induction false} FaultFreeAttachesAll(s: Session, monitor: int, defs: seq<TagDef>, replies: seq<Reply>)
    requires |replies| == |defs| && Sound(s) && AllHonest(s, monitor, defs, replies) && FaultFree(replies)
    ensures HasAll(TagAll(s, monitor, defs, replies), monitor, defs)
  {
    if defs == [] {
    } else {
      hide Tag, Honest, Succeeds, AllHonest, Has, HasAll, OnlyThese, Grown, Sound;
      var n := |defs| - 1;
      var before, t := TagAll(s, monitor, defs[..n], replies[..n]), TagAll(s, monitor, defs, replies);
      HonestFront(s, monitor, defs, replies);
      HonestLast(s, monitor, defs, replies);
      AttachesOnlyDesired(s, monitor, defs[..n], replies[..n]);
      GrownIsSound(s, before);
      FaultFreeAttachesAll(s, monitor, defs[..n], replies[..n]);
      TagAttaches(before, monitor, defs[n], replies[n]);
      HasAllStays(before, t, monitor, defs);
    }
  }

  /** The cache knows no tag by the id 0. */
  ghost predicate IdsCount(s: Session) {
    forall name <- s.tagsCache :: s.tagsCache[name] != 0
  }

  lemma {:induction false} IdsStayCounting(s: Session, monitor: int, defs: seq<TagDef>, replies: seq<Reply>)
    requires |replies| == |defs| && IdsCount(s) && forall i :: 0 <= i < |replies| ==> replies[i].create != Some(0)
    ensures IdsCount(TagAll(s, monitor, defs, replies))
  {
    if defs != [] {
      hide Tag, SaysDuplicate;
      var n := |defs| - 1;
      IdsStayCounting(s, monitor, defs[..n], replies[..n]);
      TagSends(TagAll(s, monitor, defs[..n], replies[..n]), monitor, defs[n], replies[n]);
    }
  }

  /** Where moreover no tag has the id 0, the monitor has each desired tag, by the id of its name. */
  lemma FaultFreeTagged(s: Session, monitor: int, defs: seq<TagDef>, replies: seq<Reply>)
    requires |replies| == |defs| && Sound(s) && AllHonest(s, monitor, defs, replies) && FaultFree(replies)
    requires IdsCount(s) && forall i :: 0 <= i < |replies| ==> replies[i].create != Some(0)
    ensures var t := TagAll(s, monitor, defs, replies);
      forall i :: 0 <= i < |defs| ==>
        defs[i].name in t.tagsCache && Pair(monitor, t.tagsCache[defs[i].name]) in t.remote
  {
    hide TagAll, AllHonest, FaultFree, Sound;
    FaultFreeAttachesAll(s, monitor, defs, replies);
    IdsStayCounting(s, monitor, defs, replies);
    var t := TagAll(s, monitor, defs, replies);
    forall i | 0 <= i < |defs|
      ensures defs[i].name in t.tagsCache && Pair(monitor, t.tagsCache[defs[i].name]) in t.remote
    {
      assert Has(t, monitor, defs[i].name);
    }
  }

  lemma GrownIsSound(s: Session, t: Session)
    requires Grown(s, t)
    ensures Sound(t)
  {
  }

  lemma HasAllStays(s: Session, t: Session, monitor: int, defs: seq<TagDef>)
    requires defs != [] && Grown(s, t) && HasAll(s, monitor, defs[..|defs| - 1])
    requires Has(t, monitor, defs[|defs| - 1].name)
    ensures HasAll(t, monitor, defs)
  {
  }

  lemma HonestLast(s: Session, monitor: int, defs: seq<TagDef>, replies: seq<Reply>)
    requires |replies| == |defs| && defs != [] && AllHonest(s, monitor, defs, replies)
    ensures var n := |defs| - 1;
      Honest(TagAll(s, monitor, defs[..n], replies[..n]), TagEvent(monitor, defs[n], replies[n]))
  {
  }

  lemma NamesOfLast(defs: seq<TagDef>)
    requires defs != []
    ensures NamesOf(defs) == NamesOf(defs[..|defs| - 1]) + {defs[|defs| - 1].name}
  {
  }
}
