/** From Docker labels to the sets of active and ignored hosts: `extractMeshHosts` of both DNS clients. */
module MeshHosts {
  import opened Text
  import RuleParser
  import RulePrinter

  type Labels = map<string, string>

  datatype Service = Service(hosts: seq<string>, labels: Labels)

  const ROUTERS := "traefik.http.routers."
  const RULE := ".rule"
  const MANAGED := ".mesh.managed"

  datatype Field = RuleField | ManagedField | FilterField

  datatype Router = Router(rule: string, managed: string, filterVal: string)

  const FRESH := Router("", "true", "")

  type Table = map<string, Router>

  // ---------- the filter label ----------

  /** `s` matches the pieces of a filter label, with a non-empty, dot-free text for every star between them. */
  predicate Glob(pieces: seq<string>, s: string)
    decreases |pieces|
  {
    && pieces != []
    && HasPrefix(s, pieces[0])
    && var rest := s[|pieces[0]|..];
      if |pieces| == 1 then rest == ""
      else exists n :: 1 <= n <= |rest| && '.' !in rest[..n] && Glob(pieces[1..], rest[n..])
  }

  /** The longest text of at most `n` characters that the first star can take while the rest still matches. */
  function Longest(tail: seq<string>, rest: string, n: nat): Option<string>
    requires n <= |rest|
  {
    if n == 0 then None
    else if '.' !in rest[..n] && Glob(tail, rest[n..]) then Some(rest[..n])
    else Longest(tail, rest, n - 1)
  }

  /** What the filter label's first star captures from a label key: the star is greedy and the match is anchored at
      both ends. A label without a star captures nothing. */
  function Capture(filterLabel: string, key: string): Option<string> {
    var pieces := Split(filterLabel, '*');
    if |pieces| < 2 || !HasPrefix(key, pieces[0]) then None
    else
      var rest := key[|pieces[0]|..];
      Longest(pieces[1..], rest, |rest|)
  }

  predicate Wanted(labelValue: string, part: string) {
    TrimSpace(part) != "" && Contains(labelValue, TrimSpace(part))
  }

  method MatchFilter(labelValue: string, envFilter: string) returns (matches: bool)
    ensures matches <==> FilterAccepts(labelValue, envFilter)
  {
    hide TrimSpace, Contains;
    var parts := Split(envFilter, ',');
    for i := 0 to |parts|
      invariant forall part <- parts[..i] :: !Wanted(labelValue, part)
    {
      var cleanFilter := TrimSpace(parts[i]);
      if cleanFilter != "" && Contains(labelValue, cleanFilter) {
        assert Wanted(labelValue, parts[i]) && parts[i] in Split(envFilter, ',');
        return true;
      }
    }
    assert parts[..|parts|] == parts;
    return false;
  }

  predicate FilterAccepts(labelValue: string, envFilter: string) {
    exists part <- Split(envFilter, ',') :: Wanted(labelValue, part)
  }

  // ---------- labels to routers ----------

  function Between(key: string, prefix: string, suffix: string): Option<string> {
    if HasPrefix(key, prefix) && HasSuffix(key, suffix)
    then Some(TrimSuffix(TrimPrefix(key, prefix), suffix))
    else None
  }

  /** The router whose field a label sets, if it sets that field of any. */
  function Names(filter: Option<string>, field: Field, key: string): Option<string> {
    match field
    case RuleField => Between(key, ROUTERS, RULE)
    case ManagedField => Between(key, ROUTERS, MANAGED)
    case FilterField => if filter.Some? then Capture(filter.value, key) else None
  }

  function Stored(field: Field, value: string): string {
    if field == ManagedField then Lower(value) else value
  }

  function Get(router: Router, field: Field): string {
    match field case RuleField => router.rule case ManagedField => router.managed case FilterField => router.filterVal
  }

  function Set(router: Router, field: Field, value: string): Router {
    match field
    case RuleField => router.(rule := value)
    case ManagedField => router.(managed := value)
    case FilterField => router.(filterVal := value)
  }

  function Put(table: Table, name: Option<string>, field: Field, value: string): Table {
    match name
    case None => table
    case Some(n) => table[n := Set(if n in table then table[n] else FRESH, field, value)]
  }

  function AddField(filter: Option<string>, table: Table, key: string, value: string, field: Field): Table {
    Put(table, Names(filter, field, key), field, Stored(field, value))
  }

  function AddLabel(filter: Option<string>, table: Table, key: string, value: string): Table {
    var t1 := AddField(filter, table, key, value, RuleField);
    var t2 := AddField(filter, t1, key, value, ManagedField);
    AddField(filter, t2, key, value, FilterField)
  }

  /** The routers after the labels have been visited in `order`. */
  function TableOf(filter: Option<string>, labels: Labels, order: seq<string>): Table
    requires forall key <- order :: key in labels
  {
    if order == [] then map[]
    else
      var last := order[|order| - 1];
      AddLabel(filter, TableOf(filter, labels, order[..|order| - 1]), last, labels[last])
  }

  ghost predicate Enumerates(order: seq<string>, keys: set<string>) {
    && (forall key :: key in order <==> key in keys)
    && (forall i, j :: 0 <= i < j < |order| ==> order[i] != order[j])
  }

  /** What the last label in visiting order that sets this field of this router stores there. */
  function FieldAfter(filter: Option<string>, labels: Labels, order: seq<string>, field: Field, name: string)
    : Option<string>
    requires forall key <- order :: key in labels
  {
    if order == [] then None
    else
      var last := order[|order| - 1];
      if Names(filter, field, last) == Some(name) then Some(Stored(field, labels[last]))
      else FieldAfter(filter, labels, order[..|order| - 1], field, name)
  }

  predicate Known(rule: Option<string>, managed: Option<string>, filterVal: Option<string>) {
    rule.Some? || managed.Some? || filterVal.Some?
  }

  function Or(value: Option<string>, default: string): string {
    match value case Some(v) => v case None => default
  }

  /** A router is in the table when some label names it, and each field says what the last such label said. */
  ghost predicate Row(filter: Option<string>, labels: Labels, order: seq<string>, table: Table, name: string)
    requires forall key <- order :: key in labels
  {
    var rule := FieldAfter(filter, labels, order, RuleField, name);
    var managed := FieldAfter(filter, labels, order, ManagedField, name);
    var filterVal := FieldAfter(filter, labels, order, FilterField, name);
    && (name in table <==> Known(rule, managed, filterVal))
    && (name in table ==>
          table[name] == Router(Or(rule, FRESH.rule), Or(managed, FRESH.managed), Or(filterVal, FRESH.filterVal)))
  }

  lemma AddLabelRow(filter: Option<string>, table: Table, key: string, value: string, name: string)
    ensures var after := AddLabel(filter, table, key, value);
      var got := if name in table then table[name] else FRESH;
      var rule, managed := Names(filter, RuleField, key) == Some(name), Names(filter, ManagedField, key) == Some(name);
      var filterVal := Names(filter, FilterField, key) == Some(name);
      && (name in after <==> name in table || rule || managed || filterVal)
      && (name in after ==> after[name] == Router(
            if rule then Stored(RuleField, value) else got.rule,
            if managed then Stored(ManagedField, value) else got.managed,
            if filterVal then Stored(FilterField, value) else got.filterVal))
  {
  }

  lemma {:induction false} TableRows(filter: Option<string>, labels: Labels, order: seq<string>, name: string)
    requires forall key <- order :: key in labels
    ensures Row(filter, labels, order, TableOf(filter, labels, order), name)
  {
    hide Names, Stored, AddLabel;
    if order != [] {
      var earlier, last := order[..|order| - 1], order[|order| - 1];
      TableRows(filter, labels, earlier, name);
      AddLabelRow(filter, TableOf(filter, labels, earlier), last, labels[last], name);
    }
  }

  // ---------- when the visiting order matters ----------

  /** No two labels set the same field of the same router to different values. */
  ghost predicate Consistent(filter: Option<string>, labels: Labels) {
    forall field: Field, a, b :: a in labels && b in labels ==> Agree(filter, labels, field, a, b)
  }

  ghost predicate Agree(filter: Option<string>, labels: Labels, field: Field, a: string, b: string)
    requires a in labels && b in labels
  {
    Names(filter, field, a).Some? && Names(filter, field, a) == Names(filter, field, b) ==>
      Stored(field, labels[a]) == Stored(field, labels[b])
  }

  ghost predicate OrderIrrelevant(filter: Option<string>, labels: Labels) {
    forall p, q :: Enumerates(p, labels.Keys) && Enumerates(q, labels.Keys) ==>
      TableOf(filter, labels, p) == TableOf(filter, labels, q)
  }

  lemma {:induction false} FieldFacts(filter: Option<string>, labels: Labels, order: seq<string>, field: Field,
      name: string)
    requires forall key <- order :: key in labels
    ensures match FieldAfter(filter, labels, order, field, name)
      case Some(v) =>
        exists key :: key in order && Names(filter, field, key) == Some(name) && v == Stored(field, labels[key])
      case None => forall key <- order :: Names(filter, field, key) != Some(name)
  {
    hide Names, Stored;
    if order != [] {
      var n := |order| - 1;
      FieldFacts(filter, labels, order[..n], field, name);
      assert order == order[..n] + [order[n]];
    }
  }

  lemma ConsistentFields(filter: Option<string>, labels: Labels, p: seq<string>, q: seq<string>, field: Field,
      name: string)
    requires Consistent(filter, labels) && Enumerates(p, labels.Keys) && Enumerates(q, labels.Keys)
    ensures FieldAfter(filter, labels, p, field, name) == FieldAfter(filter, labels, q, field, name)
  {
    hide Names, Stored;
    FieldFacts(filter, labels, p, field, name);
    FieldFacts(filter, labels, q, field, name);
    if FieldAfter(filter, labels, p, field, name).Some? && FieldAfter(filter, labels, q, field, name).Some? {
      var a :| a in p && Names(filter, field, a) == Some(name)
        && FieldAfter(filter, labels, p, field, name).value == Stored(field, labels[a]);
      var b :| b in q && Names(filter, field, b) == Some(name)
        && FieldAfter(filter, labels, q, field, name).value == Stored(field, labels[b]);
      assert Agree(filter, labels, field, a, b);
    }
  }

  lemma ConsistentTables(filter: Option<string>, labels: Labels, p: seq<string>, q: seq<string>)
    requires Consistent(filter, labels) && Enumerates(p, labels.Keys) && Enumerates(q, labels.Keys)
    ensures TableOf(filter, labels, p) == TableOf(filter, labels, q)
  {
    hide Names, Stored, TableOf, FieldAfter;
    var s, t := TableOf(filter, labels, p), TableOf(filter, labels, q);
    forall name ensures (name in s <==> name in t) && (name in s ==> s[name] == t[name]) {
      TableRows(filter, labels, p, name);
      TableRows(filter, labels, q, name);
      ConsistentFields(filter, labels, p, q, RuleField, name);
      ConsistentFields(filter, labels, p, q, ManagedField, name);
      ConsistentFields(filter, labels, p, q, FilterField, name);
    }
    assert s == t;
  }

  lemma {:induction false} EnumerationExists(keys: set<string>) returns (order: seq<string>)
    ensures Enumerates(order, keys)
    decreases |keys|
  {
    if keys == {} {
      order := [];
    } else {
      var key :| key in keys;
      var rest := EnumerationExists(keys - {key});
      order := rest + [key];
    }
  }

  lemma LastWins(filter: Option<string>, labels: Labels, rest: seq<string>, a: string, b: string, field: Field,
      name: string)
    requires Enumerates(rest, labels.Keys - {a, b}) && a in labels && b in labels && a != b
    requires Names(filter, field, b) == Some(name)
    ensures var order := rest + [a, b];
      && Enumerates(order, labels.Keys)
      && FieldAfter(filter, labels, order, field, name) == Some(Stored(field, labels[b]))
  {
    hide Names, Stored;
    var order := rest + [a, b];
    assert order[|order| - 1] == b;
    forall key | key in labels.Keys ensures key in order {
      if key != a && key != b {
        assert key in rest;
      } else {
        assert order[|rest|] == a;
      }
    }
  }

  lemma DisagreementShows(filter: Option<string>, labels: Labels, field: Field, a: string, b: string)
    requires a in labels && b in labels && !Agree(filter, labels, field, a, b)
    ensures !OrderIrrelevant(filter, labels)
  {
    hide Names, Stored, TableOf, FieldAfter;
    var name := Names(filter, field, a).value;
    var rest := EnumerationExists(labels.Keys - {a, b});
    var p, q := rest + [a, b], rest + [b, a];
    LastWins(filter, labels, rest, a, b, field, name);
    assert labels.Keys - {b, a} == labels.Keys - {a, b};
    LastWins(filter, labels, rest, b, a, field, name);
    TableRows(filter, labels, p, name);
    TableRows(filter, labels, q, name);
    assert Get(TableOf(filter, labels, p)[name], field) != Get(TableOf(filter, labels, q)[name], field);
  }

  /** The routers read from a container's labels are the same for every map iteration order if and only if no two
      labels give the same field of the same router different values. */
  lemma OrderIrrelevantIffConsistent(filter: Option<string>, labels: Labels)
    ensures OrderIrrelevant(filter, labels) <==> Consistent(filter, labels)
  {
    hide Names, Stored, TableOf;
    if Consistent(filter, labels) {
      forall p, q | Enumerates(p, labels.Keys) && Enumerates(q, labels.Keys)
        ensures TableOf(filter, labels, p) == TableOf(filter, labels, q)
      {
        ConsistentTables(filter, labels, p, q);
      }
    } else {
      var field: Field, a, b :| a in labels && b in labels && !Agree(filter, labels, field, a, b);
      DisagreementShows(filter, labels, field, a, b);
    }
  }

  // ---------- which labels can collide ----------

  /** The two keys whose prefix and suffix overlap, so that trimming leaves another router's name. */
  const RULE_OVERLAP := "traefik.http.routers.rule"
  const MANAGED_OVERLAP := "traefik.http.routers.mesh.managed"

  lemma ShortRuleKey(key: string)
    ensures HasPrefix(key, ROUTERS) && HasSuffix(key, RULE) && |key| < |ROUTERS| + |RULE| ==> key == RULE_OVERLAP
  {
    var n := |key|;
    if HasPrefix(key, ROUTERS) && HasSuffix(key, RULE) && n < |ROUTERS| + |RULE| {
      assert key[n - 5] == '.' && key[n - 5] == ROUTERS[n - 5];
      assert n == 25;
      assert key == ROUTERS + key[21..];
      assert key[21..] == key[20..][1..] == "rule";
    }
  }

  lemma ShortManagedKey(key: string)
    ensures HasPrefix(key, ROUTERS) && HasSuffix(key, MANAGED) && |key| < |ROUTERS| + |MANAGED| ==>
      key == MANAGED_OVERLAP
  {
    var n := |key|;
    if HasPrefix(key, ROUTERS) && HasSuffix(key, MANAGED) && n < |ROUTERS| + |MANAGED| {
      assert key[n - 13] == '.' && key[n - 13] == ROUTERS[n - 13];
      assert key[n - 12] == 'm';
      assert n == 33 || n == 25;
      assert key[13] == ROUTERS[13];
      assert key == ROUTERS + key[21..];
      assert key[21..] == key[20..][1..] == "mesh.managed";
    }
  }

  lemma LongKey(key: string, suffix: string, name: string)
    requires Between(key, ROUTERS, suffix) == Some(name) && |key| >= |ROUTERS| + |suffix|
    ensures key == ROUTERS + name + suffix
  {
  }

  lemma RuleKey(key: string, name: string)
    requires Between(key, ROUTERS, RULE) == Some(name) && key != RULE_OVERLAP
    ensures key == ROUTERS + name + RULE
  {
    ShortRuleKey(key);
    LongKey(key, RULE, name);
  }

  lemma ManagedKey(key: string, name: string)
    requires Between(key, ROUTERS, MANAGED) == Some(name) && key != MANAGED_OVERLAP
    ensures key == ROUTERS + name + MANAGED
  {
    ShortManagedKey(key);
    LongKey(key, MANAGED, name);
  }

  lemma {:induction false} LongestFacts(tail: seq<string>, rest: string, n: nat)
    requires n <= |rest|
    ensures match Longest(tail, rest, n)
      case Some(text) => text != "" && '.' !in text && text <= rest && Glob(tail, rest[|text|..])
      case None => forall k :: 1 <= k <= n && '.' !in rest[..k] ==> !Glob(tail, rest[k..])
  {
    if n > 0 && !('.' !in rest[..n] && Glob(tail, rest[n..])) {
      LongestFacts(tail, rest, n - 1);
    }
  }

  lemma {:induction false} LongestIsGreedy(tail: seq<string>, rest: string, n: nat, k: nat)
    requires n <= |rest| && Longest(tail, rest, n).Some? && |Longest(tail, rest, n).value| < k <= n
    ensures '.' in rest[..k] || !Glob(tail, rest[k..])
  {
    hide Glob;
    if n > k {
      LongestIsGreedy(tail, rest, n - 1, k);
    }
  }

  /** The pieces of a filter label with these texts in place of its stars. */
  function Filled(pieces: seq<string>, texts: seq<string>): string
    requires |pieces| == |texts| + 1
  {
    if texts == [] then pieces[0] else pieces[0] + texts[0] + Filled(pieces[1..], texts[1..])
  }

  /** What the stars may stand for: one or more characters other than dots. */
  ghost predicate Fills(pieces: seq<string>, texts: seq<string>, key: string) {
    && |pieces| == |texts| + 1
    && (forall text <- texts :: text != "" && '.' !in text)
    && Filled(pieces, texts) == key
  }

  lemma FillsMany(pieces: seq<string>, texts: seq<string>, key: string)
    requires Fills(pieces, texts, key)
    ensures |pieces| == |texts| + 1
  {
  }

  lemma FillsTail(pieces: seq<string>, texts: seq<string>, key: string)
    requires Fills(pieces, texts, key) && texts != []
    ensures var tail := Filled(pieces[1..], texts[1..]);
      && Fills(pieces[1..], texts[1..], tail) && texts[0] != "" && '.' !in texts[0]
      && pieces[0] <= key && key[|pieces[0]|..] == texts[0] + tail
  {
    var tail := Filled(pieces[1..], texts[1..]);
    assert key == pieces[0] + texts[0] + tail;
    forall text | text in texts[1..] ensures text != "" && '.' !in text {
      assert text in texts;
    }
    assert texts[0] in texts;
  }

  lemma {:induction false} FillsGlob(pieces: seq<string>, texts: seq<string>, key: string)
    requires Fills(pieces, texts, key)
    ensures Glob(pieces, key)
    decreases |pieces|
  {
    hide Fills;
    if texts == [] {
      OnePiece(pieces, key);
    } else {
      FillsMany(pieces, texts, key);
      FillsTail(pieces, texts, key);
      var text, rest, tail := texts[0], key[|pieces[0]|..], Filled(pieces[1..], texts[1..]);
      assert rest[..|text|] == text && rest[|text|..] == tail;
      FillsGlob(pieces[1..], texts[1..], tail);
    }
  }

  lemma OnePiece(pieces: seq<string>, key: string)
    ensures Fills(pieces, [], key) <==> |pieces| == 1 && Glob(pieces, key)
  {
  }

  lemma {:induction false} GlobFills(pieces: seq<string>, key: string) returns (texts: seq<string>)
    requires Glob(pieces, key)
    ensures Fills(pieces, texts, key)
    decreases |pieces|
  {
    hide Glob, Fills;
    OnePiece(pieces, key);
    SomePiece(pieces, key);
    if |pieces| == 1 {
      texts := [];
    } else {
      var n := FirstText(pieces, key);
      var rest := key[|pieces[0]|..];
      var more := GlobFills(pieces[1..], rest[n..]);
      texts := [rest[..n]] + more;
      FillsCons(pieces, rest[..n], more, rest[n..]);
      assert key == pieces[0] + rest[..n] + rest[n..];
    }
  }

  lemma SomePiece(pieces: seq<string>, key: string)
    requires Glob(pieces, key)
    ensures pieces != []
  {
  }

  lemma FirstText(pieces: seq<string>, key: string) returns (n: nat)
    requires Glob(pieces, key) && |pieces| > 1
    ensures pieces[0] <= key && 1 <= n <= |key| - |pieces[0]|
    ensures var rest := key[|pieces[0]|..]; '.' !in rest[..n] && Glob(pieces[1..], rest[n..])
  {
    var rest := key[|pieces[0]|..];
    n :| 1 <= n <= |rest| && '.' !in rest[..n] && Glob(pieces[1..], rest[n..]);
  }

  lemma FillsCons(pieces: seq<string>, text: string, more: seq<string>, tail: string)
    requires |pieces| > 1 && Fills(pieces[1..], more, tail) && text != "" && '.' !in text
    ensures Fills(pieces, [text] + more, pieces[0] + text + tail)
  {
  }

  /** With any number of stars, what a filter label captures from a key is the text of its first star in some way of
      filling its stars that gives the key. */
  lemma CaptureFills(filterLabel: string, key: string) returns (texts: seq<string>)
    requires Capture(filterLabel, key).Some?
    ensures texts != [] && Fills(Split(filterLabel, '*'), texts, key)
    ensures Capture(filterLabel, key) == Some(texts[0])
  {
    hide Longest, Split, Filled, Glob;
    var pieces := Split(filterLabel, '*');
    var rest := key[|pieces[0]|..];
    LongestFacts(pieces[1..], rest, |rest|);
    var text := Capture(filterLabel, key).value;
    var more := GlobFills(pieces[1..], rest[|text|..]);
    texts := [text] + more;
    FillsCons(pieces, text, more, rest[|text|..]);
    assert key == pieces[0] + text + rest[|text|..];
  }

  /** And no other way gives the first star more: if there is a way at all, something at least as long is captured. */
  lemma CaptureIsGreedy(filterLabel: string, key: string, texts: seq<string>)
    requires texts != [] && Fills(Split(filterLabel, '*'), texts, key)
    ensures Capture(filterLabel, key).Some? && |texts[0]| <= |Capture(filterLabel, key).value|
  {
    hide Longest, Glob, Split, Filled, Fills;
    var pieces := Split(filterLabel, '*');
    FillsMany(pieces, texts, key);
    FillsTail(pieces, texts, key);
    var tail := Filled(pieces[1..], texts[1..]);
    var rest := key[|pieces[0]|..];
    assert rest[..|texts[0]|] == texts[0] && rest[|texts[0]|..] == tail;
    FillsGlob(pieces[1..], texts[1..], tail);
    LongestFacts(pieces[1..], rest, |rest|);
    if |Capture(filterLabel, key).value| < |texts[0]| {
      LongestIsGreedy(pieces[1..], rest, |rest|, |texts[0]|);
    }
  }

  /** With one star, the captured name and the label's own text make up the whole key. */
  lemma OneStarKey(filterLabel: string, key: string, name: string)
    requires |Split(filterLabel, '*')| == 2 && Capture(filterLabel, key) == Some(name)
    ensures key == Split(filterLabel, '*')[0] + name + Split(filterLabel, '*')[1]
  {
    hide Longest, Split, Glob;
    var pieces := Split(filterLabel, '*');
    var rest := key[|pieces[0]|..];
    LongestFacts(pieces[1..], rest, |rest|);
    assert key == pieces[0] + rest;
    assert rest == name + rest[|name|..];
    LastPiece(pieces[1..], rest[|name|..]);
  }

  lemma LastPiece(pieces: seq<string>, s: string)
    requires |pieces| == 1
    ensures Glob(pieces, s) <==> s == pieces[0]
  {
  }

  /** And it captures exactly this: a label "left*right" matches the keys that have a non-empty text without a dot
      between left and right, and captures that text. */
  lemma CaptureIff(left: string, right: string, key: string, name: string)
    requires '*' !in left && '*' !in right
    ensures Capture(left + "*" + right, key) == Some(name) <==> key == left + name + right && name != "" && '.' !in name
  {
    hide Capture, Split, Fills;
    var pattern := left + "*" + right;
    SplitAtStar(left, right);
    if key == left + name + right && name != "" && '.' !in name {
      FillsOne(left, right, [name], key);
      CaptureIsGreedy(pattern, key, [name]);
    }
    if Capture(pattern, key).Some? {
      var texts := CaptureFills(pattern, key);
      FillsOne(left, right, texts, key);
      SameMiddle(left, texts[0], name, right);
    }
  }

  lemma FillsOne(left: string, right: string, texts: seq<string>, key: string)
    ensures Fills([left, right], texts, key) <==>
      |texts| == 1 && texts[0] != "" && '.' !in texts[0] && key == left + texts[0] + right
  {
    if |texts| == 1 {
      assert Filled([left, right], texts) == left + texts[0] + Filled([right], []) by {
        assert [left, right][1..] == [right] && texts[1..] == [];
      }
      assert texts[0] in texts;
    }
  }

  lemma SameMiddle(left: string, a: string, b: string, right: string)
    ensures left + a + right == left + b + right ==> a == b
  {
    if left + a + right == left + b + right {
      assert |a| == |b|;
      assert a == (left + a + right)[|left|..|left| + |a|] == (left + b + right)[|left|..|left| + |b|] == b;
    }
  }

  lemma SplitAtStar(left: string, right: string)
    requires '*' !in left && '*' !in right
    ensures Split(left + "*" + right, '*') == [left, right]
  {
    hide Split;
    assert [left, right][1..] == [right];
    assert Join([left, right], '*') == left + ['*'] + Join([right], '*');
    SplitInvertsJoin([left, right], '*');
  }

  predicate AtMostOneStar(filter: Option<string>) {
    filter.Some? ==> |Split(filter.value, '*')| <= 2
  }

  /** With at most one star in the filter label and neither overlapping key, labels never disagree. */
  lemma PlainLabelsConsistent(filter: Option<string>, labels: Labels)
    requires AtMostOneStar(filter) && RULE_OVERLAP !in labels && MANAGED_OVERLAP !in labels
    ensures Consistent(filter, labels) && OrderIrrelevant(filter, labels)
  {
    hide Between, Capture, Stored, TableOf;
    forall field: Field, a, b | a in labels && b in labels ensures Agree(filter, labels, field, a, b) {
      if Names(filter, field, a).Some? && Names(filter, field, a) == Names(filter, field, b) {
        var name := Names(filter, field, a).value;
        match field
        case RuleField => RuleKey(a, name); RuleKey(b, name);
        case ManagedField => ManagedKey(a, name); ManagedKey(b, name);
        case FilterField =>
          NoStarNoCapture(filter.value, a);
          OneStarKey(filter.value, a, name);
          OneStarKey(filter.value, b, name);
      }
    }
    OrderIrrelevantIffConsistent(filter, labels);
  }

  lemma NoStarNoCapture(filterLabel: string, key: string)
    ensures |Split(filterLabel, '*')| < 2 ==> Capture(filterLabel, key) == None
  {
  }

  // ---------- routers to hosts ----------

  /** The hosts of a router's rule, or the container's own when the rule names none. */
  function RouterHosts(svc: Service, rule: string): seq<string> {
    var hosts := RuleParser.Hosts(rule);
    if |hosts| == 0 && |svc.hosts| > 0 then svc.hosts else hosts
  }

  predicate Passes(filter: Option<string>, filterValue: string, router: Router) {
    router.rule != "" && (filter.Some? && filterValue != "" ==> FilterAccepts(router.filterVal, filterValue))
  }

  /** The active (or the ignored) hosts that a table of routers gives. */
  function HostsOf(filter: Option<string>, filterValue: string, svc: Service, table: Table, active: bool): set<string> {
    set name, host | name in table && Passes(filter, filterValue, table[name])
      && (table[name].managed != "false") == active && host in RouterHosts(svc, table[name].rule) :: host
  }

  ghost predicate Orders(services: seq<Service>, orders: seq<seq<string>>) {
    |orders| == |services| && forall i :: 0 <= i < |services| ==> Enumerates(orders[i], services[i].labels.Keys)
  }

  ghost function Gather(filter: Option<string>, filterValue: string, services: seq<Service>, orders: seq<seq<string>>,
      active: bool): set<string>
    requires Orders(services, orders)
  {
    if services == [] then {}
    else
      var n := |services| - 1;
      Gather(filter, filterValue, services[..n], orders[..n], active) +
        HostsOf(filter, filterValue, services[n], TableOf(filter, services[n].labels, orders[n]), active)
  }

  /** The body of the label loop: a label may set up to three fields, of up to three routers. */
  method VisitLabel(filter: Option<string>, table: Table, key: string, val: string) returns (routers: Table)
    ensures routers == AddLabel(filter, table, key, val)
  {
    hide Between, Capture;
    routers := table;
    var name := Between(key, ROUTERS, RULE);
    if name.Some? {
      routers := GetRouter(routers, name.value);
      routers := routers[name.value := routers[name.value].(rule := val)];
    }
    assert routers == AddField(filter, table, key, val, RuleField);
    ghost var ruled := routers;
    name := Between(key, ROUTERS, MANAGED);
    if name.Some? {
      routers := GetRouter(routers, name.value);
      routers := routers[name.value := routers[name.value].(managed := Lower(val))];
    }
    assert routers == AddField(filter, ruled, key, val, ManagedField);
    if filter.Some? {
      name := Capture(filter.value, key);
      if name.Some? {
        routers := GetRouter(routers, name.value);
        routers := routers[name.value := routers[name.value].(filterVal := val)];
      }
    }
  }

  /** Reads one container's labels into routers, in whatever order the map yields them. */
  method ReadRouters(filter: Option<string>, labels: Labels) returns (routers: Table, ghost order: seq<string>)
    ensures Enumerates(order, labels.Keys)
    ensures routers == TableOf(filter, labels, order)
  {
    hide AddLabel;
    routers, order := map[], [];
    var todo := labels.Keys;
    while todo != {}
      invariant todo <= labels.Keys && Enumerates(order, labels.Keys - todo)
      invariant routers == TableOf(filter, labels, order)
    {
      var key :| key in todo;
      routers := VisitLabel(filter, routers, key, labels[key]);
      todo := todo - {key};
      assert (order + [key])[..|order|] == order;
      order := order + [key];
    }
  }

  function GetRouter(routers: Table, name: string): Table {
    if name in routers then routers else routers[name := FRESH]
  }

  /** Sorts one container's routers into the two host sets, in whatever order the map yields them. */
  method CollectHosts(filter: Option<string>, filterValue: string, svc: Service, routers: Table)
    returns (active: set<string>, ignored: set<string>)
    ensures active == HostsOf(filter, filterValue, svc, routers, true)
    ensures ignored == HostsOf(filter, filterValue, svc, routers, false)
  {
    hide Passes, RouterHosts;
    active, ignored := {}, {};
    var todo := routers.Keys;
    assert routers - routers.Keys == map[];
    while todo != {}
      invariant todo <= routers.Keys
      invariant active == HostsOf(filter, filterValue, svc, routers - todo, true)
      invariant ignored == HostsOf(filter, filterValue, svc, routers - todo, false)
    {
      var name :| name in todo;
      var data := routers[name];
      ghost var seen := routers - todo;
      var hosts := CollectRouter(filter, filterValue, svc, data);
      OneMoreRouter(filter, filterValue, svc, seen, name, data, true);
      OneMoreRouter(filter, filterValue, svc, seen, name, data, false);
      if data.managed != "false" {
        active := active + hosts;
      } else {
        ignored := ignored + hosts;
      }
      todo := todo - {name};
      assert routers - todo == seen[name := data];
    }
    assert routers - todo == routers;
  }

  function HostsOfRouter(filter: Option<string>, filterValue: string, svc: Service, data: Router): set<string> {
    if Passes(filter, filterValue, data) then set host | host in RouterHosts(svc, data.rule) else {}
  }

  lemma OneMoreRouter(filter: Option<string>, filterValue: string, svc: Service, table: Table, name: string,
      data: Router, active: bool)
    requires name !in table
    ensures HostsOf(filter, filterValue, svc, table[name := data], active) ==
      HostsOf(filter, filterValue, svc, table, active) +
      if (data.managed != "false") == active then HostsOfRouter(filter, filterValue, svc, data) else {}
  {
    hide Passes, RouterHosts;
    var more := table[name := data];
    forall host | host in HostsOf(filter, filterValue, svc, table, active)
      ensures host in HostsOf(filter, filterValue, svc, more, active)
    {
      var n :| n in table && Passes(filter, filterValue, table[n])
        && (table[n].managed != "false") == active && host in RouterHosts(svc, table[n].rule);
      assert n in more && more[n] == table[n];
    }
    if (data.managed != "false") == active && Passes(filter, filterValue, data) {
      assert name in more && more[name] == data;
    }
  }

  method CollectRouter(filter: Option<string>, filterValue: string, svc: Service,
      data: Router) returns (found: set<string>)
    ensures found == HostsOfRouter(filter, filterValue, svc, data)
  {
    hide FilterAccepts, RuleParser.Hosts, RuleParser.Paths;
    found := {};
    if data.rule == "" {
      return;
    }
    if filter.Some? && filterValue != "" {
      var matches := MatchFilter(data.filterVal, filterValue);
      if !matches {
        return;
      }
    }
    var hosts, _ := RuleParser.ParseRule(data.rule);
    if |hosts| == 0 && |svc.hosts| > 0 {
      hosts := svc.hosts;
    }
    for i := 0 to |hosts|
      invariant found == set host | host in hosts[..i]
    {
      assert hosts[..i + 1] == hosts[..i] + [hosts[i]];
      found := found + {hosts[i]};
    }
    assert hosts[..|hosts|] == hosts;
  }

  /** `extractMeshHosts` of the Cloudflare client. `orders` is the order in which each label map was visited. */
  method ExtractMeshHosts(services: seq<Service>, filter: Option<string>, filterValue: string)
    returns (active: set<string>, ignored: set<string>, ghost orders: seq<seq<string>>)
    ensures Orders(services, orders)
    ensures active == Gather(filter, filterValue, services, orders, true)
    ensures ignored == Gather(filter, filterValue, services, orders, false)
    ensures AllConsistent(filter, services) ==>
      && active == Extracted(filter, filterValue, services, true)
      && ignored == Extracted(filter, filterValue, services, false)
  {
    hide HostsOf, TableOf, Enumerates, AllConsistent;
    active, ignored, orders := {}, {}, [];
    for i := 0 to |services|
      invariant Orders(services[..i], orders)
      invariant active == Gather(filter, filterValue, services[..i], orders, true)
      invariant ignored == Gather(filter, filterValue, services[..i], orders, false)
    {
      var routers;
      ghost var order;
      routers, order := ReadRouters(filter, services[i].labels);
      var more, less := CollectHosts(filter, filterValue, services[i], routers);
      active, ignored := active + more, ignored + less;
      assert services[..i + 1][..i] == services[..i] && (orders + [order])[..i] == orders;
      orders := orders + [order];
    }
    assert services[..|services|] == services;
    if AllConsistent(filter, services) {
      ExtractionIsOrderFree(filter, filterValue, services, orders, true);
      ExtractionIsOrderFree(filter, filterValue, services, orders, false);
    }
  }

  // ---------- NetBird's extraction, which has no filter ----------

  datatype PlainRouter = PlainRouter(rule: string, managed: string)

  type PlainTable = map<string, PlainRouter>

  function PutPlain(table: PlainTable, name: Option<string>, field: Field, value: string): PlainTable {
    match name
    case None => table
    case Some(n) =>
      var router := if n in table then table[n] else PlainRouter("", "true");
      table[n := if field == RuleField then router.(rule := value) else router.(managed := value)]
  }

  function AddPlain(table: PlainTable, key: string, value: string): PlainTable {
    var ruled := PutPlain(table, Between(key, ROUTERS, RULE), RuleField, value);
    PutPlain(ruled, Between(key, ROUTERS, MANAGED), ManagedField, Lower(value))
  }

  function PlainTableOf(labels: Labels, order: seq<string>): PlainTable
    requires forall key <- order :: key in labels
  {
    if order == [] then map[]
    else
      var last := order[|order| - 1];
      AddPlain(PlainTableOf(labels, order[..|order| - 1]), last, labels[last])
  }

  function PlainHostsOf(svc: Service, table: PlainTable, active: bool): set<string> {
    set name, host | name in table && table[name].rule != ""
      && (table[name].managed != "false") == active && host in RouterHosts(svc, table[name].rule) :: host
  }

  ghost function PlainGather(services: seq<Service>, orders: seq<seq<string>>, active: bool): set<string>
    requires Orders(services, orders)
  {
    if services == [] then {}
    else
      var n := |services| - 1;
      PlainGather(services[..n], orders[..n], active) +
        PlainHostsOf(services[n], PlainTableOf(services[n].labels, orders[n]), active)
  }

  /** `extractMeshHosts` of the NetBird client. */
  method ExtractPlainHosts(services: seq<Service>)
    returns (active: set<string>, ignored: set<string>, ghost orders: seq<seq<string>>)
    ensures Orders(services, orders)
    ensures active == PlainGather(services, orders, true)
    ensures ignored == PlainGather(services, orders, false)
    ensures AllConsistent(None, services) ==>
      active == Extracted(None, "", services, true) && ignored == Extracted(None, "", services, false)
  {
    hide PlainHostsOf, PlainTableOf, Enumerates, AllConsistent;
    active, ignored, orders := {}, {}, [];
    for i := 0 to |services|
      invariant Orders(services[..i], orders)
      invariant active == PlainGather(services[..i], orders, true)
      invariant ignored == PlainGather(services[..i], orders, false)
    {
      var more, less;
      ghost var order;
      more, less, order := ExtractPlainService(services[i]);
      active, ignored := active + more, ignored + less;
      assert services[..i + 1][..i] == services[..i] && (orders + [order])[..i] == orders;
      orders := orders + [order];
    }
    assert services[..|services|] == services;
    if AllConsistent(None, services) {
      FilterRefines(None, "", services, SomeOrders(services), orders, true);
      FilterRefines(None, "", services, SomeOrders(services), orders, false);
    }
  }

  method ExtractPlainService(svc: Service) returns (active: set<string>, ignored: set<string>, ghost order: seq<string>)
    ensures Enumerates(order, svc.labels.Keys)
    ensures active == PlainHostsOf(svc, PlainTableOf(svc.labels, order), true)
    ensures ignored == PlainHostsOf(svc, PlainTableOf(svc.labels, order), false)
  {
    hide AddPlain, RouterHosts;
    var routers: PlainTable := map[];
    order := [];
    var keys := svc.labels.Keys;
    while keys != {}
      invariant keys <= svc.labels.Keys && Enumerates(order, svc.labels.Keys - keys)
      invariant routers == PlainTableOf(svc.labels, order)
    {
      var key :| key in keys;
      routers := AddPlain(routers, key, svc.labels[key]);
      keys := keys - {key};
      assert (order + [key])[..|order|] == order;
      order := order + [key];
    }
    active, ignored := {}, {};
    var todo := routers.Keys;
    assert routers - routers.Keys == map[];
    while todo != {}
      invariant todo <= routers.Keys
      invariant active == PlainHostsOf(svc, routers - todo, true)
      invariant ignored == PlainHostsOf(svc, routers - todo, false)
    {
      var name :| name in todo;
      var data := routers[name];
      ghost var seen := routers - todo;
      OneMorePlain(svc, seen, name, data, true);
      OneMorePlain(svc, seen, name, data, false);
      if data.rule != "" {
        var hosts := set host | host in RouterHosts(svc, data.rule);
        if data.managed != "false" {
          active := active + hosts;
        } else {
          ignored := ignored + hosts;
        }
      }
      todo := todo - {name};
      assert routers - todo == seen[name := data];
    }
    assert routers - todo == routers;
  }

  lemma OneMorePlain(svc: Service, table: PlainTable, name: string, data: PlainRouter, active: bool)
    requires name !in table
    ensures PlainHostsOf(svc, table[name := data], active) ==
      PlainHostsOf(svc, table, active) +
      if data.rule != "" && (data.managed != "false") == active
      then set host | host in RouterHosts(svc, data.rule)
      else {}
  {
    hide RouterHosts;
    var more := table[name := data];
    forall host | host in PlainHostsOf(svc, table, active) ensures host in PlainHostsOf(svc, more, active) {
      var n :| n in table && table[n].rule != ""
        && (table[n].managed != "false") == active && host in RouterHosts(svc, table[n].rule);
      assert n in more && more[n] == table[n];
    }
    if data.rule != "" && (data.managed != "false") == active {
      assert name in more && more[name] == data;
    }
  }

  /** The two tables agree on every router that NetBird sees; the others are blank but for a filter. */
  ghost predicate SameRouters(table: Table, plain: PlainTable) {
    && (forall name <- plain :: name in table && PlainRouter(table[name].rule, table[name].managed) == plain[name])
    && (forall name <- table :: name in plain || (table[name].rule == "" && table[name].managed == FRESH.managed))
  }

  lemma PutAgrees(table: Table, plain: PlainTable, name: Option<string>, field: Field, value: string)
    requires SameRouters(table, plain)
    ensures SameRouters(Put(table, name, field, value),
              if field == FilterField then plain else PutPlain(plain, name, field, value))
  {
  }

  lemma VisitAgrees(filter: Option<string>, table: Table, plain: PlainTable, key: string, value: string)
    requires SameRouters(table, plain)
    ensures SameRouters(AddLabel(filter, table, key, value), AddPlain(plain, key, value))
  {
    hide Between, Capture, Put, PutPlain, SameRouters;
    var rule, managed := Names(filter, RuleField, key), Names(filter, ManagedField, key);
    PutAgrees(table, plain, rule, RuleField, value);
    var t1, p1 := Put(table, rule, RuleField, value), PutPlain(plain, rule, RuleField, value);
    PutAgrees(t1, p1, managed, ManagedField, Lower(value));
    var t2, p2 := Put(t1, managed, ManagedField, Lower(value)), PutPlain(p1, managed, ManagedField, Lower(value));
    PutAgrees(t2, p2, Names(filter, FilterField, key), FilterField, value);
  }

  lemma {:induction false} TablesAgree(filter: Option<string>, labels: Labels, order: seq<string>)
    requires forall key <- order :: key in labels
    ensures SameRouters(TableOf(filter, labels, order), PlainTableOf(labels, order))
  {
    hide AddLabel, AddPlain;
    if order != [] {
      var n := |order| - 1;
      TablesAgree(filter, labels, order[..n]);
      VisitAgrees(filter, TableOf(filter, labels, order[..n]), PlainTableOf(labels, order[..n]), order[n],
        labels[order[n]]);
    }
  }

  lemma HostsRefine(filter: Option<string>, filterValue: string, svc: Service, table: Table, plain: PlainTable,
      active: bool)
    requires SameRouters(table, plain)
    ensures HostsOf(filter, filterValue, svc, table, active) <= PlainHostsOf(svc, plain, active)
    ensures filter.None? || filterValue == "" ==>
      HostsOf(filter, filterValue, svc, table, active) == PlainHostsOf(svc, plain, active)
  {
  }

  // ---------- from labels straight to hosts ----------

  /** A filter label with one star, by what stands before and after it. */
  function Label(star: Option<(string, string)>): Option<string> {
    match star
    case None => None
    case Some((left, right)) => Some(left + "*" + right)
  }

  predicate OneStar(star: Option<(string, string)>) {
    star.Some? ==> '*' !in star.value.0 && '*' !in star.value.1
  }

  /** No label is one of the two whose prefix and suffix overlap. */
  predicate PlainLabels(labels: Labels) {
    "traefik.http.routers.rule" !in labels && "traefik.http.routers.mesh.managed" !in labels
  }

  /** The container has a router of this name that asks for the host: its rule label is not empty and names the host, or
      names none and the container has it; it counts as ignored if its managed label says false; and where there is a
      filter, its filter label has one of the wanted texts in it. */
  predicate AskedBy(svc: Service, star: Option<(string, string)>, filterValue: string, name: string, active: bool,
      host: string)
  {
    var rule := "traefik.http.routers." + name + ".rule";
    var managed := "traefik.http.routers." + name + ".mesh.managed";
    && rule in svc.labels && svc.labels[rule] != ""
    && (active <==> managed !in svc.labels || Lower(svc.labels[managed]) != "false")
    && (star.Some? && filterValue != "" ==>
          var key := star.value.0 + name + star.value.1;
          && name != "" && '.' !in name && key in svc.labels
          && exists part <- Split(filterValue, ',') ::
               TrimSpace(part) != "" && Contains(svc.labels[key], TrimSpace(part)))
    && var hosts := RuleParser.Hosts(svc.labels[rule]); host in if hosts == [] then svc.hosts else hosts
  }

  ghost predicate Asks(svc: Service, star: Option<(string, string)>, filterValue: string, active: bool, host: string) {
    exists name :: AskedBy(svc, star, filterValue, name, active, host)
  }

  lemma BetweenIs(name: string, suffix: string)
    ensures Between(ROUTERS + name + suffix, ROUTERS, suffix) == Some(name)
  {
    var key := ROUTERS + name + suffix;
    assert key[|ROUTERS|..] == name + suffix;
    assert key[|key| - |suffix|..] == suffix && (name + suffix)[|name|..] == suffix;
  }

  /** Which label sets which field, where no label overlaps. */
  lemma NamedBy(star: Option<(string, string)>, key: string, name: string)
    requires OneStar(star) && key != RULE_OVERLAP && key != MANAGED_OVERLAP
    ensures Names(Label(star), RuleField, key) == Some(name) <==> key == ROUTERS + name + RULE
    ensures Names(Label(star), ManagedField, key) == Some(name) <==> key == ROUTERS + name + MANAGED
    ensures Names(Label(star), FilterField, key) == Some(name) <==>
      star.Some? && key == star.value.0 + name + star.value.1 && name != "" && '.' !in name
  {
    hide Between, Capture;
    if Between(key, ROUTERS, RULE) == Some(name) {
      RuleKey(key, name);
    }
    if Between(key, ROUTERS, MANAGED) == Some(name) {
      ManagedKey(key, name);
    }
    BetweenIs(name, RULE);
    BetweenIs(name, MANAGED);
    if star.Some? {
      CaptureIff(star.value.0, star.value.1, key, name);
    }
  }

  /** A field that one label alone can set says what that label says. */
  lemma SoleLabel(filter: Option<string>, labels: Labels, order: seq<string>, field: Field, name: string, sole: string)
    requires Enumerates(order, labels.Keys)
    requires forall key <- labels :: Names(filter, field, key) == Some(name) <==> key == sole
    ensures FieldAfter(filter, labels, order, field, name) ==
      if sole in labels then Some(Stored(field, labels[sole])) else None
  {
    hide Names, Stored, FieldAfter;
    FieldFacts(filter, labels, order, field, name);
  }

  lemma NoLabel(filter: Option<string>, labels: Labels, order: seq<string>, field: Field, name: string)
    requires Enumerates(order, labels.Keys)
    requires forall key <- labels :: Names(filter, field, key) != Some(name)
    ensures FieldAfter(filter, labels, order, field, name) == None
  {
    hide Names, Stored, FieldAfter;
    FieldFacts(filter, labels, order, field, name);
  }

  /** What the labels say about one router. */
  lemma RouterRead(star: Option<(string, string)>, labels: Labels, order: seq<string>, name: string)
    requires OneStar(star) && PlainLabels(labels) && Enumerates(order, labels.Keys)
    ensures var table, rule := TableOf(Label(star), labels, order), ROUTERS + name + RULE;
      var managed := ROUTERS + name + MANAGED;
      && (name in table && table[name].rule != "" <==> rule in labels && labels[rule] != "")
      && (name in table && table[name].rule != "" ==>
            && table[name].rule == labels[rule]
            && table[name].managed == (if managed in labels then Lower(labels[managed]) else "true")
            && table[name].filterVal ==
               if star.Some? && name != "" && '.' !in name && star.value.0 + name + star.value.1 in labels
               then labels[star.value.0 + name + star.value.1] else "")
  {
    hide Names, TableOf, FieldAfter;
    forall key | key in labels
      ensures Names(Label(star), RuleField, key) == Some(name) <==> key == ROUTERS + name + RULE
      ensures Names(Label(star), ManagedField, key) == Some(name) <==> key == ROUTERS + name + MANAGED
      ensures Names(Label(star), FilterField, key) == Some(name) <==>
        star.Some? && key == star.value.0 + name + star.value.1 && name != "" && '.' !in name
    {
      NamedBy(star, key, name);
    }
    TableRows(Label(star), labels, order, name);
    SoleLabel(Label(star), labels, order, RuleField, name, ROUTERS + name + RULE);
    SoleLabel(Label(star), labels, order, ManagedField, name, ROUTERS + name + MANAGED);
    if star.Some? && name != "" && '.' !in name {
      SoleLabel(Label(star), labels, order, FilterField, name, star.value.0 + name + star.value.1);
    } else {
      NoLabel(Label(star), labels, order, FilterField, name);
    }
  }

  lemma NothingAccepted(envFilter: string)
    ensures !FilterAccepts("", envFilter)
  {
  }

  /** Which routers of a container ask for a host, by its labels. */
  lemma RouterAsks(star: Option<(string, string)>, filterValue: string, svc: Service, order: seq<string>, name: string,
      active: bool, host: string)
    requires OneStar(star) && PlainLabels(svc.labels) && Enumerates(order, svc.labels.Keys)
    ensures var table := TableOf(Label(star), svc.labels, order);
      AskedBy(svc, star, filterValue, name, active, host) <==>
        && name in table && Passes(Label(star), filterValue, table[name])
        && (table[name].managed != "false") == active && host in RouterHosts(svc, table[name].rule)
  {
    hide TableOf, RuleParser.Hosts, Split, TrimSpace, Contains;
    RouterRead(star, svc.labels, order, name);
    NothingAccepted(filterValue);
  }

  /** Whatever order the label map yields, a container's active (or ignored) hosts are those its labels ask for. */
  lemma HostsAsked(star: Option<(string, string)>, filterValue: string, svc: Service, order: seq<string>, active: bool,
      host: string)
    requires OneStar(star) && PlainLabels(svc.labels) && Enumerates(order, svc.labels.Keys)
    ensures host in HostsOf(Label(star), filterValue, svc, TableOf(Label(star), svc.labels, order), active)
      <==> Asks(svc, star, filterValue, active, host)
  {
    hide TableOf, AskedBy, Passes, RouterHosts;
    forall name {
      RouterAsks(star, filterValue, svc, order, name, active, host);
    }
  }

  /** So the extracted hosts are exactly those that some router of some container asks for. */
  lemma {:induction false} GatherAsked(star: Option<(string, string)>, filterValue: string, services: seq<Service>,
      orders: seq<seq<string>>, active: bool, host: string)
    requires OneStar(star) && Orders(services, orders) && forall svc <- services :: PlainLabels(svc.labels)
    ensures host in Gather(Label(star), filterValue, services, orders, active)
      <==> exists svc <- services :: Asks(svc, star, filterValue, active, host)
    ensures star.None? ==> (host in PlainGather(services, orders, active) <==>
      host in Gather(Label(star), filterValue, services, orders, active))
  {
    hide HostsOf, TableOf, Asks, PlainGather, PlainLabels;
    if star.None? {
      GatherRefines(None, filterValue, services, orders, active);
    }
    if services != [] {
      var n := |services| - 1;
      assert services == services[..n] + [services[n]];
      GatherAsked(star, filterValue, services[..n], orders[..n], active, host);
      assert Enumerates(orders[n], services[n].labels.Keys);
      HostsAsked(star, filterValue, services[n], orders[n], active, host);
    }
  }

  /** A filter label without a star lets no router through, once a filter value is set. */
  lemma {:induction false} StarlessFilter(pattern: string, filterValue: string, services: seq<Service>,
      orders: seq<seq<string>>, active: bool)
    requires '*' !in pattern && filterValue != "" && Orders(services, orders)
    ensures Gather(Some(pattern), filterValue, services, orders, active) == {}
  {
    hide TableOf, FilterAccepts;
    if services != [] {
      var n := |services| - 1;
      StarlessFilter(pattern, filterValue, services[..n], orders[..n], active);
      assert Enumerates(orders[n], services[n].labels.Keys);
      var table := TableOf(Some(pattern), services[n].labels, orders[n]);
      forall name | name in table ensures !Passes(Some(pattern), filterValue, table[name]) {
        NeverFiltered(pattern, services[n].labels, orders[n], name);
        NothingAccepted(filterValue);
      }
    }
  }

  lemma NeverFiltered(pattern: string, labels: Labels, order: seq<string>, name: string)
    requires '*' !in pattern && Enumerates(order, labels.Keys)
    ensures var table := TableOf(Some(pattern), labels, order); name in table ==> table[name].filterVal == ""
  {
    hide Between, Stored, TableOf, FieldAfter;
    TableRows(Some(pattern), labels, order, name);
    assert |Split(pattern, '*')| == 1;
    NoLabel(Some(pattern), labels, order, FilterField, name);
  }

  lemma {:induction false} GatherRefines(filter: Option<string>, filterValue: string, services: seq<Service>,
      orders: seq<seq<string>>, active: bool)
    requires Orders(services, orders)
    ensures Gather(filter, filterValue, services, orders, active) <= PlainGather(services, orders, active)
    ensures filter.None? || filterValue == "" ==>
      Gather(filter, filterValue, services, orders, active) == PlainGather(services, orders, active)
  {
    hide HostsOf, PlainHostsOf, SameRouters, TableOf, PlainTableOf, Enumerates;
    if services != [] {
      var n := |services| - 1;
      GatherRefines(filter, filterValue, services[..n], orders[..n], active);
      var svc := services[n];
      assert Enumerates(orders[n], svc.labels.Keys);
      OrderInLabels(orders[n], svc.labels);
      TablesAgree(filter, svc.labels, orders[n]);
      HostsRefine(filter, filterValue, svc, TableOf(filter, svc.labels, orders[n]), PlainTableOf(svc.labels, orders[n]),
        active);
    }
  }

  lemma OrderInLabels(order: seq<string>, labels: Labels)
    requires Enumerates(order, labels.Keys)
    ensures forall key <- order :: key in labels
  {
  }

  // ---------- sets that depend on the services alone ----------

  ghost predicate AllConsistent(filter: Option<string>, services: seq<Service>) {
    forall svc <- services :: Consistent(filter, svc.labels)
  }

  lemma {:induction false} GatherIgnoresOrder(filter: Option<string>, filterValue: string, services: seq<Service>,
      p: seq<seq<string>>, q: seq<seq<string>>, active: bool)
    requires Orders(services, p) && Orders(services, q) && AllConsistent(filter, services)
    ensures Gather(filter, filterValue, services, p, active) == Gather(filter, filterValue, services, q, active)
  {
    hide HostsOf, TableOf, Consistent;
    if services != [] {
      var n := |services| - 1;
      assert forall svc <- services[..n] :: svc in services;
      GatherIgnoresOrder(filter, filterValue, services[..n], p[..n], q[..n], active);
      assert services[n] in services;
      ConsistentTables(filter, services[n].labels, p[n], q[n]);
    }
  }

  ghost function SomeOrders(services: seq<Service>): (orders: seq<seq<string>>)
    ensures Orders(services, orders)
  {
    if services == [] then []
    else
      var n := |services| - 1;
      var earlier := SomeOrders(services[..n]);
      var last := EnumerationOf(services[n].labels.Keys);
      earlier + [last]
  }

  lemma CanEnumerate(keys: set<string>)
    ensures exists order :: Enumerates(order, keys)
  {
    var _ := EnumerationExists(keys);
  }

  ghost function EnumerationOf(keys: set<string>): (order: seq<string>)
    ensures Enumerates(order, keys)
  {
    CanEnumerate(keys);
    var order :| Enumerates(order, keys);
    order
  }

  /** The hosts the services ask for: the same whatever order their maps are visited in, if they are consistent. */
  ghost function Extracted(filter: Option<string>, filterValue: string, services: seq<Service>,
      active: bool): set<string> {
    Gather(filter, filterValue, services, SomeOrders(services), active)
  }

  /** `extractMeshHosts` computes the extracted sets for every iteration order. */
  lemma ExtractionIsOrderFree(filter: Option<string>, filterValue: string, services: seq<Service>,
      orders: seq<seq<string>>, active: bool)
    requires Orders(services, orders) && AllConsistent(filter, services)
    ensures Gather(filter, filterValue, services, orders, active) == Extracted(filter, filterValue, services, active)
  {
    GatherIgnoresOrder(filter, filterValue, services, orders, SomeOrders(services), active);
  }

  /** Labels that all set the rule of one router leave it with the rule of the label visited last. */
  lemma SoleRouter(labels: Labels, order: seq<string>, name: string)
    requires Enumerates(order, labels.Keys) && order != []
    requires forall key <- labels :: Names(None, RuleField, key) == Some(name) && Names(None, ManagedField, key) == None
    ensures order[|order| - 1] in labels
    ensures TableOf(None, labels, order) == map[name := Router(labels[order[|order| - 1]], "true", "")]
  {
    hide Between, TableOf, Stored;
    var table := TableOf(None, labels, order);
    var last := order[|order| - 1];
    assert last in order && Stored(RuleField, labels[last]) == labels[last] by { StoredRule(labels[last]); }
    forall n ensures n in table <==> n == name
      ensures n in table ==> table[n] == Router(labels[last], "true", "") {
      TableRows(None, labels, order, n);
      FieldFacts(None, labels, order, RuleField, n);
      FieldFacts(None, labels, order, ManagedField, n);
      FieldFacts(None, labels, order, FilterField, n);
    }
  }

  lemma StoredRule(value: string)
    ensures Stored(RuleField, value) == value
  {
  }

  const CLASH_KEY := "traefik.http.routers.rule.rule"

  /** A container with two labels that set the rule of the router "rule". */
  function Clash(): Service {
    Service([], map[RULE_OVERLAP := "Host(" + "`a`" + ")", CLASH_KEY := "Host(" + "`b`" + ")"])
  }

  lemma ClashNames()
    ensures Names(None, RuleField, RULE_OVERLAP) == Names(None, RuleField, CLASH_KEY) == Some("rule")
    ensures Names(None, ManagedField, RULE_OVERLAP) == Names(None, ManagedField, CLASH_KEY) == None
  {
    hide Between;
    OverlapNames();
    BetweenIs("rule", RULE);
    assert ROUTERS + "rule" + RULE == CLASH_KEY;
    NotManaged(CLASH_KEY);
    NotManaged(RULE_OVERLAP);
  }

  lemma OverlapNames()
    ensures Between(RULE_OVERLAP, ROUTERS, RULE) == Some("rule")
  {
  }

  lemma NotManaged(key: string)
    requires key != "" && key[|key| - 1] == 'e'
    ensures Between(key, ROUTERS, MANAGED) == None
  {
  }

  /** Its hosts are those of whichever label the map yields last. */
  lemma ClashLast(order: seq<string>, rule: string)
    requires Enumerates(order, Clash().labels.Keys) && order != []
    requires order[|order| - 1] in Clash().labels && Clash().labels[order[|order| - 1]] == rule && rule != ""
    requires |RuleParser.Hosts(rule)| > 0
    ensures Gather(None, "", [Clash()], [order], true) == set host | host in RuleParser.Hosts(rule)
  {
    hide Names, TableOf, RuleParser.Hosts, Clash, HostsOf, RouterHosts;
    var svc := Clash();
    ClashNames();
    ClashIs();
    SoleRouter(svc.labels, order, "rule");
    var table := TableOf(None, svc.labels, order);
    SoleHosts(svc, "rule", rule);
    assert Gather(None, "", [], [], true) == {};
    assert [svc][..0] == [] && [order][..0] == [];
  }

  lemma SoleHosts(svc: Service, name: string, rule: string)
    requires rule != "" && |RuleParser.Hosts(rule)| > 0
    ensures HostsOf(None, "", svc, map[name := Router(rule, "true", "")], true) ==
      set host | host in RuleParser.Hosts(rule)
  {
    hide RuleParser.Hosts;
    var table := map[name := Router(rule, "true", "")];
    assert name in table && Passes(None, "", table[name]) && RouterHosts(svc, rule) == RuleParser.Hosts(rule);
  }

  lemma ClashIs()
    ensures Clash().labels.Keys == {RULE_OVERLAP, CLASH_KEY}
    ensures Clash().labels[RULE_OVERLAP] == "Host(" + "`a`" + ")" && Clash().labels[CLASH_KEY] == "Host(" + "`b`" + ")"
  {
  }

  /** So there are labels for which the map's iteration order decides which hosts are active. */
  lemma OrderDecides() returns (p: seq<string>, q: seq<string>)
    ensures !Consistent(None, Clash().labels)
    ensures Orders([Clash()], [p]) && Orders([Clash()], [q])
    ensures Gather(None, "", [Clash()], [p], true) == {"b"} && Gather(None, "", [Clash()], [q], true) == {"a"}
  {
    hide Names, Gather, RuleParser.Hosts, Clash, Consistent;
    ClashIs();
    p, q := [RULE_OVERLAP, CLASH_KEY], [CLASH_KEY, RULE_OVERLAP];
    RulePrinter.OneHost("a");
    RulePrinter.OneHost("b");
    assert "`" + "a" + "`" == "`a`" && "`" + "b" + "`" == "`b`";
    ClashLast(p, "Host(" + "`b`" + ")");
    ClashLast(q, "Host(" + "`a`" + ")");
    ClashInconsistent();
  }

  lemma ClashInconsistent()
    ensures !Consistent(None, Clash().labels)
  {
    hide Names;
    ClashIs();
    ClashNames();
    assert ("Host(" + "`a`" + ")")[6] == 'a' && ("Host(" + "`b`" + ")")[6] == 'b';
    assert !Agree(None, Clash().labels, RuleField, RULE_OVERLAP, CLASH_KEY);
  }

  /** Extraction distributes over concatenation of service lists. */
  lemma {:induction false} ExtractionDistributes(filter: Option<string>, filterValue: string, a: seq<Service>,
      b: seq<Service>,
      active: bool)
    ensures Extracted(filter, filterValue, a + b, active)
      == Extracted(filter, filterValue, a, active) + Extracted(filter, filterValue, b, active)
    decreases |b|
  {
    hide HostsOf, TableOf, EnumerationOf;
    if b == [] {
      assert a + b == a;
    } else {
      var n := |b| - 1;
      assert (a + b)[..|a + b| - 1] == a + b[..n];
      ExtractionDistributes(filter, filterValue, a, b[..n], active);
      LastService(filter, filterValue, a + b, active);
      LastService(filter, filterValue, b, active);
    }
  }

  lemma LastService(filter: Option<string>, filterValue: string, services: seq<Service>, active: bool)
    requires services != []
    ensures var n := |services| - 1;
      Extracted(filter, filterValue, services, active) ==
      Extracted(filter, filterValue, services[..n], active) +
        HostsOf(filter, filterValue, services[n],
          TableOf(filter, services[n].labels, EnumerationOf(services[n].labels.Keys)), active)
  {
  }

  /** Cloudflare's extraction without a filter is NetBird's; with any filter it never yields more. */
  lemma FilterRefines(filter: Option<string>, filterValue: string, services: seq<Service>,
      p: seq<seq<string>>, q: seq<seq<string>>, active: bool)
    requires Orders(services, p) && Orders(services, q) && AllConsistent(filter, services)
    ensures Gather(filter, filterValue, services, p, active) <= PlainGather(services, q, active)
    ensures filter.None? || filterValue == "" ==>
      Gather(filter, filterValue, services, p, active) == PlainGather(services, q, active)
  {
    GatherIgnoresOrder(filter, filterValue, services, p, q, active);
    GatherRefines(filter, filterValue, services, q, active);
  }
}
