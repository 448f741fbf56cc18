/** Which status pages a container asks for: `getPagesFromLabels` of internal/monitor/kuma/status_page.go. */
module PageLabels {
  import opened Text

  const GROUP_LABEL := "mesh.kuma.group"
  const PAGES_LABEL := "mesh.kuma.pages"
  const HIDE_LABEL := "mesh.kuma.hide_status"
  const DEFAULT_GROUP := "Services"

  type Labels = map<string, string>

  function DefaultGroup(labels: Labels): string {
    if GROUP_LABEL in labels && labels[GROUP_LABEL] != "" then TrimSpace(labels[GROUP_LABEL]) else DEFAULT_GROUP
  }

  function GlobalPages(globalSlug: string, group: string): map<string, string> {
    if globalSlug != "" && globalSlug != "none" then map[globalSlug := group] else map[]
  }

  /** One comma-separated part of the pages label: blank, "slug", or "slug:Group Name". */
  function AddPage(pages: map<string, string>, part: string, group: string): map<string, string> {
    var clean := TrimSpace(part);
    if clean == "" then pages
    else match Cut(clean, ':')
      case Some((slug, named)) => pages[TrimSpace(slug) := TrimSpace(named)]
      case None => pages[TrimSpace(clean) := group]
  }

  function AddPages(pages: map<string, string>, parts: seq<string>, group: string): map<string, string> {
    if parts == [] then pages
    else AddPage(AddPages(pages, parts[..|parts| - 1], group), parts[|parts| - 1], group)
  }

  function PagesFrom(globalSlug: string, labels: Labels): map<string, string> {
    var group := DefaultGroup(labels);
    var pages := GlobalPages(globalSlug, group);
    if PAGES_LABEL in labels then AddPages(pages, Split(labels[PAGES_LABEL], ','), group) else pages
  }

  lemma AddPagesGrow(pages: map<string, string>, parts: seq<string>, i: nat, group: string)
    requires i < |parts|
    ensures AddPages(pages, parts[..i + 1], group) == AddPage(AddPages(pages, parts[..i], group), parts[i], group)
  {
    assert parts[..i + 1][..i] == parts[..i];
  }

  method GetPagesFromLabels(globalSlug: string, labels: Labels) returns (pages: map<string, string>)
    ensures pages == PagesFrom(globalSlug, labels)
  {
    pages := map[];
    var defaultGroup := DEFAULT_GROUP;
    if GROUP_LABEL in labels && labels[GROUP_LABEL] != "" {
      defaultGroup := TrimSpace(labels[GROUP_LABEL]);
    }
    if globalSlug != "" && globalSlug != "none" {
      pages := pages[globalSlug := defaultGroup];
    }
    if PAGES_LABEL in labels {
      var parts := Split(labels[PAGES_LABEL], ',');
      ghost var before := pages;
      for i := 0 to |parts|
        invariant pages == AddPages(before, parts[..i], defaultGroup)
      {
        hide TrimSpace, Cut, AddPages;
        AddPagesGrow(before, parts, i, defaultGroup);
        var clean := TrimSpace(parts[i]);
        if clean == "" {
          continue;
        }
        match Cut(clean, ':')
        case Some((slug, named)) => pages := pages[TrimSpace(slug) := TrimSpace(named)];
        case None => pages := pages[TrimSpace(clean) := defaultGroup];
      }
      assert parts[..|parts|] == parts;
    }
  }

  // ---------- reading back a written label ----------

  datatype Entry =
    | Plain(slug: string, before: nat, after: nat)
    | Named(slug: string, group: string, before: nat, middle: nat, gap: nat, after: nat)

  function Write(e: Entry): string {
    match e
    case Plain(slug, before, after) => Blanks(before) + slug + Blanks(after)
    case Named(slug, group, before, middle, gap, after) =>
      Blanks(before) + (slug + Blanks(middle) + [':'] + (Blanks(gap) + group)) + Blanks(after)
  }

  function WriteAll(entries: seq<Entry>): (parts: seq<string>)
    ensures |parts| == |entries|
    ensures forall i :: 0 <= i < |entries| ==> parts[i] == Write(entries[i])
  {
    seq(|entries|, i requires 0 <= i < |entries| => Write(entries[i]))
  }

  predicate Trimmed(s: string) {
    s != "" && s[0] !in SPACES && s[|s| - 1] !in SPACES
  }

  /** Trimmed texts without the separators; where there is a colon, the slug and the group may also be empty. */
  predicate CleanEntry(e: Entry) {
    && ',' !in e.slug && ':' !in e.slug
    && if e.Plain? then Trimmed(e.slug)
       else (e.slug == "" || Trimmed(e.slug)) && (e.group == "" || Trimmed(e.group)) && ',' !in e.group
  }

  /** The last entry for a slug decides its group. */
  function Intended(pages: map<string, string>, entries: seq<Entry>, group: string): map<string, string> {
    if entries == [] then pages
    else
      var e := entries[|entries| - 1];
      Intended(pages, entries[..|entries| - 1], group)[e.slug := if e.Named? then e.group else group]
  }

  lemma TrimmedStays(s: string)
    requires Trimmed(s)
    ensures TrimSpace(s) == s
  {
  }

  lemma ReadPlain(e: Entry, part: string)
    requires e.Plain? && CleanEntry(e) && part == Write(e)
    ensures ',' !in part
    ensures TrimSpace(part) == e.slug && Cut(e.slug, ':') == None && TrimSpace(e.slug) == e.slug
  {
    SpacesAround(e.before, e.slug, e.after);
    TrimmedStays(e.slug);
  }

  /** What is left of the two halves of a named entry once the blanks around the whole are gone. */
  function Halves(e: Entry): (string, string)
    requires e.Named?
  {
    (if e.slug == "" then "" else e.slug + Blanks(e.middle), if e.group == "" then "" else Blanks(e.gap) + e.group)
  }

  lemma ReadNamed(e: Entry, part: string)
    requires e.Named? && CleanEntry(e) && part == Write(e)
    ensures ',' !in part
    ensures var (left, right) := Halves(e);
      && TrimSpace(part) == left + [':'] + right && TrimSpace(part) != ""
      && Cut(left + [':'] + right, ':') == Some((left, right))
      && TrimSpace(left) == e.slug && TrimSpace(right) == e.group
  {
    hide TrimSpace, Cut, Trim, Halves;
    ReadWhole(e, part);
    ReadHalves(e);
    CutAt(Halves(e).0, ':', Halves(e).1);
    TrimSpaceIs(part);
    TrimSpaceIs(Halves(e).0);
    TrimSpaceIs(Halves(e).1);
  }

  lemma ReadWhole(e: Entry, part: string)
    requires e.Named? && CleanEntry(e) && part == Write(e)
    ensures ',' !in part && Trim(part, SPACES) == Halves(e).0 + [':'] + Halves(e).1
  {
    hide Trim, Halves, Blanks;
    var core := Halves(e).0 + [':'] + Halves(e).1;
    var lead, tail := if e.slug == "" then Blanks(e.middle) else "", if e.group == "" then Blanks(e.gap) else "";
    ContentIs(e);
    Regroup(Blanks(e.before), lead, core, tail, Blanks(e.after));
    CoreIs(e);
    BlanksAre(e.before);
    BlanksAre(e.middle);
    BlanksAre(e.gap);
    BlanksAre(e.after);
    TrimPeels(Blanks(e.before) + lead, core, tail + Blanks(e.after), SPACES);
  }

  lemma ContentIs(e: Entry)
    requires e.Named?
    ensures e.slug + Blanks(e.middle) + [':'] + (Blanks(e.gap) + e.group) ==
      (if e.slug == "" then Blanks(e.middle) else "") + (Halves(e).0 + [':'] + Halves(e).1) +
        if e.group == "" then Blanks(e.gap) else ""
  {
  }

  lemma Regroup(a: string, b: string, c: string, d: string, e: string)
    ensures a + (b + c + d) + e == (a + b) + c + (d + e)
  {
  }

  lemma CoreIs(e: Entry)
    requires e.Named? && CleanEntry(e)
    ensures var core := Halves(e).0 + [':'] + Halves(e).1;
      ',' !in core && core != "" && core[0] !in SPACES && core[|core| - 1] !in SPACES
  {
  }

  lemma BlanksAre(n: nat)
    ensures forall c <- Blanks(n) :: c == ' '
  {
  }

  lemma ReadHalves(e: Entry)
    requires e.Named? && CleanEntry(e)
    ensures ':' !in Halves(e).0 && Trim(Halves(e).0, SPACES) == e.slug && Trim(Halves(e).1, SPACES) == e.group
  {
    hide Trim;
    var middle, gap := if e.slug == "" then "" else Blanks(e.middle), if e.group == "" then "" else Blanks(e.gap);
    TrimPeels("", e.slug, middle, SPACES);
    TrimPeels(gap, e.group, "", SPACES);
    assert "" + e.slug + middle == Halves(e).0 && gap + e.group + "" == Halves(e).1;
  }

  lemma TrimSpaceIs(s: string)
    ensures TrimSpace(s) == Trim(s, SPACES)
  {
  }

  /** A blank part of the label, as a trailing comma leaves, asks for nothing. */
  lemma {:induction false} BlankPart(pages: map<string, string>, a: seq<string>, n: nat, b: seq<string>, group: string)
    ensures AddPages(pages, a + [Blanks(n)] + b, group) == AddPages(pages, a + b, group)
  {
    hide TrimSpace, Cut;
    var parts := a + [Blanks(n)] + b;
    if b == [] {
      assert parts[..|parts| - 1] == a && a + b == a;
      TrimPeels(Blanks(n), "", "", SPACES);
      assert Blanks(n) + "" + "" == Blanks(n);
      TrimSpaceIs(Blanks(n));
    } else {
      var m := |b| - 1;
      assert parts[..|parts| - 1] == a + [Blanks(n)] + b[..m] && (a + b)[..|a + b| - 1] == a + b[..m];
      BlankPart(pages, a, n, b[..m], group);
    }
  }

  lemma ReadEntry(pages: map<string, string>, e: Entry, group: string)
    requires CleanEntry(e)
    ensures ',' !in Write(e)
    ensures AddPage(pages, Write(e), group) == pages[e.slug := if e.Named? then e.group else group]
  {
    hide TrimSpace, Cut, Write;
    if e.Plain? {
      ReadPlain(e, Write(e));
    } else {
      ReadNamed(e, Write(e));
    }
  }

  lemma SpacesAround(before: nat, core: string, after: nat)
    requires Trimmed(core)
    ensures TrimSpace(Blanks(before) + core + Blanks(after)) == core
  {
    TrimPeels(Blanks(before), core, Blanks(after), SPACES);
  }

  lemma {:induction false} ReadEntries(pages: map<string, string>, entries: seq<Entry>, group: string)
    requires forall e <- entries :: CleanEntry(e)
    ensures AddPages(pages, WriteAll(entries), group) == Intended(pages, entries, group)
  {
    if entries != [] {
      var n := |entries| - 1;
      ReadEntries(pages, entries[..n], group);
      assert WriteAll(entries)[..n] == WriteAll(entries[..n]);
      ReadEntry(Intended(pages, entries[..n], group), entries[n], group);
    }
  }

  /** Writing entries into the pages label, with any blanks around slugs and groups, and reading the label back gives
      each slug the group of its last entry, on top of the global page. */
  lemma PagesLabelRoundTrip(globalSlug: string, labels: Labels, entries: seq<Entry>)
    requires entries != [] && forall e <- entries :: CleanEntry(e)
    requires PAGES_LABEL in labels && labels[PAGES_LABEL] == Join(WriteAll(entries), ',')
    ensures PagesFrom(globalSlug, labels)
      == Intended(GlobalPages(globalSlug, DefaultGroup(labels)), entries, DefaultGroup(labels))
  {
    forall p | p in WriteAll(entries) ensures ',' !in p {
      var i :| 0 <= i < |entries| && p == WriteAll(entries)[i];
      ReadEntry(map[], entries[i], "");
    }
    SplitInvertsJoin(WriteAll(entries), ',');
    ReadEntries(GlobalPages(globalSlug, DefaultGroup(labels)), entries, DefaultGroup(labels));
  }

  /** The group of a page that names none: "Services" without a group label or with an empty one, and otherwise what the
      label says without the blanks around it, even if that is nothing. */
  lemma DefaultGroupMeans(labels: Labels, before: nat, group: string, after: nat)
    ensures "mesh.kuma.group" !in labels || labels["mesh.kuma.group"] == "" ==> DefaultGroup(labels) == "Services"
    ensures (group == "" && before + after > 0) || Trimmed(group) ==> "mesh.kuma.group" in labels ==>
      labels["mesh.kuma.group"] == Blanks(before) + group + Blanks(after) ==>
      DefaultGroup(labels) == group
  {
    hide TrimSpace;
    if group == "" || Trimmed(group) {
      TrimPeels(Blanks(before), group, Blanks(after), SPACES);
      TrimSpaceIs(Blanks(before) + group + Blanks(after));
    }
  }

  lemma {:induction false} LastIntended(pages: map<string, string>, entries: seq<Entry>, group: string, i: nat)
    requires i < |entries| && forall j :: i < j < |entries| ==> entries[j].slug != entries[i].slug
    ensures var all := Intended(pages, entries, group);
      entries[i].slug in all && all[entries[i].slug] == if entries[i].Named? then entries[i].group else group
  {
    var n := |entries| - 1;
    if i < n {
      LastIntended(pages, entries[..n], group, i);
    }
  }

  lemma {:induction false} NotIntended(pages: map<string, string>, entries: seq<Entry>, group: string, slug: string)
    requires forall i :: 0 <= i < |entries| ==> entries[i].slug != slug
    ensures var all := Intended(pages, entries, group);
      (slug in all <==> slug in pages) && (slug in all ==> all[slug] == pages[slug])
  {
    if entries != [] {
      NotIntended(pages, entries[..|entries| - 1], group, slug);
    }
  }

  /** A written label asks for the page of each of its entries, and the slug's last entry decides the group. */
  lemma PageAsked(globalSlug: string, labels: Labels, entries: seq<Entry>, i: nat)
    requires forall e <- entries :: CleanEntry(e)
    requires i < |entries| && forall j :: i < j < |entries| ==> entries[j].slug != entries[i].slug
    requires "mesh.kuma.pages" in labels && labels["mesh.kuma.pages"] == Join(WriteAll(entries), ',')
    ensures var pages, e := PagesFrom(globalSlug, labels), entries[i];
      e.slug in pages && pages[e.slug] == if e.Named? then e.group else DefaultGroup(labels)
  {
    hide DefaultGroup, PagesFrom, Intended, CleanEntry, Join;
    PagesLabelRoundTrip(globalSlug, labels, entries);
    LastIntended(GlobalPages(globalSlug, DefaultGroup(labels)), entries, DefaultGroup(labels), i);
  }

  /** A page without an entry is asked for only if it is the global one; neither "" nor "none" is. */
  lemma PageNotNamed(globalSlug: string, labels: Labels, entries: seq<Entry>, slug: string)
    requires entries != [] && forall e <- entries :: CleanEntry(e)
    requires forall i :: 0 <= i < |entries| ==> entries[i].slug != slug
    requires "mesh.kuma.pages" in labels && labels["mesh.kuma.pages"] == Join(WriteAll(entries), ',')
    ensures var pages := PagesFrom(globalSlug, labels);
      && (slug in pages <==> slug == globalSlug && slug != "" && slug != "none")
      && (slug in pages ==> pages[slug] == DefaultGroup(labels))
  {
    hide DefaultGroup, PagesFrom, Intended, CleanEntry, Join;
    PagesLabelRoundTrip(globalSlug, labels, entries);
    NotIntended(GlobalPages(globalSlug, DefaultGroup(labels)), entries, DefaultGroup(labels), slug);
  }
}
