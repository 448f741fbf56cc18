/** Which tags a monitor gets: `buildTagDefs` of internal/monitor/kuma/tag_manager.go. */
module TagDefs {
  import opened Text
  import opened AutoColor

  datatype TagDef = TagDef(name: string, color: string)

  /** One raw tag, `name` or `name:color`; blank ones are dropped, and an empty colour is still to be chosen. */
  function ParseTag(raw: string): Option<TagDef> {
    var tag := TrimSpace(raw);
    if tag == "" then None
    else match Cut(tag, ':')
      case None => Some(TagDef(tag, ""))
      case Some((name, color)) => Some(TagDef(TrimSpace(name), TrimSpace(color)))
  }

  /** `None` where choosing a colour panics. */
  function Resolve(def: TagDef): Option<TagDef> {
    if def.color != "" then Some(def)
    else match Color(def.name)
      case None => None
      case Some(color) => Some(TagDef(def.name, color))
  }

  function Names(raws: seq<string>): set<string> {
    set raw | raw in raws && ParseTag(raw).Some? :: ParseTag(raw).value.name
  }

  /** The raw tag at `i` is the first with its name. */
  predicate IsFirst(raws: seq<string>, i: nat)
    requires i < |raws|
  {
    ParseTag(raws[i]).Some? && ParseTag(raws[i]).value.name !in Names(raws[..i])
  }

  function Build(raws: seq<string>): Option<seq<TagDef>> {
    if raws == [] then Some([])
    else
      var n := |raws| - 1;
      var earlier := Build(raws[..n]);
      if earlier.None? || !IsFirst(raws, n) then earlier
      else match Resolve(ParseTag(raws[n]).value)
        case None => None
        case Some(def) => Some(earlier.value + [def])
  }

  lemma NamesAppend(raws: seq<string>, raw: string)
    ensures Names(raws + [raw]) == Names(raws) + if ParseTag(raw).Some? then {ParseTag(raw).value.name} else {}
  {
  }

  /** Tags come in the order in which their names first occur. */
  lemma {:induction false} BuildGrows(raws: seq<string>, more: seq<string>)
    requires Build(raws + more).Some?
    ensures Build(raws).Some? && Build(raws).value <= Build(raws + more).value
  {
    hide IsFirst, Resolve;
    if more == [] {
      assert raws + more == raws;
    } else {
      assert (raws + more)[..|raws + more| - 1] == raws + more[..|more| - 1];
      BuildGrows(raws, more[..|more| - 1]);
    }
  }

  /** The tags built have distinct names, those of the raw tags, and for each name the first raw tag decides. */
  lemma {:induction false} FirstNameWins(raws: seq<string>)
    requires Build(raws).Some?
    ensures var defs := Build(raws).value;
      && (forall i, j :: 0 <= i < j < |defs| ==> defs[i].name != defs[j].name)
      && (forall name :: (exists def <- defs :: def.name == name) <==> name in Names(raws))
      && (forall i :: 0 <= i < |raws| && IsFirst(raws, i) ==>
            Resolve(ParseTag(raws[i]).value).Some? && Resolve(ParseTag(raws[i]).value).value in defs)
  {
    hide ParseTag, Color, Names;
    if raws == [] {
      assert Names(raws) == {} by { NoNames(); }
    } else {
      var n := |raws| - 1;
      assert raws == raws[..n] + [raws[n]];
      FirstNameWins(raws[..n]);
      NamesAppend(raws[..n], raws[n]);
      var before, defs := Build(raws[..n]).value, Build(raws).value;
      forall i | 0 <= i < n && IsFirst(raws, i)
        ensures Resolve(ParseTag(raws[i]).value).Some? && Resolve(ParseTag(raws[i]).value).value in defs
      {
        assert raws[..n][..i] == raws[..i] && IsFirst(raws[..n], i);
      }
      if IsFirst(raws, n) {
        NamesExtend(raws[..n], before, defs[|before|]);
      }
    }
  }

  lemma NoNames()
    ensures Names([]) == {}
  {
  }

  lemma NamesExtend(raws: seq<string>, defs: seq<TagDef>, last: TagDef)
    requires forall name :: (exists def <- defs :: def.name == name) <==> name in Names(raws)
    ensures forall name :: (exists def <- defs + [last] :: def.name == name) <==> name in Names(raws) + {last.name}
  {
  }

  /** Building panics exactly when the first tag with some name has no colour and a name that gets none. */
  lemma {:induction false} PanicsIff(raws: seq<string>)
    ensures Build(raws).None? <==>
      exists i :: 0 <= i < |raws| && IsFirst(raws, i)
        && ParseTag(raws[i]).value.color == "" && Hash(ParseTag(raws[i]).value.name) == MIN_INT64
  {
    hide ParseTag, Color, Names, Hash;
    if raws != [] {
      var n := |raws| - 1;
      PanicsIff(raws[..n]);
      if ParseTag(raws[n]).Some? {
        ColorExists(ParseTag(raws[n]).value.name);
      }
      forall i | 0 <= i < n ensures IsFirst(raws, i) <==> IsFirst(raws[..n], i) {
        assert raws[..n][..i] == raws[..i];
      }
    }
  }

  lemma BuildNext(raws: seq<string>, n: nat, defs: seq<TagDef>)
    requires n < |raws| && Build(raws[..n]) == Some(defs)
    ensures var parsed := ParseTag(raws[n]);
      if parsed.None? then Build(raws[..n + 1]) == Some(defs) && Names(raws[..n + 1]) == Names(raws[..n])
      else
        && Names(raws[..n + 1]) == Names(raws[..n]) + {parsed.value.name}
        && Build(raws[..n + 1]) ==
          if parsed.value.name in Names(raws[..n]) then Some(defs)
          else match Resolve(parsed.value)
            case None => None
            case Some(def) => Some(defs + [def])
  {
    hide ParseTag, Color, Names;
    assert raws[..n + 1] == raws[..n] + [raws[n]] && raws[..n + 1][..n] == raws[..n];
    NamesAppend(raws[..n], raws[n]);
  }

  method BuildTagDefs(defaultTags: seq<string>, labels: map<string, string>) returns (tags: Option<seq<TagDef>>)
    ensures tags == Build(defaultTags + Labelled(labels))
  {
    var raws := defaultTags + Labelled(labels);
    var tagTracker: set<string>, defs: seq<TagDef> := {}, [];
    for n := 0 to |raws|
      invariant tagTracker == Names(raws[..n])
      invariant Build(raws[..n]) == Some(defs)
    {
      hide ParseTag, Color, Hash, Build, Names;
      BuildNext(raws, n, defs);
      var parsed := ParseTag(raws[n]);
      if parsed.Some? && parsed.value.name !in tagTracker {
        var TagDef(tagName, tagColor) := parsed.value;
        tagTracker := tagTracker + {tagName};
        if tagColor == "" {
          var auto := GetAutoColor(tagName);
          if auto.None? {
            PanicIsFinal(raws, n);
            return None;
          }
          tagColor := auto.value;
        }
        defs := defs + [TagDef(tagName, tagColor)];
      }
    }
    assert raws[..|raws|] == raws;
    tags := Some(defs);
  }

  function Labelled(labels: map<string, string>): seq<string> {
    if "mesh.kuma.tags" in labels && labels["mesh.kuma.tags"] != "" then Split(labels["mesh.kuma.tags"], ',') else []
  }

  lemma PanicIsFinal(raws: seq<string>, n: nat)
    requires n < |raws| && Build(raws[..n + 1]).None?
    ensures Build(raws).None?
  {
    hide ParseTag, Resolve, IsFirst, Build;
    if Build(raws).Some? {
      assert raws == raws[..n + 1] + raws[n + 1..];
      BuildGrows(raws[..n + 1], raws[n + 1..]);
    }
  }

  /** A tag as it is written in a label. */
  function PrintTag(def: TagDef): string {
    def.name + ":" + def.color
  }

  predicate Trimmed(s: string) {
    s == "" || (s[0] !in SPACES && s[|s| - 1] !in SPACES)
  }

  predicate Printable(def: TagDef) {
    && Trimmed(def.name) && Trimmed(def.color) && def.color != ""
    && ':' !in def.name && ',' !in def.name && ',' !in def.color
  }

  lemma ParseInvertsPrint(def: TagDef)
    requires Printable(def)
    ensures ParseTag(PrintTag(def)) == Some(def)
  {
    hide TrimSpace, Cut;
    var s := PrintTag(def);
    assert def.name + [':'] + def.color == s;
    CutAt(def.name, ':', def.color);
    PrintedIsTrimmed(def);
    TrimLeaves(s);
    TrimLeaves(def.name);
    TrimLeaves(def.color);
  }

  lemma TrimLeaves(s: string)
    requires Trimmed(s)
    ensures TrimSpace(s) == s
  {
  }

  lemma PrintedIsTrimmed(def: TagDef)
    requires Printable(def)
    ensures Trimmed(PrintTag(def)) && PrintTag(def) != ""
  {
  }

  function PrintAll(defs: seq<TagDef>): seq<string> {
    seq(|defs|, i requires 0 <= i < |defs| => PrintTag(defs[i]))
  }

  lemma {:induction false} BuildInvertsPrint(defs: seq<TagDef>)
    requires forall def <- defs :: Printable(def)
    requires forall i, j :: 0 <= i < j < |defs| ==> defs[i].name != defs[j].name
    ensures Build(PrintAll(defs)) == Some(defs)
    ensures forall name :: name in Names(PrintAll(defs)) ==> exists def <- defs :: def.name == name
  {
    hide ParseTag, PrintTag, Color, Printable;
    var raws := PrintAll(defs);
    forall i | 0 <= i < |defs| ensures ParseTag(raws[i]) == Some(defs[i]) && defs[i].color != "" {
      ParseInvertsPrint(defs[i]);
      PrintableHasColor(defs[i]);
    }
    if defs != [] {
      var n := |defs| - 1;
      BuildInvertsPrint(defs[..n]);
      assert raws[..n] == PrintAll(defs[..n]) && defs == defs[..n] + [defs[n]];
    }
  }

  lemma PrintableHasColor(def: TagDef)
    requires Printable(def)
    ensures def.color != ""
  {
  }

  /** The tags label round trip: distinct coloured tags, written out with commas, are the tags built. */
  lemma TagsLabelRoundTrip(defs: seq<TagDef>)
    requires defs != [] && forall def <- defs :: Printable(def)
    requires forall i, j :: 0 <= i < j < |defs| ==> defs[i].name != defs[j].name
    ensures Build(Labelled(map["mesh.kuma.tags" := Join(PrintAll(defs), ',')])) == Some(defs)
  {
    hide Build;
    var raws := PrintAll(defs);
    forall i | 0 <= i < |raws| ensures ',' !in raws[i] {
      assert raws[i] == PrintTag(defs[i]) && Printable(defs[i]);
    }
    SplitInvertsJoin(raws, ',');
    BuildInvertsPrint(defs);
    if Join(raws, ',') == "" {
      assert Split("", ',') == [""];
      PrintedIsTrimmed(defs[0]);
    }
  }

  /** A tag written without a colon, with any blanks around it, is built under its own name, with the colour that its
      hash picks; a tag written with a colon and no colour likewise, under the name before the colon. */
  lemma PlainTagBuilt(before: string, name: string, after: string)
    requires (forall c <- before :: c in SPACES) && (forall c <- after :: c in SPACES)
    requires name != "" && Trimmed(name) && ':' !in name
    ensures var hash := Hash(name);
      var picked := if hash == MIN_INT64 then None
        else Some([TagDef(name, COLORS[(if hash < 0 then -hash else hash) % 34])]);
      Build([before + name + after]) == picked == Build([name + ":"])
  {
    hide TrimSpace, Color, Hash, Cut;
    TrimPeels(before, name, after, SPACES);
    assert TrimSpace(before + name + after) == name by { TrimSpaceIs(before + name + after); }
    ColorExists(name);
    NoColon(name);
    ColonLast(name);
    OneTag(before + name + after, name);
    OneTag(name + ":", name);
  }

  lemma TrimSpaceIs(s: string)
    ensures TrimSpace(s) == Trim(s, SPACES)
  {
  }

  lemma NoColon(name: string)
    requires ':' !in name
    ensures Cut(name, ':') == None
  {
  }

  lemma ColonLast(name: string)
    requires name != "" && Trimmed(name) && ':' !in name
    ensures ParseTag(name + ":") == Some(TagDef(name, ""))
  {
  }

  lemma OneTag(raw: string, name: string)
    requires ParseTag(raw) == Some(TagDef(name, ""))
    ensures Build([raw]) == match Color(name) case None => None case Some(color) => Some([TagDef(name, color)])
  {
    hide ParseTag, Color;
    var raws := [raw];
    assert raws[..0] == [] && raws[..1] == raws;
    NoNames();
    BuildNext(raws, 0, []);
    assert forall def: TagDef :: [] + [def] == [def];
  }

  /** A blank tag, as a trailing comma leaves, builds nothing. */
  lemma BlankTag(raws: seq<string>, blank: string)
    requires forall c <- blank :: c in SPACES
    ensures Build(raws + [blank]) == Build(raws) && Names(raws + [blank]) == Names(raws)
  {
    hide TrimSpace, Cut;
    TrimPeels("", "", blank, SPACES);
    assert "" + "" + blank == blank;
    TrimSpaceIs(blank);
    NamesAppend(raws, blank);
    assert (raws + [blank])[..|raws|] == raws;
  }
}
