/** The rule scanner of internal/traefik/parser.go: three lazy, case-insensitive matchers run over a router rule. */
module RuleParser {
  import opened Text

  const HOST := "host("
  const PATH_PREFIX := "pathprefix("
  const PATH := "path("

  /** The literal part of a matcher, `needle`, agrees with `s` at `i` when case is ignored. */
  predicate NameAt(needle: string, s: string, i: nat) {
    i + |needle| <= |s| && forall k :: 0 <= k < |needle| ==> LowerChar(s[i + k]) == needle[k]
  }

  /** What `(?i)Name\((.*?)\)` needs to match `s[i..j]`. */
  ghost predicate Matches(needle: string, s: string, i: nat, j: nat) {
    && NameAt(needle, s, i)
    && i + |needle| < j <= |s|
    && s[j - 1] == ')'
    && forall k :: i + |needle| <= k < j - 1 ==> s[k] != '\n'
  }

  datatype Span = Span(start: nat, end: nat)

  ghost predicate Shortest(needle: string, s: string, i: nat, j: nat) {
    Matches(needle, s, i, j) && forall k: nat :: k < j ==> !Matches(needle, s, i, k)
  }

  ghost predicate NoMatchFrom(needle: string, s: string, lo: nat, hi: nat) {
    forall i: nat, j: nat :: lo <= i < hi ==> !Matches(needle, s, i, j)
  }

  /** The reference meaning of `FindAllStringSubmatch(s, -1)` from position `from`: successive matches, each
      the leftmost that does not overlap the one before it, and from its start the shortest. */
  ghost predicate LeftmostLazy(needle: string, s: string, from: nat, spans: seq<Span>)
    decreases |spans|
  {
    if spans == [] then
      NoMatchFrom(needle, s, from, |s|)
    else
      && from <= spans[0].start
      && NoMatchFrom(needle, s, from, spans[0].start)
      && Shortest(needle, s, spans[0].start, spans[0].end)
      && LeftmostLazy(needle, s, spans[0].end, spans[1..])
  }

  function Captured(needle: string, s: string, span: Span): string {
    if span.start + |needle| < span.end <= |s| then s[span.start + |needle|..span.end - 1] else ""
  }

  function CapturedAll(needle: string, s: string, spans: seq<Span>): seq<string> {
    if spans == [] then [] else [Captured(needle, s, spans[0])] + CapturedAll(needle, s, spans[1..])
  }

  /** The first closing parenthesis at or after `i`, provided no newline comes before it. */
  function Closing(s: string, i: nat): (r: Option<nat>)
    ensures r.Some? ==> i <= r.value < |s| && s[r.value] == ')'
    ensures r.Some? ==> forall k :: i <= k < r.value ==> s[k] != ')' && s[k] != '\n'
    decreases |s| - i
  {
    if i >= |s| || s[i] == '\n' then None
    else if s[i] == ')' then Some(i)
    else Closing(s, i + 1)
  }

  lemma {:induction false} ClosingNone(s: string, i: nat, j: nat)
    requires Closing(s, i).None?
    requires i <= j < |s| && s[j] == ')'
    ensures exists k :: i <= k < j && s[k] == '\n'
    decreases |s| - i
  {
    if s[i] != '\n' {
      ClosingNone(s, i + 1, j);
    }
  }

  /** The closing parenthesis of a match that starts at `i`. */
  function MatchEnd(needle: string, s: string, i: nat): (r: Option<nat>)
    ensures r.Some? ==> i + |needle| <= r.value < |s|
  {
    if NameAt(needle, s, i) then Closing(s, i + |needle|) else None
  }

  /** The text captured by each match from position `i`, left to right. */
  function FindAll(needle: string, s: string, i: nat): seq<string>
    decreases |s| - i, 1
  {
    if i >= |s| then [] else FindFrom(needle, s, i, MatchEnd(needle, s, i))
  }

  function FindFrom(needle: string, s: string, i: nat, end: Option<nat>): seq<string>
    requires i < |s|
    requires end.Some? ==> i + |needle| <= end.value < |s|
    decreases |s| - i, 0
  {
    match end
    case Some(close) => [s[i + |needle|..close]] + FindAll(needle, s, close + 1)
    case None => FindAll(needle, s, i + 1)
  }

  lemma MatchAt(needle: string, s: string, i: nat)
    ensures MatchEnd(needle, s, i).Some? ==> Shortest(needle, s, i, MatchEnd(needle, s, i).value + 1)
    ensures MatchEnd(needle, s, i).None? ==> forall j: nat :: !Matches(needle, s, i, j)
  {
    if NameAt(needle, s, i) && Closing(s, i + |needle|).None? {
      forall j: nat | Matches(needle, s, i, j) ensures false {
        ClosingNone(s, i + |needle|, j - 1);
      }
    }
  }

  /** The matches the scanner goes through. */
  function Scan(needle: string, s: string, i: nat): seq<Span>
    decreases |s| - i
  {
    if i >= |s| then []
    else if MatchEnd(needle, s, i).Some? then
      var end := MatchEnd(needle, s, i).value + 1;
      [Span(i, end)] + Scan(needle, s, end)
    else Scan(needle, s, i + 1)
  }

  lemma {:induction false} ScanCaptures(needle: string, s: string, i: nat)
    ensures FindAll(needle, s, i) == CapturedAll(needle, s, Scan(needle, s, i))
    decreases |s| - i
  {
    hide MatchEnd, NameAt, Closing;
    if i >= |s| {
    } else if MatchEnd(needle, s, i).Some? {
      ScanCaptures(needle, s, MatchEnd(needle, s, i).value + 1);
    } else {
      ScanCaptures(needle, s, i + 1);
    }
  }

  lemma {:induction false} ScanIsLeftmostLazy(needle: string, s: string, i: nat)
    ensures LeftmostLazy(needle, s, i, Scan(needle, s, i))
    decreases |s| - i
  {
    hide NameAt, Closing;
    MatchAt(needle, s, i);
    if i >= |s| {
    } else if MatchEnd(needle, s, i).Some? {
      ScanIsLeftmostLazy(needle, s, MatchEnd(needle, s, i).value + 1);
    } else {
      ScanIsLeftmostLazy(needle, s, i + 1);
    }
  }

  lemma {:induction false} LeftmostLazyUnique(needle: string, s: string, from: nat, a: seq<Span>, b: seq<Span>)
    requires LeftmostLazy(needle, s, from, a) && LeftmostLazy(needle, s, from, b)
    ensures a == b
    decreases |a|
  {
    if a != [] && b != [] {
      assert a[0] == b[0];
      LeftmostLazyUnique(needle, s, a[0].end, a[1..], b[1..]);
      assert a == [a[0]] + a[1..] && b == [b[0]] + b[1..];
    }
  }

  /** A list of spans is what a leftmost lazy engine reports if and only if the scanner goes through it. */
  lemma ScanIsTheEngine(needle: string, s: string, spans: seq<Span>)
    ensures LeftmostLazy(needle, s, 0, spans) <==> spans == Scan(needle, s, 0)
    ensures FindAll(needle, s, 0) == CapturedAll(needle, s, Scan(needle, s, 0))
  {
    ScanCaptures(needle, s, 0);
    ScanIsLeftmostLazy(needle, s, 0);
    if LeftmostLazy(needle, s, 0, spans) {
      LeftmostLazyUnique(needle, s, 0, spans, Scan(needle, s, 0));
    }
  }

  /** One comma-separated part of a capture: spaces trimmed, then quotes, then dropped if nothing is left. */
  function CleanPart(part: string): seq<string> {
    var clean := Trim(TrimSpace(part), QUOTES);
    if clean == "" then [] else [clean]
  }

  function CleanParts(parts: seq<string>): seq<string> {
    if parts == [] then [] else CleanPart(parts[0]) + CleanParts(parts[1..])
  }

  function CleanAll(captures: seq<string>): seq<string> {
    if captures == [] then [] else CleanParts(Split(captures[0], ',')) + CleanAll(captures[1..])
  }

  /** The values one matcher extracts from a rule. */
  function Values(needle: string, rule: string): seq<string>
  {
    CleanAll(FindAll(needle, rule, 0))
  }

  lemma {:induction false} CleanPartsAppend(a: seq<string>, b: seq<string>)
    ensures CleanParts(a + b) == CleanParts(a) + CleanParts(b)
  {
    if a == [] {
      assert a + b == b;
    } else {
      assert (a + b)[1..] == a[1..] + b;
      CleanPartsAppend(a[1..], b);
    }
  }

  lemma {:induction false} CleanAllAppend(a: seq<string>, b: seq<string>)
    ensures CleanAll(a + b) == CleanAll(a) + CleanAll(b)
  {
    if a == [] {
      assert a + b == b;
    } else {
      assert (a + b)[1..] == a[1..] + b;
      CleanAllAppend(a[1..], b);
    }
  }

  method FindAllSubmatch(needle: string, s: string) returns (captures: seq<string>)
    ensures captures == FindAll(needle, s, 0)
  {
    captures := [];
    var i := 0;
    while i < |s|
      invariant captures + FindAll(needle, s, i) == FindAll(needle, s, 0)
    {
      var close := None;
      if NameAt(needle, s, i) {
        close := FindClosing(s, i + |needle|);
      }
      if close.Some? {
        captures, i := captures + [s[i + |needle|..close.value]], close.value + 1;
      } else {
        i := i + 1;
      }
    }
  }

  method FindClosing(s: string, start: nat) returns (close: Option<nat>)
    ensures close == Closing(s, start)
  {
    var i := start;
    while i < |s| && s[i] != ')' && s[i] != '\n'
      invariant Closing(s, i) == Closing(s, start)
    {
      i := i + 1;
    }
    close := if i < |s| && s[i] == ')' then Some(i) else None;
  }

  method ExtractValues(needle: string, rule: string) returns (results: seq<string>)
    ensures results == Values(needle, rule)
  {
    hide FindAll, Split, Trim, TrimSpace;
    var matches := FindAllSubmatch(needle, rule);
    results := [];
    for m := 0 to |matches|
      invariant results == CleanAll(matches[..m])
    {
      var parts := Split(matches[m], ',');
      ghost var before := results;
      for p := 0 to |parts|
        invariant results == before + CleanParts(parts[..p])
      {
        var clean := Trim(TrimSpace(parts[p]), QUOTES);
        CleanPartsGrow(parts, p);
        if clean != "" {
          results := results + [clean];
        }
      }
      assert parts[..|parts|] == parts;
      CleanAllGrow(matches, m);
    }
    assert matches[..|matches|] == matches;
  }

  lemma CleanPartsGrow(parts: seq<string>, p: nat)
    requires p < |parts|
    ensures CleanParts(parts[..p + 1]) == CleanParts(parts[..p]) + CleanPart(parts[p])
  {
    CleanPartsAppend(parts[..p], [parts[p]]);
    assert parts[..p + 1] == parts[..p] + [parts[p]];
    assert CleanParts([parts[p]]) == CleanPart(parts[p]) + CleanParts([]);
  }

  lemma CleanAllGrow(matches: seq<string>, m: nat)
    requires m < |matches|
    ensures CleanAll(matches[..m + 1]) == CleanAll(matches[..m]) + CleanParts(Split(matches[m], ','))
  {
    CleanAllAppend(matches[..m], [matches[m]]);
    assert matches[..m + 1] == matches[..m] + [matches[m]];
    assert CleanAll([matches[m]]) == CleanParts(Split(matches[m], ',')) + CleanAll([]);
  }

  function Hosts(rule: string): seq<string> {
    Values(HOST, rule)
  }

  function Paths(rule: string): seq<string> {
    Values(PATH_PREFIX, rule) + Values(PATH, rule)
  }

  lemma EmptyRule()
    ensures Hosts("") == [] && Paths("") == []
  {
  }

  method ParseRule(rule: string) returns (hosts: seq<string>, paths: seq<string>)
    ensures hosts == Hosts(rule)
    ensures paths == Paths(rule)
  {
    hide CleanAll;
    if rule == "" {
      EmptyRule();
      return [], [];
    }
    hosts, paths := [], [];
    var found := ExtractValues(HOST, rule);
    hosts := hosts + found;
    found := ExtractValues(PATH_PREFIX, rule);
    paths := paths + found;
    found := ExtractValues(PATH, rule);
    paths := paths + found;
  }
}
