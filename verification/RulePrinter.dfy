/** Boolean router rules as trees, their printed form, and what the scanner recovers from it. */
module RulePrinter {
  import opened Text
  import opened RuleParser

  datatype Kind = HostKind | PathPrefixKind | PathKind

  /** How a matcher of this kind begins, up to case. */
  function Needle(kind: Kind): string {
    match kind
    case HostKind => "host("
    case PathPrefixKind => "pathprefix("
    case PathKind => "path("
  }

  /** A quoted argument with the spaces around it. */
  datatype Arg = Arg(value: string, quote: char, before: nat, after: nat)

  /** `Matcher` prints its name in any mix of cases; `Other` stands for every matcher the companion does not read. */
  datatype Rule =
    | Matcher(kind: Kind, name: string, args: seq<Arg>)
    | Other(text: string)
    | And(left: Rule, right: Rule)
    | Or(left: Rule, right: Rule)
    | Not(inner: Rule)
    | Paren(inner: Rule)

  function PrintArg(a: Arg): string {
    Blanks(a.before) + ([a.quote] + a.value + [a.quote]) + Blanks(a.after)
  }

  function PrintEach(args: seq<Arg>): (printed: seq<string>)
    ensures |printed| == |args|
  {
    seq(|args|, i requires 0 <= i < |args| => PrintArg(args[i]))
  }

  function PrintArgs(args: seq<Arg>): string {
    if args == [] then "" else Join(PrintEach(args), ',')
  }

  function Print(rule: Rule): string {
    match rule
    case Matcher(_, name, args) => name + "(" + PrintArgs(args) + ")"
    case Other(text) => text
    case And(l, r) => Print(l) + " && " + Print(r)
    case Or(l, r) => Print(l) + " || " + Print(r)
    case Not(r) => "!" + Print(r)
    case Paren(r) => "(" + Print(r) + ")"
  }

  function ValuesOf(args: seq<Arg>): seq<string> {
    seq(|args|, i requires 0 <= i < |args| => args[i].value)
  }

  /** The arguments of every matcher of one kind, left to right. */
  function ArgsOf(kind: Kind, rule: Rule): seq<string> {
    match rule
    case Matcher(k, _, args) => if k == kind then ValuesOf(args) else []
    case Other(_) => []
    case And(l, r) => ArgsOf(kind, l) + ArgsOf(kind, r)
    case Or(l, r) => ArgsOf(kind, l) + ArgsOf(kind, r)
    case Not(r) => ArgsOf(kind, r)
    case Paren(r) => ArgsOf(kind, r)
  }

  /** Not a quote. */
  predicate Bare(c: char) {
    c != '`' && c != '\'' && c != '"'
  }

  predicate CleanArg(a: Arg) {
    && (a.quote == '`' || a.quote == '\'' || a.quote == '"')
    && a.value != "" && Bare(a.value[0]) && Bare(a.value[|a.value| - 1])
    && ',' !in a.value && ')' !in a.value && '\n' !in a.value
  }

  predicate Silent(needle: string, text: string) {
    forall i :: 0 <= i < |text| ==> !NameAt(needle, text, i)
  }

  /** Matchers spell their own name, arguments are clean, and unread matchers end in a closing
      parenthesis and contain none of the three names followed by an opening one. */
  predicate Clean(rule: Rule) {
    match rule
    case Matcher(kind, name, args) =>
      && Lower(name) + "(" == Needle(kind)
      && forall a <- args :: CleanArg(a)
    case Other(text) =>
      && text != "" && text[|text| - 1] == ')'
      && forall kind: Kind :: Silent(Needle(kind), text)
    case And(l, r) => Clean(l) && Clean(r)
    case Or(l, r) => Clean(l) && Clean(r)
    case Not(r) => Clean(r)
    case Paren(r) => Clean(r)
  }

  /** The name, with its parenthesis, occurs in the text. */
  predicate NameIn(needle: string, text: string) {
    exists i :: 0 <= i < |text| && NameAt(needle, text, i)
  }

  predicate MoreThanBlanks(text: string) {
    exists k :: 0 <= k < |text| && text[k] !in SPACES
  }

  /** The name occurs in the text, and something other than blanks comes after it. */
  predicate NameThenText(needle: string, text: string) {
    exists i :: 0 <= i < |text| && NameAt(needle, text, i) && MoreThanBlanks(text[i + |needle|..])
  }

  /** The argument spells the name, and more than blanks follow it in that argument, or another argument does. */
  predicate LeaksAt(needle: string, args: seq<Arg>, j: nat)
    requires j < |args|
  {
    NameIn(needle, args[j].value) && (j + 1 < |args| || NameThenText(needle, args[j].value))
  }

  predicate ArgsLeak(needle: string, args: seq<Arg>) {
    exists j :: 0 <= j < |args| && LeaksAt(needle, args, j)
  }

  /** The arguments of a matcher spell the name of another kind, as in Host(`path(x`). */
  predicate Leaks(kind: Kind, rule: Rule) {
    match rule
    case Matcher(k, _, args) => k != kind && ArgsLeak(Needle(kind), args)
    case Other(_) => false
    case And(l, r) => Leaks(kind, l) || Leaks(kind, r)
    case Or(l, r) => Leaks(kind, l) || Leaks(kind, r)
    case Not(r) => Leaks(kind, r)
    case Paren(r) => Leaks(kind, r)
  }

  // ---------- scanning a concatenation ----------

  predicate PartialAt(needle: string, s: string, i: nat) {
    forall k :: 0 <= k < |needle| && i + k < |s| ==> LowerChar(s[i + k]) == needle[k]
  }

  /** Whatever could begin a match inside `s` also ends inside `s`. */
  ghost predicate Sealed(needle: string, s: string) {
    forall i: nat :: i < |s| && PartialAt(needle, s, i) ==> NameAt(needle, s, i) && Closing(s, i + |needle|).Some?
  }

  lemma {:induction false} ClosingInPrefix(a: string, b: string, i: nat)
    requires Closing(a, i).Some?
    ensures Closing(a + b, i) == Closing(a, i)
    decreases |a| - i
  {
    if i < |a| && a[i] != '\n' && a[i] != ')' {
      ClosingInPrefix(a, b, i + 1);
    }
  }

  /** `b` sits in `s` from position `d` to the end. */
  ghost predicate Suffix(s: string, d: nat, b: string) {
    |s| == d + |b| && forall k :: d <= k < |s| ==> s[k] == b[k - d]
  }

  lemma {:induction false} ClosingInSuffix(s: string, d: nat, b: string, p: nat)
    requires Suffix(s, d, b) && d <= p
    ensures Closing(s, p) == ShiftBy(d, Closing(b, p - d))
    decreases |s| - p
  {
    if p < |s| && s[p] != '\n' && s[p] != ')' {
      ClosingInSuffix(s, d, b, p + 1);
    }
  }

  function ShiftBy(d: nat, o: Option<nat>): Option<nat> {
    match o case None => None case Some(k) => Some(d + k)
  }

  lemma MatchInSuffix(needle: string, s: string, d: nat, b: string, p: nat)
    requires Suffix(s, d, b) && d <= p
    ensures MatchEnd(needle, s, p) == ShiftBy(d, MatchEnd(needle, b, p - d))
  {
    if p + |needle| <= |s| {
      assert forall k {:trigger needle[k]} :: 0 <= k < |needle| ==> s[p + k] == b[p - d + k];
    }
    ClosingInSuffix(s, d, b, p + |needle|);
  }

  lemma {:induction false} FindAllInSuffix(needle: string, s: string, d: nat, b: string, p: nat)
    requires Suffix(s, d, b) && d <= p
    ensures FindAll(needle, s, p) == FindAll(needle, b, p - d)
    decreases |s| - p
  {
    hide MatchEnd, NameAt, Closing;
    if p < |s| {
      MatchInSuffix(needle, s, d, b, p);
      match MatchEnd(needle, s, p) {
        case Some(close) =>
          assert s[p + |needle|..close] == b[p - d + |needle|..close - d];
          FindAllInSuffix(needle, s, d, b, close + 1);
        case None =>
          FindAllInSuffix(needle, s, d, b, p + 1);
      }
    }
  }

  lemma MatchInPrefix(needle: string, a: string, b: string, i: nat)
    requires Sealed(needle, a) && i < |a|
    ensures MatchEnd(needle, a + b, i) == MatchEnd(needle, a, i)
  {
    if NameAt(needle, a + b, i) {
      assert forall k {:trigger needle[k]} :: 0 <= k < |needle| && i + k < |a| ==> a[i + k] == (a + b)[i + k];
      assert PartialAt(needle, a, i);
    }
    if NameAt(needle, a, i) {
      assert forall k {:trigger needle[k]} :: 0 <= k < |needle| ==> a[i + k] == (a + b)[i + k];
      assert PartialAt(needle, a, i);
      ClosingInPrefix(a, b, i + |needle|);
    }
  }

  /** Scanning distributes over concatenation when no match can straddle the seam. */
  lemma {:induction false} FindAllConcat(needle: string, a: string, b: string, i: nat)
    requires Sealed(needle, a) && i <= |a|
    ensures FindAll(needle, a + b, i) == FindAll(needle, a, i) + FindAll(needle, b, 0)
    decreases |a| - i
  {
    hide MatchEnd, NameAt, Closing, Sealed;
    if i == |a| {
      FindAllInSuffix(needle, a + b, |a|, b, |a|);
    } else {
      MatchInPrefix(needle, a, b, i);
      match MatchEnd(needle, a, i) {
        case Some(close) =>
          assert (a + b)[i + |needle|..close] == a[i + |needle|..close];
          FindAllConcat(needle, a, b, close + 1);
        case None =>
          FindAllConcat(needle, a, b, i + 1);
      }
    }
  }

  lemma ValuesConcat(needle: string, a: string, b: string)
    requires Sealed(needle, a)
    ensures Values(needle, a + b) == Values(needle, a) + Values(needle, b)
  {
    hide Sealed, FindAll, Split;
    FindAllConcat(needle, a, b, 0);
    CleanAllAppend(FindAll(needle, a, 0), FindAll(needle, b, 0));
  }

  lemma SealedConcat(needle: string, a: string, b: string)
    requires Sealed(needle, a) && Sealed(needle, b)
    ensures Sealed(needle, a + b)
  {
    var s := a + b;
    forall i: nat | i < |s| && PartialAt(needle, s, i)
      ensures NameAt(needle, s, i) && Closing(s, i + |needle|).Some?
    {
      if i < |a| {
        assert forall k {:trigger needle[k]} :: 0 <= k < |needle| && i + k < |a| ==> a[i + k] == s[i + k];
        assert PartialAt(needle, a, i);
        MatchInPrefix(needle, a, b, i);
      } else {
        var q := i - |a|;
        assert forall k {:trigger needle[k]} :: 0 <= k < |needle| && q + k < |b| ==> b[q + k] == s[i + k];
        assert PartialAt(needle, b, q);
        MatchInSuffix(needle, s, |a|, b, i);
      }
    }
  }

  lemma {:induction false} SilentFindsNothing(needle: string, s: string, i: nat)
    requires Silent(needle, s)
    ensures FindAll(needle, s, i) == []
    decreases |s| - i
  {
    if i < |s| {
      SilentFindsNothing(needle, s, i + 1);
    }
  }

  lemma PlainIsSealed(needle: string, s: string)
    requires needle != "" && forall c <- s :: LowerChar(c) != needle[0]
    ensures Sealed(needle, s) && Values(needle, s) == []
  {
    forall i: nat | i < |s| ensures !PartialAt(needle, s, i) && !NameAt(needle, s, i) {
      assert s[i + 0] in s;
    }
    SilentFindsNothing(needle, s, 0);
  }

  lemma InName(needle: string, s: string, i: nat, at: nat)
    ensures PartialAt(needle, s, i) && i <= at < i + |needle| && at < |s| ==> LowerChar(s[at]) in needle
  {
    if PartialAt(needle, s, i) && i <= at < i + |needle| && at < |s| {
      var k := at - i;
      assert LowerChar(s[i + k]) == needle[k];
    }
  }

  lemma EndsInPartial(needle: string, s: string, i: nat)
    requires s != "" && LowerChar(s[|s| - 1]) !in needle
    requires i < |s| && PartialAt(needle, s, i)
    ensures NameAt(needle, s, i) && i + |needle| < |s|
  {
    InName(needle, s, i, |s| - 1);
  }

  lemma SilentIsSealed(needle: string, s: string)
    requires s != "" && LowerChar(s[|s| - 1]) !in needle
    requires Silent(needle, s)
    ensures Sealed(needle, s) && Values(needle, s) == []
  {
    forall i: nat | i < |s| && PartialAt(needle, s, i) ensures NameAt(needle, s, i) {
      EndsInPartial(needle, s, i);
    }
    SilentFindsNothing(needle, s, 0);
  }

  lemma OneLineIsSealed(needle: string, s: string)
    requires s != "" && s[|s| - 1] == ')' && ')' !in needle
    requires '\n' !in s
    ensures Sealed(needle, s)
  {
    forall i: nat | i < |s| && PartialAt(needle, s, i)
      ensures NameAt(needle, s, i) && Closing(s, i + |needle|).Some?
    {
      EndsInPartial(needle, s, i);
      if Closing(s, i + |needle|).None? {
        ClosingNone(s, i + |needle|, |s| - 1);
      }
    }
  }

  // ---------- one printed matcher ----------

  lemma PrintArgChars(a: Arg)
    requires CleanArg(a)
    ensures ',' !in PrintArg(a) && ')' !in PrintArg(a) && '\n' !in PrintArg(a)
    ensures CleanPart(PrintArg(a)) == [a.value]
  {
    var quoted := [a.quote] + a.value + [a.quote];
    TrimPeels(Blanks(a.before), quoted, Blanks(a.after), SPACES);
    TrimPeels([a.quote], a.value, [a.quote], QUOTES);
  }

  lemma {:induction false} JoinChars(parts: seq<string>, sep: char, c: char)
    requires parts != [] && c != sep
    requires forall p <- parts :: c !in p
    ensures c !in Join(parts, sep)
  {
    if |parts| > 1 {
      JoinChars(parts[1..], sep, c);
    }
  }

  lemma {:induction false} CleanPartsOfPrinted(args: seq<Arg>)
    requires forall a <- args :: CleanArg(a)
    ensures CleanParts(PrintEach(args)) == ValuesOf(args)
  {
    if args != [] {
      PrintArgChars(args[0]);
      CleanPartsOfPrinted(args[1..]);
      assert PrintEach(args)[1..] == PrintEach(args[1..]);
      assert ValuesOf(args) == [args[0].value] + ValuesOf(args[1..]);
    }
  }

  lemma PrintArgsBack(args: seq<Arg>)
    requires forall a <- args :: CleanArg(a)
    ensures ')' !in PrintArgs(args) && '\n' !in PrintArgs(args)
    ensures CleanParts(Split(PrintArgs(args), ',')) == ValuesOf(args)
  {
    if args == [] {
      assert CleanParts([""]) == CleanPart("") + CleanParts([]);
    } else {
      forall p | p in PrintEach(args) ensures ',' !in p && ')' !in p && '\n' !in p {
        var i :| 0 <= i < |args| && p == PrintEach(args)[i];
        PrintArgChars(args[i]);
      }
      JoinChars(PrintEach(args), ',', ')');
      JoinChars(PrintEach(args), ',', '\n');
      SplitInvertsJoin(PrintEach(args), ',');
      CleanPartsOfPrinted(args);
    }
  }

  lemma {:induction false} ClosingAtEnd(s: string, i: nat)
    requires i < |s| && s[|s| - 1] == ')'
    requires forall k :: i <= k < |s| - 1 ==> s[k] != ')' && s[k] != '\n'
    ensures Closing(s, i) == Some(|s| - 1 as nat)
    decreases |s| - i
  {
    if i < |s| - 1 {
      ClosingAtEnd(s, i + 1);
    }
  }

  lemma NameOneLine(needle: string, name: string)
    requires NameAt(needle, name + "(", 0) && |name| + 1 == |needle|
    requires '\n' !in needle
    ensures '\n' !in name
  {
    forall k | 0 <= k < |name| ensures name[k] != '\n' {
      assert LowerChar((name + "(")[0 + k]) == needle[k];
    }
  }

  lemma OnlyCapture(needle: string, s: string)
    requires NameAt(needle, s, 0) && |needle| < |s| && s[|s| - 1] == ')'
    requires forall k :: |needle| <= k < |s| - 1 ==> s[k] != ')' && s[k] != '\n'
    ensures FindAll(needle, s, 0) == [s[|needle|..|s| - 1]]
  {
    hide Closing;
    ClosingAtEnd(s, |needle|);
    assert MatchEnd(needle, s, 0) == Some(|s| - 1);
    assert FindAll(needle, s, |s|) == [];
  }

  lemma AtomName(needle: string, open: string, rest: string)
    requires NameAt(needle, open, 0)
    ensures NameAt(needle, open + rest, 0)
  {
  }

  lemma AtomBody(open: string, content: string, s: string)
    requires s == open + content + ")"
    requires ')' !in content && '\n' !in content
    ensures s[|open|..|s| - 1] == content
    ensures forall k :: |open| <= k < |s| - 1 ==> s[k] != ')' && s[k] != '\n'
  {
  }

  lemma AtomCaptures(needle: string, name: string, content: string)
    requires NameAt(needle, name + "(", 0) && |name| + 1 == |needle|
    requires ')' !in content && '\n' !in content
    ensures FindAll(needle, name + "(" + content + ")", 0) == [content]
  {
    hide NameAt, FindAll;
    var open := name + "(";
    var s := open + content + ")";
    AtomName(needle, open, content + ")");
    assert s == open + (content + ")");
    AtomBody(open, content, s);
    OnlyCapture(needle, s);
  }

  lemma AtomSealed(needle: string, name: string, content: string)
    requires '\n' !in name && '\n' !in content && ')' !in needle
    ensures Sealed(needle, name + "(" + content + ")")
  {
    OneLineIsSealed(needle, name + "(" + content + ")");
  }

  lemma NeedleFacts(kind: Kind)
    ensures var needle := Needle(kind);
      && needle != "" && needle[0] in {'h', 'p'}
      && ')' !in needle && '\n' !in needle
  {
  }

  lemma PrintedMatcher(kind: Kind, name: string, args: seq<Arg>, other: Kind)
    requires Clean(Matcher(kind, name, args))
    ensures Values(Needle(kind), Print(Matcher(kind, name, args))) == ValuesOf(args)
    ensures Sealed(Needle(other), Print(Matcher(kind, name, args)))
  {
    var content := PrintArgs(args);
    NeedleFacts(kind);
    NeedleFacts(other);
    PrintArgsBack(args);
    NameOneLine(Needle(kind), name);
    AtomSealed(Needle(other), name, content);
    AtomCaptures(Needle(kind), name, content);
    assert CleanAll([content]) == CleanParts(Split(content, ',')) + CleanAll([]);
  }

  // ---------- one printed matcher under another kind's scanner ----------

  lemma NameAtEnd(kind: Kind, s: string, i: nat)
    ensures var needle := Needle(kind);
      NameAt(needle, s, i) ==>
      var last := i + |needle| - 1;
      last < |s| && s[last] == '(' && LowerChar(s[last - 1]) == needle[|needle| - 2]
  {
    var needle := Needle(kind);
    if NameAt(needle, s, i) {
      var k := |needle| - 1;
      assert LowerChar(s[i + k]) == needle[k];
      assert LowerChar(s[i + (k - 1)]) == needle[k - 1];
    }
  }

  lemma NeedleEnds(kind: Kind)
    ensures var needle := Needle(kind);
      && |needle| >= 2 && needle[|needle| - 1] == '('
      && (forall k :: 0 <= k < |needle| - 1 ==> needle[k] != '(')
      && needle[|needle| - 2] == (match kind case HostKind => 't' case PathPrefixKind => 'x' case PathKind => 'h')
      && (forall c <- needle :: c !in QUOTES && c !in SPACES && c != ',' && c != ')' && LowerChar(c) == c)
  {
  }

  lemma PartialChar(needle: string, s: string, i: nat, k: int)
    ensures PartialAt(needle, s, i) && 0 <= k < |needle| && i + k < |s| ==> LowerChar(s[i + k]) == needle[k]
  {
  }

  lemma OpenBeginsNothing(kind: Kind, s: string, other: Kind, i: nat)
    requires kind != other && |s| == |Needle(kind)| && NameAt(Needle(kind), s, 0) && i < |s|
    ensures !PartialAt(Needle(other), s, i)
  {
    var own, needle, k := Needle(kind), Needle(other), |s| - 1 - i;
    NeedleEnds(kind);
    NeedleEnds(other);
    hide Needle, PartialAt, LowerChar;
    PartialChar(needle, s, i, k);
    PartialChar(needle, s, i, k - 1);
    PartialChar(needle, s, i, |needle| - 1);
    OwnChar(own, s, |s| - 1);
    OwnChar(own, s, |s| - 2);
    OwnChar(own, s, i + |needle| - 1);
  }

  lemma OwnChar(needle: string, s: string, k: int)
    requires NameAt(needle, s, 0)
    ensures 0 <= k < |needle| ==> LowerChar(s[k]) == needle[k]
  {
  }

  /** A matcher's own name and parenthesis begin no match of another kind. */
  lemma OpenIsSealed(kind: Kind, name: string, other: Kind)
    requires kind != other && |name| + 1 == |Needle(kind)| && NameAt(Needle(kind), name + "(", 0)
    ensures Sealed(Needle(other), name + "(") && Values(Needle(other), name + "(") == []
  {
    var s, needle := name + "(", Needle(other);
    NeedleEnds(other);
    forall i: nat | i < |s| ensures !PartialAt(needle, s, i) && !NameAt(needle, s, i) {
      OpenBeginsNothing(kind, s, other, i);
    }
    SilentFindsNothing(needle, s, 0);
  }

  /** The scanner finds one match, at `p`, that takes all up to the closing parenthesis at the end. */
  lemma {:induction false} FindsFrom(needle: string, s: string, i: nat, p: nat)
    requires i <= p < |s| && NameAt(needle, s, p) && p + |needle| < |s| && s[|s| - 1] == ')'
    requires forall q :: i <= q < p ==> !NameAt(needle, s, q)
    requires forall q :: p <= q < |s| - 1 ==> s[q] != ')' && s[q] != '\n'
    ensures FindAll(needle, s, i) == [s[p + |needle|..|s| - 1]]
    decreases p - i
  {
    hide NameAt, Closing;
    if i < p {
      assert MatchEnd(needle, s, i).None?;
      FindsFrom(needle, s, i + 1, p);
    } else {
      ClosingAtEnd(s, p + |needle|);
      assert MatchEnd(needle, s, p) == Some(|s| - 1);
      assert FindAll(needle, s, |s|) == [];
    }
  }

  /** In a text that shows `value` from `at`, closed by a character the name does not have, the name occurs from there
      to that character exactly where it occurs in the value. */
  lemma NameInShown(needle: string, s: string, at: nat, value: string, i: nat)
    requires at + |value| < |s| && LowerChar(s[at + |value|]) !in needle && s[at..at + |value|] == value
    requires at <= i < at + |value|
    ensures NameAt(needle, s, i) <==> NameAt(needle, value, i - at)
  {
    assert forall k :: at <= k < at + |value| ==> s[k] == value[k - at];
    InName(needle, s, i, at + |value|);
    if NameAt(needle, s, i) {
      forall k | 0 <= k < |needle| ensures LowerChar(value[i - at + k]) == needle[k] {
        assert LowerChar(s[i + k]) == needle[k];
      }
    }
    if NameAt(needle, value, i - at) {
      forall k | 0 <= k < |needle| ensures LowerChar(s[i + k]) == needle[k] {
        assert LowerChar(value[i - at + k]) == needle[k];
      }
    }
  }

  lemma ShownArg(a: Arg, rest: string)
    ensures var s, v := PrintArg(a) + rest, a.before + 1;
      && |PrintArg(a)| == v + |a.value| + 1 + a.after
      && s[v..v + |a.value|] == a.value && s[v + |a.value|] == a.quote
      && (forall k :: 0 <= k < |PrintArg(a)| && !(v <= k < v + |a.value|) ==> s[k] == ' ' || s[k] == a.quote)
  {
  }

  /** The name occurs in a printed argument exactly where it occurs in the value. */
  lemma NameInPrinted(kind: Kind, a: Arg, rest: string, i: nat)
    requires CleanArg(a) && i < |PrintArg(a)|
    ensures NameAt(Needle(kind), PrintArg(a) + rest, i)
      <==> a.before < i <= a.before + |a.value| && NameAt(Needle(kind), a.value, i - a.before - 1)
  {
    hide Needle, PrintArg;
    NeedleEnds(kind);
    ShownArg(a, rest);
    var s, v, needle := PrintArg(a) + rest, a.before + 1, Needle(kind);
    if v <= i < v + |a.value| {
      NameInShown(needle, s, v, a.value, i);
    } else {
      InName(needle, s, i, i);
    }
  }

  lemma {:induction false} TrimKeeps(s: string, cut: set<char>, c: char)
    requires c in s && c !in cut
    ensures Trim(s, cut) != ""
  {
    TrimLeftKeeps(s, cut, c);
    TrimRightKeeps(TrimLeft(s, cut), cut, c);
  }

  lemma {:induction false} TrimLeftKeeps(s: string, cut: set<char>, c: char)
    requires c in s && c !in cut
    ensures c in TrimLeft(s, cut)
  {
    if s[0] in cut {
      assert c in s[1..];
      TrimLeftKeeps(s[1..], cut, c);
    }
  }

  lemma {:induction false} TrimRightKeeps(s: string, cut: set<char>, c: char)
    requires c in s && c !in cut
    ensures c in TrimRight(s, cut)
  {
    var n := |s| - 1;
    if s[n] in cut {
      assert s == s[..n] + [s[n]];
      assert c in s[..n];
      TrimRightKeeps(s[..n], cut, c);
    }
  }

  /** The end of an argument, from inside the value on, holds a value of its own unless only blanks are left of it. */
  lemma {:induction false} TailIsClean(blanks: string, tail: string, quote: char, after: nat)
    requires quote in QUOTES && (tail != "" ==> tail[|tail| - 1] !in QUOTES) && forall c <- blanks :: c in SPACES
    ensures CleanPart(blanks + tail + [quote] + Blanks(after)) != [] <==> MoreThanBlanks(tail)
    decreases |tail|
  {
    if tail == "" {
      TrimPeels(blanks, [quote], Blanks(after), SPACES);
      assert blanks + tail + [quote] + Blanks(after) == blanks + [quote] + Blanks(after);
      TrimPeels([quote], "", "", QUOTES);
      assert [quote] + "" + "" == [quote];
    } else if tail[0] in SPACES {
      var more := blanks + [tail[0]];
      assert blanks + tail == more + tail[1..];
      TailIsClean(more, tail[1..], quote, after);
    } else {
      TrimPeels(blanks, tail + [quote], Blanks(after), SPACES);
      assert blanks + tail + [quote] + Blanks(after) == blanks + (tail + [quote]) + Blanks(after);
      assert (tail + [quote])[|tail| - 1] == tail[|tail| - 1];
      TrimKeeps(tail + [quote], QUOTES, tail[|tail| - 1]);
    }
  }

  lemma FirstName(needle: string, text: string) returns (i: nat)
    requires NameIn(needle, text)
    ensures i < |text| && NameAt(needle, text, i) && i + |needle| <= |text|
    ensures forall q :: 0 <= q < i ==> !NameAt(needle, text, q)
  {
    i := 0;
    while !NameAt(needle, text, i)
      invariant i < |text| && forall q :: 0 <= q < i ==> !NameAt(needle, text, q)
      decreases |text| - i
    {
      i := i + 1;
    }
  }

  /** What comes after the first occurrence settles whether anything comes after some occurrence. */
  lemma FirstDecides(needle: string, text: string, i: nat)
    requires i < |text| && NameAt(needle, text, i) && forall q :: 0 <= q < i ==> !NameAt(needle, text, q)
    ensures NameThenText(needle, text) <==> MoreThanBlanks(text[i + |needle|..])
  {
  }

  /** A printed argument that does not spell the name is passed over. */
  lemma SilentArg(kind: Kind, a: Arg, end: char)
    requires CleanArg(a) && !NameIn(Needle(kind), a.value) && end in {',', ')'}
    ensures Sealed(Needle(kind), PrintArg(a) + [end]) && Values(Needle(kind), PrintArg(a) + [end]) == []
  {
    hide Needle, PrintArg, Sealed, Values;
    var s, needle := PrintArg(a) + [end], Needle(kind);
    NeedleEnds(kind);
    forall i | 0 <= i < |s| ensures !NameAt(needle, s, i) {
      if i < |PrintArg(a)| {
        NameInPrinted(kind, a, [end], i);
      }
    }
    SilentIsSealed(needle, s);
  }

  /** The end of a printed argument from the first name in its value on, with `rest` after it. */
  function TailOf(needle: string, a: Arg, i: nat, rest: string): string
    requires i + |needle| <= |a.value|
  {
    a.value[i + |needle|..] + [a.quote] + Blanks(a.after) + rest
  }

  /** An argument that spells the name is scanned from its first name to the end of the matcher. */
  lemma NamedArg(kind: Kind, a: Arg, rest: string, i: nat)
    requires CleanArg(a) && ')' !in rest && '\n' !in rest && i < |a.value| && NameAt(Needle(kind), a.value, i)
    requires forall q :: 0 <= q < i ==> !NameAt(Needle(kind), a.value, q)
    ensures Values(Needle(kind), PrintArg(a) + rest + ")") == CleanParts(Split(TailOf(Needle(kind), a, i, rest), ','))
  {
    hide Needle, PrintArg, CleanPart, Split;
    var s, needle, p := PrintArg(a) + rest + ")", Needle(kind), a.before + 1 + i;
    assert s == PrintArg(a) + (rest + ")");
    ShownArg(a, rest + ")");
    forall q | 0 <= q < |PrintArg(a)| ensures NameAt(needle, s, q)
      <==> a.before < q <= a.before + |a.value| && NameAt(needle, a.value, q - a.before - 1) {
      NameInPrinted(kind, a, rest + ")", q);
    }
    PrintArgChars(a);
    assert forall q :: 0 <= q < |s| - 1 ==> s[q] in PrintArg(a) || s[q] in rest;
    FindsFrom(needle, s, 0, p);
    TailShown(needle, a, i, rest);
    assert CleanAll([s[p + |needle|..|s| - 1]]) == CleanParts(Split(s[p + |needle|..|s| - 1], ',')) + CleanAll([]);
  }

  lemma TailShown(needle: string, a: Arg, i: nat, rest: string)
    requires i + |needle| <= |a.value|
    ensures var s := PrintArg(a) + rest + ")";
      s[a.before + 1 + i + |needle|..|s| - 1] == TailOf(needle, a, i, rest)
  {
  }

  lemma PrintArgsCons(args: seq<Arg>)
    requires |args| > 1
    ensures PrintArgs(args) == PrintArg(args[0]) + ("," + PrintArgs(args[1..]))
  {
    assert PrintEach(args)[1..] == PrintEach(args[1..]);
  }

  lemma ArgsLeakCons(needle: string, args: seq<Arg>)
    requires args != []
    ensures ArgsLeak(needle, args) <==>
      LeaksAt(needle, args, 0) || ArgsLeak(needle, args[1..])
  {
    hide NameIn, NameThenText;
    var rest := args[1..];
    if ArgsLeak(needle, args) {
      var j :| 0 <= j < |args| && LeaksAt(needle, args, j);
      if j > 0 {
        assert LeaksAt(needle, rest, j - 1);
      }
    }
    if ArgsLeak(needle, rest) {
      var j :| 0 <= j < |rest| && LeaksAt(needle, rest, j);
      assert LeaksAt(needle, args, j + 1);
    }
  }

  /** The scanner of a kind finds a value in printed arguments exactly when they leak. */
  lemma {:induction false} ArgsScanned(kind: Kind, args: seq<Arg>)
    requires args != [] && forall a <- args :: CleanArg(a)
    ensures Sealed(Needle(kind), PrintArgs(args) + ")")
    ensures Values(Needle(kind), PrintArgs(args) + ")") != [] <==> ArgsLeak(Needle(kind), args)
  {
    hide Needle, Sealed, Values, CleanArg, ArgsLeak, NameIn, NameThenText;
    var needle, a := Needle(kind), args[0];
    ArgsLeakCons(needle, args);
    NoArgsNoLeak(needle);
    if |args| > 1 {
      PrintArgsCons(args);
      ArgsScanned(kind, args[1..]);
    }
    if NameIn(needle, a.value) {
      LeakFromFirst(kind, args);
    } else if |args| == 1 {
      SilentArg(kind, a, ')');
    } else {
      SilentArg(kind, a, ',');
      var rest := PrintArgs(args[1..]) + ")";
      assert PrintArgs(args) + ")" == (PrintArg(a) + ",") + rest;
      ValuesConcat(needle, PrintArg(a) + ",", rest);
    }
    ArgsSealed(kind, args);
  }

  lemma NoArgsNoLeak(needle: string)
    ensures !ArgsLeak(needle, [])
  {
  }

  lemma ArgsSealed(kind: Kind, args: seq<Arg>)
    requires forall a <- args :: CleanArg(a)
    ensures Sealed(Needle(kind), PrintArgs(args) + ")")
  {
    NeedleEnds(kind);
    PrintArgsBack(args);
    OneLineIsSealed(Needle(kind), PrintArgs(args) + ")");
  }

  lemma LeakFromFirst(kind: Kind, args: seq<Arg>)
    requires args != [] && (forall a <- args :: CleanArg(a)) && NameIn(Needle(kind), args[0].value)
    ensures Values(Needle(kind), PrintArgs(args) + ")") != []
      <==> |args| > 1 || NameThenText(Needle(kind), args[0].value)
  {
    hide Needle, Values, PrintArg, CleanArg, CleanPart, CleanParts, Split, NameAt, NameIn, NameThenText;
    var needle, a := Needle(kind), args[0];
    assert a in args;
    var i := FirstName(needle, a.value);
    var part := TailOf(needle, a, i, "");
    TailLeaks(needle, a, i);
    NoCommaInTail(needle, a, i);
    if |args| == 1 {
      NamedArg(kind, a, "", i);
      OnePart(part);
      assert PrintArg(a) + "" == PrintArg(a);
    } else {
      PrintArgsCons(args);
      MoreArgs(args[1..]);
      NamedArg(kind, a, "," + PrintArgs(args[1..]), i);
      assert part + [','] + PrintArgs(args[1..]) == TailOf(needle, a, i, "," + PrintArgs(args[1..]));
      TwoParts(part, PrintArgs(args[1..]));
    }
  }

  lemma MoreArgs(args: seq<Arg>)
    requires args != [] && forall a <- args :: CleanArg(a)
    ensures ')' !in PrintArgs(args) && '\n' !in PrintArgs(args)
    ensures CleanParts(Split(PrintArgs(args), ',')) != []
  {
    hide CleanArg, CleanParts, Split, PrintArgs;
    PrintArgsBack(args);
    assert ValuesOf(args) != [];
  }

  lemma TailLeaks(needle: string, a: Arg, i: nat)
    requires CleanArg(a) && i < |a.value| && i + |needle| <= |a.value| && NameAt(needle, a.value, i)
    requires forall q :: 0 <= q < i ==> !NameAt(needle, a.value, q)
    ensures CleanPart(TailOf(needle, a, i, "")) != [] <==> NameThenText(needle, a.value)
  {
    hide CleanPart, NameAt, NameThenText;
    var tail := a.value[i + |needle|..];
    FirstDecides(needle, a.value, i);
    assert tail != "" ==> tail[|tail| - 1] == a.value[|a.value| - 1];
    TailIsClean("", tail, a.quote, a.after);
    assert TailOf(needle, a, i, "") == "" + tail + [a.quote] + Blanks(a.after);
  }

  lemma NoCommaInTail(needle: string, a: Arg, i: nat)
    requires CleanArg(a) && i + |needle| <= |a.value|
    ensures ',' !in TailOf(needle, a, i, "")
  {
  }

  lemma OnePart(part: string)
    requires ',' !in part
    ensures CleanParts(Split(part, ',')) == CleanPart(part)
  {
  }

  lemma TwoParts(part: string, rest: string)
    requires ',' !in part
    ensures CleanParts(Split(part + [','] + rest, ',')) == CleanPart(part) + CleanParts(Split(rest, ','))
  {
    CutAt(part, ',', rest);
    assert Split(part + [','] + rest, ',') == [part] + Split(rest, ',');
  }

  /** Whether a printed matcher yields a value to another kind's scanner depends on its arguments' text alone. */
  lemma MatcherLeaks(kind: Kind, name: string, args: seq<Arg>, other: Kind)
    requires Clean(Matcher(kind, name, args)) && kind != other
    ensures Values(Needle(other), Print(Matcher(kind, name, args))) != [] <==> ArgsLeak(Needle(other), args)
  {
    hide Needle, Values, Sealed, CleanArg, ArgsLeak;
    var text := PrintArgs(args) + ")";
    OpenIsSealed(kind, name, other);
    assert Print(Matcher(kind, name, args)) == (name + "(") + text;
    ValuesConcat(Needle(other), name + "(", text);
    if args == [] {
      NoArgsNoLeak(Needle(other));
      NeedleEnds(other);
      ClosingIsSilent(Needle(other));
      assert text == ")";
    } else {
      ArgsScanned(other, args);
    }
  }

  lemma ClosingIsSilent(needle: string)
    requires |needle| >= 2
    ensures Values(needle, ")") == []
  {
  }

  // ---------- whole rules ----------

  /** Every printed rule is sealed, and what one scanner finds is its own arguments, or more when something leaks. */
  ghost predicate Recovered(kind: Kind, rule: Rule) {
    && Sealed(Needle(kind), Print(rule))
    && (!Leaks(kind, rule) ==> Values(Needle(kind), Print(rule)) == ArgsOf(kind, rule))
    && (Leaks(kind, rule) ==> |Values(Needle(kind), Print(rule))| > |ArgsOf(kind, rule)|)
  }

  lemma {:induction false} PrintedRule(kind: Kind, rule: Rule)
    requires Clean(rule)
    ensures Recovered(kind, rule)
  {
    hide Sealed, Values;
    NeedleFacts(kind);
    match rule
    case Matcher(k, name, args) =>
      PrintedMatcher(k, name, args, kind);
      if k != kind {
        MatcherLeaks(k, name, args, kind);
      }
    case Other(text) =>
      SilentIsSealed(Needle(kind), text);
    case And(l, r) =>
      PrintedRule(kind, l);
      PrintedRule(kind, r);
      PrintedPair(Needle(kind), Print(l), " && ", Print(r));
      RecoveredPair(kind, l, r, rule);
    case Or(l, r) =>
      PrintedRule(kind, l);
      PrintedRule(kind, r);
      PrintedPair(Needle(kind), Print(l), " || ", Print(r));
      RecoveredPair(kind, l, r, rule);
    case Not(r) =>
      PrintedRule(kind, r);
      PrintedPrefix(Needle(kind), "!", Print(r));
    case Paren(r) =>
      PrintedRule(kind, r);
      PrintedPrefix(Needle(kind), "(", Print(r));
      PlainIsSealed(Needle(kind), "");
      PrintedPair(Needle(kind), "(" + Print(r), ")", "");
      assert "(" + Print(r) + ")" + "" == Print(rule);
      assert Values(Needle(kind), "(" + Print(r)) + [] == Values(Needle(kind), Print(r));
  }

  lemma RecoveredPair(kind: Kind, l: Rule, r: Rule, rule: Rule)
    requires rule == And(l, r) || rule == Or(l, r)
    requires Recovered(kind, l) && Recovered(kind, r)
    requires Sealed(Needle(kind), Print(rule))
    requires Values(Needle(kind), Print(rule)) == Values(Needle(kind), Print(l)) + Values(Needle(kind), Print(r))
    ensures Recovered(kind, rule)
  {
  }

  lemma PrintedPrefix(needle: string, link: string, right: string)
    requires needle != "" && needle[0] in {'h', 'p'}
    requires link in {"!", "("}
    requires Sealed(needle, right)
    ensures Sealed(needle, link + right)
    ensures Values(needle, link + right) == Values(needle, right)
  {
    hide Values, Sealed;
    PlainIsSealed(needle, link);
    SealedConcat(needle, link, right);
    ValuesConcat(needle, link, right);
  }

  lemma PrintedPair(needle: string, left: string, link: string, right: string)
    requires needle != "" && needle[0] in {'h', 'p'}
    requires link in {" && ", " || ", ")"}
    requires Sealed(needle, left) && Sealed(needle, right)
    ensures Sealed(needle, left + link + right)
    ensures Values(needle, left + link + right) == Values(needle, left) + Values(needle, right)
  {
    hide Values, Sealed;
    PlainIsSealed(needle, link);
    SealedConcat(needle, left, link);
    SealedConcat(needle, left + link, right);
    ValuesConcat(needle, left, link);
    ValuesConcat(needle, left + link, right);
  }

  /** ParseRule inverts the printer exactly when no matcher leaks into another matcher's scanner. */
  lemma ParseInvertsPrint(rule: Rule)
    requires Clean(rule)
    ensures Hosts(Print(rule)) == ArgsOf(HostKind, rule) <==> !Leaks(HostKind, rule)
    ensures Paths(Print(rule)) == ArgsOf(PathPrefixKind, rule) + ArgsOf(PathKind, rule)
      <==> !Leaks(PathPrefixKind, rule) && !Leaks(PathKind, rule)
  {
    PrintedRule(HostKind, rule);
    PrintedRule(PathPrefixKind, rule);
    PrintedRule(PathKind, rule);
  }

  /** No argument anywhere in the rule contains an opening parenthesis. */
  predicate PlainArgs(rule: Rule) {
    match rule
    case Matcher(_, _, args) => forall a <- args :: '(' !in a.value
    case Other(_) => true
    case And(l, r) => PlainArgs(l) && PlainArgs(r)
    case Or(l, r) => PlainArgs(l) && PlainArgs(r)
    case Not(r) => PlainArgs(r)
    case Paren(r) => PlainArgs(r)
  }

  lemma {:induction false} PlainArgsNeverLeak(kind: Kind, rule: Rule)
    requires Clean(rule) && PlainArgs(rule)
    ensures !Leaks(kind, rule)
  {
    match rule
    case Matcher(k, name, args) =>
      forall j | 0 <= j < |args| ensures !NameIn(Needle(kind), args[j].value) {
        assert args[j] in args;
        forall i | 0 <= i < |args[j].value| ensures !NameAt(Needle(kind), args[j].value, i) {
          NameAtEnd(kind, args[j].value, i);
        }
      }
    case Other(_) =>
    case And(l, r) => PlainArgsNeverLeak(kind, l); PlainArgsNeverLeak(kind, r);
    case Or(l, r) => PlainArgsNeverLeak(kind, l); PlainArgsNeverLeak(kind, r);
    case Not(r) => PlainArgsNeverLeak(kind, r);
    case Paren(r) => PlainArgsNeverLeak(kind, r);
  }

  /** Rules whose arguments hold no opening parenthesis are recovered in full. */
  lemma ParsePlainRule(rule: Rule)
    requires Clean(rule) && PlainArgs(rule)
    ensures Hosts(Print(rule)) == ArgsOf(HostKind, rule)
    ensures Paths(Print(rule)) == ArgsOf(PathPrefixKind, rule) + ArgsOf(PathKind, rule)
  {
    ParseInvertsPrint(rule);
    PlainArgsNeverLeak(HostKind, rule);
    PlainArgsNeverLeak(PathPrefixKind, rule);
    PlainArgsNeverLeak(PathKind, rule);
  }

  /** The plainest rule there is. */
  lemma OneHost(host: string)
    requires CleanArg(Arg(host, '`', 0, 0))
    ensures Hosts("Host(" + ("`" + host + "`") + ")") == [host]
  {
    hide CleanPart, Split, FindAll;
    var content := "`" + host + "`";
    assert PrintArg(Arg(host, '`', 0, 0)) == content;
    PrintArgChars(Arg(host, '`', 0, 0));
    AtomCaptures(HOST, "Host", content);
    assert "Host" + "(" + content + ")" == "Host(" + content + ")";
    OnePart(content);
    assert CleanAll([content]) == CleanParts(Split(content, ',')) + CleanAll([]);
  }

  /** And the plainest ones with a path, which name no host. */
  lemma OnePath(path: string)
    requires CleanArg(Arg(path, '`', 0, 0)) && '(' !in path
    ensures Paths("PathPrefix(" + ("`" + path + "`") + ")") == [path] == Paths("Path(" + ("`" + path + "`") + ")")
    ensures Hosts("PathPrefix(" + ("`" + path + "`") + ")") == [] == Hosts("Path(" + ("`" + path + "`") + ")")
  {
    hide Hosts, Paths, CleanArg, Lower, Needle;
    Spellings();
    OneMatcher(PathPrefixKind, "PathPrefix", path);
    OneMatcher(PathKind, "Path", path);
    assert "PathPrefix" + "(" == "PathPrefix(" && "Path" + "(" == "Path(";
  }

  lemma Spellings()
    ensures Lower("PathPrefix") + "(" == Needle(PathPrefixKind) && Lower("Path") + "(" == Needle(PathKind)
  {
  }

  lemma OneMatcher(kind: Kind, name: string, value: string)
    requires Lower(name) + "(" == Needle(kind) && CleanArg(Arg(value, '`', 0, 0)) && '(' !in value
    ensures Hosts(name + "(" + ("`" + value + "`") + ")") == if kind == HostKind then [value] else []
    ensures Paths(name + "(" + ("`" + value + "`") + ")") == if kind == HostKind then [] else [value]
  {
    hide Hosts, Paths, CleanArg;
    var args := [Arg(value, '`', 0, 0)];
    var rule := Matcher(kind, name, args);
    assert PrintArg(args[0]) == "`" + value + "`";
    assert PrintEach(args) == [PrintArg(args[0])] && PrintArgs(args) == "`" + value + "`";
    assert ValuesOf(args) == [value];
    ParsePlainRule(rule);
  }

  lemma LeakCapture()
    ensures CleanAll(["x`"]) == ["x"]
  {
    assert CleanPart("x`") == ["x"] by {
      TrimPeels("", "x`", "", SPACES);
      TrimPeels("", "x", "`", QUOTES);
      assert "" + "x`" + "" == "x`" && "" + "x" + "`" == "x`";
    }
    hide CleanPart;
    assert Split("x`", ',') == ["x`"];
    assert CleanParts(["x`"]) == ["x"] + CleanParts([]);
    assert CleanAll(["x`"]) == CleanParts(["x`"]) + CleanAll([]);
  }

  lemma LeakText()
    ensures Values(PATH, "Host(`" + ("path" + "(" + "x`" + ")")) == ["x"]
  {
    hide CleanAll, FindAll, Sealed;
    LeakCapture();
    AtomCaptures(PATH, "path", "x`");
    PlainIsSealed(PATH, "Host(`");
    ValuesConcat(PATH, "Host(`", "path" + "(" + "x`" + ")");
  }

  lemma LeakIsClean(arg: Arg)
    requires arg == Arg("path(x", '`', 0, 0)
    ensures CleanArg(arg) && PrintArg(arg) == "`path(x`"
  {
  }

  /** Host(`path(x`) is clean, has no path matcher, and yet yields the path "x". */
  lemma LeakExample()
    ensures var rule := Matcher(HostKind, "Host", [Arg("path(x", '`', 0, 0)]);
      Clean(rule) && ArgsOf(PathPrefixKind, rule) + ArgsOf(PathKind, rule) == [] && "x" in Paths(Print(rule))
  {
    hide Values, PrintArg, CleanArg;
    var arg := Arg("path(x", '`', 0, 0);
    var rule := Matcher(HostKind, "Host", [arg]);
    LeakText();
    LeakIsClean(arg);
    assert PrintEach(rule.args) == ["`path(x`"];
    assert Print(rule) == "Host(`" + ("path" + "(" + "x`" + ")");
    assert |Values(PATH, Print(rule))| == 1 && Values(PATH, Print(rule))[0] == "x";
  }
}
