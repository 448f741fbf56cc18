/** String operations of Go's `strings` package that the companion relies on, over ASCII text. */
module Text {

  datatype Option<+T> = None | Some(value: T)

  const SPACES: set<char> := {' ', '\t', '\n', '\r', '\U{B}', '\U{C}'}
  const QUOTES: set<char> := {'`', '\'', '"'}

  predicate HasPrefix(s: string, p: string) {
    p <= s
  }

  predicate HasSuffix(s: string, p: string) {
    |p| <= |s| && s[|s| - |p|..] == p
  }

  function TrimPrefix(s: string, p: string): string {
    if HasPrefix(s, p) then s[|p|..] else s
  }

  function TrimSuffix(s: string, p: string): string {
    if HasSuffix(s, p) then s[..|s| - |p|] else s
  }

  predicate Contains(s: string, sub: string) {
    HasPrefix(s, sub) || (s != "" && Contains(s[1..], sub))
  }

  function LowerChar(c: char): char {
    if 'A' <= c <= 'Z' then (c as int + 32) as char else c
  }

  function Lower(s: string): string {
    seq(|s|, i requires 0 <= i < |s| => LowerChar(s[i]))
  }

  /** A text is contained where it occurs, with any text before and after it. */
  lemma {:induction false} ContainsMeans(s: string, sub: string)
    ensures Contains(s, sub) <==> exists a: string, b: string :: s == a + sub + b
  {
    if HasPrefix(s, sub) {
      assert s == "" + sub + s[|sub|..];
    } else if s == "" {
    } else {
      ContainsMeans(s[1..], sub);
      if a: string, b: string :| s[1..] == a + sub + b {
        assert s == ([s[0]] + a) + sub + b;
      }
      if a: string, b: string :| s == a + sub + b {
        assert a != "" by {
          assert a == "" ==> s == sub + b;
        }
        assert s[1..] == a[1..] + sub + b;
      }
    }
  }

  /** Lowering turns each capital into its small letter and leaves every other character alone. */
  lemma LowerMeans(c: char)
    ensures Lower([c]) == if 'A' <= c <= 'Z' then ["abcdefghijklmnopqrstuvwxyz"[c as int - 65]] else [c]
  {
  }

  function TrimLeft(s: string, cut: set<char>): string {
    if s != "" && s[0] in cut then TrimLeft(s[1..], cut) else s
  }

  function TrimRight(s: string, cut: set<char>): string {
    if s != "" && s[|s| - 1] in cut then TrimRight(s[..|s| - 1], cut) else s
  }

  function Trim(s: string, cut: set<char>): string {
    TrimRight(TrimLeft(s, cut), cut)
  }

  function TrimSpace(s: string): string {
    Trim(s, SPACES)
  }

  /** The blanks are those of ASCII: space, and tab to carriage return. */
  lemma SpacesAre(c: char)
    ensures c in SPACES <==> c == ' ' || 9 <= c as int <= 13
    ensures c in QUOTES <==> c == '`' || c == '\'' || c == '"'
  {
  }

  function Blanks(n: nat): string {
    seq(n, _ => ' ')
  }

  /** Trimming peels off any run of cut characters around a core that starts and ends outside the cut set. */
  lemma {:induction false} TrimPeels(left: string, core: string, right: string, cut: set<char>)
    requires forall c <- left :: c in cut
    requires forall c <- right :: c in cut
    requires core != "" ==> core[0] !in cut && core[|core| - 1] !in cut
    ensures Trim(left + core + right, cut) == core
  {
    if left != "" {
      assert (left + core + right)[1..] == left[1..] + core + right;
      TrimPeels(left[1..], core, right, cut);
    } else if core == "" {
      assert left + core + right == right;
      TrimLeftAll(right, cut);
    } else {
      assert left + core + right == core + right;
      TrimRightPeels(core, right, cut);
    }
  }

  lemma {:induction false} TrimLeftAll(s: string, cut: set<char>)
    requires forall c <- s :: c in cut
    ensures TrimLeft(s, cut) == ""
  {
    if s != "" {
      TrimLeftAll(s[1..], cut);
    }
  }

  lemma {:induction false} TrimRightPeels(core: string, right: string, cut: set<char>)
    requires forall c <- right :: c in cut
    requires core != "" && core[|core| - 1] !in cut
    ensures TrimRight(core + right, cut) == core
  {
    if right == "" {
      assert core + right == core;
    } else {
      assert (core + right)[..|core + right| - 1] == core + right[..|right| - 1];
      TrimRightPeels(core, right[..|right| - 1], cut);
    }
  }

  function IndexOf(s: string, c: char): (r: Option<nat>)
    ensures r.Some? ==> r.value < |s| && s[r.value] == c && c !in s[..r.value]
    ensures r.None? <==> c !in s
  {
    if s == "" then None
    else if s[0] == c then Some(0)
    else match IndexOf(s[1..], c)
      case None => None
      case Some(i) =>
        assert s[..i + 1] == [s[0]] + s[1..][..i];
        Some(i + 1)
  }

  lemma IndexOfFirst(a: string, c: char, b: string)
    requires c !in a
    ensures IndexOf(a + [c] + b, c) == Some(|a|)
  {
    var s := a + [c] + b;
    assert s[|a|] == c;
    assert s[..|a|] == a;
  }

  /** `strings.Split` on a one-character separator. */
  function Split(s: string, sep: char): (parts: seq<string>)
    ensures |parts| >= 1
  {
    match IndexOf(s, sep)
    case None => [s]
    case Some(i) => [s[..i]] + Split(s[i + 1..], sep)
  }

  /** `strings.SplitN(s, sep, 2)`: the two halves around the first separator, if there is one. */
  function Cut(s: string, sep: char): Option<(string, string)> {
    match IndexOf(s, sep)
    case None => None
    case Some(i) => Some((s[..i], s[i + 1..]))
  }

  lemma CutAt(a: string, sep: char, b: string)
    requires sep !in a
    ensures Cut(a + [sep] + b, sep) == Some((a, b))
  {
    IndexOfFirst(a, sep, b);
    assert (a + [sep] + b)[..|a|] == a && (a + [sep] + b)[|a| + 1..] == b;
  }

  function Join(parts: seq<string>, sep: char): string
    requires parts != []
  {
    if |parts| == 1 then parts[0] else parts[0] + [sep] + Join(parts[1..], sep)
  }

  lemma {:induction false} SplitInvertsJoin(parts: seq<string>, sep: char)
    requires parts != []
    requires forall p <- parts :: sep !in p
    ensures Split(Join(parts, sep), sep) == parts
  {
    if |parts| > 1 {
      CutAt(parts[0], sep, Join(parts[1..], sep));
      SplitInvertsJoin(parts[1..], sep);
    }
  }
}
