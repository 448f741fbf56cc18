/** The query of a Gatus delete, internal/monitor/gatus/client.go:256: name and group go into it unescaped, and this is
    what a bridge reads back that parses queries as section 5.1 of the WHATWG URL Standard says. */
module GatusQuery {
  import opened Text

  datatype Endpoint = Endpoint(group: string, name: string)

  function Query(ep: Endpoint): string {
    "name=" + ep.name + GroupPart(ep.group)
  }

  function GroupPart(group: string): string {
    "&group=" + group
  }

  function Before(s: string, stop: char): string {
    match Cut(s, stop)
    case None => s
    case Some((front, _)) => front
  }

  function HexDigit(c: char): Option<nat> {
    if '0' <= c <= '9' then Some(c as int - '0' as int)
    else if 'a' <= c <= 'f' then Some(c as int - 'a' as int + 10)
    else if 'A' <= c <= 'F' then Some(c as int - 'A' as int + 10)
    else None
  }

  /** The text begins with an escaped character. */
  predicate Escapes(s: string) {
    |s| >= 3 && s[0] == '%' && HexDigit(s[1]).Some? && HexDigit(s[2]).Some?
  }

  function Decode(s: string): string {
    if s == "" then ""
    else if s[0] == '+' then " " + Decode(s[1..])
    else if Escapes(s) then [Escaped(s)] + Decode(s[3..])
    else [s[0]] + Decode(s[1..])
  }

  function Escaped(s: string): char
    requires Escapes(s)
  {
    ((HexDigit(s[1]).value * 16 + HexDigit(s[2]).value) % 256) as char
  }

  /** One pair of a query: its name, and its value if it has the name asked for. */
  function ValueIn(pair: string, key: string): Option<string> {
    match Cut(pair, '=')
    case Some((k, v)) => if Decode(k) == key then Some(Decode(v)) else None
    case None => if Decode(pair) == key then Some("") else None
  }

  /** The value of the first pair with this name, or nothing. */
  function First(pairs: seq<string>, key: string): string {
    if pairs == [] then ""
    else match ValueIn(pairs[0], key)
      case Some(v) => v
      case None => First(pairs[1..], key)
  }

  /** The endpoint that the bridge takes a delete to be about; a fragment is not sent. */
  function Read(ep: Endpoint): Endpoint {
    var pairs := Split(Before(Query(ep), '#'), '&');
    Endpoint(First(pairs, "group"), First(pairs, "name"))
  }

  /** Text that means itself in a query. */
  predicate Plain(s: string) {
    '&' !in s && '#' !in s && '+' !in s && forall i :: 0 <= i < |s| ==> !Escapes(s[i..])
  }

  /** A length that decoding always makes smaller, unless it changes nothing. */
  function Weight(s: string): nat {
    if s == "" then 0 else (if s[0] == '+' then 2 else 1) + Weight(s[1..])
  }

  lemma {:induction false} WeightConcat(a: string, b: string)
    ensures Weight(a + b) == Weight(a) + Weight(b)
  {
    if a == "" {
      assert a + b == b;
    } else {
      assert (a + b)[1..] == a[1..] + b;
      WeightConcat(a[1..], b);
    }
  }

  lemma WeightCons(c: char, s: string)
    ensures Weight([c] + s) == (if c == '+' then 2 else 1) + Weight(s)
  {
  }

  lemma {:induction false} DecodeShrinks(s: string)
    ensures Decode(s) == s || Weight(Decode(s)) < Weight(s)
  {
    hide Escaped, HexDigit;
    if s == "" {
    } else if s[0] == '+' {
      DecodeShrinks(s[1..]);
      WeightCons(' ', Decode(s[1..]));
    } else if Escapes(s) {
      DecodeShrinks(s[3..]);
      WeightCons(Escaped(s), Decode(s[3..]));
      assert s[1..][1..] == s[2..] && s[2..][1..] == s[3..];
      assert Weight(s) >= 1 + Weight(s[1..]) >= 2 + Weight(s[2..]) >= 3 + Weight(s[3..]);
    } else {
      DecodeShrinks(s[1..]);
      WeightCons(s[0], Decode(s[1..]));
      assert s == [s[0]] + s[1..];
    }
  }

  /** No text with one of the characters that decode to others is left as it is. */
  lemma {:induction false} DecodeFixes(s: string)
    ensures Decode(s) == s <==> '+' !in s && forall i :: 0 <= i < |s| ==> !Escapes(s[i..])
  {
    hide Escaped, Escapes, Weight;
    if s == "" {
    } else if s[0] == '+' {
      assert Decode(s)[0] == ' ';
    } else if Escapes(s) {
      assert s[0..] == s;
      DecodeShorter(s);
    } else {
      DecodeFixes(s[1..]);
      assert Decode(s)[1..] == Decode(s[1..]) && s == [s[0]] + s[1..];
      forall i | 0 <= i < |s| ensures s[i..] == if i == 0 then s else s[1..][i - 1..] {
      }
      if '+' !in s && forall i :: 0 <= i < |s| ==> !Escapes(s[i..]) {
        forall i | 0 <= i < |s| - 1 ensures !Escapes(s[1..][i..]) {
          assert s[1..][i..] == s[i + 1..];
        }
      }
    }
  }

  lemma {:induction false} DecodeLength(s: string)
    ensures |Decode(s)| <= |s|
  {
    hide Escaped, HexDigit;
    if s != "" {
      if s[0] != '+' && Escapes(s) {
        DecodeLength(s[3..]);
      } else {
        DecodeLength(s[1..]);
      }
    }
  }

  lemma DecodeShorter(s: string)
    requires Escapes(s)
    ensures Decode(s) != s
  {
    DecodeLength(s[3..]);
  }

  // ---------- what the bridge reads ----------

  lemma CutSplits(s: string, stop: char)
    ensures var cut := Cut(s, stop);
      if cut.None? then stop !in s
      else s == cut.value.0 + [stop] + cut.value.1 && stop !in cut.value.0
  {
  }

  lemma BeforePast(a: string, b: string, stop: char)
    requires stop !in a
    ensures Before(a + b, stop) == a + Before(b, stop)
  {
    CutSplits(b, stop);
    CutSplits(a + b, stop);
    if Cut(b, stop).Some? {
      var (front, rest) := Cut(b, stop).value;
      assert a + b == (a + front) + [stop] + rest;
      CutAt(a + front, stop, rest);
    }
  }

  lemma SplitStep(front: string, rest: string)
    requires '&' !in front
    ensures Split(front + ['&'] + rest, '&') == [front] + Split(rest, '&')
  {
    CutAt(front, '&', rest);
  }

  lemma SplitNone(s: string)
    requires '&' !in s
    ensures Split(s, '&') == [s]
  {
  }

  lemma {:induction false} SplitConcat(a: string, b: string)
    ensures Split(a + ['&'] + b, '&') == Split(a, '&') + Split(b, '&')
    decreases |a|
  {
    hide Split, Cut;
    CutSplits(a, '&');
    if Cut(a, '&').None? {
      SplitNone(a);
      SplitStep(a, b);
    } else {
      var (front, rest) := Cut(a, '&').value;
      SplitStep(front, rest);
      SplitConcat(rest, b);
      SplitStep(front, rest + ['&'] + b);
      assert a + ['&'] + b == front + ['&'] + (rest + ['&'] + b);
      assert [front] + Split(rest, '&') + Split(b, '&') == [front] + (Split(rest, '&') + Split(b, '&'));
    }
  }

  lemma {:induction false} FirstConcat(a: seq<string>, b: seq<string>, key: string)
    ensures First(a + b, key) == First(a, key) || First(a + b, key) == First(b, key)
  {
    hide ValueIn;
    if a == [] {
      assert a + b == b;
    } else {
      assert (a + b)[1..] == a[1..] + b;
      FirstConcat(a[1..], b, key);
    }
  }

  lemma WeightPrefix(a: string, s: string)
    requires a <= s
    ensures Weight(a) <= Weight(s) && (a != s ==> Weight(a) < Weight(s))
  {
  }

  lemma WeightPositive(s: string)
    ensures Weight(s) == 0 <==> s == ""
  {
  }

  lemma ValueBounded(pair: string, key: string)
    ensures ValueIn(pair, key).Some? ==> Weight(ValueIn(pair, key).value) <= Weight(pair)
  {
    hide Decode;
    var cut := Cut(pair, '=');
    if cut.Some? {
      var (k, v) := cut.value;
      assert pair == (k + "=") + v;
      WeightConcat(k + "=", v);
      DecodeShrinks(v);
    }
  }

  lemma {:induction false} FirstBounded(text: string, key: string)
    ensures Weight(First(Split(text, '&'), key)) <= Weight(text)
    decreases |text|
  {
    hide ValueIn, Split, Cut, Weight;
    CutSplits(text, '&');
    if Cut(text, '&').None? {
      ValueBounded(text, key);
      SplitNone(text);
      WeightPositive("");
    } else {
      var (front, rest) := Cut(text, '&').value;
      ValueBounded(front, key);
      FirstBounded(rest, key);
      SplitStep(front, rest);
      assert ([front] + Split(rest, '&'))[1..] == Split(rest, '&');
      WeightPrefix(front, text);
      WeightConcat(front + ['&'], rest);
    }
  }

  const KEYS := {"name", "group"}

  lemma KeysDecode(key: string)
    requires '+' !in key && '%' !in key
    ensures Decode(key) == key
  {
  }

  lemma OwnValue(key: string, asked: string, v: string)
    requires key in KEYS
    ensures ValueIn(key + "=" + v, asked) == if key == asked then Some(Decode(v)) else None
  {
    hide Decode;
    KeysDecode(key);
    CutAt(key, '=', v);
  }

  /** The pairs of a query that starts with a pair of this name. */
  lemma FirstHere(key: string, asked: string, text: string)
    requires key in KEYS
    ensures var cut := Cut(text, '&');
      First(Split(key + "=" + text, '&'), asked) ==
        if cut.None? then (if key == asked then Decode(text) else "")
        else if key == asked then Decode(cut.value.0)
        else First(Split(cut.value.1, '&'), asked)
  {
    hide Decode, ValueIn;
    var whole := key + "=" + text;
    CutSplits(text, '&');
    if Cut(text, '&').None? {
      OwnValue(key, asked, text);
      CutSplits(whole, '&');
      assert Split(whole, '&') == [whole];
    } else {
      var (own, rest) := Cut(text, '&').value;
      OwnValue(key, asked, own);
      assert whole == (key + "=" + own) + ['&'] + rest;
      CutAt(key + "=" + own, '&', rest);
      assert Split(whole, '&') == [key + "=" + own] + Split(rest, '&');
    }
  }

  /** What the bridge gets to see of a query, behind the first equals sign. */
  lemma ReadIs(ep: Endpoint)
    ensures var seen := Before(ep.name + GroupPart(ep.group), '#');
      var cut := Cut(seen, '&');
      Read(ep) ==
        if cut.None? then Endpoint("", Decode(seen))
        else Endpoint(First(Split(cut.value.1, '&'), "group"), Decode(cut.value.0))
  {
    hide First, Decode, Before, Split, Cut;
    var text := ep.name + GroupPart(ep.group);
    assert Query(ep) == "name=" + text && "name" + "=" == "name=";
    BeforePast("name=", text, '#');
    FirstHere("name", "name", Before(text, '#'));
    FirstHere("name", "group", Before(text, '#'));
  }

  lemma GroupPartIs(group: string)
    ensures Before(GroupPart(group), '#') == GroupPart(Before(group, '#'))
    ensures forall g :: GroupPart(g) == ['&'] + ("group=" + g)
  {
    BeforePast("&group=", group, '#');
  }

  /** A text and, behind it, the group: what the bridge takes for the group is no heavier than both. */
  lemma GroupBounded(text: string, group: string)
    ensures var seen := Before(text + GroupPart(group), '#');
      Weight(First(Split(seen, '&'), "group")) <= Weight(text) + Weight(group)
  {
    hide First, Split, Weight, Decode, GroupPart;
    CutSplits(text, '#');
    if Cut(text, '#').Some? {
      var (front, rest) := Cut(text, '#').value;
      assert text + GroupPart(group) == front + ['#'] + (rest + GroupPart(group));
      CutAt(front, '#', rest + GroupPart(group));
      FirstBounded(front, "group");
      WeightPrefix(front, text);
    } else {
      var shown := Before(group, '#');
      BeforePast(text, GroupPart(group), '#');
      GroupPartIs(group);
      assert text + GroupPart(shown) == text + ['&'] + ("group=" + shown);
      SplitConcat(text, "group=" + shown);
      FirstConcat(Split(text, '&'), Split("group=" + shown, '&'), "group");
      FirstBounded(text, "group");
      GroupShown(group);
    }
  }

  /** A group that the bridge gets to see from its start. */
  lemma GroupShown(group: string)
    ensures var read := First(Split("group=" + Before(group, '#'), '&'), "group");
      (read == group || Weight(read) < Weight(group)) && (read == group <==> Plain(group))
  {
    hide First, Split, Weight, Decode;
    var shown := Before(group, '#');
    assert "group" + "=" == "group=";
    FirstHere("group", "group", shown);
    CutSplits(group, '#');
    CutSplits(shown, '&');
    var own := Before(shown, '&');
    DecodeShrinks(own);
    WeightPrefix(own, group);
    DecodeFixes(group);
    assert own == group <==> '#' !in group && '&' !in group;
  }

  function Total(ep: Endpoint): nat {
    Weight(ep.group) + Weight(ep.name)
  }

  lemma ReadPlainName(ep: Endpoint)
    requires '&' !in ep.name && '#' !in ep.name
    ensures Read(ep) == Endpoint(First(Split("group=" + Before(ep.group, '#'), '&'), "group"), Decode(ep.name))
  {
    hide First, Split, Decode, Read, GroupPart, Before, Cut;
    ReadIs(ep);
    var shown := "group=" + Before(ep.group, '#');
    BeforePast(ep.name, GroupPart(ep.group), '#');
    GroupPartIs(ep.group);
    assert ep.name + GroupPart(Before(ep.group, '#')) == ep.name + ['&'] + shown;
    CutAt(ep.name, '&', shown);
  }

  /** A name with a number sign before any ampersand ends the query. */
  lemma ReadCutName(ep: Endpoint, front: string, rest: string)
    requires ep.name == front + ['#'] + rest && '&' !in front && '#' !in front
    ensures Read(ep) == Endpoint("", Decode(front))
  {
    hide First, Split, Decode, Read, GroupPart;
    ReadIs(ep);
    assert ep.name + GroupPart(ep.group) == front + ['#'] + (rest + GroupPart(ep.group));
    CutAt(front, '#', rest + GroupPart(ep.group));
    CutSplits(front, '&');
  }

  lemma SeenSplitName(ep: Endpoint, front: string, rest: string)
    requires ep.name == front + ['&'] + rest && '&' !in front && '#' !in front
    ensures var shown := Before(rest + GroupPart(ep.group), '#');
      Cut(Before(ep.name + GroupPart(ep.group), '#'), '&') == Some((front, shown))
  {
    hide GroupPart, Cut, Before;
    var text := rest + GroupPart(ep.group);
    assert ep.name + GroupPart(ep.group) == (front + ['&']) + text;
    BeforePast(front + ['&'], text, '#');
    CutAt(front, '&', Before(text, '#'));
  }

  /** A name with an ampersand before any number sign ends there. */
  lemma ReadSplitName(ep: Endpoint, front: string, rest: string)
    requires ep.name == front + ['&'] + rest && '&' !in front && '#' !in front
    ensures Read(ep).name == Decode(front) && Weight(Read(ep).group) <= Weight(rest) + Weight(ep.group)
  {
    hide First, Split, Decode, Read, Weight, GroupPart, Cut, Before;
    ReadIs(ep);
    SeenSplitName(ep, front, rest);
    GroupBounded(rest, ep.group);
  }

  lemma CutNameShrinks(ep: Endpoint, front: string, rest: string)
    requires ep.name == front + ['#'] + rest && '&' !in front && '#' !in front
    ensures Total(Read(ep)) < Total(ep)
  {
    hide Read, Decode, Weight;
    ReadCutName(ep, front, rest);
    DecodeShrinks(front);
    WeightPrefix(front, ep.name);
    WeightPositive("");
  }

  lemma SplitNameShrinks(ep: Endpoint, front: string, rest: string)
    requires ep.name == front + ['&'] + rest && '&' !in front && '#' !in front
    ensures Total(Read(ep)) < Total(ep)
  {
    hide Read, Decode, Weight;
    ReadSplitName(ep, front, rest);
    DecodeShrinks(front);
    WeightConcat(front + ['&'], rest);
    WeightConcat(front, ['&']);
    WeightPositive(['&']);
  }

  lemma ReadOddName(ep: Endpoint)
    requires '&' in ep.name || '#' in ep.name
    ensures Total(Read(ep)) < Total(ep)
  {
    hide Read, Decode, Total, Cut;
    var name, front := ep.name, Before(ep.name, '&');
    CutSplits(name, '&');
    CutSplits(front, '#');
    if '#' in front {
      var first := Before(front, '#');
      var rest := name[|first| + 1..];
      assert name == first + ['#'] + rest;
      CutNameShrinks(ep, first, rest);
    } else {
      SplitNameShrinks(ep, front, Cut(name, '&').value.1);
    }
  }

  /** The bridge reads the endpoint that was meant, or one that weighs less. */
  lemma ReadShrinks(ep: Endpoint)
    ensures Read(ep) == ep || Total(Read(ep)) < Total(ep)
  {
    hide Read, Decode, Weight, First, Split;
    if '&' in ep.name || '#' in ep.name {
      ReadOddName(ep);
    } else {
      ReadPlainName(ep);
      GroupShown(ep.group);
      DecodeShrinks(ep.name);
    }
  }

  /** A delete is read as it was meant if and only if group and name hold no ampersand, number sign or plus and no
      percent sign with two hexadecimal digits behind it. */
  lemma ReadAsMeant(ep: Endpoint)
    ensures Read(ep) == ep <==> Plain(ep.group) && Plain(ep.name)
  {
    hide Read, Decode, Weight, First, Split;
    if '&' in ep.name || '#' in ep.name {
      ReadOddName(ep);
    } else {
      ReadPlainName(ep);
      GroupShown(ep.group);
      DecodeFixes(ep.name);
    }
  }

  /** The group R&D is read as the group R. */
  lemma AmpersandExample(name: string)
    requires Plain(name)
    ensures Read(Endpoint("R&D", name)) == Endpoint("R", name)
  {
    hide Read, First, Split;
    ReadPlainName(Endpoint("R&D", name));
    DecodeFixes(name);
    var shown := Before("R&D", '#');
    CutSplits("R&D", '#');
    assert "group" + "=" == "group=";
    FirstHere("group", "group", "R&D");
    CutAt("R", '&', "D");
    assert "R" + ['&'] + "D" == "R&D";
    KeysDecode("R");
  }
}
