/** What one attach request means for a status page: the groups of monitors before and after it. */
module PageLayout {

  datatype Group = Group(name: string, weight: int, monitors: seq<int>)

  type Layout = seq<Group>

  /** Case folding: two names are equal under `strings.EqualFold` when they fold to the same string. */
  type Fold = string -> string

  predicate SameName(fold: Fold, a: string, b: string) {
    fold(a) == fold(b)
  }

  /** The last group that answers to `name`, or -1. */
  function TargetIndex(fold: Fold, layout: Layout, name: string): (t: int)
    ensures -1 <= t < |layout|
    ensures t >= 0 ==> SameName(fold, layout[t].name, name)
    ensures forall i :: t < i < |layout| ==> !SameName(fold, layout[i].name, name)
  {
    if layout == [] then -1
    else if SameName(fold, layout[|layout| - 1].name, name) then |layout| - 1
    else TargetIndex(fold, layout[..|layout| - 1], name)
  }

  function RemoveFirst(monitors: seq<int>, id: int): seq<int> {
    if monitors == [] then []
    else if monitors[0] == id then monitors[1..]
    else [monitors[0]] + RemoveFirst(monitors[1..], id)
  }

  function PruneGroup(fold: Fold, group: Group, id: int, name: string): Group {
    if SameName(fold, group.name, name) then group else group.(monitors := RemoveFirst(group.monitors, id))
  }

  function Prune(fold: Fold, layout: Layout, id: int, name: string): (pruned: Layout)
    ensures |pruned| == |layout|
    ensures forall i :: 0 <= i < |layout| ==> pruned[i] == PruneGroup(fold, layout[i], id, name)
  {
    seq(|layout|, i requires 0 <= i < |layout| => PruneGroup(fold, layout[i], id, name))
  }

  /** The layout with the target group in it; a missing group is created at the end. */
  function WithGroup(fold: Fold, layout: Layout, name: string): Layout {
    if TargetIndex(fold, layout, name) == -1 then layout + [Group(name, |layout| + 1, [])] else layout
  }

  function AddTo(group: Group, id: int): Group {
    if id in group.monitors then group else group.(monitors := group.monitors + [id])
  }

  function Attach(fold: Fold, layout: Layout, id: int, name: string): Layout {
    var full := WithGroup(fold, Prune(fold, layout, id, name), name);
    var t := TargetIndex(fold, full, name);
    full[t := AddTo(full[t], id)]
  }

  /** Group names are distinct up to case and no monitor occurs twice on the page. */
  ghost predicate WellFormed(fold: Fold, layout: Layout) {
    && (forall i, j :: 0 <= i < j < |layout| ==> !SameName(fold, layout[i].name, layout[j].name))
    && (forall i :: 0 <= i < |layout| ==> NoRepeats(layout[i].monitors))
    && (forall i, j, id :: 0 <= i < |layout| && 0 <= j < |layout| ==>
          id in layout[i].monitors && id in layout[j].monitors ==> i == j)
  }

  ghost predicate NoRepeats(s: seq<int>) {
    forall i, j :: 0 <= i < j < |s| ==> s[i] != s[j]
  }

  ghost predicate Holds(layout: Layout, id: int) {
    exists i :: 0 <= i < |layout| && id in layout[i].monitors
  }

  /** A monitor that came to a group, by the group's folded name. */
  datatype Arrival = Arrival(id: int, group: string)

  /** The monitors of a page, in the order in which they came to the groups they are in. */
  type Arrivals = seq<Arrival>

  function IdsIn(home: Arrivals, group: string): seq<int> {
    if home == [] then []
    else
      var last, earlier := home[|home| - 1], IdsIn(home[..|home| - 1], group);
      if last.group == group then earlier + [last.id] else earlier
  }

  function Leave(home: Arrivals, id: int): Arrivals {
    if home == [] then []
    else
      var last, earlier := home[|home| - 1], Leave(home[..|home| - 1], id);
      if last.id == id then earlier else earlier + [last]
  }

  /** A monitor sent to the group it is in stays where it is; otherwise it arrives last. */
  function Moved(home: Arrivals, id: int, group: string): Arrivals {
    if Arrival(id, group) in home then home else Leave(home, id) + [Arrival(id, group)]
  }

  ghost predicate OneGroupEach(home: Arrivals) {
    forall i, j :: 0 <= i < j < |home| ==> home[i].id != home[j].id
  }

  ghost predicate HasGroup(fold: Fold, layout: Layout, group: string) {
    exists i :: 0 <= i < |layout| && fold(layout[i].name) == group
  }

  /** Every group lists the monitors that came to it, in the order in which they came, and there are no others. */
  ghost predicate StandsFor(fold: Fold, layout: Layout, home: Arrivals) {
    && OneGroupEach(home)
    && (forall i :: 0 <= i < |layout| ==> layout[i].monitors == IdsIn(home, fold(layout[i].name)))
    && (forall a <- home :: HasGroup(fold, layout, a.group))
  }

  function Others(monitors: seq<int>, id: int): seq<int> {
    if monitors == [] then []
    else if monitors[0] == id then Others(monitors[1..], id)
    else [monitors[0]] + Others(monitors[1..], id)
  }

  // ---------- one request ----------

  lemma {:induction false} RemoveFirstFacts(s: seq<int>, id: int)
    ensures forall x :: x != id ==> (x in RemoveFirst(s, id) <==> x in s)
    ensures RemoveFirst(s, id) == s <==> id !in s
    ensures NoRepeats(s) ==> NoRepeats(RemoveFirst(s, id)) && id !in RemoveFirst(s, id)
    ensures Others(RemoveFirst(s, id), id) == Others(s, id)
  {
    if s == [] {
    } else if s[0] == id {
      assert s == [s[0]] + s[1..];
    } else {
      var rest := s[1..];
      RemoveFirstFacts(rest, id);
      assert s == [s[0]] + rest;
      var r := RemoveFirst(rest, id);
      assert ([s[0]] + r)[1..] == r;
      if NoRepeats(s) {
        assert NoRepeats(rest);
        assert s[0] !in rest;
      }
    }
  }

  lemma {:induction false} OthersAppend(s: seq<int>, x: int, id: int)
    ensures Others(s + [x], id) == Others(s, id) + if x == id then [] else [x]
  {
    if s == [] {
      assert s + [x] == [x];
      assert Others([x], id) == if x == id then [] else [x];
    } else {
      var rest := Others(s[1..], id);
      OthersAppend(s[1..], x, id);
      assert (s + [x])[1..] == s[1..] + [x];
      assert ([s[0]] + rest) + [x] == [s[0]] + (rest + [x]);
      assert rest + [] == rest && ([s[0]] + rest) + [] == [s[0]] + rest;
    }
  }

  /** Where a monitor is listed at most once, its first occurrence is every one. */
  lemma {:induction false} RemoveFirstIsOthers(s: seq<int>, id: int)
    requires NoRepeats(s)
    ensures RemoveFirst(s, id) == Others(s, id)
    ensures id !in s ==> Others(s, id) == s
  {
    if s != [] {
      RemoveFirstIsOthers(s[1..], id);
      assert s == [s[0]] + s[1..];
      assert s[0] !in s[1..];
    }
  }

  lemma {:induction false} RemoveFirstAt(s: seq<int>, j: nat, id: int)
    requires j < |s| && s[j] == id && id !in s[..j]
    ensures RemoveFirst(s, id) == s[..j] + s[j + 1..]
  {
    if j > 0 {
      assert s[0] in s[..j];
      assert s[1..][..j - 1] == s[..j][1..];
      RemoveFirstAt(s[1..], j - 1, id);
    }
  }

  lemma TargetStable(fold: Fold, a: Layout, b: Layout, name: string)
    requires |a| == |b| && forall i :: 0 <= i < |a| ==> a[i].name == b[i].name
    ensures TargetIndex(fold, a, name) == TargetIndex(fold, b, name)
  {
  }

  /** Position by position: the target group gains the monitor, every other group loses it, nothing else moves. */
  ghost predicate Attached(fold: Fold, layout: Layout, id: int, name: string, t: int, after: Layout) {
    && t == TargetIndex(fold, layout, name)
    && |after| == (if t == -1 then |layout| + 1 else |layout|)
    && (forall i :: 0 <= i < |layout| ==>
          after[i] == if i == t then AddTo(layout[i], id) else PruneGroup(fold, layout[i], id, name))
    && (t == -1 ==> after[|layout|] == Group(name, |layout| + 1, [id]))
  }

  lemma AttachCases(fold: Fold, layout: Layout, id: int, name: string)
    ensures var t, pruned := TargetIndex(fold, layout, name), Prune(fold, layout, id, name);
      var created := Group(name, |layout| + 1, []);
      Attach(fold, layout, id, name) ==
        if t == -1 then (pruned + [created])[|layout| := AddTo(created, id)] else pruned[t := AddTo(pruned[t], id)]
  {
    hide PruneGroup, AddTo, TargetIndex, Prune;
    var pruned := Prune(fold, layout, id, name);
    PruneKeepsNames(fold, layout, id, name);
    TargetStable(fold, layout, pruned, name);
    TargetCreated(fold, pruned, Group(name, |layout| + 1, []));
  }

  lemma TargetCreated(fold: Fold, layout: Layout, group: Group)
    ensures TargetIndex(fold, layout + [group], group.name) == |layout|
  {
  }

  lemma PruneKeepsNames(fold: Fold, layout: Layout, id: int, name: string)
    ensures var pruned := Prune(fold, layout, id, name);
      |pruned| == |layout| && forall i :: 0 <= i < |layout| ==> pruned[i].name == layout[i].name
  {
  }

  lemma AttachIsAttached(fold: Fold, layout: Layout, id: int, name: string)
    ensures Attached(fold, layout, id, name, TargetIndex(fold, layout, name), Attach(fold, layout, id, name))
  {
    hide Attach, TargetIndex, RemoveFirst;
    AttachCases(fold, layout, id, name);
  }

  lemma OthersKept(fold: Fold, layout: Layout, id: int, name: string, t: int, after: Layout)
    requires Attached(fold, layout, id, name, t, after)
    ensures forall i :: 0 <= i < |layout| ==>
      && after[i].name == layout[i].name && after[i].weight == layout[i].weight
      && Others(after[i].monitors, id) == Others(layout[i].monitors, id)
      && forall x :: x != id ==> (x in after[i].monitors <==> x in layout[i].monitors)
  {
    forall i | 0 <= i < |layout|
      ensures Others(after[i].monitors, id) == Others(layout[i].monitors, id)
      ensures forall x :: x != id ==> (x in after[i].monitors <==> x in layout[i].monitors)
    {
      RemoveFirstFacts(layout[i].monitors, id);
      OthersAppend(layout[i].monitors, id, id);
    }
  }

  /** Groups keep their place, name and weight, and every other monitor its group and relative order; a group is
      added only at the end, only when missing, and only for this monitor. */
  lemma AttachKeepsOthers(fold: Fold, layout: Layout, id: int, name: string)
    ensures var after := Attach(fold, layout, id, name);
      && |layout| <= |after| <= |layout| + 1
      && (forall i :: 0 <= i < |layout| ==>
            && after[i].name == layout[i].name && after[i].weight == layout[i].weight
            && Others(after[i].monitors, id) == Others(layout[i].monitors, id))
      && (|after| > |layout| ==>
            && after[|layout|] == Group(name, |layout| + 1, [id])
            && forall i :: 0 <= i < |layout| ==> !SameName(fold, layout[i].name, name))
  {
    AttachIsAttached(fold, layout, id, name);
    OthersKept(fold, layout, id, name, TargetIndex(fold, layout, name), Attach(fold, layout, id, name));
  }

  /** Group by group, on any page: the last group of that name gets the monitor at its end, unless it lists it already;
      where no group has the name, one is created at the end, holding just this monitor; a group that has the name,
      or does not list the monitor, is left alone otherwise. */
  lemma AttachGroups(fold: Fold, layout: Layout, id: int, name: string)
    ensures var t, after := TargetIndex(fold, layout, name), Attach(fold, layout, id, name);
      && (t != -1 ==>
            && |after| == |layout|
            && after[t].monitors == layout[t].monitors + (if id in layout[t].monitors then [] else [id]))
      && (t == -1 ==> |after| == |layout| + 1 && after[|layout|] == Group(name, |layout| + 1, [id]))
      && forall i :: 0 <= i < |layout| ==>
           && after[i].name == layout[i].name && after[i].weight == layout[i].weight
           && (i != t && (fold(layout[i].name) == fold(name) || id !in layout[i].monitors) ==> after[i] == layout[i])
  {
    hide Attach, TargetIndex;
    AttachIsAttached(fold, layout, id, name);
    forall i | 0 <= i < |layout| {
      RemoveFirstFacts(layout[i].monitors, id);
    }
  }

  /** And a group of another name that lists the monitor loses its first occurrence, and nothing else. */
  lemma AttachCuts(fold: Fold, layout: Layout, id: int, name: string, i: nat, left: seq<int>, right: seq<int>)
    requires i < |layout| && fold(layout[i].name) != fold(name)
    requires layout[i].monitors == left + [id] + right && id !in left
    ensures |Attach(fold, layout, id, name)| >= |layout|
    ensures Attach(fold, layout, id, name)[i].monitors == left + right
  {
    hide Attach;
    AttachIsAttached(fold, layout, id, name);
    var monitors := layout[i].monitors;
    assert monitors[..|left|] == left && monitors[|left| + 1..] == right;
    RemoveFirstAt(monitors, |left|, id);
  }

  lemma OnlyTargetHolds(fold: Fold, layout: Layout, id: int, name: string, t: int, after: Layout)
    requires WellFormed(fold, layout) && Attached(fold, layout, id, name, t, after)
    ensures forall i :: 0 <= i < |after| ==>
      NoRepeats(after[i].monitors) && (id in after[i].monitors <==> SameName(fold, after[i].name, name))
  {
    forall i | 0 <= i < |layout|
      ensures NoRepeats(after[i].monitors)
      ensures id in after[i].monitors <==> SameName(fold, after[i].name, name)
    {
      RemoveFirstFacts(layout[i].monitors, id);
      assert t != -1 && i != t ==> !SameName(fold, layout[i].name, layout[t].name);
    }
  }

  lemma AttachedIsWellFormed(fold: Fold, layout: Layout, id: int, name: string, t: int, after: Layout)
    requires WellFormed(fold, layout) && Attached(fold, layout, id, name, t, after)
    ensures WellFormed(fold, after)
  {
    hide TargetIndex, PruneGroup, AddTo, Others;
    OnlyTargetHolds(fold, layout, id, name, t, after);
    OthersKept(fold, layout, id, name, t, after);
    forall i, j | 0 <= i < j < |after| ensures !SameName(fold, after[i].name, after[j].name) {
      assert after[i].name == layout[i].name;
    }
    forall i, j, x | 0 <= i < |after| && 0 <= j < |after| && x in after[i].monitors && x in after[j].monitors
      ensures i == j
    {
      if x == id {
        assert SameName(fold, after[i].name, after[j].name);
      }
    }
  }

  // ---------- in order of arrival ----------

  lemma {:induction false} IdsInMembers(home: Arrivals, group: string)
    ensures forall id :: id in IdsIn(home, group) <==> Arrival(id, group) in home
  {
    if home != [] {
      var n := |home| - 1;
      IdsInMembers(home[..n], group);
      assert home == home[..n] + [home[n]];
    }
  }

  lemma {:induction false} LeaveMembers(home: Arrivals, id: int)
    ensures forall a :: a in Leave(home, id) <==> a in home && a.id != id
  {
    if home != [] {
      var n := |home| - 1;
      LeaveMembers(home[..n], id);
      assert home == home[..n] + [home[n]];
    }
  }

  lemma {:induction false} LeaveOneEach(home: Arrivals, id: int)
    requires OneGroupEach(home)
    ensures OneGroupEach(Leave(home, id))
  {
    if home != [] {
      var n := |home| - 1;
      LeaveOneEach(home[..n], id);
      LeaveMembers(home[..n], id);
      forall a | a in Leave(home[..n], id) ensures a.id != home[n].id {
        assert a in home[..n];
      }
    }
  }

  /** When a monitor leaves, every group goes on listing its other monitors in the same order. */
  lemma {:induction false} LeaveKeepsOrder(home: Arrivals, id: int, group: string)
    ensures IdsIn(Leave(home, id), group) == Others(IdsIn(home, group), id)
  {
    if home != [] {
      var n := |home| - 1;
      LeaveKeepsOrder(home[..n], id, group);
      var front := Leave(home[..n], id);
      if home[n].id != id {
        assert (front + [home[n]])[..|front|] == front;
      }
      if home[n].group == group {
        OthersAppend(IdsIn(home[..n], group), home[n].id, id);
      }
    }
  }

  lemma ArriveLast(home: Arrivals, a: Arrival, group: string)
    ensures IdsIn(home + [a], group) == IdsIn(home, group) + if a.group == group then [a.id] else []
  {
  }

  lemma MovedOneEach(home: Arrivals, id: int, group: string)
    requires OneGroupEach(home)
    ensures OneGroupEach(Moved(home, id, group))
    ensures forall a :: a in Moved(home, id, group) <==> a == Arrival(id, group) || (a in home && a.id != id)
  {
    LeaveMembers(home, id);
    LeaveOneEach(home, id);
    var front := Leave(home, id);
    if Arrival(id, group) !in home {
      forall a | a in front ensures a.id != id {
      }
    } else {
      var k :| 0 <= k < |home| && home[k] == Arrival(id, group);
      assert forall j :: 0 <= j < |home| && home[j].id == id ==> j == k;
    }
  }

  /** The lists after a move: at the end of the new group's list unless it was in it, cut out of every other one. */
  lemma MovedLists(home: Arrivals, id: int, group: string, other: string)
    requires OneGroupEach(home)
    ensures var before, after := IdsIn(home, other), IdsIn(Moved(home, id, group), other);
      if other != group then after == Others(before, id)
      else after == before + if id in before then [] else [id]
  {
    hide OneGroupEach;
    IdsInMembers(home, other);
    if Arrival(id, group) in home {
      OnlyGroup(home, id, group, other);
      OthersNone(IdsIn(home, other), id);
    } else {
      LeaveKeepsOrder(home, id, other);
      ArriveLast(Leave(home, id), Arrival(id, group), other);
      OthersNone(IdsIn(home, other), id);
    }
  }

  lemma OnlyGroup(home: Arrivals, id: int, group: string, other: string)
    requires OneGroupEach(home) && Arrival(id, group) in home
    ensures other != group ==> Arrival(id, other) !in home
  {
  }

  lemma {:induction false} OthersNone(s: seq<int>, id: int)
    ensures id !in s ==> Others(s, id) == s
  {
    if s != [] {
      OthersNone(s[1..], id);
      assert s == [s[0]] + s[1..];
    }
  }

  lemma AttachedMoves(fold: Fold, layout: Layout, id: int, name: string, t: int, after: Layout, home: Arrivals)
    requires WellFormed(fold, layout) && StandsFor(fold, layout, home)
    requires Attached(fold, layout, id, name, t, after)
    ensures StandsFor(fold, after, Moved(home, id, fold(name)))
  {
    hide TargetIndex, RemoveFirst, Others, Moved, IdsIn, OneGroupEach;
    var g, home' := fold(name), Moved(home, id, fold(name));
    MovedOneEach(home, id, g);
    TargetIsOnly(fold, layout, name, t);
    forall i | 0 <= i < |layout| ensures after[i].monitors == IdsIn(home', fold(layout[i].name)) {
      MovedLists(home, id, g, fold(layout[i].name));
      RemoveFirstIsOthers(layout[i].monitors, id);
    }
    if t == -1 {
      MovedLists(home, id, g, g);
      assert !HasGroup(fold, layout, g);
      NobodyIn(fold, layout, home, g);
    }
    forall a | a in home' ensures HasGroup(fold, after, a.group) {
      if a in home {
        var i :| 0 <= i < |layout| && fold(layout[i].name) == a.group;
        assert after[i].name == layout[i].name;
      } else {
        assert fold(after[if t == -1 then |layout| else t].name) == g;
      }
    }
  }

  lemma TargetIsOnly(fold: Fold, layout: Layout, name: string, t: int)
    requires WellFormed(fold, layout) && t == TargetIndex(fold, layout, name)
    ensures forall i :: 0 <= i < |layout| ==> (fold(layout[i].name) == fold(name) <==> i == t)
  {
  }

  lemma NobodyIn(fold: Fold, layout: Layout, home: Arrivals, group: string)
    requires StandsFor(fold, layout, home)
    ensures HasGroup(fold, layout, group) || IdsIn(home, group) == []
  {
    IdsInMembers(home, group);
    if IdsIn(home, group) != [] {
      var id := IdsIn(home, group)[0];
      assert id in IdsIn(home, group) && Arrival(id, group) in home;
      assert HasGroup(fold, layout, Arrival(id, group).group);
    }
  }

  /** On a well-formed page a request keeps the page well-formed, and every group goes on listing its monitors in the
      order in which they came: the monitor stays where it is if it is in the group, and comes last otherwise. */
  lemma AttachMoves(fold: Fold, layout: Layout, id: int, name: string, home: Arrivals)
    requires WellFormed(fold, layout) && StandsFor(fold, layout, home)
    ensures WellFormed(fold, Attach(fold, layout, id, name))
    ensures StandsFor(fold, Attach(fold, layout, id, name), Moved(home, id, fold(name)))
  {
    hide Attach, Attached, StandsFor, WellFormed;
    var t, after := TargetIndex(fold, layout, name), Attach(fold, layout, id, name);
    AttachIsAttached(fold, layout, id, name);
    AttachedIsWellFormed(fold, layout, id, name, t, after);
    AttachedMoves(fold, layout, id, name, t, after, home);
  }

  /** One of the first `n` groups holds the monitor and does not answer to `name`. */
  predicate HeldElsewhere(fold: Fold, layout: Layout, id: int, name: string, n: nat)
    requires n <= |layout|
  {
    exists i :: 0 <= i < n && !SameName(fold, layout[i].name, name) && id in layout[i].monitors
  }

  /** When the code has something to save: a monitor pruned, a group created, or a monitor appended. */
  predicate Changes(fold: Fold, layout: Layout, id: int, name: string) {
    || HeldElsewhere(fold, layout, id, name, |layout|)
    || TargetIndex(fold, layout, name) == -1
    || id !in layout[TargetIndex(fold, layout, name)].monitors
  }

  lemma AttachedDiffers(fold: Fold, layout: Layout, id: int, name: string, t: int, after: Layout)
    requires Attached(fold, layout, id, name, t, after)
    ensures Changes(fold, layout, id, name) <==> after != layout
  {
    forall i | 0 <= i < |layout|
      ensures RemoveFirst(layout[i].monitors, id) == layout[i].monitors <==> id !in layout[i].monitors
    {
      RemoveFirstFacts(layout[i].monitors, id);
    }
    if !Changes(fold, layout, id, name) {
      forall i | 0 <= i < |layout| ensures after[i] == layout[i] {}
    } else if t != -1 && id !in layout[t].monitors {
      assert id in after[t].monitors;
    } else if t != -1 {
      var i :| 0 <= i < |layout| && !SameName(fold, layout[i].name, name) && id in layout[i].monitors;
      assert after[i].monitors == RemoveFirst(layout[i].monitors, id);
    }
  }

  /** Something is saved exactly when the layout is different afterwards. */
  lemma ChangesIffDifferent(fold: Fold, layout: Layout, id: int, name: string)
    ensures Changes(fold, layout, id, name) <==> Attach(fold, layout, id, name) != layout
  {
    AttachIsAttached(fold, layout, id, name);
    AttachedDiffers(fold, layout, id, name, TargetIndex(fold, layout, name), Attach(fold, layout, id, name));
  }

  /** On a well-formed page, asking again for the group a monitor was just put in changes nothing. */
  lemma AttachTwice(fold: Fold, layout: Layout, id: int, name: string)
    requires WellFormed(fold, layout)
    ensures !Changes(fold, Attach(fold, layout, id, name), id, name)
  {
    var t, after := TargetIndex(fold, layout, name), Attach(fold, layout, id, name);
    AttachIsAttached(fold, layout, id, name);
    AttachAgain(fold, layout, id, name, t, after);
  }

  lemma AttachAgain(fold: Fold, layout: Layout, id: int, name: string, t: int, after: Layout)
    requires WellFormed(fold, layout) && Attached(fold, layout, id, name, t, after)
    ensures !Changes(fold, after, id, name)
  {
    OnlyTargetHolds(fold, layout, id, name, t, after);
    var target := if t == -1 then |layout| else t;
    assert SameName(fold, after[target].name, name);
  }
}
