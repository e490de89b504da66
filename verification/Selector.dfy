/** The task selector: grouping of matches, the rows shown, and the viewport that follows the selection. */
module Selector {
  import opened Wrappers

  /** What the selector needs of an item: its group, nothing for the current package, and how wide its name is. */
  datatype Item = Item(group: Option<string>, nameWidth: nat)

  type Group = Option<string>

  predicate AreIndices(items: seq<Item>, s: seq<nat>) {
    forall i :: 0 <= i < |s| ==> s[i] < |items|
  }

  // ---------------------------------------------------------------- grouping

  /** The members of a group, in their order. */
  function Only(items: seq<Item>, g: Group, s: seq<nat>): (r: seq<nat>)
    requires AreIndices(items, s)
    ensures AreIndices(items, r)
  {
    if s == [] then []
    else
      var last := s[|s| - 1];
      Only(items, g, s[..|s| - 1]) + if items[last].group == g then [last] else []
  }

  lemma {:induction false} OnlyIsOfGroup(items: seq<Item>, g: Group, s: seq<nat>)
    requires AreIndices(items, s)
    ensures forall i :: 0 <= i < |Only(items, g, s)| ==> items[Only(items, g, s)[i]].group == g
  {
    if s != [] {
      OnlyIsOfGroup(items, g, s[..|s| - 1]);
    }
  }

  lemma {:induction false} OnlyOfConcat(items: seq<Item>, g: Group, s: seq<nat>, t: seq<nat>)
    requires AreIndices(items, s) && AreIndices(items, t)
    ensures AreIndices(items, s + t) && Only(items, g, s + t) == Only(items, g, s) + Only(items, g, t)
    decreases |t|
  {
    if t == [] {
      assert s + t == s;
    } else {
      OnlyOfConcat(items, g, s, t[..|t| - 1]);
      assert (s + t)[..|s + t| - 1] == s + t[..|t| - 1];
    }
  }

  lemma OnlyStep(items: seq<Item>, g: Group, s: seq<nat>, x: nat)
    requires AreIndices(items, s) && x < |items|
    ensures AreIndices(items, s + [x])
    ensures Only(items, g, s + [x]) == if items[x].group == g then Only(items, g, s) + [x] else Only(items, g, s)
  {
    assert (s + [x])[..|s|] == s;
  }

  lemma {:induction false} OnlyOfOnly(items: seq<Item>, g: Group, h: Group, s: seq<nat>)
    requires AreIndices(items, s)
    ensures Only(items, g, Only(items, h, s)) == if g == h then Only(items, g, s) else []
  {
    if s != [] {
      var init, last := s[..|s| - 1], s[|s| - 1];
      OnlyOfOnly(items, g, h, init);
      assert s == init + [last];
      OnlyStep(items, h, init, last);
      OnlyStep(items, g, Only(items, h, init), last);
    }
  }

  /** Group by group. */
  function Laid(items: seq<Item>, order: seq<Group>, s: seq<nat>): (r: seq<nat>)
    requires AreIndices(items, s)
    ensures AreIndices(items, r)
  {
    if order == [] then []
    else Laid(items, order[..|order| - 1], s) + Only(items, order[|order| - 1], s)
  }

  predicate AreDistinctGroups(order: seq<Group>) {
    forall i, j :: 0 <= i < j < |order| ==> order[i] != order[j]
  }

  lemma {:induction false} OnlyOfLaid(items: seq<Item>, order: seq<Group>, s: seq<nat>, g: Group)
    requires AreIndices(items, s) && AreDistinctGroups(order)
    ensures Only(items, g, Laid(items, order, s)) == if g in order then Only(items, g, s) else []
  {
    if order != [] {
      var init, last := order[..|order| - 1], order[|order| - 1];
      OnlyOfLaid(items, init, s, g);
      OnlyOfConcat(items, g, Laid(items, init, s), Only(items, last, s));
      OnlyOfOnly(items, g, last, s);
      assert g in order <==> g in init || g == last;
    }
  }

  /** How often an index occurs can be read off its group. */
  lemma {:induction false} CountInGroup(items: seq<Item>, s: seq<nat>, x: nat)
    requires AreIndices(items, s) && x < |items|
    ensures multiset(Only(items, items[x].group, s))[x] == multiset(s)[x]
  {
    if s != [] {
      CountInGroup(items, s[..|s| - 1], x);
      assert s == s[..|s| - 1] + [s[|s| - 1]];
    }
  }

  lemma SameGroupsSameElements(items: seq<Item>, s: seq<nat>, t: seq<nat>)
    requires AreIndices(items, s) && AreIndices(items, t)
    requires forall g :: Only(items, g, s) == Only(items, g, t)
    ensures multiset(s) == multiset(t)
  {
    forall x: nat
      ensures multiset(s)[x] == multiset(t)[x]
    {
      if x < |items| {
        CountInGroup(items, s, x);
        CountInGroup(items, t, x);
      } else {
        assert x !in multiset(s) && x !in multiset(t);
      }
    }
  }

  /** The place of a group in the order. */
  function Rank(order: seq<Group>, g: Group): (k: nat)
    ensures k <= |order| && (k < |order| ==> order[k] == g)
  {
    if order == [] || order[0] == g then 0 else 1 + Rank(order[1..], g)
  }

  lemma {:induction false} RankIsFirst(order: seq<Group>, g: Group)
    ensures g in order <==> Rank(order, g) < |order|
    ensures forall i :: 0 <= i < Rank(order, g) ==> order[i] != g
  {
    if order != [] && order[0] != g {
      RankIsFirst(order[1..], g);
      assert order == [order[0]] + order[1..];
    }
  }

  /** Items stand in the order of their groups. */
  ghost predicate FollowsOrder(items: seq<Item>, order: seq<Group>, r: seq<nat>)
    requires AreIndices(items, r)
  {
    forall i, j :: 0 <= i < j < |r| ==> Rank(order, items[r[i]].group) <= Rank(order, items[r[j]].group)
  }

  lemma {:induction false} RankInPrefix(order: seq<Group>, g: Group)
    requires order != [] && g in order[..|order| - 1]
    ensures Rank(order, g) == Rank(order[..|order| - 1], g)
  {
    if order[0] != g {
      assert order[1..][..|order| - 2] == order[..|order| - 1][1..];
      assert order[..|order| - 1] == [order[0]] + order[..|order| - 1][1..];
      RankInPrefix(order[1..], g);
    }
  }

  /** Items of a later group may follow. */
  lemma LaterGroupFollows(items: seq<Item>, order: seq<Group>, before: seq<nat>, own: seq<nat>, k: nat)
    requires AreIndices(items, before) && AreIndices(items, own) && FollowsOrder(items, order, before)
    requires forall i :: 0 <= i < |before| ==> Rank(order, items[before[i]].group) <= k
    requires forall i :: 0 <= i < |own| ==> Rank(order, items[own[i]].group) == k
    ensures AreIndices(items, before + own) && FollowsOrder(items, order, before + own)
  {
    var all := before + own;
    forall i, j | 0 <= i < j < |all| ensures Rank(order, items[all[i]].group) <= Rank(order, items[all[j]].group) {
      if j >= |before| {
        assert all[j] == own[j - |before|];
      }
    }
  }

  lemma LongerOrderRanksAlike(items: seq<Item>, order: seq<Group>, before: seq<nat>)
    requires order != [] && AreIndices(items, before) && FollowsOrder(items, order[..|order| - 1], before)
    requires forall i :: 0 <= i < |before| ==> items[before[i]].group in order[..|order| - 1]
    ensures FollowsOrder(items, order, before)
    ensures forall i :: 0 <= i < |before| ==> Rank(order, items[before[i]].group) < |order| - 1
  {
    forall i | 0 <= i < |before|
      ensures Rank(order, items[before[i]].group) == Rank(order[..|order| - 1], items[before[i]].group) < |order| - 1
    {
      RankInPrefix(order, items[before[i]].group);
      RankIsFirst(order[..|order| - 1], items[before[i]].group);
    }
  }

  lemma LastRank(order: seq<Group>)
    requires order != [] && AreDistinctGroups(order)
    ensures Rank(order, order[|order| - 1]) == |order| - 1
  {
    RankIsFirst(order, order[|order| - 1]);
  }

  lemma {:induction false} LaidFollowsOrder(items: seq<Item>, order: seq<Group>, s: seq<nat>)
    requires AreIndices(items, s) && AreDistinctGroups(order)
    ensures FollowsOrder(items, order, Laid(items, order, s))
    ensures forall i :: 0 <= i < |Laid(items, order, s)| ==> items[Laid(items, order, s)[i]].group in order
  {
    if order != [] {
      var init, last := order[..|order| - 1], order[|order| - 1];
      LaidFollowsOrder(items, init, s);
      LongerOrderRanksAlike(items, order, Laid(items, init, s));
      LastRank(order);
      OnlyIsOfGroup(items, last, s);
      LaterGroupFollows(items, order, Laid(items, init, s), Only(items, last, s), |order| - 1);
      assert order == init + [last];
    }
  }

  function GroupsOf(items: seq<Item>, s: seq<nat>): (gs: seq<Group>)
    requires AreIndices(items, s)
    ensures |gs| == |s| && forall i :: 0 <= i < |s| ==> gs[i] == items[s[i]].group
  {
    seq(|s|, i requires 0 <= i < |s| => items[s[i]].group)
  }

  function FirstSeen(gs: seq<Group>): seq<Group> {
    if gs == [] then []
    else
      var order, last := FirstSeen(gs[..|gs| - 1]), gs[|gs| - 1];
      if last in order then order else order + [last]
  }

  /** The current package's group comes first. */
  function NoneFirst(order: seq<Group>): seq<Group> {
    var k := Rank(order, None);
    if k == |order| then order else [None] + order[..k] + order[k + 1..]
  }

  lemma {:induction false} FirstSeenListsGroups(gs: seq<Group>)
    ensures AreDistinctGroups(FirstSeen(gs)) && forall g :: g in FirstSeen(gs) <==> g in gs
  {
    if gs != [] {
      FirstSeenListsGroups(gs[..|gs| - 1]);
      assert gs == gs[..|gs| - 1] + [gs[|gs| - 1]];
    }
  }

  lemma NoneFirstReorders(order: seq<Group>)
    requires AreDistinctGroups(order)
    ensures AreDistinctGroups(NoneFirst(order)) && (forall g :: g in NoneFirst(order) <==> g in order)
    ensures None in order ==> NoneFirst(order)[0] == None
  {
    RankIsFirst(order, None);
    var k := Rank(order, None);
    if k < |order| {
      assert order == order[..k] + [order[k]] + order[k + 1..];
      MovedKeepsGroups(order[..k], order[k], order[k + 1..]);
    }
  }

  lemma MovedKeepsGroups(a: seq<Group>, g: Group, b: seq<Group>)
    requires AreDistinctGroups(a + [g] + b)
    ensures AreDistinctGroups([g] + a + b) && forall h :: h in [g] + a + b <==> h in a + [g] + b
  {
    var order, moved := a + [g] + b, [g] + a + b;
    forall i, j | 0 <= i < j < |moved| ensures moved[i] != moved[j] {
      var i', j' := OldPlace(|a|, i), OldPlace(|a|, j);
      assert moved[i] == order[i'] && moved[j] == order[j'];
    }
    assert forall h :: h in moved <==> h in a || h == g || h in b;
    assert forall h :: h in order <==> h in a || h == g || h in b;
  }

  /** Where the group that is now at `i` was before the one at `k` moved to the front. */
  function OldPlace(k: nat, i: nat): nat {
    if i == 0 then k else if i <= k then i - 1 else i
  }

  function Grouped(items: seq<Item>, filtered: seq<nat>): (r: seq<nat>)
    requires AreIndices(items, filtered)
    ensures AreIndices(items, r)
  {
    Laid(items, NoneFirst(FirstSeen(GroupsOf(items, filtered))), filtered)
  }

  method GroupOrder(items: seq<Item>, filtered: seq<nat>) returns (order: seq<Group>)
    requires AreIndices(items, filtered)
    ensures order == NoneFirst(FirstSeen(GroupsOf(items, filtered)))
  {
    order := [];
    for n := 0 to |filtered|
      invariant order == FirstSeen(GroupsOf(items, filtered[..n]))
    {
      var group := items[filtered[n]].group;
      assert GroupsOf(items, filtered[..n + 1])[..n] == GroupsOf(items, filtered[..n]);
      if group !in order {
        order := order + [group];
      }
    }
    assert filtered[..|filtered|] == filtered;
    var pos := 0;
    while pos < |order| && order[pos].Some?
      invariant pos <= |order| && forall i :: 0 <= i < pos ==> order[i].Some?
    {
      pos := pos + 1;
    }
    RankIsFirst(order, None);
    assert pos == Rank(order, None);
    if 0 < pos < |order| {
      order := [None] + order[..pos] + order[pos + 1..];
    } else if pos == 0 && order != [] {
      assert [None] + order[..0] + order[1..] == order;
    }
  }

  method AppendGroup(items: seq<Item>, g: Group, filtered: seq<nat>, before: seq<nat>) returns (r: seq<nat>)
    requires AreIndices(items, filtered)
    ensures r == before + Only(items, g, filtered)
  {
    r := before;
    for n := 0 to |filtered|
      invariant r == before + Only(items, g, filtered[..n])
    {
      assert filtered[..n + 1][..n] == filtered[..n];
      if items[filtered[n]].group == g {
        r := r + [filtered[n]];
      }
    }
    assert filtered[..|filtered|] == filtered;
  }

  /** Collects the matches group by group. */
  method GroupFiltered(items: seq<Item>, filtered: seq<nat>) returns (r: seq<nat>)
    requires AreIndices(items, filtered)
    ensures r == Grouped(items, filtered)
  {
    var order := GroupOrder(items, filtered);
    r := [];
    for k := 0 to |order|
      invariant r == Laid(items, order[..k], filtered)
    {
      LaidStep(items, order, filtered, k);
      r := AppendGroup(items, order[k], filtered, r);
    }
    assert order[..|order|] == order;
  }

  lemma LaidStep(items: seq<Item>, order: seq<Group>, s: seq<nat>, k: nat)
    requires AreIndices(items, s) && k < |order|
    ensures Laid(items, order[..k + 1], s) == Laid(items, order[..k], s) + Only(items, order[k], s)
  {
    assert order[..k + 1][..k] == order[..k];
  }

  /** Equal groups stand together, with the current package's first. */
  ghost predicate IsContiguous(items: seq<Item>, r: seq<nat>)
    requires AreIndices(items, r)
  {
    && (forall i, j, k :: 0 <= i < j < k < |r| && items[r[i]].group == items[r[k]].group ==> items[r[j]].group == items[r[i]].group)
    && (forall i, j :: 0 <= i < j < |r| && items[r[j]].group == None ==> items[r[i]].group == None)
  }

  /** Grouping is a permutation that is stable within each group and keeps groups together. */
  lemma GroupingIsStable(items: seq<Item>, filtered: seq<nat>)
    requires AreIndices(items, filtered)
    ensures multiset(Grouped(items, filtered)) == multiset(filtered)
    ensures forall g :: Only(items, g, Grouped(items, filtered)) == Only(items, g, filtered)
    ensures IsContiguous(items, Grouped(items, filtered))
  {
    var gs := GroupsOf(items, filtered);
    var order := NoneFirst(FirstSeen(gs));
    var r := Grouped(items, filtered);
    FirstSeenListsGroups(gs);
    NoneFirstReorders(FirstSeen(gs));
    forall g
      ensures Only(items, g, r) == Only(items, g, filtered)
    {
      OnlyOfLaid(items, order, filtered, g);
      NothingOfOthers(items, filtered, g);
    }
    SameGroupsSameElements(items, r, filtered);
    LaidFollowsOrder(items, order, filtered);
    OrderedIsContiguous(items, order, r);
  }

  lemma {:induction false} NothingOfOthers(items: seq<Item>, s: seq<nat>, g: Group)
    requires AreIndices(items, s)
    ensures g !in GroupsOf(items, s) ==> Only(items, g, s) == []
  {
    if s != [] && g !in GroupsOf(items, s) {
      assert GroupsOf(items, s)[|s| - 1] != g;
      assert forall i :: 0 <= i < |s| - 1 ==> GroupsOf(items, s[..|s| - 1])[i] == GroupsOf(items, s)[i];
      NothingOfOthers(items, s[..|s| - 1], g);
    }
  }

  lemma OrderedIsContiguous(items: seq<Item>, order: seq<Group>, r: seq<nat>)
    requires AreIndices(items, r) && FollowsOrder(items, order, r)
    requires forall i :: 0 <= i < |r| ==> items[r[i]].group in order
    requires None in order ==> order[0] == None
    ensures IsContiguous(items, r)
  {
    forall i | 0 <= i < |r|
      ensures Rank(order, items[r[i]].group) < |order|
    {
      RankIsFirst(order, items[r[i]].group);
    }
    forall i, j, k | 0 <= i < j < k < |r| && items[r[i]].group == items[r[k]].group
      ensures items[r[j]].group == items[r[i]].group
    {
      assert Rank(order, items[r[i]].group) <= Rank(order, items[r[j]].group) <= Rank(order, items[r[k]].group);
    }
    forall i, j | 0 <= i < j < |r| && items[r[j]].group == None
      ensures items[r[i]].group == None
    {
      assert Rank(order, items[r[i]].group) <= Rank(order, None) == 0;
    }
  }

  // ---------------------------------------------------------------- rows

  datatype Row = Header(group: string) | ItemRow(item: nat)

  predicate AreRows(items: seq<Item>, rows: seq<Row>) {
    forall i :: 0 <= i < |rows| && rows[i].ItemRow? ==> rows[i].item < |items|
  }

  /** How many of the first `n` rows are items. */
  function ItemsBefore(rows: seq<Row>, n: nat): (c: nat)
    requires n <= |rows|
    ensures c <= n
  {
    if n == 0 then 0 else ItemsBefore(rows, n - 1) + if rows[n - 1].ItemRow? then 1 else 0
  }

  predicate IsRowOf(rows: seq<Row>, ordinal: nat, i: nat) {
    i < |rows| && rows[i].ItemRow? && ItemsBefore(rows, i) == ordinal
  }

  /** The row of the item with the given ordinal. */
  function RowOf(rows: seq<Row>, ordinal: nat, n: nat): (i: nat)
    requires n <= |rows| && ordinal < ItemsBefore(rows, n)
    ensures i < n && IsRowOf(rows, ordinal, i)
  {
    if rows[n - 1].ItemRow? && ItemsBefore(rows, n - 1) == ordinal then n - 1 else RowOf(rows, ordinal, n - 1)
  }

  lemma {:induction false} ItemsBeforeGrows(rows: seq<Row>, i: nat, j: nat)
    requires i <= j <= |rows|
    ensures ItemsBefore(rows, i) <= ItemsBefore(rows, j) <= ItemsBefore(rows, i) + (j - i)
    ensures i < j && rows[i].ItemRow? ==> ItemsBefore(rows, i) < ItemsBefore(rows, j)
    decreases j
  {
    if i < j {
      ItemsBeforeGrows(rows, i, j - 1);
    }
  }

  /** Ordinals and rows determine each other. */
  lemma RowIsUnique(rows: seq<Row>, ordinal: nat, i: nat, j: nat)
    requires IsRowOf(rows, ordinal, i) && IsRowOf(rows, ordinal, j)
    ensures i == j
  {
    if i < j {
      ItemsBeforeGrows(rows, i, j);
    } else if j < i {
      ItemsBeforeGrows(rows, j, i);
    }
  }

  /** A named group's header stands right before its first item; the current package has none. */
  function Rows(items: seq<Item>, s: seq<nat>): (rows: seq<Row>)
    requires AreIndices(items, s)
    ensures AreRows(items, rows) && (s == [] <==> rows == [])
    ensures s != [] ==> rows[|rows| - 1] == ItemRow(s[|s| - 1])
    ensures ItemsBefore(rows, |rows|) == |s|
  {
    if s == [] then []
    else
      var last := |s| - 1;
      var before, group := Rows(items, s[..last]), items[s[last]].group;
      var header := if group.Some? && (last == 0 || items[s[last - 1]].group != group) then [Header(group.value)] else [];
      PrefixCounts(before, header + [ItemRow(s[last])]);
      assert before + header + [ItemRow(s[last])] == before + (header + [ItemRow(s[last])]);
      before + header + [ItemRow(s[last])]
  }

  lemma {:induction false} CountsOfPrefix(rows: seq<Row>, more: seq<Row>, n: nat)
    requires n <= |rows|
    ensures ItemsBefore(rows + more, n) == ItemsBefore(rows, n)
    decreases n
  {
    if n > 0 {
      CountsOfPrefix(rows, more, n - 1);
    }
  }

  lemma PrefixCounts(rows: seq<Row>, more: seq<Row>)
    ensures ItemsBefore(rows + more, |rows|) == ItemsBefore(rows, |rows|)
  {
    CountsOfPrefix(rows, more, |rows|);
  }

  /** What one more item adds. */
  function RowsFor(items: seq<Item>, s: seq<nat>, n: nat): seq<Row>
    requires AreIndices(items, s) && n < |s|
  {
    var group := items[s[n]].group;
    (if group.Some? && (n == 0 || items[s[n - 1]].group != group) then [Header(group.value)] else []) + [ItemRow(s[n])]
  }

  lemma RowsStep(items: seq<Item>, s: seq<nat>, n: nat)
    requires AreIndices(items, s) && n < |s|
    ensures Rows(items, s[..n + 1]) == Rows(items, s[..n]) + RowsFor(items, s, n)
  {
    assert s[..n + 1][..n] == s[..n];
    assert RowsFor(items, s[..n + 1], n) == RowsFor(items, s, n);
  }

  method AppendRows(items: seq<Item>, s: seq<nat>, n: nat, rows: seq<Row>, current: Option<Group>) returns (longer: seq<Row>, group: Group)
    requires AreIndices(items, s) && n < |s|
    requires current == if n == 0 then None else Some(items[s[n - 1]].group)
    ensures longer == rows + RowsFor(items, s, n) && group == items[s[n]].group
  {
    group := items[s[n]].group;
    longer := rows;
    if current != Some(group) {
      if group.Some? {
        longer := longer + [Header(group.value)];
      }
    }
    longer := longer + [ItemRow(s[n])];
  }

  /** Filters, groups, and flattens into rows; `filtered` is what the foreign matcher found, best first. */
  method BuildDisplayRows(items: seq<Item>, filtered: seq<nat>) returns (rows: seq<Row>)
    requires AreIndices(items, filtered)
    ensures rows == Rows(items, Grouped(items, filtered))
  {
    var grouped := GroupFiltered(items, filtered);
    rows := [];
    var current: Option<Group> := None;
    for n := 0 to |grouped|
      invariant rows == Rows(items, grouped[..n])
      invariant current == if n == 0 then None else Some(items[grouped[n - 1]].group)
    {
      RowsStep(items, grouped, n);
      var group;
      rows, group := AppendRows(items, grouped, n, rows, current);
      current := Some(group);
    }
    assert grouped[..|grouped|] == grouped;
  }

  // ---------------------------------------------------------------- headers

  /** The header of the group of item row `j` is at `i`, and only items of that group stand between. */
  ghost predicate IsHeaderOf(items: seq<Item>, rows: seq<Row>, i: nat, j: nat)
    requires AreRows(items, rows)
  {
    i < j < |rows| && rows[j].ItemRow? && items[rows[j].item].group.Some?
    && rows[i] == Header(items[rows[j].item].group.value)
    && forall k :: i < k < j ==> rows[k].ItemRow? && items[rows[k].item].group == items[rows[j].item].group
  }

  predicate IsHeaderAt(rows: seq<Row>, i: nat) {
    i < |rows| && rows[i].Header?
  }

  predicate NeedsHeader(items: seq<Item>, rows: seq<Row>, j: nat)
    requires AreRows(items, rows)
  {
    j < |rows| && rows[j].ItemRow? && items[rows[j].item].group.Some?
  }

  ghost predicate HasHeader(items: seq<Item>, rows: seq<Row>, j: nat)
    requires AreRows(items, rows)
  {
    exists i: nat :: IsHeaderOf(items, rows, i, j)
  }

  /** Every named item is under its header, every header heads an item, and no group has two headers. */
  ghost predicate AreHeaded(items: seq<Item>, rows: seq<Row>)
    requires AreRows(items, rows)
  {
    && (forall j: nat :: NeedsHeader(items, rows, j) ==> HasHeader(items, rows, j))
    && (forall i: nat :: IsHeaderAt(rows, i) ==> IsHeaderOf(items, rows, i, i + 1))
    && (forall i: nat, j: nat :: i < j && IsHeaderAt(rows, i) && IsHeaderAt(rows, j) ==> rows[i] != rows[j])
  }

  /** Every header names a group of these items. */
  lemma {:induction false} HeadersAreOfItems(items: seq<Item>, s: seq<nat>, g: string)
    requires AreIndices(items, s) && Header(g) in Rows(items, s)
    ensures Some(g) in GroupsOf(items, s)
  {
    var last := |s| - 1;
    assert s[..|s|] == s;
    RowsStep(items, s, last);
    if Header(g) in Rows(items, s[..last]) {
      HeadersAreOfItems(items, s[..last], g);
      assert GroupsOf(items, s[..last]) == GroupsOf(items, s)[..last];
    } else {
      assert GroupsOf(items, s)[last] == Some(g);
    }
  }

  lemma {:induction false} RowsAreHeaded(items: seq<Item>, s: seq<nat>)
    requires AreIndices(items, s) && IsContiguous(items, s)
    ensures AreHeaded(items, Rows(items, s))
  {
    if s != [] {
      var last := |s| - 1;
      ContiguousPrefix(items, s, last);
      RowsAreHeaded(items, s[..last]);
      HeadedStep(items, s, last);
    }
  }

  /** What is shown: one header for every named group, right above its items. */
  lemma DisplayRowsAreHeaded(items: seq<Item>, filtered: seq<nat>)
    requires AreIndices(items, filtered)
    ensures AreHeaded(items, Rows(items, Grouped(items, filtered)))
  {
    GroupingIsStable(items, filtered);
    RowsAreHeaded(items, Grouped(items, filtered));
  }

  lemma ContiguousPrefix(items: seq<Item>, s: seq<nat>, n: nat)
    requires AreIndices(items, s) && IsContiguous(items, s) && n <= |s|
    ensures IsContiguous(items, s[..n])
  {
  }

  lemma HeadedStep(items: seq<Item>, s: seq<nat>, last: nat)
    requires AreIndices(items, s) && IsContiguous(items, s) && |s| == last + 1 && AreHeaded(items, Rows(items, s[..last]))
    ensures AreHeaded(items, Rows(items, s))
  {
    assert s[..|s|] == s;
    RowsStep(items, s, last);
    var before := Rows(items, s[..last]);
    var group := items[s[last]].group;
    if group.Some? && (last == 0 || items[s[last - 1]].group != group) {
      assert RowsFor(items, s, last) == [Header(group.value), ItemRow(s[last])];
      HeaderIsNew(items, s, group.value);
      HeadedByNew(items, before, s[last]);
    } else {
      assert RowsFor(items, s, last) == [ItemRow(s[last])];
      HeadedByOld(items, before, s[last]);
    }
  }

  lemma HeaderIsNew(items: seq<Item>, s: seq<nat>, g: string)
    requires AreIndices(items, s) && IsContiguous(items, s) && s != [] && items[s[|s| - 1]].group == Some(g)
    requires |s| > 1 ==> items[s[|s| - 2]].group != Some(g)
    ensures Header(g) !in Rows(items, s[..|s| - 1])
  {
    if Header(g) in Rows(items, s[..|s| - 1]) {
      HeadersAreOfItems(items, s[..|s| - 1], g);
    }
  }

  /** A new group starts with its header. */
  lemma HeadedByNew(items: seq<Item>, before: seq<Row>, item: nat)
    requires item < |items| && items[item].group.Some? && AreRows(items, before) && AreHeaded(items, before)
    requires Header(items[item].group.value) !in before
    ensures AreHeaded(items, before + [Header(items[item].group.value), ItemRow(item)])
  {
    var n := |before|;
    var rows := before + [Header(items[item].group.value), ItemRow(item)];
    KeepsHeaders(items, before, rows);
    assert IsHeaderOf(items, rows, n, n + 1);
    forall i: nat | IsHeaderAt(rows, i)
      ensures IsHeaderOf(items, rows, i, i + 1)
    {
      assert i != n ==> IsHeaderAt(before, i);
    }
    forall i: nat, j: nat | i < j && IsHeaderAt(rows, i) && IsHeaderAt(rows, j)
      ensures rows[i] != rows[j]
    {
      assert IsHeaderAt(before, i) && (j != n ==> IsHeaderAt(before, j));
      assert before[i] in before;
    }
  }

  /** An item without a group, or of the group before it, needs none. */
  lemma HeadedByOld(items: seq<Item>, before: seq<Row>, item: nat)
    requires item < |items| && AreRows(items, before) && AreHeaded(items, before)
    requires items[item].group.Some? ==>
               before != [] && before[|before| - 1].ItemRow? && items[before[|before| - 1].item].group == items[item].group
    ensures AreHeaded(items, before + [ItemRow(item)])
  {
    var n := |before|;
    var rows := before + [ItemRow(item)];
    KeepsHeaders(items, before, rows);
    if items[item].group.Some? {
      assert NeedsHeader(items, before, n - 1);
      var i: nat :| IsHeaderOf(items, before, i, n - 1);
      assert IsHeaderOf(items, rows, i, n);
    }
    forall i: nat | IsHeaderAt(rows, i)
      ensures IsHeaderAt(before, i)
    {
    }
  }

  lemma KeepsHeaders(items: seq<Item>, before: seq<Row>, rows: seq<Row>)
    requires AreRows(items, rows) && before <= rows
    ensures AreRows(items, before)
    ensures forall i: nat, j: nat :: IsHeaderOf(items, before, i, j) ==> IsHeaderOf(items, rows, i, j)
    ensures forall j: nat :: j < |before| && NeedsHeader(items, rows, j) ==> NeedsHeader(items, before, j)
  {
    assert forall k :: 0 <= k < |before| ==> before[k] == rows[k];
  }

  // ---------------------------------------------------------------- selection and viewport

  /** The `k`-th item row shows the `k`-th item. */
  lemma {:induction false} RowShowsItem(items: seq<Item>, s: seq<nat>, k: nat, i: nat)
    requires AreIndices(items, s) && IsRowOf(Rows(items, s), k, i)
    ensures k < |s| && Rows(items, s)[i] == ItemRow(s[k])
  {
    var rows, last := Rows(items, s), |s| - 1;
    assert s[..|s|] == s;
    RowsStep(items, s, last);
    var before := Rows(items, s[..last]);
    if i < |before| {
      CountsOfPrefix(before, RowsFor(items, s, last), i);
      RowShowsItem(items, s[..last], k, i);
    } else {
      assert i == |rows| - 1;
    }
  }

  /** The foreign matcher finds items. */
  ghost predicate IsMatcher(items: seq<Item>, fuzzy: string -> seq<nat>) {
    forall q :: AreIndices(items, fuzzy(q))
  }

  /** Row `row` is inside a page of rows that starts at `scroll`. */
  predicate IsVisible(row: nat, scroll: nat, pageSize: nat) {
    scroll <= row < scroll + pageSize
  }

  predicate IsUnderHeader(rows: seq<Row>, row: nat) {
    0 < row <= |rows| && rows[row - 1].Header?
  }

  /**
   * Where row `row` is while it is selected: on a page of two rows or more, and with a page of one
   * row on it or hidden right behind its header.
   */
  predicate IsPlaced(rows: seq<Row>, row: nat, scroll: nat, pageSize: nat) {
    || IsVisible(row, scroll, pageSize)
    || (pageSize == 1 && row == scroll + 1 && IsUnderHeader(rows, row))
    || pageSize == 0
  }

  /** Where scrolling to row `row` ends: no further than needed, but up to its header. */
  function Scrolled(rows: seq<Row>, row: nat, scroll: nat, pageSize: nat): nat {
    if IsVisible(row, scroll, pageSize) then scroll
    else if row < scroll then if IsUnderHeader(rows, row) then row - 1 else row
    else row + 1 - pageSize
  }

  /**
   * Scrolling shows the row except that a page of one row is given to the header when coming from
   * below, and that a page of no rows shows nothing.
   */
  lemma ScrolledShows(rows: seq<Row>, row: nat, scroll: nat, pageSize: nat)
    ensures IsVisible(row, Scrolled(rows, row, scroll, pageSize), pageSize)
            <==> pageSize >= 2 || (pageSize == 1 && !(row < scroll && IsUnderHeader(rows, row)))
    ensures row < scroll && IsUnderHeader(rows, row) && pageSize > 0 ==>
              IsVisible(row - 1, Scrolled(rows, row, scroll, pageSize), pageSize)
  {
  }

  function Distance(a: nat, b: nat): nat {
    if a < b then b - a else a - b
  }

  /** No page that shows the row, and its header when coming from below, is nearer. */
  lemma ScrolledIsNearest(rows: seq<Row>, row: nat, scroll: nat, pageSize: nat, other: nat)
    requires IsVisible(row, other, pageSize)
    requires row < scroll && IsUnderHeader(rows, row) ==> IsVisible(row - 1, other, pageSize)
    ensures Distance(scroll, Scrolled(rows, row, scroll, pageSize)) <= Distance(scroll, other)
  {
  }

  class State {
    const items: seq<Item>
    const fuzzy: string -> seq<nat>
    const pageSize: nat
    var rows: seq<Row>
    var itemCount: nat
    var query: string
    var selected: nat
    var scroll: nat

    /** The rows are those of the query. */
    ghost predicate IsBuilt()
      reads `rows, `query
    {
      IsMatcher(items, fuzzy) && rows == Rows(items, Grouped(items, fuzzy(query)))
    }

    /** Indices are in range. */
    ghost predicate IsCounted()
      reads `rows, `itemCount, `selected, `scroll
    {
      && itemCount == ItemsBefore(rows, |rows|) && (if itemCount == 0 then selected == 0 else selected < itemCount)
      && scroll <= |rows|
    }

    /** The selected item is on the page, or hidden only as one row or none must hide it. */
    ghost predicate ShowsSelection()
      reads `rows, `itemCount, `selected, `scroll
      requires IsCounted()
    {
      itemCount > 0 ==> IsPlaced(rows, RowOf(rows, selected, |rows|), scroll, pageSize)
    }

    /** There is a selected item and it is not on the page. */
    ghost predicate IsHidden()
      reads `rows, `itemCount, `selected, `scroll
      requires IsCounted()
    {
      itemCount > 0 && !IsVisible(RowOf(rows, selected, |rows|), scroll, pageSize)
    }

    /** The selected item is the first below a header. */
    ghost predicate IsTopmost()
      reads `rows, `itemCount, `selected, `scroll
      requires IsCounted()
    {
      itemCount > 0 && IsUnderHeader(rows, RowOf(rows, selected, |rows|))
    }

    ghost predicate Valid()
      reads this
    {
      IsBuilt() && IsCounted() && ShowsSelection()
    }

    constructor (items: seq<Item>, fuzzy: string -> seq<nat>, query: string, pageSize: nat)
      requires IsMatcher(items, fuzzy)
      ensures Valid()
      ensures this.items == items && this.fuzzy == fuzzy && this.query == query && this.pageSize == pageSize && selected == 0
      ensures pageSize == 1 ==> (IsHidden() <==> IsTopmost())
    {
      this.items, this.fuzzy, this.query, this.pageSize := items, fuzzy, query, pageSize;
      selected, scroll := 0, 0;
      var built, count := Build(items, fuzzy(query), pageSize);
      rows, itemCount := built, count;
    }

    method Refilter()
      requires IsMatcher(items, fuzzy)
      modifies this
      ensures Valid() && query == old(query) && selected == 0
      ensures pageSize == 1 ==> (IsHidden() <==> IsTopmost())
    {
      var built, count := Build(items, fuzzy(query), pageSize);
      rows, itemCount, selected, scroll := built, count, 0, 0;
      assert IsBuilt() && IsCounted() && ShowsSelection();
    }

    method DisplayRowOfSelected() returns (row: Option<nat>)
      ensures row == if selected < ItemsBefore(rows, |rows|) then Some(RowOf(rows, selected, |rows|)) else None
    {
      var count := 0;
      for i := 0 to |rows|
        invariant count == ItemsBefore(rows, i) <= selected
      {
        if rows[i].ItemRow? {
          if count == selected {
            ItemsBeforeGrows(rows, i, |rows|);
            RowIsUnique(rows, selected, i, RowOf(rows, selected, |rows|));
            return Some(i);
          }
          count := count + 1;
        }
      }
      row := None;
    }

    /** The position and whether it is hidden, as far as a page of one row is concerned. */
    ghost predicate IsSeenAs(v: View)
      reads `rows, `itemCount, `query, `selected, `scroll
      requires IsCounted()
    {
      Position(query, selected) == v.at && (pageSize == 1 ==> (IsHidden() <==> v.hidden))
    }

    lemma TopmostHeadsGroup()
      requires IsBuilt() && IsCounted()
      ensures IsTopmost() <==> HeadsGroup(items, Grouped(items, fuzzy(query)), selected)
    {
      if itemCount > 0 {
        HeadsAreUnderHeaders(items, Grouped(items, fuzzy(query)), selected, RowOf(rows, selected, |rows|));
      }
    }

    /** There is a row for every match. */
    lemma MatchesAreCounted()
      requires IsBuilt() && IsCounted()
      ensures itemCount == |Grouped(items, fuzzy(query))| == |fuzzy(query)|
    {
      GroupingKeepsElements(items, fuzzy(query));
    }

    method SelectedItemIndex() returns (item: Option<nat>)
      requires Valid()
      ensures item == if itemCount == 0 then None else Some(Grouped(items, fuzzy(query))[selected])
    {
      var row := DisplayRowOfSelected();
      if row.None? {
        return None;
      }
      RowShowsItem(items, Grouped(items, fuzzy(query)), selected, row.value);
      item := Some(rows[row.value].item);
    }

    /** Scrolls as little as needed, but up far enough to show the header of a group's first item. */
    method EnsureSelectedVisible()
      requires IsCounted()
      modifies `scroll
      ensures IsCounted() && ShowsSelection()
      ensures scroll == if itemCount == 0 then 0 else Scrolled(rows, RowOf(rows, selected, |rows|), old(scroll), pageSize)
    {
      var row := DisplayRowOfSelected();
      if row.None? {
        scroll := 0;
        return;
      }
      var i := row.value;
      if i < scroll {
        scroll := if i > 0 && rows[i - 1].Header? then i - 1 else i;
      } else if i >= scroll + pageSize {
        scroll := i + 1 - pageSize;
      }
    }

    /** A page of one row hides the item it moves up to exactly if that item is the first below a header. */
    method MoveUp()
      requires IsCounted() && ShowsSelection()
      modifies `selected, `scroll
      ensures IsCounted() && ShowsSelection()
      ensures selected == if old(selected) > 0 then old(selected) - 1 else 0
      ensures pageSize == 1 ==> (IsHidden() <==> if old(selected) > 0 then IsTopmost() else old(IsHidden()))
    {
      if selected > 0 {
        NextRowIsBelow(rows, selected - 1);
        selected := selected - 1;
        EnsureSelectedVisible();
      }
    }

    /** Moving down hides nothing. */
    method MoveDown()
      requires IsCounted() && ShowsSelection()
      modifies `selected, `scroll
      ensures IsCounted() && ShowsSelection()
      ensures selected == if old(selected) + 1 < itemCount then old(selected) + 1 else old(selected)
      ensures pageSize == 1 ==> (IsHidden() <==> old(selected) + 1 >= itemCount && old(IsHidden()))
    {
      if itemCount > 0 && selected < itemCount - 1 {
        NextRowIsBelow(rows, selected);
        selected := selected + 1;
        EnsureSelectedVisible();
      }
    }

    /** The rows of the page, and how many items follow it. */
    method VisibleRows() returns (start: nat, end: nat, hidden: nat)
      requires IsCounted()
      ensures start == scroll <= end <= |rows| && end - start <= pageSize && (end < |rows| ==> end - start == pageSize)
      ensures hidden == itemCount - ItemsBefore(rows, end)
    {
      start := scroll;
      end := if scroll + pageSize < |rows| then scroll + pageSize else |rows|;
      hidden := CountItems(rows, end);
    }
  }

  lemma NextRowIsBelow(rows: seq<Row>, k: nat)
    requires k + 1 < ItemsBefore(rows, |rows|)
    ensures RowOf(rows, k, |rows|) < RowOf(rows, k + 1, |rows|)
  {
    var i, j := RowOf(rows, k, |rows|), RowOf(rows, k + 1, |rows|);
    if j <= i {
      ItemsBeforeGrows(rows, j, i);
    }
  }

  method CountItems(rows: seq<Row>, start: nat) returns (count: nat)
    requires start <= |rows|
    ensures ItemsBefore(rows, start) + count == ItemsBefore(rows, |rows|)
  {
    count := 0;
    for i := start to |rows|
      invariant ItemsBefore(rows, start) + count == ItemsBefore(rows, i)
    {
      if rows[i].ItemRow? {
        count := count + 1;
      }
    }
  }

  /** The first item is in the first row, or in the second under its header. */
  lemma FirstItemIsNearTop(items: seq<Item>, s: seq<nat>)
    requires AreIndices(items, s)
    ensures var rows := Rows(items, s);
            s != [] ==> RowOf(rows, 0, |rows|) == if rows[0].Header? then 1 else 0
  {
    if s != [] {
      var rows := Rows(items, s);
      var top := if items[s[0]].group.Some? then 1 else 0;
      StartsWithFirst(items, s);
      assert ItemsBefore(rows, 0) == 0;
      assert IsRowOf(rows, 0, top);
      RowIsUnique(rows, 0, top, RowOf(rows, 0, |rows|));
    }
  }

  /** The rows, how many of them are items, and where the first of those is on a page that starts at the top. */
  method Build(items: seq<Item>, filtered: seq<nat>, ghost pageSize: nat) returns (rows: seq<Row>, itemCount: nat)
    requires AreIndices(items, filtered)
    ensures rows == Rows(items, Grouped(items, filtered)) && itemCount == ItemsBefore(rows, |rows|)
    ensures itemCount > 0 ==> IsPlaced(rows, RowOf(rows, 0, |rows|), 0, pageSize)
    ensures itemCount > 0 && pageSize == 1 ==>
              (IsVisible(RowOf(rows, 0, |rows|), 0, 1) <==> !IsUnderHeader(rows, RowOf(rows, 0, |rows|)))
  {
    rows := BuildDisplayRows(items, filtered);
    itemCount := CountItems(rows, 0);
    FirstItemIsNearTop(items, Grouped(items, filtered));
  }

  lemma {:induction false} StartsWithFirst(items: seq<Item>, s: seq<nat>)
    requires AreIndices(items, s) && s != []
    ensures RowsFor(items, s, 0) <= Rows(items, s)
  {
    assert s[..|s|] == s;
    RowsStep(items, s, |s| - 1);
    if |s| > 1 {
      StartsWithFirst(items, s[..|s| - 1]);
      assert RowsFor(items, s[..|s| - 1], 0) == RowsFor(items, s, 0);
    } else {
      assert s[..0] == [];
    }
  }

  /** The `k`-th item is the first of a named group. */
  predicate HeadsGroup(items: seq<Item>, s: seq<nat>, k: nat)
    requires AreIndices(items, s)
  {
    k < |s| && items[s[k]].group.Some? && (k == 0 || items[s[k - 1]].group != items[s[k]].group)
  }

  /** The first items of named groups are the rows right below headers. */
  lemma {:induction false} HeadsAreUnderHeaders(items: seq<Item>, s: seq<nat>, k: nat, i: nat)
    requires AreIndices(items, s) && IsRowOf(Rows(items, s), k, i)
    ensures IsUnderHeader(Rows(items, s), i) <==> HeadsGroup(items, s, k)
  {
    var rows, last := Rows(items, s), |s| - 1;
    assert s[..|s|] == s;
    RowsStep(items, s, last);
    var before := Rows(items, s[..last]);
    if i < |before| {
      CountsOfPrefix(before, RowsFor(items, s, last), i);
      RowShowsItem(items, s[..last], k, i);
      HeadsAreUnderHeaders(items, s[..last], k, i);
    } else {
      LastIsHeaded(items, s, k, i);
    }
  }

  lemma LastIsHeaded(items: seq<Item>, s: seq<nat>, k: nat, i: nat)
    requires AreIndices(items, s) && s != [] && IsRowOf(Rows(items, s), k, i) && |Rows(items, s[..|s| - 1])| <= i
    ensures IsUnderHeader(Rows(items, s), i) <==> HeadsGroup(items, s, k)
  {
    IsLastRow(items, s, k, i);
    LastRows(items, s);
  }

  lemma IsLastRow(items: seq<Item>, s: seq<nat>, k: nat, i: nat)
    requires AreIndices(items, s) && s != [] && IsRowOf(Rows(items, s), k, i) && |Rows(items, s[..|s| - 1])| <= i
    ensures i == |Rows(items, s)| - 1 && k == |s| - 1
  {
    var last := |s| - 1;
    assert s[..|s|] == s;
    RowsStep(items, s, last);
    LastItemRow(Rows(items, s[..last]), RowsFor(items, s, last), k, i);
  }

  lemma LastItemRow(before: seq<Row>, more: seq<Row>, k: nat, i: nat)
    requires |before| <= i && IsRowOf(before + more, k, i)
    requires 1 <= |more| <= 2 && more[|more| - 1].ItemRow? && (|more| == 2 ==> more[0].Header?)
    ensures i == |before| + |more| - 1 && k == ItemsBefore(before, |before|)
  {
    var rows := before + more;
    PrefixCounts(before, more);
    assert rows[i] == more[i - |before|];
    assert |more| == 2 ==> rows[|before|] == more[0];
  }

  /** How the rows of a list end. */
  lemma LastRows(items: seq<Item>, s: seq<nat>)
    requires AreIndices(items, s) && s != []
    ensures IsUnderHeader(Rows(items, s), |Rows(items, s)| - 1) <==> HeadsGroup(items, s, |s| - 1)
  {
    var last := |s| - 1;
    assert s[..|s|] == s;
    RowsStep(items, s, last);
    var before, rows, more := Rows(items, s[..last]), Rows(items, s), RowsFor(items, s, last);
    if HeadsGroup(items, s, last) {
      assert |more| == 2 && rows[|rows| - 2] == more[0];
    } else {
      assert |more| == 1;
      if last > 0 {
        assert rows[|rows| - 2] == before[|before| - 1] == ItemRow(s[..last][last - 1]);
      }
    }
  }

  // ---------------------------------------------------------------- a whole session

  datatype Key = Up | Down | Char(c: char) | Backspace | Escape | Enter | Interrupt | Other

  datatype Outcome = Cancelled | Selected(item: nat)

  /** The selector without rows and scrolling: the text typed, and the ordinal selected among its matches. */
  datatype Position = Position(query: string, selected: nat)

  function Press(fuzzy: string -> seq<nat>, p: Position, key: Key): Position {
    PressAmong(|fuzzy(p.query)|, p, key)
  }

  function PressAmong(matches: nat, p: Position, key: Key): Position {
    match key
    case Up => p.(selected := if p.selected > 0 then p.selected - 1 else 0)
    case Down => p.(selected := if p.selected + 1 < matches then p.selected + 1 else p.selected)
    case Char(c) => Position(p.query + [c], 0)
    case Backspace => Position(if p.query == "" then "" else p.query[..|p.query| - 1], 0)
    case Escape => Position("", 0)
    case _ => p
  }

  /** With a page of one row: the position, and whether the selected item is hidden. */
  datatype View = View(at: Position, hidden: bool)

  /** Moving up to the first item of a group hides it, as does typing if a group comes first; moving down does not. */
  function Look(items: seq<Item>, fuzzy: string -> seq<nat>, v: View, key: Key): View
    requires IsMatcher(items, fuzzy)
  {
    var next := Press(fuzzy, v.at, key);
    var heads := HeadsGroup(items, Grouped(items, fuzzy(next.query)), next.selected);
    match key
    case Up => View(next, if v.at.selected > 0 then heads else v.hidden)
    case Down => View(next, v.at.selected + 1 >= |fuzzy(v.at.query)| && v.hidden)
    case Char(_) => View(next, heads)
    case Backspace => View(next, heads)
    case Escape => View(next, heads)
    case _ => v
  }

  function LookAfter(items: seq<Item>, fuzzy: string -> seq<nat>, query: string, keys: seq<Key>): View
    requires IsMatcher(items, fuzzy)
  {
    if keys == [] then View(Position(query, 0), HeadsGroup(items, Grouped(items, fuzzy(query)), 0))
    else Look(items, fuzzy, LookAfter(items, fuzzy, query, keys[..|keys| - 1]), keys[|keys| - 1])
  }

  /** How a key ends the session, if it does. */
  function Decide(items: seq<Item>, fuzzy: string -> seq<nat>, p: Position, key: Key): Option<Outcome>
    requires IsMatcher(items, fuzzy)
  {
    if key.Interrupt? then Some(Cancelled)
    else if key.Enter? && p.selected < |Grouped(items, fuzzy(p.query))|
    then Some(Selected(Grouped(items, fuzzy(p.query))[p.selected]))
    else None
  }

  function Play(items: seq<Item>, fuzzy: string -> seq<nat>, p: Position, keys: seq<Key>): Option<Outcome>
    requires IsMatcher(items, fuzzy)
    decreases |keys|
  {
    if keys == [] then None
    else if Decide(items, fuzzy, p, keys[0]).Some? then Decide(items, fuzzy, p, keys[0])
    else Play(items, fuzzy, Press(fuzzy, p, keys[0]), keys[1..])
  }

  /** What a frame shows: the page, and the row of the selected item if there is one. */
  datatype Frame = Frame(scroll: nat, row: Option<nat>)

  /** The selected item is on the page, but for a page of no rows, and for a page of one row that hides it behind its header. */
  predicate Shows(frame: Frame, hidden: bool, pageSize: nat) {
    frame.row.Some? ==>
      && (IsVisible(frame.row.value, frame.scroll, pageSize) <==> pageSize >= 2 || (pageSize == 1 && !hidden))
      && (pageSize == 1 && hidden ==> frame.row.value == frame.scroll + 1)
  }

  /** The frame after the first `i` keys shows the selection as `LookAfter` says. */
  ghost predicate IsShownAfter(items: seq<Item>, fuzzy: string -> seq<nat>, query: string, keys: seq<Key>, i: nat, frame: Frame, pageSize: nat)
    requires IsMatcher(items, fuzzy)
  {
    i <= |keys| && Shows(frame, LookAfter(items, fuzzy, query, keys[..i]).hidden, pageSize)
  }

  /** One frame for the start and one for each key so far. */
  ghost predicate FramesShow(items: seq<Item>, fuzzy: string -> seq<nat>, query: string, keys: seq<Key>, frames: seq<Frame>, pageSize: nat)
    requires IsMatcher(items, fuzzy)
  {
    && |frames| <= |keys| + 1
    && forall i :: 0 <= i < |frames| ==> IsShownAfter(items, fuzzy, query, keys, i, frames[i], pageSize)
  }

  ghost predicate IsNextView(items: seq<Item>, fuzzy: string -> seq<nat>, keys: seq<Key>, views: seq<View>, i: nat)
    requires IsMatcher(items, fuzzy)
  {
    i < |keys| && i + 1 < |views| && views[i + 1] == Look(items, fuzzy, views[i], keys[i])
  }

  ghost predicate AreViews(items: seq<Item>, fuzzy: string -> seq<nat>, query: string, keys: seq<Key>, views: seq<View>)
    requires IsMatcher(items, fuzzy)
  {
    && 0 < |views| <= |keys| + 1 && views[0] == LookAfter(items, fuzzy, query, [])
    && forall i: nat :: i + 1 < |views| ==> IsNextView(items, fuzzy, keys, views, i)
  }

  ghost predicate AllShow(frames: seq<Frame>, views: seq<View>, pageSize: nat) {
    |frames| == |views| && forall i :: 0 <= i < |frames| ==> Shows(frames[i], views[i].hidden, pageSize)
  }

  lemma AppendView(items: seq<Item>, fuzzy: string -> seq<nat>, query: string, keys: seq<Key>, views: seq<View>, v: View)
    requires IsMatcher(items, fuzzy) && AreViews(items, fuzzy, query, keys, views) && |views| <= |keys|
    requires v == Look(items, fuzzy, views[|views| - 1], keys[|views| - 1])
    ensures AreViews(items, fuzzy, query, keys, views + [v])
  {
    var more := views + [v];
    forall i: nat | i + 1 < |more| ensures IsNextView(items, fuzzy, keys, more, i) {
      if i + 1 < |views| {
        assert IsNextView(items, fuzzy, keys, views, i);
        assert more[i] == views[i] && more[i + 1] == views[i + 1];
      } else {
        assert more[i] == views[|views| - 1] && more[i + 1] == v;
      }
    }
  }

  lemma {:induction false} ViewsAreLooks(items: seq<Item>, fuzzy: string -> seq<nat>, query: string, keys: seq<Key>, views: seq<View>, i: nat)
    requires IsMatcher(items, fuzzy) && AreViews(items, fuzzy, query, keys, views) && i < |views|
    ensures views[i] == LookAfter(items, fuzzy, query, keys[..i])
  {
    if i > 0 {
      ViewsAreLooks(items, fuzzy, query, keys, views, i - 1);
      assert IsNextView(items, fuzzy, keys, views, i - 1);
      LookStep(items, fuzzy, query, keys, i - 1);
    } else {
      assert keys[..0] == [];
    }
  }

  lemma AllShowMeansFramesShow(items: seq<Item>, fuzzy: string -> seq<nat>, query: string, keys: seq<Key>, views: seq<View>,
                               frames: seq<Frame>, pageSize: nat)
    requires IsMatcher(items, fuzzy) && AreViews(items, fuzzy, query, keys, views) && AllShow(frames, views, pageSize)
    ensures FramesShow(items, fuzzy, query, keys, frames, pageSize)
  {
    forall i | 0 <= i < |frames| ensures IsShownAfter(items, fuzzy, query, keys, i, frames[i], pageSize) {
      ViewsAreLooks(items, fuzzy, query, keys, views, i);
    }
  }

  method EditQuery(state: State, key: Key)
    requires state.Valid() && (key.Char? || key.Backspace? || key.Escape?)
    modifies state
    ensures state.Valid()
    ensures Position(state.query, state.selected) == Press(state.fuzzy, Position(old(state.query), old(state.selected)), key)
    ensures state.pageSize == 1 ==> (state.IsHidden() <==> state.IsTopmost())
  {
    ghost var p := Position(state.query, state.selected);
    if key.Char? {
      state.query := state.query + [key.c];
    } else if key.Escape? {
      state.query := "";
    } else if state.query != "" {
      state.query := state.query[..|state.query| - 1];
    }
    assert Position(state.query, 0) == Press(state.fuzzy, p, key);
    state.Refilter();
  }

  /** Handles one key: ends the session, or moves, or edits the query. */
  method Handle(state: State, key: Key, ghost v: View) returns (outcome: Option<Outcome>)
    requires state.Valid() && state.IsSeenAs(v)
    modifies state
    ensures state.Valid()
    ensures outcome == Decide(state.items, state.fuzzy, v.at, key)
    ensures outcome.None? ==> state.IsSeenAs(Look(state.items, state.fuzzy, v, key))
  {
    outcome := None;
    state.MatchesAreCounted();
    match key {
      case Up => Move(state, key, v);
      case Down => Move(state, key, v);
      case Interrupt => outcome := Some(Cancelled);
      case Enter => outcome := Confirm(state);
      case Other =>
      case _ => Edit(state, key, v);
    }
  }

  method Edit(state: State, key: Key, ghost v: View)
    requires state.Valid() && state.IsSeenAs(v) && (key.Char? || key.Backspace? || key.Escape?)
    modifies state
    ensures state.Valid() && state.IsSeenAs(Look(state.items, state.fuzzy, v, key))
    ensures Decide(state.items, state.fuzzy, v.at, key).None?
  {
    LookOfEdit(state.items, state.fuzzy, v, key);
    EditQuery(state, key);
    state.TopmostHeadsGroup();
  }

  lemma LookOfEdit(items: seq<Item>, fuzzy: string -> seq<nat>, v: View, key: Key)
    requires IsMatcher(items, fuzzy) && (key.Char? || key.Backspace? || key.Escape?)
    ensures Decide(items, fuzzy, v.at, key).None?
    ensures var next := Press(fuzzy, v.at, key);
            Look(items, fuzzy, v, key) == View(next, HeadsGroup(items, Grouped(items, fuzzy(next.query)), next.selected))
  {
  }

  method Move(state: State, key: Key, ghost v: View)
    requires state.Valid() && state.IsSeenAs(v) && (key.Up? || key.Down?)
    modifies state`selected, state`scroll
    ensures state.Valid() && state.IsSeenAs(Look(state.items, state.fuzzy, v, key))
  {
    state.MatchesAreCounted();
    if key.Up? {
      state.MoveUp();
    } else {
      state.MoveDown();
    }
    state.TopmostHeadsGroup();
  }

  method Confirm(state: State) returns (outcome: Option<Outcome>)
    requires state.Valid()
    ensures outcome == Decide(state.items, state.fuzzy, Position(state.query, state.selected), Enter)
  {
    state.MatchesAreCounted();
    var item := state.SelectedItemIndex();
    outcome := if item.Some? then Some(Selected(item.value)) else None;
  }

  lemma GroupingKeepsElements(items: seq<Item>, filtered: seq<nat>)
    requires AreIndices(items, filtered)
    ensures |Grouped(items, filtered)| == |filtered|
    ensures forall x :: x in Grouped(items, filtered) <==> x in filtered
  {
    GroupingIsStable(items, filtered);
    SameElements(Grouped(items, filtered), filtered);
  }

  lemma SameElements(s: seq<nat>, t: seq<nat>)
    requires multiset(s) == multiset(t)
    ensures |s| == |t| && forall x :: x in s <==> x in t
  {
    assert |multiset(s)| == |s| && |multiset(t)| == |t|;
    assert forall x :: x in s <==> x in multiset(s);
    assert forall x :: x in t <==> x in multiset(t);
  }

  /**
   * Plays a session. It ends as the model without rows does. With a page of two rows or more every
   * frame shows the selected item, and with a page of one row every frame that `LookAfter` does not
   * say to hide it.
   */
  method Run(items: seq<Item>, fuzzy: string -> seq<nat>, query: string, pageSize: nat, keys: seq<Key>)
    returns (outcome: Option<Outcome>, frames: seq<Frame>)
    requires IsMatcher(items, fuzzy)
    ensures outcome == Play(items, fuzzy, Position(query, 0), keys)
    ensures FramesShow(items, fuzzy, query, keys, frames, pageSize)
    ensures outcome.None? ==> |frames| == |keys| + 1
  {
    var state, frame := Open(items, fuzzy, query, pageSize);
    ghost var v := LookAfter(items, fuzzy, query, []);
    frames := [frame];
    var n := 0;
    StartsPlaying(items, fuzzy, query, keys, frame, pageSize);
    while n < |keys|
      invariant n <= |keys| && fresh(state) && state.Valid()
      invariant state.items == items && state.fuzzy == fuzzy && state.pageSize == pageSize
      invariant IsPlayedTo(items, fuzzy, query, keys, n, v, frames, pageSize) && state.IsSeenAs(v)
    {
      outcome, frame := Turn(state, keys[n], v);
      if outcome.Some? {
        StopsPlaying(items, fuzzy, query, keys, n, v, frames, pageSize);
        return outcome, frames;
      }
      PlaysOn(items, fuzzy, query, keys, n, v, frames, frame, pageSize);
      n, v, frames := n + 1, Look(items, fuzzy, v, keys[n]), frames + [frame];
    }
    StopsPlaying(items, fuzzy, query, keys, n, v, frames, pageSize);
    outcome := None;
  }

  method Open(items: seq<Item>, fuzzy: string -> seq<nat>, query: string, pageSize: nat) returns (state: State, frame: Frame)
    requires IsMatcher(items, fuzzy)
    ensures fresh(state) && state.Valid() && state.items == items && state.fuzzy == fuzzy && state.pageSize == pageSize
    ensures state.IsSeenAs(LookAfter(items, fuzzy, query, []))
    ensures Shows(frame, LookAfter(items, fuzzy, query, []).hidden, pageSize)
  {
    state := new State(items, fuzzy, query, pageSize);
    state.TopmostHeadsGroup();
    frame := Draw(state, LookAfter(items, fuzzy, query, []));
  }

  /** After `n` keys: every frame shows what its view says, and the rest of the keys decides the session. */
  ghost predicate IsPlaying(items: seq<Item>, fuzzy: string -> seq<nat>, query: string, keys: seq<Key>, n: nat,
                            views: seq<View>, frames: seq<Frame>, pageSize: nat)
    requires IsMatcher(items, fuzzy)
  {
    && n <= |keys| && |views| == n + 1 && AreViews(items, fuzzy, query, keys, views) && AllShow(frames, views, pageSize)
    && Play(items, fuzzy, Position(query, 0), keys) == Play(items, fuzzy, views[n].at, keys[n..])
  }

  /** The same with only the last view at hand. */
  ghost predicate IsPlayedTo(items: seq<Item>, fuzzy: string -> seq<nat>, query: string, keys: seq<Key>, n: nat,
                             v: View, frames: seq<Frame>, pageSize: nat)
    requires IsMatcher(items, fuzzy)
  {
    exists views :: IsPlaying(items, fuzzy, query, keys, n, views, frames, pageSize) && views[n] == v
  }

  lemma StartsPlaying(items: seq<Item>, fuzzy: string -> seq<nat>, query: string, keys: seq<Key>, frame: Frame, pageSize: nat)
    requires IsMatcher(items, fuzzy) && Shows(frame, LookAfter(items, fuzzy, query, []).hidden, pageSize)
    ensures IsPlayedTo(items, fuzzy, query, keys, 0, LookAfter(items, fuzzy, query, []), [frame], pageSize)
  {
    assert keys[0..] == keys;
    assert IsPlaying(items, fuzzy, query, keys, 0, [LookAfter(items, fuzzy, query, [])], [frame], pageSize);
  }

  lemma PlaysOn(items: seq<Item>, fuzzy: string -> seq<nat>, query: string, keys: seq<Key>, n: nat,
                v: View, frames: seq<Frame>, frame: Frame, pageSize: nat)
    requires IsMatcher(items, fuzzy) && IsPlayedTo(items, fuzzy, query, keys, n, v, frames, pageSize) && n < |keys|
    requires Decide(items, fuzzy, v.at, keys[n]).None?
    requires Shows(frame, Look(items, fuzzy, v, keys[n]).hidden, pageSize)
    ensures IsPlayedTo(items, fuzzy, query, keys, n + 1, Look(items, fuzzy, v, keys[n]), frames + [frame], pageSize)
  {
    var views :| IsPlaying(items, fuzzy, query, keys, n, views, frames, pageSize) && views[n] == v;
    PlayStep(items, fuzzy, v.at, keys, n);
    LookMoves(items, fuzzy, v, keys[n]);
    AppendView(items, fuzzy, query, keys, views, Look(items, fuzzy, v, keys[n]));
    assert IsPlaying(items, fuzzy, query, keys, n + 1, views + [Look(items, fuzzy, v, keys[n])], frames + [frame], pageSize);
  }

  lemma StopsPlaying(items: seq<Item>, fuzzy: string -> seq<nat>, query: string, keys: seq<Key>, n: nat,
                     v: View, frames: seq<Frame>, pageSize: nat)
    requires IsMatcher(items, fuzzy) && IsPlayedTo(items, fuzzy, query, keys, n, v, frames, pageSize)
    ensures FramesShow(items, fuzzy, query, keys, frames, pageSize) && |frames| == n + 1
    ensures n == |keys| ==> Play(items, fuzzy, Position(query, 0), keys).None?
    ensures n < |keys| && Decide(items, fuzzy, v.at, keys[n]).Some? ==>
              Play(items, fuzzy, Position(query, 0), keys) == Decide(items, fuzzy, v.at, keys[n])
  {
    var views :| IsPlaying(items, fuzzy, query, keys, n, views, frames, pageSize) && views[n] == v;
    AllShowMeansFramesShow(items, fuzzy, query, keys, views, frames, pageSize);
    if n < |keys| {
      PlayStep(items, fuzzy, v.at, keys, n);
    }
  }

  /** One key: the end of the session, or another frame. */
  method Turn(state: State, key: Key, ghost v: View) returns (outcome: Option<Outcome>, frame: Frame)
    requires state.Valid() && state.IsSeenAs(v)
    modifies state
    ensures state.Valid() && outcome == Decide(state.items, state.fuzzy, v.at, key)
    ensures outcome.None? ==>
              && state.IsSeenAs(Look(state.items, state.fuzzy, v, key))
              && Shows(frame, Look(state.items, state.fuzzy, v, key).hidden, state.pageSize)
  {
    outcome := Handle(state, key, v);
    if outcome.Some? {
      return outcome, Frame(0, None);
    }
    frame := Draw(state, Look(state.items, state.fuzzy, v, key));
  }

  method Draw(state: State, ghost v: View) returns (frame: Frame)
    requires state.Valid() && state.IsSeenAs(v)
    ensures frame.scroll == state.scroll && (frame.row.Some? <==> state.itemCount > 0)
    ensures frame.row.Some? ==> IsRowOf(state.rows, state.selected, frame.row.value)
    ensures Shows(frame, v.hidden, state.pageSize)
  {
    var row := state.DisplayRowOfSelected();
    frame := Frame(state.scroll, row);
  }

  lemma LookMoves(items: seq<Item>, fuzzy: string -> seq<nat>, v: View, key: Key)
    requires IsMatcher(items, fuzzy)
    ensures Look(items, fuzzy, v, key).at == Press(fuzzy, v.at, key)
  {
  }

  lemma LookStep(items: seq<Item>, fuzzy: string -> seq<nat>, query: string, keys: seq<Key>, n: nat)
    requires IsMatcher(items, fuzzy) && n < |keys|
    ensures LookAfter(items, fuzzy, query, keys[..n + 1]) == Look(items, fuzzy, LookAfter(items, fuzzy, query, keys[..n]), keys[n])
  {
    assert keys[..n + 1][..n] == keys[..n];
  }

  /** What is hidden from a page of one row is the first item of a named group. */
  lemma {:induction false} OnlyHeadsAreHidden(items: seq<Item>, fuzzy: string -> seq<nat>, query: string, keys: seq<Key>)
    requires IsMatcher(items, fuzzy) && LookAfter(items, fuzzy, query, keys).hidden
    ensures var at := LookAfter(items, fuzzy, query, keys).at;
            HeadsGroup(items, Grouped(items, fuzzy(at.query)), at.selected)
  {
    if keys != [] {
      var init := keys[..|keys| - 1];
      if LookAfter(items, fuzzy, query, init).hidden {
        OnlyHeadsAreHidden(items, fuzzy, query, init);
      }
      HidesHeads(items, fuzzy, LookAfter(items, fuzzy, query, init), keys[|keys| - 1]);
    }
  }

  lemma HidesHeads(items: seq<Item>, fuzzy: string -> seq<nat>, v: View, key: Key)
    requires IsMatcher(items, fuzzy)
    requires v.hidden ==> HeadsGroup(items, Grouped(items, fuzzy(v.at.query)), v.at.selected)
    ensures var next := Look(items, fuzzy, v, key);
            next.hidden ==> HeadsGroup(items, Grouped(items, fuzzy(next.at.query)), next.at.selected)
  {
    GroupingKeepsElements(items, fuzzy(v.at.query));
  }

  /**
   * An item without a group and two of group `A`: a page of one row that was moved down twice and up
   * once shows the header of `A` instead of its first item, which is selected.
   */
  lemma UpHidesAHead(items: seq<Item>, fuzzy: string -> seq<nat>, a: string)
    requires items == [Item(None, 1), Item(Some(a), 1), Item(Some(a), 1)]
    requires IsMatcher(items, fuzzy) && fuzzy("") == [0, 1, 2]
    ensures LookAfter(items, fuzzy, "", [Down, Down, Up]) == View(Position("", 1), true)
  {
    KeepsGroupedOrder(items, a);
    DownDownUp(items, fuzzy, "");
  }

  lemma DownDownUp(items: seq<Item>, fuzzy: string -> seq<nat>, query: string)
    requires IsMatcher(items, fuzzy) && |fuzzy(query)| >= 3
    ensures LookAfter(items, fuzzy, query, [Down, Down, Up])
            == View(Position(query, 1), HeadsGroup(items, Grouped(items, fuzzy(query)), 1))
  {
    var one, two, three := [Down], [Down, Down], [Down, Down, Up];
    assert one[..0] == [] && two[..1] == one && three[..2] == two;
    assert LookAfter(items, fuzzy, query, one).at == Position(query, 1);
    assert LookAfter(items, fuzzy, query, two).at == Position(query, 2);
  }

  lemma KeepsGroupedOrder(items: seq<Item>, a: string)
    requires items == [Item(None, 1), Item(Some(a), 1), Item(Some(a), 1)]
    ensures Grouped(items, [0, 1, 2]) == [0, 1, 2]
  {
    var gs: seq<Group> := [None, Some(a), Some(a)];
    assert GroupsOf(items, [0, 1, 2]) == gs;
    TwoGroupsSeen(a);
    OnlyOfThree(items, None);
    OnlyOfThree(items, Some(a));
    LaidInTwo(items, None, Some(a), [0, 1, 2]);
  }

  lemma TwoGroupsSeen(a: string)
    ensures NoneFirst(FirstSeen([None, Some(a), Some(a)])) == [None, Some(a)]
  {
    var gs: seq<Group> := [None, Some(a), Some(a)];
    assert gs[..2] == [None, Some(a)] && gs[..2][..1] == [None];
    assert FirstSeen(gs[..2][..1]) == [None];
    assert FirstSeen(gs[..2]) == [None, Some(a)];
    assert Rank([None, Some(a)], None) == 0;
  }

  lemma OnlyOfThree(items: seq<Item>, g: Group)
    requires |items| == 3
    ensures Only(items, g, [0, 1, 2]) == (if items[0].group == g then [0] else []) + (if items[1].group == g then [1] else [])
                                         + (if items[2].group == g then [2] else [])
  {
    OnlyOfTwo(items, g);
    OnlyStep(items, g, [0, 1], 2);
    assert [0, 1] + [2] == [0, 1, 2];
  }

  lemma OnlyOfTwo(items: seq<Item>, g: Group)
    requires |items| >= 2
    ensures Only(items, g, [0, 1]) == (if items[0].group == g then [0] else []) + (if items[1].group == g then [1] else [])
  {
    OnlyStep(items, g, [], 0);
    OnlyStep(items, g, [0], 1);
    assert [0] + [1] == [0, 1] && [] + [0] == [0];
  }

  lemma LaidInTwo(items: seq<Item>, g: Group, h: Group, s: seq<nat>)
    requires AreIndices(items, s)
    ensures Laid(items, [g, h], s) == Only(items, g, s) + Only(items, h, s)
  {
    assert [g, h][..1] == [g] && [g][..0] == [];
    assert Laid(items, [g], s) == Only(items, g, s);
  }

  lemma PlayStep(items: seq<Item>, fuzzy: string -> seq<nat>, p: Position, keys: seq<Key>, n: nat)
    requires IsMatcher(items, fuzzy) && n < |keys|
    ensures Play(items, fuzzy, p, keys[n..]) ==
            if Decide(items, fuzzy, p, keys[n]).Some? then Decide(items, fuzzy, p, keys[n])
            else Play(items, fuzzy, Press(fuzzy, p, keys[n]), keys[n + 1..])
  {
    assert keys[n..][1..] == keys[n + 1..];
  }

  /** Only items that match what was typed can be selected. */
  lemma {:induction false} SelectsAMatch(items: seq<Item>, fuzzy: string -> seq<nat>, p: Position, keys: seq<Key>)
    requires IsMatcher(items, fuzzy)
    ensures match Play(items, fuzzy, p, keys)
            case Some(Selected(item)) => item < |items| && exists q :: item in fuzzy(q)
            case _ => true
    decreases |keys|
  {
    if keys != [] && !keys[0].Interrupt? {
      var grouped := Grouped(items, fuzzy(p.query));
      if keys[0].Enter? && p.selected < |grouped| {
        GroupingKeepsElements(items, fuzzy(p.query));
        assert grouped[p.selected] in grouped;
      } else {
        SelectsAMatch(items, fuzzy, Press(fuzzy, p, keys[0]), keys[1..]);
      }
    }
  }

  // ---------------------------------------------------------------- columns

  const ROOT_PREFIX: nat := 4
  const GROUP_PREFIX: nat := 6

  /** One line of the list; widths are in characters, `limit` is the room left for the description. */
  datatype Line = HeaderLine(group: string) | ItemLine(highlighted: bool, prefix: nat, name: nat, padding: nat, limit: nat)

  /** No name in the first `n` rows is wider, and some name is as wide if there are any. */
  ghost predicate IsWidest(items: seq<Item>, rows: seq<Row>, n: nat, width: nat)
    requires AreRows(items, rows) && n <= |rows|
  {
    && (forall i :: 0 <= i < n && rows[i].ItemRow? ==> items[rows[i].item].nameWidth <= width)
    && (width == 0 || exists i :: 0 <= i < n && rows[i].ItemRow? && items[rows[i].item].nameWidth == width)
  }

  /** Where descriptions start: after the longest prefix, the widest name of all rows and one space. */
  ghost predicate IsColumn(items: seq<Item>, rows: seq<Row>, column: nat)
    requires AreRows(items, rows)
  {
    exists width: nat :: IsWidest(items, rows, |rows|, width)
                         && column == (if exists i: nat :: IsHeaderAt(rows, i) then 6 else 4) + width + 1
  }

  /** The pre-pass over all rows: whether there are headers, the widest name, and the items before the page. */
  method Measure(items: seq<Item>, rows: seq<Row>, start: nat) returns (hasGroups: bool, width: nat, before: nat)
    requires AreRows(items, rows) && start <= |rows|
    ensures hasGroups <==> exists i: nat :: IsHeaderAt(rows, i)
    ensures IsWidest(items, rows, |rows|, width) && before == ItemsBefore(rows, start)
  {
    hasGroups, width, before := false, 0, 0;
    for i := 0 to |rows|
      invariant hasGroups <==> exists k: nat :: k < i && IsHeaderAt(rows, k)
      invariant IsWidest(items, rows, i, width)
      invariant before == ItemsBefore(rows, if i < start then i else start)
    {
      match rows[i] {
        case Header(_) =>
          assert IsHeaderAt(rows, i);
          hasGroups := true;
        case ItemRow(item) =>
          if items[item].nameWidth > width {
            width := items[item].nameWidth;
          }
          if i < start {
            before := before + 1;
          }
      }
    }
  }

  /**
   * Lays out a page of headed rows. No padding is negative, all descriptions start in the same
   * column, and exactly the selected item is highlighted.
   */
  method Layout(items: seq<Item>, rows: seq<Row>, selected: nat, start: nat, end: nat, maxLine: nat)
    returns (lines: seq<Line>, column: nat)
    requires AreRows(items, rows) && AreHeaded(items, rows) && start <= end <= |rows|
    ensures |lines| == end - start && IsColumn(items, rows, column)
    ensures forall k :: 0 <= k < |lines| ==> IsLineOf(items, rows, selected, start + k, maxLine, column, lines[k])
  {
    var hasGroups, width, ordinal := Measure(items, rows, start);
    column := (if hasGroups then GROUP_PREFIX else ROOT_PREFIX) + width + 1;
    lines := [];
    for i := start to end
      invariant |lines| == i - start && ordinal == ItemsBefore(rows, i)
      invariant forall k :: 0 <= k < |lines| ==> IsLineOf(items, rows, selected, start + k, maxLine, column, lines[k])
    {
      var line;
      match rows[i] {
        case Header(group) =>
          line := HeaderLine(group);
        case ItemRow(item) =>
          var prefix := if items[item].group.Some? then GROUP_PREFIX else ROOT_PREFIX;
          GroupedRowHasHeader(items, rows, i);
          var padding := column - prefix - items[item].nameWidth - 1;
          line := ItemLine(selected == ordinal, prefix, items[item].nameWidth, padding, if maxLine > column then maxLine - column else 0);
          ordinal := ordinal + 1;
      }
      lines := lines + [line];
    }
  }

  lemma GroupedRowHasHeader(items: seq<Item>, rows: seq<Row>, j: nat)
    requires AreRows(items, rows) && AreHeaded(items, rows) && j < |rows| && rows[j].ItemRow?
    ensures items[rows[j].item].group.Some? ==> exists i: nat :: IsHeaderAt(rows, i)
  {
    if items[rows[j].item].group.Some? {
      assert NeedsHeader(items, rows, j);
      var i: nat :| IsHeaderOf(items, rows, i, j);
      assert IsHeaderAt(rows, i);
    }
  }

  ghost predicate IsLineOf(items: seq<Item>, rows: seq<Row>, selected: nat, i: nat, maxLine: nat, column: nat, line: Line)
    requires AreRows(items, rows)
  {
    i < |rows| && match rows[i]
                  case Header(group) => line == HeaderLine(group)
                  case ItemRow(item) =>
                    && line.ItemLine? && (line.highlighted <==> IsRowOf(rows, selected, i))
                    && line.prefix == (if items[item].group.Some? then 6 else 4) && line.name == items[item].nameWidth
                    && line.prefix + line.name + line.padding + 1 == column
                    && (line.limit > 0 ==> column + line.limit == maxLine) && (column < maxLine ==> line.limit > 0)
  }

  /** Shortens a description to at most `limit` characters, ending in an ellipsis. */
  function Truncated(desc: string, limit: nat): string {
    if |desc| <= limit then desc else desc[..(if limit > 0 then limit - 1 else 0)] + ['\U{2026}']
  }

  /** The ellipsis itself does not fit into no room at all. */
  lemma TruncatedFits(desc: string, limit: nat)
    ensures |Truncated(desc, limit)| <= limit <==> limit > 0 || desc == ""
    ensures |desc| <= limit ==> Truncated(desc, limit) == desc
    ensures |desc| > limit > 0 ==> |Truncated(desc, limit)| == limit && Truncated(desc, limit)[..limit - 1] == desc[..limit - 1]
  {
  }
}
