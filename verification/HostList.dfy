/** The home screen's host list: two passes over the hosts, against a stable sort by first-seen group. */
module HostList {
  import opened Bytes

  const MAX_HOSTS := 64
  const GROUP_MAX := 64

  datatype Host = Host(name: string, group: string)
  datatype ListRow = Header(title: string) | HostRow(index: nat) | Notice(text: string)

  /** A stored host: its group name leaves room for the terminating NUL. */
  predicate HostsOk(hosts: seq<Host>) {
    |hosts| <= MAX_HOSTS && forall i :: 0 <= i < |hosts| ==> |hosts[i].group| < GROUP_MAX
  }

  /** Host i is listed under group g. */
  predicate Listed(hosts: seq<Host>, matches: Host -> bool, g: string, i: int)
    requires 0 <= i < |hosts|
  {
    matches(hosts[i]) && hosts[i].group == g
  }

  /** The hosts of one group among the first n, in list order. */
  function Members(hosts: seq<Host>, matches: Host -> bool, g: string, n: nat): (r: seq<nat>)
    requires n <= |hosts|
    ensures forall k :: 0 <= k < |r| ==> r[k] < n && Listed(hosts, matches, g, r[k])
    ensures forall k, l :: 0 <= k < l < |r| ==> r[k] < r[l]
    ensures forall i :: 0 <= i < n && Listed(hosts, matches, g, i) ==> i in r
  {
    if n == 0 then []
    else Members(hosts, matches, g, n - 1) + if Listed(hosts, matches, g, n - 1) then [n - 1] else []
  }

  /** Group names of the first n hosts in order of first appearance. */
  function SeenGroups(hosts: seq<Host>, matches: Host -> bool, n: nat): (s: seq<string>)
    requires n <= |hosts|
    ensures |s| <= n
  {
    if n == 0 then []
    else
      var s, h := SeenGroups(hosts, matches, n - 1), hosts[n - 1];
      if matches(h) && h.group != "" && h.group !in s then s + [h.group] else s
  }

  function HostRows(indices: seq<nat>): (rows: seq<ListRow>)
    ensures |rows| == |indices|
    ensures forall k :: 0 <= k < |rows| ==> rows[k] == HostRow(indices[k])
  {
    seq(|indices|, k requires 0 <= k < |indices| => HostRow(indices[k]))
  }

  function Section(title: string, indices: seq<nat>): seq<ListRow> {
    [Header(title)] + HostRows(indices)
  }

  lemma SectionSnoc(title: string, indices: seq<nat>, i: nat)
    ensures Section(title, indices + [i]) == Section(title, indices) + [HostRow(i)]
  {
    assert HostRows(indices + [i]) == HostRows(indices) + [HostRow(i)];
  }

  /** The sections of some groups. */
  function Sections(hosts: seq<Host>, matches: Host -> bool, groups: seq<string>): seq<ListRow> {
    if groups == [] then []
    else
      var g := groups[|groups| - 1];
      Sections(hosts, matches, groups[..|groups| - 1]) + Section(g, Members(hosts, matches, g, |hosts|))
  }

  function Listing(hosts: seq<Host>, matches: Host -> bool): seq<ListRow> {
    var grouped := Sections(hosts, matches, SeenGroups(hosts, matches, |hosts|));
    var rest := Members(hosts, matches, "", |hosts|);
    var rows := grouped + if rest == [] then [] else Section("Ungrouped", rest);
    if rows == [] then [Notice(if |hosts| == 0 then "No hosts yet -- tap + to add one" else "No hosts match your search")]
    else rows
  }

  // ---- The two passes ----

  method CollectGroups(hosts: seq<Host>, matches: Host -> bool, seen: array<string>)
    returns (count: int, anyUngrouped: bool)
    requires HostsOk(hosts) && seen.Length == MAX_HOSTS
    modifies seen
    ensures 0 <= count <= MAX_HOSTS && seen[..count] == SeenGroups(hosts, matches, |hosts|)
    ensures anyUngrouped <==> Members(hosts, matches, "", |hosts|) != []
  {
    count, anyUngrouped := 0, false;
    var i := 0;
    while i < |hosts|
      invariant 0 <= i <= |hosts| && 0 <= count <= i
      invariant seen[..count] == SeenGroups(hosts, matches, i)
      invariant anyUngrouped <==> Members(hosts, matches, "", i) != []
    {
      var h := hosts[i];
      if matches(h) {
        if h.group == "" {
          anyUngrouped := true;
        } else {
          count := NoteGroup(seen, count, h.group);
        }
      }
      i := i + 1;
    }
  }

  /** Adds a group name to the table unless it is there already. */
  method NoteGroup(seen: array<string>, count: int, group: string) returns (count': int)
    requires seen.Length == MAX_HOSTS && 0 <= count < MAX_HOSTS && |group| < GROUP_MAX
    modifies seen
    ensures count <= count' <= count + 1
    ensures var s := old(seen[..count]); seen[..count'] == if group in s then s else s + [group]
  {
    count' := count;
    var known := IsKnown(seen, count, group);
    if !known && count < MAX_HOSTS {
      seen[count] := Take(GROUP_MAX - 1, group);
      count' := count + 1;
    }
  }

  method IsKnown(seen: array<string>, count: int, group: string) returns (known: bool)
    requires 0 <= count <= seen.Length
    ensures known <==> group in seen[..count]
  {
    known := false;
    var g := 0;
    while g < count
      invariant 0 <= g <= count && group !in seen[..g]
    {
      if seen[g] == group { return true; }
      g := g + 1;
    }
  }

  method EmitSection(hosts: seq<Host>, matches: Host -> bool, title: string, group: string) returns (rows: seq<ListRow>)
    ensures rows == Section(title, Members(hosts, matches, group, |hosts|))
  {
    rows := [Header(title)];
    var i := 0;
    while i < |hosts|
      invariant 0 <= i <= |hosts|
      invariant rows == Section(title, Members(hosts, matches, group, i))
    {
      if matches(hosts[i]) && hosts[i].group == group {
        rows := rows + [HostRow(i)];
      }
      SectionSnoc(title, Members(hosts, matches, group, i), i);
      assert Members(hosts, matches, group, i) + [] == Members(hosts, matches, group, i);
      i := i + 1;
    }
  }

  method EmitGroups(hosts: seq<Host>, matches: Host -> bool, groups: seq<string>)
    returns (rows: seq<ListRow>, renderedAny: bool)
    requires groups == SeenGroups(hosts, matches, |hosts|)
    ensures rows == Sections(hosts, matches, groups) && (renderedAny <==> rows != [])
  {
    rows, renderedAny := [], false;
    var g := 0;
    while g < |groups|
      invariant 0 <= g <= |groups|
      invariant rows == Sections(hosts, matches, groups[..g])
      invariant renderedAny <==> g > 0
    {
      var section := EmitSection(hosts, matches, groups[g], groups[g]);
      SeenSection(hosts, matches, groups[g]);
      SectionsNext(hosts, matches, groups, g);
      rows := rows + section;
      renderedAny := renderedAny || |section| > 1;
      g := g + 1;
    }
    assert groups[..g] == groups;
    assert groups == [] ==> rows == [];
  }

  lemma {:induction false} SectionsNext(hosts: seq<Host>, matches: Host -> bool, groups: seq<string>, g: nat)
    requires g < |groups|
    ensures Sections(hosts, matches, groups[..g + 1])
         == Sections(hosts, matches, groups[..g]) + Section(groups[g], Members(hosts, matches, groups[g], |hosts|))
    ensures Sections(hosts, matches, groups[..0]) == []
  {
    assert groups[..g + 1][..g] == groups[..g];
  }

  lemma SeenSection(hosts: seq<Host>, matches: Host -> bool, g: string)
    requires g in SeenGroups(hosts, matches, |hosts|)
    ensures |Section(g, Members(hosts, matches, g, |hosts|))| > 1
  {
    SeenGroupHasMembers(hosts, matches, |hosts|, g);
  }

  method RebuildHostList(hosts: seq<Host>, matches: Host -> bool) returns (rows: seq<ListRow>)
    requires HostsOk(hosts)
    ensures rows == Listing(hosts, matches)
  {
    var seen := new string[MAX_HOSTS](_ => "");
    var count, anyUngrouped := CollectGroups(hosts, matches, seen);
    var renderedAny;
    rows, renderedAny := EmitGroups(hosts, matches, seen[..count]);
    if anyUngrouped {
      var section := EmitSection(hosts, matches, "Ungrouped", "");
      rows := rows + section;
      renderedAny := renderedAny || |section| > 1;
    }
    if !renderedAny {
      rows := [Notice(if |hosts| == 0 then "No hosts yet -- tap + to add one" else "No hosts match your search")];
    }
  }

  lemma {:induction false} SeenGroupHasMembers(hosts: seq<Host>, matches: Host -> bool, n: nat, g: string)
    requires n <= |hosts| && g in SeenGroups(hosts, matches, n)
    ensures g != "" && Members(hosts, matches, g, |hosts|) != []
    decreases n
  {
    if n > 0 {
      if g in SeenGroups(hosts, matches, n - 1) {
        SeenGroupHasMembers(hosts, matches, n - 1, g);
      } else {
        assert Listed(hosts, matches, g, n - 1);
      }
    }
  }

  // ---- What order that is ----

  /** The host indices on screen, from top to bottom. */
  function Emitted(rows: seq<ListRow>): seq<nat> {
    if rows == [] then []
    else Emitted(rows[..|rows| - 1]) + match rows[|rows| - 1] case HostRow(i) => [i] case _ => []
  }

  /** Where a group first appears among the hosts that match. */
  function FirstSeen(hosts: seq<Host>, matches: Host -> bool, g: string, n: nat): (r: nat)
    requires n <= |hosts|
    ensures r <= n && (r < n ==> Listed(hosts, matches, g, r))
    ensures forall i :: 0 <= i < r ==> !Listed(hosts, matches, g, i)
  {
    if n == 0 then 0
    else
      var r := FirstSeen(hosts, matches, g, n - 1);
      if r < n - 1 then r else if Listed(hosts, matches, g, n - 1) then n - 1 else n
  }

  /** A host's sort key: its group's first appearance; ungrouped hosts come after every group. */
  function Rank(hosts: seq<Host>, matches: Host -> bool, i: nat): nat
    requires i < |hosts|
  {
    if hosts[i].group == "" then |hosts| else FirstSeen(hosts, matches, hosts[i].group, |hosts|)
  }

  /** By group, and inside a group by position in the stored list. */
  predicate Before(hosts: seq<Host>, matches: Host -> bool, i: nat, j: nat)
    requires i < |hosts| && j < |hosts|
  {
    Rank(hosts, matches, i) < Rank(hosts, matches, j) ||
    (Rank(hosts, matches, i) == Rank(hosts, matches, j) && i < j)
  }

  predicate InRange(hosts: seq<Host>, order: seq<nat>) {
    forall k :: 0 <= k < |order| ==> order[k] < |hosts|
  }

  /** Strictly ordered, so also without repetition. */
  predicate Sorted(hosts: seq<Host>, matches: Host -> bool, order: seq<nat>)
    requires InRange(hosts, order)
  {
    forall k, l :: 0 <= k < l < |order| ==> Before(hosts, matches, order[k], order[l])
  }

  /** Every matching host, and nothing else. */
  ghost predicate Complete(hosts: seq<Host>, matches: Host -> bool, order: seq<nat>) {
    forall i: nat :: i in order <==> i < |hosts| && matches(hosts[i])
  }

  lemma {:induction false} EmittedAppend(a: seq<ListRow>, b: seq<ListRow>)
    ensures Emitted(a + b) == Emitted(a) + Emitted(b)
    decreases |b|
  {
    if b == [] {
      assert a + b == a;
    } else {
      assert (a + b)[..|a + b| - 1] == a + b[..|b| - 1];
      EmittedAppend(a, b[..|b| - 1]);
    }
  }

  lemma {:induction false} EmittedSection(title: string, indices: seq<nat>)
    ensures Emitted(Section(title, indices)) == indices
    decreases |indices|
  {
    var rows := Section(title, indices);
    if indices == [] {
      assert rows == [Header(title)];
      assert Emitted(rows[..0]) == [];
    } else {
      var front := indices[..|indices| - 1];
      EmittedSection(title, front);
      assert rows[..|rows| - 1] == Section(title, front);
    }
  }

  /** The hosts of several groups, group after group. */
  function Grouped(hosts: seq<Host>, matches: Host -> bool, groups: seq<string>): seq<nat> {
    if groups == [] then []
    else Grouped(hosts, matches, groups[..|groups| - 1]) + Members(hosts, matches, groups[|groups| - 1], |hosts|)
  }

  lemma {:induction false} EmittedSections(hosts: seq<Host>, matches: Host -> bool, groups: seq<string>)
    ensures Emitted(Sections(hosts, matches, groups)) == Grouped(hosts, matches, groups)
    decreases |groups|
  {
    if groups != [] {
      var front, g := groups[..|groups| - 1], groups[|groups| - 1];
      EmittedSections(hosts, matches, front);
      EmittedAppend(Sections(hosts, matches, front), Section(g, Members(hosts, matches, g, |hosts|)));
      EmittedSection(g, Members(hosts, matches, g, |hosts|));
    }
  }

  function Order(hosts: seq<Host>, matches: Host -> bool): seq<nat> {
    Grouped(hosts, matches, SeenGroups(hosts, matches, |hosts|)) + Members(hosts, matches, "", |hosts|)
  }

  lemma EmittedListing(hosts: seq<Host>, matches: Host -> bool)
    ensures Emitted(Listing(hosts, matches)) == Order(hosts, matches)
  {
    var groups, rest := SeenGroups(hosts, matches, |hosts|), Members(hosts, matches, "", |hosts|);
    var grouped := Sections(hosts, matches, groups);
    EmittedSections(hosts, matches, groups);
    if rest == [] {
      assert grouped + [] == grouped;
    } else {
      EmittedAppend(grouped, Section("Ungrouped", rest));
      EmittedSection("Ungrouped", rest);
    }
    assert forall text :: [Notice(text)][..0] == [];
  }

  /** Groups that are listed, in increasing order of first appearance. */
  predicate InOrder(hosts: seq<Host>, matches: Host -> bool, groups: seq<string>) {
    && (forall k :: 0 <= k < |groups| ==> groups[k] != "")
    && (forall k, l :: 0 <= k < l < |groups| ==>
          FirstSeen(hosts, matches, groups[k], |hosts|) < FirstSeen(hosts, matches, groups[l], |hosts|))
  }

  lemma FirstSeenIs(hosts: seq<Host>, matches: Host -> bool, g: string, i: nat)
    requires i < |hosts| && Listed(hosts, matches, g, i)
    requires forall j :: 0 <= j < i ==> !Listed(hosts, matches, g, j)
    ensures FirstSeen(hosts, matches, g, |hosts|) == i
  {
  }

  /** The groups of the first n hosts that match: all of them, in order. */
  predicate SeenBy(hosts: seq<Host>, matches: Host -> bool, s: seq<string>, n: nat)
    requires n <= |hosts|
  {
    && InOrder(hosts, matches, s)
    && (forall k :: 0 <= k < |s| ==> FirstSeen(hosts, matches, s[k], |hosts|) < n)
    && (forall i :: 0 <= i < n && matches(hosts[i]) && hosts[i].group != "" ==> hosts[i].group in s)
  }

  lemma NewGroupSeen(hosts: seq<Host>, matches: Host -> bool, s: seq<string>, n: nat)
    requires n < |hosts| && SeenBy(hosts, matches, s, n)
    requires matches(hosts[n]) && hosts[n].group != "" && hosts[n].group !in s
    ensures SeenBy(hosts, matches, s + [hosts[n].group], n + 1)
  {
    var g := hosts[n].group;
    assert Listed(hosts, matches, g, n);
    FirstSeenIs(hosts, matches, g, n);
    var all := s + [g];
    forall k, l | 0 <= k < l < |all|
      ensures FirstSeen(hosts, matches, all[k], |hosts|) < FirstSeen(hosts, matches, all[l], |hosts|)
    {
      assert all[k] == s[k];
      if l < |s| { assert all[l] == s[l]; }
    }
  }

  lemma {:induction false} SeenInOrder(hosts: seq<Host>, matches: Host -> bool, n: nat)
    requires n <= |hosts|
    ensures SeenBy(hosts, matches, SeenGroups(hosts, matches, n), n)
    decreases n
  {
    if n > 0 {
      SeenInOrder(hosts, matches, n - 1);
      var s, h := SeenGroups(hosts, matches, n - 1), hosts[n - 1];
      if matches(h) && h.group != "" && h.group !in s {
        NewGroupSeen(hosts, matches, s, n - 1);
      }
    }
  }

  /** Sorted, and of ranks below `limit`. */
  predicate SortedBelow(hosts: seq<Host>, matches: Host -> bool, order: seq<nat>, limit: int) {
    InRange(hosts, order) && Sorted(hosts, matches, order)
    && forall k :: 0 <= k < |order| ==> Rank(hosts, matches, order[k]) < limit
  }

  lemma AppendMembers(hosts: seq<Host>, matches: Host -> bool, order: seq<nat>, g: string, rank: int)
    requires SortedBelow(hosts, matches, order, rank)
    requires rank == if g == "" then |hosts| else FirstSeen(hosts, matches, g, |hosts|)
    ensures SortedBelow(hosts, matches, order + Members(hosts, matches, g, |hosts|), rank + 1)
  {
    var members := Members(hosts, matches, g, |hosts|);
    var all := order + members;
    forall k, l | 0 <= k < l < |all| ensures Before(hosts, matches, all[k], all[l]) {
      if l < |order| {
        assert all[k] == order[k] && all[l] == order[l];
      } else {
        assert all[l] == members[l - |order|];
        if k < |order| { assert all[k] == order[k]; } else { assert all[k] == members[k - |order|]; }
      }
    }
  }

  lemma {:induction false} GroupedSorted(hosts: seq<Host>, matches: Host -> bool, groups: seq<string>, limit: int)
    requires InOrder(hosts, matches, groups)
    requires groups != [] ==> FirstSeen(hosts, matches, groups[|groups| - 1], |hosts|) < limit
    ensures SortedBelow(hosts, matches, Grouped(hosts, matches, groups), limit)
    decreases |groups|
  {
    if groups != [] {
      var front, g := groups[..|groups| - 1], groups[|groups| - 1];
      var rank := FirstSeen(hosts, matches, g, |hosts|);
      GroupedSorted(hosts, matches, front, rank);
      AppendMembers(hosts, matches, Grouped(hosts, matches, front), g, rank);
    }
  }

  lemma {:induction false} GroupedMembers(hosts: seq<Host>, matches: Host -> bool, groups: seq<string>, i: nat)
    ensures i in Grouped(hosts, matches, groups) <==> i < |hosts| && matches(hosts[i]) && hosts[i].group in groups
    decreases |groups|
  {
    if groups != [] {
      var front, g := groups[..|groups| - 1], groups[|groups| - 1];
      GroupedMembers(hosts, matches, front, i);
      LastApart(groups);
      assert i in Members(hosts, matches, g, |hosts|) <==> i < |hosts| && Listed(hosts, matches, g, i);
    }
  }

  /** The list shows every matching host once, sorted by (first appearance of its group, position in the store),
      ungrouped hosts last: groups are contiguous, in first-seen order, and keep the stored order inside. */
  lemma {:induction false} StableGrouping(hosts: seq<Host>, matches: Host -> bool)
    ensures var order := Emitted(Listing(hosts, matches));
            InRange(hosts, order) && Sorted(hosts, matches, order) && Complete(hosts, matches, order)
  {
    var groups := SeenGroups(hosts, matches, |hosts|);
    SeenInOrder(hosts, matches, |hosts|);
    GroupedSorted(hosts, matches, groups, |hosts|);
    AppendMembers(hosts, matches, Grouped(hosts, matches, groups), "", |hosts|);
    EmittedListing(hosts, matches);
    forall i: nat
      ensures i in Order(hosts, matches) <==> i < |hosts| && matches(hosts[i])
    {
      GroupedMembers(hosts, matches, groups, i);
      assert i in Members(hosts, matches, "", |hosts|) <==> i < |hosts| && Listed(hosts, matches, "", i);
    }
  }

  lemma HasMember(s: seq<nat>)
    requires s != []
    ensures exists i: nat :: i in s
  {
    assert s[0] in s;
  }

  lemma LastIsUnique(hosts: seq<Host>, matches: Host -> bool, a: seq<nat>, b: seq<nat>)
    requires InRange(hosts, a) && Sorted(hosts, matches, a) && InRange(hosts, b) && Sorted(hosts, matches, b)
    requires a != [] && b != [] && a[|a| - 1] in b && b[|b| - 1] in a
    ensures a[|a| - 1] == b[|b| - 1]
  {
  }

  lemma WithoutLast(hosts: seq<Host>, matches: Host -> bool, a: seq<nat>, i: nat)
    requires InRange(hosts, a) && Sorted(hosts, matches, a) && a != []
    ensures i in a[..|a| - 1] <==> i in a && i != a[|a| - 1]
  {
    LastApart(a);
  }

  /** There is only one such order, so the property above fixes the list. */
  lemma {:induction false} OrderIsUnique(hosts: seq<Host>, matches: Host -> bool, a: seq<nat>, b: seq<nat>)
    requires InRange(hosts, a) && Sorted(hosts, matches, a) && InRange(hosts, b) && Sorted(hosts, matches, b)
    requires forall i: nat :: i in a <==> i in b
    ensures a == b
    decreases |a|
  {
    if a == [] {
      assert b == [] by {
        if b != [] {
          HasMember(b);
        }
      }
    } else {
      assert a[|a| - 1] in b && b[|b| - 1] in a;
      LastIsUnique(hosts, matches, a, b);
      var a', b' := a[..|a| - 1], b[..|b| - 1];
      forall i: nat ensures i in a' <==> i in b' {
        WithoutLast(hosts, matches, a, i);
        WithoutLast(hosts, matches, b, i);
      }
      OrderIsUnique(hosts, matches, a', b');
      assert a == a' + [a[|a| - 1]] && b == b' + [b[|b| - 1]];
    }
  }

  // ---- Headings ----

  function LastHeader(rows: seq<ListRow>): Option<string> {
    if rows == [] then None
    else match rows[|rows| - 1]
         case Header(title) => Some(title)
         case _ => LastHeader(rows[..|rows| - 1])
  }

  function TitleOf(h: Host): string {
    if h.group == "" then "Ungrouped" else h.group
  }

  /** Every host row stands under the heading of its own group. */
  predicate Titled(hosts: seq<Host>, rows: seq<ListRow>)
    decreases |rows|
  {
    rows != [] ==>
      var front, last := rows[..|rows| - 1], rows[|rows| - 1];
      && Titled(hosts, front)
      && (last.HostRow? ==> last.index < |hosts| && LastHeader(front) == Some(TitleOf(hosts[last.index])))
  }

  lemma RowSnoc(hosts: seq<Host>, rows: seq<ListRow>, row: ListRow)
    requires Titled(hosts, rows)
    requires row.HostRow? ==> row.index < |hosts| && LastHeader(rows) == Some(TitleOf(hosts[row.index]))
    ensures Titled(hosts, rows + [row])
    ensures LastHeader(rows + [row]) == match row case Header(title) => Some(title) case _ => LastHeader(rows)
  {
    assert (rows + [row])[..|rows|] == rows;
  }

  /** Titled, with `title` as the heading in force at the end. */
  predicate Under(hosts: seq<Host>, rows: seq<ListRow>, title: string) {
    Titled(hosts, rows) && LastHeader(rows) == Some(title)
  }

  lemma HostUnder(hosts: seq<Host>, rows: seq<ListRow>, title: string, i: nat, rows': seq<ListRow>)
    requires Under(hosts, rows, title) && i < |hosts| && TitleOf(hosts[i]) == title && rows' == rows + [HostRow(i)]
    ensures Under(hosts, rows', title)
  {
    RowSnoc(hosts, rows, HostRow(i));
  }

  predicate AllTitled(hosts: seq<Host>, indices: seq<nat>, title: string) {
    forall k :: 0 <= k < |indices| ==> indices[k] < |hosts| && TitleOf(hosts[indices[k]]) == title
  }

  lemma {:induction false} SectionTitled(hosts: seq<Host>, rows: seq<ListRow>, title: string, indices: seq<nat>,
                                         all: seq<ListRow>)
    requires Titled(hosts, rows) && AllTitled(hosts, indices, title) && all == rows + Section(title, indices)
    ensures Under(hosts, all, title)
    decreases |indices|
  {
    if indices == [] {
      assert Section(title, indices) == [Header(title)];
      RowSnoc(hosts, rows, Header(title));
    } else {
      var front, i := indices[..|indices| - 1], indices[|indices| - 1];
      var most := rows + Section(title, front);
      SectionTitled(hosts, rows, title, front, most);
      SectionOneMore(rows, title, front, i, indices);
      HostUnder(hosts, most, title, i, all);
    }
  }

  lemma SectionOneMore(rows: seq<ListRow>, title: string, front: seq<nat>, i: nat, indices: seq<nat>)
    requires indices == front + [i]
    ensures rows + Section(title, indices) == rows + Section(title, front) + [HostRow(i)]
  {
    SectionSnoc(title, front, i);
  }

  lemma {:induction false} SectionsTitled(hosts: seq<Host>, matches: Host -> bool, groups: seq<string>)
    requires forall k :: 0 <= k < |groups| ==> groups[k] != ""
    ensures Titled(hosts, Sections(hosts, matches, groups))
    decreases |groups|
  {
    if groups != [] {
      var front, g := groups[..|groups| - 1], groups[|groups| - 1];
      SectionsTitled(hosts, matches, front);
      SectionTitled(hosts, Sections(hosts, matches, front), g, Members(hosts, matches, g, |hosts|),
                    Sections(hosts, matches, groups));
    }
  }

  lemma NoticeTitled(hosts: seq<Host>, text: string)
    ensures Titled(hosts, [Notice(text)])
  {
    RowSnoc(hosts, [], Notice(text));
    assert [] + [Notice(text)] == [Notice(text)];
  }

  lemma {:induction false} UngroupedTitled(hosts: seq<Host>, matches: Host -> bool, grouped: seq<ListRow>, rest: seq<nat>)
    requires Titled(hosts, grouped) && rest == Members(hosts, matches, "", |hosts|)
    ensures Titled(hosts, grouped + if rest == [] then [] else Section("Ungrouped", rest))
  {
    if rest == [] {
      assert grouped + [] == grouped;
    } else {
      SectionTitled(hosts, grouped, "Ungrouped", rest, grouped + Section("Ungrouped", rest));
    }
  }

  lemma {:induction false} ListingTitled(hosts: seq<Host>, matches: Host -> bool)
    ensures Titled(hosts, Listing(hosts, matches))
  {
    var groups, rest := SeenGroups(hosts, matches, |hosts|), Members(hosts, matches, "", |hosts|);
    SeenInOrder(hosts, matches, |hosts|);
    SectionsTitled(hosts, matches, groups);
    UngroupedTitled(hosts, matches, Sections(hosts, matches, groups), rest);
    NoticeTitled(hosts, if |hosts| == 0 then "No hosts yet -- tap + to add one" else "No hosts match your search");
  }

  /** The headings, from top to bottom. */
  function Headings(rows: seq<ListRow>): seq<string> {
    if rows == [] then []
    else Headings(rows[..|rows| - 1]) + match rows[|rows| - 1] case Header(title) => [title] case _ => []
  }

  lemma {:induction false} HeadingsAppend(a: seq<ListRow>, b: seq<ListRow>)
    ensures Headings(a + b) == Headings(a) + Headings(b)
    decreases |b|
  {
    if b == [] {
      assert a + b == a;
    } else {
      assert (a + b)[..|a + b| - 1] == a + b[..|b| - 1];
      HeadingsAppend(a, b[..|b| - 1]);
      Assoc(Headings(a), Headings(b[..|b| - 1]), match b[|b| - 1] case Header(title) => [title] case _ => []);
    }
  }

  lemma {:induction false} HeadingsSection(title: string, indices: seq<nat>)
    ensures Headings(Section(title, indices)) == [title]
    decreases |indices|
  {
    var rows := Section(title, indices);
    if indices == [] {
      assert rows == [Header(title)];
      assert Headings(rows[..0]) == [];
    } else {
      HeadingsSection(title, indices[..|indices| - 1]);
      assert rows[..|rows| - 1] == Section(title, indices[..|indices| - 1]);
    }
  }

  lemma {:induction false} HeadingsSections(hosts: seq<Host>, matches: Host -> bool, groups: seq<string>)
    ensures Headings(Sections(hosts, matches, groups)) == groups
    decreases |groups|
  {
    if groups != [] {
      var front, g := groups[..|groups| - 1], groups[|groups| - 1];
      HeadingsSections(hosts, matches, front);
      HeadingsAppend(Sections(hosts, matches, front), Section(g, Members(hosts, matches, g, |hosts|)));
      HeadingsSection(g, Members(hosts, matches, g, |hosts|));
      LastApart(groups);
    }
  }

  /** Some host matches. */
  predicate AnyMatch(hosts: seq<Host>, matches: Host -> bool) {
    exists i :: 0 <= i < |hosts| && matches(hosts[i])
  }

  lemma NothingListed(hosts: seq<Host>, matches: Host -> bool)
    ensures AnyMatch(hosts, matches) <==>
              SeenGroups(hosts, matches, |hosts|) != [] || Members(hosts, matches, "", |hosts|) != []
  {
    var groups, rest := SeenGroups(hosts, matches, |hosts|), Members(hosts, matches, "", |hosts|);
    SeenInOrder(hosts, matches, |hosts|);
    if AnyMatch(hosts, matches) {
      var i :| 0 <= i < |hosts| && matches(hosts[i]);
      if hosts[i].group == "" {
        assert Listed(hosts, matches, "", i);
        assert i in rest;
      } else {
        assert hosts[i].group in groups;
      }
    }
    if groups != [] {
      SeenGroupHasMembers(hosts, matches, |hosts|, groups[0]);
      MemberMatches(hosts, matches, groups[0]);
    }
    if rest != [] {
      MemberMatches(hosts, matches, "");
    }
  }

  lemma MemberMatches(hosts: seq<Host>, matches: Host -> bool, g: string)
    requires Members(hosts, matches, g, |hosts|) != []
    ensures AnyMatch(hosts, matches)
  {
    var i := Members(hosts, matches, g, |hosts|)[0];
    assert Listed(hosts, matches, g, i);
  }

  lemma SectionsEmpty(hosts: seq<Host>, matches: Host -> bool, groups: seq<string>)
    ensures Sections(hosts, matches, groups) == [] <==> groups == []
  {
  }

  lemma SeenGroupsMeant(hosts: seq<Host>, matches: Host -> bool, k: int)
    requires 0 <= k < |SeenGroups(hosts, matches, |hosts|)|
    ensures Members(hosts, matches, SeenGroups(hosts, matches, |hosts|)[k], |hosts|) != []
  {
    SeenGroupHasMembers(hosts, matches, |hosts|, SeenGroups(hosts, matches, |hosts|)[k]);
  }

  lemma HeadingsListed(hosts: seq<Host>, matches: Host -> bool, grouped: seq<ListRow>, groups: seq<string>, rest: seq<nat>)
    requires Headings(grouped) == groups
    ensures Headings(grouped + if rest == [] then [] else Section("Ungrouped", rest))
         == groups + if rest == [] then [] else ["Ungrouped"]
  {
    if rest == [] {
      assert grouped + [] == grouped && groups + [] == groups;
    } else {
      HeadingsSection("Ungrouped", rest);
      HeadingsAppend(grouped, Section("Ungrouped", rest));
    }
  }

  /** When a host matches, the headings are the groups that were seen, each once, in the order of their first host, and
      then "Ungrouped" if a host without a group matches. Otherwise the list is one notice, which says whether there
      are hosts at all. */
  lemma {:induction false} ListingHeadings(hosts: seq<Host>, matches: Host -> bool)
    ensures var groups := SeenGroups(hosts, matches, |hosts|);
            && SeenBy(hosts, matches, groups, |hosts|)
            && (AnyMatch(hosts, matches) ==>
                  Headings(Listing(hosts, matches))
                    == groups + if Members(hosts, matches, "", |hosts|) == [] then [] else ["Ungrouped"])
    ensures !AnyMatch(hosts, matches) ==>
              Listing(hosts, matches)
                == [Notice(if hosts == [] then "No hosts yet -- tap + to add one" else "No hosts match your search")]
  {
    var groups, rest := SeenGroups(hosts, matches, |hosts|), Members(hosts, matches, "", |hosts|);
    SeenInOrder(hosts, matches, |hosts|);
    NothingListed(hosts, matches);
    SectionsEmpty(hosts, matches, groups);
    HeadingsSections(hosts, matches, groups);
    HeadingsListed(hosts, matches, Sections(hosts, matches, groups), groups, rest);
  }

  /** Row k is no notice, and a host follows it if it is a heading. */
  predicate SpacedAt(rows: seq<ListRow>, k: int)
    requires 0 <= k < |rows|
  {
    !rows[k].Notice? && (rows[k].Header? ==> k + 1 < |rows| && rows[k + 1].HostRow?)
  }

  predicate WellSpaced(rows: seq<ListRow>) {
    forall k :: 0 <= k < |rows| ==> SpacedAt(rows, k)
  }

  lemma WellSpacedAppend(a: seq<ListRow>, b: seq<ListRow>)
    requires WellSpaced(a) && WellSpaced(b)
    ensures WellSpaced(a + b)
  {
    forall k | 0 <= k < |a + b| ensures SpacedAt(a + b, k) {
      if k < |a| {
        assert SpacedAt(a, k);
      } else {
        assert SpacedAt(b, k - |a|);
      }
    }
  }

  lemma SectionSpaced(title: string, indices: seq<nat>)
    requires indices != []
    ensures WellSpaced(Section(title, indices))
  {
  }

  lemma {:induction false} SectionsSpaced(hosts: seq<Host>, matches: Host -> bool, groups: seq<string>)
    requires forall k :: 0 <= k < |groups| ==> Members(hosts, matches, groups[k], |hosts|) != []
    ensures WellSpaced(Sections(hosts, matches, groups))
    decreases |groups|
  {
    if groups != [] {
      var front, g := groups[..|groups| - 1], groups[|groups| - 1];
      SectionsSpaced(hosts, matches, front);
      SectionSpaced(g, Members(hosts, matches, g, |hosts|));
      WellSpacedAppend(Sections(hosts, matches, front), Section(g, Members(hosts, matches, g, |hosts|)));
    }
  }

  /** No section is empty. */
  lemma {:induction false} ListingSpaced(hosts: seq<Host>, matches: Host -> bool)
    requires AnyMatch(hosts, matches)
    ensures WellSpaced(Listing(hosts, matches))
  {
    var groups, rest := SeenGroups(hosts, matches, |hosts|), Members(hosts, matches, "", |hosts|);
    var grouped := Sections(hosts, matches, groups);
    forall k | 0 <= k < |groups| ensures Members(hosts, matches, groups[k], |hosts|) != [] {
      SeenGroupsMeant(hosts, matches, k);
    }
    NothingListed(hosts, matches);
    SectionsEmpty(hosts, matches, groups);
    SectionsSpaced(hosts, matches, groups);
    if rest == [] {
      assert grouped + [] == grouped;
    } else {
      SectionSpaced("Ungrouped", rest);
      WellSpacedAppend(grouped, Section("Ungrouped", rest));
    }
  }
}
