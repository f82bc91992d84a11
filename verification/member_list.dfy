/** The member list of the circle page (CirclePage.tsx): who may be
    removed, the search, the safe/unsafe filter, the three sort orders with
    the viewer's own row first, and the flags derived from the list. */
module MemberList {
  import opened Wrappers
  import opened Text
  import opened Members
  import opened CircleHook

  datatype SortMode = ByStatus | ByName | ByTime
  datatype FilterMode = All | SafeOnly | UnsafeOnly

  /** `m.userId === user?.uid`: never true without a signed-in viewer, since
      a missing viewer id is not a missing user id. */
  predicate IsMe(m: CircleMember, viewer: Option<string>) {
    viewer.Some? && m.userId == viewer
  }

  /** `isOwner && !isMe && member.userId !== null`, with
      `isOwner = user?.uid === ownerId`. */
  predicate CanRemove(m: CircleMember, viewer: Option<string>, ownerId: Option<string>)
    ensures CanRemove(m, viewer, ownerId) ==> ownerId.Some? && m.userId.Some? && m.userId != ownerId
  {
    viewer.Some? && ownerId == viewer && !IsMe(m, viewer) && m.userId.Some?
  }

  /** The remove button is offered only to the owner, never on the owner's
      own row, and never on a member added by phone; so the store's
      refusal to remove the owner never fires for it. */
  lemma CanRemoveSafe(m: CircleMember, viewer: Option<string>, ownerId: Option<string>)
    ensures CanRemove(m, viewer, ownerId) <==>
      ownerId.Some? && viewer == ownerId && m.userId.Some? && m.userId != ownerId
  {
  }

  /** `a.localeCompare(b)`, taken as the order of code points: negative,
      zero or positive. */
  function NameCmp(a: string, b: string): (r: int)
    ensures -1 <= r <= 1
    ensures r == 0 <==> a == b
  {
    if a == [] && b == [] then 0
    else if a == [] then -1
    else if b == [] then 1
    else if a[0] < b[0] then -1
    else if a[0] > b[0] then 1
    else
      var r := NameCmp(a[1..], b[1..]);
      assert a == [a[0]] + a[1..] && b == [b[0]] + b[1..];
      r
  }

  /** Swapping the names negates the comparison. */
  lemma {:induction false} NameCmpAnti(a: string, b: string)
    ensures NameCmp(a, b) == -NameCmp(b, a)
  {
    if a != [] && b != [] && a[0] == b[0] {
      NameCmpAnti(a[1..], b[1..]);
    }
  }

  /** The name order is transitive. */
  lemma {:induction false} NameCmpTrans(a: string, b: string, c: string)
    ensures NameCmp(a, b) <= 0 && NameCmp(b, c) <= 0 ==> NameCmp(a, c) <= 0
  {
    if a != [] && b != [] && c != [] && a[0] == b[0] == c[0] {
      NameCmpTrans(a[1..], b[1..], c[1..]);
    }
  }

  /** The comparator of the sort: the viewer's row first, then by mode:
      SOS first, then not-safe before safe, then by name; by name; or by
      time safe was reported, latest first, a missing time counting as 0. */
  function Compare(a: CircleMember, b: CircleMember, mode: SortMode, viewer: Option<string>): (r: int)
    ensures IsMe(a, viewer) && !IsMe(b, viewer) ==> r < 0
    ensures IsMe(a, viewer) == IsMe(b, viewer) ==>
      && (mode == ByStatus && a.status == Sos && b.status != Sos ==> r < 0)
      && (mode == ByStatus && a.status != Sos && b.status != Sos && !a.isSafe && b.isSafe ==> r < 0)
      && (mode == ByName ==> (r < 0 <==> NameCmp(a.displayName, b.displayName) < 0))
      && (mode == ByTime ==> (r < 0 <==> a.lastSafeAt.GetOr(0) > b.lastSafeAt.GetOr(0)))
  {
    var aIsMe := if IsMe(a, viewer) then -1 else 0;
    var bIsMe := if IsMe(b, viewer) then -1 else 0;
    if aIsMe != bIsMe then aIsMe - bIsMe
    else match mode
      case ByStatus =>
        if a.status == Sos && b.status != Sos then -1
        else if a.status != Sos && b.status == Sos then 1
        else if a.isSafe != b.isSafe then (if a.isSafe then 1 else -1)
        else NameCmp(a.displayName, b.displayName)
      case ByName => NameCmp(a.displayName, b.displayName)
      case ByTime => b.lastSafeAt.GetOr(0) - a.lastSafeAt.GetOr(0)
  }

  /** The comparator is consistent: swapping its arguments negates it, and
      "not after" is transitive. */
  lemma CompareConsistent(a: CircleMember, b: CircleMember, c: CircleMember, mode: SortMode, viewer: Option<string>)
    ensures Compare(a, b, mode, viewer) == -Compare(b, a, mode, viewer)
    ensures Compare(a, b, mode, viewer) <= 0 && Compare(b, c, mode, viewer) <= 0 ==> Compare(a, c, mode, viewer) <= 0
  {
    NameCmpAnti(a.displayName, b.displayName);
    NameCmpTrans(a.displayName, b.displayName, c.displayName);
  }

  predicate Sorted(s: seq<CircleMember>, mode: SortMode, viewer: Option<string>) {
    forall i, j :: 0 <= i < j < |s| ==> Compare(s[i], s[j], mode, viewer) <= 0
  }

  /** Places `x` before the first row it sorts strictly before, so equal
      rows keep their order. */
  function Insert(s: seq<CircleMember>, x: CircleMember, mode: SortMode, viewer: Option<string>): (r: seq<CircleMember>)
    ensures multiset(r) == multiset(s) + multiset{x}
  {
    if s == [] then [x]
    else if Compare(x, s[0], mode, viewer) < 0 then [x] + s
    else
      assert s == [s[0]] + s[1..];
      [s[0]] + Insert(s[1..], x, mode, viewer)
  }

  /** Putting in front of a sorted list a row that sorts before every row
      of it gives a sorted list. */
  lemma SortedCons(x: CircleMember, s: seq<CircleMember>, mode: SortMode, viewer: Option<string>)
    requires Sorted(s, mode, viewer)
    requires forall j :: 0 <= j < |s| ==> Compare(x, s[j], mode, viewer) <= 0
    ensures Sorted([x] + s, mode, viewer)
  {
    var r := [x] + s;
    forall i, j | 0 <= i < j < |r|
      ensures Compare(r[i], r[j], mode, viewer) <= 0
    {
      assert r[j] == s[j - 1];
      if i > 0 {
        assert r[i] == s[i - 1];
      }
    }
  }

  /** The head of a sorted list sorts before every row of its tail. */
  lemma HeadFirst(s: seq<CircleMember>, y: CircleMember, mode: SortMode, viewer: Option<string>)
    requires s != [] && Sorted(s, mode, viewer) && y in s[1..]
    ensures Compare(s[0], y, mode, viewer) <= 0
  {
    var k :| 0 <= k < |s[1..]| && s[1..][k] == y;
    assert s[k + 1] == y;
  }

  /** Inserting into a sorted list keeps it sorted. */
  lemma {:induction false} InsertSorted(s: seq<CircleMember>, x: CircleMember, mode: SortMode, viewer: Option<string>)
    requires Sorted(s, mode, viewer)
    ensures Sorted(Insert(s, x, mode, viewer), mode, viewer)
  {
    if s == [] {
    } else if Compare(x, s[0], mode, viewer) < 0 {
      forall j | 0 <= j < |s|
        ensures Compare(x, s[j], mode, viewer) <= 0
      {
        if j > 0 {
          CompareConsistent(x, s[0], s[j], mode, viewer);
        }
      }
      SortedCons(x, s, mode, viewer);
    } else {
      CompareConsistent(x, s[0], x, mode, viewer);
      var t := Insert(s[1..], x, mode, viewer);
      InsertSorted(s[1..], x, mode, viewer);
      forall j | 0 <= j < |t|
        ensures Compare(s[0], t[j], mode, viewer) <= 0
      {
        assert t[j] in multiset(t);
        if t[j] != x {
          assert t[j] in multiset(s[1..]);
          HeadFirst(s, t[j], mode, viewer);
        }
      }
      SortedCons(s[0], t, mode, viewer);
    }
  }

  /** A stable insertion sort by the comparator (the runtime's sort is
      stable too). */
  function Sort(xs: seq<CircleMember>, mode: SortMode, viewer: Option<string>): (r: seq<CircleMember>)
    ensures multiset(r) == multiset(xs)
    decreases |xs|
  {
    if xs == [] then []
    else
      var init := xs[..|xs| - 1];
      assert xs == init + [xs[|xs| - 1]];
      Insert(Sort(init, mode, viewer), xs[|xs| - 1], mode, viewer)
  }

  /** The sort's result is in the comparator's order. */
  lemma {:induction false} SortSorted(xs: seq<CircleMember>, mode: SortMode, viewer: Option<string>)
    ensures Sorted(Sort(xs, mode, viewer), mode, viewer)
    decreases |xs|
  {
    if xs != [] {
      var init := xs[..|xs| - 1];
      SortSorted(init, mode, viewer);
      InsertSorted(Sort(init, mode, viewer), xs[|xs| - 1], mode, viewer);
    }
  }

  /** The rows that survive the search and the filter: a blank query keeps
      every row, otherwise the lower-cased name must contain the trimmed,
      lower-cased query; 'safe' keeps the safe rows, 'unsafe' the others. */
  predicate Matches(m: CircleMember, query: string, filter: FilterMode)
    ensures (forall i :: 0 <= i < |query| ==> IsSpace(query[i])) && filter == All ==> Matches(m, query, filter)
    ensures Matches(m, query, filter) && filter == SafeOnly ==> m.isSafe
    ensures Matches(m, query, filter) && filter == UnsafeOnly ==> !m.isSafe
  {
    && (Trim(query) == [] || Contains(Lower(m.displayName), Lower(Trim(query))))
    && (filter == SafeOnly ==> m.isSafe)
    && (filter == UnsafeOnly ==> !m.isSafe)
  }

  /** `xs.filter(p)`. */
  function Keep(xs: seq<CircleMember>, p: CircleMember -> bool): (r: seq<CircleMember>)
    ensures |r| <= |xs|
    ensures forall x :: multiset(r)[x] == if p(x) then multiset(xs)[x] else 0
  {
    if xs == [] then []
    else
      assert xs == [xs[0]] + xs[1..];
      (if p(xs[0]) then [xs[0]] else []) + Keep(xs[1..], p)
  }

  /** `filteredAndSorted`: a copy of the members, searched, filtered and
      sorted; the members themselves are a value and stay as they were. */
  function FilteredAndSorted(
    members: seq<CircleMember>, query: string, filter: FilterMode,
    mode: SortMode, viewer: Option<string>): (r: seq<CircleMember>)
    ensures Sorted(r, mode, viewer)
    ensures forall x :: multiset(r)[x] == if Matches(x, query, filter) then multiset(members)[x] else 0
  {
    var trimmed := Trim(query);
    var searched :=
      if trimmed != [] then
        var q := Lower(trimmed);
        Keep(members, (m: CircleMember) => Contains(Lower(m.displayName), q))
      else members;
    var filtered :=
      if filter == SafeOnly then Keep(searched, (m: CircleMember) => m.isSafe)
      else if filter == UnsafeOnly then Keep(searched, (m: CircleMember) => !m.isSafe)
      else searched;
    SortSorted(filtered, mode, viewer);
    Sort(filtered, mode, viewer)
  }

  /** The result holds exactly the matching rows, each as often as in the
      members, and only rows of the members. */
  lemma {:induction false} ResultIsMatchingRows(
    members: seq<CircleMember>, query: string, filter: FilterMode,
    mode: SortMode, viewer: Option<string>)
    ensures var r := FilteredAndSorted(members, query, filter, mode, viewer);
      forall i :: 0 <= i < |r| ==> r[i] in members && Matches(r[i], query, filter)
    ensures var r := FilteredAndSorted(members, query, filter, mode, viewer);
      forall x :: x in members && Matches(x, query, filter) ==> x in r
  {
    var r := FilteredAndSorted(members, query, filter, mode, viewer);
    forall i | 0 <= i < |r|
      ensures r[i] in members && Matches(r[i], query, filter)
    {
      assert r[i] in multiset(r);
    }
    forall x | x in members && Matches(x, query, filter)
      ensures x in r
    {
      assert x in multiset(members);
      assert x in multiset(r);
    }
  }

  /** In a sorted list the viewer's own row comes before every other row. */
  lemma SortedViewerFirst(r: seq<CircleMember>, mode: SortMode, viewer: Option<string>)
    requires Sorted(r, mode, viewer)
    ensures forall i, j :: 0 <= i < j < |r| && IsMe(r[j], viewer) ==> IsMe(r[i], viewer)
  {
    forall i, j | 0 <= i < j < |r| && IsMe(r[j], viewer)
      ensures IsMe(r[i], viewer)
    {
      assert Compare(r[i], r[j], mode, viewer) <= 0;
    }
  }

  /** What a list sorted by status promises of two rows in order. */
  lemma SortedByStatus(r: seq<CircleMember>, viewer: Option<string>)
    requires Sorted(r, ByStatus, viewer)
    ensures forall i, j :: 0 <= i < j < |r| && IsMe(r[i], viewer) == IsMe(r[j], viewer) ==>
      && (r[j].status == Sos ==> r[i].status == Sos)
      && ((r[i].status == Sos <==> r[j].status == Sos) ==> (r[i].isSafe ==> r[j].isSafe))
      && ((r[i].status == Sos <==> r[j].status == Sos) && r[i].isSafe == r[j].isSafe ==>
            NameCmp(r[i].displayName, r[j].displayName) <= 0)
  {
    forall i, j | 0 <= i < j < |r| && IsMe(r[i], viewer) == IsMe(r[j], viewer)
      ensures r[j].status == Sos ==> r[i].status == Sos
      ensures (r[i].status == Sos <==> r[j].status == Sos) ==> (r[i].isSafe ==> r[j].isSafe)
      ensures (r[i].status == Sos <==> r[j].status == Sos) && r[i].isSafe == r[j].isSafe ==>
        NameCmp(r[i].displayName, r[j].displayName) <= 0
    {
      assert Compare(r[i], r[j], ByStatus, viewer) <= 0;
    }
  }

  /** What a list sorted by time promises of two rows in order. */
  lemma SortedByTime(r: seq<CircleMember>, viewer: Option<string>)
    requires Sorted(r, ByTime, viewer)
    ensures forall i, j :: 0 <= i < j < |r| && IsMe(r[i], viewer) == IsMe(r[j], viewer) ==>
      r[i].lastSafeAt.GetOr(0) >= r[j].lastSafeAt.GetOr(0)
  {
    forall i, j | 0 <= i < j < |r| && IsMe(r[i], viewer) == IsMe(r[j], viewer)
      ensures r[i].lastSafeAt.GetOr(0) >= r[j].lastSafeAt.GetOr(0)
    {
      assert Compare(r[i], r[j], ByTime, viewer) <= 0;
    }
  }

  /** What a list sorted by name promises of two rows in order. */
  lemma SortedByName(r: seq<CircleMember>, viewer: Option<string>)
    requires Sorted(r, ByName, viewer)
    ensures forall i, j :: 0 <= i < j < |r| && IsMe(r[i], viewer) == IsMe(r[j], viewer) ==>
      NameCmp(r[i].displayName, r[j].displayName) <= 0
  {
    forall i, j | 0 <= i < j < |r| && IsMe(r[i], viewer) == IsMe(r[j], viewer)
      ensures NameCmp(r[i].displayName, r[j].displayName) <= 0
    {
      assert Compare(r[i], r[j], ByName, viewer) <= 0;
    }
  }

  /** Whatever the mode, the viewer's own row comes before every other row. */
  lemma {:induction false} ViewerFirst(
    members: seq<CircleMember>, query: string, filter: FilterMode,
    mode: SortMode, viewer: Option<string>)
    ensures var r := FilteredAndSorted(members, query, filter, mode, viewer);
      forall i, j :: 0 <= i < j < |r| && IsMe(r[j], viewer) ==> IsMe(r[i], viewer)
  {
    SortedViewerFirst(FilteredAndSorted(members, query, filter, mode, viewer), mode, viewer);
  }


  /** In status mode, among rows that are equally the viewer's: SOS rows
      first, then not-safe rows before safe rows, and equal rows by name. */
  lemma {:induction false} StatusOrder(members: seq<CircleMember>, query: string, filter: FilterMode, viewer: Option<string>)
    ensures var r := FilteredAndSorted(members, query, filter, ByStatus, viewer);
      forall i, j :: 0 <= i < j < |r| && IsMe(r[i], viewer) == IsMe(r[j], viewer) ==>
        && (r[j].status == Sos ==> r[i].status == Sos)
        && ((r[i].status == Sos <==> r[j].status == Sos) ==> (r[i].isSafe ==> r[j].isSafe))
        && ((r[i].status == Sos <==> r[j].status == Sos) && r[i].isSafe == r[j].isSafe ==>
              NameCmp(r[i].displayName, r[j].displayName) <= 0)
  {
    SortedByStatus(FilteredAndSorted(members, query, filter, ByStatus, viewer), viewer);
  }


  /** In time mode, among rows that are equally the viewer's, the latest
      report of safety comes first, a missing one counting as 0. */
  lemma {:induction false} TimeOrder(members: seq<CircleMember>, query: string, filter: FilterMode, viewer: Option<string>)
    ensures var r := FilteredAndSorted(members, query, filter, ByTime, viewer);
      forall i, j :: 0 <= i < j < |r| && IsMe(r[i], viewer) == IsMe(r[j], viewer) ==>
        r[i].lastSafeAt.GetOr(0) >= r[j].lastSafeAt.GetOr(0)
  {
    SortedByTime(FilteredAndSorted(members, query, filter, ByTime, viewer), viewer);
  }


  /** In name mode, among rows that are equally the viewer's, names are in
      order. */
  lemma {:induction false} NameOrder(members: seq<CircleMember>, query: string, filter: FilterMode, viewer: Option<string>)
    ensures var r := FilteredAndSorted(members, query, filter, ByName, viewer);
      forall i, j :: 0 <= i < j < |r| && IsMe(r[i], viewer) == IsMe(r[j], viewer) ==>
        NameCmp(r[i].displayName, r[j].displayName) <= 0
  {
    SortedByName(FilteredAndSorted(members, query, filter, ByName, viewer), viewer);
  }


  /** `members.length >= MAX_CIRCLE_MEMBERS`: the add form is hidden. */
  predicate AtLimit(members: seq<CircleMember>) {
    |members| >= MaxCircleMembers
  }

  /** `members.length > 0 && notSafeCount === 0`. */
  predicate AllSafe(members: seq<CircleMember>) {
    |members| > 0 && NotSafeCount(members) == 0
  }

  /** `members.length <= 1`. */
  predicate OnlyMe(members: seq<CircleMember>) {
    |members| <= 1
  }

  /** "All safe" means a non-empty list of safe rows, and then, with every
      row consistent, nobody is in SOS; a list of one is never at the
      limit. */
  lemma Flags(members: seq<CircleMember>)
    ensures AllSafe(members) <==> |members| > 0 && forall i :: 0 <= i < |members| ==> members[i].isSafe
    ensures AllSafe(members) && (forall i :: 0 <= i < |members| ==> ViewOk(members[i])) ==> SosCount(members) == 0
    ensures OnlyMe(members) ==> !AtLimit(members)
  {
  }
}
