/** The navigation sidebar (src/components/Sidebar.jsx): pages are grouped
    under a fixed list of headings, each group sorted by the page's `order`
    and then by title, and the row of the current page is marked active. */
module Sidebar {
  import opened Text
  import opened JsonValues

  /** `resolveValue(page, key)`: the page's own field unless it is
      `undefined` or `null`, else the one under `attributes`, else `''`. */
  function ResolveValue(page: Json, key: string): (r: Json)
    ensures !Truthy(page) ==> r == Str("")
    ensures Truthy(page) && Get(page, key) != Undefined && Get(page, key) != Null ==> r == Get(page, key)
    ensures Truthy(page) && (Get(page, key) == Undefined || Get(page, key) == Null) ==>
              r == Coalesce(Get(Get(page, "attributes"), key), Str(""))
    ensures r != Undefined && r != Null
  {
    if !Truthy(page) then Str("")
    else if Get(page, key) != Undefined && Get(page, key) != Null then Get(page, key)
    else Coalesce(Get(Get(page, "attributes"), key), Str(""))
  }

  const GroupOrder: seq<string> := ["Ongoing", "Selected Works", "Interactive", "Other Works"]

  /** The page's position number: a non-zero number, or none (an order of 0
      counts as absent). */
  function OrderKey(page: Json): (r: Option<int>)
    ensures r.Some? <==> ResolveValue(page, "order").Num? && Truthy(ResolveValue(page, "order"))
    ensures r.Some? ==> r.value == ResolveValue(page, "order").n && r.value != 0
  {
    var order := ResolveValue(page, "order");
    if order.Num? && order.n != 0 then Some(order.n) else None
  }

  /** The lower-cased title that untitled-by-order pages are sorted by. */
  function TitleKey(page: Json): string {
    Lower(TextOf(ResolveValue(page, "title")))
  }

  /** The sort comparator read as "a may come before b": pages with an order
      first, ascending; then the others by lower-cased title. */
  predicate Le(a: Json, b: Json) {
    match (OrderKey(a), OrderKey(b))
    case (Some(x), Some(y)) => x <= y
    case (Some(_), None) => true
    case (None, Some(_)) => false
    case (None, None) => LexLe(TitleKey(a), TitleKey(b))
  }

  lemma LeTotal(a: Json, b: Json)
    ensures Le(a, b) || Le(b, a)
  {
    if OrderKey(a).None? && OrderKey(b).None? {
      LexLeTotal(TitleKey(a), TitleKey(b));
    }
  }

  lemma LeTransitive(a: Json, b: Json, c: Json)
    requires Le(a, b) && Le(b, c)
    ensures Le(a, c)
  {
    if OrderKey(a).None? && OrderKey(b).None? && OrderKey(c).None? {
      LexLeTransitive(TitleKey(a), TitleKey(b), TitleKey(c));
    }
  }

  predicate Sorted(s: seq<Json>) {
    forall i, j | 0 <= i < j < |s| :: Le(s[i], s[j])
  }

  /** Puts `x` before the first element it may precede. */
  function Insert(x: Json, s: seq<Json>): (r: seq<Json>)
    ensures |r| == |s| + 1
  {
    if s == [] then [x]
    else if Le(x, s[0]) then [x] + s
    else [s[0]] + Insert(x, s[1..])
  }

  /** `Array.prototype.sort` with the comparator: a stable insertion sort. */
  function Sort(s: seq<Json>): (r: seq<Json>)
    ensures |r| == |s|
  {
    if s == [] then [] else Insert(s[0], Sort(s[1..]))
  }

  lemma {:induction false} InsertPermutation(x: Json, s: seq<Json>)
    ensures multiset(Insert(x, s)) == multiset(s) + multiset{x}
  {
    if s != [] && !Le(x, s[0]) {
      InsertPermutation(x, s[1..]);
      assert s == [s[0]] + s[1..];
    }
  }

  lemma {:induction false} InsertFrom(x: Json, s: seq<Json>)
    ensures forall y | y in Insert(x, s) :: y == x || y in s
  {
    if s != [] && !Le(x, s[0]) {
      InsertFrom(x, s[1..]);
    }
  }

  lemma {:induction false} InsertSorted(x: Json, s: seq<Json>)
    requires Sorted(s)
    ensures Sorted(Insert(x, s))
  {
    if s == [] {
    } else if Le(x, s[0]) {
      forall y | y in s
        ensures Le(x, y)
      {
        var k :| 0 <= k < |s| && s[k] == y;
        if k > 0 {
          LeTransitive(x, s[0], s[k]);
        }
      }
      ConsSorted(x, s);
    } else {
      var rest := Insert(x, s[1..]);
      InsertSorted(x, s[1..]);
      LeTotal(x, s[0]);
      InsertFrom(x, s[1..]);
      forall y | y in rest
        ensures Le(s[0], y)
      {
        if y != x {
          var k :| 0 <= k < |s[1..]| && s[1..][k] == y;
          assert s[k + 1] == y;
        }
      }
      ConsSorted(s[0], rest);
    }
  }

  /** A sorted list stays sorted behind an element that is `Le` all of it. */
  lemma ConsSorted(h: Json, s: seq<Json>)
    requires Sorted(s)
    requires forall y | y in s :: Le(h, y)
    ensures Sorted([h] + s)
  {
    var r := [h] + s;
    forall i, j | 0 <= i < j < |r|
      ensures Le(r[i], r[j])
    {
      assert r[j] == s[j - 1];
      if i > 0 {
        assert r[i] == s[i - 1];
      } else {
        assert r[j] in s;
      }
    }
  }

  lemma {:induction false} SortSortedPermutation(s: seq<Json>)
    ensures Sorted(Sort(s))
    ensures multiset(Sort(s)) == multiset(s)
  {
    if s != [] {
      SortSortedPermutation(s[1..]);
      InsertSorted(s[0], Sort(s[1..]));
      InsertPermutation(s[0], Sort(s[1..]));
      assert s == [s[0]] + s[1..];
    }
  }

  /** What sortedness means for one group: pages with an order come first,
      in ascending order, and the rest follow by lower-cased title. */
  lemma SortedGroupMeaning(s: seq<Json>, i: nat, j: nat)
    requires Sorted(s) && i < j < |s|
    ensures OrderKey(s[j]).Some? ==> OrderKey(s[i]).Some? && OrderKey(s[i]).value <= OrderKey(s[j]).value
    ensures OrderKey(s[i]).None? ==> OrderKey(s[j]).None? && LexLe(TitleKey(s[i]), TitleKey(s[j]))
  {
    assert Le(s[i], s[j]);
  }

  /** `pages.filter(page => resolveValue(page, 'group') === groupName)`. */
  function InGroup(pages: seq<Json>, groupName: string): (r: seq<Json>)
    ensures |r| <= |pages|
  {
    if pages == [] then []
    else
      var rest := InGroup(pages[1..], groupName);
      if ResolveValue(pages[0], "group") == Str(groupName) then [pages[0]] + rest else rest
  }

  /** The filter keeps exactly the pages filed under the name. */
  lemma {:induction false} InGroupMembers(pages: seq<Json>, groupName: string, p: Json)
    ensures p in InGroup(pages, groupName) <==> p in pages && ResolveValue(p, "group") == Str(groupName)
  {
    if pages != [] {
      InGroupMembers(pages[1..], groupName, p);
      assert pages == [pages[0]] + pages[1..];
    }
  }

  datatype Group = Group(groupName: string, pages: seq<Json>)

  /** The body of the `reduce` callback for one name: the filtered pages, sorted. */
  function PagesInGroup(pages: seq<Json>, groupName: string): seq<Json> {
    Sort(InGroup(pages, groupName))
  }

  /** The `reduce` over `names[m..]`, given the callback's page list for
      each name: a group for each name whose list is non-empty, in the
      order of the names. */
  function GroupsFrom(groupOf: string -> seq<Json>, names: seq<string>, m: nat): seq<Group>
    requires m <= |names|
    decreases |names| - m
  {
    if m == |names| then []
    else
      var pagesInGroup := groupOf(names[m]);
      (if |pagesInGroup| > 0 then [Group(names[m], pagesInGroup)] else []) + GroupsFrom(groupOf, names, m + 1)
  }

  /** `groupedPages`. */
  function GroupPages(pages: seq<Json>): seq<Group> {
    GroupsFrom(name => PagesInGroup(pages, name), GroupOrder, 0)
  }

  /** The positions among `names[m..]` of the names whose list is non-empty. */
  function GroupRanks(groupOf: string -> seq<Json>, names: seq<string>, m: nat): seq<nat>
    requires m <= |names|
    decreases |names| - m
  {
    if m == |names| then []
    else (if |groupOf(names[m])| > 0 then [m] else []) + GroupRanks(groupOf, names, m + 1)
  }

  /** The `i`-th group is the name at the `i`-th rank with its non-empty list. */
  lemma {:induction false} GroupsFromAt(groupOf: string -> seq<Json>, names: seq<string>, m: nat)
    requires m <= |names|
    ensures var gs := GroupsFrom(groupOf, names, m);
            var ranks := GroupRanks(groupOf, names, m);
            |gs| == |ranks|
            && forall i | 0 <= i < |gs| :: ranks[i] < |names| && gs[i] == Group(names[ranks[i]], groupOf(names[ranks[i]]))
                                           && |gs[i].pages| > 0
    decreases |names| - m
  {
    if m < |names| {
      GroupsFromAt(groupOf, names, m + 1);
      var gs := GroupsFrom(groupOf, names, m);
      var ranks := GroupRanks(groupOf, names, m);
      var tail := GroupsFrom(groupOf, names, m + 1);
      var tailRanks := GroupRanks(groupOf, names, m + 1);
      if |groupOf(names[m])| > 0 {
        assert gs == [Group(names[m], groupOf(names[m]))] + tail;
        assert ranks == [m] + tailRanks;
        forall i | 1 <= i < |gs|
          ensures gs[i] == tail[i - 1] && ranks[i] == tailRanks[i - 1]
        {
        }
      } else {
        assert gs == tail && ranks == tailRanks;
      }
    }
  }

  /** The ranks lie in `m .. |names| - 1` and strictly increase. */
  lemma {:induction false} GroupRanksIncrease(groupOf: string -> seq<Json>, names: seq<string>, m: nat)
    requires m <= |names|
    ensures forall i | 0 <= i < |GroupRanks(groupOf, names, m)| :: m <= GroupRanks(groupOf, names, m)[i] < |names|
    ensures forall i, j | 0 <= i < j < |GroupRanks(groupOf, names, m)| ::
              GroupRanks(groupOf, names, m)[i] < GroupRanks(groupOf, names, m)[j]
    decreases |names| - m
  {
    if m < |names| {
      GroupRanksIncrease(groupOf, names, m + 1);
      var ranks := GroupRanks(groupOf, names, m);
      var tailRanks := GroupRanks(groupOf, names, m + 1);
      if |groupOf(names[m])| > 0 {
        assert ranks == [m] + tailRanks;
        forall i | 1 <= i < |ranks|
          ensures ranks[i] == tailRanks[i - 1] && m < ranks[i] < |names|
        {
        }
      } else {
        assert ranks == tailRanks;
      }
    }
  }

  /** A name gets a rank exactly when its list is non-empty. */
  lemma {:induction false} GroupRanksCover(groupOf: string -> seq<Json>, names: seq<string>, m: nat)
    requires m <= |names|
    ensures forall k | m <= k < |names| :: k in GroupRanks(groupOf, names, m) <==> |groupOf(names[k])| > 0
    decreases |names| - m
  {
    if m < |names| {
      GroupRanksCover(groupOf, names, m + 1);
      GroupRanksIncrease(groupOf, names, m + 1);
      var ranks := GroupRanks(groupOf, names, m);
      var tailRanks := GroupRanks(groupOf, names, m + 1);
      forall i | 0 <= i < |tailRanks|
        ensures tailRanks[i] != m
      {
      }
      if |groupOf(names[m])| > 0 {
        assert ranks == [m] + tailRanks;
      } else {
        assert ranks == tailRanks;
      }
    }
  }

  /** Each group is listed, non-empty, and a sorted permutation of the pages
      filed under its name. */
  lemma GroupPagesSorted(pages: seq<Json>)
    ensures var gs := GroupPages(pages);
            forall i | 0 <= i < |gs| :: gs[i].groupName in GroupOrder && |gs[i].pages| > 0 && Sorted(gs[i].pages)
                  && multiset(gs[i].pages) == multiset(InGroup(pages, gs[i].groupName))
  {
    var groupOf := name => PagesInGroup(pages, name);
    GroupsFromAt(groupOf, GroupOrder, 0);
    var gs := GroupPages(pages);
    forall i | 0 <= i < |gs|
      ensures Sorted(gs[i].pages) && multiset(gs[i].pages) == multiset(InGroup(pages, gs[i].groupName))
    {
      SortSortedPermutation(InGroup(pages, gs[i].groupName));
    }
  }

  /** The groups come in the order Ongoing, Selected Works, Interactive, Other Works. */
  lemma GroupPagesInOrder(pages: seq<Json>)
    ensures var gs := GroupPages(pages);
            forall i, j | 0 <= i < j < |gs| :: Rank(gs[i].groupName) < Rank(gs[j].groupName)
  {
    var groupOf := name => PagesInGroup(pages, name);
    GroupsFromAt(groupOf, GroupOrder, 0);
    GroupRanksIncrease(groupOf, GroupOrder, 0);
    var ranks := GroupRanks(groupOf, GroupOrder, 0);
    var gs := GroupPages(pages);
    forall i | 0 <= i < |gs|
      ensures Rank(gs[i].groupName) == ranks[i]
    {
      RankOfListed(ranks[i]);
    }
  }

  /** A listed name gets a group exactly when some page is filed under it. */
  lemma GroupPagesPresence(pages: seq<Json>)
    ensures var gs := GroupPages(pages);
            forall k | 0 <= k < |GroupOrder| ::
              (exists i | 0 <= i < |gs| :: gs[i].groupName == GroupOrder[k]) <==> |InGroup(pages, GroupOrder[k])| > 0
  {
    var groupOf := name => PagesInGroup(pages, name);
    GroupsFromAt(groupOf, GroupOrder, 0);
    GroupRanksCover(groupOf, GroupOrder, 0);
    var ranks := GroupRanks(groupOf, GroupOrder, 0);
    var gs := GroupPages(pages);
    forall k | 0 <= k < |GroupOrder|
      ensures (exists i | 0 <= i < |gs| :: gs[i].groupName == GroupOrder[k]) <==> |InGroup(pages, GroupOrder[k])| > 0
    {
      SortSortedPermutation(InGroup(pages, GroupOrder[k]));
      if k in ranks {
        var i :| 0 <= i < |ranks| && ranks[i] == k;
        assert gs[i].groupName == GroupOrder[k];
      } else {
        forall i | 0 <= i < |gs|
          ensures gs[i].groupName != GroupOrder[k]
        {
          RankOfListed(ranks[i]);
          RankOfListed(k);
        }
      }
    }
  }

  /** A name's position in the group list (its length for other names). */
  function Rank(name: string): (r: nat)
    ensures r <= |GroupOrder|
    ensures r < |GroupOrder| <==> name in GroupOrder
  {
    if name == GroupOrder[0] then 0
    else if name == GroupOrder[1] then 1
    else if name == GroupOrder[2] then 2
    else if name == GroupOrder[3] then 3
    else 4
  }

  lemma RankOfListed(k: nat)
    requires k < |GroupOrder|
    ensures Rank(GroupOrder[k]) == k
  {
  }

  /** A page filed under no listed group appears in no group. */
  lemma UnlistedPageOmitted(pages: seq<Json>, page: Json)
    requires forall k | 0 <= k < |GroupOrder| :: ResolveValue(page, "group") != Str(GroupOrder[k])
    ensures forall g | g in GroupPages(pages) :: page !in g.pages
  {
    GroupPagesSorted(pages);
    var gs := GroupPages(pages);
    forall g | g in gs
      ensures page !in g.pages
    {
      var i :| 0 <= i < |gs| && gs[i] == g;
      var k :| 0 <= k < |GroupOrder| && GroupOrder[k] == g.groupName;
      assert ResolveValue(page, "group") != Str(g.groupName);
      InGroupMembers(pages, g.groupName, page);
      assert page !in multiset(g.pages);
    }
  }

  /** A row's identity: `page.id || page.documentId`. */
  function PageId(page: Json): Json {
    Or(Get(page, "id"), Get(page, "documentId"))
  }

  /** A row is active when its identity equals the current page's. */
  predicate IsActive(page: Json, currentPage: Json) {
    PageId(currentPage) == PageId(page)
  }

  /** With distinct identities, exactly the row of the current page is active. */
  lemma ActiveRowUnique(pages: seq<Json>, k: nat, i: nat)
    requires k < |pages| && i < |pages|
    requires forall a, b | 0 <= a < b < |pages| :: PageId(pages[a]) != PageId(pages[b])
    ensures IsActive(pages[i], pages[k]) <==> i == k
  {
    if i < k {
      assert PageId(pages[i]) != PageId(pages[k]);
    } else if k < i {
      assert PageId(pages[k]) != PageId(pages[i]);
    }
  }
}
