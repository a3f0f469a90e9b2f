/** Step "group by category" of the chat pipeline: the `categories` object
    built by pushing each retrieved item onto the array under its category,
    and the order in which `Object.entries` then lists the categories. */
module Grouping {
  import opened Catalog

  /** One property of the `categories` object: a category and the items
      pushed onto its array. */
  datatype Group = Group(category: string, items: seq<Item>)

  /** The items of `items` whose category is `c`, in their original order. */
  function InCategory(items: seq<Item>, c: string): (r: seq<Item>)
    ensures |r| <= |items|
    ensures forall k :: 0 <= k < |r| ==> r[k].category == c
  {
    if |items| == 0 then []
    else
      var last := items[|items| - 1];
      InCategory(items[..|items| - 1], c) + (if last.category == c then [last] else [])
  }

  /** Where category `c` first occurs in `items` (`|items|` when it does not). */
  function FirstIndex(items: seq<Item>, c: string): (r: nat)
    ensures r <= |items|
    ensures r < |items| ==> items[r].category == c
    ensures forall k :: 0 <= k < r ==> items[k].category != c
  {
    if |items| == 0 then 0
    else
      var f := FirstIndex(items[..|items| - 1], c);
      if f < |items| - 1 then f
      else if items[|items| - 1].category == c then |items| - 1
      else |items|
  }

  /** Some group holds category `c` (`categories[c]` is defined). */
  predicate HasGroup(groups: seq<Group>, c: string) {
    exists j :: 0 <= j < |groups| && groups[j].category == c
  }

  /** No category has two groups. */
  predicate DistinctCategories(groups: seq<Group>) {
    forall i, j :: 0 <= i < j < |groups| ==> groups[i].category != groups[j].category
  }

  /** All grouped items, group after group. */
  function Flatten(groups: seq<Group>): seq<Item> {
    if |groups| == 0 then [] else groups[0].items + Flatten(groups[1..])
  }

  /** The position of the group for `c`, or `|groups|` when there is none
      (`categories[c]` is still undefined). */
  function FindGroup(groups: seq<Group>, c: string): (k: nat)
    ensures k <= |groups|
    ensures k < |groups| ==> groups[k].category == c
    ensures forall j :: 0 <= j < k ==> groups[j].category != c
  {
    if |groups| == 0 then 0
    else if groups[0].category == c then 0
    else 1 + FindGroup(groups[1..], c)
  }

  /** One iteration of the `forEach`: create the array for a category seen
      for the first time (a new property goes last), then push the item. */
  function AddItem(groups: seq<Group>, item: Item): seq<Group> {
    var k := FindGroup(groups, item.category);
    if k == |groups| then groups + [Group(item.category, [item])]
    else groups[k := groups[k].(items := groups[k].items + [item])]
  }

  /** What grouping `items` promises of `groups`: one group per category
      that occurs, no other and no category twice; groups in the order in
      which their categories first occur; and each group holding exactly
      the items of its category, in retrieval order. */
  ghost predicate Grouped(items: seq<Item>, groups: seq<Group>) {
    && DistinctCategories(groups)
    && (forall k :: 0 <= k < |items| ==> HasGroup(groups, items[k].category))
    && (forall k :: 0 <= k < |groups| ==>
          groups[k].items == InCategory(items, groups[k].category) && |groups[k].items| > 0)
    && (forall i, j :: 0 <= i < j < |groups| ==>
          FirstIndex(items, groups[i].category) < FirstIndex(items, groups[j].category))
  }

  /** The whole `forEach` over the retrieved items. */
  function GroupByCategory(items: seq<Item>): seq<Group> {
    if |items| == 0 then []
    else AddItem(GroupByCategory(items[..|items| - 1]), items[|items| - 1])
  }

  lemma {:induction false} GroupByCategoryGrouped(items: seq<Item>)
    ensures Grouped(items, GroupByCategory(items))
    ensures multiset(Flatten(GroupByCategory(items))) == multiset(items)
  {
    if |items| > 0 {
      var init := items[..|items| - 1];
      var x := items[|items| - 1];
      GroupByCategoryGrouped(init);
      assert init + [x] == items;
      AddItemKeepsGrouped(init, x, GroupByCategory(init));
      AddItemFlatten(GroupByCategory(init), x);
    }
  }

  lemma {:induction false} AppendOne(init: seq<Item>, x: Item, c: string)
    ensures InCategory(init + [x], c) == InCategory(init, c) + (if x.category == c then [x] else [])
    ensures FirstIndex(init + [x], c) ==
      if FirstIndex(init, c) < |init| then FirstIndex(init, c)
      else if x.category == c then |init| else |init| + 1
  {
    assert (init + [x])[..|init|] == init;
  }

  /** Every grouped category first occurs inside the grouped items. */
  lemma {:induction false} GroupedCategoriesOccur(init: seq<Item>, before: seq<Group>, k: int)
    requires Grouped(init, before) && 0 <= k < |before|
    ensures FirstIndex(init, before[k].category) < |init|
  {
    var c := before[k].category;
    if FirstIndex(init, c) == |init| {
      NotOccurring(init, c);
    }
  }

  /** The induction step of GroupByCategory: pushing one more item keeps
      every promise. */
  lemma {:induction false} AddItemKeepsGrouped(init: seq<Item>, x: Item, before: seq<Group>)
    requires Grouped(init, before)
    ensures Grouped(init + [x], AddItem(before, x))
  {
    if FindGroup(before, x.category) == |before| {
      AddNewCategory(init, x, before);
    } else {
      AddKnownCategory(init, x, before);
    }
  }

  lemma {:induction false} AddNewCategory(init: seq<Item>, x: Item, before: seq<Group>)
    requires Grouped(init, before)
    requires FindGroup(before, x.category) == |before|
    ensures Grouped(init + [x], AddItem(before, x))
  {
    var items := init + [x];
    var after := AddItem(before, x);
    assert after == before + [Group(x.category, [x])];
    forall k | 0 <= k < |init| ensures init[k].category != x.category {
      assert HasGroup(before, init[k].category);
    }
    NotOccurring(init, x.category);
    NewGroupContents(init, x, before);
    NewGroupOrder(init, x, before);
    NewGroupCovers(init, x, before);
  }

  lemma {:induction false} NewGroupContents(init: seq<Item>, x: Item, before: seq<Group>)
    requires forall k :: 0 <= k < |before| ==>
      before[k].items == InCategory(init, before[k].category) && |before[k].items| > 0
    requires forall k :: 0 <= k < |before| ==> before[k].category != x.category
    requires InCategory(init, x.category) == []
    ensures var after := before + [Group(x.category, [x])];
      forall k :: 0 <= k < |after| ==>
        after[k].items == InCategory(init + [x], after[k].category) && |after[k].items| > 0
  {
    var after := before + [Group(x.category, [x])];
    forall k | 0 <= k < |after|
      ensures after[k].items == InCategory(init + [x], after[k].category)
    {
      AppendOne(init, x, after[k].category);
    }
  }

  lemma {:induction false} NewGroupOrder(init: seq<Item>, x: Item, before: seq<Group>)
    requires Grouped(init, before)
    requires FirstIndex(init, x.category) == |init|
    ensures var after := before + [Group(x.category, [x])];
      forall i, j :: 0 <= i < j < |after| ==>
        FirstIndex(init + [x], after[i].category) < FirstIndex(init + [x], after[j].category)
  {
    var after := before + [Group(x.category, [x])];
    forall i, j | 0 <= i < j < |after|
      ensures FirstIndex(init + [x], after[i].category) < FirstIndex(init + [x], after[j].category)
    {
      OrderAfterAppend(init, x, before, after, i, j);
    }
  }

  /** Appending an item moves no first occurrence inside `init`, so two
      categories that first occur in `init` keep their order, and one that
      first occurs only at the new item comes after both. */
  lemma {:induction false} OrderAfterAppend(init: seq<Item>, x: Item, before: seq<Group>, after: seq<Group>, i: int, j: int)
    requires Grouped(init, before)
    requires |after| >= |before| && 0 <= i < j < |after| && i < |before|
    requires forall k :: 0 <= k < |before| ==> after[k].category == before[k].category
    requires j >= |before| ==> after[j].category == x.category && FirstIndex(init, x.category) == |init|
    ensures FirstIndex(init + [x], after[i].category) < FirstIndex(init + [x], after[j].category)
  {
    GroupedCategoriesOccur(init, before, i);
    AppendOne(init, x, after[i].category);
    AppendOne(init, x, after[j].category);
    if j < |before| {
      GroupedCategoriesOccur(init, before, j);
    }
  }

  lemma {:induction false} NewGroupCovers(init: seq<Item>, x: Item, before: seq<Group>)
    requires forall k :: 0 <= k < |init| ==> HasGroup(before, init[k].category)
    ensures var after := before + [Group(x.category, [x])];
      forall k :: 0 <= k < |init + [x]| ==> HasGroup(after, (init + [x])[k].category)
  {
    var after := before + [Group(x.category, [x])];
    forall k | 0 <= k < |init + [x]| ensures HasGroup(after, (init + [x])[k].category) {
      if k < |init| {
        var j :| 0 <= j < |before| && before[j].category == init[k].category;
        assert after[j].category == init[k].category;
      } else {
        assert after[|before|].category == x.category;
      }
    }
  }

  lemma {:induction false} AddKnownCategory(init: seq<Item>, x: Item, before: seq<Group>)
    requires Grouped(init, before)
    requires FindGroup(before, x.category) < |before|
    ensures Grouped(init + [x], AddItem(before, x))
  {
    var n := FindGroup(before, x.category);
    var after := AddItem(before, x);
    KnownGroupDistinct(x, before, n);
    KnownGroupCovers(init, x, before, n);
    KnownGroupContents(init, x, before, n);
    KnownGroupOrder(init, x, before, n);
  }

  lemma {:induction false} KnownGroupDistinct(x: Item, before: seq<Group>, n: nat)
    requires DistinctCategories(before) && n < |before|
    ensures DistinctCategories(before[n := before[n].(items := before[n].items + [x])])
  {
    var after := before[n := before[n].(items := before[n].items + [x])];
    assert forall k :: 0 <= k < |after| ==> after[k].category == before[k].category;
  }

  lemma {:induction false} KnownGroupCovers(init: seq<Item>, x: Item, before: seq<Group>, n: nat)
    requires n < |before| && before[n].category == x.category
    requires forall k :: 0 <= k < |init| ==> HasGroup(before, init[k].category)
    ensures var after := before[n := before[n].(items := before[n].items + [x])];
      forall k :: 0 <= k < |init + [x]| ==> HasGroup(after, (init + [x])[k].category)
  {
    var after := before[n := before[n].(items := before[n].items + [x])];
    forall k | 0 <= k < |init + [x]| ensures HasGroup(after, (init + [x])[k].category) {
      if k < |init| {
        var j :| 0 <= j < |before| && before[j].category == init[k].category;
        assert after[j].category == init[k].category;
      } else {
        assert after[n].category == x.category;
      }
    }
  }

  lemma {:induction false} KnownGroupContents(init: seq<Item>, x: Item, before: seq<Group>, n: nat)
    requires DistinctCategories(before)
    requires n < |before| && before[n].category == x.category
    requires forall k :: 0 <= k < |before| ==>
      before[k].items == InCategory(init, before[k].category) && |before[k].items| > 0
    ensures var after := before[n := before[n].(items := before[n].items + [x])];
      forall k :: 0 <= k < |after| ==>
        after[k].items == InCategory(init + [x], after[k].category) && |after[k].items| > 0
  {
    var after := before[n := before[n].(items := before[n].items + [x])];
    forall k | 0 <= k < |after|
      ensures after[k].items == InCategory(init + [x], after[k].category)
    {
      AppendOne(init, x, after[k].category);
    }
  }

  lemma {:induction false} KnownGroupOrder(init: seq<Item>, x: Item, before: seq<Group>, n: nat)
    requires Grouped(init, before)
    requires n < |before| && before[n].category == x.category
    ensures var after := before[n := before[n].(items := before[n].items + [x])];
      forall i, j :: 0 <= i < j < |after| ==>
        FirstIndex(init + [x], after[i].category) < FirstIndex(init + [x], after[j].category)
  {
    var after := before[n := before[n].(items := before[n].items + [x])];
    forall i, j | 0 <= i < j < |after|
      ensures FirstIndex(init + [x], after[i].category) < FirstIndex(init + [x], after[j].category)
    {
      OrderAfterAppend(init, x, before, after, i, j);
    }
  }

  /** A category that occurs nowhere has no items and no first position. */
  lemma {:induction false} NotOccurring(items: seq<Item>, c: string)
    requires forall k :: 0 <= k < |items| ==> items[k].category != c
    ensures InCategory(items, c) == []
    ensures FirstIndex(items, c) == |items|
  {
    if |items| > 0 {
      NotOccurring(items[..|items| - 1], c);
    }
  }

  lemma {:induction false} FlattenAppend(a: seq<Group>, b: seq<Group>)
    ensures Flatten(a + b) == Flatten(a) + Flatten(b)
  {
    if |a| > 0 {
      assert (a + b)[1..] == a[1..] + b;
      FlattenAppend(a[1..], b);
      assert Flatten(a + b) == a[0].items + Flatten(a[1..] + b);
    } else {
      assert a + b == b;
    }
  }

  /** Pushing an item adds exactly that item to the grouped items. */
  lemma {:induction false} AddItemFlatten(groups: seq<Group>, x: Item)
    ensures multiset(Flatten(AddItem(groups, x))) == multiset(Flatten(groups)) + multiset{x}
  {
    var k := FindGroup(groups, x.category);
    if k == |groups| {
      FlattenAppend(groups, [Group(x.category, [x])]);
    } else {
      var g := groups[k];
      var g' := g.(items := g.items + [x]);
      assert groups == groups[..k] + [g] + groups[k + 1..];
      assert groups[k := g'] == groups[..k] + [g'] + groups[k + 1..];
      FlattenAppend(groups[..k] + [g], groups[k + 1..]);
      FlattenAppend(groups[..k], [g]);
      FlattenAppend(groups[..k] + [g'], groups[k + 1..]);
      FlattenAppend(groups[..k], [g']);
    }
  }

  lemma {:induction false} InCategoryHolds(items: seq<Item>, k: int)
    requires 0 <= k < |items|
    ensures items[k] in InCategory(items, items[k].category)
  {
    var init := items[..|items| - 1];
    if k < |items| - 1 {
      InCategoryHolds(init, k);
    }
  }

  /** Every retrieved item lands in exactly one group: the group of its
      category. */
  lemma {:induction false} ItemInItsGroup(items: seq<Item>, k: int)
    requires 0 <= k < |items|
    ensures var groups := GroupByCategory(items);
      var g := FindGroup(groups, items[k].category);
      && g < |groups|
      && items[k] in groups[g].items
      && forall j :: 0 <= j < |groups| && j != g ==> items[k] !in groups[j].items
  {
    var groups := GroupByCategory(items);
    GroupByCategoryGrouped(items);
    var c := items[k].category;
    assert HasGroup(groups, c);
    var g := FindGroup(groups, c);
    InCategoryHolds(items, k);
    forall j | 0 <= j < |groups| && j != g ensures items[k] !in groups[j].items {
      assert groups[j].category != c;
    }
  }
}
