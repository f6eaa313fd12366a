/** The derived views: the category filter of screens/FilterScreen.tsx and
    the per-category counts of screens/HomeScreen.tsx.
 */
module Views {
  import opened MenuTypes

  /** `items.filter((i) => i.category === category)`. */
  function FilterByCategory(items: seq<MenuItem>, category: string): (r: seq<MenuItem>)
    ensures |r| <= |items|
    ensures forall k :: 0 <= k < |r| ==> r[k].category == category
  {
    if items == [] then []
    else (if items[0].category == category then [items[0]] else []) + FilterByCategory(items[1..], category)
  }

  /** Filtering a concatenation filters each side: the matching items
      keep their relative order. */
  lemma {:induction false} FilterAppend(a: seq<MenuItem>, b: seq<MenuItem>, category: string)
    ensures FilterByCategory(a + b, category) == FilterByCategory(a, category) + FilterByCategory(b, category)
  {
    if a == [] {
      assert a + b == b;
    } else {
      assert (a + b)[0] == a[0] && (a + b)[1..] == a[1..] + b;
      FilterAppend(a[1..], b, category);
      var h := if a[0].category == category then [a[0]] else [];
      calc {
        FilterByCategory(a + b, category);
        h + FilterByCategory(a[1..] + b, category);
        h + (FilterByCategory(a[1..], category) + FilterByCategory(b, category));
        (h + FilterByCategory(a[1..], category)) + FilterByCategory(b, category);
      }
    }
  }

  /** `sub` is `s` with some elements left out, the rest in order. */
  predicate IsSubsequence(sub: seq<MenuItem>, s: seq<MenuItem>)
  {
    if sub == [] then true
    else if s == [] then false
    else if sub[0] == s[0] then IsSubsequence(sub[1..], s[1..])
    else IsSubsequence(sub, s[1..])
  }

  /** The filtered list is an order-preserving selection from the source,
      and every source item of the category is selected. */
  lemma {:induction false} FilterSelects(items: seq<MenuItem>, category: string)
    ensures IsSubsequence(FilterByCategory(items, category), items)
    ensures forall k :: 0 <= k < |items| && items[k].category == category ==>
      items[k] in FilterByCategory(items, category)
  {
    if items != [] {
      FilterSelects(items[1..], category);
      var r := FilterByCategory(items, category);
      var rest := FilterByCategory(items[1..], category);
      if items[0].category == category {
        assert r == [items[0]] + rest && r[1..] == rest;
      } else {
        assert r == rest;
        if r != [] {
          assert r[0].category == category;
        }
      }
      forall k | 0 <= k < |items| && items[k].category == category ensures items[k] in r {
        if k > 0 { assert items[k] == items[1..][k - 1]; }
      }
    }
  }

  /** Filtering twice by the same category changes nothing more. */
  lemma {:induction false} FilterIdempotent(items: seq<MenuItem>, category: string)
    ensures FilterByCategory(FilterByCategory(items, category), category) == FilterByCategory(items, category)
  {
    FilterKeepsMatching(FilterByCategory(items, category), category);
  }

  /** A list whose items all have the category filters to itself. */
  lemma {:induction false} FilterKeepsMatching(items: seq<MenuItem>, category: string)
    requires forall k :: 0 <= k < |items| ==> items[k].category == category
    ensures FilterByCategory(items, category) == items
  {
    if items != [] {
      FilterKeepsMatching(items[1..], category);
      assert [items[0]] + items[1..] == items;
    }
  }

  /** A category no item has filters to the empty list, and only then. */
  lemma {:induction false} FilterEmptyIff(items: seq<MenuItem>, category: string)
    ensures FilterByCategory(items, category) == [] <==>
      forall k :: 0 <= k < |items| ==> items[k].category != category
  {
    FilterSelects(items, category);
    if items != [] {
      FilterEmptyIff(items[1..], category);
      if forall k :: 0 <= k < |items| ==> items[k].category != category {
        assert forall k :: 0 <= k < |items[1..]| ==> items[1..][k].category != category by {
          forall k | 0 <= k < |items[1..]| ensures items[1..][k].category != category {
            assert items[1..][k] == items[k + 1];
          }
        }
      }
    }
  }

  /** Where the filter screen takes its items from: the `items` prop if
      given, else the route's `items`, else nothing. */
  function ItemSource(propItems: Option<seq<MenuItem>>, routeItems: Option<seq<MenuItem>>): (r: seq<MenuItem>)
    ensures propItems.Some? ==> r == propItems.value
    ensures propItems.None? && routeItems.Some? ==> r == routeItems.value
    ensures propItems.None? && routeItems.None? ==> r == []
  {
    match propItems
    case Some(items) => items
    case None =>
      match routeItems
      case Some(items) => items
      case None => []
  }

  /** The course the filter screen opens on. */
  const InitialSelection: Course := STARTER

  /** The screen opens on the starters. */
  lemma InitialHeading(propItems: Option<seq<MenuItem>>, routeItems: Option<seq<MenuItem>>)
    ensures FilterScreen(propItems, routeItems, InitialSelection).heading == "STARTERs"
    ensures FilterScreen(propItems, routeItems, InitialSelection).shown
      == FilterByCategory(ItemSource(propItems, routeItems), "STARTER")
  {
  }

  /** What the filter screen shows: the heading's course label and count,
      and the matching items. */
  datatype FilterView = FilterView(heading: string, count: nat, shown: seq<MenuItem>)

  function FilterScreen(propItems: Option<seq<MenuItem>>, routeItems: Option<seq<MenuItem>>, selected: Course): (v: FilterView)
    ensures v.shown == FilterByCategory(ItemSource(propItems, routeItems), Name(selected))
    ensures v.count == CategoryCount(ItemSource(propItems, routeItems), Name(selected)) == |v.shown|
    ensures v.count <= |ItemSource(propItems, routeItems)|
    ensures v.heading == Name(selected) + "s"
    ensures forall k :: 0 <= k < |v.shown| ==> v.shown[k].category == Name(selected)
  {
    var shown := FilterByCategory(ItemSource(propItems, routeItems), Name(selected));
    FilterView(Name(selected) + "s", |shown|, shown)
  }

  /** The count under a category card: `items.filter(i => i.category === cat).length`. */
  function CategoryCount(items: seq<MenuItem>, category: string): (n: nat)
    ensures n <= |items|
  {
    |FilterByCategory(items, category)|
  }

  /** Positions of the items of a category. */
  function MatchingPositions(items: seq<MenuItem>, category: string): set<nat>
  {
    set k: nat | k < |items| && items[k].category == category
  }

  /** The count is the number of positions holding an item of the category. */
  lemma {:induction false} CategoryCountIsCardinality(items: seq<MenuItem>, category: string)
    ensures CategoryCount(items, category) == |MatchingPositions(items, category)|
  {
    if items != [] {
      var init := items[..|items| - 1];
      var last := items[|items| - 1];
      CategoryCountIsCardinality(init, category);
      assert init + [last] == items;
      FilterAppend(init, [last], category);
      var before := MatchingPositions(init, category);
      var extra: set<nat> := if last.category == category then {|init|} else {};
      assert |FilterByCategory([last], category)| == |extra|;
      assert MatchingPositions(items, category) == before + extra by {
        forall k: nat | k < |init| ensures init[k] == items[k] {
        }
      }
      assert before !! extra;
    }
  }

  /** One card of the statistics row: the course label and its count. */
  datatype CategoryStat = CategoryStat(course: string, count: nat)

  /** The statistics row: one card per entry of the fixed course list, in
      its order. */
  function Stats(items: seq<MenuItem>): (r: seq<CategoryStat>)
    ensures |r| == |AllCourses|
    ensures forall k :: 0 <= k < |r| ==>
      r[k].course == Name(AllCourses[k]) && r[k].count == CategoryCount(items, Name(AllCourses[k]))
      && r[k].count <= |items|
  {
    seq(|AllCourses|, k requires 0 <= k < |AllCourses| =>
      CategoryStat(Name(AllCourses[k]), CategoryCount(items, Name(AllCourses[k]))))
  }

  /** The count in the heading: the list's length, which the three cards
      never exceed and reach exactly when every category is a course name. */
  function Total(items: seq<MenuItem>): (n: nat)
    ensures n == |items|
    ensures Stats(items)[0].count + Stats(items)[1].count + Stats(items)[2].count <= n
    ensures WellTyped(items) <==> Stats(items)[0].count + Stats(items)[1].count + Stats(items)[2].count == n
  {
    CountsAtMostTotal(items, |items|);
    if WellTyped(items) then
      CountsSumToTotal(items);
      |items|
    else
      var k :| 0 <= k < |items| && !ItemWellTyped(items[k]);
      CountsFallShort(items, k);
      |items|
  }

  /** When every category is a course name, the three cards account for
      every item exactly once. */
  lemma {:induction false} CountsSumToTotal(items: seq<MenuItem>)
    requires WellTyped(items)
    ensures Stats(items)[0].count + Stats(items)[1].count + Stats(items)[2].count == |items|
  {
    if items != [] {
      CountsSumToTotal(items[1..]);
      assert ItemWellTyped(items[0]);
    }
  }

  /** An item whose category is not a course name is counted on no card:
      the cards then fall short of the total. */
  lemma CountsFallShort(items: seq<MenuItem>, k: nat)
    requires k < |items| && !ItemWellTyped(items[k])
    ensures Stats(items)[0].count + Stats(items)[1].count + Stats(items)[2].count < |items|
  {
    CountsAtMostTotal(items, k);
  }

  lemma {:induction false} CountsAtMostTotal(items: seq<MenuItem>, k: nat)
    requires k <= |items|
    ensures CategoryCount(items, "STARTER") + CategoryCount(items, "MAIN") + CategoryCount(items, "DESSERT")
      <= |items| - (if k < |items| && !ItemWellTyped(items[k]) then 1 else 0)
  {
    if items != [] {
      CountsAtMostTotal(items[1..], if k == 0 then |items| - 1 else k - 1);
      if k > 0 && k < |items| {
        assert items[1..][k - 1] == items[k];
      }
    }
  }
}
