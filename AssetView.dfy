/** The asset view: the list it renders (search filter, copy, sort by the
    chosen key, optional reversal) and the lookup of the chosen view. */
module AssetView {
  import opened Holdings
  import opened Sorting
  import opened Search

  /** The comparator handed to `sort` for the chosen key. */
  function SortComparator(key: SortKey): Comparator {
    (a, b) => Compare(key, a, b)
  }

  /** The comparator is consistent for every key, so the stable sort is
      well defined. */
  lemma SortComparatorConsistent(key: SortKey)
    ensures Consistent(SortComparator(key))
  {
    var cmp := SortComparator(key);
    forall a, b ensures cmp(b, a) == -cmp(a, b) {
      CompareAntisymmetric(key, a, b);
    }
    forall a, b, c | cmp(a, b) <= 0.0 && cmp(b, c) <= 0.0 ensures cmp(a, c) <= 0.0 {
      CompareTransitive(key, a, b, c);
    }
  }

  /** The rendered list as a value: the filtered holdings, stably sorted by
      `key`, read back to front when `reverse` is set. */
  function AssetList(realtokens: seq<Holding>, search: string, key: SortKey, reverse: bool): seq<Holding> {
    var sorted := StableSort(SortComparator(key), FilterBySearch(realtokens, search));
    if reverse then Reversed(sorted) else sorted
  }

  /** The memoised computation: filter a copy of the owned holdings into a
      fresh array, sort it in place, then reverse it in place if asked. The
      caller's array is left as it was. */
  method ComputeAssetList(realtokens: array<Holding>, search: string, key: SortKey, reverse: bool)
    returns (result: array<Holding>)
    ensures fresh(result)
    ensures result[..] == AssetList(old(realtokens[..]), search, key, reverse)
    ensures realtokens[..] == old(realtokens[..])
  {
    var filtered := FilterBySearch(realtokens[..], search);
    result := new Holding[|filtered|](k requires 0 <= k < |filtered| => filtered[k]);
    assert result[..] == filtered;
    SortAndOrient(result, SortComparator(key), reverse);
  }

  /** The in-place tail of the computation: `result.sort(cmp)`, then
      `result.reverse()` when `reverse` is set. */
  method SortAndOrient(result: array<Holding>, cmp: Comparator, reverse: bool)
    modifies result
    ensures result[..] == if reverse then Reversed(StableSort(cmp, old(result[..])))
                          else StableSort(cmp, old(result[..]))
  {
    SortInPlace(result, cmp);
    if reverse {
      ReverseInPlace(result);
    }
  }

  /** Sorting and reversing neither add nor drop a holding. */
  lemma AssetListPermutes(realtokens: seq<Holding>, search: string, key: SortKey, reverse: bool)
    ensures multiset(AssetList(realtokens, search, key, reverse)) == multiset(FilterBySearch(realtokens, search))
  {
    var filtered := FilterBySearch(realtokens, search);
    StableSortPermutes(SortComparator(key), filtered);
    ReversedPermutes(StableSort(SortComparator(key), filtered));
  }

  /** Without reversal the list follows the key's order; with reversal it
      follows the opposite order (VALUE ascending, NAME descending, ...). */
  lemma AssetListOrdered(realtokens: seq<Holding>, search: string, key: SortKey, reverse: bool)
    requires AllComparable(key, FilterBySearch(realtokens, search))
    ensures var r := AssetList(realtokens, search, key, reverse);
            forall i, j :: 0 <= i < j < |r| ==>
              if reverse then InOrder(key, r[j], r[i]) else InOrder(key, r[i], r[j])
  {
    var filtered := FilterBySearch(realtokens, search);
    var cmp := SortComparator(key);
    var sorted := StableSort(cmp, filtered);
    SortComparatorConsistent(key);
    StableSortSorted(cmp, filtered);
    StableSortPermutes(cmp, filtered);
    ComparableKept(key, filtered, sorted);
    SortedMeansInOrder(key, sorted);
  }

  /** Comparability is a property of each holding, so a permutation keeps it. */
  lemma ComparableKept(key: SortKey, s: seq<Holding>, t: seq<Holding>)
    requires AllComparable(key, s) && multiset(t) == multiset(s)
    ensures AllComparable(key, t)
  {
    forall h | h in t ensures Comparable(key, h) {
      assert h in multiset(s);
    }
  }

  /** A list sorted under the key's comparator follows the key's field order. */
  lemma SortedMeansInOrder(key: SortKey, s: seq<Holding>)
    requires AllComparable(key, s) && Sorted(SortComparator(key), s)
    ensures forall i, j :: 0 <= i < j < |s| ==> InOrder(key, s[i], s[j])
  {
    forall i, j | 0 <= i < j < |s| ensures InOrder(key, s[i], s[j]) {
      assert SortComparator(key)(s[i], s[j]) <= 0.0;
      CompareMeansInOrder(key, s[i], s[j]);
    }
  }

  /** The reverse flag flips the whole sorted list end to end. */
  lemma AssetListReversal(realtokens: seq<Holding>, search: string, key: SortKey)
    ensures AssetList(realtokens, search, key, true) == Reversed(AssetList(realtokens, search, key, false))
    ensures Reversed(AssetList(realtokens, search, key, true)) == AssetList(realtokens, search, key, false)
  {
    ReversedTwice(AssetList(realtokens, search, key, false));
  }

  /** A sort key outside the ten leaves the filtered order alone. */
  lemma AssetListUnknownKey(realtokens: seq<Holding>, search: string, reverse: bool)
    ensures var filtered := FilterBySearch(realtokens, search);
            AssetList(realtokens, search, Other, reverse) == if reverse then Reversed(filtered) else filtered
  {
    UnknownKeyKeepsOrder(FilterBySearch(realtokens, search));
  }

  lemma UnknownKeyKeepsOrder(s: seq<Holding>)
    ensures StableSort(SortComparator(Other), s) == s
  {
    var cmp := SortComparator(Other);
    assert forall a, b :: cmp(a, b) == 0.0;
    StableSortAllTies(cmp, s);
  }

  /** Holdings that tie under the key keep their filtered order. */
  lemma AssetListStable(realtokens: seq<Holding>, search: string, key: SortKey, x: Holding)
    ensures var cmp := SortComparator(key);
            Ties(cmp, x, AssetList(realtokens, search, key, false)) == Ties(cmp, x, FilterBySearch(realtokens, search))
  {
    SortComparatorConsistent(key);
    StableSortKeepsTies(SortComparator(key), x, FilterBySearch(realtokens, search));
  }

  /** The value and name scenarios: two holdings AA (value 100) and BB
      (value 50). */
  function Scenario(shortName: string, value: real): Holding {
    Holding(shortName, "", value, 0.0, 0.0, 0.0, RentStartDate(""), 0.0, 1.0, 0.0)
  }

  lemma ScenarioValueSort()
    ensures var a, b := Scenario("AA", 100.0), Scenario("BB", 50.0);
            AssetList([a, b], "", Value, false) == [a, b]
            && AssetList([a, b], "", Value, true) == [b, a]
  {
    TwoByValue(Scenario("AA", 100.0), Scenario("BB", 50.0));
  }

  /** With a blank search, two holdings of different value are listed
      highest value first, or lowest first when reversed. */
  lemma TwoByValue(a: Holding, b: Holding)
    requires a.value > b.value
    ensures AssetList([a, b], "", Value, false) == [a, b]
    ensures AssetList([a, b], "", Value, true) == [b, a]
  {
    assert CleanQuery("") == [];
    var cmp := SortComparator(Value);
    assert cmp(a, b) < 0.0;
    SortTwo(cmp, a, b);
    assert Reversed([a, b]) == [b, a];
  }

  /** By OCCUPANCY, a holding with rented units but no units in total (an
      infinite ratio) is listed before a holding with units. */
  lemma NoUnitsFirst(a: Holding, b: Holding)
    requires a.totalUnits == 0.0 && a.rentedUnits > 0.0 && b.totalUnits != 0.0
    ensures AssetList([a, b], "", Occupancy, false) == [a, b]
    ensures AssetList([a, b], "", Occupancy, true) == [b, a]
  {
    assert CleanQuery("") == [];
    var cmp := SortComparator(Occupancy);
    NoUnitsComesFirst(a, b);
    assert cmp(a, b) == Compare(Occupancy, a, b);
    SortTwo(cmp, a, b);
    assert Reversed([a, b]) == [b, a];
  }

  lemma SortTwo(cmp: Comparator, a: Holding, b: Holding)
    requires cmp(a, b) <= 0.0
    ensures StableSort(cmp, [a, b]) == [a, b]
  {
    assert [a, b][..1] == [a] && [a][..0] == [];
    assert StableSort(cmp, [a]) == [a];
  }

  lemma ScenarioSearch()
    ensures var a, b := Scenario("AA", 100.0), Scenario("BB", 50.0);
            FilterBySearch([a, b], " aa ") == [a]
  {
    var a, b := Scenario("AA", 100.0), Scenario("BB", 50.0);
    ScenarioQuery();
    ScenarioMatches();
    KeepFirstOnly(a, b, "aa");
  }

  lemma KeepFirstOnly(a: Holding, b: Holding, q: string)
    requires Matches(a, q) && !Matches(b, q)
    ensures KeepMatching([a, b], q) == [a]
  {
    assert [a, b][1..] == [b] && [b][1..] == [];
  }

  lemma ScenarioQuery()
    ensures CleanQuery(" aa ") == "aa"
  {
    assert " aa " == [' '] + "aa" + [' '];
    CleanQueryPadded("aa");
  }

  lemma ScenarioMatches()
    ensures Matches(Scenario("AA", 100.0), "aa") && !Matches(Scenario("BB", 50.0), "aa")
  {
    assert Text.ToLower("AA") == "aa";
    assert Text.OccursAt("aa", "aa", 0);
    assert Text.ToLower("BB") == "bb";
    assert Text.ToLower("") == "";
    assert !Text.OccursAt("bb", "aa", 0);
  }

  /** The two registered views, and `Unregistered` for any persisted value
      that equals neither TABLE's nor GRID's string. */
  datatype ViewType = Table | Grid | Unregistered

  /** What a view renders: both receive the same ordered list. */
  datatype Component = AssetTable(realtokens: seq<Holding>) | AssetGrid(realtokens: seq<Holding>)

  datatype View = View(viewType: ViewType, title: string, component: Component)

  datatype Option<T> = None | Some(value: T)

  /** `availableViews`, in insertion order: the table, then the grid. */
  function AvailableViews(data: seq<Holding>, tableTitle: string, gridTitle: string): seq<View> {
    [View(Table, tableTitle, AssetTable(data)), View(Grid, gridTitle, AssetGrid(data))]
  }

  /** `getViewComponent`: the component of the first view whose type is the
      chosen one, or nothing when no view has that type. */
  function GetViewComponent(views: seq<View>, chosen: ViewType): (r: Option<Component>)
    ensures r == None <==> forall i :: 0 <= i < |views| ==> views[i].viewType != chosen
    ensures r != None ==>
              exists i :: 0 <= i < |views| && views[i].viewType == chosen && r == Some(views[i].component)
                          && forall k :: 0 <= k < i ==> views[k].viewType != chosen
  {
    if views == [] then None
    else if views[0].viewType == chosen then Some(views[0].component)
    else
      var r := GetViewComponent(views[1..], chosen);
      assert forall i :: 1 <= i < |views| ==> views[i] == views[1..][i - 1];
      r
  }

  /** Choosing the table or the grid yields that view over the same list;
      any other choice yields nothing. */
  lemma ViewLookup(data: seq<Holding>, tableTitle: string, gridTitle: string, chosen: ViewType)
    ensures GetViewComponent(AvailableViews(data, tableTitle, gridTitle), chosen) ==
              match chosen
              case Table => Some(AssetTable(data))
              case Grid => Some(AssetGrid(data))
              case Unregistered => None
  {
  }
}
