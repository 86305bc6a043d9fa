# Asset list of the RealToken dashboard, in Dafny

This project models the asset list of the dashboard's `AssetView` component. The component does three things:

- It filters the owned RealToken holdings by a free-text search (`filterBySearch`).
- It copies the list and sorts the copy in place by the sort key the user chose. Then it reverses the copy in place when the reverse switch is on (the memoised `realtokensData`).
- It picks the component of the chosen view, the table or the grid (`getViewComponent`).

Modules:

- `Text`: the JavaScript string operations the component calls: `trim`, `toLowerCase`, `includes` and `localeCompare`. Each is stated over `seq<char>`, and `localeCompare` is tied to an independent lexicographic order.
- `Holdings`: the holding record and the sort keys. It holds the per-key comparator `Compare` and, for each key, a reference order `InOrder` stated directly on the fields. Lemmas connect the two and show that the comparator is antisymmetric and transitive.
- `Sorting`: `StableSort`, which specifies `Array.prototype.sort` as a stable sort by insertion from the right. It also holds `Reversed`, and the in-place methods `SortInPlace` (insertion sort over an `array`) and `ReverseInPlace` (swaps from both ends). Both methods are proved equal to those specification functions. Further lemmas cover sortedness, permutation, stability (every tie class keeps its order) and the all-ties case.
- `Search`: the query cleaning and the filter, with the subsequence, soundness and completeness properties.
- `AssetView`: the pipeline. `AssetList` is the pipeline as a value. `ComputeAssetList` is the method over an array copy that leaves the caller's array untouched. The module also proves the per-key ordering, permutation, reversal and unknown-key properties, the two concrete search and sort scenarios, and the view lookup.

JavaScript numbers are modelled as exact reals, and a nonzero number divided by zero as a signed infinity. The sort key arrives as a string, so any value other than the ten known keys is the constructor `Other`. The persisted view choice can likewise be any string; one that equals neither the table's nor the grid's value is `Unregistered`.

## Model

| member | source | states |
|---|---|---|
| Text.Trim | src/components/assets/AssetView/AssetView.tsx:31 | the trimmed query starts and ends with a non-blank character, and is empty exactly when the whole input is blank |
| Text.TrimIsSlice | src/components/assets/AssetView/AssetView.tsx:31 | what `trim` keeps is one contiguous slice of the input, and everything it drops on either side is white space |
| Text.TrimPadded | src/components/assets/AssetView/AssetView.tsx:31 | blanks around a word are cut away and the word is kept intact |
| Text.ToLower | src/components/assets/AssetView/AssetView.tsx:31 | lower-casing keeps the length, lowers each character in place and leaves no ASCII capital |
| Text.ToLowerKeepsLower | src/components/assets/AssetView/AssetView.tsx:31 | a string without capitals is unchanged by lower-casing |
| Text.Includes | src/components/assets/AssetView/AssetView.tsx:36-37 | `includes` holds exactly when the query occurs as a contiguous slice at some position |
| Text.Compare | src/components/assets/AssetView/AssetView.tsx:65-67 | `localeCompare` returns -1, 0 or 1, and 0 exactly for equal strings |
| Text.CompareIsLexicographic | src/components/assets/AssetView/AssetView.tsx:65-67 | a non-positive comparison means exactly that the first string is a prefix of the second or is smaller at the first difference |
| Text.CompareAntisymmetric | src/components/assets/AssetView/AssetView.tsx:65-67 | swapping the strings negates the comparison |
| Text.CompareTransitive | src/components/assets/AssetView/AssetView.tsx:65-67 | "sorts no later than" is transitive |
| Holdings.CompareMeansInOrder | src/components/assets/AssetView/AssetView.tsx:55-80 | for every key, the comparator is non-positive exactly when the field order allows `a` first. The numeric keys are non-increasing, and RENT goes by `amount * netRentDayPerToken`. OCCUPANCY lists a holding with rented units but zero total first, then the rest by the rented/total ratio (total positive). NAME and RENTSTART are non-decreasing by string. An unknown key allows every order |
| Holdings.CompareAntisymmetric | src/components/assets/AssetView/AssetView.tsx:55-80 | swapping the two holdings negates the comparator, for every key |
| Holdings.CompareTransitive | src/components/assets/AssetView/AssetView.tsx:55-80 | "may precede" under the comparator is transitive, for every key |
| Holdings.RatioDiffAntisymmetric | src/components/assets/AssetView/AssetView.tsx:77 | the occupancy difference negates when its operands swap, including the infinite and Infinity - Infinity cases |
| Holdings.RatioDiffTransitive | src/components/assets/AssetView/AssetView.tsx:77 | the order read off the occupancy difference is transitive over numbers and both infinities |
| Holdings.NoUnitsComesFirst | src/components/assets/AssetView/AssetView.tsx:76-77 | by OCCUPANCY, the comparator puts a holding with rented units but zero total (ratio +Infinity) strictly before any holding with units |
| Holdings.RatioOrder | src/components/assets/AssetView/AssetView.tsx:77 | with positive totals, comparing the two occupancy ratios is the same as comparing by cross-multiplication |
| Search.CleanQuery | src/components/assets/AssetView/AssetView.tsx:31-32 | the cleaned query is empty exactly when the search is all white space, and holds no capital |
| Search.CleanQueryPadded | src/components/assets/AssetView/AssetView.tsx:31 | blanks around a lower-case word leave the cleaned query equal to the word |
| Search.KeepMatching | src/components/assets/AssetView/AssetView.tsx:34-39 | the filter keeps an order-preserving subsequence; every kept holding matches; every matching holding is kept as often as it occurs, and no other |
| Search.FilterBySearch | src/components/assets/AssetView/AssetView.tsx:30-40 | a blank query returns the input unchanged; otherwise the result is the subsequence of exactly the matching holdings, with their multiplicities |
| Search.FilterBySearchMembers | src/components/assets/AssetView/AssetView.tsx:34-39 | with a non-blank query, a holding is in the result exactly when it is in the input and its lower-cased short or full name contains the query |
| Sorting.InsertPermutes | src/components/assets/AssetView/AssetView.tsx:54 | one insertion step adds the inserted holding and drops nothing |
| Sorting.StableSortPermutes | src/components/assets/AssetView/AssetView.tsx:54 | sorting neither adds nor drops a holding |
| Sorting.InsertSorted | src/components/assets/AssetView/AssetView.tsx:54 | inserting into a sorted list under a consistent comparator keeps it sorted |
| Sorting.SortedSnoc | src/components/assets/AssetView/AssetView.tsx:54 | a holding that may follow every element of a sorted list may be appended to it |
| Sorting.InsertBelow | src/components/assets/AssetView/AssetView.tsx:54 | insertion keeps a bound that the list and the inserted holding respect |
| Sorting.StableSortSorted | src/components/assets/AssetView/AssetView.tsx:54 | the sorted list has the comparator non-positive on every ordered pair |
| Sorting.TiesSnoc | src/components/assets/AssetView/AssetView.tsx:54 | the tie class of an extended list is the old tie class, extended |
| Sorting.TieSwap | src/components/assets/AssetView/AssetView.tsx:54 | two holdings in strict order never both tie with a third, so their tie contributions commute |
| Sorting.InsertKeepsTies | src/components/assets/AssetView/AssetView.tsx:54 | an insertion keeps every tie class in the order of plain appending |
| Sorting.MovePastKeepsTies | src/components/assets/AssetView/AssetView.tsx:54 | moving a holding in front of one that must follow it keeps every tie class in order |
| Sorting.StableSortKeepsTies | src/components/assets/AssetView/AssetView.tsx:54 | the sort is stable: the holdings that tie with any given holding keep their input order |
| Sorting.StableSortAllTies | src/components/assets/AssetView/AssetView.tsx:78-79 | a comparator that is always zero leaves the list unchanged |
| Sorting.SortInPlace | src/components/assets/AssetView/AssetView.tsx:54 | after `result.sort(cmp)` the array holds the stable sort of its old contents |
| Sorting.StableSortPrefix | src/components/assets/AssetView/AssetView.tsx:54 | sorting one more prefix element is one insertion into the sorted shorter prefix |
| Sorting.InsertAt | src/components/assets/AssetView/AssetView.tsx:54 | one outer step of insertion sort turns the first `i + 1` places into the insertion of `a[i]` into the sorted prefix, and leaves the rest as it was |
| Sorting.ShiftPast | src/components/assets/AssetView/AssetView.tsx:54 | the inner loop shifts right exactly the trailing run of prefix elements that must follow the moving holding, and stops behind one it may follow |
| Sorting.Placed | src/components/assets/AssetView/AssetView.tsx:54 | writing the moving holding into the gap yields the insertion, and the tail is untouched |
| Sorting.Spliced | src/components/assets/AssetView/AssetView.tsx:54 | a list agreeing with `t` before a gap, holding `x` in the gap and `t` shifted after it, is `t` with `x` spliced in |
| Sorting.InsertLands | src/components/assets/AssetView/AssetView.tsx:54 | insertion places the holding right behind the last element it may follow, when all later ones must follow it |
| Sorting.Reversed | src/components/assets/AssetView/AssetView.tsx:83-85 | the reversal has the same length and holds at each index the mirrored element |
| Sorting.ReversedTwice | src/components/assets/AssetView/AssetView.tsx:83-85 | reversing twice gives back the list |
| Sorting.ReversedPermutes | src/components/assets/AssetView/AssetView.tsx:83-85 | reversing neither adds nor drops an element |
| Sorting.ReversedByIndex | src/components/assets/AssetView/AssetView.tsx:84 | a list that mirrors another index by index is its reversal |
| Sorting.ReverseInPlace | src/components/assets/AssetView/AssetView.tsx:84 | after `result.reverse()` the array holds its old contents reversed |
| AssetView.SortComparatorConsistent | src/components/assets/AssetView/AssetView.tsx:54-80 | the comparator handed to `sort` is antisymmetric and transitive for every key, including an unknown one |
| AssetView.ComputeAssetList | src/components/assets/AssetView/AssetView.tsx:52-88 | the memoised computation returns a fresh array holding the filtered, sorted and possibly reversed list, and leaves the caller's holdings unchanged |
| AssetView.SortAndOrient | src/components/assets/AssetView/AssetView.tsx:54-85 | the in-place tail sorts the array and then reverses it exactly when the switch is on |
| AssetView.AssetListPermutes | src/components/assets/AssetView/AssetView.tsx:53-85 | the list shown is a permutation of the filtered holdings |
| AssetView.AssetListOrdered | src/components/assets/AssetView/AssetView.tsx:55-85 | the list follows the key's field order on every pair without reversal, and the opposite order with it (for example VALUE non-decreasing and NAME non-increasing) |
| AssetView.ComparableKept | src/components/assets/AssetView/AssetView.tsx:54 | sorting keeps every holding comparable under the key, because it only permutes them |
| AssetView.SortedMeansInOrder | src/components/assets/AssetView/AssetView.tsx:55-80 | a list sorted by the key's comparator follows the key's field order on every ordered pair |
| AssetView.AssetListReversal | src/components/assets/AssetView/AssetView.tsx:83-85 | the reversed list is exactly the unreversed sorted list read back to front, and the other way round |
| AssetView.AssetListUnknownKey | src/components/assets/AssetView/AssetView.tsx:78-85 | with an unknown key the list is the filtered list, reversed when the switch is on |
| AssetView.UnknownKeyKeepsOrder | src/components/assets/AssetView/AssetView.tsx:78-79 | the unknown-key comparator leaves any list in its order |
| AssetView.AssetListStable | src/components/assets/AssetView/AssetView.tsx:54-81 | holdings that tie under the key keep their filtered order |
| AssetView.ScenarioValueSort | src/components/assets/AssetView/AssetView.tsx:52-88 | AA (value 100) and BB (value 50) with a blank search list as AA, BB by VALUE, and as BB, AA when reversed |
| AssetView.TwoByValue | src/components/assets/AssetView/AssetView.tsx:56-85 | with a blank search, two holdings of different value list highest first, or lowest first when reversed |
| AssetView.NoUnitsFirst | src/components/assets/AssetView/AssetView.tsx:76-85 | by OCCUPANCY, a holding with rented units and zero total (ratio +Infinity) is listed before one with units, and after it when reversed |
| AssetView.SortTwo | src/components/assets/AssetView/AssetView.tsx:54 | two holdings already in comparator order stay in place |
| AssetView.ScenarioSearch | src/components/assets/AssetView/AssetView.tsx:30-40 | searching " aa " over AA and BB keeps AA only |
| AssetView.ScenarioQuery | src/components/assets/AssetView/AssetView.tsx:31 | the query " aa " cleans to "aa" |
| AssetView.ScenarioMatches | src/components/assets/AssetView/AssetView.tsx:35-38 | AA matches "aa" and BB does not |
| AssetView.KeepFirstOnly | src/components/assets/AssetView/AssetView.tsx:34-39 | filtering a matching and a non-matching holding keeps the first alone |
| AssetView.GetViewComponent | src/components/assets/AssetView/AssetView.tsx:131-135 | the lookup yields nothing exactly when no view has the chosen type; otherwise it yields the component of the first view that has it |
| AssetView.ViewLookup | src/components/assets/AssetView/AssetView.tsx:103-135 | over the two registered views, choosing TABLE yields the table over the list, GRID the grid over the same list, and any other value nothing |

## Left out

- `src/components/cards/main/SummaryCard.tsx` is not part of this model. It is a display card whose only computation is one floating-point sum next to an asynchronous fetch.
- `src/types/Currencies.ts` is not part of this model. It holds two string enums with no behaviour.
- React state, jotai atoms, translations, Mantine components and JSX rendering are left out. The sort key, reverse switch, search text and chosen view become plain parameters. The view titles are opaque strings.
- Memoisation by dependency identity (`useMemo`) is left out. The model recomputes the list from its inputs.
- The `sortOptions` and `datas` label lists (lines 90-101 and 124-129) only feed selects and are left out.
- Holdings.OccupancyRate: `0 / 0` is NaN in JavaScript. The comparator then returns NaN, which `sort` reads as a tie with every holding, and that is inconsistent. The model takes this ratio to be 0, so such a holding sorts as unoccupied. A zero total with nonzero rented units is modelled exactly, as a signed infinity. Holdings.Compare represents an infinite comparator result by 1 or -1, because `sort` reads only its sign.
- Holdings.CompareMeansInOrder and AssetView.AssetListOrdered are stated only when every holding has a positive total, or a zero total with positive rented units, under OCCUPANCY. Negative counts are outside them.
- JavaScript numbers are modelled as exact reals. IEEE rounding of the numeric differences and products is not modelled.
- Text.ToLower lowers ASCII capitals only. Other Unicode case mappings are not modelled.
- Text.Compare models `localeCompare` as ordinal comparison of characters. Locale collation is not modelled.
- Text.Trim strips the ECMAScript white-space and line-terminator code points, which is what `trim` does. Strings are sequences of characters, not UTF-16 code units.
- Sorting.SortInPlace: the engine's own sorting algorithm is replaced by a stable insertion sort. Any stable sort gives the same result for a consistent comparator, but the number and order of comparator calls is not modelled.
- AssetView.GetViewComponent returns the component value instead of a rendered React element. `AssetViewType`'s string values are replaced by the `ViewType` constructors.
