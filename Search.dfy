/** `filterBySearch`: the free-text search over the owned holdings. */
module Search {
  import Text
  import opened Holdings

  /** `search.trim().toLowerCase()`. */
  function CleanQuery(search: string): (r: string)
    ensures r == [] <==> forall k :: 0 <= k < |search| ==> Text.IsWhitespace(search[k])
    ensures forall k :: 0 <= k < |r| ==> !('A' <= r[k] <= 'Z')
  {
    Text.ToLower(Text.Trim(search))
  }

  /** Blanks around a lower-case word do not change the query. */
  lemma CleanQueryPadded(q: string)
    requires q != [] && !Text.IsWhitespace(q[0]) && !Text.IsWhitespace(q[|q| - 1])
    requires forall k :: 0 <= k < |q| ==> !('A' <= q[k] <= 'Z')
    ensures CleanQuery([' '] + q + [' ']) == q
  {
    Text.TrimPadded(q);
    Text.ToLowerKeepsLower(q);
  }

  /** The holding's lower-cased short or full name contains `q`. */
  predicate Matches(h: Holding, q: string) {
    Text.Includes(Text.ToLower(h.shortName), q) || Text.Includes(Text.ToLower(h.fullName), q)
  }

  /** `r` can be obtained from `s` by deleting elements, keeping the order
      of the rest. */
  predicate IsSubsequence<T(==)>(r: seq<T>, s: seq<T>) {
    r == []
    || (s != [] && ((r[0] == s[0] && IsSubsequence(r[1..], s[1..])) || IsSubsequence(r, s[1..])))
  }

  /** `tokens.filter(item => Matches(item, q))`. */
  function KeepMatching(tokens: seq<Holding>, q: string): (r: seq<Holding>)
    ensures IsSubsequence(r, tokens)
    ensures forall k :: 0 <= k < |r| ==> Matches(r[k], q)
    ensures forall h :: multiset(r)[h] == if Matches(h, q) then multiset(tokens)[h] else 0
  {
    if tokens == [] then []
    else
      var rest := KeepMatching(tokens[1..], q);
      assert tokens == [tokens[0]] + tokens[1..];
      if Matches(tokens[0], q) then
        var r := [tokens[0]] + rest;
        assert r[1..] == rest;
        r
      else
        assert rest != [] ==> rest[0] != tokens[0];
        rest
  }

  /** `filterBySearch(realtokens, search)`: with a blank query every holding
      is kept as it is; otherwise exactly the matching holdings are kept,
      each as often as it occurs, in their original order. */
  function FilterBySearch(realtokens: seq<Holding>, search: string): (r: seq<Holding>)
    ensures CleanQuery(search) == [] ==> r == realtokens
    ensures CleanQuery(search) != [] ==>
              && IsSubsequence(r, realtokens)
              && (forall k :: 0 <= k < |r| ==> Matches(r[k], CleanQuery(search)))
              && (forall h :: multiset(r)[h] ==
                    if Matches(h, CleanQuery(search)) then multiset(realtokens)[h] else 0)
  {
    var cleanSearch := CleanQuery(search);
    if cleanSearch == [] then realtokens else KeepMatching(realtokens, cleanSearch)
  }

  /** Every holding that matches the query is in the result, and every
      holding in the result came from the input and matches. */
  lemma FilterBySearchMembers(realtokens: seq<Holding>, search: string, h: Holding)
    requires CleanQuery(search) != []
    ensures h in FilterBySearch(realtokens, search) <==> h in realtokens && Matches(h, CleanQuery(search))
  {
    var r := FilterBySearch(realtokens, search);
    assert h in r <==> multiset(r)[h] > 0;
    assert h in realtokens <==> multiset(realtokens)[h] > 0;
  }
}
