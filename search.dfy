/**
 * The search box of the list pages: an item stays when its text, lower-cased,
 * contains the lower-cased search term.
 */
module Search {
  import Text
  import Lists

  /** The test an item must pass to stay in the list. */
  function Matcher<T>(key: T -> string, term: string): T -> bool {
    x => Text.MatchesTerm(key(x), term)
  }

  /**
   * `xs.filter(x => key(x).toLowerCase().includes(term.toLowerCase()))`: the
   * matching items in their original order, each as often as it occurs in
   * `xs`; the empty term keeps every item, and the result is empty exactly when
   * no item matches.
   */
  function Matching<T(!new)>(xs: seq<T>, key: T -> string, term: string): (r: seq<T>)
    ensures forall x :: x in r <==> x in xs && Text.MatchesTerm(key(x), term)
    ensures Lists.IsSubsequence(r, xs)
    ensures forall x :: x in xs ==> multiset(r)[x] == if Text.MatchesTerm(key(x), term) then multiset(xs)[x] else 0
    ensures term == "" ==> r == xs
    ensures r == [] <==> forall x :: x in xs ==> !Text.MatchesTerm(key(x), term)
  {
    FilterFacts(xs, key, term);
    Lists.Filter(xs, Matcher(key, term))
  }

  lemma FilterFacts<T>(xs: seq<T>, key: T -> string, term: string)
    ensures forall x :: x in Lists.Filter(xs, Matcher(key, term)) <==> x in xs && Text.MatchesTerm(key(x), term)
    ensures Lists.IsSubsequence(Lists.Filter(xs, Matcher(key, term)), xs)
    ensures forall x :: x in xs ==>
      multiset(Lists.Filter(xs, Matcher(key, term)))[x] == if Text.MatchesTerm(key(x), term) then multiset(xs)[x] else 0
    ensures term == "" ==> Lists.Filter(xs, Matcher(key, term)) == xs
  {
    var keep := Matcher(key, term);
    Lists.FilterMembers(xs, keep);
    Lists.FilterIsSubsequence(xs, keep);
    if term == "" {
      forall x | x in xs
        ensures keep(x)
      {
        Text.EmptyTermMatches(key(x));
      }
      Lists.FilterAll(xs, keep);
    }
  }
}
