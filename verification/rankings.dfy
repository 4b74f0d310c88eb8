/**
 * The leaderboard: the search box that narrows the list of top debaters by
 * name or title. The time and category selects are shown but not applied.
 */
module Rankings {
  import Seqs
  import Text

  datatype Debater = Debater(
    id: int,
    name: string,
    title: string,
    avatar: string,
    winRate: nat,
    totalDebates: nat,
    ranking: nat,
    change: string)

  datatype RankingsPage = RankingsPage(
    timeFilter: string,
    categoryFilter: string,
    searchQuery: string,
    topDebaters: seq<Debater>)

  /** The search test of `filteredDebaters`: a case-insensitive hit on name or title. */
  predicate MatchesSearch(d: Debater, query: string) {
    Text.ContainsIgnoringCase(d.name, query) || Text.ContainsIgnoringCase(d.title, query)
  }

  /** `filteredDebaters`: the debaters the search matches, in ranking order. */
  function FilteredDebaters(page: RankingsPage): (r: seq<Debater>)
    ensures forall d :: d in r <==> d in page.topDebaters && MatchesSearch(d, page.searchQuery)
    ensures forall d :: multiset(r)[d] == if MatchesSearch(d, page.searchQuery) then multiset(page.topDebaters)[d] else 0
    ensures Seqs.IsSubsequence(r, page.topDebaters)
  {
    Seqs.FilterMembers(page.topDebaters, (d: Debater) => MatchesSearch(d, page.searchQuery));
    Seqs.FilterMultiset(page.topDebaters, (d: Debater) => MatchesSearch(d, page.searchQuery));
    Seqs.FilterIsSubsequence(page.topDebaters, (d: Debater) => MatchesSearch(d, page.searchQuery));
    Seqs.Filter(page.topDebaters, (d: Debater) => MatchesSearch(d, page.searchQuery))
  }

  /** With an empty search box every debater is listed. */
  lemma EmptyQueryKeepsAll(page: RankingsPage)
    requires page.searchQuery == ""
    ensures FilteredDebaters(page) == page.topDebaters
  {
    forall k | 0 <= k < |page.topDebaters|
      ensures MatchesSearch(page.topDebaters[k], "")
    {
      Text.ContainsIgnoringCaseEmpty(page.topDebaters[k].name);
    }
    Seqs.FilterAllPass(page.topDebaters, (d: Debater) => MatchesSearch(d, page.searchQuery));
  }

  /** A query and its upper-cased form list the same debaters. */
  lemma SearchIgnoresCase(page: RankingsPage)
    ensures FilteredDebaters(page.(searchQuery := Text.ToUpper(page.searchQuery))) == FilteredDebaters(page)
  {
    var q := page.searchQuery;
    forall k | 0 <= k < |page.topDebaters|
      ensures MatchesSearch(page.topDebaters[k], Text.ToUpper(q)) == MatchesSearch(page.topDebaters[k], q)
    {
      Text.ContainsIgnoringCaseUpper(page.topDebaters[k].name, q);
      Text.ContainsIgnoringCaseUpper(page.topDebaters[k].title, q);
    }
    Seqs.FilterCongruent(page.topDebaters, (d: Debater) => MatchesSearch(d, Text.ToUpper(q)),
                         (d: Debater) => MatchesSearch(d, q));
  }

  /**
   * The time and category selects do not change the list. This holds by the
   * definition of `FilteredDebaters`, which never reads those two fields; the
   * lemma records it rather than proving anything beyond it.
   */
  lemma SelectsDoNotFilter(page: RankingsPage, time: string, category: string)
    ensures FilteredDebaters(page.(timeFilter := time, categoryFilter := category)) == FilteredDebaters(page)
  {
  }

  /** Typing more after the query can only narrow the list. */
  lemma TypingNarrowsList(page: RankingsPage, more: string)
    ensures forall d :: d in FilteredDebaters(page.(searchQuery := page.searchQuery + more))
                        ==> d in FilteredDebaters(page)
  {
    forall d | d in FilteredDebaters(page.(searchQuery := page.searchQuery + more))
      ensures d in FilteredDebaters(page)
    {
      if Text.ContainsIgnoringCase(d.name, page.searchQuery + more) {
        LongerQueryNarrows(d.name, page.searchQuery, more);
      } else {
        LongerQueryNarrows(d.title, page.searchQuery, more);
      }
    }
  }

  /** A string that contains a query contains every prefix of it. */
  lemma {:induction false} LongerQueryNarrows(hay: string, query: string, more: string)
    requires Text.ContainsIgnoringCase(hay, query + more)
    ensures Text.ContainsIgnoringCase(hay, query)
  {
    var h := Text.ToLower(hay);
    var q := Text.ToLower(query);
    var qm := Text.ToLower(query + more);
    assert qm[..|q|] == q;
    Text.IncludesIff(h, qm);
    var i :| Text.OccursAt(h, qm, i);
    assert h[i..i + |q|] == qm[..|q|];
    assert Text.OccursAt(h, q, i);
    Text.IncludesIff(h, q);
  }
}
