/** Markets as the two market pages see them (collections "button_play" and
    "buttons"): the search filter, the display fallback, the statistics and the
    selection that the update dialog works on. */
module Markets {
  import opened Seqs
  import opened Text
  import opened MarketWindow

  /** A market document: its id, and the optional fields the pages read. */
  datatype Market = Market(
    id: string,
    name: Option<string>,
    openTime: Option<string>,
    closeTime: Option<string>,
    number: Option<string>)

  /** The market's title on its card and in the search: `market.name || market.id`. */
  function DisplayName(m: Market): string
  {
    if m.name.Some? && m.name.value != [] then m.name.value else m.id
  }

  /** The search box value as `searchMarkets` uses it: `value.toLowerCase().trim()`. */
  function SearchTerm(input: string): string
  {
    Trim(Lower(input))
  }

  predicate Matches(m: Market, term: string)
  {
    Contains(Lower(DisplayName(m)), term)
  }

  function MatcherFor(term: string): Market -> bool
  {
    (m: Market) => Matches(m, term)
  }

  /** `searchMarkets`: all markets for an empty term, otherwise those whose
      lower-cased title includes the term. */
  function Search(markets: seq<Market>, input: string): (r: seq<Market>)
    ensures SearchTerm(input) == [] ==> r == markets
    ensures SearchTerm(input) != [] ==> forall i :: 0 <= i < |r| ==> Matches(r[i], SearchTerm(input))
  {
    var term := SearchTerm(input);
    if term == [] then markets
    else
      FilterSatisfies(MatcherFor(term), markets);
      Filter(MatcherFor(term), markets)
  }

  /** `displayFilteredMarkets`: the filtered list, or the full list when the
      filtered list is empty. */
  function Displayed(filtered: seq<Market>, all: seq<Market>): (d: seq<Market>)
    ensures d == filtered || d == all
    ensures d == [] <==> filtered == [] && all == []
    ensures IsSubseq(filtered, all) ==> IsSubseq(d, all)
  {
    SubseqRefl(all);
    if |filtered| > 0 then filtered else all
  }

  function OpenAt(now: int): Market -> bool
  {
    (m: Market) => IsMarketOpen(m.openTime, m.closeTime, now)
  }

  function ClosedAt(now: int): Market -> bool
  {
    (m: Market) => !IsMarketOpen(m.openTime, m.closeTime, now)
  }

  datatype MarketStats = MarketStats(total: nat, active: nat, closed: int)

  /** `updateStats`: total, markets open now, and total minus open. */
  function Stats(markets: seq<Market>, now: int): (s: MarketStats)
    ensures s.total == |markets| && s.active + s.closed == s.total
    ensures s.closed == |Filter(ClosedAt(now), markets)|
  {
    FilterPartition(OpenAt(now), ClosedAt(now), markets);
    var total := |markets|;
    var active := |Filter(OpenAt(now), markets)|;
    MarketStats(total, active, total - active)
  }

  /** What `openUpdateModal` records: {id, name, number}. */
  datatype Selection = Selection(id: string, name: string, number: string)

  /** The arguments the card's "Update Number" button passes to
      `openUpdateModal`: the id, the title, and the number or "0" when it is absent. */
  function SelectionFor(m: Market): (s: Selection)
    ensures s.id == m.id && s.name == DisplayName(m)
    ensures m.number.Some? ==> s.number == m.number.value
    ensures m.number.None? ==> s.number == "0"
  {
    Selection(m.id, DisplayName(m), m.number.GetOr("0"))
  }

  function HasId(id: string): Market -> bool
  {
    (m: Market) => m.id == id
  }

  /** The store's merge write `{number: n}` to document `id`. */
  function SetNumber(docs: seq<Market>, id: string, n: string): (r: seq<Market>)
    ensures |r| == |docs|
    ensures forall i :: 0 <= i < |docs| ==>
      r[i] == if docs[i].id == id then docs[i].(number := Some(n)) else docs[i]
  {
    UpdateWhere(docs, HasId(id), (m: Market) => m.(number := Some(n)))
  }

  /** A search box holding only white space filters nothing out. */
  lemma BlankSearchYieldsAll(markets: seq<Market>, input: string)
    requires forall k :: 0 <= k < |input| ==> IsSpace(input[k])
    ensures Search(markets, input) == markets
  {
    LowerKeepsSpaces(input);
    TrimEmptyIff(Lower(input));
  }

  /** The search result keeps the markets in their original order. */
  lemma SearchIsOrderedSubset(markets: seq<Market>, input: string)
    ensures IsSubseq(Search(markets, input), markets)
  {
    var term := SearchTerm(input);
    if term == [] {
      SubseqRefl(markets);
    } else {
      FilterIsSubseq(MatcherFor(term), markets);
    }
  }

  /** A market is in the search result exactly when it is in the list and, for a
      non-empty term, the term occurs somewhere in its lower-cased title; it is
      kept as many times as the list holds it. */
  lemma SearchMembership(markets: seq<Market>, input: string, m: Market)
    ensures var term := SearchTerm(input);
      var keep := term == [] || exists i :: OccursAt(Lower(DisplayName(m)), term, i);
      && (m in Search(markets, input) <==> m in markets && keep)
      && multiset(Search(markets, input))[m] == if keep then multiset(markets)[m] else 0
  {
    var term := SearchTerm(input);
    if term != [] {
      ContainsIff(Lower(DisplayName(m)), term);
      FilterMembership(MatcherFor(term), markets, m);
      FilterCount(MatcherFor(term), markets, m);
    }
  }

  /** A search that matches nothing shows the whole list, not an empty one. */
  lemma NoMatchDisplaysAll(markets: seq<Market>, input: string)
    requires forall i :: 0 <= i < |markets| ==> !Matches(markets[i], SearchTerm(input))
    ensures Displayed(Search(markets, input), markets) == markets
  {
    var term := SearchTerm(input);
    if term != [] {
      FilterNone(MatcherFor(term), markets);
    }
  }

  /** A search that matches some market shows exactly the search result. */
  lemma SomeMatchDisplaysResult(markets: seq<Market>, input: string, k: nat)
    requires k < |markets| && Matches(markets[k], SearchTerm(input))
    ensures Displayed(Search(markets, input), markets) == Search(markets, input)
  {
    var term := SearchTerm(input);
    if term != [] {
      FilterMembership(MatcherFor(term), markets, markets[k]);
    }
  }

  /** The statistics are consistent: open plus closed is the total, and the
      closed count is the number of markets that are not open. */
  lemma StatsConsistent(markets: seq<Market>, now: int)
    ensures var s := Stats(markets, now);
      && s.total == |markets|
      && s.active <= s.total
      && s.active + s.closed == s.total
      && s.closed == |Filter(ClosedAt(now), markets)|
  {
    FilterPartition(OpenAt(now), ClosedAt(now), markets);
  }

  /** Each market open now is counted as active once for every time the list
      holds it, and a market that is not open is not counted at all. */
  lemma StatsCountOpenMarkets(markets: seq<Market>, now: int, m: Market)
    ensures var counted := Filter(OpenAt(now), markets);
      && multiset(counted)[m] == (if IsMarketOpen(m.openTime, m.closeTime, now) then multiset(markets)[m] else 0)
      && (m in counted <==> m in markets && IsMarketOpen(m.openTime, m.closeTime, now))
      && (m in markets && IsMarketOpen(m.openTime, m.closeTime, now) ==> Stats(markets, now).active >= 1)
  {
    FilterCount(OpenAt(now), markets, m);
    FilterMembership(OpenAt(now), markets, m);
  }

  /** The statistics do not depend on the order of the markets, so the sort by
      id that the fetch performs does not affect them. */
  lemma StatsIndependentOfOrder(a: seq<Market>, b: seq<Market>, now: int)
    requires multiset(a) == multiset(b)
    ensures Stats(a, now) == Stats(b, now)
  {
    FilterLengthPermutation(OpenAt(now), a, b);
    assert |a| == |multiset(a)| == |multiset(b)| == |b|;
  }

  /** Writing a market's number changes neither the total nor which markets are open. */
  lemma SetNumberKeepsStats(docs: seq<Market>, id: string, n: string, now: int)
    ensures Stats(SetNumber(docs, id, n), now) == Stats(docs, now)
  {
    FilterLengthUnderUpdate(OpenAt(now), docs, HasId(id), (m: Market) => m.(number := Some(n)));
  }

  /** After the write, reopening the dialog on the updated market shows the new number. */
  lemma SetNumberThenSelect(docs: seq<Market>, id: string, n: string, k: nat)
    requires k < |docs| && docs[k].id == id
    ensures SetNumber(docs, id, n)[k].number == Some(n)
    ensures SelectionFor(SetNumber(docs, id, n)[k]) == Selection(id, DisplayName(docs[k]), n)
  {
  }
}
