/** The page state shared by starline-management.js and
    main-market-management.js: the fetched markets, the search result, and the
    market whose number the update dialog edits. The two pages differ only in
    the collection they read and write, chosen by `kind`. */
module MarketPages {
  import opened Seqs
  import opened Markets
  import opened Store

  /** Starline reads "button_play"; the main markets page reads "buttons". */
  datatype MarketKind = Starline | MainMarket

  class MarketPage {
    const store: DocumentStore
    const kind: MarketKind
    /** `starlineMarkets` / `mainMarkets`. */
    var markets: seq<Market>
    /** `filteredMarkets`. */
    var filtered: seq<Market>
    /** `currentUpdateMarket`; None is `null`. */
    var current: Option<Selection>

    /** The search result is always drawn, in order, from the fetched markets. */
    ghost predicate Valid()
      reads this
    {
      IsSubseq(filtered, markets)
    }

    /** The page's collection in the store. */
    function Collection(): seq<Market>
      reads this, store
    {
      if kind == Starline then store.buttonPlay else store.buttons
    }

    /** The list the page draws (`displayFilteredMarkets`): always drawn, in
        order, from the fetched markets, and never empty while markets exist. */
    function Shown(): (s: seq<Market>)
      reads this
      ensures Valid() ==> IsSubseq(s, markets)
      ensures |markets| > 0 ==> |s| > 0
      ensures |filtered| > 0 ==> s == filtered
    {
      Displayed(filtered, markets)
    }

    /** The figures `updateStats` writes, with `now` the clock reading. */
    function CurrentStats(now: int): (s: MarketStats)
      reads this
      ensures s.total == |markets| && s.active + s.closed == s.total
    {
      Stats(markets, now)
    }

    constructor(store: DocumentStore, kind: MarketKind)
      ensures this.store == store && this.kind == kind
      ensures markets == [] && filtered == [] && current == None
      ensures Valid()
    {
      this.store := store;
      this.kind := kind;
      markets := [];
      filtered := [];
      current := None;
    }

    /** `fetchStarlineMarkets` / `fetchMainMarkets`: a failing read leaves the
        page as it was; otherwise every document of the collection is pushed in
        turn and the search is reset to the whole list. */
    method Fetch(fails: bool)
      requires Valid()
      modifies this
      ensures Valid()
      ensures fails ==> markets == old(markets) && filtered == old(filtered)
      ensures !fails ==> markets == Collection() && filtered == markets
      ensures current == old(current)
    {
      if fails {
        return;
      }
      var docs := Collection();
      var loaded: seq<Market> := [];
      var i := 0;
      while i < |docs|
        invariant 0 <= i <= |docs|
        invariant loaded == docs[..i]
      {
        loaded := loaded + [docs[i]];
        i := i + 1;
      }
      assert docs[..|docs|] == docs;
      markets := loaded;
      filtered := loaded;
      SubseqRefl(loaded);
    }

    /** `searchMarkets`, with `input` the search box's value. */
    method SearchMarkets(input: string)
      requires Valid()
      modifies this
      ensures Valid()
      ensures filtered == Search(markets, input)
      ensures markets == old(markets) && current == old(current)
    {
      filtered := Search(markets, input);
      SearchIsOrderedSubset(markets, input);
    }

    /** `clearSearch`: the whole list again. */
    method ClearSearch()
      requires Valid()
      modifies this
      ensures Valid()
      ensures filtered == markets
      ensures markets == old(markets) && current == old(current)
    {
      filtered := markets;
      SubseqRefl(markets);
    }

    /** `openUpdateModal(id, name, number)`. */
    method OpenUpdateModal(id: string, name: string, number: string)
      modifies this
      ensures current == Some(Selection(id, name, number))
      ensures markets == old(markets) && filtered == old(filtered)
    {
      current := Some(Selection(id, name, number));
    }

    /** `closeUpdateModal`. */
    method CloseUpdateModal()
      modifies this
      ensures current == None
      ensures markets == old(markets) && filtered == old(filtered)
    {
      current := None;
    }

    /** `updateMarketNumber`, with `newNumber` the dialog's input. Without a
        selection, or when the write fails (a failing store, or no document with
        the selected id), the error is swallowed and nothing changes. Otherwise
        the number is written, the dialog closes and the page fetches again. */
    method UpdateMarketNumber(newNumber: string, writeFails: bool, refreshFails: bool)
      requires Valid()
      modifies this, store
      ensures Valid()
      ensures var sel := old(current);
        var written := sel.Some? && !writeFails && Find(old(Collection()), HasId(sel.value.id)).Some?;
        && (written ==>
              && Collection() == SetNumber(old(Collection()), sel.value.id, newNumber)
              && current == None
              && (refreshFails ==> markets == old(markets) && filtered == old(filtered))
              && (!refreshFails ==> markets == Collection() && filtered == markets))
        && (!written ==>
              Collection() == old(Collection()) && current == old(current)
              && markets == old(markets) && filtered == old(filtered))
      ensures kind == Starline ==> store.buttons == old(store.buttons)
      ensures kind == MainMarket ==> store.buttonPlay == old(store.buttonPlay)
      ensures store.addMoneyRequests == old(store.addMoneyRequests)
      ensures store.withdrawalRequests == old(store.withdrawalRequests)
      ensures store.users == old(store.users)
    {
      if current.None? {
        return;
      }
      var id := current.value.id;
      if writeFails || Find(Collection(), HasId(id)).None? {
        return;
      }
      if kind == Starline {
        store.buttonPlay := SetNumber(store.buttonPlay, id, newNumber);
      } else {
        store.buttons := SetNumber(store.buttons, id, newNumber);
      }
      CloseUpdateModal();
      Fetch(refreshFails);
    }
  }
}
