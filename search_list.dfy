/** The contact search result list: paging, the "no results" title and the
    advanced-filter button (src/legacy/views/search/search-list.jsx). */
module SearchList {
  import opened Wrappers

  /** A contact in the results; only its identity matters here. */
  datatype Contact = Contact(id: string)

  /** The results of a search so far, and whether the server has more. */
  datatype SearchResults = SearchResults(contacts: seq<Contact>, more: bool)

  /** The search query, an opaque value the list only passes back to `search`; its
      identity, which the title effect depends on, is modelled separately as `QueryRef`. */
  type Query = seq<string>

  /** A call `search(query, reset)` to the search function the list is given. */
  datatype SearchCall = SearchCall(query: Query, reset: bool)

  /** The condition under which `loadMore` asks for the next page. */
  predicate HasMore(searchResults: Option<SearchResults>)
  {
    searchResults.Some? && |searchResults.value.contacts| > 0 && searchResults.value.more
  }

  /** `loadMore`: asks for the next page with `search(query, false)`, only when the
      results exist, hold at least one contact and the server has more. */
  method LoadMore(searchResults: Option<SearchResults>, query: Query) returns (call: Option<SearchCall>)
    ensures call.Some? <==> HasMore(searchResults)
    ensures call.Some? ==> call.value == SearchCall(query, false)
  {
    if HasMore(searchResults) {
      call := Some(SearchCall(query, false));
    } else {
      call := None;
    }
  }

  /** `canLoadMore`. */
  function CanLoadMore(loading: bool, searchResults: Option<SearchResults>): (r: bool)
    ensures r <==> !loading && searchResults.Some? && |searchResults.value.contacts| > 0 && searchResults.value.more
    ensures r ==> HasMore(searchResults)
  {
    !loading && HasMore(searchResults)
  }

  /** The effect body: 0 becomes 1 and anything else becomes 0. */
  function NextListIndex(index: int): (next: int)
    ensures next == 0 || next == 1
    ensures next != index || (index != 0 && index != 1)
  {
    if index == 0 then 1 else 0
  }

  /** Two toggles bring a valid index back to where it was. */
  lemma NextListIndexTwice(index: int)
    requires index == 0 || index == 1
    ensures NextListIndex(NextListIndex(index)) == index
  {
  }

  /** The identity of a `query` array. React compares an effect's dependencies with
      `Object.is`, so for the query array it is its identity that counts, not its chips:
      a new array with the same chips is a change, a chip list changed in place is not. */
  type QueryRef = nat

  /** The effect's dependencies: `searchResults?.contacts.length`, a number compared
      by value, and the identity of `query`. */
  datatype Deps = Deps(contactCount: Option<nat>, query: QueryRef)

  function DepsOf(searchResults: Option<SearchResults>, queryRef: QueryRef): Deps
  {
    Deps(if searchResults.Some? then Some(|searchResults.value.contacts|) else None, queryRef)
  }

  /** The state cell `randomListIndex` and the dependencies its effect last ran with. */
  class TitleToggle {
    var randomListIndex: int
    var lastDeps: Option<Deps>

    ghost predicate Valid()
      reads this
    {
      randomListIndex == 0 || randomListIndex == 1
    }

    /** `useState(0)`, before the first render's effect has run. */
    constructor ()
      ensures Valid() && randomListIndex == 0 && lastDeps == None
    {
      randomListIndex, lastDeps := 0, None;
    }

    /** One render with the results and the identity `queryRef` of the query array
        passed in: the effect runs on the first render and whenever a dependency
        differs from the previous render's, and each run flips the index. */
    method Render(searchResults: Option<SearchResults>, queryRef: QueryRef)
      requires Valid()
      modifies this
      ensures Valid()
      ensures lastDeps == Some(DepsOf(searchResults, queryRef))
      ensures old(lastDeps) != lastDeps ==> randomListIndex == 1 - old(randomListIndex)
      ensures old(lastDeps) == lastDeps ==> randomListIndex == old(randomListIndex)
    {
      var deps := DepsOf(searchResults, queryRef);
      if lastDeps != Some(deps) {
        randomListIndex := NextListIndex(randomListIndex);
        lastDeps := Some(deps);
      }
    }
  }

  /** Which text `displayerTitle` holds: none, or the translation of
      'displayer.search_list_title1' or of 'displayer.search_list_title2'. */
  datatype Title = NoTitle | Title1 | Title2

  /** `displayerTitle`: a title only when the results exist and hold no contact;
      index 0 picks the first title, any other index the second. */
  function DisplayerTitle(searchResults: Option<SearchResults>, randomListIndex: int): (t: Title)
    ensures t != NoTitle <==> searchResults.Some? && searchResults.value.contacts == []
    ensures t == Title1 <==> searchResults.Some? && searchResults.value.contacts == [] && randomListIndex == 0
    ensures t == Title2 <==> searchResults.Some? && searchResults.value.contacts == [] && randomListIndex != 0
  {
    if searchResults.Some? && |searchResults.value.contacts| == 0 then
      (if randomListIndex == 0 then Title1 else Title2)
    else NoTitle
  }

  datatype ButtonType = Default | Outlined

  /** The button's label: the plain "Advanced Filters" text, or the
      "{{count}} Advanced Filter(s)" text for a count. */
  datatype FilterLabel = PlainLabel | CountLabel(count: int)

  datatype FilterButton = FilterButton(buttonType: ButtonType, caption: FilterLabel)

  /** The advanced-filter button: its type tests `filterCount > 0`, its label
      `filterCount === 0`. */
  function FilterButtonOf(filterCount: int): (b: FilterButton)
    ensures b.buttonType == Default <==> filterCount > 0
    ensures b.caption == PlainLabel <==> filterCount == 0
    ensures b.caption != PlainLabel ==> b.caption == CountLabel(filterCount)
  {
    FilterButton(
      if filterCount > 0 then Default else Outlined,
      if filterCount == 0 then PlainLabel else CountLabel(filterCount))
  }

  /** For a count of filters (never negative) the two tests agree: the button is
      outlined with the plain label exactly when no filter is set. */
  lemma FilterButtonConsistent(filterCount: nat)
    ensures FilterButtonOf(filterCount).buttonType == Outlined <==> filterCount == 0
    ensures FilterButtonOf(filterCount).buttonType == Outlined <==> FilterButtonOf(filterCount).caption == PlainLabel
  {
  }

  /** The list of results and whether its `onListBottom` handler is attached. */
  datatype ResultsList = ResultsList(items: seq<Contact>, onListBottom: bool)

  /** What the component renders: the loading shimmer, the results list, the
      empty-state message and the filter button. */
  datatype View = View(
    shimmer: bool,
    results: Option<ResultsList>,
    emptyMessage: Option<Title>,
    button: FilterButton)

  function Render(searchResults: Option<SearchResults>, loading: bool, filterCount: int, randomListIndex: int): (v: View)
    ensures v.shimmer == loading
    ensures v.results.Some? <==> searchResults.Some? && |searchResults.value.contacts| > 0 && !loading
    ensures v.results.Some? ==> v.results.value.items == searchResults.value.contacts
    ensures v.results.Some? ==> (v.results.value.onListBottom <==> CanLoadMore(loading, searchResults))
    ensures v.emptyMessage.Some? <==> searchResults.Some? && searchResults.value.contacts == [] && !loading
    ensures v.emptyMessage.Some? ==> v.emptyMessage.value == DisplayerTitle(searchResults, randomListIndex)
    ensures v.button == FilterButtonOf(filterCount)
  {
    var shown := searchResults.Some? && !loading;
    View(
      loading,
      if shown && |searchResults.value.contacts| > 0
      then Some(ResultsList(searchResults.value.contacts, CanLoadMore(loading, searchResults)))
      else None,
      if shown && |searchResults.value.contacts| == 0
      then Some(DisplayerTitle(searchResults, randomListIndex))
      else None,
      FilterButtonOf(filterCount))
  }

  /** The results list and the empty-state message never show together, neither
      shows while loading, and a shown empty-state message always has a title. */
  lemma RenderExclusive(searchResults: Option<SearchResults>, loading: bool, filterCount: int, randomListIndex: int)
    ensures var v := Render(searchResults, loading, filterCount, randomListIndex);
            !(v.results.Some? && v.emptyMessage.Some?)
            && (loading ==> v.results.None? && v.emptyMessage.None?)
            && (v.emptyMessage.Some? ==> v.emptyMessage.value != NoTitle)
  {
  }

  /** Reaching the bottom of a shown list asks for the next page exactly when the
      server has more. */
  lemma ListBottomLoadsMore(searchResults: Option<SearchResults>, loading: bool, filterCount: int, randomListIndex: int)
    requires Render(searchResults, loading, filterCount, randomListIndex).results.Some?
    ensures Render(searchResults, loading, filterCount, randomListIndex).results.value.onListBottom
            <==> searchResults.value.more
    ensures Render(searchResults, loading, filterCount, randomListIndex).results.value.onListBottom
            ==> HasMore(searchResults)
  {
  }
}
