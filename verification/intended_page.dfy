/**
  The bookmark screen as its paging was evidently meant to work: the focus
  effect also stores the fetched list in `places` (the `setPlaces` call the
  component declares but never makes). Everything else is the component's
  own transitions, unchanged.
 */
module IntendedPage {
  import opened JsArray
  import opened Places
  import opened BookmarkPage

  /** The focus effect with the fetched list kept as the full list. */
  function OnFocusIntended(s: State, isFocused: bool, fetched: seq<Place>): (r: State)
    ensures isFocused ==> r.places == fetched
    ensures isFocused ==> r.visibleData == fetched[..Min(ItemsPerPage, |fetched|)]
    ensures isFocused ==> r.currentIndex == ItemsPerPage
    ensures !isFocused ==> r == s
  {
    if isFocused then OnFocus(s, isFocused, fetched).(places := fetched) else s
  }

  /** One event applied with the corrected focus effect. */
  function IntendedStep(s: State, e: Event): State {
    match e
    case Focus(isFocused, fetched) => OnFocusIntended(s, isFocused, fetched)
    case PressLoadMore => LoadMore(s)
    case PlacesChanged => OnPlacesChanged(s)
    case DeleteBookmark(id) => Delete(s, id)
  }

  /** `loadMore` pressed `k` times in a row. */
  function LoadMoreTimes(s: State, k: nat): State
    decreases k
  {
    if k == 0 then s else LoadMore(LoadMoreTimes(s, k - 1))
  }

  /** The state after `j` pages of `fetched` have been revealed. */
  predicate ShowsPages(t: State, fetched: seq<Place>, j: nat) {
    && t.places == fetched
    && t.currentIndex == ItemsPerPage * j
    && t.visibleData == fetched[..Min(ItemsPerPage * j, |fetched|)]
  }

  /** With the list stored, one press of "load more" reveals the next page. */
  lemma LoadMoreRevealsNextPage(t: State, fetched: seq<Place>, j: nat)
    requires ShowsPages(t, fetched, j)
    ensures ShowsPages(LoadMore(t), fetched, j + 1)
  {
  }

  /** After focusing on a list of `N` bookmarks and pressing "load more" `k`
      times, the first `min(5 * (k + 1), N)` bookmarks are shown in order,
      and the footer is hidden exactly when that covers the whole list. */
  lemma {:induction false} PagingRevealsPrefix(s: State, fetched: seq<Place>, k: nat)
    ensures LoadMoreTimes(OnFocusIntended(s, true, fetched), k).places == fetched
    ensures LoadMoreTimes(OnFocusIntended(s, true, fetched), k).currentIndex == ItemsPerPage * (k + 1)
    ensures LoadMoreTimes(OnFocusIntended(s, true, fetched), k).visibleData
            == fetched[..Min(ItemsPerPage * (k + 1), |fetched|)]
    ensures !FooterVisible(LoadMoreTimes(OnFocusIntended(s, true, fetched), k))
            <==> ItemsPerPage * (k + 1) >= |fetched|
  {
    if k > 0 {
      PagingRevealsPrefix(s, fetched, k - 1);
      var before := LoadMoreTimes(OnFocusIntended(s, true, fetched), k - 1);
      assert LoadMoreTimes(OnFocusIntended(s, true, fetched), k) == LoadMore(before);
      LoadMoreRevealsNextPage(before, fetched, k);
    }
  }

  /** With the list stored, the `places` effect that follows the focus
      effect re-derives the same first page and changes nothing. */
  lemma PlacesEffectAgreesWithFocus(s: State, fetched: seq<Place>)
    ensures OnPlacesChanged(OnFocusIntended(s, true, fetched)) == OnFocusIntended(s, true, fetched)
  {
  }

  /** Seven bookmarks in storage: after focusing the footer is shown, and
      one press of "load more" reveals all seven and hides it. */
  lemma SevenBookmarksAllShown(fetched: seq<Place>)
    requires |fetched| == 7
    ensures FooterVisible(IntendedStep(Initial, Focus(true, fetched)))
    ensures IntendedStep(IntendedStep(Initial, Focus(true, fetched)), PressLoadMore).visibleData == fetched
    ensures !FooterVisible(IntendedStep(IntendedStep(Initial, Focus(true, fetched)), PressLoadMore))
  {
    PagingRevealsPrefix(Initial, fetched, 1);
    assert fetched[..7] == fetched;
  }
}
