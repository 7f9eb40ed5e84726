/**
  The bookmark screen's state and the transitions its handlers and effects
  perform, as written. Rendering is reduced to whether the "load more"
  footer is shown; the storage calls are replaced by their results.
 */
module BookmarkPage {
  import opened JsArray
  import opened Places

  /** Number of bookmarks revealed per page. */
  const ItemsPerPage: int := 5

  /** The component's three pieces of React state: the full list, the part
      of it shown so far, and the offset of the next page. */
  datatype State = State(places: seq<Place>, visibleData: seq<Place>, currentIndex: int)

  /** The values the three `useState` hooks start from. */
  const Initial: State := State([], [], 0)

  /** The focus effect once `getBookmarks()` has resolved to `fetched`: when
      the screen is focused, the first page of `fetched` is shown and the
      cursor moves to the second page. The fetched list is bound to a local
      and is never stored in `places`. */
  function OnFocus(s: State, isFocused: bool, fetched: seq<Place>): (r: State)
    ensures r.places == s.places
    ensures isFocused ==> r.visibleData == fetched[..Min(ItemsPerPage, |fetched|)]
    ensures isFocused ==> r.currentIndex == ItemsPerPage
    ensures !isFocused ==> r == s
  {
    if isFocused then
      SlicePrefix(fetched, ItemsPerPage);
      s.(visibleData := Slice(fetched, 0, ItemsPerPage), currentIndex := ItemsPerPage)
    else s
  }

  /** `loadMore`: append the next page of `places` to what is shown and
      advance the cursor by a whole page, however many entries were left. */
  function LoadMore(s: State): (r: State)
    ensures r.places == s.places
    ensures r.currentIndex == s.currentIndex + ItemsPerPage
    ensures s.visibleData <= r.visibleData
    ensures |r.visibleData| <= |s.visibleData| + ItemsPerPage
    ensures 0 <= s.currentIndex ==>
              r.visibleData == s.visibleData
                + s.places[Min(s.currentIndex, |s.places|)..Min(s.currentIndex + ItemsPerPage, |s.places|)]
  {
    var nextData := Slice(s.places, s.currentIndex, s.currentIndex + ItemsPerPage);
    assert 0 <= s.currentIndex ==>
             nextData == s.places[Min(s.currentIndex, |s.places|)..Min(s.currentIndex + ItemsPerPage, |s.places|)] by {
      if 0 <= s.currentIndex {
        SliceInRange(s.places, s.currentIndex, s.currentIndex + ItemsPerPage);
      }
    }
    s.(visibleData := s.visibleData + nextData, currentIndex := s.currentIndex + ItemsPerPage)
  }

  /** The effect that runs whenever `places` changes: a non-empty list
      restarts paging at its first page; an empty one changes nothing. */
  function OnPlacesChanged(s: State): (r: State)
    ensures r.places == s.places
    ensures |s.places| == 0 ==> r == s
    ensures |s.places| > 0 ==> r.visibleData == s.places[..Min(ItemsPerPage, |s.places|)]
    ensures |s.places| > 0 ==> r.currentIndex == ItemsPerPage
  {
    if |s.places| > 0 then
      SlicePrefix(s.places, ItemsPerPage);
      s.(visibleData := Slice(s.places, 0, ItemsPerPage), currentIndex := ItemsPerPage)
    else s
  }

  /** `handleDelete(id)` once `removeBookmark(id)` has resolved: the entries
      carrying `id` leave the shown list, every other entry stays as often
      as it was shown and in its order, and neither `places` nor the cursor is touched. */
  function Delete(s: State, id: PlaceId): (r: State)
    ensures r.places == s.places
    ensures r.currentIndex == s.currentIndex
    ensures IsSubsequence(r.visibleData, s.visibleData)
    ensures forall p :: p in r.visibleData <==> p in s.visibleData && p.id != id
    ensures forall p :: multiset(r.visibleData)[p] == if p.id == id then 0 else multiset(s.visibleData)[p]
    ensures |r.visibleData| + CountId(s.visibleData, id) == |s.visibleData|
  {
    var kept := WithoutId(s.visibleData, id);
    assert forall p :: p in kept <==> p in multiset(kept);
    assert forall p :: p in s.visibleData <==> p in multiset(s.visibleData);
    s.(visibleData := kept)
  }

  /** Deleting an id that no shown bookmark carries changes nothing. */
  lemma DeleteAbsentId(s: State, id: PlaceId)
    requires forall i :: 0 <= i < |s.visibleData| ==> s.visibleData[i].id != id
    ensures Delete(s, id) == s
  {
    WithoutAbsentId(s.visibleData, id);
  }

  /** Deleting the same id twice leaves the state deleting it once does. */
  lemma DeleteIdempotent(s: State, id: PlaceId)
    ensures Delete(Delete(s, id), id) == Delete(s, id)
  {
    WithoutIdIdempotent(s.visibleData, id);
  }

  /** When ids are unique in the shown list, deleting a shown id removes
      exactly one entry. */
  lemma DeleteShownUniqueId(s: State, id: PlaceId)
    requires CountId(s.visibleData, id) == 1
    ensures |Delete(s, id).visibleData| == |s.visibleData| - 1
  {
  }

  /** `renderFooter` returns the "load more" button rather than `null`:
      the cursor has not yet passed the end of `places`, which in
      particular requires `places` to be non-empty when the cursor is. */
  predicate FooterVisible(s: State): (shown: bool)
    ensures shown <==> s.currentIndex < |s.places|
    ensures shown && 0 <= s.currentIndex ==> s.places != []
  {
    !(s.currentIndex >= |s.places|)
  }

  /** The footer is offered exactly when pressing it would reveal at least
      one more bookmark. */
  lemma FooterIffMoreToReveal(s: State)
    requires 0 <= s.currentIndex
    ensures FooterVisible(s) <==> |LoadMore(s).visibleData| > |s.visibleData|
  {
  }

  /** Everything that can happen to the screen. */
  datatype Event =
    | Focus(isFocused: bool, fetched: seq<Place>)   // focus changed; storage returned `fetched`
    | PressLoadMore                                 // `loadMore` invoked
    | PlacesChanged                                 // the `places` effect ran
    | DeleteBookmark(id: PlaceId)                   // a delete resolved

  /** One event applied to the state. The cursor is left alone, set to one
      page, or advanced by one page. */
  function Step(s: State, e: Event): (r: State)
    ensures r.currentIndex == s.currentIndex
         || r.currentIndex == ItemsPerPage
         || r.currentIndex == s.currentIndex + ItemsPerPage
    ensures r.places == s.places
  {
    match e
    case Focus(isFocused, fetched) => OnFocus(s, isFocused, fetched)
    case PressLoadMore => LoadMore(s)
    case PlacesChanged => OnPlacesChanged(s)
    case DeleteBookmark(id) => Delete(s, id)
  }

  /** The state after `events`, in order, starting from `s`. */
  function Run(s: State, events: seq<Event>): State
    decreases |events|
  {
    if events == [] then s else Run(Step(s, events[0]), events[1..])
  }
}
