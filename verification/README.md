# Bookmark screen paging and delete, modelled in Dafny

The bookmark screen of the Hodeum mobile app lists the user's bookmarked
places and lets the user delete a bookmark. It is meant to show five at a
time behind a "+ 더보기" ("load more") footer; as written it never shows
more than the first five (see below). Its behaviour lives in three pieces of
React state: `places` (the full list), `visibleData` (the part shown) and
`currentIndex` (the offset of the next page). It also has four handlers:
the focus effect, `loadMore`, the `places` effect and `handleDelete`, plus
the footer's visibility test.

This project lifts that logic out as pure transitions over an immutable
`State(places, visibleData, currentIndex)`:

- `js_array.dfy` (`JsArray`): `Array.prototype.slice` for integer arguments,
  with clamping and negative indices (ECMA-262, section 23.1.3.28).
- `places.dfy` (`Places`): the `Place` record, its number-or-string id, and
  the delete filter `items.filter(item => item.id !== id)` with its
  reference properties.
- `bookmark_page.dfy` (`BookmarkPage`): the state, the transitions as written
  in the component, the footer predicate, and the `Event`/`Step`/`Run`
  state machine.
- `bookmark_reachability.dfy` (`BookmarkReachability`): the inductive
  invariant of every reachable state and its consequences.
- `intended_page.dfy` (`IntendedPage`): the corrected focus effect and the
  paging behaviour it restores (see Findings).

The central fact is that `setPlaces` is declared but never called. The
focus effect puts the fetched list in a local, `place`, so `places` stays
`[]` in every reachable state. As a result the footer never appears,
`loadMore` reveals nothing, the `places` effect never passes its guard, and
at most five bookmarks are ever shown. The model follows the code as
written, and the facts below follow from that:

- With seven bookmarks stored, focus followed by "load more" shows only the
  first five, and the footer stays hidden (`SeventhBookmarkNeverShown`).
  With a focus effect that also stores the fetched list in `places`, the
  footer appears and one press shows all seven (`SevenBookmarksAllShown`).
- With that correction, the shown list after `k` presses is the first
  `min(5(k+1), N)` bookmarks (`PagingRevealsPrefix`). Without it, no press
  shows anything new.
- The cursor can exceed `places.length`: it becomes 5 while `places` is
  `[]`.
- A delete removes every shown entry that carries the id. The shown list
  shrinks by exactly one only when the id occurs once in it
  (`DeleteShownUniqueId`).
- A later `loadMore` cannot bring back a deleted bookmark, because `places`
  is empty.

Storage and focus are parameters. `getBookmarks()` becomes the `fetched`
argument of the focus event. `removeBookmark(id)` is taken as resolved
successfully before the delete transition. `useIsFocused()` becomes the
`isFocused` flag of the focus event. Each handler's one or two state
updates are applied together, as one transition.

## Model

| member | source | states |
|---|---|---|
| JsArray.Slice | src/pages/BookMarkPage.jsx:28 | with `0 <= start <= end`, `slice` has length `min(end,len) - min(start,len)`; for any `start >= 0` its i-th entry is entry `start + i` of the array; a start at or past the end, or a non-negative end at or before the start, gives `[]` |
| JsArray.SliceInRange | src/pages/BookMarkPage.jsx:28 | with `0 <= start <= end`, `slice` is exactly the sub-range between the two clamped bounds |
| JsArray.SlicePrefix | src/pages/BookMarkPage.jsx:37 | `slice(0, n)` is the prefix of length `min(n, len)` |
| Places.WithoutId | src/pages/BookMarkPage.jsx:66 | the filter's result keeps the survivors in their original order, holds every entry whose id differs as often as the input did and no entry with the id, and is shorter by the number of entries that carry the id |
| Places.WithoutAbsentId | src/pages/BookMarkPage.jsx:66 | filtering out an id that no entry carries returns the list unchanged |
| Places.WithoutIdIdempotent | src/pages/BookMarkPage.jsx:66 | filtering the same id out twice equals filtering it once |
| BookmarkPage.OnFocus | src/pages/BookMarkPage.jsx:33-43 | when focused, the shown list becomes the first `min(5, N)` fetched bookmarks and the cursor becomes 5, whatever `N` is; `places` is never changed; when unfocused nothing changes |
| BookmarkPage.LoadMore | src/pages/BookMarkPage.jsx:27-31 | the old shown list stays a prefix; exactly `places[min(ci,P)..min(ci+5,P)]` is appended (at most 5 entries); the cursor grows by exactly 5 even when fewer were appended; `places` is untouched |
| BookmarkPage.OnPlacesChanged | src/pages/BookMarkPage.jsx:45-51 | an empty `places` leaves the state unchanged; a non-empty one shows its first `min(5, P)` entries and sets the cursor to 5 |
| BookmarkPage.Delete | src/pages/BookMarkPage.jsx:64-67 | the shown list keeps exactly the bookmarks whose id differs, each as often as before and in the original order, and is shorter by the number of entries carrying the id; `places` and the cursor are untouched |
| BookmarkPage.DeleteAbsentId | src/pages/BookMarkPage.jsx:66 | deleting an id that no shown bookmark carries leaves the state unchanged |
| BookmarkPage.DeleteIdempotent | src/pages/BookMarkPage.jsx:66 | deleting an id twice gives the same state as deleting it once |
| BookmarkPage.DeleteShownUniqueId | src/pages/BookMarkPage.jsx:66 | when exactly one shown bookmark carries the id, the shown list shrinks by exactly one |
| BookmarkPage.FooterVisible | src/pages/BookMarkPage.jsx:54 | the "load more" button is rendered exactly when `currentIndex < places.length` (the negation of `currentIndex >= places.length`); with a non-negative cursor that needs a non-empty `places` |
| BookmarkPage.FooterIffMoreToReveal | src/pages/BookMarkPage.jsx:53-56 | with a non-negative cursor, the footer is rendered exactly when pressing it would append at least one bookmark |
| BookmarkPage.Step | src/pages/BookMarkPage.jsx:20-51 | no event assigns `places`; the cursor is only ever kept, set to 5, or increased by 5 |
| BookmarkReachability.StepKeepsInv | src/pages/BookMarkPage.jsx:20-67 | every event keeps the invariant: `places == []`, cursor a non-negative multiple of 5, at most 5 shown, nothing shown while the cursor is 0 |
| BookmarkReachability.RunKeepsInv | src/pages/BookMarkPage.jsx:20-67 | any sequence of events keeps that invariant |
| BookmarkReachability.ReachableInv | src/pages/BookMarkPage.jsx:20-22 | every state reachable from the initial hook values satisfies the invariant; `places` is `[]` and the cursor is a multiple of 5 |
| BookmarkReachability.FooterNeverVisible | src/pages/BookMarkPage.jsx:53-56 | in no reachable state is the "load more" footer rendered |
| BookmarkReachability.LoadMoreRevealsNothing | src/pages/BookMarkPage.jsx:27-31 | in every reachable state `loadMore` leaves the shown list unchanged |
| BookmarkReachability.PlacesEffectNeverFires | src/pages/BookMarkPage.jsx:45-51 | in every reachable state the guard `places.length > 0` is false and the effect changes nothing |
| BookmarkReachability.AtMostOnePageShown | src/pages/BookMarkPage.jsx:36-38 | no reachable state shows more than 5 bookmarks |
| BookmarkReachability.SeventhBookmarkNeverShown | src/pages/BookMarkPage.jsx:36 | with 7 bookmarks stored, focus followed by "load more" shows only the first 5; the footer is hidden after focus; no sequence of events ever shows all 7 |
| IntendedPage.OnFocusIntended | src/pages/BookMarkPage.jsx:36-39 | the corrected focus effect stores the fetched list in `places` and shows its first page, with the cursor at 5 |
| IntendedPage.LoadMoreRevealsNextPage | src/pages/BookMarkPage.jsx:27-31 | with the correction, when the first `j` pages of the stored list are shown and the cursor is `5j`, one press shows the first `j + 1` pages and moves the cursor to `5(j+1)` |
| IntendedPage.PagingRevealsPrefix | src/pages/BookMarkPage.jsx:27-56 | with the correction, after focus and `k` presses, the shown list is the first `min(5(k+1), N)` bookmarks; the cursor is `5(k+1)`; the footer is hidden exactly when `5(k+1) >= N` |
| IntendedPage.PlacesEffectAgreesWithFocus | src/pages/BookMarkPage.jsx:45-51 | with the correction, the `places` effect that follows the focus effect changes nothing |
| IntendedPage.SevenBookmarksAllShown | src/pages/BookMarkPage.jsx:33-56 | with the correction and 7 bookmarks, the footer shows after focus, and one press reveals all 7 and hides it |

## Left out

- Rendering: `FlatList`, `ListCard`, `Header`, the empty-state text and the theme styles (`getStyles`). They produce UI only and have no state behaviour. Only the footer's visibility condition is modelled.
- `getBookmarks` and `removeBookmark`: `src/utils/bookMarkStorage` is not part of this model. Their results are parameters, and removal is taken to succeed. A rejected promise leaves the state unchanged in the source, so it needs no transition.
- `useIsFocused`: it appears only as the `isFocused` flag of the focus event.
- Asynchronous interleavings are not modelled. Two focus fetches can overlap, and the last one to resolve wins. A delete can be tapped twice. `loadMore` closes over stale `places` and `currentIndex` across quick presses. Each resolved handler is one atomic step, and events are applied in order.
- React's batching of the one or two `set…` calls inside one handler is not modelled. They are applied together; an intermediate render in between would change no state.
- Ids are integers or strings. Non-integer numbers and `NaN` (for which `!==` is true against itself) are not modelled.
- `currentIndex` is an unbounded integer. JavaScript's double-precision limit would only matter after about 1.8e15 presses.
- `LoadMore` is an event that can fire in any state, not only while the footer is shown. This allows more runs than the UI does, so the reachability invariants hold for the UI as well.
- `JsArray.Slice`: its contract describes only non-negative start indices, the only ones the screen uses. The body also handles negative indices the way JavaScript does.

## Findings

| source | as written | input that shows it | evidently intended | confidence | as-written member | corrected member |
|---|---|---|---|---|---|---|
| src/pages/BookMarkPage.jsx:36 | the fetched list is bound to a local `place` and `setPlaces` is never called, so `places` stays `[]`; the footer never shows and bookmarks past the fifth can never be displayed | 7 stored bookmarks: focus, then "load more"; only the first 5 are ever shown | `setPlaces(place)` in the focus effect, so that "load more" pages through the fetched list five at a time | high; not executed | BookmarkReachability.SeventhBookmarkNeverShown | IntendedPage.PagingRevealsPrefix |
