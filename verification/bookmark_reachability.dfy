/**
  What holds in every state the bookmark screen can reach. Nothing ever
  assigns `places`, so it keeps its initial value `[]`; paging is therefore
  dead: the footer never shows, `loadMore` reveals nothing, the `places`
  effect never passes its guard, and at most one page is ever shown.
 */
module BookmarkReachability {
  import opened JsArray
  import opened Places
  import opened BookmarkPage

  /** The inductive invariant of the screen. */
  predicate Inv(s: State) {
    && s.places == []
    && 0 <= s.currentIndex
    && s.currentIndex % ItemsPerPage == 0
    && |s.visibleData| <= ItemsPerPage
    && (s.currentIndex == 0 ==> s.visibleData == [])
  }

  /** Every event keeps the invariant. */
  lemma StepKeepsInv(s: State, e: Event)
    requires Inv(s)
    ensures Inv(Step(s, e))
  {
  }

  /** Any run of events keeps the invariant. */
  lemma {:induction false} RunKeepsInv(s: State, events: seq<Event>)
    requires Inv(s)
    ensures Inv(Run(s, events))
    decreases |events|
  {
    if events != [] {
      StepKeepsInv(s, events[0]);
      RunKeepsInv(Step(s, events[0]), events[1..]);
    }
  }

  /** Every reachable state satisfies the invariant; in particular `places`
      is still empty and the cursor is a non-negative multiple of the page
      size. */
  lemma ReachableInv(events: seq<Event>)
    ensures Inv(Run(Initial, events))
    ensures Run(Initial, events).places == []
    ensures Run(Initial, events).currentIndex % ItemsPerPage == 0
  {
    RunKeepsInv(Initial, events);
  }

  /** The "load more" footer is never rendered. */
  lemma FooterNeverVisible(events: seq<Event>)
    ensures !FooterVisible(Run(Initial, events))
  {
    ReachableInv(events);
  }

  /** Calling `loadMore` in a reachable state shows nothing new; it only
      moves the cursor. */
  lemma LoadMoreRevealsNothing(events: seq<Event>)
    ensures LoadMore(Run(Initial, events)).visibleData == Run(Initial, events).visibleData
  {
    var s := Run(Initial, events);
    ReachableInv(events);
    assert LoadMore(s).visibleData == s.visibleData + [];
  }

  /** The guard of the `places` effect never holds, so running the effect
      leaves a reachable state as it is. */
  lemma PlacesEffectNeverFires(events: seq<Event>)
    ensures !(|Run(Initial, events).places| > 0)
    ensures OnPlacesChanged(Run(Initial, events)) == Run(Initial, events)
  {
    ReachableInv(events);
  }

  /** No reachable state shows more than one page of bookmarks. */
  lemma AtMostOnePageShown(events: seq<Event>)
    ensures |Run(Initial, events).visibleData| <= ItemsPerPage
  {
    ReachableInv(events);
  }

  /** Seven bookmarks in storage: after focusing and pressing "load more",
      only the first five are shown and the footer stays hidden, so the
      sixth and seventh can never be reached. */
  lemma SeventhBookmarkNeverShown(fetched: seq<Place>, events: seq<Event>)
    requires |fetched| == 7
    ensures Run(Initial, [Focus(true, fetched), PressLoadMore]).visibleData == fetched[..5]
    ensures !FooterVisible(Run(Initial, [Focus(true, fetched)]))
    ensures Run(Initial, events).visibleData != fetched
  {
    var focused := OnFocus(Initial, true, fetched);
    assert Run(Initial, [Focus(true, fetched)]) == focused by {
      assert [Focus(true, fetched)][1..] == [];
    }
    var pressed := LoadMore(focused);
    assert Run(Initial, [Focus(true, fetched), PressLoadMore]) == pressed by {
      assert [Focus(true, fetched), PressLoadMore][1..] == [PressLoadMore];
      assert [PressLoadMore][1..] == [];
    }
    assert pressed.visibleData == focused.visibleData + [];
    AtMostOnePageShown(events);
  }
}
