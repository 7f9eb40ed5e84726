/**
  Bookmarked places and the filter the screen uses to drop one of them from
  the list it shows.
 */
module Places {

  /** A bookmark id is a JavaScript number (an integer here) or a string.
      Strict inequality `!==` on these is inequality of this datatype: values
      of different kinds are never equal. */
  datatype PlaceId = NumberId(n: int) | StringId(s: string)

  /** A bookmarked place. Only `id` matters to the screen; the display
      fields are carried along untouched. */
  datatype Place = Place(id: PlaceId, name: string, address: string)

  /** Number of entries of `items` whose id is `id`. */
  function CountId(items: seq<Place>, id: PlaceId): nat
  {
    if items == [] then 0
    else (if items[0].id == id then 1 else 0) + CountId(items[1..], id)
  }

  /** `a` can be obtained from `b` by deleting entries: the entries of `a`
      occur in `b` in the same relative order. */
  predicate IsSubsequence(a: seq<Place>, b: seq<Place>)
    decreases |b|
  {
    if a == [] then true
    else if b == [] then false
    else if a[0] == b[0] then IsSubsequence(a[1..], b[1..])
    else IsSubsequence(a, b[1..])
  }

  /** `items.filter(item => item.id !== id)`. */
  function WithoutId(items: seq<Place>, id: PlaceId): (r: seq<Place>)
    ensures IsSubsequence(r, items)
    ensures forall p :: multiset(r)[p] == if p.id == id then 0 else multiset(items)[p]
    ensures |r| + CountId(items, id) == |items|
  {
    if items == [] then []
    else
      var rest := WithoutId(items[1..], id);
      assert multiset(items) == multiset{items[0]} + multiset(items[1..]) by {
        assert items == [items[0]] + items[1..];
      }
      if items[0].id != id then
        var r := [items[0]] + rest;
        assert r[1..] == rest;
        r
      else rest
  }

  /** Filtering out an id that no entry carries changes nothing. */
  lemma {:induction false} WithoutAbsentId(items: seq<Place>, id: PlaceId)
    requires forall i :: 0 <= i < |items| ==> items[i].id != id
    ensures WithoutId(items, id) == items
  {
    if items != [] {
      WithoutAbsentId(items[1..], id);
      assert [items[0]] + items[1..] == items;
    }
  }

  /** Filtering out the same id twice is filtering it out once. */
  lemma WithoutIdIdempotent(items: seq<Place>, id: PlaceId)
    ensures WithoutId(WithoutId(items, id), id) == WithoutId(items, id)
  {
    var once := WithoutId(items, id);
    forall i | 0 <= i < |once|
      ensures once[i].id != id
    {
      assert once[i] in multiset(once);
    }
    WithoutAbsentId(once, id);
  }
}
