/** The saved-pins page (app/saved-pins/page.tsx): its state is a loading
    flag and the list of pins. Loading fills the list once from the datastore;
    deleting a pin removes it from the list only when the datastore confirms. */
module SavedPins {
  import opened Values
  import Pins

  type PinData = Pins.PinData

  datatype PageState = PageState(loading: bool, pins: seq<PinData>)

  /** The page as first rendered: loading, with no pins. */
  const Initial: PageState := PageState(true, [])

  /** `loadPins`: the fetched pins replace the list and loading ends. */
  function LoadPins(s: PageState, response: Response<seq<Pins.Row>>): (s': PageState)
    ensures !s'.loading
    ensures response.Error? ==> s'.pins == []
    ensures response.Data? ==> |s'.pins| == |response.value|
    ensures response.Data? ==> forall i :: 0 <= i < |s'.pins| ==> s'.pins[i] == Pins.ToPinData(response.value[i])
  {
    PageState(false, Pins.FetchPins(response))
  }

  /** `curr.filter(p => p.id !== pinId)`. */
  function RemoveById(pins: seq<PinData>, id: string): (r: seq<PinData>)
    ensures |r| <= |pins|
    ensures forall p :: p in r <==> p in pins && p.id != id
  {
    if pins == [] then []
    else if pins[0].id != id then [pins[0]] + RemoveById(pins[1..], id)
    else RemoveById(pins[1..], id)
  }

  /** `a` is `b` with some elements left out, the rest in their order. */
  ghost predicate IsSubsequence<T>(a: seq<T>, b: seq<T>)
    decreases |b|
  {
    if a == [] then true
    else if b == [] then false
    else (a[0] == b[0] && IsSubsequence(a[1..], b[1..])) || IsSubsequence(a, b[1..])
  }

  /** Filtering keeps the surviving pins in their relative order. */
  lemma {:induction false} RemoveByIdKeepsOrder(pins: seq<PinData>, id: string)
    ensures IsSubsequence(RemoveById(pins, id), pins)
  {
    if pins != [] {
      RemoveByIdKeepsOrder(pins[1..], id);
      var r := RemoveById(pins, id);
      if pins[0].id != id {
        assert r[0] == pins[0] && r[1..] == RemoveById(pins[1..], id);
      }
    }
  }

  /** Filtering distributes over concatenation: the pins before and after any
      cut are filtered independently and stay on their side. */
  lemma {:induction false} RemoveByIdAppend(a: seq<PinData>, b: seq<PinData>, id: string)
    ensures RemoveById(a + b, id) == RemoveById(a, id) + RemoveById(b, id)
  {
    if a != [] {
      assert (a + b)[1..] == a[1..] + b;
      RemoveByIdAppend(a[1..], b, id);
    } else {
      assert a + b == b;
    }
  }

  /** Removing an id no pin carries leaves the list as it was, and only then. */
  lemma {:induction false} RemoveAbsent(pins: seq<PinData>, id: string)
    ensures RemoveById(pins, id) == pins <==> forall i :: 0 <= i < |pins| ==> pins[i].id != id
  {
    if pins != [] {
      RemoveAbsent(pins[1..], id);
      if pins[0].id == id {
        assert pins[0] !in RemoveById(pins, id);
      } else {
        assert forall i :: 1 <= i < |pins| ==> pins[i] == pins[1..][i - 1];
      }
    }
  }

  /** Removing the same id twice is removing it once. */
  lemma RemoveTwice(pins: seq<PinData>, id: string)
    ensures RemoveById(RemoveById(pins, id), id) == RemoveById(pins, id)
  {
  }

  /** `handleDeletePin`: the datastore is asked to delete the id; on success
      every pin with that id leaves the list, on failure nothing changes. */
  function HandleDelete(s: PageState, id: string, store: string -> Response<()>): (s': PageState)
    ensures s'.loading == s.loading
    ensures store(id).Error? ==> s' == s
    ensures store(id).Data? ==> s'.pins == RemoveById(s.pins, id)
    ensures |s'.pins| <= |s.pins|
  {
    if Pins.DeletePin(id, store) then s.(pins := RemoveById(s.pins, id)) else s
  }

  /** Deleting an id no pin carries leaves the list as it was, whether or not
      the datastore reports success. */
  lemma HandleDeleteAbsent(s: PageState, id: string, store: string -> Response<()>)
    requires forall i :: 0 <= i < |s.pins| ==> s.pins[i].id != id
    ensures HandleDelete(s, id, store) == s
  {
    RemoveAbsent(s.pins, id);
  }

  /** The page changes on a delete exactly when the datastore reports success
      and some pin carries the id. */
  lemma HandleDeleteChanges(s: PageState, id: string, store: string -> Response<()>)
    ensures HandleDelete(s, id, store) != s <==>
      Pins.DeletePin(id, store) && exists i :: 0 <= i < |s.pins| && s.pins[i].id == id
  {
    RemoveAbsent(s.pins, id);
  }

  /** What a pin's card shows: its image if it has one (a placeholder glyph
      otherwise), its description and coordinates, its date if it has a
      timestamp, and the id its delete button deletes. */
  datatype Card = Card(
    image: Option<string>,
    description: string,
    latitude: real,
    longitude: real,
    date: Option<string>,
    deleteId: string)

  function CardOf(p: PinData): (c: Card)
    ensures c.image.Some? <==> p.imageUrl != ""
    ensures c.image.Some? ==> c.image.value == p.imageUrl
    ensures c.date.Some? <==> p.createdAt != ""
    ensures c.date.Some? ==> c.date.value == p.createdAt
    ensures c.description == p.description && c.deleteId == p.id
    ensures c.latitude == p.latitude && c.longitude == p.longitude
  {
    Card(
      if p.imageUrl != "" then Some(p.imageUrl) else None,
      p.description,
      p.latitude,
      p.longitude,
      if p.createdAt != "" then Some(p.createdAt) else None,
      p.id)
  }

  /** The three things the page can show. */
  datatype View = Loading | EmptyState | Cards(cards: seq<Card>)

  function Render(s: PageState): (v: View)
    ensures v.Loading? <==> s.loading
    ensures v.EmptyState? <==> !s.loading && |s.pins| == 0
    ensures v.Cards? ==> |v.cards| == |s.pins| > 0
    ensures v.Cards? ==> forall i :: 0 <= i < |s.pins| ==> v.cards[i] == CardOf(s.pins[i])
  {
    if s.loading then Loading
    else if |s.pins| == 0 then EmptyState
    else Cards(seq(|s.pins|, i requires 0 <= i < |s.pins| => CardOf(s.pins[i])))
  }

  /** A row's card shows an image exactly when the row has a non-empty
      `image_url`, and then that one. */
  lemma CardImageFromRow(row: Pins.Row)
    ensures CardOf(Pins.ToPinData(row)).image.Some? <==> Truthy(row.imageUrl)
    ensures Truthy(row.imageUrl) ==> CardOf(Pins.ToPinData(row)).image == row.imageUrl
  {
  }

  /** From the first render, loading ends with the empty state after an error,
      and otherwise with one card per fetched row, in the datastore's order. */
  lemma LoadFromInitial(response: Response<seq<Pins.Row>>)
    ensures response.Error? ==> Render(LoadPins(Initial, response)) == EmptyState
    ensures response.Data? && |response.value| == 0 ==> Render(LoadPins(Initial, response)) == EmptyState
    ensures response.Data? && |response.value| > 0 ==>
      Render(LoadPins(Initial, response)).Cards? &&
      forall i :: 0 <= i < |response.value| ==>
        Render(LoadPins(Initial, response)).cards[i] == CardOf(Pins.ToPinData(response.value[i]))
  {
  }
}
