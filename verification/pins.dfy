/** The pin store client (lib/pins.ts): how rows of the hosted `pins` table
    become `PinData`, how a new pin becomes an insert payload, and what each
    of the three remote operations returns when the datastore reports an
    error. The datastore itself is a parameter: a `Response` for the listing,
    and a function from the request to its `Response` for insert and delete. */
module Pins {
  import opened Values
  import opened Colors

  /** A row of the `pins` table as the datastore returns it. `image_url` and
      `color` are nullable text columns. Coordinates are opaque values. */
  datatype Row = Row(
    id: string,
    latitude: real,
    longitude: real,
    description: string,
    imageUrl: Option<string>,
    createdAt: string,
    color: Option<string>)

  /** The in-memory pin. `color` holds whatever text the datastore holds: the
      application types it as a `PinColor` but never checks it. */
  datatype PinData = PinData(
    id: string,
    latitude: real,
    longitude: real,
    description: string,
    imageUrl: string,
    createdAt: string,
    color: string)

  /** The colour a pin gets when the row names none. */
  const DefaultColor: string := Name(Red)

  /** The translation of a row into `PinData`: identity, coordinates,
      description and timestamp are copied; a missing or empty image becomes
      the empty string; a missing or empty colour becomes red. */
  function ToPinData(row: Row): (p: PinData)
    ensures p.id == row.id && p.createdAt == row.createdAt
    ensures p.latitude == row.latitude && p.longitude == row.longitude
    ensures p.description == row.description
    ensures p.imageUrl == "" <==> !Truthy(row.imageUrl)
    ensures row.imageUrl.Some? ==> p.imageUrl == row.imageUrl.value
    ensures Truthy(row.color) ==> p.color == row.color.value
    ensures !Truthy(row.color) ==> p.color == "red"
    ensures p.color != ""
  {
    PinData(
      row.id,
      row.latitude,
      row.longitude,
      row.description,
      OrElse(row.imageUrl, ""),
      row.createdAt,
      OrElse(row.color, DefaultColor))
  }

  /** `data.map(...)` over the rows: one pin per row, in the rows' order. */
  function ToPinDataAll(rows: seq<Row>): (pins: seq<PinData>)
    ensures |pins| == |rows|
    ensures forall i :: 0 <= i < |rows| ==> pins[i] == ToPinData(rows[i])
  {
    if rows == [] then [] else [ToPinData(rows[0])] + ToPinDataAll(rows[1..])
  }

  /** `fetchPins`: the rows the datastore returned (it orders them by
      `created_at`, newest first), or nothing at all on an error. */
  function FetchPins(response: Response<seq<Row>>): (pins: seq<PinData>)
    ensures response.Error? ==> pins == []
    ensures response.Data? ==> |pins| == |response.value|
    ensures response.Data? ==> forall i :: 0 <= i < |pins| ==> pins[i] == ToPinData(response.value[i])
  {
    match response
    case Error(_) => []
    case Data(rows) => ToPinDataAll(rows)
  }

  /** `deletePin`: success exactly when the datastore reports no error. */
  function DeletePin(id: string, store: string -> Response<()>): (ok: bool)
    ensures ok <==> !store(id).Error?
  {
    match store(id)
    case Error(_) => false
    case Data(_) => true
  }

  /** The argument of `createPin`: image and colour are optional. */
  datatype NewPin = NewPin(
    latitude: real,
    longitude: real,
    description: string,
    imageUrl: Option<string>,
    color: Option<PinColor>)

  /** The object handed to the datastore's insert. */
  datatype Insert = Insert(
    latitude: real,
    longitude: real,
    description: string,
    imageUrl: Option<string>,
    color: string)

  /** The insert payload: coordinates and description pass through, an absent
      or empty image is sent as null, an absent colour is sent as red. */
  function InsertPayload(pin: NewPin): (ins: Insert)
    ensures ins.latitude == pin.latitude && ins.longitude == pin.longitude
    ensures ins.description == pin.description
    ensures ins.imageUrl.None? <==> !Truthy(pin.imageUrl)
    ensures ins.imageUrl.Some? ==> ins.imageUrl == pin.imageUrl
    ensures pin.color.None? ==> ins.color == "red"
    ensures pin.color.Some? ==> ins.color == Name(pin.color.value)
  {
    Insert(
      pin.latitude,
      pin.longitude,
      pin.description,
      NullIfEmpty(pin.imageUrl),
      if pin.color.Some? then Name(pin.color.value) else DefaultColor)
  }

  /** `createPin`: the inserted row, translated, or null on an error. */
  function CreatePin(pin: NewPin, store: Insert -> Response<Row>): (r: Option<PinData>)
    ensures r.None? <==> store(InsertPayload(pin)).Error?
    ensures r.Some? ==> r.value == ToPinData(store(InsertPayload(pin)).value)
  {
    match store(InsertPayload(pin))
    case Error(_) => None
    case Data(row) => Some(ToPinData(row))
  }

  /** The row a datastore that keeps what it is sent would hand back, having
      assigned `id` and `createdAt`. */
  function Stored(ins: Insert, id: string, createdAt: string): Row {
    Row(id, ins.latitude, ins.longitude, ins.description, ins.imageUrl, createdAt, Some(ins.color))
  }

  /** Round trip through the datastore: when it stores the payload as sent,
      `createPin` returns the new pin's own coordinates and description, its
      image or the empty string, and its colour or red. */
  lemma CreateRoundTrip(pin: NewPin, store: Insert -> Response<Row>, id: string, createdAt: string)
    requires store(InsertPayload(pin)) == Data(Stored(InsertPayload(pin), id, createdAt))
    ensures CreatePin(pin, store) == Some(PinData(
      id,
      pin.latitude,
      pin.longitude,
      pin.description,
      pin.imageUrl.GetOr(""),
      createdAt,
      Name(pin.color.GetOr(Red))))
  {
  }
}
