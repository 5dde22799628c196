# Pin map: a Dafny model of its pin logic

The application lets a user drop pins on a world map and browse the saved
ones in a list. It is a thin client over a hosted datastore (a `pins` table)
and a map SDK. This project models the pure logic between those calls:

- **Colors** (`colors.dfy`): the closed `PinColor` enumeration and the
  `PIN_COLORS` table of value, label and hex code.
- **Pins** (`pins.dfy`): the store client of `lib/pins.ts`. It translates a
  datastore row (nullable `image_url` and `color`) into `PinData`, and a new
  pin into an insert payload. It also fixes what `fetchPins`, `createPin` and
  `deletePin` return when the datastore reports an error: `[]`, `null` and
  `false`.
- **SavedPins** (`saved_pins.dfy`): the saved-pins page. It covers the load
  transition, delete-by-id after a confirmed remote delete, and the choice
  between the loading, empty and card views.
- **Marker** (`marker.dfy`): the marker component. The colour prop defaults
  to red and is looked up in the table, with a hard-coded hex as fallback.
- **MapPage** (`map_page.dfy`): the map page, where each click appends one
  point and every marker is drawn without a colour prop.
- **Values** (`values.dfy`): `Option`, the datastore `Response`, and
  JavaScript's `||` on nullable strings.

The datastore is a parameter. A listing takes the `Response` it got, and an
insert or delete takes a function from the request sent to the `Response`
returned. Coordinates are opaque `real` values: no arithmetic is done on
them.

The colour column is nullable text. The code types it as `PinColor` but never
checks it, so `PinData.color` is modelled as the text the datastore holds.
`|| "red"` turns both null and the empty string into `"red"`. A colour outside
the enumeration is passed through unchanged. If such a text were given to the
marker, the lookup would find nothing and the fallback hex would be drawn
(`Marker.ColorHexOfUnknown`); that fallback is red's own hex. No page here
passes a pin's colour to the marker: the map page draws `<Pin />` with no
colour prop, and the saved-pins page draws no marker.

## Model

| member | source | states |
|---|---|---|
| `Colors.TableDistinct` | lib/pins.ts:5-12 | the table has exactly six entries and no colour appears in two of them |
| `Colors.TableCovers` | lib/pins.ts:3-12 | every colour of the enumeration appears in the table |
| `Colors.TableHexes` | lib/pins.ts:6-11 | each entry's hex is non-empty, and reading the table by position or by colour gives the same hex |
| `Colors.IndexOf` | lib/pins.ts:5-12 | every colour has a position in the table holding that colour |
| `Colors.NameInjective` | lib/pins.ts:3 | distinct colours have distinct texts, so a colour text identifies at most one colour |
| `Values.OrElse` | lib/pins.ts:40 | JavaScript's or-operator on a nullable string and a fallback: the value when present and non-empty, the fallback when null or empty |
| `Values.NullIfEmpty` | lib/pins.ts:70 | the or-operator with `null` on a nullable string: null exactly when the value is null or empty, the value unchanged otherwise |
| `Values.OrElseAfterNullIfEmpty` | lib/pins.ts:70-86 | or-ing a value with `null` and then with a fallback equals or-ing it with the fallback: sending an empty image as null and reading it back as `""` loses nothing |
| `Pins.ToPinData` | lib/pins.ts:35-43 | a row keeps its id, coordinates, description and timestamp; its image becomes `""` exactly when it is null or empty and is kept otherwise; a null or empty colour becomes `"red"` and any other is kept |
| `Pins.ToPinDataAll` | lib/pins.ts:35 | one pin per row, each the translation of the row at the same position |
| `Pins.FetchPins` | lib/pins.ts:24-44 | an error yields the empty list; otherwise one pin per row, in the datastore's order |
| `Pins.DeletePin` | lib/pins.ts:46-55 | the result is `true` exactly when the datastore reports no error for that id |
| `Pins.InsertPayload` | lib/pins.ts:66-72 | coordinates and description pass through; an absent or empty image is sent as null, any other unchanged; an absent colour is sent as `"red"`, a given one as its text |
| `Pins.CreatePin` | lib/pins.ts:57-90 | the result is null exactly when the datastore reports an error for the payload; otherwise it is the returned row, translated |
| `Pins.CreateRoundTrip` | lib/pins.ts:64-89 | when the datastore stores the payload as sent, the returned pin has the new pin's coordinates and description, its image or `""`, its colour or red, and the assigned id and timestamp |
| `Marker.Find` | components/pin.tsx:8 | `find` returns nothing exactly when no entry has the colour, and otherwise the first entry that has it |
| `Marker.ColorHex` | components/pin.tsx:7-8 | the hex is always one of the table's hex codes; with no colour prop it is red's |
| `Marker.FindColor` | components/pin.tsx:8 | for an enumerated colour the lookup finds the one entry of that colour |
| `Marker.ColorHexOfPinColor` | components/pin.tsx:8 | an enumerated colour is drawn with its table hex, and the fallback is not reached |
| `Marker.ColorHexOfUnknown` | components/pin.tsx:8 | a colour text outside the enumeration is drawn with the fallback, which equals red's table hex |
| `SavedPins.LoadPins` | app/saved-pins/page.tsx:13-17 | loading ends; the list is empty after an error and holds one pin per fetched row, in order, otherwise |
| `SavedPins.LoadFromInitial` | app/saved-pins/page.tsx:9-19 | from the loading state with no pins, a load shows the empty state after an error or an empty result, and otherwise one card per row, in order |
| `SavedPins.RemoveById` | app/saved-pins/page.tsx:24 | the list never grows; a pin survives exactly when it was there and its id differs from the deleted one |
| `SavedPins.RemoveByIdKeepsOrder` | app/saved-pins/page.tsx:24 | the survivors are a subsequence of the old list: their relative order is kept |
| `SavedPins.RemoveByIdAppend` | app/saved-pins/page.tsx:24 | filtering a concatenation filters each part in place |
| `SavedPins.RemoveAbsent` | app/saved-pins/page.tsx:24 | the list is unchanged exactly when no pin carries the id |
| `SavedPins.RemoveTwice` | app/saved-pins/page.tsx:24 | deleting the same id twice equals deleting it once |
| `SavedPins.HandleDelete` | app/saved-pins/page.tsx:21-26 | a failed delete leaves the page as it was; a successful one removes every pin of that id; the list never grows |
| `SavedPins.HandleDeleteAbsent` | app/saved-pins/page.tsx:21-25 | deleting an id no pin carries leaves the page unchanged, whatever the datastore answers |
| `SavedPins.HandleDeleteChanges` | app/saved-pins/page.tsx:21-26 | the page changes on a delete exactly when the datastore reports success and some pin carries the id |
| `SavedPins.CardOf` | app/saved-pins/page.tsx:66-130 | a card shows the image exactly when the pin has a non-empty one, the date exactly when it has a timestamp, and its delete button targets the pin's id |
| `SavedPins.Render` | app/saved-pins/page.tsx:28-54 | the loading view exactly while loading; the empty state exactly when loaded with no pins; otherwise one card per pin, in order |
| `SavedPins.CardImageFromRow` | app/saved-pins/page.tsx:71 | a row's card shows an image exactly when the row's `image_url` is present and non-empty, and then that image |
| `MapPage.HandleMapClick` | app/page.tsx:16-19 | a click adds exactly one point, keeps every earlier point in place, and takes latitude from `lat` and longitude from `lng` |
| `MapPage.AfterClicksInOrder` | app/page.tsx:14-19 | after n clicks from the empty list, the list holds the n clicked coordinates in click order |
| `MapPage.AfterClicksExtends` | app/page.tsx:18 | further clicks leave the points already placed at their positions |
| `MapPage.Markers` | app/page.tsx:33-42 | one marker per point, at that point |
| `MapPage.MarkersAreRed` | app/page.tsx:40 | every marker on the map page is drawn with red's hex |

## Left out

- Network transport, the hosted datastore's client, and `console.error` logging. Each remote call is an abstract result.
- The datastore's ordering by `created_at`, newest first, is its own work. The model only shows that `fetchPins` keeps whatever order the rows arrive in.
- React hooks, JSX markup, routing links, image rendering and the map SDK's `Map`/`Marker` components. These are UI and foreign libraries.
- The map page's initial viewport (longitude -122.4, latitude 37.8, zoom 14). It is a constant handed to the SDK.
- `toFixed(4)` coordinate text and `toLocaleDateString` dates. These are floating-point and locale formatting; a card carries the raw coordinates and timestamp instead.
- Interleaving of concurrent loads and deletes. Each transition is modelled as one atomic step.
- The navigation bar and the root layout. They are presentational only.
- Colour filters, colour labels, popups and creating a pin from the map: there is no code for them. app/page.tsx only appends clicked points; it has no popups and never calls `createPin`, and no page filters pins by colour or stores colour labels.
