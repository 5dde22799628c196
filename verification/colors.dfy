/** The closed set of pin colours and the table that gives each its label and
    hex code (lib/pins.ts). */
module Colors {

  datatype PinColor = Red | Blue | Green | Yellow | Purple | Orange

  /** The text a colour is stored and compared as. */
  function Name(c: PinColor): string {
    match c
    case Red => "red"
    case Blue => "blue"
    case Green => "green"
    case Yellow => "yellow"
    case Purple => "purple"
    case Orange => "orange"
  }

  /** One row of the table; `caption` is the source's `label` field (`label` is a
      Dafny keyword). */
  datatype ColorEntry = ColorEntry(value: PinColor, caption: string, hex: string)

  /** `PIN_COLORS`, in its declared order. */
  const PinColors: seq<ColorEntry> := [
    ColorEntry(Red, "Red", "#EF4444"),
    ColorEntry(Blue, "Blue", "#3B82F6"),
    ColorEntry(Green, "Green", "#22C55E"),
    ColorEntry(Yellow, "Yellow", "#EAB308"),
    ColorEntry(Purple, "Purple", "#A855F7"),
    ColorEntry(Orange, "Orange", "#F97316")
  ]

  /** Distinct colours have distinct names, so a name identifies its colour. */
  lemma NameInjective(a: PinColor, b: PinColor)
    ensures Name(a) == Name(b) ==> a == b
  {
  }

  /** Where a colour sits in the table. */
  function IndexOf(c: PinColor): (i: nat)
    ensures i < |PinColors| && PinColors[i].value == c
  {
    match c
    case Red => 0
    case Blue => 1
    case Green => 2
    case Yellow => 3
    case Purple => 4
    case Orange => 5
  }

  /** The hex code of a colour: the one its table entry gives. */
  function Hex(c: PinColor): string {
    PinColors[IndexOf(c)].hex
  }

  /** The colours a table lists. */
  function ColorsOf(table: seq<ColorEntry>): (cs: set<PinColor>)
    ensures forall i :: 0 <= i < |table| ==> table[i].value in cs
    ensures forall c :: c in cs ==> exists i :: 0 <= i < |table| && table[i].value == c
  {
    if table == [] then {} else {table[0].value} + ColorsOf(table[1..])
  }

  /** The table has six entries and no colour twice. */
  lemma TableDistinct()
    ensures |PinColors| == 6
    ensures forall i, j :: 0 <= i < j < |PinColors| ==> PinColors[i].value != PinColors[j].value
  {
  }

  /** Every colour of the enumeration is in the table. */
  lemma TableCovers()
    ensures forall c: PinColor :: c in ColorsOf(PinColors)
  {
    forall c: PinColor
      ensures c in ColorsOf(PinColors)
    {
      var i := IndexOf(c);
    }
  }

  /** Each entry's hex code is non-empty, and it is the one `Hex` gives for
      the entry's colour: reading the table by position or by colour agrees. */
  lemma TableHexes()
    ensures forall i :: 0 <= i < |PinColors| ==> PinColors[i].hex == Hex(PinColors[i].value) && PinColors[i].hex != ""
  {
  }
}
