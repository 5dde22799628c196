/** The map marker (components/pin.tsx): the colour prop defaults to red and
    is turned into a hex code by looking it up in the colour table, with a
    hard-coded hex when the lookup finds nothing. */
module Marker {
  import opened Values
  import opened Colors

  /** The hex used when the table has no entry for the colour. */
  const FallbackHex: string := "#EF4444"

  /** `table.find(c => c.value === color)`: the first entry whose colour is
      named `color`, or nothing when there is none. */
  function Find(table: seq<ColorEntry>, color: string): (r: Option<ColorEntry>)
    ensures r.None? <==> forall i :: 0 <= i < |table| ==> Name(table[i].value) != color
    ensures r.Some? ==> exists i :: 0 <= i < |table| && table[i] == r.value
                          && Name(table[i].value) == color
                          && forall j :: 0 <= j < i ==> Name(table[j].value) != color
  {
    if table == [] then None
    else if Name(table[0].value) == color then Some(table[0])
    else
      var r := Find(table[1..], color);
      assert r.Some? ==> exists i :: 0 <= i < |table[1..]| && table[1..][i] == r.value
                            && Name(table[1..][i].value) == color
                            && forall j :: 0 <= j < i ==> Name(table[1..][j].value) != color;
      r
  }

  /** The hex code a marker is drawn with, given its (optional) colour prop. */
  function ColorHex(color: Option<string>): (hex: string)
    ensures hex != ""
    ensures exists i :: 0 <= i < |PinColors| && PinColors[i].hex == hex
    ensures color.None? ==> hex == Hex(Red)
  {
    var c := color.GetOr("red");
    var found := Find(PinColors, c);
    if found.Some? && found.value.hex != "" then found.value.hex else FallbackHex
  }

  /** For a colour of the enumeration, the lookup finds the one table entry of
      that colour. */
  lemma FindColor(c: PinColor)
    ensures Find(PinColors, Name(c)) == Some(PinColors[IndexOf(c)])
  {
  }

  /** A marker of any enumerated colour is drawn with that colour's hex code,
      the one the table lists for it; the fallback is never used. */
  lemma ColorHexOfPinColor(c: PinColor)
    ensures ColorHex(Some(Name(c))) == Hex(c)
    ensures Find(PinColors, Name(c)).Some? && Find(PinColors, Name(c)).value.hex != ""
  {
  }

  /** A colour text outside the enumeration (the empty string included) falls
      back to the hard-coded hex, which is red's table hex: any colour the
      table does not know is drawn red. */
  lemma ColorHexOfUnknown(color: string)
    requires forall c: PinColor :: Name(c) != color
    ensures ColorHex(Some(color)) == FallbackHex
    ensures FallbackHex == Hex(Red)
  {
  }
}
