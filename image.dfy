/** The raster post-processing of draw_mol (api/utils.py:94-102): pure white pixels become fully transparent. */
module Image {

  /** An RGBA pixel as PIL's `getdata()` yields it. */
  datatype Pixel = Pixel(red: nat, green: nat, blue: nat, alpha: nat)

  predicate IsWhite(p: Pixel)
  {
    p.red == 255 && p.green == 255 && p.blue == 255
  }

  /** The pixel the loop appends for `p`. */
  function Cleared(p: Pixel): (q: Pixel)
    ensures q.red == p.red && q.green == p.green && q.blue == p.blue
    ensures IsWhite(p) ==> q.alpha == 0
    ensures !IsWhite(p) ==> q == p
  {
    if IsWhite(p) then Pixel(255, 255, 255, 0) else p
  }

  /** The pixel list after the loop: each pixel cleared, in the same place. */
  function Transparented(data: seq<Pixel>): (r: seq<Pixel>)
    ensures |r| == |data|
    ensures forall i :: 0 <= i < |r| && IsWhite(r[i]) ==> r[i].alpha == 0
    ensures forall i :: 0 <= i < |r| ==> r[i].red == data[i].red && r[i].green == data[i].green && r[i].blue == data[i].blue
    ensures forall i :: 0 <= i < |r| && r[i].alpha != data[i].alpha ==> IsWhite(data[i])
  {
    seq(|data|, i requires 0 <= i < |data| => Cleared(data[i]))
  }

  /** The loop of api/utils.py:96-101: builds `newData` pixel by pixel. */
  method ClearWhite(data: seq<Pixel>) returns (newData: seq<Pixel>)
    ensures |newData| == |data|
    ensures forall i :: 0 <= i < |data| && IsWhite(data[i]) ==> newData[i] == Pixel(255, 255, 255, 0)
    ensures forall i :: 0 <= i < |data| && !IsWhite(data[i]) ==> newData[i] == data[i]
    ensures newData == Transparented(data)
  {
    newData := [];
    for i := 0 to |data|
      invariant |newData| == i
      invariant forall k :: 0 <= k < i ==> newData[k] == Cleared(data[k])
    {
      var item := data[i];
      if item.red == 255 && item.green == 255 && item.blue == 255 {
        newData := newData + [Pixel(255, 255, 255, 0)];
      } else {
        newData := newData + [item];
      }
    }
  }

  /** After the loop no pixel is opaque white, and colours are kept. */
  lemma TransparentedKeepsColours(data: seq<Pixel>, i: nat)
    requires i < |data|
    ensures |Transparented(data)| == |data|
    ensures IsWhite(Transparented(data)[i]) ==> Transparented(data)[i].alpha == 0
    ensures Transparented(data)[i].red == data[i].red
    ensures Transparented(data)[i].green == data[i].green
    ensures Transparented(data)[i].blue == data[i].blue
    ensures Transparented(data)[i].alpha != data[i].alpha ==> IsWhite(data[i])
  {
  }

  /** Running the loop on its own output changes nothing. */
  lemma TransparentedIdempotent(data: seq<Pixel>)
    ensures Transparented(Transparented(data)) == Transparented(data)
  {
  }
}
