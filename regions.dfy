/**
 * The region list of the drawing overlay (js/region-selector.js): a drag on
 * the canvas becomes a region normalised by the canvas size, with a running
 * counter for its label and a colour from an eight-entry palette; regions can
 * be relabelled, deleted, cleared, or replaced wholesale by a template.
 * Canvas drawing, DOM rendering and the `Date.now()` id are left out: the id
 * and the canvas size are parameters.
 */
module RegionSelector {
  import opened Wrappers
  import opened Text
  import JsRuntime

  /**
   * One OCR region. Coordinates are fractions of the canvas size. `color`
   * and `psm` are `None` where the JavaScript object has no such property
   * (or holds `undefined`). `caption` is the `label` property, a reserved
   * word in Dafny.
   */
  datatype Region = Region(
    id: string, caption: string,
    nx: real, ny: real, nw: real, nh: real,
    color: Option<string>, psm: Option<string>)

  const Colors: seq<string> :=
    ["#4fc3f7", "#81c784", "#ffb74d", "#f06292", "#ba68c8", "#4dd0e1", "#aed581", "#ff8a65"]

  /** The smallest drag, in canvas pixels, along either axis that makes a region. */
  const MinDrag: real := 10.0

  function Abs(x: real): real {
    if x < 0.0 then -x else x
  }

  function Min(x: real, y: real): real {
    if x <= y then x else y
  }

  /** `COLORS[idx]`: `undefined` outside the palette. */
  function ColorAt(idx: int): (c: Option<string>)
    ensures c.Some? <==> 0 <= idx < |Colors|
  {
    if 0 <= idx < |Colors| then Some(Colors[idx]) else None
  }

  /**
   * The colour a drawn region gets when `len` regions exist before it:
   * `COLORS[(regions.length - 1) % COLORS.length]`, evaluated before the push.
   */
  function DrawnColor(len: nat): (c: Option<string>)
    ensures len == 0 ==> c == None
    ensures len > 0 ==> c == Some(Colors[(len - 1) % |Colors|])
  {
    ColorAt(JsRuntime.Rem(len - 1, |Colors|))
  }

  /** A drag from (sx, sy) to (cx, cy) is kept only if it spans at least `MinDrag` both ways. */
  predicate Accepted(sx: real, sy: real, cx: real, cy: real) {
    Abs(cx - sx) >= MinDrag && Abs(cy - sy) >= MinDrag
  }

  /** The region recorded for an accepted drag, as the `counter`-th region with `len` before it. */
  function NewRegion(id: string, counter: nat, len: nat,
                     sx: real, sy: real, cx: real, cy: real, width: real, height: real): Region
    requires width > 0.0 && height > 0.0
  {
    Region(id, "영역 " + NatToString(counter),
           Min(sx, cx) / width, Min(sy, cy) / height,
           Abs(cx - sx) / width, Abs(cy - sy) / height,
           DrawnColor(len), None)
  }

  /** A drag whose two corners lie on the canvas gives a region inside the unit square, at least 10 pixels wide and tall. */
  lemma NewRegionInside(id: string, counter: nat, len: nat,
                        sx: real, sy: real, cx: real, cy: real, width: real, height: real)
    requires width > 0.0 && height > 0.0
    requires 0.0 <= sx <= width && 0.0 <= cx <= width
    requires 0.0 <= sy <= height && 0.0 <= cy <= height
    requires Accepted(sx, sy, cx, cy)
    ensures var r := NewRegion(id, counter, len, sx, sy, cx, cy, width, height);
      && 0.0 <= r.nx && r.nx + r.nw <= 1.0 && r.nw * width >= MinDrag
      && 0.0 <= r.ny && r.ny + r.nh <= 1.0 && r.nh * height >= MinDrag
  {
    var r := NewRegion(id, counter, len, sx, sy, cx, cy, width, height);
    UnitSpan(sx, cx, width);
    UnitSpan(sy, cy, height);
  }

  /** One axis of `NewRegionInside`: min/w + |d|/w == max/w, which is at most 1. */
  lemma UnitSpan(s: real, c: real, w: real)
    requires w > 0.0 && 0.0 <= s <= w && 0.0 <= c <= w
    ensures 0.0 <= Min(s, c) / w
    ensures Min(s, c) / w + Abs(c - s) / w <= 1.0
    ensures Abs(c - s) / w * w == Abs(c - s)
  {
    var hi := if s <= c then c else s;
    assert Min(s, c) + Abs(c - s) == hi;
    assert Min(s, c) / w + Abs(c - s) / w == hi / w;
    AtMostOne(hi, w);
  }

  lemma AtMostOne(x: real, w: real)
    requires w > 0.0 && x <= w
    ensures x / w <= 1.0
  {
    var q := x / w;
    assert q * w == x;
    assert (1.0 - q) * w == w - x >= 0.0;
  }

  /** The label and colour of a drawn region come from the counter and from the list length. */
  lemma NewRegionLabel(id: string, counter: nat, len: nat,
                       sx: real, sy: real, cx: real, cy: real, width: real, height: real)
    requires width > 0.0 && height > 0.0
    ensures var r := NewRegion(id, counter, len, sx, sy, cx, cy, width, height);
      && r.id == id && r.psm == None
      && r.caption[..|"영역 "|] == "영역 " && ParseInt(r.caption[|"영역 "|..]) == Some(counter)
      && (r.color == None <==> len == 0)
  {
    ParseIntNatToString(counter);
    var r := NewRegion(id, counter, len, sx, sy, cx, cy, width, height);
    assert r.caption[|"영역 "|..] == NatToString(counter);
  }

  /** `regions[i].label = text`: an index that names no region throws, and nothing changes. */
  function Relabelled(rs: seq<Region>, i: int, text: string): (r: seq<Region>)
    ensures |r| == |rs|
    ensures forall k :: 0 <= k < |rs| && k != i ==> r[k] == rs[k]
    ensures 0 <= i < |rs| ==> r[i].caption == text && r[i].(caption := rs[i].caption) == rs[i]
  {
    if 0 <= i < |rs| then rs[i := rs[i].(caption := text)] else rs
  }

  /** A region keeps a truthy colour; otherwise it takes the palette entry of its position. */
  predicate Truthy(c: Option<string>) {
    c.Some? && c.value != ""
  }

  function Recolor(r: Region, i: nat): Region {
    r.(color := if Truthy(r.color) then r.color else Some(Colors[i % |Colors|]))
  }

  /** `newRegions.map((r, i) => ({ ...r, color: r.color || COLORS[i % COLORS.length] }))` */
  function Recolored(rs: seq<Region>): seq<Region> {
    seq(|rs|, i requires 0 <= i < |rs| => Recolor(rs[i], i))
  }

  /** Recolouring changes nothing but colours, keeps every truthy colour, and leaves every region coloured. */
  lemma RecoloredSpec(rs: seq<Region>)
    ensures |Recolored(rs)| == |rs|
    ensures forall i :: 0 <= i < |rs| ==> Recolored(rs)[i].(color := rs[i].color) == rs[i]
    ensures forall i :: 0 <= i < |rs| ==> Truthy(Recolored(rs)[i].color)
    ensures forall i :: 0 <= i < |rs| && Truthy(rs[i].color) ==> Recolored(rs)[i] == rs[i]
    ensures forall i :: 0 <= i < |rs| && !Truthy(rs[i].color) ==> Recolored(rs)[i].color == Some(Colors[i % |Colors|])
  {
    forall i | 0 <= i < |rs|
      ensures Truthy(Recolored(rs)[i].color)
    {
      assert Colors[i % |Colors|] != "";
    }
  }

  /** Recolouring twice is recolouring once. */
  lemma RecoloredIdempotent(rs: seq<Region>)
    ensures Recolored(Recolored(rs)) == Recolored(rs)
  {
    RecoloredSpec(rs);
    RecoloredSpec(Recolored(rs));
  }

  /** The first drawn region gets `COLORS[-1]`, which is `undefined`: it has no colour. */
  lemma FirstDrawnUncoloured()
    ensures DrawnColor(0) == None
    ensures forall len: nat :: len > 0 ==> DrawnColor(len).Some?
  {
  }

  /**
   * The palette is one step behind between the two ways a region gets a
   * colour: a region drawn with `i + 1` regions before it gets the colour
   * `setRegions` gives an uncoloured region at position `i`.
   */
  lemma DrawnColorLagsReload(rs: seq<Region>, i: nat)
    requires i < |rs| && !Truthy(rs[i].color)
    ensures Recolored(rs)[i].color == DrawnColor(i + 1)
  {
    RecoloredSpec(rs);
  }

  class Selector {
    var regions: seq<Region>
    var regionCounter: nat
    var isDrawing: bool
    var startX: real
    var startY: real
    var currentX: real
    var currentY: real

    /** The counter is never behind the list: every region was counted when it was drawn or loaded. */
    predicate Valid()
      reads this
    {
      |regions| <= regionCounter
    }

    constructor ()
      ensures Valid()
      ensures regions == [] && regionCounter == 0 && !isDrawing
      ensures startX == 0.0 && startY == 0.0 && currentX == 0.0 && currentY == 0.0
    {
      regions := [];
      regionCounter := 0;
      isDrawing := false;
      startX, startY, currentX, currentY := 0.0, 0.0, 0.0, 0.0;
    }

    method StartDraw(x: real, y: real)
      requires Valid()
      modifies this
      ensures Valid()
      ensures isDrawing && startX == x && startY == y && currentX == x && currentY == y
      ensures regions == old(regions) && regionCounter == old(regionCounter)
    {
      isDrawing := true;
      startX, startY := x, y;
      currentX, currentY := x, y;
    }

    method ContinueDraw(x: real, y: real)
      requires Valid()
      modifies this
      ensures Valid()
      ensures currentX == x && currentY == y
      ensures startX == old(startX) && startY == old(startY) && isDrawing == old(isDrawing)
      ensures regions == old(regions) && regionCounter == old(regionCounter)
    {
      currentX, currentY := x, y;
    }

    /** Ends a drag on a canvas of the given size; a drag under `MinDrag` either way is dropped. */
    method EndDraw(id: string, width: real, height: real)
      requires Valid()
      requires width > 0.0 && height > 0.0
      modifies this
      ensures Valid()
      ensures !isDrawing
      ensures startX == old(startX) && startY == old(startY)
      ensures currentX == old(currentX) && currentY == old(currentY)
      ensures !Accepted(startX, startY, currentX, currentY) ==>
        regions == old(regions) && regionCounter == old(regionCounter)
      ensures Accepted(startX, startY, currentX, currentY) ==>
        && regionCounter == old(regionCounter) + 1
        && regions == old(regions) + [NewRegion(id, regionCounter, |old(regions)|,
                                                startX, startY, currentX, currentY, width, height)]
    {
      isDrawing := false;
      if !Accepted(startX, startY, currentX, currentY) {
        return;
      }
      regionCounter := regionCounter + 1;
      var r := NewRegion(id, regionCounter, |regions|, startX, startY, currentX, currentY, width, height);
      regions := regions + [r];
    }

    /** The label input of the region at `i` changed to `text`. */
    method ChangeLabel(i: int, text: string)
      requires Valid()
      modifies this
      ensures Valid()
      ensures regions == Relabelled(old(regions), i, text)
      ensures regionCounter == old(regionCounter) && isDrawing == old(isDrawing)
      ensures startX == old(startX) && startY == old(startY) && currentX == old(currentX) && currentY == old(currentY)
    {
      if 0 <= i < |regions| {
        regions := regions[i := regions[i].(caption := text)];
      }
    }

    /** The delete button of the region at `i`: `regions.splice(i, 1)`. */
    method Delete(i: int)
      requires Valid()
      modifies this
      ensures Valid()
      ensures regions == JsRuntime.RemoveAt(old(regions), i)
      ensures regionCounter == old(regionCounter) && isDrawing == old(isDrawing)
      ensures startX == old(startX) && startY == old(startY) && currentX == old(currentX) && currentY == old(currentY)
    {
      regions := JsRuntime.RemoveAt(regions, i);
    }

    method ClearAll()
      requires Valid()
      modifies this
      ensures Valid()
      ensures regions == [] && regionCounter == 0 && isDrawing == old(isDrawing)
      ensures startX == old(startX) && startY == old(startY) && currentX == old(currentX) && currentY == old(currentY)
    {
      regions := [];
      regionCounter := 0;
    }

    method GetRegions() returns (r: seq<Region>)
      ensures r == regions
    {
      r := regions;
    }

    /** Replaces the list (a loaded template), colouring regions that have no colour. */
    method SetRegions(newRegions: seq<Region>)
      requires Valid()
      modifies this
      ensures Valid()
      ensures regions == Recolored(newRegions) && regionCounter == |newRegions|
      ensures isDrawing == old(isDrawing)
      ensures startX == old(startX) && startY == old(startY) && currentX == old(currentX) && currentY == old(currentY)
    {
      regions := Recolored(newRegions);
      regionCounter := |regions|;
    }
  }
}
