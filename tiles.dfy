/**
  The colouring and acceptance loop of the renderer: for each tile of the
  grid, in traversal order, the escape-time field is turned into an RGB
  byte buffer in place (black for a pixel that converged, a palette entry
  chosen by the scaled escape value otherwise), the converged and diverged
  pixels are counted, and the buffer is saved as `image-<n>.png` only when
  the tile has pixels of both kinds. The number `n` advances for every
  tile, saved or not.

  Field values are integers (`create_mandelbrot` returns an `int *`); a
  negative value marks a pixel that converged. The palette is the byte
  content of colors.bin, RGBRGB...; `COLOR_DENSITY_NUM` and
  `COLOR_DENSITY_DEN` are positive parameters.
 */
module Tiles {
  import opened Wrappers
  import opened Decimal

  newtype byte = x: int | 0 <= x < 256

  /** The palette bytes and the density ratio `COLOR_DENSITY_NUM / COLOR_DENSITY_DEN`. */
  datatype ColorMap = ColorMap(colors: seq<byte>, densityNum: int, densityDen: int) {

    /** `numcolors = numcomps / 3`: trailing bytes short of a triple are not a colour. */
    function NumColors(): (n: nat)
      ensures 3 * n <= |colors| < 3 * n + 3
    {
      |colors| / 3
    }

    predicate Valid() {
      NumColors() >= 1 && densityNum > 0 && densityDen > 0
    }

    /** Palette entry `j`: the bytes `colors[3*j .. 3*j+2]`. */
    function Entry(j: nat): (rgb: seq<byte>)
      requires j < NumColors()
      ensures |rgb| == 3
    {
      colors[3 * j..3 * j + 3]
    }
  }

  /**
    The palette index of a pixel that diverged with escape value `v`:
    `(NUM * v / DEN) mod numcolors`; always a valid index.
   */
  function PaletteIndex(v: int, m: ColorMap): (j: nat)
    requires m.Valid() && v >= 0
    ensures j < m.NumColors()
  {
    (m.densityNum * v / m.densityDen) % m.NumColors()
  }

  /** Palette entry `j` is the three bytes at `3*j`, all within the palette. */
  lemma PaletteBytes(m: ColorMap, j: nat)
    requires j < m.NumColors()
    ensures 3 * j + 3 <= |m.colors|
    ensures m.Entry(j) == [m.colors[3 * j], m.colors[3 * j + 1], m.colors[3 * j + 2]]
  {
  }

  const Black: seq<byte> := [0, 0, 0]

  /** The three bytes written for one pixel: black when it converged, a palette entry otherwise. */
  function PixelColor(v: int, m: ColorMap): (rgb: seq<byte>)
    requires m.Valid()
    ensures |rgb| == 3
    ensures v < 0 ==> rgb == Black
    ensures v >= 0 ==> exists j :: 0 <= j < m.NumColors() && rgb == m.Entry(j)
  {
    if v < 0 then Black else m.Entry(PaletteIndex(v, m))
  }

  /** The image buffer of a whole field: pixel `i` occupies bytes `3*i .. 3*i+2`. */
  function Render(field: seq<int>, m: ColorMap): (img: seq<byte>)
    requires m.Valid()
    ensures |img| == 3 * |field|
    decreases |field|
  {
    if field == [] then [] else Render(field[..|field| - 1], m) + PixelColor(field[|field| - 1], m)
  }

  /** Rendering is pixel-wise: the buffer of two fields side by side is their two buffers side by side. */
  lemma {:induction false} RenderConcat(a: seq<int>, b: seq<int>, m: ColorMap)
    requires m.Valid()
    ensures Render(a + b, m) == Render(a, m) + Render(b, m)
    decreases |b|
  {
    if b == [] {
      assert a + b == a;
    } else {
      var n := |b| - 1;
      var front := b[..n];
      assert b == front + [b[n]];
      assert a + b == (a + front) + [b[n]];
      RenderConcat(a, front, m);
      RenderSnoc(a + front, b[n], m);
      RenderSnoc(front, b[n], m);
      AppendAssoc(Render(a, m), Render(front, m), PixelColor(b[n], m));
    }
  }

  /** Associativity of `+`, stated once so that callers need not rediscover it (it keeps their proofs cheap). */
  lemma AppendAssoc(x: seq<byte>, y: seq<byte>, z: seq<byte>)
    ensures (x + y) + z == x + (y + z)
  {
  }

  /** Appending one pixel appends its colour. */
  lemma RenderSnoc(field: seq<int>, v: int, m: ColorMap)
    requires m.Valid()
    ensures Render(field + [v], m) == Render(field, m) + PixelColor(v, m)
  {
    assert (field + [v])[..|field|] == field;
  }

  /** The buffer around pixel `i`: the pixels before it, its own colour, the pixels after it. */
  lemma RenderSplit(field: seq<int>, m: ColorMap, i: nat)
    requires m.Valid() && i < |field|
    ensures Render(field, m) == Render(field[..i], m) + PixelColor(field[i], m) + Render(field[i + 1..], m)
  {
    assert field == field[..i] + [field[i]] + field[i + 1..];
    RenderConcat(field[..i] + [field[i]], field[i + 1..], m);
    RenderConcat(field[..i], [field[i]], m);
    assert [field[i]][..0] == [];
  }

  /** Bytes `3*i .. 3*i+2` of the rendered buffer are the colour of pixel `i`. */
  lemma RenderAt(field: seq<int>, m: ColorMap, i: nat)
    requires m.Valid() && i < |field|
    ensures Render(field, m)[3 * i..3 * i + 3] == PixelColor(field[i], m)
  {
    RenderSplit(field, m, i);
    var front, rgb, back := Render(field[..i], m), PixelColor(field[i], m), Render(field[i + 1..], m);
    assert |front| == 3 * i;
    assert (front + rgb + back)[|front|..|front| + 3] == rgb;
  }

  /** Changing one pixel changes only that pixel's three bytes. */
  lemma RenderLocal(field: seq<int>, m: ColorMap, i: nat, v: int)
    requires m.Valid() && i < |field|
    ensures var before, after := Render(field, m), Render(field[i := v], m);
      |after| == |before| &&
      after[3 * i..3 * i + 3] == PixelColor(v, m) &&
      forall b :: 0 <= b < |before| && !(3 * i <= b < 3 * i + 3) ==> after[b] == before[b]
  {
    var changed := field[i := v];
    assert changed[..i] == field[..i] && changed[i + 1..] == field[i + 1..];
    RenderSplit(field, m, i);
    RenderSplit(changed, m, i);
    var front, back := Render(field[..i], m), Render(field[i + 1..], m);
    var before := front + PixelColor(field[i], m) + back;
    var after := front + PixelColor(v, m) + back;
    assert |front| == 3 * i;
    assert after[|front|..|front| + 3] == PixelColor(v, m);
    forall b | 0 <= b < |before| && !(3 * i <= b < 3 * i + 3)
      ensures after[b] == before[b]
    {
      if b < |front| {
        assert after[b] == front[b] == before[b];
      } else {
        assert after[b] == back[b - |front| - 3] == before[b];
      }
    }
  }

  /** Number of pixels that converged (negative values). */
  function Converged(field: seq<int>): (n: nat)
    ensures n <= |field|
    decreases |field|
  {
    if field == [] then 0
    else Converged(field[..|field| - 1]) + (if field[|field| - 1] < 0 then 1 else 0)
  }

  /** Number of pixels that diverged (non-negative values). */
  function Diverged(field: seq<int>): (n: nat)
    ensures n <= |field|
    decreases |field|
  {
    if field == [] then 0
    else Diverged(field[..|field| - 1]) + (if field[|field| - 1] >= 0 then 1 else 0)
  }

  /**
    Every pixel is counted once: the counts add up to the field size; all
    pixels converged exactly when none diverged, and the other way round.
   */
  lemma {:induction false} CountsPartition(field: seq<int>)
    ensures Converged(field) + Diverged(field) == |field|
    ensures Converged(field) == |field| <==> forall i :: 0 <= i < |field| ==> field[i] < 0
    ensures Diverged(field) == |field| <==> forall i :: 0 <= i < |field| ==> field[i] >= 0
    decreases |field|
  {
    if field != [] {
      var prefix := field[..|field| - 1];
      CountsPartition(prefix);
      assert forall i :: 0 <= i < |prefix| ==> prefix[i] == field[i];
    }
  }

  lemma CountStep(field: seq<int>, i: nat)
    requires i < |field|
    ensures Converged(field[..i + 1]) == Converged(field[..i]) + (if field[i] < 0 then 1 else 0)
    ensures Diverged(field[..i + 1]) == Diverged(field[..i]) + (if field[i] >= 0 then 1 else 0)
  {
    assert field[..i + 1][..i] == field[..i];
  }

  /** Positions of the pixels that converged. */
  ghost function NegativeAt(field: seq<int>): set<int> {
    set i | 0 <= i < |field| && field[i] < 0
  }

  /** Positions of the pixels that diverged. */
  ghost function NonNegativeAt(field: seq<int>): set<int> {
    set i | 0 <= i < |field| && field[i] >= 0
  }

  /** `converged` counts exactly the negative entries, `diverged` exactly the others. */
  lemma {:induction false} CountsArePositions(field: seq<int>)
    ensures Converged(field) == |NegativeAt(field)|
    ensures Diverged(field) == |NonNegativeAt(field)|
    decreases |field|
  {
    if field == [] {
      assert NegativeAt(field) == {};
      assert NonNegativeAt(field) == {};
    } else {
      var n := |field| - 1;
      CountsArePositions(field[..n]);
      PositionsSnoc(field);
    }
  }

  /** The last pixel joins exactly one of the two position sets, which did not hold it before. */
  lemma PositionsSnoc(field: seq<int>)
    requires field != []
    ensures var n := |field| - 1;
      n !in NegativeAt(field[..n]) && n !in NonNegativeAt(field[..n]) &&
      NegativeAt(field) == NegativeAt(field[..n]) + (if field[n] < 0 then {n} else {}) &&
      NonNegativeAt(field) == NonNegativeAt(field[..n]) + (if field[n] >= 0 then {n} else {})
  {
    var n := |field| - 1;
    var prefix := field[..n];
    forall i | 0 <= i < n ensures prefix[i] == field[i] { }
  }

  /** The acceptance test `diverged != RES_X*RES_Y && converged != RES_X*RES_Y`. */
  predicate Interesting(field: seq<int>)
    ensures Interesting(field) ==> Converged(field) >= 1 && Diverged(field) >= 1 && |field| >= 2
  {
    CountsPartition(field);
    Diverged(field) != |field| && Converged(field) != |field|
  }

  /** A tile is saved exactly when it has a pixel that converged and a pixel that diverged. */
  lemma InterestingIff(field: seq<int>)
    ensures Interesting(field) <==>
      (exists i :: 0 <= i < |field| && field[i] < 0) && (exists i :: 0 <= i < |field| && field[i] >= 0)
  {
    CountsPartition(field);
  }

  /** `RenderSnoc` for the prefix of `i + 1` pixels. */
  lemma RenderStep(field: seq<int>, m: ColorMap, i: nat)
    requires m.Valid() && i < |field|
    ensures Render(field[..i + 1], m) == Render(field[..i], m) + PixelColor(field[i], m)
  {
    assert field[..i + 1] == field[..i] + [field[i]];
    RenderSnoc(field[..i], field[i], m);
  }

  /** Writing pixel `i`'s three bytes after the first `i` pixels extends the rendered prefix by one pixel. */
  lemma PixelStep(field: seq<int>, m: ColorMap, i: nat, r: byte, g: byte, b: byte, before: seq<byte>, after: seq<byte>)
    requires m.Valid() && i < |field| && |before| == 3 * |field|
    requires before[..3 * i] == Render(field[..i], m)
    requires PixelColor(field[i], m) == [r, g, b]
    requires after == before[3 * i := r][3 * i + 1 := g][3 * i + 2 := b]
    ensures after[..3 * (i + 1)] == Render(field[..i + 1], m)
  {
    assert after[..3 * (i + 1)] == before[..3 * i] + [r, g, b];
    RenderStep(field, m, i);
  }

  /** Stores one pixel's three bytes at offsets `3i`, `3i+1` and `3i+2` of the image buffer. */
  method SetPixel(img: array<byte>, i: nat, r: byte, g: byte, b: byte)
    requires 3 * i + 2 < img.Length
    modifies img
    ensures img[..] == old(img[..])[3 * i := r][3 * i + 1 := g][3 * i + 2 := b]
  {
    img[3 * i] := r;
    img[3 * i + 1] := g;
    img[3 * i + 2] := b;
  }

  /**
    The pixel loop: writes every pixel's colour into `img` in place and
    counts the pixels that converged and diverged.
   */
  method ColorTile(field: seq<int>, img: array<byte>, m: ColorMap) returns (converged: nat, diverged: nat)
    requires m.Valid()
    requires img.Length == 3 * |field|
    modifies img
    ensures img[..] == Render(field, m)
    ensures converged == Converged(field) && diverged == Diverged(field)
  {
    converged, diverged := 0, 0;
    var i := 0;
    while i < |field|
      invariant 0 <= i <= |field|
      invariant img[..3 * i] == Render(field[..i], m)
      invariant converged == Converged(field[..i]) && diverged == Diverged(field[..i])
    {
      ghost var before := img[..];
      if field[i] < 0 {
        SetPixel(img, i, 0, 0, 0);
        converged := converged + 1;
        PixelStep(field, m, i, 0, 0, 0, before, img[..]);
      } else {
        var j := PaletteIndex(field[i], m);
        PaletteBytes(m, j);
        SetPixel(img, i, m.colors[3 * j], m.colors[3 * j + 1], m.colors[3 * j + 2]);
        diverged := diverged + 1;
        PixelStep(field, m, i, m.colors[3 * j], m.colors[3 * j + 1], m.colors[3 * j + 2], before, img[..]);
      }
      CountStep(field, i);
      i := i + 1;
    }
    assert field[..i] == field;
    assert img[..] == img[..3 * i];
  }

  /** The file name `snprintf(filename, 128, "image-%d.png", imageno)` produces. */
  function FileName(imageNo: nat): (name: string)
    ensures |name| > 10 && name[..6] == "image-" && name[|name| - 4..] == ".png"
  {
    "image-" + FormatInt(imageNo) + ".png"
  }

  /** The text between `image-` and `.png` is the image number in decimal: `%d` reads it back. */
  lemma FileNameReadsBack(imageNo: nat)
    ensures var name := FileName(imageNo); ConvertInt(name[6..|name| - 4]) == Converted(imageNo, [])
  {
    var name := FileName(imageNo);
    assert name[6..|name| - 4] == FormatInt(imageNo);
    ReadBack(imageNo);
  }

  /** Different tiles are saved under different names. */
  lemma FileNamesDistinct(a: nat, b: nat)
    requires a != b
    ensures FileName(a) != FileName(b)
  {
    FileNameReadsBack(a);
    FileNameReadsBack(b);
  }

  /** One image handed to the image sink: its number, its file name and the buffer it was made from. */
  datatype Saved = Saved(imageNo: nat, fileName: string, pixels: seq<byte>)

  /** The images saved for the tiles `fields`, numbered by position from 0. */
  function Emissions(fields: seq<seq<int>>, m: ColorMap): (es: seq<Saved>)
    requires m.Valid()
    ensures |es| <= |fields|
    decreases |fields|
  {
    if fields == [] then []
    else
      var k := |fields| - 1;
      Emissions(fields[..k], m) +
        (if Interesting(fields[k]) then [Saved(k, FileName(k), Render(fields[k], m))] else [])
  }

  /** Every saved image is an interesting tile, under its own position's number and name. */
  lemma {:induction false} EmissionsSound(fields: seq<seq<int>>, m: ColorMap)
    requires m.Valid()
    ensures forall e :: e in Emissions(fields, m) ==>
      e.imageNo < |fields| && Interesting(fields[e.imageNo]) &&
      e.fileName == FileName(e.imageNo) && e.pixels == Render(fields[e.imageNo], m)
    decreases |fields|
  {
    if fields != [] {
      var k := |fields| - 1;
      EmissionsSound(fields[..k], m);
    }
  }

  /** Every interesting tile is saved. */
  lemma {:induction false} EmissionsComplete(fields: seq<seq<int>>, m: ColorMap, k: nat)
    requires m.Valid()
    requires k < |fields| && Interesting(fields[k])
    ensures exists e :: e in Emissions(fields, m) && e.imageNo == k
    decreases |fields|
  {
    var last := |fields| - 1;
    if k < last {
      EmissionsComplete(fields[..last], m, k);
      var e :| e in Emissions(fields[..last], m) && e.imageNo == k;
      assert e in Emissions(fields, m);
    } else {
      assert Saved(k, FileName(k), Render(fields[k], m)) in Emissions(fields, m);
    }
  }

  /** Image numbers strictly increase along `es`. */
  predicate Increasing(es: seq<Saved>) {
    forall a, b :: 0 <= a < b < |es| ==> es[a].imageNo < es[b].imageNo
  }

  /** Images are saved in grid order, so their numbers strictly increase. */
  lemma {:induction false} EmissionsOrdered(fields: seq<seq<int>>, m: ColorMap)
    requires m.Valid()
    ensures Increasing(Emissions(fields, m))
    decreases |fields|
  {
    if fields != [] {
      var k := |fields| - 1;
      EmissionsOrdered(fields[..k], m);
      EmissionsSound(fields[..k], m);
      var es := Emissions(fields[..k], m);
      if Interesting(fields[k]) {
        var e := Saved(k, FileName(k), Render(fields[k], m));
        assert Emissions(fields, m) == es + [e];
        forall a | 0 <= a < |es| ensures es[a].imageNo < k {
          assert es[a] in es;
        }
        AppendIncreasing(es, e);
      } else {
        assert Emissions(fields, m) == es;
      }
    }
  }

  lemma AppendIncreasing(es: seq<Saved>, e: Saved)
    requires Increasing(es)
    requires forall a :: 0 <= a < |es| ==> es[a].imageNo < e.imageNo
    ensures Increasing(es + [e])
  {
    var full := es + [e];
    forall a, b | 0 <= a < b < |full| ensures full[a].imageNo < full[b].imageNo {
      assert full[a] == es[a];
      if b < |es| {
        assert full[b] == es[b];
      }
    }
  }

  /**
    The fields `create_mandelbrot` returned, in order, up to the first
    NULL (an allocation failure, after which the program exits).
   */
  function Available(tiles: seq<Option<seq<int>>>): (fields: seq<seq<int>>)
    ensures |fields| <= |tiles|
    ensures forall k :: 0 <= k < |fields| ==> tiles[k] == Some(fields[k])
    ensures |fields| < |tiles| ==> tiles[|fields|].None?
  {
    if tiles == [] || tiles[0].None? then [] else [tiles[0].value] + Available(tiles[1..])
  }

  lemma EmissionsStep(fields: seq<seq<int>>, m: ColorMap, t: nat)
    requires m.Valid() && t < |fields|
    ensures Emissions(fields[..t + 1], m) == Emissions(fields[..t], m) +
      (if Interesting(fields[t]) then [Saved(t, FileName(t), Render(fields[t], m))] else [])
  {
    assert fields[..t + 1][..t] == fields[..t];
  }

  /**
    The tile loop: for each tile in traversal order, colour its field into
    the shared buffer `img`, save the buffer when the tile is interesting,
    and advance `imageNo`. Stops with `outOfMemory` at the first tile whose
    field could not be allocated.
   */
  method RenderTiles(tiles: seq<Option<seq<int>>>, img: array<byte>, m: ColorMap)
    returns (saved: seq<Saved>, outOfMemory: bool)
    requires m.Valid()
    requires forall k :: 0 <= k < |tiles| && tiles[k].Some? ==> 3 * |tiles[k].value| == img.Length
    modifies img
    ensures outOfMemory <==> exists k :: 0 <= k < |tiles| && tiles[k].None?
    ensures saved == Emissions(Available(tiles), m)
  {
    saved, outOfMemory := [], false;
    var imageNo := 0;
    var t := 0;
    while t < |tiles|
      invariant 0 <= t <= |tiles|
      invariant imageNo == t
      invariant t <= |Available(tiles)|
      invariant saved == Emissions(Available(tiles)[..t], m)
    {
      if tiles[t].None? {
        outOfMemory := true;
        break;
      }
      var field := tiles[t].value;
      var converged, diverged := ColorTile(field, img, m);
      if diverged != |field| && converged != |field| {
        saved := saved + [Saved(imageNo, FileName(imageNo), img[..])];
      }
      EmissionsStep(Available(tiles), m, t);
      imageNo := imageNo + 1;
      t := t + 1;
    }
    if !outOfMemory {
      assert Available(tiles)[..t] == Available(tiles);
    } else {
      assert |Available(tiles)| == t;
      assert Available(tiles)[..t] == Available(tiles);
    }
  }
}
