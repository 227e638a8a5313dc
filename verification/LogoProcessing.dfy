// The background-transparency heuristic for uploaded logos (src/lib/logo-processing.ts).
// Decoding and encoding are not part of this model: the image is the decoded RGBA buffer,
// four bytes a pixel, row by row.
module LogoProcessing {
  import opened Arithmetic
  import opened Text

  type Byte = b: int | 0 <= b < 256

  datatype Color = Color(r: real, g: real, b: real)

  const MIN_DIMENSION := 32
  const COLOR_DISTANCE_THRESHOLD := 18
  const CORNER_SAMPLE := 4

  // ---- pixels --------------------------------------------------------------------

  function SquaredDistance(a: Color, b: Color): real {
    (a.r - b.r) * (a.r - b.r) + (a.g - b.g) * (a.g - b.g) + (a.b - b.b) * (a.b - b.b)
  }

  /** colorDistance(a, b) <= COLOR_DISTANCE_THRESHOLD, compared by squares. */
  predicate Close(a: Color, b: Color) {
    SquaredDistance(a, b) <= (COLOR_DISTANCE_THRESHOLD * COLOR_DISTANCE_THRESHOLD) as real
  }

  /** Colours that differ in one channel only are close if that channel differs by at most 18, whichever it is. */
  lemma OneChannelApart(c: Color, d: real)
    ensures Close(c, c.(r := c.r + d)) <==> -18.0 <= d <= 18.0
    ensures Close(c, c.(g := c.g + d)) <==> -18.0 <= d <= 18.0
    ensures Close(c, c.(b := c.b + d)) <==> -18.0 <= d <= 18.0
  {
    var square := d * d;
    assert SquaredDistance(c, c.(r := c.r + d)) == square && SquaredDistance(c, c.(g := c.g + d)) == square
           && SquaredDistance(c, c.(b := c.b + d)) == square;
    assert square <= 324.0 <==> -18.0 <= d <= 18.0 by {
      assert 324.0 - square == (18.0 - d) * (18.0 + d);
      SignOfProduct(18.0 - d, 18.0 + d);
    }
  }

  lemma SignOfProduct(x: real, y: real)
    requires x + y == 36.0
    ensures x * y >= 0.0 <==> x >= 0.0 && y >= 0.0
  {
    if x < 0.0 {
      OppositeSigns(y, x);
    } else if y < 0.0 {
      OppositeSigns(x, y);
    }
  }

  lemma OppositeSigns(x: real, y: real)
    requires x > 0.0 && y < 0.0
    ensures x * y < 0.0
  {
  }

  /** Two colours are as close as they are the other way round. */
  lemma CloseIsSymmetric(a: Color, b: Color)
    ensures Close(a, b) <==> Close(b, a)
  {
  }

  function PixelColor(data: seq<Byte>, idx: nat): Color
    requires 4 * idx + 3 < |data|
  {
    Color(data[4 * idx] as real, data[4 * idx + 1] as real, data[4 * idx + 2] as real)
  }

  // ---- the reference: what background is ------------------------------------------

  /** An image with one background colour; pixel `p` is the one in column p % width and row p / width. */
  datatype Image = Image(data: seq<Byte>, width: nat, height: nat, bg: Color) {
    ghost predicate Valid() {
      |data| == 4 * (width * height)
    }

    ghost predicate IsPixel(p: int) {
      0 <= p < width * height
    }

    ghost predicate Matches(p: int)
      requires Valid() && IsPixel(p)
    {
      Close(PixelColor(data, p), bg)
    }

    ghost predicate OnBorder(p: int)
      requires Valid() && IsPixel(p)
    {
      width > 0 && (p % width == 0 || p % width == width - 1 || p / width == 0 || p / width == height - 1)
    }

    /** Next to each other in the same row or the same column. */
    ghost predicate Adjacent(p: int, q: int) {
      && width > 0
      && ((p % width == q % width && (p / width == q / width + 1 || q / width == p / width + 1))
          || (p / width == q / width && (p % width == q % width + 1 || q % width == p % width + 1)))
    }

    /** A chain of adjacent matching pixels that starts on the border. */
    ghost predicate IsChain(chain: seq<int>)
      requires Valid()
    {
      && |chain| > 0
      && (forall i :: 0 <= i < |chain| ==> IsPixel(chain[i]) && Matches(chain[i]))
      && OnBorder(chain[0])
      && (forall i :: 1 <= i < |chain| ==> Adjacent(chain[i - 1], chain[i]))
    }

    /** Joined to the border by a chain. */
    ghost predicate IsBackground(p: int)
      requires Valid()
    {
      exists chain :: IsChain(chain) && chain[|chain| - 1] == p
    }
  }

  lemma PixelIndex(width: nat, height: nat, x: int, y: int)
    requires 0 <= x < width && 0 <= y < height
    ensures 0 <= y * width + x < width * height
    ensures (y * width + x) % width == x && (y * width + x) / width == y
  {
    TimesMonotone(height, y + 1, width);
    UniqueQuotient(y * width + x, width, y, x);
  }

  lemma PixelPlace(width: nat, height: nat, p: int)
    requires 0 <= p < width * height
    ensures width > 0 && 0 <= p % width < width && 0 <= p / width < height
    ensures p == p / width * width + p % width
  {
    assert width > 0;
    TimesMonotone(p / width, height, width);
  }

  /** Neighbours are one apart in one direction; in particular no row runs on into the next. */
  lemma NeighboursAreOneApart(img: Image, x: int, y: int, u: int, v: int)
    requires 0 <= x < img.width && 0 <= y < img.height && 0 <= u < img.width && 0 <= v < img.height
    ensures img.Adjacent(y * img.width + x, v * img.width + u) <==>
              (x == u && (y == v + 1 || v == y + 1)) || (y == v && (x == u + 1 || u == x + 1))
  {
    PixelIndex(img.width, img.height, x, y);
    PixelIndex(img.width, img.height, u, v);
  }

  lemma TimesMonotone(a: int, b: int, n: nat)
    ensures a >= b ==> a * n >= b * n
  {
  }

  lemma ChainExtends(img: Image, p: int, q: int)
    requires img.Valid() && img.IsBackground(p) && img.IsPixel(q) && img.Matches(q) && img.Adjacent(p, q)
    ensures img.IsBackground(q)
  {
    var chain :| img.IsChain(chain) && chain[|chain| - 1] == p;
    var longer := chain + [q];
    assert img.IsChain(longer);
  }

  lemma BorderMatchIsBackground(img: Image, p: int)
    requires img.Valid() && img.IsPixel(p) && img.Matches(p) && img.OnBorder(p)
    ensures img.IsBackground(p)
  {
    assert img.IsChain([p]);
  }

  /**
   * A region cut off from the border, such as the inside of a letter O, is not background even if it has the colour.
   */
  lemma EnclosedIsNotBackground(img: Image, region: set<int>, p: int)
    requires img.Valid() && p in region
    requires forall q :: q in region && img.IsPixel(q) ==> !img.OnBorder(q)
    requires forall q, r :: q in region && img.IsPixel(r) && img.Matches(r) && img.Adjacent(r, q) ==> r in region
    ensures !img.IsBackground(p)
  {
    if img.IsBackground(p) {
      var chain :| img.IsChain(chain) && chain[|chain| - 1] == p;
      ChainStaysOutside(img, region, chain, |chain| - 1);
    }
  }

  lemma {:induction false} ChainStaysOutside(img: Image, region: set<int>, chain: seq<int>, i: nat)
    requires img.Valid() && img.IsChain(chain) && i < |chain|
    requires forall q :: q in region && img.IsPixel(q) ==> !img.OnBorder(q)
    requires forall q, r :: q in region && img.IsPixel(r) && img.Matches(r) && img.Adjacent(r, q) ==> r in region
    ensures chain[i] !in region
  {
    if i > 0 {
      ChainStaysOutside(img, region, chain, i - 1);
      assert img.Adjacent(chain[i - 1], chain[i]);
    }
  }

  // ---- floodFillBackgroundMask -------------------------------------------------------

  function CountUnset(s: seq<bool>): nat {
    if s == [] then 0 else (if s[0] then 0 else 1) + CountUnset(s[1..])
  }

  lemma {:induction false} SettingOneCounts(s: seq<bool>, i: nat)
    requires i < |s| && !s[i]
    ensures CountUnset(s[i := true]) == CountUnset(s) - 1
  {
    if i > 0 {
      SettingOneCounts(s[1..], i - 1);
      assert s[i := true][1..] == s[1..][i - 1 := true];
    } else {
      assert s[i := true][1..] == s[1..];
    }
  }

  /** The working state of the fill: the mask, the pixels already looked at, and the stack of pixels to spread from. */
  class BackgroundFill {
    ghost const img: Image
    const data: array<Byte>
    const width: nat
    const height: nat
    const bg: Color
    const mask: array<bool>
    const visited: array<bool>
    var queue: seq<int>

    ghost predicate Valid()
      reads this, data, mask, visited
    {
      && img.Valid() && img.data == data[..] && img.width == width && img.height == height && img.bg == bg
      && mask != visited
      && mask.Length == width * height && visited.Length == width * height
      && (forall p :: 0 <= p < mask.Length ==> (mask[p] <==> visited[p] && img.Matches(p)))
      && (forall p :: 0 <= p < mask.Length && mask[p] ==> img.IsBackground(p))
      && (forall i :: 0 <= i < |queue| ==> img.IsPixel(queue[i]) && mask[queue[i]])
    }

    ghost predicate NeighboursSeen(p: int)
      reads visited
    {
      forall q :: 0 <= q < visited.Length && img.Adjacent(p, q) ==> visited[q]
    }

    /** Every marked pixel that is not waiting has had all its neighbours looked at; `except` is being worked on. */
    ghost predicate Spread(except: int)
      reads this, data, mask, visited
      requires Valid()
    {
      forall p :: img.IsPixel(p) && mask[p] && p !in queue && p != except ==> NeighboursSeen(p)
    }

    constructor (data: array<Byte>, width: nat, height: nat, bg: Color)
      requires data.Length == 4 * (width * height)
      ensures Valid() && fresh(mask) && fresh(visited) && queue == []
      ensures this.data == data && this.width == width && this.height == height && this.bg == bg
      ensures Spread(-1) && forall p :: 0 <= p < visited.Length ==> !visited[p]
    {
      this.data, this.width, this.height, this.bg := data, width, height, bg;
      this.img := Image(data[..], width, height, bg);
      this.mask := new bool[width * height](_ => false);
      this.visited := new bool[width * height](_ => false);
      this.queue := [];
    }

    /** The pixel in column x and row y, if there is one, has been looked at. */
    ghost predicate LookedAt(x: int, y: int)
      reads visited
    {
      0 <= x < width && 0 <= y < height ==> 0 <= y * width + x < visited.Length && visited[y * width + x]
    }

    /** The top and the bottom pixel of column x have been looked at. */
    ghost predicate ColumnEnds(x: int)
      reads visited
    {
      LookedAt(x, 0) && LookedAt(x, height - 1)
    }

    /** The first and the last pixel of row y have been looked at. */
    ghost predicate RowEnds(y: int)
      reads visited
    {
      LookedAt(0, y) && LookedAt(width - 1, y)
    }

    ghost predicate Seeded()
      reads visited
    {
      (forall x :: 0 <= x < width ==> ColumnEnds(x)) && (forall y :: 0 <= y < height ==> RowEnds(y))
    }

    /** Marking the pixel in column x and row y, if it matches, is right: it is background. */
    ghost predicate MayMark(x: int, y: int)
      requires img.Valid()
    {
      0 <= x < width && 0 <= y < height ==>
        var q := y * width + x;
        img.IsPixel(q) && (img.Matches(q) ==> img.IsBackground(q))
    }

    method MaybeEnqueue(x: int, y: int, ghost except: int)
      requires Valid() && Spread(except)
      requires MayMark(x, y)
      modifies this`queue, mask, visited
      ensures Valid() && Spread(except) && LookedAt(x, y)
      ensures forall p :: img.IsPixel(p) && old(mask[p]) ==> mask[p]
      ensures forall a, b :: old(LookedAt(a, b)) ==> LookedAt(a, b)
      ensures forall k :: old(ColumnEnds(k)) ==> ColumnEnds(k)
      ensures forall k :: old(RowEnds(k)) ==> RowEnds(k)
      ensures old(Seeded()) ==> Seeded()
      ensures CountUnset(visited[..]) <= old(CountUnset(visited[..]))
      ensures queue == old(queue) || CountUnset(visited[..]) < old(CountUnset(visited[..]))
    {
      hide Image.Adjacent, Image.OnBorder, Image.IsBackground, Image.IsChain;
      if x < 0 || x >= width || y < 0 || y >= height {
        return;
      }
      PixelIndex(width, height, x, y);
      var idx := y * width + x;
      if visited[idx] {
        return;
      }
      SettingOneCounts(visited[..], idx);
      visited[idx] := true;
      assert visited[..] == old(visited[..])[idx := true];
      if Close(Color(data[4 * idx] as real, data[4 * idx + 1] as real, data[4 * idx + 2] as real), bg) {
        mask[idx] := true;
        queue := queue + [idx];
      }
    }

    lemma BorderCell(x: int, y: int)
      requires Valid() && (x == 0 || x == width - 1 || y == 0 || y == height - 1)
      ensures MayMark(x, y)
    {
      if 0 <= x < width && 0 <= y < height {
        PixelIndex(width, height, x, y);
        var q := y * width + x;
        if img.Matches(q) {
          BorderMatchIsBackground(img, q);
        }
      }
    }

    predicate NextTo(p: int, x: int, y: int) {
      && width > 0
      && ((x == p % width && (y == p / width + 1 || y == p / width - 1))
          || (y == p / width && (x == p % width + 1 || x == p % width - 1)))
    }

    lemma NeighbourCell(p: int, x: int, y: int)
      requires Valid() && img.IsPixel(p) && mask[p] && NextTo(p, x, y)
      ensures MayMark(x, y)
    {
      if 0 <= x < width && 0 <= y < height {
        PixelIndex(width, height, x, y);
        var q := y * width + x;
        assert img.Adjacent(p, q);
        if img.Matches(q) {
          ChainExtends(img, p, q);
        }
      }
    }

    method SeedTopAndBottom()
      requires Valid() && Spread(-1)
      modifies this`queue, mask, visited
      ensures Valid() && Spread(-1)
      ensures forall k :: 0 <= k < width ==> ColumnEnds(k)
    {
      hide Valid, Spread, LookedAt, MayMark, Seeded, RowEnds;
      for x := 0 to width
        invariant Valid() && Spread(-1)
        invariant forall k :: 0 <= k < x ==> ColumnEnds(k)
      {
        BorderCell(x, 0);
        MaybeEnqueue(x, 0, -1);
        BorderCell(x, height - 1);
        MaybeEnqueue(x, height - 1, -1);
        assert ColumnEnds(x);
      }
    }

    method SeedLeftAndRight()
      requires Valid() && Spread(-1)
      requires forall k :: 0 <= k < width ==> ColumnEnds(k)
      modifies this`queue, mask, visited
      ensures Valid() && Spread(-1) && Seeded()
    {
      hide Valid, Spread, LookedAt, MayMark, ColumnEnds;
      for y := 0 to height
        invariant Valid() && Spread(-1)
        invariant forall k :: 0 <= k < width ==> ColumnEnds(k)
        invariant forall k :: 0 <= k < y ==> RowEnds(k)
      {
        BorderCell(0, y);
        MaybeEnqueue(0, y, -1);
        BorderCell(width - 1, y);
        MaybeEnqueue(width - 1, y, -1);
        assert RowEnds(y);
      }
    }

    lemma BorderSeeded(p: int)
      requires Valid() && Seeded() && img.IsPixel(p) && img.OnBorder(p)
      ensures visited[p]
    {
      PixelPlace(width, height, p);
      assert ColumnEnds(p % width) && RowEnds(p / width);
    }

    method SpreadFrom(idx: int)
      requires Valid() && img.IsPixel(idx) && mask[idx] && Spread(idx)
      modifies this`queue, mask, visited
      ensures Valid() && Spread(-1)
      ensures old(Seeded()) ==> Seeded()
      ensures CountUnset(visited[..]) <= old(CountUnset(visited[..]))
      ensures queue == old(queue) || CountUnset(visited[..]) < old(CountUnset(visited[..]))
    {
      hide Valid, Spread, LookedAt, MayMark, Seeded, ColumnEnds, RowEnds;
      InImage(idx);
      var x := idx % width;
      var y := idx / width;
      NeighbourCell(idx, x + 1, y);
      MaybeEnqueue(x + 1, y, idx);
      NeighbourCell(idx, x - 1, y);
      MaybeEnqueue(x - 1, y, idx);
      NeighbourCell(idx, x, y + 1);
      MaybeEnqueue(x, y + 1, idx);
      NeighbourCell(idx, x, y - 1);
      MaybeEnqueue(x, y - 1, idx);
      NeighboursDone(idx);
    }

    lemma InImage(p: int)
      requires Valid() && img.IsPixel(p)
      ensures width > 0 && 0 <= p < mask.Length
    {
    }

    lemma NeighboursDone(idx: int)
      requires Valid() && Spread(idx) && img.IsPixel(idx) && width > 0
      requires LookedAt(idx % width + 1, idx / width) && LookedAt(idx % width - 1, idx / width)
      requires LookedAt(idx % width, idx / width + 1) && LookedAt(idx % width, idx / width - 1)
      ensures Spread(-1)
    {
      assert NeighboursSeen(idx) by {
        forall q | img.IsPixel(q) && img.Adjacent(idx, q) ensures visited[q] {
          PixelPlace(width, height, q);
          assert LookedAt(q % width, q / width);
        }
      }
    }

    method Run()
      requires Valid() && Spread(-1)
      modifies this`queue, mask, visited
      ensures Valid()
      ensures forall p :: img.IsPixel(p) ==> (mask[p] <==> img.IsBackground(p))
    {
      hide Valid, Spread, LookedAt, MayMark, Seeded, ColumnEnds, RowEnds;
      SeedTopAndBottom();
      SeedLeftAndRight();
      while |queue| > 0
        invariant Valid() && Spread(-1) && Seeded()
        decreases CountUnset(visited[..]), |queue|
      {
        var idx := Pop();
        SpreadFrom(idx);
      }
      MarkedIsBackground();
    }

    method Pop() returns (idx: int)
      requires Valid() && Spread(-1) && |queue| > 0
      modifies this`queue
      ensures idx == old(queue)[|old(queue)| - 1] && queue == old(queue)[..|old(queue)| - 1]
      ensures Valid() && img.IsPixel(idx) && mask[idx] && Spread(idx)
      ensures old(Seeded()) ==> Seeded()
    {
      hide NeighboursSeen, LookedAt;
      idx := queue[|queue| - 1];
      queue := queue[..|queue| - 1];
      assert forall p :: p in old(queue) ==> p in queue || p == idx by {
        assert old(queue) == queue + [idx];
      }
    }

    /** With nothing left to spread from, the mask is the background. */
    lemma MarkedIsBackground()
      requires Valid() && Spread(-1) && Seeded() && queue == []
      ensures forall p :: img.IsPixel(p) ==> 0 <= p < mask.Length && (mask[p] <==> img.IsBackground(p))
    {
      forall p | img.IsPixel(p) && img.IsBackground(p) ensures mask[p] {
        var chain :| img.IsChain(chain) && chain[|chain| - 1] == p;
        ChainIsMarked(chain, |chain| - 1);
      }
    }

    lemma {:induction false} ChainIsMarked(chain: seq<int>, i: nat)
      requires Valid() && Spread(-1) && Seeded() && queue == [] && img.IsChain(chain) && i < |chain|
      ensures mask[chain[i]]
    {
      if i > 0 {
        ChainIsMarked(chain, i - 1);
        assert NeighboursSeen(chain[i - 1]) && img.Adjacent(chain[i - 1], chain[i]);
      } else {
        BorderSeeded(chain[0]);
      }
    }
  }

  // ---- existing transparency -----------------------------------------------------------

  predicate TransparentAt(data: seq<Byte>, p: int) {
    0 <= p && 4 * p + 3 < |data| && data[4 * p + 3] < 250
  }

  function SampleStep(totalPixels: nat): nat {
    if totalPixels / 5000 >= 1 then totalPixels / 5000 else 1
  }

  lemma StepIsPositive(totalPixels: nat)
    ensures SampleStep(totalPixels) >= 1
  {
  }

  /** How many of the first `n` sampled pixels are not practically opaque. */
  function TransparentSamples(data: seq<Byte>, step: nat, n: nat): nat {
    if n == 0 then 0
    else TransparentSamples(data, step, n - 1) + (if TransparentAt(data, (n - 1) * step) then 1 else 0)
  }

  /** The quotient of pixels and step, rounded up. */
  function SampleCount(totalPixels: nat): nat {
    StepIsPositive(totalPixels);
    (totalPixels + SampleStep(totalPixels) - 1) / SampleStep(totalPixels)
  }

  /** More than one in twenty of the sampled pixels is transparent. */
  predicate HasTransparency(data: seq<Byte>, totalPixels: nat) {
    var n := SampleCount(totalPixels);
    20 * TransparentSamples(data, SampleStep(totalPixels), n) > n
  }

  /**
   * The rounded-up quotient is the number of sampled pixels: exactly so many multiples of the step lie in the image.
   */
  lemma SamplesInImage(totalPixels: nat, k: nat)
    ensures k * SampleStep(totalPixels) < totalPixels <==> k < SampleCount(totalPixels)
  {
    hide SampleStep;
    StepIsPositive(totalPixels);
    var step, n := SampleStep(totalPixels), SampleCount(totalPixels);
    assert totalPixels + step - 1 == step * n + (totalPixels + step - 1) % step;
    TimesMonotone(k, n, step);
    TimesMonotone(n - 1, k, step);
    assert (n - 1) * step == n * step - step;
  }

  /** Images of less than 10000 pixels are sampled in full, larger ones at 5000 to 9999 pixels. */
  lemma SampleSize(totalPixels: nat)
    ensures totalPixels < 10000 ==> SampleStep(totalPixels) == 1 && SampleCount(totalPixels) == totalPixels
    ensures totalPixels >= 5000 ==> 5000 <= SampleCount(totalPixels) < 10000
  {
    if totalPixels >= 5000 {
      var step := totalPixels / 5000;
      var rest := totalPixels % 5000;
      assert totalPixels == 5000 * step + rest && step >= 1;
      var n := SampleCount(totalPixels);
      assert totalPixels + step - 1 == step * n + (totalPixels + step - 1) % step;
      if n < 5000 {
        TimesMonotone(4999, n, step);
      } else if n >= 10000 {
        TimesMonotone(n - 5000, 5000, step);
      }
    }
  }

  /** The count is that of the sampled pixels that are not practically opaque. */
  lemma {:induction false} SamplesAreCounted(data: seq<Byte>, step: nat, n: nat)
    ensures TransparentSamples(data, step, n) == |set k | 0 <= k < n && TransparentAt(data, k * step)|
  {
    if n > 0 {
      SamplesAreCounted(data, step, n - 1);
      var before := set k | 0 <= k < n - 1 && TransparentAt(data, k * step);
      var all := set k | 0 <= k < n && TransparentAt(data, k * step);
      assert all == if TransparentAt(data, (n - 1) * step) then before + {n - 1} else before;
    }
  }

  /** Transparency is meaningful if and only if more than 5% of the sampled pixels have it. */
  lemma TransparencyIsAShare(data: seq<Byte>, totalPixels: nat)
    ensures var step, n := SampleStep(totalPixels), SampleCount(totalPixels);
            HasTransparency(data, totalPixels) <==>
              100 * |set k | 0 <= k < n && TransparentAt(data, k * step)| > 5 * n
  {
    SamplesAreCounted(data, SampleStep(totalPixels), SampleCount(totalPixels));
  }

  lemma {:induction false} AllOrNoneTransparent(data: seq<Byte>, step: nat, n: nat)
    ensures (forall k :: 0 <= k < n ==> !TransparentAt(data, k * step)) ==> TransparentSamples(data, step, n) == 0
    ensures (forall k :: 0 <= k < n ==> TransparentAt(data, k * step)) ==> TransparentSamples(data, step, n) == n
  {
    hide TransparentAt;
    if n > 0 {
      AllOrNoneTransparent(data, step, n - 1);
      var last := n - 1;
      assert TransparentAt(data, last * step) || !TransparentAt(data, last * step);
    }
  }

  /** An image without a transparent pixel has no meaningful transparency, one without any other has. */
  lemma OpaqueAndClear(data: seq<Byte>, totalPixels: nat)
    requires |data| == 4 * totalPixels
    ensures (forall p :: 0 <= p < totalPixels ==> data[4 * p + 3] >= 250) ==> !HasTransparency(data, totalPixels)
    ensures totalPixels > 0 && (forall p :: 0 <= p < totalPixels ==> data[4 * p + 3] < 250) ==>
              HasTransparency(data, totalPixels)
  {
    hide SampleStep, SampleCount;
    var step, n := SampleStep(totalPixels), SampleCount(totalPixels);
    forall k: nat | k < n ensures 0 <= k * step < totalPixels {
      SamplesInImage(totalPixels, k);
      StepIsPositive(totalPixels);
    }
    SamplesInImage(totalPixels, 0);
    AllOrNoneTransparent(data, step, n);
  }

  method HasMeaningfulExistingTransparency(data: array<Byte>, width: nat, height: nat) returns (result: bool)
    requires data.Length == 4 * (width * height)
    ensures result == HasTransparency(data[..], width * height)
  {
    hide SampleStep, SampleCount, TransparentAt;
    var totalPixels := width * height;
    var transparentCount := 0;
    var step := SampleStep(totalPixels);
    StepIsPositive(totalPixels);
    var p := 0;
    ghost var k := 0;
    while p < totalPixels
      invariant p == k * step && k <= SampleCount(totalPixels)
      invariant transparentCount == TransparentSamples(data[..], step, k)
    {
      SamplesInImage(totalPixels, k);
      SampleAt(data[..], p);
      if data[4 * p + 3] < 250 {
        transparentCount := transparentCount + 1;
      }
      assert (k + 1) * step == k * step + step;
      p := p + step;
      k := k + 1;
    }
    SamplesInImage(totalPixels, k);
    var sampledCount := SampleCount(totalPixels);
    result := 20 * transparentCount > sampledCount;
  }

  lemma SampleAt(data: seq<Byte>, p: nat)
    requires 4 * p + 3 < |data|
    ensures TransparentAt(data, p) <==> data[4 * p + 3] < 250
  {
  }

  // ---- the corner colours ----------------------------------------------------------------

  function Plus(a: Color, b: Color): Color {
    Color(a.r + b.r, a.g + b.g, a.b + b.b)
  }

  /** The pixel in column x and row y, or black outside the buffer. */
  function At(data: seq<Byte>, width: nat, x: int, y: int): Color {
    var idx := y * width + x;
    if 0 <= idx && 4 * idx + 3 < |data| then PixelColor(data, idx) else Color(0.0, 0.0, 0.0)
  }

  /** Sum over `n` pixels of a row. */
  function RowSum(data: seq<Byte>, width: nat, x: int, y: int, n: nat): Color {
    if n == 0 then Color(0.0, 0.0, 0.0) else Plus(RowSum(data, width, x, y, n - 1), At(data, width, x + (n - 1), y))
  }

  /** Sum over `n` rows of four pixels each. */
  function BlockSum(data: seq<Byte>, width: nat, x: int, y: int, n: nat): Color {
    if n == 0 then Color(0.0, 0.0, 0.0)
    else Plus(BlockSum(data, width, x, y, n - 1), RowSum(data, width, x, y + (n - 1), CORNER_SAMPLE))
  }

  function BlockMean(data: seq<Byte>, width: nat, x: int, y: int): Color {
    var sum := BlockSum(data, width, x, y, CORNER_SAMPLE);
    Color(sum.r / 16.0, sum.g / 16.0, sum.b / 16.0)
  }

  /** The pixel in column x and row y of the buffer has the colour. */
  predicate HasColor(data: seq<Byte>, width: nat, x: int, y: int, c: Color) {
    var i := 4 * (y * width + x);
    0 <= i && i + 3 < |data|
    && data[i] as real == c.r && data[i + 1] as real == c.g && data[i + 2] as real == c.b
  }

  /** The block of sixteen pixels with its upper left one in column x and row y is of one colour. */
  ghost predicate IsUniform(data: seq<Byte>, width: nat, x: int, y: int, c: Color) {
    forall i, j :: x <= i < x + CORNER_SAMPLE && y <= j < y + CORNER_SAMPLE ==> HasColor(data, width, i, j, c)
  }

  lemma HasColorAt(data: seq<Byte>, width: nat, x: int, y: int, c: Color)
    requires HasColor(data, width, x, y, c)
    ensures At(data, width, x, y) == c
  {
  }

  function Times(k: real, c: Color): Color {
    Color(k * c.r, k * c.g, k * c.b)
  }

  /** The mean of a block of one colour is that colour. */
  lemma UniformBlock(data: seq<Byte>, width: nat, x: int, y: int, c: Color)
    requires IsUniform(data, width, x, y, c)
    ensures BlockMean(data, width, x, y) == c
  {
    hide At, BlockSum;
    UniformRows(data, width, x, y, CORNER_SAMPLE, c);
  }

  lemma {:induction false} UniformRows(data: seq<Byte>, width: nat, x: int, y: int, n: nat, c: Color)
    requires n <= CORNER_SAMPLE && IsUniform(data, width, x, y, c)
    ensures BlockSum(data, width, x, y, n) == Times((4 * n) as real, c)
  {
    hide At, RowSum, HasColor;
    if n > 0 {
      var last := y + (n - 1);
      forall i | x <= i < x + CORNER_SAMPLE ensures At(data, width, i, last) == c {
        assert HasColor(data, width, i, last, c);
        HasColorAt(data, width, i, last, c);
      }
      UniformRows(data, width, x, y, n - 1, c);
      UniformRow(data, width, x, last, CORNER_SAMPLE, c);
      TimesDistributes((4 * n - 4) as real, 4.0, c);
    }
  }

  lemma {:induction false} UniformRow(data: seq<Byte>, width: nat, x: int, y: int, n: nat, c: Color)
    requires forall i :: x <= i < x + n ==> At(data, width, i, y) == c
    ensures RowSum(data, width, x, y, n) == Times(n as real, c)
  {
    hide At;
    if n > 0 {
      UniformRow(data, width, x, y, n - 1, c);
      TimesDistributes((n - 1) as real, 1.0, c);
    }
  }

  lemma TimesDistributes(a: real, b: real, c: Color)
    ensures Times(a + b, c) == Plus(Times(a, c), Times(b, c))
  {
  }

  /** The sum of four neighbouring pixels of a row. */
  lemma RowOfFour(data: seq<Byte>, width: nat, x: int, y: int, a: Color, b: Color, c: Color, d: Color)
    requires HasColor(data, width, x, y, a) && HasColor(data, width, x + 1, y, b)
    requires HasColor(data, width, x + 2, y, c) && HasColor(data, width, x + 3, y, d)
    ensures RowSum(data, width, x, y, CORNER_SAMPLE) == Plus(Plus(Plus(a, b), c), d)
  {
    hide At, HasColor;
    HasColorAt(data, width, x, y, a);
    HasColorAt(data, width, x + 1, y, b);
    HasColorAt(data, width, x + 2, y, c);
    HasColorAt(data, width, x + 3, y, d);
    RowStep(data, width, x, y, 0);
    RowStep(data, width, x, y, 1);
    RowStep(data, width, x, y, 2);
    RowStep(data, width, x, y, 3);
  }

  /** The mean of any block is the sum of its sixteen pixels, given row by row, over sixteen. */
  lemma MeanOfSixteen(data: seq<Byte>, width: nat, x: int, y: int, px: seq<seq<Color>>)
    requires |px| == 4 && forall j :: 0 <= j < 4 ==> |px[j]| == 4
    requires forall i, j :: 0 <= i < 4 && 0 <= j < 4 ==> HasColor(data, width, x + i, y + j, px[j][i])
    ensures var mean := BlockMean(data, width, x, y);
            && 16.0 * mean.r == px[0][0].r + px[0][1].r + px[0][2].r + px[0][3].r
                                + px[1][0].r + px[1][1].r + px[1][2].r + px[1][3].r
                                + px[2][0].r + px[2][1].r + px[2][2].r + px[2][3].r
                                + px[3][0].r + px[3][1].r + px[3][2].r + px[3][3].r
            && 16.0 * mean.g == px[0][0].g + px[0][1].g + px[0][2].g + px[0][3].g
                                + px[1][0].g + px[1][1].g + px[1][2].g + px[1][3].g
                                + px[2][0].g + px[2][1].g + px[2][2].g + px[2][3].g
                                + px[3][0].g + px[3][1].g + px[3][2].g + px[3][3].g
            && 16.0 * mean.b == px[0][0].b + px[0][1].b + px[0][2].b + px[0][3].b
                                + px[1][0].b + px[1][1].b + px[1][2].b + px[1][3].b
                                + px[2][0].b + px[2][1].b + px[2][2].b + px[2][3].b
                                + px[3][0].b + px[3][1].b + px[3][2].b + px[3][3].b
  {
    hide RowSum, HasColor;
    forall j | 0 <= j < 4
      ensures RowSum(data, width, x, y + j, CORNER_SAMPLE) == Plus(Plus(Plus(px[j][0], px[j][1]), px[j][2]), px[j][3])
    {
      assert HasColor(data, width, x + 0, y + j, px[j][0]);
      RowOfFour(data, width, x, y + j, px[j][0], px[j][1], px[j][2], px[j][3]);
    }
    BlockStep(data, width, x, y, 0);
    BlockStep(data, width, x, y, 1);
    BlockStep(data, width, x, y, 2);
    BlockStep(data, width, x, y, 3);
  }

  method AverageBlock(data: array<Byte>, width: nat, height: nat, startX: int, startY: int) returns (mean: Color)
    requires data.Length == 4 * (width * height)
    requires 0 <= startX <= width - CORNER_SAMPLE && 0 <= startY <= height - CORNER_SAMPLE
    ensures mean == BlockMean(data[..], width, startX, startY)
  {
    hide At, Plus, BlockSum, RowSum;
    SumSteps(data[..], width, startX, startY);
    var sum := Color(0.0, 0.0, 0.0);
    var n := 0;
    var endX := if startX + CORNER_SAMPLE < width then startX + CORNER_SAMPLE else width;
    var endY := if startY + CORNER_SAMPLE < height then startY + CORNER_SAMPLE else height;
    for y := (if startY > 0 then startY else 0) to endY
      invariant n == CORNER_SAMPLE * (y - startY)
      invariant sum == BlockSum(data[..], width, startX, startY, y - startY)
    {
      ghost var above := sum;
      SumSteps(data[..], width, startX, y);
      PlusAssociates(above, Color(0.0, 0.0, 0.0), Color(0.0, 0.0, 0.0));
      for x := (if startX > 0 then startX else 0) to endX
        invariant n == CORNER_SAMPLE * (y - startY) + (x - startX)
        invariant sum == Plus(above, RowSum(data[..], width, startX, y, x - startX))
      {
        var pixel := PixelAt(data, width, height, x, y);
        PlusAssociates(above, RowSum(data[..], width, startX, y, x - startX), pixel);
        RowStep(data[..], width, startX, y, x - startX);
        sum, n := Plus(sum, pixel), n + 1;
      }
      BlockStep(data[..], width, startX, startY, y - startY);
    }
    mean := Color(sum.r / n as real, sum.g / n as real, sum.b / n as real);
  }

  lemma PlusAssociates(a: Color, b: Color, c: Color)
    ensures Plus(Plus(a, b), c) == Plus(a, Plus(b, c))
    ensures Plus(a, Color(0.0, 0.0, 0.0)) == a
  {
  }

  lemma SumSteps(data: seq<Byte>, width: nat, x: int, y: int)
    ensures RowSum(data, width, x, y, 0) == BlockSum(data, width, x, y, 0) == Color(0.0, 0.0, 0.0)
  {
  }

  lemma RowStep(data: seq<Byte>, width: nat, x: int, y: int, n: nat)
    ensures RowSum(data, width, x, y, n + 1) == Plus(RowSum(data, width, x, y, n), At(data, width, x + n, y))
  {
  }

  lemma BlockStep(data: seq<Byte>, width: nat, x: int, y: int, n: nat)
    ensures BlockSum(data, width, x, y, n + 1)
            == Plus(BlockSum(data, width, x, y, n), RowSum(data, width, x, y + n, CORNER_SAMPLE))
  {
  }

  method PixelAt(data: array<Byte>, width: nat, height: nat, x: int, y: int) returns (pixel: Color)
    requires data.Length == 4 * (width * height) && 0 <= x < width && 0 <= y < height
    ensures pixel == At(data[..], width, x, y)
  {
    PixelIndex(width, height, x, y);
    var i := (y * width + x) * 4;
    pixel := Color(data[i] as real, data[i + 1] as real, data[i + 2] as real);
  }

  /** The mean of the top left corner, if the other three corners agree with it. */
  function CornerColor(data: seq<Byte>, width: nat, height: nat): Option<Color> {
    var first := BlockMean(data, width, 0, 0);
    if && Close(first, BlockMean(data, width, width - CORNER_SAMPLE, 0))
       && Close(first, BlockMean(data, width, 0, height - CORNER_SAMPLE))
       && Close(first, BlockMean(data, width, width - CORNER_SAMPLE, height - CORNER_SAMPLE))
    then Some(first) else None
  }

  /** The four corner blocks are each of one colour. */
  ghost predicate HasCorners(data: seq<Byte>, width: nat, height: nat, topLeft: Color, topRight: Color,
                             bottomLeft: Color, bottomRight: Color) {
    && IsUniform(data, width, 0, 0, topLeft) && IsUniform(data, width, width - 4, 0, topRight)
    && IsUniform(data, width, 0, height - 4, bottomLeft) && IsUniform(data, width, width - 4, height - 4, bottomRight)
  }

  /** Such corners give the colour of the first if each of the others is close to it, and none otherwise. */
  lemma CornersDecide(data: seq<Byte>, width: nat, height: nat, topLeft: Color, topRight: Color, bottomLeft: Color,
                      bottomRight: Color)
    requires HasCorners(data, width, height, topLeft, topRight, bottomLeft, bottomRight)
    ensures CornerColor(data, width, height) ==
            if Close(topLeft, topRight) && Close(topLeft, bottomLeft) && Close(topLeft, bottomRight) then Some(topLeft)
            else None
  {
    hide Close, BlockMean, IsUniform;
    UniformBlock(data, width, 0, 0, topLeft);
    UniformBlock(data, width, width - 4, 0, topRight);
    UniformBlock(data, width, 0, height - 4, bottomLeft);
    UniformBlock(data, width, width - 4, height - 4, bottomRight);
  }

  method SampleCornerColor(data: array<Byte>, width: nat, height: nat) returns (bg: Option<Color>)
    requires data.Length == 4 * (width * height) && width >= MIN_DIMENSION && height >= MIN_DIMENSION
    ensures bg == CornerColor(data[..], width, height)
  {
    hide BlockMean, Close;
    var first := AverageBlock(data, width, height, 0, 0);
    var second := AverageBlock(data, width, height, width - CORNER_SAMPLE, 0);
    var third := AverageBlock(data, width, height, 0, height - CORNER_SAMPLE);
    var fourth := AverageBlock(data, width, height, width - CORNER_SAMPLE, height - CORNER_SAMPLE);
    var rest := [second, third, fourth];
    if exists i :: 0 <= i < |rest| && !Close(first, rest[i]) {
      bg := None;
    } else {
      assert Close(first, rest[0]) && Close(first, rest[1]) && Close(first, rest[2]);
      bg := Some(first);
    }
  }

  // ---- maybeRemoveFlatBackground ------------------------------------------------------------

  ghost function BackgroundPixels(img: Image): set<int>
    requires img.Valid()
  {
    set p | 0 <= p < img.width * img.height && img.IsBackground(p)
  }

  /**
   * When the heuristic acts: enough of the image is background, and neither transparency nor disagreeing corners forbid
   * it.
   */
  ghost predicate IsFlatBackdrop(data: seq<Byte>, width: nat, height: nat, channels: int)
    requires channels == 4 ==> |data| == 4 * (width * height)
  {
    && channels == 4 && width >= MIN_DIMENSION && height >= MIN_DIMENSION
    && !HasTransparency(data, width * height)
    && CornerColor(data, width, height).Some?
    && var img := Image(data, width, height, CornerColor(data, width, height).value);
       100 * |BackgroundPixels(img)| >= 15 * (width * height)
  }

  /** An image with a corner unlike the first is handed back. */
  lemma UnlikeCornersAreNoBackdrop(data: seq<Byte>, width: nat, height: nat, channels: int, topLeft: Color,
                                   topRight: Color, bottomLeft: Color, bottomRight: Color)
    requires channels == 4 ==> |data| == 4 * (width * height)
    requires HasCorners(data, width, height, topLeft, topRight, bottomLeft, bottomRight)
    requires !Close(topLeft, topRight) || !Close(topLeft, bottomLeft) || !Close(topLeft, bottomRight)
    ensures !IsFlatBackdrop(data, width, height, channels)
  {
    hide HasTransparency, CornerColor, HasCorners, Close;
    CornersDecide(data, width, height, topLeft, topRight, bottomLeft, bottomRight);
  }

  /**
   * An opaque image of sufficient size with like corners is changed if and only if the background, which has the colour
   * of the first corner, is at least 15% of it.
   */
  lemma LikeCornersAreBackdrop(data: seq<Byte>, width: nat, height: nat, topLeft: Color, topRight: Color,
                               bottomLeft: Color, bottomRight: Color)
    requires |data| == 4 * (width * height) && width >= 32 && height >= 32
    requires HasCorners(data, width, height, topLeft, topRight, bottomLeft, bottomRight)
    requires Close(topLeft, topRight) && Close(topLeft, bottomLeft) && Close(topLeft, bottomRight)
    requires forall p :: 0 <= p < width * height ==> data[4 * p + 3] >= 250
    ensures IsFlatBackdrop(data, width, height, 4) <==>
            100 * |BackgroundPixels(Image(data, width, height, topLeft))| >= 15 * (width * height)
  {
    hide HasTransparency, CornerColor, HasCorners, Close;
    CornersDecide(data, width, height, topLeft, topRight, bottomLeft, bottomRight);
    OpaqueAndClear(data, width * height);
  }

  method CountMarked(mask: array<bool>) returns (count: nat)
    ensures count == |set p | 0 <= p < mask.Length && mask[p]|
  {
    count := 0;
    ghost var marked: set<int> := {};
    for i := 0 to mask.Length
      invariant marked == set p | 0 <= p < i && mask[p]
      invariant count == |marked|
    {
      if mask[i] {
        count := count + 1;
        marked := marked + {i};
      }
    }
  }

  method FloodFillBackgroundMask(data: array<Byte>, width: nat, height: nat, bg: Color) returns (mask: array<bool>)
    requires data.Length == 4 * (width * height)
    ensures fresh(mask) && mask.Length == width * height
    ensures var img := Image(data[..], width, height, bg);
            forall p :: 0 <= p < mask.Length ==> (mask[p] <==> img.IsBackground(p))
  {
    var fill := new BackgroundFill(data, width, height, bg);
    fill.Run();
    mask := fill.mask;
  }

  method MaybeRemoveFlatBackground(data: array<Byte>, width: nat, height: nat, channels: int)
    returns (out: array<Byte>, transparencyApplied: bool)
    requires channels == 4 ==> data.Length == 4 * (width * height)
    ensures transparencyApplied <==> IsFlatBackdrop(data[..], width, height, channels)
    ensures !transparencyApplied ==> out == data
    ensures transparencyApplied ==>
              var img := Image(data[..], width, height, CornerColor(data[..], width, height).value);
              && fresh(out) && out.Length == data.Length
              && forall i :: 0 <= i < out.Length ==>
                   out[i] == if i % 4 == 3 && img.IsBackground(i / 4) then 0 else data[i]
  {
    hide HasTransparency, CornerColor;
    out, transparencyApplied := data, false;
    if channels != 4 || width < MIN_DIMENSION || height < MIN_DIMENSION {
      return;
    }
    var transparent := HasMeaningfulExistingTransparency(data, width, height);
    if transparent {
      return;
    }
    var bg := SampleCornerColor(data, width, height);
    if bg.None? {
      return;
    }
    var mask := FloodFillBackgroundMask(data, width, height, bg.value);
    ghost var img := Image(data[..], width, height, bg.value);
    var backgroundPixelCount := CountMarked(mask);
    assert BackgroundPixels(img) == set p | 0 <= p < mask.Length && mask[p];
    var totalPixels := width * height;
    if 100 * backgroundPixelCount < 15 * totalPixels {
      return;
    }
    out := ClearAlpha(data, mask);
    transparencyApplied := true;
  }

  /** A copy of the buffer with the alpha byte of every marked pixel set to zero. */
  method ClearAlpha(data: array<Byte>, mask: array<bool>) returns (out: array<Byte>)
    requires data.Length == 4 * mask.Length
    ensures fresh(out) && out.Length == data.Length
    ensures forall i :: 0 <= i < out.Length ==> out[i] == if i % 4 == 3 && mask[i / 4] then 0 else data[i]
  {
    out := new Byte[data.Length](i requires 0 <= i < data.Length reads data => data[i]);
    for i := 0 to mask.Length
      invariant forall k :: 0 <= k < out.Length ==>
                  out[k] == if k % 4 == 3 && k / 4 < i && mask[k / 4] then 0 else data[k]
    {
      if mask[i] {
        out[i * 4 + 3] := 0;
      }
    }
  }
}
