// The conversion of an RGBA image to GX tiles (libs/calynda_gfx3d/gfx3d_texture.c:23-58).

module GxTiling {

  type Byte = n: int | 0 <= n < 256

  // ---- Inside a tile: 16 pairs (A, R), then 16 pairs (G, B) ----

  function InTile(px: nat, py: nat, c: nat): nat {
    (if c == 3 || c == 0 then 0 else 32) + (py * 4 + px) * 2 + (if c == 3 || c == 1 then 0 else 1)
  }

  function TileX(k: nat): nat {
    k % 32 / 2 % 4
  }

  function TileY(k: nat): nat {
    k % 32 / 2 / 4
  }

  function TileChannel(k: nat): nat {
    if k < 32 then (if k % 2 == 0 then 3 else 0) else (if k % 2 == 0 then 1 else 2)
  }

  lemma InTileInverse(px: nat, py: nat, c: nat)
    requires px < 4 && py < 4 && c < 4
    ensures var k := InTile(px, py, c); k < 64 && TileX(k) == px && TileY(k) == py && TileChannel(k) == c
  {
    var half, p, odd := if c == 3 || c == 0 then 0 else 32, py * 4 + px, if c == 3 || c == 1 then 0 else 1;
    Digits(half, p, odd);
    assert p % 4 == px && p / 4 == py;
  }

  lemma Digits(half: nat, p: nat, odd: nat)
    requires (half == 0 || half == 32) && p < 16 && odd < 2
    ensures var k := half + p * 2 + odd; k < 64 && k % 32 == p * 2 + odd && k % 32 / 2 == p && k % 2 == odd && (k < 32 <==> half == 0)
  {
  }

  lemma TileInverse(k: nat)
    requires k < 64
    ensures TileX(k) < 4 && TileY(k) < 4 && TileChannel(k) < 4 && InTile(TileX(k), TileY(k), TileChannel(k)) == k
  {
  }

  // ---- The whole image, `n` tiles wide ----

  // Where the k-th output byte comes from: pixel (x, y) and channel.
  function SourceX(n: nat, k: nat): nat
    requires n > 0
  {
    (k / 64) % n * 4 + TileX(k % 64)
  }

  function SourceY(n: nat, k: nat): nat
    requires n > 0
  {
    (k / 64) / n * 4 + TileY(k % 64)
  }

  function SourceChannel(k: nat): nat {
    TileChannel(k % 64)
  }

  // Where channel `c` of pixel (x, y) goes.
  function Target(n: nat, x: nat, y: nat, c: nat): nat {
    (y / 4 * n + x / 4) * 64 + InTile(x % 4, y % 4, c)
  }

  // Where the source keeps it, in rows of `w` pixels.
  function Offset(w: nat, x: nat, y: nat, c: nat): nat {
    (y * w + x) * 4 + c
  }

  lemma DivMod(q: nat, n: nat, r: nat)
    requires r < n
    ensures (q * n + r) / n == q && (q * n + r) % n == r
  {
    var a := q * n + r;
    assert a == (a / n) * n + a % n;
    Larger(q, a / n, n);
    Larger(a / n, q, n);
  }

  lemma Larger(x: nat, y: nat, n: nat)
    ensures x < y ==> x * n + n <= y * n
  {
    if x < y {
      Monotone(x + 1, y, n);
      assert (x + 1) * n == x * n + n;
    }
  }

  lemma Monotone(a: nat, b: nat, n: nat)
    requires a <= b
    ensures a * n <= b * n
  {
  }

  // Every byte of every pixel has one place ...
  lemma SourceOfTarget(n: nat, x: nat, y: nat, c: nat)
    requires n > 0 && x < 4 * n && c < 4
    ensures var k := Target(n, x, y, c); SourceX(n, k) == x && SourceY(n, k) == y && SourceChannel(k) == c
  {
    var tile, place := y / 4 * n + x / 4, InTile(x % 4, y % 4, c);
    InTileInverse(x % 4, y % 4, c);
    hide InTile, TileX, TileY, TileChannel;
    DivMod(y / 4, n, x / 4);
    assert Target(n, x, y, c) / 64 == tile && Target(n, x, y, c) % 64 == place;
  }

  // ... and every place one byte.
  lemma TargetOfSource(n: nat, k: nat)
    requires n > 0
    ensures Target(n, SourceX(n, k), SourceY(n, k), SourceChannel(k)) == k
  {
    var tile := k / 64;
    TileInverse(k % 64);
    hide InTile, TileX, TileY, TileChannel;
    assert tile == tile / n * n + tile % n;
    assert SourceX(n, k) / 4 == tile % n && SourceY(n, k) / 4 == tile / n;
  }

  // The places of an image of `n` by `m` tiles are the first 64 per tile, and hold its pixels.
  lemma SourceInRange(n: nat, m: nat, k: nat)
    requires n > 0 && k < n * m * 64
    ensures SourceX(n, k) < 4 * n && SourceY(n, k) < 4 * m && SourceChannel(k) < 4
  {
    var tile := k / 64;
    TileInverse(k % 64);
    hide InTile, TileX, TileY, TileChannel;
    assert tile < m * n;
    assert tile == tile / n * n + tile % n;
    if tile / n >= m {
      Monotone(m, tile / n, n);
      assert false;
    }
  }

  lemma TargetInRange(n: nat, m: nat, x: nat, y: nat, c: nat)
    requires x < 4 * n && y < 4 * m && c < 4
    ensures Target(n, x, y, c) < n * m * 64
  {
    InTileInverse(x % 4, y % 4, c);
    Monotone(y / 4 + 1, m, n);
    assert (y / 4 + 1) * n == y / 4 * n + n;
  }

  lemma OffsetInRange(w: nat, h: nat, x: nat, y: nat, c: nat)
    requires x < w && y < h && c < 4
    ensures Offset(w, x, y, c) < w * h * 4
  {
    Monotone(y + 1, h, w);
    assert (y + 1) * w == y * w + w;
  }

  // ---- The conversion ----

  predicate Tiled(src: seq<Byte>, n: nat, m: nat, out: seq<Byte>)
    requires n > 0 && |src| == 4 * n * (4 * m) * 4
  {
    && |out| == |src|
    && forall k :: 0 <= k < |out| ==> At(src, n, m, k) == out[k]
  }

  // The byte that belongs at place `k`.
  function At(src: seq<Byte>, n: nat, m: nat, k: nat): Byte
    requires n > 0 && |src| == 4 * n * (4 * m) * 4 && k < |src|
  {
    Sizes(n, m);
    SourceInRange(n, m, k);
    OffsetInRange(4 * n, 4 * m, SourceX(n, k), SourceY(n, k), SourceChannel(k));
    src[Offset(4 * n, SourceX(n, k), SourceY(n, k), SourceChannel(k))]
  }

  lemma Sizes(n: nat, m: nat)
    ensures 4 * n * (4 * m) * 4 == n * m * 64
  {
  }

  // Reading the tiles back by their closed-form places recovers the image.
  lemma Untiles(src: seq<Byte>, n: nat, m: nat, out: seq<Byte>, x: nat, y: nat, c: nat)
    requires n > 0 && |src| == 4 * n * (4 * m) * 4 && Tiled(src, n, m, out) && x < 4 * n && y < 4 * m && c < 4
    ensures Offset(4 * n, x, y, c) < |src| && Target(n, x, y, c) < |out|
    ensures out[Target(n, x, y, c)] == src[Offset(4 * n, x, y, c)]
  {
    Sizes(n, m);
    OffsetInRange(4 * n, 4 * m, x, y, c);
    TargetInRange(n, m, x, y, c);
    SourceOfTarget(n, x, y, c);
    assert out[Target(n, x, y, c)] == At(src, n, m, Target(n, x, y, c));
  }

  // ---- The loops, for an image of any size ----

  // How many tiles it takes to cover `w` pixels.
  function Tiles(w: nat): nat {
    (w + 3) / 4
  }

  // A read of the image. A tile that reaches over the image's edge reads on in the rows that
  // follow, and behind the image whatever is there.
  function Peek(src: seq<Byte>, outside: nat -> Byte, i: nat): Byte {
    if i < |src| then src[i] else outside(i)
  }

  // Where the byte for place `k` is read.
  function ReadAt(w: nat, k: nat): nat
    requires w > 0
  {
    var n := Tiles(w);
    Offset(w, SourceX(n, k), SourceY(n, k), SourceChannel(k))
  }

  // The byte that is written at place `k`.
  function Streamed(src: seq<Byte>, outside: nat -> Byte, w: nat, k: nat): Byte
    requires w > 0
  {
    Peek(src, outside, ReadAt(w, k))
  }

  // The reads so far, in order.
  ghost predicate ReadsOf(w: nat, sources: seq<nat>) {
    forall k: nat :: k < |sources| ==> w > 0 && sources[k] == ReadAt(w, k)
  }

  // For an image that divides into tiles every read stays inside.
  lemma StreamedInImage(src: seq<Byte>, outside: nat -> Byte, n: nat, m: nat, k: nat)
    requires n > 0 && |src| == 4 * n * (4 * m) * 4 && k < |src|
    ensures Streamed(src, outside, 4 * n, k) == At(src, n, m, k)
  {
    Sizes(n, m);
    SourceInRange(n, m, k);
    OffsetInRange(4 * n, 4 * m, SourceX(n, k), SourceY(n, k), SourceChannel(k));
    assert Tiles(4 * n) == n;
  }

  // The byte that the loops read for channel `c` of pixel (x, y) is the one for the place they
  // write it to.
  lemma RightPlace(src: seq<Byte>, outside: nat -> Byte, w: nat, tx: nat, ty: nat, px: nat, py: nat, c: nat)
    requires tx < Tiles(w) && px < 4 && py < 4 && c < 4
    ensures w > 0
    ensures ReadAt(w, (ty * Tiles(w) + tx) * 64 + InTile(px, py, c)) == Offset(w, 4 * tx + px, 4 * ty + py, c)
    ensures Streamed(src, outside, w, (ty * Tiles(w) + tx) * 64 + InTile(px, py, c)) ==
      Peek(src, outside, Offset(w, 4 * tx + px, 4 * ty + py, c))
  {
    var x, y := 4 * tx + px, 4 * ty + py;
    SourceOfTarget(Tiles(w), x, y, c);
    assert x / 4 == tx && x % 4 == px && y / 4 == ty && y % 4 == py;
  }

  // A tile byte by byte: alpha and red of its sixteen pixels, then green and blue of them, where the
  // image has red, green, blue and alpha of each pixel, row after row.
  lemma TileLayout(w: nat, tx: nat, ty: nat, p: nat)
    requires tx < (w + 3) / 4 && p < 16
    ensures w > 0
    ensures var tile := (ty * ((w + 3) / 4) + tx) * 64; var pixel := ((4 * ty + p / 4) * w + (4 * tx + p % 4)) * 4;
      && ReadAt(w, tile + 2 * p) == pixel + 3
      && ReadAt(w, tile + 2 * p + 1) == pixel
      && ReadAt(w, tile + 32 + 2 * p) == pixel + 1
      && ReadAt(w, tile + 32 + 2 * p + 1) == pixel + 2
  {
    var px, py := p % 4, p / 4;
    assert Tiles(w) == (w + 3) / 4;
    hide ReadAt, Tiles;
    ReadIs(w, tx, ty, px, py, 3);
    ReadIs(w, tx, ty, px, py, 0);
    ReadIs(w, tx, ty, px, py, 1);
    ReadIs(w, tx, ty, px, py, 2);
  }

  lemma ReadIs(w: nat, tx: nat, ty: nat, px: nat, py: nat, c: nat)
    requires tx < Tiles(w) && px < 4 && py < 4 && c < 4
    ensures w > 0
    ensures ReadAt(w, (ty * Tiles(w) + tx) * 64 + InTile(px, py, c)) == ((4 * ty + py) * w + (4 * tx + px)) * 4 + c
  {
    RightPlace([], _ => 0, w, tx, ty, px, py, c);
  }

  // What has been written so far, as far as it fell into the buffer.
  ghost predicate Written(dst: array<Byte>, src: seq<Byte>, outside: nat -> Byte, w: nat, from: nat, to: nat)
    reads dst
  {
    forall k: nat :: from <= k < to && k < dst.Length ==> w > 0 && dst[k] == Streamed(src, outside, w, k)
  }

  // A write at position `d`: beyond the buffer it hits other memory.
  method Poke(dst: array<Byte>, d: nat, v: Byte)
    modifies dst
    ensures d < dst.Length ==> dst[d] == v
    ensures forall k :: 0 <= k < dst.Length && k != d ==> dst[k] == old(dst[k])
  {
    if d < dst.Length {
      dst[d] := v;
    }
  }

  // One of the two inner double loops: the pairs of channels (c0, c1) of a tile.
  method WriteBlock(dst: array<Byte>, src: seq<Byte>, outside: nat -> Byte, w: nat, tx: nat, ty: nat, c0: nat, c1: nat, d: nat, ghost before: seq<nat>)
    returns (d': nat, ghost sources: seq<nat>)
    requires |before| == d && ReadsOf(w, before)
    requires tx < Tiles(w) && c0 < 4 && c1 < 4
    requires forall px, py :: 0 <= px < 4 && 0 <= py < 4 ==>
      (ty * Tiles(w) + tx) * 64 + InTile(px, py, c0) == d + (py * 4 + px) * 2 && InTile(px, py, c1) == InTile(px, py, c0) + 1
    modifies dst
    ensures d' == d + 32 && Written(dst, src, outside, w, d, d') && |sources| == d' && ReadsOf(w, sources)
    ensures forall k :: 0 <= k < d && k < dst.Length ==> dst[k] == old(dst[k])
  {
    var x, y := 4 * tx, 4 * ty;
    d', sources := d, before;
    hide Streamed, ReadAt, Peek, InTile, Tiles;
    for py := 0 to 4
      invariant d' == d + py * 8 && |sources| == d' && ReadsOf(w, sources) && Written(dst, src, outside, w, d, d')
      invariant forall k :: 0 <= k < d && k < dst.Length ==> dst[k] == old(dst[k])
    {
      for px := 0 to 4
        invariant d' == d + (py * 4 + px) * 2 && |sources| == d' && ReadsOf(w, sources) && Written(dst, src, outside, w, d, d')
        invariant forall k :: 0 <= k < d && k < dst.Length ==> dst[k] == old(dst[k])
      {
        RightPlace(src, outside, w, tx, ty, px, py, c0);
        RightPlace(src, outside, w, tx, ty, px, py, c1);
        var si := ((y + py) * w + (x + px)) * 4;
        Poke(dst, d', Peek(src, outside, si + c0));
        Poke(dst, d' + 1, Peek(src, outside, si + c1));
        d', sources := d' + 2, sources + [si + c0, si + c1];
      }
    }
  }

  method WriteTile(dst: array<Byte>, src: seq<Byte>, outside: nat -> Byte, w: nat, tx: nat, ty: nat, d: nat, ghost before: seq<nat>)
    returns (d': nat, ghost sources: seq<nat>)
    requires |before| == d && ReadsOf(w, before)
    requires tx < Tiles(w) && d == (ty * Tiles(w) + tx) * 64 && Written(dst, src, outside, w, 0, d)
    modifies dst
    ensures d' == d + 64 && Written(dst, src, outside, w, 0, d') && |sources| == d' && ReadsOf(w, sources)
  {
    d', sources := WriteBlock(dst, src, outside, w, tx, ty, 3, 0, d, before);
    hide Streamed, Tiles, ReadsOf;
    d', sources := WriteBlock(dst, src, outside, w, tx, ty, 1, 2, d', sources);
  }

  // One row of tiles.
  method WriteRow(dst: array<Byte>, src: seq<Byte>, outside: nat -> Byte, w: nat, ty: nat, d: nat, ghost before: seq<nat>)
    returns (d': nat, ghost sources: seq<nat>)
    requires |before| == d && ReadsOf(w, before)
    requires d == ty * Tiles(w) * 64 && Written(dst, src, outside, w, 0, d)
    modifies dst
    ensures d' == (ty + 1) * Tiles(w) * 64 && Written(dst, src, outside, w, 0, d') && |sources| == d' && ReadsOf(w, sources)
  {
    hide Written, ReadsOf;
    d', sources := d, before;
    var x := 0;
    ghost var tx: nat := 0;
    while x < w
      invariant x == 4 * tx && tx <= Tiles(w) && d' == (ty * Tiles(w) + tx) * 64
      invariant Written(dst, src, outside, w, 0, d') && |sources| == d' && ReadsOf(w, sources)
    {
      d', sources := WriteTile(dst, src, outside, w, x / 4, ty, d', sources);
      tx := tx + 1;
      x := x + 4;
    }
    NextRow(Tiles(w), ty);
  }

  lemma NextRow(n: nat, ty: nat)
    ensures (ty * n + n) * 64 == (ty + 1) * n * 64
  {
  }

  // The loop over the rows of tiles.
  method WriteRows(dst: array<Byte>, src: seq<Byte>, outside: nat -> Byte, w: nat, h: nat) returns (d: nat, ghost sources: seq<nat>)
    modifies dst
    ensures d == BytesWritten(w, h) && Written(dst, src, outside, w, 0, d) && |sources| == d && ReadsOf(w, sources)
  {
    d, sources := 0, [];
    var y := 0;
    ghost var ty: nat := 0;
    while y < h
      invariant y == 4 * ty && ty <= Tiles(h) && d == ty * Tiles(w) * 64
      invariant Written(dst, src, outside, w, 0, d) && |sources| == d && ReadsOf(w, sources)
    {
      hide Written, Streamed, ReadsOf;
      d, sources := WriteRow(dst, src, outside, w, y / 4, d, sources);
      ty := ty + 1;
      y := y + 4;
    }
  }

  // rgba8_to_gx. `d` is the position after the last write. Every place of the buffer is written
  // as the closed form says, and the writes end at the buffer's end exactly for images that
  // divide into tiles, or are empty; for any other they go past it. Likewise the reads.
  method Rgba8ToGx(src: seq<Byte>, outside: nat -> Byte, w: nat, h: nat) returns (dst: array<Byte>, d: nat, ghost sources: seq<nat>)
    requires |src| == w * h * 4
    ensures fresh(dst) && dst.Length == w * h * 4
    ensures d == BytesWritten(w, h) >= dst.Length
    ensures d == dst.Length <==> (w % 4 == 0 && h % 4 == 0) || w == 0 || h == 0
    ensures |sources| == d && ReadsOf(w, sources)
    ensures (forall k :: 0 <= k < d ==> sources[k] < |src|) <==> (w % 4 == 0 && h % 4 == 0) || w == 0 || h == 0
    ensures forall k: nat :: k < dst.Length ==> w > 0 && dst[k] == Streamed(src, outside, w, k)
    ensures w > 0 && w % 4 == 0 && h % 4 == 0 ==> Image(src, w / 4, h / 4) && Tiled(src, w / 4, h / 4, dst[..])
  {
    dst := new Byte[w * h * 4](_ => 0);
    d, sources := WriteRows(dst, src, outside, w, h);
    hide BytesWritten, Streamed, ReadAt;
    FillsExactly(w, h);
    ReadsInsideExactly(w, h);
    if w > 0 && w % 4 == 0 && h % 4 == 0 {
      IsTiled(src, outside, w / 4, h / 4, dst[..]);
    }
  }

  // Every read stays inside the image exactly if the image divides into tiles, or is empty ...
  lemma ReadsInsideExactly(w: nat, h: nat)
    ensures (forall k: nat :: k < BytesWritten(w, h) ==> w > 0 && ReadAt(w, k) < w * h * 4)
      <==> (w % 4 == 0 && h % 4 == 0) || w == 0 || h == 0
  {
    hide ReadAt;
    if w == 0 || h == 0 {
      assert BytesWritten(w, h) == 0;
    } else if w % 4 == 0 && h % 4 == 0 {
      forall k: nat | k < BytesWritten(w, h)
        ensures ReadAt(w, k) < w * h * 4
      {
        ReadInside(w, h, k);
      }
    } else {
      var k := ReadBehind(w, h);
    }
  }

  lemma ReadInside(w: nat, h: nat, k: nat)
    requires w > 0 && w % 4 == 0 && h % 4 == 0 && k < BytesWritten(w, h)
    ensures ReadAt(w, k) < w * h * 4
  {
    var n, m := Tiles(w), Tiles(h);
    TilesCover(w);
    TilesCover(h);
    assert BytesWritten(w, h) == m * n * 64 == n * m * 64;
    SourceInRange(n, m, k);
    hide SourceX, SourceY, SourceChannel, Tiles, Offset;
    OffsetInRange(w, h, SourceX(n, k), SourceY(n, k), SourceChannel(k));
  }

  // ... for in any other the last pixel of the last tile lies behind it.
  lemma ReadBehind(w: nat, h: nat) returns (k: nat)
    requires w > 0 && h > 0 && !(w % 4 == 0 && h % 4 == 0)
    ensures k < BytesWritten(w, h) && ReadAt(w, k) >= w * h * 4
  {
    var n, m := Tiles(w), Tiles(h);
    var x, y := 4 * n - 1, 4 * m - 1;
    k := Target(n, x, y, 0);
    TilesCover(w);
    TilesCover(h);
    TargetInRange(n, m, x, y, 0);
    SourceOfTarget(n, x, y, 0);
    hide Target, SourceX, SourceY, SourceChannel, Tiles, Offset;
    LastIsBehind(w, h, x, y);
    assert BytesWritten(w, h) == m * n * 64 == n * m * 64;
  }

  lemma TilesCover(w: nat)
    ensures Tiles(w) * 4 >= w && (Tiles(w) * 4 == w <==> w % 4 == 0)
  {
  }

  lemma LastIsBehind(w: nat, h: nat, x: nat, y: nat)
    requires x + 1 >= w && y + 1 >= h > 0 && (x >= w || y >= h)
    ensures Offset(w, x, y, 0) >= w * h * 4
  {
    Monotone(h - 1, y, w);
    assert (h - 1) * w == h * w - w;
    if y >= h {
      Monotone(h, y, w);
    }
  }

  predicate Image(src: seq<Byte>, n: nat, m: nat) {
    n > 0 && |src| == 4 * n * (4 * m) * 4
  }

  lemma IsTiled(src: seq<Byte>, outside: nat -> Byte, n: nat, m: nat, out: seq<Byte>)
    requires Image(src, n, m) && |out| == |src| && forall k: nat :: k < |out| ==> out[k] == Streamed(src, outside, 4 * n, k)
    ensures Tiled(src, n, m, out)
  {
    forall k: nat | k < |out|
      ensures At(src, n, m, k) == out[k]
    {
      StreamedInImage(src, outside, n, m, k);
    }
  }

  // gfx3d_texture_create_solid converts an image of one pixel: 64 bytes go into a buffer of 4,
  // half of which comes from behind the pixel.
  method CreateSolid(r: Byte, g: Byte, b: Byte, a: Byte, outside: nat -> Byte) returns (dst: array<Byte>, d: nat)
    ensures fresh(dst) && dst.Length == 4 && d == 64
    ensures dst[..] == [a, r, outside(7), outside(4)]
  {
    hide Streamed, BytesWritten;
    var pixel := [r, g, b, a];
    ghost var sources;
    dst, d, sources := Rgba8ToGx(pixel, outside, 1, 1);
    SolidBytes(pixel, outside);
    assert dst[0] == a && dst[1] == r && dst[2] == outside(7) && dst[3] == outside(4);
  }

  lemma SolidBytes(pixel: seq<Byte>, outside: nat -> Byte)
    requires |pixel| == 4
    ensures BytesWritten(1, 1) == 64
    ensures Streamed(pixel, outside, 1, 0) == pixel[3] && Streamed(pixel, outside, 1, 1) == pixel[0]
    ensures Streamed(pixel, outside, 1, 2) == outside(7) && Streamed(pixel, outside, 1, 3) == outside(4)
  {
    hide Streamed, ReadAt;
    RightPlace(pixel, outside, 1, 0, 0, 0, 0, 3);
    RightPlace(pixel, outside, 1, 0, 0, 0, 0, 0);
    RightPlace(pixel, outside, 1, 0, 0, 1, 0, 3);
    RightPlace(pixel, outside, 1, 0, 0, 1, 0, 0);
  }

  // The size of the whole tiles that cover an image.
  function BytesWritten(w: nat, h: nat): nat {
    Tiles(h) * Tiles(w) * 64
  }

  lemma FillsExactly(w: nat, h: nat)
    ensures BytesWritten(w, h) >= w * h * 4
    ensures BytesWritten(w, h) == w * h * 4 <==> (w % 4 == 0 && h % 4 == 0) || w == 0 || h == 0
  {
    var a, b := Tiles(w) * 4, Tiles(h) * 4;
    TilesCover(w);
    TilesCover(h);
    ProductGrows(w, a, h, b);
    Sizes(Tiles(w), Tiles(h));
  }

  lemma ProductGrows(w: nat, a: nat, h: nat, b: nat)
    requires a >= w && b >= h && (w == 0 ==> a == 0) && (h == 0 ==> b == 0)
    ensures a * b * 4 >= w * h * 4
    ensures a * b * 4 == w * h * 4 <==> (a == w && b == h) || w == 0 || h == 0
  {
    Monotone(w, a, h);
    Monotone(h, b, a);
    assert h * a == a * h && b * a == a * b;
    if w != 0 && h != 0 {
      Larger(w, a, h);
      Larger(h, b, a);
    }
  }
}
