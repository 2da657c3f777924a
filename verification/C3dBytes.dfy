// Little-endian packing, as Python's struct writes it (tools/obj2c3d.py:93-126) and a little-endian
// host reads it (libs/calynda_gfx3d/gfx3d_model.c:11-53).

module C3dBytes {

  type Byte = n: int | 0 <= n < 256

  // An unsigned 32-bit word. A float is the word that holds it.
  type Word = n: int | 0 <= n < 0x1_0000_0000

  type Half = n: int | 0 <= n < 0x1_0000

  function PackWord(n: Word): (b: seq<Byte>)
    ensures |b| == 4
  {
    [n % 256, n / 256 % 256, n / 65536 % 256, n / 16777216]
  }

  function WordOf(b: seq<Byte>): Word
    requires |b| == 4
  {
    Joined(b[0], b[1], b[2], b[3])
  }

  function Joined(a: int, b: int, c: int, d: int): int {
    a + 256 * b + 65536 * c + 16777216 * d
  }

  lemma WordRoundTrip(n: Word)
    ensures WordOf(PackWord(n)) == n
  {
    assert n / 65536 == n / 256 / 256 && n / 16777216 == n / 65536 / 256;
  }

  function PackHalf(n: Half): (b: seq<Byte>)
    ensures |b| == 2
  {
    [n % 256, n / 256]
  }

  function HalfOf(b: seq<Byte>): Half
    requires |b| == 2
  {
    Joined(b[0], b[1], 0, 0)
  }

  lemma HalfRoundTrip(n: Half)
    ensures HalfOf(PackHalf(n)) == n
  {
  }

  // ---- Rows of words, vertices and halves, packed in order ----

  function PackWords(ws: seq<Word>): (b: seq<Byte>)
    ensures |b| == 4 * |ws|
  {
    if ws == [] then [] else PackWords(ws[..|ws| - 1]) + PackWord(ws[|ws| - 1])
  }

  function WordsOf(b: seq<Byte>, n: nat): (ws: seq<Word>)
    requires |b| == 4 * n
    ensures |ws| == n
  {
    if n == 0 then [] else WordsOf(b[..4 * (n - 1)], n - 1) + [WordOf(b[4 * (n - 1)..])]
  }

  lemma {:induction false} WordsRoundTrip(ws: seq<Word>)
    ensures WordsOf(PackWords(ws), |ws|) == ws
  {
    if ws != [] {
      var front, last := ws[..|ws| - 1], ws[|ws| - 1];
      WordsRoundTrip(front);
      WordRoundTrip(last);
      assert PackWords(ws)[..4 * |front|] == PackWords(front);
      assert PackWords(ws)[4 * |front|..] == PackWord(last);
    }
  }

  // Position, normal and texture coordinates as eight floats, then the colour.
  datatype Vertex = Vertex(floats: seq<Word>, color: seq<Byte>)

  const VERTEX_SIZE: nat := 36

  predicate WellShaped(v: Vertex) {
    |v.floats| == 8 && |v.color| == 4
  }

  function PackVertex(v: Vertex): (b: seq<Byte>)
    requires WellShaped(v)
    ensures |b| == VERTEX_SIZE
  {
    PackWords(v.floats) + v.color
  }

  function VertexOf(b: seq<Byte>): Vertex
    requires |b| == VERTEX_SIZE
  {
    Vertex(WordsOf(b[..32], 8), b[32..])
  }

  lemma VertexRoundTrip(v: Vertex)
    requires WellShaped(v)
    ensures VertexOf(PackVertex(v)) == v
  {
    WordsRoundTrip(v.floats);
    assert PackVertex(v)[..32] == PackWords(v.floats);
    assert PackVertex(v)[32..] == v.color;
  }

  predicate AllWellShaped(vs: seq<Vertex>) {
    forall i :: 0 <= i < |vs| ==> WellShaped(vs[i])
  }

  function PackVertices(vs: seq<Vertex>): (b: seq<Byte>)
    requires AllWellShaped(vs)
    ensures |b| == VERTEX_SIZE * |vs|
  {
    if vs == [] then [] else PackVertices(vs[..|vs| - 1]) + PackVertex(vs[|vs| - 1])
  }

  function VerticesOf(b: seq<Byte>, n: nat): (vs: seq<Vertex>)
    requires |b| == VERTEX_SIZE * n
    ensures |vs| == n
  {
    if n == 0 then [] else VerticesOf(b[..VERTEX_SIZE * (n - 1)], n - 1) + [VertexOf(b[VERTEX_SIZE * (n - 1)..])]
  }

  lemma {:induction false} VerticesRoundTrip(vs: seq<Vertex>)
    requires AllWellShaped(vs)
    ensures VerticesOf(PackVertices(vs), |vs|) == vs
  {
    if vs != [] {
      var front, last := vs[..|vs| - 1], vs[|vs| - 1];
      VerticesRoundTrip(front);
      VertexRoundTrip(last);
      assert PackVertices(vs)[..VERTEX_SIZE * |front|] == PackVertices(front);
      assert PackVertices(vs)[VERTEX_SIZE * |front|..] == PackVertex(last);
    }
  }

  function PackHalves(hs: seq<Half>): (b: seq<Byte>)
    ensures |b| == 2 * |hs|
  {
    if hs == [] then [] else PackHalves(hs[..|hs| - 1]) + PackHalf(hs[|hs| - 1])
  }

  function HalvesOf(b: seq<Byte>, n: nat): (hs: seq<Half>)
    requires |b| == 2 * n
    ensures |hs| == n
  {
    if n == 0 then [] else HalvesOf(b[..2 * (n - 1)], n - 1) + [HalfOf(b[2 * (n - 1)..])]
  }

  lemma {:induction false} HalvesRoundTrip(hs: seq<Half>)
    ensures HalvesOf(PackHalves(hs), |hs|) == hs
  {
    if hs != [] {
      var front, last := hs[..|hs| - 1], hs[|hs| - 1];
      HalvesRoundTrip(front);
      HalfRoundTrip(last);
      assert PackHalves(hs)[..2 * |front|] == PackHalves(front);
      assert PackHalves(hs)[2 * |front|..] == PackHalf(last);
    }
  }
}
