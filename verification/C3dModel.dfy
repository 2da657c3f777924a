// Loading a .c3d file from memory on a little-endian host
// (libs/calynda_gfx3d/gfx3d_model.c:11-53), and the round trip through it.

module C3dModel {
  import opened C3dBytes
  import opened Obj2C3d

  const NAME_MAX: nat := 64
  const WORDS: nat := 0x1_0000_0000

  datatype Model = Model(vertices: seq<Vertex>, indices: seq<Half>, bounds: seq<Word>, name: seq<Byte>)

  // Overrun: the check of the ends has wrapped around, and the data lie outside the file.
  datatype Loading = Rejected | Overrun | Loaded(model: Model)

  // The characters that strncpy copies: up to a NUL, at most `n`.
  function Copied(data: seq<Byte>, n: nat): seq<Byte> {
    if data == [] || n == 0 || data[0] == 0 then [] else [data[0]] + Copied(data[1..], n - 1)
  }

  function NameAt(data: seq<Byte>, offset: nat): seq<Byte> {
    if 0 < offset < |data| then
      var maxLen := |data| - offset;
      Copied(data[offset..], if maxLen > NAME_MAX - 1 then NAME_MAX - 1 else maxLen)
    else []
  }

  function LoadC3dMem(data: seq<Byte>): Loading
    requires |data| < WORDS
  {
    if |data| < HEADER_SIZE then Rejected
    else
      var h := WordsOf(data[..HEADER_SIZE], 13);
      if h[0] != MAGIC || h[1] != VERSION then Rejected else LoadParts(data, h[2], h[3], h[4], h[5], h[6], h[7..13])
  }

  function LoadParts(data: seq<Byte>, nv: Word, ni: Word, vertAt: Word, idxAt: Word, nameAt: Word, bounds: seq<Word>): Loading
    requires |data| < WORDS
  {
    var vertEnd, idxEnd := vertAt + VERTEX_SIZE * nv, idxAt + 2 * ni;
    if Wrapped(vertEnd) > |data| || Wrapped(idxEnd) > |data| then Rejected
    else if vertEnd > |data| || idxEnd > |data| then Overrun
    else
      Loaded(Model(VerticesOf(data[vertAt..vertEnd], nv), HalvesOf(data[idxAt..idxEnd], ni), bounds, NameAt(data, nameAt)))
  }

  // A sum as the 32-bit arithmetic of the loader has it.
  function Wrapped(n: nat): nat {
    n % WORDS
  }

  lemma NotWrapped(n: nat)
    requires n < WORDS
    ensures Wrapped(n) == n
  {
  }

  function End(at: nat, size: nat, count: nat): nat {
    at + size * count
  }

  // The checks of the header, in 32-bit arithmetic.
  predicate Accepted(data: seq<Byte>) {
    && HEADER_SIZE <= |data|
    && var h := WordsOf(data[..HEADER_SIZE], 13);
    && h[0] == MAGIC && h[1] == VERSION
    && Wrapped(End(h[4], VERTEX_SIZE, h[2])) <= |data| && Wrapped(End(h[5], 2, h[3])) <= |data|
  }

  // The loader is led outside the file exactly by a header that passes the checks and for which
  // one of the 32-bit sums wraps.
  lemma OverrunExactly(data: seq<Byte>)
    requires |data| < WORDS
    ensures LoadC3dMem(data).Overrun? <==>
      && Accepted(data)
      && var h := WordsOf(data[..HEADER_SIZE], 13);
      End(h[4], VERTEX_SIZE, h[2]) >= WORDS || End(h[5], 2, h[3]) >= WORDS
  {
    if |data| >= HEADER_SIZE {
      var h := WordsOf(data[..HEADER_SIZE], 13);
      NoWrap(End(h[4], VERTEX_SIZE, h[2]));
      NoWrap(End(h[5], 2, h[3]));
      hide Wrapped, WordsOf, VerticesOf, HalvesOf, NameAt;
    }
  }

  lemma NoWrap(n: nat)
    ensures Wrapped(n) == n || n >= WORDS
  {
  }

  // A file of 52 bytes, the header alone, that claims 2^30 vertices: their 36 * 2^30 bytes wrap
  // to none, the checks pass, and the vertices are read behind the file.
  lemma OverrunHappens()
    ensures var file := PackWords([MAGIC, VERSION, 0x4000_0000, 0, 52, 52, 0, 0, 0, 0, 0, 0, 0]);
      |file| == HEADER_SIZE && LoadC3dMem(file) == Overrun
  {
    hide PackWords, LoadC3dMem;
    HeaderOverruns([MAGIC, VERSION, 0x4000_0000, 0, 52, 52, 0, 0, 0, 0, 0, 0, 0]);
  }

  lemma HeaderOverruns(words: seq<Word>)
    requires |words| == 13 && words[0] == MAGIC && words[1] == VERSION
    requires words[2] == 0x4000_0000 && words[3] == 0 && words[4] == words[5] == 52
    ensures |PackWords(words)| == HEADER_SIZE && LoadC3dMem(PackWords(words)) == Overrun
  {
    hide PackWords, WordsOf, LoadParts;
    var file := PackWords(words);
    WordsRoundTrip(words);
    assert file[..HEADER_SIZE] == file;
    PartsOverrun(file, words[6], words[7..13]);
  }

  lemma PartsOverrun(data: seq<Byte>, nameAt: Word, bounds: seq<Word>)
    requires |data| == HEADER_SIZE
    ensures LoadParts(data, 0x4000_0000, 0, 52, 52, nameAt, bounds) == Overrun
  {
    assert 52 + VERTEX_SIZE * 0x4000_0000 == 9 * WORDS + 52;
    hide VerticesOf, HalvesOf, NameAt;
  }

  // ---- The loader ----

  // strncpy into a zeroed buffer: the characters up to a NUL, at most `n`.
  method CopyName(dst: array<Byte>, src: seq<Byte>, n: nat)
    requires n <= |src| && n < dst.Length && forall i :: 0 <= i < dst.Length ==> dst[i] == 0
    modifies dst
    ensures forall k :: n <= k < dst.Length ==> dst[k] == 0
    ensures Copied(dst[..], dst.Length) == Copied(src, n)
  {
    var i := 0;
    while i < n && src[i] != 0
      invariant i <= n && forall k :: 0 <= k < i ==> src[k] != 0
      invariant dst[..i] == src[..i] && forall k :: i <= k < dst.Length ==> dst[k] == 0
    {
      dst[i] := src[i];
      i := i + 1;
    }
    CopiedPrefix(src, i, n);
    CopiedPrefix(dst[..], i, dst.Length);
  }

  lemma {:induction false} CopiedPrefix(data: seq<Byte>, i: nat, n: nat)
    requires i <= n <= |data| && (forall k :: 0 <= k < i ==> data[k] != 0) && (i < n ==> data[i] == 0)
    ensures Copied(data, n) == data[..i]
  {
    if i > 0 {
      CopiedPrefix(data[1..], i - 1, n - 1);
      assert data[..i] == [data[0]] + data[1..][..i - 1];
    }
  }

  class Gfx3dModel {
    var vertices: seq<Vertex>
    var indices: seq<Half>
    var bounds: seq<Word>
    const materialName: array<Byte>

    // A zeroed model.
    constructor ()
      ensures fresh(materialName) && materialName.Length == NAME_MAX
      ensures vertices == [] && indices == [] && bounds == [0, 0, 0, 0, 0, 0]
      ensures forall i :: 0 <= i < NAME_MAX ==> materialName[i] == 0
    {
      vertices, indices, bounds := [], [], [0, 0, 0, 0, 0, 0];
      materialName := new Byte[NAME_MAX](_ => 0);
    }

    // The model as its readers see it: the name ends at the first NUL.
    ghost function Value(): Model
      reads this, materialName
    {
      Model(vertices, indices, bounds, Copied(materialName[..], materialName.Length))
    }

    // The bounds of the header replace the ones that the mesh computed.
    method OverrideBounds(header: seq<Word>)
      requires |header| == 13 && |bounds| == 6
      modifies this`bounds
      ensures bounds == header[7..13]
    {
      for i := 0 to 6
        invariant |bounds| == 6 && bounds[..i] == header[7..7 + i]
      {
        bounds := bounds[i := header[7 + i]];
        assert bounds[..i + 1] == header[7..7 + i] + [header[7 + i]];
      }
    }

    method ReadName(data: seq<Byte>, offset: nat)
      requires materialName.Length == NAME_MAX && forall i :: 0 <= i < NAME_MAX ==> materialName[i] == 0
      modifies materialName
      ensures materialName.Length == NAME_MAX && Copied(materialName[..], NAME_MAX) == NameAt(data, offset)
    {
      if 0 < offset < |data| {
        var maxLen := |data| - offset;
        if maxLen > NAME_MAX - 1 {
          maxLen := NAME_MAX - 1;
        }
        CopyName(materialName, data[offset..], maxLen);
        ghost var name := materialName[..];
        materialName[NAME_MAX - 1] := 0;
        assert materialName[..] == name;
      } else {
        CopiedPrefix(materialName[..], 0, NAME_MAX);
      }
    }
  }

  // gfx3d_model_load_c3d_mem
  method LoadModel(data: seq<Byte>) returns (overrun: bool, model: Gfx3dModel?)
    requires |data| < WORDS
    ensures overrun <==> LoadC3dMem(data).Overrun?
    ensures model == null <==> !LoadC3dMem(data).Loaded?
    ensures model != null ==> fresh(model) && LoadC3dMem(data) == Loaded(model.Value())
  {
    overrun, model := false, null;
    if |data| < HEADER_SIZE {
      return;
    }
    var h := WordsOf(data[..HEADER_SIZE], 13);
    if h[0] != MAGIC || h[1] != VERSION {
      return;
    }
    var vertAt: nat, idxAt: nat, nv: nat, ni: nat := h[4], h[5], h[2], h[3];
    var vertEnd, idxEnd := vertAt + VERTEX_SIZE * nv, idxAt + 2 * ni;
    if Wrapped(vertEnd) > |data| || Wrapped(idxEnd) > |data| {
      return;
    }
    if vertEnd > |data| || idxEnd > |data| {
      overrun := true;
      return;
    }
    hide Copied, NameAt, WordsOf, VerticesOf, HalvesOf;
    model := new Gfx3dModel();
    model.vertices := VerticesOf(data[vertAt..vertEnd], nv);
    model.indices := HalvesOf(data[idxAt..idxEnd], ni);
    model.OverrideBounds(h);
    model.ReadName(data, h[6]);
  }

  // ---- The round trip ----

  lemma {:induction false} CopiedTerminated(e: seq<Byte>, n: nat)
    ensures Copied(e + [0], n) == Copied(e, n)
  {
    if e == [] {
      assert e + [0] == [0];
    } else if n > 0 && e[0] != 0 {
      assert (e + [0])[1..] == e[1..] + [0];
      CopiedTerminated(e[1..], n - 1);
    }
  }

  lemma {:induction false} CopiedEnough(e: seq<Byte>, n: nat, m: nat)
    requires n >= |e| && m >= |e|
    ensures Copied(e, n) == Copied(e, m)
  {
    if e != [] && e[0] != 0 {
      CopiedEnough(e[1..], n - 1, m - 1);
    }
  }

  // What a name survives as: it comes back whole exactly if it is short enough and has no NUL.
  lemma {:induction false} CopiedWhole(e: seq<Byte>, n: nat)
    ensures Copied(e, n) == e <==> |e| <= n && forall i :: 0 <= i < |e| ==> e[i] != 0
  {
    if e != [] && n > 0 && e[0] != 0 {
      CopiedWhole(e[1..], n - 1);
      assert e == [e[0]] + e[1..];
      assert (forall i :: 0 <= i < |e| ==> e[i] != 0) <==> forall i :: 0 <= i < |e[1..]| ==> e[1..][i] != 0 by {
        if forall i :: 0 <= i < |e[1..]| ==> e[1..][i] != 0 {
          forall i | 0 <= i < |e|
            ensures e[i] != 0
          {
            if i > 0 {
              assert e[1..][i - 1] == e[i];
            }
          }
        }
      }
      if Copied(e, n) == e {
        assert Copied(e[1..], n - 1) == Copied(e, n)[1..] == e[1..];
      }
    }
  }

  // The parts of a sequence put together from four.
  lemma FourParts(h: seq<Byte>, v: seq<Byte>, i: seq<Byte>, m: seq<Byte>)
    ensures var file := h + v + i + m;
      && file[..|h|] == h && file[|h|..|h| + |v|] == v
      && file[|h| + |v|..|h| + |v| + |i|] == i && file[|h| + |v| + |i|..] == m
  {
  }

  lemma NameInFile(file: seq<Byte>, offset: nat, e: seq<Byte>)
    requires 0 < offset < |file| && file[offset..] == e + [0]
    ensures NameAt(file, offset) == Copied(e, NAME_MAX - 1)
  {
    var n := if |e| + 1 > NAME_MAX - 1 then NAME_MAX - 1 else |e| + 1;
    assert |file| - offset == |e| + 1;
    CopiedTerminated(e, n);
    if n < NAME_MAX - 1 {
      CopiedEnough(e, n, NAME_MAX - 1);
    }
  }

  lemma IndicesInFile(file: seq<Byte>, at: nat, padded: seq<Byte>, packed: seq<Byte>)
    requires at + |padded| <= |file| && file[at..at + |padded|] == padded && |packed| <= |padded| && padded[..|packed|] == packed
    ensures file[at..at + |packed|] == packed
  {
    assert file[at..at + |packed|] == file[at..at + |padded|][..|packed|];
  }

  function HeaderWords(vertices: seq<Vertex>, indices: seq<Half>, bounds: seq<Word>): seq<Word>
    requires IndexEnd(vertices, indices) < WORDS
  {
    Header(|vertices|, |indices|, HEADER_SIZE, VertexEnd(vertices), IndexEnd(vertices, indices), bounds)
  }

  lemma FileParts(vertices: seq<Vertex>, indices: seq<Half>, bounds: seq<Word>, name: string)
    requires AllWellShaped(vertices) && |bounds| == 6 && Ascii(name) && IndexEnd(vertices, indices) < WORDS
    ensures var file := File(vertices, indices, bounds, name);
      && |file| == IndexEnd(vertices, indices) + |name| + 1
      && file[..HEADER_SIZE] == PackWords(HeaderWords(vertices, indices, bounds))
      && file[HEADER_SIZE..VertexEnd(vertices)] == PackVertices(vertices)
      && file[VertexEnd(vertices)..VertexEnd(vertices) + 2 * |indices|] == PackHalves(indices)
      && file[IndexEnd(vertices, indices)..] == Encoded(name) + [0]
  {
    var h, v, i, m := PackWords(HeaderWords(vertices, indices, bounds)), PackVertices(vertices), Padded(PackHalves(indices)), Encoded(name) + [0];
    var file := File(vertices, indices, bounds, name);
    assert file == h + v + i + m;
    FourParts(h, v, i, m);
    hide PackWords, PackVertices, PackHalves, Padded, File, Encoded;
    IndicesInFile(file, VertexEnd(vertices), i, PackHalves(indices));
  }

  // The main result: loading what was written gives back the vertices, indices and bounds, and
  // the name as far as the loader's buffer and the first NUL let it.
  lemma LoadsBack(vertices: seq<Vertex>, indices: seq<Half>, bounds: seq<Word>, name: string)
    requires AllWellShaped(vertices) && |bounds| == 6 && Ascii(name) && IndexEnd(vertices, indices) + |name| + 1 < WORDS
    ensures var file := File(vertices, indices, bounds, name);
      && |file| < WORDS
      && LoadC3dMem(file) == Loaded(Model(vertices, indices, bounds, Copied(Encoded(name), NAME_MAX - 1)))
  {
    var words, file := HeaderWords(vertices, indices, bounds), File(vertices, indices, bounds, name);
    FileParts(vertices, indices, bounds, name);
    assert words[7..13] == bounds && |words| == 13;
    hide *;
    HeaderLoads(file, words);
    PartsLoadBack(vertices, indices, bounds, name);
  }

  lemma HeaderLoads(file: seq<Byte>, words: seq<Word>)
    requires HEADER_SIZE <= |file| < WORDS && |words| == 13 && file[..HEADER_SIZE] == PackWords(words)
    requires words[0] == MAGIC && words[1] == VERSION
    ensures LoadC3dMem(file) == LoadParts(file, words[2], words[3], words[4], words[5], words[6], words[7..13])
  {
    hide PackWords, WordsOf, LoadParts;
    WordsRoundTrip(words);
  }

  lemma PartsLoadBack(vertices: seq<Vertex>, indices: seq<Half>, bounds: seq<Word>, name: string)
    requires AllWellShaped(vertices) && |bounds| == 6 && Ascii(name) && IndexEnd(vertices, indices) + |name| + 1 < WORDS
    ensures var file := File(vertices, indices, bounds, name);
      && |file| < WORDS
      && LoadParts(file, |vertices|, |indices|, HEADER_SIZE, VertexEnd(vertices), IndexEnd(vertices, indices), bounds)
         == Loaded(Model(vertices, indices, bounds, Copied(Encoded(name), NAME_MAX - 1)))
  {
    var file := File(vertices, indices, bounds, name);
    FileParts(vertices, indices, bounds, name);
    NameInFile(file, IndexEnd(vertices, indices), Encoded(name));
    hide PackVertices, PackHalves, Padded, VerticesOf, HalvesOf, File, Encoded, Copied, NameAt, LoadParts;
    PartsLoad(file, vertices, indices, HEADER_SIZE, VertexEnd(vertices), IndexEnd(vertices, indices), bounds);
  }

  lemma PartsLoad(data: seq<Byte>, vs: seq<Vertex>, hs: seq<Half>, vertAt: Word, idxAt: Word, nameAt: Word, bounds: seq<Word>)
    requires |data| < WORDS && AllWellShaped(vs)
    requires vertAt + VERTEX_SIZE * |vs| <= |data| && data[vertAt..vertAt + VERTEX_SIZE * |vs|] == PackVertices(vs)
    requires idxAt + 2 * |hs| <= |data| && data[idxAt..idxAt + 2 * |hs|] == PackHalves(hs)
    ensures LoadParts(data, |vs|, |hs|, vertAt, idxAt, nameAt, bounds) == Loaded(Model(vs, hs, bounds, NameAt(data, nameAt)))
  {
    hide PackVertices, PackHalves, VerticesOf, HalvesOf, NameAt, Wrapped;
    NotWrapped(vertAt + VERTEX_SIZE * |vs|);
    NotWrapped(idxAt + 2 * |hs|);
    VerticesRoundTrip(vs);
    HalvesRoundTrip(hs);
  }

  // The bounds of the loaded model are those of its vertices: tight, though the loader takes them
  // from the header.
  lemma BoundsSurvive(val: Word -> real, vertices: seq<Vertex>, indices: seq<Half>, name: string)
    requires AllWellShaped(vertices) && Ascii(name) && IndexEnd(vertices, indices) + |name| + 1 < WORDS
    ensures var loading := LoadC3dMem(File(vertices, indices, Bounds(val, vertices), name));
      && loading.Loaded? && AllWellShaped(loading.model.vertices)
      && TightAround(val, loading.model.vertices, loading.model.bounds)
  {
    LoadsBack(vertices, indices, Bounds(val, vertices), name);
    BoundsAreTight(val, vertices);
    hide LoadC3dMem, File, TightAround, Bounds;
  }

  // From a face list through the file and back: each index of the loaded model still looks up
  // the vertex that its face reference asked for.
  lemma FacesSurvive(positions: seq<Triple>, normals: seq<Triple>, texcoords: seq<Coord>, faces: seq<FaceVert>,
                     vertices: seq<Vertex>, indices: seq<nat>, bounds: seq<Word>, name: string, k: nat)
    requires AllInRange(positions, faces) && Builds(positions, normals, texcoords, faces, vertices, indices) && k < |faces|
    requires |bounds| == 6 && Writable(vertices, indices, name) && IndexEnd(vertices, AsHalves(indices)) + |name| + 1 < WORDS
    ensures var loading := LoadC3dMem(File(vertices, AsHalves(indices), bounds, name));
      && loading.Loaded? && |loading.model.indices| == |faces| && loading.model.indices[k] < |loading.model.vertices|
      && loading.model.vertices[loading.model.indices[k]] == VertexFor(positions, normals, texcoords, faces[k])
  {
    LoadsBack(vertices, AsHalves(indices), bounds, name);
    hide LoadC3dMem, File, VertexFor;
  }
}
