// Where everything is in a .c3d file, byte by byte (tools/obj2c3d.py:57-74, 93-131).

module C3dLayout {
  import opened C3dBytes
  import opened Obj2C3d

  predicate HoldsWord(file: seq<Byte>, at: nat, n: int) {
    && at + 4 <= |file|
    && file[at] as int + 256 * (file[at + 1] as int) + 65536 * (file[at + 2] as int) + 16777216 * (file[at + 3] as int) == n
  }

  predicate HoldsHalf(file: seq<Byte>, at: nat, n: int) {
    at + 2 <= |file| && file[at] as int + 256 * (file[at + 1] as int) == n
  }

  // ---- The parts ----

  // A part of a file that keeps what it holds.
  lemma InPart(file: seq<Byte>, start: nat, part: seq<Byte>, at: nat, n: int)
    requires start + |part| <= |file| && file[start..start + |part|] == part
    ensures HoldsWord(part, at, n) ==> HoldsWord(file, start + at, n)
    ensures HoldsHalf(part, at, n) ==> HoldsHalf(file, start + at, n)
    ensures at < |part| ==> file[start + at] == part[at]
  {
    if at < |part| {
      assert file[start..start + |part|][at] == file[start + at];
      if at + 2 <= |part| {
        assert file[start..start + |part|][at + 1] == file[start + at + 1];
      }
      if at + 4 <= |part| {
        assert file[start..start + |part|][at + 2] == file[start + at + 2];
        assert file[start..start + |part|][at + 3] == file[start + at + 3];
      }
    }
  }

  lemma {:induction false} WordAt(ws: seq<Word>, i: nat)
    requires i < |ws|
    ensures HoldsWord(PackWords(ws), 4 * i, ws[i])
  {
    var n := |ws| - 1;
    var front := ws[..n];
    if i == n {
      WordRoundTrip(ws[n]);
      InPart(PackWords(ws), 4 * n, PackWord(ws[n]), 0, ws[n]);
    } else {
      WordAt(front, i);
      InPart(PackWords(ws), 0, PackWords(front), 4 * i, ws[i]);
    }
  }

  lemma {:induction false} HalfAt(hs: seq<Half>, i: nat)
    requires i < |hs|
    ensures HoldsHalf(PackHalves(hs), 2 * i, hs[i])
  {
    var n := |hs| - 1;
    var front := hs[..n];
    if i == n {
      HalfRoundTrip(hs[n]);
      InPart(PackHalves(hs), 2 * n, PackHalf(hs[n]), 0, hs[n]);
    } else {
      HalfAt(front, i);
      InPart(PackHalves(hs), 0, PackHalves(front), 2 * i, hs[i]);
    }
  }

  // A vertex at an offset: three words of position, three of normal, two of texture coordinates
  // and four bytes of colour.
  predicate HoldsVertex(file: seq<Byte>, at: nat, v: Vertex)
    requires WellShaped(v)
  {
    && at + 36 <= |file|
    && (forall j :: 0 <= j < 8 ==> HoldsWord(file, at + 4 * j, v.floats[j]))
    && (forall j :: 0 <= j < 4 ==> file[at + 32 + j] == v.color[j])
  }

  lemma VertexPacked(v: Vertex)
    requires WellShaped(v)
    ensures HoldsVertex(PackVertex(v), 0, v)
  {
    forall j | 0 <= j < 8
      ensures HoldsWord(PackVertex(v), 4 * j, v.floats[j])
    {
      WordAt(v.floats, j);
      InPart(PackVertex(v), 0, PackWords(v.floats), 4 * j, v.floats[j]);
    }
  }

  lemma VertexInPart(file: seq<Byte>, start: nat, part: seq<Byte>, at: nat, v: Vertex)
    requires start + |part| <= |file| && file[start..start + |part|] == part
    requires WellShaped(v) && HoldsVertex(part, at, v)
    ensures HoldsVertex(file, start + at, v)
  {
    forall j | 0 <= j < 8
      ensures HoldsWord(file, start + at + 4 * j, v.floats[j])
    {
      InPart(file, start, part, at + 4 * j, v.floats[j]);
    }
    forall j | 0 <= j < 4
      ensures file[start + at + 32 + j] == v.color[j]
    {
      InPart(file, start, part, at + 32 + j, 0);
    }
  }

  lemma {:induction false} VertexAt(vs: seq<Vertex>, i: nat)
    requires AllWellShaped(vs) && i < |vs|
    ensures HoldsVertex(PackVertices(vs), 36 * i, vs[i])
  {
    var n := |vs| - 1;
    var front := vs[..n];
    hide HoldsVertex;
    if i == n {
      VertexPacked(vs[n]);
      VertexInPart(PackVertices(vs), 36 * n, PackVertex(vs[n]), 0, vs[n]);
    } else {
      VertexAt(front, i);
      VertexInPart(PackVertices(vs), 0, PackVertices(front), 36 * i, vs[i]);
    }
  }

  // ---- The file ----

  // Where the indices and the name begin.
  function IndexAt(vertices: nat): nat {
    52 + 36 * vertices
  }

  function NameAt(vertices: nat, indices: nat): nat {
    52 + 36 * vertices + 2 * indices + (if indices % 2 == 0 then 0 else 2)
  }

  ghost predicate IsParts(file: seq<Byte>, header: seq<Byte>, body: seq<Byte>, idx: seq<Byte>, name: seq<Byte>) {
    file == header + body + idx + name
  }

  lemma PartsAreIn(file: seq<Byte>, header: seq<Byte>, body: seq<Byte>, idx: seq<Byte>, name: seq<Byte>)
    requires IsParts(file, header, body, idx, name)
    ensures |file| == |header| + |body| + |idx| + |name|
    ensures file[0..|header|] == header
    ensures file[|header|..|header| + |body|] == body
    ensures var at := |header| + |body|; file[at..at + |idx|] == idx
    ensures var at := |header| + |body| + |idx|; file[at..at + |name|] == name
  {
  }

  ghost predicate HoldsHeader(file: seq<Byte>, words: seq<int>) {
    |words| == 13 && forall i :: 0 <= i < 13 ==> HoldsWord(file, 4 * i, words[i])
  }

  ghost predicate HoldsVertices(file: seq<Byte>, vertices: seq<Vertex>)
    requires AllWellShaped(vertices)
  {
    forall i :: 0 <= i < |vertices| ==> HoldsVertex(file, 52 + 36 * i, vertices[i])
  }

  // What a .c3d file holds: the header, each vertex and each index at its place, zeros up to the
  // next multiple of four bytes, and the name with its NUL.
  ghost predicate LaidOut(file: seq<Byte>, vertices: seq<Vertex>, indices: seq<Half>, bounds: seq<Word>, name: string)
    requires AllWellShaped(vertices) && |bounds| == 6
  {
    var idxAt, nameAt := IndexAt(|vertices|), NameAt(|vertices|, |indices|);
    && |file| == nameAt + |name| + 1
    && HoldsHeader(file, [0x4333_4430, 1, |vertices|, |indices|, 52, idxAt, nameAt] + bounds)
    && HoldsVertices(file, vertices)
    && (forall k :: 0 <= k < |indices| ==> HoldsHalf(file, idxAt + 2 * k, indices[k]))
    && (forall k :: idxAt + 2 * |indices| <= k < nameAt ==> file[k] == 0)
    && (forall k :: 0 <= k < |name| ==> file[nameAt + k] == name[k] as int)
    && file[|file| - 1] == 0
  }

  // The written file is laid out so.
  lemma FileLayout(vertices: seq<Vertex>, indices: seq<Half>, bounds: seq<Word>, name: string)
    requires AllWellShaped(vertices) && |bounds| == 6 && Ascii(name) && IndexEnd(vertices, indices) < 0x1_0000_0000
    ensures LaidOut(File(vertices, indices, bounds, name), vertices, indices, bounds, name)
  {
    var idxAt, nameAt := VertexEnd(vertices), IndexEnd(vertices, indices);
    var words := Header(|vertices|, |indices|, HEADER_SIZE, idxAt, nameAt, bounds);
    var file := File(vertices, indices, bounds, name);
    assert IsParts(file, PackWords(words), PackVertices(vertices), Padded(PackHalves(indices)), Encoded(name) + [0]);
    Ends(vertices, indices);
    hide File, PackWords, PackVertices, PackHalves, Padded, Encoded, IsParts, IndexEnd, LaidOut;
    FromParts(file, words, vertices, indices, bounds, name);
  }

  lemma Ends(vertices: seq<Vertex>, indices: seq<Half>)
    ensures VertexEnd(vertices) == IndexAt(|vertices|)
    ensures IndexEnd(vertices, indices) == NameAt(|vertices|, |indices|)
    ensures |Padded(PackHalves(indices))| == NameAt(|vertices|, |indices|) - IndexAt(|vertices|)
  {
    var b := PackHalves(indices);
    assert |b| == 2 * |indices|;
    hide PackHalves;
  }

  lemma FromParts(file: seq<Byte>, words: seq<Word>, vertices: seq<Vertex>, indices: seq<Half>, bounds: seq<Word>, name: string)
    requires AllWellShaped(vertices) && |bounds| == 6 && Ascii(name)
    requires IsParts(file, PackWords(words), PackVertices(vertices), Padded(PackHalves(indices)), Encoded(name) + [0])
    requires |Padded(PackHalves(indices))| == NameAt(|vertices|, |indices|) - IndexAt(|vertices|)
    requires words == [0x4333_4430, 1, |vertices|, |indices|, 52, IndexAt(|vertices|), NameAt(|vertices|, |indices|)] + bounds
    ensures LaidOut(file, vertices, indices, bounds, name)
  {
    hide PackWords, PackVertices, PackHalves, Padded, Encoded, HoldsVertices, HoldsHeader, HoldsHalf, IsParts, AllWellShaped, Ascii;
    FrontIn(file, words, vertices, Padded(PackHalves(indices)), Encoded(name) + [0]);
    BackIn(file, PackWords(words), PackVertices(vertices), indices, name);
  }

  lemma FrontIn(file: seq<Byte>, words: seq<Word>, vertices: seq<Vertex>, idx: seq<Byte>, name: seq<Byte>)
    requires AllWellShaped(vertices) && |words| == 13 && IsParts(file, PackWords(words), PackVertices(vertices), idx, name)
    ensures HoldsHeader(file, words) && HoldsVertices(file, vertices)
  {
    hide PackWords, PackVertices, HoldsVertices, HoldsHeader, IsParts, AllWellShaped;
    PartsAreIn(file, PackWords(words), PackVertices(vertices), idx, name);
    HeaderIn(file, words);
    VerticesIn(file, vertices);
  }

  lemma BackIn(file: seq<Byte>, header: seq<Byte>, body: seq<Byte>, indices: seq<Half>, name: string)
    requires Ascii(name) && IsParts(file, header, body, Padded(PackHalves(indices)), Encoded(name) + [0])
    ensures var idxAt, nameAt := |header| + |body|, |header| + |body| + |Padded(PackHalves(indices))|;
      && |file| == nameAt + |name| + 1
      && (forall k :: 0 <= k < |indices| ==> HoldsHalf(file, idxAt + 2 * k, indices[k]))
      && (forall k :: idxAt + 2 * |indices| <= k < nameAt ==> file[k] == 0)
      && (forall k :: 0 <= k < |name| ==> file[nameAt + k] == name[k] as int)
      && file[|file| - 1] == 0
  {
    var halves := Padded(PackHalves(indices));
    hide PackHalves, Padded, Encoded, HoldsHalf, IsParts, Ascii;
    PartsAreIn(file, header, body, halves, Encoded(name) + [0]);
    IndicesIn(file, |header| + |body|, indices);
    NameIn(file, |header| + |body| + |halves|, name);
  }

  lemma HeaderIn(file: seq<Byte>, words: seq<Word>)
    requires |words| == 13 && 52 <= |file| && file[0..52] == PackWords(words)
    ensures HoldsHeader(file, words)
  {
    hide HoldsWord, PackWords;
    forall i | 0 <= i < 13
      ensures HoldsWord(file, 4 * i, words[i])
    {
      WordAt(words, i);
      InPart(file, 0, PackWords(words), 4 * i, words[i]);
    }
  }

  lemma VertexIn(file: seq<Byte>, vs: seq<Vertex>, i: nat)
    requires AllWellShaped(vs) && i < |vs|
    requires var part := PackVertices(vs); 52 + |part| <= |file| && file[52..52 + |part|] == part
    ensures HoldsVertex(file, 52 + 36 * i, vs[i])
  {
    hide HoldsVertex, PackVertices;
    var part := PackVertices(vs);
    VertexAt(vs, i);
    VertexInPart(file, 52, part, 36 * i, vs[i]);
  }

  lemma VerticesIn(file: seq<Byte>, vs: seq<Vertex>)
    requires AllWellShaped(vs)
    requires var part := PackVertices(vs); 52 + |part| <= |file| && file[52..52 + |part|] == part
    ensures HoldsVertices(file, vs)
  {
    hide HoldsVertex, PackVertices;
    forall i | 0 <= i < |vs|
      ensures HoldsVertex(file, 52 + 36 * i, vs[i])
    {
      VertexIn(file, vs, i);
    }
  }

  lemma IndicesIn(file: seq<Byte>, at: nat, hs: seq<Half>)
    requires var part := Padded(PackHalves(hs)); at + |part| <= |file| && file[at..at + |part|] == part
    ensures forall k :: 0 <= k < |hs| ==> HoldsHalf(file, at + 2 * k, hs[k])
    ensures forall k :: at + 2 * |hs| <= k < at + |Padded(PackHalves(hs))| ==> file[k] == 0
  {
    hide HoldsHalf, PackHalves, Padded;
    forall k | 0 <= k < |hs|
      ensures HoldsHalf(file, at + 2 * k, hs[k])
    {
      IndexIn(file, at, hs, k);
    }
    forall k | at + 2 * |hs| <= k < at + |Padded(PackHalves(hs))|
      ensures file[k] == 0
    {
      PadIn(file, at, PackHalves(hs), k);
    }
  }

  lemma IndexIn(file: seq<Byte>, at: nat, hs: seq<Half>, k: nat)
    requires var part := Padded(PackHalves(hs)); at + |part| <= |file| && file[at..at + |part|] == part
    requires k < |hs|
    ensures HoldsHalf(file, at + 2 * k, hs[k])
  {
    hide PackHalves, Padded, HoldsHalf, HoldsWord;
    var packed := PackHalves(hs);
    var part := Padded(packed);
    HalfAt(hs, k);
    assert part[0..0 + |packed|] == packed;
    InPart(part, 0, packed, 2 * k, hs[k]);
    InPart(file, at, part, 2 * k, hs[k]);
  }

  lemma PadIn(file: seq<Byte>, at: nat, b: seq<Byte>, k: nat)
    requires at + |Padded(b)| <= |file| && file[at..at + |Padded(b)|] == Padded(b) && at + |b| <= k < at + |Padded(b)|
    ensures file[k] == 0
  {
    InPart(file, at, Padded(b), k - at, 0);
    PadIsZero(b, k - at);
  }

  lemma PadIsZero(b: seq<Byte>, k: nat)
    requires |b| <= k < |Padded(b)|
    ensures Padded(b)[k] == 0
  {
  }

  lemma NameIn(file: seq<Byte>, at: nat, name: string)
    requires Ascii(name) && |file| == at + |name| + 1 && file[at..at + |name| + 1] == Encoded(name) + [0]
    ensures forall k :: 0 <= k < |name| ==> file[at + k] == name[k] as int
    ensures file[|file| - 1] == 0
  {
    var part := Encoded(name) + [0];
    forall k | 0 <= k < |part|
      ensures file[at + k] == part[k]
    {
      InPart(file, at, part, k, 0);
    }
    assert part[|name|] == 0;
  }

  // What can be written at all.
  lemma WritableExactly(vertices: seq<Vertex>, indices: seq<nat>, name: string)
    ensures Writable(vertices, indices, name) <==>
      && (forall k :: 0 <= k < |indices| ==> indices[k] < 65536)
      && (forall k :: 0 <= k < |name| ==> name[k] as int < 128)
      && NameAt(|vertices|, |indices|) < 0x1_0000_0000
  {
    if AllHalves(indices) {
      Ends(vertices, AsHalves(indices));
    }
    hide IndexEnd, NameAt;
  }

  // ---- What a face reference becomes ----

  predicate HoldsTriple(file: seq<Byte>, at: nat, x: int, y: int, z: int) {
    HoldsWord(file, at, x) && HoldsWord(file, at + 4, y) && HoldsWord(file, at + 8, z)
  }

  // At this place the file has the position of a face reference, counted from the end if negative;
  // its normal, or (0, 1, 0) if there is none; its texture coordinates, or (0, 0); and white.
  predicate HoldsFace(file: seq<Byte>, at: nat, positions: seq<Triple>, normals: seq<Triple>, texcoords: seq<Coord>, f: FaceVert)
    requires InRange(|positions|, f.vi)
  {
    var p := positions[if f.vi < 0 then |positions| + f.vi else f.vi];
    && HoldsTriple(file, at, p.x, p.y, p.z)
    && (if 0 <= f.ni < |normals| then HoldsTriple(file, at + 12, normals[f.ni].x, normals[f.ni].y, normals[f.ni].z)
        else HoldsTriple(file, at + 12, 0, 0x3F80_0000, 0))
    && (if 0 <= f.ti < |texcoords| then HoldsWord(file, at + 24, texcoords[f.ti].u) && HoldsWord(file, at + 28, texcoords[f.ti].v)
        else HoldsWord(file, at + 24, 0) && HoldsWord(file, at + 28, 0))
    && at + 36 <= |file| && file[at + 32..at + 36] == [255, 255, 255, 255]
  }

  // The file has the index of each face reference, and at that vertex what the reference asks for.
  lemma FaceInFile(positions: seq<Triple>, normals: seq<Triple>, texcoords: seq<Coord>, faces: seq<FaceVert>,
                   vertices: seq<Vertex>, indices: seq<nat>, bounds: seq<Word>, name: string, k: nat)
    requires AllInRange(positions, faces) && Builds(positions, normals, texcoords, faces, vertices, indices)
    requires Writable(vertices, indices, name) && |bounds| == 6 && k < |faces|
    ensures var file, f := File(vertices, AsHalves(indices), bounds, name), faces[k];
      && HoldsHalf(file, 52 + 36 * |vertices| + 2 * k, indices[k])
      && HoldsFace(file, 52 + 36 * indices[k], positions, normals, texcoords, f)
  {
    var file, f := File(vertices, AsHalves(indices), bounds, name), faces[k];
    var at := 52 + 36 * indices[k];
    var v := VertexFor(positions, normals, texcoords, f);
    hide File, AsHalves, HoldsWord, HoldsHalf, HoldsFace, Padded, Builds, LaidOut, HoldsVertex, VertexFor, IndexEnd;
    FileLayout(vertices, AsHalves(indices), bounds, name);
    FaceAt(file, positions, normals, texcoords, faces, vertices, indices, bounds, name, k);
    HoldsFaceIs(file, at, positions, normals, texcoords, f);
  }

  lemma FaceAt(file: seq<Byte>, positions: seq<Triple>, normals: seq<Triple>, texcoords: seq<Coord>, faces: seq<FaceVert>,
               vertices: seq<Vertex>, indices: seq<nat>, bounds: seq<Word>, name: string, k: nat)
    requires AllInRange(positions, faces) && Builds(positions, normals, texcoords, faces, vertices, indices)
    requires AllHalves(indices) && |bounds| == 6 && k < |faces| && LaidOut(file, vertices, AsHalves(indices), bounds, name)
    ensures HoldsHalf(file, 52 + 36 * |vertices| + 2 * k, indices[k])
    ensures HoldsVertex(file, 52 + 36 * indices[k], VertexFor(positions, normals, texcoords, faces[k]))
  {
    hide VertexFor, InFirstUse, HoldsHalf, HoldsVertex, HoldsHeader;
    assert AsHalves(indices)[k] == indices[k];
  }

  lemma HoldsFaceIs(file: seq<Byte>, at: nat, positions: seq<Triple>, normals: seq<Triple>, texcoords: seq<Coord>, f: FaceVert)
    requires InRange(|positions|, f.vi) && HoldsVertex(file, at, VertexFor(positions, normals, texcoords, f))
    ensures HoldsFace(file, at, positions, normals, texcoords, f)
  {
    var v := VertexFor(positions, normals, texcoords, f);
    hide HoldsTriple, HoldsWord, VertexFor, HoldsVertex;
    VertexWords(file, at, v);
    VertexParts(positions, normals, texcoords, f);
  }

  lemma VertexParts(positions: seq<Triple>, normals: seq<Triple>, texcoords: seq<Coord>, f: FaceVert)
    requires InRange(|positions|, f.vi)
    ensures var w := VertexFor(positions, normals, texcoords, f).floats;
      var p := positions[if f.vi < 0 then |positions| + f.vi else f.vi];
      && w[0] == p.x && w[1] == p.y && w[2] == p.z
      && (if 0 <= f.ni < |normals| then w[3] == normals[f.ni].x && w[4] == normals[f.ni].y && w[5] == normals[f.ni].z
          else w[3] == 0 && w[4] == 0x3F80_0000 && w[5] == 0)
      && if 0 <= f.ti < |texcoords| then w[6] == texcoords[f.ti].u && w[7] == texcoords[f.ti].v else w[6] == w[7] == 0
    ensures VertexFor(positions, normals, texcoords, f).color == [255, 255, 255, 255]
  {
  }

  lemma VertexWords(file: seq<Byte>, at: nat, v: Vertex)
    requires WellShaped(v) && HoldsVertex(file, at, v)
    ensures HoldsTriple(file, at, v.floats[0], v.floats[1], v.floats[2])
    ensures HoldsTriple(file, at + 12, v.floats[3], v.floats[4], v.floats[5])
    ensures HoldsWord(file, at + 24, v.floats[6]) && HoldsWord(file, at + 28, v.floats[7])
    ensures at + 36 <= |file| && file[at + 32..at + 36] == v.color
  {
    assert HoldsWord(file, at + 4 * 0, v.floats[0]) && HoldsWord(file, at + 4 * 1, v.floats[1]) && HoldsWord(file, at + 4 * 2, v.floats[2]);
    assert HoldsWord(file, at + 4 * 3, v.floats[3]) && HoldsWord(file, at + 4 * 4, v.floats[4]) && HoldsWord(file, at + 4 * 5, v.floats[5]);
    assert HoldsWord(file, at + 4 * 6, v.floats[6]) && HoldsWord(file, at + 4 * 7, v.floats[7]);
  }
}
