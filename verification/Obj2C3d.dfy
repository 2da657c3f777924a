// The converter to .c3d files (tools/obj2c3d.py:57-131).

module Obj2C3d {
  import opened Wrappers
  import opened C3dBytes

  // ---- Building the vertex and index buffers ----

  // A reference of a face to a position, texture coordinate and normal.
  datatype FaceVert = FaceVert(vi: int, ti: int, ni: int)

  datatype Triple = Triple(x: Word, y: Word, z: Word)

  datatype Coord = Coord(u: Word, v: Word)

  // 1.0 as a 32-bit float.
  const ONE: Word := 0x3F80_0000

  // Python indexes from the end for negative numbers.
  predicate InRange(n: nat, i: int) {
    0 <= i + n && i < n
  }

  function Item(positions: seq<Triple>, i: int): Triple
    requires InRange(|positions|, i)
  {
    if i >= 0 then positions[i] else positions[|positions| + i]
  }

  function VertexFor(positions: seq<Triple>, normals: seq<Triple>, texcoords: seq<Coord>, f: FaceVert): (v: Vertex)
    requires InRange(|positions|, f.vi)
    ensures WellShaped(v)
  {
    var pos := Item(positions, f.vi);
    var nrm := if 0 <= f.ni < |normals| then normals[f.ni] else Triple(0, ONE, 0);
    var uv := if 0 <= f.ti < |texcoords| then texcoords[f.ti] else Coord(0, 0);
    Vertex([pos.x, pos.y, pos.z, nrm.x, nrm.y, nrm.z, uv.u, uv.v], [255, 255, 255, 255])
  }

  predicate AllInRange(positions: seq<Triple>, faces: seq<FaceVert>) {
    forall k :: 0 <= k < |faces| ==> InRange(|positions|, faces[k].vi)
  }

  // The buffers of a face list: looking up each index gives the vertex its reference asks for,
  // two references share an index exactly when they are the same, no vertex is unused, and the
  // vertices are in the order of their first use.
  ghost predicate Builds(positions: seq<Triple>, normals: seq<Triple>, texcoords: seq<Coord>, faces: seq<FaceVert>,
                         vertices: seq<Vertex>, indices: seq<nat>)
    requires AllInRange(positions, faces)
  {
    && |indices| == |faces|
    && (forall k :: 0 <= k < |faces| ==>
          indices[k] < |vertices| && vertices[indices[k]] == VertexFor(positions, normals, texcoords, faces[k]))
    && (forall k, l :: 0 <= k < |faces| && 0 <= l < |faces| ==> (indices[k] == indices[l] <==> faces[k] == faces[l]))
    && (forall i :: 0 <= i < |vertices| ==> i in indices)
    && InFirstUse(indices)
    && AllWellShaped(vertices)
  }

  // Every index is preceded by all smaller ones.
  predicate InFirstUse(indices: seq<nat>) {
    forall k, i :: 0 <= k < |indices| && 0 <= i < indices[k] ==> i in indices[..k]
  }

  lemma FirstUseAdds(indices: seq<nat>, n: nat, i: nat)
    requires InFirstUse(indices) && i <= n && forall j :: 0 <= j < n ==> j in indices
    ensures InFirstUse(indices + [i])
  {
    var more := indices + [i];
    forall k, j | 0 <= k < |more| && 0 <= j < more[k]
      ensures j in more[..k]
    {
      assert more[..k] == indices[..k];
      assert indices[..|indices|] == indices;
    }
  }

  // The vertex map holds each reference seen, with its place.
  ghost predicate Maps(vertexMap: map<FaceVert, nat>, faces: seq<FaceVert>, indices: seq<nat>, n: nat) {
    && |indices| == |faces|
    && (forall k :: 0 <= k < |faces| ==> faces[k] in vertexMap && vertexMap[faces[k]] == indices[k])
    && (forall f :: f in vertexMap ==> f in faces && vertexMap[f] < n)
    && (forall f, g :: f in vertexMap && g in vertexMap && vertexMap[f] == vertexMap[g] ==> f == g)
  }

  // build_vertices: fails, with an IndexError, exactly if some position is out of range.
  method BuildVertices(positions: seq<Triple>, normals: seq<Triple>, texcoords: seq<Coord>, faces: seq<FaceVert>)
    returns (ok: bool, vertices: seq<Vertex>, indices: seq<nat>)
    ensures ok <==> forall k :: 0 <= k < |faces| ==> -|positions| <= faces[k].vi < |positions|
    ensures ok ==> AllInRange(positions, faces) && Builds(positions, normals, texcoords, faces, vertices, indices)
  {
    var vertexMap: map<FaceVert, nat> := map[];
    vertices, indices := [], [];
    for k := 0 to |faces|
      invariant AllInRange(positions, faces[..k])
      invariant Maps(vertexMap, faces[..k], indices, |vertices|)
      invariant Builds(positions, normals, texcoords, faces[..k], vertices, indices)
    {
      var key := faces[k];
      if key !in vertexMap && !InRange(|positions|, key.vi) {
        return false, vertices, indices;
      }
      SeenInRange(positions, faces[..k], vertexMap, indices, |vertices|, key);
      assert faces[..k + 1] == faces[..k] + [key];
      if key !in vertexMap {
        AddNew(positions, normals, texcoords, faces[..k], vertices, indices, vertexMap, key);
        vertexMap := vertexMap[key := |vertices|];
        vertices := vertices + [VertexFor(positions, normals, texcoords, key)];
      } else {
        AddSeen(positions, normals, texcoords, faces[..k], vertices, indices, vertexMap, key);
      }
      indices := indices + [vertexMap[key]];
    }
    assert faces[..|faces|] == faces;
    ok := true;
  }

  lemma SeenInRange(positions: seq<Triple>, faces: seq<FaceVert>, vertexMap: map<FaceVert, nat>, indices: seq<nat>, n: nat, key: FaceVert)
    requires AllInRange(positions, faces) && Maps(vertexMap, faces, indices, n)
    requires key in vertexMap || InRange(|positions|, key.vi)
    ensures AllInRange(positions, faces + [key])
  {
  }

  lemma NewKey(faces: seq<FaceVert>, indices: seq<nat>, vertexMap: map<FaceVert, nat>, n: nat, key: FaceVert)
    requires Maps(vertexMap, faces, indices, n) && key !in vertexMap
    ensures key !in faces
    ensures Maps(vertexMap[key := n], faces + [key], indices + [n], n + 1)
  {
  }

  lemma AddNew(positions: seq<Triple>, normals: seq<Triple>, texcoords: seq<Coord>, faces: seq<FaceVert>,
               vertices: seq<Vertex>, indices: seq<nat>, vertexMap: map<FaceVert, nat>, key: FaceVert)
    requires AllInRange(positions, faces) && InRange(|positions|, key.vi) && key !in vertexMap
    requires Maps(vertexMap, faces, indices, |vertices|) && Builds(positions, normals, texcoords, faces, vertices, indices)
    ensures AllInRange(positions, faces + [key])
    ensures Maps(vertexMap[key := |vertices|], faces + [key], indices + [|vertices|], |vertices| + 1)
    ensures Builds(positions, normals, texcoords, faces + [key], vertices + [VertexFor(positions, normals, texcoords, key)], indices + [|vertices|])
  {
    NewKey(faces, indices, vertexMap, |vertices|, key);
    hide VertexFor, InFirstUse, Maps;
    FirstUseAdds(indices, |vertices|, |vertices|);
    var vs := vertices + [VertexFor(positions, normals, texcoords, key)];
    forall i | 0 <= i < |vs|
      ensures i in indices + [|vertices|]
    {
    }
  }

  lemma SeenKey(faces: seq<FaceVert>, indices: seq<nat>, vertexMap: map<FaceVert, nat>, n: nat, key: FaceVert)
    requires Maps(vertexMap, faces, indices, n) && key in vertexMap
    ensures key in faces && forall k :: 0 <= k < |faces| && faces[k] == key ==> indices[k] == vertexMap[key]
    ensures Maps(vertexMap, faces + [key], indices + [vertexMap[key]], n)
  {
  }

  lemma AddSeen(positions: seq<Triple>, normals: seq<Triple>, texcoords: seq<Coord>, faces: seq<FaceVert>,
                vertices: seq<Vertex>, indices: seq<nat>, vertexMap: map<FaceVert, nat>, key: FaceVert)
    requires AllInRange(positions, faces) && AllInRange(positions, faces + [key]) && key in vertexMap
    requires Maps(vertexMap, faces, indices, |vertices|) && Builds(positions, normals, texcoords, faces, vertices, indices)
    ensures Maps(vertexMap, faces + [key], indices + [vertexMap[key]], |vertices|)
    ensures Builds(positions, normals, texcoords, faces + [key], vertices, indices + [vertexMap[key]])
  {
    var i := vertexMap[key];
    SeenKey(faces, indices, vertexMap, |vertices|, key);
    hide VertexFor, InFirstUse, Maps, AllWellShaped;
    var k :| 0 <= k < |faces| && faces[k] == key;
    FirstUseAdds(indices, |vertices|, i);
    assert forall l :: 0 <= l < |faces| ==> (indices[l] == indices[k] <==> faces[l] == key);
    forall j | 0 <= j < |vertices|
      ensures j in indices + [i]
    {
      assert j in indices;
    }
  }

  // ---- Bounds ----

  // Python's min and max, which keep the first of equal values. `val` is the value of a float.
  function LeastOf(val: Word -> real, ws: seq<Word>): (r: Word)
    requires ws != []
    ensures r in ws && forall i :: 0 <= i < |ws| ==> val(r) <= val(ws[i])
  {
    if |ws| == 1 then ws[0]
    else
      var n := |ws| - 1;
      var r := LeastOf(val, ws[..n]);
      assert forall i :: 0 <= i < n ==> ws[..n][i] == ws[i];
      if val(ws[n]) < val(r) then ws[n] else r
  }

  function GreatestOf(val: Word -> real, ws: seq<Word>): (r: Word)
    requires ws != []
    ensures r in ws && forall i :: 0 <= i < |ws| ==> val(ws[i]) <= val(r)
  {
    if |ws| == 1 then ws[0]
    else
      var n := |ws| - 1;
      var r := GreatestOf(val, ws[..n]);
      assert forall i :: 0 <= i < n ==> ws[..n][i] == ws[i];
      if val(ws[n]) > val(r) then ws[n] else r
  }

  function Along(vertices: seq<Vertex>, axis: nat): (ws: seq<Word>)
    requires AllWellShaped(vertices) && axis < 3
    ensures |ws| == |vertices|
  {
    seq(|vertices|, i requires 0 <= i < |vertices| => vertices[i].floats[axis])
  }

  // compute_bounds
  function Bounds(val: Word -> real, vertices: seq<Vertex>): (b: seq<Word>)
    requires AllWellShaped(vertices)
    ensures |b| == 6
  {
    if vertices == [] then [0, 0, 0, 0, 0, 0]
    else
      seq(6, i requires 0 <= i < 6 => if i < 3 then LeastOf(val, Along(vertices, i)) else GreatestOf(val, Along(vertices, i - 3)))
  }

  // The box holds every vertex, and each of its faces touches one.
  ghost predicate TightAround(val: Word -> real, vertices: seq<Vertex>, b: seq<Word>)
    requires AllWellShaped(vertices)
  {
    && |b| == 6
    && (vertices == [] ==> b == [0, 0, 0, 0, 0, 0])
    && (forall i, axis :: 0 <= i < |vertices| && 0 <= axis < 3 ==>
          val(b[axis]) <= val(vertices[i].floats[axis]) <= val(b[axis + 3]))
    && (vertices != [] ==> forall axis :: 0 <= axis < 3 ==> Touches(vertices, b[axis], axis) && Touches(vertices, b[axis + 3], axis))
  }

  ghost predicate Touches(vertices: seq<Vertex>, side: Word, axis: nat)
    requires AllWellShaped(vertices) && axis < 3
  {
    exists i :: 0 <= i < |vertices| && vertices[i].floats[axis] == side
  }

  lemma BoundsAreTight(val: Word -> real, vertices: seq<Vertex>)
    requires AllWellShaped(vertices)
    ensures TightAround(val, vertices, Bounds(val, vertices))
  {
    if vertices != [] {
      forall axis | 0 <= axis < 3
        ensures forall i :: 0 <= i < |vertices| ==> Along(vertices, axis)[i] == vertices[i].floats[axis]
        ensures Touches(vertices, LeastOf(val, Along(vertices, axis)), axis)
        ensures Touches(vertices, GreatestOf(val, Along(vertices, axis)), axis)
      {
        var ws := Along(vertices, axis);
        var i :| 0 <= i < |ws| && ws[i] == LeastOf(val, ws);
        var j :| 0 <= j < |ws| && ws[j] == GreatestOf(val, ws);
        assert vertices[i].floats[axis] == ws[i] && vertices[j].floats[axis] == ws[j];
      }
      hide LeastOf, GreatestOf, Along;
    }
  }

  // ---- Writing the file ----

  const MAGIC: Word := 0x4333_4430
  const VERSION: Word := 1
  const HEADER_SIZE: nat := 52

  function Padded(b: seq<Byte>): (r: seq<Byte>)
    ensures |r| % 4 == 0 && |b| <= |r| < |b| + 4 && r[..|b|] == b
  {
    b + if |b| % 4 == 0 then [] else if |b| % 4 == 1 then [0, 0, 0] else if |b| % 4 == 2 then [0, 0] else [0]
  }

  predicate Ascii(name: string) {
    forall i :: 0 <= i < |name| ==> name[i] as int < 128
  }

  function Encoded(name: string): (b: seq<Byte>)
    requires Ascii(name)
    ensures |b| == |name|
  {
    seq(|name|, i requires 0 <= i < |name| => name[i] as int)
  }

  function VertexEnd(vertices: seq<Vertex>): nat {
    HEADER_SIZE + VERTEX_SIZE * |vertices|
  }

  function IndexEnd(vertices: seq<Vertex>, indices: seq<Half>): nat {
    VertexEnd(vertices) + |Padded(PackHalves(indices))|
  }

  function Header(nv: Word, ni: Word, vertAt: Word, idxAt: Word, nameAt: Word, bounds: seq<Word>): seq<Word> {
    [MAGIC, VERSION, nv, ni, vertAt, idxAt, nameAt] + bounds
  }

  // A .c3d file: header, vertices, indices padded to a multiple of four bytes, name and NUL.
  function File(vertices: seq<Vertex>, indices: seq<Half>, bounds: seq<Word>, name: string): seq<Byte>
    requires AllWellShaped(vertices) && |bounds| == 6 && Ascii(name) && IndexEnd(vertices, indices) < 0x1_0000_0000
  {
    PackWords(Header(|vertices|, |indices|, HEADER_SIZE, VertexEnd(vertices), IndexEnd(vertices, indices), bounds))
    + PackVertices(vertices) + Padded(PackHalves(indices)) + (Encoded(name) + [0])
  }

  predicate AllHalves(indices: seq<nat>) {
    forall i :: 0 <= i < |indices| ==> indices[i] < 0x1_0000
  }

  function AsHalves(indices: seq<nat>): (hs: seq<Half>)
    requires AllHalves(indices)
    ensures |hs| == |indices|
  {
    seq(|indices|, i requires 0 <= i < |indices| => indices[i])
  }

  // What write_c3d can write: indices of 16 bits, an ASCII name and offsets of 32 bits.
  predicate Writable(vertices: seq<Vertex>, indices: seq<nat>, name: string) {
    AllHalves(indices) && Ascii(name) && IndexEnd(vertices, AsHalves(indices)) < 0x1_0000_0000
  }

  // write_c3d, giving the file's contents, or failing with an error of struct or of the
  // encoding.
  method WriteC3d(val: Word -> real, vertices: seq<Vertex>, indices: seq<nat>, name: string) returns (file: Option<seq<Byte>>)
    requires AllWellShaped(vertices)
    ensures file.Some? <==> Writable(vertices, indices, name)
    ensures file.Some? ==> file.value == File(vertices, AsHalves(indices), Bounds(val, vertices), name)
  {
    hide *;
    var vertData := PackVertexData(vertices);
    var packed, idxData := PackIndices(indices);
    WritableIs(vertices, indices, name);
    if !packed {
      return None;
    }
    idxData := Pad(idxData);
    if !Ascii(name) {
      return None;
    }
    var matBytes := Encoded(name) + [0];
    var vertOffset := HEADER_SIZE;
    var idxOffset := vertOffset + |vertData|;
    var matOffset := idxOffset + |idxData|;
    if matOffset >= 0x1_0000_0000 {
      return None;
    }
    var bounds := Bounds(val, vertices);
    FileIs(vertices, AsHalves(indices), bounds, name);
    var header := PackWords(Header(|vertices|, |indices|, vertOffset, idxOffset, matOffset, bounds));
    file := Some(header + vertData + idxData + matBytes);
  }

  lemma WritableIs(vertices: seq<Vertex>, indices: seq<nat>, name: string)
    requires AllWellShaped(vertices)
    ensures Writable(vertices, indices, name) <==>
      AllHalves(indices) && Ascii(name) && HEADER_SIZE + |PackVertices(vertices)| + |Padded(PackHalves(AsHalves(indices)))| < 0x1_0000_0000
  {
  }

  lemma FileIs(vertices: seq<Vertex>, indices: seq<Half>, bounds: seq<Word>, name: string)
    requires AllWellShaped(vertices) && |bounds| == 6 && Ascii(name)
    requires HEADER_SIZE + |PackVertices(vertices)| + |Padded(PackHalves(indices))| < 0x1_0000_0000
    ensures IndexEnd(vertices, indices) == HEADER_SIZE + |PackVertices(vertices)| + |Padded(PackHalves(indices))|
    ensures var idxAt := HEADER_SIZE + |PackVertices(vertices)|; var nameAt := IndexEnd(vertices, indices);
      |vertices| < 0x1_0000_0000 && |indices| < 0x1_0000_0000 &&
      File(vertices, indices, bounds, name) == PackWords(Header(|vertices|, |indices|, HEADER_SIZE, idxAt, nameAt, bounds))
        + PackVertices(vertices) + Padded(PackHalves(indices)) + (Encoded(name) + [0])
  {
  }

  method PackVertexData(vertices: seq<Vertex>) returns (vertData: seq<Byte>)
    requires AllWellShaped(vertices)
    ensures vertData == PackVertices(vertices)
  {
    vertData := [];
    for i := 0 to |vertices|
      invariant vertData == PackVertices(vertices[..i])
    {
      assert vertices[..i + 1][..i] == vertices[..i];
      vertData := vertData + PackVertex(vertices[i]);
    }
    assert vertices[..|vertices|] == vertices;
  }

  // The loop that aligns the index data.
  method Pad(data: seq<Byte>) returns (padded: seq<Byte>)
    ensures padded == Padded(data)
  {
    padded := data;
    while |padded| % 4 != 0
      invariant Padded(padded) == Padded(data)
      decreases |Padded(data)| - |padded|
    {
      padded := padded + [0];
    }
  }

  method PackIndices(indices: seq<nat>) returns (ok: bool, idxData: seq<Byte>)
    ensures ok <==> AllHalves(indices)
    ensures ok ==> idxData == PackHalves(AsHalves(indices))
  {
    idxData := [];
    for i := 0 to |indices|
      invariant AllHalves(indices[..i])
      invariant idxData == PackHalves(AsHalves(indices[..i]))
    {
      if indices[i] >= 0x1_0000 {
        return false, idxData;
      }
      assert AsHalves(indices[..i + 1])[..i] == AsHalves(indices[..i]);
      idxData := idxData + PackHalf(indices[i]);
    }
    assert indices[..|indices|] == indices;
    ok := true;
  }
}
