/**
 * The triangle mesh of src/core/scene/objects/geometry/TriMesh.h and
 * TriMesh.cpp: vertex, colour and face arrays, the cached bounding box,
 * and the field layout of saveToStream/loadFromStream.
 *
 * Coordinates and colour components are floating point in the source; here
 * they are integers, used only as values that are stored and compared.
 */
module TriMeshes {
  import opened Wrappers

  datatype Point3 = Point3(x: int, y: int, z: int)

  /** An RGBA colour (ColorA). */
  datatype ColorA = ColorA(r: int, g: int, b: int, a: int)

  /** TriMeshFace: flags, the three vertex indices, smoothing groups, material index. */
  datatype TriMeshFace = TriMeshFace(flags: int, v0: int, v1: int, v2: int, smoothingGroups: int, materialIndex: int)

  /** The value a face slot holds before it is assigned. */
  const BlankFace := TriMeshFace(0, 0, 0, 0, 0, 0)

  /** An axis-aligned box (Box3); EmptyBox is the state setEmpty() produces. */
  datatype Box3 = EmptyBox | Box(lo: Point3, hi: Point3)

  function Min(a: int, b: int): int { if a <= b then a else b }
  function Max(a: int, b: int): int { if a <= b then b else a }

  predicate InBox(b: Box3, p: Point3)
  {
    b.Box? && b.lo.x <= p.x <= b.hi.x && b.lo.y <= p.y <= b.hi.y && b.lo.z <= p.z <= b.hi.z
  }

  /** Box3::addPoint: grows the box to include p. */
  function AddPoint(b: Box3, p: Point3): Box3
  {
    match b
    case EmptyBox => Box(p, p)
    case Box(lo, hi) =>
      Box(Point3(Min(lo.x, p.x), Min(lo.y, p.y), Min(lo.z, p.z)),
          Point3(Max(hi.x, p.x), Max(hi.y, p.y), Max(hi.z, p.z)))
  }

  /** Box3::addPoints. */
  function AddPoints(b: Box3, ps: seq<Point3>): Box3
    decreases |ps|
  {
    if ps == [] then b else AddPoints(AddPoint(b, ps[0]), ps[1..])
  }

  /** Adding points keeps what the box held, and the box then holds every added point. */
  lemma {:induction false} AddPointsEncloses(b: Box3, ps: seq<Point3>)
    ensures forall p :: InBox(b, p) ==> InBox(AddPoints(b, ps), p)
    ensures forall i :: 0 <= i < |ps| ==> InBox(AddPoints(b, ps), ps[i])
    ensures ps == [] ==> AddPoints(b, ps) == b
    ensures ps != [] ==> AddPoints(b, ps) != EmptyBox
    decreases |ps|
  {
    if ps != [] {
      AddPointsEncloses(AddPoint(b, ps[0]), ps[1..]);
      forall i | 0 <= i < |ps|
        ensures InBox(AddPoints(b, ps), ps[i])
      {
        if i > 0 {
          assert ps[i] == ps[1..][i - 1];
        }
      }
    }
  }

  /** The persistent content of a mesh (everything but the cached box). */
  datatype MeshData = MeshData(vertices: seq<Point3>, hasVertexColors: bool,
                               vertexColors: seq<ColorA>, faces: seq<TriMeshFace>)

  /** Colours are either enabled with one per vertex, or disabled and absent. */
  predicate ColorsConsistent(m: MeshData)
  {
    if m.hasVertexColors then |m.vertexColors| == |m.vertices| else m.vertexColors == []
  }

  // ---------------------------------------------------------------------
  // Stream layout

  /**
   * The values a SaveStream carries, in order. A QVector is written as its
   * element count followed by its elements; enums and integers as IntVal.
   */
  datatype StreamValue =
    | ChunkStart(id: int)
    | ChunkEnd
    | IntVal(i: int)
    | BoolVal(b: bool)
    | PointVal(p: Point3)
    | ColorVal(c: ColorA)

  datatype StreamError = UnexpectedChunk | ReadError

  /** The chunk id of a mesh record. */
  const MeshChunkId: int := 0x01

  function EncodeFace(f: TriMeshFace): seq<StreamValue>
  {
    [IntVal(f.flags), IntVal(f.v0), IntVal(f.v1), IntVal(f.v2), IntVal(f.smoothingGroups), IntVal(f.materialIndex)]
  }

  /** The faces in order, each as its six values. */
  function EncodeFaces(fs: seq<TriMeshFace>): (r: seq<StreamValue>)
    ensures |r| == 6 * |fs|
    decreases |fs|
  {
    if fs == [] then [] else EncodeFaces(fs[..|fs| - 1]) + EncodeFace(fs[|fs| - 1])
  }

  function PointVals(ps: seq<Point3>): seq<StreamValue>
  {
    seq(|ps|, i requires 0 <= i < |ps| => PointVal(ps[i]))
  }

  function ColorVals(cs: seq<ColorA>): seq<StreamValue>
  {
    seq(|cs|, i requires 0 <= i < |cs| => ColorVal(cs[i]))
  }

  /** The chunk that TriMesh::saveToStream writes. */
  function Encode(m: MeshData): seq<StreamValue>
  {
    EncodeHeader(m) + EncodeFaces(m.faces) + [ChunkEnd]
  }

  /** The part of Encode before the faces: chunk id, vertices, colour flag, colours, face count. */
  function EncodeHeader(m: MeshData): (r: seq<StreamValue>)
    ensures |r| == 5 + |m.vertices| + |m.vertexColors|
  {
    [ChunkStart(MeshChunkId), IntVal(|m.vertices|)] + PointVals(m.vertices)
    + [BoolVal(m.hasVertexColors), IntVal(|m.vertexColors|)] + ColorVals(m.vertexColors)
    + [IntVal(|m.faces|)]
  }

  function ReadInt(s: seq<StreamValue>, pos: nat): Option<int>
  {
    if pos < |s| && s[pos].IntVal? then Some(s[pos].i) else None
  }

  function ReadBool(s: seq<StreamValue>, pos: nat): Option<bool>
  {
    if pos < |s| && s[pos].BoolVal? then Some(s[pos].b) else None
  }

  /** n points stored from position pos on. */
  function ReadPoints(s: seq<StreamValue>, pos: nat, n: nat): Option<seq<Point3>>
  {
    if pos + n <= |s| then
      var w := s[pos..pos + n];
      if forall i :: 0 <= i < n ==> w[i].PointVal? then Some(seq(n, i requires 0 <= i < n => w[i].p)) else None
    else None
  }

  function ReadColors(s: seq<StreamValue>, pos: nat, n: nat): Option<seq<ColorA>>
  {
    if pos + n <= |s| then
      var w := s[pos..pos + n];
      if forall i :: 0 <= i < n ==> w[i].ColorVal? then Some(seq(n, i requires 0 <= i < n => w[i].c)) else None
    else None
  }

  /** One face: flags, three vertex indices, smoothing groups, material index. */
  function ReadFace(s: seq<StreamValue>, pos: nat): Option<TriMeshFace>
  {
    if pos + 6 <= |s|
       && s[pos].IntVal? && s[pos + 1].IntVal? && s[pos + 2].IntVal?
       && s[pos + 3].IntVal? && s[pos + 4].IntVal? && s[pos + 5].IntVal?
    then Some(TriMeshFace(s[pos].i, s[pos + 1].i, s[pos + 2].i, s[pos + 3].i, s[pos + 4].i, s[pos + 5].i))
    else None
  }

  /** The first n faces stored from position pos on, read one after the other. */
  function DecodeFaces(s: seq<StreamValue>, pos: nat, n: nat): (r: Option<seq<TriMeshFace>>)
    ensures r.Some? ==> |r.value| == n
    decreases n
  {
    if n == 0 then Some([])
    else match DecodeFaces(s, pos, n - 1)
      case None => None
      case Some(fs) =>
        match ReadFace(s, pos + 6 * (n - 1))
        case None => None
        case Some(f) => Some(fs + [f])
  }

  /** What precedes the faces in a mesh chunk, and where the faces start. */
  datatype Header = Header(vertices: seq<Point3>, hasVertexColors: bool, vertexColors: seq<ColorA>,
                           faceCount: nat, facesAt: nat)

  /**
   * The first part of TriMesh::loadFromStream: the chunk id, the vertex
   * vector, the colour flag, the colour vector and the face count.
   */
  function DecodeHeader(s: seq<StreamValue>): Result<Header, StreamError>
  {
    if !(0 < |s| && s[0] == ChunkStart(MeshChunkId)) then Err(UnexpectedChunk)
    else
      var nv := ReadInt(s, 1);
      if nv.None? || nv.value < 0 then Err(ReadError)
      else
        var vs := ReadPoints(s, 2, nv.value);
        if vs.None? then Err(ReadError)
        else
          var p1 := 2 + nv.value;
          var has := ReadBool(s, p1);
          var nc := ReadInt(s, p1 + 1);
          if has.None? || nc.None? || nc.value < 0 then Err(ReadError)
          else
            var cs := ReadColors(s, p1 + 2, nc.value);
            if cs.None? then Err(ReadError)
            else
              var p2 := p1 + 2 + nc.value;
              var nf := ReadInt(s, p2);
              if nf.None? || nf.value < 0 then Err(ReadError)
              else Ok(Header(vs.value, has.value, cs.value, nf.value, p2 + 1))
  }

  /**
   * TriMesh::loadFromStream as a function of the stream: the mesh read and
   * the position just after its chunk, or the error that aborts the load.
   */
  function Decode(s: seq<StreamValue>): Result<(MeshData, nat), StreamError>
  {
    match DecodeHeader(s)
    case Err(e) => Err(e)
    case Ok(h) =>
      var fs := DecodeFaces(s, h.facesAt, h.faceCount);
      var p3 := h.facesAt + 6 * h.faceCount;
      if fs.None? then Err(ReadError)
      else if !(p3 < |s| && s[p3] == ChunkEnd) then Err(ReadError)
      else Ok((MeshData(h.vertices, h.hasVertexColors, h.vertexColors, fs.value), p3 + 1))
  }

  lemma ReadEncodedPoints(s: seq<StreamValue>, pos: nat, ps: seq<Point3>)
    requires pos + |ps| <= |s| && s[pos..pos + |ps|] == PointVals(ps)
    ensures ReadPoints(s, pos, |ps|) == Some(ps)
  {
    var w := s[pos..pos + |ps|];
    assert forall i :: 0 <= i < |ps| ==> w[i] == PointVal(ps[i]);
    assert seq(|ps|, i requires 0 <= i < |ps| => w[i].p) == ps;
  }

  lemma ReadEncodedColors(s: seq<StreamValue>, pos: nat, cs: seq<ColorA>)
    requires pos + |cs| <= |s| && s[pos..pos + |cs|] == ColorVals(cs)
    ensures ReadColors(s, pos, |cs|) == Some(cs)
  {
    var w := s[pos..pos + |cs|];
    assert forall i :: 0 <= i < |cs| ==> w[i] == ColorVal(cs[i]);
    assert seq(|cs|, i requires 0 <= i < |cs| => w[i].c) == cs;
  }

  /** Six integers written for a face read back as that face. */
  lemma ReadEncodedFace(s: seq<StreamValue>, pos: nat, f: TriMeshFace)
    requires pos + 6 <= |s| && s[pos..pos + 6] == EncodeFace(f)
    ensures ReadFace(s, pos) == Some(f)
  {
    var w := s[pos..pos + 6];
    assert s[pos] == w[0] && s[pos + 1] == w[1] && s[pos + 2] == w[2];
    assert s[pos + 3] == w[3] && s[pos + 4] == w[4] && s[pos + 5] == w[5];
  }

  /** Encoded faces decode to the same faces. */
  lemma {:induction false} DecodeEncodedFaces(s: seq<StreamValue>, pos: nat, fs: seq<TriMeshFace>)
    requires pos + 6 * |fs| <= |s| && s[pos..pos + 6 * |fs|] == EncodeFaces(fs)
    ensures DecodeFaces(s, pos, |fs|) == Some(fs)
    decreases |fs|
  {
    var n := |fs|;
    if n > 0 {
      var front, last := fs[..n - 1], fs[n - 1];
      var whole := s[pos..pos + 6 * n];
      assert whole == EncodeFaces(front) + EncodeFace(last);
      assert s[pos..pos + 6 * (n - 1)] == whole[..6 * (n - 1)];
      DecodeEncodedFaces(s, pos, front);
      var q := pos + 6 * (n - 1);
      assert s[q..q + 6] == whole[6 * (n - 1)..];
      ReadEncodedFace(s, q, last);
      assert front + [last] == fs;
    }
  }

  /** A face that cannot be read makes every longer face list unreadable. */
  lemma {:induction false} DecodeFacesFailurePersists(s: seq<StreamValue>, pos: nat, k: nat, n: nat)
    requires k <= n && DecodeFaces(s, pos, k).None?
    ensures DecodeFaces(s, pos, n).None?
    decreases n - k
  {
    if k < n {
      DecodeFacesFailurePersists(s, pos, k, n - 1);
    }
  }

  /** A stream that starts with a mesh's header reads back that header. */
  lemma DecodeEncodedHeader(m: MeshData, s: seq<StreamValue>)
    requires |EncodeHeader(m)| <= |s| && s[..|EncodeHeader(m)|] == EncodeHeader(m)
    ensures DecodeHeader(s)
         == Ok(Header(m.vertices, m.hasVertexColors, m.vertexColors, |m.faces|, |EncodeHeader(m)|))
  {
    var head := EncodeHeader(m);
    var nv, nc := |m.vertices|, |m.vertexColors|;
    var p1 := 2 + nv;
    var p2 := p1 + 2 + nc;
    var front := [ChunkStart(MeshChunkId), IntVal(nv)] + PointVals(m.vertices)
                 + [BoolVal(m.hasVertexColors), IntVal(nc)];
    assert head == front + ColorVals(m.vertexColors) + [IntVal(|m.faces|)];
    PrefixAgrees(s, head, 0, 2);
    PrefixAgrees(s, head, 2, p1);
    assert head[2..p1] == PointVals(m.vertices);
    ReadEncodedPoints(s, 2, m.vertices);
    PrefixAgrees(s, head, p1, p1 + 2);
    PrefixAgrees(s, head, p1 + 2, p2);
    assert head[p1 + 2..p2] == ColorVals(m.vertexColors);
    ReadEncodedColors(s, p1 + 2, m.vertexColors);
    PrefixAgrees(s, head, p2, p2 + 1);
  }

  /** A stream that starts with `head` agrees with it on every stretch of head. */
  lemma PrefixAgrees<T>(s: seq<T>, head: seq<T>, i: nat, j: nat)
    requires |head| <= |s| && s[..|head|] == head && i <= j <= |head|
    ensures s[i..j] == head[i..j]
    ensures forall k :: i <= k < j ==> s[k] == head[k]
  {
    forall k | i <= k < j
      ensures s[k] == head[k]
    {
      assert s[k] == s[..|head|][k];
    }
    assert forall t :: 0 <= t < j - i ==> s[i..j][t] == head[i..j][t];
  }

  /**
   * Round trip: loading what saveToStream wrote reproduces the vertices,
   * the colour flag and colours, and every face field, whatever follows
   * the chunk in the stream.
   */
  lemma RoundTrip(m: MeshData, rest: seq<StreamValue>)
    ensures Decode(Encode(m) + rest) == Ok((m, |Encode(m)|))
  {
    var head := EncodeHeader(m);
    var s := Encode(m) + rest;
    var q, n := |head|, |m.faces|;
    assert s == head + EncodeFaces(m.faces) + [ChunkEnd] + rest;
    assert s[..q] == head;
    assert s[q..q + 6 * n] == EncodeFaces(m.faces);
    assert s[q + 6 * n] == ChunkEnd;
    DecodeLayout(m, s);
  }

  /** A stream that holds a mesh's header, its faces and the end marker decodes to that mesh. */
  lemma DecodeLayout(m: MeshData, s: seq<StreamValue>)
    requires |EncodeHeader(m)| + 6 * |m.faces| < |s|
    requires s[..|EncodeHeader(m)|] == EncodeHeader(m)
    requires s[|EncodeHeader(m)|..|EncodeHeader(m)| + 6 * |m.faces|] == EncodeFaces(m.faces)
    requires s[|EncodeHeader(m)| + 6 * |m.faces|] == ChunkEnd
    ensures Decode(s) == Ok((m, |EncodeHeader(m)| + 6 * |m.faces| + 1))
  {
    var q := |EncodeHeader(m)|;
    DecodeEncodedHeader(m, s);
    DecodeEncodedFaces(s, q, m.faces);
    DecodeOfParts(s, Header(m.vertices, m.hasVertexColors, m.vertexColors, |m.faces|, q), m.faces);
  }

  /** A stream whose header, faces and end marker read back decodes to the mesh they make. */
  lemma DecodeOfParts(s: seq<StreamValue>, h: Header, fs: seq<TriMeshFace>)
    requires DecodeHeader(s) == Ok(h)
    requires DecodeFaces(s, h.facesAt, h.faceCount) == Some(fs)
    requires h.facesAt + 6 * h.faceCount < |s| && s[h.facesAt + 6 * h.faceCount] == ChunkEnd
    ensures Decode(s) == Ok((MeshData(h.vertices, h.hasVertexColors, h.vertexColors, fs),
                             h.facesAt + 6 * h.faceCount + 1))
  {
  }

  /** The ways Decode fails: a bad header, an unreadable face, a missing end marker. */
  lemma DecodeFailures(s: seq<StreamValue>)
    ensures DecodeHeader(s).Err? ==> Decode(s) == Err(DecodeHeader(s).error)
    ensures DecodeHeader(s).Ok? ==>
      var h := DecodeHeader(s).value;
      && (DecodeFaces(s, h.facesAt, h.faceCount).None? ==> Decode(s) == Err(ReadError))
      && (DecodeFaces(s, h.facesAt, h.faceCount).Some?
          && !(h.facesAt + 6 * h.faceCount < |s| && s[h.facesAt + 6 * h.faceCount] == ChunkEnd)
          ==> Decode(s) == Err(ReadError))
  {
  }

  /**
   * A saved mesh whose colours were consistent loads with consistent
   * colours: the condition loadFromStream asserts after reading them.
   */
  lemma LoadedColorsConsistent(m: MeshData, rest: seq<StreamValue>)
    requires ColorsConsistent(m)
    ensures Decode(Encode(m) + rest).Ok? && ColorsConsistent(Decode(Encode(m) + rest).value.0)
  {
    RoundTrip(m, rest);
  }

  /** The projection of a decoding outcome on the stream position after the chunk. */
  function EndPosition(d: Result<(MeshData, nat), StreamError>): Result<nat, StreamError>
  {
    match d
    case Ok(v) => Ok(v.1)
    case Err(e) => Err(e)
  }

  /**
   * The first n entries of `s`, padded with `fill` up to length n
   * (QVector::resize; the contracts of the resizing methods leave the
   * padding value open).
   */
  function Resized<T>(s: seq<T>, n: nat, fill: T): (r: seq<T>)
    ensures |r| == n
    ensures forall i :: 0 <= i < n && i < |s| ==> r[i] == s[i]
  {
    if n <= |s| then s[..n] else s + seq(n - |s|, _ => fill)
  }

  /**
   * The face loop of TriMesh::loadFromStream: the face list is resized to
   * n blank faces and each is overwritten with the six integers read for
   * it; a failed read ends the loop.
   */
  method ReadFaces(s: seq<StreamValue>, pos: nat, n: nat) returns (r: Option<seq<TriMeshFace>>)
    ensures r == DecodeFaces(s, pos, n)
  {
    var fs := seq(n, _ => BlankFace);
    for k := 0 to n
      invariant |fs| == n
      invariant DecodeFaces(s, pos, k) == Some(fs[..k])
    {
      var f := ReadFace(s, pos + 6 * k);
      if f.None? {
        DecodeFacesFailurePersists(s, pos, k + 1, n);
        return None;
      }
      fs := fs[k := f.value];
      assert fs[..k + 1] == fs[..k] + [f.value];
    }
    assert fs[..n] == fs;
    return Some(fs);
  }

  class TriMesh {
    var boundingBox: Box3
    var vertices: seq<Point3>
    var hasVertexColors: bool
    var vertexColors: seq<ColorA>
    var faces: seq<TriMeshFace>

    function Data(): MeshData
      reads this
    {
      MeshData(vertices, hasVertexColors, vertexColors, faces)
    }

    /** The colour invariant the setters keep. */
    ghost predicate Valid()
      reads this
    {
      ColorsConsistent(Data())
    }

    /** An empty mesh without vertex colours. */
    constructor ()
      ensures Valid()
      ensures Data() == MeshData([], false, [], []) && boundingBox == EmptyBox
    {
      boundingBox := EmptyBox;
      vertices := [];
      hasVertexColors := false;
      vertexColors := [];
      faces := [];
    }

    /** clear: no vertices, faces or colours, colours disabled, box emptied. */
    method Clear()
      modifies this
      ensures Valid()
      ensures Data() == MeshData([], false, [], []) && boundingBox == EmptyBox
    {
      vertices := [];
      faces := [];
      vertexColors := [];
      boundingBox := EmptyBox;
      hasVertexColors := false;
    }

    /**
     * boundingBox: the cached box, computed from the vertices only when
     * the cache is empty.
     */
    method BoundingBox() returns (b: Box3)
      modifies this`boundingBox
      ensures old(boundingBox) != EmptyBox ==> b == old(boundingBox) && boundingBox == old(boundingBox)
      ensures old(boundingBox) == EmptyBox ==> b == AddPoints(EmptyBox, vertices) && boundingBox == b
      ensures old(boundingBox) == EmptyBox ==> forall i :: 0 <= i < |vertices| ==> InBox(b, vertices[i])
    {
      if boundingBox == EmptyBox {
        boundingBox := AddPoints(boundingBox, vertices);
        AddPointsEncloses(EmptyBox, vertices);
      }
      b := boundingBox;
    }

    /** vertexCount. */
    function VertexCount(): int
      reads this
    {
      |vertices|
    }

    /**
     * setVertexCount: n vertices, the first ones kept and the new ones
     * unassigned; colours follow the vertex count only while enabled; the
     * cached box is invalidated.
     */
    method SetVertexCount(n: int)
      requires n >= 0
      modifies this
      ensures |vertices| == n
      ensures forall i :: 0 <= i < n && i < old(|vertices|) ==> vertices[i] == old(vertices[i])
      ensures hasVertexColors == old(hasVertexColors) && faces == old(faces)
      ensures old(hasVertexColors) ==> |vertexColors| == n
      ensures old(hasVertexColors) ==>
                forall i :: 0 <= i < n && i < old(|vertexColors|) ==> vertexColors[i] == old(vertexColors[i])
      ensures !old(hasVertexColors) ==> vertexColors == old(vertexColors)
      ensures boundingBox == EmptyBox
      ensures old(Valid()) ==> Valid()
    {
      vertices := Resized(vertices, n, Point3(0, 0, 0));
      if hasVertexColors {
        vertexColors := Resized(vertexColors, n, ColorA(0, 0, 0, 0));
      }
      InvalidateVertices();
    }

    /** vertex(index), for an index the source asserts to be in range. */
    function Vertex(index: int): (p: Point3)
      reads this
      requires 0 <= index < |vertices|
      ensures p in vertices
    {
      vertices[index]
    }

    /** setVertex: only vertex `index` changes. */
    method SetVertex(index: int, p: Point3)
      requires 0 <= index < |vertices|
      modifies this`vertices
      ensures vertices == old(vertices)[index := p]
    {
      vertices := vertices[index := p];
    }

    /**
     * setHasVertexColors: sets the flag and resizes the colours to the
     * vertex count when enabling, to nothing when disabling.
     */
    method SetHasVertexColors(enableColors: bool)
      modifies this`hasVertexColors, this`vertexColors
      ensures hasVertexColors == enableColors
      ensures |vertexColors| == if enableColors then |vertices| else 0
      ensures forall i :: 0 <= i < |vertexColors| && i < old(|vertexColors|) ==> vertexColors[i] == old(vertexColors[i])
      ensures Valid()
    {
      hasVertexColors := enableColors;
      vertexColors := Resized(vertexColors, if enableColors then |vertices| else 0, ColorA(0, 0, 0, 0));
    }

    /** vertexColor(index), under the source's assertions. */
    function VertexColor(index: int): (c: ColorA)
      reads this
      requires hasVertexColors && |vertexColors| == |vertices|
      requires 0 <= index < |vertices|
      ensures c in vertexColors
    {
      vertexColors[index]
    }

    /** setVertexColor: only colour `index` changes. */
    method SetVertexColor(index: int, c: ColorA)
      requires hasVertexColors && |vertexColors| == |vertices|
      requires 0 <= index < |vertices|
      modifies this`vertexColors
      ensures vertexColors == old(vertexColors)[index := c]
      ensures Valid()
    {
      vertexColors := vertexColors[index := c];
    }

    /** invalidateVertices: empties the cached box so that it is recomputed. */
    method InvalidateVertices()
      modifies this`boundingBox
      ensures boundingBox == EmptyBox
    {
      boundingBox := EmptyBox;
    }

    /** faceCount. */
    function FaceCount(): int
      reads this
    {
      |faces|
    }

    /** setFaceCount: n faces, the first ones kept, the new ones unassigned. */
    method SetFaceCount(n: int)
      requires n >= 0
      modifies this`faces
      ensures |faces| == n
      ensures forall i :: 0 <= i < n && i < old(|faces|) ==> faces[i] == old(faces[i])
    {
      faces := Resized(faces, n, BlankFace);
    }

    /** face(index), for an index the source asserts to be in range. */
    function Face(index: int): (f: TriMeshFace)
      reads this
      requires 0 <= index < |faces|
      ensures f in faces
    {
      faces[index]
    }

    /** addFace: one more face, the others kept; the result designates the new last face. */
    method AddFace() returns (index: int)
      modifies this`faces
      ensures |faces| == old(|faces|) + 1
      ensures faces[..old(|faces|)] == old(faces)
      ensures index == |faces| - 1
    {
      SetFaceCount(|faces| + 1);
      index := |faces| - 1;
    }

    /** saveToStream: the values written, faces field by field in order. */
    method SaveToStream() returns (out: seq<StreamValue>)
      ensures out == Encode(Data())
    {
      out := [ChunkStart(MeshChunkId)];
      out := out + [IntVal(|vertices|)] + PointVals(vertices);
      out := out + [BoolVal(hasVertexColors)];
      out := out + [IntVal(|vertexColors|)] + ColorVals(vertexColors);
      out := out + [IntVal(|faces|)];
      for k := 0 to |faces|
        invariant out == EncodeHeader(Data()) + EncodeFaces(faces[..k])
      {
        var f := faces[k];
        out := out + [IntVal(f.flags)];
        out := out + [IntVal(f.v0)];
        out := out + [IntVal(f.v1)];
        out := out + [IntVal(f.v2)];
        out := out + [IntVal(f.smoothingGroups)];
        out := out + [IntVal(f.materialIndex)];
        assert faces[..k + 1][..k] == faces[..k];
      }
      assert faces[..|faces|] == faces;
      out := out + [ChunkEnd];
    }

    /**
     * loadFromStream: checks the chunk id, clears the mesh, reads vertices
     * and colours, then fills the faces one by one. A read error aborts the
     * load part-way (an exception in the source), leaving a partly loaded mesh.
     */
    method LoadFromStream(s: seq<StreamValue>) returns (r: Result<nat, StreamError>)
      modifies this
      ensures r == EndPosition(Decode(s))
      ensures r.Ok? ==> Data() == Decode(s).value.0 && boundingBox == EmptyBox
    {
      DecodeFailures(s);
      var header := DecodeHeader(s);
      if header.Err? {
        return Err(header.error);
      }
      var h := header.value;
      Clear();
      vertices := h.vertices;
      hasVertexColors := h.hasVertexColors;
      vertexColors := h.vertexColors;
      var fs := ReadFaces(s, h.facesAt, h.faceCount);
      if fs.None? {
        return Err(ReadError);
      }
      faces := fs.value;
      var p3 := h.facesAt + 6 * h.faceCount;
      if !(p3 < |s| && s[p3] == ChunkEnd) {
        return Err(ReadError);
      }
      DecodeOfParts(s, h, faces);
      r := Ok(p3 + 1);
    }
  }
}
