/** LoadOBJ of Renderer/LoadOBJ.h: a line-oriented OBJ parser followed by the
    conversion of its vertex, normal and face lists into renderable geometry. The file
    is taken as already split into lines and each line into its first word and the
    tokens after it, so character-level lexing and number parsing are not part of
    this model. */
module ObjLoader {
  import opened LinAlg

  datatype Vec2 = Vec2(u: real, v: real)

  /** A token after the first word of a line: a whole number, a number with a fraction
      or exponent, or a single character such as the '/' between the parts of a face
      corner. */
  datatype Token = Whole(i: int) | Decimal(r: real) | Char(c: char)

  /** One line of the file: its first word (`line >> type`) and the rest. */
  datatype Line = Line(tag: string, rest: seq<Token>)

  /** The state of the stringstream over the rest of a line: the read position and
      the fail bit. Once a read has failed no later read consumes anything. */
  datatype Cursor = Cursor(pos: nat, fail: bool)

  /** Index of LoadOBJ.h: the vertex, normal and uv index of the three corners of a
      face, one-based as in the file. */
  datatype Index = Index(v: seq<nat>, n: seq<nat>, uv: seq<nat>)

  /** The vertex of the output geometry: position, and the normal, which is zero until a
      face corner assigns one. */
  datatype Vertex = Vertex(position: Vec3, normal: Vec3)

  datatype Geometry = Geometry(vertices: seq<Vertex>, indices: seq<nat>)

  /** The four lists the parse loop pushes into. */
  datatype Parsed = Parsed(vertices: seq<Vec3>, normals: seq<Vec3>, uvs: seq<Vec2>, indices: seq<Index>)

  const Empty: Parsed := Parsed([], [], [], [])

  // ---------------------------------------------------------------------------
  // Reads from a line
  // ---------------------------------------------------------------------------

  const Start: Cursor := Cursor(0, false)

  /** `line >> f` for a float: the next number, or 0 and the fail bit. */
  function ReadReal(t: seq<Token>, s: Cursor): (Cursor, real)
  {
    if s.fail || s.pos >= |t| then (s.(fail := true), 0.0)
    else match t[s.pos]
      case Whole(i) => (s.(pos := s.pos + 1), i as real)
      case Decimal(r) => (s.(pos := s.pos + 1), r)
      case Char(_) => (s.(fail := true), 0.0)
  }

  /** `line >> i` for a uint32_t: the next whole number when it is in range, or 0 and
      the fail bit. */
  function ReadIndex(t: seq<Token>, s: Cursor): (Cursor, nat)
  {
    if !s.fail && s.pos < |t| && t[s.pos].Whole? && 0 <= t[s.pos].i < 0x1_0000_0000 then
      (s.(pos := s.pos + 1), t[s.pos].i)
    else
      (s.(fail := true), 0)
  }

  /** `line >> c` for a char: the next single-character token, or the fail bit. The
      character itself is never used. */
  function SkipChar(t: seq<Token>, s: Cursor): Cursor
  {
    if !s.fail && s.pos < |t| && t[s.pos].Char? then s.(pos := s.pos + 1) else s.(fail := true)
  }

  /** `line >> x >> y >> z`. */
  function ReadVec3(t: seq<Token>): Vec3
  {
    var (s1, x) := ReadReal(t, Start);
    var (s2, y) := ReadReal(t, s1);
    var (_, z) := ReadReal(t, s2);
    Vec3(x, y, z)
  }

  /** `line >> u >> v`. */
  function ReadVec2(t: seq<Token>): Vec2
  {
    var (s1, u) := ReadReal(t, Start);
    var (_, v) := ReadReal(t, s1);
    Vec2(u, v)
  }

  /** `line >> v >> c >> uv >> c >> n`: one face corner. */
  datatype Corner = Corner(after: Cursor, v: nat, uv: nat, n: nat)

  function ReadCorner(t: seq<Token>, s: Cursor): Corner
  {
    var (s1, v) := ReadIndex(t, s);
    var (s2, uv) := ReadIndex(t, SkipChar(t, s1));
    var (s3, n) := ReadIndex(t, SkipChar(t, s2));
    Corner(s3, v, uv, n)
  }

  /** The cursor after the first k corners of a face line, and their v, uv and n
      indices. */
  datatype Corners = Corners(after: Cursor, v: seq<nat>, uv: seq<nat>, n: seq<nat>)

  /** The first k corners of a face line. */
  function ReadCorners(t: seq<Token>, k: nat): (r: Corners)
    ensures |r.v| == k && |r.uv| == k && |r.n| == k
  {
    if k == 0 then Corners(Start, [], [], [])
    else
      var prev := ReadCorners(t, k - 1);
      var c := ReadCorner(t, prev.after);
      Corners(c.after, prev.v + [c.v], prev.uv + [c.uv], prev.n + [c.n])
  }

  /** The Index of a face line: always three corners. */
  function FaceOf(tokens: seq<Token>): (i: Index)
    ensures |i.v| == 3 && |i.n| == 3 && |i.uv| == 3
  {
    var c := ReadCorners(tokens, 3);
    Index(c.v, c.n, c.uv)
  }

  // ---------------------------------------------------------------------------
  // The parse loop
  // ---------------------------------------------------------------------------

  /** One iteration of the parse loop, classified by the line's first word. */
  function ParseLine(p: Parsed, l: Line): Parsed
  {
    if l.tag == "v" then p.(vertices := p.vertices + [ReadVec3(l.rest)])
    else if l.tag == "vt" then p.(uvs := p.uvs + [ReadVec2(l.rest)])
    else if l.tag == "vn" then p.(normals := p.normals + [ReadVec3(l.rest)])
    else if l.tag == "f" then p.(indices := p.indices + [FaceOf(l.rest)])
    else p
  }

  /** The four lists after the parse loop has seen the given lines. */
  function ParseAll(lines: seq<Line>): Parsed
  {
    if |lines| == 0 then Empty else ParseLine(ParseAll(lines[..|lines| - 1]), lines[|lines| - 1])
  }

  /** The lines with the given first word, in file order. */
  function Tagged(lines: seq<Line>, tag: string): (r: seq<Line>)
    ensures |r| <= |lines|
    ensures forall k :: 0 <= k < |r| ==> r[k].tag == tag
  {
    if |lines| == 0 then []
    else Tagged(lines[..|lines| - 1], tag) + (if lines[|lines| - 1].tag == tag then [lines[|lines| - 1]] else [])
  }

  /** The face loop of a face line: three corners, each read as vertex index, a
      separator, uv index, a separator and normal index. */
  method ParseFace(tokens: seq<Token>) returns (i: Index)
    ensures i == FaceOf(tokens)
  {
    var line := Start;
    var vs, uvs, ns := [], [], [];
    for j := 0 to 3
      invariant Corners(line, vs, uvs, ns) == ReadCorners(tokens, j)
    {
      var (afterV, v) := ReadIndex(tokens, line);
      var (afterUv, uv) := ReadIndex(tokens, SkipChar(tokens, afterV));
      var (afterN, n) := ReadIndex(tokens, SkipChar(tokens, afterUv));
      line := afterN;
      vs, uvs, ns := vs + [v], uvs + [uv], ns + [n];
    }
    i := Index(vs, ns, uvs);
  }

  /** The parse loop over the lines of the file. */
  method ParseLines(lines: seq<Line>) returns (p: Parsed)
    ensures p == ParseAll(lines)
  {
    var vertices, normals, uvs, indices := [], [], [], [];
    for l := 0 to |lines|
      invariant Parsed(vertices, normals, uvs, indices) == ParseAll(lines[..l])
    {
      assert lines[..l + 1][..l] == lines[..l];
      var line := lines[l];
      if line.tag == "v" {
        vertices := vertices + [ReadVec3(line.rest)];
      } else if line.tag == "vt" {
        uvs := uvs + [ReadVec2(line.rest)];
      } else if line.tag == "vn" {
        normals := normals + [ReadVec3(line.rest)];
      } else if line.tag == "f" {
        var i := ParseFace(line.rest);
        indices := indices + [i];
      }
    }
    assert lines[..|lines|] == lines;
    p := Parsed(vertices, normals, uvs, indices);
  }

  // ---------------------------------------------------------------------------
  // Properties of the parse
  // ---------------------------------------------------------------------------

  /** The vertex list holds one entry per "v" line, read from that line, in file order. */
  lemma {:induction false} VerticesInFileOrder(lines: seq<Line>)
    ensures |ParseAll(lines).vertices| == |Tagged(lines, "v")|
    ensures forall k :: 0 <= k < |ParseAll(lines).vertices| ==>
              ParseAll(lines).vertices[k] == ReadVec3(Tagged(lines, "v")[k].rest)
  {
    if |lines| > 0 {
      VerticesInFileOrder(lines[..|lines| - 1]);
    }
  }

  /** The uv list holds one entry per "vt" line, read from that line, in file order. */
  lemma {:induction false} UvsInFileOrder(lines: seq<Line>)
    ensures |ParseAll(lines).uvs| == |Tagged(lines, "vt")|
    ensures forall k :: 0 <= k < |ParseAll(lines).uvs| ==>
              ParseAll(lines).uvs[k] == ReadVec2(Tagged(lines, "vt")[k].rest)
  {
    if |lines| > 0 {
      UvsInFileOrder(lines[..|lines| - 1]);
    }
  }

  /** The normal list holds one entry per "vn" line, read from that line, in file order. */
  lemma {:induction false} NormalsInFileOrder(lines: seq<Line>)
    ensures |ParseAll(lines).normals| == |Tagged(lines, "vn")|
    ensures forall k :: 0 <= k < |ParseAll(lines).normals| ==>
              ParseAll(lines).normals[k] == ReadVec3(Tagged(lines, "vn")[k].rest)
  {
    if |lines| > 0 {
      NormalsInFileOrder(lines[..|lines| - 1]);
    }
  }

  /** The face list holds one entry per "f" line, read from that line, in file order. */
  lemma {:induction false} FacesInFileOrder(lines: seq<Line>)
    ensures |ParseAll(lines).indices| == |Tagged(lines, "f")|
    ensures forall k :: 0 <= k < |ParseAll(lines).indices| ==>
              ParseAll(lines).indices[k] == FaceOf(Tagged(lines, "f")[k].rest)
  {
    if |lines| > 0 {
      FacesInFileOrder(lines[..|lines| - 1]);
    }
  }

  /** A line whose first word is none of v, vt, vn and f changes nothing. */
  lemma IgnoredLine(lines: seq<Line>, l: Line)
    requires l.tag != "v" && l.tag != "vt" && l.tag != "vn" && l.tag != "f"
    ensures ParseAll(lines + [l]) == ParseAll(lines)
  {
    assert (lines + [l])[..|lines|] == lines;
  }

  /** A face corner in the usual v/uv/n layout at position p: a whole number, a
      separator, a whole number, a separator, a whole number. */
  predicate CornerAt(t: seq<Token>, p: nat, v: nat, uv: nat, n: nat)
  {
    && p + 5 <= |t|
    && t[p] == Whole(v) && t[p + 1].Char? && t[p + 2] == Whole(uv)
    && t[p + 3].Char? && t[p + 4] == Whole(n)
    && v < 0x1_0000_0000 && uv < 0x1_0000_0000 && n < 0x1_0000_0000
  }

  /** One corner in the usual layout is read exactly, and the cursor moves past it. */
  lemma ReadCornerExact(t: seq<Token>, s: Cursor, v: nat, uv: nat, n: nat)
    requires !s.fail && CornerAt(t, s.pos, v, uv, n)
    ensures ReadCorner(t, s) == Corner(Cursor(s.pos + 5, false), v, uv, n)
  {
  }

  /** Three corners in the v/uv/n layout, corner j at tokens 5j..5j+4. */
  predicate FaceTokens(tokens: seq<Token>, v: seq<nat>, uv: seq<nat>, n: seq<nat>)
  {
    && |tokens| == 15 && |v| == 3 && |uv| == 3 && |n| == 3
    && CornerAt(tokens, 0, v[0], uv[0], n[0])
    && CornerAt(tokens, 5, v[1], uv[1], n[1])
    && CornerAt(tokens, 10, v[2], uv[2], n[2])
  }

  /** The first k corners of a face in the usual layout are read exactly. */
  lemma {:induction false} ReadCornersExact(tokens: seq<Token>, v: seq<nat>, uv: seq<nat>, n: seq<nat>, k: nat)
    requires FaceTokens(tokens, v, uv, n) && k <= 3
    ensures ReadCorners(tokens, k) == Corners(Cursor(5 * k, false), v[..k], uv[..k], n[..k])
  {
    if k > 0 {
      var j := k - 1;
      ReadCornersExact(tokens, v, uv, n, j);
      assert CornerAt(tokens, 5 * j, v[j], uv[j], n[j]);
      ReadCornerExact(tokens, Cursor(5 * j, false), v[j], uv[j], n[j]);
      PrefixSnoc(v, j);
      PrefixSnoc(uv, j);
      PrefixSnoc(n, j);
    }
  }

  /** The prefix of length j + 1 is the prefix of length j followed by entry j. */
  lemma PrefixSnoc<T>(s: seq<T>, j: nat)
    requires j < |s|
    ensures s[..j + 1] == s[..j] + [s[j]]
  {
  }

  /** A face line of three corners in the v/uv/n layout yields exactly the numbers
      written in it. */
  lemma FaceOfExact(tokens: seq<Token>, v: seq<nat>, uv: seq<nat>, n: seq<nat>)
    requires FaceTokens(tokens, v, uv, n)
    ensures FaceOf(tokens) == Index(v, n, uv)
  {
    ReadCornersExact(tokens, v, uv, n, 3);
    assert v[..3] == v && uv[..3] == uv && n[..3] == n;
  }

  // ---------------------------------------------------------------------------
  // Output generation
  // ---------------------------------------------------------------------------

  /** The vertex and normal index of corner q = 3f + j (face f, corner j). */
  function CornerV(indices: seq<Index>, q: nat): nat
    requires q < 3 * |indices| && |indices[q / 3].v| == 3
  {
    indices[q / 3].v[q % 3]
  }

  function CornerN(indices: seq<Index>, q: nat): nat
    requires q < 3 * |indices| && |indices[q / 3].n| == 3
  {
    indices[q / 3].n[q % 3]
  }

  /** Every face has three corners, each with a normal index in 1..numNormals. */
  predicate NormalsIn(indices: seq<Index>, numNormals: nat)
  {
    forall f :: 0 <= f < |indices| ==>
      && |indices[f].v| == 3 && |indices[f].n| == 3
      && (forall j :: 0 <= j < 3 ==> 1 <= indices[f].n[j] <= numNormals)
  }

  /** Every face corner has a vertex index in 1..numVertices and a normal index in
      1..numNormals. The source indexes with them without checking (an index of 0
      wraps to 0xFFFFFFFF). */
  predicate FacesIn(indices: seq<Index>, numVertices: nat, numNormals: nat)
  {
    && NormalsIn(indices, numNormals)
    && forall q :: 0 <= q < 3 * |indices| ==> 1 <= CornerV(indices, q) <= numVertices
  }

  /** The normal of output vertex k after the first q corners have been processed: that
      of the last of them referencing k, or the zero default when none does. */
  function NormalAfter(normals: seq<Vec3>, indices: seq<Index>, q: nat, k: nat): Vec3
    requires q <= 3 * |indices| && NormalsIn(indices, |normals|)
  {
    if q == 0 then Origin
    else if CornerV(indices, q - 1) - 1 == k then normals[CornerN(indices, q - 1) - 1]
    else NormalAfter(normals, indices, q - 1, k)
  }

  /** Last writer wins: when corner p references vertex k and no later corner among the
      first q does, vertex k has the normal of corner p. */
  lemma {:induction false} LastWriterWins(normals: seq<Vec3>, indices: seq<Index>, q: nat, k: nat, p: nat)
    requires q <= 3 * |indices| && NormalsIn(indices, |normals|)
    requires p < q && CornerV(indices, p) - 1 == k
    requires forall p' :: p < p' < q ==> CornerV(indices, p') - 1 != k
    ensures NormalAfter(normals, indices, q, k) == normals[CornerN(indices, p) - 1]
  {
    if q - 1 != p {
      LastWriterWins(normals, indices, q - 1, k, p);
    }
  }

  /** A vertex that no corner among the first q references keeps the zero normal. */
  lemma {:induction false} UnreferencedDefault(normals: seq<Vec3>, indices: seq<Index>, q: nat, k: nat)
    requires q <= 3 * |indices| && NormalsIn(indices, |normals|)
    requires forall p :: 0 <= p < q ==> CornerV(indices, p) - 1 != k
    ensures NormalAfter(normals, indices, q, k) == Origin
  {
    if q > 0 {
      UnreferencedDefault(normals, indices, q - 1, k);
    }
  }

  /** The output loops: one vertex per parsed vertex with the zero normal, then for every
      corner of every face the zero-based vertex index is emitted and that vertex's
      normal is overwritten with the corner's normal. */
  method BuildGeometry(vertices: seq<Vec3>, normals: seq<Vec3>, indices: seq<Index>) returns (g: Geometry)
    requires FacesIn(indices, |vertices|, |normals|)
    ensures |g.vertices| == |vertices|
    ensures forall k :: 0 <= k < |vertices| ==>
              g.vertices[k] == Vertex(vertices[k], NormalAfter(normals, indices, 3 * |indices|, k))
    ensures |g.indices| == 3 * |indices|
    ensures forall q :: 0 <= q < 3 * |indices| ==> g.indices[q] == CornerV(indices, q) - 1
  {
    var outVertices := [];
    for k := 0 to |vertices|
      invariant |outVertices| == k
      invariant forall k' :: 0 <= k' < k ==> outVertices[k'] == Vertex(vertices[k'], Origin)
    {
      outVertices := outVertices + [Vertex(vertices[k], Origin)];
    }
    var outIndices := [];
    for f := 0 to |indices|
      invariant |outVertices| == |vertices|
      invariant forall k :: 0 <= k < |vertices| ==>
                  outVertices[k] == Vertex(vertices[k], NormalAfter(normals, indices, 3 * f, k))
      invariant |outIndices| == 3 * f
      invariant forall q :: 0 <= q < 3 * f ==> outIndices[q] == CornerV(indices, q) - 1
    {
      outVertices, outIndices := EmitFace(outVertices, outIndices, vertices, normals, indices, f);
    }
    g := Geometry(outVertices, outIndices);
  }

  /** The corner loop of one face. */
  method EmitFace(outVertices: seq<Vertex>, outIndices: seq<nat>, vertices: seq<Vec3>, normals: seq<Vec3>,
                  indices: seq<Index>, f: nat)
    returns (vs: seq<Vertex>, ids: seq<nat>)
    requires FacesIn(indices, |vertices|, |normals|) && f < |indices|
    requires |outVertices| == |vertices|
    requires forall k :: 0 <= k < |vertices| ==>
               outVertices[k] == Vertex(vertices[k], NormalAfter(normals, indices, 3 * f, k))
    requires |outIndices| == 3 * f
    requires forall q :: 0 <= q < 3 * f ==> outIndices[q] == CornerV(indices, q) - 1
    ensures |vs| == |vertices|
    ensures forall k :: 0 <= k < |vertices| ==>
              vs[k] == Vertex(vertices[k], NormalAfter(normals, indices, 3 * f + 3, k))
    ensures |ids| == 3 * f + 3
    ensures forall q :: 0 <= q < 3 * f + 3 ==> ids[q] == CornerV(indices, q) - 1
  {
    vs, ids := outVertices, outIndices;
    for j := 0 to 3
      invariant |vs| == |vertices|
      invariant forall k :: 0 <= k < |vertices| ==>
                  vs[k] == Vertex(vertices[k], NormalAfter(normals, indices, 3 * f + j, k))
      invariant |ids| == 3 * f + j
      invariant forall q :: 0 <= q < 3 * f + j ==> ids[q] == CornerV(indices, q) - 1
    {
      vs, ids := EmitCorner(vs, ids, vertices, normals, indices, f, j);
    }
  }

  /** Corner j of face f: its zero-based vertex index is emitted and that vertex's
      normal is overwritten with the corner's normal. */
  method EmitCorner(outVertices: seq<Vertex>, outIndices: seq<nat>, vertices: seq<Vec3>, normals: seq<Vec3>,
                    indices: seq<Index>, f: nat, j: nat)
    returns (vs: seq<Vertex>, ids: seq<nat>)
    requires FacesIn(indices, |vertices|, |normals|) && f < |indices| && j < 3
    requires |outVertices| == |vertices|
    requires forall k :: 0 <= k < |vertices| ==>
               outVertices[k] == Vertex(vertices[k], NormalAfter(normals, indices, 3 * f + j, k))
    requires |outIndices| == 3 * f + j
    requires forall q :: 0 <= q < 3 * f + j ==> outIndices[q] == CornerV(indices, q) - 1
    ensures |vs| == |vertices|
    ensures forall k :: 0 <= k < |vertices| ==>
              vs[k] == Vertex(vertices[k], NormalAfter(normals, indices, 3 * f + j + 1, k))
    ensures |ids| == 3 * f + j + 1
    ensures forall q :: 0 <= q < 3 * f + j + 1 ==> ids[q] == CornerV(indices, q) - 1
  {
    var index := indices[f];
    var q := 3 * f + j;
    assert q / 3 == f && q % 3 == j;
    assert CornerV(indices, q) == index.v[j] && CornerN(indices, q) == index.n[j];
    var vIndex: nat := index.v[j] - 1;
    var nIndex: nat := index.n[j] - 1;
    vs := outVertices[vIndex := outVertices[vIndex].(normal := normals[nIndex])];
    ids := outIndices + [vIndex];
  }

  /** LoadOBJ with the file given as its lines: the parse loop, then the output loops.
      The faces must reference existing vertices and normals. */
  method LoadOBJ(lines: seq<Line>) returns (g: Geometry)
    requires FacesIn(ParseAll(lines).indices, |ParseAll(lines).vertices|, |ParseAll(lines).normals|)
    ensures |g.vertices| == |Tagged(lines, "v")|
    ensures forall k :: 0 <= k < |g.vertices| ==> g.vertices[k].position == ReadVec3(Tagged(lines, "v")[k].rest)
    ensures |g.indices| == 3 * |Tagged(lines, "f")|
    ensures forall q :: 0 <= q < |g.indices| ==> g.indices[q] + 1 == FaceOf(Tagged(lines, "f")[q / 3].rest).v[q % 3]
    ensures forall k :: 0 <= k < |g.vertices| ==>
              g.vertices[k].normal
              == NormalAfter(ParseAll(lines).normals, ParseAll(lines).indices, 3 * |ParseAll(lines).indices|, k)
  {
    var p := ParseLines(lines);
    VerticesInFileOrder(lines);
    FacesInFileOrder(lines);
    g := BuildGeometry(p.vertices, p.normals, p.indices);
  }
}
