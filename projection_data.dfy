/** ProjectionData: the network bounds read from a SUMO net file, the
    tokenizer that turns a SUMO shape string ("x1,y1 x2,y2 ...") into
    numbers, and the rectangle BuildTerrain lays under the network. */
module Projection {

  datatype Option<T> = None | Some(value: T)

  // ---------------------------------------------------------------------------
  // Splitting on ',' and ' ' (String.Split with two separator characters)

  predicate IsDelimiter(c: char) {
    c == ',' || c == ' '
  }

  /** The separator characters of `s`, in order. */
  function Delimiters(s: string): (d: string)
    ensures |d| <= |s|
    ensures forall k :: 0 <= k < |d| ==> IsDelimiter(d[k])
  {
    if s == [] then []
    else if IsDelimiter(s[0]) then [s[0]] + Delimiters(s[1..])
    else Delimiters(s[1..])
  }

  /** A piece holds no separator character. */
  predicate NoDelimiter(p: string) {
    forall j :: 0 <= j < |p| ==> !IsDelimiter(p[j])
  }

  /** The pieces between separators, empty ones included: one more piece
      than there are separators, none of them holding a separator. */
  function Split(s: string): (pieces: seq<string>)
    ensures |pieces| == |Delimiters(s)| + 1
    ensures forall k :: 0 <= k < |pieces| ==> NoDelimiter(pieces[k])
  {
    if s == [] then [""]
    else if IsDelimiter(s[0]) then [""] + Split(s[1..])
    else
      var rest := Split(s[1..]);
      [[s[0]] + rest[0]] + rest[1..]
  }

  /** The pieces put back together with the given separators between them. */
  function Join(pieces: seq<string>, delims: string): string
    requires |pieces| == |delims| + 1
    decreases |delims|
  {
    if delims == [] then pieces[0]
    else pieces[0] + [delims[0]] + Join(pieces[1..], delims[1..])
  }

  /** Rejoining the pieces with the separators they were cut at gives the
      input back: splitting loses nothing but the choice of separator, which
      Delimiters keeps. */
  lemma {:induction false} JoinSplit(s: string)
    ensures Join(Split(s), Delimiters(s)) == s
    decreases |s|
  {
    if s != [] {
      var t := s[1..];
      JoinSplit(t);
      var rest := Split(t);
      var d := Delimiters(t);
      assert s == [s[0]] + t;
      if IsDelimiter(s[0]) {
        assert Split(s) == [""] + rest && Delimiters(s) == [s[0]] + d;
        JoinFront("", rest, s[0], d);
      } else {
        assert Split(s) == [[s[0]] + rest[0]] + rest[1..] && Delimiters(s) == d;
        JoinGrowFirst(s[0], rest, d);
      }
    }
  }

  /** Joining after a first piece and a separator. */
  lemma JoinFront(p: string, rest: seq<string>, c: char, d: string)
    requires |rest| == |d| + 1
    ensures Join([p] + rest, [c] + d) == p + [c] + Join(rest, d)
  {
    assert ([p] + rest)[1..] == rest && ([c] + d)[1..] == d;
  }

  /** Putting a character in front of the first piece puts it in front of
      the joined string. */
  lemma JoinGrowFirst(c: char, pieces: seq<string>, d: string)
    requires |pieces| == |d| + 1
    ensures Join([[c] + pieces[0]] + pieces[1..], d) == [c] + Join(pieces, d)
  {
    var q := [[c] + pieces[0]] + pieces[1..];
    assert q[0] == [c] + pieces[0] && q[1..] == pieces[1..];
    if d != [] {
      assert Join(q, d) == [c] + pieces[0] + [d[0]] + Join(pieces[1..], d[1..]);
    }
  }

  /** Splitting a string whose front part holds no separator: that part
      starts the first piece. */
  lemma {:induction false} SplitAfterPlainPrefix(p: string, x: string)
    requires NoDelimiter(p)
    ensures Split(p + x) == [p + Split(x)[0]] + Split(x)[1..]
    decreases |p|
  {
    var sx := Split(x);
    if p != [] {
      SplitAfterPlainPrefix(p[1..], x);
      assert (p + x)[0] == p[0] && (p + x)[1..] == p[1..] + x;
      var rest := Split(p[1..] + x);
      assert rest == [p[1..] + sx[0]] + sx[1..];
      assert rest[0] == p[1..] + sx[0] && rest[1..] == sx[1..];
      assert Split(p + x) == [[p[0]] + rest[0]] + rest[1..];
      assert [p[0]] + (p[1..] + sx[0]) == p + sx[0];
    } else {
      assert p + x == x;
      assert p + sx[0] == sx[0];
      assert sx == [sx[0]] + sx[1..];
    }
  }

  /** A piece free of separators and one separator come off the front of
      the split together. */
  lemma SplitAfterPiece(p: string, c: char, tail: string)
    requires NoDelimiter(p) && IsDelimiter(c)
    ensures Split(p + [c] + tail) == [p] + Split(tail)
  {
    var x := [c] + tail;
    assert p + [c] + tail == p + x;
    SplitAfterPlainPrefix(p, x);
    assert x[0] == c && x[1..] == tail;
    assert Split(x) == [""] + Split(tail);
    assert p + "" == p;
  }

  /** Splitting undoes joining: pieces free of separators, joined with
      separator characters, split back into the same pieces. */
  lemma {:induction false} SplitJoin(pieces: seq<string>, delims: string)
    requires |pieces| == |delims| + 1
    requires forall k :: 0 <= k < |pieces| ==> NoDelimiter(pieces[k])
    requires forall k :: 0 <= k < |delims| ==> IsDelimiter(delims[k])
    ensures Split(Join(pieces, delims)) == pieces
    decreases |delims|
  {
    if delims == [] {
      SplitAfterPlainPrefix(pieces[0], []);
      assert pieces[0] + [] == pieces[0];
      assert pieces == [pieces[0]];
    } else {
      SplitJoin(pieces[1..], delims[1..]);
      SplitAfterPiece(pieces[0], delims[0], Join(pieces[1..], delims[1..]));
      assert pieces == [pieces[0]] + pieces[1..];
    }
  }

  /** Joining with separators puts exactly those separators in the string. */
  lemma {:induction false} DelimitersJoin(pieces: seq<string>, delims: string)
    requires |pieces| == |delims| + 1
    requires forall k :: 0 <= k < |pieces| ==> NoDelimiter(pieces[k])
    requires forall k :: 0 <= k < |delims| ==> IsDelimiter(delims[k])
    ensures Delimiters(Join(pieces, delims)) == delims
    decreases |delims|
  {
    if delims == [] {
      DelimitersOfPlain(pieces[0], []);
      assert pieces[0] + [] == pieces[0];
    } else {
      var tail := Join(pieces[1..], delims[1..]);
      DelimitersJoin(pieces[1..], delims[1..]);
      var x := [delims[0]] + tail;
      assert pieces[0] + [delims[0]] + tail == pieces[0] + x;
      DelimitersOfPlain(pieces[0], x);
      assert x[0] == delims[0] && x[1..] == tail;
      assert delims == [delims[0]] + delims[1..];
    }
  }

  /** A front part with no separators adds none. */
  lemma {:induction false} DelimitersOfPlain(p: string, x: string)
    requires NoDelimiter(p)
    ensures Delimiters(p + x) == Delimiters(x)
    decreases |p|
  {
    if p != [] {
      DelimitersOfPlain(p[1..], x);
      assert (p + x)[0] == p[0] && (p + x)[1..] == p[1..] + x;
    } else {
      assert p + x == x;
    }
  }

  /** A shape string of two points, "a,b c,d" with one-character numbers,
      splits into its four coordinates in order. */
  lemma SplitExample(a: char, b: char, c: char, d: char)
    requires !IsDelimiter(a) && !IsDelimiter(b) && !IsDelimiter(c) && !IsDelimiter(d)
    ensures Split([a, ',', b, ' ', c, ',', d]) == [[a], [b], [c], [d]]
  {
    SplitAfterPlainPrefix([d], []);
    assert [d] + [] == [d];
    SplitAfterPiece([c], ',', [d]);
    assert [c] + [','] + [d] == [c, ',', d];
    SplitAfterPiece([b], ' ', [c, ',', d]);
    assert [b] + [' '] + [c, ',', d] == [b, ' ', c, ',', d];
    SplitAfterPiece([a], ',', [b, ' ', c, ',', d]);
    assert [a] + [','] + [b, ' ', c, ',', d] == [a, ',', b, ' ', c, ',', d];
  }

  /** Two separators in a row leave an empty piece between them. */
  lemma SplitDoubleSeparatorExample(a: char, b: char)
    requires !IsDelimiter(a) && !IsDelimiter(b)
    ensures Split([a, ',', ',', b]) == [[a], [], [b]]
  {
    SplitAfterPlainPrefix([b], []);
    assert [b] + [] == [b];
    SplitAfterPiece([], ',', [b]);
    assert [] + [','] + [b] == [',', b];
    SplitAfterPiece([a], ',', [',', b]);
    assert [a] + [','] + [',', b] == [a, ',', ',', b];
  }

  // ---------------------------------------------------------------------------
  // Empty pieces

  /** The first piece is empty exactly when the string is empty or starts
      with a separator. */
  lemma FirstPieceEmpty(s: string)
    ensures Split(s)[0] == "" <==> s == [] || IsDelimiter(s[0])
  {
  }

  /** Some separator is followed by another separator or by the end. */
  predicate SeparatorWithoutNumber(s: string) {
    exists i :: 0 <= i < |s| && IsDelimiter(s[i]) && (i == |s| - 1 || IsDelimiter(s[i + 1]))
  }

  /** A piece after the first is empty exactly when some separator is
      followed by a separator or ends the string. */
  lemma {:induction false} LaterPieceEmpty(s: string)
    ensures "" in Split(s)[1..] <==> SeparatorWithoutNumber(s)
    decreases |s|
  {
    if s != [] {
      var t := s[1..];
      LaterPieceEmpty(t);
      FirstPieceEmpty(t);
      if SeparatorWithoutNumber(t) {
        var i :| 0 <= i < |t| && IsDelimiter(t[i]) && (i == |t| - 1 || IsDelimiter(t[i + 1]));
        assert s[i + 1] == t[i] && (i + 1 == |s| - 1 || s[i + 2] == t[i + 1]);
      }
      if SeparatorWithoutNumber(s) {
        var i :| 0 <= i < |s| && IsDelimiter(s[i]) && (i == |s| - 1 || IsDelimiter(s[i + 1]));
        if 0 < i {
          assert t[i - 1] == s[i] && (i - 1 == |t| - 1 || t[i] == s[i + 1]);
        }
      }
      if IsDelimiter(s[0]) {
        assert Split(s)[1..] == Split(t);
        assert Split(t) == [Split(t)[0]] + Split(t)[1..];
        assert t != [] ==> s[1] == t[0];
      } else {
        assert Split(s)[1..] == Split(t)[1..];
      }
    }
  }

  /** The string has an empty piece exactly when it is empty, starts or ends
      with a separator, or has two separators in a row. */
  lemma EmptyPieceIff(s: string)
    ensures "" in Split(s) <==>
              || s == []
              || IsDelimiter(s[0])
              || IsDelimiter(s[|s| - 1])
              || exists i :: 0 <= i < |s| - 1 && IsDelimiter(s[i]) && IsDelimiter(s[i + 1])
  {
    FirstPieceEmpty(s);
    LaterPieceEmpty(s);
    SeparatorWithoutNumberCases(s);
    var ps := Split(s);
    assert "" in ps <==> ps[0] == "" || "" in ps[1..] by {
      assert ps == [ps[0]] + ps[1..];
    }
  }

  /** A separator without a number after it ends the string or is followed
      by another separator. */
  lemma SeparatorWithoutNumberCases(s: string)
    ensures SeparatorWithoutNumber(s) <==>
              s != [] && (IsDelimiter(s[|s| - 1]) || exists i :: 0 <= i < |s| - 1 && IsDelimiter(s[i]) && IsDelimiter(s[i + 1]))
  {
    if s != [] && IsDelimiter(s[|s| - 1]) {
      assert SeparatorWithoutNumber(s);
    }
    if exists i :: 0 <= i < |s| - 1 && IsDelimiter(s[i]) && IsDelimiter(s[i + 1]) {
      var i :| 0 <= i < |s| - 1 && IsDelimiter(s[i]) && IsDelimiter(s[i + 1]);
      assert SeparatorWithoutNumber(s);
    }
  }

  // ---------------------------------------------------------------------------
  // Parsing the pieces

  /** Each piece parsed in order; the first piece that does not parse makes
      the whole conversion fail. `parse` stands for float.Parse under the
      invariant culture, with None for a FormatException. */
  function ParsePieces(pieces: seq<string>, parse: string -> Option<real>): (r: Option<seq<real>>)
    ensures r.Some? <==> forall k :: 0 <= k < |pieces| ==> parse(pieces[k]).Some?
    ensures r.Some? ==> |r.value| == |pieces| && forall k :: 0 <= k < |pieces| ==> r.value[k] == parse(pieces[k]).value
    decreases |pieces|
  {
    if pieces == [] then Some([])
    else
      var n := |pieces| - 1;
      match ParsePieces(pieces[..n], parse)
      case None => None
      case Some(vs) =>
        match parse(pieces[n])
        case None => None
        case Some(v) => Some(vs + [v])
  }

  /** An empty piece makes the conversion fail: the parse of the empty
      string fails. */
  lemma EmptyPieceNeverParses(pieces: seq<string>, parse: string -> Option<real>)
    requires parse("") == None
    requires "" in pieces
    ensures ParsePieces(pieces, parse) == None
  {
    var k :| 0 <= k < |pieces| && pieces[k] == "";
    assert !parse(pieces[k]).Some?;
  }

  /** A shape string that is empty, or starts or ends with a separator,
      never converts. */
  lemma EmptyPieceFails(shape: string, parse: string -> Option<real>)
    requires parse("") == None
    requires shape == [] || IsDelimiter(shape[0]) || IsDelimiter(shape[|shape| - 1])
    ensures ParsePieces(Split(shape), parse) == None
  {
    EmptyPieceIff(shape);
    EmptyPieceNeverParses(Split(shape), parse);
  }

  /** Two separators in a row make an empty piece, so no conversion. */
  lemma DoubleSeparatorFails(shape: string, parse: string -> Option<real>, i: nat)
    requires parse("") == None
    requires i + 1 < |shape| && IsDelimiter(shape[i]) && IsDelimiter(shape[i + 1])
    ensures ParsePieces(Split(shape), parse) == None
  {
    EmptyPieceIff(shape);
    EmptyPieceNeverParses(Split(shape), parse);
  }

  // ---------------------------------------------------------------------------
  // The terrain plane

  datatype Vector3 = Vector3(x: real, y: real, z: real)
  datatype Vector2 = Vector2(x: real, y: real)
  datatype Mesh = Mesh(vertices: seq<Vector3>, triangles: seq<int>, uv: seq<Vector2>)

  /** The flat rectangle of width w (x) and depth h (z) on the ground. */
  function TerrainPlane(w: real, h: real): (m: Mesh)
    ensures |m.vertices| == 4 && |m.uv| == 4 && |m.triangles| == 6
    ensures forall k :: 0 <= k < |m.triangles| ==> 0 <= m.triangles[k] < |m.vertices|
    ensures forall k :: 0 <= k < 4 ==> m.vertices[k].y == 0.0
  {
    Mesh([Vector3(0.0, 0.0, h), Vector3(w, 0.0, h), Vector3(w, 0.0, 0.0), Vector3(0.0, 0.0, 0.0)],
         [0, 1, 3, 1, 2, 3],
         [Vector2(0.0, 0.0), Vector2(0.0, h), Vector2(w, h), Vector2(w, 0.0)])
  }

  /** Twice the signed area, in the ground plane, of the triangle a, b, c. */
  function Cross(a: Vector3, b: Vector3, c: Vector3): real {
    (b.x - a.x) * (c.z - a.z) - (b.z - a.z) * (c.x - a.x)
  }

  /** The plane spans the four corners of [0, w] x [0, h]; its two triangles
      have the same winding and each covers half of the rectangle; the
      texture coordinate of vertex k is the ground position of vertex k - 1
      (mod 4). */
  lemma TerrainPlaneShape(w: real, h: real)
    ensures var m := TerrainPlane(w, h);
            forall k :: 0 <= k < 4 ==>
              (m.vertices[k].x == 0.0 || m.vertices[k].x == w) && (m.vertices[k].z == 0.0 || m.vertices[k].z == h)
    ensures var m := TerrainPlane(w, h);
            forall cx, cz :: (cx == 0.0 || cx == w) && (cz == 0.0 || cz == h) ==>
              exists k :: 0 <= k < 4 && m.vertices[k] == Vector3(cx, 0.0, cz)
    ensures var m := TerrainPlane(w, h);
            var v := m.vertices;
            var t := m.triangles;
            Cross(v[t[0]], v[t[1]], v[t[2]]) == -(w * h) && Cross(v[t[3]], v[t[4]], v[t[5]]) == -(w * h)
    ensures var m := TerrainPlane(w, h);
            forall k :: 0 <= k < 4 ==>
              m.uv[k] == Vector2(m.vertices[(k + 3) % 4].x, m.vertices[(k + 3) % 4].z)
  {
    var m := TerrainPlane(w, h);
    forall cx, cz | (cx == 0.0 || cx == w) && (cz == 0.0 || cz == h)
      ensures exists k :: 0 <= k < 4 && m.vertices[k] == Vector3(cx, 0.0, cz)
    {
      if cz == h {
        if cx == 0.0 {
          assert m.vertices[0] == Vector3(cx, 0.0, cz);
        } else {
          assert m.vertices[1] == Vector3(cx, 0.0, cz);
        }
      } else {
        if cx == w {
          assert m.vertices[2] == Vector3(cx, 0.0, cz);
        } else {
          assert m.vertices[3] == Vector3(cx, 0.0, cz);
        }
      }
    }
  }

  /** Why BuildTerrain produced no plane. */
  datatype TerrainError =
    | MalformedBounds  // some piece of the bounds string did not parse
    | TooFewBounds     // fewer than four numbers: bp[2] or bp[3] is out of range

  datatype Terrain = Built(mesh: Mesh) | Rejected(error: TerrainError)

  /** The network's width and height from bounds "xmin,ymin,xmax,ymax". */
  function Extent(bp: seq<real>): (e: (real, real))
    requires |bp| >= 4
    ensures e.0 + bp[0] == bp[2] && e.1 + bp[1] == bp[3]
  {
    (bp[2] - bp[0], bp[3] - bp[1])
  }

  /** The ground position of vertex p when the plane is placed at (x0, z0). */
  function Placed(p: Vector3, x0: real, z0: real): Vector2 {
    Vector2(p.x + x0, p.z + z0)
  }

  /** The plane built on bounds "xmin,ymin,xmax,ymax", placed at (xmin, ymin),
      covers exactly the network's bounding rectangle: its placed vertices
      are the four corners of [bp[0], bp[2]] x [bp[1], bp[3]]. No margin is
      added. */
  lemma TerrainSpansBounds(bp: seq<real>)
    requires |bp| >= 4
    ensures var m := TerrainPlane(Extent(bp).0, Extent(bp).1);
            (set k | 0 <= k < 4 :: Placed(m.vertices[k], bp[0], bp[1]))
            == {Vector2(bp[0], bp[1]), Vector2(bp[0], bp[3]), Vector2(bp[2], bp[1]), Vector2(bp[2], bp[3])}
  {
    var m := TerrainPlane(Extent(bp).0, Extent(bp).1);
    var v := m.vertices;
    assert Placed(v[0], bp[0], bp[1]) == Vector2(bp[0], bp[3]);
    assert Placed(v[1], bp[0], bp[1]) == Vector2(bp[2], bp[3]);
    assert Placed(v[2], bp[0], bp[1]) == Vector2(bp[2], bp[1]);
    assert Placed(v[3], bp[0], bp[1]) == Vector2(bp[0], bp[1]);
  }

  class ProjectionData {
    /** The netOffset attribute of the net file's location element. */
    var offset: string
    /** The origBoundary attribute. */
    var originalBounds: string
    /** The convBoundary attribute: the projected network bounds. */
    var projectedBounds: string

    constructor ()
      ensures offset == "" && originalBounds == "" && projectedBounds == ""
    {
      offset := "";
      originalBounds := "";
      projectedBounds := "";
    }

    /** Stores the three attributes of the location element; `netOffset`,
        `origBoundary` and `convBoundary` are their values as read from the
        document. */
    method SetProjectionData(netOffset: string, origBoundary: string, convBoundary: string)
      modifies this
      ensures offset == netOffset && originalBounds == origBoundary && projectedBounds == convBoundary
    {
      offset := netOffset;
      originalBounds := origBoundary;
      projectedBounds := convBoundary;
    }

    /** The numbers of a shape string, one per piece and in order, or None
        when some piece does not parse. */
    method ShapeStringToFloatList(shape: string, parse: string -> Option<real>) returns (points: Option<seq<real>>)
      ensures points == ParsePieces(Split(shape), parse)
      ensures points.Some? ==> |points.value| == |Delimiters(shape)| + 1
    {
      var cuts := Split(shape);
      var found: seq<real> := [];
      var i := 0;
      while i < |cuts|
        invariant 0 <= i <= |cuts|
        invariant ParsePieces(cuts[..i], parse) == Some(found)
      {
        var v := parse(cuts[i]);
        if v.None? {
          assert !parse(cuts[i]).Some?;
          return None;
        }
        assert cuts[..i + 1][..i] == cuts[..i];
        found := found + [v.value];
        i := i + 1;
      }
      assert cuts[..i] == cuts;
      points := Some(found);
    }

    /** The terrain plane under the network: the projected bounds converted,
        then width bp[2] - bp[0] and height bp[3] - bp[1]. */
    method BuildTerrain(parse: string -> Option<real>) returns (terrain: Terrain)
      ensures var bp := ParsePieces(Split(projectedBounds), parse);
              && (bp.None? <==> terrain == Rejected(MalformedBounds))
              && (bp.Some? && |bp.value| < 4 <==> terrain == Rejected(TooFewBounds))
              && (terrain.Built? ==>
                    && bp.Some? && |bp.value| >= 4
                    && terrain.mesh == TerrainPlane(Extent(bp.value).0, Extent(bp.value).1))
    {
      var bp := ShapeStringToFloatList(projectedBounds, parse);
      if bp.None? {
        return Rejected(MalformedBounds);
      }
      if |bp.value| < 4 {
        return Rejected(TooFewBounds);
      }
      var x := bp.value[2] - bp.value[0];
      var y := bp.value[3] - bp.value[1];
      terrain := Built(TerrainPlane(x, y));
    }
  }

  /** Converted bounds give the numbers in order, and the plane built on
      them is as wide and as deep as the network. */
  lemma BoundsExample(parse: string -> Option<real>)
    requires parse("0.00") == Some(0.0) && parse("10.00") == Some(10.0)
    requires parse("250.00") == Some(250.0) && parse("110.00") == Some(110.0)
    ensures ParsePieces(["0.00", "10.00", "250.00", "110.00"], parse) == Some([0.0, 10.0, 250.0, 110.0])
    ensures Extent([0.0, 10.0, 250.0, 110.0]) == (250.0, 100.0)
  {
    var ps := ["0.00", "10.00", "250.00", "110.00"];
    var r := ParsePieces(ps, parse);
    assert forall k :: 0 <= k < 4 ==> parse(ps[k]).Some?;
    assert r.value == [0.0, 10.0, 250.0, 110.0];
  }
}
