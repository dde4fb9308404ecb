/** The trigonometric tables of the level-of-detail sphere mesh and the vertex grid that
    `renderSection` writes from them (lodspheremesh.cpp).

    The tables hold sin and cos at `thetaDivisions + 1` longitudes and `phiDivisions + 1`
    latitudes; a section of the sphere is the grid of table angles phi0, phi0 + step, ...
    by theta0, theta0 + step, ..., and its vertex k is grid point k in row-major order.
    Floats are modelled as reals and sin and cos as parameters. */
module SphereGrid {
  import opened Bits

  const MaxDivisions := 2048
  const ThetaDivisions := 2048
  const PhiDivisions := 1024

  /** `a * b` by repeated addition, the way the loops of `renderSection` advance their
      counters. */
  function Times(a: nat, b: int): (t: int)
    ensures b >= 0 ==> t >= 0
  {
    if a == 0 then 0 else Times(a - 1, b) + b
  }

  lemma {:induction false} TimesIsMul(a: nat, b: int)
    ensures Times(a, b) == a * b
  {
    if a > 0 {
      TimesIsMul(a - 1, b);
    }
  }

  // ---------------------------------------------------------------------------
  // Trigonometric tables

  /** Angle i of the theta table, as a fraction of a turn: `i / thetaDivisions`. */
  function ThetaTurns(i: int): real
  {
    i as real / ThetaDivisions as real
  }

  /** Angle i of the phi table, as a fraction of a turn: from -1/4 (south pole) to 1/4. */
  function PhiTurns(i: int): real
  {
    (i as real / PhiDivisions as real - 0.5) / 2.0
  }

  /** The contents of the four tables. */
  datatype TrigValues = TrigValues(sinTheta: seq<real>, cosTheta: seq<real>, sinPhi: seq<real>, cosPhi: seq<real>)

  /** The four tables shared by every mesh (static in the source), and whether they were
      filled.  Before `InitTrigArrays` they are empty. */
  class TrigTables {
    var sinTheta: array<real>
    var cosTheta: array<real>
    var sinPhi: array<real>
    var cosPhi: array<real>
    var initialized: bool

    ghost predicate Valid()
      reads this
    {
      initialized ==>
        sinTheta.Length == ThetaDivisions + 1 && cosTheta.Length == ThetaDivisions + 1 &&
        sinPhi.Length == PhiDivisions + 1 && cosPhi.Length == PhiDivisions + 1
    }

    /** The tables hold sin and cos (of an angle in turns) at every grid angle. */
    ghost predicate Holds(sin: real -> real, cos: real -> real)
      reads this, sinTheta, cosTheta, sinPhi, cosPhi
    {
      sinTheta.Length == ThetaDivisions + 1 && cosTheta.Length == ThetaDivisions + 1 &&
      sinPhi.Length == PhiDivisions + 1 && cosPhi.Length == PhiDivisions + 1 &&
      (forall i :: 0 <= i <= ThetaDivisions ==> sinTheta[i] == sin(ThetaTurns(i)) && cosTheta[i] == cos(ThetaTurns(i))) &&
      (forall i :: 0 <= i <= PhiDivisions ==> sinPhi[i] == sin(PhiTurns(i)) && cosPhi[i] == cos(PhiTurns(i)))
    }

    /** What the tables hold. */
    ghost function Values(): TrigValues
      reads this, sinTheta, cosTheta, sinPhi, cosPhi
    {
      TrigValues(sinTheta[..], cosTheta[..], sinPhi[..], cosPhi[..])
    }

    /** The tables before initialization: null pointers, modelled as empty arrays. */
    constructor()
      ensures Valid() && !initialized
    {
      sinTheta := new real[0];
      cosTheta := new real[0];
      sinPhi := new real[0];
      cosPhi := new real[0];
      initialized := false;
    }

    /** `InitTrigArrays`: allocate the four tables and fill them. */
    method Init(sin: real -> real, cos: real -> real)
      modifies this
      ensures Valid() && initialized && Holds(sin, cos)
      ensures fresh(sinTheta) && fresh(cosTheta) && fresh(sinPhi) && fresh(cosPhi)
    {
      var st := new real[ThetaDivisions + 1];
      var ct := new real[ThetaDivisions + 1];
      var sp := new real[PhiDivisions + 1];
      var cp := new real[PhiDivisions + 1];
      FillTable(st, ct, ThetaDivisions, ThetaTurns, sin, cos);
      FillTable(sp, cp, PhiDivisions, PhiTurns, sin, cos);
      sinTheta, cosTheta, sinPhi, cosPhi := st, ct, sp, cp;
      initialized := true;
    }
  }

  /** One loop of `InitTrigArrays`: entries 0 to divisions of s and c get the sine and
      cosine of table angle i. */
  method FillTable(s: array<real>, c: array<real>, divisions: int, turns: int -> real,
                   sin: real -> real, cos: real -> real)
    requires s != c && s.Length == divisions + 1 && c.Length == divisions + 1
    modifies s, c
    ensures forall i :: 0 <= i <= divisions ==> s[i] == sin(turns(i)) && c[i] == cos(turns(i))
  {
    var i := 0;
    while i <= divisions
      invariant 0 <= i <= divisions + 1
      invariant forall k :: 0 <= k < i ==> s[k] == sin(turns(k)) && c[k] == cos(turns(k))
    {
      s[i] := sin(turns(i));
      c[i] := cos(turns(i));
      i := i + 1;
    }
  }

  /** a is none of the four tables. */
  predicate Apart(a: array<real>, trig: TrigTables)
    reads trig
  {
    a != trig.sinTheta && a != trig.cosTheta && a != trig.sinPhi && a != trig.cosPhi
  }

  // ---------------------------------------------------------------------------
  // Vertex data

  /** Float multiplication, modelled as real multiplication. */
  function Mul(x: real, y: real): real
  {
    x * y
  }

  /** Entry i of a table (the grid only reads entries that exist). */
  function At(s: seq<real>, i: int): real
  {
    if 0 <= i < |s| then s[i] else 0.0
  }

  /** The vertex from the table entries of its angles: `(cphi ctheta, sphi, cphi stheta)`. */
  function Point(cphi: real, sphi: real, ctheta: real, stheta: real): (real, real, real)
  {
    (Mul(cphi, ctheta), sphi, Mul(cphi, stheta))
  }

  /** The tangent from the table entries of its angles: `(sphi stheta, -cphi, sphi ctheta)`. */
  function TangentOf(cphi: real, sphi: real, ctheta: real, stheta: real): (real, real, real)
  {
    (Mul(sphi, stheta), -cphi, Mul(sphi, ctheta))
  }

  /** The vertex at grid angles (phi, theta). */
  function Position(t: TrigValues, phi: int, theta: int): (real, real, real)
  {
    Point(At(t.cosPhi, phi), At(t.sinPhi, phi), At(t.cosTheta, theta), At(t.sinTheta, theta))
  }

  /** The tangent at grid angles (phi, theta). */
  function Tangent(t: TrigValues, phi: int, theta: int): (real, real, real)
  {
    TangentOf(At(t.cosPhi, phi), At(t.sinPhi, phi), At(t.cosTheta, theta), At(t.sinTheta, theta))
  }

  /** The texture coordinates at grid angles (phi, theta): `1 - theta * du` and `1 - phi * dv`,
      du and dv being one division of each table. */
  function TexCoord(phi: int, theta: int): (real, real)
  {
    (1.0 - theta as real * (1.0 / ThetaDivisions as real), 1.0 - phi as real * (1.0 / PhiDivisions as real))
  }

  /** `TexCoord` in the shape of `Position`: the texture coordinates depend on the angles
      only. */
  function TexCoordAt(t: TrigValues, phi: int, theta: int): (real, real)
  {
    TexCoord(phi, theta)
  }

  /** sin^2 + cos^2 == 1 at entry i of a pair of tables. */
  predicate Unit(s: seq<real>, c: seq<real>, i: int)
  {
    Mul(At(s, i), At(s, i)) + Mul(At(c, i), At(c, i)) == 1.0
  }

  /** Where the tables hold sines and cosines, every vertex lies on the unit sphere and every
      tangent has unit length. */
  lemma {:induction false} OnUnitSphere(t: TrigValues, phi: int, theta: int)
    requires Unit(t.sinPhi, t.cosPhi, phi) && Unit(t.sinTheta, t.cosTheta, theta)
    ensures var p := Position(t, phi, theta); Mul(p.0, p.0) + Mul(p.1, p.1) + Mul(p.2, p.2) == 1.0
    ensures var v := Tangent(t, phi, theta); Mul(v.0, v.0) + Mul(v.1, v.1) + Mul(v.2, v.2) == 1.0
  {
    var sp, cp, st, ct := At(t.sinPhi, phi), At(t.cosPhi, phi), At(t.sinTheta, theta), At(t.cosTheta, theta);
    assert (cp * ct) * (cp * ct) + (cp * st) * (cp * st) == (cp * cp) * (st * st + ct * ct);
    assert (sp * st) * (sp * st) + (sp * ct) * (sp * ct) == (sp * sp) * (st * st + ct * ct);
  }

  /** Over the tables the texture coordinates run from 1 down to 0: angle 0 maps to 1, the
      last table entry to 0. */
  lemma {:induction false} TexCoordRange(phi: int, theta: int)
    requires 0 <= phi <= PhiDivisions && 0 <= theta <= ThetaDivisions
    ensures var uv := TexCoord(phi, theta); 0.0 <= uv.0 <= 1.0 && 0.0 <= uv.1 <= 1.0
    ensures TexCoord(0, 0) == (1.0, 1.0) && TexCoord(PhiDivisions, ThetaDivisions) == (0.0, 0.0)
  {
  }

  // ---------------------------------------------------------------------------
  // Grid angles

  /** The grid angles `a, a + step, ...` up to last: the values the loop variables of
      `renderSection` take. */
  function Angles(a: int, step: int, last: int): (s: seq<int>)
    requires step >= 1
    decreases last - a
  {
    if a > last then [] else [a] + Angles(a + step, step, last)
  }

  /** s is the progression `a, a + step, ...` of every grid angle up to last. */
  predicate Steps(s: seq<int>, a: int, step: int, last: int)
  {
    |s| >= 1 && s[0] == a &&
    (forall j :: 0 < j < |s| ==> s[j] == s[j - 1] + step) &&
    (forall j :: 0 <= j < |s| ==> a <= s[j] <= last) &&
    last < s[|s| - 1] + step
  }

  /** `Angles` is that progression. */
  lemma {:induction false} AnglesSteps(a: int, step: int, last: int)
    requires step >= 1 && a <= last
    ensures Steps(Angles(a, step, last), a, step, last)
    decreases last - a
  {
    if a + step <= last {
      AnglesSteps(a + step, step, last);
    }
  }

  /** There are `(last - a) / step + 1` grid angles. */
  lemma {:induction false} AnglesCount(a: int, step: int, last: int)
    requires step >= 1 && a <= last
    ensures |Angles(a, step, last)| == (last - a) / step + 1
    decreases last - a
  {
    if a + step > last {
      DivModUnique(last - a, step, 0, last - a);
    } else {
      AnglesCount(a + step, step, last);
      var q := (last - a - step) / step;
      assert last - a - step == step * q + (last - a - step) % step;
      DivModUnique(last - a, step, q + 1, (last - a - step) % step);
    }
  }

  /** Grid angle j is `a + j * step`. */
  lemma {:induction false} AnglesAt(a: int, step: int, last: int, j: nat)
    requires step >= 1 && j < |Angles(a, step, last)|
    ensures Angles(a, step, last)[j] == a + Times(j, step)
    decreases j
  {
    if j > 0 {
      AnglesAt(a + step, step, last, j - 1);
    }
  }

  // ---------------------------------------------------------------------------
  // The section grid

  /** The values of f at the points of the grid phis x thetas, row by row. */
  function Grid<T>(f: (TrigValues, int, int) -> T, t: TrigValues, phis: seq<int>, thetas: seq<int>): (g: seq<T>)
    ensures |g| == Times(|phis|, |thetas|)
  {
    if phis == [] then []
    else Grid(f, t, phis[..|phis| - 1], thetas) + seq(|thetas|, j requires 0 <= j < |thetas| => f(t, phis[|phis| - 1], thetas[j]))
  }

  /** Grid point (r, j) is entry `r * |thetas| + j`. */
  lemma {:induction false} GridAt<T>(f: (TrigValues, int, int) -> T, t: TrigValues, phis: seq<int>, thetas: seq<int>,
                                      r: nat, j: nat)
    requires r < |phis| && j < |thetas|
    ensures Times(r, |thetas|) + j < |Grid(f, t, phis, thetas)|
    ensures Grid(f, t, phis, thetas)[Times(r, |thetas|) + j] == f(t, phis[r], thetas[j])
  {
    var n := |phis| - 1;
    if r < n {
      GridAt(f, t, phis[..n], thetas, r, j);
      TimesMonotone(r + 1, n, |thetas|);
    }
  }

  lemma {:induction false} TimesMonotone(a: nat, b: nat, c: nat)
    requires a <= b
    ensures Times(a, c) <= Times(b, c)
    decreases b
  {
    if a < b {
      TimesMonotone(a, b - 1, c);
    }
  }

  /** The positions of the grid points, row by row. */
  function Positions(t: TrigValues, phis: seq<int>, thetas: seq<int>): seq<(real, real, real)>
  {
    Grid(Position, t, phis, thetas)
  }

  /** The tangents of the grid points, row by row. */
  function Tangents(t: TrigValues, phis: seq<int>, thetas: seq<int>): seq<(real, real, real)>
  {
    Grid(Tangent, t, phis, thetas)
  }

  /** The texture coordinates of the grid points, row by row. */
  function TexCoords(t: TrigValues, phis: seq<int>, thetas: seq<int>): seq<(real, real)>
  {
    Grid(TexCoordAt, t, phis, thetas)
  }

  // ---------------------------------------------------------------------------
  // Writing the buffers

  /** The first n triples of vals are in a, triple j at 3 * j. */
  ghost predicate Holds3(a: array<real>, vals: seq<(real, real, real)>, n: int)
    reads a
  {
    0 <= n <= |vals| && 3 * n <= a.Length &&
    forall j :: 0 <= j < n ==> a[3 * j] == vals[j].0 && a[3 * j + 1] == vals[j].1 && a[3 * j + 2] == vals[j].2
  }

  /** The first n pairs of vals are in a, pair j at 2 * j. */
  ghost predicate Holds2(a: array<real>, vals: seq<(real, real)>, n: int)
    reads a
  {
    0 <= n <= |vals| && 2 * n <= a.Length &&
    forall j :: 0 <= j < n ==> a[2 * j] == vals[j].0 && a[2 * j + 1] == vals[j].1
  }

  /** From lo on, a still holds what s holds. */
  ghost predicate Beyond(a: array<real>, s: seq<real>, lo: int)
    reads a
  {
    |s| == a.Length && forall k :: 0 <= k < a.Length && lo <= k ==> a[k] == s[k]
  }

  /** Write triple n of vals, (x, y, z), at 3 * n. */
  method Push3(a: array<real>, n3: int, v: (real, real, real),
               ghost vals: seq<(real, real, real)>, ghost n: nat, ghost s: seq<real>)
    requires n3 == 3 * n && n < |vals| && vals[n] == v && 3 * n + 3 <= a.Length
    requires Holds3(a, vals, n) && Beyond(a, s, n3)
    modifies a
    ensures Holds3(a, vals, n + 1) && Beyond(a, s, n3 + 3)
  {
    a[n3], a[n3 + 1], a[n3 + 2] := v.0, v.1, v.2;
  }

  /** Write pair n of vals, (x, y), at 2 * n. */
  method Push2(a: array<real>, n2: int, v: (real, real),
               ghost vals: seq<(real, real)>, ghost n: nat, ghost s: seq<real>)
    requires n2 == 2 * n && n < |vals| && vals[n] == v && 2 * n + 2 <= a.Length
    requires Holds2(a, vals, n) && Beyond(a, s, n2)
    modifies a
    ensures Holds2(a, vals, n + 1) && Beyond(a, s, n2 + 2)
  {
    a[n2], a[n2 + 1] := v.0, v.1;
  }

  /** Write vertex n of the section: its position, triple n of positions, and its texture
      coordinates, pair n of uvs. */
  method PutVertex(vertices: array<real>, texCoords: array<real>, n3: int, n2: int,
                   p: (real, real, real), uv: (real, real),
                   ghost positions: seq<(real, real, real)>, ghost uvs: seq<(real, real)>, ghost n: nat,
                   ghost vertices0: seq<real>, ghost texCoords0: seq<real>)
    requires vertices != texCoords
    requires n3 == 3 * n && n2 == 2 * n && n < |positions| && n < |uvs|
    requires positions[n] == p && uvs[n] == uv
    requires 3 * n + 3 <= vertices.Length && 2 * n + 2 <= texCoords.Length
    requires Holds3(vertices, positions, n) && Beyond(vertices, vertices0, n3)
    requires Holds2(texCoords, uvs, n) && Beyond(texCoords, texCoords0, n2)
    modifies vertices, texCoords
    ensures Holds3(vertices, positions, n + 1) && Beyond(vertices, vertices0, n3 + 3)
    ensures Holds2(texCoords, uvs, n + 1) && Beyond(texCoords, texCoords0, n2 + 2)
  {
    Push3(vertices, n3, p, positions, n, vertices0);
    Push2(texCoords, n2, uv, uvs, n, texCoords0);
  }

  /** Write vertex n of the section with its tangent, triple n of tans. */
  method PutVertexTangent(vertices: array<real>, texCoords: array<real>, tangents: array<real>, n3: int, n2: int,
                          p: (real, real, real), uv: (real, real), tangent: (real, real, real),
                          ghost positions: seq<(real, real, real)>, ghost uvs: seq<(real, real)>,
                          ghost tans: seq<(real, real, real)>, ghost n: nat,
                          ghost vertices0: seq<real>, ghost texCoords0: seq<real>, ghost tangents0: seq<real>)
    requires vertices != texCoords && vertices != tangents && texCoords != tangents
    requires n3 == 3 * n && n2 == 2 * n && n < |positions| && n < |uvs| && n < |tans|
    requires positions[n] == p && uvs[n] == uv && tans[n] == tangent
    requires 3 * n + 3 <= vertices.Length && 2 * n + 2 <= texCoords.Length && 3 * n + 3 <= tangents.Length
    requires Holds3(vertices, positions, n) && Beyond(vertices, vertices0, n3)
    requires Holds2(texCoords, uvs, n) && Beyond(texCoords, texCoords0, n2)
    requires Holds3(tangents, tans, n) && Beyond(tangents, tangents0, n3)
    modifies vertices, texCoords, tangents
    ensures Holds3(vertices, positions, n + 1) && Beyond(vertices, vertices0, n3 + 3)
    ensures Holds2(texCoords, uvs, n + 1) && Beyond(texCoords, texCoords0, n2 + 2)
    ensures Holds3(tangents, tans, n + 1) && Beyond(tangents, tangents0, n3 + 3)
  {
    PutVertex(vertices, texCoords, n3, n2, p, uv, positions, uvs, n, vertices0, texCoords0);
    Push3(tangents, n3, tangent, tans, n, tangents0);
  }

  /** The inner loop of `renderSection` without tangents: the vertices and texture
      coordinates of grid row phi, one per angle of thetas, written as vertices `first`,
      `first + 1`, ... of the section. */
  method RenderRow(vertices: array<real>, texCoords: array<real>, cosTheta: array<real>, sinTheta: array<real>,
                   phi: int, cphi: real, sphi: real, theta0: int, theta1: int, step: int, n3in: int, n2in: int,
                   ghost thetas: seq<int>, ghost positions: seq<(real, real, real)>, ghost uvs: seq<(real, real)>,
                   ghost first: nat, ghost vertices0: seq<real>, ghost texCoords0: seq<real>)
    returns (n3: int, n2: int)
    requires vertices != texCoords
    requires vertices != cosTheta && vertices != sinTheta && texCoords != cosTheta && texCoords != sinTheta
    requires 0 <= theta0 && theta1 < cosTheta.Length && theta1 < sinTheta.Length && 1 <= step
    requires Steps(thetas, theta0, step, theta1)
    requires n3in == 3 * first && n2in == 2 * first
    requires first + |thetas| <= |positions| && first + |thetas| <= |uvs|
    requires 3 * (first + |thetas|) <= vertices.Length && 2 * (first + |thetas|) <= texCoords.Length
    requires forall j :: 0 <= j < |thetas| ==>
               positions[first + j] == Point(cphi, sphi, cosTheta[thetas[j]], sinTheta[thetas[j]]) &&
               uvs[first + j] == TexCoord(phi, thetas[j])
    requires Holds3(vertices, positions, first) && Beyond(vertices, vertices0, n3in)
    requires Holds2(texCoords, uvs, first) && Beyond(texCoords, texCoords0, n2in)
    modifies vertices, texCoords
    ensures n3 == 3 * (first + |thetas|) && n2 == 2 * (first + |thetas|)
    ensures Holds3(vertices, positions, first + |thetas|) && Beyond(vertices, vertices0, n3)
    ensures Holds2(texCoords, uvs, first + |thetas|) && Beyond(texCoords, texCoords0, n2)
  {
    n3, n2 := n3in, n2in;
    ghost var c := 0;
    var theta := theta0;
    while theta <= theta1
      invariant 0 <= c <= |thetas| && (c < |thetas| ==> theta == thetas[c]) && (c == |thetas| ==> theta > theta1)
      invariant n3 == 3 * (first + c) && n2 == 2 * (first + c)
      invariant Holds3(vertices, positions, first + c) && Beyond(vertices, vertices0, n3)
      invariant Holds2(texCoords, uvs, first + c) && Beyond(texCoords, texCoords0, n2)
      decreases theta1 - theta
    {
      var ctheta := cosTheta[theta];
      var stheta := sinTheta[theta];
      PutVertex(vertices, texCoords, n3, n2, Point(cphi, sphi, ctheta, stheta), TexCoord(phi, theta),
                positions, uvs, first + c, vertices0, texCoords0);
      n2 := n2 + 2;
      n3 := n3 + 3;
      theta := theta + step;
      c := c + 1;
    }
  }

  /** The inner loop of `renderSection` with tangents: as `RenderRow`, and the tangent of
      each vertex, needed for bump mapping, at the vertex's place in the tangent buffer. */
  method RenderRowTangents(vertices: array<real>, texCoords: array<real>, tangents: array<real>,
                           cosTheta: array<real>, sinTheta: array<real>,
                           phi: int, cphi: real, sphi: real, theta0: int, theta1: int, step: int, n3in: int, n2in: int,
                           ghost thetas: seq<int>, ghost positions: seq<(real, real, real)>, ghost uvs: seq<(real, real)>,
                           ghost tans: seq<(real, real, real)>, ghost first: nat,
                           ghost vertices0: seq<real>, ghost texCoords0: seq<real>, ghost tangents0: seq<real>)
    returns (n3: int, n2: int)
    requires vertices != texCoords && vertices != tangents && texCoords != tangents
    requires vertices != cosTheta && vertices != sinTheta && texCoords != cosTheta && texCoords != sinTheta
    requires tangents != cosTheta && tangents != sinTheta
    requires 0 <= theta0 && theta1 < cosTheta.Length && theta1 < sinTheta.Length && 1 <= step
    requires Steps(thetas, theta0, step, theta1)
    requires n3in == 3 * first && n2in == 2 * first
    requires first + |thetas| <= |positions| && first + |thetas| <= |uvs| && first + |thetas| <= |tans|
    requires 3 * (first + |thetas|) <= vertices.Length && 3 * (first + |thetas|) <= tangents.Length
    requires 2 * (first + |thetas|) <= texCoords.Length
    requires forall j :: 0 <= j < |thetas| ==>
               positions[first + j] == Point(cphi, sphi, cosTheta[thetas[j]], sinTheta[thetas[j]]) &&
               uvs[first + j] == TexCoord(phi, thetas[j]) &&
               tans[first + j] == TangentOf(cphi, sphi, cosTheta[thetas[j]], sinTheta[thetas[j]])
    requires Holds3(vertices, positions, first) && Beyond(vertices, vertices0, n3in)
    requires Holds2(texCoords, uvs, first) && Beyond(texCoords, texCoords0, n2in)
    requires Holds3(tangents, tans, first) && Beyond(tangents, tangents0, n3in)
    modifies vertices, texCoords, tangents
    ensures n3 == 3 * (first + |thetas|) && n2 == 2 * (first + |thetas|)
    ensures Holds3(vertices, positions, first + |thetas|) && Beyond(vertices, vertices0, n3)
    ensures Holds2(texCoords, uvs, first + |thetas|) && Beyond(texCoords, texCoords0, n2)
    ensures Holds3(tangents, tans, first + |thetas|) && Beyond(tangents, tangents0, n3)
  {
    n3, n2 := n3in, n2in;
    ghost var c := 0;
    var theta := theta0;
    while theta <= theta1
      invariant 0 <= c <= |thetas| && (c < |thetas| ==> theta == thetas[c]) && (c == |thetas| ==> theta > theta1)
      invariant n3 == 3 * (first + c) && n2 == 2 * (first + c)
      invariant Holds3(vertices, positions, first + c) && Beyond(vertices, vertices0, n3)
      invariant Holds2(texCoords, uvs, first + c) && Beyond(texCoords, texCoords0, n2)
      invariant Holds3(tangents, tans, first + c) && Beyond(tangents, tangents0, n3)
      decreases theta1 - theta
    {
      var ctheta := cosTheta[theta];
      var stheta := sinTheta[theta];
      // with the tangent, needed for bump mapping
      PutVertexTangent(vertices, texCoords, tangents, n3, n2, Point(cphi, sphi, ctheta, stheta), TexCoord(phi, theta),
                       TangentOf(cphi, sphi, ctheta, stheta), positions, uvs, tans, first + c, vertices0, texCoords0, tangents0);
      n2 := n2 + 2;
      n3 := n3 + 3;
      theta := theta + step;
      c := c + 1;
    }
  }

  /** Row r of the grid phis x thetas: entries `r * |thetas|` to `r * |thetas| + |thetas| - 1`
      of each grid sequence hold the values at the row's points. */
  lemma {:induction false} GridRow(t: TrigValues, phis: seq<int>, thetas: seq<int>, r: nat)
    requires r < |phis|
    ensures Times(r, |thetas|) + |thetas| <= Times(|phis|, |thetas|)
    ensures forall j :: 0 <= j < |thetas| ==>
              Positions(t, phis, thetas)[Times(r, |thetas|) + j] == Position(t, phis[r], thetas[j])
    ensures forall j :: 0 <= j < |thetas| ==>
              TexCoords(t, phis, thetas)[Times(r, |thetas|) + j] == TexCoordAt(t, phis[r], thetas[j])
    ensures forall j :: 0 <= j < |thetas| ==>
              Tangents(t, phis, thetas)[Times(r, |thetas|) + j] == Tangent(t, phis[r], thetas[j])
  {
    TimesMonotone(r + 1, |phis|, |thetas|);
    forall j | 0 <= j < |thetas|
      ensures Positions(t, phis, thetas)[Times(r, |thetas|) + j] == Position(t, phis[r], thetas[j])
    {
      GridAt(Position, t, phis, thetas, r, j);
    }
    forall j | 0 <= j < |thetas|
      ensures TexCoords(t, phis, thetas)[Times(r, |thetas|) + j] == TexCoordAt(t, phis[r], thetas[j])
    {
      GridAt(TexCoordAt, t, phis, thetas, r, j);
    }
    forall j | 0 <= j < |thetas|
      ensures Tangents(t, phis, thetas)[Times(r, |thetas|) + j] == Tangent(t, phis[r], thetas[j])
    {
      GridAt(Tangent, t, phis, thetas, r, j);
    }
  }

  /** Row r of `WriteGrid`, at phi == phis[r]: the grid points of the row go to the
      buffers after the rows before it. */
  method WriteGridRow(vertices: array<real>, texCoords: array<real>, tangents: array<real>, trig: TrigTables,
                      phi: int, theta0: int, theta1: int, step: int, withTangents: bool, n3in: int, n2in: int,
                      ghost t: TrigValues, ghost phis: seq<int>, ghost thetas: seq<int>, ghost r: nat,
                      ghost vertices0: seq<real>, ghost texCoords0: seq<real>, ghost tangents0: seq<real>)
    returns (n3: int, n2: int)
    requires trig.Valid() && trig.initialized && t == trig.Values()
    requires vertices != texCoords && vertices != tangents && texCoords != tangents
    requires Apart(vertices, trig) && Apart(texCoords, trig) && Apart(tangents, trig)
    requires 0 <= theta0 && theta1 <= ThetaDivisions && 1 <= step && 0 <= phi <= PhiDivisions
    requires Steps(thetas, theta0, step, theta1) && r < |phis| && phis[r] == phi
    requires n3in == 3 * Times(r, |thetas|) && n2in == 2 * Times(r, |thetas|)
    requires 3 * Times(r + 1, |thetas|) <= vertices.Length && 2 * Times(r + 1, |thetas|) <= texCoords.Length &&
             3 * Times(r + 1, |thetas|) <= tangents.Length
    requires Holds3(vertices, Positions(t, phis, thetas), Times(r, |thetas|)) &&
             Beyond(vertices, vertices0, n3in)
    requires Holds2(texCoords, TexCoords(t, phis, thetas), Times(r, |thetas|)) &&
             Beyond(texCoords, texCoords0, n2in)
    requires withTangents ==> Holds3(tangents, Tangents(t, phis, thetas), Times(r, |thetas|)) &&
                              Beyond(tangents, tangents0, n3in)
    requires !withTangents ==> Beyond(tangents, tangents0, 0)
    modifies vertices, texCoords, tangents
    ensures n3 == 3 * Times(r + 1, |thetas|) && n2 == 2 * Times(r + 1, |thetas|)
    ensures Holds3(vertices, Positions(t, phis, thetas), Times(r + 1, |thetas|)) &&
            Beyond(vertices, vertices0, n3)
    ensures Holds2(texCoords, TexCoords(t, phis, thetas), Times(r + 1, |thetas|)) &&
            Beyond(texCoords, texCoords0, n2)
    ensures withTangents ==> Holds3(tangents, Tangents(t, phis, thetas), Times(r + 1, |thetas|)) &&
                             Beyond(tangents, tangents0, n3)
    ensures !withTangents ==> Beyond(tangents, tangents0, 0) && unchanged(tangents)
  {
    ghost var positions, uvs, tans := Positions(t, phis, thetas), TexCoords(t, phis, thetas), Tangents(t, phis, thetas);
    GridRow(t, phis, thetas, r);
    var cphi := trig.cosPhi[phi];
    var sphi := trig.sinPhi[phi];
    assert forall j :: 0 <= j < |thetas| ==>
             Position(t, phi, thetas[j]) == Point(cphi, sphi, trig.cosTheta[thetas[j]], trig.sinTheta[thetas[j]]) &&
             Tangent(t, phi, thetas[j]) == TangentOf(cphi, sphi, trig.cosTheta[thetas[j]], trig.sinTheta[thetas[j]]);
    if withTangents {
      n3, n2 := RenderRowTangents(vertices, texCoords, tangents, trig.cosTheta, trig.sinTheta, phi, cphi, sphi,
                                  theta0, theta1, step, n3in, n2in, thetas, positions, uvs, tans, Times(r, |thetas|),
                                  vertices0, texCoords0, tangents0);
    } else {
      n3, n2 := RenderRow(vertices, texCoords, trig.cosTheta, trig.sinTheta, phi, cphi, sphi,
                          theta0, theta1, step, n3in, n2in, thetas, positions, uvs, Times(r, |thetas|),
                          vertices0, texCoords0);
    }
  }

  /** The rows of a section of the given extent: phi0 to phi0 + extent / 2 in steps of step. */
  function SectionPhis(phi0: int, extent: int, step: int): seq<int>
    requires 1 <= step
  {
    Angles(phi0, step, phi0 + extent / 2)
  }

  /** The columns of a section: theta0 to theta0 + extent in steps of step. */
  function SectionThetas(theta0: int, extent: int, step: int): seq<int>
    requires 1 <= step
  {
    Angles(theta0, step, theta0 + extent)
  }

  /** `(phiExtent / step + 1) * (thetaExtent / step + 1)`: the vertices of a section. */
  function SectionCount(extent: int, step: int): int
    requires 1 <= step
  {
    (extent / 2 / step + 1) * (extent / step + 1)
  }

  /** The vertex loops of `renderSection`: the rows phi0, phi0 + step, ... up to
      phi0 + extent / 2 of the section, each from theta0 to theta0 + extent in steps of step,
      with tangents when withTangents.  Vertex k of the section is grid point k, row by row;
      the buffers beyond the section keep their contents. */
  method WriteGrid(vertices: array<real>, texCoords: array<real>, tangents: array<real>, trig: TrigTables,
                   phi0: int, theta0: int, extent: int, step: int, withTangents: bool)
    requires trig.Valid() && trig.initialized
    requires vertices != texCoords && vertices != tangents && texCoords != tangents
    requires Apart(vertices, trig) && Apart(texCoords, trig) && Apart(tangents, trig)
    requires 0 <= phi0 && 0 <= theta0 && 0 <= extent && 1 <= step
    requires phi0 + extent / 2 <= PhiDivisions && theta0 + extent <= ThetaDivisions
    requires 3 * SectionCount(extent, step) <= vertices.Length && 2 * SectionCount(extent, step) <= texCoords.Length &&
             3 * SectionCount(extent, step) <= tangents.Length
    modifies vertices, texCoords, tangents
    ensures Holds3(vertices, Positions(trig.Values(), SectionPhis(phi0, extent, step), SectionThetas(theta0, extent, step)),
                   SectionCount(extent, step))
    ensures Holds2(texCoords, TexCoords(trig.Values(), SectionPhis(phi0, extent, step), SectionThetas(theta0, extent, step)),
                   SectionCount(extent, step))
    ensures Beyond(vertices, old(vertices[..]), 3 * SectionCount(extent, step))
    ensures Beyond(texCoords, old(texCoords[..]), 2 * SectionCount(extent, step))
    ensures withTangents ==>
              Holds3(tangents, Tangents(trig.Values(), SectionPhis(phi0, extent, step), SectionThetas(theta0, extent, step)),
                     SectionCount(extent, step)) &&
              Beyond(tangents, old(tangents[..]), 3 * SectionCount(extent, step))
    ensures !withTangents ==> Beyond(tangents, old(tangents[..]), 0) && unchanged(tangents)
  {
    var thetaExtent := extent;
    var phiExtent := extent / 2;
    var theta1 := theta0 + thetaExtent;
    var phi1 := phi0 + phiExtent;
    var n3 := 0;
    var n2 := 0;

    ghost var t := trig.Values();
    ghost var phis, thetas := SectionPhis(phi0, extent, step), SectionThetas(theta0, extent, step);
    AnglesSteps(phi0, step, phi1);
    AnglesSteps(theta0, step, theta1);
    AnglesCount(phi0, step, phi1);
    AnglesCount(theta0, step, theta1);
    ghost var rows, cols := |phis|, |thetas|;
    ghost var count := SectionCount(extent, step);
    assert Times(rows, cols) == count by {
      TimesIsMul(rows, cols);
    }
    ghost var positions, uvs, tans := Positions(t, phis, thetas), TexCoords(t, phis, thetas), Tangents(t, phis, thetas);
    ghost var vertices0, texCoords0, tangents0 := vertices[..], texCoords[..], tangents[..];
    ghost var r := 0;
    var phi := phi0;
    while phi <= phi1
      invariant 0 <= r <= rows && (r < rows ==> phi == phis[r]) && (r == rows ==> phi > phi1)
      invariant n3 == 3 * Times(r, cols) && n2 == 2 * Times(r, cols)
      invariant trig.Values() == t
      invariant Holds3(vertices, positions, Times(r, cols)) && Beyond(vertices, vertices0, n3)
      invariant Holds2(texCoords, uvs, Times(r, cols)) && Beyond(texCoords, texCoords0, n2)
      invariant withTangents ==> Holds3(tangents, tans, Times(r, cols)) && Beyond(tangents, tangents0, n3)
      invariant !withTangents ==> Beyond(tangents, tangents0, 0) && unchanged(tangents)
      decreases phi1 - phi
    {
      TimesMonotone(r + 1, rows, cols);
      n3, n2 := WriteGridRow(vertices, texCoords, tangents, trig, phi, theta0, theta1, step, withTangents, n3, n2,
                             t, phis, thetas, r, vertices0, texCoords0, tangents0);
      phi := phi + step;
      r := r + 1;
    }
    assert r == rows;
  }
}
