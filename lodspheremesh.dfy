/** The level-of-detail sphere mesh (lodspheremesh.cpp): the vertex and index buffers and the
    bookkeeping of `render` and `renderSection`; the tables and the vertex grid are in
    `SphereGrid`.

    A sphere is drawn as `split * split` sections, each a grid of `nRings` quad strips of
    `nSlices + 1` vertex pairs.  The level of detail `lod` (a power of two between 2 and 2048)
    fixes the angular `step` between grid lines in units of 1/2048 of a turn; when the step
    would drop below `MinStep` the sphere is cut into more sections instead, so that one
    section never needs more vertices than the buffers hold.

    Floats are modelled as reals, sin and cos as parameters, and the OpenGL calls are left out:
    a `glDrawElements` call is recorded as the `Strip` of the index buffer it reads. */
module LODSphereMesh {
  import opened Bits
  import opened SphereGrid

  const MinStep := 32
  const MaxThetaSteps := 64
  const MaxPhiSteps := 32
  const MaxVertices := 2145
  const IndexCount := 4160

  /** The constants are the source's formulas: `thetaDivisions = maxDivisions`,
      `phiDivisions = maxDivisions / 2`, the step counts at the smallest step, and the
      constructor's buffer sizes `(maxPhiSteps + 1) * (maxThetaSteps + 1)` vertices and
      `maxPhiSteps * 2 * (maxThetaSteps + 1)` indices; a vertex number always fits in an
      unsigned short. */
  lemma {:induction false} BufferSizes()
    ensures ThetaDivisions == MaxDivisions && PhiDivisions == MaxDivisions / 2
    ensures MaxThetaSteps == ThetaDivisions / MinStep && MaxPhiSteps == PhiDivisions / MinStep
    ensures MaxVertices == (MaxPhiSteps + 1) * (MaxThetaSteps + 1)
    ensures IndexCount == MaxPhiSteps * 2 * (MaxThetaSteps + 1)
    ensures MaxVertices <= 0x1_0000
  {
  }

  // ---------------------------------------------------------------------------
  // Level of detail

  /** `(int) lodBias` after the clamp to [-30, 30], as a shift count: the bias magnitude,
      truncated toward zero. */
  function BiasShift(lodBias: real): (b: nat)
    ensures b <= 30
  {
    if lodBias < 0.0 then (if lodBias < -30.0 then 30 else (-lodBias).Floor)
    else if lodBias > 0.0 then (if lodBias > 30.0 then 30 else lodBias.Floor)
    else 0
  }

  /** The LOD of a bias without 32-bit overflow: 64 divided or multiplied by `1 << b`, then
      clamped to [2, maxDivisions]. */
  function LodOf(lodBias: real): (lod: int)
    ensures 2 <= lod <= MaxDivisions
  {
    var b := BiasShift(lodBias);
    if lodBias < 0.0 then
      DivAtMost(64, Pow2(b));
      var lod := 64 / Pow2(b);
      if lod < 2 then 2 else lod
    else if lodBias > 0.0 then
      var lod := 64 * Pow2(b);
      if lod > MaxDivisions then MaxDivisions else lod
    else 64
  }

  lemma {:induction false} DivAtMost(x: nat, d: nat)
    requires d >= 1
    ensures x / d <= x
  {
  }

  /** The same clamp on exponents: 2^6 shifted by the bias and saturated at 2^1 and 2^11. */
  function LodExponent(lodBias: real): (k: nat)
    ensures 1 <= k <= 11
  {
    var b := BiasShift(lodBias);
    if lodBias < 0.0 then (if b >= 5 then 1 else 6 - b)
    else if lodBias > 0.0 then (if b >= 5 then 11 else 6 + b)
    else 6
  }

  /** The clamped LOD is 2 to the power `LodExponent`; in particular it is a power of two. */
  lemma {:induction false} LodIsPowerOfTwo(lodBias: real)
    ensures LodOf(lodBias) == Pow2(LodExponent(lodBias))
    ensures IsPowerOfTwo(LodOf(lodBias))
  {
    var b := BiasShift(lodBias);
    Pow2Constants();
    if lodBias < 0.0 {
      if b < 5 {
        Pow2Div(6, b);
        Pow2Monotone(2, 6 - b);
        assert Pow2(2) == 4;
      } else {
        Pow2Monotone(5, b);
        if b > 5 {
          Pow2Monotone(6, b);
          DivBelow(64, Pow2(b), 2);
        }
      }
    } else if lodBias > 0.0 {
      Pow2Add(6, b);
      if b < 5 {
        Pow2Monotone(6 + b, 10);
      } else {
        Pow2Monotone(11, 6 + b);
      }
    }
    PowerOfTwoPow2(LodExponent(lodBias));
  }

  /** The LOD as the source computes it, with `int` wrap-around in `lod * (1 << b)`. */
  function LodAsWritten(lodBias: real): (lod: int32)
    ensures lodBias <= 0.0 ==> lod == LodOf(lodBias)
  {
    var b := BiasShift(lodBias);
    if lodBias < 0.0 then
      DivAtMost(64, Pow2(b));
      var lod := 64 / Pow2(b);
      if lod < 2 then 2 else lod
    else if lodBias > 0.0 then
      var lod := WrapInt32(64 * Pow2(b));
      if lod > MaxDivisions then MaxDivisions else lod
    else 64
  }

  /** C's `/` on int, truncating toward zero, for a non-negative dividend. */
  function TruncDiv(x: nat, d: int): int
    requires d != 0
  {
    if d > 0 then x / d else -(x / -d)
  }

  /** As written, the layout divides by zero: `maxDivisions / lod` with lod 0, or
      `minStep / step` with step 0. */
  predicate DividesByZeroAsWritten(lodBias: real)
  {
    var lod := LodAsWritten(lodBias);
    lod == 0 || TruncDiv(MaxDivisions, lod) == 0
  }

  /** The overflow: as written, exactly the biases from 25 on divide by zero (at 25 the
      product wraps to INT_MIN, from 26 to 0); below 25 the source agrees with `LodOf`. */
  lemma {:induction false} LodBiasOverflow(lodBias: real)
    ensures DividesByZeroAsWritten(lodBias) <==> lodBias >= 25.0
    ensures lodBias < 25.0 ==> LodAsWritten(lodBias) == LodOf(lodBias)
  {
    var b := BiasShift(lodBias);
    if lodBias > 0.0 && b >= 25 {
      ProductWraps(b);
      if b == 25 {
        assert LodAsWritten(lodBias) == -0x8000_0000;
      }
    } else {
      if lodBias > 0.0 {
        ProductFits(b);
      }
      StepPositive(LodOf(lodBias));
    }
  }

  /** Up to a shift of 24, `64 * (1 << b)` fits in an int. */
  lemma {:induction false} ProductFits(b: nat)
    requires b <= 24
    ensures WrapInt32(64 * Pow2(b)) == 64 * Pow2(b)
  {
    Pow2Constants();
    Pow2Add(6, b);
    Pow2Monotone(6 + b, 30);
    assert Pow2(31) == 2 * Pow2(30);
    var x := 64 * Pow2(b) + 0x8000_0000;
    DivModUnique(x, 0x1_0000_0000, 0, x);
  }

  /** From a shift of 25 on, `64 * (1 << b)` wraps to INT_MIN (at 25) or to 0. */
  lemma {:induction false} ProductWraps(b: nat)
    requires 25 <= b <= 30
    ensures WrapInt32(64 * Pow2(b)) == if b == 25 then -0x8000_0000 else 0
  {
    Pow2Constants();
    Pow2Add(6, b);
    if b == 25 {
      assert 64 * Pow2(b) == 0x8000_0000;
    } else {
      Pow2Add(32, b - 26);
      var x := 64 * Pow2(b) + 0x8000_0000;
      assert x == 0x1_0000_0000 * Pow2(b - 26) + 0x8000_0000;
      DivModUnique(x, 0x1_0000_0000, Pow2(b - 26), 0x8000_0000);
    }
  }

  /** A LOD of at most maxDivisions leaves a step of at least 1. */
  lemma {:induction false} StepPositive(lod: int)
    requires 1 <= lod <= MaxDivisions
    ensures TruncDiv(MaxDivisions, lod) >= 1
  {
    DivModUnique(MaxDivisions, lod, MaxDivisions / lod, MaxDivisions % lod);
  }

  /** What `render` derives from the LOD: the grid step, the number of sections per axis,
      the angular extent of one section and its ring and slice counts. */
  datatype Layout = Layout(lod: int, step: int, split: int, thetaExtent: int, phiExtent: int,
                           nRings: int, nSlices: int)

  /** The relations between the layout's numbers: the step divides the full turn into lod
      parts, sections are split only when the step is below `MinStep`, `split * split`
      sections tile the sphere, a section's rings and slices divide it exactly, and the counts
      fit the buffers. */
  ghost predicate Consistent(l: Layout)
  {
    1 <= l.lod && 1 <= l.split && 1 <= l.thetaExtent && 1 <= l.phiExtent &&
    l.step * l.lod == MaxDivisions && 1 <= l.step <= PhiDivisions &&
    (if l.step < MinStep then l.split * l.step == MinStep else l.split == 1) &&
    l.split * l.thetaExtent == MaxDivisions && l.split * l.phiExtent == PhiDivisions &&
    l.thetaExtent == 2 * l.phiExtent &&
    l.nRings * l.step == l.phiExtent && l.nSlices * l.step == l.thetaExtent &&
    l.nSlices == 2 * l.nRings && 1 <= l.nRings <= MaxPhiSteps && l.nSlices <= MaxThetaSteps
  }

  /** A layout is determined by its LOD. */
  lemma {:induction false} LayoutDetermined(a: Layout, b: Layout)
    requires Consistent(a) && Consistent(b) && a.lod == b.lod
    ensures a == b
  {
    assert a.step == b.step by {
      ExactQuotient(MaxDivisions, a.lod, a.step);
      ExactQuotient(MaxDivisions, b.lod, b.step);
    }
    assert a.split == b.split by {
      if a.step < MinStep {
        ExactQuotient(MinStep, a.step, a.split);
        ExactQuotient(MinStep, b.step, b.split);
      }
    }
    ExactQuotient(MaxDivisions, a.split, a.thetaExtent);
    ExactQuotient(MaxDivisions, b.split, b.thetaExtent);
    ExactQuotient(a.phiExtent, a.step, a.nRings);
    ExactQuotient(b.phiExtent, b.step, b.nRings);
  }

  /** When q * d == x, x / d is q. */
  lemma {:induction false} ExactQuotient(x: int, d: int, q: int)
    requires d > 0 && q * d == x
    ensures x / d == q
  {
    DivModUnique(x, d, q, 0);
  }

  /** The step of LOD 2^k is 2^(11 - k). */
  lemma {:induction false} LodStep(k: nat)
    requires 1 <= k <= 11
    ensures MaxDivisions / Pow2(k) == Pow2(11 - k) && Pow2(11 - k) * Pow2(k) == MaxDivisions
    ensures Pow2(11 - k) <= PhiDivisions
  {
    Pow2Constants();
    Pow2Div(11, k);
    Pow2Add(11 - k, k);
    Pow2Monotone(11 - k, 10);
  }

  /** A step 2^s below `MinStep` splits the sphere into 2^(5 - s) sections per axis, each
      2^(6 + s) wide and 2^(5 + s) high: 64 slices and 32 rings. */
  lemma {:induction false} SplitLayout(s: nat)
    requires Pow2(s) < MinStep
    ensures s < 5
    ensures MinStep / Pow2(s) == Pow2(5 - s) && Pow2(5 - s) * Pow2(s) == MinStep
    ensures MaxDivisions / Pow2(5 - s) == Pow2(6 + s) && Pow2(5 - s) * Pow2(6 + s) == MaxDivisions
    ensures PhiDivisions / Pow2(5 - s) == Pow2(5 + s) && Pow2(5 - s) * Pow2(5 + s) == PhiDivisions
    ensures Pow2(6 + s) == 2 * Pow2(5 + s)
    ensures Pow2(5 + s) / Pow2(s) == 32 && 32 * Pow2(s) == Pow2(5 + s)
    ensures Pow2(6 + s) / Pow2(s) == 64 && 64 * Pow2(s) == Pow2(6 + s)
  {
    Pow2Constants();
    if s >= 5 {
      Pow2Monotone(5, s);
    }
    Pow2Div(5, s);
    Pow2Add(5 - s, s);
    Pow2Div(11, 5 - s);
    Pow2Add(5 - s, 6 + s);
    Pow2Div(10, 5 - s);
    Pow2Add(5 - s, 5 + s);
    Pow2Div(5 + s, s);
    Pow2Add(5, s);
    Pow2Div(6 + s, s);
    Pow2Add(6, s);
  }

  /** A step 2^s of at least `MinStep` draws the sphere as one section of 2^(10 - s) rings
      and 2^(11 - s) slices. */
  lemma {:induction false} WholeLayout(s: nat)
    requires s <= 10 && Pow2(s) >= MinStep
    ensures PhiDivisions / Pow2(s) == Pow2(10 - s) && Pow2(10 - s) * Pow2(s) == PhiDivisions
    ensures MaxDivisions / Pow2(s) == Pow2(11 - s) && Pow2(11 - s) * Pow2(s) == MaxDivisions
    ensures Pow2(11 - s) == 2 * Pow2(10 - s) && 1 <= Pow2(10 - s) <= MaxPhiSteps
  {
    Pow2Constants();
    assert 5 <= s;
    Pow2Div(10, s);
    Pow2Add(10 - s, s);
    Pow2Div(11, s);
    Pow2Add(11 - s, s);
    Pow2Monotone(10 - s, 5);
  }

  /** The bias clamp of both `render` overloads: 64 divided (negative bias) or multiplied
      (positive bias) by `1 << (int) bias`, with the bias limited to [-30, 30] and the result
      to [2, maxDivisions]. */
  method ClampLod(lodBias: real) returns (lod: int)
    ensures lod == LodOf(lodBias)
  {
    var bias := lodBias;
    lod := 64;
    if bias < 0.0 {
      if bias < -30.0 {
        bias := -30.0;
      }
      lod := lod / Pow2((-bias).Floor);
      if lod < 2 {
        lod := 2;
      }
    } else if bias > 0.0 {
      if bias > 30.0 {
        bias := 30.0;
      }
      lod := lod * Pow2(bias.Floor);
      if lod > MaxDivisions {
        lod := MaxDivisions;
      }
    }
  }

  /** The layout computation of both `render` overloads: the clamped LOD and the derived
      step, split, extents, ring and slice counts. */
  method ComputeLayout(lodBias: real) returns (layout: Layout)
    ensures layout.lod == LodOf(lodBias) && IsPowerOfTwo(layout.lod)
    ensures IsPowerOfTwo(layout.step)
    ensures Consistent(layout)
  {
    var lod := ClampLod(lodBias);
    LodIsPowerOfTwo(lodBias);
    ghost var k := LodExponent(lodBias);
    LodStep(k);
    ghost var s := 11 - k;
    PowerOfTwoPow2(s);

    var step := MaxDivisions / lod;
    var thetaExtent := MaxDivisions;
    var phiExtent := thetaExtent / 2;

    var split := 1;
    if step < MinStep {
      SplitLayout(s);
      split := MinStep / step;
      thetaExtent := thetaExtent / split;
      phiExtent := phiExtent / split;
    } else {
      WholeLayout(s);
    }

    var nRings := phiExtent / step;
    var nSlices := thetaExtent / step;
    layout := Layout(lod, step, split, thetaExtent, phiExtent, nRings, nSlices);
  }

  // ---------------------------------------------------------------------------
  // Index buffer

  /** Entry p of the index buffer for rows of w vertices: entry 2k is vertex k of the lower
      ring and entry 2k + 1 the vertex above it, w further on. */
  function IndexAt(p: int, w: int): int
  {
    if p % 2 == 0 then p / 2 else p / 2 + w
  }

  /** The pattern in the source's terms: with k = i * w + j, entry 2k is `i * w + j` and
      entry 2k + 1 is `(i + 1) * w + j`. */
  lemma {:induction false} IndexPattern(i: nat, j: nat, w: nat)
    ensures IndexAt(2 * (i * w + j), w) == i * w + j
    ensures IndexAt(2 * (i * w + j) + 1, w) == (i + 1) * w + j
  {
    assert (i + 1) * w == i * w + w;
  }

  /** Every vertex number in the first `2 * nRings * w` entries names a vertex of the
      `(nRings + 1) * w` vertices of a section. */
  lemma {:induction false} IndexBound(p: int, nRings: nat, w: nat)
    requires 0 <= p < 2 * nRings * w
    ensures 0 <= IndexAt(p, w) < (nRings + 1) * w
  {
    assert p / 2 < nRings * w;
    assert (nRings + 1) * w == nRings * w + w;
  }

  /** With at most `MaxPhiSteps` rings and `MaxThetaSteps` slices, the filled prefix fits the
      index buffer and every vertex number fits the vertex buffers and an unsigned short. */
  lemma {:induction false} IndicesFit(nRings: nat, nSlices: nat)
    requires nRings <= MaxPhiSteps && nSlices <= MaxThetaSteps
    ensures 0 <= 2 * nRings * (nSlices + 1) <= IndexCount
    ensures (nRings + 1) * (nSlices + 1) <= MaxVertices < 0x1_0000
  {
    MulMonotone(nSlices + 1, nRings, MaxPhiSteps);
    MulMonotone(MaxPhiSteps + 1, nSlices + 1, MaxThetaSteps + 1);
    MulMonotone(nSlices + 1, nRings + 1, MaxPhiSteps + 1);
  }

  // ---------------------------------------------------------------------------
  // Sections

  /** The side effects of one `glDrawElements` call: a quad strip of `count` indices starting
      at `offset` in the index buffer. */
  datatype Strip = Strip(offset: int, count: int)

  /** What one `renderSection` call did: its corner on the grid, how many vertices it wrote,
      the strips it drew, and what the vertex, texture coordinate and tangent buffers held
      up to that count when it drew them (no tangents when they were not asked for). */
  datatype Section = Section(phi0: int, theta0: int, vertexCount: int, strips: seq<Strip>,
                             vertexData: seq<real>, texData: seq<real>, tangentData: seq<real>)

  /** The first n triples of vals laid out flat, triple j at 3 * j, and nothing more. */
  predicate Triples(data: seq<real>, vals: seq<(real, real, real)>, n: int)
  {
    0 <= n <= |vals| && |data| == 3 * n &&
    forall j :: 0 <= j < n ==> data[3 * j] == vals[j].0 && data[3 * j + 1] == vals[j].1 && data[3 * j + 2] == vals[j].2
  }

  /** The first n pairs of vals laid out flat, pair j at 2 * j, and nothing more. */
  predicate Pairs(data: seq<real>, vals: seq<(real, real)>, n: int)
  {
    0 <= n <= |vals| && |data| == 2 * n &&
    forall j :: 0 <= j < n ==> data[2 * j] == vals[j].0 && data[2 * j + 1] == vals[j].1
  }

  /** A buffer holding n triples holds them in its first 3 * n entries. */
  lemma HeldTriples(a: array<real>, vals: seq<(real, real, real)>, n: int)
    requires Holds3(a, vals, n)
    ensures Triples(a[..3 * n], vals, n)
  {
  }

  /** A buffer holding n pairs holds them in its first 2 * n entries. */
  lemma HeldPairs(a: array<real>, vals: seq<(real, real)>, n: int)
    requires Holds2(a, vals, n)
    ensures Pairs(a[..2 * n], vals, n)
  {
  }

  /** The buffers a section's strips read hold the grid of that section's own corner: its
      positions and texture coordinates, and its tangents exactly when they were asked for. */
  predicate SectionData(s: Section, extent: int, step: int, tangents: bool, t: TrigValues)
    requires 1 <= step
  {
    var phis := SectionPhis(s.phi0, extent, step);
    var thetas := SectionThetas(s.theta0, extent, step);
    Triples(s.vertexData, Positions(t, phis, thetas), s.vertexCount) &&
    Pairs(s.texData, TexCoords(t, phis, thetas), s.vertexCount) &&
    if tangents then Triples(s.tangentData, Tangents(t, phis, thetas), s.vertexCount) else s.tangentData == []
  }

  /** The strips `renderSection` draws: ring i starts at `(nSlices + 1) * 2 * i`. */
  function StripsOf(nRings: nat, nSlices: int): (s: seq<Strip>)
    ensures |s| == nRings
  {
    if nRings == 0 then []
    else StripsOf(nRings - 1, nSlices) + [Strip((nSlices + 1) * 2 * (nRings - 1), (nSlices + 1) * 2)]
  }

  /** The draw loop of `renderSection`: one quad strip of `(nSlices + 1) * 2` indices per
      ring, ring i starting at `(nSlices + 1) * 2 * i`. */
  method DrawStrips(nRings: int, nSlices: int) returns (strips: seq<Strip>)
    requires nRings >= 0
    ensures strips == StripsOf(nRings, nSlices)
  {
    strips := [];
    var i := 0;
    while i < nRings
      invariant 0 <= i <= nRings && strips == StripsOf(i, nSlices)
    {
      strips := strips + [Strip((nSlices + 1) * 2 * i, (nSlices + 1) * 2)];
      i := i + 1;
    }
  }

  /** Strip k of a section reads the pairs of rings k and k + 1: it lies inside the
      `2 * nRings * (nSlices + 1)` entries `render` filled, and every vertex number it reads
      is below the section's vertex count. */
  lemma {:induction false} StripReadsValid(nRings: nat, nSlices: nat, k: nat, p: int)
    requires k < nRings
    requires StripsOf(nRings, nSlices)[k].offset <= p < StripsOf(nRings, nSlices)[k].offset + StripsOf(nRings, nSlices)[k].count
    ensures 0 <= p < 2 * nRings * (nSlices + 1)
    ensures 0 <= IndexAt(p, nSlices + 1) < (nRings + 1) * (nSlices + 1)
  {
    StripAt(nRings, nSlices, k);
    var w := nSlices + 1;
    assert w * 2 * k + w * 2 == 2 * (k + 1) * w;
    MulMonotone(2 * w, k + 1, nRings);
    assert 2 * (k + 1) * w <= 2 * nRings * w;
    IndexBound(p, nRings, w);
  }

  /** Strip k of `StripsOf`. */
  lemma {:induction false} StripAt(nRings: nat, nSlices: int, k: nat)
    requires k < nRings
    ensures StripsOf(nRings, nSlices)[k] == Strip((nSlices + 1) * 2 * k, (nSlices + 1) * 2)
  {
    if k < nRings - 1 {
      StripAt(nRings - 1, nSlices, k);
    }
  }

  /** The rings of a section: `phiExtent / step`, with `phiExtent = extent / 2`. */
  function SectionRings(extent: int, step: int): nat
    requires 0 <= extent && 1 <= step
  {
    extent / 2 / step
  }

  /** A section of extent `extent` and step `step` is a grid of `extent / 2 / step + 1` rows
      and `extent / step + 1` columns of vertices; with at most `MaxThetaSteps` slices it has
      at most `MaxPhiSteps` rings, so the grid fits the vertex buffers. */
  lemma {:induction false} SectionGrid(extent: int, step: int) returns (rows: nat, cols: nat)
    requires 0 <= extent && 1 <= step && extent / step <= MaxThetaSteps
    ensures rows == extent / 2 / step + 1 && cols == extent / step + 1
    ensures rows <= MaxPhiSteps + 1 && cols <= MaxThetaSteps + 1
    ensures rows * cols <= MaxVertices
  {
    DivDiv(extent, 2, step);
    DivDiv(extent, step, 2);
    assert 2 * step == step * 2;
    IndicesFit(extent / 2 / step, extent / step);
    rows, cols := extent / 2 / step + 1, extent / step + 1;
  }

  /** Section k of a row of split sections of extent e ends within `split * e`. */
  lemma {:induction false} SectionWithin(k: nat, split: nat, e: nat)
    requires k < split
    ensures 0 <= k * e && k * e + e <= split * e
  {
    MulMonotone(e, k + 1, split);
  }

  // ---------------------------------------------------------------------------
  // Which sections are drawn

  /** The corners of the sections drawn, in order. */
  function Origins(sections: seq<Section>): (o: seq<(int, int)>)
    ensures |o| == |sections|
  {
    if sections == [] then []
    else Origins(sections[..|sections| - 1]) + [(sections[|sections| - 1].phi0, sections[|sections| - 1].theta0)]
  }

  lemma {:induction false} OriginsAppend(sections: seq<Section>, s: Section)
    ensures Origins(sections + [s]) == Origins(sections) + [(s.phi0, s.theta0)]
  {
    assert (sections + [s])[..|sections|] == sections;
  }

  /** The first n sections of the row at phi0 that pass the visibility test, from left to
      right. */
  function RowOrigins(visible: (int, int) -> bool, phi0: int, thetaExtent: int, n: nat): seq<(int, int)>
  {
    if n == 0 then []
    else RowOrigins(visible, phi0, thetaExtent, n - 1) +
         (if visible(phi0, (n - 1) * thetaExtent) then [(phi0, (n - 1) * thetaExtent)] else [])
  }

  /** The visible sections of the first `rows` rows of a `split * split` grid, row by row. */
  function GridOrigins(visible: (int, int) -> bool, rows: nat, split: nat, phiExtent: int, thetaExtent: int)
    : seq<(int, int)>
  {
    if rows == 0 then []
    else GridOrigins(visible, rows - 1, split, phiExtent, thetaExtent) +
         RowOrigins(visible, (rows - 1) * phiExtent, thetaExtent, split)
  }

  /** The test of the unculled `render`: every section is drawn. */
  predicate Everywhere(phi0: int, theta0: int)
  {
    true
  }

  /** Without culling, the grid has `split * split` sections. */
  lemma {:induction false} GridSize(rows: nat, split: nat, phiExtent: int, thetaExtent: int)
    ensures |GridOrigins(Everywhere, rows, split, phiExtent, thetaExtent)| == rows * split
  {
    if rows > 0 {
      GridSize(rows - 1, split, phiExtent, thetaExtent);
      RowSize((rows - 1) * phiExtent, thetaExtent, split);
    }
  }

  lemma {:induction false} RowSize(phi0: int, thetaExtent: int, n: nat)
    ensures |RowOrigins(Everywhere, phi0, thetaExtent, n)| == n
  {
    if n > 0 {
      RowSize(phi0, thetaExtent, n - 1);
    }
  }

  /** Every section drawn has the layout's vertex count and strips, and its strips read the
      grid of its own corner, computed from the tables t. */
  predicate Drawn(sections: seq<Section>, l: Layout, attributes: Attributes, t: TrigValues)
  {
    0 <= l.nRings && 1 <= l.step && forall s :: s in sections ==> SectionDrawn(s, l, attributes, t)
  }

  /** One drawn section: the layout's vertex count and strips, reading its own corner's grid. */
  predicate SectionDrawn(s: Section, l: Layout, attributes: Attributes, t: TrigValues)
    requires 0 <= l.nRings && 1 <= l.step
  {
    s.vertexCount == (l.nRings + 1) * (l.nSlices + 1) && s.strips == StripsOf(l.nRings, l.nSlices) &&
    SectionData(s, l.thetaExtent, l.step, attributes.tangents, t)
  }

  /** Which attribute arrays a render call asks for (the bits of `attributes`). */
  datatype Attributes = Attributes(normals: bool, texCoords0: bool, tangents: bool)

  /** A sphere mesh: the vertex, normal, texture coordinate and tangent buffers, the index
      buffer, and the shared tables. */
  class Mesh {
    const trig: TrigTables
    const vertices: array<real>
    const normals: array<real>
    const texCoords: array<real>
    const tangents: array<real>
    const indices: array<uint16>

    ghost predicate Valid()
      reads this, trig
    {
      trig.Valid() && trig.initialized &&
      vertices.Length == 3 * MaxVertices && normals.Length == 3 * MaxVertices &&
      texCoords.Length == 2 * MaxVertices && tangents.Length == 3 * MaxVertices &&
      indices.Length == IndexCount &&
      vertices != normals && vertices != texCoords && vertices != tangents &&
      normals != texCoords && normals != tangents && texCoords != tangents &&
      Apart(vertices, trig) && Apart(texCoords, trig) && Apart(tangents, trig)
    }

    /** The first n entries of the index buffer hold the strip pattern for rows of w
      vertices. */
    ghost predicate IndicesFilled(n: int, w: int)
      reads indices
    {
      forall p :: 0 <= p < n && p < indices.Length ==> indices[p] == IndexAt(p, w)
    }

    /** From entry lo on, the index buffer equals s. */
    ghost predicate IndicesKept(s: seq<uint16>, lo: int)
      reads indices
    {
      forall p :: 0 <= p < indices.Length && p < |s| && lo <= p ==> indices[p] == s[p]
    }

    /** The constructor: fill the shared tables on first use, then allocate the buffers for
      `MaxVertices` vertices and `IndexCount` indices. */
    constructor(trig: TrigTables, sin: real -> real, cos: real -> real)
      requires trig.Valid()
      modifies trig
      ensures this.trig == trig && Valid()
      ensures old(trig.initialized) ==> unchanged(trig)
      ensures !old(trig.initialized) ==> trig.Holds(sin, cos)
      ensures fresh(vertices) && fresh(normals) && fresh(texCoords) && fresh(tangents) && fresh(indices)
    {
      if !trig.initialized {
        trig.Init(sin, cos);
      }
      this.trig := trig;
      vertices := new real[MaxVertices * 3];
      normals := new real[MaxVertices * 3];
      texCoords := new real[MaxVertices * 2];
      tangents := new real[MaxVertices * 3];
      indices := new uint16[MaxPhiSteps * 2 * (MaxThetaSteps + 1)];
    }

    /** The index fill of both `render` overloads: for each of nRings rings, the vertex pairs
      of its nSlices + 1 columns. */
    method FillIndices(nRings: int, nSlices: int)
      requires Valid()
      requires 0 <= nRings <= MaxPhiSteps && 0 <= nSlices <= MaxThetaSteps
      modifies indices
      ensures 2 * nRings * (nSlices + 1) <= indices.Length
      ensures IndicesFilled(2 * nRings * (nSlices + 1), nSlices + 1)
      ensures IndicesKept(old(indices[..]), 2 * nRings * (nSlices + 1))
    {
      IndicesFit(nRings, nSlices);
      ghost var filled := Times(nRings, nSlices + 1);
      assert 2 * filled == 2 * nRings * (nSlices + 1) by {
        TimesIsMul(nRings, nSlices + 1);
      }
      ghost var s0 := indices[..];
      var n2 := 0;
      var i := 0;
      while i < nRings
        invariant 0 <= i <= nRings
        invariant n2 == 2 * Times(i, nSlices + 1)
        invariant IndicesFilled(n2, nSlices + 1) && IndicesKept(s0, n2)
      {
        TimesMonotone(i + 1, nRings, nSlices + 1);
        n2 := FillRing(i, nSlices, n2, s0);
        i := i + 1;
      }
    }

    /** Ring i of the index fill: for each of the nSlices + 1 columns j, vertex
      `i * (nSlices + 1) + j` of the ring and vertex `(i + 1) * (nSlices + 1) + j` above it. */
    method FillRing(i: int, nSlices: int, n2in: int, ghost s0: seq<uint16>) returns (n2: int)
      requires 0 <= i < MaxPhiSteps && 0 <= nSlices <= MaxThetaSteps
      requires n2in == 2 * Times(i, nSlices + 1) && n2in + 2 * (nSlices + 1) <= indices.Length
      requires IndicesFilled(n2in, nSlices + 1) && IndicesKept(s0, n2in)
      modifies indices
      ensures n2 == 2 * Times(i + 1, nSlices + 1)
      ensures IndicesFilled(n2, nSlices + 1) && IndicesKept(s0, n2)
    {
      TimesIsMul(i, nSlices + 1);
      var ring := i * (nSlices + 1);
      var above := (i + 1) * (nSlices + 1);
      assert above == ring + nSlices + 1;
      MulMonotone(nSlices + 1, i + 1, MaxPhiSteps);
      MulMonotone(MaxPhiSteps, nSlices + 1, MaxThetaSteps + 1);
      n2 := n2in;
      var j := 0;
      while j <= nSlices
        invariant 0 <= j <= nSlices + 1
        invariant n2 == 2 * (ring + j)
        invariant IndicesFilled(n2, nSlices + 1) && IndicesKept(s0, n2)
      {
        indices[n2 + 0] := ring + j;
        indices[n2 + 1] := above + j;
        n2 := n2 + 2;
        j := j + 1;
      }
    }

    /** `renderSection`: write the grid of vertices of the section with corner (phi0, theta0),
      `extent / 2` high and `extent` wide, row by row, then draw its rings as quad strips. */
    method RenderSection(phi0: int, theta0: int, extent: int, step: int, attributes: Attributes)
      returns (section: Section)
      requires Valid()
      requires 0 <= phi0 && 0 <= theta0 && 0 <= extent && 1 <= step
      requires phi0 + extent / 2 <= PhiDivisions && theta0 + extent <= ThetaDivisions
      requires extent / step <= MaxThetaSteps
      modifies vertices, texCoords, tangents
      ensures section.phi0 == phi0 && section.theta0 == theta0
      ensures section.vertexCount == SectionCount(extent, step) && section.strips == StripsOf(SectionRings(extent, step), extent / step)
      ensures 0 <= section.vertexCount <= MaxVertices
      ensures section.vertexData == vertices[..3 * section.vertexCount]
      ensures section.texData == texCoords[..2 * section.vertexCount]
      ensures section.tangentData == if attributes.tangents then tangents[..3 * section.vertexCount] else []
      ensures SectionData(section, extent, step, attributes.tangents, trig.Values())
      ensures Holds3(vertices, Positions(trig.Values(), SectionPhis(phi0, extent, step), SectionThetas(theta0, extent, step)),
                     section.vertexCount)
      ensures Holds2(texCoords, TexCoords(trig.Values(), SectionPhis(phi0, extent, step), SectionThetas(theta0, extent, step)),
                     section.vertexCount)
      ensures Beyond(vertices, old(vertices[..]), 3 * section.vertexCount)
      ensures Beyond(texCoords, old(texCoords[..]), 2 * section.vertexCount)
      ensures attributes.tangents ==>
                Holds3(tangents, Tangents(trig.Values(), SectionPhis(phi0, extent, step), SectionThetas(theta0, extent, step)),
                       section.vertexCount) &&
                Beyond(tangents, old(tangents[..]), 3 * section.vertexCount)
      ensures !attributes.tangents ==> Beyond(tangents, old(tangents[..]), 0) && unchanged(tangents)
    {
      var thetaExtent := extent;
      var phiExtent := extent / 2;
      ghost var rows, cols := SectionGrid(extent, step);
      WriteGrid(vertices, texCoords, tangents, trig, phi0, theta0, extent, step, attributes.tangents);

      var nRings := phiExtent / step;
      var nSlices := thetaExtent / step;
      var strips := DrawStrips(nRings, nSlices);
      section := RecordSection(phi0, theta0, extent, step, attributes.tangents, strips);
    }

    /** What a section hands to its strips: its corner, vertex count and strips, and the
      buffers up to its vertex count, which hold the grid just written. */
    method RecordSection(phi0: int, theta0: int, extent: int, step: int, tangentsAsked: bool, strips: seq<Strip>)
      returns (section: Section)
      requires Valid() && 1 <= step && 0 <= SectionCount(extent, step) <= MaxVertices
      requires Holds3(vertices, Positions(trig.Values(), SectionPhis(phi0, extent, step), SectionThetas(theta0, extent, step)),
                      SectionCount(extent, step))
      requires Holds2(texCoords, TexCoords(trig.Values(), SectionPhis(phi0, extent, step), SectionThetas(theta0, extent, step)),
                      SectionCount(extent, step))
      requires tangentsAsked ==>
                 Holds3(tangents, Tangents(trig.Values(), SectionPhis(phi0, extent, step), SectionThetas(theta0, extent, step)),
                        SectionCount(extent, step))
      ensures section.phi0 == phi0 && section.theta0 == theta0
      ensures section.vertexCount == SectionCount(extent, step) && section.strips == strips
      ensures section.vertexData == vertices[..3 * section.vertexCount]
      ensures section.texData == texCoords[..2 * section.vertexCount]
      ensures section.tangentData == if tangentsAsked then tangents[..3 * section.vertexCount] else []
      ensures SectionData(section, extent, step, tangentsAsked, trig.Values())
    {
      var n := SectionCount(extent, step);
      ghost var t := trig.Values();
      ghost var phis, thetas := SectionPhis(phi0, extent, step), SectionThetas(theta0, extent, step);
      HeldTriples(vertices, Positions(t, phis, thetas), n);
      HeldPairs(texCoords, TexCoords(t, phis, thetas), n);
      var tangentData := [];
      if tangentsAsked {
        HeldTriples(tangents, Tangents(t, phis, thetas), n);
        tangentData := tangents[..3 * n];
      }
      section := Section(phi0, theta0, n, strips, vertices[..3 * n], texCoords[..2 * n], tangentData);
    }

    /** Row phi of the section loops of both `render` overloads: the sections at theta
      0 to split - 1, each drawn when `inView` admits its corner. */
    method DrawRow(layout: Layout, attributes: Attributes, inView: (int, int) -> bool, phi: int,
                   before: seq<Section>)
      returns (sections: seq<Section>)
      requires Valid() && CoversTables(layout) && 0 <= phi < layout.split
      requires Drawn(before, layout, attributes, trig.Values())
      modifies vertices, texCoords, tangents
      ensures Origins(sections) ==
                Origins(before) + RowOrigins(inView, phi * layout.phiExtent, layout.thetaExtent, layout.split)
      ensures Drawn(sections, layout, attributes, trig.Values())
      ensures !attributes.tangents ==> unchanged(tangents)
    {
      sections := before;
      var theta := 0;
      while theta < layout.split
        invariant 0 <= theta <= layout.split
        invariant Origins(sections) == Origins(before) + RowOrigins(inView, phi * layout.phiExtent, layout.thetaExtent, theta)
        invariant Drawn(sections, layout, attributes, trig.Values())
        invariant !attributes.tangents ==> unchanged(tangents)
      {
        ghost var sofar := sections;
        sections := DrawSection(layout, attributes, inView, phi, theta, sections);
        assert Origins(sections) == Origins(before) + RowOrigins(inView, phi * layout.phiExtent, layout.thetaExtent, theta + 1) by {
          assert Origins(before) + RowOrigins(inView, phi * layout.phiExtent, layout.thetaExtent, theta) == Origins(sofar);
        }
        theta := theta + 1;
      }
    }

    /** The body of the section loops: section (phi, theta) is drawn, and appended to the
      sections drawn before, exactly when `inView` admits its corner. */
    method DrawSection(layout: Layout, attributes: Attributes, inView: (int, int) -> bool, phi: int, theta: int,
                       before: seq<Section>)
      returns (sections: seq<Section>)
      requires Valid() && CoversTables(layout) && 0 <= phi < layout.split && 0 <= theta < layout.split
      requires Drawn(before, layout, attributes, trig.Values())
      modifies vertices, texCoords, tangents
      ensures Origins(sections) ==
                Origins(before) +
                (if inView(phi * layout.phiExtent, theta * layout.thetaExtent)
                 then [(phi * layout.phiExtent, theta * layout.thetaExtent)] else [])
      ensures Drawn(sections, layout, attributes, trig.Values())
      ensures !attributes.tangents ==> unchanged(tangents)
    {
      var phi0 := phi * layout.phiExtent;
      var theta0 := theta * layout.thetaExtent;
      sections := before;
      if inView(phi0, theta0) {
        SectionWithin(phi, layout.split, layout.phiExtent);
        SectionWithin(theta, layout.split, layout.thetaExtent);
        var section := RenderSection(phi0, theta0, layout.thetaExtent, layout.step, attributes);
        OriginsAppend(sections, section);
        sections := sections + [section];
      }
    }

    /** The section loops of both `render` overloads: the `split * split` sections row by
      row, each drawn when `inView` admits its corner (always, for the unculled overload). */
    method DrawSections(layout: Layout, attributes: Attributes, inView: (int, int) -> bool)
      returns (sections: seq<Section>)
      requires Valid() && CoversTables(layout)
      modifies vertices, texCoords, tangents
      ensures Origins(sections) == GridOrigins(inView, layout.split, layout.split, layout.phiExtent, layout.thetaExtent)
      ensures Drawn(sections, layout, attributes, trig.Values())
      ensures !attributes.tangents ==> unchanged(tangents)
    {
      sections := [];
      var phi := 0;
      while phi < layout.split
        invariant 0 <= phi <= layout.split
        invariant Origins(sections) == GridOrigins(inView, phi, layout.split, layout.phiExtent, layout.thetaExtent)
        invariant Drawn(sections, layout, attributes, trig.Values())
        invariant !attributes.tangents ==> unchanged(tangents)
      {
        sections := DrawRow(layout, attributes, inView, phi, sections);
        phi := phi + 1;
      }
    }

    /** `render(attributes, lodBias)`: compute the layout, fill the index buffer, then draw
      all `split * split` sections. */
    method Render(attributes: Attributes, lodBias: real) returns (layout: Layout, sections: seq<Section>)
      requires Valid()
      modifies indices, vertices, texCoords, tangents
      ensures layout.lod == LodOf(lodBias) && Consistent(layout)
      ensures 0 <= 2 * layout.nRings * (layout.nSlices + 1) <= IndexCount
      ensures IndicesFilled(2 * layout.nRings * (layout.nSlices + 1), layout.nSlices + 1)
      ensures IndicesKept(old(indices[..]), 2 * layout.nRings * (layout.nSlices + 1))
      ensures Origins(sections) == GridOrigins(Everywhere, layout.split, layout.split, layout.phiExtent, layout.thetaExtent)
      ensures Drawn(sections, layout, attributes, trig.Values())
      ensures !attributes.tangents ==> unchanged(tangents)
    {
      layout := ComputeLayout(lodBias);
      IndicesFit(layout.nRings, layout.nSlices);
      FillIndices(layout.nRings, layout.nSlices);
      ConsistentCovers(layout);
      sections := DrawSections(layout, attributes, Everywhere);
    }

    /** `render(lod)`: render with normals and texture coordinates. */
    method RenderDefault(lodBias: real) returns (layout: Layout, sections: seq<Section>)
      requires Valid()
      modifies indices, vertices, texCoords, tangents
      ensures layout.lod == LodOf(lodBias) && Consistent(layout)
      ensures 0 <= 2 * layout.nRings * (layout.nSlices + 1) <= IndexCount
      ensures IndicesFilled(2 * layout.nRings * (layout.nSlices + 1), layout.nSlices + 1)
      ensures IndicesKept(old(indices[..]), 2 * layout.nRings * (layout.nSlices + 1))
      ensures Origins(sections) == GridOrigins(Everywhere, layout.split, layout.split, layout.phiExtent, layout.thetaExtent)
      ensures |sections| == layout.split * layout.split
      ensures Drawn(sections, layout, Attributes(true, true, false), trig.Values())
      ensures unchanged(tangents)
    {
      layout, sections := Render(Attributes(true, true, false), lodBias);
      GridSize(layout.split, layout.split, layout.phiExtent, layout.thetaExtent);
    }

    /** `render(attributes, frustum, lodBias)`: as `Render`, except that when the sphere is
      split, a section is drawn only if `inView` (the frustum test on its corners) says it
      may be visible. */
    method RenderCulled(attributes: Attributes, inView: (int, int) -> bool, lodBias: real)
      returns (layout: Layout, sections: seq<Section>)
      requires Valid()
      modifies indices, vertices, texCoords, tangents
      ensures layout.lod == LodOf(lodBias) && Consistent(layout)
      ensures 0 <= 2 * layout.nRings * (layout.nSlices + 1) <= IndexCount
      ensures IndicesFilled(2 * layout.nRings * (layout.nSlices + 1), layout.nSlices + 1)
      ensures IndicesKept(old(indices[..]), 2 * layout.nRings * (layout.nSlices + 1))
      ensures layout.split == 1 ==> Origins(sections) == [(0, 0)]
      ensures layout.split != 1 ==>
                Origins(sections) == GridOrigins(inView, layout.split, layout.split, layout.phiExtent, layout.thetaExtent)
      ensures Drawn(sections, layout, attributes, trig.Values())
      ensures !attributes.tangents ==> unchanged(tangents)
    {
      layout := ComputeLayout(lodBias);
      IndicesFit(layout.nRings, layout.nSlices);
      FillIndices(layout.nRings, layout.nSlices);
      ConsistentCovers(layout);
      if layout.split == 1 {
        sections := DrawSection(layout, attributes, Everywhere, 0, 0, []);
      } else {
        sections := DrawSections(layout, attributes, inView);
      }
    }
  }

  /** What the section loops need of a layout: `split * split` sections of its extents tile
    the tables, and `renderSection`'s own ring and slice counts, recomputed from the extent,
    are the layout's and fit the buffers. */
  predicate CoversTables(l: Layout)
  {
    1 <= l.step && 0 <= l.split && 0 <= l.phiExtent && 0 <= l.thetaExtent &&
    l.split * l.phiExtent == PhiDivisions && l.split * l.thetaExtent == ThetaDivisions &&
    l.thetaExtent / 2 == l.phiExtent && l.thetaExtent / l.step == l.nSlices && l.thetaExtent / 2 / l.step == l.nRings &&
    0 <= l.nRings && l.nSlices <= MaxThetaSteps
  }

  lemma {:induction false} ConsistentCovers(l: Layout)
    requires Consistent(l)
    ensures CoversTables(l)
  {
    SectionArguments(l);
  }

  /** In a consistent layout, `renderSection`'s own ring and slice counts, recomputed from the
      extent, are the caller's. */
  lemma {:induction false} SectionArguments(l: Layout)
    requires Consistent(l)
    ensures l.thetaExtent / 2 == l.phiExtent && l.phiExtent >= 0 && l.thetaExtent >= 0
    ensures l.thetaExtent / l.step == l.nSlices && l.thetaExtent / 2 / l.step == l.nRings
  {
    ExactQuotient(l.thetaExtent, l.step, l.nSlices);
    ExactQuotient(l.phiExtent, l.step, l.nRings);
  }
}
