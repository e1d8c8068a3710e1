/** The fixed-layout batch encoding: where every field of every row lives, and that reading finds it there. */
module Collator {
  import opened Basics
  import opened LittleEndian

  // ---- the layout --------------------------------------------------------------------------

  datatype Dims = Dims(b: u32, n: u32, e: u32, a: u32, s: u32, d: u32)

  const HEADER_LEN: nat := 68
  const SECTIONS: nat := 25

  /** Sections in the order they are laid out. A state has seven, starting at 0 or at `OPPONENT`; 16 is reserved. */
  const ACTION_COUNT: nat := 7
  const ACTION_KIND: nat := 8
  const ACTION_PRIOR: nat := 9
  const SUBJECT_COUNT: nat := 10
  const ACTION_SUBJECTS: nat := 11
  const POSITION: nat := 12
  const OPPONENT_REWARD: nat := 13
  const OPPONENT_PRESENT: nat := 14
  const OPPONENT_STATE_PRESENT: nat := 15
  const OPPONENT: nat := 17
  const OPPONENT_POSITION: nat := 24

  /** Bytes per element. */
  function Width(k: nat): (w: nat)
    ensures w == 1 || w == 2 || w == 4
  {
    match k
    case 0 => 4 case 1 => 2 case 2 => 2 case 3 => 4 case 4 => 4 case 5 => 4 case 6 => 1
    case 7 => 4 case 8 => 2 case 9 => 2 case 10 => 1 case 11 => 4
    case 12 => 2 case 13 => 2
    case 17 => 4 case 18 => 2 case 19 => 2 case 20 => 4 case 21 => 4 case 22 => 4 case 23 => 1
    case 24 => 2
    case _ => 1
  }

  /** Elements per row. */
  function Stride(m: Dims, k: nat): nat
  {
    match k
    case 0 => 1 case 1 => m.n case 2 => m.n * m.d case 3 => 1 case 4 => m.e case 5 => m.e case 6 => m.e
    case 7 => 1 case 8 => m.a case 9 => m.a case 10 => m.a case 11 => m.a * m.s
    case 12 => 4
    case 16 => 12
    case 17 => 1 case 18 => m.n case 19 => m.n * m.d case 20 => 1 case 21 => m.e case 22 => m.e case 23 => m.e
    case 24 => 4
    case _ => 1
  }

  function Len(m: Dims, k: nat): nat
  {
    m.b * Stride(m, k) * Width(k)
  }

  function Align4(x: nat): (r: nat)
    ensures x <= r < x + 4 && r % 4 == 0
  {
    (x + 3) / 4 * 4
  }

  /** Where section `k` starts: `section` advances an aligned cursor past each section in turn. */
  function Offset(m: Dims, k: nat): nat
  {
    if k == 0 then Align4(HEADER_LEN) else Align4(Offset(m, k - 1) + Len(m, k - 1))
  }

  function TotalLen(m: Dims): nat
  {
    Offset(m, SECTIONS)
  }

  /** Sections start on multiples of four, after the header, one after another and inside the buffer. */
  lemma {:induction false} SectionsApart(m: Dims, j: nat, k: nat)
    requires j < k
    ensures Offset(m, j) + Len(m, j) <= Offset(m, k) && Offset(m, j) % 4 == 0 && Offset(m, j) >= HEADER_LEN
  {
    hide Len;
    if j + 1 < k {
      SectionsApart(m, j, k - 1);
    } else if j > 0 {
      SectionsApart(m, j - 1, j);
    }
  }

  /** The bytes of one row in the first `k` sections. */
  function RowBytes(m: Dims, k: nat): nat
  {
    if k == 0 then 0 else RowBytes(m, k - 1) + Stride(m, k - 1) * Width(k - 1)
  }

  lemma Distribute(b: nat, row: nat, stride: nat, width: nat)
    ensures b * (row + stride * width) == b * row + b * stride * width
  {
  }

  lemma {:induction false} OffsetBounds(m: Dims, k: nat)
    ensures HEADER_LEN + m.b * RowBytes(m, k) <= Offset(m, k) <= HEADER_LEN + m.b * RowBytes(m, k) + 3 * k
  {
    hide Stride, Width;
    if k > 0 {
      OffsetBounds(m, k - 1);
      Distribute(m.b, RowBytes(m, k - 1), Stride(m, k - 1), Width(k - 1));
    }
  }

  lemma StateBytes(m: Dims, k: nat)
    requires k == 0 || k == OPPONENT
    ensures RowBytes(m, k + 7) == RowBytes(m, k) + 8 + 2 * m.n + 2 * (m.n * m.d) + 9 * m.e
  {
    assert RowBytes(m, k + 1) == RowBytes(m, k) + 4;
    assert RowBytes(m, k + 2) == RowBytes(m, k + 1) + 2 * m.n;
    assert RowBytes(m, k + 3) == RowBytes(m, k + 2) + 2 * (m.n * m.d);
    assert RowBytes(m, k + 4) == RowBytes(m, k + 3) + 4;
    assert RowBytes(m, k + 5) == RowBytes(m, k + 4) + 4 * m.e;
    assert RowBytes(m, k + 6) == RowBytes(m, k + 5) + 4 * m.e;
  }

  lemma ActionBytes(m: Dims)
    ensures RowBytes(m, OPPONENT) == RowBytes(m, 7) + 28 + 5 * m.a + 4 * (m.a * m.s)
  {
    assert RowBytes(m, 8) == RowBytes(m, 7) + 4;
    assert RowBytes(m, 9) == RowBytes(m, 8) + 2 * m.a;
    assert RowBytes(m, 10) == RowBytes(m, 9) + 2 * m.a;
    assert RowBytes(m, 11) == RowBytes(m, 10) + m.a;
    assert RowBytes(m, 12) == RowBytes(m, 11) + 4 * (m.a * m.s);
    assert RowBytes(m, 13) == RowBytes(m, 12) + 8;
    assert RowBytes(m, 14) == RowBytes(m, 13) + 2;
    assert RowBytes(m, 15) == RowBytes(m, 14) + 1;
    assert RowBytes(m, 16) == RowBytes(m, 15) + 1;
  }

  /** A batch in closed form: the header, the bytes of its rows, and at most three bytes of padding per section. */
  lemma BatchSize(m: Dims)
    ensures var row := 52 + 4 * m.n + 4 * (m.n * m.d) + 18 * m.e + 5 * m.a + 4 * (m.a * m.s);
            68 + m.b * row <= TotalLen(m) <= 68 + m.b * row + 75
  {
    hide Offset;
    StateBytes(m, 0);
    ActionBytes(m);
    StateBytes(m, OPPONENT);
    assert RowBytes(m, 25) == RowBytes(m, 24) + 8;
    OffsetBounds(m, SECTIONS);
  }

  /** Element `j` of row `r` in section `k`. */
  predicate InBounds(m: Dims, k: nat, r: nat, j: nat)
  {
    k < SECTIONS && r < m.b && j < Stride(m, k)
  }

  function Index(m: Dims, k: nat, r: nat, j: nat): nat
  {
    r * Stride(m, k) + j
  }

  function At(m: Dims, k: nat, r: nat, j: nat): nat
  {
    Offset(m, k) + Index(m, k, r, j) * Width(k)
  }

  lemma RowsFit(stride: nat, rows: nat, r: nat, j: nat)
    requires r < rows && j < stride
    ensures r * stride + j < rows * stride
  {
    assert (r + 1) * stride <= rows * stride by { Monotone(r + 1, rows, stride); }
    assert (r + 1) * stride == r * stride + stride;
  }

  lemma {:induction false} Monotone(x: nat, y: nat, z: nat)
    requires x <= y
    ensures x * z <= y * z
  {
    assert y * z == x * z + (y - x) * z;
  }

  /** Elements lie inside their section. */
  lemma InSection(m: Dims, k: nat, r: nat, j: nat)
    requires InBounds(m, k, r, j)
    ensures At(m, k, r, j) + Width(k) <= Offset(m, k) + Len(m, k) <= TotalLen(m)
    ensures HEADER_LEN <= Offset(m, k) <= At(m, k, r, j)
  {
    hide Offset, Stride, Width;
    SectionsApart(m, k, SECTIONS);
    RowsFit(Stride(m, k), m.b, r, j);
    Monotone(Index(m, k, r, j) + 1, m.b * Stride(m, k), Width(k));
  }

  lemma IndexInjective(stride: nat, r: nat, j: nat, r': nat, j': nat)
    requires j < stride && j' < stride && (r != r' || j != j')
    ensures r * stride + j != r' * stride + j'
  {
    if r < r' { RowsFit(stride, r', r, j); } else if r' < r { RowsFit(stride, r, r', j'); }
  }

  /** No two elements share a byte. */
  lemma ElementsApart(m: Dims, k: nat, r: nat, j: nat, k': nat, r': nat, j': nat)
    requires InBounds(m, k, r, j) && InBounds(m, k', r', j') && (k != k' || r != r' || j != j')
    ensures At(m, k, r, j) + Width(k) <= At(m, k', r', j') || At(m, k', r', j') + Width(k') <= At(m, k, r, j)
  {
    hide Offset, Stride, Width, Len;
    InSection(m, k, r, j);
    InSection(m, k', r', j');
    if k < k' {
      SectionsApart(m, k, k');
    } else if k' < k {
      SectionsApart(m, k', k);
    } else {
      IndexInjective(Stride(m, k), r, j, r', j');
      var x, y := Index(m, k, r, j), Index(m, k, r', j');
      if x < y { Monotone(x + 1, y, Width(k)); } else { Monotone(y + 1, x, Width(k)); }
    }
  }

  // ---- reading and writing elements --------------------------------------------------------

  /** The element stored at a place of a buffer. */
  function Value(m: Dims, buf: Bytes, k: nat, r: nat, j: nat): nat
    requires |buf| == TotalLen(m) && InBounds(m, k, r, j)
  {
    InSection(m, k, r, j);
    Decode(buf[At(m, k, r, j)..At(m, k, r, j) + Width(k)])
  }

  ghost function Splice(buf: Bytes, off: nat, bytes: Bytes): (r: Bytes)
    requires off + |bytes| <= |buf|
    ensures |r| == |buf|
  {
    buf[..off] + bytes + buf[off + |bytes|..]
  }

  lemma SpliceSame(buf: Bytes, off: nat, bytes: Bytes)
    requires off + |bytes| <= |buf|
    ensures Splice(buf, off, bytes)[off..off + |bytes|] == bytes
  {
  }

  lemma SpliceOther(buf: Bytes, off: nat, bytes: Bytes, at: nat, w: nat)
    requires off + |bytes| <= |buf| && at + w <= |buf| && (at + w <= off || off + |bytes| <= at)
    ensures Splice(buf, off, bytes)[at..at + w] == buf[at..at + w]
  {
  }

  /** What a place holds after `values` were written to row `r` of section `k` from element `from` on. */
  function Overlaid(m: Dims, buf: Bytes, k: nat, r: nat, from: nat, values: seq<nat>, k': nat, r': nat, j': nat): nat
    requires |buf| == TotalLen(m) && InBounds(m, k', r', j')
  {
    if k' == k && r' == r && from <= j' < from + |values| then values[j' - from] else Value(m, buf, k', r', j')
  }

  /** The new buffer holds `values` there, and every other element and the header are as before. */
  ghost predicate Wrote(m: Dims, buf: Bytes, buf': Bytes, k: nat, r: nat, from: nat, values: seq<nat>)
  {
    && |buf| == |buf'| == TotalLen(m) && HEADER_LEN <= |buf| && buf'[..HEADER_LEN] == buf[..HEADER_LEN]
    && forall k', r', j' :: InBounds(m, k', r', j') ==>
         Value(m, buf', k', r', j') == Overlaid(m, buf, k, r, from, values, k', r', j')
  }

  lemma WriteElement(m: Dims, buf: Bytes, k: nat, r: nat, j: nat, v: nat)
    requires |buf| == TotalLen(m) && InBounds(m, k, r, j) && v < Pow256(Width(k))
    ensures At(m, k, r, j) + Width(k) <= |buf|
    ensures Wrote(m, buf, Splice(buf, At(m, k, r, j), Encode(v, Width(k))), k, r, j, [v])
  {
    hide Offset, Stride, Width, TotalLen, Encode, Decode, At, InBounds, Pow256, Splice;
    InSection(m, k, r, j);
    var off, bytes := At(m, k, r, j), Encode(v, Width(k));
    SpliceSame(buf, off, bytes);
    EncodeRoundTrip(v, Width(k));
    forall k', r', j' | InBounds(m, k', r', j')
      ensures Value(m, Splice(buf, off, bytes), k', r', j') == Overlaid(m, buf, k, r, j, [v], k', r', j')
    {
      if k != k' || r != r' || j != j' {
        InSection(m, k', r', j');
        ElementsApart(m, k, r, j, k', r', j');
        SpliceOther(buf, off, bytes, At(m, k', r', j'), Width(k'));
      }
    }
    SpliceOther(buf, off, bytes, 0, HEADER_LEN);
  }

  lemma WroteMore(m: Dims, a: Bytes, b: Bytes, c: Bytes, k: nat, r: nat, from: nat, values: seq<nat>, i: nat)
    requires i < |values| && Wrote(m, a, b, k, r, from, values[..i]) && Wrote(m, b, c, k, r, from + i, [values[i]])
    ensures Wrote(m, a, c, k, r, from, values[..i + 1])
  {
    hide Value, InBounds, TotalLen;
    forall k', r', j' | InBounds(m, k', r', j')
      ensures Value(m, c, k', r', j') == Overlaid(m, a, k, r, from, values[..i + 1], k', r', j')
    {
      assert Value(m, c, k', r', j') == Overlaid(m, b, k, r, from + i, [values[i]], k', r', j');
      assert Value(m, b, k', r', j') == Overlaid(m, a, k, r, from, values[..i], k', r', j');
    }
  }

  lemma WroteNothing(m: Dims, a: Bytes, k: nat, r: nat, from: nat)
    requires |a| == TotalLen(m)
    ensures Wrote(m, a, a, k, r, from, [])
  {
    hide Value, InBounds;
    SectionsApart(m, 0, SECTIONS);
  }

  predicate AllBelow(values: seq<nat>, bound: nat)
  {
    forall i :: 0 <= i < |values| ==> values[i] < bound
  }

  /** Write bytes in place. */
  method Put(out: array<u8>, off: nat, bytes: Bytes)
    requires off + |bytes| <= out.Length
    modifies out
    ensures out[..] == Splice(old(out[..]), off, bytes)
  {
    for i := 0 to |bytes|
      invariant out[..off] == old(out[..off]) && out[off + i..] == old(out[off + i..])
      invariant out[off..off + i] == bytes[..i]
    {
      out[off + i] := bytes[i];
    }
    assert out[..] == out[..off] + out[off..off + |bytes|] + out[off + |bytes|..];
  }

  /** One field of one row: consecutive elements of one section. */
  method WriteField(out: array<u8>, m: Dims, k: nat, r: nat, from: nat, values: seq<nat>)
    requires out.Length == TotalLen(m) && k < SECTIONS && r < m.b && from + |values| <= Stride(m, k)
    requires AllBelow(values, Pow256(Width(k)))
    modifies out
    ensures Wrote(m, old(out[..]), out[..], k, r, from, values)
  {
    hide Offset, Stride, Width, TotalLen, Encode, Pow256, Splice, Wrote;
    WroteNothing(m, out[..], k, r, from);
    assert values[..0] == [];
    for i := 0 to |values|
      invariant Wrote(m, old(out[..]), out[..], k, r, from, values[..i])
    {
      ghost var before := out[..];
      WriteElement(m, before, k, r, from + i, values[i]);
      Put(out, At(m, k, r, from + i), Encode(values[i], Width(k)));
      WroteMore(m, old(out[..]), before, out[..], k, r, from, values, i);
    }
    assert values[..|values|] == values;
  }

  // ---- rows --------------------------------------------------------------------------------

  /** A 32-bit float is given by its bit pattern. */
  type Float = u32

  /** `f32_to_bf16_bits`: the upper half of the pattern, after adding just enough to round the lower half. */
  function Rounded(f: Float): u16
  {
    ((f + 0x7FFF + (f / 0x1_0000) % 2) % 0x1_0000_0000) / 0x1_0000
  }

  /** `bf16_bits_to_f32`. */
  function Widened(half: u16): Float
  {
    half * 0x1_0000
  }

  /**
   * Rounding finds the nearest pattern with an empty lower half, the even one of two, unless the sum wraps,
   * which happens only for patterns that are not numbers; and what is rounded stays as it is.
   */
  lemma RoundedNearest(f: Float, half: u16)
    ensures Rounded(Widened(half)) == half
    ensures f < 0xFFFF_8000 ==>
              && -0x8000 <= Widened(Rounded(f)) - f <= 0x8000
              && (Widened(Rounded(f)) - f == 0x8000 || f - Widened(Rounded(f)) == 0x8000 ==> Rounded(f) % 2 == 0)
    ensures f >= 0xFFFF_8000 ==> f % 0x8000_0000 > 0x7F80_0000
  {
    var high, low := f / 0x1_0000, f % 0x1_0000;
    assert f == 0x1_0000 * high + low;
  }

  const NO_SUBJECT: nat := 0xFFFF_FFFF

  datatype Edge = Edge(src: u32, dst: u32, kind: u8)
  datatype Action = Action(kind: u32, prior: Float, subjects: seq<u32>)
  datatype Position = Position(rootStep: Float, leafDepth: Float, budgetFraction: Float, budgetStep: Float)
  datatype Side = Side(nodeCount: u32, tokens: seq<u16>, attrs: seq<Float>, edges: seq<Edge>, position: Position)
  datatype Row = Row(own: Side, actions: seq<Action>, opponentReward: Float, opponentPresent: bool,
                     opponent: Option<Side>)

  predicate SideFits(m: Dims, x: Side)
  {
    && |x.tokens| == x.nodeCount <= m.n && |x.attrs| == x.nodeCount * m.d && |x.edges| <= m.e
  }

  /** The size checks of row validation. */
  predicate RowFits(m: Dims, row: Row)
  {
    && SideFits(m, row.own) && (row.opponent.Some? ==> SideFits(m, row.opponent.value))
    && |row.actions| <= m.a && forall i :: 0 <= i < |row.actions| ==> |row.actions[i].subjects| <= m.s
  }

  const STOP: u32 := 1

  datatype Vocabulary = Vocabulary(nodes: u16, edgeTypes: u8, actionKinds: u32)

  predicate IsFinite(f: Float)
  {
    (f / 0x80_0000) % 0x100 != 0xFF
  }

  predicate IsZero(f: Float)
  {
    f % 0x8000_0000 == 0
  }

  /** Tokens, edges and floats of a state are in range. */
  predicate SideValid(v: Vocabulary, x: Side)
  {
    && x.nodeCount > 0 && (forall t :: t in x.tokens ==> 0 < t < v.nodes) && (forall f :: f in x.attrs ==> IsFinite(f))
    && (forall e :: e in x.edges ==> e.src < x.nodeCount && e.dst < x.nodeCount && e.kind < v.edgeTypes)
    && IsFinite(x.position.budgetFraction) && IsFinite(x.position.budgetStep)
  }

  /** Actions are in range, and the last one, and only the last, is the empty stop action. */
  predicate ActionsValid(v: Vocabulary, row: Row)
  {
    forall i :: 0 <= i < |row.actions| ==> ActionValid(v, row, i)
  }

  predicate ActionValid(v: Vocabulary, row: Row, i: nat)
    requires i < |row.actions|
  {
    var action := row.actions[i];
    && 0 < action.kind < v.actionKinds && IsFinite(action.prior)
    && (forall s :: s in action.subjects ==> s < row.own.nodeCount)
    && (action.kind == STOP <==> i == |row.actions| - 1)
    && (action.kind == STOP ==> action.subjects == [] && IsZero(action.prior))
  }

  /** `validate`: a row the schema admits. */
  predicate RowValid(v: Vocabulary, m: Dims, row: Row)
  {
    && RowFits(m, row) && SideValid(v, row.own) && ActionsValid(v, row)
    && IsFinite(row.opponentReward) && (!row.opponentPresent ==> IsZero(row.opponentReward))
    && (row.opponent.Some? ==> SideValid(v, row.opponent.value))
  }

  /** A 32-bit float by its parts: finite unless all exponent bits are set, zero when only the sign may be. */
  lemma FloatParts(sign: nat, exponent: nat, mantissa: nat)
    requires sign < 2 && exponent < 256 && mantissa < 0x80_0000
    ensures var f := sign * 0x8000_0000 + exponent * 0x80_0000 + mantissa;
            && f <= 0xFFFF_FFFF && (IsFinite(f) <==> exponent < 255) && (IsZero(f) <==> exponent == 0 && mantissa == 0)
  {
    var f := sign * 0x8000_0000 + exponent * 0x80_0000 + mantissa;
    assert f / 0x80_0000 == sign * 256 + exponent;
  }

  /** `validate_state` and the state's half of `validate_position`, check by check. */
  method ValidateState(v: Vocabulary, m: Dims, x: Side) returns (ok: bool)
    ensures ok <==> SideFits(m, x) && SideValid(v, x)
  {
    if x.nodeCount == 0 || x.nodeCount > m.n || |x.tokens| != x.nodeCount { return false; }
    for i := 0 to |x.tokens|
      invariant forall k :: 0 <= k < i ==> 0 < x.tokens[k] < v.nodes
    {
      if x.tokens[i] == 0 || x.tokens[i] >= v.nodes {
        assert x.tokens[i] in x.tokens;
        return false;
      }
    }
    if |x.attrs| != x.nodeCount * m.d { return false; }
    for i := 0 to |x.attrs|
      invariant forall k :: 0 <= k < i ==> IsFinite(x.attrs[k])
    {
      if !IsFinite(x.attrs[i]) { return false; }
    }
    if |x.edges| > m.e { return false; }
    for i := 0 to |x.edges|
      invariant forall k :: 0 <= k < i ==>
                  x.edges[k].src < x.nodeCount && x.edges[k].dst < x.nodeCount && x.edges[k].kind < v.edgeTypes
    {
      if x.edges[i].src >= x.nodeCount || x.edges[i].dst >= x.nodeCount { return false; }
      if x.edges[i].kind >= v.edgeTypes { return false; }
    }
    ok := IsFinite(x.position.budgetFraction) && IsFinite(x.position.budgetStep);
  }

  /** The action loop of `validate`. */
  method ValidateActions(v: Vocabulary, m: Dims, row: Row) returns (ok: bool)
    ensures ok <==> ActionsValid(v, row) && |row.actions| <= m.a
                    && forall i :: 0 <= i < |row.actions| ==> |row.actions[i].subjects| <= m.s
  {
    if |row.actions| > m.a { return false; }
    for i := 0 to |row.actions|
      invariant forall k :: 0 <= k < i ==> ActionValid(v, row, k) && |row.actions[k].subjects| <= m.s
    {
      var action := row.actions[i];
      if action.kind == 0 || action.kind >= v.actionKinds || !IsFinite(action.prior) || |action.subjects| > m.s {
        assert !(ActionValid(v, row, i) && |row.actions[i].subjects| <= m.s);
        return false;
      }
      for j := 0 to |action.subjects|
        invariant forall k :: 0 <= k < j ==> action.subjects[k] < row.own.nodeCount
      {
        if action.subjects[j] >= row.own.nodeCount {
          assert action.subjects[j] in action.subjects && !ActionValid(v, row, i);
          return false;
        }
      }
      if action.kind == 1 {
        if i + 1 != |row.actions| || action.subjects != [] || !IsZero(action.prior) {
          assert !ActionValid(v, row, i);
          return false;
        }
      } else if i + 1 == |row.actions| {
        assert !ActionValid(v, row, i);
        return false;
      }
    }
    ok := true;
  }

  /** `FeatureRow::validate`. */
  method ValidateRow(v: Vocabulary, m: Dims, row: Row) returns (ok: bool)
    ensures ok <==> RowValid(v, m, row)
  {
    hide SideValid, SideFits, ActionsValid, IsFinite, IsZero;
    ok := ValidateState(v, m, row.own);
    if !ok { return; }
    ok := ValidateActions(v, m, row);
    if !ok { return; }
    if !IsFinite(row.opponentReward) || (!row.opponentPresent && !IsZero(row.opponentReward)) { return false; }
    if row.opponent.Some? { ok := ValidateState(v, m, row.opponent.value); }
  }

  /** The narrowing conversions of the row writer. */
  method CheckNarrow(row: Row) returns (ok: bool)
    ensures ok <==> Encodable(row)
  {
    for i := 0 to |row.actions|
      invariant forall k :: 0 <= k < i ==> row.actions[k].kind <= 0xFFFF && |row.actions[k].subjects| <= 0xFF
    {
      if row.actions[i].kind >= 0x1_0000 || |row.actions[i].subjects| >= 0x100 { return false; }
    }
    ok := true;
  }

  lemma ValidFits(v: Vocabulary, m: Dims, row: Row)
    requires RowValid(v, m, row)
    ensures RowFits(m, row)
  {
  }

  /** What the narrow wire fields can hold. */
  predicate Encodable(row: Row)
  {
    forall i :: 0 <= i < |row.actions| ==> row.actions[i].kind <= 0xFFFF && |row.actions[i].subjects| <= 0xFF
  }

  /** The seven per-state sections. */
  function SideField(x: Side, k: nat): seq<nat>
  {
    match k
    case 0 => [x.nodeCount]
    case 1 => seq(|x.tokens|, i requires 0 <= i < |x.tokens| => x.tokens[i])
    case 2 => seq(|x.attrs|, i requires 0 <= i < |x.attrs| => Rounded(x.attrs[i]))
    case 3 => [|x.edges|]
    case 4 => seq(|x.edges|, i requires 0 <= i < |x.edges| => x.edges[i].src)
    case 5 => seq(|x.edges|, i requires 0 <= i < |x.edges| => x.edges[i].dst)
    case 6 => seq(|x.edges|, i requires 0 <= i < |x.edges| => x.edges[i].kind)
    case _ => []
  }

  function PositionField(p: Position): seq<nat>
  {
    [Rounded(p.rootStep), Rounded(p.leafDepth), Rounded(p.budgetFraction), Rounded(p.budgetStep)]
  }

  /** What a row contributes to each section but the subjects. */
  function Field(row: Row, k: nat): seq<nat>
  {
    if k < 7 then SideField(row.own, k)
    else if k == ACTION_COUNT then [|row.actions|]
    else if k == ACTION_KIND then seq(|row.actions|, i requires 0 <= i < |row.actions| => row.actions[i].kind)
    else if k == ACTION_PRIOR
      then seq(|row.actions|, i requires 0 <= i < |row.actions| => Rounded(row.actions[i].prior))
    else if k == SUBJECT_COUNT then seq(|row.actions|, i requires 0 <= i < |row.actions| => |row.actions[i].subjects|)
    else if k == POSITION then PositionField(row.own.position)
    else if k == OPPONENT_REWARD then [Rounded(row.opponentReward)]
    else if k == OPPONENT_PRESENT then [if row.opponentPresent then 1 else 0]
    else if row.opponent.None? then []
    else if k == OPPONENT_STATE_PRESENT then [1]
    else if OPPONENT <= k < OPPONENT + 7 then SideField(row.opponent.value, k - OPPONENT)
    else if k == OPPONENT_POSITION then PositionField(row.opponent.value.position)
    else []
  }

  lemma SideFieldFits(m: Dims, x: Side, k: nat)
    requires SideFits(m, x) && k < 7
    ensures |SideField(x, k)| <= Stride(m, k) && AllBelow(SideField(x, k), Pow256(Width(k)))
  {
    Bounds();
    Monotone(x.nodeCount, m.n, m.d);
  }

  /** Every field fits its section and its element width. */
  lemma FieldFits(m: Dims, row: Row, k: nat)
    requires RowFits(m, row) && Encodable(row) && k < SECTIONS && k != ACTION_SUBJECTS
    ensures |Field(row, k)| <= Stride(m, k) && AllBelow(Field(row, k), Pow256(Width(k)))
  {
    Bounds();
    if k < 7 {
      SideFieldFits(m, row.own, k);
    } else if row.opponent.Some? && OPPONENT <= k < OPPONENT + 7 {
      SideFieldFits(m, row.opponent.value, k - OPPONENT);
    }
  }

  // ---- what a batch holds ------------------------------------------------------------------

  function FieldAt(row: Row, k: nat, j: nat): nat
  {
    if j < |Field(row, k)| then Field(row, k)[j] else 0
  }

  /** Section `k` of row `r` holds the row's field, followed by zeros. */
  ghost predicate FieldStored(m: Dims, buf: Bytes, row: Row, r: nat, k: nat)
    requires |buf| == TotalLen(m)
  {
    forall j :: InBounds(m, k, r, j) ==> Value(m, buf, k, r, j) == FieldAt(row, k, j)
  }

  function SubjectAt(actions: seq<Action>, upTo: nat, x: nat, y: nat): nat
  {
    if x < upTo && x < |actions| && y < |actions[x].subjects| then actions[x].subjects[y] else NO_SUBJECT
  }

  ghost predicate SubjectStored(m: Dims, buf: Bytes, actions: seq<Action>, upTo: nat, r: nat, x: nat, y: nat)
    requires |buf| == TotalLen(m)
  {
    InBounds(m, ACTION_SUBJECTS, r, x * m.s + y) ==>
      Value(m, buf, ACTION_SUBJECTS, r, x * m.s + y) == SubjectAt(actions, upTo, x, y)
  }

  /** Subject `y` of action `x` is at its own place; unused places hold the marker. */
  ghost predicate SubjectsStored(m: Dims, buf: Bytes, actions: seq<Action>, upTo: nat, r: nat)
    requires |buf| == TotalLen(m)
  {
    forall x: nat, y: nat :: x < m.a && y < m.s ==> SubjectStored(m, buf, actions, upTo, r, x, y)
  }

  ghost predicate RowStored(m: Dims, buf: Bytes, row: Row, r: nat)
    requires |buf| == TotalLen(m)
  {
    && (forall k: nat :: k < SECTIONS && k != ACTION_SUBJECTS ==> FieldStored(m, buf, row, r, k))
    && SubjectsStored(m, buf, row.actions, |row.actions|, r)
  }

  ghost predicate Zeroed(m: Dims, buf: Bytes, r: nat, k: nat)
    requires |buf| == TotalLen(m)
  {
    forall j :: InBounds(m, k, r, j) ==> Value(m, buf, k, r, j) == 0
  }

  /** A row nobody wrote: zeros, and markers for subjects. */
  ghost predicate RowUntouched(m: Dims, buf: Bytes, r: nat)
    requires |buf| == TotalLen(m)
  {
    && (forall k: nat :: k < SECTIONS && k != ACTION_SUBJECTS ==> Zeroed(m, buf, r, k))
    && SubjectsStored(m, buf, [], 0, r)
  }

  /** Row `r` reads the same in both buffers. */
  ghost predicate SameSection(m: Dims, a: Bytes, b: Bytes, k: nat, r: nat)
    requires |a| == |b| == TotalLen(m)
  {
    forall j :: InBounds(m, k, r, j) ==> Value(m, b, k, r, j) == Value(m, a, k, r, j)
  }

  ghost predicate SameRow(m: Dims, a: Bytes, b: Bytes, r: nat)
    requires |a| == |b| == TotalLen(m)
  {
    forall k: nat :: k < SECTIONS ==> SameSection(m, a, b, k, r)
  }

  lemma SameRowStored(m: Dims, a: Bytes, b: Bytes, row: Row, r: nat)
    requires |a| == |b| == TotalLen(m) && SameRow(m, a, b, r)
    ensures RowStored(m, a, row, r) ==> RowStored(m, b, row, r)
    ensures RowUntouched(m, a, r) ==> RowUntouched(m, b, r)
  {
    hide Value, InBounds, Field, TotalLen;
    assert SameSection(m, a, b, ACTION_SUBJECTS, r);
    if RowStored(m, a, row, r) {
      forall k: nat | k < SECTIONS && k != ACTION_SUBJECTS
        ensures FieldStored(m, b, row, r, k)
      {
        assert SameSection(m, a, b, k, r) && FieldStored(m, a, row, r, k);
      }
      SameSubjects(m, a, b, row.actions, |row.actions|, r);
    }
    if RowUntouched(m, a, r) {
      forall k: nat | k < SECTIONS && k != ACTION_SUBJECTS
        ensures Zeroed(m, b, r, k)
      {
        assert SameSection(m, a, b, k, r) && Zeroed(m, a, r, k);
      }
      SameSubjects(m, a, b, [], 0, r);
    }
  }

  lemma SameSubjects(m: Dims, a: Bytes, b: Bytes, actions: seq<Action>, upTo: nat, r: nat)
    requires |a| == |b| == TotalLen(m) && SameSection(m, a, b, ACTION_SUBJECTS, r)
             && SubjectsStored(m, a, actions, upTo, r)
    ensures SubjectsStored(m, b, actions, upTo, r)
  {
    hide Value, InBounds, TotalLen;
    forall x: nat, y: nat | x < m.a && y < m.s
      ensures SubjectStored(m, b, actions, upTo, r, x, y)
    {
      assert SubjectStored(m, a, actions, upTo, r, x, y);
    }
  }

  // ---- writing a row -----------------------------------------------------------------------

  /** One more action's subjects. */
  lemma SubjectsGrow(m: Dims, a: Bytes, b: Bytes, actions: seq<Action>, i: nat, r: nat)
    requires |a| == TotalLen(m) && i < |actions| <= m.a && |actions[i].subjects| <= m.s
    requires SubjectsStored(m, a, actions, i, r)
    requires Wrote(m, a, b, ACTION_SUBJECTS, r, i * m.s, actions[i].subjects)
    ensures SubjectsStored(m, b, actions, i + 1, r)
  {
    hide Value, TotalLen, InBounds;
    var subjects, upTo := actions[i].subjects, i + 1;
    forall x: nat, y: nat | x < m.a && y < m.s
      ensures SubjectStored(m, b, actions, upTo, r, x, y)
    {
      assert SubjectStored(m, a, actions, i, r, x, y);
      InBlock(m.s, i, |subjects|, x, y);
    }
  }

  /** A place lies in block `i` exactly when it belongs to action `i`. */
  lemma InBlock(s: nat, i: nat, len: nat, x: nat, y: nat)
    requires len <= s && y < s
    ensures i * s <= x * s + y < i * s + len <==> x == i && y < len
    ensures x == i ==> x * s + y - i * s == y
  {
    if x < i { RowsFit(s, i, x, y); }
    if x > i { Monotone(i + 1, x, s); assert (i + 1) * s == i * s + s; }
  }

  method WriteSubjects(out: array<u8>, m: Dims, r: nat, actions: seq<Action>)
    requires out.Length == TotalLen(m) && r < m.b && |actions| <= m.a
    requires forall i :: 0 <= i < |actions| ==> |actions[i].subjects| <= m.s
    requires SubjectsStored(m, out[..], actions, 0, r)
    modifies out
    ensures SubjectsStored(m, out[..], actions, |actions|, r)
            && OnlySection(m, old(out[..]), out[..], ACTION_SUBJECTS, r)
  {
    hide TotalLen, Value, Wrote, SubjectsStored, OnlySection;
    Bounds();
    OnlySelf(m, out[..], ACTION_SUBJECTS, r);
    for i := 0 to |actions|
      invariant SubjectsStored(m, out[..], actions, i, r)
      invariant OnlySection(m, old(out[..]), out[..], ACTION_SUBJECTS, r)
    {
      Monotone(i + 1, m.a, m.s);
      assert (i + 1) * m.s == i * m.s + m.s;
      ghost var before := out[..];
      WriteField(out, m, ACTION_SUBJECTS, r, i * m.s, actions[i].subjects);
      SubjectsGrow(m, before, out[..], actions, i, r);
      OnlyMore(m, old(out[..]), before, out[..], ACTION_SUBJECTS, r, i * m.s, actions[i].subjects);
    }
  }

  /** Nothing but section `k` of row `r` differs. */
  ghost predicate OnlySection(m: Dims, a: Bytes, b: Bytes, k: nat, r: nat)
  {
    && |a| == |b| == TotalLen(m) && HEADER_LEN <= |a| && b[..HEADER_LEN] == a[..HEADER_LEN]
    && forall k': nat, r': nat :: k' < SECTIONS && (k' != k || r' != r) ==> SameSection(m, a, b, k', r')
  }

  lemma OnlySelf(m: Dims, a: Bytes, k: nat, r: nat)
    requires |a| == TotalLen(m)
    ensures OnlySection(m, a, a, k, r)
  {
    hide Value;
    SectionsApart(m, 0, SECTIONS);
  }

  lemma OnlyMore(m: Dims, a: Bytes, b: Bytes, c: Bytes, k: nat, r: nat, from: nat, values: seq<nat>)
    requires OnlySection(m, a, b, k, r) && Wrote(m, b, c, k, r, from, values)
    ensures OnlySection(m, a, c, k, r)
  {
    hide Value, TotalLen;
    forall k': nat, r': nat | k' < SECTIONS && (k' != k || r' != r)
      ensures SameSection(m, a, c, k', r')
    {
      assert SameSection(m, a, b, k', r');
    }
  }

  /** A field written over zeros. */
  lemma FieldWritten(m: Dims, a: Bytes, b: Bytes, row: Row, r: nat, k: nat)
    requires |a| == TotalLen(m) && Zeroed(m, a, r, k) && Wrote(m, a, b, k, r, 0, Field(row, k))
    ensures FieldStored(m, b, row, r, k) && OnlySection(m, a, b, k, r)
  {
    hide Value, TotalLen, Field;
    OnlySelf(m, a, k, r);
    OnlyMore(m, a, a, b, k, r, 0, Field(row, k));
  }

  /** The row is written up to section `k` and untouched from there on. */
  ghost predicate RowUpTo(m: Dims, buf: Bytes, row: Row, r: nat, k: nat)
    requires |buf| == TotalLen(m)
  {
    && (forall i: nat :: i < SECTIONS && i != ACTION_SUBJECTS ==>
          if i < k then FieldStored(m, buf, row, r, i) else Zeroed(m, buf, r, i))
    && SubjectsStored(m, buf, row.actions, if ACTION_SUBJECTS < k then |row.actions| else 0, r)
  }

  lemma UpToNext(m: Dims, a: Bytes, b: Bytes, row: Row, r: nat, k: nat)
    requires k < SECTIONS && OnlySection(m, a, b, k, r) && RowUpTo(m, a, row, r, k)
    requires if k == ACTION_SUBJECTS then SubjectsStored(m, b, row.actions, |row.actions|, r)
             else FieldStored(m, b, row, r, k)
    ensures RowUpTo(m, b, row, r, k + 1)
  {
    hide Value, TotalLen, FieldAt, InBounds;
    forall i: nat | i < SECTIONS && i != ACTION_SUBJECTS
      ensures if i < k + 1 then FieldStored(m, b, row, r, i) else Zeroed(m, b, r, i)
    {
      if i != k {
        assert SameSection(m, a, b, i, r);
        if i < k { assert FieldStored(m, a, row, r, i); } else { assert Zeroed(m, a, r, i); }
      }
    }
    if k != ACTION_SUBJECTS {
      SameSubjects(m, a, b, row.actions, if ACTION_SUBJECTS < k then |row.actions| else 0, r);
    }
  }

  lemma NoSubjectsYet(m: Dims, buf: Bytes, actions: seq<Action>, r: nat)
    requires |buf| == TotalLen(m) && SubjectsStored(m, buf, [], 0, r)
    ensures SubjectsStored(m, buf, actions, 0, r)
  {
    hide Value, TotalLen, InBounds;
    forall x: nat, y: nat | x < m.a && y < m.s
      ensures SubjectStored(m, buf, actions, 0, r, x, y)
    {
      assert SubjectStored(m, buf, [], 0, r, x, y);
    }
  }

  /** Nothing but row `r` differs. */
  ghost predicate OnlyRow(m: Dims, a: Bytes, b: Bytes, r: nat)
  {
    && |a| == |b| == TotalLen(m) && HEADER_LEN <= |a| && b[..HEADER_LEN] == a[..HEADER_LEN]
    && forall r': nat :: r' != r ==> SameRow(m, a, b, r')
  }

  lemma OnlyRowMore(m: Dims, a: Bytes, b: Bytes, c: Bytes, k: nat, r: nat)
    requires OnlyRow(m, a, b, r) && OnlySection(m, b, c, k, r)
    ensures OnlyRow(m, a, c, r)
  {
    hide Value, TotalLen, InBounds;
    forall r': nat | r' != r
      ensures SameRow(m, a, c, r')
    {
      assert SameRow(m, a, b, r');
      forall i: nat | i < SECTIONS
        ensures SameSection(m, a, c, i, r')
      {
        assert SameSection(m, a, b, i, r') && SameSection(m, b, c, i, r');
      }
    }
  }

  /** One row, section by section. */
  method WriteRow(out: array<u8>, m: Dims, r: nat, row: Row)
    requires out.Length == TotalLen(m) && r < m.b && RowFits(m, row) && Encodable(row) && RowUntouched(m, out[..], r)
    modifies out
    ensures OnlyRow(m, old(out[..]), out[..], r) && RowStored(m, out[..], row, r)
  {
    hide TotalLen, Value, Wrote, SubjectsStored, OnlySection, FieldStored, Zeroed, Field, Stride, Pow256;
    NoSubjectsYet(m, out[..], row.actions, r);
    SectionsApart(m, 0, SECTIONS);
    assert OnlyRow(m, out[..], out[..], r) by { SelfRow(m, out[..], r); }
    for k := 0 to SECTIONS
      invariant OnlyRow(m, old(out[..]), out[..], r) && RowUpTo(m, out[..], row, r, k)
    {
      ghost var before := out[..];
      if k == ACTION_SUBJECTS {
        WriteSubjects(out, m, r, row.actions);
      } else {
        FieldFits(m, row, k);
        WriteField(out, m, k, r, 0, Field(row, k));
        FieldWritten(m, before, out[..], row, r, k);
      }
      UpToNext(m, before, out[..], row, r, k);
      OnlyRowMore(m, old(out[..]), before, out[..], k, r);
    }
  }

  lemma SelfRow(m: Dims, a: Bytes, r: nat)
    requires |a| == TotalLen(m)
    ensures OnlyRow(m, a, a, r)
  {
    hide Value;
    SectionsApart(m, 0, SECTIONS);
  }

  // ---- the header and the whole batch ------------------------------------------------------

  const VERSION: nat := 6
  const MAGIC: Bytes := [71, 90, 70, 66]

  type SchemaHash = h: Bytes | |h| == 32 witness seq(32, _ => 0)

  datatype Header = Header(hash: SchemaHash, dims: Dims, rowCount: u32)

  function HeaderBytes(h: Header): (b: Bytes)
    ensures |b| == HEADER_LEN
  {
    MAGIC + Encode(VERSION, 4) + h.hash + Encode(h.dims.b, 4) + Encode(h.rowCount, 4) + Encode(h.dims.n, 4)
    + Encode(h.dims.e, 4) + Encode(h.dims.a, 4) + Encode(h.dims.s, 4) + Encode(h.dims.d, 4)
  }

  datatype FeatureError =
    | EmptyBatch | BatchOverflow | InvalidRow | Unencodable
    | Truncated | BadMagic | UnsupportedVersion | ZeroCapacity | RowCountExceedsCapacity | BadLength

  /** `BatchHeader::parse`. */
  function ParseHeader(bytes: Bytes): Result<Header, FeatureError>
  {
    if |bytes| < HEADER_LEN then Err(Truncated)
    else if bytes[0..4] != MAGIC then Err(BadMagic)
    else if U32At(bytes, 4) != VERSION then Err(UnsupportedVersion)
    else
      var h := Header(bytes[8..40],
                      Dims(U32At(bytes, 40), U32At(bytes, 48), U32At(bytes, 52), U32At(bytes, 56), U32At(bytes, 60),
                           U32At(bytes, 64)),
                      U32At(bytes, 44));
      if h.dims.b == 0 then Err(ZeroCapacity)
      else if h.rowCount > h.dims.b then Err(RowCountExceedsCapacity)
      else Ok(h)
  }

  /** A header that was written reads back. */
  lemma HeaderRoundTrip(bytes: Bytes, h: Header)
    requires |bytes| >= HEADER_LEN && bytes[..HEADER_LEN] == HeaderBytes(h) && 0 < h.dims.b && h.rowCount <= h.dims.b
    ensures ParseHeader(bytes) == Ok(h)
  {
    hide Encode, Decode, U32At;
    var b := HeaderBytes(h);
    forall i: nat, j: nat | i <= j <= HEADER_LEN
      ensures bytes[i..j] == b[i..j]
    {
      assert bytes[..HEADER_LEN][i..j] == bytes[i..j];
    }
    assert b[0..4] == MAGIC && b[4..8] == Encode(VERSION, 4) && b[8..40] == h.hash;
    U32Of(bytes, 4, VERSION);
    assert b[40..44] == Encode(h.dims.b, 4) && b[44..48] == Encode(h.rowCount, 4) && b[48..52] == Encode(h.dims.n, 4);
    U32Of(bytes, 40, h.dims.b);
    U32Of(bytes, 44, h.rowCount);
    U32Of(bytes, 48, h.dims.n);
    assert b[52..56] == Encode(h.dims.e, 4) && b[56..60] == Encode(h.dims.a, 4);
    U32Of(bytes, 52, h.dims.e);
    U32Of(bytes, 56, h.dims.a);
    assert b[60..64] == Encode(h.dims.s, 4) && b[64..68] == Encode(h.dims.d, 4);
    U32Of(bytes, 60, h.dims.s);
    U32Of(bytes, 64, h.dims.d);
  }

  /** The batch of these rows: its header, every row at its own index, and untouched rows after them. */
  ghost predicate Batch(buf: Bytes, h: Header, rows: seq<Row>)
  {
    && |buf| == TotalLen(h.dims) && HEADER_LEN <= |buf| && buf[..HEADER_LEN] == HeaderBytes(h)
    && 0 < h.rowCount == |rows| <= h.dims.b
    && (forall r :: 0 <= r < |rows| ==> RowStored(h.dims, buf, rows[r], r))
    && forall r: nat :: |rows| <= r < h.dims.b ==> RowUntouched(h.dims, buf, r)
  }

  /** A zeroed buffer with subject markers: every row is untouched. */
  ghost predicate Blank(m: Dims, buf: Bytes)
  {
    && |buf| == TotalLen(m)
    && forall i :: HEADER_LEN <= i < |buf| ==>
         buf[i] == if Offset(m, ACTION_SUBJECTS) <= i < Offset(m, ACTION_SUBJECTS) + Len(m, ACTION_SUBJECTS) then 255
           else 0
  }

  lemma {:induction false} DecodeZeros(b: Bytes)
    requires forall i :: 0 <= i < |b| ==> b[i] == 0
    ensures Decode(b) == 0
  {
    if b != [] { DecodeZeros(b[1..]); }
  }

  lemma DecodeOnes(b: Bytes)
    requires |b| == 4 && forall i :: 0 <= i < |b| ==> b[i] == 255
    ensures Decode(b) == NO_SUBJECT
  {
    assert Decode(b[1..]) == b[1] + 256 * Decode(b[2..]) by { assert b[1..][1..] == b[2..]; }
    assert Decode(b[2..]) == b[2] + 256 * Decode(b[3..]) by { assert b[2..][1..] == b[3..]; }
    assert Decode(b[3..]) == b[3] + 256 * Decode(b[4..]) by { assert b[3..][1..] == b[4..]; }
    assert b[4..] == [];
  }

  lemma BlankValue(m: Dims, buf: Bytes, k: nat, r: nat, j: nat)
    requires Blank(m, buf) && InBounds(m, k, r, j)
    ensures Value(m, buf, k, r, j) == if k == ACTION_SUBJECTS then NO_SUBJECT else 0
  {
    hide Offset, Len, Stride, Decode, TotalLen, At;
    InSection(m, k, r, j);
    var at := At(m, k, r, j);
    var slice := buf[at..at + Width(k)];
    if k == ACTION_SUBJECTS {
      DecodeOnes(slice);
    } else {
      if k < ACTION_SUBJECTS { SectionsApart(m, k, ACTION_SUBJECTS); } else { SectionsApart(m, ACTION_SUBJECTS, k); }
      DecodeZeros(slice);
    }
  }

  lemma BlankUntouched(m: Dims, buf: Bytes, r: nat)
    requires Blank(m, buf)
    ensures RowUntouched(m, buf, r)
  {
    hide Value, TotalLen, InBounds, Blank, Width;
    assert |buf| == TotalLen(m) by { BlankLength(m, buf); }
    forall k: nat, j | k < SECTIONS && InBounds(m, k, r, j)
      ensures Value(m, buf, k, r, j) == if k == ACTION_SUBJECTS then NO_SUBJECT else 0
    {
      BlankValue(m, buf, k, r, j);
    }
    forall x: nat, y: nat | x < m.a && y < m.s
      ensures SubjectStored(m, buf, [], 0, r, x, y)
    {
      if InBounds(m, ACTION_SUBJECTS, r, x * m.s + y) { BlankValue(m, buf, ACTION_SUBJECTS, r, x * m.s + y); }
    }
  }

  lemma BlankLength(m: Dims, buf: Bytes)
    requires Blank(m, buf)
    ensures |buf| == TotalLen(m)
  {
  }

  /** A fresh buffer: zeros, the subject markers, and the header. */
  method NewBuffer(h: Header) returns (out: array<u8>)
    ensures fresh(out) && Blank(h.dims, out[..]) && out.Length == TotalLen(h.dims) >= HEADER_LEN
    ensures out[..HEADER_LEN] == HeaderBytes(h)
  {
    hide HeaderBytes;
    var total, start, len := TotalLen(h.dims), Offset(h.dims, ACTION_SUBJECTS), Len(h.dims, ACTION_SUBJECTS);
    SectionsApart(h.dims, 0, SECTIONS);
    SectionsApart(h.dims, ACTION_SUBJECTS, SECTIONS);
    hide TotalLen, Offset, Len;
    out := new u8[total](i => 0);
    for i := start to start + len
      invariant forall j :: 0 <= j < total ==> out[j] == if start <= j < i then 255 else 0
    {
      out[i] := 255;
    }
    ghost var before := out[..];
    Put(out, 0, HeaderBytes(h));
    assert forall i :: HEADER_LEN <= i < total ==> out[..][i] == before[i];
    assert out[..][..HEADER_LEN] == HeaderBytes(h);
  }

  /** `collate`: invalid rows are refused; otherwise the buffer is the batch of the rows. */
  method Collate(hash: SchemaHash, v: Vocabulary, m: Dims, rows: seq<Row>) returns (r: Result<array<u8>, FeatureError>)
    requires m.b > 0
    ensures r.Err? <==>
              || |rows| == 0 || |rows| > m.b
              || exists i :: 0 <= i < |rows| && !(RowValid(v, m, rows[i]) && Encodable(rows[i]))
    ensures r.Ok? ==> Batch(r.value[..], Header(hash, m, |rows|), rows)
  {
    hide TotalLen, RowStored, RowUntouched, HeaderBytes, RowFits, RowValid, Encodable, Blank, SameRow;
    if |rows| == 0 {
      return Err(EmptyBatch);
    }
    if |rows| > m.b {
      return Err(BatchOverflow);
    }
    for i := 0 to |rows|
      invariant forall j :: 0 <= j < i ==> RowValid(v, m, rows[j])
    {
      var ok := ValidateRow(v, m, rows[i]);
      if !ok {
        return Err(InvalidRow);
      }
    }
    forall i | 0 <= i < |rows| ensures RowFits(m, rows[i]) { ValidFits(v, m, rows[i]); }
    var h := Header(hash, m, |rows|);
    var out := NewBuffer(h);
    forall i: nat { BlankUntouched(m, out[..], i); }
    for i := 0 to |rows|
      invariant out.Length == TotalLen(m) && out[..HEADER_LEN] == HeaderBytes(h)
      invariant forall j :: 0 <= j < i ==> Encodable(rows[j]) && RowStored(m, out[..], rows[j], j)
      invariant forall j: nat :: i <= j ==> RowUntouched(m, out[..], j)
    {
      var narrow := CheckNarrow(rows[i]);
      if !narrow {
        return Err(Unencodable);
      }
      ghost var before := out[..];
      WriteRow(out, m, i, rows[i]);
      assert out[..][..HEADER_LEN] == before[..HEADER_LEN];
      forall j: nat | j != i
        ensures j < |rows| && RowStored(m, before, rows[j], j) ==> RowStored(m, out[..], rows[j], j)
        ensures RowUntouched(m, before, j) ==> RowUntouched(m, out[..], j)
      {
        SameRowStored(m, before, out[..], if j < |rows| then rows[j] else rows[i], j);
      }
    }
    r := Ok(out);
  }

  // ---- parsing -----------------------------------------------------------------------------

  datatype View = View(header: Header, sections: seq<seq<nat>>)

  /** Element `x` of a section, counted over all rows, lies inside the buffer. */
  predicate ElementAt(m: Dims, bytes: Bytes, k: nat, x: nat)
  {
    Offset(m, k) + x * Width(k) + Width(k) <= |bytes|
  }

  function Element(m: Dims, bytes: Bytes, k: nat, x: nat): nat
    requires ElementAt(m, bytes, k, x)
  {
    Decode(bytes[Offset(m, k) + x * Width(k)..Offset(m, k) + x * Width(k) + Width(k)])
  }

  lemma ElementFits(m: Dims, bytes: Bytes, k: nat, x: nat)
    requires |bytes| == TotalLen(m) && k < SECTIONS && x < m.b * Stride(m, k)
    ensures ElementAt(m, bytes, k, x)
  {
    hide Offset, Stride, Width;
    SectionsApart(m, k, SECTIONS);
    Monotone(x + 1, m.b * Stride(m, k), Width(k));
    assert (x + 1) * Width(k) == x * Width(k) + Width(k);
  }

  /** All elements of one section, in order. */
  method ReadSection(bytes: Bytes, m: Dims, k: nat) returns (values: seq<nat>)
    requires |bytes| == TotalLen(m) && k < SECTIONS
    ensures |values| == m.b * Stride(m, k) && ShowsSection(m, values, bytes, k)
  {
    hide TotalLen, Offset, Stride, Width, Decode, Element, ElementAt;
    values := [];
    for i := 0 to m.b * Stride(m, k)
      invariant |values| == i
      invariant forall x: nat :: x < i ==> ElementAt(m, bytes, k, x) && values[x] == Element(m, bytes, k, x)
    {
      ElementFits(m, bytes, k, i);
      values := values + [Element(m, bytes, k, i)];
    }
    forall r: nat, j: nat | InBounds(m, k, r, j)
      ensures Index(m, k, r, j) < |values| && values[Index(m, k, r, j)] == Value(m, bytes, k, r, j)
    {
      RowsFit(Stride(m, k), m.b, r, j);
      ElementIsValue(m, bytes, k, r, j);
    }
  }

  lemma ElementIsValue(m: Dims, bytes: Bytes, k: nat, r: nat, j: nat)
    requires |bytes| == TotalLen(m) && InBounds(m, k, r, j) && ElementAt(m, bytes, k, Index(m, k, r, j))
    ensures Element(m, bytes, k, Index(m, k, r, j)) == Value(m, bytes, k, r, j)
  {
  }

  /** The view shows every element of every section. */
  ghost predicate Shows(view: View, bytes: Bytes)
  {
    && |bytes| == TotalLen(view.header.dims) && |view.sections| == SECTIONS
    && forall k: nat :: k < SECTIONS ==> ShowsSection(view.header.dims, view.sections[k], bytes, k)
  }

  ghost predicate ShowsSection(m: Dims, values: seq<nat>, bytes: Bytes, k: nat)
    requires |bytes| == TotalLen(m)
  {
    forall r: nat, j: nat :: InBounds(m, k, r, j) ==>
      Index(m, k, r, j) < |values| && values[Index(m, k, r, j)] == Value(m, bytes, k, r, j)
  }

  /** `FeatureBatchView::parse`. */
  method Parse(bytes: Bytes) returns (view: Result<View, FeatureError>)
    ensures view.Ok? <==> ParseHeader(bytes).Ok? && |bytes| == TotalLen(ParseHeader(bytes).value.dims)
    ensures view.Ok? ==> view.value.header == ParseHeader(bytes).value && Shows(view.value, bytes)
  {
    hide ParseHeader, TotalLen, Value, InBounds;
    var header := ParseHeader(bytes);
    if header.Err? {
      return Err(header.error);
    }
    var m := header.value.dims;
    if |bytes| != TotalLen(m) {
      return Err(BadLength);
    }
    var sections := [];
    for k := 0 to SECTIONS
      invariant |sections| == k && forall i: nat :: i < k ==> ShowsSection(m, sections[i], bytes, i)
    {
      var values := ReadSection(bytes, m, k);
      sections := sections + [values];
    }
    view := Ok(View(header.value, sections));
  }

  /** A collated batch parses, to its own header. */
  lemma BatchParses(buf: Bytes, h: Header, rows: seq<Row>)
    requires Batch(buf, h, rows)
    ensures ParseHeader(buf) == Ok(h) && |buf| == TotalLen(h.dims)
  {
    hide HeaderBytes, ParseHeader, RowStored, RowUntouched, TotalLen;
    HeaderRoundTrip(buf, h);
  }
}
