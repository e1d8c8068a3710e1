/** Rows read back from a parsed batch are the rows that were collated. */
module CollatorRoundTrip {
  import opened Basics
  import opened LittleEndian
  import opened Collator

  // ---- reading rows from a view ------------------------------------------------------------

  /** Element `j` of row `i` in section `k` of a view. */
  function Get(view: View, k: nat, i: nat, j: nat): nat
  {
    var x := Index(view.header.dims, k, i, j);
    if k < |view.sections| && x < |view.sections[k]| then view.sections[k][x] else 0
  }

  /** Subject `y` of action `x`. */
  function GetSubject(view: View, i: nat, x: nat, y: nat): nat
  {
    Get(view, ACTION_SUBJECTS, i, x * view.header.dims.s + y)
  }

  function Cut8(v: nat): u8 { v % 0x100 }
  function Cut16(v: nat): u16 { v % 0x1_0000 }
  function Cut32(v: nat): u32 { v % 0x1_0000_0000 }

  function EdgeAt(view: View, base: nat, i: nat, j: nat): Edge
  {
    Edge(Cut32(Get(view, base + 4, i, j)), Cut32(Get(view, base + 5, i, j)), Cut8(Get(view, base + 6, i, j)))
  }

  /** A rounded float, widened again. */
  function FloatAt(view: View, k: nat, i: nat, j: nat): Float
  {
    Widened(Cut16(Get(view, k, i, j)))
  }

  /** The state whose seven sections start at `base`. */
  function SideAt(view: View, base: nat, position: nat, i: nat): Side
  {
    var nodes := Get(view, base, i, 0);
    Side(Cut32(nodes),
         seq(nodes, j requires 0 <= j < nodes => Cut16(Get(view, base + 1, i, j))),
         seq(nodes * view.header.dims.d, j requires 0 <= j < nodes * view.header.dims.d =>
             FloatAt(view, base + 2, i, j)),
         seq(Get(view, base + 3, i, 0), j requires 0 <= j < Get(view, base + 3, i, 0) => EdgeAt(view, base, i, j)),
         Position(FloatAt(view, position, i, 0), FloatAt(view, position, i, 1),
                  FloatAt(view, position, i, 2), FloatAt(view, position, i, 3)))
  }

  function ActionAt(view: View, i: nat, x: nat): Action
  {
    var count := Get(view, SUBJECT_COUNT, i, x);
    Action(Cut32(Get(view, ACTION_KIND, i, x)), FloatAt(view, ACTION_PRIOR, i, x),
           seq(count, y requires 0 <= y < count => Cut32(GetSubject(view, i, x, y))))
  }

  function RowAt(view: View, i: nat): Row
  {
    var count := Get(view, ACTION_COUNT, i, 0);
    Row(SideAt(view, 0, POSITION, i),
        seq(count, x requires 0 <= x < count => ActionAt(view, i, x)),
        FloatAt(view, OPPONENT_REWARD, i, 0),
        Get(view, OPPONENT_PRESENT, i, 0) != 0,
        if Get(view, OPPONENT_STATE_PRESENT, i, 0) != 0 then Some(SideAt(view, OPPONENT, OPPONENT_POSITION, i))
          else None)
  }

  /** The rows of a batch, as many as its header announces. */
  function RowsOf(view: View): seq<Row>
  {
    seq(view.header.rowCount, i requires 0 <= i < view.header.rowCount => RowAt(view, i))
  }

  // ---- rounded rows ------------------------------------------------------------------------

  function Coarse(f: Float): Float { Widened(Rounded(f)) }

  function CoarsePosition(p: Position): Position
  {
    Position(Coarse(p.rootStep), Coarse(p.leafDepth), Coarse(p.budgetFraction), Coarse(p.budgetStep))
  }

  function CoarseSide(x: Side): Side
  {
    x.(attrs := seq(|x.attrs|, j requires 0 <= j < |x.attrs| => Coarse(x.attrs[j])),
       position := CoarsePosition(x.position))
  }

  function CoarseAction(a: Action): Action { a.(prior := Coarse(a.prior)) }

  /** The row with its floats rounded, and nothing else changed. */
  function CoarseRow(row: Row): Row
  {
    Row(CoarseSide(row.own),
        seq(|row.actions|, x requires 0 <= x < |row.actions| => CoarseAction(row.actions[x])),
        Coarse(row.opponentReward), row.opponentPresent,
        if row.opponent.Some? then Some(CoarseSide(row.opponent.value)) else None)
  }

  // ---- what a view of a collated batch shows -----------------------------------------------

  /** Each field at the row's own index with zeros after it, each subject at its action's place, markers elsewhere. */
  ghost predicate RowShown(view: View, row: Row, i: nat)
  {
    var m := view.header.dims;
    && (forall k: nat, j: nat :: k != ACTION_SUBJECTS && InBounds(m, k, i, j) ==>
        Get(view, k, i, j) == FieldAt(row, k, j))
    && (forall x: nat, y: nat :: x < m.a && y < m.s ==>
          GetSubject(view, i, x, y) == SubjectAt(row.actions, |row.actions|, x, y))
  }

  /** Only padding. */
  ghost predicate PaddingShown(view: View, i: nat)
  {
    var m := view.header.dims;
    && (forall k: nat, j: nat :: k != ACTION_SUBJECTS && InBounds(m, k, i, j) ==> Get(view, k, i, j) == 0)
    && (forall x: nat, y: nat :: x < m.a && y < m.s ==> GetSubject(view, i, x, y) == NO_SUBJECT)
  }

  lemma GetIsValue(view: View, buf: Bytes, k: nat, i: nat, j: nat)
    requires Shows(view, buf) && InBounds(view.header.dims, k, i, j)
    ensures Get(view, k, i, j) == Value(view.header.dims, buf, k, i, j)
  {
    hide Value, Index;
    assert ShowsSection(view.header.dims, view.sections[k], buf, k);
  }

  lemma SubjectInBounds(m: Dims, i: nat, x: nat, y: nat)
    requires i < m.b && x < m.a && y < m.s
    ensures InBounds(m, ACTION_SUBJECTS, i, x * m.s + y)
  {
    RowsFit(m.s, m.a, x, y);
  }

  lemma StoredIsShown(view: View, buf: Bytes, row: Row, i: nat)
    requires Shows(view, buf) && i < view.header.dims.b && RowStored(view.header.dims, buf, row, i)
    ensures RowShown(view, row, i)
  {
    hide Get, Value, InBounds, FieldAt, SubjectAt, TotalLen, ShowsSection;
    var m := view.header.dims;
    forall k: nat, j: nat | k != ACTION_SUBJECTS && InBounds(m, k, i, j)
      ensures Get(view, k, i, j) == FieldAt(row, k, j)
    {
      assert k < SECTIONS by { SectionOf(m, k, i, j); }
      assert FieldStored(m, buf, row, i, k);
      GetIsValue(view, buf, k, i, j);
    }
    forall x: nat, y: nat | x < m.a && y < m.s
      ensures GetSubject(view, i, x, y) == SubjectAt(row.actions, |row.actions|, x, y)
    {
      SubjectInBounds(m, i, x, y);
      assert SubjectStored(m, buf, row.actions, |row.actions|, i, x, y);
      GetIsValue(view, buf, ACTION_SUBJECTS, i, x * m.s + y);
    }
  }

  lemma SectionOf(m: Dims, k: nat, i: nat, j: nat)
    requires InBounds(m, k, i, j)
    ensures k < SECTIONS
  {
  }

  lemma UntouchedIsShown(view: View, buf: Bytes, i: nat)
    requires Shows(view, buf) && i < view.header.dims.b && RowUntouched(view.header.dims, buf, i)
    ensures PaddingShown(view, i)
  {
    hide Get, Value, InBounds, TotalLen, ShowsSection;
    var m := view.header.dims;
    forall k: nat, j: nat | k != ACTION_SUBJECTS && InBounds(m, k, i, j)
      ensures Get(view, k, i, j) == 0
    {
      assert k < SECTIONS by { SectionOf(m, k, i, j); }
      assert Zeroed(m, buf, i, k);
      GetIsValue(view, buf, k, i, j);
    }
    forall x: nat, y: nat | x < m.a && y < m.s
      ensures GetSubject(view, i, x, y) == NO_SUBJECT
    {
      SubjectInBounds(m, i, x, y);
      assert SubjectStored(m, buf, [], 0, i, x, y);
      GetIsValue(view, buf, ACTION_SUBJECTS, i, x * m.s + y);
    }
  }

  // ---- the rows come back ------------------------------------------------------------------

  /** A state's seven sections are shown from `base` on, its position in section `position`. */
  ghost predicate SideShown(view: View, x: Side, base: nat, position: nat, i: nat)
  {
    && (forall k: nat, j: nat :: k < 7 && j < |SideField(x, k)| ==> Get(view, base + k, i, j) == SideField(x, k)[j])
    && forall j: nat :: j < 4 ==> Get(view, position, i, j) == PositionField(x.position)[j]
  }

  lemma FloatReadsBack(view: View, k: nat, i: nat, j: nat, f: Float)
    requires Get(view, k, i, j) == Rounded(f)
    ensures FloatAt(view, k, i, j) == Coarse(f)
  {
    hide Get, Rounded, Widened;
  }

  lemma SideReadsBack(view: View, x: Side, base: nat, position: nat, i: nat)
    requires SideFits(view.header.dims, x) && SideShown(view, x, base, position, i)
    ensures SideAt(view, base, position, i) == CoarseSide(x)
  {
    hide Get, Rounded, Widened, FloatAt, Coarse, EdgeAt;
    var nodes := |SideField(x, 1)|;
    assert Get(view, base + 0, i, 0) == SideField(x, 0)[0] == nodes;
    assert Get(view, base + 3, i, 0) == SideField(x, 3)[0] == |x.edges|;
    var read := SideAt(view, base, position, i);
    assert read.tokens == x.tokens by { TokensReadBack(view, x, base, position, i); }
    assert read.attrs == CoarseSide(x).attrs by { AttrsReadBack(view, x, base, position, i); }
    assert read.edges == x.edges by { EdgesReadBack(view, x, base, position, i); }
    FloatReadsBack(view, position, i, 0, x.position.rootStep);
    FloatReadsBack(view, position, i, 1, x.position.leafDepth);
    FloatReadsBack(view, position, i, 2, x.position.budgetFraction);
    FloatReadsBack(view, position, i, 3, x.position.budgetStep);
  }

  lemma TokensReadBack(view: View, x: Side, base: nat, position: nat, i: nat)
    requires SideShown(view, x, base, position, i)
    ensures forall j :: 0 <= j < |x.tokens| ==> Cut16(Get(view, base + 1, i, j)) == x.tokens[j]
  {
    hide Get;
    forall j | 0 <= j < |x.tokens|
      ensures Cut16(Get(view, base + 1, i, j)) == x.tokens[j]
    {
      assert Get(view, base + 1, i, j) == SideField(x, 1)[j];
    }
  }

  lemma AttrsReadBack(view: View, x: Side, base: nat, position: nat, i: nat)
    requires SideShown(view, x, base, position, i)
    ensures forall j :: 0 <= j < |x.attrs| ==> FloatAt(view, base + 2, i, j) == Coarse(x.attrs[j])
  {
    hide Get, Rounded, FloatAt, Coarse;
    forall j | 0 <= j < |x.attrs|
      ensures FloatAt(view, base + 2, i, j) == Coarse(x.attrs[j])
    {
      assert Get(view, base + 2, i, j) == SideField(x, 2)[j];
      FloatReadsBack(view, base + 2, i, j, x.attrs[j]);
    }
  }

  lemma EdgesReadBack(view: View, x: Side, base: nat, position: nat, i: nat)
    requires SideShown(view, x, base, position, i)
    ensures forall j :: 0 <= j < |x.edges| ==> EdgeAt(view, base, i, j) == x.edges[j]
  {
    hide Get;
    forall j | 0 <= j < |x.edges|
      ensures EdgeAt(view, base, i, j) == x.edges[j]
    {
      assert Get(view, base + 4, i, j) == SideField(x, 4)[j];
      assert Get(view, base + 5, i, j) == SideField(x, 5)[j];
      assert Get(view, base + 6, i, j) == SideField(x, 6)[j];
    }
  }

  /** A shown field reads as it was written. */
  lemma FieldShown(view: View, row: Row, i: nat, k: nat, j: nat)
    requires RowShown(view, row, i) && i < view.header.dims.b && RowFits(view.header.dims, row) && Encodable(row)
    requires k < SECTIONS && k != ACTION_SUBJECTS && j < |Field(row, k)|
    ensures Get(view, k, i, j) == Field(row, k)[j]
  {
    hide Get, Field, RowFits, Encodable, Stride;
    FieldFits(view.header.dims, row, k);
    assert InBounds(view.header.dims, k, i, j);
  }

  lemma OwnShown(view: View, row: Row, i: nat)
    requires RowShown(view, row, i) && i < view.header.dims.b && RowFits(view.header.dims, row) && Encodable(row)
    ensures SideShown(view, row.own, 0, POSITION, i)
  {
    hide Get, RowShown, RowFits, Encodable;
    forall k: nat, j: nat | k < 7 && j < |SideField(row.own, k)|
      ensures Get(view, 0 + k, i, j) == SideField(row.own, k)[j]
    {
      FieldShown(view, row, i, k, j);
    }
    forall j: nat | j < 4
      ensures Get(view, POSITION, i, j) == PositionField(row.own.position)[j]
    {
      FieldShown(view, row, i, POSITION, j);
    }
  }

  lemma OpponentShown(view: View, row: Row, i: nat)
    requires RowShown(view, row, i) && i < view.header.dims.b && RowFits(view.header.dims, row) && Encodable(row)
    requires row.opponent.Some?
    ensures SideShown(view, row.opponent.value, OPPONENT, OPPONENT_POSITION, i)
  {
    hide Get, RowShown, RowFits, Encodable;
    forall k: nat, j: nat | k < 7 && j < |SideField(row.opponent.value, k)|
      ensures Get(view, OPPONENT + k, i, j) == SideField(row.opponent.value, k)[j]
    {
      FieldShown(view, row, i, OPPONENT + k, j);
    }
    forall j: nat | j < 4
      ensures Get(view, OPPONENT_POSITION, i, j) == PositionField(row.opponent.value.position)[j]
    {
      FieldShown(view, row, i, OPPONENT_POSITION, j);
    }
  }

  lemma ActionReadsBack(view: View, row: Row, i: nat, x: nat)
    requires RowShown(view, row, i) && i < view.header.dims.b && RowFits(view.header.dims, row) && Encodable(row)
    requires x < |row.actions|
    ensures ActionAt(view, i, x) == CoarseAction(row.actions[x])
  {
    hide Get, Rounded, FloatAt, Coarse;
    FieldShown(view, row, i, ACTION_KIND, x);
    FieldShown(view, row, i, ACTION_PRIOR, x);
    FloatReadsBack(view, ACTION_PRIOR, i, x, row.actions[x].prior);
    FieldShown(view, row, i, SUBJECT_COUNT, x);
    var action, m := row.actions[x], view.header.dims;
    forall y | 0 <= y < |action.subjects|
      ensures GetSubject(view, i, x, y) == action.subjects[y]
    {
      assert GetSubject(view, i, x, y) == SubjectAt(row.actions, |row.actions|, x, y);
    }
  }

  lemma RowReadsBack(view: View, row: Row, i: nat)
    requires RowShown(view, row, i) && i < view.header.dims.b && RowFits(view.header.dims, row) && Encodable(row)
    ensures RowAt(view, i) == CoarseRow(row)
  {
    hide Get, SideAt, ActionAt, RowShown, Encodable, Rounded, FloatAt, Coarse, CoarseSide, CoarseAction;
    OwnShown(view, row, i);
    SideReadsBack(view, row.own, 0, POSITION, i);
    FieldShown(view, row, i, ACTION_COUNT, 0);
    FieldShown(view, row, i, OPPONENT_REWARD, 0);
    FloatReadsBack(view, OPPONENT_REWARD, i, 0, row.opponentReward);
    FieldShown(view, row, i, OPPONENT_PRESENT, 0);
    forall x | 0 <= x < |row.actions|
      ensures ActionAt(view, i, x) == CoarseAction(row.actions[x])
    {
      ActionReadsBack(view, row, i, x);
    }
    assert RowAt(view, i).actions == CoarseRow(row).actions;
    if row.opponent.Some? {
      FieldShown(view, row, i, OPPONENT_STATE_PRESENT, 0);
      OpponentShown(view, row, i);
      SideReadsBack(view, row.opponent.value, OPPONENT, OPPONENT_POSITION, i);
    } else {
      NoOpponentShown(view, row, i);
    }
  }

  lemma NoOpponentShown(view: View, row: Row, i: nat)
    requires RowShown(view, row, i) && i < view.header.dims.b && row.opponent.None?
    ensures Get(view, OPPONENT_STATE_PRESENT, i, 0) == 0
  {
    hide Get;
    assert InBounds(view.header.dims, OPPONENT_STATE_PRESENT, i, 0);
  }

  lemma BatchShown(view: View, buf: Bytes, rows: seq<Row>)
    requires Shows(view, buf) && Batch(buf, view.header, rows)
    ensures forall i :: 0 <= i < |rows| ==> RowShown(view, rows[i], i)
    ensures forall i: nat :: |rows| <= i < view.header.dims.b ==> PaddingShown(view, i)
  {
    hide Shows, RowStored, RowUntouched, RowShown, PaddingShown, HeaderBytes, TotalLen;
    forall i | 0 <= i < |rows| ensures RowShown(view, rows[i], i) { StoredIsShown(view, buf, rows[i], i); }
    forall i: nat | |rows| <= i < view.header.dims.b ensures PaddingShown(view, i) { UntouchedIsShown(view, buf, i); }
  }

  /**
   * Round trip: rows that fit are collated and parsed back, equal but for the rounding of their floats. Each
   * field, subject and padding element is at its own place, and the rows never written show only padding; rows
   * that do not fit are refused.
   */
  method CollateThenParse(hash: SchemaHash, v: Vocabulary, m: Dims, rows: seq<Row>)
    returns (r: Result<View, FeatureError>)
    requires m.b > 0
    ensures r.Ok? <==> 0 < |rows| <= m.b && forall i :: 0 <= i < |rows| ==>
            RowValid(v, m, rows[i]) && Encodable(rows[i])
    ensures r.Ok? ==> r.value.header == Header(hash, m, |rows|) && |RowsOf(r.value)| == |rows|
    ensures r.Ok? ==> forall i :: 0 <= i < |rows| ==> RowsOf(r.value)[i] == CoarseRow(rows[i])
    ensures r.Ok? ==> forall i :: 0 <= i < |rows| ==> RowShown(r.value, rows[i], i)
    ensures r.Ok? ==> forall i: nat :: |rows| <= i < m.b ==> PaddingShown(r.value, i)
  {
    hide Batch, Shows, RowFits, RowValid, Encodable, ParseHeader, TotalLen, RowShown, PaddingShown, RowAt;
    var collated := Collate(hash, v, m, rows);
    if collated.Err? {
      return Err(collated.error);
    }
    ghost var buf := collated.value[..];
    BatchParses(buf, Header(hash, m, |rows|), rows);
    r := Parse(collated.value[..]);
    BatchShown(r.value, buf, rows);
    forall i | 0 <= i < |rows|
      ensures RowAt(r.value, i) == CoarseRow(rows[i])
    {
      ValidFits(v, m, rows[i]);
      RowReadsBack(r.value, rows[i], i);
    }
  }
}
