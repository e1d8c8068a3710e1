/** The WAV1 graph encoding: the bytes the engine hashes and exports. */
module Wav1 {
  import opened Basics
  import opened LittleEndian
  import opened Graphs

  const MAGIC: Bytes := [0x57, 0x41, 0x56, 0x31]
  const HEADER_LENGTH: nat := 16
  const NODE_LENGTH: nat := 9

  function OpToByte(op: OpCode): (b: u8)
    ensures OpFromByte(b) == Ok(op)
  {
    match op
    case Input => 0
    case Const => 1
    case And => 2
    case Or => 3
    case Not => 4
    case Output => 5
  }

  /** `OpCode::from_i8` on a byte read as signed. */
  function OpFromByte(b: u8): Result<OpCode, GraphError>
  {
    match b
    case 0 => Ok(Input)
    case 1 => Ok(Const)
    case 2 => Ok(And)
    case 3 => Ok(Or)
    case 4 => Ok(Not)
    case 5 => Ok(Output)
    case _ => Err(BadOp(if b < 0x80 then b else b - 0x100))
  }

  function EncodeNode(op: OpCode, a: u32, b: u32): (bytes: Bytes)
    ensures |bytes| == NODE_LENGTH
  {
    [OpToByte(op)] + Encode(a, 4) + Encode(b, 4)
  }

  /** The first `k` nodes, one after the other. */
  function EncodeNodes(g: GraphBody, k: nat): (bytes: Bytes)
    requires g.Shaped() && k <= g.Size()
    ensures |bytes| == NODE_LENGTH * k
  {
    if k == 0 then [] else EncodeNodes(g, k - 1) + EncodeNode(g.op[k - 1], g.arg0[k - 1], g.arg1[k - 1])
  }

  function EncodeHeader(g: GraphBody): (bytes: Bytes)
    requires g.Shaped()
    ensures |bytes| == HEADER_LENGTH
  {
    MAGIC + Encode(g.arity, 2) + Encode(g.capacity, 2) + Encode(g.Size(), 4) + Encode(g.outputNode, 4)
  }

  /** `serialize_wav1`. */
  function Serialize(g: GraphBody): Bytes
    requires g.Shaped()
  {
    EncodeHeader(g) + EncodeNodes(g, g.Size())
  }

  function NodeAt(bytes: Bytes, i: nat): Result<Gate, GraphError>
    requires HEADER_LENGTH + NODE_LENGTH * (i + 1) <= |bytes|
  {
    var offset := HEADER_LENGTH + NODE_LENGTH * i;
    match OpFromByte(bytes[offset])
    case Err(e) => Err(e)
    case Ok(op) => Ok(Gate(op, U32At(bytes, offset + 1), U32At(bytes, offset + 5)))
  }

  /** The columns of the first `k` nodes; the first bad opcode stops the reading. */
  function DecodeNodes(bytes: Bytes, k: nat): (r: Result<(seq<OpCode>, seq<u32>, seq<u32>), GraphError>)
    requires HEADER_LENGTH + NODE_LENGTH * k <= |bytes|
    ensures r.Ok? ==> |r.value.0| == |r.value.1| == |r.value.2| == k
  {
    if k == 0 then Ok(([], [], []))
    else match DecodeNodes(bytes, k - 1)
      case Err(e) => Err(e)
      case Ok(init) =>
        match NodeAt(bytes, k - 1)
        case Err(e) => Err(e)
        case Ok(gate) => Ok((init.0 + [gate.op], init.1 + [gate.a], init.2 + [gate.b]))
  }

  /** `deserialize_wav1`. */
  function Deserialize(bytes: Bytes): Result<GraphBody, GraphError>
  {
    if |bytes| < HEADER_LENGTH || bytes[..4] != MAGIC then Err(InvalidInput("bad WAV1 graph artifact"))
    else
      var arity := U16At(bytes, 4);
      var capacity := U16At(bytes, 6);
      var count := U32At(bytes, 8);
      var output := U32At(bytes, 12);
      if |bytes| != HEADER_LENGTH + NODE_LENGTH * count then Err(InvalidInput("wrong WAV1 graph artifact length"))
      else match DecodeNodes(bytes, count)
        case Err(e) => Err(e)
        case Ok(columns) =>
          var body := GraphBody(arity, capacity, output, columns.0, columns.1, columns.2);
          match Validate(body)
          case Some(e) => Err(e)
          case None => Ok(body)
  }

  // ---- round trip --------------------------------------------------------------------------

  lemma {:induction false} EncodedNodeAt(g: GraphBody, k: nat, i: nat)
    requires g.Shaped() && i < k <= g.Size()
    ensures EncodeNodes(g, k)[NODE_LENGTH * i..NODE_LENGTH * (i + 1)] == EncodeNode(g.op[i], g.arg0[i], g.arg1[i])
    decreases k
  {
    var last := EncodeNode(g.op[k - 1], g.arg0[k - 1], g.arg1[k - 1]);
    var init := EncodeNodes(g, k - 1);
    if i == k - 1 {
      assert (init + last)[|init|..] == last;
    } else {
      EncodedNodeAt(g, k - 1, i);
      assert (init + last)[NODE_LENGTH * i..NODE_LENGTH * (i + 1)] == init[NODE_LENGTH * i..NODE_LENGTH * (i + 1)];
    }
  }

  /** The bytes of node `i` are where the header and the earlier nodes end. */
  lemma SerializedNode(g: GraphBody, i: nat)
    requires g.Shaped() && i < g.Size()
    ensures |Serialize(g)| == HEADER_LENGTH + NODE_LENGTH * g.Size()
    ensures var offset := HEADER_LENGTH + NODE_LENGTH * i;
            offset + NODE_LENGTH <= |Serialize(g)|
            && Serialize(g)[offset..offset + NODE_LENGTH] == EncodeNode(g.op[i], g.arg0[i], g.arg1[i])
  {
    hide Encode, EncodeNode, EncodeNodes;
    EncodedNodeAt(g, g.Size(), i);
    var nodes := EncodeNodes(g, g.Size());
    SliceAfter(Serialize(g), nodes, HEADER_LENGTH, NODE_LENGTH * i, NODE_LENGTH * (i + 1));
  }

  lemma SliceAfter(bytes: Bytes, nodes: Bytes, header: nat, from: nat, to: nat)
    requires |bytes| == header + |nodes| && bytes[header..] == nodes && from <= to <= |nodes|
    ensures bytes[header + from..header + to] == nodes[from..to]
  {
    assert bytes[header..][from..to] == bytes[header + from..header + to];
  }

  lemma DecodedNode(g: GraphBody, i: nat)
    requires g.Shaped() && i < g.Size()
    ensures |Serialize(g)| == HEADER_LENGTH + NODE_LENGTH * g.Size()
    ensures NodeAt(Serialize(g), i) == Ok(Gate(g.op[i], g.arg0[i], g.arg1[i]))
  {
    hide Encode, U32At, OpFromByte, Serialize;
    SerializedNode(g, i);
    NodeFromBytes(Serialize(g), i, g.op[i], g.arg0[i], g.arg1[i]);
  }

  lemma NodeFromBytes(bytes: Bytes, i: nat, op: OpCode, a: u32, b: u32)
    requires HEADER_LENGTH + NODE_LENGTH * (i + 1) <= |bytes|
    requires bytes[HEADER_LENGTH + NODE_LENGTH * i..HEADER_LENGTH + NODE_LENGTH * i + NODE_LENGTH]
             == EncodeNode(op, a, b)
    ensures NodeAt(bytes, i) == Ok(Gate(op, a, b))
  {
    hide Encode, U32At, OpFromByte;
    var offset, node := HEADER_LENGTH + NODE_LENGTH * i, EncodeNode(op, a, b);
    SubSlice(bytes, offset, node, 0, 1);
    SubSlice(bytes, offset, node, 1, 5);
    SubSlice(bytes, offset, node, 5, 9);
    assert node[0..1] == [OpToByte(op)] && node[1..5] == Encode(a, 4) && node[5..9] == Encode(b, 4);
    assert bytes[offset + 0..offset + 1][0] == OpToByte(op);
    U32Of(bytes, offset + 1, a);
    U32Of(bytes, offset + 5, b);
  }

  lemma SubSlice(bytes: Bytes, offset: nat, part: Bytes, from: nat, to: nat)
    requires offset + |part| <= |bytes| && bytes[offset..offset + |part|] == part && from <= to <= |part|
    ensures bytes[offset + from..offset + to] == part[from..to]
  {
    forall k | 0 <= k < |part|
      ensures bytes[offset + k] == part[k]
    {
      assert bytes[offset..offset + |part|][k] == part[k];
    }
  }

  lemma {:induction false} DecodedNodes(g: GraphBody, k: nat)
    requires g.Shaped() && k <= g.Size()
    ensures |Serialize(g)| == HEADER_LENGTH + NODE_LENGTH * g.Size()
    ensures DecodeNodes(Serialize(g), k) == Ok((g.op[..k], g.arg0[..k], g.arg1[..k]))
  {
    hide Serialize;
    assert |Serialize(g)| == HEADER_LENGTH + NODE_LENGTH * g.Size() by { SerializedLength(g); }
    if k > 0 {
      DecodedNodes(g, k - 1);
      DecodedNode(g, k - 1);
      assert g.op[..k] == g.op[..k - 1] + [g.op[k - 1]];
      assert g.arg0[..k] == g.arg0[..k - 1] + [g.arg0[k - 1]];
      assert g.arg1[..k] == g.arg1[..k - 1] + [g.arg1[k - 1]];
    }
  }

  lemma SerializedLength(g: GraphBody)
    requires g.Shaped()
    ensures |Serialize(g)| == HEADER_LENGTH + NODE_LENGTH * g.Size()
  {
  }

  lemma DecodedHeader(g: GraphBody)
    requires g.Shaped()
    ensures |Serialize(g)| >= HEADER_LENGTH
    ensures var b := Serialize(g);
            && b[..4] == MAGIC
            && U16At(b, 4) == g.arity && U16At(b, 6) == g.capacity
            && U32At(b, 8) == g.Size() && U32At(b, 12) == g.outputNode
  {
    hide Encode, EncodeNodes, U16At, U32At;
    var b, h := Serialize(g), EncodeHeader(g);
    assert b[0..HEADER_LENGTH] == h;
    SubSlice(b, 0, h, 4, 6);
    SubSlice(b, 0, h, 6, 8);
    SubSlice(b, 0, h, 8, 12);
    SubSlice(b, 0, h, 12, 16);
    assert b[..4] == h[..4] == MAGIC;
    assert h[4..6] == Encode(g.arity, 2) && h[6..8] == Encode(g.capacity, 2);
    assert h[8..12] == Encode(g.Size(), 4) && h[12..16] == Encode(g.outputNode, 4);
    U16Of(b, 4, g.arity);
    U16Of(b, 6, g.capacity);
    U32Of(b, 8, g.Size());
    U32Of(b, 12, g.outputNode);
  }

  /** Decoding an encoded valid graph gives the graph back, so the encoding is injective. */
  lemma SerializeRoundTrip(g: GraphBody)
    requires Validate(g).None?
    ensures Deserialize(Serialize(g)) == Ok(g)
  {
    hide Serialize, NodeAt;
    DecodedHeader(g);
    SerializedLength(g);
    DecodedNodes(g, g.Size());
    assert g.op[..g.Size()] == g.op && g.arg0[..g.Size()] == g.arg0 && g.arg1[..g.Size()] == g.arg1;
  }

  // ---- canonical form ----------------------------------------------------------------------

  lemma NodeRebuilt(bytes: Bytes, i: nat)
    requires HEADER_LENGTH + NODE_LENGTH * (i + 1) <= |bytes| && NodeAt(bytes, i).Ok?
    ensures var gate := NodeAt(bytes, i).value;
            var offset := HEADER_LENGTH + NODE_LENGTH * i;
            bytes[offset..offset + NODE_LENGTH] == EncodeNode(gate.op, gate.a, gate.b)
  {
    hide Encode, Decode;
    var offset := HEADER_LENGTH + NODE_LENGTH * i;
    var gate := NodeAt(bytes, i).value;
    DecodeRoundTrip(bytes[offset + 1..offset + 5]);
    DecodeRoundTrip(bytes[offset + 5..offset + 9]);
    assert OpToByte(gate.op) == bytes[offset];
    Join(bytes, offset, offset + 1, offset + 5);
    Join(bytes, offset, offset + 5, offset + 9);
  }

  lemma Join(bytes: Bytes, from: nat, mid: nat, to: nat)
    requires from <= mid <= to <= |bytes|
    ensures bytes[from..mid] + bytes[mid..to] == bytes[from..to]
  {
  }

  lemma {:induction false} NodesRebuilt(bytes: Bytes, g: GraphBody, k: nat)
    requires g.Shaped() && k <= g.Size() && HEADER_LENGTH + NODE_LENGTH * k <= |bytes|
    requires DecodeNodes(bytes, k) == Ok((g.op[..k], g.arg0[..k], g.arg1[..k]))
    ensures EncodeNodes(g, k) == bytes[HEADER_LENGTH..HEADER_LENGTH + NODE_LENGTH * k]
  {
    if k > 0 {
      hide NodeAt, EncodeNode;
      var init := DecodeNodes(bytes, k - 1).value;
      var gate := NodeAt(bytes, k - 1).value;
      Snoc(init.0, gate.op, g.op, k);
      Snoc(init.1, gate.a, g.arg0, k);
      Snoc(init.2, gate.b, g.arg1, k);
      NodesRebuilt(bytes, g, k - 1);
      NodeRebuilt(bytes, k - 1);
      Join(bytes, HEADER_LENGTH, HEADER_LENGTH + NODE_LENGTH * (k - 1), HEADER_LENGTH + NODE_LENGTH * k);
    }
  }

  lemma Snoc<T>(init: seq<T>, last: T, all: seq<T>, k: nat)
    requires 0 < k <= |all| && init + [last] == all[..k]
    ensures init == all[..k - 1] && last == all[k - 1]
  {
    assert (init + [last])[..k - 1] == init;
    assert all[..k][k - 1] == last;
  }

  lemma HeaderRebuilt(bytes: Bytes, g: GraphBody)
    requires g.Shaped() && |bytes| >= HEADER_LENGTH && bytes[..4] == MAGIC
    requires U16At(bytes, 4) == g.arity && U16At(bytes, 6) == g.capacity
    requires U32At(bytes, 8) == g.Size() && U32At(bytes, 12) == g.outputNode
    ensures bytes[..HEADER_LENGTH] == EncodeHeader(g)
  {
    hide Encode, Decode;
    DecodeRoundTrip(bytes[4..6]);
    DecodeRoundTrip(bytes[6..8]);
    DecodeRoundTrip(bytes[8..12]);
    DecodeRoundTrip(bytes[12..16]);
    Join(bytes, 0, 4, 6);
    Join(bytes, 0, 6, 8);
    Join(bytes, 0, 8, 12);
    Join(bytes, 0, 12, 16);
    assert bytes[0..4] == bytes[..4] && bytes[0..16] == bytes[..16];
  }

  /**
   * The encoding is canonical: bytes are accepted if and only if they are the encoding of a valid graph, and then
   * that graph is what they decode to.
   */
  lemma DeserializeCanonical(bytes: Bytes, g: GraphBody)
    ensures Deserialize(bytes) == Ok(g) <==> Validate(g).None? && Serialize(g) == bytes
  {
    hide EncodeHeader, EncodeNodes, DecodeNodes, U16At, U32At;
    if Deserialize(bytes) == Ok(g) {
      var n := g.Size();
      assert g.op[..n] == g.op && g.arg0[..n] == g.arg0 && g.arg1[..n] == g.arg1;
      HeaderRebuilt(bytes, g);
      NodesRebuilt(bytes, g, n);
      assert bytes == bytes[..HEADER_LENGTH] + bytes[HEADER_LENGTH..HEADER_LENGTH + NODE_LENGTH * n];
    } else if Validate(g).None? && Serialize(g) == bytes {
      SerializeRoundTrip(g);
    }
  }
}
