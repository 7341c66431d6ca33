/** The NetFlow v9 packets of flowgen (cmd/flowgen/netflow.go) and a decoder after sections 5.1 to 5.3 of RFC 3954. */
module NetFlow {
  import opened Options

  type Byte = x: int | 0 <= x < 256

  // ---- Big-endian numbers --------------------------------------------------------------------------

  function Pow256(n: nat): nat {
    if n == 0 then 1 else 256 * Pow256(n - 1)
  }

  /** The low `n` bytes of `v`, most significant first: appendU16, appendU32 and appendU64 for n of 2, 4 and 8. */
  function BigEndian(v: nat, n: nat): (bs: seq<Byte>)
    ensures |bs| == n
  {
    if n == 0 then [] else BigEndian(v / 256, n - 1) + [v % 256]
  }

  function Number(bs: seq<Byte>): nat {
    if bs == [] then 0 else Number(bs[..|bs| - 1]) * 256 + bs[|bs| - 1]
  }

  lemma {:induction false} NumberOfBigEndian(v: nat, n: nat)
    requires v < Pow256(n)
    ensures Number(BigEndian(v, n)) == v
  {
    if n > 0 {
      QuotientFits(v, Pow256(n - 1));
      NumberOfBigEndian(v / 256, n - 1);
      assert BigEndian(v, n)[..n - 1] == BigEndian(v / 256, n - 1);
    }
  }

  /** Network byte order: a byte weighs 256 times the one after it. */
  lemma {:induction false} FirstByteWeighsMost(bs: seq<Byte>)
    requires bs != []
    ensures Number(bs) == bs[0] * Pow256(|bs| - 1) + Number(bs[1..])
    ensures |bs| == 1 ==> Number(bs) == bs[0]
  {
    var n := |bs| - 1;
    if n > 0 {
      FirstByteWeighsMost(bs[..n]);
      assert bs[..n][1..] == bs[1..][..n - 1];
      TimesPow(bs[0], n - 1);
    }
  }

  lemma TimesPow(a: nat, n: nat)
    ensures a * Pow256(n) * 256 == a * Pow256(n + 1)
  {
  }

  lemma QuotientFits(v: nat, p: nat)
    requires v < 256 * p
    ensures v / 256 < p
  {
  }

  // ---- Fixed layouts -------------------------------------------------------------------------------

  /** A number written with a given width. */
  datatype Cell = Cell(value: nat, width: nat)

  ghost predicate Fits(cells: seq<Cell>) {
    forall i :: 0 <= i < |cells| ==> cells[i].value < Pow256(cells[i].width)
  }

  function Encode(cells: seq<Cell>): seq<Byte> {
    if cells == [] then [] else BigEndian(cells[0].value, cells[0].width) + Encode(cells[1..])
  }

  /** Reads one number per width, and returns what is left. */
  function Read(widths: seq<nat>, bs: seq<Byte>): Option<(seq<nat>, seq<Byte>)> {
    if widths == [] then Some(([], bs))
    else if |bs| < widths[0] then None
    else
      match Read(widths[1..], bs[widths[0]..])
      case None => None
      case Some(r) => Some(([Number(bs[..widths[0]])] + r.0, r.1))
  }

  function Widths(cells: seq<Cell>): (ws: seq<nat>)
    ensures |ws| == |cells|
  {
    seq(|cells|, i requires 0 <= i < |cells| => cells[i].width)
  }

  function Values(cells: seq<Cell>): (vs: seq<nat>)
    ensures |vs| == |cells|
  {
    seq(|cells|, i requires 0 <= i < |cells| => cells[i].value)
  }

  lemma ReadCons(w: nat, ws: seq<nat>, head: seq<Byte>, tail: seq<Byte>)
    requires |head| == w && Read(ws, tail).Some?
    ensures Read([w] + ws, head + tail) == Some(([Number(head)] + Read(ws, tail).value.0, Read(ws, tail).value.1))
  {
    assert (head + tail)[..w] == head && (head + tail)[w..] == tail;
    assert ([w] + ws)[1..] == ws;
  }

  lemma {:induction false} ReadBack(cells: seq<Cell>, rest: seq<Byte>)
    requires Fits(cells)
    ensures Read(Widths(cells), Encode(cells) + rest) == Some((Values(cells), rest))
    decreases |cells|
  {
    hide Pow256, BigEndian;
    if cells == [] {
      assert Encode(cells) + rest == rest;
    } else {
      var c := cells[0];
      ReadBack(cells[1..], rest);
      NumberOfBigEndian(c.value, c.width);
      ReadCons(c.width, Widths(cells[1..]), BigEndian(c.value, c.width), Encode(cells[1..]) + rest);
      ShapeOfCons(cells, rest);
    }
    hide Read, Encode, Widths, Values, Number, Fits;
  }

  lemma ShapeOfCons(cells: seq<Cell>, rest: seq<Byte>)
    requires cells != []
    ensures var c := cells[0];
            && Encode(cells) + rest == BigEndian(c.value, c.width) + (Encode(cells[1..]) + rest)
            && Widths(cells) == [c.width] + Widths(cells[1..])
            && Values(cells) == [c.value] + Values(cells[1..])
  {
    EncodeCons(cells, rest);
    ColumnsOfCons(cells);
    hide *;
  }

  lemma ColumnsOfCons(cells: seq<Cell>)
    requires cells != []
    ensures Widths(cells) == [cells[0].width] + Widths(cells[1..])
    ensures Values(cells) == [cells[0].value] + Values(cells[1..])
  {
  }

  lemma EncodeCons(cells: seq<Cell>, rest: seq<Byte>)
    requires cells != []
    ensures var c := cells[0];
            Encode(cells) + rest == BigEndian(c.value, c.width) + (Encode(cells[1..]) + rest)
  {
    hide BigEndian;
    var c := cells[0];
    var head, tail := BigEndian(c.value, c.width), Encode(cells[1..]);
    assert Encode(cells) == head + tail;
    hide *;
    assert (head + tail) + rest == head + (tail + rest);
  }

  lemma {:induction false} EncodeAppend(a: seq<Cell>, b: seq<Cell>)
    ensures Encode(a + b) == Encode(a) + Encode(b)
    decreases |a|
  {
    if a == [] {
      assert a + b == b;
    } else {
      EncodeAppend(a[1..], b);
      assert (a + b)[1..] == a[1..] + b;
    }
  }

  lemma EncodeOne(cells: seq<Cell>, c: Cell)
    ensures Encode(cells + [c]) == Encode(cells) + BigEndian(c.value, c.width)
  {
    EncodeAppend(cells, [c]);
    assert [c][1..] == [];
    assert BigEndian(c.value, c.width) + [] == BigEndian(c.value, c.width);
  }

  function Size(widths: seq<nat>): nat {
    if widths == [] then 0 else widths[0] + Size(widths[1..])
  }

  lemma {:induction false} EncodeLength(cells: seq<Cell>)
    ensures |Encode(cells)| == Size(Widths(cells))
  {
    if cells != [] {
      EncodeLength(cells[1..]);
      assert Widths(cells)[1..] == Widths(cells[1..]);
    }
  }

  // ---- The decoder ---------------------------------------------------------------------------------

  datatype Header = Header(version: nat, count: nat, sysUptime: nat, unixSecs: nat, sequence: nat, sourceId: nat)

  datatype FlowSet = FlowSet(id: nat, body: seq<Byte>)

  datatype FieldSpec = FieldSpec(fieldType: nat, fieldLength: nat)

  datatype Template = Template(id: nat, fields: seq<FieldSpec>)

  const VERSION: nat := 9

  /** Section 5.1: the packet header and the FlowSets after it. */
  function DecodePacket(bs: seq<Byte>): Option<(Header, seq<FlowSet>)> {
    match Read([2, 2, 4, 4, 4, 4], bs)
    case None => None
    case Some((v, rest)) =>
      if |v| != 6 || v[0] != VERSION then None
      else match FlowSets(rest)
           case None => None
           case Some(sets) => Some((Header(v[0], v[1], v[2], v[3], v[4], v[5]), sets))
  }

  /** Each FlowSet says its own length, header included. */
  function FlowSets(bs: seq<Byte>): Option<seq<FlowSet>>
    decreases |bs|
  {
    if bs == [] then Some([])
    else match Read([2, 2], bs)
         case None => None
         case Some((v, _)) =>
           if |v| != 2 || v[1] < 4 || v[1] > |bs| then None
           else match FlowSets(bs[v[1]..])
                case None => None
                case Some(sets) => Some([FlowSet(v[0], bs[4..v[1]])] + sets)
  }

  /** Section 5.2: the templates of a Template FlowSet's body. */
  function Templates(body: seq<Byte>): Option<seq<Template>>
    decreases |body|
  {
    if |body| < 4 then Some([])
    else match Read([2, 2], body)
         case None => None
         case Some((v, _)) =>
           if |v| != 2 || 4 + 4 * v[1] > |body| then None
           else match Templates(body[4 + 4 * v[1]..])
                case None => None
                case Some(ts) => Some([Template(v[0], FieldSpecs(body[4..4 + 4 * v[1]]))] + ts)
  }

  function FieldSpecs(bs: seq<Byte>): seq<FieldSpec> {
    if |bs| < 4 then []
    else [FieldSpec(Number(bs[..2]), Number(bs[2..4]))] + FieldSpecs(bs[4..])
  }

  function Lengths(fields: seq<FieldSpec>): (ws: seq<nat>)
    ensures |ws| == |fields|
  {
    seq(|fields|, i requires 0 <= i < |fields| => fields[i].fieldLength)
  }

  /** Section 5.3: the records of a Data FlowSet's body, as the values of the template's fields in order. */
  function Records(t: Template, body: seq<Byte>): seq<seq<nat>>
    decreases |body|
  {
    var size := Size(Lengths(t.fields));
    if size == 0 || |body| < size then []
    else match Read(Lengths(t.fields), body)
         case None => []
         case Some((v, _)) => [v] + Records(t, body[size..])
  }

  // ---- The encoder ---------------------------------------------------------------------------------

  const TEMPLATE_ID: nat := 256
  const FIELD_COUNT: nat := 5
  const RECORD_SIZE: nat := 25

  /** IPV4_SRC_ADDR, IPV4_DST_ADDR, PROTOCOL, IN_BYTES and IN_PKTS. */
  const TEMPLATE_FIELDS: seq<FieldSpec> :=
    [FieldSpec(8, 4), FieldSpec(12, 4), FieldSpec(4, 1), FieldSpec(1, 8), FieldSpec(2, 8)]

  function HeaderCells(sequence: nat): seq<Cell> {
    [Cell(9, 2), Cell(1, 2), Cell(0, 4), Cell(0, 4), Cell(sequence, 4), Cell(0, 4)]
  }

  function FieldCells(fields: seq<FieldSpec>): seq<Cell> {
    if fields == [] then []
    else
      var last := fields[|fields| - 1];
      FieldCells(fields[..|fields| - 1]) + [Cell(last.fieldType, 2), Cell(last.fieldLength, 2)]
  }

  function RecordCells(src: nat, dst: nat, proto: nat, pkts: nat, bytes: nat): seq<Cell> {
    [Cell(src, 4), Cell(dst, 4), Cell(proto, 1), Cell(bytes, 8), Cell(pkts, 8)]
  }

  /** appendU16, appendU32, appendU64; the cells written so far are carried along for the proof. */
  method Append(pkt: seq<Byte>, ghost cells: seq<Cell>, v: nat, n: nat) returns (r: seq<Byte>, ghost more: seq<Cell>)
    requires pkt == Encode(cells)
    ensures more == cells + [Cell(v, n)] && r == Encode(more)
  {
    EncodeOne(cells, Cell(v, n));
    r, more := pkt + BigEndian(v, n), cells + [Cell(v, n)];
  }

  method AppendHeader(sequence: nat) returns (pkt: seq<Byte>, ghost cells: seq<Cell>)
    ensures cells == HeaderCells(sequence) && pkt == Encode(cells)
  {
    hide Encode;
    EncodeNothing();
    pkt, cells := [], [];
    pkt, cells := Append(pkt, cells, 9, 2);
    pkt, cells := Append(pkt, cells, 1, 2);
    pkt, cells := Append(pkt, cells, 0, 4);
    pkt, cells := Append(pkt, cells, 0, 4);
    pkt, cells := Append(pkt, cells, sequence, 4);
    pkt, cells := Append(pkt, cells, 0, 4);
  }

  lemma EncodeNothing()
    ensures Encode([]) == []
  {
  }

  function TemplateCells(): seq<Cell> {
    HeaderCells(0)
    + [Cell(0, 2), Cell(4 + 2 + 2 + FIELD_COUNT * 4, 2), Cell(TEMPLATE_ID, 2), Cell(FIELD_COUNT, 2)]
    + FieldCells(TEMPLATE_FIELDS)
  }

  method BuildTemplate() returns (pkt: seq<Byte>)
    ensures pkt == Encode(TemplateCells())
  {
    hide Encode, FieldCells;
    var tmplPayload := 2 + 2 + FIELD_COUNT * 4;
    var tmplFlowSetLen := 4 + tmplPayload;
    ghost var cells;
    pkt, cells := AppendHeader(0);
    pkt, cells := Append(pkt, cells, 0, 2);
    pkt, cells := Append(pkt, cells, tmplFlowSetLen, 2);
    pkt, cells := Append(pkt, cells, TEMPLATE_ID, 2);
    pkt, cells := Append(pkt, cells, FIELD_COUNT, 2);
    ghost var before := cells;
    assert before == HeaderCells(0)
      + [Cell(0, 2), Cell(4 + 2 + 2 + FIELD_COUNT * 4, 2), Cell(TEMPLATE_ID, 2), Cell(FIELD_COUNT, 2)];
    var fields := TEMPLATE_FIELDS;
    NoFieldCells();
    for i := 0 to |fields|
      invariant cells == before + FieldCells(fields[..i]) && pkt == Encode(cells)
    {
      OneFieldCells(fields, i);
      pkt, cells := Append(pkt, cells, fields[i].fieldType, 2);
      pkt, cells := Append(pkt, cells, fields[i].fieldLength, 2);
    }
    assert fields[..|fields|] == fields;
  }

  lemma NoFieldCells()
    ensures FieldCells([]) == []
  {
  }

  lemma OneFieldCells(fields: seq<FieldSpec>, i: nat)
    requires i < |fields|
    ensures FieldCells(fields[..i + 1])
         == FieldCells(fields[..i]) + [Cell(fields[i].fieldType, 2), Cell(fields[i].fieldLength, 2)]
  {
    assert fields[..i + 1][..i] == fields[..i];
  }

  function DataCells(sequence: nat, src: nat, dst: nat, proto: nat, pkts: nat, bytes: nat): seq<Cell> {
    HeaderCells(sequence) + [Cell(TEMPLATE_ID, 2), Cell(4 + RECORD_SIZE, 2)] + RecordCells(src, dst, proto, pkts, bytes)
  }

  /** `src` and `dst` are the addresses' four bytes as a number, which As4 gives for IPv4 only. */
  method BuildDataRecord(sequence: nat, src: nat, dst: nat, proto: nat, pkts: nat, bytes: nat) returns (pkt: seq<Byte>)
    ensures pkt == Encode(DataCells(sequence, src, dst, proto, pkts, bytes))
  {
    hide Encode;
    var dataFlowSetLen := 4 + RECORD_SIZE;
    ghost var cells;
    pkt, cells := AppendHeader(sequence);
    pkt, cells := Append(pkt, cells, TEMPLATE_ID, 2);
    pkt, cells := Append(pkt, cells, dataFlowSetLen, 2);
    pkt, cells := Append(pkt, cells, src, 4);
    pkt, cells := Append(pkt, cells, dst, 4);
    pkt, cells := Append(pkt, cells, proto, 1);
    pkt, cells := Append(pkt, cells, bytes, 8);
    pkt, cells := Append(pkt, cells, pkts, 8);
    assert cells == DataCells(sequence, src, dst, proto, pkts, bytes);
  }

  // ---- Round trips ---------------------------------------------------------------------------------

  lemma SmallPowers()
    ensures Pow256(1) == 0x100 && Pow256(2) == 0x1_0000 && Pow256(4) == 0x1_0000_0000
    ensures Pow256(8) == 0x1_0000_0000_0000_0000
  {
    assert Pow256(3) == 256 * Pow256(2);
    assert Pow256(5) == 256 * Pow256(4);
    assert Pow256(6) == 256 * Pow256(5);
    assert Pow256(7) == 256 * Pow256(6);
  }

  /** A packet that is one FlowSet behind a flowgen header decodes to just that, if the FlowSet states its own
      length. */
  lemma OneFlowSetPacket(sequence: nat, id: nat, body: seq<Byte>)
    requires sequence < 0x1_0000_0000 && id < 0x1_0000 && 4 + |body| < 0x1_0000
    ensures DecodePacket(Encode(HeaderCells(sequence)) + (Encode([Cell(id, 2), Cell(4 + |body|, 2)]) + body))
         == Some((Header(9, 1, 0, 0, sequence, 0), [FlowSet(id, body)]))
  {
    SmallPowers();
    var head, prefix := HeaderCells(sequence), [Cell(id, 2), Cell(4 + |body|, 2)];
    var rest := Encode(prefix) + body;
    assert Fits(head) && Fits(prefix);
    hide Pow256;
    ReadBack(head, rest);
    assert Widths(head) == [2, 2, 4, 4, 4, 4] && Values(head) == [9, 1, 0, 0, sequence, 0];
    ReadBack(prefix, body);
    assert Widths(prefix) == [2, 2] && Values(prefix) == [id, 4 + |body|];
    EncodeLength(prefix);
    SizeOfTwo();
    hide Read, Encode, Size;
    OneFlowSet(id, body, rest);
  }

  lemma OneFlowSet(id: nat, body: seq<Byte>, rest: seq<Byte>)
    requires Read([2, 2], rest) == Some(([id, 4 + |body|], body)) && |rest| == 4 + |body| && rest[4..] == body
    ensures FlowSets(rest) == Some([FlowSet(id, body)])
  {
    hide Read;
    var v := Read([2, 2], rest).value.0;
    assert |v| == 2 && v[0] == id && v[1] == 4 + |body|;
    assert rest[4..v[1]] == body;
    assert rest[v[1]..] == [];
    var none: seq<FlowSet> := [];
    assert FlowSets(rest[v[1]..]) == Some(none);
    assert [FlowSet(id, body)] + none == [FlowSet(id, body)];
  }

  lemma SizeOfTwo()
    ensures Size([2, 2]) == 4
  {
    assert [2, 2][1..] == [2];
    assert [2][1..] == [];
  }

  lemma TemplatePacketDecodes()
    ensures var body := Encode([Cell(TEMPLATE_ID, 2), Cell(FIELD_COUNT, 2)] + FieldCells(TEMPLATE_FIELDS));
            && DecodePacket(Encode(TemplateCells())) == Some((Header(9, 1, 0, 0, 0, 0), [FlowSet(0, body)]))
            && Templates(body) == Some([Template(TEMPLATE_ID, TEMPLATE_FIELDS)])
  {
    var fields := TEMPLATE_FIELDS;
    var start := [Cell(TEMPLATE_ID, 2), Cell(FIELD_COUNT, 2)];
    var cells := start + FieldCells(fields);
    FieldCellsSize(fields);
    SmallPowers();
    hide Pow256, FieldCells;
    EncodeLength(start);
    assert Widths(start) == [2, 2];
    SizeOfTwo();
    EncodeAppend(start, FieldCells(fields));
    OneFlowSetPacket(0, 0, Encode(cells));
    assert TemplateCells() == HeaderCells(0) + ([Cell(0, 2), Cell(28, 2)] + cells);
    EncodeAppend(HeaderCells(0), [Cell(0, 2), Cell(28, 2)] + cells);
    EncodeAppend([Cell(0, 2), Cell(28, 2)], cells);
    TemplateBody(fields);
    hide DecodePacket, Encode;
  }

  /** Any list of fields survives the Template FlowSet. */
  lemma {:induction false} TemplateBody(fields: seq<FieldSpec>)
    requires |fields| < 0x1_0000
    requires forall i :: 0 <= i < |fields| ==> fields[i].fieldType < 0x1_0000 && fields[i].fieldLength < 0x1_0000
    ensures Templates(Encode([Cell(TEMPLATE_ID, 2), Cell(|fields|, 2)] + FieldCells(fields)))
         == Some([Template(TEMPLATE_ID, fields)])
  {
    hide Read, Encode, Size, FieldCells, FieldSpecs, Templates, Pow256;
    var id := TEMPLATE_ID;
    var start := [Cell(id, 2), Cell(|fields|, 2)];
    var tail := Encode(FieldCells(fields));
    SmallPowers();
    ReadBack(start, tail);
    assert Widths(start) == [2, 2] && Values(start) == [id, |fields|];
    EncodeAppend(start, FieldCells(fields));
    EncodeLength(start);
    SizeOfTwo();
    FieldCellsSize(fields);
    FieldSpecsBack(fields);
    var body := Encode(start) + tail;
    assert body[4..] == tail;
    OneTemplate(body, id, |fields|, tail);
  }

  /** A body that holds one template and nothing more. */
  lemma OneTemplate(body: seq<Byte>, id: nat, count: nat, tail: seq<Byte>)
    requires Read([2, 2], body) == Some(([id, count], tail)) && |body| == 4 + 4 * count
    ensures Templates(body) == Some([Template(id, FieldSpecs(body[4..]))])
  {
    hide Read, FieldSpecs;
    var v := Read([2, 2], body).value.0;
    assert |v| == 2 && v[0] == id && v[1] == count;
    assert body[4..4 + 4 * count] == body[4..] && body[4 + 4 * count..] == [];
    var none: seq<Template> := [];
    assert Templates(body[4 + 4 * count..]) == Some(none);
    assert [Template(id, FieldSpecs(body[4..]))] + none == [Template(id, FieldSpecs(body[4..]))];
  }

  lemma {:induction false} FieldCellsSize(fields: seq<FieldSpec>)
    ensures |Encode(FieldCells(fields))| == 4 * |fields|
  {
    if fields != [] {
      var n := |fields| - 1;
      FieldCellsSize(fields[..n]);
      var f := fields[n];
      EncodeOne(FieldCells(fields[..n]), Cell(f.fieldType, 2));
      EncodeOne(FieldCells(fields[..n]) + [Cell(f.fieldType, 2)], Cell(f.fieldLength, 2));
      assert FieldCells(fields) == FieldCells(fields[..n]) + [Cell(f.fieldType, 2)] + [Cell(f.fieldLength, 2)];
      hide Encode;
    }
  }

  lemma {:induction false} FieldSpecsAppend(a: seq<Byte>, b: seq<Byte>)
    requires |a| % 4 == 0
    ensures FieldSpecs(a + b) == FieldSpecs(a) + FieldSpecs(b)
    decreases |a|
  {
    hide Number, FieldSpecs;
    if a == [] {
      assert a + b == b;
      FieldSpecsShort([]);
    } else {
      FieldSpecsAppend(a[4..], b);
      assert (a + b)[4..] == a[4..] + b;
      assert (a + b)[..2] == a[..2] && (a + b)[2..4] == a[2..4];
      FieldSpecsCons(a);
      FieldSpecsCons(a + b);
    }
  }

  lemma FieldSpecsShort(bs: seq<Byte>)
    requires |bs| < 4
    ensures FieldSpecs(bs) == []
  {
  }

  lemma FieldSpecsCons(bs: seq<Byte>)
    requires |bs| >= 4
    ensures FieldSpecs(bs) == [FieldSpec(Number(bs[..2]), Number(bs[2..4]))] + FieldSpecs(bs[4..])
  {
  }

  lemma FieldSpecsOne(f: FieldSpec)
    requires f.fieldType < 0x1_0000 && f.fieldLength < 0x1_0000
    ensures FieldSpecs(BigEndian(f.fieldType, 2) + BigEndian(f.fieldLength, 2)) == [f]
  {
    SmallPowers();
    NumberOfBigEndian(f.fieldType, 2);
    NumberOfBigEndian(f.fieldLength, 2);
    hide Pow256, BigEndian, Number;
    var bs := BigEndian(f.fieldType, 2) + BigEndian(f.fieldLength, 2);
    assert bs[..2] == BigEndian(f.fieldType, 2) && bs[2..4] == BigEndian(f.fieldLength, 2) && bs[4..] == [];
  }

  lemma FieldCellsEncoded(before: seq<FieldSpec>, f: FieldSpec)
    ensures Encode(FieldCells(before + [f]))
         == Encode(FieldCells(before)) + (BigEndian(f.fieldType, 2) + BigEndian(f.fieldLength, 2))
  {
    var cells := FieldCells(before);
    assert (before + [f])[..|before|] == before;
    EncodeOne(cells, Cell(f.fieldType, 2));
    EncodeOne(cells + [Cell(f.fieldType, 2)], Cell(f.fieldLength, 2));
    assert FieldCells(before + [f]) == cells + [Cell(f.fieldType, 2)] + [Cell(f.fieldLength, 2)];
    hide Encode, FieldCells, BigEndian;
  }

  lemma {:induction false} FieldSpecsBack(fields: seq<FieldSpec>)
    requires forall i :: 0 <= i < |fields| ==> fields[i].fieldType < 0x1_0000 && fields[i].fieldLength < 0x1_0000
    ensures FieldSpecs(Encode(FieldCells(fields))) == fields
  {
    if fields != [] {
      hide Encode, FieldSpecs, BigEndian, FieldCells;
      var n := |fields| - 1;
      var before, f := fields[..n], fields[n];
      assert fields == before + [f];
      FieldSpecsBack(before);
      FieldCellsSize(before);
      FieldCellsEncoded(before, f);
      FieldSpecsAppend(Encode(FieldCells(before)), BigEndian(f.fieldType, 2) + BigEndian(f.fieldLength, 2));
      FieldSpecsOne(f);
    }
  }

  /** A record laid out as the template says comes back as the values, whatever the template. */
  lemma RecordBack(t: Template, cells: seq<Cell>)
    requires Fits(cells) && Lengths(t.fields) == Widths(cells) && Size(Widths(cells)) > 0
    ensures Records(t, Encode(cells)) == [Values(cells)]
  {
    hide Pow256;
    ReadBack(cells, []);
    EncodeLength(cells);
    var body := Encode(cells);
    assert body + [] == body;
    assert body[|body|..] == [];
    hide Read, Encode, Size;
    assert Records(t, []) == [];
  }

  datatype Flow = Flow(src: nat, dst: nat, proto: nat, bytes: nat, pkts: nat)

  /** The value of the first field of a type, zero without one. */
  function FieldOf(fields: seq<FieldSpec>, v: seq<nat>, fieldType: nat): nat {
    if fields == [] || v == [] then 0
    else if fields[0].fieldType == fieldType then v[0]
    else FieldOf(fields[1..], v[1..], fieldType)
  }

  /** Section 8: IN_BYTES is 1, IN_PKTS 2, PROTOCOL 4, IPV4_SRC_ADDR 8 and IPV4_DST_ADDR 12. */
  function Interpret(fields: seq<FieldSpec>, v: seq<nat>): Flow {
    Flow(FieldOf(fields, v, 8), FieldOf(fields, v, 12), FieldOf(fields, v, 4), FieldOf(fields, v, 1),
         FieldOf(fields, v, 2))
  }

  function Flows(fields: seq<FieldSpec>, records: seq<seq<nat>>): seq<Flow> {
    seq(|records|, i requires 0 <= i < |records| => Interpret(fields, records[i]))
  }

  /** What a collector that has seen the template packet makes of a data packet: its sequence number and flows.
      Data FlowSets have ids above 255. */
  function Collect(templatePkt: seq<Byte>, dataPkt: seq<Byte>): Option<(nat, seq<Flow>)> {
    match DecodePacket(templatePkt)
    case None => None
    case Some((_, sets)) =>
      if |sets| != 1 || sets[0].id != 0 then None
      else match Templates(sets[0].body)
           case None => None
           case Some(ts) =>
             if |ts| != 1 then None
             else match DecodePacket(dataPkt)
                  case None => None
                  case Some((h, datas)) =>
                    if |datas| != 1 || datas[0].id <= 255 || datas[0].id != ts[0].id then None
                    else Some((h.sequence, Flows(ts[0].fields, Records(ts[0], datas[0].body))))
  }

  lemma DataPacketDecodes(sequence: nat, src: nat, dst: nat, proto: nat, pkts: nat, bytes: nat)
    requires sequence < 0x1_0000_0000 && src < 0x1_0000_0000 && dst < 0x1_0000_0000 && proto < 256
    requires pkts < 0x1_0000_0000_0000_0000 && bytes < 0x1_0000_0000_0000_0000
    ensures var body := Encode(RecordCells(src, dst, proto, pkts, bytes));
            && DecodePacket(Encode(DataCells(sequence, src, dst, proto, pkts, bytes)))
               == Some((Header(9, 1, 0, 0, sequence, 0), [FlowSet(TEMPLATE_ID, body)]))
            && Records(Template(TEMPLATE_ID, TEMPLATE_FIELDS), body) == [[src, dst, proto, bytes, pkts]]
  {
    SmallPowers();
    var cells := RecordCells(src, dst, proto, pkts, bytes);
    assert Fits(cells);
    hide Pow256;
    EncodeLength(cells);
    RecordWidths(src, dst, proto, pkts, bytes);
    RecordBack(Template(TEMPLATE_ID, TEMPLATE_FIELDS), cells);
    OneFlowSetPacket(sequence, TEMPLATE_ID, Encode(cells));
    var prefix := [Cell(TEMPLATE_ID, 2), Cell(29, 2)];
    assert DataCells(sequence, src, dst, proto, pkts, bytes) == HeaderCells(sequence) + (prefix + cells);
    EncodeAppend(HeaderCells(sequence), prefix + cells);
    EncodeAppend(prefix, cells);
    hide Encode, DecodePacket, Records, Size;
  }

  lemma RecordWidths(src: nat, dst: nat, proto: nat, pkts: nat, bytes: nat)
    ensures var cells := RecordCells(src, dst, proto, pkts, bytes);
            && Widths(cells) == [4, 4, 1, 8, 8] == Lengths(TEMPLATE_FIELDS)
            && Values(cells) == [src, dst, proto, bytes, pkts]
            && Size(Widths(cells)) == RECORD_SIZE
  {
    var ws: seq<nat> := [4, 4, 1, 8, 8];
    assert ws[1..] == [4, 1, 8, 8];
    assert ws[1..][1..] == [1, 8, 8];
    assert ws[1..][1..][1..] == [8, 8];
    assert ws[1..][1..][1..][1..] == [8];
    assert ws[1..][1..][1..][1..][1..] == [];
    assert Widths(RecordCells(src, dst, proto, pkts, bytes)) == ws;
  }

  lemma {:induction false} FieldAt(fields: seq<FieldSpec>, v: seq<nat>, k: nat)
    requires k < |fields| == |v|
    requires forall i :: 0 <= i < k ==> fields[i].fieldType != fields[k].fieldType
    ensures FieldOf(fields, v, fields[k].fieldType) == v[k]
  {
    if k > 0 {
      FieldAt(fields[1..], v[1..], k - 1);
    }
  }

  lemma InterpretTemplate(src: nat, dst: nat, proto: nat, pkts: nat, bytes: nat)
    ensures Flows(TEMPLATE_FIELDS, [[src, dst, proto, bytes, pkts]]) == [Flow(src, dst, proto, bytes, pkts)]
  {
    hide FieldOf;
    var v := [src, dst, proto, bytes, pkts];
    FieldAt(TEMPLATE_FIELDS, v, 0);
    FieldAt(TEMPLATE_FIELDS, v, 1);
    FieldAt(TEMPLATE_FIELDS, v, 2);
    FieldAt(TEMPLATE_FIELDS, v, 3);
    FieldAt(TEMPLATE_FIELDS, v, 4);
  }

  /** Round trip through both packets: the template parsed from one says what every value of the other means. */
  lemma CollectRecovers(sequence: nat, src: nat, dst: nat, proto: nat, pkts: nat, bytes: nat)
    requires sequence < 0x1_0000_0000 && src < 0x1_0000_0000 && dst < 0x1_0000_0000 && proto < 256
    requires pkts < 0x1_0000_0000_0000_0000 && bytes < 0x1_0000_0000_0000_0000
    ensures Collect(Encode(TemplateCells()), Encode(DataCells(sequence, src, dst, proto, pkts, bytes)))
         == Some((sequence, [Flow(src, dst, proto, bytes, pkts)]))
  {
    InterpretTemplate(src, dst, proto, pkts, bytes);
    TemplatePacketDecodes();
    DataPacketDecodes(sequence, src, dst, proto, pkts, bytes);
    hide DecodePacket, Templates, Records, Encode, TemplateCells, DataCells, Flows;
  }
}
