/** The PSK Reporter packet: what is written, and that an IPFIX reader gets it all back. */
module PskPacket {
  import opened Options
  import opened Bits
  import opened Ipfix

  /** A C string: no zero byte inside. */
  type Text = s: seq<Byte> | forall i :: 0 <= i < |s| ==> s[i] != 0

  datatype Report = Report(call: Text, frequency: nat, snr: int, flowStart: int)
  datatype Station = Station(call: Text, grid: Text, software: Text)

  const PACKET_CAPACITY := 1400
  const RECEIVER_ID: nat := 0x9992
  const SENDER_ID: nat := 0x9993
  const FT8_MODE: Text := [0x46, 0x54, 0x38]

  /** A field specifier with the reporter's enterprise number. */
  function Specifier(element: Byte, high: Byte, low: Byte): (b: seq<Byte>)
    ensures |b| == 8
  {
    [0x80, element, high, low, 0x00, 0x00, 0x76, 0x8f]
  }

  function ReceiverSpecs(): (b: seq<Byte>)
    ensures |b| == 26
  {
    Specifier(0x02, 0xff, 0xff) + (Specifier(0x04, 0xff, 0xff) + (Specifier(0x08, 0xff, 0xff) + [0x00, 0x00]))
  }

  function SenderSpecs(): (b: seq<Byte>)
    ensures |b| == 44
  {
    Specifier(0x01, 0xff, 0xff) + (Specifier(0x05, 0x00, 0x04) + (Specifier(0x06, 0x00, 0x01)
    + (Specifier(0x0a, 0xff, 0xff) + (Specifier(0x0b, 0x00, 0x01) + [0x00, 0x96, 0x00, 0x04]))))
  }

  /** The options template set for the receiver and the template set for the sender. */
  const RECEIVER_HEADER: seq<Byte> := [0x00, 0x03, 0x00, 0x24, 0x99, 0x92, 0x00, 0x03, 0x00, 0x01]
  const SENDER_HEADER: seq<Byte> := [0x00, 0x02, 0x00, 0x34, 0x99, 0x93, 0x00, 0x06]

  function ReceiverTemplate(): (b: seq<Byte>)
    ensures |b| == 36
  {
    RECEIVER_HEADER + ReceiverSpecs()
  }

  function SenderTemplate(): (b: seq<Byte>)
    ensures |b| == 52
  {
    SENDER_HEADER + SenderSpecs()
  }

  /** The reporter's own elements, numbered under its enterprise number; the time is a standard one. */
  const ENTERPRISE: nat := 30351
  const RECEIVER_FIELDS: seq<Field> := [Field(2, ENTERPRISE, VARIABLE), Field(4, ENTERPRISE, VARIABLE), Field(8, ENTERPRISE, VARIABLE)]
  const SENDER_FIELDS: seq<Field> :=
    [Field(1, ENTERPRISE, VARIABLE), Field(5, ENTERPRISE, 4), Field(6, ENTERPRISE, 1), Field(10, ENTERPRISE, VARIABLE),
     Field(11, ENTERPRISE, 1), Field(150, 0, 4)]

  const RECEIVER_LAYOUT: Layout := [VARIABLE, VARIABLE, VARIABLE]
  const SENDER_LAYOUT: Layout := [VARIABLE, 4, 1, VARIABLE, 1, 4]

  function AlignFour(value: nat): (aligned: nat)
    ensures value <= aligned < value + 4 && aligned % 4 == 0
  {
    (value + 3) / 4 * 4
  }

  predicate ValidText(t: Text, limit: nat) {
    0 < |t| <= limit
  }

  predicate ValidStation(s: Station) {
    ValidText(s.call, 12) && ValidText(s.grid, 6) && ValidText(s.software, 63)
  }

  /** A report as the queue can hold it; frequencies and signal reports have their C widths. */
  predicate ValidReport(r: Report) {
    && ValidText(r.call, 12) && 0 < r.frequency < 0x1_0000_0000 && -128 <= r.snr < 128 && r.flowStart >= 0
  }

  predicate ValidReports(rs: seq<Report>) {
    forall i :: 0 <= i < |rs| ==> ValidReport(rs[i])
  }

  /** Callsigns have 1 to 12 bytes, locators up to 6, software names up to 63. */
  lemma ValidAre(r: Report, s: Station)
    ensures ValidReport(r) <==>
      1 <= |r.call| <= 12 && 1 <= r.frequency <= 0xffff_ffff && -128 <= r.snr <= 127 && r.flowStart >= 0
    ensures ValidStation(s) <==> 1 <= |s.call| <= 12 && 1 <= |s.grid| <= 6 && 1 <= |s.software| <= 63
  {
  }

  // ----- what is written

  function Zeros(n: nat): (z: seq<Byte>)
    ensures |z| == n && forall i :: 0 <= i < n ==> z[i] == 0
  {
    seq(n, _ => 0)
  }

  function StringBytes(t: Text): (b: seq<Byte>)
    requires |t| < 256
    ensures |b| == 1 + |t|
  {
    [|t|] + t
  }

  function ReportBytes(r: Report): (b: seq<Byte>)
    requires ValidReport(r)
    ensures |b| == |r.call| + 15
  {
    StringBytes(r.call) + U32(r.frequency) + [r.snr % 0x100] + StringBytes(FT8_MODE) + [1] + U32(r.flowStart)
  }

  function ReportsBytes(rs: seq<Report>): (b: seq<Byte>)
    requires ValidReports(rs)
  {
    if rs == [] then [] else ReportBytes(rs[0]) + ReportsBytes(rs[1..])
  }

  /** A data set: header, records, zero padding to four bytes. */
  function DataSet(id: nat, records: seq<Byte>): (b: seq<Byte>)
    ensures |b| == AlignFour(4 + |records|)
  {
    U16(id) + U16(AlignFour(4 + |records|)) + records + Zeros(AlignFour(4 + |records|) - 4 - |records|)
  }

  function StationBytes(s: Station): (b: seq<Byte>)
    requires |s.call| < 256 && |s.grid| < 256 && |s.software| < 256
    ensures |b| == |s.call| + |s.grid| + |s.software| + 3
  {
    StringBytes(s.call) + StringBytes(s.grid) + StringBytes(s.software)
  }

  function Body(s: Station, rs: seq<Report>, templates: bool): seq<Byte>
    requires ValidStation(s) && ValidReports(rs)
  {
    (if templates then ReceiverTemplate() + SenderTemplate() else [])
    + DataSet(RECEIVER_ID, StationBytes(s)) + DataSet(SENDER_ID, ReportsBytes(rs))
  }

  function Packet(s: Station, rs: seq<Report>, sequence: nat, domain: nat, exportTime: int, templates: bool): seq<Byte>
    requires ValidStation(s) && ValidReports(rs)
  {
    var body := Body(s, rs, templates);
    U16(10) + U16(16 + |body|) + U32(exportTime) + U32(sequence) + U32(domain) + body
  }

  // ----- reading it back

  lemma SpecifierRead(count: nat, element: Byte, high: Byte, low: Byte, rest: seq<Byte>)
    requires count > 0 && ReadFieldSpecs(count - 1, rest).Some?
    ensures ReadFieldSpecs(count, Specifier(element, high, low) + rest)
      == Some([Field(element, ENTERPRISE, high as int * 0x100 + low as int)] + ReadFieldSpecs(count - 1, rest).value)
  {
    var b := Specifier(element, high, low) + rest;
    assert b[8..] == rest;
    assert b[0] == 0x80 && b[1] == element && b[2..][0] == high && b[2..][1] == low;
    assert b[4..][0] == 0 && b[4..][1] == 0 && b[4..][2] == 0x76 && b[4..][3] == 0x8f;
  }

  lemma NoSpecifiers(b: seq<Byte>)
    requires forall i :: 0 <= i < |b| ==> b[i] == 0
    ensures ReadFieldSpecs(0, b) == Some([])
  {
  }

  lemma ReceiverSpecsRead()
    ensures ReadFieldSpecs(3, ReceiverSpecs()) == Some(RECEIVER_FIELDS)
  {
    hide Specifier, ReadFieldSpecs;
    var b2: seq<Byte> := Specifier(8, 0xff, 0xff) + [0x00, 0x00];
    var b1 := Specifier(4, 0xff, 0xff) + b2;
    NoSpecifiers([0x00, 0x00]);
    SpecifierRead(1, 8, 0xff, 0xff, [0x00, 0x00]);
    SpecifierRead(2, 4, 0xff, 0xff, b2);
    SpecifierRead(3, 2, 0xff, 0xff, b1);
    var f := RECEIVER_FIELDS;
    assert f == [f[0]] + ([f[1]] + ([f[2]] + []));
  }

  lemma LastSpecifier()
    ensures ReadFieldSpecs(1, [0x00, 0x96, 0x00, 0x04]) == Some([Field(150, 0, 4)])
  {
    var b: seq<Byte> := [0x00, 0x96, 0x00, 0x04];
    NoSpecifiers(b[4..]);
    assert b[2..] == [0, 4];
    assert [Field(150, 0, 4)] + [] == [Field(150, 0, 4)];
  }

  lemma SenderSpecsRead()
    ensures ReadFieldSpecs(6, SenderSpecs()) == Some(SENDER_FIELDS)
  {
    hide Specifier, ReadFieldSpecs;
    var end: seq<Byte> := [0x00, 0x96, 0x00, 0x04];
    var b4 := Specifier(11, 0, 1) + end;
    var b3 := Specifier(10, 0xff, 0xff) + b4;
    var b2 := Specifier(6, 0, 1) + b3;
    var b1 := Specifier(5, 0, 4) + b2;
    LastSpecifier();
    SpecifierRead(2, 11, 0, 1, end);
    SpecifierRead(3, 10, 0xff, 0xff, b4);
    SpecifierRead(4, 6, 0, 1, b3);
    SpecifierRead(5, 5, 0, 4, b2);
    SpecifierRead(6, 1, 0xff, 0xff, b1);
    var f := SENDER_FIELDS;
    assert f == [f[0]] + ([f[1]] + ([f[2]] + ([f[3]] + ([f[4]] + [f[5]]))));
  }

  /** The templates sent with the data name the reporter's fields and describe the layouts that read them. */
  lemma TemplatesDescribeLayouts()
    ensures ReadTemplate(Set(3, ReceiverTemplate()[4..])) == Some(Template(RECEIVER_ID, 1, RECEIVER_FIELDS))
    ensures ReadTemplate(Set(2, SenderTemplate()[4..])) == Some(Template(SENDER_ID, 0, SENDER_FIELDS))
    ensures Lengths(RECEIVER_FIELDS) == RECEIVER_LAYOUT && Lengths(SENDER_FIELDS) == SENDER_LAYOUT
  {
    hide ReadFieldSpecs, ReceiverSpecs, SenderSpecs;
    ReceiverSpecsRead();
    SenderSpecsRead();
    var r, s := ReceiverTemplate()[4..], SenderTemplate()[4..];
    assert r[6..] == ReceiverSpecs() && r[0] == 0x99 && r[1] == 0x92 && r[2..][0] == 0 && r[2..][1] == 3 && r[4..][0] == 0 && r[4..][1] == 1;
    assert s[4..] == SenderSpecs() && s[0] == 0x99 && s[1] == 0x93 && s[2..][0] == 0 && s[2..][1] == 6;
  }

  // ----- the data records

  lemma VariableRead(t: Text, rest: seq<Byte>)
    requires |t| < 255
    ensures ReadField(VARIABLE, StringBytes(t) + rest) == Some((t, rest))
  {
    var b := StringBytes(t) + rest;
    assert b[1..1 + |t|] == t && b[1 + |t|..] == rest;
  }

  lemma FixedRead(f: seq<Byte>, rest: seq<Byte>)
    requires |f| < VARIABLE
    ensures ReadField(|f|, f + rest) == Some((f, rest))
  {
    assert (f + rest)[..|f|] == f && (f + rest)[|f|..] == rest;
  }

  /** The field values of a report's record. */
  function ReportFields(r: Report): seq<seq<Byte>> {
    [r.call, U32(r.frequency), [r.snr % 0x100], FT8_MODE, [1], U32(r.flowStart)]
  }

  lemma RecordStep(layout: Layout, b: seq<Byte>, field: seq<Byte>, rest: seq<Byte>)
    requires layout != [] && ReadField(layout[0], b) == Some((field, rest)) && ReadRecord(layout[1..], rest).Some?
    ensures ReadRecord(layout, b) == Some(([field] + ReadRecord(layout[1..], rest).value.0, ReadRecord(layout[1..], rest).value.1))
  {
  }

  lemma SixFields(b0: seq<Byte>, b1: seq<Byte>, b2: seq<Byte>, b3: seq<Byte>, b4: seq<Byte>, b5: seq<Byte>, rest: seq<Byte>,
                  f0: seq<Byte>, f1: seq<Byte>, f2: seq<Byte>, f3: seq<Byte>, f4: seq<Byte>, f5: seq<Byte>)
    requires ReadField(VARIABLE, b0) == Some((f0, b1)) && ReadField(4, b1) == Some((f1, b2))
    requires ReadField(1, b2) == Some((f2, b3)) && ReadField(VARIABLE, b3) == Some((f3, b4))
    requires ReadField(1, b4) == Some((f4, b5)) && ReadField(4, b5) == Some((f5, rest))
    ensures ReadRecord(SENDER_LAYOUT, b0) == Some(([f0, f1, f2, f3, f4, f5], rest))
  {
    hide ReadField, ReadRecord;
    var l5: Layout := [4];
    var l4: Layout := [1] + l5;
    var l3: Layout := [VARIABLE] + l4;
    var l2: Layout := [1] + l3;
    var l1: Layout := [4] + l2;
    EmptyRecord(rest);
    assert l5[1..] == [] && l4[1..] == l5 && l3[1..] == l4 && l2[1..] == l3 && l1[1..] == l2;
    assert SENDER_LAYOUT[1..] == l1;
    RecordStep(l5, b5, f5, rest);
    assert [f5] + [] == [f5];
    RecordStep(l4, b4, f4, b5);
    assert [f4] + [f5] == [f4, f5];
    RecordStep(l3, b3, f3, b4);
    assert [f3] + [f4, f5] == [f3, f4, f5];
    RecordStep(l2, b2, f2, b3);
    assert [f2] + [f3, f4, f5] == [f2, f3, f4, f5];
    RecordStep(l1, b1, f1, b2);
    assert [f1] + [f2, f3, f4, f5] == [f1, f2, f3, f4, f5];
    RecordStep(SENDER_LAYOUT, b0, f0, b1);
    assert [f0] + [f1, f2, f3, f4, f5] == [f0, f1, f2, f3, f4, f5];
  }

  lemma ReportRead(r: Report, rest: seq<Byte>)
    requires ValidReport(r)
    ensures ReadRecord(SENDER_LAYOUT, ReportBytes(r) + rest) == Some((ReportFields(r), rest))
  {
    var b5 := U32(r.flowStart) + rest;
    var b4: seq<Byte> := [1] + b5;
    var b3 := StringBytes(FT8_MODE) + b4;
    var b2 := [r.snr % 0x100] + b3;
    var b1 := U32(r.frequency) + b2;
    var b0 := StringBytes(r.call) + b1;
    hide U32, StringBytes, ReadField, ReadRecord;
    assert ReportBytes(r) + rest == b0;
    FixedRead(U32(r.flowStart), rest);
    FixedRead([1], b5);
    VariableRead(FT8_MODE, b4);
    FixedRead([r.snr % 0x100], b3);
    FixedRead(U32(r.frequency), b2);
    VariableRead(r.call, b1);
    SixFields(b0, b1, b2, b3, b4, b5, rest, r.call, U32(r.frequency), [r.snr % 0x100], FT8_MODE, [1], U32(r.flowStart));
  }

  lemma EmptyRecord(b: seq<Byte>)
    ensures ReadRecord([], b) == Some(([], b))
  {
  }

  function AllFields(rs: seq<Report>): (f: seq<seq<seq<Byte>>>)
    ensures |f| == |rs| && forall i :: 0 <= i < |f| ==> f[i] == ReportFields(rs[i])
  {
    seq(|rs|, i requires 0 <= i < |rs| => ReportFields(rs[i]))
  }

  lemma SenderMinLength()
    ensures MinLength(SENDER_LAYOUT) == 12 && MinLength(RECEIVER_LAYOUT) == 3
  {
    var l5: Layout := [4];
    var l4: Layout := [1] + l5;
    var l3: Layout := [VARIABLE] + l4;
    var l2: Layout := [1] + l3;
    var l1: Layout := [4] + l2;
    assert l5[1..] == [] && l4[1..] == l5 && l3[1..] == l4 && l2[1..] == l3 && l1[1..] == l2 && SENDER_LAYOUT[1..] == l1;
    assert MinLength(l5) == 4;
    assert MinLength(l4) == 5;
    assert MinLength(l3) == 6;
    assert MinLength(l2) == 7;
    assert MinLength(l1) == 11;
    var r2: Layout := [VARIABLE];
    var r1: Layout := [VARIABLE] + r2;
    assert r2[1..] == [] && r1[1..] == r2 && RECEIVER_LAYOUT[1..] == r1;
    assert MinLength(r2) == 1;
    assert MinLength(r1) == 2;
  }

  /** The sender set reads back as exactly the reports, whatever the padding. */
  lemma {:induction false} ReportsRead(rs: seq<Report>, padding: nat)
    requires ValidReports(rs) && padding < 4
    ensures MinLength(SENDER_LAYOUT) > 0
    ensures ReadRecords(SENDER_LAYOUT, ReportsBytes(rs) + Zeros(padding)) == Some(AllFields(rs))
    decreases rs
  {
    hide ReadRecord, MinLength;
    SenderMinLength();
    var b := ReportsBytes(rs) + Zeros(padding);
    if rs == [] {
      assert b == Zeros(padding);
    } else {
      var rest := ReportsBytes(rs[1..]) + Zeros(padding);
      assert b == ReportBytes(rs[0]) + rest;
      ReportRead(rs[0], rest);
      ReportsRead(rs[1..], padding);
      assert AllFields(rs) == [ReportFields(rs[0])] + AllFields(rs[1..]);
    }
  }

  function StationFields(s: Station): seq<seq<Byte>> {
    [s.call, s.grid, s.software]
  }

  lemma ThreeFields(b0: seq<Byte>, b1: seq<Byte>, b2: seq<Byte>, rest: seq<Byte>, f0: seq<Byte>, f1: seq<Byte>, f2: seq<Byte>)
    requires ReadField(VARIABLE, b0) == Some((f0, b1)) && ReadField(VARIABLE, b1) == Some((f1, b2))
    requires ReadField(VARIABLE, b2) == Some((f2, rest))
    ensures ReadRecord(RECEIVER_LAYOUT, b0) == Some(([f0, f1, f2], rest))
  {
    hide ReadField, ReadRecord;
    var l2: Layout := [VARIABLE];
    var l1: Layout := [VARIABLE] + l2;
    assert l2[1..] == [] && l1[1..] == l2 && RECEIVER_LAYOUT[1..] == l1;
    EmptyRecord(rest);
    RecordStep(l2, b2, f2, rest);
    assert [f2] + [] == [f2];
    RecordStep(l1, b1, f1, b2);
    assert [f1] + [f2] == [f1, f2];
    RecordStep(RECEIVER_LAYOUT, b0, f0, b1);
    assert [f0] + [f1, f2] == [f0, f1, f2];
  }

  lemma StationRecordRead(s: Station, rest: seq<Byte>)
    requires ValidStation(s)
    ensures ReadRecord(RECEIVER_LAYOUT, StationBytes(s) + rest) == Some((StationFields(s), rest))
  {
    hide StringBytes, ReadField, ReadRecord;
    var b2 := StringBytes(s.software) + rest;
    var b1 := StringBytes(s.grid) + b2;
    var b0 := StringBytes(s.call) + b1;
    assert StationBytes(s) + rest == b0;
    VariableRead(s.software, rest);
    VariableRead(s.grid, b2);
    VariableRead(s.call, b1);
    ThreeFields(b0, b1, b2, rest, s.call, s.grid, s.software);
  }

  /** Three zero bytes of padding are as long as the shortest receiver record, and read as one:
      three empty strings. */
  lemma PaddingRead(padding: nat)
    requires padding < 4
    ensures MinLength(RECEIVER_LAYOUT) > 0
    ensures ReadRecords(RECEIVER_LAYOUT, Zeros(padding)) == Some(if padding == 3 then [[[], [], []]] else [])
  {
    hide MinLength, ReadField, ReadRecord;
    SenderMinLength();
    if padding == 3 {
      var e: Text := [];
      EmptyStringRead(Zeros(2));
      EmptyStringRead(Zeros(1));
      EmptyStringRead(Zeros(0));
      ThreeFields(Zeros(3), Zeros(2), Zeros(1), Zeros(0), e, e, e);
      assert ReadRecords(RECEIVER_LAYOUT, Zeros(0)) == Some([]);
      var none: seq<seq<seq<Byte>>> := [];
      assert [[e, e, e]] + none == [[e, e, e]];
    }
  }

  lemma EmptyStringRead(rest: seq<Byte>)
    requires rest == Zeros(|rest|)
    ensures ReadField(VARIABLE, Zeros(|rest| + 1)) == Some(([], rest))
  {
    var b := Zeros(|rest| + 1);
    assert b[1..1] == [] && b[1..] == rest;
  }

  function Padding(records: nat): (padding: nat)
    ensures padding < 4
  {
    AlignFour(4 + records) - 4 - records
  }

  /** The receiver set reads back as the one station record exactly when it is padded by fewer
      than three bytes; with three, a second, empty record appears. */
  lemma StationRead(s: Station)
    requires ValidStation(s)
    ensures MinLength(RECEIVER_LAYOUT) > 0
    ensures var n := |s.call| + |s.grid| + |s.software| + 3;
      var read := ReadRecords(RECEIVER_LAYOUT, StationBytes(s) + Zeros(Padding(n)));
      && (read == Some([StationFields(s)]) <==> n % 4 != 1)
      && (n % 4 == 1 ==> read == Some([StationFields(s), [[], [], []]]))
  {
    hide ReadRecord, MinLength;
    var n := |s.call| + |s.grid| + |s.software| + 3;
    SenderMinLength();
    StationRecordRead(s, Zeros(Padding(n)));
    PaddingRead(Padding(n));
    assert Padding(n) == 3 <==> n % 4 == 1;
    var none: seq<seq<seq<Byte>>> := [];
    assert [StationFields(s)] + none == [StationFields(s)];
    var extra: seq<seq<seq<Byte>>> := [[[], [], []]];
    assert [StationFields(s)] + extra == [StationFields(s), [[], [], []]];
  }

  // ----- the whole message

  function SetOf(id: nat, records: seq<Byte>): Set {
    Set(id, records + Zeros(Padding(|records|)))
  }

  lemma DataSetRead(id: nat, records: seq<Byte>, rest: seq<Byte>)
    requires id < 0x1_0000 && AlignFour(4 + |records|) < 0x1_0000 && ReadSets(rest).Some?
    ensures ReadSets(DataSet(id, records) + rest) == Some([SetOf(id, records)] + ReadSets(rest).value)
  {
    hide U16, Value16, AlignFour;
    var n := AlignFour(4 + |records|);
    var tail := records + Zeros(n - 4 - |records|);
    var b := DataSet(id, records) + rest;
    assert b == U16(id) + (U16(n) + (tail + rest));
    Value16OfU16(id, U16(n) + (tail + rest));
    Value16OfU16(n, tail + rest);
    assert b[2..] == U16(n) + (tail + rest);
    assert b[4..n] == tail && b[n..] == rest;
  }

  lemma LiteralSetRead(header: seq<Byte>, specs: seq<Byte>, rest: seq<Byte>)
    requires |header| >= 4 && Value16(header[2..]) == |header| + |specs| && ReadSets(rest).Some?
    ensures var b := header + specs + rest;
      ReadSets(b) == Some([Set(Value16(header), header[4..] + specs)] + ReadSets(rest).value)
  {
    var b := header + specs + rest;
    var n := |header| + |specs|;
    assert b[2..][0] == header[2..][0] && b[2..][1] == header[2..][1];
    assert b[4..n] == header[4..] + specs && b[n..] == rest;
  }

  /** The sets of a packet, in order. */
  function PacketSets(s: Station, rs: seq<Report>, templates: bool): seq<Set>
    requires ValidStation(s) && ValidReports(rs)
  {
    (if templates then [Set(3, ReceiverTemplate()[4..]), Set(2, SenderTemplate()[4..])] else [])
    + [SetOf(RECEIVER_ID, StationBytes(s)), SetOf(SENDER_ID, ReportsBytes(rs))]
  }

  lemma DataSetsRead(s: Station, rs: seq<Report>)
    requires ValidStation(s) && ValidReports(rs) && AlignFour(4 + |ReportsBytes(rs)|) < 0x1_0000
    ensures ReadSets(DataSet(RECEIVER_ID, StationBytes(s)) + DataSet(SENDER_ID, ReportsBytes(rs)))
      == Some([SetOf(RECEIVER_ID, StationBytes(s)), SetOf(SENDER_ID, ReportsBytes(rs))])
  {
    hide DataSet, StationBytes, ReportsBytes;
    var none: seq<Byte> := [];
    var sender := DataSet(SENDER_ID, ReportsBytes(rs));
    assert sender + none == sender;
    assert ReadSets(none) == Some([]);
    DataSetRead(SENDER_ID, ReportsBytes(rs), none);
    var last := SetOf(SENDER_ID, ReportsBytes(rs));
    assert [last] + [] == [last];
    DataSetRead(RECEIVER_ID, StationBytes(s), sender);
    assert [SetOf(RECEIVER_ID, StationBytes(s))] + [last] == [SetOf(RECEIVER_ID, StationBytes(s)), last];
  }

  lemma BodyRead(s: Station, rs: seq<Report>, templates: bool)
    requires ValidStation(s) && ValidReports(rs) && |Body(s, rs, templates)| < 0x1_0000
    ensures ReadSets(Body(s, rs, templates)) == Some(PacketSets(s, rs, templates))
  {
    hide DataSet, StationBytes, ReportsBytes, ReceiverSpecs, SenderSpecs, ReadSets, SetOf;
    DataSetsRead(s, rs);
    var data := DataSet(RECEIVER_ID, StationBytes(s)) + DataSet(SENDER_ID, ReportsBytes(rs));
    if templates {
      LiteralSetRead(SENDER_HEADER, SenderSpecs(), data);
      var second := SENDER_HEADER + SenderSpecs() + data;
      LiteralSetRead(RECEIVER_HEADER, ReceiverSpecs(), second);
      assert Body(s, rs, templates) == RECEIVER_HEADER + ReceiverSpecs() + second;
      assert ReceiverTemplate()[4..] == RECEIVER_HEADER[4..] + ReceiverSpecs();
      assert SenderTemplate()[4..] == SENDER_HEADER[4..] + SenderSpecs();
      var first, next := Set(3, ReceiverTemplate()[4..]), Set(2, SenderTemplate()[4..]);
      var sets := [SetOf(RECEIVER_ID, StationBytes(s)), SetOf(SENDER_ID, ReportsBytes(rs))];
      assert [first] + ([next] + sets) == [first, next] + sets;
    } else {
      assert Body(s, rs, templates) == data;
      var none: seq<Set> := [];
      var sets := [SetOf(RECEIVER_ID, StationBytes(s)), SetOf(SENDER_ID, ReportsBytes(rs))];
      assert none + sets == sets;
    }
  }

  /** An IPFIX reader recovers the header and the sets; with ReportsRead and StationRead, the
      reports and the station. The header's length field is the packet's length, and every
      set ends on a four-byte boundary. */
  lemma PacketRead(s: Station, rs: seq<Report>, sequence: nat, domain: nat, exportTime: int, templates: bool)
    requires ValidStation(s) && ValidReports(rs)
    requires sequence < 0x1_0000_0000 && domain < 0x1_0000_0000
    requires |Packet(s, rs, sequence, domain, exportTime, templates)| < 0x1_0000
    ensures ReadMessage(Packet(s, rs, sequence, domain, exportTime, templates))
      == Some((Header(exportTime % 0x1_0000_0000, sequence, domain), PacketSets(s, rs, templates)))
    ensures |Packet(s, rs, sequence, domain, exportTime, templates)| % 4 == 0
  {
    hide Body, U32, Value32, Value16, U16, ReadSets;
    var body := Body(s, rs, templates);
    var total := 16 + |body|;
    var b := Packet(s, rs, sequence, domain, exportTime, templates);
    var b12 := U32(domain) + body;
    var b8 := U32(sequence) + b12;
    var b4 := U32(exportTime) + b8;
    var b2 := U16(total) + b4;
    assert b == U16(10) + b2;
    assert b[2..] == b2 && b[4..] == b4 && b[8..] == b8 && b[12..] == b12 && b[16..] == body;
    Value16OfU16(10, b2);
    Value16OfU16(total, b4);
    Value32OfU32(exportTime, b8);
    Value32OfU32(sequence, b12);
    Value32OfU32(domain, body);
    BodyRead(s, rs, templates);
    BodyAligned(s, rs, templates);
  }

  lemma BodyAligned(s: Station, rs: seq<Report>, templates: bool)
    requires ValidStation(s) && ValidReports(rs)
    ensures |Body(s, rs, templates)| % 4 == 0
  {
  }

  // ----- building it in place

  /** The C types hold no more than this. */
  predicate Typed(r: Report) {
    r.frequency < 0x1_0000_0000 && -128 <= r.snr < 128
  }

  /** The buffer holds `written` up to pos and zeros from there to total. */
  ghost predicate Holds(packet: array<Byte>, pos: nat, total: nat, written: seq<Byte>)
    reads packet
  {
    && pos <= total <= packet.Length && packet[..pos] == written
    && forall i :: pos <= i < total ==> packet[i] == 0
  }

  /** Copy bytes to the write position and advance it. */
  method Append(packet: array<Byte>, pos: nat, bytes: seq<Byte>, ghost total: nat, ghost written: seq<Byte>) returns (pos': nat)
    requires Holds(packet, pos, total, written) && pos + |bytes| <= total
    modifies packet
    ensures pos' == pos + |bytes| && Holds(packet, pos', total, written + bytes)
    ensures packet[total..] == old(packet[total..])
  {
    for i := 0 to |bytes|
      invariant packet[..pos] == written && forall j :: 0 <= j < i ==> packet[pos + j] == bytes[j]
      invariant forall j :: pos + i <= j < total ==> packet[j] == 0
      invariant packet[total..] == old(packet[total..])
    {
      packet[pos + i] := bytes[i];
    }
    pos' := pos + |bytes|;
    assert packet[..pos'] == packet[..pos] + packet[pos..pos'];
    assert packet[pos..pos'] == bytes;
  }

  /** Leave zeros behind: padding. */
  lemma Skipped(packet: array<Byte>, pos: nat, total: nat, written: seq<Byte>, n: nat)
    requires Holds(packet, pos, total, written) && pos + n <= total
    ensures Holds(packet, pos + n, total, written + Zeros(n))
  {
    assert packet[..pos + n] == packet[..pos] + packet[pos..pos + n];
    assert packet[pos..pos + n] == Zeros(n);
  }

  lemma {:induction false} ReportsBytesSnoc(rs: seq<Report>, i: nat)
    requires ValidReports(rs) && i < |rs|
    ensures ReportsBytes(rs[..i + 1]) == ReportsBytes(rs[..i]) + ReportBytes(rs[i])
    decreases rs
  {
    hide ReportBytes;
    if i == 0 {
      assert rs[..1][1..] == [];
    } else {
      ReportsBytesSnoc(rs[1..], i - 1);
      assert rs[..i + 1][1..] == rs[1..][..i] && rs[..i][1..] == rs[1..][..i - 1];
    }
  }

  /** The size the reports take, or nothing when one of them is invalid. */
  method MeasureReports(reports: seq<Report>) returns (ok: bool, size: nat)
    requires forall i :: 0 <= i < |reports| ==> Typed(reports[i])
    ensures ok == ValidReports(reports)
    ensures ok ==> size == 4 + |ReportsBytes(reports)|
  {
    hide ReportBytes;
    size := 4;
    for i := 0 to |reports|
      invariant ValidReports(reports[..i]) && size == 4 + |ReportsBytes(reports[..i])|
    {
      var r := reports[i];
      if !ValidText(r.call, 12) || r.frequency == 0 || r.flowStart < 0 {
        assert !ValidReport(reports[i]);
        return false, 0;
      }
      size := size + 1 + |r.call| + 4 + 1 + 1 + 3 + 1 + 4;
      assert reports[..i + 1][..i] == reports[..i];
      ReportsBytesSnoc(reports[..i + 1], i);
      assert reports[..i + 1][..i + 1] == reports[..i + 1];
    }
    assert reports[..|reports|] == reports;
    ok := true;
  }

  /** Write one data set: header, records, padding. */
  method AppendDataSet(packet: array<Byte>, pos: nat, id: nat, size: nat, records: seq<seq<Byte>>, ghost all: seq<Byte>,
                       ghost total: nat, ghost written: seq<Byte>)
    returns (pos': nat)
    requires Holds(packet, pos, total, written) && all == Concat(records)
    requires size == AlignFour(4 + |all|) && pos + size <= total
    modifies packet
    ensures pos' == pos + size && Holds(packet, pos', total, written + DataSet(id, all))
    ensures packet[total..] == old(packet[total..])
  {
    hide U16, Zeros, AlignFour, DataSet, Concat;
    var w := Append(packet, pos, U16(id), total, written);
    w := Append(packet, w, U16(size), total, written + U16(id));
    ghost var head := written + U16(id) + U16(size);
    ConcatNone(records);
    assert head + Concat(records[..0]) == head;
    ConcatPrefix(records, 0);
    for i := 0 to |records|
      invariant w == pos + 4 + |Concat(records[..i])| && |Concat(records[..i])| <= |all|
      invariant Holds(packet, w, total, head + Concat(records[..i]))
      invariant packet[total..] == old(packet[total..])
    {
      ConcatPrefix(records, i);
      ConcatPrefix(records, i + 1);
      ConcatSnoc(records, i);
      w := Append(packet, w, records[i], total, head + Concat(records[..i]));
      assert head + Concat(records[..i]) + records[i] == head + Concat(records[..i + 1]);
    }
    assert records[..|records|] == records;
    Skipped(packet, w, total, head + all, size - 4 - |all|);
    pos' := pos + size;
    SetWritten(written, id, all);
  }

  lemma SetWritten(written: seq<Byte>, id: nat, all: seq<Byte>)
    ensures var size := AlignFour(4 + |all|);
      written + U16(id) + U16(size) + all + Zeros(size - 4 - |all|) == written + DataSet(id, all)
  {
    hide U16, Zeros, AlignFour;
  }

  lemma ConcatNone(records: seq<seq<Byte>>)
    ensures Concat(records[..0]) == []
  {
  }

  ghost function Concat(parts: seq<seq<Byte>>): seq<Byte> {
    if parts == [] then [] else parts[0] + Concat(parts[1..])
  }

  lemma {:induction false} ConcatSnoc(parts: seq<seq<Byte>>, i: nat)
    requires i < |parts|
    ensures Concat(parts[..i + 1]) == Concat(parts[..i]) + parts[i]
    decreases parts
  {
    if i == 0 {
      assert parts[..1][1..] == [];
    } else {
      ConcatSnoc(parts[1..], i - 1);
      assert parts[..i + 1][1..] == parts[1..][..i] && parts[..i][1..] == parts[1..][..i - 1];
    }
  }

  lemma {:induction false} ConcatPrefix(parts: seq<seq<Byte>>, i: nat)
    requires i <= |parts|
    ensures |Concat(parts[..i])| <= |Concat(parts)|
    decreases |parts| - i
  {
    if i < |parts| {
      ConcatSnoc(parts, i);
      ConcatPrefix(parts, i + 1);
    } else {
      assert parts[..i] == parts;
    }
  }

  function ReportRecords(rs: seq<Report>): (records: seq<seq<Byte>>)
    requires ValidReports(rs)
    ensures |records| == |rs|
  {
    seq(|rs|, i requires 0 <= i < |rs| => ReportBytes(rs[i]))
  }

  lemma {:induction false} RecordsConcat(rs: seq<Report>)
    requires ValidReports(rs)
    ensures Concat(ReportRecords(rs)) == ReportsBytes(rs)
    decreases rs
  {
    hide ReportBytes;
    if rs == [] {
    } else {
      RecordsConcat(rs[1..]);
      assert ReportRecords(rs)[1..] == ReportRecords(rs[1..]);
    }
  }

  lemma StationConcat(s: Station)
    requires ValidStation(s)
    ensures Concat([StringBytes(s.call), StringBytes(s.grid), StringBytes(s.software)]) == StationBytes(s)
  {
    var call, grid, software := StringBytes(s.call), StringBytes(s.grid), StringBytes(s.software);
    hide StringBytes;
    var parts := [call, grid, software];
    var none: seq<seq<Byte>> := [];
    assert parts[1..] == [grid, software] && [grid, software][1..] == [software] && [software][1..] == none;
    assert Concat([software]) == software + Concat(none) == software;
    assert Concat([grid, software]) == grid + software;
    assert Concat(parts) == call + (grid + software) == call + grid + software;
  }

  ghost predicate Acceptable(capacity: nat, s: Station, reports: seq<Report>, sequence: nat, domain: nat, exportTime: int, templates: bool) {
    && |reports| > 0 && ValidStation(s) && ValidReports(reports) && exportTime >= 0
    && |Packet(s, reports, sequence, domain, exportTime, templates)| <= capacity
    && |Packet(s, reports, sequence, domain, exportTime, templates)| < 0x1_0000
  }

  /** Write the fixed header, and the templates when they are due. */
  method AppendHead(packet: array<Byte>, total: nat, sequence: nat, domain: nat, exportTime: int, templates: bool)
    returns (pos: nat, ghost written: seq<Byte>)
    requires Holds(packet, 0, total, []) && total >= if templates then 104 else 16
    modifies packet
    ensures written == U16(10) + U16(total) + U32(exportTime) + U32(sequence) + U32(domain)
      + (if templates then ReceiverTemplate() + SenderTemplate() else [])
    ensures pos == |written| && Holds(packet, pos, total, written)
    ensures packet[total..] == old(packet[total..])
  {
    hide U16, U32, ReceiverTemplate, SenderTemplate;
    written := [];
    pos := Append(packet, 0, U16(10), total, written);
    written := U16(10);
    pos := Append(packet, pos, U16(total), total, written);
    written := written + U16(total);
    pos := Append(packet, pos, U32(exportTime), total, written);
    written := written + U32(exportTime);
    pos := Append(packet, pos, U32(sequence), total, written);
    written := written + U32(sequence);
    pos := Append(packet, pos, U32(domain), total, written);
    written := written + U32(domain);
    if templates {
      pos := Append(packet, pos, ReceiverTemplate(), total, written);
      pos := Append(packet, pos, SenderTemplate(), total, written + ReceiverTemplate());
      assert written + ReceiverTemplate() + SenderTemplate() == written + (ReceiverTemplate() + SenderTemplate());
      written := written + (ReceiverTemplate() + SenderTemplate());
    } else {
      written := written + [];
    }
  }

  /** The two data sets, after the head. */
  method AppendBody(packet: array<Byte>, pos: nat, s: Station, reports: seq<Report>, receiverSize: nat, senderSize: nat,
                    ghost total: nat, ghost written: seq<Byte>)
    requires ValidStation(s) && ValidReports(reports) && Holds(packet, pos, total, written)
    requires receiverSize == AlignFour(4 + |StationBytes(s)|) && senderSize == AlignFour(4 + |ReportsBytes(reports)|)
    requires total == pos + receiverSize + senderSize
    modifies packet
    ensures Holds(packet, total, total,
                  written + DataSet(RECEIVER_ID, StationBytes(s)) + DataSet(SENDER_ID, ReportsBytes(reports)))
    ensures packet[total..] == old(packet[total..])
  {
    var strings := [StringBytes(s.call), StringBytes(s.grid), StringBytes(s.software)];
    hide ReportBytes, StringBytes, DataSet, StationBytes, ReportsBytes, AlignFour;
    StationConcat(s);
    var w := AppendDataSet(packet, pos, RECEIVER_ID, receiverSize, strings, StationBytes(s), total, written);
    RecordsConcat(reports);
    w := AppendDataSet(packet, w, SENDER_ID, senderSize, ReportRecords(reports), ReportsBytes(reports), total,
                       written + DataSet(RECEIVER_ID, StationBytes(s)));
  }

  lemma PacketParts(s: Station, rs: seq<Report>, sequence: nat, domain: nat, exportTime: int, templates: bool)
    requires ValidStation(s) && ValidReports(rs)
    ensures var total := 16 + (if templates then 88 else 0) + AlignFour(4 + |StationBytes(s)|) + AlignFour(4 + |ReportsBytes(rs)|);
      && |Packet(s, rs, sequence, domain, exportTime, templates)| == total
      && Packet(s, rs, sequence, domain, exportTime, templates) == U16(10) + U16(total) + U32(exportTime) + U32(sequence) + U32(domain)
           + (if templates then ReceiverTemplate() + SenderTemplate() else [])
           + DataSet(RECEIVER_ID, StationBytes(s)) + DataSet(SENDER_ID, ReportsBytes(rs))
  {
    hide ReportsBytes, StationBytes, DataSet, U16, U32, ReceiverTemplate, SenderTemplate, AlignFour;
  }

  /** `psk_reporter_build_packet`: 0 and the packet, or -1 and an untouched buffer. */
  method BuildPacket(packet: array<Byte>, capacity: nat, s: Station, reports: seq<Report>, sequence: nat, domain: nat,
                     exportTime: int, templates: bool)
    returns (rc: int, size: nat)
    requires capacity <= packet.Length && forall i :: 0 <= i < |reports| ==> Typed(reports[i])
    modifies packet
    ensures rc == if Acceptable(capacity, s, reports, sequence, domain, exportTime, templates) then 0 else -1
    ensures rc == 0 ==> size == |Packet(s, reports, sequence, domain, exportTime, templates)| <= capacity
    ensures rc == 0 ==> packet[..size] == Packet(s, reports, sequence, domain, exportTime, templates)
    ensures rc == 0 ==> packet[size..] == old(packet[size..])
    ensures rc != 0 ==> packet[..] == old(packet[..])
  {
    hide ReportBytes, U32, U16, DataSet, StationBytes, ReportsBytes, Packet, ReceiverTemplate, SenderTemplate, AlignFour;
    size := 0;
    if |reports| == 0 || !ValidStation(s) || exportTime < 0 {
      return -1, 0;
    }
    var receiverSize := AlignFour(4 + 1 + |s.call| + 1 + |s.grid| + 1 + |s.software|);
    var ok, senderSize := MeasureReports(reports);
    if !ok {
      return -1, 0;
    }
    senderSize := AlignFour(senderSize);
    var total := 16 + receiverSize + senderSize;
    if templates {
      total := total + 88;
    }
    PacketParts(s, reports, sequence, domain, exportTime, templates);
    if total > capacity || total > 0xffff {
      return -1, 0;
    }
    Clear(packet, total);
    var pos;
    ghost var written;
    pos, written := AppendHead(packet, total, sequence, domain, exportTime, templates);
    AppendBody(packet, pos, s, reports, receiverSize, senderSize, total, written);
    return 0, total;
  }

  /** `memset` of the first total bytes. */
  method Clear(packet: array<Byte>, total: nat)
    requires total <= packet.Length
    modifies packet
    ensures Holds(packet, 0, total, []) && packet[total..] == old(packet[total..])
  {
    for i := 0 to total
      invariant forall j :: 0 <= j < i ==> packet[j] == 0
      invariant packet[total..] == old(packet[total..])
    {
      packet[i] := 0;
    }
  }
}
