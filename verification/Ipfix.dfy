/** The part of IPFIX (RFC 7011) that reading these packets back takes: the message header
    (section 3.1), set headers (3.3.2), template records (3.4.1, 3.4.2.2), data records laid
    out by a template (3.4.3) and variable-length fields (section 7). */
module Ipfix {
  import opened Options
  import opened Bits

  /** Field lengths of a template, in order; 65535 marks a variable-length field. */
  type Layout = seq<nat>

  const VARIABLE: nat := 0xffff

  function U16(v: nat): (b: seq<Byte>)
    ensures |b| == 2
  {
    [v / 0x100 % 0x100, v % 0x100]
  }

  function U32(v: int): (b: seq<Byte>)
    ensures |b| == 4
  {
    [v / 0x1_000000 % 0x100, v / 0x1_0000 % 0x100, v / 0x100 % 0x100, v % 0x100]
  }

  function Value16(b: seq<Byte>): (v: nat)
    requires |b| >= 2
  {
    b[0] as int * 0x100 + b[1] as int
  }

  function Value32(b: seq<Byte>): (v: nat)
    requires |b| >= 4
  {
    b[0] as int * 0x1_000000 + b[1] as int * 0x1_0000 + b[2] as int * 0x100 + b[3] as int
  }

  lemma Value16OfU16(v: nat, rest: seq<Byte>)
    requires v < 0x1_0000
    ensures Value16(U16(v) + rest) == v
  {
  }

  lemma NestedDivide(v: int)
    ensures v / 0x100 / 0x100 == v / 0x1_0000 && v / 0x1_0000 / 0x100 == v / 0x1_000000
  {
  }

  lemma Bytewise(v: int, a: int, b: int, c: int)
    requires a == v / 0x100 && b == a / 0x100 && c == b / 0x100
    ensures (c % 0x100) * 0x1_000000 + (b % 0x100) * 0x1_0000 + (a % 0x100) * 0x100 + v % 0x100 == v % 0x1_0000_0000
  {
    var r0, r1, r2, r3, d := v % 0x100, a % 0x100, b % 0x100, c % 0x100, c / 0x100;
    assert v == 0x100 * a + r0 && a == 0x100 * b + r1 && b == 0x100 * c + r2 && c == 0x100 * d + r3;
    Remainder(v, d, r3 * 0x1_000000 + r2 * 0x1_0000 + r1 * 0x100 + r0);
  }

  lemma Remainder(v: int, d: int, r: int)
    requires v == d * 0x1_0000_0000 + r && 0 <= r < 0x1_0000_0000
    ensures v % 0x1_0000_0000 == r
  {
  }

  /** Four bytes hold the value modulo 2^32. */
  lemma Value32OfU32(v: int, rest: seq<Byte>)
    ensures Value32(U32(v) + rest) == v % 0x1_0000_0000
  {
    NestedDivide(v);
    Bytewise(v, v / 0x100, v / 0x1_0000, v / 0x1_000000);
  }

  // ----- reading

  datatype Header = Header(exportTime: nat, sequence: nat, domain: nat)
  datatype Set = Set(id: nat, body: seq<Byte>)

  /** A field of the given length at the front, and what follows it. */
  function ReadField(length: nat, b: seq<Byte>): Option<(seq<Byte>, seq<Byte>)> {
    if length != VARIABLE then
      if length <= |b| then Some((b[..length], b[length..])) else None
    else if |b| == 0 then None
    else if b[0] < 255 then
      if 1 + b[0] <= |b| then Some((b[1..1 + b[0]], b[1 + b[0]..])) else None
    else if |b| < 3 then None
    else
      var n := Value16(b[1..]);
      if 3 + n <= |b| then Some((b[3..3 + n], b[3 + n..])) else None
  }

  function ReadRecord(layout: Layout, b: seq<Byte>): (r: Option<(seq<seq<Byte>>, seq<Byte>)>)
    ensures r.Some? ==> |r.value.1| <= |b|
  {
    if layout == [] then Some(([], b))
    else
      var first := ReadField(layout[0], b);
      if first.None? then None
      else
        var rest := ReadRecord(layout[1..], first.value.1);
        if rest.None? then None else Some(([first.value.0] + rest.value.0, rest.value.1))
  }

  /** The shortest record a layout allows. */
  function MinLength(layout: Layout): nat {
    if layout == [] then 0
    else (if layout[0] == VARIABLE then 1 else layout[0]) + MinLength(layout[1..])
  }

  lemma {:induction false} RecordShrinks(layout: Layout, b: seq<Byte>)
    ensures ReadRecord(layout, b).Some? ==> |ReadRecord(layout, b).value.1| + MinLength(layout) <= |b|
  {
    if layout == [] {
    } else {
      var first := ReadField(layout[0], b);
      if first.Some? {
        RecordShrinks(layout[1..], first.value.1);
      }
    }
  }

  /** Records until fewer bytes are left than the shortest record; those must be zero padding. */
  function ReadRecords(layout: Layout, b: seq<Byte>): Option<seq<seq<seq<Byte>>>>
    requires MinLength(layout) > 0
    decreases |b|
  {
    if |b| < MinLength(layout) then
      if forall i :: 0 <= i < |b| ==> b[i] == 0 then Some([]) else None
    else
      RecordShrinks(layout, b);
      var first := ReadRecord(layout, b);
      if first.None? then None
      else
        var rest := ReadRecords(layout, first.value.1);
        if rest.None? then None else Some([first.value.0] + rest.value)
  }

  function ReadSets(b: seq<Byte>): Option<seq<Set>>
    decreases |b|
  {
    if |b| == 0 then Some([])
    else if |b| < 4 then None
    else
      var length := Value16(b[2..]);
      if length < 4 || length > |b| then None
      else
        var rest := ReadSets(b[length..]);
        if rest.None? then None else Some([Set(Value16(b), b[4..length])] + rest.value)
  }

  function ReadMessage(b: seq<Byte>): Option<(Header, seq<Set>)> {
    if |b| < 16 || Value16(b) != 10 || Value16(b[2..]) != |b| then None
    else
      var sets := ReadSets(b[16..]);
      if sets.None? then None
      else Some((Header(Value32(b[4..]), Value32(b[8..]), Value32(b[12..])), sets.value))
  }

  /** What a field is: its element, the enterprise that numbers it (0 for none) and its length. */
  datatype Field = Field(element: nat, enterprise: nat, length: nat)

  /** A template; `scope` counts the fields that are scope fields of an options template. */
  datatype Template = Template(id: nat, scope: nat, fields: seq<Field>)

  function Lengths(fields: seq<Field>): (layout: Layout)
    ensures |layout| == |fields|
  {
    seq(|fields|, i requires 0 <= i < |fields| => fields[i].length)
  }

  /** Field specifiers: element, length and, when the top bit is set, an enterprise number. */
  function ReadFieldSpecs(count: nat, b: seq<Byte>): Option<seq<Field>> {
    if count == 0 then (if forall i :: 0 <= i < |b| ==> b[i] == 0 then Some([]) else None)
    else if |b| < 4 then None
    else
      var own := b[0] >= 0x80;
      var size := if own then 8 else 4;
      if |b| < size then None
      else
        var rest := ReadFieldSpecs(count - 1, b[size..]);
        var field := Field(Value16(b) % 0x8000, if own then Value32(b[4..]) else 0, Value16(b[2..]));
        if rest.None? then None else Some([field] + rest.value)
  }

  /** The one template record of a template set (id 2) or options template set (id 3). */
  function ReadTemplate(s: Set): Option<Template> {
    if s.id == 2 && |s.body| >= 4 then
      var fields := ReadFieldSpecs(Value16(s.body[2..]), s.body[4..]);
      if fields.None? then None else Some(Template(Value16(s.body), 0, fields.value))
    else if s.id == 3 && |s.body| >= 6 then
      var fields := ReadFieldSpecs(Value16(s.body[2..]), s.body[6..]);
      if fields.None? then None else Some(Template(Value16(s.body), Value16(s.body[4..]), fields.value))
    else None
  }
}
