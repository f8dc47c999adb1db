/** The three WSPR message types: what packing writes and what unpacking makes of it. */
module WsprMessage {
  import opened Options
  import opened Bits
  import opened WsprPacking

  /** The 28-bit and 22-bit fields before masking. */
  datatype Packed = Packed(n: nat, m: int)

  /** Callsigns and grids seen, by callsign hash. */
  datatype Tables = Tables(calls: map<nat, string>, grids: map<nat, string>)

  /** What a decoded message says; `Stale` leaves the caller's text as it was. */
  datatype Spot =
    | Failed
    | Plain(call: string, grid: string, dbm: int)
    | Slashed(call: string, dbm: int)
    | Hashed(call: string, grid: string, dbm: int)
    | Stale

  // ----- packing

  predicate Whole(dbm: int) {
    dbm % 10 in {0, 3, 7}
  }

  predicate WholePower(dbm: int) {
    0 <= dbm <= 60 && Whole(dbm)
  }

  const NUDGES: seq<int> := [0, -1, 1, 0, -1, 2, 1, 0, -1, 1]

  /** The power of a type 2 or 3 message: clamped and moved to a whole step. */
  function Normal(power: int): (p: nat)
    ensures p <= 60 && p % 10 in {0, 3, 7}
  {
    var clamped := if power < 0 then 0 else if power > 60 then 60 else power;
    Nudged(clamped);
    clamped + NUDGES[clamped % 10]
  }

  lemma Nudged(c: nat)
    requires c <= 60
    ensures 0 <= c + NUDGES[c % 10] <= 60 && (c + NUDGES[c % 10]) % 10 in {0, 3, 7}
  {
    var d := c % 10;
    assert NUDGES[0] == 0 && NUDGES[1] == -1 && NUDGES[2] == 1 && NUDGES[3] == 0 && NUDGES[4] == -1;
    assert NUDGES[5] == 2 && NUDGES[6] == 1 && NUDGES[7] == 0 && NUDGES[8] == -1 && NUDGES[9] == 1;
  }

  function Distance(a: int, b: int): nat {
    if a < b then b - a else a - b
  }

  /** The power sent is the nearest of the whole steps from 0 to 60, the higher one of two as near. */
  lemma NearestStep(power: int, step: int)
    requires WholePower(step) && step != Normal(power)
    ensures WholePower(Normal(power))
    ensures Distance(power, Normal(power)) < Distance(power, step)
      || (Distance(power, Normal(power)) == Distance(power, step) && step < Normal(power))
  {
    var c := if power < 0 then 0 else if power > 60 then 60 else power;
    Nudged(c);
    NudgeIs(c % 10);
    assert c == 10 * (c / 10) + c % 10 && step == 10 * (step / 10) + step % 10;
  }

  lemma NudgeIs(d: nat)
    requires d < 10
    ensures NUDGES[d] == match d case 1 => -1 case 2 => 1 case 4 => -1 case 5 => 2 case 6 => 1 case 8 => -1 case 9 => 1 case _ => 0
  {
  }

  /** So exactly the whole steps are sent as they are. */
  lemma NormalIs(power: int)
    ensures Normal(power) == power <==> WholePower(power)
  {
    if WholePower(power) && Normal(power) != power {
      NearestStep(power, power);
    }
  }

  /** `pack_call` writes outside its buffer for a six-character callsign with its digit second. */
  predicate Fits(call: string) {
    |call| == 6 && IsDigit(call[1]) ==> IsDigit(call[2])
  }

  function PackPlain(call: string, grid: string, power: int): Packed
    requires Fits(call) && |grid| >= 4
  {
    Packed(PackedCall(call), PackGridPower(grid, power))
  }

  /** The digit of a prefix character in base 37. */
  function PrefixDigit(ch: char): nat {
    if IsDigit(ch) then ch as int - 48 else if IsLetter(ch) then ch as int - 55 else 36
  }

  function PrefixDigits(p: string, start: nat): nat {
    if p == [] then start else 37 * PrefixDigits(p[..|p| - 1], start) + PrefixDigit(p[|p| - 1])
  }

  /** A prefix as three base-37 digits, blanks first. */
  function PrefixCode(p: string): nat {
    PrefixDigits(p, if |p| == 1 then 37 * 36 + 36 else if |p| == 2 then 36 else 0)
  }

  function SuffixCode(ch: char): nat {
    if IsDigit(ch) then ch as int - 48 else if IsLetter(ch) then ch as int - 55 else 38
  }

  /** `pack_prefix`: callsign number, prefix or suffix number, and the flag added to the type. */
  method PackPrefix(before: string, after: string) returns (n: nat, m: int, nadd: nat)
    requires |after| > 0 && (if |after| <= 2 then Fits(before) && |before| <= 6 else Fits(after))
    ensures (n, m, nadd) == PrefixFields(before, after)
  {
    if |after| == 1 {
      n := PackCall(before);
      nadd := 1;
      m := 60000 - 32768 + SuffixCode(after[0]);
    } else if |after| == 2 {
      n := PackCall(before);
      nadd := 1;
      m := 60000 + 26 + (10 * (after[0] as int - 48) + (after[1] as int - 48));
    } else {
      n := PackCall(after);
      m := if |before| == 1 then 37 * 36 + 36 else if |before| == 2 then 36 else 0;
      ghost var start := m;
      for i := 0 to |before|
        invariant m == PrefixDigits(before[..i], start)
      {
        m := 37 * m + PrefixDigit(before[i]);
        assert before[..i + 1][..i] == before[..i];
      }
      assert before[..|before|] == before;
      nadd := 0;
      if m > 32768 {
        m := m - 32768;
        nadd := 1;
      }
    }
  }

  function PrefixFields(before: string, after: string): (nat, int, nat)
    requires |after| > 0 && (if |after| <= 2 then Fits(before) && |before| <= 6 else Fits(after))
  {
    if |after| == 1 then (PackedCall(before), 60000 - 32768 + SuffixCode(after[0]), 1)
    else if |after| == 2 then
      (PackedCall(before), 60000 + 26 + (10 * (after[0] as int - 48) + (after[1] as int - 48)), 1)
    else
      var code := PrefixCode(before);
      if code > 32768 then (PackedCall(after), code - 32768, 1) else (PackedCall(after), code, 0)
  }

  function PackSlashed(before: string, after: string, power: int): Packed
    requires |after| > 0 && (if |after| <= 2 then Fits(before) && |before| <= 6 else Fits(after))
  {
    var (n, ng, nadd) := PrefixFields(before, after);
    Packed(n, 128 * ng + (Normal(power) + 1 + nadd) + 64)
  }

  /** The grid with its first character moved to the sixth column. With a shorter grid that
      column lies behind a terminator, so the text handed on ends before it. */
  function Rotated(grid: string): string
    requires 1 <= |grid| <= 6
  {
    if |grid| == 6 then grid[1..] + [grid[0]] else grid[1..]
  }

  function PackHashed(hash: nat, grid: string, power: int): Packed
    requires 1 <= |grid| <= 6 && Fits(Rotated(grid))
  {
    Packed(PackedCall(Rotated(grid)), 128 * hash - (Normal(power) + 1) + 64)
  }

  // ----- unpacking

  /** A base-37 digit printed; 36 is a space. */
  function PrefixChar(d: nat): char
    requires d < 37
  {
    if d <= 9 then (48 + d) as char else if d <= 35 then (55 + d) as char else ' '
  }

  /** What follows the last space. */
  function AfterLastSpace(s: string): string {
    if s == [] || s[|s| - 1] == ' ' then [] else AfterLastSpace(s[..|s| - 1]) + [s[|s| - 1]]
  }

  function FirstSix(s: string): string {
    if |s| <= 6 then s else s[..6]
  }

  /** `unpackpfx`. */
  function UnpackPrefix(n: nat, call: string): Option<string> {
    if n < 60000 then
      var pfx := [PrefixChar(n / 37 / 37 % 37), PrefixChar(n / 37 % 37), PrefixChar(n % 37)];
      Some(AfterLastSpace(pfx) + "/" + FirstSix(call))
    else
      var nc := n - 60000;
      if nc <= 35 then Some(FirstSix(call) + "/" + [PrefixChar(nc)])
      else if nc <= 125 then Some(FirstSix(call) + "/" + [(48 + (nc - 26) / 10) as char, (48 + (nc - 26) % 10) as char])
      else None
  }

  function CharAt(s: string, i: nat): char {
    if i < |s| then s[i] else '\0'
  }

  /** `unpk_`: the spot, whether it is not to be printed, and the tables after it. */
  function Unpack(data: seq<Byte>, t: Tables, hash: string -> nat): (Spot, bool, Tables)
    requires |data| >= 7
  {
    var (n1, n2) := Unpack50(data);
    UnpackFields(n1, n2, t, hash)
  }

  function UnpackFields(n1: nat, n2: nat, t: Tables, hash: string -> nat): (Spot, bool, Tables) {
    var call, grid := UnpackCall(n1), UnpackGrid(n2);
    if call.None? || grid.None? then (Failed, true, t)
    else Interpret(call.value, grid.value, n2, t, hash)
  }

  /** The three types, told apart by the low seven bits. */
  function Interpret(buffer: string, grid: string, n2: nat, t: Tables, hash: string -> nat): (Spot, bool, Tables)
    requires |buffer| == 6
  {
    var ntype := n2 % 128 - 64;
    var call := Text(buffer);
    if 0 <= ntype <= 62 then
      var nu := ntype % 10;
      if Whole(ntype) then
        (Plain(call, grid, ntype), false, Tables(t.calls[hash(call) := call], t.grids[hash(call) := grid]))
      else
        var nadd := if nu > 7 then nu - 7 else if nu > 3 then nu - 3 else nu;
        var full := UnpackPrefix(n2 / 128 + 32768 * (nadd - 1), call);
        if full.None? then (Failed, true, t)
        else if Whole(ntype - nadd) then
          (Slashed(full.value, ntype - nadd), false, t.(calls := t.calls[hash(full.value) := full.value]))
        else (Slashed(full.value, ntype - nadd), true, t)
    else if ntype < 0 then
      var dbm := -(ntype + 1);
      var grid6 := Text([buffer[5]] + Text(buffer[..5]));
      var odd := !Whole(dbm) || !IsLetter(CharAt(grid6, 0)) || !IsLetter(CharAt(grid6, 1))
        || !IsDigit(CharAt(grid6, 2)) || !IsDigit(CharAt(grid6, 3));
      (Hashed(Known(t, n2 / 128), grid6, dbm), odd || ntype == -64, t)
    else (Stale, false, t)
  }

  /** The callsign with this hash in angle brackets, or dots. */
  function Known(t: Tables, hash: nat): string {
    if hash in t.calls && t.calls[hash] != [] then "<" + t.calls[hash] + ">" else "<...>"
  }

  predicate StartsLikeGrid(grid: string) {
    |grid| >= 4 && IsLetter(grid[0]) && IsLetter(grid[1]) && IsDigit(grid[2]) && IsDigit(grid[3])
  }

  /** A plain spot is always printed, one with a slash when its power is a whole step, and a hashed one
      when moreover that is at most 60 and its grid starts with two letters and two digits. What is not printed is not learned. */
  lemma PrintedIff(buffer: string, grid: string, n2: nat, t: Tables, hash: string -> nat)
    requires |buffer| == 6
    ensures var (spot, noprint, learned) := Interpret(buffer, grid, n2, t, hash);
      && (spot.Plain? ==> !noprint && Whole(spot.dbm))
      && (spot.Slashed? ==> (noprint <==> !Whole(spot.dbm)))
      && (spot.Hashed? ==> spot.dbm <= 63 && (noprint <==> spot.dbm == 63 || !Whole(spot.dbm) || !StartsLikeGrid(spot.grid)))
      && (noprint || spot.Hashed? ==> learned == t)
  {
    hide Text, UnpackPrefix, Known, Whole;
  }

  // ----- type 1

  /** The message bytes: the fields, then zero bytes. */
  function Bytes(p: Packed): (b: seq<Byte>)
    ensures |b| == 11
  {
    PackBytes(p.n, p.m) + [0, 0, 0, 0]
  }

  lemma FieldsOf(p: Packed, t: Tables, hash: string -> nat)
    requires p.n < CALLS
    ensures Unpack(Bytes(p), t, hash) == UnpackFields(p.n, p.m % 0x40_0000, t, hash)
  {
    hide UnpackFields, Unpack50, PackBytes;
    FieldsRoundTrip(p.n, p.m, [0, 0, 0, 0]);
    InWidth(p.n);
  }

  lemma InWidth(n: nat)
    requires n < CALLS
    ensures n % 0x1000_0000 == n
  {
  }

  /** A buffer that holds a callsign, and what unpacking finds in the other field. */
  lemma CallFieldOf(call: string, n2: nat, t: Tables, hash: string -> nat)
    requires CanonicalCall(call)
    ensures Fits(call) && |call| <= 6 && PackedCall(call) < CALLS
    ensures UnpackFields(PackedCall(call), n2, t, hash)
      == if UnpackGrid(n2).None? then (Failed, true, t)
         else Interpret(call + Nulls(6 - |call|), UnpackGrid(n2).value, n2, t, hash)
    ensures Text(call + Nulls(6 - |call|)) == call
  {
    CallRoundTrip(call);
    hide PackedCall, UnpackCall, Text, UnpackGrid, CanonicalCall, Interpret;
  }

  /** A type 1 spot says its power. */
  lemma PlainPower(buffer: string, grid: string, n2: nat, t: Tables, hash: string -> nat)
    requires |buffer| == 6
    ensures var r, ntype := Interpret(buffer, grid, n2, t, hash), n2 % 128 - 64;
      && (r.0.Plain? ==> r.0.dbm == ntype && 0 <= ntype <= 60 && Whole(ntype))
      && (0 <= ntype <= 60 && Whole(ntype) ==>
            r == (Plain(Text(buffer), grid, ntype), false,
                  Tables(t.calls[hash(Text(buffer)) := Text(buffer)], t.grids[hash(Text(buffer)) := grid])))
  {
    hide Text, UnpackPrefix, Known;
  }

  /** A canonical callsign and grid come back with the power exactly when the power is a whole
      step from 0 to 60; the tables then learn the callsign. */
  lemma PlainRoundTrip(call: string, grid: string, power: int, t: Tables, hash: string -> nat)
    requires CanonicalCall(call) && CanonicalGrid(grid)
    ensures Fits(call)
    ensures var r := Unpack(Bytes(PackPlain(call, grid, power)), t, hash);
      && (r.0 == Plain(call, grid, power) <==> WholePower(power))
      && (r.0 == Plain(call, grid, power) ==>
            r == (Plain(call, grid, power), false, Tables(t.calls[hash(call) := call], t.grids[hash(call) := grid])))
  {
    hide PackedCall, Text, UnpackGrid, PackGridPower, CanonicalCall, Interpret, UnpackFields, Bytes, Unpack, Whole;
    CallFieldOf(call, 0, t, hash);
    var p := PackPlain(call, grid, power);
    FieldsOf(p, t, hash);
    var n2 := p.m % 0x40_0000;
    CallFieldOf(call, n2, t, hash);
    PlainPower(call + Nulls(6 - |call|), if UnpackGrid(n2).Some? then UnpackGrid(n2).value else grid, n2, t, hash);
    if 0 <= power <= 60 {
      GridInRange(grid, power);
      InGridWidth(p.m);
      GridRoundTrip(grid, p.m, power + 64);
    }
  }

  lemma InGridWidth(m: int)
    requires 0 <= m < 0x40_0000
    ensures m % 0x40_0000 == m
  {
  }

  lemma GridInRange(grid: string, power: int)
    requires CanonicalGrid(grid) && 0 <= power + 64 < 128
    ensures 0 <= PackGridPower(grid, power) < 0x40_0000
  {
    LocatorCodes(grid[0]);
    LocatorCodes(grid[1]);
    LocatorCodes(grid[2]);
    LocatorCodes(grid[3]);
    hide LocatorCode;
  }

  // ----- type 2

  /** The low seven bits of a type 2 message name the type, and the rest the prefix or suffix. */
  lemma SlashedBits(ng: nat, power: int, nadd: nat)
    requires nadd <= 1
    ensures var n2 := (128 * ng + (Normal(power) + 1 + nadd) + 64) % 0x40_0000;
      n2 % 128 == Normal(power) + 65 + nadd && n2 / 128 == ng % 0x8000
  {
    var low, m := Normal(power) + 65 + nadd, 128 * ng + (Normal(power) + 1 + nadd) + 64;
    hide Normal;
    assert m == (ng / 0x8000) * 0x40_0000 + (128 * (ng % 0x8000) + low);
    GridRemainder(m, ng / 0x8000, 128 * (ng % 0x8000) + low);
  }

  /** The flag and the power are read off the type's last digit. */
  lemma SlashedType(power: int, nadd: nat)
    requires nadd <= 1
    ensures var ntype := Normal(power) + 1 + nadd;
      var nu := ntype % 10;
      && !Whole(ntype) && (if nu > 7 then nu - 7 else if nu > 3 then nu - 3 else nu) == nadd + 1
  {
    var n := Normal(power);
    hide Normal;
    var q, d := n / 10, n % 10;
    assert n + 1 + nadd == 10 * q + (d + 1 + nadd);
  }

  function SlashedSpot(full: Option<string>, power: int, t: Tables, hash: string -> nat): (Spot, bool, Tables) {
    if full.None? then (Failed, true, t)
    else (Slashed(full.value, Normal(power)), false, t.(calls := t.calls[hash(full.value) := full.value]))
  }

  lemma SlashedInterpreted(buffer: string, grid: string, n2: nat, power: int, nadd: nat, t: Tables, hash: string -> nat)
    requires |buffer| == 6 && nadd <= 1 && n2 % 128 == Normal(power) + 65 + nadd
    ensures Interpret(buffer, grid, n2, t, hash) == SlashedSpot(UnpackPrefix(n2 / 128 + 32768 * nadd, Text(buffer)), power, t, hash)
  {
    SlashedType(power, nadd);
    hide Normal, UnpackPrefix, Text;
  }

  /** What unpacking makes of a type 2 message with field number ng and flag nadd. */
  lemma SlashedFields(call: string, ng: nat, power: int, nadd: nat, t: Tables, hash: string -> nat)
    requires CanonicalCall(call) && nadd <= 1
    ensures Fits(call) && |call| <= 6
    ensures Unpack(Bytes(Packed(PackedCall(call), 128 * ng + (Normal(power) + 1 + nadd) + 64)), t, hash)
      == if ng % 0x8000 >= 32400 then (Failed, true, t)
         else SlashedSpot(UnpackPrefix(ng % 0x8000 + 32768 * nadd, call), power, t, hash)
  {
    var m := 128 * ng + (Normal(power) + 1 + nadd) + 64;
    var n2 := m % 0x40_0000;
    assert GRIDS == 32400;
    hide *;
    SlashedBits(ng, power, nadd);
    CallFieldOf(call, n2, t, hash);
    FieldsOf(Packed(PackedCall(call), m), t, hash);
    if ng % 0x8000 < GRIDS {
      SlashedInterpreted(call + Nulls(6 - |call|), UnpackGrid(n2).value, n2, power, nadd, t, hash);
    }
  }

  predicate CanonicalPrefix(p: string) {
    1 <= |p| <= 3 && forall i :: 0 <= i < |p| ==> IsAlphanumeric(p[i])
  }

  lemma PrefixDigitRange(ch: char)
    requires IsAlphanumeric(ch)
    ensures PrefixDigit(ch) < 36 && PrefixChar(PrefixDigit(ch)) == ch
  {
  }

  /** The three base-37 digits of a prefix. */
  lemma PrefixCodeIs(p: string)
    requires CanonicalPrefix(p)
    ensures var a := if |p| == 3 then PrefixDigit(p[0]) else 36;
      var b := if |p| == 3 then PrefixDigit(p[1]) else if |p| == 2 then PrefixDigit(p[0]) else 36;
      PrefixCode(p) == (a * 37 + b) * 37 + PrefixDigit(p[|p| - 1])
  {
    assert |p| <= 3;
    hide PrefixDigit, CanonicalPrefix;
    var e: string := [];
    if |p| == 1 {
      assert p[..0] == e && p == [p[0]];
      assert PrefixDigits(p, 37 * 36 + 36) == 37 * PrefixDigits(e, 37 * 36 + 36) + PrefixDigit(p[0]);
    } else if |p| == 2 {
      assert p[..1][..0] == e && p == [p[0], p[1]];
      assert PrefixDigits(p[..1], 36) == 37 * PrefixDigits(e, 36) + PrefixDigit(p[0]);
    } else {
      assert p[..2][..1] == p[..1] && p[..1][..0] == e && p == [p[0], p[1], p[2]];
      assert PrefixDigits(p[..1], 0) == 37 * PrefixDigits(e, 0) + PrefixDigit(p[0]);
      assert PrefixDigits(p[..2], 0) == 37 * PrefixDigits(p[..1], 0) + PrefixDigit(p[1]);
    }
  }

  lemma Digits37(n: nat, q: nat, d: nat)
    requires d < 37 && n == q * 37 + d
    ensures n / 37 == q && n % 37 == d
  {
  }

  lemma PrefixOfCode(a: nat, b: nat, c: nat, call: string)
    requires a < 37 && b < 37 && c < 37
    ensures (a * 37 + b) * 37 + c < 50653
    ensures UnpackPrefix((a * 37 + b) * 37 + c, call)
      == Some(AfterLastSpace([PrefixChar(a), PrefixChar(b), PrefixChar(c)]) + "/" + FirstSix(call))
  {
    hide PrefixChar, AfterLastSpace, FirstSix;
    Digits37((a * 37 + b) * 37 + c, a * 37 + b, c);
    Digits37(a * 37 + b, a, b);
  }

  lemma LastWord(x: char, y: char, z: char)
    requires z != ' '
    ensures AfterLastSpace([x, y, z]) == if y == ' ' then [z] else if x == ' ' then [y, z] else [x, y, z]
  {
    var none: string := [];
    assert [x, y, z][..2] == [x, y] && [x, y][..1] == [x] && [x][..0] == none;
    assert AfterLastSpace([x]) == if x == ' ' then none else none + [x];
    assert AfterLastSpace([x, y]) == if y == ' ' then none else AfterLastSpace([x]) + [y];
    assert none + [x] + [y] + [z] == [x, y, z] && none + [z] == [z] && none + [y] + [z] == [y, z];
  }

  /** A prefix number unpacks to its prefix. */
  lemma PrefixUnpacks(p: string, call: string)
    requires CanonicalPrefix(p)
    ensures PrefixCode(p) < 50653 && UnpackPrefix(PrefixCode(p), call) == Some(p + "/" + FirstSix(call))
  {
    PrefixCodeIs(p);
    var a := if |p| == 3 then PrefixDigit(p[0]) else 36;
    var b := if |p| == 3 then PrefixDigit(p[1]) else if |p| == 2 then PrefixDigit(p[0]) else 36;
    var c := PrefixDigit(p[|p| - 1]);
    PrefixDigitRange(p[0]);
    PrefixDigitRange(p[|p| - 1]);
    if |p| == 3 {
      PrefixDigitRange(p[1]);
      assert p == [p[0], p[1], p[2]];
    } else if |p| == 2 {
      assert p == [p[0], p[1]];
    } else {
      assert p == [p[0]];
    }
    assert PrefixChar(36) == ' ' && PrefixChar(c) != ' ';
    hide PrefixDigit, PrefixChar, FirstSix, PrefixCode, AfterLastSpace;
    PrefixOfCode(a, b, c, call);
    LastWord(PrefixChar(a), PrefixChar(b), PrefixChar(c));
  }

  /** A prefixed callsign comes back, with the power moved to a whole step, exactly when its
      prefix number is below 32400 or above 32768. */
  lemma PrefixRoundTrip(p: string, call: string, power: int, t: Tables, hash: string -> nat)
    requires CanonicalPrefix(p) && CanonicalCall(call) && |call| >= 3
    ensures Fits(call)
    ensures var full := p + "/" + call;
      var r := Unpack(Bytes(PackSlashed(p, call, power)), t, hash);
      && (r.0 == Slashed(full, power) <==> (PrefixCode(p) < 32400 || PrefixCode(p) > 32768) && WholePower(power))
      && (r.0 == Slashed(full, Normal(power)) <==> (PrefixCode(p) < 32400 || PrefixCode(p) > 32768))
      && (r.0 == Slashed(full, Normal(power)) ==>
            r == (Slashed(full, Normal(power)), false, t.(calls := t.calls[hash(full) := full])))
  {
    hide *;
    NormalIs(power);
    var code := PrefixCode(p);
    PrefixUnpacks(p, call);
    ShortCall(call);
    var nadd := if code > 32768 then 1 else 0;
    var ng := code - 32768 * nadd;
    PrefixPacked(p, call, power, ng, nadd);
    SlashedFields(call, ng, power, nadd, t, hash);
    assert code != 32768 ==> ng % 0x8000 == ng && ng % 0x8000 + 32768 * nadd == code;
    if code == 32768 {
      NotZeros(p, call);
      SpotIs("000" + "/" + call, power, t, hash);
    }
    SpotIs(p + "/" + call, power, t, hash);
  }

  lemma SpotIs(full: string, power: int, t: Tables, hash: string -> nat)
    ensures SlashedSpot(Some(full), power, t, hash)
      == (Slashed(full, Normal(power)), false, t.(calls := t.calls[hash(full) := full]))
  {
  }

  lemma ShortCall(call: string)
    requires CanonicalCall(call)
    ensures |call| <= 6 && FirstSix(call) == call && Fits(call)
  {
    CanonicalPrinted(call);
    CallRoundTrip(call);
    hide PackedCall, UnpackCall, Text;
  }

  lemma PrefixPacked(p: string, call: string, power: int, ng: nat, nadd: nat)
    requires |call| >= 3 && Fits(call)
    requires nadd == (if PrefixCode(p) > 32768 then 1 else 0) && ng == PrefixCode(p) - 32768 * nadd
    ensures PackSlashed(p, call, power) == Packed(PackedCall(call), 128 * ng + (Normal(power) + 1 + nadd) + 64)
  {
    hide PrefixCode, PackedCall, Normal;
  }

  /** The number 32768 loses its top bit and reads as the prefix 000, which has number 0. */
  lemma NotZeros(p: string, call: string)
    requires CanonicalPrefix(p) && PrefixCode(p) == 32768
    ensures UnpackPrefix(0, call) == Some("000" + "/" + FirstSix(call)) && "000" + "/" + FirstSix(call) != p + "/" + FirstSix(call)
  {
    var zeros := "000";
    PrefixCodeIs(zeros);
    assert PrefixDigit('0') == 0;
    assert PrefixCode(zeros) == 0;
    PrefixUnpacks(zeros, call);
    var read, want := zeros + "/" + FirstSix(call), p + "/" + FirstSix(call);
    assert p == want[..|p|] && zeros == read[..3] && (|p| != 3 ==> |read| != |want|);
  }

  /** A callsign with a one-character suffix comes back exactly when that is a letter or digit. */
  lemma SuffixRoundTrip(call: string, suffix: char, power: int, t: Tables, hash: string -> nat)
    requires CanonicalCall(call)
    ensures Fits(call) && |call| <= 6
    ensures var full := call + "/" + [suffix];
      var r := Unpack(Bytes(PackSlashed(call, [suffix], power)), t, hash);
      && (r.0 == Slashed(full, power) <==> IsAlphanumeric(suffix) && WholePower(power))
      && (r.0 == Slashed(full, Normal(power)) <==> IsAlphanumeric(suffix))
      && (IsAlphanumeric(suffix) ==> r == (Slashed(full, Normal(power)), false, t.(calls := t.calls[hash(full) := full])))
  {
    hide *;
    NormalIs(power);
    var k := SuffixCode(suffix);
    SuffixCodes(suffix);
    ShortCall(call);
    SuffixPacked(call, suffix, power);
    SlashedFields(call, 60000 - 32768 + k, power, 1, t, hash);
    SuffixUnpacks(call, k);
    assert (60000 - 32768 + k) % 0x8000 == 60000 - 32768 + k;
    SpotIs(call + "/" + [suffix], power, t, hash);
    SpotIs(call + "/" + ['1', '2'], power, t, hash);
    assert |call + "/" + ['1', '2']| != |call + "/" + [suffix]|;
  }

  lemma SuffixCodes(suffix: char)
    ensures if IsAlphanumeric(suffix) then SuffixCode(suffix) <= 35 && PrefixChar(SuffixCode(suffix)) == suffix
      else SuffixCode(suffix) == 38
  {
  }

  lemma SuffixPacked(call: string, suffix: char, power: int)
    requires |call| <= 6 && Fits(call)
    ensures PackSlashed(call, [suffix], power)
      == Packed(PackedCall(call), 128 * (60000 - 32768 + SuffixCode(suffix)) + (Normal(power) + 1 + 1) + 64)
  {
    hide PackedCall, Normal, SuffixCode;
  }

  lemma SuffixUnpacks(call: string, k: nat)
    requires k <= 35 || k == 38
    ensures UnpackPrefix(60000 + k, call)
      == Some(FirstSix(call) + "/" + if k <= 35 then [PrefixChar(k)] else ['1', '2'])
  {
  }

  /** A callsign with a two-digit suffix comes back exactly when that is 10 or more. */
  lemma TwoDigitRoundTrip(call: string, tens: char, ones: char, power: int, t: Tables, hash: string -> nat)
    requires CanonicalCall(call) && IsDigit(tens) && IsDigit(ones)
    ensures Fits(call) && |call| <= 6
    ensures var full := call + "/" + [tens, ones];
      var r := Unpack(Bytes(PackSlashed(call, [tens, ones], power)), t, hash);
      && (r.0 == Slashed(full, power) <==> tens != '0' && WholePower(power))
      && (r.0 == Slashed(full, Normal(power)) <==> tens != '0')
      && (tens != '0' ==> r == (Slashed(full, Normal(power)), false, t.(calls := t.calls[hash(full) := full])))
  {
    hide *;
    NormalIs(power);
    var v := 10 * (tens as int - 48) + (ones as int - 48);
    DigitValues(tens, ones, v);
    TwoDigits(call, tens, ones, v);
    ShortCall(call);
    TwoDigitPacked(call, tens, ones, power, v);
    SlashedFields(call, 60000 + 26 + v, power, 1, t, hash);
    assert (60000 + 26 + v) % 0x8000 == 27258 + v;
    SpotIs(call + "/" + [tens, ones], power, t, hash);
    if v < 10 {
      SpotIs(call + "/" + [PrefixChar(26 + v)], power, t, hash);
      assert |call + "/" + [PrefixChar(26 + v)]| != |call + "/" + [tens, ones]|;
    }
  }

  lemma DigitValues(tens: char, ones: char, v: int)
    requires IsDigit(tens) && IsDigit(ones) && v == 10 * (tens as int - 48) + (ones as int - 48)
    ensures 0 <= v <= 99 && (v >= 10 <==> tens != '0')
  {
  }

  lemma TwoDigits(call: string, tens: char, ones: char, v: nat)
    requires IsDigit(tens) && IsDigit(ones) && v == 10 * (tens as int - 48) + (ones as int - 48)
    ensures UnpackPrefix(60026 + v, call)
      == Some(FirstSix(call) + "/" + if v < 10 then [PrefixChar(26 + v)] else [tens, ones])
  {
  }

  lemma TwoDigitPacked(call: string, tens: char, ones: char, power: int, v: nat)
    requires |call| <= 6 && Fits(call) && v == 10 * (tens as int - 48) + (ones as int - 48)
    ensures PackSlashed(call, [tens, ones], power)
      == Packed(PackedCall(call), 128 * (60000 + 26 + v) + (Normal(power) + 1 + 1) + 64)
  {
    hide PackedCall, Normal;
  }

  // ----- type 3

  predicate CanonicalGrid6(g: string) {
    && |g| == 6 && IsLetter(g[0]) && IsLetter(g[1]) && IsDigit(g[2]) && IsDigit(g[3]) && IsLetter(g[4]) && IsLetter(g[5])
  }

  lemma RotatedCanonical(g: string)
    requires CanonicalGrid6(g)
    ensures CanonicalCall(Rotated(g)) && Fits(Rotated(g)) && |Rotated(g)| == 6
  {
    var r := Rotated(g);
    assert r == [g[1], g[2], g[3], g[4], g[5], g[0]];
    assert r[3..] == [g[4], g[5], g[0]];
  }

  lemma HashedBits(h: nat, power: int)
    requires h < 0x8000
    ensures var n2 := (128 * h - (Normal(power) + 1) + 64) % 0x40_0000;
      n2 % 128 == 63 - Normal(power) && n2 / 128 == h
  {
    var m := 128 * h + (63 - Normal(power));
    hide Normal;
    InGridWidth(m);
  }

  lemma GridBack(g: string)
    requires CanonicalGrid6(g)
    ensures Text([Rotated(g)[5]] + Text(Rotated(g)[..5])) == g
  {
    var r := Rotated(g);
    var e: string := [];
    CanonicalPrinted(r) by { RotatedCanonical(g); }
    TextOf(r[..5], 0);
    assert r[..5] + Nulls(0) == r[..5];
    assert [r[5]] + r[..5] == g;
    TextOf(g, 0) by { assert Printed(g); }
    assert g + Nulls(0) == g;
  }

  lemma HashedInterpreted(g: string, grid: string, n2: nat, power: int, t: Tables, hash: string -> nat)
    requires CanonicalGrid6(g) && n2 % 128 == 63 - Normal(power)
    ensures Interpret(Rotated(g), grid, n2, t, hash) == (Hashed(Known(t, n2 / 128), g, Normal(power)), false, t)
  {
    GridBack(g);
    hide Text, Known, Rotated, Normal, UnpackPrefix;
  }

  /** A six-character grid comes back, under the callsign known by the hash, exactly when the
      hash is below 32400; at or above it the whole message is refused. */
  lemma HashedRoundTrip(h: nat, g: string, power: int, t: Tables, hash: string -> nat)
    requires h < 0x8000 && CanonicalGrid6(g)
    ensures Fits(Rotated(g))
    ensures Unpack(Bytes(PackHashed(h, g, power)), t, hash).0 == Hashed(Known(t, h), g, power) <==> h < GRIDS && WholePower(power)
    ensures Unpack(Bytes(PackHashed(h, g, power)), t, hash)
      == if h < GRIDS then (Hashed(Known(t, h), g, Normal(power)), false, t) else (Failed, true, t)
  {
    RotatedCanonical(g);
    NormalIs(power);
    var p := PackHashed(h, g, power);
    var n2 := p.m % 0x40_0000;
    HashedBits(h, power);
    var call := Rotated(g);
    hide PackedCall, Text, UnpackGrid, CanonicalCall, Interpret, UnpackFields, Bytes, Unpack, Normal, Rotated, CanonicalGrid6, Known, WholePower;
    CallFieldOf(call, n2, t, hash);
    FieldsOf(p, t, hash);
    assert call + Nulls(6 - |call|) == call;
    if h < GRIDS {
      HashedInterpreted(g, UnpackGrid(n2).value, n2, power, t, hash);
    }
  }

  /** A callsign heard in a plain message names the sender of a later message that carries its hash. */
  lemma HeardCallIsNamed(call: string, grid: string, power: int, g: string, power': int, t: Tables, hash: string -> nat)
    requires CanonicalCall(call) && CanonicalGrid(grid) && WholePower(power)
    requires CanonicalGrid6(g) && WholePower(power') && hash(call) < GRIDS
    ensures Fits(call) && Fits(Rotated(g))
    ensures var learned := Unpack(Bytes(PackPlain(call, grid, power)), t, hash).2;
      Unpack(Bytes(PackHashed(hash(call), g, power')), learned, hash).0 == Hashed("<" + call + ">", g, power')
  {
    PlainRoundTrip(call, grid, power, t, hash);
    assert call != [] by {
      assert CanonicalCall(call);
    }
    hide PackPlain, PackHashed, Bytes, Unpack, CanonicalCall, CanonicalGrid, CanonicalGrid6, WholePower, Rotated;
    var learned := Unpack(Bytes(PackPlain(call, grid, power)), t, hash).2;
    HashedRoundTrip(hash(call), g, power', learned, hash);
  }

  /** So does a callsign heard with its prefix. */
  lemma HeardPrefixIsNamed(prefix: string, call: string, power: int, g: string, power': int, t: Tables, hash: string -> nat)
    requires CanonicalPrefix(prefix) && CanonicalCall(call) && |call| >= 3 && WholePower(power)
    requires PrefixCode(prefix) < 32400 || PrefixCode(prefix) > 32768
    requires CanonicalGrid6(g) && WholePower(power') && hash(prefix + "/" + call) < GRIDS
    ensures Fits(call) && Fits(Rotated(g))
    ensures var full := prefix + "/" + call;
      var learned := Unpack(Bytes(PackSlashed(prefix, call, power)), t, hash).2;
      Unpack(Bytes(PackHashed(hash(full), g, power')), learned, hash).0 == Hashed("<" + full + ">", g, power')
  {
    PrefixRoundTrip(prefix, call, power, t, hash);
    NormalIs(power);
    hide PackSlashed, PackHashed, Bytes, Unpack, CanonicalCall, CanonicalPrefix, CanonicalGrid6, WholePower, Rotated, PrefixCode, Normal;
    var learned := Unpack(Bytes(PackSlashed(prefix, call, power)), t, hash).2;
    HashedRoundTrip(hash(prefix + "/" + call), g, power', learned, hash);
  }

  /** A hash no callsign was stored under is printed as dots. */
  lemma UnheardIsDots(h: nat, g: string, power: int, t: Tables, hash: string -> nat)
    requires h < GRIDS && CanonicalGrid6(g) && WholePower(power) && (h in t.calls ==> t.calls[h] == [])
    ensures Fits(Rotated(g)) && Unpack(Bytes(PackHashed(h, g, power)), t, hash).0 == Hashed("<...>", g, power)
  {
    hide PackHashed, Bytes, Unpack, CanonicalGrid6, WholePower, Rotated;
    HashedRoundTrip(h, g, power, t, hash);
  }

  /** A four-character grid in a type 3 message is lost: its first letter is never packed, and
      what unpacks is an empty grid that is not to be printed. */
  lemma ShortGridLost(h: nat, g: string, power: int, t: Tables, hash: string -> nat)
    requires h < GRIDS && CanonicalGrid(g)
    ensures Fits(Rotated(g))
    ensures Unpack(Bytes(PackHashed(h, g, power)), t, hash) == (Hashed(Known(t, h), [], Normal(power)), true, t)
  {
    var p := PackHashed(h, g, power);
    var n2 := p.m % 0x40_0000;
    HashedBits(h, power);
    var call := Rotated(g);
    assert call == [g[1], g[2], g[3]];
    assert CanonicalCall(call);
    hide PackedCall, Text, UnpackGrid, CanonicalCall, Interpret, UnpackFields, Bytes, Unpack, Normal, Rotated, CanonicalGrid, Known;
    CallFieldOf(call, n2, t, hash);
    FieldsOf(p, t, hash);
    EmptyGrid(call + Nulls(3), UnpackGrid(n2).value, n2, power, t, hash);
  }

  lemma EmptyGrid(buffer: string, grid: string, n2: nat, power: int, t: Tables, hash: string -> nat)
    requires |buffer| == 6 && buffer[5] == '\0' && n2 % 128 == 63 - Normal(power)
    ensures Interpret(buffer, grid, n2, t, hash) == (Hashed(Known(t, n2 / 128), [], Normal(power)), true, t)
  {
    hide Known, Normal, UnpackPrefix;
  }
}
