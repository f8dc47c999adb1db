/** The 28-bit callsign and 22-bit locator fields of a WSPR message, packed and unpacked. */
module WsprPacking {
  import opened Options
  import opened Bits
  import opened Radix

  predicate IsDigit(ch: char) {
    '0' <= ch <= '9'
  }

  predicate IsLetter(ch: char) {
    'A' <= ch <= 'Z'
  }

  predicate IsAlphanumeric(ch: char) {
    IsDigit(ch) || IsLetter(ch)
  }

  predicate AllLetters(s: string) {
    forall i :: 0 <= i < |s| ==> IsLetter(s[i])
  }

  // ----- callsigns

  /** `get_callsign_character_code`. */
  function CallCode(ch: char): int {
    if IsDigit(ch) then ch as int - 48
    else if ch == ' ' then 36
    else if IsLetter(ch) then ch as int - 55
    else -1
  }

  /** The table both unpackers index: digits, letters, a space. */
  function TableChar(i: int): char
    requires 0 <= i <= 36
  {
    if i < 10 then (48 + i) as char else if i < 36 then (55 + i) as char else ' '
  }

  lemma TableOfCode(ch: char)
    requires IsAlphanumeric(ch) || ch == ' '
    ensures 0 <= CallCode(ch) <= 36 && TableChar(CallCode(ch)) == ch
    ensures (IsDigit(ch) ==> CallCode(ch) < 10) && (IsLetter(ch) ==> 10 <= CallCode(ch) < 36) && (ch == ' ' ==> CallCode(ch) == 36)
  {
  }

  function Spaces(n: nat): (s: string)
    ensures |s| == n && forall i :: 0 <= i < n ==> s[i] == ' '
  {
    seq(n, _ => ' ')
  }

  /** The callsign in six columns, its digit in the third; blank when it has none there. */
  function Aligned(s: string): (a: string)
    requires |s| <= 6 && (|s| == 6 && IsDigit(s[1]) ==> IsDigit(s[2]))
    ensures |a| == 6
  {
    if |s| > 2 && IsDigit(s[2]) then s + Spaces(6 - |s|)
    else if |s| > 1 && IsDigit(s[1]) then [' '] + s + Spaces(5 - |s|)
    else Spaces(6)
  }

  /** The mixed-radix number of six columns, in the source's 64-bit unsigned arithmetic. */
  function CallNumber(a: string): nat
    requires |a| == 6
  {
    MixedRadix(CallCode(a[0]), CallCode(a[1]), CallCode(a[2]), CallCode(a[3]) - 10, CallCode(a[4]) - 10, CallCode(a[5]) - 10)
    % 0x1_0000_0000_0000_0000
  }

  function MixedRadix(c0: int, c1: int, c2: int, d3: int, d4: int, d5: int): int {
    ((((c0 * 36 + c1) * 10 + c2) * 27 + d3) * 27 + d4) * 27 + d5
  }

  /** `pack_call`. A six-character callsign with its digit second does not fit its buffer. */
  method PackCall(callsign: string) returns (n: nat)
    requires |callsign| == 6 && IsDigit(callsign[1]) ==> IsDigit(callsign[2])
    ensures n == PackedCall(callsign)
  {
    hide CallCode, Aligned;
    if |callsign| > 6 {
      return 0;
    }
    var call6 := Align(callsign);
    ghost var a := Aligned(callsign);
    assert forall i :: 0 <= i < 6 ==> call6[i] == a[i];
    var m := CallCode(call6[0]);
    m := m * 36 + CallCode(call6[1]);
    m := m * 10 + CallCode(call6[2]);
    m := m * 27 + CallCode(call6[3]) - 10;
    m := m * 27 + CallCode(call6[4]) - 10;
    m := m * 27 + CallCode(call6[5]) - 10;
    n := m % 0x1_0000_0000_0000_0000;
  }

  /** The copy into six columns. */
  method Align(callsign: string) returns (call6: array<char>)
    requires |callsign| <= 6 && (|callsign| == 6 && IsDigit(callsign[1]) ==> IsDigit(callsign[2]))
    ensures call6[..] == Aligned(callsign)
  {
    call6 := new char[6](_ => ' ');
    if |callsign| > 2 && IsDigit(callsign[2]) {
      for i := 0 to |callsign|
        invariant forall j :: 0 <= j < 6 ==> call6[j] == if j < i then callsign[j] else ' '
      {
        call6[i] := callsign[i];
      }
    } else if |callsign| > 1 && IsDigit(callsign[1]) {
      for i := 1 to |callsign| + 1
        invariant forall j :: 0 <= j < 6 ==> call6[j] == if 1 <= j < i then callsign[j - 1] else ' '
      {
        call6[i] := callsign[i - 1];
      }
    }
  }

  function PackedCall(s: string): nat
    requires |s| == 6 && IsDigit(s[1]) ==> IsDigit(s[2])
  {
    if |s| > 6 then 0 else CallNumber(Aligned(s))
  }

  const CALLS: nat := 262177560

  /** The six columns of a callsign number. */
  function Columns(n: nat): (a: string)
    requires n < CALLS
    ensures |a| == 6
  {
    var n5, n4, n3 := n / 27, n / 27 / 27, n / 27 / 27 / 27;
    var n2, n1 := n3 / 10, n3 / 10 / 36;
    ColumnsInRange(n);
    [TableChar(n1), TableChar(n2 % 36), TableChar(n3 % 10), TableChar(n4 % 27 + 10), TableChar(n5 % 27 + 10), TableChar(n % 27 + 10)]
  }

  lemma ColumnsInRange(n: nat)
    requires n < CALLS
    ensures n / 27 / 27 / 27 / 10 / 36 <= 36
  {
    assert n / 27 < 9710280 && n / 27 / 27 < 359640 && n / 27 / 27 / 27 < 13320 && n / 27 / 27 / 27 / 10 < 1332;
  }

  /** Where the text starts: leading spaces go, but never the last column. */
  function Start(a: string, i: nat): (start: nat)
    requires |a| == 6 && i <= 5
    ensures i <= start <= 5 && (forall k :: i <= k < start ==> a[k] == ' ') && (start < 5 ==> a[start] != ' ')
    decreases 5 - i
  {
    if i < 5 && a[i] == ' ' then Start(a, i + 1) else i
  }

  /** A six-byte buffer whose spaces have become terminators. */
  function Terminated(s: string): (t: string)
    ensures |t| == |s|
  {
    seq(|s|, i requires 0 <= i < |s| => if s[i] == ' ' then '\0' else s[i])
  }

  /** `unpackcall`: the buffer it leaves, or nothing for a number that is no callsign. */
  function UnpackCall(n: nat): (b: Option<string>)
    ensures b.Some? <==> n < CALLS
    ensures b.Some? ==> |b.value| == 6
  {
    if n >= CALLS then None
    else
      var a := Columns(n);
      var text := a[Start(a, 0)..];
      Some(Terminated(text + Spaces(6 - |text|)))
  }

  /** The C string in a buffer. */
  function Text(b: string): string {
    if b == [] || b[0] == '\0' then [] else [b[0]] + Text(b[1..])
  }

  /** Callsigns the six columns hold: one or two characters, a digit, up to three letters. */
  predicate CanonicalCall(s: string) {
    || (3 <= |s| <= 6 && IsDigit(s[2]) && IsAlphanumeric(s[0]) && IsAlphanumeric(s[1]) && AllLetters(s[3..]))
    || (2 <= |s| <= 5 && IsDigit(s[1]) && IsAlphanumeric(s[0]) && AllLetters(s[2..]))
  }

  predicate ValidColumns(a: string) {
    && |a| == 6 && (IsAlphanumeric(a[0]) || a[0] == ' ') && IsAlphanumeric(a[1]) && IsDigit(a[2])
    && forall i :: 3 <= i < 6 ==> IsLetter(a[i]) || a[i] == ' '
  }

  lemma AlignedIsValid(s: string)
    requires CanonicalCall(s)
    ensures (|s| == 6 && IsDigit(s[1]) ==> IsDigit(s[2])) && |s| <= 6 && ValidColumns(Aligned(s))
  {
    var a := Aligned(s);
    if |s| > 2 && IsDigit(s[2]) {
      forall i | 3 <= i < 6 ensures IsLetter(a[i]) || a[i] == ' ' {
        if i < |s| {
          assert s[3..][i - 3] == s[i];
        }
      }
    } else {
      forall i | 3 <= i < 6 ensures IsLetter(a[i]) || a[i] == ' ' {
        if i < |s| + 1 {
          assert s[2..][i - 3] == s[i - 1];
        }
      }
    }
  }

  lemma ColumnsFrom(n: nat, n5: nat, n4: nat, n3: nat, n2: nat, c0: nat)
    requires n < CALLS && n / 27 == n5 && n5 / 27 == n4 && n4 / 27 == n3 && n3 / 10 == n2 && n2 / 36 == c0
    ensures c0 <= 36 && Columns(n)
      == [TableChar(c0), TableChar(n2 % 36), TableChar(n3 % 10), TableChar(n4 % 27 + 10), TableChar(n5 % 27 + 10), TableChar(n % 27 + 10)]
  {
    hide TableChar;
    ColumnsInRange(n);
  }

  lemma RadixBound(c0: nat, c1: nat, c2: nat, d3: nat, d4: nat, d5: nat)
    requires c0 <= 36 && c1 < 36 && c2 < 10 && d3 < 27 && d4 < 27 && d5 < 27
    ensures 0 <= MixedRadix(c0, c1, c2, d3, d4, d5) < CALLS
  {
  }

  /** The columns of a mixed-radix number are its digits. */
  lemma ColumnsOf(c0: nat, c1: nat, c2: nat, d3: nat, d4: nat, d5: nat)
    requires c0 <= 36 && c1 < 36 && c2 < 10 && d3 < 27 && d4 < 27 && d5 < 27
    ensures 0 <= MixedRadix(c0, c1, c2, d3, d4, d5) < CALLS
    ensures Columns(MixedRadix(c0, c1, c2, d3, d4, d5))
      == [TableChar(c0), TableChar(c1), TableChar(c2), TableChar(d3 + 10), TableChar(d4 + 10), TableChar(d5 + 10)]
  {
    hide TableChar, Columns;
    var n2 := c0 * 36 + c1;
    var n3 := n2 * 10 + c2;
    var n4 := n3 * 27 + d3;
    var n5 := n4 * 27 + d4;
    var n := n5 * 27 + d5;
    assert n == MixedRadix(c0, c1, c2, d3, d4, d5);
    RadixBound(c0, c1, c2, d3, d4, d5);
    Digits27(n, n5, d5);
    Digits27(n5, n4, d4);
    Digits27(n4, n3, d3);
    Digits10(n3, n2, c2);
    Digits36(n2, c0, c1);
    ColumnsFrom(n, n5, n4, n3, n2, c0);
  }

  lemma NoWrap(n: int)
    requires 0 <= n < CALLS
    ensures n % 0x1_0000_0000_0000_0000 == n
  {
  }

  /** Unpacking the number of valid columns gives those columns. */
  lemma ColumnsRoundTrip(a: string)
    requires ValidColumns(a)
    ensures CallNumber(a) < CALLS && Columns(CallNumber(a)) == a
  {
    TableOfCode(a[0]);
    TableOfCode(a[1]);
    TableOfCode(a[2]);
    TableOfCode(a[3]);
    TableOfCode(a[4]);
    TableOfCode(a[5]);
    var c0, c1, c2 := CallCode(a[0]), CallCode(a[1]), CallCode(a[2]);
    var d3, d4, d5 := CallCode(a[3]) - 10, CallCode(a[4]) - 10, CallCode(a[5]) - 10;
    assert 0 <= c0 && 0 <= c1 < 36 && 0 <= c2 < 10 && 0 <= d3 < 27 && 0 <= d4 < 27 && 0 <= d5 < 27;
    hide *;
    assert CallNumber(a) == MixedRadix(c0, c1, c2, d3, d4, d5) by { CallNumberIs(a, c0, c1, c2, d3, d4, d5); }
    ColumnsOf(c0, c1, c2, d3, d4, d5);
    assert a == [a[0], a[1], a[2], a[3], a[4], a[5]];
  }

  lemma CallNumberIs(a: string, c0: nat, c1: nat, c2: nat, d3: nat, d4: nat, d5: nat)
    requires |a| == 6 && c0 == CallCode(a[0]) <= 36 && c1 == CallCode(a[1]) < 36 && c2 == CallCode(a[2]) < 10
    requires d3 == CallCode(a[3]) - 10 < 27 && d4 == CallCode(a[4]) - 10 < 27 && d5 == CallCode(a[5]) - 10 < 27
    ensures CallNumber(a) == MixedRadix(c0, c1, c2, d3, d4, d5)
  {
    hide MixedRadix, CallCode, Columns;
    ColumnsOf(c0, c1, c2, d3, d4, d5);
    NoWrap(MixedRadix(c0, c1, c2, d3, d4, d5));
  }

  function Nulls(n: nat): (s: string)
    ensures |s| == n && forall i :: 0 <= i < n ==> s[i] == '\0'
  {
    seq(n, _ => '\0')
  }

  predicate Printed(s: string) {
    forall i :: 0 <= i < |s| ==> s[i] != '\0' && s[i] != ' '
  }

  lemma CanonicalPrinted(s: string)
    requires CanonicalCall(s)
    ensures Printed(s) && 2 <= |s| <= 6
  {
    forall i | 0 <= i < |s| ensures IsAlphanumeric(s[i]) {
      if i >= 3 && IsDigit(s[2]) {
        assert s[3..][i - 3] == s[i];
      } else if i >= 2 && !IsDigit(s[2]) {
        assert s[2..][i - 2] == s[i];
      }
    }
  }

  lemma {:induction false} TextOf(s: string, n: nat)
    requires Printed(s)
    ensures Text(s + Nulls(n)) == s
    decreases s
  {
    if s == [] {
      assert s + Nulls(n) == Nulls(n);
    } else {
      assert (s + Nulls(n))[1..] == s[1..] + Nulls(n);
      TextOf(s[1..], n);
      assert s == [s[0]] + s[1..];
    }
  }

  /** The six columns print as the callsign. */
  lemma AlignedText(s: string)
    requires CanonicalCall(s) && |s| <= 6 && (|s| == 6 && IsDigit(s[1]) ==> IsDigit(s[2]))
    ensures var a := Aligned(s);
      var text := a[Start(a, 0)..];
      Terminated(text + Spaces(6 - |text|)) == s + Nulls(6 - |s|)
  {
    CanonicalPrinted(s);
    var a := Aligned(s);
    var start := Start(a, 0);
    var first := if |s| > 2 && IsDigit(s[2]) then 0 else 1;
    assert a[first] == s[0] && s[0] != ' ';
    assert start == first by { StartIs(a, first); }
    hide Start, CanonicalCall;
    var text := a[start..];
    assert text + Spaces(6 - |text|) == s + Spaces(6 - |s|);
  }

  lemma StartIs(a: string, first: nat)
    requires |a| == 6 && first <= 1 && (first == 1 ==> a[0] == ' ') && a[first] != ' '
    ensures Start(a, 0) == first
  {
  }

  lemma UnpackIs(n: nat, a: string)
    requires n < CALLS && Columns(n) == a && |a| == 6
    ensures var text := a[Start(a, 0)..];
      UnpackCall(n) == Some(Terminated(text + Spaces(6 - |text|)))
  {
    hide Columns, Start, Terminated, Spaces;
  }

  lemma PackedIs(s: string)
    requires |s| <= 6 && (|s| == 6 && IsDigit(s[1]) ==> IsDigit(s[2]))
    ensures PackedCall(s) == CallNumber(Aligned(s))
  {
    hide CallNumber, Aligned;
  }

  /** Unpacking a packed canonical callsign gives it back, and nulls after it. */
  lemma CallRoundTrip(s: string)
    requires CanonicalCall(s)
    ensures (|s| == 6 && IsDigit(s[1]) ==> IsDigit(s[2])) && |s| <= 6
    ensures PackedCall(s) < CALLS && UnpackCall(PackedCall(s)) == Some(s + Nulls(6 - |s|))
    ensures Text(s + Nulls(6 - |s|)) == s
  {
    hide *;
    AlignedIsValid(s);
    CanonicalPrinted(s);
    AlignedText(s);
    ColumnsRoundTrip(Aligned(s));
    PackedIs(s);
    UnpackIs(CallNumber(Aligned(s)), Aligned(s));
    TextOf(s, 6 - |s|);
  }

  // ----- locators

  /** `get_locator_character_code`. */
  function LocatorCode(ch: char): int {
    if IsDigit(ch) then ch as int - 48
    else if ch == ' ' then 36
    else if 'A' <= ch <= 'R' then ch as int - 65
    else -1
  }

  /** `pack_grid4_power`. */
  function PackGridPower(grid: string, power: int): int
    requires |grid| >= 4
  {
    var row := (179 - 10 * LocatorCode(grid[0]) - LocatorCode(grid[2])) * 180 + 10 * LocatorCode(grid[1]) + LocatorCode(grid[3]);
    row * 128 + power + 64
  }

  const GRIDS: nat := 32400

  /** `unpackgrid` on the 22-bit field; its arithmetic in doubles is on whole numbers. */
  function UnpackGrid(n2: nat): (g: Option<string>)
    ensures g.Some? <==> n2 / 128 < GRIDS
    ensures g.Some? ==> |g.value| == 4
  {
    var ngrid := n2 / 128;
    if ngrid >= GRIDS then None
    else
      var dlat := ngrid % 180 - 90;
      var west := ngrid / 180 * 2 - 180 + 2;
      var low := if west < -180 then west + 360 else west;
      var dlong := if low > 180 then low + 360 else low;
      var nlong := 60 * (180 - dlong) / 5;
      var nlat := 24 * (dlat + 90);
      var n1, m1 := nlong / 240, nlat / 240;
      Some([TableChar(10 + n1), TableChar(10 + m1), TableChar((nlong - 240 * n1) / 24), TableChar((nlat - 240 * m1) / 24)])
  }

  predicate CanonicalGrid(g: string) {
    |g| == 4 && 'A' <= g[0] <= 'R' && 'A' <= g[1] <= 'R' && IsDigit(g[2]) && IsDigit(g[3])
  }

  lemma LocatorCodes(ch: char)
    ensures 'A' <= ch <= 'R' ==> 0 <= LocatorCode(ch) < 18 && TableChar(10 + LocatorCode(ch)) == ch
    ensures IsDigit(ch) ==> 0 <= LocatorCode(ch) < 10 && TableChar(LocatorCode(ch)) == ch
  {
  }

  /** The grid comes back from its number, whatever the low seven bits. */
  lemma GridDigits(a: nat, b: nat, c: nat, d: nat, n2: nat)
    requires a < 18 && b < 18 && c < 10 && d < 10 && n2 / 128 == (179 - 10 * a - c) * 180 + 10 * b + d
    ensures UnpackGrid(n2) == Some([TableChar(10 + a), TableChar(10 + b), TableChar(c), TableChar(d)])
  {
    hide TableChar;
    var q, r := 179 - 10 * a - c, 10 * b + d;
    var ngrid := n2 / 128;
    assert ngrid == q * 180 + r && 0 <= r < 180 && 0 <= q < 180;
    assert ngrid / 180 == q && ngrid % 180 == r;
    var nlong, nlat := 24 * (10 * a + c), 24 * r;
    assert 60 * (180 - (q * 2 - 178)) / 5 == nlong;
    assert nlong / 240 == a && nlat / 240 == b;
  }

  lemma GridRoundTrip(g: string, n2: nat, rest: int)
    requires CanonicalGrid(g) && 0 <= rest < 128 && n2 == PackGridPower(g, rest - 64)
    ensures UnpackGrid(n2) == Some(g) && n2 % 128 == rest && n2 < GRIDS * 128
  {
    LocatorCodes(g[0]);
    LocatorCodes(g[1]);
    LocatorCodes(g[2]);
    LocatorCodes(g[3]);
    hide LocatorCode, UnpackGrid, TableChar;
    GridDigits(LocatorCode(g[0]), LocatorCode(g[1]), LocatorCode(g[2]), LocatorCode(g[3]), n2);
    assert g == [g[0], g[1], g[2], g[3]];
  }

  // ----- the seven bytes

  /** The other way: every number below 32400 is that of the locator it unpacks to. */
  lemma GridNumberRoundTrip(n2: nat, power: int)
    requires n2 / 128 < GRIDS
    ensures CanonicalGrid(UnpackGrid(n2).value)
    ensures PackGridPower(UnpackGrid(n2).value, power) == n2 / 128 * 128 + power + 64
  {
    var q, r := n2 / 128 / 180, n2 / 128 % 180;
    var a, c, b, d := (179 - q) / 10, (179 - q) % 10, r / 10, r % 10;
    assert n2 / 128 == q * 180 + r && 179 - q == 10 * a + c && r == 10 * b + d;
    GridDigits(a, b, c, d, n2);
    TableLetter(a);
    TableLetter(b);
    TableDigit(c);
    TableDigit(d);
    hide LocatorCode, UnpackGrid, TableChar;
  }

  lemma TableLetter(a: nat)
    requires a < 18
    ensures 'A' <= TableChar(10 + a) <= 'R' && LocatorCode(TableChar(10 + a)) == a
  {
  }

  lemma TableDigit(c: nat)
    requires c < 10
    ensures IsDigit(TableChar(c)) && LocatorCode(TableChar(c)) == c
  {
  }

  /** The 28-bit and 22-bit fields as bytes, high bits first. */
  function PackBytes(n: nat, m: int): (b: seq<Byte>)
    ensures |b| == 7
  {
    [n / 0x10_0000 % 0x100, n / 0x1000 % 0x100, n / 0x10 % 0x100, n % 0x10 * 0x10 + m / 0x4_0000 % 0x10,
     m / 0x400 % 0x100, m / 4 % 0x100, m % 4 * 0x40]
  }

  /** `unpack50`. */
  function Unpack50(b: seq<Byte>): (r: (nat, nat))
    requires |b| >= 7
    ensures r.0 < 0x1000_0000 && r.1 < 0x40_0000
  {
    (b[0] as int * 0x10_0000 + b[1] as int * 0x1000 + b[2] as int * 0x10 + b[3] as int / 0x10 % 0x10,
     b[3] as int % 0x10 * 0x4_0000 + b[4] as int * 0x400 + b[5] as int * 4 + b[6] as int / 0x40 % 4)
  }

  /** The fields come back modulo their widths. */
  lemma FieldsRoundTrip(n: nat, m: int, rest: seq<Byte>)
    ensures Unpack50(PackBytes(n, m) + rest) == (n % 0x1000_0000, m % 0x40_0000)
  {
    var b := PackBytes(n, m) + rest;
    CallField(n);
    GridField(m);
    SharedByte(n % 0x10, m / 0x4_0000 % 0x10);
    LastByte(m % 4);
  }

  lemma SharedByte(high: nat, low: nat)
    requires high < 0x10 && low < 0x10
    ensures (high * 0x10 + low) / 0x10 % 0x10 == high && (high * 0x10 + low) % 0x10 == low
  {
  }

  lemma LastByte(two: nat)
    requires two < 4
    ensures two * 0x40 / 0x40 % 4 == two
  {
  }

  lemma CallField(n: nat)
    ensures n / 0x10_0000 % 0x100 * 0x10_0000 + n / 0x1000 % 0x100 * 0x1000 + n / 0x10 % 0x100 * 0x10 + n % 0x10 == n % 0x1000_0000
  {
    var a := n / 0x10;
    var b := a / 0x100;
    var c := b / 0x100;
    assert b == n / 0x1000 && c == n / 0x10_0000;
    var w, x, y, z := c % 0x100, b % 0x100, a % 0x100, n % 0x10;
    assert n == 0x10 * a + z && a == 0x100 * b + y && b == 0x100 * c + x && c == 0x100 * (c / 0x100) + w;
    CallRemainder(n, c / 0x100, w * 0x10_0000 + x * 0x1000 + y * 0x10 + z);
  }

  lemma CallRemainder(n: int, q: int, r: int)
    requires n == q * 0x1000_0000 + r && 0 <= r < 0x1000_0000
    ensures n % 0x1000_0000 == r
  {
  }

  lemma GridField(m: int)
    ensures m / 0x4_0000 % 0x10 * 0x4_0000 + m / 0x400 % 0x100 * 0x400 + m / 4 % 0x100 * 4 + m % 4 == m % 0x40_0000
  {
    var a := m / 4;
    var b := a / 0x100;
    var c := b / 0x100;
    assert b == m / 0x400 && c == m / 0x4_0000;
    var w, x, y, z := c % 0x10, b % 0x100, a % 0x100, m % 4;
    assert m == 4 * a + z && a == 0x100 * b + y && b == 0x100 * c + x && c == 0x10 * (c / 0x10) + w;
    GridRemainder(m, c / 0x10, w * 0x4_0000 + x * 0x400 + y * 4 + z);
  }

  lemma GridRemainder(m: int, q: int, r: int)
    requires m == q * 0x40_0000 + r && 0 <= r < 0x40_0000
    ensures m % 0x40_0000 == r
  {
  }
}
