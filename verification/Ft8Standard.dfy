/** The standard message as a whole: encoding, decoding, and when one undoes the other. */
module Ft8Standard {
  import opened Options
  import opened Bits
  import opened Radix
  import opened Ft8Text
  import opened Ft8Message

  // ----- callsigns in 28 bits and a suffix bit

  /** The characters a callsign's hash is computed from are all in the table. */
  predicate Hashable(callsign: string) {
    forall i :: 0 <= i < |callsign| && i < 11 ==> Nchar(callsign[i], AlphanumSpaceSlash) >= 0
  }

  predicate HasSuffix(callsign: string) {
    EndsWith(callsign, "/P") || EndsWith(callsign, "/R")
  }

  function Base(callsign: string): string {
    if HasSuffix(callsign) then callsign[..|callsign| - 2] else callsign
  }

  predicate IsToken(callsign: string) {
    callsign in {"DE", "QRZ", "CQ"}
  }

  /** `pack28`: the 28-bit code, or -1, and the suffix bit. `hash22` is the callsign's hash. */
  function Pack28(callsign: string, hash22: string -> nat): (r: (int, nat))
    ensures r.0 >= -1 && r.1 <= 1 && (r.1 == 1 ==> HasSuffix(callsign))
  {
    if callsign == "DE" then (0, 0)
    else if callsign == "QRZ" then (1, 0)
    else if callsign == "CQ" then (2, 0)
    else if StartsWith(callsign, "CQ_") && |callsign| < 8 then (-1, 0)
    else
      var ip := if HasSuffix(callsign) then 1 else 0;
      var n := PackedBase(Base(callsign));
      if n >= 0 then (if Hashable(callsign) then NTOKENS + MAX22 + n else -1, ip)
      else if 3 <= |callsign| <= 11 && Hashable(callsign) then (NTOKENS + hash22(callsign) % MAX22, 0)
      else (-1, ip)
  }

  /** Four letters or spaces of a directed CQ. */
  function CqLetters(n: nat): string {
    [Charn(n / 27 / 27 / 27 % 27, LettersSpace), Charn(n / 27 / 27 % 27, LettersSpace), Charn(n / 27 % 27, LettersSpace),
     Charn(n % 27, LettersSpace)]
  }

  function ThreeDigits(n: nat): string
    requires n < 1000
  {
    Written(n, 3, false)
  }

  /** `unpack28`; `lookup` gives the text for a 22-bit hash. */
  function Unpack28(n28: nat, ip: nat, i3: nat, lookup: nat -> string): Option<string> {
    if n28 < NTOKENS then
      if n28 == 0 then Some("DE")
      else if n28 == 1 then Some("QRZ")
      else if n28 == 2 then Some("CQ")
      else if n28 <= 1002 then Some("CQ " + ThreeDigits(n28 - 3))
      else if n28 <= 532443 then Some("CQ " + TrimFront(CqLetters(n28 - 1003)))
      else None
    else if n28 - NTOKENS < MAX22 then Some(lookup(n28 - NTOKENS))
    else
      var s := Restored(ColumnsOf(n28 - NTOKENS - MAX22));
      if |s| < 3 then None
      else if ip == 0 then Some(s)
      else if i3 == 1 then Some(s + "/R")
      else if i3 == 2 then Some(s + "/P")
      else None
  }

  // ----- what the receiver reads of codes the transmitter does not send, and of hashed callsigns

  /** The number of four letters or spaces. */
  ghost function LettersNumber(four: string): (n: int)
    requires |four| == 4
  {
    ((Nchar(four[0], LettersSpace) * 27 + Nchar(four[1], LettersSpace)) * 27 + Nchar(four[2], LettersSpace)) * 27
    + Nchar(four[3], LettersSpace)
  }

  predicate FourLetters(four: string) {
    |four| == 4 && forall i :: 0 <= i < 4 ==> four[i] == ' ' || 'A' <= four[i] <= 'Z'
  }

  lemma LettersHave(c: char)
    requires c == ' ' || 'A' <= c <= 'Z'
    ensures Nchar(c, LettersSpace) >= 0
  {
  }

  lemma LettersDigits(a: nat, b: nat, c: nat, d: nat)
    requires a < 27 && b < 27 && c < 27 && d < 27
    ensures var n := ((a * 27 + b) * 27 + c) * 27 + d;
      n <= 531440 && n % 27 == d && n / 27 % 27 == c && n / 27 / 27 % 27 == b && n / 27 / 27 / 27 % 27 == a
  {
    Digits27(((a * 27 + b) * 27 + c) * 27 + d, (a * 27 + b) * 27 + c, d);
    Digits27((a * 27 + b) * 27 + c, a * 27 + b, c);
    Digits27(a * 27 + b, a, b);
  }

  /** The letters of a directed CQ are read back from their number. */
  lemma LettersBack(four: string)
    requires FourLetters(four)
    ensures 0 <= LettersNumber(four) <= 531440 && CqLetters(LettersNumber(four)) == four
  {
    TablesAreInverse(four[0], 0, LettersSpace);
    TablesAreInverse(four[1], 0, LettersSpace);
    TablesAreInverse(four[2], 0, LettersSpace);
    TablesAreInverse(four[3], 0, LettersSpace);
    hide Nchar, Charn;
    forall i | 0 <= i < 4
      ensures Nchar(four[i], LettersSpace) >= 0
    {
      LettersHave(four[i]);
    }
    LettersDigits(Nchar(four[0], LettersSpace), Nchar(four[1], LettersSpace), Nchar(four[2], LettersSpace),
                  Nchar(four[3], LettersSpace));
    assert four == [four[0], four[1], four[2], four[3]];
  }

  /** The number of any four letters or spaces reads as CQ and what follows the leading spaces. */
  lemma LetteredCq(four: string, ip: nat, i3: nat, lookup: nat -> string)
    requires FourLetters(four)
    ensures Unpack28(1003 + LettersNumber(four), ip, i3, lookup) == Some("CQ " + TrimFront(four))
  {
    LettersBack(four);
    hide LettersNumber, CqLetters, TrimFront, ThreeDigits, ColumnsOf, Restored;
  }

  /** A CQ directed by up to four letters reads as CQ and the letters, whatever the suffix bit and type. */
  lemma DirectedCq(front: nat, letters: string, ip: nat, i3: nat, lookup: nat -> string)
    requires letters != [] && letters[0] != ' ' && front + |letters| == 4 && FourLetters(Spaces(front) + letters)
    ensures Unpack28(1003 + LettersNumber(Spaces(front) + letters), ip, i3, lookup) == Some("CQ " + letters)
  {
    LetteredCq(Spaces(front) + letters, ip, i3, lookup);
    TrimFrontPadded(letters, front);
    hide LettersNumber, Unpack28, TrimFront;
  }

  /** A CQ directed by a number reads as CQ and its three digits. */
  lemma NumberedCq(a: nat, b: nat, c: nat, ip: nat, i3: nat, lookup: nat -> string)
    requires a < 10 && b < 10 && c < 10
    ensures Unpack28(3 + 100 * a + 10 * b + c, ip, i3, lookup)
      == Some("CQ " + [(48 + a) as char, (48 + b) as char, (48 + c) as char])
  {
    ThreePlaces(a, b, c);
    hide ThreeDigits, CqLetters, TrimFront, ColumnsOf, Restored;
  }

  lemma ThreePlaces(a: nat, b: nat, c: nat)
    requires a < 10 && b < 10 && c < 10
    ensures ThreeDigits(100 * a + 10 * b + c) == [(48 + a) as char, (48 + b) as char, (48 + c) as char]
  {
    PowerIs(0);
    PowerIs(1);
    FirstPlace(100 * a + 10 * b + c, 2, 100, a, 10 * b + c);
    FirstPlace(10 * b + c, 1, 10, b, c);
    FirstPlace(c, 0, 1, c, 0);
    hide Places, Power10;
  }

  /** The first place of a number holds its first digit. */
  lemma FirstPlace(value: nat, n: nat, p: nat, digit: nat, rest: nat)
    requires p == Power10(n) && rest < p && digit < 10 && value == digit * p + rest
    ensures Places(value, n) == [(48 + digit) as char] + if n == 0 then [] else Places(rest, n - 1)
  {
    PlacesStep(value, n);
    QuotientIs(value, p, digit, rest);
    hide Places, Quotient, Modulo, Power10;
    var places := Places(value, n);
    assert places == [places[0]] + places[1..];
  }

  lemma QuotientIs(value: nat, p: nat, digit: nat, rest: nat)
    requires p > 0 && rest < p && value == digit * p + rest
    ensures Quotient(value, p) == digit && Modulo(value, p) == rest
  {
    Top(value, p, digit + 1);
    if value / p < digit {
      Scaled(value / p + 1, digit, p);
    }
  }

  /** Directed CQs are not sent: the transmitter refuses them. */
  lemma DirectedRefused(callsign: string, hash22: string -> nat)
    requires 3 <= |callsign| < 8 && callsign[..3] == "CQ_"
    ensures Pack28(callsign, hash22).0 == -1
  {
    assert callsign[0] == 'C' && callsign[2] == '_';
    hide PackedBase, Base, Hashable;
  }

  /** A callsign that no base form holds and that is no token or directed CQ. */
  predicate Nonstandard(callsign: string) {
    && !IsToken(callsign) && !(StartsWith(callsign, "CQ_") && |callsign| < 8)
    && PackedBase(Base(callsign)) < 0
  }

  /** Such a callsign is sent as its hash, with no suffix bit, and reads as what is looked up for it;
      it is refused exactly when it is shorter than three characters, longer than eleven, or has one
      that cannot be hashed. */
  lemma HashedCall(callsign: string, i3: nat, hash22: string -> nat, lookup: nat -> string)
    requires Nonstandard(callsign)
    ensures Pack28(callsign, hash22).0 >= 0 <==> 3 <= |callsign| <= 11 && Hashable(callsign)
    ensures Pack28(callsign, hash22).0 >= 0 ==>
      && Pack28(callsign, hash22).1 == 0
      && Unpack28(Pack28(callsign, hash22).0, 0, i3, lookup) == Some(lookup(hash22(callsign) % MAX22))
  {
    hide PackedBase, Base, Hashable, CqLetters, ThreeDigits, ColumnsOf, Restored, TrimFront;
  }

  // ----- locators and reports in 16 bits

  predicate IsGrid(e: string) {
    |e| >= 4 && 'A' <= e[0] <= 'R' && 'A' <= e[1] <= 'R' && IsDigit(e[2]) && IsDigit(e[3])
  }

  /** Four characters of a locator: two letters up to R, two digits. */
  ghost predicate Locator(e: string) {
    |e| == 4 && 'A' <= e[0] <= 'R' && 'A' <= e[1] <= 'R' && '0' <= e[2] <= '9' && '0' <= e[3] <= '9'
  }

  /** What is packed as a locator is one at its start. */
  lemma LocatorIsGrid(e: string)
    ensures IsGrid(e) <==> |e| >= 4 && Locator(e[..4])
    ensures Locator(e) ==> |e| == 4 && IsGrid(e)
  {
    if |e| >= 4 {
      assert e[..4][0] == e[0] && e[..4][1] == e[1] && e[..4][2] == e[2] && e[..4][3] == e[3];
    }
    if Locator(e) {
      assert e[..4] == e;
    }
  }

  lemma {:induction false} DigitsBound(s: string, value: nat)
    requires value < 1000 && |s| <= 3 && (|s| == 3 ==> value == 0) && (|s| == 2 ==> value < 10) && (|s| == 1 ==> value < 100)
    ensures Digits(s, value) < 1000
    decreases s
  {
    if s != [] && IsDigit(s[0]) {
      DigitsBound(s[1..], value * 10 + (s[0] as int - 48));
    }
  }

  lemma ParsedBound(s: string)
    ensures -1000 < Parsed(s) < 1000
  {
    DigitsBound(Upto(s, 1, 3), 0);
    DigitsBound(Upto(s, 0, 3), 0);
    hide Digits;
  }

  /** `packgrid`, with the R flag in bit 15. */
  function PackGrid(extra: string): (g: nat)
    ensures g < 0x1_0000
  {
    ParsedBound(extra);
    if extra == [] then MAXGRID4 + 1
    else if extra == "RRR" then MAXGRID4 + 2
    else if extra == "RR73" then MAXGRID4 + 3
    else if extra == "73" then MAXGRID4 + 4
    else if IsGrid(extra) then
      (((extra[0] as int - 65) * 18 + (extra[1] as int - 65)) * 10 + (extra[2] as int - 48)) * 10 + (extra[3] as int - 48)
    else if extra[0] == 'R' then
      ParsedBound(extra[1..]);
      var g := MAXGRID4 + 35 + Parsed(extra[1..]);
      if g < 0x8000 then g + 0x8000 else g
    else MAXGRID4 + 35 + Parsed(extra)
  }

  /** `unpackgrid` on the 15 bits and the R flag. */
  function UnpackGrid(g: nat, ir: nat): string
    requires g < 0x8000
  {
    if g <= MAXGRID4 then
      (if ir > 0 then "R " else "")
      + [(65 + g / 10 / 10 / 18 % 18) as char, (65 + g / 10 / 10 % 18) as char, (48 + g / 10 % 10) as char, (48 + g % 10) as char]
    else
      var irpt := g - MAXGRID4;
      if irpt == 1 then ""
      else if irpt == 2 then "RRR"
      else if irpt == 3 then "RR73"
      else if irpt == 4 then "73"
      else (if ir > 0 then "R" else "") + Report(irpt - 35)
  }

  /** A locator comes back, but for the one that means roger and best regards. */
  lemma GridRoundTrip(e: string)
    requires Locator(e)
    ensures UnpackGrid(PackGrid(e) % 0x8000, PackGrid(e) / 0x8000) == e
  {
    LocatorIsGrid(e);
    if e != "RR73" {
      var a, b, c, d := e[0] as int - 65, e[1] as int - 65, e[2] as int - 48, e[3] as int - 48;
      GridNumber(e, a, b, c, d);
      hide PackGrid, UnpackGrid;
      GridDigits(a, b, c, d);
      GridText(PackGrid(e), a, b, c, d);
      assert e == [e[0], e[1], e[2], e[3]];
    } else {
      WordRoundTrip(e);
    }
  }

  /** With the R flag set a locator reads with "R " before it. */
  lemma RogerGrid(e: string)
    requires Locator(e) && e != "RR73"
    ensures PackGrid(e) < MAXGRID4 && UnpackGrid(PackGrid(e), 1) == "R " + e
  {
    LocatorIsGrid(e);
    GridRoundTrip(e);
    var a, b, c, d := e[0] as int - 65, e[1] as int - 65, e[2] as int - 48, e[3] as int - 48;
    GridNumber(e, a, b, c, d);
    GridDigits(a, b, c, d);
    hide PackGrid, Report;
  }

  lemma GridNumber(e: string, a: nat, b: nat, c: nat, d: nat)
    requires |e| == 4 && IsGrid(e) && e != "RR73"
    requires e[0] as int == 65 + a && e[1] as int == 65 + b && e[2] as int == 48 + c && e[3] as int == 48 + d
    ensures PackGrid(e) == ((a * 18 + b) * 10 + c) * 10 + d
  {
    hide Parsed;
  }

  lemma GridText(g: nat, a: nat, b: nat, c: nat, d: nat)
    requires g < MAXGRID4 && g % 10 == d && g / 10 % 10 == c && g / 10 / 10 % 18 == b && g / 10 / 10 / 18 % 18 == a
    ensures UnpackGrid(g % 0x8000, g / 0x8000) == [(65 + a) as char, (65 + b) as char, (48 + c) as char, (48 + d) as char]
  {
    hide Report;
    assert g % 0x8000 == g && g / 0x8000 == 0;
  }

  lemma GridDigits(a: nat, b: nat, c: nat, d: nat)
    requires a < 18 && b < 18 && c < 10 && d < 10
    ensures var g := ((a * 18 + b) * 10 + c) * 10 + d;
      g < MAXGRID4 && g % 10 == d && g / 10 % 10 == c && g / 10 / 10 % 18 == b && g / 10 / 10 / 18 % 18 == a
  {
    var g := ((a * 18 + b) * 10 + c) * 10 + d;
    assert g / 10 == (a * 18 + b) * 10 + c && g / 10 / 10 == a * 18 + b;
  }

  /** A report comes back exactly when it is -30 or more; below that it reads as a special word
      or as a locator. */
  lemma ReportRoundTripIff(dd: int, roger: bool)
    requires -100 < dd < 100
    ensures var e := (if roger then "R" else "") + Report(dd);
      UnpackGrid(PackGrid(e) % 0x8000, PackGrid(e) / 0x8000) == e <==> dd >= -30
  {
    var r := Report(dd);
    var e := (if roger then "R" else "") + r;
    ReportRoundTrip(dd);
    assert roger ==> e[1..] == r && e[1] == r[0];
    assert !roger ==> e == r;
    assert !IsGrid(e) && e != "RRR" && e != "RR73" && e != "73" by {
      assert r[0] == '-' || r[0] == '+';
    }
    hide Parsed;
    var g := MAXGRID4 + 35 + dd;
    assert PackGrid(e) == if roger then g + 0x8000 else g;
    assert PackGrid(e) % 0x8000 == g && PackGrid(e) / 0x8000 == if roger then 1 else 0;
    ReportBack(dd, roger, r);
  }

  lemma ReportBack(dd: int, roger: bool, r: string)
    requires -100 < dd < 100 && r == Report(dd)
    ensures UnpackGrid(MAXGRID4 + 35 + dd, if roger then 1 else 0) == (if roger then "R" else "") + r <==> dd >= -30
  {
    var e := (if roger then "R" else "") + r;
    assert |e| == if roger then 4 else 3;
    if dd < -30 {
      assert roger ==> e[1] == '-';
      assert !roger ==> e[0] == '-';
      assert "RR73"[1] == 'R';
      assert "RRR"[0] == 'R';
    }
  }

  /** Third fields that come back. */
  ghost predicate CanonicalExtra(e: string) {
    || e in {"", "RRR", "RR73", "73"}
    || Locator(e)
    || exists dd, roger :: IsReport(e, dd, roger)
  }

  predicate IsReport(e: string, dd: int, roger: bool) {
    -30 <= dd <= 99 && e == (if roger then "R" else "") + Report(dd)
  }

  lemma WordRoundTrip(e: string)
    requires e in {"", "RRR", "RR73", "73"}
    ensures UnpackGrid(PackGrid(e) % 0x8000, PackGrid(e) / 0x8000) == e
  {
    hide Parsed, Report;
  }

  lemma ExtraRoundTrip(e: string)
    requires CanonicalExtra(e)
    ensures UnpackGrid(PackGrid(e) % 0x8000, PackGrid(e) / 0x8000) == e
  {
    hide PackGrid, UnpackGrid, Report, Locator;
    if e in {"", "RRR", "RR73", "73"} {
      WordRoundTrip(e);
    } else if Locator(e) {
      GridRoundTrip(e);
    } else {
      var dd, roger :| IsReport(e, dd, roger);
      ReportRoundTripIff(dd, roger);
    }
  }

  // ----- the 77 bits in ten bytes

  /** Two 29-bit fields, the 16-bit field and the 3-bit type, high bits first. */
  function Payload(a: nat, b: nat, g: nat, i3: nat): (p: seq<Byte>)
    requires a < 0x2000_0000 && b < 0x2000_0000 && g < 0x1_0000 && i3 < 8
    ensures |p| == 10
  {
    [a / 0x20_0000 % 0x100, a / 0x2000 % 0x100, a / 0x20 % 0x100, a % 0x20 * 8 + b / 0x400_0000,
     b / 0x4_0000 % 0x100, b / 0x400 % 0x100, b / 4 % 0x100, b % 4 * 0x40 + g / 0x400, g / 4 % 0x100, g % 4 * 0x40 + i3 * 8]
  }

  /** The fields `ftx_message_decode_std` extracts: two callsigns, R flag, 15 bits, type. */
  function Fields(p: seq<Byte>): (f: (nat, nat, nat, nat, nat))
    requires |p| >= 10
    ensures f.3 < 0x8000
  {
    (p[0] as int * 0x20_0000 + p[1] as int * 0x2000 + p[2] as int * 0x20 + p[3] as int / 8,
     p[3] as int % 8 * 0x400_0000 + p[4] as int * 0x4_0000 + p[5] as int * 0x400 + p[6] as int * 4 + p[7] as int / 0x40,
     p[7] as int / 0x20 % 2,
     p[7] as int % 0x20 * 0x400 + p[8] as int * 4 + p[9] as int / 0x40,
     p[9] as int / 8 % 8)
  }

  lemma FirstField(a: nat)
    requires a < 0x2000_0000
    ensures a / 0x20_0000 % 0x100 * 0x20_0000 + a / 0x2000 % 0x100 * 0x2000 + a / 0x20 % 0x100 * 0x20 + a % 0x20 == a
  {
    var x := a / 0x20;
    var y := x / 0x100;
    var z := y / 0x100;
    assert y == a / 0x2000 && z == a / 0x20_0000 && z < 0x100;
  }

  lemma SecondField(b: nat)
    requires b < 0x2000_0000
    ensures b / 0x400_0000 < 8
    ensures b / 0x400_0000 * 0x400_0000 + b / 0x4_0000 % 0x100 * 0x4_0000 + b / 0x400 % 0x100 * 0x400 + b / 4 % 0x100 * 4 + b % 4 == b
  {
    var x := b / 4;
    var y := x / 0x100;
    var z := y / 0x100;
    var w := z / 0x100;
    assert y == b / 0x400 && z == b / 0x4_0000 && w == b / 0x400_0000;
  }

  lemma ThirdField(g: nat)
    requires g < 0x1_0000
    ensures g / 0x400 / 0x20 % 2 == g / 0x8000
    ensures g / 0x400 % 0x20 * 0x400 + g / 4 % 0x100 * 4 + g % 4 == g % 0x8000
  {
    var x := g / 4;
    var y := x / 0x100;
    assert y == g / 0x400;
    assert y / 0x20 == g / 0x8000;
  }

  lemma FieldsRoundTrip(a: nat, b: nat, g: nat, i3: nat)
    requires a < 0x2000_0000 && b < 0x2000_0000 && g < 0x1_0000 && i3 < 8
    ensures Fields(Payload(a, b, g, i3)) == (a, b, g / 0x8000, g % 0x8000, i3)
  {
    hide Fields, Payload;
    FirstBack(a, b, g, i3);
    SecondBack(a, b, g, i3);
    ThirdBack(a, b, g, i3);
    var f := Fields(Payload(a, b, g, i3));
    assert f == (f.0, f.1, f.2, f.3, f.4);
  }

  lemma FirstBack(a: nat, b: nat, g: nat, i3: nat)
    requires a < 0x2000_0000 && b < 0x2000_0000 && g < 0x1_0000 && i3 < 8
    ensures Fields(Payload(a, b, g, i3)).0 == a
  {
    var p := Payload(a, b, g, i3);
    Joined(a % 0x20, b / 0x400_0000);
    assert p[3] as int / 8 == a % 0x20;
    assert p[0] == a / 0x20_0000 % 0x100 && p[1] == a / 0x2000 % 0x100 && p[2] == a / 0x20 % 0x100;
    hide Payload;
    FirstField(a);
  }

  lemma SecondBack(a: nat, b: nat, g: nat, i3: nat)
    requires a < 0x2000_0000 && b < 0x2000_0000 && g < 0x1_0000 && i3 < 8
    ensures Fields(Payload(a, b, g, i3)).1 == b
  {
    var p := Payload(a, b, g, i3);
    Joined(a % 0x20, b / 0x400_0000);
    JoinedTwo(b % 4, g / 0x400);
    assert p[3] as int % 8 == b / 0x400_0000 && p[7] as int / 0x40 == b % 4;
    assert p[4] == b / 0x4_0000 % 0x100 && p[5] == b / 0x400 % 0x100 && p[6] == b / 4 % 0x100;
    hide Payload;
    SecondField(b);
  }

  lemma ThirdBack(a: nat, b: nat, g: nat, i3: nat)
    requires a < 0x2000_0000 && b < 0x2000_0000 && g < 0x1_0000 && i3 < 8
    ensures Fields(Payload(a, b, g, i3)).2 == g / 0x8000 && Fields(Payload(a, b, g, i3)).3 == g % 0x8000
    ensures Fields(Payload(a, b, g, i3)).4 == i3
  {
    var p := Payload(a, b, g, i3);
    JoinedTwo(b % 4, g / 0x400);
    JoinedThree(g % 4, i3);
    assert p[7] as int % 0x20 == g / 0x400 % 0x20 && p[7] as int / 0x20 % 2 == g / 0x400 / 0x20 % 2;
    assert p[9] as int / 0x40 == g % 4 && p[9] as int / 8 % 8 == i3 && p[8] == g / 4 % 0x100;
    hide Payload;
    ThirdField(g);
  }

  lemma Joined(x: nat, y: nat)
    requires x < 0x20 && y < 8
    ensures (x * 8 + y) / 8 == x && (x * 8 + y) % 8 == y
  {
  }

  lemma JoinedTwo(x: nat, y: nat)
    requires x < 4 && y < 0x40
    ensures (x * 0x40 + y) / 0x40 == x && (x * 0x40 + y) % 0x20 == y % 0x20 && (x * 0x40 + y) / 0x20 % 2 == y / 0x20 % 2
  {
    assert (x * 0x40 + y) / 0x20 == 2 * x + y / 0x20;
  }

  lemma JoinedThree(x: nat, y: nat)
    requires x < 4 && y < 8
    ensures (x * 0x40 + y * 8) / 0x40 == x && (x * 0x40 + y * 8) / 8 % 8 == y
  {
  }

  // ----- encoding and decoding

  /** A 28-bit code and its suffix bit, which a suffix sets in any case. */
  function Word(code: nat, ip: nat, suffix: bool): (w: nat)
    requires code < 0x1000_0000 && ip <= 1
    ensures w < 0x2000_0000 && w / 2 == code && w % 2 == if suffix then 1 else ip
  {
    2 * code + if suffix then 1 else ip
  }

  /** The payload of a standard message, or why there is none. */
  function Encoded(to: string, de: string, extra: string, hash22: string -> nat): (r: Result<seq<Byte>>)
    ensures r.Ok? ==> |r.value| == 10
  {
    CodeBound(to, hash22);
    CodeBound(de, hash22);
    var a, b := Pack28(to, hash22), Pack28(de, hash22);
    var p := EndsWith(to, "/P") || EndsWith(de, "/P");
    if a.0 < 0 then Call1
    else if b.0 < 0 then Call2
    else if p && (EndsWith(to, "/R") || EndsWith(de, "/R")) then Suffix
    else Ok(Payload(Word(a.0, a.1, HasSuffix(to)), Word(b.0, b.1, false), PackGrid(extra), if p then 2 else 1))
  }

  lemma CodeBound(callsign: string, hash22: string -> nat)
    ensures Pack28(callsign, hash22).0 < 0x1000_0000
  {
    CodesFit(Base(callsign));
    hide Base, Hashable;
  }

  /** `ftx_message_encode_std`. */
  method EncodeStd(payload: array<Byte>, to: string, de: string, extra: string, hash22: string -> nat) returns (rc: Result<()>)
    requires payload.Length >= 10
    modifies payload
    ensures match Encoded(to, de, extra, hash22)
      case Ok(bytes) => rc == Ok(()) && payload[..10] == bytes && payload[10..] == old(payload[10..])
      case Call1 => rc == Call1 && payload[..] == old(payload[..])
      case Call2 => rc == Call2 && payload[..] == old(payload[..])
      case Suffix => rc == Suffix && payload[..] == old(payload[..])
      case Grid => false
  {
    hide Pack28, PackGrid, Payload, EndsWith;
    CodeBound(to, hash22);
    CodeBound(de, hash22);
    var (a, ipa) := Pack28(to, hash22);
    var (b, ipb) := Pack28(de, hash22);
    if a < 0 {
      return Call1;
    }
    if b < 0 {
      return Call2;
    }
    var i3: nat := 1;
    if EndsWith(to, "/P") || EndsWith(de, "/P") {
      i3 := 2;
      if EndsWith(to, "/R") || EndsWith(de, "/R") {
        return Suffix;
      }
    }
    var g := PackGrid(extra);
    var n29a: nat := 2 * a + ipa;
    var n29b: nat := 2 * b + ipb;
    if EndsWith(to, "/R") {
      n29a := n29a / 2 * 2 + 1;
    } else if EndsWith(to, "/P") {
      n29a := n29a / 2 * 2 + 1;
      i3 := 2;
    }
    StorePayload(payload, n29a, n29b, g, i3);
    return Ok(());
  }

  method StorePayload(payload: array<Byte>, a: nat, b: nat, g: nat, i3: nat)
    requires payload.Length >= 10 && a < 0x2000_0000 && b < 0x2000_0000 && g < 0x1_0000 && i3 < 8
    modifies payload
    ensures payload[..10] == Payload(a, b, g, i3) && payload[10..] == old(payload[10..])
  {
    payload[0] := a / 0x20_0000 % 0x100;
    payload[1] := a / 0x2000 % 0x100;
    payload[2] := a / 0x20 % 0x100;
    payload[3] := a % 0x20 * 8 + b / 0x400_0000;
    payload[4] := b / 0x4_0000 % 0x100;
    payload[5] := b / 0x400 % 0x100;
    payload[6] := b / 4 % 0x100;
    payload[7] := b % 4 * 0x40 + g / 0x400;
    payload[8] := g / 4 % 0x100;
    payload[9] := g % 4 * 0x40 + i3 * 8;
  }

  /** `ftx_message_decode_std`. */
  function Decoded(p: seq<Byte>, lookup: nat -> string): Result<(string, string, string)>
    requires |p| >= 10
  {
    var (a, b, ir, g, i3) := Fields(p);
    var to, de := Unpack28(a / 2, a % 2, i3, lookup), Unpack28(b / 2, b % 2, i3, lookup);
    if to.None? then Call1
    else if de.None? then Call2
    else Ok((to.value, de.value, UnpackGrid(g, ir)))
  }

  // ----- the round trip

  /** DE, QRZ, CQ, or a standard base callsign with or without /P or /R. */
  predicate Sendable(callsign: string) {
    IsToken(callsign) || (SpaceFree(Base(callsign)) && PackedBase(Base(callsign)) >= 0)
  }

  predicate Unambiguous(callsign: string) {
    IsToken(callsign) || !Confusable(Base(callsign))
  }

  predicate MixedSuffixes(to: string, de: string) {
    (EndsWith(to, "/P") || EndsWith(de, "/P")) && (EndsWith(to, "/R") || EndsWith(de, "/R"))
  }

  /** Characters of a standard base callsign are digits and capitals. */
  lemma BaseCharacters(s: string)
    requires SpaceFree(s) && PackedBase(s) >= 0
    ensures forall i :: 0 <= i < |s| ==> IsDigit(s[i]) || 'A' <= s[i] <= 'Z'
    ensures IsDigit(s[1]) || IsDigit(s[2]) || StartsWith(s, "3DA0") || StartsWith(s, "3X")
  {
    var c := Columns(s);
    assert forall i :: 0 <= i < 6 ==> c[i] == ' ' || IsDigit(c[i]) || 'A' <= c[i] <= 'Z' by {
      assert Standard(c);
    }
    if StartsWith(s, "3DA0") && 4 < |s| <= 7 {
      assert forall i :: 4 <= i < |s| ==> s[i] == c[i - 1];
      assert s[..4] == "3DA0" && s[0] == '3' && s[1] == 'D' && s[2] == 'A' && s[3] == '0';
    } else if StartsWith(s, "3X") && IsLetter(s[2]) && |s| <= 7 {
      assert forall i :: 2 <= i < |s| ==> s[i] == c[i - 1];
      assert s[..2] == "3X" && s[0] == '3' && s[1] == 'X';
    } else if IsDigit(s[2]) && |s| <= 6 {
      assert forall i :: 0 <= i < |s| ==> s[i] == c[i];
    } else if IsDigit(s[1]) && |s| <= 5 {
      assert forall i :: 0 <= i < |s| ==> s[i] == c[i + 1];
    } else {
      BlankIsNotStandard();
    }
  }

  /** A sendable callsign that is no token gets a standard code. */
  lemma StandardHashable(callsign: string)
    requires Sendable(callsign) && !IsToken(callsign)
    ensures Hashable(callsign)
  {
    var s := Base(callsign);
    BaseCharacters(s);
    assert forall i :: 0 <= i < |s| ==> callsign[i] == s[i];
    forall i | 0 <= i < |callsign| && i < 11 ensures Nchar(callsign[i], AlphanumSpaceSlash) >= 0 {
      if i >= |s| {
        assert callsign[i] == callsign[|s|..][i - |s|];
      }
    }
  }

  lemma StandardCode(callsign: string, hash22: string -> nat)
    requires Sendable(callsign) && !IsToken(callsign)
    ensures Pack28(callsign, hash22) == (NTOKENS + MAX22 + PackedBase(Base(callsign)), if HasSuffix(callsign) then 1 else 0)
  {
    NotDirected(callsign);
    StandardHashable(callsign);
    hide PackedBase, SpaceFree, Hashable, Base, HasSuffix, StartsWith;
  }

  /** A standard callsign is no directed CQ. */
  lemma NotDirected(callsign: string)
    requires Sendable(callsign) && !IsToken(callsign)
    ensures !StartsWith(callsign, "CQ_")
  {
    var s := Base(callsign);
    BaseCharacters(s);
    assert forall i :: 0 <= i < |s| ==> callsign[i] == s[i];
    assert callsign[2] != "CQ_"[2];
  }

  /** What a code of a standard base callsign decodes to. */
  lemma UnpackedBase(n: nat, ip: nat, i3: nat, lookup: nat -> string)
    requires 1 <= i3 <= 2 && |Restored(ColumnsOf(n))| >= 3
    ensures Unpack28(NTOKENS + MAX22 + n, ip, i3, lookup)
      == Some(Restored(ColumnsOf(n)) + if ip == 0 then "" else if i3 == 1 then "/R" else "/P")
  {
    hide Restored, ColumnsOf, CqLetters, ThreeDigits, TrimFront;
    assert Restored(ColumnsOf(n)) + "" == Restored(ColumnsOf(n));
  }

  lemma SuffixOf(callsign: string, i3: nat)
    requires 1 <= i3 <= 2 && (EndsWith(callsign, "/P") ==> i3 == 2) && (EndsWith(callsign, "/R") ==> i3 == 1)
    ensures callsign == Base(callsign) + if !HasSuffix(callsign) then "" else if i3 == 1 then "/R" else "/P"
  {
  }

  /** What a callsign decodes to, with the type its suffix asks for. */
  lemma CallRoundTrip(callsign: string, i3: nat, hash22: string -> nat, lookup: nat -> string)
    requires Sendable(callsign) && 1 <= i3 <= 2
    requires (EndsWith(callsign, "/P") ==> i3 == 2) && (EndsWith(callsign, "/R") ==> i3 == 1)
    ensures var (n, ip) := Pack28(callsign, hash22);
      && 0 <= n < 0x1000_0000 && (HasSuffix(callsign) ==> ip == 1) && Unpack28(n, ip, i3, lookup).Some?
      && (Unpack28(n, ip, i3, lookup).value == callsign <==> Unambiguous(callsign))
  {
    CodeBound(callsign, hash22);
    if IsToken(callsign) {
      TokenRoundTrip(callsign, i3, hash22, lookup);
    } else {
      var s := Base(callsign);
      StandardCode(callsign, hash22);
      BaseRoundTrip(s);
      RestoredLength(s);
      SuffixOf(callsign, i3);
      hide Pack28, Unpack28, PackedBase, Restored, ColumnsOf, SpaceFree, Confusable, Base, HasSuffix;
      var suffix := if !HasSuffix(callsign) then "" else if i3 == 1 then "/R" else "/P";
      UnpackedBase(PackedBase(s), if HasSuffix(callsign) then 1 else 0, i3, lookup);
      SameBase(Restored(ColumnsOf(PackedBase(s))), s, suffix);
    }
  }

  lemma TokenRoundTrip(callsign: string, i3: nat, hash22: string -> nat, lookup: nat -> string)
    requires IsToken(callsign)
    ensures var (n, ip) := Pack28(callsign, hash22);
      0 <= n && Unpack28(n, ip, i3, lookup) == Some(callsign) && !HasSuffix(callsign)
  {
    hide CqLetters, ThreeDigits, TrimFront, Charn, Nchar, Restored, ColumnsOf;
  }

  lemma SameBase(a: string, b: string, suffix: string)
    ensures a + suffix == b + suffix <==> a == b
  {
    assert |a| == |b| ==> (a + suffix)[..|a|] == a && (b + suffix)[..|b|] == b;
  }

  /** Decoded base callsigns are never too short. */
  lemma RestoredLength(s: string)
    requires SpaceFree(s) && PackedBase(s) >= 0
    ensures |Restored(ColumnsOf(PackedBase(s)))| >= 3
  {
    BaseRoundTrip(s);
    var c := Columns(s);
    ColumnsRoundTrip(c);
    if Confusable(s) {
      BaseCharacters(s);
      hide ColumnsOf, ColumnsNumber, Nchar, Charn;
      ConfusedLength(s);
    }
  }

  lemma ConfusedLength(s: string)
    requires SpaceFree(s) && |s| > 2 && Confusable(s) && Standard(Columns(s))
    ensures |Restored(Columns(s))| >= 3
  {
    var c := Columns(s);
    if StartsWith(s, "3DA0") && 4 < |s| <= 7 {
      Swaziland(s);
    } else if StartsWith(s, "3X") && IsLetter(s[2]) && |s| <= 7 {
      Guinea(s);
    } else if IsDigit(s[2]) && |s| <= 6 {
      assert c[0] == s[0] && c[1] == s[1] && c[2] == s[2];
      if s[0] == 'Q' {
        assert c[1..] == Spaces(0) + s[1..] + Spaces(6 - |s|);
        TrimPadded(s[1..], 0, 6 - |s|);
        assert !StartsWith(c, "3D0") by { assert c[0] != "3D0"[0]; }
      } else {
        assert c[..3] == s[..3] && c[3] == s[3];
      }
    } else if IsDigit(s[1]) && |s| <= 5 {
      DigitSecond(s);
    } else {
      BlankIsNotStandard();
    }
  }

  lemma EncodedIs(to: string, de: string, extra: string, hash22: string -> nat, i3: nat)
    requires 0 <= Pack28(to, hash22).0 < 0x1000_0000 && 0 <= Pack28(de, hash22).0 < 0x1000_0000
    requires i3 == if EndsWith(to, "/P") || EndsWith(de, "/P") then 2 else 1
    ensures Encoded(to, de, extra, hash22)
      == if MixedSuffixes(to, de) then Suffix
         else Ok(Payload(Word(Pack28(to, hash22).0, Pack28(to, hash22).1, HasSuffix(to)),
                         Word(Pack28(de, hash22).0, Pack28(de, hash22).1, false), PackGrid(extra), i3))
  {
    hide Pack28, PackGrid, Payload, Word;
  }

  lemma DecodedIs(a: nat, b: nat, g: nat, i3: nat, lookup: nat -> string)
    requires a < 0x2000_0000 && b < 0x2000_0000 && g < 0x1_0000 && i3 < 8
    requires Unpack28(a / 2, a % 2, i3, lookup).Some? && Unpack28(b / 2, b % 2, i3, lookup).Some?
    ensures Decoded(Payload(a, b, g, i3), lookup)
      == Ok((Unpack28(a / 2, a % 2, i3, lookup).value, Unpack28(b / 2, b % 2, i3, lookup).value, UnpackGrid(g % 0x8000, g / 0x8000)))
  {
    hide Payload, Fields, Unpack28, UnpackGrid;
    FieldsRoundTrip(a, b, g, i3);
  }

  /** A standard message is refused exactly when its suffixes differ in kind; otherwise it
      comes back exactly when neither callsign is a literal form of a restored national prefix. */
  lemma StandardRoundTrip(to: string, de: string, extra: string, hash22: string -> nat, lookup: nat -> string)
    requires Sendable(to) && Sendable(de) && CanonicalExtra(extra)
    ensures var r := Encoded(to, de, extra, hash22);
      if MixedSuffixes(to, de) then r == Suffix
      else r.Ok? && (Decoded(r.value, lookup) == Ok((to, de, extra)) <==> Unambiguous(to) && Unambiguous(de))
  {
    var i3: nat := if EndsWith(to, "/P") || EndsWith(de, "/P") then 2 else 1;
    hide Pack28, Unpack28, Sendable, Unambiguous, CanonicalExtra, PackGrid, UnpackGrid, Payload, Fields, EndsWith, Word, Encoded, Decoded;
    NotBoth(to);
    NotBoth(de);
    SendableCode(to, hash22);
    SendableCode(de, hash22);
    CodeBound(to, hash22);
    CodeBound(de, hash22);
    EncodedIs(to, de, extra, hash22, i3);
    if !MixedSuffixes(to, de) {
      CallRoundTrip(to, i3, hash22, lookup);
      CallRoundTrip(de, i3, hash22, lookup);
      ExtraRoundTrip(extra);
      var a, b := Pack28(to, hash22), Pack28(de, hash22);
      DecodedIs(Word(a.0, a.1, HasSuffix(to)), Word(b.0, b.1, false), PackGrid(extra), i3, lookup);
    }
  }

  lemma NotBoth(callsign: string)
    ensures !(EndsWith(callsign, "/P") && EndsWith(callsign, "/R"))
  {
    if EndsWith(callsign, "/P") {
      assert callsign[|callsign| - 2..][1] == 'P' != "/R"[1];
    }
  }

  lemma SendableCode(callsign: string, hash22: string -> nat)
    requires Sendable(callsign)
    ensures 0 <= Pack28(callsign, hash22).0
  {
    if !IsToken(callsign) {
      StandardCode(callsign, hash22);
    }
  }
}
