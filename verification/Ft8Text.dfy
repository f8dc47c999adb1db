/** Character tables and small numbers of the FT8 message text. */
module Ft8Text {

  datatype Table = Full | AlphanumSpaceSlash | AlphanumSpace | LettersSpace | Alphanum | Numeric

  predicate IsDigit(c: char) {
    '0' <= c <= '9'
  }

  /** Upper or lower case. */
  predicate IsLetter(c: char) {
    'A' <= c <= 'Z' || 'a' <= c <= 'z'
  }

  lemma CharactersAre(c: char)
    ensures IsDigit(c) <==> 48 <= c as int <= 57
    ensures IsLetter(c) <==> 65 <= c as int <= 90 || 97 <= c as int <= 122
  {
  }

  const SIGNS: seq<char> := ['+', '-', '.', '/', '?']

  /** `charn`. */
  function Charn(c: nat, table: Table): char {
    var space, digits, letters := table != Alphanum && table != Numeric, table != LettersSpace, table != Numeric;
    if space && c == 0 then ' '
    else
      var c1 := if space then c - 1 else c;
      if digits && c1 < 10 then (48 + c1) as char
      else
        var c2 := if digits then c1 - 10 else c1;
        if letters && c2 < 26 then (65 + c2) as char
        else
          var c3 := if letters then c2 - 26 else c2;
          if table == Full && c3 < 5 then SIGNS[c3]
          else if table == AlphanumSpaceSlash && c3 == 0 then '/'
          else '_'
  }

  /** `nchar`: the index of a character in a table, or -1. */
  function Nchar(c: char, table: Table): int {
    var space, digits, letters := table != Alphanum && table != Numeric, table != LettersSpace, table != Numeric;
    if space && c == ' ' then 0
    else
      var n1 := if space then 1 else 0;
      if digits && IsDigit(c) then n1 + (c as int - 48)
      else
        var n2 := if digits then n1 + 10 else n1;
        if letters && 'A' <= c <= 'Z' then n2 + (c as int - 65)
        else
          var n3 := if letters then n2 + 26 else n2;
          if table == Full && c in SIGNS then n3 + SignIndex(c)
          else if table == AlphanumSpaceSlash && c == '/' then n3
          else -1
  }

  function SignIndex(c: char): nat {
    if c == '+' then 0 else if c == '-' then 1 else if c == '.' then 2 else if c == '/' then 3 else 4
  }

  function Size(table: Table): nat {
    match table
    case Full => 42
    case AlphanumSpaceSlash => 38
    case AlphanumSpace => 37
    case LettersSpace => 27
    case Alphanum => 36
    case Numeric => 10
  }

  /** Each table numbers its characters from 0 without gaps, and the two functions are inverse. */
  lemma TablesAreInverse(c: char, n: nat, table: Table)
    ensures Nchar(c, table) >= 0 ==> Nchar(c, table) < Size(table) && Charn(Nchar(c, table), table) == c
    ensures n < Size(table) ==> Nchar(Charn(n, table), table) == n
  {
  }

  function At(s: string, i: nat): char {
    if i < |s| then s[i] else '\0'
  }

  predicate StartsWith(s: string, prefix: string) {
    prefix <= s
  }

  predicate EndsWith(s: string, suffix: string) {
    |suffix| <= |s| && s[|s| - |suffix|..] == suffix
  }

  function Spaces(n: nat): (s: string)
    ensures |s| == n && forall i :: 0 <= i < n ==> s[i] == ' '
  {
    seq(n, _ => ' ')
  }

  function TrimFront(s: string): string {
    if s != [] && s[0] == ' ' then TrimFront(s[1..]) else s
  }

  function TrimBack(s: string): string {
    if s != [] && s[|s| - 1] == ' ' then TrimBack(s[..|s| - 1]) else s
  }

  /** `trim_copy`. */
  function Trim(s: string): string {
    TrimBack(TrimFront(s))
  }

  lemma {:induction false} TrimPadded(s: string, front: nat, back: nat)
    requires s != [] && s[0] != ' ' && s[|s| - 1] != ' '
    ensures Trim(Spaces(front) + s + Spaces(back)) == s
  {
    TrimFrontPadded(s + Spaces(back), front);
    assert Spaces(front) + (s + Spaces(back)) == Spaces(front) + s + Spaces(back);
    TrimBackPadded(s, back);
  }

  lemma {:induction false} TrimFrontPadded(s: string, n: nat)
    requires s != [] && s[0] != ' '
    ensures TrimFront(Spaces(n) + s) == s
  {
    if n == 0 {
      assert Spaces(0) + s == s;
    } else {
      assert (Spaces(n) + s)[1..] == Spaces(n - 1) + s;
      TrimFrontPadded(s, n - 1);
    }
  }

  lemma {:induction false} TrimBackPadded(s: string, n: nat)
    requires s != [] && s[|s| - 1] != ' '
    ensures TrimBack(s + Spaces(n)) == s
  {
    if n == 0 {
      assert s + Spaces(0) == s;
    } else {
      var t := s + Spaces(n);
      assert t[..|t| - 1] == s + Spaces(n - 1);
      TrimBackPadded(s, n - 1);
    }
  }

  // ----- signed numbers of two digits

  /** The value of the leading digits of a string. */
  function Digits(s: string, value: nat): nat {
    if s == [] || !IsDigit(s[0]) then value else Digits(s[1..], value * 10 + (s[0] as int - 48))
  }

  /** `dd_to_int`: an optional sign and the leading digits, within the first `length` characters. */
  function ParsedTo(s: string, length: nat): int {
    if At(s, 0) == '-' then -(Digits(Upto(s, 1, length), 0) as int)
    else if At(s, 0) == '+' then Digits(Upto(s, 1, length), 0)
    else Digits(Upto(s, 0, length), 0)
  }

  function Parsed(s: string): int {
    ParsedTo(s, 3)
  }

  function Upto(s: string, from: nat, length: nat): string {
    if from >= |s| || from >= length then [] else s[from..if |s| < length then |s| else length]
  }

  method DdToInt(s: string, length: nat) returns (value: int)
    ensures value == ParsedTo(s, length)
  {
    var result := 0;
    var negative := At(s, 0) == '-';
    var i := if negative || At(s, 0) == '+' then 1 else 0;
    ghost var rest := Upto(s, i, length);
    ghost var first := i;
    while i < length
      invariant first <= i && result >= 0 && (i <= length || i == first)
      invariant Digits(rest, 0) == Digits(Upto(s, i, length), result)
    {
      if At(s, i) == '\0' || !IsDigit(At(s, i)) {
        break;
      }
      assert Upto(s, i, length)[1..] == Upto(s, i + 1, length);
      result := result * 10 + (s[i] as int - 48);
      i := i + 1;
    }
    value := if negative then -result else result;
  }

  function Power10(n: nat): (p: nat)
    ensures p >= 1
  {
    if n == 0 then 1 else 10 * Power10(n - 1)
  }

  function Quotient(a: nat, b: nat): nat
    requires b > 0
  {
    a / b
  }

  function Modulo(a: nat, b: nat): (r: nat)
    requires b > 0
    ensures r < b
  {
    a % b
  }

  lemma Scaled(a: nat, b: nat, p: nat)
    requires a <= b
    ensures a * p <= b * p
  {
    assert b * p == a * p + (b - a) * p;
  }

  /** A number below n times p has fewer than n whole p in it. */
  lemma Top(value: nat, p: nat, n: nat)
    requires p > 0 && value < n * p
    ensures Quotient(value, p) < n
  {
    var q := value / p;
    assert value == q * p + value % p;
    if q >= n {
      Scaled(n, q, p);
    }
  }

  lemma PowerIs(n: nat)
    ensures Power10(0) == 1 && Power10(n + 1) == 10 * Power10(n)
    ensures Power10(n) / 10 == if n == 0 then 0 else Power10(n - 1)
  {
  }

  /** `'0' + digit` in an 8-bit character. */
  function DigitChar(digit: nat): (c: char)
    ensures c as int < 256 && (digit < 208 ==> c as int == 48 + digit)
  {
    ((48 + digit) % 256) as char
  }

  /** A number in places from 10^n down; what does not fit swells the first character. */
  function Places(value: nat, n: nat): (places: string)
    ensures |places| == n + 1
  {
    var p := Power10(n);
    [DigitChar(Quotient(value, p))] + if n == 0 then [] else Places(Modulo(value, p), n - 1)
  }

  function Abs(value: int): nat {
    if value < 0 then -value else value
  }

  /** The exponent of the first place; there is one place at least. */
  function Leading(width: nat): nat {
    if width == 0 then 0 else width - 1
  }

  /** `int_to_dd`: a sign where asked for or needed, and the places of the size. */
  function Written(value: int, width: nat, fullSign: bool): string {
    (if value < 0 then "-" else if fullSign then "+" else "") + Places(Abs(value), Leading(width))
  }

  method IntToDd(value: int, width: nat, fullSign: bool) returns (s: string)
    ensures s == Written(value, width, fullSign)
  {
    s := "";
    var rest := value;
    if value < 0 {
      s := "-";
      rest := -value;
    } else if fullSign {
      s := "+";
    }
    ghost var n: int := Leading(width);
    assert s + Places(rest, n) == Written(value, width, fullSign);
    var divisor := TenTo(width);
    hide *;
    while divisor >= 1
      invariant n >= -1 && 0 <= rest && (n == -1 ==> divisor == 0 && s == Written(value, width, fullSign))
      invariant n >= 0 ==> divisor == Power10(n) >= 1 && s + Places(rest, n) == Written(value, width, fullSign)
      decreases n
    {
      PowerIs(n);
      s, rest := WritePlace(s, rest, divisor, n);
      divisor := divisor / 10;
      n := n - 1;
    }
  }

  /** The loop that builds the divisor. */
  method TenTo(width: nat) returns (divisor: nat)
    ensures divisor == Power10(Leading(width))
  {
    divisor := 1;
    if width > 1 {
      for i := 0 to width - 1
        invariant divisor == Power10(i)
      {
        divisor := divisor * 10;
      }
    }
  }

  /** One place: its character, and what is left of the number. */
  method WritePlace(s: string, value: nat, divisor: nat, ghost n: nat) returns (longer: string, rest: nat)
    requires divisor == Power10(n)
    ensures n == 0 ==> longer == s + Places(value, n)
    ensures n > 0 ==> longer + Places(rest, n - 1) == s + Places(value, n)
  {
    hide Power10, Quotient, Modulo, DigitChar;
    var digit;
    digit, rest := Divide(value, divisor);
    longer := s + [DigitChar(digit)];
  }

  method Divide(value: nat, divisor: nat) returns (digit: nat, rest: nat)
    requires divisor > 0
    ensures digit == Quotient(value, divisor) && rest == Modulo(value, divisor)
  {
    digit := value / divisor;
    rest := value - digit * divisor;
  }

  lemma DigitsFirst(s: string, d: nat, before: nat)
    requires s != [] && d < 10 && s[0] == DigitChar(d)
    ensures Digits(s, before) == Digits(s[1..], before * 10 + d)
    ensures s[1..] == [] ==> Digits(s, before) == before * 10 + d
  {
  }

  lemma PlacesStep(value: nat, n: nat)
    ensures Places(value, n)[0] == DigitChar(Quotient(value, Power10(n)))
    ensures Places(value, n)[1..] == if n == 0 then [] else Places(Modulo(value, Power10(n)), n - 1)
  {
    hide Power10, Quotient, Modulo, DigitChar;
  }

  lemma {:induction false} DigitsOfPlaces(value: nat, n: nat, before: nat)
    requires value < 10 * Power10(n)
    ensures Digits(Places(value, n), before) == Joint(before, 10 * Power10(n), value)
    decreases n
  {
    hide *;
    var p := Power10(n);
    Top(value, p, 10);
    PlacesStep(value, n);
    PowerIs(n);
    var d, rest := Quotient(value, p), Modulo(value, p);
    DigitsFirst(Places(value, n), d, before);
    Joined(value, p, before);
    if n == 0 {
      JointOne(value, before);
    } else {
      PowerIs(n - 1);
      DigitsOfPlaces(rest, n - 1, before * 10 + d);
    }
  }

  /** The digits of a number written after others. */
  function Joint(before: nat, power: nat, value: nat): nat {
    before * power + value
  }

  lemma Joined(value: nat, p: nat, before: nat)
    requires p > 0
    ensures Joint(before * 10 + Quotient(value, p), p, Modulo(value, p)) == Joint(before, 10 * p, value)
  {
    var d := value / p;
    assert value == d * p + value % p;
    assert (before * 10 + d) * p == before * (10 * p) + d * p;
  }

  lemma JointOne(value: nat, before: nat)
    ensures Joint(before, 10, value) == before * 10 + Quotient(value, 1)
  {
  }

  /** Reading a signed number of so many places gives it back. */
  lemma WrittenRoundTrip(value: int, width: nat)
    requires width > 0 && Abs(value) < Power10(width)
    ensures ParsedTo(Written(value, width, true), width + 1) == value
  {
    WrittenParts(value, width);
    PowerIs(width - 1);
    DigitsOfPlaces(Abs(value), width - 1, 0);
    JointNone(10 * Power10(width - 1), Abs(value));
    hide Places, Digits, Power10, Written, Upto, Joint;
  }

  lemma WrittenParts(value: int, width: nat)
    requires width > 0
    ensures var s := Written(value, width, true);
      At(s, 0) == (if value < 0 then '-' else '+') && Upto(s, 1, width + 1) == Places(Abs(value), width - 1)
  {
    hide Places;
    var s := Written(value, width, true);
    assert Upto(s, 1, width + 1) == s[1..] == Places(Abs(value), width - 1);
  }

  lemma JointNone(power: nat, value: nat)
    ensures Joint(0, power, value) == value
  {
  }

  /** A sign and two digits; from 100 up the first is no digit. */
  function Report(value: int): string
    requires -100 < value < 1000
  {
    [if value < 0 then '-' else '+', (48 + Abs(value) / 10) as char, (48 + Abs(value) % 10) as char]
  }

  lemma ReportIsWritten(value: int)
    requires -100 < value < 1000
    ensures Report(value) == Written(value, 2, true)
  {
    assert Power10(0) == 1 && Power10(1) == 10;
    PlacesStep(Abs(value), 1);
    PlacesStep(Abs(value) % 10, 0);
  }

  /** Reading a written report gives the number back. */
  lemma ReportRoundTrip(value: int)
    requires -100 < value < 100
    ensures Parsed(Report(value)) == value
  {
    ReportIsWritten(value);
    assert Power10(2) == 100;
    WrittenRoundTrip(value, 2);
  }
}
