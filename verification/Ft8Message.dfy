/** Standard FT8 messages: two callsigns and a locator or report in 77 bits. */
module Ft8Message {
  import opened Radix
  import opened Ft8Text

  datatype Result<+T> = Ok(value: T) | Call1 | Call2 | Suffix | Grid

  const NTOKENS: nat := 2063592
  const MAX22: nat := 4194304
  const MAXGRID4: nat := 32400

  // ----- base callsigns

  /** The six columns a base callsign is put into; blank when it fits none of the forms. */
  function Columns(s: string): (c: string)
    requires |s| > 2
    ensures |c| == 6
  {
    if StartsWith(s, "3DA0") && 4 < |s| <= 7 then "3D0" + s[4..] + Spaces(7 - |s|)
    else if StartsWith(s, "3X") && IsLetter(s[2]) && |s| <= 7 then "Q" + s[2..] + Spaces(7 - |s|)
    else if IsDigit(s[2]) && |s| <= 6 then s + Spaces(6 - |s|)
    else if IsDigit(s[1]) && |s| <= 5 then " " + s + Spaces(5 - |s|)
    else Spaces(6)
  }

  predicate Standard(c: string)
    requires |c| == 6
  {
    && Nchar(c[0], AlphanumSpace) >= 0 && Nchar(c[1], Alphanum) >= 0 && Nchar(c[2], Numeric) >= 0
    && Nchar(c[3], LettersSpace) >= 0 && Nchar(c[4], LettersSpace) >= 0 && Nchar(c[5], LettersSpace) >= 0
  }

  function Number(c0: nat, c1: nat, c2: nat, c3: nat, c4: nat, c5: nat): nat {
    ((((c0 * 36 + c1) * 10 + c2) * 27 + c3) * 27 + c4) * 27 + c5
  }

  function ColumnsNumber(c: string): (n: nat)
    requires |c| == 6 && Standard(c)
  {
    Number(Nchar(c[0], AlphanumSpace), Nchar(c[1], Alphanum), Nchar(c[2], Numeric),
           Nchar(c[3], LettersSpace), Nchar(c[4], LettersSpace), Nchar(c[5], LettersSpace))
  }

  /** The number of a base callsign, or -1. */
  function PackedBase(s: string): (n: int)
    ensures n >= -1
  {
    if |s| > 2 && Standard(Columns(s)) then ColumnsNumber(Columns(s)) else -1
  }

  /** `memcpy` into the columns, at most six of them. */
  method CopyInto(c6: array<char>, at: nat, s: string)
    requires c6.Length == 6 && at + |s| <= 6
    modifies c6
    ensures c6[..] == old(c6[..at]) + s + old(c6[at + |s|..])
  {
    for i := 0 to |s|
      invariant c6[..] == old(c6[..at]) + s[..i] + old(c6[at + i..])
    {
      c6[at + i] := s[i];
    }
  }

  /** Write over the spaces behind what is already there. */
  method Write(c6: array<char>, ghost before: string, at: nat, s: string)
    requires c6.Length == 6 && at == |before| && at + |s| <= 6 && c6[..] == before + Spaces(6 - at)
    modifies c6
    ensures c6[..] == before + s + Spaces(6 - at - |s|)
  {
    ghost var was := c6[..];
    CopyInto(c6, at, s);
    assert was[..at] == before && was[at + |s|..] == Spaces(6 - at - |s|);
  }

  /** The columns of a base callsign. */
  method Fill(base: string) returns (c6: array<char>)
    requires |base| > 2
    ensures fresh(c6) && c6.Length == 6 && c6[..] == Columns(base)
  {
    c6 := new char[6](_ => ' ');
    ghost var none: string := [];
    assert c6[..] == Spaces(6) == none + Spaces(6);
    if StartsWith(base, "3DA0") && |base| > 4 && |base| <= 7 {
      Write(c6, none, 0, "3D0");
      assert none + "3D0" == "3D0";
      Write(c6, "3D0", 3, base[4..]);
    } else if StartsWith(base, "3X") && IsLetter(base[2]) && |base| <= 7 {
      Write(c6, none, 0, "Q");
      assert none + "Q" == "Q";
      Write(c6, "Q", 1, base[2..]);
    } else if IsDigit(base[2]) && |base| <= 6 {
      Write(c6, none, 0, base);
      assert none + base == base;
    } else if IsDigit(base[1]) && |base| <= 5 {
      assert Spaces(6) == " " + Spaces(5);
      Write(c6, " ", 1, base);
    }
  }

  /** `pack_basecall` on the first length characters. */
  method PackBasecall(callsign: string, length: nat) returns (n: int)
    requires length <= |callsign|
    ensures n == PackedBase(callsign[..length])
  {
    n := -1;
    if length > 2 {
      var c6 := Fill(callsign[..length]);
      n := ColumnsToNumber(c6, Columns(callsign[..length]));
    }
  }

  method ColumnsToNumber(c6: array<char>, ghost c: string) returns (n: int)
    requires c6.Length == 6 && c6[..] == c
    ensures n == if Standard(c) then ColumnsNumber(c) else -1
  {
    hide Nchar;
    assert forall i :: 0 <= i < 6 ==> c6[i] == c[i];
    var i0 := Nchar(c6[0], AlphanumSpace);
    var i1 := Nchar(c6[1], Alphanum);
    var i2 := Nchar(c6[2], Numeric);
    var i3 := Nchar(c6[3], LettersSpace);
    var i4 := Nchar(c6[4], LettersSpace);
    var i5 := Nchar(c6[5], LettersSpace);
    if i0 >= 0 && i1 >= 0 && i2 >= 0 && i3 >= 0 && i4 >= 0 && i5 >= 0 {
      n := i0;
      n := n * 36 + i1;
      n := n * 10 + i2;
      n := n * 27 + i3;
      n := n * 27 + i4;
      n := n * 27 + i5;
    } else {
      n := -1;
    }
  }

  const BASES: nat := 262177560

  /** Base callsigns fill the numbers up to 2^28 exactly. */
  lemma CodesFit(s: string)
    ensures PackedBase(s) < BASES && NTOKENS + MAX22 + BASES == 0x1000_0000
  {
    if PackedBase(s) >= 0 {
      var c := Columns(s);
      TablesAreInverse(c[0], 0, AlphanumSpace);
      TablesAreInverse(c[1], 0, Alphanum);
      TablesAreInverse(c[2], 0, Numeric);
      TablesAreInverse(c[3], 0, LettersSpace);
      TablesAreInverse(c[4], 0, LettersSpace);
      TablesAreInverse(c[5], 0, LettersSpace);
      hide Nchar, Charn;
      NumberBound(Nchar(c[0], AlphanumSpace), Nchar(c[1], Alphanum), Nchar(c[2], Numeric),
                  Nchar(c[3], LettersSpace), Nchar(c[4], LettersSpace), Nchar(c[5], LettersSpace));
    }
  }

  lemma NumberBound(c0: nat, c1: nat, c2: nat, c3: nat, c4: nat, c5: nat)
    requires c0 < 37 && c1 < 36 && c2 < 10 && c3 < 27 && c4 < 27 && c5 < 27
    ensures Number(c0, c1, c2, c3, c4, c5) < BASES
  {
  }

  /** The six columns of a number. */
  function ColumnsOf(n: nat): (c: string)
    ensures |c| == 6
  {
    [Charn(n / 27 / 27 / 27 / 10 / 36 % 37, AlphanumSpace), Charn(n / 27 / 27 / 27 / 10 % 36, Alphanum),
     Charn(n / 27 / 27 / 27 % 10, Numeric), Charn(n / 27 / 27 % 27, LettersSpace), Charn(n / 27 % 27, LettersSpace),
     Charn(n % 27, LettersSpace)]
  }

  /** The callsign in six columns, with the two national forms restored. */
  function Restored(c: string): string
    requires |c| == 6
  {
    if StartsWith(c, "3D0") && c[3] != ' ' then "3DA0" + Trim(c[3..])
    else if c[0] == 'Q' && IsLetter(c[1]) then "3X" + Trim(c[1..])
    else Trim(c)
  }

  /** The last part of `unpack28`, without a suffix. */
  method UnpackBasecall(n: nat) returns (s: string)
    ensures s == Restored(ColumnsOf(n))
  {
    hide Charn, Trim;
    var m := n;
    var callsign := new char[6](_ => ' ');
    callsign[5] := Charn(m % 27, LettersSpace);
    m := m / 27;
    callsign[4] := Charn(m % 27, LettersSpace);
    m := m / 27;
    callsign[3] := Charn(m % 27, LettersSpace);
    m := m / 27;
    callsign[2] := Charn(m % 10, Numeric);
    m := m / 10;
    callsign[1] := Charn(m % 36, Alphanum);
    m := m / 36;
    callsign[0] := Charn(m % 37, AlphanumSpace);
    var c := callsign[..];
    assert c == ColumnsOf(n);
    if StartsWith(c, "3D0") && c[3] != ' ' {
      s := "3DA0" + Trim(c[3..]);
    } else if c[0] == 'Q' && IsLetter(c[1]) {
      s := "3X" + Trim(c[1..]);
    } else {
      s := Trim(c);
    }
  }

  lemma NumberDigits(c0: nat, c1: nat, c2: nat, c3: nat, c4: nat, c5: nat)
    requires c0 < 37 && c1 < 36 && c2 < 10 && c3 < 27 && c4 < 27 && c5 < 27
    ensures ColumnsOf(Number(c0, c1, c2, c3, c4, c5))
      == [Charn(c0, AlphanumSpace), Charn(c1, Alphanum), Charn(c2, Numeric),
          Charn(c3, LettersSpace), Charn(c4, LettersSpace), Charn(c5, LettersSpace)]
  {
    hide Charn;
    var n2 := c0 * 36 + c1;
    var n3 := n2 * 10 + c2;
    var n4 := n3 * 27 + c3;
    var n5 := n4 * 27 + c4;
    Digits27(n5 * 27 + c5, n5, c5);
    Digits27(n5, n4, c4);
    Digits27(n4, n3, c3);
    Digits10(n3, n2, c2);
    Digits36(n2, c0, c1);
  }

  /** Standard columns come back from their number. */
  lemma ColumnsRoundTrip(c: string)
    requires |c| == 6 && Standard(c)
    ensures ColumnsOf(ColumnsNumber(c)) == c
  {
    TablesAreInverse(c[0], 0, AlphanumSpace);
    TablesAreInverse(c[1], 0, Alphanum);
    TablesAreInverse(c[2], 0, Numeric);
    TablesAreInverse(c[3], 0, LettersSpace);
    TablesAreInverse(c[4], 0, LettersSpace);
    TablesAreInverse(c[5], 0, LettersSpace);
    hide Nchar, Charn, ColumnsOf;
    NumberDigits(Nchar(c[0], AlphanumSpace), Nchar(c[1], Alphanum), Nchar(c[2], Numeric),
                 Nchar(c[3], LettersSpace), Nchar(c[4], LettersSpace), Nchar(c[5], LettersSpace));
    assert c == [c[0], c[1], c[2], c[3], c[4], c[5]];
  }

  predicate SpaceFree(s: string) {
    forall i :: 0 <= i < |s| ==> s[i] != ' '
  }

  /** The literal forms the restored national prefixes are confused with. */
  predicate Confusable(s: string) {
    || (|s| > 3 && StartsWith(s, "3D0"))
    || (|s| > 1 && s[0] == 'Q' && IsLetter(s[1]))
  }

  /** A base callsign comes back exactly when it is not one of the confusable forms. */
  lemma BaseRoundTrip(s: string)
    requires SpaceFree(s) && PackedBase(s) >= 0
    ensures Restored(ColumnsOf(PackedBase(s))) == s <==> !Confusable(s)
    ensures 3 <= |s| <= 7
  {
    var c := Columns(s);
    ColumnsRoundTrip(c);
    hide ColumnsOf, ColumnsNumber, Nchar, Charn, Trim;
    if StartsWith(s, "3DA0") && 4 < |s| <= 7 {
      Swaziland(s);
    } else if StartsWith(s, "3X") && IsLetter(s[2]) && |s| <= 7 {
      Guinea(s);
    } else if IsDigit(s[2]) && |s| <= 6 {
      DigitThird(s);
    } else if IsDigit(s[1]) && |s| <= 5 {
      DigitSecond(s);
    } else {
      BlankIsNotStandard();
    }
  }

  lemma BlankIsNotStandard()
    ensures !Standard(Spaces(6))
  {
  }

  lemma Swaziland(s: string)
    requires SpaceFree(s) && StartsWith(s, "3DA0") && 4 < |s| <= 7
    ensures Restored("3D0" + s[4..] + Spaces(7 - |s|)) == s && !Confusable(s)
  {
    var c := "3D0" + s[4..] + Spaces(7 - |s|);
    assert c[..3] == "3D0" && c[3] == s[4];
    assert c[3..] == Spaces(0) + s[4..] + Spaces(7 - |s|);
    TrimPadded(s[4..], 0, 7 - |s|);
    assert s == s[..4] + s[4..] && s[..4] == "3DA0";
    assert s[1] == 'D' && s[2] == 'A';
  }

  lemma Guinea(s: string)
    requires SpaceFree(s) && StartsWith(s, "3X") && 2 < |s| <= 7 && IsLetter(s[2])
    ensures Restored("Q" + s[2..] + Spaces(7 - |s|)) == s && !Confusable(s)
  {
    var c := "Q" + s[2..] + Spaces(7 - |s|);
    assert c[0] == 'Q' && c[1] == s[2];
    assert c[1..] == Spaces(0) + s[2..] + Spaces(7 - |s|);
    TrimPadded(s[2..], 0, 7 - |s|);
    assert s == s[..2] + s[2..] && s[..2] == "3X";
    assert s[0] == '3' && s[1] == 'X';
  }

  lemma DigitThird(s: string)
    requires SpaceFree(s) && 2 < |s| <= 6 && IsDigit(s[2])
    ensures Restored(s + Spaces(6 - |s|)) == s <==> !Confusable(s)
  {
    var c := s + Spaces(6 - |s|);
    assert c == Spaces(0) + s + Spaces(6 - |s|);
    TrimPadded(s, 0, 6 - |s|);
    hide Trim;
    assert c[0] == s[0] && c[1] == s[1] && c[2] == s[2];
    if StartsWith(c, "3D0") && c[3] != ' ' {
      assert c[..3] == s[..3];
      assert Restored(c)[2] == 'A';
    } else if s[0] == 'Q' && IsLetter(s[1]) {
      assert Restored(c)[0] == '3';
    } else if |s| > 3 && StartsWith(s, "3D0") {
      assert c[..3] == s[..3] && c[3] == s[3];
    }
  }

  lemma DigitSecond(s: string)
    requires SpaceFree(s) && 2 < |s| <= 5 && IsDigit(s[1])
    ensures Restored(" " + s + Spaces(5 - |s|)) == s && !Confusable(s)
  {
    var c := " " + s + Spaces(5 - |s|);
    assert c == Spaces(1) + s + Spaces(5 - |s|);
    TrimPadded(s, 1, 5 - |s|);
    assert c[0] == ' ' && c[..3][0] == ' ';
    assert s[1] != "3D0"[1];
  }
}
