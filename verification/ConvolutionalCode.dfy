/** The K=32, rate 1/2 Layland-Lushbaugh code that WSPR transmits: the ENCODE macro
    with its meaning as a convolution over the message bits. */
module ConvolutionalCode {

  const POLY1: bv64 := 0xf2d05351
  const POLY2: bv64 := 0xe4613c47

  /** One channel symbol pair; the source packs it as 2*first + second. */
  datatype Pair = Pair(first: bool, second: bool) {
    function Index(): nat {
      (if first then 2 else 0) + (if second then 1 else 0)
    }

    /** `3 ^ sym`. */
    function Complement(): Pair {
      Pair(!first, !second)
    }
  }

  /** The 256-entry table Partab: bit x of the constant is the table's x-th entry. */
  const PARTAB: bv256 := 0x6996966996696996_9669699669969669_9669699669969669_6996966996696996

  function Partab(x: bv8): bool {
    (PARTAB >> (x as bv256)) & 1 == 1
  }

  function Fold(w: bv64): bv8 {
    var t := w ^ (w >> 16);
    ((t ^ (t >> 8)) & 0xff) as bv8
  }

  function And(w: bv64, mask: bv64): bv64 {
    w & mask
  }

  /** One half of the macro: mask, fold to a byte, look up. */
  function Masked(state: bv64, poly: bv64): bool {
    Partab(Fold(And(state, poly)))
  }

  /** ENCODE(sym, state). */
  function Encode(state: bv64): Pair {
    Pair(Masked(state, POLY1), Masked(state, POLY2))
  }

  function Low(w: bv64): bool {
    w & 1 == 1
  }

  /** `state ^= 1`: the other branch out of the same node. */
  function Flip(state: bv64): bv64 {
    state ^ 1
  }

  /** `state << 1`: the 0-branch of the next node. */
  function Up(state: bv64): bv64 {
    state << 1
  }

  function Down(w: bv64): bv64 {
    w >> 1
  }

  function Shift(state: bv64, bit: bool): bv64 {
    if bit then Flip(Up(state)) else Up(state)
  }

  lemma ShiftFacts(state: bv64)
    ensures !Low(Up(state)) && Low(Flip(Up(state)))
    ensures Flip(Flip(state)) == state && Low(Flip(state)) != Low(state)
    ensures Up(0) == 0 && !Low(0)
  {
  }

  lemma FlipOfShift(state: bv64, bit: bool)
    ensures Flip(Shift(state, bit)) == Shift(state, !bit)
    ensures Low(Shift(state, bit)) == bit
  {
    hide Low, Up, Flip;
    ShiftFacts(state);
    ShiftFacts(Up(state));
  }

  /** Incrementing an even state (`encstate++`, `encstate + 1`) sets its low bit. */
  lemma IncrementIsFlip(state: bv64)
    requires !Low(state)
    ensures state + 1 == Flip(state)
  {
  }

  // ----- the branch-symbol symmetry both decoders rely on

  function XorOfBits(x: bv8): bool {
    var y := x ^ (x >> 4);
    var z := y ^ (y >> 2);
    (z ^ (z >> 1)) & 1 == 1
  }

  lemma TableIsParity(x: bv8)
    ensures Partab(x) == XorOfBits(x)
  {
  }

  lemma PartabSymmetries(x: bv8)
    ensures Partab(x ^ 1) != Partab(x)
    ensures Partab((x << 1) | (x >> 7)) == Partab(x)
  {
    hide Partab;
    TableIsParity(x);
    TableIsParity(x ^ 1);
    TableIsParity((x << 1) | (x >> 7));
  }

  lemma FoldFlip(w: bv64)
    ensures Fold(Flip(w)) == Fold(w) ^ 1
  {
  }

  lemma FlippedParity(w: bv64)
    ensures Partab(Fold(Flip(w))) != Partab(Fold(w))
  {
    hide *;
    FoldFlip(w);
    PartabSymmetries(Fold(w));
  }

  lemma AndFlipOdd(state: bv64, poly: bv64)
    requires Low(poly)
    ensures And(Flip(state), poly) == Flip(And(state, poly))
  {
  }

  lemma AndFlipEven(state: bv64, poly: bv64)
    requires !Low(poly)
    ensures And(Flip(state), poly) == And(state, poly)
  {
  }

  lemma MaskedUnfolded(state: bv64, poly: bv64)
    ensures Masked(state, poly) == Partab(Fold(And(state, poly)))
  {
    hide Partab, Fold, And;
  }

  lemma MaskedFlip(state: bv64, poly: bv64)
    ensures Masked(Flip(state), poly) == (Masked(state, poly) != Low(poly))
  {
    hide *;
    if Low(poly) {
      AndFlipOdd(state, poly);
    } else {
      AndFlipEven(state, poly);
    }
    FlippedParity(And(state, poly));
    MaskedUnfolded(state, poly);
    MaskedUnfolded(Flip(state), poly);
  }

  lemma OddPolynomials()
    ensures Low(POLY1) && Low(POLY2)
  {
  }

  /** Both polynomials are odd, so the two branches out of a state carry complementary pairs. */
  lemma ComplementaryBranches(state: bv64)
    ensures Encode(Flip(state)) == Encode(state).Complement()
  {
    hide Masked, Flip, Low;
    OddPolynomials();
    MaskedFlip(state, POLY1);
    MaskedFlip(state, POLY2);
  }

  // ----- the code as a convolution

  /** Encoder state after shifting in all the bits, oldest first. */
  ghost function State(bits: seq<bool>): bv64 {
    if bits == [] then 0 else Shift(State(bits[..|bits| - 1]), bits[|bits| - 1])
  }

  /** XOR over all d of coefficient d of the polynomial and the bit d places before the last. */
  ghost function Taps(poly: bv64, bits: seq<bool>): bool {
    if bits == [] then false
    else (Low(poly) && bits[|bits| - 1]) != Taps(Down(poly), bits[..|bits| - 1])
  }

  predicate Below32(w: bv64) {
    w & 0xffffffff00000000 == 0
  }

  predicate Below31(w: bv64) {
    w & 0xffffffff80000000 == 0
  }

  lemma FoldUp(v: bv64)
    requires Below31(v)
    ensures Fold(Up(v)) == (Fold(v) << 1) | (Fold(v) >> 7)
  {
  }

  lemma ShiftedParity(v: bv64)
    requires Below31(v)
    ensures Partab(Fold(Up(v))) == Partab(Fold(v))
  {
    hide *;
    FoldUp(v);
    PartabSymmetries(Fold(v));
  }

  lemma AndUp(state: bv64, poly: bv64)
    requires Below32(poly)
    ensures And(Up(state), poly) == Up(And(state, Down(poly)))
    ensures Below31(And(state, Down(poly))) && Below32(Down(poly))
  {
  }

  /** The 0-branch keeps the parity of the masked history, one place further. */
  lemma MaskedUp(state: bv64, poly: bv64)
    requires Below32(poly)
    ensures Masked(Up(state), poly) == Masked(state, Down(poly))
  {
    hide *;
    AndUp(state, poly);
    ShiftedParity(And(state, Down(poly)));
    MaskedUnfolded(Up(state), poly);
    MaskedUnfolded(state, Down(poly));
  }

  lemma EmptyHistory(poly: bv64)
    ensures !Masked(0, poly)
  {
    assert 0 & poly == 0;
  }

  lemma {:induction false} MaskedIsTaps(poly: bv64, bits: seq<bool>)
    requires Below32(poly)
    ensures Masked(State(bits), poly) == Taps(poly, bits)
    decreases bits
  {
    hide Masked, Flip, Up, Down, Below32, Low;
    if bits == [] {
      EmptyHistory(poly);
    } else {
      var earlier := bits[..|bits| - 1];
      AndUp(State(earlier), poly);
      MaskedIsTaps(Down(poly), earlier);
      MaskedUp(State(earlier), poly);
      MaskedFlip(Up(State(earlier)), poly);
    }
  }

  lemma PolynomialsFit()
    ensures Below32(POLY1) && Below32(POLY2)
  {
  }

  /** The macro computes the convolutions of the message history with the two polynomials. */
  lemma EncodeIsConvolution(bits: seq<bool>)
    ensures Encode(State(bits)) == Pair(Taps(POLY1, bits), Taps(POLY2, bits))
  {
    hide Masked, Taps, State, Below32;
    PolynomialsFit();
    MaskedIsTaps(POLY1, bits);
    MaskedIsTaps(POLY2, bits);
  }
}
