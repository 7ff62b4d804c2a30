/** Packing of frames into bytes and the parity bit of the pitch lag (utils.c, dtx.c, cng.c). */
module Bitstream {
  import opened FixedPoint

  const NB_PARAMETERS := 15

  // ---- Numbers and words

  function Join(w: bv16, odd: bool): bv16 {
    (w << 1) | (if odd then 1 else 0)
  }

  function Half(v: bv16): bv16 {
    v >> 1
  }

  predicate Odd(v: bv16) {
    v & 1 == 1
  }

  function Twice(v: bv16): bv16 {
    v << 1
  }

  predicate Below(v: bv16, w: bv16) {
    v < w
  }

  /** The n low binary digits of a number. */
  function Digits(x: int, n: nat): bv16
    decreases n
  {
    if n == 0 then 0 else Join(Digits(x / 2, n - 1), x % 2 == 1)
  }

  function Number(v: bv16, n: nat): (x: int)
    ensures x >= 0
    decreases n
  {
    if n == 0 then 0 else 2 * Number(Half(v), n - 1) + (if Odd(v) then 1 else 0)
  }

  /** The widest field has 13 bits. */
  const WIDEST := 13

  function Word(x: int): bv16 {
    Digits(x, WIDEST)
  }

  function Value(v: bv16): (x: int)
    ensures x >= 0
  {
    Number(v, WIDEST)
  }

  /** 2 to the n as a word. */
  function Limit(n: nat): bv16 {
    if n == 0 then 1 else Twice(Limit(n - 1))
  }

  lemma Limits()
    ensures Limit(0) == 1 && Limit(1) == 0x2 && Limit(2) == 0x4 && Limit(3) == 0x8 && Limit(4) == 0x10
            && Limit(5) == 0x20
    ensures Limit(6) == 0x40 && Limit(7) == 0x80 && Limit(8) == 0x100 && Limit(9) == 0x200 && Limit(10) == 0x400
    ensures Limit(11) == 0x800 && Limit(12) == 0x1000 && Limit(13) == 0x2000
  {
  }

  lemma LimitSmall(n: nat)
    requires n < WIDEST
    ensures Limit(n) <= 0x1000
  {
    Limits();
    hide Limit;
    assert n == 0 || n == 1 || n == 2 || n == 3 || n == 4 || n == 5 || n == 6 || n == 7 || n == 8 || n == 9 || n == 10
           || n == 11 || n == 12;
  }

  lemma JoinBelow(w: bv16, odd: bool, limit: bv16)
    requires Below(w, limit) && limit <= 0x1000
    ensures Below(Join(w, odd), Twice(limit)) && Half(Join(w, odd)) == w && (Odd(Join(w, odd)) <==> odd)
  {
  }

  lemma HalfBelow(v: bv16, limit: bv16)
    requires limit <= 0x1000 && Below(v, Twice(limit))
    ensures Below(Half(v), limit)
  {
  }

  lemma ZeroWord(odd: bool)
    ensures Below(0, 1) && (Join(0, odd) == 0 <==> !odd) && Half(0) == 0 && !Odd(0)
    ensures forall v :: Below(v, 1) ==> v == 0
  {
  }

  lemma {:induction false} DigitsBelow(x: int, n: nat, k: nat)
    requires k <= n <= WIDEST && 0 <= x < Pow2(k)
    ensures Below(Digits(x, n), Limit(k))
    decreases n
  {
    ZeroWord(x % 2 == 1);
    if n > 0 {
      if k == 0 {
        DigitsBelow(0, n - 1, 0);
        hide Join, Below, Half, Odd, Twice;
      } else {
        LimitSmall(k - 1);
        DigitsBelow(x / 2, n - 1, k - 1);
        JoinBelow(Digits(x / 2, n - 1), x % 2 == 1, Limit(k - 1));
        hide Join, Below, Half, Odd, Twice;
      }
    }
  }

  lemma {:induction false} NumberOfDigits(x: int, n: nat)
    requires n <= WIDEST && 0 <= x < Pow2(n)
    ensures Number(Digits(x, n), n) == x
    decreases n
  {
    if n > 0 {
      LimitSmall(n - 1);
      hide Join, Below, Half, Odd, Twice;
      NumberOfDigits(x / 2, n - 1);
      DigitsBelow(x / 2, n - 1, n - 1);
      JoinBelow(Digits(x / 2, n - 1), x % 2 == 1, Limit(n - 1));
    }
  }

  lemma {:induction false} NumberBelow(v: bv16, n: nat, k: nat)
    requires k <= n <= WIDEST && Below(v, Limit(k))
    ensures Number(v, n) < Pow2(k)
    decreases n
  {
    ZeroWord(false);
    hide Join, Below, Half, Odd, Twice;
    if n > 0 {
      if k == 0 {
        NumberBelow(0, n - 1, 0);
      } else {
        LimitSmall(k - 1);
        HalfBelow(v, Limit(k - 1));
        NumberBelow(Half(v), n - 1, k - 1);
      }
    }
  }

  /** A number of k bits survives its word. */
  lemma WordRoundTrip(x: int, k: nat)
    requires k <= WIDEST && 0 <= x < Pow2(k)
    ensures Word(x) < Limit(k) && Value(Word(x)) == x
  {
    Pow2Monotone(k, WIDEST);
    DigitsBelow(x, WIDEST, k);
    NumberOfDigits(x, WIDEST);
    hide Digits, Number, Limit;
  }

  lemma ValueBelow(v: bv16, k: nat)
    requires k <= WIDEST && v < Limit(k)
    ensures Value(v) < Pow2(k)
  {
    NumberBelow(v, WIDEST, k);
    hide Number, Limit;
  }

  lemma Widths()
    ensures Pow2(1) == 2 && Pow2(3) == 8 && Pow2(4) == 16 && Pow2(5) == 32 && Pow2(7) == 128 && Pow2(8) == 256
            && Pow2(13) == 0x2000
    ensures Limit(1) == 0x2 && Limit(3) == 0x8 && Limit(4) == 0x10 && Limit(5) == 0x20
    ensures Limit(7) == 0x80 && Limit(8) == 0x100 && Limit(13) == 0x2000
  {
  }

  /** The same for the field widths in use. */
  lemma FieldValue(v: bv16)
    ensures v < 0x2 ==> Value(v) < 2
    ensures v < 0x8 ==> Value(v) < 8
    ensures v < 0x10 ==> Value(v) < 16
    ensures v < 0x20 ==> Value(v) < 32
    ensures v < 0x80 ==> Value(v) < 128
    ensures v < 0x100 ==> Value(v) < 256
    ensures v < 0x2000 ==> Value(v) < 0x2000
  {
    Widths();
    hide Limit, Pow2, Value;
    if v < 0x2 { ValueBelow(v, 1); }
    if v < 0x8 { ValueBelow(v, 3); }
    if v < 0x10 { ValueBelow(v, 4); }
    if v < 0x20 { ValueBelow(v, 5); }
    if v < 0x80 { ValueBelow(v, 7); }
    if v < 0x100 { ValueBelow(v, 8); }
    if v < 0x2000 { ValueBelow(v, 13); }
  }

  lemma FieldWord(x: int)
    requires 0 <= x < 0x2000
    ensures Value(Word(x)) == x
    ensures x < 2 ==> Word(x) < 0x2
    ensures x < 8 ==> Word(x) < 0x8
    ensures x < 16 ==> Word(x) < 0x10
    ensures x < 32 ==> Word(x) < 0x20
    ensures x < 128 ==> Word(x) < 0x80
    ensures x < 256 ==> Word(x) < 0x100
    ensures Word(x) < 0x2000
  {
    Widths();
    hide Limit, Pow2, Value, Word;
    WordRoundTrip(x, 13);
    if x < 2 { WordRoundTrip(x, 1); }
    if x < 8 { WordRoundTrip(x, 3); }
    if x < 16 { WordRoundTrip(x, 4); }
    if x < 32 { WordRoundTrip(x, 5); }
    if x < 128 { WordRoundTrip(x, 7); }
    if x < 256 { WordRoundTrip(x, 8); }
  }

  // ---- Active frames

  predicate StageInFields(l0: bv16, l1: bv16, l2: bv16, l3: bv16) {
    l0 < 0x2 && l1 < 0x80 && l2 < 0x20 && l3 < 0x20
  }

  predicate PitchInFields(p1: bv16, p0: bv16, c1: bv16) {
    p1 < 0x100 && p0 < 0x2 && c1 < 0x2000
  }

  predicate FirstInFields(s1: bv16, ga1: bv16, gb1: bv16, p2: bv16) {
    s1 < 0x10 && ga1 < 0x8 && gb1 < 0x10 && p2 < 0x20
  }

  predicate SecondInFields(c2: bv16, s2: bv16, ga2: bv16, gb2: bv16) {
    c2 < 0x2000 && s2 < 0x10 && ga2 < 0x8 && gb2 < 0x10
  }

  /** L0, L1, L2, L3, P1, P0, C1, S1, GA1, GB1, P2, C2, S2, GA2, GB2 of Table 8 fit their fields. */
  predicate InFields(p: seq<bv16>) {
    && |p| == NB_PARAMETERS
    && StageInFields(p[0], p[1], p[2], p[3])
    && PitchInFields(p[4], p[5], p[6])
    && FirstInFields(p[7], p[8], p[9], p[10])
    && SecondInFields(p[11], p[12], p[13], p[14])
  }

  // The ten bytes of an active frame, each from the fields it carries.

  function ByteL0L1(l0: bv16, l1: bv16): bv8 {
    (((l0 & 0x1) << 7) | (l1 & 0x7f)) as bv8
  }

  function ByteL2L3(l2: bv16, l3: bv16): bv8 {
    (((l2 & 0x1f) << 3) | ((l3 >> 2) & 0x7)) as bv8
  }

  function ByteL3P1(l3: bv16, p1: bv16): bv8 {
    (((l3 & 0x3) << 6) | ((p1 >> 2) & 0x3f)) as bv8
  }

  function ByteP1P0C1(p1: bv16, p0: bv16, c1: bv16): bv8 {
    (((p1 & 0x3) << 6) | ((p0 & 0x1) << 5) | ((c1 >> 8) & 0x1f)) as bv8
  }

  function ByteC1(c1: bv16): bv8 {
    (c1 & 0xff) as bv8
  }

  function ByteS1GA1GB1(s1: bv16, ga1: bv16, gb1: bv16): bv8 {
    (((s1 & 0xf) << 4) | ((ga1 & 0x7) << 1) | ((gb1 >> 3) & 0x1)) as bv8
  }

  function ByteGB1P2(gb1: bv16, p2: bv16): bv8 {
    (((gb1 & 0x7) << 5) | (p2 & 0x1f)) as bv8
  }

  function ByteC2(c2: bv16): bv8 {
    ((c2 >> 5) & 0xff) as bv8
  }

  function ByteC2S2(c2: bv16, s2: bv16): bv8 {
    (((c2 & 0x1f) << 3) | ((s2 >> 1) & 0x7)) as bv8
  }

  function ByteS2GA2GB2(s2: bv16, ga2: bv16, gb2: bv16): bv8 {
    (((s2 & 0x1) << 7) | ((ga2 & 0x7) << 4) | (gb2 & 0xf)) as bv8
  }

  // The fifteen fields, each from the bytes that carry it.

  function FieldL0(x: bv8): bv16 {
    ((x as bv16) >> 7) & 0x1
  }

  function FieldL1(x: bv8): bv16 {
    (x as bv16) & 0x7f
  }

  function FieldL2(x: bv8): bv16 {
    ((x as bv16) >> 3) & 0x1f
  }

  function FieldL3(x: bv8, y: bv8): bv16 {
    (((x as bv16) & 0x7) << 2) | (((y as bv16) >> 6) & 0x3)
  }

  function FieldP1(x: bv8, y: bv8): bv16 {
    (((x as bv16) & 0x3f) << 2) | (((y as bv16) >> 6) & 0x3)
  }

  function FieldP0(x: bv8): bv16 {
    ((x as bv16) >> 5) & 0x1
  }

  function FieldC1(x: bv8, y: bv8): bv16 {
    (((x as bv16) & 0x1f) << 8) | (y as bv16)
  }

  function FieldS1(x: bv8): bv16 {
    ((x as bv16) >> 4) & 0xf
  }

  function FieldGA1(x: bv8): bv16 {
    ((x as bv16) >> 1) & 0x7
  }

  function FieldGB1(x: bv8, y: bv8): bv16 {
    (((x as bv16) & 0x1) << 3) | (((y as bv16) >> 5) & 0x7)
  }

  function FieldP2(x: bv8): bv16 {
    (x as bv16) & 0x1f
  }

  function FieldC2(x: bv8, y: bv8): bv16 {
    ((x as bv16) << 5) | (((y as bv16) >> 3) & 0x1f)
  }

  function FieldS2(x: bv8, y: bv8): bv16 {
    (((x as bv16) & 0x7) << 1) | (((y as bv16) >> 7) & 0x1)
  }

  function FieldGA2(x: bv8): bv16 {
    ((x as bv16) >> 4) & 0x7
  }

  function FieldGB2(x: bv8): bv16 {
    (x as bv16) & 0xf
  }

  function Packed(p: seq<bv16>): (b: seq<bv8>)
    requires |p| == NB_PARAMETERS
    ensures |b| == 10
  {
    [ByteL0L1(p[0], p[1]),
     ByteL2L3(p[2], p[3]),
     ByteL3P1(p[3], p[4]),
     ByteP1P0C1(p[4], p[5], p[6]),
     ByteC1(p[6]),
     ByteS1GA1GB1(p[7], p[8], p[9]),
     ByteGB1P2(p[9], p[10]),
     ByteC2(p[11]),
     ByteC2S2(p[11], p[12]),
     ByteS2GA2GB2(p[12], p[13], p[14])]
  }

  function Unpacked(b: seq<bv8>): (p: seq<bv16>)
    requires |b| == 10
    ensures |p| == NB_PARAMETERS
  {
    [FieldL0(b[0]), FieldL1(b[0]), FieldL2(b[1]), FieldL3(b[1], b[2]), FieldP1(b[2], b[3]),
     FieldP0(b[3]), FieldC1(b[3], b[4]), FieldS1(b[5]), FieldGA1(b[5]), FieldGB1(b[5], b[6]),
     FieldP2(b[6]), FieldC2(b[7], b[8]), FieldS2(b[8], b[9]), FieldGA2(b[9]), FieldGB2(b[9])]
  }

  lemma FieldL0Kept(l0: bv16, l1: bv16)
    requires l0 < 0x2
    ensures FieldL0(ByteL0L1(l0, l1)) == l0
  {
  }

  lemma FieldL1Kept(l0: bv16, l1: bv16)
    requires l1 < 0x80
    ensures FieldL1(ByteL0L1(l0, l1)) == l1
  {
  }

  lemma FieldL2Kept(l2: bv16, l3: bv16)
    requires l2 < 0x20
    ensures FieldL2(ByteL2L3(l2, l3)) == l2
  {
  }

  lemma FieldL3Kept(l2: bv16, l3: bv16, p1: bv16)
    requires l3 < 0x20
    ensures FieldL3(ByteL2L3(l2, l3), ByteL3P1(l3, p1)) == l3
  {
  }

  lemma FieldP1Kept(l3: bv16, p1: bv16, p0: bv16, c1: bv16)
    requires p1 < 0x100
    ensures FieldP1(ByteL3P1(l3, p1), ByteP1P0C1(p1, p0, c1)) == p1
  {
  }

  lemma FieldP0Kept(p1: bv16, p0: bv16, c1: bv16)
    requires p0 < 0x2
    ensures FieldP0(ByteP1P0C1(p1, p0, c1)) == p0
  {
  }

  lemma FieldC1Kept(p1: bv16, p0: bv16, c1: bv16)
    requires c1 < 0x2000
    ensures FieldC1(ByteP1P0C1(p1, p0, c1), ByteC1(c1)) == c1
  {
  }

  lemma FieldS1Kept(s1: bv16, ga1: bv16, gb1: bv16)
    requires s1 < 0x10
    ensures FieldS1(ByteS1GA1GB1(s1, ga1, gb1)) == s1
  {
  }

  lemma FieldGA1Kept(s1: bv16, ga1: bv16, gb1: bv16)
    requires ga1 < 0x8
    ensures FieldGA1(ByteS1GA1GB1(s1, ga1, gb1)) == ga1
  {
  }

  lemma FieldGB1Kept(s1: bv16, ga1: bv16, gb1: bv16, p2: bv16)
    requires gb1 < 0x10
    ensures FieldGB1(ByteS1GA1GB1(s1, ga1, gb1), ByteGB1P2(gb1, p2)) == gb1
  {
  }

  lemma FieldP2Kept(gb1: bv16, p2: bv16)
    requires p2 < 0x20
    ensures FieldP2(ByteGB1P2(gb1, p2)) == p2
  {
  }

  lemma FieldC2Kept(c2: bv16, s2: bv16)
    requires c2 < 0x2000
    ensures FieldC2(ByteC2(c2), ByteC2S2(c2, s2)) == c2
  {
  }

  lemma FieldS2Kept(c2: bv16, s2: bv16, ga2: bv16, gb2: bv16)
    requires s2 < 0x10
    ensures FieldS2(ByteC2S2(c2, s2), ByteS2GA2GB2(s2, ga2, gb2)) == s2
  {
  }

  lemma FieldGA2Kept(s2: bv16, ga2: bv16, gb2: bv16)
    requires ga2 < 0x8
    ensures FieldGA2(ByteS2GA2GB2(s2, ga2, gb2)) == ga2
  {
  }

  lemma FieldGB2Kept(s2: bv16, ga2: bv16, gb2: bv16)
    requires gb2 < 0x10
    ensures FieldGB2(ByteS2GA2GB2(s2, ga2, gb2)) == gb2
  {
  }

  /** Every field survives the 80 bits. */
  lemma PackRoundTrip(p: seq<bv16>)
    requires InFields(p)
    ensures Unpacked(Packed(p)) == p
  {
    hide ByteL0L1, ByteL2L3, ByteL3P1, ByteP1P0C1, ByteC1, ByteS1GA1GB1, ByteGB1P2, ByteC2, ByteC2S2, ByteS2GA2GB2;
    hide FieldL0, FieldL1, FieldL2, FieldL3, FieldP1, FieldP0, FieldC1, FieldS1, FieldGA1, FieldGB1, FieldP2, FieldC2;
    hide FieldS2, FieldGA2, FieldGB2;
    FieldL0Kept(p[0], p[1]);
    FieldL1Kept(p[0], p[1]);
    FieldL2Kept(p[2], p[3]);
    FieldL3Kept(p[2], p[3], p[4]);
    FieldP1Kept(p[3], p[4], p[5], p[6]);
    FieldP0Kept(p[4], p[5], p[6]);
    FieldC1Kept(p[4], p[5], p[6]);
    FieldS1Kept(p[7], p[8], p[9]);
    FieldGA1Kept(p[7], p[8], p[9]);
    FieldGB1Kept(p[7], p[8], p[9], p[10]);
    FieldP2Kept(p[9], p[10]);
    FieldC2Kept(p[11], p[12]);
    FieldS2Kept(p[11], p[12], p[13], p[14]);
    FieldGA2Kept(p[12], p[13], p[14]);
    FieldGB2Kept(p[12], p[13], p[14]);
  }

  lemma ByteL0L1Kept(b0: bv8)
    ensures ByteL0L1(FieldL0(b0), FieldL1(b0)) == b0
  {
  }

  lemma ByteL2L3Kept(b1: bv8, b2: bv8)
    ensures ByteL2L3(FieldL2(b1), FieldL3(b1, b2)) == b1
  {
  }

  lemma ByteL3P1Kept(b1: bv8, b2: bv8, b3: bv8)
    ensures ByteL3P1(FieldL3(b1, b2), FieldP1(b2, b3)) == b2
  {
  }

  lemma ByteP1P0C1Kept(b2: bv8, b3: bv8, b4: bv8)
    ensures ByteP1P0C1(FieldP1(b2, b3), FieldP0(b3), FieldC1(b3, b4)) == b3
  {
  }

  lemma ByteC1Kept(b3: bv8, b4: bv8)
    ensures ByteC1(FieldC1(b3, b4)) == b4
  {
  }

  lemma ByteS1GA1GB1Kept(b5: bv8, b6: bv8)
    ensures ByteS1GA1GB1(FieldS1(b5), FieldGA1(b5), FieldGB1(b5, b6)) == b5
  {
  }

  lemma ByteGB1P2Kept(b5: bv8, b6: bv8)
    ensures ByteGB1P2(FieldGB1(b5, b6), FieldP2(b6)) == b6
  {
  }

  lemma ByteC2Kept(b7: bv8, b8: bv8)
    ensures ByteC2(FieldC2(b7, b8)) == b7
  {
  }

  lemma ByteC2S2Kept(b7: bv8, b8: bv8, b9: bv8)
    ensures ByteC2S2(FieldC2(b7, b8), FieldS2(b8, b9)) == b8
  {
  }

  lemma ByteS2GA2GB2Kept(b8: bv8, b9: bv8)
    ensures ByteS2GA2GB2(FieldS2(b8, b9), FieldGA2(b9), FieldGB2(b9)) == b9
  {
  }

  lemma UnpackedFit(b: seq<bv8>)
    requires |b| == 10
    ensures InFields(Unpacked(b))
  {
  }

  /** And no bit of a received frame is ignored: ten bytes are fields and nothing else. */
  lemma UnpackRoundTrip(b: seq<bv8>)
    requires |b| == 10
    ensures InFields(Unpacked(b)) && Packed(Unpacked(b)) == b
  {
    hide ByteL0L1, ByteL2L3, ByteL3P1, ByteP1P0C1, ByteC1, ByteS1GA1GB1, ByteGB1P2, ByteC2, ByteC2S2, ByteS2GA2GB2;
    hide FieldL0, FieldL1, FieldL2, FieldL3, FieldP1, FieldP0, FieldC1, FieldS1, FieldGA1, FieldGB1, FieldP2, FieldC2;
    hide FieldS2, FieldGA2, FieldGB2;
    ByteL0L1Kept(b[0]);
    ByteL2L3Kept(b[1], b[2]);
    ByteL3P1Kept(b[1], b[2], b[3]);
    ByteP1P0C1Kept(b[2], b[3], b[4]);
    ByteC1Kept(b[3], b[4]);
    ByteS1GA1GB1Kept(b[5], b[6]);
    ByteGB1P2Kept(b[5], b[6]);
    ByteC2Kept(b[7], b[8]);
    ByteC2S2Kept(b[7], b[8], b[9]);
    ByteS2GA2GB2Kept(b[8], b[9]);
    UnpackedFit(b);
  }

  // ---- The layout of Table 8

  function FieldNumber(v: bv16): int {
    v as int
  }

  function ByteNumber(b: bv8): int {
    b as int
  }

  /** Bytes as one number, in the order in which they are sent. */
  function BigEndian(b: seq<bv8>): int {
    if |b| == 0 then 0 else 256 * BigEndian(b[..|b| - 1]) + ByteNumber(b[|b| - 1])
  }

  function Numbers(p: seq<bv16>): (n: seq<int>)
    ensures |n| == |p|
  {
    seq(|p|, i requires 0 <= i < |p| => FieldNumber(p[i]))
  }

  /** The 80 bits of a frame: L0 first, then L1, L2, L3, P1, P0, C1, S1, GA1, GB1, P2, C2, S2, GA2 and GB2 in 7, 5,
      5, 8, 1, 13, 4, 3, 4, 5, 13, 4, 3 and 4 bits. */
  function FrameNumber(n: seq<int>): int
    requires |n| == NB_PARAMETERS
  {
    n[0] * 0x80000000000000000000 + n[1] * 0x1000000000000000000 + n[2] * 0x80000000000000000
    + n[3] * 0x4000000000000000 + n[4] * 0x40000000000000 + n[5] * 0x20000000000000 + n[6] * 0x10000000000
    + n[7] * 0x1000000000 + n[8] * 0x200000000 + n[9] * 0x20000000 + n[10] * 0x1000000 + n[11] * 0x800 + n[12] * 0x80
    + n[13] * 0x10 + n[14]
  }

  // A field that lies in two bytes, split.

  lemma SplitAt1(v: bv16)
    requires v < 0x10
    ensures FieldNumber(v) == 2 * FieldNumber(v >> 1) + FieldNumber(v & 0x1)
  {
  }

  lemma SplitAt2(v: bv16)
    requires v < 0x100
    ensures FieldNumber(v) == 4 * FieldNumber(v >> 2) + FieldNumber(v & 0x3)
  {
  }

  lemma SplitAt3(v: bv16)
    requires v < 0x10
    ensures FieldNumber(v) == 8 * FieldNumber(v >> 3) + FieldNumber(v & 0x7)
  {
  }

  lemma SplitAt5(v: bv16)
    requires v < 0x2000
    ensures FieldNumber(v) == 0x20 * FieldNumber(v >> 5) + FieldNumber(v & 0x1f)
  {
  }

  lemma SplitAt8(v: bv16)
    requires v < 0x2000
    ensures FieldNumber(v) == 0x100 * FieldNumber(v >> 8) + FieldNumber(v & 0xff)
  {
  }

  // The bytes as numbers.

  lemma NumberL0L1(l0: bv16, l1: bv16)
    requires l0 < 0x2 && l1 < 0x80
    ensures ByteNumber(ByteL0L1(l0, l1)) == 0x80 * FieldNumber(l0) + FieldNumber(l1)
  {
  }

  lemma NumberL2L3(l2: bv16, l3: bv16)
    requires l2 < 0x20 && l3 < 0x20
    ensures ByteNumber(ByteL2L3(l2, l3)) == 8 * FieldNumber(l2) + FieldNumber(l3 >> 2)
  {
  }

  lemma NumberL3P1(l3: bv16, p1: bv16)
    requires l3 < 0x20 && p1 < 0x100
    ensures ByteNumber(ByteL3P1(l3, p1)) == 0x40 * FieldNumber(l3 & 0x3) + FieldNumber(p1 >> 2)
  {
  }

  lemma NumberP1P0C1(p1: bv16, p0: bv16, c1: bv16)
    requires p1 < 0x100 && p0 < 0x2 && c1 < 0x2000
    ensures ByteNumber(ByteP1P0C1(p1, p0, c1))
         == 0x40 * FieldNumber(p1 & 0x3) + 0x20 * FieldNumber(p0) + FieldNumber(c1 >> 8)
  {
  }

  lemma NumberC1(c1: bv16)
    ensures ByteNumber(ByteC1(c1)) == FieldNumber(c1 & 0xff)
  {
  }

  lemma NumberS1GA1GB1(s1: bv16, ga1: bv16, gb1: bv16)
    requires s1 < 0x10 && ga1 < 0x8 && gb1 < 0x10
    ensures ByteNumber(ByteS1GA1GB1(s1, ga1, gb1))
         == 0x10 * FieldNumber(s1) + 2 * FieldNumber(ga1) + FieldNumber(gb1 >> 3)
  {
  }

  lemma NumberGB1P2(gb1: bv16, p2: bv16)
    requires gb1 < 0x10 && p2 < 0x20
    ensures ByteNumber(ByteGB1P2(gb1, p2)) == 0x20 * FieldNumber(gb1 & 0x7) + FieldNumber(p2)
  {
  }

  lemma NumberC2(c2: bv16)
    requires c2 < 0x2000
    ensures ByteNumber(ByteC2(c2)) == FieldNumber(c2 >> 5)
  {
  }

  lemma NumberC2S2(c2: bv16, s2: bv16)
    requires c2 < 0x2000 && s2 < 0x10
    ensures ByteNumber(ByteC2S2(c2, s2)) == 8 * FieldNumber(c2 & 0x1f) + FieldNumber(s2 >> 1)
  {
  }

  lemma NumberS2GA2GB2(s2: bv16, ga2: bv16, gb2: bv16)
    requires s2 < 0x10 && ga2 < 0x8 && gb2 < 0x10
    ensures ByteNumber(ByteS2GA2GB2(s2, ga2, gb2))
         == 0x80 * FieldNumber(s2 & 0x1) + 0x10 * FieldNumber(ga2) + FieldNumber(gb2)
  {
  }

  /** Ten bytes written out. */
  lemma TenBytes(b: seq<bv8>)
    requires |b| == 10
    ensures BigEndian(b) == ByteNumber(b[0]) * 0x1000000000000000000 + ByteNumber(b[1]) * 0x10000000000000000
            + ByteNumber(b[2]) * 0x100000000000000 + ByteNumber(b[3]) * 0x1000000000000
            + ByteNumber(b[4]) * 0x10000000000 + ByteNumber(b[5]) * 0x100000000 + ByteNumber(b[6]) * 0x1000000
            + ByteNumber(b[7]) * 0x10000 + ByteNumber(b[8]) * 0x100 + ByteNumber(b[9])
  {
    hide ByteNumber;
    forall k | 0 <= k < 10
      ensures BigEndian(b[..k + 1]) == 256 * BigEndian(b[..k]) + ByteNumber(b[k])
    {
      assert b[..k + 1][..k] == b[..k];
    }
    assert BigEndian(b[..0]) == 0 && b[..10] == b;
    assert BigEndian(b[..1]) == 256 * BigEndian(b[..0]) + ByteNumber(b[0]);
    assert BigEndian(b[..2]) == 256 * BigEndian(b[..1]) + ByteNumber(b[1]);
    assert BigEndian(b[..3]) == 256 * BigEndian(b[..2]) + ByteNumber(b[2]);
    assert BigEndian(b[..4]) == 256 * BigEndian(b[..3]) + ByteNumber(b[3]);
    assert BigEndian(b[..5]) == 256 * BigEndian(b[..4]) + ByteNumber(b[4]);
    assert BigEndian(b[..6]) == 256 * BigEndian(b[..5]) + ByteNumber(b[5]);
    assert BigEndian(b[..7]) == 256 * BigEndian(b[..6]) + ByteNumber(b[6]);
    assert BigEndian(b[..8]) == 256 * BigEndian(b[..7]) + ByteNumber(b[7]);
    assert BigEndian(b[..9]) == 256 * BigEndian(b[..8]) + ByteNumber(b[8]);
    assert BigEndian(b[..10]) == 256 * BigEndian(b[..9]) + ByteNumber(b[9]);
  }

  lemma FirstFive(l0: bv16, l1: bv16, l2: bv16, l3: bv16, p1: bv16, p0: bv16, c1: bv16)
    requires StageInFields(l0, l1, l2, l3) && PitchInFields(p1, p0, c1)
    ensures ByteNumber(ByteL0L1(l0, l1)) * 0x100000000 + ByteNumber(ByteL2L3(l2, l3)) * 0x1000000
            + ByteNumber(ByteL3P1(l3, p1)) * 0x10000 + ByteNumber(ByteP1P0C1(p1, p0, c1)) * 0x100
            + ByteNumber(ByteC1(c1))
         == FieldNumber(l0) * 0x8000000000 + FieldNumber(l1) * 0x100000000 + FieldNumber(l2) * 0x8000000
            + FieldNumber(l3) * 0x400000 + FieldNumber(p1) * 0x4000 + FieldNumber(p0) * 0x2000 + FieldNumber(c1)
  {
    hide FieldNumber, ByteNumber, ByteL0L1, ByteL2L3, ByteL3P1, ByteP1P0C1, ByteC1;
    SplitAt2(l3);
    SplitAt2(p1);
    SplitAt8(c1);
    NumberL0L1(l0, l1);
    NumberL2L3(l2, l3);
    NumberL3P1(l3, p1);
    NumberP1P0C1(p1, p0, c1);
    NumberC1(c1);
  }

  lemma LastFive(s1: bv16, ga1: bv16, gb1: bv16, p2: bv16, c2: bv16, s2: bv16, ga2: bv16, gb2: bv16)
    requires FirstInFields(s1, ga1, gb1, p2) && SecondInFields(c2, s2, ga2, gb2)
    ensures ByteNumber(ByteS1GA1GB1(s1, ga1, gb1)) * 0x100000000 + ByteNumber(ByteGB1P2(gb1, p2)) * 0x1000000
            + ByteNumber(ByteC2(c2)) * 0x10000 + ByteNumber(ByteC2S2(c2, s2)) * 0x100
            + ByteNumber(ByteS2GA2GB2(s2, ga2, gb2))
         == FieldNumber(s1) * 0x1000000000 + FieldNumber(ga1) * 0x200000000 + FieldNumber(gb1) * 0x20000000
            + FieldNumber(p2) * 0x1000000 + FieldNumber(c2) * 0x800 + FieldNumber(s2) * 0x80
            + FieldNumber(ga2) * 0x10 + FieldNumber(gb2)
  {
    hide FieldNumber, ByteNumber, ByteS1GA1GB1, ByteGB1P2, ByteC2, ByteC2S2, ByteS2GA2GB2;
    SplitAt3(gb1);
    SplitAt5(c2);
    SplitAt1(s2);
    NumberS1GA1GB1(s1, ga1, gb1);
    NumberGB1P2(gb1, p2);
    NumberC2(c2);
    NumberC2S2(c2, s2);
    NumberS2GA2GB2(s2, ga2, gb2);
  }

  /** A packed frame is the number of its fields. */
  lemma PackedIsFrameNumber(p: seq<bv16>)
    requires InFields(p)
    ensures BigEndian(Packed(p)) == FrameNumber(Numbers(p))
  {
    hide ByteL0L1, ByteL2L3, ByteL3P1, ByteP1P0C1, ByteC1, ByteS1GA1GB1, ByteGB1P2, ByteC2, ByteC2S2, ByteS2GA2GB2;
    hide FieldNumber, ByteNumber, BigEndian, StageInFields, PitchInFields, FirstInFields, SecondInFields;
    FirstFive(p[0], p[1], p[2], p[3], p[4], p[5], p[6]);
    LastFive(p[7], p[8], p[9], p[10], p[11], p[12], p[13], p[14]);
    TenBytes(Packed(p));
  }

  lemma PackedIfInFields(p: seq<bv16>, b: seq<bv8>)
    requires |p| == NB_PARAMETERS && b == Packed(p)
    ensures InFields(p) ==> BigEndian(b) == FrameNumber(Numbers(p))
  {
    hide InFields, BigEndian, FrameNumber, Numbers, Packed;
    if InFields(p) {
      PackedIsFrameNumber(p);
    }
  }

  /** A received frame is the number of the fields that are read from it. */
  lemma UnpackedIsFrameNumber(b: seq<bv8>)
    requires |b| == 10
    ensures FrameNumber(Numbers(Unpacked(b))) == BigEndian(b)
  {
    hide BigEndian, FrameNumber, Packed, Unpacked, InFields;
    UnpackRoundTrip(b);
    PackedIsFrameNumber(Unpacked(b));
  }

  method ParametersArray2BitStream(parameters: array<bv16>, bitStream: array<bv8>)
    requires parameters.Length == NB_PARAMETERS && bitStream.Length == 10
    modifies bitStream
    ensures bitStream[..] == Packed(parameters[..])
    ensures InFields(parameters[..]) ==> BigEndian(bitStream[..]) == FrameNumber(Numbers(parameters[..]))
  {
    hide BigEndian, FrameNumber, Numbers, InFields;
    hide ByteL0L1, ByteL2L3, ByteL3P1, ByteP1P0C1, ByteC1, ByteS1GA1GB1, ByteGB1P2, ByteC2, ByteC2S2, ByteS2GA2GB2;
    bitStream[0] := ByteL0L1(parameters[0], parameters[1]);
    bitStream[1] := ByteL2L3(parameters[2], parameters[3]);
    bitStream[2] := ByteL3P1(parameters[3], parameters[4]);
    bitStream[3] := ByteP1P0C1(parameters[4], parameters[5], parameters[6]);
    bitStream[4] := ByteC1(parameters[6]);
    bitStream[5] := ByteS1GA1GB1(parameters[7], parameters[8], parameters[9]);
    bitStream[6] := ByteGB1P2(parameters[9], parameters[10]);
    bitStream[7] := ByteC2(parameters[11]);
    bitStream[8] := ByteC2S2(parameters[11], parameters[12]);
    bitStream[9] := ByteS2GA2GB2(parameters[12], parameters[13], parameters[14]);
    PackedIfInFields(parameters[..], bitStream[..]);
  }

  method ParametersBitStream2Array(bitStream: array<bv8>, parameters: array<bv16>)
    requires parameters.Length == NB_PARAMETERS && bitStream.Length == 10
    modifies parameters
    ensures parameters[..] == Unpacked(bitStream[..])
    ensures InFields(parameters[..]) && FrameNumber(Numbers(parameters[..])) == BigEndian(bitStream[..])
  {
    hide Unpacked, BigEndian, FrameNumber, Numbers, InFields;
    hide FieldL0, FieldL1, FieldL2, FieldL3, FieldP1, FieldP0, FieldC1, FieldS1, FieldGA1, FieldGB1, FieldP2, FieldC2;
    hide FieldS2, FieldGA2, FieldGB2;
    ghost var b := bitStream[..];
    parameters[0] := FieldL0(bitStream[0]);
    parameters[1] := FieldL1(bitStream[0]);
    parameters[2] := FieldL2(bitStream[1]);
    parameters[3] := FieldL3(bitStream[1], bitStream[2]);
    parameters[4] := FieldP1(bitStream[2], bitStream[3]);
    parameters[5] := FieldP0(bitStream[3]);
    parameters[6] := FieldC1(bitStream[3], bitStream[4]);
    parameters[7] := FieldS1(bitStream[5]);
    parameters[8] := FieldGA1(bitStream[5]);
    parameters[9] := FieldGB1(bitStream[5], bitStream[6]);
    parameters[10] := FieldP2(bitStream[6]);
    parameters[11] := FieldC2(bitStream[7], bitStream[8]);
    parameters[12] := FieldS2(bitStream[8], bitStream[9]);
    parameters[13] := FieldGA2(bitStream[9]);
    parameters[14] := FieldGB2(bitStream[9]);
    ElementsOfUnpacked(b, parameters[..]);
    UnpackRoundTrip(b);
    UnpackedIsFrameNumber(b);
  }

  lemma ElementsOfUnpacked(b: seq<bv8>, p: seq<bv16>)
    requires |b| == 10 && |p| == NB_PARAMETERS
    requires p[0] == FieldL0(b[0]) && p[1] == FieldL1(b[0]) && p[2] == FieldL2(b[1]) && p[3] == FieldL3(b[1], b[2])
             && p[4] == FieldP1(b[2], b[3])
    requires p[5] == FieldP0(b[3]) && p[6] == FieldC1(b[3], b[4]) && p[7] == FieldS1(b[5]) && p[8] == FieldGA1(b[5])
             && p[9] == FieldGB1(b[5], b[6])
    requires p[10] == FieldP2(b[6]) && p[11] == FieldC2(b[7], b[8]) && p[12] == FieldS2(b[8], b[9])
             && p[13] == FieldGA2(b[9]) && p[14] == FieldGB2(b[9])
    ensures p == Unpacked(b)
  {
    hide FieldL0, FieldL1, FieldL2, FieldL3, FieldP1, FieldP0, FieldC1, FieldS1, FieldGA1, FieldGB1, FieldP2, FieldC2;
    hide FieldS2, FieldGA2, FieldGB2;
  }

  // ---- Parity

  /** Exclusive or of the n low bits into parity. */
  function Folded(parity: bv16, bits: bv16, n: nat): bv16
    decreases n
  {
    if n == 0 then parity else Folded(parity ^ (bits & 1), bits >> 1, n - 1)
  }

  function Parity(index: bv16): bv16 {
    Folded(1, index >> 2, 6)
  }

  method ComputeParity(adaptativeCodebookIndex: bv16) returns (parity: bv16)
    ensures parity == Parity(adaptativeCodebookIndex)
  {
    parity := 1;
    var bits := adaptativeCodebookIndex >> 2;
    var i := 0;
    while i < 6
      invariant 0 <= i <= 6 && Folded(parity, bits, 6 - i) == Parity(adaptativeCodebookIndex)
    {
      parity := parity ^ (bits & 1);
      bits := bits >> 1;
      i := i + 1;
    }
  }

  /** Number of ones among the n low bits. */
  function Weight(d: bv16, n: nat): nat
    decreases n
  {
    if n == 0 then 0 else (if d & 1 == 1 then 1 else 0) + Weight(d >> 1, n - 1)
  }

  predicate Bit(x: bv16) {
    x == 0 || x == 1
  }

  lemma {:induction false} FoldedDiffer(p: bv16, q: bv16, a: bv16, b: bv16, n: nat)
    requires Bit(p) && Bit(q)
    ensures Bit(Folded(p, a, n)) && Bit(Folded(q, b, n))
    ensures Folded(p, a, n) == Folded(q, b, n) <==> (Weight(a ^ b, n) % 2 == 0 <==> p == q)
    decreases n
  {
    if n > 0 {
      assert (a ^ b) >> 1 == (a >> 1) ^ (b >> 1);
      LowBits(p, q, a, b);
      FoldedDiffer(p ^ (a & 1), q ^ (b & 1), a >> 1, b >> 1, n - 1);
    }
  }

  lemma LowBits(p: bv16, q: bv16, a: bv16, b: bv16)
    requires Bit(p) && Bit(q)
    ensures Bit(p ^ (a & 1)) && Bit(q ^ (b & 1))
    ensures p ^ (a & 1) == q ^ (b & 1) <==> ((a ^ b) & 1 != 1 <==> p == q)
  {
  }

  /** The parity bit makes the number of ones among the six high bits of the lag code and itself odd. */
  lemma ParityMakesOdd(index: bv16)
    ensures Bit(Parity(index)) && (Weight(index >> 2, 6) + (if Parity(index) == 1 then 1 else 0)) % 2 == 1
  {
    hide Folded, Bit;
    OneIsBit();
    NothingFolded();
    FoldedDiffer(1, 1, index >> 2, 0, 6);
    assert (index >> 2) ^ 0 == index >> 2;
  }

  lemma NothingFolded()
    ensures Folded(1, 0, 6) == 1
  {
  }

  /** How many of the six protected bits differ. */
  function Hits(sent: bv16, received: bv16): nat {
    Weight((sent >> 2) ^ (received >> 2), 6)
  }

  /** The decoder's parity test. */
  predicate ParityFails(index: bv16, parityBit: bv16) {
    (Parity(index) ^ parityBit) != 0
  }

  lemma ParityTest(index: bv16, parityBit: bv16)
    ensures ParityFails(index, parityBit) <==> Parity(index) != parityBit
  {
    hide Parity;
    Difference(Parity(index), parityBit);
  }

  lemma Difference(x: bv16, y: bv16)
    ensures x ^ y != 0 <==> x != y
  {
  }

  lemma OneIsBit()
    ensures Bit(1)
  {
  }

  lemma SameParity(sent: bv16, received: bv16)
    ensures Bit(Parity(sent)) && Bit(Parity(received))
            && (Parity(sent) == Parity(received) <==> Hits(sent, received) % 2 == 0)
  {
    hide Folded, Weight, Bit;
    OneIsBit();
    var a, b := sent >> 2, received >> 2;
    FoldedDiffer(1, 1, a, b, 6);
    assert Parity(sent) == Folded(1, a, 6) && Parity(received) == Folded(1, b, 6);
    assert Hits(sent, received) == Weight(a ^ b, 6);
    hide Parity, Hits;
  }

  lemma ThreeBits(x: bv16, y: bv16, b: bv16)
    requires Bit(x) && Bit(y) && Bit(b)
    ensures x != b <==> ((y == x) <==> b != y)
  {
  }

  /** The decoder sees a parity error exactly when an odd number of the six protected bits and the parity bit itself
      were hit. */
  lemma ParityErrorIffOdd(sent: bv16, received: bv16, parityBit: bv16)
    requires Bit(parityBit)
    ensures ParityFails(received, parityBit)
            <==> (Hits(sent, received) + (if parityBit == Parity(sent) then 0 else 1)) % 2 == 1
  {
    hide Parity, Hits, ParityFails, Bit;
    SameParity(sent, received);
    ParityTest(received, parityBit);
    ThreeBits(Parity(received), Parity(sent), parityBit);
  }

  // ---- SID frames

  function SidHead(l0: bv16, l1: bv16, l2High: bv16): bv8 {
    (((l0 & 0x1) << 7) | ((l1 & 0x1f) << 2) | (l2High & 0x3)) as bv8
  }

  function SidTail(l2: bv16, gain: bv16): bv8 {
    (((l2 & 0x3) << 6) | ((gain & 0x1f) << 1)) as bv8
  }

  /** Upper half of L2 as encodeSIDFrame computes it: reduced modulo 3, not masked. */
  function UpperHalf(l2: bv16): (h: bv16)
    ensures h < 3
  {
    (l2 >> 2) % 3
  }

  function SidPacked(l0: bv16, l1: bv16, l2: bv16, gain: bv16): (b: seq<bv8>)
    ensures |b| == 2
  {
    [SidHead(l0, l1, UpperHalf(l2)), SidTail(l2, gain)]
  }

  datatype SidFrame = SidFrame(l0: bv16, l1: bv16, l2: bv16, gain: bv16)

  function SidL2(x: bv8, y: bv8): bv16 {
    (((x as bv16) & 0x3) << 2) | (((y as bv16) >> 6) & 0x3)
  }

  function SidUnpacked(b: seq<bv8>): SidFrame
    requires |b| == 2
  {
    SidFrame(((b[0] as bv16) >> 7) & 0x1, ((b[0] as bv16) >> 2) & 0x1f, SidL2(b[0], b[1]), ((b[1] as bv16) >> 1) & 0x1f)
  }

  lemma SidUnpackedFit(b: seq<bv8>)
    requires |b| == 2
    ensures var s := SidUnpacked(b);
            s.l0 < 0x2 && s.l1 < 0x20 && s.l2 < 0x10 && s.gain < 0x20
  {
  }

  /** L0, L1 and the gain always survive; L2 does exactly when it is below 12. */
  lemma SidRoundTrip(l0: bv16, l1: bv16, l2: bv16, gain: bv16)
    requires l0 < 0x2 && l1 < 0x20 && l2 < 0x10 && gain < 0x20
    ensures var s := SidUnpacked(SidPacked(l0, l1, l2, gain));
            s.l0 == l0 && s.l1 == l1 && s.gain == gain && (s.l2 == l2 <==> l2 < 12) && (l2 >= 12 ==> s.l2 == l2 - 12)
  {
  }

  /** CNGparametersArray2BitStream masks instead, and loses nothing. */
  function CngPacked(l0: bv16, l1: bv16, l2: bv16, gain: bv16): (b: seq<bv8>)
    ensures |b| == 2
  {
    [SidHead(l0, l1, (l2 >> 2) & 0x3), SidTail(l2, gain)]
  }

  lemma CngRoundTrip(l0: bv16, l1: bv16, l2: bv16, gain: bv16)
    requires l0 < 0x2 && l1 < 0x20 && l2 < 0x10 && gain < 0x20
    ensures SidUnpacked(CngPacked(l0, l1, l2, gain)) == SidFrame(l0, l1, l2, gain)
  {
  }

  // ---- The layout of a SID frame

  lemma NumberSidHead(l0: bv16, l1: bv16, l2High: bv16)
    requires l0 < 0x2 && l1 < 0x20 && l2High < 0x4
    ensures ByteNumber(SidHead(l0, l1, l2High)) == 0x80 * FieldNumber(l0) + 4 * FieldNumber(l1) + FieldNumber(l2High)
  {
  }

  lemma NumberSidTail(l2: bv16, gain: bv16)
    requires l2 < 0x10 && gain < 0x20
    ensures ByteNumber(SidTail(l2, gain)) == 0x40 * FieldNumber(l2 & 0x3) + 2 * FieldNumber(gain)
  {
  }

  /** The two halves of L2 as they are sent: 12 less from 12 on. */
  lemma NumberOfHalves(l2: bv16)
    requires l2 < 0x10
    ensures 4 * FieldNumber(UpperHalf(l2)) + FieldNumber(l2 & 0x3)
         == if l2 < 12 then FieldNumber(l2) else FieldNumber(l2) - 12
  {
  }

  /** The 16 bits of a SID frame: L0, L1, L2 and the gain in 1, 5, 4 and 5 bits, and one bit that is not used. */
  function SidNumber(l0: int, l1: int, l2: int, gain: int): int {
    l0 * 0x8000 + l1 * 0x400 + l2 * 0x40 + gain * 2
  }

  lemma TwoBytes(b: seq<bv8>)
    requires |b| == 2
    ensures BigEndian(b) == 0x100 * ByteNumber(b[0]) + ByteNumber(b[1])
  {
    hide ByteNumber;
    assert BigEndian(b[..1]) == 256 * BigEndian(b[..0]) + ByteNumber(b[0]);
    assert b[..1][..0] == b[..0];
  }

  /** A SID frame is the number of its fields, L2 as it is sent. */
  lemma PackedIsSidNumber(l0: bv16, l1: bv16, l2: bv16, gain: bv16)
    requires l0 < 0x2 && l1 < 0x20 && l2 < 0x10 && gain < 0x20
    ensures BigEndian(SidPacked(l0, l1, l2, gain))
         == SidNumber(FieldNumber(l0), FieldNumber(l1),
                      if l2 < 12 then FieldNumber(l2) else FieldNumber(l2) - 12, FieldNumber(gain))
  {
    hide FieldNumber, ByteNumber, SidHead, SidTail, UpperHalf, BigEndian;
    NumberSidHead(l0, l1, UpperHalf(l2));
    NumberSidTail(l2, gain);
    NumberOfHalves(l2);
    TwoBytes(SidPacked(l0, l1, l2, gain));
  }

  /** The fields read from two bytes are their number, but for the last bit. */
  lemma UnpackedIsSidNumber(b: seq<bv8>)
    requires |b| == 2
    ensures var s := SidUnpacked(b);
            var n := SidNumber(FieldNumber(s.l0), FieldNumber(s.l1), FieldNumber(s.l2), FieldNumber(s.gain));
            n <= BigEndian(b) <= n + 1
  {
    hide FieldNumber, ByteNumber, BigEndian, SidL2;
    TwoBytes(b);
    ReadHead(b[0]);
    ReadTail(b[1]);
    ReadL2(b[0], b[1]);
  }

  lemma ReadHead(x: bv8)
    ensures ByteNumber(x) == 0x80 * FieldNumber(((x as bv16) >> 7) & 0x1) + 4 * FieldNumber(((x as bv16) >> 2) & 0x1f)
                             + FieldNumber((x as bv16) & 0x3)
  {
  }

  lemma ReadTail(y: bv8)
    ensures var n := 0x40 * FieldNumber(((y as bv16) >> 6) & 0x3) + 2 * FieldNumber(((y as bv16) >> 1) & 0x1f);
            n <= ByteNumber(y) <= n + 1
  {
  }

  lemma ReadL2(x: bv8, y: bv8)
    ensures FieldNumber(SidL2(x, y)) == 4 * FieldNumber((x as bv16) & 0x3) + FieldNumber(((y as bv16) >> 6) & 0x3)
  {
  }

  /** The digits of a field are its number. */
  lemma {:induction false} DigitsAreNumber(v: bv16, n: nat)
    requires n <= WIDEST && Below(v, Limit(n)) && v < 0x2000
    ensures Number(v, n) == FieldNumber(v)
  {
    ZeroWord(false);
    if n > 0 {
      LimitSmall(n - 1);
      HalfBelow(v, Limit(n - 1));
      LastDigit(v);
      DigitsAreNumber(Half(v), n - 1);
      hide Half, Odd, Below, Twice, FieldNumber;
    } else {
      assert v == 0;
    }
  }

  lemma LastDigit(v: bv16)
    requires v < 0x2000
    ensures Half(v) < 0x2000
    ensures FieldNumber(v) == 2 * FieldNumber(Half(v)) + if Odd(v) then 1 else 0
  {
  }

  lemma ValueIsNumber(v: bv16)
    requires v < 0x2000
    ensures Value(v) == FieldNumber(v)
  {
    Limits();
    hide Limit, Number, FieldNumber;
    DigitsAreNumber(v, WIDEST);
  }
}
