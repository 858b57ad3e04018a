/** The identifier codecs of pkg/commons/functions.go: short channel ids, as defined in BOLT #7, section
    "Definition of short_channel_id" (3 bytes block height, 3 bytes transaction index, 2 bytes output index),
    and channel points. */
module ShortChannelIds {
  import opened Options
  import opened Bits
  import opened Decimals

  const UINT64 := 0x1_0000_0000_0000_0000
  const UINT32 := 0x1_0000_0000
  const UINT24 := 0x100_0000
  const UINT16 := 0x1_0000

  /** A Go int converted to uint64: two's complement wrap-around. */
  function ToUint64(i: int): nat {
    i % UINT64
  }

  function ShiftLeft(u: nat, n: nat): nat {
    u * Pow2(n) % UINT64
  }

  function ShiftRight(u: nat, n: nat): nat {
    QuotientIsNatural(u, Pow2(n));
    u / Pow2(n)
  }

  function ConvertLNDShortChannelID(lndShortChannelId: nat): string
    requires lndShortChannelId < UINT64
  {
    var blockHeight := ShiftRight(lndShortChannelId, 40) % UINT32;
    var txIndex := BitAnd(ShiftRight(lndShortChannelId, 16) % UINT32, 0xFFFFFF);
    var outputIndex := lndShortChannelId % UINT16;
    Canonical(blockHeight, txIndex, outputIndex)
  }

  /** The three decimal numbers with an x between them. */
  function Canonical(blockHeight: nat, txIndex: nat, outputIndex: nat): string {
    FormatNat(blockHeight) + "x" + FormatNat(txIndex) + "x" + FormatNat(outputIndex)
  }

  /** A conversion error, or the run-time panic of an index past the end of the split string. */
  datatype Parsed = Parsed(id: nat) | NotANumber | IndexOutOfRange

  function ConvertShortChannelIDToLND(shortChannelId: string): Parsed {
    var parts := Split(shortChannelId, 'x');
    match Atoi(parts[0])
    case None => NotANumber
    case Some(blockHeight) =>
      if |parts| < 2 then IndexOutOfRange
      else match Atoi(parts[1])
        case None => NotANumber
        case Some(txIndex) =>
          if |parts| < 3 then IndexOutOfRange
          else match Atoi(parts[2])
            case None => NotANumber
            case Some(txPosition) =>
              Parsed(Combine(blockHeight, txIndex, txPosition))
  }

  function Combine(blockHeight: int, txIndex: int, txPosition: int): nat {
    BitOr(BitOr(ShiftLeft(ToUint64(blockHeight), 40), ShiftLeft(ToUint64(txIndex), 16)), ToUint64(txPosition))
  }

  predicate InRange(blockHeight: nat, txIndex: nat, outputIndex: nat): (fits: bool)
    ensures fits <==> blockHeight < 0x100_0000 && txIndex < 0x100_0000 && outputIndex < 0x1_0000
  {
    blockHeight < UINT24 && txIndex < UINT24 && outputIndex < UINT16
  }

  /** The 8 bytes of BOLT #7 read as one big-endian number. */
  function Pack(blockHeight: nat, txIndex: nat, outputIndex: nat): nat {
    blockHeight * 0x100_0000_0000 + txIndex * UINT16 + outputIndex
  }

  lemma PowersOfTwo()
    ensures Pow2(16) == UINT16 && Pow2(24) == UINT24 && Pow2(40) == 0x100_0000_0000
  {
    assert Pow2(4) == 16 by {
      assert Pow2(2) == 4;
      Pow2Sum(2, 2);
    }
    Pow2Sum(4, 4);
    Pow2Sum(8, 8);
    Pow2Sum(16, 8);
    Pow2Sum(24, 16);
  }

  lemma PartsOfPacked(h: nat, t: nat, o: nat)
    requires InRange(h, t, o)
    ensures Pack(h, t, o) / 0x100_0000_0000 == h
    ensures Pack(h, t, o) / UINT16 % UINT32 % UINT24 == t
    ensures Pack(h, t, o) % UINT16 == o
  {
    var id := Pack(h, t, o);
    DivModUnique(id, 0x100_0000_0000, h, t * UINT16 + o);
    var upper := h * UINT24 + t;
    DivModUnique(id, UINT16, upper, o);
    var top, rest := h / 256, h - h / 256 * 256;
    DivModUnique(upper, UINT32, top, rest * UINT24 + t);
    DivModUnique(rest * UINT24 + t, UINT24, rest, t);
  }

  lemma PartsRead(h: nat, t: nat, o: nat, id: nat)
    requires InRange(h, t, o) && id == Pack(h, t, o)
    ensures ShiftRight(id, 40) % UINT32 == h && BitAnd(ShiftRight(id, 16) % UINT32, 0xFFFFFF) == t && id % UINT16 == o
  {
    ShiftsDivide(id);
    PartsOfPacked(h, t, o);
    LowMaskOf24(ShiftRight(id, 16) % UINT32);
    SmallMod32(h);
  }

  lemma SmallMod32(h: nat)
    requires h < UINT32
    ensures h % UINT32 == h
  {
  }

  lemma PrintParts(h: nat, t: nat, o: nat, id: nat)
    requires id < UINT64
    requires ShiftRight(id, 40) % UINT32 == h && BitAnd(ShiftRight(id, 16) % UINT32, 0xFFFFFF) == t && id % UINT16 == o
    ensures ConvertLNDShortChannelID(id) == Canonical(h, t, o)
  {
  }

  /** Printing an id built from in-range parts prints exactly those parts. */
  lemma PrintPacked(h: nat, t: nat, o: nat)
    requires InRange(h, t, o)
    ensures Pack(h, t, o) < UINT64 && ConvertLNDShortChannelID(Pack(h, t, o)) == Canonical(h, t, o)
    ensures Pack(h, t, o) == h * 0x100_0000_0000 + t * 0x1_0000 + o < 0x1_0000_0000_0000_0000
    ensures Canonical(h, t, o) == FormatNat(h) + "x" + FormatNat(t) + "x" + FormatNat(o)
  {
    PartsRead(h, t, o, Pack(h, t, o));
    PrintParts(h, t, o, Pack(h, t, o));
  }

  lemma ShiftsDivide(u: nat)
    ensures ShiftRight(u, 40) == u / 0x100_0000_0000 && ShiftRight(u, 16) == u / UINT16
  {
    PowersOfTwo();
  }

  lemma LowMaskOf24(u: nat)
    ensures BitAnd(u, 0xFFFFFF) == u % UINT24
  {
    PowersOfTwo();
    AndLowMask(u, 24);
  }

  lemma UnpackId(id: nat) returns (h: nat, t: nat, o: nat)
    requires id < UINT64
    ensures InRange(h, t, o) && Pack(h, t, o) == id
  {
    h := id / 0x100_0000_0000;
    var rest := id - h * 0x100_0000_0000;
    t := rest / UINT16;
    o := rest - t * UINT16;
  }

  lemma ShiftFits(u: nat, n: nat, p: nat)
    requires p == Pow2(n) && u * p < UINT64
    ensures ShiftLeft(u, n) == u * p
  {
  }

  /** Shifting and or-ing in-range parts packs them. */
  lemma ShiftsPack(h: nat, t: nat, o: nat)
    requires InRange(h, t, o)
    ensures BitOr(BitOr(ShiftLeft(h, 40), ShiftLeft(t, 16)), o) == Pack(h, t, o)
  {
    PowersOfTwo();
    ShiftFits(h, 40, 0x100_0000_0000);
    ShiftFits(t, 16, UINT16);
    OrOfParts(h * 0x100_0000_0000, t * UINT16, o, h, h * UINT24 + t);
  }

  lemma OrOfParts(high: nat, middle: nat, low: nat, h: nat, upper: nat)
    requires high == h * 0x100_0000_0000 && high + middle == upper * UINT16
    requires middle < 0x100_0000_0000 && low < UINT16
    ensures BitOr(BitOr(high, middle), low) == high + middle + low
  {
    PowersOfTwo();
    OrOfDisjointIsSum(h, middle, 40);
    OrOfDisjointIsSum(upper, low, 16);
  }

  lemma SmallIsItself(i: nat)
    requires i < UINT64
    ensures ToUint64(i) == i
  {
  }

  lemma CombinePacks(h: nat, t: nat, o: nat)
    requires InRange(h, t, o)
    ensures Combine(h, t, o) == Pack(h, t, o)
  {
    SmallIsItself(h);
    SmallIsItself(t);
    SmallIsItself(o);
    ShiftsPack(h, t, o);
  }

  lemma SplitCanonical(h: nat, t: nat, o: nat)
    ensures Split(Canonical(h, t, o), 'x') == [FormatNat(h), FormatNat(t), FormatNat(o)]
  {
    var hs, ts, os := FormatNat(h), FormatNat(t), FormatNat(o);
    SplitAtFirst(hs, 'x', ts + "x" + os);
    SplitAtFirst(ts, 'x', os);
    SplitWithout(os, 'x');
    assert Canonical(h, t, o) == hs + ['x'] + (ts + "x" + os);
    assert ts + "x" + os == ts + ['x'] + os;
  }

  /** Parsing the printed parts gives the id they pack to. */
  lemma ParseCanonical(h: nat, t: nat, o: nat)
    requires InRange(h, t, o)
    ensures ConvertShortChannelIDToLND(Canonical(h, t, o)) == Parsed(Pack(h, t, o))
  {
    SplitCanonical(h, t, o);
    AtoiOfFormat(h);
    AtoiOfFormat(t);
    AtoiOfFormat(o);
    CombinePacks(h, t, o);
  }

  /** Every 64-bit id is recovered from its printed form. */
  lemma PrintThenParse(id: nat)
    requires id < UINT64
    ensures ConvertShortChannelIDToLND(ConvertLNDShortChannelID(id)) == Parsed(id)
  {
    var h, t, o := UnpackId(id);
    PrintPacked(h, t, o);
    ParseCanonical(h, t, o);
  }

  /** No two ids are printed alike. */
  lemma PrintIsInjective(a: nat, b: nat)
    requires a < UINT64 && b < UINT64 && ConvertLNDShortChannelID(a) == ConvertLNDShortChannelID(b)
    ensures a == b
  {
    PrintThenParse(a);
    PrintThenParse(b);
  }

  /** A string survives parsing and printing exactly when it is the canonical form of in-range parts:
      leading zeros, signs, extra parts and oversized numbers do not. */
  lemma ParseThenPrintIff(s: string)
    ensures (match ConvertShortChannelIDToLND(s)
             case Parsed(id) => id < UINT64 && ConvertLNDShortChannelID(id) == s
             case _ => false)
            <==> exists h, t, o :: InRange(h, t, o) && s == Canonical(h, t, o)
  {
    if h, t, o :| InRange(h, t, o) && s == Canonical(h, t, o) {
      ParseCanonical(h, t, o);
      PrintPacked(h, t, o);
    }
    match ConvertShortChannelIDToLND(s)
    case Parsed(id) =>
      if id < UINT64 && ConvertLNDShortChannelID(id) == s {
        var h, t, o := UnpackId(id);
        PrintPacked(h, t, o);
      }
    case _ =>
  }

  lemma PanicsByParts(s: string)
    ensures var parts := Split(s, 'x');
            ConvertShortChannelIDToLND(s).IndexOutOfRange?
            <==> |parts| <= 2 && Atoi(parts[0]).Some? && (|parts| == 2 ==> Atoi(parts[1]).Some?)
  {
  }

  /** Two numbers with one separator between them. */
  predicate TwoNumbers(s: string, a: string, b: string) {
    s == a + ['x'] + b && 'x' !in a && 'x' !in b && Atoi(a).Some? && Atoi(b).Some?
  }

  lemma TwoNumbersAreParts(s: string, a: string, b: string)
    requires TwoNumbers(s, a, b)
    ensures Split(s, 'x') == [a, b]
  {
    SplitAtFirst(a, 'x', b);
    SplitWithout(b, 'x');
  }

  /** The parser runs past the end of the split string exactly for a number without a separator, and for two
      numbers with one between them. */
  lemma ParserPanicsIff(s: string)
    ensures ConvertShortChannelIDToLND(s).IndexOutOfRange?
            <==> ('x' !in s && Atoi(s).Some?) || exists a, b :: TwoNumbers(s, a, b)
  {
    PanicsByParts(s);
    if a, b :| TwoNumbers(s, a, b) {
      TwoNumbersAreParts(s, a, b);
    }
    if 'x' !in s {
      SplitWithout(s, 'x');
    } else {
      SplitWith(s, 'x');
      var parts := Split(s, 'x');
      if |parts| == 2 {
        SplitInTwo(s, 'x');
        assert TwoNumbers(s, parts[0], parts[1]) <==> Atoi(parts[0]).Some? && Atoi(parts[1]).Some?;
      }
    }
  }

  // ------------------------------------------------------------------ channel points

  function CreateChannelPoint(fundingTransactionHash: string, fundingOutputIndex: int): string {
    fundingTransactionHash + ":" + FormatInt(fundingOutputIndex)
  }

  function ParseChannelPoint(channelPoint: string): (string, int) {
    var parts := Split(channelPoint, ':');
    if channelPoint != "" && ':' in channelPoint && |parts| == 2 then
      match Atoi(parts[1])
      case Some(outputIndex) => (parts[0], outputIndex)
      case None => ("", 0)
    else ("", 0)
  }

  /** A created channel point parses back exactly when the hash has no colon. */
  lemma ChannelPointRoundTripIff(hash: string, index: int)
    requires MIN_INT64 <= index <= MAX_INT64
    ensures ParseChannelPoint(CreateChannelPoint(hash, index)) == (hash, index) <==> ':' !in hash
  {
    var s := FormatInt(index);
    FormatIntAvoids(index, ':');
    if ':' !in hash {
      SplitAtFirst(hash, ':', s);
      SplitWithout(s, ':');
      AtoiOfFormat(index);
      assert CreateChannelPoint(hash, index) == hash + [':'] + s;
      assert CreateChannelPoint(hash, index)[|hash|] == ':';
    } else {
      ColonInHashSplitsTwice(hash, s);
    }
  }

  lemma {:induction false} ColonInHashSplitsTwice(hash: string, s: string)
    requires ':' in hash
    ensures |Split(hash + ":" + s, ':')| >= 3
  {
    var cp := hash + ":" + s;
    if hash[0] == ':' {
      assert cp[1..] == hash[1..] + ":" + s;
      assert cp[1..][|hash| - 1] == ':';
      SplitWith(cp[1..], ':');
    } else {
      ColonInHashSplitsTwice(hash[1..], s);
      assert cp[1..] == hash[1..] + ":" + s;
    }
  }

  lemma LastColon(hash: string, a: string, otherHash: string, b: string)
    requires hash + ":" + a == otherHash + ":" + b
    ensures |hash| > |otherHash| ==> ':' in b
  {
    var cp := hash + ":" + a;
    if |hash| > |otherHash| {
      assert cp[|hash|] == ':' && cp[|hash|] == b[|hash| - |otherHash| - 1];
    }
  }

  /** Channel points never collide, whatever the hashes: the last colon separates the index. */
  lemma ChannelPointIsInjective(hash: string, index: int, otherHash: string, otherIndex: int)
    requires CreateChannelPoint(hash, index) == CreateChannelPoint(otherHash, otherIndex)
    ensures hash == otherHash && index == otherIndex
  {
    var a, b := FormatInt(index), FormatInt(otherIndex);
    FormatIntAvoids(index, ':');
    FormatIntAvoids(otherIndex, ':');
    LastColon(hash, a, otherHash, b);
    LastColon(otherHash, b, hash, a);
    var cp := CreateChannelPoint(hash, index);
    assert hash == cp[..|hash|] && otherHash == cp[..|hash|];
    assert a == cp[|hash| + 1..] && b == cp[|hash| + 1..];
    FormatIntInjective(index, otherIndex);
  }
}
