/** The ping system flags of internal/settings: one number per node, tested and changed with bit operations on the
    in-memory record (nodeConnectionDetails.go), and with remainders, sums and differences in SQL (database.go).
    The flag of Amboss is 1, that of Vector 2. */
module PingFlags {
  import opened Bits
  import opened Options
  import opened Statuses

  type byte = b: int | 0 <= b < 256 witness 0

  /** The argument doubled, in byte arithmetic. */
  function Modulus(p: byte): byte {
    p * 2 % 256
  }

  /** One flag, whose double is still a byte. */
  predicate SingleFlag(p: byte): (single: bool)
    ensures single ==> Modulus(p) != 0
  {
    p in {1, 2, 4, 8, 16, 32, 64}
  }

  // ------------------------------------------------------------------ the SQL statements

  /** The stored number tests as having the flag; undefined when the modulus is zero. */
  predicate TestsOn(v: nat, p: byte)
    requires Modulus(p) != 0
  {
    v % Modulus(p) >= p
  }

  /** The number a guarded update leaves: add when the test is off, subtract when it is on. */
  function Updated(v: nat, p: byte, on: bool): (r: int)
    requires Modulus(p) != 0
  {
    if on then (if !TestsOn(v, p) then v + p else v)
    else (if TestsOn(v, p) then v - p else v)
  }

  lemma UpdatedIsNatural(v: nat, p: byte, on: bool)
    requires Modulus(p) != 0
    ensures Updated(v, p, on) >= 0
  {
    if TestsOn(v, p) { RemainderIsAtMost(v, Modulus(p)); }
  }

  lemma RemainderIsAtMost(v: nat, m: nat)
    requires m > 0
    ensures v % m <= v
  {
    QuotientIsNatural(v, m);
    assert v == v / m * m + v % m;
    assert v / m * m >= 0;
  }

  // ------------------------------------------------------------------ single flags

  lemma FlagIsPower(p: byte) returns (n: nat)
    requires SingleFlag(p)
    ensures n <= 6 && p == Pow2(n) && Modulus(p) == 2 * p
  {
    assert Pow2(0) == 1 && Pow2(1) == 2 && Pow2(2) == 4 && Pow2(3) == 8;
    assert Pow2(4) == 16 && Pow2(5) == 32 && Pow2(6) == 64;
    n := if p == 1 then 0 else if p == 2 then 1 else if p == 4 then 2 else if p == 8 then 3
         else if p == 16 then 4 else if p == 32 then 5 else 6;
  }

  lemma {:induction false} RemainderTestsBit(v: nat, n: nat)
    ensures v % (2 * Pow2(n)) >= Pow2(n) <==> Bit(v, n)
    decreases n
  {
    if n > 0 {
      DoubledRemainder(v, Pow2(n));
      RemainderTestsBit(v / 2, n - 1);
    }
  }

  lemma OrDouble(v: nat, p: nat)
    requires v > 0
    ensures BitOr(v, 2 * p) == v % 2 + 2 * BitOr(v / 2, p)
  {
    assert 2 * p / 2 == p;
  }

  lemma {:induction false} OrAddsMissingBit(v: nat, n: nat)
    ensures BitOr(v, Pow2(n)) == if Bit(v, n) then v else v + Pow2(n)
    decreases n
  {
    if v == 0 {
      ZeroHasNoBits(n);
    } else if n == 0 {
      OrWithZero(v / 2);
    } else {
      OrDouble(v, Pow2(n - 1));
      OrAddsMissingBit(v / 2, n - 1);
    }
  }

  lemma ClearDouble(v: nat, p: nat)
    requires v > 0
    ensures BitClear(v, 2 * p) == v % 2 + 2 * BitClear(v / 2, p)
  {
    assert 2 * p / 2 == p;
  }

  lemma {:induction false} ClearSubtractsSetBit(v: nat, n: nat)
    ensures BitClear(v, Pow2(n)) == if Bit(v, n) then v - Pow2(n) else v
    decreases n
  {
    if v == 0 {
      ZeroHasNoBits(n);
    } else if n == 0 {
      ClearNothing(v / 2);
    } else {
      ClearDouble(v, Pow2(n - 1));
      ClearSubtractsSetBit(v / 2, n - 1);
    }
  }

  lemma {:induction false} ClearNothing(v: nat)
    ensures BitClear(v, 0) == v
  {
    if v > 0 { ClearNothing(v / 2); }
  }

  /** What the record's own methods make of the number. */
  function WithFlag(v: nat, p: nat, on: bool): nat {
    if on then BitOr(v, p) else BitClear(v, p)
  }

  lemma ArithmeticIsBitwise(v: nat, p: byte, on: bool)
    requires SingleFlag(p)
    ensures TestsOn(v, p) <==> BitAnd(v, p) != 0
    ensures Updated(v, p, on) == WithFlag(v, p, on)
  {
    var n := FlagIsPower(p);
    RemainderTestsBit(v, n);
    MaskTestsOneBit(v, n);
    OrAddsMissingBit(v, n);
    ClearSubtractsSetBit(v, n);
  }

  // ------------------------------------------------------------------ when the arithmetic is right

  /** The part of the argument that a number can hold without holding it all. */
  lemma {:induction false} ProperPart(p: nat) returns (v: nat)
    requires p > 0 && forall n: nat :: p != Pow2(n)
    ensures 0 < v < p && BitOr(v, p) == p
  {
    if p % 2 == 1 {
      assert Pow2(0) == 1;
      v := 1;
    } else {
      forall n: nat
        ensures p / 2 != Pow2(n)
      {
        assert Pow2(n + 1) == 2 * Pow2(n);
      }
      v := ProperPart(p / 2);
      v := 2 * v;
    }
  }

  lemma {:induction false} OrWithSelf(v: nat)
    ensures BitOr(v, v) == v
  {
    if v > 0 { OrWithSelf(v / 2); }
  }

  lemma {:induction false} PowerFrom7(n: nat)
    requires n >= 7
    ensures Pow2(n) >= 128
  {
    if n == 7 {
      assert Pow2(3) == 8 && Pow2(7) == 16 * Pow2(3);
    } else {
      PowerFrom7(n - 1);
    }
  }

  lemma PowersBelow128(p: byte, n: nat)
    requires p < 128 && p == Pow2(n)
    ensures SingleFlag(p)
  {
    if n >= 7 { PowerFrom7(n); }
    assert Pow2(2) == 4 && Pow2(4) == 16 && Pow2(6) == 64;
  }

  /** A guarded update is the bitwise one on every stored number exactly for a single flag of at most 64: it
      stops with a division by zero for 0 and 128, and misses what is partly or wholly there for the rest. */
  lemma UpdateIsBitwiseIff(p: byte, on: bool)
    ensures (Modulus(p) != 0 && forall v: nat :: Updated(v, p, on) == WithFlag(v, p, on)) <==> SingleFlag(p)
  {
    if SingleFlag(p) {
      var n := FlagIsPower(p);
      forall v: nat
        ensures Updated(v, p, on) == WithFlag(v, p, on)
      {
        ArithmeticIsBitwise(v, p, on);
      }
    } else if Modulus(p) != 0 {
      var v: nat;
      if p > 128 {
        v := MissedWhole(p);
      } else {
        v := MissedPart(p);
      }
      PartIsCleared(v, p);
      assert Updated(v, p, on) != WithFlag(v, p, on);
    }
  }

  lemma MissedWhole(p: byte) returns (v: nat)
    requires p > 128
    ensures v > 0 && BitOr(v, p) == p && !TestsOn(v, p)
  {
    assert Modulus(p) == 2 * p - 256 by { DivModUnique(2 * p, 256, 1, 2 * p - 256); }
    OrWithSelf(p);
    v := p;
  }

  lemma MissedPart(p: byte) returns (v: nat)
    requires 0 < p < 128 && !SingleFlag(p)
    ensures v > 0 && BitOr(v, p) == p && !TestsOn(v, p)
  {
    NotAPower(p);
    v := ProperPart(p);
    BelowTestsOff(v, p);
  }

  lemma NotAPower(p: byte)
    requires p < 128 && !SingleFlag(p)
    ensures forall n: nat :: p != Pow2(n)
  {
    forall n: nat
      ensures p != Pow2(n)
    {
      if p == Pow2(n) { PowersBelow128(p, n); }
    }
  }

  lemma BelowTestsOff(v: nat, p: byte)
    requires v < p < 128
    ensures !TestsOn(v, p)
  {
    DivModUnique(v, Modulus(p), 0, v);
  }

  lemma PartIsCleared(v: nat, p: nat)
    requires BitOr(v, p) == p
    ensures BitClear(v, p) == 0
  {
    forall i: nat
      ensures Bit(BitClear(v, p), i) <==> Bit(0, i)
    {
      BitOfOr(v, p, i);
      BitOfClear(v, p, i);
      ZeroHasNoBits(i);
    }
    SameBitsSameNumber(BitClear(v, p), 0);
  }

  /** The largest argument that the guard of a request lets through. */
  const PING_SYSTEM_MAX := 3

  /** A request's integer as the flag argument: its low byte. */
  function ToByte(i: int): byte {
    i % 256
  }

  /** The guard has no lower bound, so some accepted integer gives any byte, a single flag or not. */
  lemma EveryByteIsAccepted(p: byte) returns (i: int)
    ensures i <= 3 && i % 256 == p && i <= PING_SYSTEM_MAX && ToByte(i) == p
  {
    i := if p <= PING_SYSTEM_MAX then p else p - 256;
  }

  // ------------------------------------------------------------------ runs of changes

  datatype Change = Change(p: byte, on: bool)

  /** The stored number after guarded updates. */
  function After(v: nat, changes: seq<Change>): int
    requires forall c | c in changes :: Modulus(c.p) != 0
  {
    if changes == [] then v
    else
      var before, c := After(v, changes[..|changes| - 1]), changes[|changes| - 1];
      if before >= 0 then Updated(before, c.p, c.on) else before
  }

  predicate SingleFlags(changes: seq<Change>): (single: bool)
    ensures single ==> forall c | c in changes :: Modulus(c.p) != 0
  {
    forall c | c in changes :: SingleFlag(c.p)
  }

  /** Whether the flag was switched on last, or as it was at the start when no change names it. */
  predicate LastSet(p: byte, initially: bool, changes: seq<Change>) {
    if changes == [] then initially
    else
      var c := changes[|changes| - 1];
      if c.p == p then c.on else LastSet(p, initially, changes[..|changes| - 1])
  }

  /** After any run of single-flag updates, a single flag is set exactly when it was last switched on. */
  lemma {:induction false} LastChangeDecides(v: nat, changes: seq<Change>, p: byte)
    requires SingleFlag(p) && SingleFlags(changes)
    ensures After(v, changes) >= 0
    ensures BitAnd(After(v, changes), p) != 0 <==> LastSet(p, BitAnd(v, p) != 0, changes)
  {
    if changes != [] {
      var before, c := changes[..|changes| - 1], changes[|changes| - 1];
      LastChangeDecides(v, before, p);
      UpdatedIsNatural(After(v, before), c.p, c.on);
      ArithmeticIsBitwise(After(v, before), c.p, c.on);
      FlagAfterOne(After(v, before), c, p);
    }
  }

  lemma FlagAfterOne(v: nat, c: Change, p: byte)
    requires SingleFlag(p) && SingleFlag(c.p)
    ensures BitAnd(WithFlag(v, c.p, c.on), p) != 0 <==> if c.p == p then c.on else BitAnd(v, p) != 0
  {
    var n := FlagIsPower(p);
    var m := FlagIsPower(c.p);
    MaskTestsOneBit(v, n);
    MaskTestsOneBit(WithFlag(v, c.p, c.on), n);
    BitOfPow2(m, n);
    BitOfOr(v, c.p, n);
    BitOfClear(v, c.p, n);
  }

  // ------------------------------------------------------------------ the record

  class NodeConnectionDetails {
    var pingSystem: byte

    constructor (pingSystem: byte)
      ensures this.pingSystem == pingSystem
    {
      this.pingSystem := pingSystem;
    }

    method AddNotificationType(p: byte)
      modifies this
      ensures forall i: nat :: Bit(pingSystem, i) <==> Bit(old(pingSystem), i) || Bit(p, i)
      ensures SingleFlag(p) ==> pingSystem == Updated(old(pingSystem), p, true)
    {
      OrStaysBelow(pingSystem, p, 8);
      forall i: nat
        ensures Bit(BitOr(pingSystem, p), i) <==> Bit(pingSystem, i) || Bit(p, i)
      {
        BitOfOr(pingSystem, p, i);
      }
      if SingleFlag(p) { ArithmeticIsBitwise(pingSystem, p, true); }
      pingSystem := BitOr(pingSystem, p);
    }

    /** Of a single flag, what the query's modulo test says of the stored number. */
    predicate HasNotificationType(p: byte): (has: bool)
      reads this
      ensures SingleFlag(p) ==> (has <==> TestsOn(pingSystem, p))
    {
      assert SingleFlag(p) ==> (TestsOn(pingSystem, p) <==> BitAnd(pingSystem, p) != 0) by {
        if SingleFlag(p) { ArithmeticIsBitwise(pingSystem, p, true); }
      }
      BitAnd(pingSystem, p) != 0
    }

    /** The complement is taken within the byte. */
    method RemoveNotificationType(p: byte)
      modifies this
      ensures forall i: nat :: Bit(pingSystem, i) <==> Bit(old(pingSystem), i) && !Bit(p, i)
      ensures SingleFlag(p) ==> pingSystem == Updated(old(pingSystem), p, false)
    {
      AndComplementIsClear(pingSystem, p, 8);
      forall i: nat
        ensures Bit(BitClear(pingSystem, p), i) <==> Bit(pingSystem, i) && !Bit(p, i)
      {
        BitOfClear(pingSystem, p, i);
      }
      if SingleFlag(p) { ArithmeticIsBitwise(pingSystem, p, false); }
      pingSystem := BitAnd(pingSystem, 255 - p);
    }
  }

  lemma {:induction false} OrStaysBelow(a: nat, b: nat, n: nat)
    requires a < Pow2(n) && b < Pow2(n)
    ensures BitOr(a, b) < Pow2(n)
    decreases n
  {
    if n > 0 { OrStaysBelow(a / 2, b / 2, n - 1); }
  }

  /** Masking a number of n bits with the complement of another one clears its bits. */
  lemma {:induction false} AndComplementIsClear(a: nat, b: nat, n: nat)
    requires a < Pow2(n) && b < Pow2(n)
    ensures BitAnd(a, Pow2(n) - 1 - b) == BitClear(a, b) <= a
    decreases n
  {
    if n > 0 {
      var rest := Pow2(n) - 1 - b;
      assert rest / 2 == Pow2(n - 1) - 1 - b / 2 && rest % 2 == 1 - b % 2;
      AndComplementIsClear(a / 2, b / 2, n - 1);
    }
  }

  // ------------------------------------------------------------------ the table

  datatype Row = Row(status: Status, pingSystem: nat)

  datatype Execution = Affected(rows: nat) | DivisionByZero

  class NodeConnectionTable {
    var rows: map<int, Row>

    constructor (rows: map<int, Row>)
      ensures this.rows == rows
    {
      this.rows := rows;
    }

    /** One guarded UPDATE: it reaches the row of the node, if there is one, and changes it when its test allows. */
    method SetPingSystemStatus(nodeId: int, p: byte, status: Status) returns (r: Execution)
      modifies this
      ensures r.DivisionByZero? <==> nodeId in old(rows) && p in {0, 128}
      ensures nodeId !in old(rows) || r.DivisionByZero? ==> rows == old(rows)
      ensures nodeId in old(rows) && r.Affected? ==>
                var row := old(rows)[nodeId];
                && Updated(row.pingSystem, p, status == Active) >= 0
                && rows == old(rows)[nodeId := row.(pingSystem := Updated(row.pingSystem, p, status == Active))]
                && r.rows == (if rows == old(rows) then 0 else 1)
      ensures SingleFlag(p) ==>
                && r.Affected? && rows.Keys == old(rows).Keys
                && forall id | id in rows ::
                     rows[id].pingSystem == if id == nodeId then WithFlag(old(rows)[id].pingSystem, p, status == Active)
                                            else old(rows)[id].pingSystem
    {
      if nodeId !in rows {
        return Affected(0);
      }
      if Modulus(p) == 0 {
        return DivisionByZero;
      }
      var row := rows[nodeId];
      UpdatedIsNatural(row.pingSystem, p, status == Active);
      if SingleFlag(p) { ArithmeticIsBitwise(row.pingSystem, p, status == Active); }
      if status == Active {
        if row.pingSystem % Modulus(p) < p {
          rows := rows[nodeId := row.(pingSystem := row.pingSystem + p)];
          return Affected(1);
        }
      } else if row.pingSystem % Modulus(p) >= p {
        rows := rows[nodeId := row.(pingSystem := row.pingSystem - p)];
        return Affected(1);
      }
      r := Affected(0);
    }

    /** The nodes the query selects; no result when a row is divided by zero. */
    function GetPingSystemNodeIds(p: byte): (r: Option<set<int>>)
      reads this
      ensures r.None? <==> p in {0, 128} && exists id :: id in rows && rows[id].status == Active
      ensures SingleFlag(p) ==>
                && r.Some?
                && forall id :: id in r.value <==> id in rows && rows[id].status == Active && BitAnd(rows[id].pingSystem, p) != 0
    {
      if Modulus(p) == 0 then
        if exists id :: id in rows && rows[id].status == Active then None else Some({})
      else
        assert SingleFlag(p) ==> Tested(rows, p) == Flagged(rows, p) by {
          if SingleFlag(p) { TestedAreFlagged(rows, p); }
        }
        Some(Tested(rows, p))
    }
  }

  function Tested(rows: map<int, Row>, p: byte): set<int>
    requires Modulus(p) != 0
  {
    set id | id in rows && rows[id].status == Active && TestsOn(rows[id].pingSystem, p)
  }

  /** The active nodes whose record says the flag is there. */
  function Flagged(rows: map<int, Row>, p: byte): set<int> {
    set id | id in rows && rows[id].status == Active && BitAnd(rows[id].pingSystem, p) != 0
  }

  lemma TestedAreFlagged(rows: map<int, Row>, p: byte)
    requires SingleFlag(p)
    ensures Tested(rows, p) == Flagged(rows, p)
  {
    forall id | id in rows
      ensures TestsOn(rows[id].pingSystem, p) <==> BitAnd(rows[id].pingSystem, p) != 0
    {
      ArithmeticIsBitwise(rows[id].pingSystem, p, true);
    }
  }
}
