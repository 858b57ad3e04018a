/** The corridor matcher of internal/corridors/corridor.go.

    Corridors are filed in buckets by a 7-bit specificity mask; a lookup scans the buckets from the highest
    mask down and each bucket in an unspecified (map) order. The reference definition is a statement
    about the rule list alone: the most specific rule in force that matches the key. */
module Corridors {
  import opened Options
  import opened Bits

  datatype CorridorType = CorridorType(corridorTypeId: int, typeLabel: string, defaultFlag: int)

  const CATEGORY := CorridorType(0, "category", 0)
  const TAG := CorridorType(1, "tag", 0)

  /** The seven optional restrictions of a corridor, lowest ranked first. */
  datatype Field = FromCategory | FromTag | FromNode | ToCategory | ToTag | ToNode | Channel
  {
    function Rank(): (r: nat)
      ensures r <= 6
    {
      match this
      case FromCategory => 0
      case FromTag => 1
      case FromNode => 2
      case ToCategory => 3
      case ToTag => 4
      case ToNode => 5
      case Channel => 6
    }
  }

  datatype CorridorKey = CorridorKey(
    corridorType: CorridorType, inverse: bool, referenceId: int,
    fromCategoryId: int, fromTagId: int, fromNodeId: int, channelId: int,
    toCategoryId: int, toTagId: int, toNodeId: int)
  {
    function Field(f: Field): int {
      match f
      case FromCategory => fromCategoryId
      case FromTag => fromTagId
      case FromNode => fromNodeId
      case ToCategory => toCategoryId
      case ToTag => toTagId
      case ToNode => toNodeId
      case Channel => channelId
    }
  }

  datatype Corridor = Corridor(
    corridorId: int, corridorTypeId: int, referenceId: Option<int>, flag: int, inverse: bool,
    fromCategoryId: Option<int>, fromTagId: Option<int>, fromNodeId: Option<int>, channelId: Option<int>,
    toCategoryId: Option<int>, toTagId: Option<int>, toNodeId: Option<int>)
  {
    function Field(f: Field): Option<int> {
      match f
      case FromCategory => fromCategoryId
      case FromTag => fromTagId
      case FromNode => fromNodeId
      case ToCategory => toCategoryId
      case ToTag => toTagId
      case ToNode => toNodeId
      case Channel => channelId
    }

    /** A restriction counts only when it is present and not zero. */
    predicate Populated(f: Field) {
      Field(f).Some? && Field(f).value != 0
    }
  }

  function GetCorridorTypeFromId(corridorTypeId: int): Option<CorridorType> {
    if corridorTypeId == CATEGORY.corridorTypeId then Some(CATEGORY)
    else if corridorTypeId == TAG.corridorTypeId then Some(TAG)
    else None
  }

  function ConstructKey(c: Corridor): CorridorKey {
    match GetCorridorTypeFromId(c.corridorTypeId)
    case None => CorridorKey(CorridorType(0, "", 0), false, 0, 0, 0, 0, 0, 0, 0, 0)
    case Some(t) =>
      CorridorKey(t, c.inverse, c.referenceId.GetOr(0),
                  c.fromCategoryId.GetOr(0), c.fromTagId.GetOr(0), c.fromNodeId.GetOr(0), c.channelId.GetOr(0),
                  c.toCategoryId.GetOr(0), c.toTagId.GetOr(0), c.toNodeId.GetOr(0))
  }

  function GetPriority(f: Field): nat {
    Pow2(f.Rank())
  }

  function FieldPriority(c: Corridor, f: Field): nat {
    if c.Populated(f) then GetPriority(f) else 0
  }

  function CalculatePriority(c: Corridor): nat {
    FieldPriority(c, FromCategory) + FieldPriority(c, FromTag) + FieldPriority(c, FromNode)
    + FieldPriority(c, ToCategory) + FieldPriority(c, ToTag) + FieldPriority(c, ToNode)
    + FieldPriority(c, Channel)
  }

  predicate HasPriority(f: Field, priority: nat) {
    BitAnd(priority, GetPriority(f)) == GetPriority(f)
  }

  predicate FieldAgrees(f: Field, key: CorridorKey, priority: nat, otherKey: CorridorKey) {
    HasPriority(f, priority) ==> otherKey.Field(f) == key.Field(f)
  }

  predicate Equals(key: CorridorKey, priority: nat, otherKey: CorridorKey) {
    && FieldAgrees(FromCategory, key, priority, otherKey)
    && FieldAgrees(FromTag, key, priority, otherKey)
    && FieldAgrees(FromNode, key, priority, otherKey)
    && FieldAgrees(ToCategory, key, priority, otherKey)
    && FieldAgrees(ToTag, key, priority, otherKey)
    && FieldAgrees(ToNode, key, priority, otherKey)
    && FieldAgrees(Channel, key, priority, otherKey)
  }

  /** The two types of rule, both off where no rule says otherwise. */
  lemma TypesAreOffByDefault(c: Corridor)
    ensures KnownType(c) <==> c.corridorTypeId == 0 || c.corridorTypeId == 1
    ensures CATEGORY.corridorTypeId == 0 && TAG.corridorTypeId == 1 && CATEGORY.defaultFlag == TAG.defaultFlag == 0
  {
  }

  // ------------------------------------------------------------------ the mask

  function Indicator(b: bool): nat {
    if b then 1 else 0
  }

  lemma PriorityAsNumber(c: Corridor)
    ensures CalculatePriority(c) ==
            Indicator(c.Populated(FromCategory)) + 2 * Indicator(c.Populated(FromTag))
            + 4 * Indicator(c.Populated(FromNode)) + 8 * Indicator(c.Populated(ToCategory))
            + 16 * Indicator(c.Populated(ToTag)) + 32 * Indicator(c.Populated(ToNode))
            + 64 * Indicator(c.Populated(Channel))
  {
    assert Pow2(0) == 1 && Pow2(1) == 2 && Pow2(2) == 4;
    assert Pow2(3) == 2 * Pow2(2) && Pow2(4) == 2 * Pow2(3) && Pow2(5) == 2 * Pow2(4) && Pow2(6) == 2 * Pow2(5);
  }

  /** The part of the mask from rank r upwards, shifted down to bit 0. */
  function MaskFrom(c: Corridor, r: nat): nat
    requires r <= 7
    decreases 7 - r
  {
    if r == 7 then 0 else Indicator(c.Populated(FieldAt(r))) + 2 * MaskFrom(c, r + 1)
  }

  function FieldAt(r: nat): (f: Field)
    requires r <= 6
    ensures f.Rank() == r
  {
    if r == 0 then FromCategory else if r == 1 then FromTag else if r == 2 then FromNode
    else if r == 3 then ToCategory else if r == 4 then ToTag else if r == 5 then ToNode else Channel
  }

  lemma {:induction false} BitOfMaskFrom(c: Corridor, r: nat, i: nat)
    requires r + i <= 6
    ensures Bit(MaskFrom(c, r), i) <==> c.Populated(FieldAt(r + i))
    decreases i
  {
    assert MaskFrom(c, r) / 2 == MaskFrom(c, r + 1);
    if i > 0 { BitOfMaskFrom(c, r + 1, i - 1); }
  }

  lemma UpperMask(c: Corridor)
    ensures MaskFrom(c, 3) ==
            Indicator(c.Populated(ToCategory)) + 2 * Indicator(c.Populated(ToTag))
            + 4 * Indicator(c.Populated(ToNode)) + 8 * Indicator(c.Populated(Channel))
  {
    assert MaskFrom(c, 6) == Indicator(c.Populated(Channel));
    assert MaskFrom(c, 4) == Indicator(c.Populated(ToTag)) + 2 * MaskFrom(c, 5);
  }

  lemma LowerMask(c: Corridor)
    ensures MaskFrom(c, 0) ==
            Indicator(c.Populated(FromCategory)) + 2 * Indicator(c.Populated(FromTag))
            + 4 * Indicator(c.Populated(FromNode)) + 8 * MaskFrom(c, 3)
  {
    assert MaskFrom(c, 1) == Indicator(c.Populated(FromTag)) + 2 * MaskFrom(c, 2);
  }

  lemma PriorityIsMask(c: Corridor)
    ensures CalculatePriority(c) == MaskFrom(c, 0)
  {
    PriorityAsNumber(c);
    LowerMask(c);
    UpperMask(c);
  }

  lemma MaskBitIsFieldPresence(c: Corridor, f: Field, mask: nat)
    requires mask == MaskFrom(c, 0)
    ensures HasPriority(f, mask) <==> c.Populated(f)
  {
    MaskTestsOneBit(mask, f.Rank());
    BitOfMaskFrom(c, 0, f.Rank());
    assert FieldAt(f.Rank()) == f;
  }

  /** A mask bit tests true exactly when the corridor's field is present and non-zero. */
  lemma PriorityBitIsFieldPresence(c: Corridor, f: Field)
    ensures HasPriority(f, CalculatePriority(c)) <==> c.Populated(f)
  {
    PriorityIsMask(c);
    MaskBitIsFieldPresence(c, f, CalculatePriority(c));
  }

  lemma {:induction false} FewerFieldsSmallerMask(a: Corridor, b: Corridor, r: nat)
    requires r <= 7 && forall f: Field | f.Rank() >= r :: a.Populated(f) ==> b.Populated(f)
    ensures MaskFrom(a, r) <= MaskFrom(b, r)
    decreases 7 - r
  {
    if r < 7 { FewerFieldsSmallerMask(a, b, r + 1); }
  }

  lemma FewerFieldsLowerPriority(a: Corridor, b: Corridor)
    requires forall f :: a.Populated(f) ==> b.Populated(f)
    ensures CalculatePriority(a) <= CalculatePriority(b)
  {
    PriorityIsMask(a);
    PriorityIsMask(b);
    FewerFieldsSmallerMask(a, b, 0);
  }

  /** Equal priorities mean equal sets of populated fields. */
  lemma EqualPriorityIsEqualFields(a: Corridor, b: Corridor)
    ensures CalculatePriority(a) == CalculatePriority(b) <==> forall f :: a.Populated(f) <==> b.Populated(f)
  {
    PriorityIsMask(a);
    PriorityIsMask(b);
    if MaskFrom(a, 0) == MaskFrom(b, 0) {
      forall f
        ensures a.Populated(f) <==> b.Populated(f)
      {
        MaskBitIsFieldPresence(a, f, MaskFrom(a, 0));
        MaskBitIsFieldPresence(b, f, MaskFrom(b, 0));
      }
    } else if forall f :: a.Populated(f) <==> b.Populated(f) {
      FewerFieldsSmallerMask(a, b, 0);
      FewerFieldsSmallerMask(b, a, 0);
    }
  }

  /** a and b agree on every field ranked above f, and f is the one that only a restricts. */
  ghost predicate WinsAt(a: Corridor, b: Corridor, f: Field) {
    && a.Populated(f) && !b.Populated(f)
    && forall g: Field | g.Rank() > f.Rank() :: a.Populated(g) <==> b.Populated(g)
  }

  function HighestDifference(a: Corridor, b: Corridor): Field {
    if a.Populated(Channel) != b.Populated(Channel) then Channel
    else if a.Populated(ToNode) != b.Populated(ToNode) then ToNode
    else if a.Populated(ToTag) != b.Populated(ToTag) then ToTag
    else if a.Populated(ToCategory) != b.Populated(ToCategory) then ToCategory
    else if a.Populated(FromNode) != b.Populated(FromNode) then FromNode
    else if a.Populated(FromTag) != b.Populated(FromTag) then FromTag
    else FromCategory
  }

  lemma HighestDifferenceDecides(a: Corridor, b: Corridor, f: Field)
    requires a.Populated(f) != b.Populated(f)
    ensures var h := HighestDifference(a, b); WinsAt(a, b, h) || WinsAt(b, a, h)
  {
    var h := HighestDifference(a, b);
    assert a.Populated(h) != b.Populated(h) by { assert FieldAt(f.Rank()) == f; }
    forall g: Field | g.Rank() > h.Rank()
      ensures a.Populated(g) == b.Populated(g)
    {
    }
  }

  /** Priority is the lexicographic order on populated fields: the highest-ranked difference decides,
      whatever the lower-ranked fields are. */
  lemma PriorityIsLexicographic(a: Corridor, b: Corridor)
    ensures CalculatePriority(a) > CalculatePriority(b) <==> exists f :: WinsAt(a, b, f)
  {
    if f :| WinsAt(a, b, f) {
      HigherFieldBeatsLower(a, b, f);
    } else if CalculatePriority(a) > CalculatePriority(b) {
      EqualPriorityIsEqualFields(a, b);
      var f :| a.Populated(f) != b.Populated(f);
      HighestDifferenceDecides(a, b, f);
      HigherFieldBeatsLower(b, a, HighestDifference(a, b));
    }
  }

  lemma HigherFieldBeatsLower(a: Corridor, b: Corridor, f: Field)
    requires WinsAt(a, b, f)
    ensures CalculatePriority(a) > CalculatePriority(b)
  {
    PriorityIsMask(a);
    PriorityIsMask(b);
    MaskWins(a, b, f, 0);
  }

  lemma {:induction false} MaskWins(a: Corridor, b: Corridor, f: Field, r: nat)
    requires WinsAt(a, b, f) && r <= f.Rank()
    ensures MaskFrom(a, r) > MaskFrom(b, r)
    decreases 7 - r
  {
    if r < f.Rank() {
      MaskWins(a, b, f, r + 1);
    } else {
      MaskWinsHere(a, b, f);
    }
  }

  lemma MaskWinsHere(a: Corridor, b: Corridor, f: Field)
    requires WinsAt(a, b, f)
    ensures MaskFrom(a, f.Rank()) > MaskFrom(b, f.Rank())
  {
    FewerFieldsSmallerMask(b, a, f.Rank() + 1);
    assert FieldAt(f.Rank()) == f;
  }

  // ------------------------------------------------------------------ the reference definition

  /** What a rule says about a key, with no mention of masks or buckets. */
  ghost predicate Matches(c: Corridor, key: CorridorKey) {
    && !c.inverse
    && c.referenceId == Some(key.referenceId)
    && forall f: Field | c.Populated(f) :: c.Field(f) == Some(key.Field(f))
  }

  ghost predicate KnownType(c: Corridor) {
    GetCorridorTypeFromId(c.corridorTypeId).Some?
  }

  /** What the type filter of the query (internal/corridors/database.go:60) guarantees about a rule list. */
  ghost predicate OneType(cs: seq<Corridor>) {
    forall i | 0 <= i < |cs| :: KnownType(cs[i]) && cs[i].corridorTypeId == cs[0].corridorTypeId
  }

  /** Rule i is in force: not inverse, and no later rule is filed under the same key. */
  ghost predicate InForce(cs: seq<Corridor>, i: int) {
    && 0 <= i < |cs| && !cs[i].inverse
    && forall j | i < j < |cs| && !cs[j].inverse :: ConstructKey(cs[j]) != ConstructKey(cs[i])
  }

  /** Rule i is in force, matches, and no matching rule in force is more specific. */
  ghost predicate IsBest(cs: seq<Corridor>, key: CorridorKey, i: int) {
    && InForce(cs, i) && Matches(cs[i], key)
    && forall j | InForce(cs, j) && Matches(cs[j], key) :: CalculatePriority(cs[j]) <= CalculatePriority(cs[i])
  }

  function DefaultCorridor(key: CorridorKey): Corridor {
    Corridor(0, key.corridorType.corridorTypeId, None, key.corridorType.defaultFlag, false,
             None, None, None, None, None, None, None)
  }

  /** The best rule of a list for a key, or the type's default. */
  ghost function BestCorridor(cs: seq<Corridor>, key: CorridorKey): Corridor {
    if i :| IsBest(cs, key, i) then cs[i] else DefaultCorridor(key)
  }

  /** One field of the comparison agrees exactly when the rule's restriction, if it has one, is the key's. */
  lemma FieldAgreesIff(c: Corridor, key: CorridorKey, f: Field)
    requires KnownType(c)
    ensures FieldAgrees(f, key, CalculatePriority(c), ConstructKey(c))
            <==> (c.Populated(f) ==> c.Field(f) == Some(key.Field(f)))
  {
    PriorityBitIsFieldPresence(c, f);
    assert ConstructKey(c).Field(f) == c.Field(f).GetOr(0);
  }

  /** The mask comparison on the constructed key says exactly that the rule matches. */
  lemma MaskComparisonIsMatch(c: Corridor, key: CorridorKey)
    requires KnownType(c) && !c.inverse && c.referenceId == Some(key.referenceId)
    ensures Equals(key, CalculatePriority(c), ConstructKey(c)) <==> Matches(c, key)
  {
    FieldAgreesIff(c, key, FromCategory);
    FieldAgreesIff(c, key, FromTag);
    FieldAgreesIff(c, key, FromNode);
    FieldAgreesIff(c, key, ToCategory);
    FieldAgreesIff(c, key, ToTag);
    FieldAgreesIff(c, key, ToNode);
    FieldAgreesIff(c, key, Channel);
  }

  lemma KeyDeterminesFields(a: Corridor, b: Corridor)
    requires KnownType(a) && KnownType(b) && ConstructKey(a) == ConstructKey(b)
    ensures forall f :: a.Field(f).GetOr(0) == b.Field(f).GetOr(0)
    ensures forall f :: a.Populated(f) <==> b.Populated(f)
  {
    forall f
      ensures a.Field(f).GetOr(0) == b.Field(f).GetOr(0)
      ensures a.Populated(f) <==> b.Populated(f)
    {
      assert ConstructKey(a).Field(f) == a.Field(f).GetOr(0);
      assert ConstructKey(b).Field(f) == b.Field(f).GetOr(0);
    }
  }

  /** Rules filed under one key have one priority, so a later one replaces the earlier in its own bucket. */
  lemma KeyDeterminesPriority(a: Corridor, b: Corridor)
    requires KnownType(a) && KnownType(b) && ConstructKey(a) == ConstructKey(b)
    ensures CalculatePriority(a) == CalculatePriority(b)
  {
    KeyDeterminesFields(a, b);
    EqualPriorityIsEqualFields(a, b);
  }

  /** No map-order dependence: two rules of one type and one bucket that both match are filed under one key. */
  lemma SameBucketSameKey(a: Corridor, b: Corridor, key: CorridorKey)
    requires KnownType(a) && KnownType(b) && a.corridorTypeId == b.corridorTypeId
    requires Matches(a, key) && Matches(b, key)
    requires CalculatePriority(a) == CalculatePriority(b)
    ensures ConstructKey(a) == ConstructKey(b)
  {
    EqualPriorityIsEqualFields(a, b);
    forall f: Field
      ensures a.Field(f).GetOr(0) == b.Field(f).GetOr(0)
    {
      assert a.Populated(f) <==> b.Populated(f);
    }
    assert a.Field(FromCategory).GetOr(0) == b.Field(FromCategory).GetOr(0);
    assert a.Field(FromTag).GetOr(0) == b.Field(FromTag).GetOr(0);
    assert a.Field(FromNode).GetOr(0) == b.Field(FromNode).GetOr(0);
    assert a.Field(ToCategory).GetOr(0) == b.Field(ToCategory).GetOr(0);
    assert a.Field(ToTag).GetOr(0) == b.Field(ToTag).GetOr(0);
    assert a.Field(ToNode).GetOr(0) == b.Field(ToNode).GetOr(0);
    assert a.Field(Channel).GetOr(0) == b.Field(Channel).GetOr(0);
  }

  /** A best rule is unique, so BestCorridor is determined by the list and the key. */
  lemma BestIsUnique(cs: seq<Corridor>, key: CorridorKey, i: int, j: int)
    requires OneType(cs) && IsBest(cs, key, i) && IsBest(cs, key, j)
    ensures i == j
  {
    SameBucketSameKey(cs[i], cs[j], key);
  }

  // ------------------------------------------------------------------ the best rule by the names of its fields

  /** The restriction is absent. */
  predicate Free(restriction: Option<int>) {
    restriction == None || restriction == Some(0)
  }

  /** The restrictions present, a higher one outweighing all the lower ones together. */
  function Weight(c: Corridor): nat {
    (if Free(c.fromCategoryId) then 0 else 1) + (if Free(c.fromTagId) then 0 else 2)
    + (if Free(c.fromNodeId) then 0 else 4) + (if Free(c.toCategoryId) then 0 else 8)
    + (if Free(c.toTagId) then 0 else 16) + (if Free(c.toNodeId) then 0 else 32)
    + (if Free(c.channelId) then 0 else 64)
  }

  /** Every restriction of the rule that is present is what the key has. */
  ghost predicate Fits(c: Corridor, key: CorridorKey) {
    && !c.inverse
    && c.referenceId == Some(key.referenceId)
    && (Free(c.fromCategoryId) || c.fromCategoryId == Some(key.fromCategoryId))
    && (Free(c.fromTagId) || c.fromTagId == Some(key.fromTagId))
    && (Free(c.fromNodeId) || c.fromNodeId == Some(key.fromNodeId))
    && (Free(c.channelId) || c.channelId == Some(key.channelId))
    && (Free(c.toCategoryId) || c.toCategoryId == Some(key.toCategoryId))
    && (Free(c.toTagId) || c.toTagId == Some(key.toTagId))
    && (Free(c.toNodeId) || c.toNodeId == Some(key.toNodeId))
  }

  predicate Alike(a: Option<int>, b: Option<int>) {
    a == b || (Free(a) && Free(b))
  }

  /** The rules have the same reference and the same restrictions. */
  ghost predicate SameRestrictions(a: Corridor, b: Corridor) {
    && Alike(a.referenceId, b.referenceId)
    && Alike(a.fromCategoryId, b.fromCategoryId) && Alike(a.fromTagId, b.fromTagId) && Alike(a.fromNodeId, b.fromNodeId)
    && Alike(a.channelId, b.channelId)
    && Alike(a.toCategoryId, b.toCategoryId) && Alike(a.toTagId, b.toTagId) && Alike(a.toNodeId, b.toNodeId)
  }

  /** No later rule replaces rule i. */
  ghost predicate Stands(cs: seq<Corridor>, i: int) {
    && 0 <= i < |cs| && !cs[i].inverse
    && forall j | i < j < |cs| && !cs[j].inverse :: !SameRestrictions(cs[j], cs[i])
  }

  /** Rule i is the heaviest of the rules that stand and fit. */
  ghost predicate Decides(cs: seq<Corridor>, key: CorridorKey, i: int) {
    && Stands(cs, i) && Fits(cs[i], key)
    && forall j | Stands(cs, j) && Fits(cs[j], key) :: Weight(cs[j]) <= Weight(cs[i])
  }

  lemma WeightIsPriority(c: Corridor)
    ensures CalculatePriority(c) == Weight(c)
  {
    PriorityAsNumber(c);
  }

  lemma FitsIsMatches(c: Corridor, key: CorridorKey)
    ensures Fits(c, key) <==> Matches(c, key)
  {
    if Matches(c, key) {
      assert c.Populated(FromCategory) ==> c.Field(FromCategory) == Some(key.Field(FromCategory));
      assert c.Populated(FromTag) ==> c.Field(FromTag) == Some(key.Field(FromTag));
      assert c.Populated(FromNode) ==> c.Field(FromNode) == Some(key.Field(FromNode));
      assert c.Populated(ToCategory) ==> c.Field(ToCategory) == Some(key.Field(ToCategory));
      assert c.Populated(ToTag) ==> c.Field(ToTag) == Some(key.Field(ToTag));
      assert c.Populated(ToNode) ==> c.Field(ToNode) == Some(key.Field(ToNode));
      assert c.Populated(Channel) ==> c.Field(Channel) == Some(key.Field(Channel));
    }
  }

  lemma StandsIsInForce(cs: seq<Corridor>, i: int)
    requires OneType(cs)
    ensures Stands(cs, i) <==> InForce(cs, i)
  {
    if 0 <= i < |cs| && !cs[i].inverse {
      forall j | i < j < |cs| && !cs[j].inverse
        ensures SameRestrictions(cs[j], cs[i]) <==> ConstructKey(cs[j]) == ConstructKey(cs[i])
      {
        assert KnownType(cs[i]) && KnownType(cs[j]);
        SameRestrictionsSameKey(cs[j], cs[i]);
      }
    }
  }

  lemma SameRestrictionsSameKey(a: Corridor, b: Corridor)
    requires KnownType(a) && a.corridorTypeId == b.corridorTypeId && !a.inverse && !b.inverse
    ensures SameRestrictions(a, b) <==> ConstructKey(a) == ConstructKey(b)
  {
  }

  /** The best rule is the one that its fields say, with no mention of masks or reconstructed keys. */
  lemma BestByFields(cs: seq<Corridor>, key: CorridorKey, i: int)
    requires OneType(cs)
    ensures IsBest(cs, key, i) <==> Decides(cs, key, i)
  {
    forall j
      ensures Stands(cs, j) <==> InForce(cs, j)
      ensures Stands(cs, j) ==> (Fits(cs[j], key) <==> Matches(cs[j], key)) && CalculatePriority(cs[j]) == Weight(cs[j])
    {
      StandsIsInForce(cs, j);
      if Stands(cs, j) {
        FitsIsMatches(cs[j], key);
        WeightIsPriority(cs[j]);
      }
    }
  }

  lemma AnswerByFields(cs: seq<Corridor>, key: CorridorKey)
    requires OneType(cs)
    ensures forall i | Decides(cs, key, i) :: BestCorridor(cs, key) == cs[i]
    ensures (forall i :: !Decides(cs, key, i)) ==>
              var c := BestCorridor(cs, key);
              && c.corridorTypeId == key.corridorType.corridorTypeId && c.referenceId == None
              && (key.corridorType == CATEGORY || key.corridorType == TAG ==> c.flag == 0)
  {
    forall i
      ensures IsBest(cs, key, i) <==> Decides(cs, key, i)
      ensures Decides(cs, key, i) ==> BestCorridor(cs, key) == cs[i]
    {
      BestByFields(cs, key, i);
      if Decides(cs, key, i) { BestIsAnswer(cs, key, i); }
    }
  }

  // ------------------------------------------------------------------ the linear scan

  /** One pass over the first n rules, keeping the most specific match and preferring the later of equals;
      the index of the rule kept, if any. */
  ghost function Scan(cs: seq<Corridor>, key: CorridorKey, n: nat): (best: Option<nat>)
    requires n <= |cs|
    ensures best.Some? ==> best.value < n
  {
    if n == 0 then None
    else
      var best := Scan(cs, key, n - 1);
      if Matches(cs[n - 1], key)
         && (best.Some? ==> CalculatePriority(cs[best.value]) <= CalculatePriority(cs[n - 1])) then Some(n - 1)
      else best
  }

  ghost function LinearScan(cs: seq<Corridor>, key: CorridorKey): Corridor {
    match Scan(cs, key, |cs|)
    case Some(i) => cs[i]
    case None => DefaultCorridor(key)
  }

  /** Rule i matches, none is more specific, and none after it is as specific. */
  lemma {:induction false} ScanKeepsLastMostSpecific(cs: seq<Corridor>, key: CorridorKey, n: nat)
    requires n <= |cs|
    ensures Scan(cs, key, n).None? ==> forall i | 0 <= i < n :: !Matches(cs[i], key)
    ensures Scan(cs, key, n).Some? ==>
              var i := Scan(cs, key, n).value;
              && Matches(cs[i], key)
              && (forall j | 0 <= j < n && Matches(cs[j], key) :: CalculatePriority(cs[j]) <= CalculatePriority(cs[i]))
              && (forall j | i < j < n && Matches(cs[j], key) :: CalculatePriority(cs[j]) < CalculatePriority(cs[i]))
  {
    if n > 0 { ScanKeepsLastMostSpecific(cs, key, n - 1); }
  }

  /** A rule with reference 0 is hidden: the rule in force under its key has no reference at all.
      A missing reference is filed as 0, so it can replace such a rule, and it then never matches. */
  ghost predicate HiddenBy(cs: seq<Corridor>, i: int, j: int) {
    && 0 <= i < j < |cs| && !cs[i].inverse && cs[i].referenceId.Some?
    && InForce(cs, j) && cs[j].referenceId.None? && ConstructKey(cs[i]) == ConstructKey(cs[j])
  }

  ghost predicate NothingHidden(cs: seq<Corridor>) {
    forall i, j :: !HiddenBy(cs, i, j)
  }

  /** Every rule that is not inverse has a rule in force, no earlier, under its key. */
  lemma {:induction false} InForceSuccessor(cs: seq<Corridor>, i: int) returns (j: int)
    requires 0 <= i < |cs| && !cs[i].inverse
    ensures i <= j && InForce(cs, j) && ConstructKey(cs[j]) == ConstructKey(cs[i])
    decreases |cs| - i
  {
    if InForce(cs, i) {
      j := i;
    } else {
      var k :| i < k < |cs| && !cs[k].inverse && ConstructKey(cs[k]) == ConstructKey(cs[i]);
      j := InForceSuccessor(cs, k);
    }
  }

  lemma SameKeyMatches(a: Corridor, b: Corridor, key: CorridorKey)
    requires KnownType(a) && KnownType(b) && ConstructKey(a) == ConstructKey(b)
    requires Matches(a, key) && !b.inverse && b.referenceId.Some?
    ensures Matches(b, key)
  {
    forall f: Field | b.Populated(f)
      ensures b.Field(f) == Some(key.Field(f))
    {
      assert ConstructKey(a).Field(f) == a.Field(f).GetOr(0);
      assert ConstructKey(b).Field(f) == b.Field(f).GetOr(0);
      assert a.Populated(f);
    }
  }

  /** When nothing is hidden the best rule is the linear scan's, for every key. */
  lemma BestIsLinearScan(cs: seq<Corridor>, key: CorridorKey)
    requires OneType(cs) && NothingHidden(cs)
    ensures BestCorridor(cs, key) == LinearScan(cs, key)
  {
    ScanKeepsLastMostSpecific(cs, key, |cs|);
    var found := Scan(cs, key, |cs|);
    if found.Some? {
      var i := found.value;
      var j := InForceSuccessor(cs, i);
      assert !HiddenBy(cs, i, j);
      SameKeyMatches(cs[i], cs[j], key);
      KeyDeterminesPriority(cs[i], cs[j]);
      assert IsBest(cs, key, i);
      forall k | IsBest(cs, key, k)
        ensures k == i
      {
        BestIsUnique(cs, key, i, k);
      }
    }
  }

  lemma OneInForcePerKey(cs: seq<Corridor>, i: int, j: int)
    requires InForce(cs, i) && InForce(cs, j) && ConstructKey(cs[i]) == ConstructKey(cs[j])
    ensures i == j
  {
  }

  lemma BestIsNotUnderHiddenKey(cs: seq<Corridor>, key: CorridorKey, i: int, j: int, k: int)
    requires HiddenBy(cs, i, j) && IsBest(cs, key, k)
    ensures ConstructKey(cs[k]) != ConstructKey(cs[i])
  {
    if ConstructKey(cs[k]) == ConstructKey(cs[i]) {
      OneInForcePerKey(cs, k, j);
    }
  }

  /** A hidden rule is missed by the lookup for its own key. */
  lemma HiddenRuleIsMissed(cs: seq<Corridor>, i: int, j: int)
    requires OneType(cs) && HiddenBy(cs, i, j)
    ensures BestCorridor(cs, ConstructKey(cs[i])) != LinearScan(cs, ConstructKey(cs[i]))
  {
    var key := ConstructKey(cs[i]);
    OwnKeyMatches(cs[i]);
    ScanKeepsLastMostSpecific(cs, key, |cs|);
    var s := Scan(cs, key, |cs|).value;
    KeyMatchIsLessSpecific(cs[s], cs[i]);
    SameBucketSameKey(cs[s], cs[i], key);
    if k :| IsBest(cs, key, k) && BestCorridor(cs, key) == cs[k] {
      BestIsNotUnderHiddenKey(cs, key, i, j, k);
    }
  }

  lemma OwnKeyMatches(c: Corridor)
    requires KnownType(c) && !c.inverse && c.referenceId.Some?
    ensures Matches(c, ConstructKey(c))
  {
    forall f: Field | c.Populated(f)
      ensures c.Field(f) == Some(ConstructKey(c).Field(f))
    {
      assert ConstructKey(c).Field(f) == c.Field(f).GetOr(0);
    }
  }

  lemma KeyMatchIsLessSpecific(c: Corridor, d: Corridor)
    requires KnownType(d) && Matches(c, ConstructKey(d))
    ensures CalculatePriority(c) <= CalculatePriority(d)
  {
    forall f: Field | c.Populated(f)
      ensures d.Populated(f)
    {
      assert ConstructKey(d).Field(f) == d.Field(f).GetOr(0);
    }
    FewerFieldsLowerPriority(c, d);
  }

  /** The lookup is the linear scan for every key exactly when no rule is hidden. */
  lemma LookupIsLinearScanIff(cs: seq<Corridor>)
    requires OneType(cs)
    ensures NothingHidden(cs) <==>
            forall key :: BestCorridor(cs, key) == LinearScan(cs, key)
  {
    if NothingHidden(cs) {
      forall key
        ensures BestCorridor(cs, key) == LinearScan(cs, key)
      {
        BestIsLinearScan(cs, key);
      }
    } else {
      var i, j :| HiddenBy(cs, i, j);
      HiddenRuleIsMissed(cs, i, j);
    }
  }

  /** In particular rule lists whose references are all present are looked up as the linear scan says. */
  lemma AllReferencesPresent(cs: seq<Corridor>, key: CorridorKey)
    requires OneType(cs) && forall i | 0 <= i < |cs| :: cs[i].referenceId.Some?
    ensures BestCorridor(cs, key) == LinearScan(cs, key)
  {
    assert NothingHidden(cs);
    BestIsLinearScan(cs, key);
  }

  // ------------------------------------------------------------------ the bucketed cache

  type Buckets = map<nat, map<CorridorKey, Corridor>>

  /** The buckets hold exactly the rules in force, each under its own priority and key. */
  ghost predicate Files(buckets: Buckets, cs: seq<Corridor>) {
    && (forall p, k | p in buckets && k in buckets[p] ::
          exists i :: InForce(cs, i) && CalculatePriority(cs[i]) == p && ConstructKey(cs[i]) == k && cs[i] == buckets[p][k])
    && (forall i | InForce(cs, i) :: FiledAt(buckets, cs[i]))
  }

  ghost predicate FiledAt(buckets: Buckets, c: Corridor) {
    && CalculatePriority(c) in buckets
    && ConstructKey(c) in buckets[CalculatePriority(c)]
    && buckets[CalculatePriority(c)][ConstructKey(c)] == c
  }

  ghost predicate Descending(s: seq<nat>) {
    forall i, j | 0 <= i < j < |s| :: s[i] >= s[j]
  }

  /** The buckets after the rules have been added one after the other. */
  function Filed(cs: seq<Corridor>): Buckets {
    if cs == [] then map[]
    else
      var before, c := Filed(cs[..|cs| - 1]), cs[|cs| - 1];
      var p := CalculatePriority(c);
      if c.inverse then before
      else before[p := (if p in before then before[p] else map[])[ConstructKey(c) := c]]
  }

  /** What adding leaves is exactly the rules in force. */
  lemma {:induction false} FiledAreInForce(cs: seq<Corridor>)
    requires OneType(cs)
    ensures Files(Filed(cs), cs)
  {
    if cs != [] {
      var n := |cs| - 1;
      assert cs == cs[..n] + [cs[n]];
      FiledAreInForce(cs[..n]);
      FilingKeepsRules(Filed(cs[..n]), Filed(cs), cs[n], cs[..n]);
    }
  }

  class StagingCache {
    var buckets: Buckets

    constructor ()
      ensures buckets == map[]
    {
      buckets := map[];
    }

    method AddToCorridorCache(c: Corridor, ghost cs: seq<Corridor>)
      requires OneType(cs + [c]) && buckets == Filed(cs)
      modifies this
      ensures buckets == Filed(cs + [c]) && Files(buckets, cs + [c])
    {
      var priority := CalculatePriority(c);
      if !c.inverse {
        if priority !in buckets {
          buckets := buckets[priority := map[]];
        }
        buckets := buckets[priority := buckets[priority][ConstructKey(c) := c]];
      }
      assert (cs + [c])[..|cs|] == cs;
      FiledAreInForce(cs + [c]);
    }
  }

  lemma InForceOfLonger(cs: seq<Corridor>, c: Corridor, i: int)
    ensures InForce(cs + [c], i) <==>
            (i == |cs| && !c.inverse) || (InForce(cs, i) && (c.inverse || ConstructKey(cs[i]) != ConstructKey(c)))
  {
    var ds := cs + [c];
    assert ds[|cs|] == c;
    if 0 <= i < |cs| {
      assert ds[i] == cs[i];
      assert forall j | i < j < |cs| :: ds[j] == cs[j];
    }
  }

  lemma FilingKeepsRules(before: Buckets, after: Buckets, c: Corridor, cs: seq<Corridor>)
    requires OneType(cs + [c]) && Files(before, cs)
    requires c.inverse ==> after == before
    requires !c.inverse ==>
               var p := CalculatePriority(c);
               after == before[p := (if p in before then before[p] else map[])[ConstructKey(c) := c]]
    ensures Files(after, cs + [c])
  {
    var ds := cs + [c];
    var n := |cs|;
    forall i
      ensures InForce(ds, i) <==>
              (i == n && !c.inverse) || (InForce(cs, i) && (c.inverse || ConstructKey(cs[i]) != ConstructKey(c)))
    {
      InForceOfLonger(cs, c, i);
    }
    forall i | InForce(ds, i)
      ensures FiledAt(after, ds[i])
    {
      if i < n {
        assert ds[i] == cs[i] && FiledAt(before, cs[i]);
      }
    }
    forall p, k | p in after && k in after[p]
      ensures exists i :: InForce(ds, i) && CalculatePriority(ds[i]) == p && ConstructKey(ds[i]) == k && ds[i] == after[p][k]
    {
      if !c.inverse && p == CalculatePriority(c) && k == ConstructKey(c) {
        assert InForce(ds, n);
      } else {
        assert p in before && k in before[p] && before[p][k] == after[p][k];
        var i :| InForce(cs, i) && CalculatePriority(cs[i]) == p && ConstructKey(cs[i]) == k && cs[i] == before[p][k];
        assert ds[i] == cs[i];
        if !c.inverse && k == ConstructKey(c) {
          assert KnownType(ds[i]) && KnownType(ds[n]);
          KeyDeterminesPriority(cs[i], c);
        }
        assert InForce(ds, i);
      }
    }
  }

  lemma InsertedDescending(s: seq<nat>, i: nat, k: nat)
    requires Descending(s) && i <= |s|
    requires (forall j | 0 <= j < i :: s[j] >= k) && (i < |s| ==> s[i] < k)
    ensures Descending(s[..i] + [k] + s[i..])
  {
    var r := s[..i] + [k] + s[i..];
    forall a, b | 0 <= a < b < |r|
      ensures r[a] >= r[b]
    {
      assert a < i ==> r[a] == s[a] && s[a] >= k;
      assert b > i ==> r[b] == s[b - 1] && k >= s[b - 1];
    }
  }

  lemma InsertedKeepsKeys(s: seq<nat>, i: nat, k: nat)
    requires i <= |s|
    ensures multiset(s[..i] + [k] + s[i..]) == multiset(s) + multiset{k}
  {
    assert s == s[..i] + s[i..];
  }

  /** The library's reversed integer sort, as insertion into a descending list. */
  method SortDescending(keys: seq<nat>) returns (sorted: seq<nat>)
    ensures Descending(sorted) && multiset(sorted) == multiset(keys)
  {
    sorted := [];
    for n := 0 to |keys|
      invariant Descending(sorted) && multiset(sorted) == multiset(keys[..n])
    {
      assert keys[..n + 1] == keys[..n] + [keys[n]];
      var i := PlaceFor(sorted, keys[n]);
      InsertedDescending(sorted, i, keys[n]);
      InsertedKeepsKeys(sorted, i, keys[n]);
      sorted := sorted[..i] + [keys[n]] + sorted[i..];
    }
    assert keys[..|keys|] == keys;
  }

  method PlaceFor(sorted: seq<nat>, k: nat) returns (i: nat)
    ensures i <= |sorted| && (forall j | 0 <= j < i :: sorted[j] >= k) && (i < |sorted| ==> sorted[i] < k)
  {
    i := 0;
    while i < |sorted| && sorted[i] >= k
      invariant i <= |sorted| && forall j | 0 <= j < i :: sorted[j] >= k
    {
      i := i + 1;
    }
  }

  class CorridorCacheByType {
    var cacheMap: Buckets
    var sortedKeys: seq<nat>
    /** The rule list the cache was last refreshed from. */
    ghost var rules: seq<Corridor>

    ghost predicate Valid()
      reads this
    {
      && OneType(rules)
      && cacheMap == Filed(rules)
      && Descending(sortedKeys)
      && (forall p :: p in sortedKeys <==> p in cacheMap)
    }

    constructor ()
      ensures Valid() && rules == []
    {
      cacheMap, sortedKeys, rules := map[], [], [];
    }

    /** Replaces the whole cache by the given rule list, read in order. */
    method Refresh(corridors: seq<Corridor>)
      requires OneType(corridors)
      modifies this
      ensures Valid() && rules == corridors && Files(cacheMap, rules)
    {
      var staging := new StagingCache();
      for n := 0 to |corridors|
        invariant fresh(staging)
        invariant staging.buckets == Filed(corridors[..n])
      {
        assert corridors[..n] + [corridors[n]] == corridors[..n + 1];
        staging.AddToCorridorCache(corridors[n], corridors[..n]);
      }
      assert corridors[..|corridors|] == corridors;
      Finalize(staging, corridors);
      FiledAreInForce(corridors);
    }

    method Finalize(staging: StagingCache, ghost corridors: seq<Corridor>)
      requires OneType(corridors) && staging.buckets == Filed(corridors)
      modifies this
      ensures Valid() && rules == corridors
    {
      var keys: seq<nat> := [];
      var remaining := staging.buckets.Keys;
      while remaining != {}
        invariant remaining <= staging.buckets.Keys
        invariant forall p :: p in keys || p in remaining <==> p in staging.buckets
      {
        var k :| k in remaining;
        keys := keys + [k];
        remaining := remaining - {k};
      }
      var sorted := SortDescending(keys);
      assert forall p :: p in sorted <==> p in multiset(sorted);
      assert forall p :: p in keys <==> p in multiset(keys);
      cacheMap, sortedKeys, rules := staging.buckets, sorted, corridors;
    }

    /** Whatever order the buckets' entries are visited in, the answer is the best rule of the list. */
    method GetBestCorridor(key: CorridorKey) returns (c: Corridor)
      requires Valid()
      ensures c == BestCorridor(rules, key)
      ensures forall i | Decides(rules, key, i) :: c == rules[i]
    {
      AnswerByFields(rules, key);
      var n, hit := FirstHit(cacheMap, sortedKeys, key);
      FiledAreInForce(rules);
      if hit.Some? {
        FirstHitIsBest(cacheMap, sortedKeys, rules, key, n, hit.value);
        return cacheMap[sortedKeys[n]][hit.value];
      }
      NoHitNoMatch(cacheMap, sortedKeys, rules, key);
      c := DefaultCorridor(key);
    }

    method GetBestCorridorStatus(key: CorridorKey) returns (active: bool)
      requires Valid()
      ensures active <==> BestCorridor(rules, key).flag == 1
      ensures key.corridorType == CATEGORY || key.corridorType == TAG ==>
                (active <==> exists i :: Decides(rules, key, i) && rules[i].flag == 1)
    {
      AnswerByFields(rules, key);
      var corridor := GetBestCorridor(key);
      active := corridor.flag == 1;
    }
  }

  /** The condition under which the scan returns the entry filed under p and k. */
  predicate Hit(buckets: Buckets, key: CorridorKey, p: nat, k: CorridorKey)
    requires p in buckets && k in buckets[p]
  {
    var c := buckets[p][k];
    c.referenceId.Some? && key.referenceId == c.referenceId.value && Equals(key, p, k)
  }

  /** The first hit of the buckets in the given order, and of each bucket in map order. */
  method FirstHit(buckets: Buckets, sorted: seq<nat>, key: CorridorKey) returns (n: nat, hit: Option<CorridorKey>)
    requires forall p | p in sorted :: p in buckets
    ensures n <= |sorted| && forall m | 0 <= m < n :: NoHitIn(buckets, key, sorted[m])
    ensures if hit.Some? then n < |sorted| && hit.value in buckets[sorted[n]] && Hit(buckets, key, sorted[n], hit.value)
            else n == |sorted|
  {
    n := 0;
    while n < |sorted|
      invariant n <= |sorted| && forall m | 0 <= m < n :: NoHitIn(buckets, key, sorted[m])
    {
      hit := FirstHitIn(buckets, key, sorted[n]);
      if hit.Some? {
        return;
      }
      n := n + 1;
    }
    hit := None;
  }

  method FirstHitIn(buckets: Buckets, key: CorridorKey, priority: nat) returns (hit: Option<CorridorKey>)
    requires priority in buckets
    ensures if hit.Some? then hit.value in buckets[priority] && Hit(buckets, key, priority, hit.value)
            else NoHitIn(buckets, key, priority)
  {
    var remaining := buckets[priority].Keys;
    while remaining != {}
      invariant remaining <= buckets[priority].Keys
      invariant forall k | k in buckets[priority] && k !in remaining :: !Hit(buckets, key, priority, k)
    {
      var cKey :| cKey in remaining;
      if Hit(buckets, key, priority, cKey) {
        return Some(cKey);
      }
      remaining := remaining - {cKey};
    }
    hit := None;
  }

  ghost predicate NoHitIn(buckets: Buckets, key: CorridorKey, p: nat) {
    p in buckets ==> forall k | k in buckets[p] :: !Hit(buckets, key, p, k)
  }

  lemma HitIsMatch(buckets: Buckets, cs: seq<Corridor>, key: CorridorKey, p: nat, k: CorridorKey)
    requires OneType(cs) && Files(buckets, cs) && p in buckets && k in buckets[p]
    ensures Hit(buckets, key, p, k) <==> Matches(buckets[p][k], key)
  {
    var c := buckets[p][k];
    if c.referenceId == Some(key.referenceId) { MaskComparisonIsMatch(c, key); }
  }

  /** A matching rule in force is not filed in a bucket without a hit. */
  lemma MatchIsAHit(buckets: Buckets, sorted: seq<nat>, cs: seq<Corridor>, key: CorridorKey, j: int) returns (m: nat)
    requires OneType(cs) && Files(buckets, cs) && (forall p :: p in sorted <==> p in buckets)
    requires InForce(cs, j) && Matches(cs[j], key)
    ensures m < |sorted| && sorted[m] == CalculatePriority(cs[j]) && !NoHitIn(buckets, key, sorted[m])
  {
    var q := CalculatePriority(cs[j]);
    assert FiledAt(buckets, cs[j]);
    assert q in sorted;
    m :| m < |sorted| && sorted[m] == q;
    HitIsMatch(buckets, cs, key, q, ConstructKey(cs[j]));
  }

  lemma BestIsAnswer(cs: seq<Corridor>, key: CorridorKey, i: int)
    requires OneType(cs) && IsBest(cs, key, i)
    ensures BestCorridor(cs, key) == cs[i]
  {
    forall j | IsBest(cs, key, j)
      ensures i == j
    {
      BestIsUnique(cs, key, i, j);
    }
  }

  /** The first bucket with a hit, scanned from the highest priority down, holds the best rule. */
  lemma FirstHitIsBest(buckets: Buckets, sorted: seq<nat>, cs: seq<Corridor>, key: CorridorKey, n: nat, k: CorridorKey)
    requires OneType(cs) && Files(buckets, cs) && Descending(sorted)
    requires forall p :: p in sorted <==> p in buckets
    requires n < |sorted| && k in buckets[sorted[n]] && Hit(buckets, key, sorted[n], k)
    requires forall m | 0 <= m < n :: NoHitIn(buckets, key, sorted[m])
    ensures buckets[sorted[n]][k] == BestCorridor(cs, key)
  {
    var p := sorted[n];
    var i :| InForce(cs, i) && CalculatePriority(cs[i]) == p && ConstructKey(cs[i]) == k && cs[i] == buckets[p][k];
    HitIsMatch(buckets, cs, key, p, k);
    forall j | InForce(cs, j) && Matches(cs[j], key)
      ensures CalculatePriority(cs[j]) <= p
    {
      var m := MatchIsAHit(buckets, sorted, cs, key, j);
    }
    BestIsAnswer(cs, key, i);
  }

  lemma NoHitNoMatch(buckets: Buckets, sorted: seq<nat>, cs: seq<Corridor>, key: CorridorKey)
    requires OneType(cs) && Files(buckets, cs)
    requires forall p :: p in sorted <==> p in buckets
    requires forall m | 0 <= m < |sorted| :: NoHitIn(buckets, key, sorted[m])
    ensures BestCorridor(cs, key) == DefaultCorridor(key)
  {
    forall i
      ensures !IsBest(cs, key, i)
    {
      if InForce(cs, i) && Matches(cs[i], key) {
        var m := MatchIsAHit(buckets, sorted, cs, key, i);
      }
    }
  }
}
