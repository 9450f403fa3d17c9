/** The sort key of a leaderboard: an order-preserving encoding of the score, then the
    submission time, then the player id. */
module ScoreKeys {
  import opened F64
  import opened Strings

  datatype SortOrder = HighestFirst | LowestFirst

  datatype ScoreKey = ScoreKey(encoded: Bits, timestamp: nat, player: string)

  /** `!bits` on a `u64`. */
  function Not(b: Bits): Bits { 0xFFFF_FFFF_FFFF_FFFF - b }

  /** `bits ^ (1 << 63)` on a `u64`. */
  function FlipSign(b: Bits): Bits { if b < SIGN then b + SIGN else b - SIGN }

  function Sortable(score: Bits): Bits {
    if score < SIGN then FlipSign(score) else Not(score)
  }

  function Encode(score: Bits, order: SortOrder): Bits {
    match order
    case HighestFirst => Not(Sortable(score))
    case LowestFirst => Sortable(score)
  }

  function Decode(encoded: Bits, order: SortOrder): Bits {
    var sortable := match order case HighestFirst => Not(encoded) case LowestFirst => encoded;
    if sortable >= SIGN then FlipSign(sortable) else Not(sortable)
  }

  function NewKey(score: Bits, order: SortOrder, timestamp: nat, player: string): ScoreKey {
    ScoreKey(Encode(score, order), timestamp, player)
  }

  /** The lexicographic order of the three fields. */
  predicate Less(a: ScoreKey, b: ScoreKey) {
    a.encoded < b.encoded
    || (a.encoded == b.encoded
        && (a.timestamp < b.timestamp
            || (a.timestamp == b.timestamp && StringLess(a.player, b.player))))
  }

  lemma LessTransitive(a: ScoreKey, b: ScoreKey, c: ScoreKey)
    requires Less(a, b) && Less(b, c)
    ensures Less(a, c)
  {
    if StringLess(a.player, b.player) && StringLess(b.player, c.player) {
      StringLessTransitive(a.player, b.player, c.player);
    }
  }

  /** Exactly one of "before", "same", "after". */
  lemma LessTotal(a: ScoreKey, b: ScoreKey)
    ensures a == b <==> !Less(a, b) && !Less(b, a)
    ensures !(Less(a, b) && Less(b, a))
  {
    StringLessTotal(a.player, b.player);
  }

  /** Decoding undoes encoding bit for bit, NaN payloads included, and back again:
      the encoding is a bijection of the 64-bit patterns. */
  lemma EncodeDecode(b: Bits, order: SortOrder)
    ensures Decode(Encode(b, order), order) == b
    ensures Encode(Decode(b, order), order) == b
  {
    var s := Sortable(b);
    assert b < SIGN ==> s == b + SIGN;
    assert b >= SIGN ==> s == 0xFFFF_FFFF_FFFF_FFFF - b && s < SIGN;
  }

  /** Key order is numeric order (reversed for `HighestFirst`); it separates exactly one pair
      that compares equal as numbers, the two zeros. */
  lemma EncodedOrderIsNumericOrder(a: Bits, b: Bits, order: SortOrder)
    requires !IsNaN(a) && !IsNaN(b)
    ensures order.LowestFirst? ==>
              (Encode(a, order) < Encode(b, order) <==>
               Scaled(a) < Scaled(b) || (a == NEGATIVE_ZERO && b == POSITIVE_ZERO))
    ensures order.HighestFirst? ==>
              (Encode(a, order) < Encode(b, order) <==>
               Scaled(b) < Scaled(a) || (b == NEGATIVE_ZERO && a == POSITIVE_ZERO))
  {
    SortableOrder(a, b);
    SortableOrder(b, a);
  }

  lemma SortableOrder(a: Bits, b: Bits)
    ensures Sortable(a) < Sortable(b) <==>
            Scaled(a) < Scaled(b) || (a == NEGATIVE_ZERO && b == POSITIVE_ZERO)
  {
    var ma, mb := if a < SIGN then a else a - SIGN, if b < SIGN then b else b - SIGN;
    assert a % SIGN == ma && b % SIGN == mb;
    MagnitudeOrder(a, b);
    MagnitudeOrder(b, a);
    ZeroMagnitude(a);
    ZeroMagnitude(b);
  }

  lemma MagnitudeOrder(a: Bits, b: Bits)
    ensures Magnitude(a) < Magnitude(b) <==> a % SIGN < b % SIGN
  {
    if a % SIGN < b % SIGN {
      MagnitudeMonotone(a, b);
    } else if b % SIGN < a % SIGN {
      MagnitudeMonotone(b, a);
    } else {
      assert Exponent(a) == Exponent(b) && Fraction(a) == Fraction(b);
    }
  }
}
