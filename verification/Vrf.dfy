/**
  The reduction of a 32-bit random word to a range. The word itself comes from a keyed
  derivation of the salt, which is taken as given.
 */
module Vrf {
  import opened Wrappers
  import opened ByteCodec

  datatype VrfError = MaxNotGreater | MinNegative | MaxTooLarge | EmptySalt

  /** The first four bytes of the derivation, read as a big-endian number. */
  function WordOf(output: Bytes): nat
    requires |output| >= 4
  {
    DecodeBE(output[..4])
  }

  /** Every 32-bit word is the word of some derivation output, and each of only one four-byte prefix. */
  lemma WordsAreFourBytes(word: U32)
    ensures |EncodeBE(word, 4)| == 4 && WordOf(EncodeBE(word, 4)) == word
    ensures forall output: Bytes | |output| >= 4 && WordOf(output) == word :: output[..4] == EncodeBE(word, 4)
  {
    Widths();
    RoundTripBE(word, 4);
    assert EncodeBE(word, 4)[..4] == EncodeBE(word, 4);
    forall output: Bytes | |output| >= 4 && WordOf(output) == word
      ensures output[..4] == EncodeBE(word, 4)
    {
      EncodeDecodeBE(output[..4]);
    }
  }

  /** The accepted bounds: max may be 2^32 itself. */
  predicate Accepted(saltLength: nat, min: int, max: int) {
    0 <= min < max <= U32_LIMIT && saltLength > 0
  }

  function RandomNumber(word: U32, saltLength: nat, min: int, max: int): (r: Result<int, VrfError>)
    ensures r.Ok? <==> Accepted(saltLength, min, max)
    ensures r.Ok? ==> min <= r.value <= max
  {
    if min >= max then Err(MaxNotGreater)
    else if min < 0 then Err(MinNegative)
    else if max > U32_LIMIT then Err(MaxTooLarge)
    else if saltLength == 0 then Err(EmptySalt)
    else Ok(word % (max - min + 1) + min)
  }

  function VerifyNumber(word: U32, saltLength: nat, min: int, max: int, n: int): Result<bool, VrfError> {
    match RandomNumber(word, saltLength, min, max)
    case Err(e) => Err(e)
    case Ok(r) => Ok(n == r)
  }

  /**
    For any salt and accepted bounds exactly one number verifies, and it lies within them; for
    any other bounds or an empty salt every verification throws.
   */
  lemma ExactlyOneNumberVerifies(word: U32, saltLength: nat, min: int, max: int)
    ensures Accepted(saltLength, min, max) ==>
              exists n :: min <= n <= max && VerifyNumber(word, saltLength, min, max, n) == Ok(true)
                          && forall other | other != n :: VerifyNumber(word, saltLength, min, max, other) == Ok(false)
    ensures !Accepted(saltLength, min, max) ==>
              forall n :: VerifyNumber(word, saltLength, min, max, n) == Err(
                if max <= min then MaxNotGreater else if min < 0 then MinNegative
                else if max > 0x1_0000_0000 then MaxTooLarge else EmptySalt)
    ensures Accepted(saltLength, min, max) <==> 0 <= min < max <= 0x1_0000_0000 && saltLength != 0
  {
    if Accepted(saltLength, min, max) {
      var n := RandomNumber(word, saltLength, min, max).value;
      assert VerifyNumber(word, saltLength, min, max, n) == Ok(true);
    }
  }

  /** The words below a limit with a given remainder. */
  ghost function Residues(n: nat, offset: nat, limit: nat): set<nat>
    requires n > 0
  {
    set r: nat | r < limit && r % n == offset
  }

  function ResidueCount(n: nat, offset: nat, limit: nat): nat
    requires n > 0
  {
    limit / n + if offset < limit % n then 1 else 0
  }

  lemma {:induction false} CountResidues(n: nat, offset: nat, limit: nat)
    requires offset < n
    ensures |Residues(n, offset, limit)| == ResidueCount(n, offset, limit)
  {
    if limit == 0 {
      assert Residues(n, offset, 0) == {};
      ModUnique(0, n, 0, 0);
    } else {
      CountResidues(n, offset, limit - 1);
      CountStep(n, offset, limit - 1);
      if (limit - 1) % n == offset {
        assert Residues(n, offset, limit) == Residues(n, offset, limit - 1) + {limit - 1};
      } else {
        assert Residues(n, offset, limit) == Residues(n, offset, limit - 1);
      }
    }
  }

  /** The closed form grows by one exactly at the words with the remainder. */
  lemma CountStep(n: nat, offset: nat, k: nat)
    requires offset < n
    ensures ResidueCount(n, offset, k + 1) == ResidueCount(n, offset, k) + if k % n == offset then 1 else 0
  {
    var q, r := k / n, k % n;
    assert k == q * n + r;
    if r + 1 < n {
      ModUnique(k + 1, n, q, r + 1);
    } else {
      assert k + 1 == (q + 1) * n;
      ModUnique(k + 1, n, q + 1, 0);
    }
  }

  /** The words that are reduced to a given result. */
  ghost function Preimages(saltLength: nat, min: int, max: int, result: int): set<nat> {
    set word: nat | word < U32_LIMIT && RandomNumber(word, saltLength, min, max) == Ok(result)
  }

  /**
    The reduction is as even as it can be: over all 2^32 words each result in the range is hit
    floor(2^32 / n) times, or once more for the first 2^32 % n results, where n is the size of
    the range; no other result is ever hit. With n = 2^32 + 1 the last result is never hit.
   */
  lemma ReductionIsEven(saltLength: nat, min: int, max: int, result: int)
    requires Accepted(saltLength, min, max)
    ensures var n := max - min + 1;
            |Preimages(saltLength, min, max, result)| ==
            if min <= result <= max
            then U32_LIMIT / n + (if result - min < U32_LIMIT % n then 1 else 0)
            else 0
  {
    var n := max - min + 1;
    if min <= result <= max {
      assert Preimages(saltLength, min, max, result) == Residues(n, result - min, U32_LIMIT);
      CountResidues(n, result - min, U32_LIMIT);
    } else {
      assert Preimages(saltLength, min, max, result) == {};
    }
  }

  /** The widest accepted range has one more result than there are words. */
  lemma WidestRangeMissesItsMaximum(saltLength: nat)
    requires saltLength > 0
    ensures |Preimages(saltLength, 0, U32_LIMIT, U32_LIMIT)| == 0
    ensures forall result: nat | result < U32_LIMIT :: |Preimages(saltLength, 0, U32_LIMIT, result)| == 1
  {
    ModUnique(U32_LIMIT, U32_LIMIT + 1, 0, U32_LIMIT);
    ReductionIsEven(saltLength, 0, U32_LIMIT, U32_LIMIT);
    forall result: nat | result < U32_LIMIT ensures |Preimages(saltLength, 0, U32_LIMIT, result)| == 1 {
      ReductionIsEven(saltLength, 0, U32_LIMIT, result);
    }
  }

  /** Every number of an accepted range can be drawn exactly when there are no more of them than words. */
  lemma EveryNumberIsDrawnExactlyWhen(saltLength: nat, min: int, max: int)
    requires Accepted(saltLength, min, max)
    ensures (forall r | min <= r <= max :: |Preimages(saltLength, min, max, r)| > 0) <==> max - min < U32_LIMIT
  {
    var n := max - min + 1;
    if n <= U32_LIMIT {
      forall r | min <= r <= max ensures |Preimages(saltLength, min, max, r)| > 0 {
        ReductionIsEven(saltLength, min, max, r);
        QuotientPositive(n);
      }
    } else {
      WidestRangeMissesItsMaximum(saltLength);
      assert min == 0 && max == U32_LIMIT;
    }
  }

  lemma QuotientPositive(n: nat)
    requires 0 < n <= U32_LIMIT
    ensures U32_LIMIT / n > 0
  {
    if U32_LIMIT / n == 0 {
      ModUnique(U32_LIMIT, n, 0, U32_LIMIT % n);
    }
  }
}
