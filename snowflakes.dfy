/**
 * Snowflake identifiers (server/utils.py, server/snowflake.py,
 * server/v1/models/snowflake.py). An ID packs the milliseconds elapsed
 * since 2024-01-01T00:00:00Z above a 24-bit random tail. Instants are
 * modelled as integer milliseconds of Unix time; the clock reading and the
 * four random bytes are parameters.
 */
module Snowflakes {
  /** 2024-01-01T00:00:00Z (`EPOCH` in server/config.py), as Unix milliseconds. */
  const EPOCH_MS: int := 1704067200000

  /** `1 << 24`: the tail occupies the low `8 * 3` bits. */
  const TAIL_SPAN: int := 0x100_0000

  /** `1 << 14`: the shift used by the older decoder. */
  const LEGACY_SPAN: int := 0x4000

  /** Python's `x >> n` for `n >= 0` on any integer: floor division by `2^n`. */
  function ShiftRight(x: int, span: int): (r: int)
    requires span > 0
    ensures r * span <= x < r * span + span
  {
    x / span
  }

  /**
   * `generate_id()`: `(now << 24) | (random & 0xFFFFFF)`, where `now` is
   * the milliseconds since the epoch and `random` the unsigned 32-bit value
   * unpacked from `randbytes(4)`. The left shift leaves the low 24 bits
   * zero, so the OR is an addition.
   */
  function GenerateId(now: int, random: nat): (id: int)
    ensures id % TAIL_SPAN == random % TAIL_SPAN
    ensures ShiftRight(id, TAIL_SPAN) == now
  {
    now * TAIL_SPAN + random % TAIL_SPAN
  }

  /** `snowflake_time(id)`: the epoch plus `id >> 24` milliseconds. */
  function SnowflakeTime(id: int): int {
    EPOCH_MS + ShiftRight(id, TAIL_SPAN)
  }

  /** Decoding a freshly generated ID recovers the instant it was minted at. */
  lemma {:induction false} SnowflakeTimeOfGenerated(now: int, random: nat)
    ensures SnowflakeTime(GenerateId(now, random)) == EPOCH_MS + now
  {
  }

  /** IDs minted in a strictly later millisecond are strictly larger, whatever their tails. */
  lemma {:induction false} GenerateIdMonotonic(now1: int, random1: nat, now2: int, random2: nat)
    requires now1 < now2
    ensures GenerateId(now1, random1) < GenerateId(now2, random2)
  {
  }

  /** `snowflake_time` never goes backwards as IDs grow. */
  lemma {:induction false} SnowflakeTimeMonotonic(id1: int, id2: int)
    requires id1 <= id2
    ensures SnowflakeTime(id1) <= SnowflakeTime(id2)
  {
  }

  /** `created_at` of server/snowflake.py: the epoch plus `id >> 14` milliseconds. */
  function LegacyCreatedAt(id: int): int {
    EPOCH_MS + ShiftRight(id, LEGACY_SPAN)
  }

  /** The older decoder ignores the low 14 bits. */
  lemma {:induction false} LegacyIgnoresLowBits(high: int, low1: int, low2: int)
    requires 0 <= low1 < LEGACY_SPAN && 0 <= low2 < LEGACY_SPAN
    ensures LegacyCreatedAt(high * LEGACY_SPAN + low1) == LegacyCreatedAt(high * LEGACY_SPAN + low2)
    ensures LegacyCreatedAt(high * LEGACY_SPAN + low1) == EPOCH_MS + high
  {
    LegacyShiftOf(high, low1);
    LegacyShiftOf(high, low2);
  }

  lemma {:induction false} LegacyShiftOf(high: int, low: int)
    requires 0 <= low < LEGACY_SPAN
    ensures ShiftRight(high * LEGACY_SPAN + low, LEGACY_SPAN) == high
  {
  }

  /** The older decoder is monotone too. */
  lemma {:induction false} LegacyCreatedAtMonotonic(id1: int, id2: int)
    requires id1 <= id2
    ensures LegacyCreatedAt(id1) <= LegacyCreatedAt(id2)
  {
  }

  /**
   * For an ID from `generate_id`, the older decoder reads
   * `now * 1024 + (tail >> 14)` milliseconds instead of `now`: the two
   * decoders disagree on every ID minted after the first millisecond.
   */
  lemma {:induction false} LegacyMisreadsGenerated(now: int, random: nat)
    ensures LegacyCreatedAt(GenerateId(now, random))
         == EPOCH_MS + now * 1024 + ShiftRight(random % TAIL_SPAN, LEGACY_SPAN)
    ensures now > 0 ==> LegacyCreatedAt(GenerateId(now, random)) != SnowflakeTime(GenerateId(now, random))
  {
    var tail := random % TAIL_SPAN;
    var t := ShiftRight(tail, LEGACY_SPAN);
    var low := tail - t * LEGACY_SPAN;
    assert GenerateId(now, random) == (now * 1024 + t) * LEGACY_SPAN + low by {
      assert now * TAIL_SPAN == now * 1024 * LEGACY_SPAN;
    }
    LegacyShiftOf(now * 1024 + t, low);
    assert 0 <= t;
  }

  /** The v1 Snowflake model: a pydantic model holding one integer `id`. */
  datatype Snowflake = Snowflake(id: int)
  {
    /** `created_at`: `snowflake_time(id)`. */
    function CreatedAt(): int {
      SnowflakeTime(id)
    }
  }

  /** The right-hand operand of `==`: another Snowflake or any other Python object. */
  datatype PyObject = SnowflakeObject(snowflake: Snowflake) | OtherObject(tag: int)

  /** What `__eq__` returns: a boolean, or the `NotImplemented` sentinel. */
  datatype EqOutcome = Bool(value: bool) | NotImplemented

  /**
   * `Snowflake.__eq__`: compare ids against another Snowflake, otherwise
   * `NotImplemented`, which is never a true answer.
   */
  function Equals(self: Snowflake, other: PyObject): (r: EqOutcome)
    ensures r == Bool(true) <==> other.SnowflakeObject? && other.snowflake.id == self.id
    ensures other.OtherObject? <==> r == NotImplemented
  {
    if other.SnowflakeObject? then Bool(self.id == other.snowflake.id) else NotImplemented
  }

  /** CPython's modulus for hashing integers: the Mersenne prime `2^61 - 1`. */
  const HASH_MODULUS: int := 0x1FFF_FFFF_FFFF_FFFF

  /**
   * `hash(x)` for a Python int: `|x| mod (2^61 - 1)` with the sign of `x`,
   * where a result of -1 becomes -2 (-1 is reserved for errors).
   */
  function IntHash(x: int): (h: int)
    ensures h != -1
    ensures -HASH_MODULUS < h < HASH_MODULUS
    ensures 0 <= x < HASH_MODULUS ==> h == x
  {
    if x >= 0 then x % HASH_MODULUS
    else
      var m := -((-x) % HASH_MODULUS);
      if m == -1 then -2 else m
  }

  /** `Snowflake.__hash__`: `hash(id)`. */
  function Hash(self: Snowflake): int {
    IntHash(self.id)
  }

  /** Snowflakes that `__eq__` calls equal have equal hashes, as `__hash__` must guarantee. */
  lemma {:induction false} EqualImpliesSameHash(a: Snowflake, b: Snowflake)
    requires Equals(a, SnowflakeObject(b)) == Bool(true)
    ensures Hash(a) == Hash(b)
  {
    assert a.id == b.id;
  }

  /** `created_at` of a v1 Snowflake built from `generate_id` is the instant of minting. */
  lemma {:induction false} CreatedAtOfGenerated(now: int, random: nat)
    ensures Snowflake(GenerateId(now, random)).CreatedAt() == EPOCH_MS + now
  {
    SnowflakeTimeOfGenerated(now, random);
  }
}
