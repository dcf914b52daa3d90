/**
 * Tag decoding and the small helpers of gdb_lua.py: the `LUA_T*` primary
 * types, `TypeTag` (low nibble), `TypeVariant` (bits 4-5), the function
 * variants, `Lua.type`, `idx_or_none`, `round_up` and the table capacities.
 */
module Tags {
  import opened Wrappers

  const TTYPE_MASK: int := 0xF

  const LUA_TNIL: int := 0
  const LUA_TBOOLEAN: int := 1
  const LUA_TLIGHTUSERDATA: int := 2
  const LUA_TNUMBER: int := 3
  const LUA_TSTRING: int := 4
  const LUA_TTABLE: int := 5
  const LUA_TFUNCTION: int := 6
  const LUA_TUSERDATA: int := 7
  const LUA_TTHREAD: int := 8

  const TYPE_NAMES: seq<string> :=
    ["nil", "boolean", "lightuserdata", "number", "string", "table", "function", "userdata", "thread"]

  /** 2 to the power `n` (Python's `1 << n`). */
  function Pow2(n: nat): (r: int)
    ensures r >= 1
    decreases n
  {
    if n == 0 then 1 else 2 * Pow2(n - 1)
  }

  predicate IsPowerOfTwo(r: int)
    decreases if r > 0 then r else 0
  {
    r == 1 || (r > 1 && r % 2 == 0 && IsPowerOfTwo(r / 2))
  }

  /** `1 << n` is a power of two. */
  lemma {:induction false} Pow2IsPowerOfTwo(n: nat)
    ensures IsPowerOfTwo(Pow2(n))
    decreases n
  {
    if n > 0 {
      var p := Pow2(n - 1);
      Pow2IsPowerOfTwo(n - 1);
      assert (2 * p) % 2 == 0 && (2 * p) / 2 == p;
    }
  }

  /** Python's `x & (1 << k) != 0` for a non-negative `x`. */
  predicate BitSet(x: nat, k: nat) {
    (x / Pow2(k)) % 2 == 1
  }

  /** `TypeTag`: the primary type, `raw & 0xF` (Python's `&` on any integer). */
  function TypeTag(raw: int): (t: int)
    ensures 0 <= t <= TTYPE_MASK
    ensures (raw - t) % 16 == 0
  {
    raw % 16
  }

  /** `TypeVariant`: the sub-kind, `(raw >> 4) & 0b11` (Python's floor shift). */
  function Variant(raw: int): (v: int)
    ensures 0 <= v < 4
  {
    (raw / 16) % 4
  }

  /** The tag byte splits into type, variant and the bits above them. */
  lemma TagFields(raw: int)
    ensures raw == TypeTag(raw) + 16 * Variant(raw) + 64 * (raw / 64)
  {
    var q := raw / 16;
    assert raw == 16 * q + TypeTag(raw);
    assert q == 4 * (q / 4) + Variant(raw);
    assert q / 4 == raw / 64 by {
      var h := q / 4;
      assert raw == 64 * h + (16 * Variant(raw) + TypeTag(raw));
      assert 0 <= 16 * Variant(raw) + TypeTag(raw) < 64;
    }
  }

  /**
   * Decoding undoes Lua's `makevariant(t, v) = t | (v << 4)`, whatever the
   * bits above bit 5 hold (such as the collectable bit 6 that `ctb` sets).
   */
  lemma {:induction false} MakeVariantRoundTrip(t: int, v: int, high: int)
    requires 0 <= t < 16 && 0 <= v < 4
    ensures TypeTag(t + 16 * v + 64 * high) == t
    ensures Variant(t + 16 * v + 64 * high) == v
  {
    var raw := t + 16 * v + 64 * high;
    assert raw == 16 * (v + 4 * high) + t;
    assert raw / 16 == v + 4 * high;
    assert (v + 4 * high) % 4 == v;
  }

  predicate IsLuaClosure(tt: int) { Variant(tt) == 0 }
  predicate IsLightCFunction(tt: int) { Variant(tt) == 1 }
  predicate IsCClosure(tt: int) { Variant(tt) == 2 }

  /** The three function kinds are exclusive; variant 3 is none of them. */
  lemma FunctionKindsExclusive(tt: int)
    ensures !(IsLuaClosure(tt) && IsLightCFunction(tt))
    ensures !(IsLuaClosure(tt) && IsCClosure(tt))
    ensures !(IsLightCFunction(tt) && IsCClosure(tt))
    ensures Variant(tt) == 3 <==> !IsLuaClosure(tt) && !IsLightCFunction(tt) && !IsCClosure(tt)
  {
  }

  /**
   * Lua's own function tags are recognised: a Lua closure (6 | 1 << 6), a
   * light C function (6 | 1 << 4) and a C closure (6 | 2 << 4 | 1 << 6).
   */
  lemma LuaFunctionTags()
    ensures TypeTag(70) == LUA_TFUNCTION && IsLuaClosure(70)
    ensures TypeTag(22) == LUA_TFUNCTION && IsLightCFunction(22)
    ensures TypeTag(102) == LUA_TFUNCTION && IsCClosure(102)
  {
    MakeVariantRoundTrip(6, 0, 1);
    MakeVariantRoundTrip(6, 1, 0);
    MakeVariantRoundTrip(6, 2, 1);
  }

  /** `idx_or_none`: `v[i]` when `0 <= i < len(v)`, else `None`. */
  function IdxOrNone<T>(v: seq<T>, i: int): (r: Option<T>)
    ensures r.Some? <==> 0 <= i < |v|
    ensures r.Some? ==> r.value == v[i]
  {
    if 0 <= i && i < |v| then Some(v[i]) else None
  }

  /** `Lua.type`: the name of a `LUA_T*` constant, `none` for -1 and `unknown` otherwise. */
  function TypeName(i: int): string {
    if i == -1 then "none"
    else match IdxOrNone(TYPE_NAMES, i)
      case Some(name) => if name != "" then name else "unknown"
      case None => "unknown"
  }

  const KNOWN_NAMES: set<string> := set k | 0 <= k < |TYPE_NAMES| :: TYPE_NAMES[k]

  lemma TypeNamesDistinct()
    ensures |TYPE_NAMES| == 9
    ensures forall j, k | 0 <= j < k < |TYPE_NAMES| :: TYPE_NAMES[j] != TYPE_NAMES[k]
    ensures "none" !in KNOWN_NAMES && "unknown" !in KNOWN_NAMES
  {
  }

  /**
   * `Lua.type` never fails: `none` exactly for -1, the name of the constant
   * exactly for 0..8, and `unknown` for every other integer.
   */
  lemma TypeNameCases(i: int)
    ensures TypeName(i) == "none" <==> i == -1
    ensures TypeName(i) == "unknown" <==> (i < -1 || i > LUA_TTHREAD)
    ensures 0 <= i <= LUA_TTHREAD ==> TypeName(i) == TYPE_NAMES[i]
    ensures TypeName(i) in KNOWN_NAMES + {"none", "unknown"}
  {
    TypeNamesDistinct();
    if 0 <= i <= LUA_TTHREAD {
      assert TYPE_NAMES[i] in KNOWN_NAMES;
    }
  }

  /** `round_up`: the least multiple of `n` that is at least `i`. */
  function RoundUp(i: int, n: int): (r: int)
    requires n > 0
    ensures r % n == 0
    ensures i <= r < i + n
    ensures i % n == 0 ==> r == i
  {
    var rem := i % n;
    MultipleOf(n, i / n);
    MultipleOf(n, i / n + 1);
    if rem != 0 then i + (n - rem) else i
  }

  lemma MultipleOf(n: int, k: int)
    requires n > 0
    ensures (n * k) % n == 0 && (n * k) / n == k
  {
    DivModUnique(n * k, n, k, 0);
  }

  /** Euclidean division is determined by its defining equation. */
  lemma DivModUnique(x: int, n: int, q: int, r: int)
    requires n > 0 && 0 <= r < n && x == n * q + r
    ensures x / n == q && x % n == r
  {
    var d := x / n - q;
    assert n * d == r - x % n;
  }

  const INT_MAX: int := 0x7FFF_FFFF

  /**
   * `array_cap`: the array limit cast to a C `int`, which wraps limits of
   * 2^31 and above to negative numbers.
   */
  function ArrayCap(alimit: int): (cap: int)
    requires 0 <= alimit < 0x1_0000_0000
    ensures -INT_MAX - 1 <= cap <= INT_MAX
    ensures (alimit - cap) % 0x1_0000_0000 == 0
    ensures alimit <= INT_MAX ==> cap == alimit
  {
    if alimit <= INT_MAX then alimit else alimit - 0x1_0000_0000
  }

  /** `hash_cap`: `1 << lsizenode`, a power of two and at least 1. */
  function HashCap(lsizenode: nat): (cap: int)
    ensures cap >= 1 && IsPowerOfTwo(cap)
    ensures lsizenode > 0 ==> cap % 2 == 0
  {
    Pow2IsPowerOfTwo(lsizenode);
    Pow2(lsizenode)
  }
}
