/**
 * The per-version strategies of gdb_lua.py: `Lua53`, `Lua54` and its
 * subclass `Lua54_le1`, as a closed datatype.  Each function below is one
 * overridden method; the layout fields that the subclasses read from
 * differently named C fields (`sizearray`/`alimit`, `i_key.tvk`/`u`,
 * dereference/`val`) are one field each in the data model, so only the
 * behaviour that differs between versions is dispatched here.
 */
module Strategy {
  import opened Wrappers
  import opened LuaObjects
  import opened Tags
  import Text

  /**
   * `Lua53` carries the header sizes its constructor computes: where a
   * string's bytes and a userdata's payload start after the object.
   */
  datatype Strategy = Lua53(tstringSize: nat, udataSize: nat) | Lua54 | Lua54Le1

  /** `isinteger`: 5.3 marks integers with a non-zero variant, 5.4 with variant 0. */
  predicate IsInteger(s: Strategy, tt: int) {
    match s
    case Lua53(_, _) => Variant(tt) != 0
    case _ => Variant(tt) == 0
  }

  /**
   * `int(toboolean(v, tt))`: 5.3 reads the `b` arm of the payload, 5.4 tests
   * the variant bits of the tag.
   */
  function ToBoolean(s: Strategy, v: Value, tt: int): (b: int)
    ensures !s.Lua53? ==> (b == 1 <==> Variant(tt) != 0) && (b == 0 <==> Variant(tt) == 0)
    ensures s.Lua53? ==> b == v.b
  {
    match s
    case Lua53(_, _) => v.b
    case _ => if Variant(tt) != 0 then 1 else 0
  }

  /** `is_tail`: bit 5 of `callstatus` (`& (1 << 5)`), except bit 4 on 5.4.0 and 5.4.1. */
  predicate IsTail(s: Strategy, callstatus: nat) {
    BitSet(callstatus, if s.Lua54Le1? then 4 else 5)
  }

  /**
   * The address `string_contents` gives gdb: on 5.3 the string's bytes
   * follow the header (`data_suffix(address, tstring_size)`), on 5.4 it is
   * the address of the `contents` field.
   */
  function StringData(s: Strategy, p: Addr, ts: TString): Addr {
    match s
    case Lua53(tsize, _) => p + tsize
    case _ => ts.contentsAddr
  }

  /**
   * `uv`: the payload address of a userdata and the `nuvalue: N, ` text;
   * 5.3 has no user-value count and gives an empty text.
   */
  function Uv(s: Strategy, p: Addr, u: Udata): (Addr, string) {
    match s
    case Lua53(_, usize) => (p + usize, "")
    case _ => (u.uvAddr, "nuvalue: " + Text.IntToString(u.nuvalue) + ", ")
  }

  /** `hash_kv`: the node's key and value, or `None` for an empty node (nil value). */
  function HashKV(s: Strategy, n: Node): (r: Option<(TValue, TValue)>)
    ensures r.None? <==> TypeTag(n.val.tt) == LUA_TNIL
    ensures r.Some? ==> r.value.0 == n.key && r.value.1 == n.val
  {
    if TypeTag(n.val.tt) != LUA_TNIL then Some((n.key, n.val)) else None
  }

  /**
   * The two families read the number variant the opposite way round, and
   * the 5.4.0-1 strategy inherits 5.4's reading.
   */
  lemma IsIntegerInverted(tt: int)
    ensures IsInteger(Lua54, tt) == IsInteger(Lua54Le1, tt)
    ensures forall ts: nat, us: nat :: IsInteger(Lua53(ts, us), tt) != IsInteger(Lua54, tt)
  {
  }

  /**
   * Each strategy decodes its own VM's number and boolean tags: 5.3 has
   * integers at `3 | 1 << 4` and floats at 3; 5.4 has integers at 3, floats
   * at `3 | 1 << 4`, false at 1 and true at `1 | 1 << 4`.
   */
  lemma VersionTags(ts: nat, us: nat, v: Value)
    ensures IsInteger(Lua53(ts, us), 19) && !IsInteger(Lua53(ts, us), 3)
    ensures IsInteger(Lua54, 3) && !IsInteger(Lua54, 19)
    ensures ToBoolean(Lua54, v, 1) == 0 && ToBoolean(Lua54, v, 17) == 1
  {
    MakeVariantRoundTrip(3, 1, 0);
    MakeVariantRoundTrip(3, 0, 0);
    MakeVariantRoundTrip(1, 1, 0);
    MakeVariantRoundTrip(1, 0, 0);
  }

  /** The tail-call bit sits at different positions: a status of 1 << 4 is a tail call only for 5.4.0-1. */
  lemma TailBitPositions(ts: nat, us: nat)
    ensures IsTail(Lua54Le1, 16) && !IsTail(Lua54, 16) && !IsTail(Lua53(ts, us), 16)
    ensures !IsTail(Lua54Le1, 32) && IsTail(Lua54, 32) && IsTail(Lua53(ts, us), 32)
  {
    assert Pow2(4) == 16 by { assert Pow2(2) == 4; }
    assert Pow2(5) == 32;
  }
}
