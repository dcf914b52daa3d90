/**
 * gdb_lua/types.py, the tag helpers of the older package.  The type
 * constants, `TYPE_NAMES`, `array_cap` and `hash_cap` are the same
 * definitions as in gdb_lua.py and are shared from `Tags`; what the package
 * spells differently (`ttype` on a whole value, `variant` through named
 * shift and mask constants, the function predicates through named
 * variants) is defined here and related to `Tags`.
 */
module PkgTypes {
  import opened LuaObjects
  import opened Tags

  const VARIANT_SHIFT: nat := 4
  const VARIANT_MASK: int := 3

  const VARIANT_LUA_CLOSURE: int := 0
  const VARIANT_LIGHT_CFUNCTION: int := 1
  const VARIANT_C_CLOSURE: int := 2

  /** `ttype(v)`: the type nibble of a tagged value's `tt_`. */
  function TType(v: TValue): (t: int)
    ensures 0 <= t <= TTYPE_MASK
    ensures t == TypeTag(v.tt)
  {
    v.tt % (TTYPE_MASK + 1)
  }

  /** `variant(tt)`: `(tt >> VARIANT_SHIFT) & VARIANT_MASK`. */
  function PkgVariant(tt: int): (v: int)
    ensures 0 <= v <= VARIANT_MASK
    ensures v == Variant(tt)
  {
    (tt / Pow2(VARIANT_SHIFT)) % (VARIANT_MASK + 1)
  }

  predicate PkgIsLuaClosure(tt: int) { PkgVariant(tt) == VARIANT_LUA_CLOSURE }
  predicate PkgIsLightCFunction(tt: int) { PkgVariant(tt) == VARIANT_LIGHT_CFUNCTION }
  predicate PkgIsCClosure(tt: int) { PkgVariant(tt) == VARIANT_C_CLOSURE }

  /**
   * The package's function predicates are those of gdb_lua.py: mutually
   * exclusive, and variant 3 satisfies none of them.
   */
  lemma PkgFunctionKinds(tt: int)
    ensures PkgIsLuaClosure(tt) == IsLuaClosure(tt)
    ensures PkgIsLightCFunction(tt) == IsLightCFunction(tt)
    ensures PkgIsCClosure(tt) == IsCClosure(tt)
    ensures !(PkgIsLuaClosure(tt) && PkgIsLightCFunction(tt))
    ensures !(PkgIsLuaClosure(tt) && PkgIsCClosure(tt))
    ensures !(PkgIsLightCFunction(tt) && PkgIsCClosure(tt))
    ensures PkgVariant(tt) == 3 <==> !PkgIsLuaClosure(tt) && !PkgIsLightCFunction(tt) && !PkgIsCClosure(tt)
  {
    FunctionKindsExclusive(tt);
  }

  /** `TYPE_NAMES[LUA_T*]` names each of the nine type constants. */
  lemma TypeNamesByConstant()
    ensures TYPE_NAMES[LUA_TNIL] == "nil" && TYPE_NAMES[LUA_TBOOLEAN] == "boolean"
    ensures TYPE_NAMES[LUA_TLIGHTUSERDATA] == "lightuserdata" && TYPE_NAMES[LUA_TNUMBER] == "number"
    ensures TYPE_NAMES[LUA_TSTRING] == "string" && TYPE_NAMES[LUA_TTABLE] == "table"
    ensures TYPE_NAMES[LUA_TFUNCTION] == "function" && TYPE_NAMES[LUA_TUSERDATA] == "userdata"
    ensures TYPE_NAMES[LUA_TTHREAD] == "thread" && |TYPE_NAMES| == LUA_TTHREAD + 1
  {
  }
}
