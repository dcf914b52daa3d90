/**
 * gdb_lua/lua.py, the strategy side of the older package: its
 * `idx_or_none` and `_stack_idx`, its `lua()` (which tells 5.3 from 5.4
 * by the presence of the `lua_newuserdatauv` symbol), the header sizes of
 * its `Lua53`, its `uv`, and its `dump_stack` / `dump_stack_idx`.  The
 * package's `Lua53` and `Lua54` read tags, booleans and strings as the
 * `Lua53` and `Lua54` strategies of gdb_lua.py do, so it builds those; it
 * has no counterpart of `Lua54_le1`.
 */
module PkgLua {
  import opened Wrappers
  import opened LuaObjects
  import opened Tags
  import opened Text
  import opened Strategy
  import opened Selection
  import opened Output
  import opened Walkers
  import opened Commands

  /** The three outcomes of the package's `idx_or_none`. */
  datatype IndexOutcome<T> = Found(value: T) | Absent | IndexError

  /**
   * The package's `idx_or_none`: only the upper bound is checked, so a
   * negative index is Python's index from the end, and one below `-len(v)`
   * raises `IndexError`.
   */
  function PkgIdxOrNone<T>(v: seq<T>, i: int): (r: IndexOutcome<T>)
    ensures r.Absent? <==> i >= |v|
    ensures r.IndexError? <==> i < -|v|
    ensures r.Found? ==> exists j | 0 <= j < |v| :: (j == i || j == |v| + i) && r.value == v[j]
  {
    if i >= |v| then Absent
    else if i >= 0 then Found(v[i])
    else if i >= -|v| then Found(v[|v| + i])
    else IndexError
  }

  /** The package's `_stack_idx`: positive indices below `top - stack` only. */
  function PkgStackIdx(L: LuaState, i: int): (r: Option<Addr>)
    ensures r.Some? <==> 0 < i < L.top - L.stack
    ensures r.Some? ==> r.value - L.stack == i
  {
    if 0 < i && i < L.top - L.stack then Some(L.stack + i) else None
  }

  /** The types the package's `Lua.__init__` looks up, none of them guarded. */
  const PKG_BASE_TYPES: seq<string> := ["lua_State", "TValue", "union GCUnion", "int", "void", "char"]
  /** The types the package's `Lua53` constructor then looks up. */
  const PKG_LUA53_TYPES: seq<string> := ["L_Umaxalign", "TString", "Udata"]

  /** `_is_lua_53`: the 5.4 API function `lua_newuserdatauv` is absent. */
  predicate IsLua53(inf: Inferior) {
    "lua_newuserdatauv" !in inf.symbols
  }

  /**
   * The package's `Lua53` constructor: a string's bytes and a userdata's
   * payload start after the larger of the header and `L_Umaxalign`.
   */
  function PkgMakeLua53(inf: Inferior): (r: Result<Strategy, InitError>)
    requires forall k | 0 <= k < |PKG_BASE_TYPES| :: PKG_BASE_TYPES[k] in inf.types
    ensures r.Ok? <==> forall k | 0 <= k < |PKG_LUA53_TYPES| :: PKG_LUA53_TYPES[k] in inf.types
    ensures r.Err? ==> r.error.NoSuchType? && r.error.name in PKG_LUA53_TYPES && r.error.name !in inf.types
    ensures r.Ok? ==> "L_Umaxalign" in inf.types && "TString" in inf.types && "Udata" in inf.types
    ensures r.Ok? ==>
      var m := inf.types["L_Umaxalign"].size;
      var ts, us := inf.types["TString"].size, inf.types["Udata"].size;
      && r.value.Lua53?
      && r.value.tstringSize >= ts && r.value.tstringSize >= m && r.value.tstringSize in {ts, m}
      && r.value.udataSize >= us && r.value.udataSize >= m && r.value.udataSize in {us, m}
  {
    match FirstMissing(PKG_LUA53_TYPES, inf.types)
    case Some(name) => Err(NoSuchType(name))
    case None =>
      assert PKG_LUA53_TYPES[0] in inf.types && PKG_LUA53_TYPES[1] in inf.types && PKG_LUA53_TYPES[2] in inf.types;
      var m := inf.types["L_Umaxalign"].size;
      Ok(Lua53(Max(inf.types["TString"].size, m), Max(inf.types["Udata"].size, m)))
  }

  /**
   * What the package's `lua()` computes when `G` is unset: `gdb.error` for
   * the first type the constructors look up and do not find, else `Lua53`
   * or `Lua54` by the symbol test.  There is no version check.
   */
  function PkgInit(inf: Inferior): (r: Result<Strategy, InitError>)
    ensures r.Ok? ==> (r.value.Lua53? <==> IsLua53(inf)) && !r.value.Lua54Le1?
    ensures r.Err? ==> r.error.NoSuchType? && r.error.name !in inf.types
    ensures r.Err? <==>
      || (exists k | 0 <= k < |PKG_BASE_TYPES| :: PKG_BASE_TYPES[k] !in inf.types)
      || (IsLua53(inf) && exists k | 0 <= k < |PKG_LUA53_TYPES| :: PKG_LUA53_TYPES[k] !in inf.types)
  {
    match FirstMissing(PKG_BASE_TYPES, inf.types)
    case Some(name) => Err(NoSuchType(name))
    case None => if IsLua53(inf) then PkgMakeLua53(inf) else Ok(Lua54)
  }

  /**
   * The package's global `G` and `lua()`: built on first use and kept; a
   * failed constructor leaves `G` unset.
   */
  class PkgSession {
    var g: Option<Strategy>

    constructor ()
      ensures g == None
    {
      g := None;
    }

    method Lua(inf: Inferior) returns (r: Result<Strategy, InitError>)
      modifies this
      ensures old(g).Some? ==> g == old(g) && r == Ok(old(g).value)
      ensures old(g).None? ==> r == PkgInit(inf) && g == (if r.Ok? then Some(r.value) else None)
    {
      if g.None? {
        r := PkgInit(inf);
        if r.Ok? {
          g := Some(r.value);
        }
      } else {
        r := Ok(g.value);
      }
    }
  }

  /**
   * The package's `uv`: the payload address and the user-value count, which
   * 5.3 does not have (`None`).
   */
  function PkgUv(s: Strategy, p: Addr, u: Udata): (r: (Addr, Option<int>))
    ensures r.1.None? <==> s.Lua53?
    ensures r.0 == Uv(s, p, u).0
  {
    match s
    case Lua53(_, usize) => (p + usize, None)
    case _ => (u.uvAddr, Some(u.nuvalue))
  }

  /**
   * The package's `dump_stack_idx`: "invalid stack index" unless
   * `_stack_idx` accepts the index, else the slot's type name and value.
   */
  function PkgDumpStackIdx(L: LuaState, i: int): (r: Result<Line, StackError>)
    requires PkgStackIdx(L, i).Some? && InMemory(L, PkgStackIdx(L, i).value) ==> TypeTag(L.slots[PkgStackIdx(L, i).value].tt) < 9
    ensures r == Err(InvalidStackIndex(i)) <==> PkgStackIdx(L, i).None?
    ensures r.Err? && r.error.MemoryError? <==> PkgStackIdx(L, i).Some? && !InMemory(L, PkgStackIdx(L, i).value)
    ensures r.Ok? ==> |r.value| == 2 && r.value[1] == Val(L.slots[PkgStackIdx(L, i).value])
    ensures r.Ok? ==> r.value[0] == Lit(TypeName(TypeTag(L.slots[PkgStackIdx(L, i).value].tt)) + " ")
  {
    match PkgStackIdx(L, i)
    case None => Err(InvalidStackIndex(i))
    case Some(a) => if InMemory(L, a) then Ok(NamedValue(L.slots[a])) else Err(MemoryError(a))
  }

  /**
   * The package's `dump_stack`: for each slot `_iter_stack` yields it
   * writes `N: <address> ` and then what `_dump_stack_idx` writes, which
   * makes the same lines as gdb_lua.py's listing.
   */
  method PkgDumpStack(L: LuaState, i: Option<int>) returns (r: Result<seq<Line>, StackError>)
    requires i.None? ==> L.stack < L.top && LiveSlotsNamed(L)
    requires i.Some? ==> PkgStackIdx(L, i.value).Some? && InMemory(L, PkgStackIdx(L, i.value).value)
                         ==> TypeTag(L.slots[PkgStackIdx(L, i.value).value].tt) < 9
    ensures i.Some? ==> r == (match PkgDumpStackIdx(L, i.value) case Ok(line) => Ok([line]) case Err(e) => Err(e))
    ensures i.None? ==> r == Ok(StackLines(L))
  {
    if i.Some? {
      match PkgDumpStackIdx(L, i.value)
      case Ok(line) => return Ok([line]);
      case Err(e) => return Err(e);
    }
    var slots := IterStack(L);
    var out: seq<Line> := [];
    var k := 0;
    while k < |slots|
      invariant 0 <= k <= |slots|
      invariant out == StackLines(L)[..k]
    {
      out := out + [SlotLine(L, k + 1, slots[k])];
      k := k + 1;
    }
    assert |StackLines(L)| == |slots|;
    assert out == StackLines(L);
    return Ok(out);
  }
}
