/**
 * Where the package under gdb_lua/ and gdb_lua.py part ways.  Each lemma
 * states when the two give the same answer and exhibits the inputs on
 * which they do not.
 */
module Differences {
  import opened Wrappers
  import opened LuaObjects
  import opened Tags
  import opened Text
  import opened Strategy
  import opened Selection
  import opened Output
  import opened Walkers
  import opened Render
  import opened Commands
  import opened PkgTypes
  import opened PkgLua
  import opened PkgPrinting

  /**
   * Both `idx_or_none` give the item at an index inside the sequence and
   * nothing at or past its end; below 0 the package's indexes from the end
   * (or raises `IndexError` below `-len(v)`) where gdb_lua.py's gives `None`.
   */
  lemma IdxOrNoneAgreement<T>(v: seq<T>, i: int)
    ensures 0 <= i < |v| ==> PkgIdxOrNone(v, i) == Found(IdxOrNone(v, i).value)
    ensures i >= |v| ==> PkgIdxOrNone(v, i) == Absent && IdxOrNone(v, i) == None
    ensures -|v| <= i < 0 ==> PkgIdxOrNone(v, i) == Found(v[|v| + i]) && IdxOrNone(v, i) == None
    ensures i < -|v| ==> PkgIdxOrNone(v, i) == IndexError && IdxOrNone(v, i) == None
  {
  }

  /**
   * The two `stack_idx` agree on every index from 0 up; every negative
   * index is accepted by gdb_lua.py's and refused by the package's.
   */
  lemma StackIdxAgreement(L: LuaState, i: int)
    ensures i >= 0 ==> PkgStackIdx(L, i) == StackIdx(L, i)
    ensures i < 0 ==> PkgStackIdx(L, i) == None && StackIdx(L, i) == Some(L.top + i)
  {
  }

  /**
   * So `lua stack N` shows the same line in both for N >= 0, while a
   * negative N, which gdb_lua.py resolves from the top, is an invalid
   * stack index for the package.
   */
  lemma DumpStackIdxAgreement(L: LuaState, i: int)
    requires StackIdx(L, i).Some? && InMemory(L, StackIdx(L, i).value) ==> TypeTag(L.slots[StackIdx(L, i).value].tt) < 9
    ensures i >= 0 ==> PkgDumpStackIdx(L, i) == DumpStackIdx(L, i)
    ensures i < 0 ==> PkgDumpStackIdx(L, i) == Err(InvalidStackIndex(i)) && DumpStackIdx(L, i) != Err(InvalidStackIndex(i))
  {
    StackIdxAgreement(L, i);
  }

  /**
   * The two `dump` agree on nil, booleans, light userdata, numbers,
   * strings, tables and threads.  A function differs only for variant 3
   * (`None` against `unknown function`), a userdata only on 5.4 with no
   * user values (gdb_lua.py writes `nuvalue: 0, `), and a tag above 8 is
   * shown raw by gdb_lua.py and with its gdb type by the package.
   */
  lemma DumpAgreement(s: Strategy, lt: LineTable, v: Value, tt: int)
    requires TypeTag(tt) == LUA_TTABLE ==> TableReadable(v.gc.h)
    ensures TypeTag(tt) < 9 && TypeTag(tt) != LUA_TFUNCTION && TypeTag(tt) != LUA_TUSERDATA ==>
      Dump(s, lt, v, tt) == Some(PkgDump(s, lt, v, tt))
    ensures TypeTag(tt) == LUA_TFUNCTION ==>
      (Dump(s, lt, v, tt) == Some(PkgDump(s, lt, v, tt)) <==> Variant(tt) != 3)
    ensures TypeTag(tt) == LUA_TUSERDATA ==>
      (Dump(s, lt, v, tt) == Some(PkgDump(s, lt, v, tt)) <==> s.Lua53? || v.gc.u.nuvalue != 0)
    ensures TypeTag(tt) >= 9 ==> Dump(s, lt, v, tt) == Some([Raw(v)]) && PkgDump(s, lt, v, tt) == [TypedRepr(v)]
  {
    FunctionKindsExclusive(tt);
    PkgFunctionKinds(tt);
    if TypeTag(tt) == LUA_TUSERDATA {
      UserdataAgreement(s, v);
    }
  }

  lemma UserdataAgreement(s: Strategy, v: Value)
    ensures DumpUserdata(s, v) == PkgDumpUserdata(s, v) <==> s.Lua53? || v.gc.u.nuvalue != 0
  {
    var tail := "size: " + IntToString(v.gc.u.len) + ")";
    var nt := NuvalueText(PkgUv(s, v.p, v.gc.u).1);
    var mt := Uv(s, v.p, v.gc.u).1;
    assert DumpUserdata(s, v)[1].text == " (" + mt + tail;
    assert PkgDumpUserdata(s, v)[1].text == " (" + nt + tail;
    if !s.Lua53? && v.gc.u.nuvalue == 0 {
      assert |mt| > 0 && nt == "";
      assert |DumpUserdata(s, v)[1].text| != |PkgDumpUserdata(s, v)[1].text|;
    }
  }

  /** Tables get the `map` hint only from gdb_lua.py; strings get `string` from both. */
  lemma DisplayHintAgreement(tv: TValue)
    ensures TypeTag(tv.tt) != LUA_TTABLE ==> PkgDisplayHint(tv) == DisplayHint(tv.tt)
    ensures TypeTag(tv.tt) == LUA_TTABLE ==> PkgDisplayHint(tv) == None && DisplayHint(tv.tt) == Some("map")
  {
  }

  /**
   * The 5.3 header sizes: the package's `max(sizeof, sizeof(L_Umaxalign))`
   * equals gdb_lua.py's `round_up(sizeof, max_align)` when the header is
   * already a multiple of the alignment and no smaller than `L_Umaxalign`;
   * a 20-byte header with 8-byte alignment starts the payload at 20 in the
   * package and at 24 in gdb_lua.py.
   */
  lemma HeaderSizeAgreement(size: nat, umaxSize: nat, align: int)
    requires align > 0
    ensures size % align == 0 && umaxSize <= size ==> Max(size, umaxSize) == RoundUp(size, align)
    ensures Max(20, 8) == 20 && RoundUp(20, 8) == 24
  {
    DivModUnique(20, 8, 2, 4);
  }

  /**
   * The package picks 5.3 or 5.4 by the `lua_newuserdatauv` symbol and never
   * reads `lua_ident`, so the 5.4.6 that gdb_lua.py refuses is read with
   * the 5.4 strategy; it never builds the 5.4.0-1 strategy either.
   */
  lemma InitAgreement(inf: Inferior, rest: string)
    requires TypesPresent(inf)
    requires forall k | 0 <= k < |PKG_BASE_TYPES| :: PKG_BASE_TYPES[k] in inf.types
    requires "lua_newuserdatauv" in inf.symbols
    requires rest == [] || !IsDigit(rest[0])
    ensures Init(WithIdent(inf, IdentText(5, 4, 6, rest))) == Err(Unsupported(5, 4, 6))
    ensures PkgInit(WithIdent(inf, IdentText(5, 4, 6, rest))) == Ok(Lua54)
    ensures Init(WithIdent(inf, IdentText(5, 4, 1, rest))) == Ok(Lua54Le1)
    ensures PkgInit(WithIdent(inf, IdentText(5, 4, 1, rest))) == Ok(Lua54)
  {
    VersionExamples(inf, rest);
    PkgInitIgnoresIdent(inf, IdentText(5, 4, 6, rest));
    PkgInitIgnoresIdent(inf, IdentText(5, 4, 1, rest));
  }

  /** Whatever `lua_ident` holds, the package selects the same strategy. */
  lemma PkgInitIgnoresIdent(inf: Inferior, ident: string)
    ensures PkgInit(WithIdent(inf, ident)) == PkgInit(inf)
    ensures "lua_newuserdatauv" in inf.symbols
      && (forall k | 0 <= k < |PKG_BASE_TYPES| :: PKG_BASE_TYPES[k] in inf.types)
      ==> PkgInit(inf) == Ok(Lua54)
  {
    var i2 := WithIdent(inf, ident);
    assert i2.types == inf.types;
    assert IsLua53(i2) == IsLua53(inf);
    assert FirstMissing(PKG_BASE_TYPES, i2.types) == FirstMissing(PKG_BASE_TYPES, inf.types);
    if FirstMissing(PKG_BASE_TYPES, inf.types).None? && IsLua53(inf) {
      assert PkgMakeLua53(i2) == PkgMakeLua53(inf);
    }
  }
}
