/**
 * gdb_lua/printing.py, the value printer of the older package: its
 * `display_hint`, its `_DUMP` table and `dump`.  `_iter_array`,
 * `_iter_hash` and `_dump_table` are the same loops and counts as in
 * gdb_lua.py and are shared from `Walkers` and `Render`.
 */
module PkgPrinting {
  import opened Wrappers
  import opened LuaObjects
  import opened Tags
  import opened Text
  import opened Strategy
  import opened Output
  import opened Render
  import opened PkgTypes
  import opened PkgLua

  /** The package's `display_hint`: only strings get a hint. */
  function PkgDisplayHint(v: TValue): (r: Option<string>)
    ensures r.Some? <==> TType(v) == LUA_TSTRING
    ensures r.Some? ==> r.value == "string"
  {
    if TType(v) == LUA_TSTRING then Some("string") else None
  }

  /**
   * The package's `_dump_function`: the C closure is tested first, then the
   * Lua closure and the light C function, and any other variant is shown
   * as `unknown function`.
   */
  function PkgDumpFunction(lt: LineTable, v: Value, tt: int): seq<Piece> {
    if PkgIsCClosure(tt) then
      var cl := v.gc.c;
      [Lit("cclosure "), Ptr(cl.f)] + LocPieces(lt, cl.f) + [Lit(" (nupvalues: " + IntToString(cl.nupvalues) + ")")]
    else if PkgIsLuaClosure(tt) then [Lit("lclosure "), Ptr(v.p)]
    else if PkgIsLightCFunction(tt) then [Lit("cfunction "), Ptr(v.p)] + LocPieces(lt, v.p)
    else [Lit("unknown function "), Ptr(v.p)]
  }

  /** The `nuvalue: N, ` text, present only for a non-zero count. */
  function NuvalueText(nuv: Option<int>): (t: string)
    ensures t != "" <==> nuv.Some? && nuv.value != 0
  {
    match nuv
    case Some(n) => if n != 0 then "nuvalue: " + IntToString(n) + ", " else ""
    case None => ""
  }

  /** The package's `_dump_userdata`. */
  function PkgDumpUserdata(s: Strategy, v: Value): seq<Piece> {
    var (uv, nuv) := PkgUv(s, v.p, v.gc.u);
    [Ptr(uv), Lit(" (" + NuvalueText(nuv) + "size: " + IntToString(v.gc.u.len) + ")")]
  }

  /** The package's `dump`: every tag has an answer. */
  function PkgDump(s: Strategy, lt: LineTable, v: Value, tt: int): seq<Piece>
    requires TypeTag(tt) == LUA_TTABLE ==> TableReadable(v.gc.h)
  {
    match DumpIndex(tt)
    case 0 => [Lit("nil")]
    case 1 => [Lit(IntToString(ToBoolean(s, v, tt)))]
    case 2 => [Ptr(v.p)]
    case 3 => DumpNumber(s, v, tt)
    case 4 => [CStr(StringData(s, v.p, v.gc.ts), v.gc.ts.contents)]
    case 5 => [Lit(TableSummary(v.gc.h))]
    case 6 => PkgDumpFunction(lt, v, tt)
    case 7 => PkgDumpUserdata(s, v)
    case 8 => [Ptr(v.p)]
    case _ => [TypedRepr(v)]
  }

  /**
   * Each function kind shows with its own word, variant 3 as
   * `unknown function`, and the C closure's test coming first changes
   * nothing because the kinds are exclusive.
   */
  lemma PkgDumpFunctionKinds(lt: LineTable, v: Value, tt: int)
    ensures PkgDumpFunction(lt, v, tt)[0] ==
      if IsLuaClosure(tt) then Lit("lclosure ")
      else if IsLightCFunction(tt) then Lit("cfunction ")
      else if IsCClosure(tt) then Lit("cclosure ")
      else Lit("unknown function ")
    ensures Variant(tt) == 3 ==> PkgDumpFunction(lt, v, tt) == [Lit("unknown function "), Ptr(v.p)]
  {
    PkgFunctionKinds(tt);
    FunctionKindsExclusive(tt);
  }

  /**
   * A userdata's text always ends with its size, and carries the user-value
   * count only on 5.4 and only when it is not zero.
   */
  lemma PkgUserdataText(s: Strategy, v: Value)
    ensures var t := PkgDumpUserdata(s, v)[1].text;
      EndsWith(t, "size: " + IntToString(v.gc.u.len) + ")")
    ensures var t := PkgDumpUserdata(s, v)[1].text;
      (t == " (size: " + IntToString(v.gc.u.len) + ")") <==> (s.Lua53? || v.gc.u.nuvalue == 0)
  {
    var t := PkgDumpUserdata(s, v)[1].text;
    var tail := "size: " + IntToString(v.gc.u.len) + ")";
    var nt := NuvalueText(PkgUv(s, v.p, v.gc.u).1);
    assert t == " (" + nt + tail;
    assert t[|t| - |tail|..] == tail;
    if nt != "" {
      assert |t| > |" (" + tail|;
    }
  }

  /** Tags whose type nibble is 9 to 15 show the value's type and repr. */
  lemma PkgDumpUnknown(s: Strategy, lt: LineTable, v: Value, tt: int)
    requires TypeTag(tt) == LUA_TTABLE ==> TableReadable(v.gc.h)
    ensures TypeTag(tt) >= 9 ==> PkgDump(s, lt, v, tt) == [TypedRepr(v)]
    ensures TypeTag(tt) < 9 ==> TypedRepr(v) !in PkgDump(s, lt, v, tt)
  {
    if DumpIndex(tt) == 6 {
      var cl := v.gc.c;
      assert TypedRepr(v) !in LocPieces(lt, cl.f) && TypedRepr(v) !in LocPieces(lt, v.p);
    }
  }
}
