/**
 * The text gdb_lua.py produces for a value: `LClosure.location`,
 * `lookup_fn_loc`, the `_DUMP` table behind `Lua.dump` (which the pretty
 * printer's `to_string` returns), and the printer's `display_hint` and
 * `children`.  `dump` and the printer read the strategy `lua()` returns,
 * so each takes it as a parameter.
 */
module Render {
  import opened Wrappers
  import opened LuaObjects
  import opened Tags
  import opened Text
  import opened Strategy
  import opened Output
  import opened Walkers

  // ---------------------------------------------------------------- locations

  const MAIN_CHUNK: string := " in main chunk"

  /**
   * `LClosure.location`: a chunk name starting with `@` is a file name and
   * loses the `@`; any other chunk name is quoted as `[string "..."]` with
   * its line breaks escaped.  The line the function is defined on follows
   * after a colon, or ` in main chunk` for the main chunk (line 0).
   */
  function Location(cl: LClosure): string {
    var line := cl.p.linedefined;
    ChunkName(cl.p.source.contents) + (if line == 0 then MAIN_CHUNK else ":" + IntToString(line))
  }

  /** The chunk-name part of a location. */
  function ChunkName(src: string): string {
    if |src| > 0 && src[0] == '@' then src[1..] else "[string \"" + EscapeNewlines(src) + "\"]"
  }

  predicate EndsWith(t: string, suffix: string) {
    |suffix| <= |t| && t[|t| - |suffix|..] == suffix
  }

  /** The position of the last `c` in `t`. */
  function LastIndexOf(t: string, c: char): (r: Option<nat>)
    ensures r.None? <==> c !in t
    ensures r.Some? ==> r.value < |t| && t[r.value] == c && c !in t[r.value + 1..]
    decreases |t|
  {
    if t == [] then None
    else if t[|t| - 1] == c then Some(|t| - 1)
    else
      var r := LastIndexOf(t[..|t| - 1], c);
      assert r.Some? ==> t[r.value + 1..] == t[..|t| - 1][r.value + 1..] + [t[|t| - 1]];
      assert r.None? ==> t == t[..|t| - 1] + [t[|t| - 1]];
      r
  }

  /**
   * Reads the line number back out of a location: 0 for a main chunk, else
   * the integer after the last colon.
   */
  function LocationLine(t: string): Option<int> {
    if EndsWith(t, MAIN_CHUNK) then Some(0)
    else match LastIndexOf(t, ':')
      case None => None
      case Some(j) => if IsIntText(t[j + 1..]) then Some(ParseInt(t[j + 1..])) else None
  }

  /** The text of an integer holds only digits and a minus sign: no colon and no line break. */
  lemma IntTextChars(d: string)
    requires IsIntText(d)
    ensures forall k | 0 <= k < |d| :: d[k] == '-' || IsDigit(d[k])
    ensures ':' !in d && '\n' !in d
  {
    forall k | 0 <= k < |d| ensures d[k] == '-' || IsDigit(d[k]) {
      if !AllDigits(d) && k > 0 {
        assert d[k] == d[1..][k - 1];
      }
    }
  }

  lemma EndsWithAppend(t: string, suffix: string)
    ensures EndsWith(t + suffix, suffix)
  {
    assert (t + suffix)[|t|..] == suffix;
  }

  /** A text that ends with a non-empty suffix ends with the suffix's last character. */
  lemma EndsWithLast(t: string, suffix: string)
    ensures EndsWith(t, suffix) && |suffix| > 0 ==> t[|t| - 1] == suffix[|suffix| - 1]
  {
    if EndsWith(t, suffix) && |suffix| > 0 {
      assert t[|t| - |suffix|..][|suffix| - 1] == t[|t| - 1];
    }
  }

  /** The last colon of `u + [c] + v` is the one after `u` when `v` has none. */
  lemma {:induction false} LastIndexOfSplit(u: string, c: char, v: string)
    requires c !in v
    ensures LastIndexOf(u + [c] + v, c) == Some(|u|)
    decreases |v|
  {
    var t := u + [c] + v;
    if v != [] {
      var w := v[..|v| - 1];
      assert t[|t| - 1] == v[|v| - 1];
      assert t[..|t| - 1] == u + [c] + w;
      assert c !in w by {
        assert forall i | 0 <= i < |w| :: w[i] == v[i];
      }
      LastIndexOfSplit(u, c, w);
    }
  }

  /** The location of a Lua function always gives back its line number. */
  lemma LocationLineRoundTrip(cl: LClosure)
    ensures LocationLine(Location(cl)) == Some(cl.p.linedefined)
  {
    var t := Location(cl);
    var line := cl.p.linedefined;
    if line != 0 {
      var name := ChunkName(cl.p.source.contents);
      var d := IntToString(line);
      assert t == name + [':'] + d;
      assert t[|t| - 1] == d[|d| - 1];
      EndsWithLast(t, MAIN_CHUNK);
      IntToStringRoundTrip(line);
      IntTextChars(d);
      LastIndexOfSplit(name, ':', d);
      assert t[|name| + 1..] == d;
    }
  }

  /**
   * The location names the main chunk exactly for line 0, and it is a
   * single line of text unless a file name itself holds a line break.
   */
  lemma LocationShape(cl: LClosure)
    ensures EndsWith(Location(cl), MAIN_CHUNK) <==> cl.p.linedefined == 0
    ensures var src := cl.p.source.contents;
      !(|src| > 0 && src[0] == '@' && '\n' in src) ==> '\n' !in Location(cl)
  {
    var t := Location(cl);
    var src := cl.p.source.contents;
    var line := cl.p.linedefined;
    var name := ChunkName(src);
    var suffix := if line == 0 then MAIN_CHUNK else ":" + IntToString(line);
    assert t == name + suffix;
    assert EndsWith(t, MAIN_CHUNK) <==> line == 0 by {
      if line == 0 {
        assert t[|t| - |MAIN_CHUNK|..] == MAIN_CHUNK;
      } else {
        var d := IntToString(line);
        assert t[|t| - 1] == d[|d| - 1];
        EndsWithLast(t, MAIN_CHUNK);
      }
    }
    if !(|src| > 0 && src[0] == '@' && '\n' in src) {
      assert '\n' !in name by {
        if |src| > 0 && src[0] == '@' {
          assert forall k | 0 <= k < |name| :: name[k] == src[k + 1];
        }
      }
      assert '\n' !in suffix by {
        if line != 0 {
          IntToStringRoundTrip(line);
          IntTextChars(IntToString(line));
        }
      }
    }
  }

  /** Locations of a file chunk, for the main chunk and for a function on line 12. */
  lemma FileLocationExamples(f: Addr)
    ensures Location(LClosure(Proto(TString(f, "@/tmp/x.lua"), 0))) == "/tmp/x.lua" + MAIN_CHUNK
    ensures Location(LClosure(Proto(TString(f, "@/tmp/x.lua"), 12))) == "/tmp/x.lua" + ":" + "12"
  {
    var name := "/tmp/x.lua";
    assert ChunkName("@/tmp/x.lua") == name by {
      assert "@/tmp/x.lua"[1..] == name;
    }
    assert IntToString(12) == "12" by {
      assert NatToString(12) == NatToString(1) + [DigitChar(2)];
    }
  }

  /** The location of a string chunk quotes it with its line break escaped. */
  lemma StringLocationExample(f: Addr)
    ensures Location(LClosure(Proto(TString(f, "a\nb"), 0))) == "[string \"" + "a\\nb" + "\"]" + MAIN_CHUNK
  {
    var src := "a\nb";
    assert EscapeNewlines(src) == "a\\nb" by {
      assert EscapeNewlines("b") == "b" by {
        assert "b"[1..] == "";
      }
      assert EscapeNewlines("\nb") == "\\n" + "b" by {
        assert "\nb"[1..] == "b";
      }
      assert src[1..] == "\nb";
    }
    assert src[0] == 'a';
  }

  /**
   * What `gdb.find_pc_line` knows: the source file name and line of the
   * code addresses the inspected binary has line information for.
   */
  type LineTable = map<Addr, (string, int)>

  /** `lookup_fn_loc`: `at FILE:LINE` for a function gdb has line information for. */
  function LookupFnLoc(lt: LineTable, f: Addr): (r: Option<string>)
    ensures r.Some? <==> f in lt
    ensures r.Some? ==> EndsWith(r.value, ":" + IntToString(lt[f].1))
  {
    if f in lt then
      var suffix := ":" + IntToString(lt[f].1);
      EndsWithAppend("at " + lt[f].0, suffix);
      Some("at " + lt[f].0 + suffix)
    else None
  }

  /** The ` at FILE:LINE` piece a C function is followed by when it has one. */
  function LocPieces(lt: LineTable, f: Addr): (r: seq<Piece>)
    ensures |r| <= 1 && (|r| == 1 <==> f in lt)
    ensures forall k | 0 <= k < |r| :: r[k].Lit?
    ensures f in lt ==> r[0] == Lit(" at " + lt[f].0 + ":" + IntToString(lt[f].1))
  {
    match LookupFnLoc(lt, f)
    case Some(loc) =>
      assert " " + loc == " at " + lt[f].0 + ":" + IntToString(lt[f].1) by {
        assert loc == "at " + lt[f].0 + ":" + IntToString(lt[f].1);
        assert " " + "at " == " at ";
      }
      [Lit(" " + loc)]
    case None => []
  }

  // ---------------------------------------------------------------- tables

  /**
   * The slots and nodes `_dump_table` and `children` read are in memory:
   * `array_cap` slots after `array` and `hash_cap` nodes after `node`.
   */
  predicate TableReadable(t: Table) {
    ArrayCap(t.alimit) <= |t.arrayPart| && HashCap(t.lsizenode) <= |t.node|
  }

  /** The four numbers `_dump_table` reports. */
  datatype TableCounts = TableCounts(cap: int, length: nat, hcap: int, hlength: nat)

  /**
   * `_dump_table`'s counts: the array capacity and the number of items
   * `iter_array` yields, the hash capacity and the number of non-nil nodes
   * `iter_hash` yields.  Neither length exceeds its capacity.
   */
  function Counts(t: Table): (c: TableCounts)
    requires TableReadable(t)
    ensures c.cap == ArrayCap(t.alimit) && c.hcap == HashCap(t.lsizenode)
    ensures c.length <= (if c.cap < 0 then 0 else c.cap)
    ensures 1 <= c.hcap && c.hlength <= c.hcap
  {
    var cap := ArrayCap(t.alimit);
    var hcap := HashCap(t.lsizenode);
    ArrayWalkShape(t.arrayPart, cap);
    TableCounts(cap, |ArrayWalk(t.arrayPart, cap)|, hcap, HashLength(t.node[..hcap]))
  }

  /** `_dump_table`'s text. */
  function TableSummary(t: Table): string
    requires TableReadable(t)
  {
    var c := Counts(t);
    "(array_capacity: " + IntToString(c.cap) + ", length: " + IntToString(c.length)
      + ", hash_capacity: " + IntToString(c.hcap) + ", hash_length: " + IntToString(c.hlength) + ")"
  }

  // ---------------------------------------------------------------- dump

  /** The entry of `_DUMP` that `dump` calls: the type tag, with 9 for every tag above 8. */
  function DumpIndex(tt: int): (i: int)
    ensures 0 <= i <= 9
    ensures i < 9 ==> i == TypeTag(tt)
    ensures i == 9 <==> TypeTag(tt) >= 9
  {
    if TypeTag(tt) < 9 then TypeTag(tt) else 9
  }

  /**
   * `_dump_function`: a Lua closure, a light C function or a C closure by
   * variant, with the C function's location when gdb has one; variant 3
   * matches no branch and the original returns `None`.
   */
  function DumpFunction(lt: LineTable, v: Value, tt: int): Option<seq<Piece>> {
    if IsLuaClosure(tt) then Some([Lit("lclosure "), Ptr(v.p)])
    else if IsLightCFunction(tt) then Some([Lit("cfunction "), Ptr(v.p)] + LocPieces(lt, v.p))
    else if IsCClosure(tt) then
      var cl := v.gc.c;
      Some([Lit("cclosure "), Ptr(cl.f)] + LocPieces(lt, cl.f)
           + [Lit(" (nupvalues: " + IntToString(cl.nupvalues) + ")")])
    else None
  }

  /** `_dump_userdata`: the payload address, the strategy's `nuvalue` text, and the size. */
  function DumpUserdata(s: Strategy, v: Value): seq<Piece> {
    var (uv, nuv) := Uv(s, v.p, v.gc.u);
    [Ptr(uv), Lit(" (" + nuv + "size: " + IntToString(v.gc.u.len) + ")")]
  }

  /** `_dump_number`: the integer arm when the strategy reads the tag as an integer, else the float arm. */
  function DumpNumber(s: Strategy, v: Value, tt: int): seq<Piece> {
    if IsInteger(s, tt) then [Lit(IntToString(v.i))] else [Float(v.n)]
  }

  /**
   * `dump`: the `_DUMP` entry for the tag's type.  `None` is the `None`
   * `_dump_function` returns for variant 3.
   */
  function Dump(s: Strategy, lt: LineTable, v: Value, tt: int): Option<seq<Piece>>
    requires TypeTag(tt) == LUA_TTABLE ==> TableReadable(v.gc.h)
  {
    match DumpIndex(tt)
    case 0 => Some([Lit("nil")])
    case 1 => Some([Lit(IntToString(ToBoolean(s, v, tt)))])
    case 2 => Some([Ptr(v.p)])
    case 3 => Some(DumpNumber(s, v, tt))
    case 4 => Some([CStr(StringData(s, v.p, v.gc.ts), v.gc.ts.contents)])
    case 5 => Some([Lit(TableSummary(v.gc.h))])
    case 6 => DumpFunction(lt, v, tt)
    case 7 => Some(DumpUserdata(s, v))
    case 8 => Some([Ptr(v.p)])
    case _ => Some([Raw(v)])
  }

  /**
   * `dump` has an answer for every tag: tags whose type nibble is 9 to 15
   * give the raw value, and only a function of variant 3 gives `None`.
   */
  lemma DumpTotal(s: Strategy, lt: LineTable, v: Value, tt: int)
    requires TypeTag(tt) == LUA_TTABLE ==> TableReadable(v.gc.h)
    ensures Dump(s, lt, v, tt).None? <==> TypeTag(tt) == LUA_TFUNCTION && Variant(tt) == 3
    ensures TypeTag(tt) >= 9 ==> Dump(s, lt, v, tt) == Some([Raw(v)])
  {
    FunctionKindsExclusive(tt);
  }

  /** `dump` reads only the type and variant of a tag: the bits above bit 5 change nothing. */
  lemma DumpIgnoresHighBits(s: Strategy, lt: LineTable, v: Value, tt: int, high: int)
    requires 0 <= tt < 64
    requires TypeTag(tt) == LUA_TTABLE ==> TableReadable(v.gc.h)
    requires TypeTag(tt + 64 * high) == LUA_TTABLE ==> TableReadable(v.gc.h)
    ensures Dump(s, lt, v, tt + 64 * high) == Dump(s, lt, v, tt)
  {
    HighBitsIgnored(tt, high);
    var tt2 := tt + 64 * high;
    assert DumpIndex(tt2) == DumpIndex(tt);
    assert ToBoolean(s, v, tt2) == ToBoolean(s, v, tt);
    assert DumpNumber(s, v, tt2) == DumpNumber(s, v, tt);
    assert DumpFunction(lt, v, tt2) == DumpFunction(lt, v, tt);
  }

  /** Adding multiples of 64 to a tag keeps its type and variant. */
  lemma HighBitsIgnored(tt: int, high: int)
    requires 0 <= tt < 64
    ensures TypeTag(tt + 64 * high) == TypeTag(tt) && Variant(tt + 64 * high) == Variant(tt)
  {
    TagFields(tt);
    MakeVariantRoundTrip(TypeTag(tt), Variant(tt), high);
    MakeVariantRoundTrip(TypeTag(tt), Variant(tt), 0);
  }

  /**
   * A number shows the integer arm exactly when the strategy reads the tag
   * as an integer; a 5.4 boolean shows 1 for variant 1 and 0 for variant 0.
   */
  lemma DumpNumbersAndBooleans(s: Strategy, lt: LineTable, v: Value, tt: int)
    ensures TypeTag(tt) == LUA_TNUMBER ==>
      (Dump(s, lt, v, tt) == Some([Lit(IntToString(v.i))]) <==> IsInteger(s, tt))
    ensures TypeTag(tt) == LUA_TNUMBER && !IsInteger(s, tt) ==> Dump(s, lt, v, tt) == Some([Float(v.n)])
    ensures TypeTag(tt) == LUA_TBOOLEAN && !s.Lua53? ==>
      Dump(s, lt, v, tt) == Some([Lit(if Variant(tt) == 0 then "0" else "1")])
  {
    if TypeTag(tt) == LUA_TBOOLEAN && !s.Lua53? {
      assert IntToString(0) == "0" && IntToString(1) == "1";
    }
  }

  /**
   * A function shows its kind: `lclosure`, `cfunction` or `cclosure` by
   * variant, followed by the pointer it is called through; a C function's
   * location is shown exactly when gdb has line information for it.
   */
  lemma DumpFunctionKinds(lt: LineTable, v: Value, tt: int)
    ensures IsLuaClosure(tt) ==> DumpFunction(lt, v, tt) == Some([Lit("lclosure "), Ptr(v.p)])
    ensures IsLightCFunction(tt) ==>
      && DumpFunction(lt, v, tt).Some?
      && DumpFunction(lt, v, tt).value[..2] == [Lit("cfunction "), Ptr(v.p)]
      && (|DumpFunction(lt, v, tt).value| == 3 <==> v.p in lt)
      && DumpFunction(lt, v, tt).value[2..] == LocPieces(lt, v.p)
    ensures IsCClosure(tt) ==>
      var r := DumpFunction(lt, v, tt);
      && r.Some? && |r.value| >= 3
      && r.value[..2] == [Lit("cclosure "), Ptr(v.gc.c.f)]
      && (|r.value| == 4 <==> v.gc.c.f in lt)
      && r.value[2..|r.value| - 1] == LocPieces(lt, v.gc.c.f)
      && r.value[|r.value| - 1] == Lit(" (nupvalues: " + IntToString(v.gc.c.nupvalues) + ")")
    ensures Variant(tt) == 3 ==> DumpFunction(lt, v, tt).None?
  {
    FunctionKindsExclusive(tt);
  }

  // ---------------------------------------------------------------- printer

  /** `ValuePrinter.display_hint`: strings show as strings and tables as maps. */
  function DisplayHint(tt: int): (r: Option<string>)
    ensures r == Some("string") <==> TypeTag(tt) == LUA_TSTRING
    ensures r == Some("map") <==> TypeTag(tt) == LUA_TTABLE
    ensures r.Some? ==> r.value in {"string", "map"}
  {
    if TypeTag(tt) == LUA_TSTRING then Some("string")
    else if TypeTag(tt) == LUA_TTABLE then Some("map")
    else None
  }

  /**
   * One child `ValuePrinter.children` yields; every child's name is the
   * empty string, so only its value is kept: the text of an array index or
   * a tagged value (a hash key is shown through the same printer).
   */
  datatype Child = IndexText(text: string) | Item(tv: TValue)

  /**
   * The array children: for each item `iter_array` yields, its index text
   * and then its value, so item k gives children `2k` and `2k + 1`.
   */
  function ArrayChildren(walk: seq<(int, TValue)>): (r: seq<Child>)
    ensures |r| == 2 * |walk|
  {
    seq(2 * |walk|, j requires 0 <= j < 2 * |walk| => ArrayChild(walk, j))
  }

  /** Child `j` of the array part: the index text when `j` is even, else the value. */
  function ArrayChild(walk: seq<(int, TValue)>, j: nat): Child
    requires j < 2 * |walk|
  {
    if j % 2 == 0 then IndexText(IntToString(walk[j / 2].0)) else Item(walk[j / 2].1)
  }

  /** Item `k` of the walk gives children `2k` (its index text) and `2k + 1` (its value). */
  lemma ArrayChildrenAt(walk: seq<(int, TValue)>, k: nat)
    requires k < |walk|
    ensures ArrayChildren(walk)[2 * k] == IndexText(IntToString(walk[k].0))
    ensures ArrayChildren(walk)[2 * k + 1] == Item(walk[k].1)
  {
    var r := ArrayChildren(walk);
    var j := 2 * k;
    assert j % 2 == 0 && j / 2 == k && (j + 1) % 2 == 1 && (j + 1) / 2 == k by {
      HalfOfDouble(k);
    }
    assert r[j] == ArrayChild(walk, j);
    assert r[j + 1] == ArrayChild(walk, j + 1);
  }

  lemma HalfOfDouble(k: nat)
    ensures (2 * k) % 2 == 0 && (2 * k) / 2 == k
    ensures (2 * k + 1) % 2 == 1 && (2 * k + 1) / 2 == k
  {
  }

  /** The hash children: key and value of each node `hash_kv` does not drop. */
  function HashChildren(s: Strategy, nodes: seq<Node>): seq<Child>
    decreases |nodes|
  {
    if nodes == [] then [] else NodeChildren(s, nodes[0]) + HashChildren(s, nodes[1..])
  }

  /** The children one node gives: its key and value, or none when `hash_kv` drops it. */
  function NodeChildren(s: Strategy, n: Node): (r: seq<Child>)
    ensures TypeTag(n.val.tt) == LUA_TNIL ==> r == []
    ensures TypeTag(n.val.tt) != LUA_TNIL ==> r == [Item(n.key), Item(n.val)]
  {
    match HashKV(s, n)
    case Some(kv) => [Item(kv.0), Item(kv.1)]
    case None => []
  }

  /** `ValuePrinter.children`: nothing for a non-table, else the array children then the hash children. */
  function Children(s: Strategy, v: Value, tt: int): seq<Child>
    requires TypeTag(tt) == LUA_TTABLE ==> TableReadable(v.gc.h)
  {
    if TypeTag(tt) != LUA_TTABLE then []
    else
      var t := v.gc.h;
      ArrayChildren(ArrayWalk(t.arrayPart, ArrayCap(t.alimit))) + HashChildren(s, t.node[..HashCap(t.lsizenode)])
  }

  /** Each non-empty node gives two children, so the hash children number twice `hash_length`. */
  lemma {:induction false} HashChildrenCount(s: Strategy, nodes: seq<Node>)
    ensures |HashChildren(s, nodes)| == 2 * HashLength(nodes)
    decreases |nodes|
  {
    if nodes != [] {
      HashChildrenCount(s, nodes[1..]);
    }
  }

  /**
   * Where a non-empty node's children sit: after two children for each
   * non-empty node before it, its key and then its value.
   */
  lemma {:induction false} HashChildrenAt(s: Strategy, nodes: seq<Node>, j: nat)
    requires j < |nodes| && TypeTag(nodes[j].val.tt) != LUA_TNIL
    ensures 2 * HashLength(nodes[..j]) + 1 < |HashChildren(s, nodes)|
    ensures HashChildren(s, nodes)[2 * HashLength(nodes[..j])] == Item(nodes[j].key)
    ensures HashChildren(s, nodes)[2 * HashLength(nodes[..j]) + 1] == Item(nodes[j].val)
    decreases j
  {
    if j == 0 {
      assert HashLength(nodes[..0]) == 0 by { assert nodes[..0] == []; }
      assert HashChildren(s, nodes) == [Item(nodes[0].key), Item(nodes[0].val)] + HashChildren(s, nodes[1..]);
    } else {
      HashChildrenAt(s, nodes[1..], j - 1);
      HashChildrenShift(s, nodes, j, HashLength(nodes[1..][..j - 1]));
    }
  }

  /** The step of HashChildrenAt: the first node's children shift the later nodes' pairs. */
  lemma HashChildrenShift(s: Strategy, nodes: seq<Node>, j: nat, k: nat)
    requires 0 < j < |nodes| && k == HashLength(nodes[1..][..j - 1])
    requires 2 * k + 1 < |HashChildren(s, nodes[1..])|
    requires HashChildren(s, nodes[1..])[2 * k] == Item(nodes[j].key)
    requires HashChildren(s, nodes[1..])[2 * k + 1] == Item(nodes[j].val)
    ensures 2 * HashLength(nodes[..j]) + 1 < |HashChildren(s, nodes)|
    ensures HashChildren(s, nodes)[2 * HashLength(nodes[..j])] == Item(nodes[j].key)
    ensures HashChildren(s, nodes)[2 * HashLength(nodes[..j]) + 1] == Item(nodes[j].val)
  {
    var head := NodeChildren(s, nodes[0]);
    var rest := HashChildren(s, nodes[1..]);
    assert HashChildren(s, nodes) == head + rest;
    HashLengthPrefix(nodes, j);
    assert |head| == 2 * (if TypeTag(nodes[0].val.tt) != LUA_TNIL then 1 else 0);
    assert 2 * HashLength(nodes[..j]) == |head| + 2 * k;
    ShiftPair(head, rest, k, Item(nodes[j].key), Item(nodes[j].val));
  }

  /** Counting the non-empty nodes of a prefix: the first node, then the rest of the prefix. */
  lemma HashLengthPrefix(nodes: seq<Node>, j: nat)
    requires 0 < j <= |nodes|
    ensures HashLength(nodes[..j])
      == (if TypeTag(nodes[0].val.tt) != LUA_TNIL then 1 else 0) + HashLength(nodes[1..][..j - 1])
  {
    assert nodes[..j][1..] == nodes[1..][..j - 1];
    assert nodes[..j][0] == nodes[0];
  }

  /** A pair of children at `2 * k` keeps its place, shifted, behind an even-length head. */
  lemma ShiftPair<T>(head: seq<T>, rest: seq<T>, k: nat, x: T, y: T)
    requires |head| % 2 == 0 && 2 * k + 1 < |rest| && rest[2 * k] == x && rest[2 * k + 1] == y
    ensures |head| + 2 * k + 1 < |head + rest|
    ensures (head + rest)[|head| + 2 * k] == x && (head + rest)[|head| + 2 * k + 1] == y
  {
  }

  /**
   * The printer's children agree with the summary `dump` shows for the same
   * table: two children for each of its `length` array items, whose index
   * texts read back as 1, 2, ..., and two for each of its `hash_length`
   * nodes; a value that is not a table has none.
   */
  lemma ChildrenMatchSummary(s: Strategy, v: Value, tt: int)
    requires TypeTag(tt) == LUA_TTABLE ==> TableReadable(v.gc.h)
    ensures TypeTag(tt) != LUA_TTABLE ==> Children(s, v, tt) == []
    ensures TypeTag(tt) == LUA_TTABLE ==>
      var c := Counts(v.gc.h);
      && |Children(s, v, tt)| == 2 * (c.length + c.hlength)
      && (forall k | 0 <= k < c.length ::
            Children(s, v, tt)[2 * k].IndexText? && IsIntText(Children(s, v, tt)[2 * k].text)
            && ParseInt(Children(s, v, tt)[2 * k].text) == k + 1)
  {
    if TypeTag(tt) == LUA_TTABLE {
      var t := v.gc.h;
      var cap := ArrayCap(t.alimit);
      var walk := ArrayWalk(t.arrayPart, cap);
      ArrayWalkShape(t.arrayPart, cap);
      HashChildrenCount(s, t.node[..HashCap(t.lsizenode)]);
      var a := ArrayChildren(walk);
      var ch := Children(s, v, tt);
      forall k | 0 <= k < |walk|
        ensures ch[2 * k].IndexText? && IsIntText(ch[2 * k].text) && ParseInt(ch[2 * k].text) == k + 1
      {
        ArrayChildrenAt(walk, k);
        assert ch[2 * k] == a[2 * k];
        IntToStringRoundTrip(k + 1);
      }
    }
  }
}
