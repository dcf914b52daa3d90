/**
 * Choosing the strategy in gdb_lua.py: `version()` parses the `lua_ident`
 * symbol with `VERSION_RE`, the strategy constructors look up the type
 * layouts they need, and `lua()` builds the strategy once and keeps it in
 * the global `G`.  gdb's symbol and type lookups are read from an
 * `Inferior` record describing the inspected binary.
 */
module Selection {
  import opened Wrappers
  import opened Text
  import opened Tags
  import opened Strategy
  import opened LuaObjects

  type Align = x: int | x >= 1 witness 1

  /** What `gdb.lookup_type(name)` reports: `sizeof` and `alignof`. */
  datatype TypeLayout = TypeLayout(size: nat, align: Align)

  /**
   * The inspected binary: each symbol's value as `str(symbol.value())`
   * prints it, the named types of its debug information, and the
   * alignment of `void *`.
   */
  datatype Inferior = Inferior(symbols: map<string, string>, types: map<string, TypeLayout>, pointerAlign: Align)

  /**
   * Why building a strategy failed.  All but `NoSuchType` are
   * `LuaInitializationFailed`; `NoSuchType` is the `gdb.error` an
   * unguarded `gdb.lookup_type` raises.
   */
  datatype InitError =
    | IdentMissing
    | IdentMalformed(ident: string)
    | TypesMissing
    | NoSuchType(name: string)
    | Unsupported(major: int, minor: int, patch: int)

  /** The literal part of `VERSION_RE`, `^"\$LuaVersion: Lua `. */
  const VERSION_PREFIX: string := "\"$LuaVersion: Lua "

  /** The end of the run of digits starting at `i` (where a greedy `\d+` stops). */
  function DigitsEnd(s: string, i: nat): (j: nat)
    requires i <= |s|
    ensures i <= j <= |s|
    ensures forall k | i <= k < j :: IsDigit(s[k])
    ensures j == |s| || !IsDigit(s[j])
    decreases |s| - i
  {
    if i < |s| && IsDigit(s[i]) then DigitsEnd(s, i + 1) else i
  }

  /**
   * What `VERSION_RE.match(s)` denotes: `s` starts with the prefix followed
   * by three non-empty digit runs separated by dots.
   */
  ghost predicate RegexMatches(s: string, d1: string, d2: string, d3: string) {
    && |d1| > 0 && AllDigits(d1)
    && |d2| > 0 && AllDigits(d2)
    && |d3| > 0 && AllDigits(d3)
    && VERSION_PREFIX + d1 + "." + d2 + "." + d3 <= s
  }

  /**
   * Where the three digit groups of a match end: `e1` and `e2` are the
   * dots after the first two, `e3` the end of the last (greedy) group.
   */
  function VersionEnds(s: string): (r: Option<(nat, nat, nat)>)
    ensures r.Some? ==>
      var (e1, e2, e3) := r.value;
      && VERSION_PREFIX <= s
      && |VERSION_PREFIX| < e1 && e1 + 1 < e2 && e2 + 1 < e3 <= |s|
      && s[e1] == '.' && s[e2] == '.'
      && (forall k | |VERSION_PREFIX| <= k < e1 :: IsDigit(s[k]))
      && (forall k | e1 < k < e2 :: IsDigit(s[k]))
      && (forall k | e2 < k < e3 :: IsDigit(s[k]))
      && (e3 == |s| || !IsDigit(s[e3]))
  {
    var a := |VERSION_PREFIX|;
    if !(VERSION_PREFIX <= s) then None
    else
      var e1 := DigitsEnd(s, a);
      if e1 == a || e1 == |s| || s[e1] != '.' then None
      else
        var e2 := DigitsEnd(s, e1 + 1);
        if e2 == e1 + 1 || e2 == |s| || s[e2] != '.' then None
        else
          var e3 := DigitsEnd(s, e2 + 1);
          if e3 == e2 + 1 then None
          else Some((e1, e2, e3))
  }

  /** `VERSION_RE.match(s)` and `m.groups()`: the three digit groups, greedy. */
  function MatchVersion(s: string): Option<(string, string, string)> {
    match VersionEnds(s)
    case None => None
    case Some((e1, e2, e3)) => Some((s[|VERSION_PREFIX|..e1], s[e1 + 1..e2], s[e2 + 1..e3]))
  }

  /** A digit run from `i` to `j` that is not followed by a digit ends at `j`. */
  lemma {:induction false} DigitsEndAt(s: string, i: nat, j: nat)
    requires i <= j <= |s|
    requires forall k | i <= k < j :: IsDigit(s[k])
    requires j == |s| || !IsDigit(s[j])
    ensures DigitsEnd(s, i) == j
    decreases j - i
  {
    if i < j {
      DigitsEndAt(s, i + 1, j);
    }
  }

  /** A digit run from `i` to `j` means the greedy run from `i` reaches at least `j`. */
  lemma {:induction false} DigitsEndBeyond(s: string, i: nat, j: nat)
    requires i <= j <= |s|
    requires forall k | i <= k < j :: IsDigit(s[k])
    ensures DigitsEnd(s, i) >= j
    decreases j - i
  {
    if i < j {
      DigitsEndBeyond(s, i + 1, j);
    }
  }

  /** Every match the function reports is a match of the regular expression, with a greedy last group. */
  lemma MatchVersionSound(s: string)
    ensures MatchVersion(s).Some? ==>
      var g := MatchVersion(s).value;
      var e := |VERSION_PREFIX + g.0 + "." + g.1 + "." + g.2|;
      RegexMatches(s, g.0, g.1, g.2) && (e == |s| || !IsDigit(s[e]))
  {
    if VersionEnds(s).Some? {
      var ends := VersionEnds(s).value;
      var e1, e2, e3 := ends.0, ends.1, ends.2;
      var g := (s[|VERSION_PREFIX|..e1], s[e1 + 1..e2], s[e2 + 1..e3]);
      assert MatchVersion(s) == Some(g);
      assert RegexMatches(s, g.0, g.1, g.2) by {
        GroupsMatch(s, e1, e2, e3);
      }
      assert |VERSION_PREFIX + g.0 + "." + g.1 + "." + g.2| == e3 by {
        assert |g.0| == e1 - |VERSION_PREFIX| && |g.1| == e2 - e1 - 1 && |g.2| == e3 - e2 - 1;
      }
      assert e3 == |s| || !IsDigit(s[e3]);
    }
  }

  /** The slices between three digit runs ending at `e1`, `e2`, `e3` match the regular expression. */
  lemma GroupsMatch(s: string, e1: nat, e2: nat, e3: nat)
    requires VERSION_PREFIX <= s
    requires |VERSION_PREFIX| < e1 && e1 + 1 < e2 && e2 + 1 < e3 <= |s|
    requires s[e1] == '.' && s[e2] == '.'
    requires forall k | |VERSION_PREFIX| <= k < e1 :: IsDigit(s[k])
    requires forall k | e1 < k < e2 :: IsDigit(s[k])
    requires forall k | e2 < k < e3 :: IsDigit(s[k])
    ensures RegexMatches(s, s[|VERSION_PREFIX|..e1], s[e1 + 1..e2], s[e2 + 1..e3])
    ensures VERSION_PREFIX + s[|VERSION_PREFIX|..e1] + "." + s[e1 + 1..e2] + "." + s[e2 + 1..e3] == s[..e3]
  {
    var a := |VERSION_PREFIX|;
    var g0, g1, g2 := s[a..e1], s[e1 + 1..e2], s[e2 + 1..e3];
    assert AllDigits(g0) by {
      forall k | 0 <= k < |g0| ensures IsDigit(g0[k]) { assert g0[k] == s[a + k]; }
    }
    assert AllDigits(g1) by {
      forall k | 0 <= k < |g1| ensures IsDigit(g1[k]) { assert g1[k] == s[e1 + 1 + k]; }
    }
    assert AllDigits(g2) by {
      forall k | 0 <= k < |g2| ensures IsDigit(g2[k]) { assert g2[k] == s[e2 + 1 + k]; }
    }
    assert s[..a] == VERSION_PREFIX;
    assert s[..e1] == s[..a] + g0;
    assert s[..e2] == s[..e1] + [s[e1]] + g1;
    assert s[..e3] == s[..e2] + [s[e2]] + g2;
  }

  /**
   * Every match of the regular expression is found: the first two groups
   * are exactly the digits matched, and the third extends the matched one,
   * matching it exactly when no digit follows it.
   */
  lemma MatchVersionComplete(s: string, d1: string, d2: string, d3: string)
    requires RegexMatches(s, d1, d2, d3)
    ensures MatchVersion(s).Some?
    ensures MatchVersion(s).value.0 == d1 && MatchVersion(s).value.1 == d2
    ensures d3 <= MatchVersion(s).value.2
    ensures var e := |VERSION_PREFIX| + |d1| + |d2| + |d3| + 2;
      e == |s| || !IsDigit(s[e]) ==> MatchVersion(s).value.2 == d3
  {
    var b2 := |VERSION_PREFIX| + |d1| + 1 + |d2|;
    var b3 := b2 + 1 + |d3|;
    MatchedSlices(s, d1, d2, d3);
    MatchedRuns(s, d1, d2, d3);
    RunEnds(s, |VERSION_PREFIX| + |d1|, b2, b3);
    SlicePrefix(s, b2 + 1, b3, DigitsEnd(s, b2 + 1));
  }

  /** A match of the regular expression is the prefix and three digit runs separated by dots. */
  lemma MatchedRuns(s: string, d1: string, d2: string, d3: string)
    requires RegexMatches(s, d1, d2, d3)
    ensures var a := |VERSION_PREFIX|;
      var b1 := a + |d1|;
      var b2 := b1 + 1 + |d2|;
      var b3 := b2 + 1 + |d3|;
      && VERSION_PREFIX <= s
      && a < b1 && b1 + 1 < b2 && b2 + 1 < b3 <= |s|
      && s[b1] == '.' && s[b2] == '.'
      && (forall k | a <= k < b1 :: IsDigit(s[k]))
      && (forall k | b1 + 1 <= k < b2 :: IsDigit(s[k]))
      && (forall k | b2 + 1 <= k < b3 :: IsDigit(s[k]))
  {
    MatchedSlices(s, d1, d2, d3);
    assert VERSION_PREFIX <= s by {
      assert (VERSION_PREFIX + d1 + "." + d2 + "." + d3)[..|VERSION_PREFIX|] == VERSION_PREFIX;
    }
  }

  /** Where `VersionEnds` puts the ends of three digit runs separated by dots after the prefix. */
  lemma RunEnds(s: string, b1: nat, b2: nat, b3: nat)
    requires VERSION_PREFIX <= s
    requires |VERSION_PREFIX| < b1 && b1 + 1 < b2 && b2 + 1 < b3 <= |s|
    requires s[b1] == '.' && s[b2] == '.'
    requires forall k | |VERSION_PREFIX| <= k < b1 :: IsDigit(s[k])
    requires forall k | b1 + 1 <= k < b2 :: IsDigit(s[k])
    requires forall k | b2 + 1 <= k < b3 :: IsDigit(s[k])
    ensures b3 <= DigitsEnd(s, b2 + 1) <= |s|
    ensures VersionEnds(s) == Some((b1, b2, DigitsEnd(s, b2 + 1)))
    ensures b3 == |s| || !IsDigit(s[b3]) ==> DigitsEnd(s, b2 + 1) == b3
  {
    DigitsEndAt(s, |VERSION_PREFIX|, b1);
    DigitsEndAt(s, b1 + 1, b2);
    DigitsEndBeyond(s, b2 + 1, b3);
    VersionEndsAt(s, b1, b2, DigitsEnd(s, b2 + 1));
    if b3 == |s| || !IsDigit(s[b3]) {
      DigitsEndAt(s, b2 + 1, b3);
    }
  }

  /** `VersionEnds` unfolded at ends that pass each of its tests. */
  lemma VersionEndsAt(s: string, e1: nat, e2: nat, e3: nat)
    requires VERSION_PREFIX <= s
    requires |VERSION_PREFIX| < e1 < |s| && DigitsEnd(s, |VERSION_PREFIX|) == e1 && s[e1] == '.'
    requires e1 + 1 < e2 < |s| && DigitsEnd(s, e1 + 1) == e2 && s[e2] == '.'
    requires e2 + 1 < e3 && DigitsEnd(s, e2 + 1) == e3
    ensures VersionEnds(s) == Some((e1, e2, e3))
  {
  }

  lemma SlicePrefix(s: string, i: nat, j: nat, k: nat)
    requires i <= j <= k <= |s|
    ensures s[i..j] <= s[i..k]
  {
    assert s[i..k][..j - i] == s[i..j];
  }

  /** Where a match of the regular expression puts its three groups in `s`. */
  lemma MatchedSlices(s: string, d1: string, d2: string, d3: string)
    requires RegexMatches(s, d1, d2, d3)
    ensures var a := |VERSION_PREFIX|;
      var b1 := a + |d1|;
      var b2 := b1 + 1 + |d2|;
      var b3 := b2 + 1 + |d3|;
      && b3 <= |s|
      && s[a..b1] == d1 && s[b1] == '.' && s[b1 + 1..b2] == d2 && s[b2] == '.' && s[b2 + 1..b3] == d3
      && (forall k | a <= k < b1 :: IsDigit(s[k]))
      && (forall k | b1 + 1 <= k < b2 :: IsDigit(s[k]))
      && (forall k | b2 + 1 <= k < b3 :: IsDigit(s[k]))
  {
    var a := |VERSION_PREFIX|;
    var t := VERSION_PREFIX + d1 + "." + d2 + "." + d3;
    var b1 := a + |d1|;
    var b2 := b1 + 1 + |d2|;
    var b3 := b2 + 1 + |d3|;
    assert |t| == b3;
    assert s[a..b1] == d1 by { assert t[a..b1] == d1; }
    assert s[b1] == '.' by { assert t[b1] == '.'; }
    assert s[b1 + 1..b2] == d2 by { assert t[b1 + 1..b2] == d2; }
    assert s[b2] == '.' by { assert t[b2] == '.'; }
    assert s[b2 + 1..b3] == d3 by { assert t[b2 + 1..b3] == d3; }
    forall k | a <= k < b1 ensures IsDigit(s[k]) {
      assert s[k] == d1[k - a];
    }
    forall k | b1 + 1 <= k < b2 ensures IsDigit(s[k]) {
      assert s[k] == d2[k - b1 - 1];
    }
    forall k | b2 + 1 <= k < b3 ensures IsDigit(s[k]) {
      assert s[k] == d3[k - b2 - 1];
    }
  }

  /** `version()` once the symbol is found: the three groups as integers. */
  function ParseIdent(s: string): Result<(int, int, int), InitError> {
    match MatchVersion(s)
    case None => Err(IdentMalformed(s))
    case Some(g) =>
      MatchVersionSound(s);
      Ok((DigitsValue(g.0), DigitsValue(g.1), DigitsValue(g.2)))
  }

  /**
   * `version()` reads back the numbers of every identification string of
   * the expected shape, whatever follows the patch number.
   */
  lemma VersionRoundTrip(major: nat, minor: nat, patch: nat, rest: string)
    requires rest == [] || !IsDigit(rest[0])
    ensures ParseIdent(IdentText(major, minor, patch, rest)) == Ok((major, minor, patch))
  {
    var d1, d2, d3 := NatToString(major), NatToString(minor), NatToString(patch);
    var t := VERSION_PREFIX + d1 + "." + d2 + "." + d3;
    var s := t + rest;
    assert t <= s;
    assert |t| == |VERSION_PREFIX| + |d1| + |d2| + |d3| + 2;
    assert |t| == |s| || s[|t|] == rest[0];
    MatchVersionComplete(s, d1, d2, d3);
    NatToStringRoundTrip(major);
    NatToStringRoundTrip(minor);
    NatToStringRoundTrip(patch);
  }

  /** `version()`: look up `lua_ident` and parse it. */
  function Version(inf: Inferior): Result<(int, int, int), InitError> {
    if "lua_ident" !in inf.symbols then Err(IdentMissing)
    else ParseIdent(inf.symbols["lua_ident"])
  }

  /** The first of `names` the debug information lacks. */
  function FirstMissing(names: seq<string>, types: map<string, TypeLayout>): (r: Option<string>)
    ensures r.None? <==> forall k | 0 <= k < |names| :: names[k] in types
    ensures r.Some? ==> r.value in names && r.value !in types
    decreases |names|
  {
    if names == [] then None
    else if names[0] !in types then Some(names[0])
    else FirstMissing(names[1..], types)
  }

  /** The types `Lua.__init__` checks with `lookup_type`. */
  const CORE_TYPES: seq<string> := ["lua_State", "TValue", "union GCUnion", "LClosure"]
  /** The types `Lua.__init__` then looks up unguarded. */
  const C_TYPES: seq<string> := ["int", "void", "char"]
  /**
   * The types the `Lua53` constructor needs beyond those: `calc_max_align`
   * checks lua_Integer and lua_Number, then looks up double and long
   * unguarded; TString and Udata are checked last.
   */
  const LUA53_TYPES: seq<string> := ["lua_Integer", "lua_Number", "double", "long", "TString", "Udata"]

  /** `Lua.__init__`: `None` when it succeeds, else the exception it raises. */
  function InitBase(inf: Inferior): Option<InitError> {
    if FirstMissing(CORE_TYPES, inf.types).Some? then Some(TypesMissing)
    else match FirstMissing(C_TYPES, inf.types)
      case Some(name) => Some(NoSuchType(name))
      case None => None
  }

  function Max(a: int, b: int): int { if a >= b then a else b }

  /** `calc_max_align`: the largest alignment of double, long, void *, lua_Integer and lua_Number. */
  function MaxAlign(inf: Inferior): (m: Align)
    requires "double" in inf.types && "long" in inf.types
    requires "lua_Integer" in inf.types && "lua_Number" in inf.types
    ensures m >= inf.types["double"].align && m >= inf.types["long"].align && m >= inf.pointerAlign
    ensures m >= inf.types["lua_Integer"].align && m >= inf.types["lua_Number"].align
    ensures m in {inf.types["double"].align, inf.types["long"].align, inf.pointerAlign,
                  inf.types["lua_Integer"].align, inf.types["lua_Number"].align}
  {
    Max(Max(Max(Max(inf.types["double"].align, inf.types["long"].align), inf.pointerAlign),
            inf.types["lua_Integer"].align), inf.types["lua_Number"].align)
  }

  /**
   * The `Lua53` constructor.  A string's bytes and a userdata's payload
   * start at the header size rounded up to the maximum alignment: aligned,
   * past the header, and less than one alignment unit beyond it.
   */
  function MakeLua53(inf: Inferior): (r: Result<Strategy, InitError>)
    ensures r.Ok? ==> r.value.Lua53? && "TString" in inf.types && "Udata" in inf.types
    ensures r.Ok? ==> "double" in inf.types && "long" in inf.types
    ensures r.Ok? ==> "lua_Integer" in inf.types && "lua_Number" in inf.types
    ensures r.Ok? ==>
      var m := MaxAlign(inf);
      var ts, us := inf.types["TString"].size, inf.types["Udata"].size;
      && r.value.tstringSize % m == 0 && ts <= r.value.tstringSize < ts + m
      && r.value.udataSize % m == 0 && us <= r.value.udataSize < us + m
  {
    match InitBase(inf)
    case Some(e) => Err(e)
    case None =>
      if "lua_Integer" !in inf.types || "lua_Number" !in inf.types then Err(TypesMissing)
      else if "double" !in inf.types then Err(NoSuchType("double"))
      else if "long" !in inf.types then Err(NoSuchType("long"))
      else
        var m := MaxAlign(inf);
        if "TString" !in inf.types || "Udata" !in inf.types then Err(TypesMissing)
        else Ok(Lua53(RoundUp(inf.types["TString"].size, m), RoundUp(inf.types["Udata"].size, m)))
  }

  /** The `Lua54` and `Lua54_le1` constructors (the inherited `Lua.__init__`). */
  function MakeLua54(inf: Inferior, le1: bool): Result<Strategy, InitError> {
    match InitBase(inf)
    case Some(e) => Err(e)
    case None => Ok(if le1 then Lua54Le1 else Lua54)
  }

  predicate Supported(v: (int, int, int)) {
    v.0 == 5 && (v.1 == 3 || (v.1 == 4 && v.2 <= 4))
  }

  /** The dispatch of `lua()` on the parsed version. */
  function Select(v: (int, int, int), inf: Inferior): Result<Strategy, InitError> {
    if v.0 == 5 && v.1 == 3 then MakeLua53(inf)
    else if v.0 == 5 && v.1 == 4 && v.2 <= 1 then MakeLua54(inf, true)
    else if v.0 == 5 && v.1 == 4 && v.2 <= 4 then MakeLua54(inf, false)
    else Err(Unsupported(v.0, v.1, v.2))
  }

  /** What `lua()` computes when `G` is still unset. */
  function Init(inf: Inferior): Result<Strategy, InitError> {
    match Version(inf)
    case Err(e) => Err(e)
    case Ok(v) => Select(v, inf)
  }

  /** Every type a strategy constructor looks up is present. */
  predicate TypesPresent(inf: Inferior) {
    && AllPresent(CORE_TYPES, inf.types)
    && AllPresent(C_TYPES, inf.types)
    && AllPresent(LUA53_TYPES, inf.types)
  }

  predicate AllPresent(names: seq<string>, types: map<string, TypeLayout>) {
    forall k | 0 <= k < |names| :: names[k] in types
  }

  /**
   * 5.3 selects `Lua53`, 5.4.0-1 `Lua54_le1`, 5.4.2-4 `Lua54`; any other
   * version (5.4.5 and later included) is refused as unsupported, and a
   * supported version with all its types present always succeeds.
   */
  lemma SelectDispatch(v: (int, int, int), inf: Inferior)
    ensures !Supported(v) <==> Select(v, inf) == Err(Unsupported(v.0, v.1, v.2))
    ensures Select(v, inf).Ok? ==> (Select(v, inf).value.Lua53? <==> v.1 == 3)
    ensures Select(v, inf).Ok? ==> (Select(v, inf).value.Lua54Le1? <==> v.1 == 4 && v.2 <= 1)
    ensures Select(v, inf).Ok? ==> (Select(v, inf).value.Lua54? <==> v.1 == 4 && 2 <= v.2 <= 4)
    ensures Supported(v) && TypesPresent(inf) ==> Select(v, inf).Ok?
  {
    if Supported(v) && TypesPresent(inf) {
      assert InitBase(inf).None?;
      if v.1 == 3 {
        assert LUA53_TYPES[0] in inf.types && LUA53_TYPES[1] in inf.types && LUA53_TYPES[2] in inf.types;
        assert LUA53_TYPES[3] in inf.types && LUA53_TYPES[4] in inf.types && LUA53_TYPES[5] in inf.types;
      }
    }
  }

  /**
   * A supported version fails to build its strategy exactly when a type
   * its constructor looks up is missing: a core type gives
   * `LuaInitializationFailed`, a missing C type the lookup's own error.
   */
  lemma SelectMissingTypes(v: (int, int, int), inf: Inferior)
    requires Supported(v)
    ensures Select(v, inf).Err? <==>
      || !AllPresent(CORE_TYPES, inf.types)
      || !AllPresent(C_TYPES, inf.types)
      || (v.1 == 3 && !AllPresent(LUA53_TYPES, inf.types))
    ensures !AllPresent(CORE_TYPES, inf.types) ==> Select(v, inf) == Err(TypesMissing)
    ensures AllPresent(CORE_TYPES, inf.types) && !AllPresent(C_TYPES, inf.types) ==>
      Select(v, inf) == Err(NoSuchType(FirstMissing(C_TYPES, inf.types).value))
  {
    var t := inf.types;
    var all53 := LUA53_TYPES[0] in t && LUA53_TYPES[1] in t && LUA53_TYPES[2] in t
      && LUA53_TYPES[3] in t && LUA53_TYPES[4] in t && LUA53_TYPES[5] in t;
    assert AllPresent(LUA53_TYPES, t) <==> all53;
  }

  /**
   * Where the strategy `lua()` builds finds a string's bytes and a
   * userdata's payload: on 5.3 just past the object's header, at the next
   * multiple of the maximum alignment, with no user-value count; on 5.4 at
   * the `contents` field and the user values, with the count.
   */
  lemma PayloadAddresses(v: (int, int, int), inf: Inferior, p: Addr, ts: TString, u: Udata)
    requires Select(v, inf).Ok?
    ensures v.1 == 3 ==>
      && "TString" in inf.types && "Udata" in inf.types
      && "double" in inf.types && "long" in inf.types
      && "lua_Integer" in inf.types && "lua_Number" in inf.types
    ensures v.1 == 3 ==>
      var s, m := Select(v, inf).value, MaxAlign(inf);
      var dt, du := StringData(s, p, ts) - p, Uv(s, p, u).0 - p;
      && dt % m == 0 && inf.types["TString"].size <= dt < inf.types["TString"].size + m
      && du % m == 0 && inf.types["Udata"].size <= du < inf.types["Udata"].size + m
      && Uv(s, p, u).1 == ""
    ensures v.1 != 3 ==>
      var s := Select(v, inf).value;
      && StringData(s, p, ts) == ts.contentsAddr
      && Uv(s, p, u) == (u.uvAddr, "nuvalue: " + IntToString(u.nuvalue) + ", ")
  {
  }

  /** The text of `lua_ident` for a version, as Lua defines it, followed by `rest`. */
  function IdentText(major: nat, minor: nat, patch: nat, rest: string): string {
    VERSION_PREFIX + NatToString(major) + "." + NatToString(minor) + "." + NatToString(patch) + rest
  }

  function WithIdent(inf: Inferior, ident: string): Inferior {
    inf.(symbols := inf.symbols["lua_ident" := ident])
  }

  /**
   * The identification strings of 5.3.6, 5.4.1 and 5.4.3 select three
   * different strategies; that of 5.4.6 is refused.
   */
  lemma VersionExamples(inf: Inferior, rest: string)
    requires TypesPresent(inf)
    requires rest == [] || !IsDigit(rest[0])
    ensures Init(WithIdent(inf, IdentText(5, 3, 6, rest))).Ok?
    ensures Init(WithIdent(inf, IdentText(5, 3, 6, rest))).value.Lua53?
    ensures Init(WithIdent(inf, IdentText(5, 4, 1, rest))) == Ok(Lua54Le1)
    ensures Init(WithIdent(inf, IdentText(5, 4, 3, rest))) == Ok(Lua54)
    ensures Init(WithIdent(inf, IdentText(5, 4, 6, rest))) == Err(Unsupported(5, 4, 6))
  {
    VersionRoundTrip(5, 3, 6, rest);
    VersionRoundTrip(5, 4, 1, rest);
    VersionRoundTrip(5, 4, 3, rest);
    VersionRoundTrip(5, 4, 6, rest);
    SelectDispatch((5, 3, 6), WithIdent(inf, IdentText(5, 3, 6, rest)));
    SelectDispatch((5, 4, 1), WithIdent(inf, IdentText(5, 4, 1, rest)));
    SelectDispatch((5, 4, 3), WithIdent(inf, IdentText(5, 4, 3, rest)));
  }

  /**
   * The global `G` and `lua()`: the strategy is built on first use, kept
   * once built, and left unset when building it fails, so the next call
   * tries again.
   */
  class Session {
    var g: Option<Strategy>

    constructor ()
      ensures g == None
    {
      g := None;
    }

    method Lua(inf: Inferior) returns (r: Result<Strategy, InitError>)
      modifies this
      ensures old(g).Some? ==> g == old(g) && r == Ok(old(g).value)
      ensures old(g).None? ==> r == Init(inf) && g == (if r.Ok? then Some(r.value) else None)
    {
      if g.None? {
        r := Init(inf);
        if r.Ok? {
          g := Some(r.value);
        }
      } else {
        r := Ok(g.value);
      }
    }
  }
}
