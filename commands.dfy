/**
 * The output of the `lua stack` and `lua bt` commands of gdb_lua.py:
 * `Lua.dump_stack`, `Lua.dump_stack_idx` and `Lua.dump_call_stack`.  Each
 * `gdb.write` of a whole line becomes one `Line` of the result; values are
 * left for gdb's pretty printer (`Val`).
 */
module Commands {
  import opened Wrappers
  import opened LuaObjects
  import opened Tags
  import opened Text
  import opened Strategy
  import opened Output
  import opened Walkers
  import opened Render

  /** Why `dump_stack_idx` fails: the index is refused, or the slot it names is not in memory. */
  datatype StackError = InvalidStackIndex(i: int) | MemoryError(addr: Addr)

  /**
   * `f'{TYPE_NAMES[tt]} {val}'`: a value preceded by the name of its type,
   * which is the name `Lua.type` gives the type nibble.
   */
  function NamedValue(tv: TValue): (r: Line)
    requires TypeTag(tv.tt) < 9
    ensures |r| == 2 && r[1] == Val(tv)
    ensures r[0] == Lit(TypeName(TypeTag(tv.tt)) + " ")
  {
    TypeNameCases(TypeTag(tv.tt));
    [Lit(TYPE_NAMES[TypeTag(tv.tt)] + " "), Val(tv)]
  }

  /**
   * `dump_stack_idx`: the slot `stack_idx` names, or the "invalid stack
   * index" exception.  Reading the tag of a slot outside memory raises
   * gdb's memory error; `TYPE_NAMES[tt]` would fail for a type nibble above
   * 8, which the original does not guard, so the slot read must not have one.
   */
  function DumpStackIdx(L: LuaState, i: int): (r: Result<Line, StackError>)
    requires StackIdx(L, i).Some? && InMemory(L, StackIdx(L, i).value) ==> TypeTag(L.slots[StackIdx(L, i).value].tt) < 9
    ensures r == Err(InvalidStackIndex(i)) <==> StackIdx(L, i).None?
    ensures r.Err? && r.error.MemoryError? <==> StackIdx(L, i).Some? && !InMemory(L, StackIdx(L, i).value)
    ensures r.Err? && r.error.MemoryError? ==> r.error.addr == StackIdx(L, i).value
    ensures r.Ok? ==> |r.value| == 2 && r.value[1] == Val(L.slots[StackIdx(L, i).value])
    ensures r.Ok? ==> r.value[0] == Lit(TypeName(TypeTag(L.slots[StackIdx(L, i).value].tt)) + " ")
  {
    match StackIdx(L, i)
    case None => Err(InvalidStackIndex(i))
    case Some(a) => if InMemory(L, a) then Ok(NamedValue(L.slots[a])) else Err(MemoryError(a))
  }

  /** The live slots are in memory and each has a type nibble `TYPE_NAMES` covers. */
  predicate LiveSlotsNamed(L: LuaState) {
    forall a | L.stack < a < L.top :: InMemory(L, a) && TypeTag(L.slots[a].tt) < 9
  }

  /** `f'{i + 1}: {v} {TYPE_NAMES[tt]} {val}'` for the slot at address `a`, numbered `n`. */
  function SlotLine(L: LuaState, n: int, a: Addr): Line
    requires InMemory(L, a) && TypeTag(L.slots[a].tt) < 9
  {
    [Lit(IntToString(n) + ": "), Ptr(a), Lit(" ")] + NamedValue(L.slots[a])
  }

  /** The lines `dump_stack` writes without an index: one per live slot, numbered from 1. */
  function StackLines(L: LuaState): seq<Line>
    requires L.stack < L.top && LiveSlotsNamed(L)
  {
    var slots := StackSlots(L);
    seq(|slots|, k requires 0 <= k < |slots| => SlotLine(L, k + 1, slots[k]))
  }

  /**
   * `dump_stack`: with an index, the one line of `dump_stack_idx`; without,
   * one line per slot `iter_stack` yields.
   */
  method DumpStack(L: LuaState, i: Option<int>) returns (r: Result<seq<Line>, StackError>)
    requires i.None? ==> L.stack < L.top && LiveSlotsNamed(L)
    requires i.Some? ==> StackIdx(L, i.value).Some? && InMemory(L, StackIdx(L, i.value).value)
                         ==> TypeTag(L.slots[StackIdx(L, i.value).value].tt) < 9
    ensures i.Some? ==> r == (match DumpStackIdx(L, i.value) case Ok(line) => Ok([line]) case Err(e) => Err(e))
    ensures i.None? ==> r == Ok(StackLines(L))
  {
    if i.Some? {
      match DumpStackIdx(L, i.value)
      case Ok(line) => return Ok([line]);
      case Err(e) => return Err(e);
    }
    var slots := IterStack(L);
    var out: seq<Line> := [];
    var k := 0;
    while k < |slots|
      invariant 0 <= k <= |slots|
      invariant out == StackLines(L)[..k]
    {
      out := out + [SlotLine(L, k + 1, slots[k])];
      k := k + 1;
    }
    assert |StackLines(L)| == |slots|;
    assert out == StackLines(L);
    return Ok(out);
  }

  /**
   * The listing of the whole stack agrees with the single-index command:
   * line k shows `k: `, the slot's address, and what `dump_stack_idx(L, k)`
   * shows; the last line is also what `dump_stack_idx(L, -1)` shows.
   */
  lemma StackLinesMatchIdx(L: LuaState)
    requires L.stack < L.top && LiveSlotsNamed(L)
    ensures |StackLines(L)| == L.top - L.stack - 1
    ensures forall k | 1 <= k <= |StackLines(L)| ::
      DumpStackIdx(L, k).Ok?
      && StackLines(L)[k - 1] == [Lit(IntToString(k) + ": "), Ptr(L.stack + k), Lit(" ")] + DumpStackIdx(L, k).value
    ensures |StackLines(L)| > 0 ==>
      DumpStackIdx(L, -1).Ok? && StackLines(L)[|StackLines(L)| - 1][3..] == DumpStackIdx(L, -1).value
  {
    StackIdxMatchesIterStack(L);
  }

  // ---------------------------------------------------------------- call stack

  const TAIL_CALLS: string := "(... tail calls ...)"

  /**
   * `getfuncname`: the location of a Lua closure.  As written it looks only
   * at the variant bits of the tag, not at the type.
   */
  function FuncName(tv: TValue): (r: Option<string>)
    ensures r.Some? <==> IsLuaClosure(tv.tt)
  {
    if IsLuaClosure(tv.tt) then Some(Location(tv.value.gc.l)) else None
  }

  /** Each frame of `chain` has a call info whose function slot is in memory. */
  predicate FramesIn(L: LuaState, chain: seq<Addr>) {
    forall k | 0 <= k < |chain| :: chain[k] in L.callInfos && InMemory(L, L.callInfos[chain[k]].func)
  }

  /** The frames are readable: the chain reaches `base_ci` and each frame's function slot is in memory. */
  predicate FramesReadable(L: LuaState) {
    CallChain(L).Some? && FramesIn(L, CallChain(L).value)
  }

  /**
   * The lines `dump_call_stack` writes for the frame at address `a`,
   * numbered `n`: `#n  <function>`, its location for a Lua closure, and a
   * `(... tail calls ...)` line when the frame was entered by a tail call.
   */
  function FrameLines(s: Strategy, L: LuaState, n: int, a: Addr): (r: seq<Line>)
    requires a in L.callInfos && InMemory(L, L.callInfos[a].func)
    ensures |r| == 1 || |r| == 2
  {
    [FrameHead(L, n, a)] + (if IsTail(s, L.callInfos[a].callstatus) then [[Lit(TAIL_CALLS)]] else [])
  }

  /** The first line of a frame: `#n  <function>` and, for a Lua closure, ` ` and its location. */
  function FrameHead(L: LuaState, n: int, a: Addr): (r: Line)
    requires a in L.callInfos && InMemory(L, L.callInfos[a].func)
    ensures |r| >= 2
  {
    var tv := L.slots[L.callInfos[a].func];
    var name := match FuncName(tv) case Some(loc) => [Lit(" " + loc)] case None => [];
    [Lit("#" + IntToString(n) + "  "), Val(tv)] + name
  }

  /** The frames' lines one frame after another. */
  function Concat(blocks: seq<seq<Line>>): seq<Line>
    decreases |blocks|
  {
    if blocks == [] then [] else blocks[0] + Concat(blocks[1..])
  }

  lemma {:induction false} ConcatAppend(a: seq<seq<Line>>, b: seq<seq<Line>>)
    ensures Concat(a + b) == Concat(a) + Concat(b)
    decreases |a|
  {
    if a == [] {
      assert a + b == b;
    } else {
      assert (a + b)[1..] == a[1..] + b;
      ConcatAppend(a[1..], b);
    }
  }

  /** Splitting the blocks around block `k`. */
  lemma ConcatAt(b: seq<seq<Line>>, k: nat)
    requires k < |b|
    ensures Concat(b) == Concat(b[..k]) + (b[k] + Concat(b[k + 1..]))
  {
    assert b == b[..k] + b[k..];
    ConcatAppend(b[..k], b[k..]);
    assert b[k..][1..] == b[k + 1..];
  }

  /** The lines of each frame of `chain`, frame `j` numbered `j`. */
  function FrameBlocks(s: Strategy, L: LuaState, chain: seq<Addr>): (r: seq<seq<Line>>)
    requires FramesIn(L, chain)
    ensures |r| == |chain|
    ensures forall j | 0 <= j < |chain| :: r[j] == FrameLines(s, L, j, chain[j])
  {
    seq(|chain|, j requires 0 <= j < |chain| => FrameLines(s, L, j, chain[j]))
  }

  /** The lines `dump_call_stack` writes for the frames of `chain`. */
  function CallStackLines(s: Strategy, L: LuaState, chain: seq<Addr>): seq<Line>
    requires FramesIn(L, chain)
  {
    Concat(FrameBlocks(s, L, chain))
  }

  /** `dump_call_stack`: the frames `iter_call_stack` yields, numbered from 0. */
  method DumpCallStack(s: Strategy, L: LuaState) returns (out: seq<Line>)
    requires FramesReadable(L)
    ensures out == CallStackLines(s, L, CallChain(L).value)
  {
    var chain := IterCallStack(L);
    ghost var blocks := FrameBlocks(s, L, chain);
    out := [];
    var i := 0;
    while i < |chain|
      invariant 0 <= i <= |chain|
      invariant out == Concat(blocks[..i])
    {
      CallStackStep(blocks, i);
      out := out + FrameLines(s, L, i, chain[i]);
      i := i + 1;
    }
    assert blocks[..i] == blocks;
  }

  /** One turn of `dump_call_stack`'s loop appends the next frame's lines. */
  lemma CallStackStep(blocks: seq<seq<Line>>, i: nat)
    requires i < |blocks|
    ensures Concat(blocks[..i + 1]) == Concat(blocks[..i]) + blocks[i]
  {
    assert blocks[..i + 1] == blocks[..i] + [blocks[i]];
    ConcatAppend(blocks[..i], [blocks[i]]);
    assert Concat([blocks[i]]) == blocks[i] + [];
  }

  /** Whether each frame of `chain` was entered by a tail call, as the strategy reads its status. */
  function TailFlags(s: Strategy, L: LuaState, chain: seq<Addr>): (r: seq<bool>)
    requires FramesIn(L, chain)
    ensures |r| == |chain|
    ensures forall j | 0 <= j < |chain| :: r[j] == IsTail(s, L.callInfos[chain[j]].callstatus)
  {
    seq(|chain|, j requires 0 <= j < |chain| => IsTail(s, L.callInfos[chain[j]].callstatus))
  }

  function CountTrue(flags: seq<bool>): (n: nat)
    ensures n <= |flags|
    decreases |flags|
  {
    if flags == [] then 0
    else CountTrue(flags[..|flags| - 1]) + (if flags[|flags| - 1] then 1 else 0)
  }

  /** The number of frames before position `k` that were entered by a tail call. */
  function TailsBefore(s: Strategy, L: LuaState, chain: seq<Addr>, k: nat): nat
    requires FramesIn(L, chain) && k <= |chain|
  {
    CountTrue(TailFlags(s, L, chain)[..k])
  }

  function Markers(lines: seq<Line>): nat
    decreases |lines|
  {
    if lines == [] then 0
    else (if lines[0] == [Lit(TAIL_CALLS)] then 1 else 0) + Markers(lines[1..])
  }

  lemma {:induction false} MarkersAppend(a: seq<Line>, b: seq<Line>)
    ensures Markers(a + b) == Markers(a) + Markers(b)
    decreases |a|
  {
    if a != [] {
      assert (a + b)[1..] == a[1..] + b;
      MarkersAppend(a[1..], b);
    } else {
      assert a + b == b;
    }
  }

  /** A frame's lines: its first line, which is not a marker, and a marker exactly when it was tail-called. */
  lemma FrameLinesMarkers(s: Strategy, L: LuaState, n: int, a: Addr)
    requires a in L.callInfos && InMemory(L, L.callInfos[a].func)
    ensures var r := FrameLines(s, L, n, a);
      var tail := IsTail(s, L.callInfos[a].callstatus);
      && |r| == (if tail then 2 else 1)
      && Markers(r) == (if tail then 1 else 0)
      && r[0] != [Lit(TAIL_CALLS)]
      && (tail ==> r[1] == [Lit(TAIL_CALLS)])
  {
    var r := FrameLines(s, L, n, a);
    assert r[0] != [Lit(TAIL_CALLS)];
    var rest := r[1..];
    assert Markers(r) == Markers(rest);
    if IsTail(s, L.callInfos[a].callstatus) {
      assert rest == [[Lit(TAIL_CALLS)]];
      assert rest[1..] == [];
      assert Markers(rest) == 1 + Markers(rest[1..]);
    } else {
      assert rest == [];
    }
  }

  /** A block is one line that is not a marker, followed by a marker exactly when `tail` is set. */
  predicate BlockShaped(block: seq<Line>, tail: bool) {
    && |block| == (if tail then 2 else 1)
    && Markers(block) == (if tail then 1 else 0)
    && block[0] != [Lit(TAIL_CALLS)]
    && (tail ==> block[1] == [Lit(TAIL_CALLS)])
  }

  predicate Shaped(b: seq<seq<Line>>, flags: seq<bool>) {
    |b| == |flags| && forall j {:trigger BlockShaped(b[j], flags[j])} | 0 <= j < |b| :: BlockShaped(b[j], flags[j])
  }

  /** The first `k` blocks have one line each plus one marker for each flag set among them. */
  lemma {:induction false} ConcatCount(b: seq<seq<Line>>, flags: seq<bool>, k: nat)
    requires Shaped(b, flags) && k <= |b|
    ensures |Concat(b[..k])| == k + CountTrue(flags[..k])
    ensures Markers(Concat(b[..k])) == CountTrue(flags[..k])
    decreases k
  {
    if k == 0 {
      assert b[..k] == [];
    } else {
      ConcatCount(b, flags, k - 1);
      assert BlockShaped(b[k - 1], flags[k - 1]);
      CallStackStep(b, k - 1);
      MarkersAppend(Concat(b[..k - 1]), b[k - 1]);
      assert flags[..k][..k - 1] == flags[..k - 1];
    }
  }

  /** `dump_call_stack` writes one line per frame, and a marker as a second line exactly for each tail-called frame. */
  lemma FrameBlocksShaped(s: Strategy, L: LuaState, chain: seq<Addr>)
    requires FramesIn(L, chain)
    ensures Shaped(FrameBlocks(s, L, chain), TailFlags(s, L, chain))
  {
    var b, flags := FrameBlocks(s, L, chain), TailFlags(s, L, chain);
    forall j | 0 <= j < |chain|
      ensures BlockShaped(b[j], flags[j])
    {
      FrameLinesMarkers(s, L, j, chain[j]);
    }
  }

  /** A frame's first line reads `#n  `, the frame's function, and the location of a Lua closure. */
  lemma FrameHeadText(L: LuaState, n: int, a: Addr)
    requires a in L.callInfos && InMemory(L, L.callInfos[a].func)
    ensures var tv := L.slots[L.callInfos[a].func];
      var r := FrameHead(L, n, a);
      && r[..2] == [Lit("#" + IntToString(n) + "  "), Val(tv)]
      && (|r| == 2 <==> !IsLuaClosure(tv.tt))
      && (|r| > 2 ==> r[2..] == [Lit(" " + Location(tv.value.gc.l))])
      && r != [Lit(TAIL_CALLS)]
  {
  }

  /**
   * Frame `k` of the backtrace: its line comes after `k` frame lines and
   * one marker for each tail-called frame before it, reads `#k  ` and the
   * frame's function, and is followed by the `(... tail calls ...)` line
   * exactly when frame `k` was entered by a tail call.
   */
  lemma CallStackFrameAt(s: Strategy, L: LuaState, k: nat)
    requires FramesReadable(L) && k < |CallChain(L).value|
    ensures var chain := CallChain(L).value;
      var out := CallStackLines(s, L, chain);
      var p := k + TailsBefore(s, L, chain, k);
      var info := L.callInfos[chain[k]];
      && p < |out| && |out[p]| >= 2
      && out[p][..2] == [Lit("#" + IntToString(k) + "  "), Val(L.slots[info.func])]
      && ((p + 1 < |out| && out[p + 1] == [Lit(TAIL_CALLS)]) <==> IsTail(s, info.callstatus))
  {
    var chain := CallChain(L).value;
    var head := FrameHead(L, k, chain[k]);
    CallStackFrameHead(s, L, chain, k);
    FrameHeadText(L, k, chain[k]);
    assert CallStackLines(s, L, chain)[k + TailsBefore(s, L, chain, k)][..2] == head[..2];
    assert TailFlags(s, L, chain)[k] == IsTail(s, L.callInfos[chain[k]].callstatus);
  }

  /** Frame `k`'s first line sits after `k` frame lines and the markers before it, and a marker follows it exactly when it was tail-called. */
  lemma CallStackFrameHead(s: Strategy, L: LuaState, chain: seq<Addr>, k: nat)
    requires FramesIn(L, chain) && k < |chain|
    ensures k + TailsBefore(s, L, chain, k) < |CallStackLines(s, L, chain)|
    ensures CallStackLines(s, L, chain)[k + TailsBefore(s, L, chain, k)] == FrameHead(L, k, chain[k])
    ensures var out, p := CallStackLines(s, L, chain), k + TailsBefore(s, L, chain, k);
      (p + 1 < |out| && out[p + 1] == [Lit(TAIL_CALLS)]) <==> TailFlags(s, L, chain)[k]
  {
    var b, flags := FrameBlocks(s, L, chain), TailFlags(s, L, chain);
    assert b[k][0] == FrameHead(L, k, chain[k]) by {
      assert b[k] == FrameLines(s, L, k, chain[k]);
    }
    FrameBlocksShaped(s, L, chain);
    assert BlockShaped(b[k], flags[k]);
    ConcatFrame(b, flags, k, CallStackLines(s, L, chain), k + TailsBefore(s, L, chain, k),
      FrameHead(L, k, chain[k]), flags[k]);
  }

  /**
   * Block `k` starts after `k` lines and the markers of the flagged blocks
   * before it, and the line after its first is a marker exactly when its
   * flag is set.
   */
  lemma ConcatFrame(b: seq<seq<Line>>, flags: seq<bool>, k: nat, out: seq<Line>, p: nat, head: Line, tail: bool)
    requires Shaped(b, flags) && k < |b|
    requires out == Concat(b) && p == k + CountTrue(flags[..k])
    requires BlockShaped(b[k], flags[k]) && head == b[k][0] && tail == flags[k]
    ensures p < |out| && out[p] == head
    ensures (p + 1 < |out| && out[p + 1] == [Lit(TAIL_CALLS)]) <==> tail
  {
    var after := Concat(b[k + 1..]);
    ConcatAt(b, k);
    ConcatCount(b, flags, k);
    assert BlockShaped(b[k], flags[k]);
    if k + 1 < |b| {
      assert BlockShaped(b[k + 1], flags[k + 1]);
      ConcatAt(b[k + 1..], 0);
      assert b[k + 1..][0] == b[k + 1];
      assert after[0] == b[k + 1][0];
    } else {
      assert b[k + 1..] == [];
    }
  }

  /** The whole backtrace: one line per frame from `ci` to `base_ci`, plus one marker per tail-called frame. */
  lemma CallStackShape(s: Strategy, L: LuaState)
    requires FramesReadable(L)
    ensures var chain := CallChain(L).value;
      var out := CallStackLines(s, L, chain);
      && |out| == |chain| + TailsBefore(s, L, chain, |chain|)
      && Markers(out) == TailsBefore(s, L, chain, |chain|)
      && (L.ci == L.baseCi <==> out == [])
  {
    var chain := CallChain(L).value;
    var b := FrameBlocks(s, L, chain);
    FrameBlocksShaped(s, L, chain);
    ConcatCount(b, TailFlags(s, L, chain), |chain|);
    assert b[..|chain|] == b;
    CallChainShape(L);
  }
}
