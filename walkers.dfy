/**
 * The generators of gdb_lua.py that walk the inspected process's memory:
 * `iter_stack` and `stack_idx` over a Lua stack, `iter_array` and
 * `iter_hash` over a table, and `iter_call_stack` over the call-info chain.
 * Each generator is a method whose loop advances a pointer as the original
 * does and returns the sequence it would have yielded; each is proved equal
 * to a specification function, and the lemmas below say what those yield.
 */
module Walkers {
  import opened Wrappers
  import opened LuaObjects
  import opened Tags

  // ---------------------------------------------------------------- stack

  /**
   * The slots `iter_stack` yields: from `stack + 1` up to, not including,
   * `top` (`stack` itself holds the entry function).
   */
  function StackSlots(L: LuaState): (r: seq<Addr>)
    requires L.stack < L.top
  {
    seq(L.top - L.stack - 1, k => L.stack + 1 + k)
  }

  /**
   * `iter_stack`: the pointer starts one past `stack` and stops at `top`.
   * A state whose `top` is not above `stack` would never stop, so the Lua
   * invariant `stack < top` is required.
   */
  method IterStack(L: LuaState) returns (r: seq<Addr>)
    requires L.stack < L.top
    ensures r == StackSlots(L)
  {
    r := [];
    var s := L.stack + 1;
    while s != L.top
      invariant L.stack + 1 <= s <= L.top
      invariant r == StackSlots(L)[..s - L.stack - 1]
      decreases L.top - s
    {
      r := r + [s];
      s := s + 1;
    }
  }

  /**
   * `stack_idx`: a negative index counts down from `top`, with no lower
   * bound; a positive one counts up from `stack` and must stay below `top`;
   * 0 and every other index give `None`.
   */
  function StackIdx(L: LuaState, i: int): (r: Option<Addr>)
    ensures r.Some? <==> i < 0 || (0 < i && i < L.top - L.stack)
    ensures r.Some? && i < 0 ==> r.value - L.top == i
    ensures r.Some? && i > 0 ==> r.value - L.stack == i
  {
    if i < 0 then Some(L.top + i)
    else if 0 < i && i < L.top - L.stack then Some(L.stack + i)
    else None
  }

  /**
   * The k-th slot `iter_stack` yields (counting from 1) is `stack_idx(L, k)`,
   * and the k-th from the end is `stack_idx(L, -k)`; no positive index
   * outside the yielded slots is accepted.
   */
  lemma StackIdxMatchesIterStack(L: LuaState)
    requires L.stack < L.top
    ensures var slots := StackSlots(L);
      && |slots| == L.top - L.stack - 1
      && (forall k | 1 <= k <= |slots| :: StackIdx(L, k) == Some(slots[k - 1]))
      && (forall j | 0 <= j < |slots| :: StackIdx(L, j - |slots|) == Some(slots[j]))
      && (forall k | k >= 0 && (k == 0 || k > |slots|) :: StackIdx(L, k) == None)
  {
  }

  /**
   * As written, a negative index beyond the live slots is not refused:
   * `-(top - stack)` names the entry-function slot at `stack`, and anything
   * lower names memory below the stack.
   */
  lemma StackIdxNegativeUnchecked(L: LuaState, i: int)
    requires L.stack < L.top
    requires i <= -(L.top - L.stack)
    ensures StackIdx(L, i).Some?
    ensures StackIdx(L, i).value <= L.stack
    ensures StackIdx(L, i).value !in StackSlots(L)
    ensures i == -(L.top - L.stack) ==> StackIdx(L, i) == Some(L.stack)
  {
  }

  // ---------------------------------------------------------------- array part

  /**
   * What `iter_array(h, cap)` yields from index `i` on: the 1-based index
   * and the value of each slot, until index `cap` has been passed or a slot
   * holds nil.
   */
  function ArrayWalkFrom(arr: seq<TValue>, cap: int, i: nat): seq<(int, TValue)>
    requires 1 <= i
    requires cap <= |arr|
    decreases cap - i + 1
  {
    if i > cap then []
    else if TypeTag(arr[i - 1].tt) == LUA_TNIL then []
    else [(i, arr[i - 1])] + ArrayWalkFrom(arr, cap, i + 1)
  }

  function ArrayWalk(arr: seq<TValue>, cap: int): seq<(int, TValue)>
    requires cap <= |arr|
  {
    ArrayWalkFrom(arr, cap, 1)
  }

  /**
   * `iter_array`: the pointer starts at `array` and moves one slot per index
   * in `1..cap`, stopping early at the first nil.  The slots it may read
   * are required to be readable.
   */
  method IterArray(arr: seq<TValue>, cap: int) returns (r: seq<(int, TValue)>)
    requires cap <= |arr|
    ensures r == ArrayWalk(arr, cap)
  {
    r := [];
    var a := 0;
    var i := 1;
    while i <= cap
      invariant 1 <= i && a == i - 1
      invariant i <= cap + 1 || i == 1
      invariant r + ArrayWalkFrom(arr, cap, i) == ArrayWalk(arr, cap)
      decreases cap - i + 1
    {
      if TypeTag(arr[a].tt) == LUA_TNIL {
        break;
      }
      r := r + [(i, arr[a])];
      a := a + 1;
      i := i + 1;
    }
  }

  /**
   * The walk from index `i` is the longest run of non-nil slots from `i`,
   * at most up to `cap`, each paired with its 1-based index.
   */
  lemma {:induction false} ArrayWalkFromShape(arr: seq<TValue>, cap: int, i: nat)
    requires 1 <= i
    requires cap <= |arr|
    ensures var r := ArrayWalkFrom(arr, cap, i);
      && (i > cap ==> r == [])
      && (i <= cap ==> |r| <= cap - i + 1)
      && (forall k | 0 <= k < |r| :: r[k] == (i + k, arr[i + k - 1]) && TypeTag(r[k].1.tt) != LUA_TNIL)
      && (i + |r| > cap || TypeTag(arr[i + |r| - 1].tt) == LUA_TNIL)
    decreases cap - i + 1
  {
    if i <= cap && TypeTag(arr[i - 1].tt) != LUA_TNIL {
      ArrayWalkFromShape(arr, cap, i + 1);
      var rest := ArrayWalkFrom(arr, cap, i + 1);
      var r := ArrayWalkFrom(arr, cap, i);
      assert r == [(i, arr[i - 1])] + rest;
      forall k | 0 <= k < |r|
        ensures r[k] == (i + k, arr[i + k - 1]) && TypeTag(r[k].1.tt) != LUA_TNIL
      {
        if k > 0 {
          assert r[k] == rest[k - 1];
        }
      }
    }
  }

  /**
   * `iter_array(h, cap)` yields the indices 1, 2, ..., m with their slots,
   * where m is `cap` or the position before the first nil, whichever is
   * smaller; a capacity of 0 or less yields nothing.
   */
  lemma ArrayWalkShape(arr: seq<TValue>, cap: int)
    requires cap <= |arr|
    ensures var r := ArrayWalk(arr, cap);
      && (cap <= 0 ==> r == [])
      && |r| <= (if cap < 0 then 0 else cap)
      && (forall k | 0 <= k < |r| :: r[k] == (k + 1, arr[k]) && TypeTag(r[k].1.tt) != LUA_TNIL)
      && (cap >= 0 ==> |r| == cap || (|r| < cap && TypeTag(arr[|r|].tt) == LUA_TNIL))
  {
    ArrayWalkFromShape(arr, cap, 1);
  }

  // ---------------------------------------------------------------- hash part

  /**
   * `iter_hash(h, cap)`: exactly `cap` consecutive nodes from `node`.  The
   * nodes it reads are required to be readable.
   */
  method IterHash(node: seq<Node>, cap: int) returns (r: seq<Node>)
    requires cap <= |node|
    ensures |r| == (if cap < 0 then 0 else cap)
    ensures forall k | 0 <= k < |r| :: r[k] == node[k]
  {
    r := [];
    var n := 0;
    while n < cap
      invariant 0 <= n && (n <= cap || n == 0)
      invariant r == node[..n]
    {
      r := r + [node[n]];
      n := n + 1;
    }
  }

  /** The number of nodes whose value is not nil, as `_dump_table` counts them. */
  function HashLength(nodes: seq<Node>): (n: nat)
    ensures n <= |nodes|
  {
    if nodes == [] then 0
    else (if TypeTag(nodes[0].val.tt) != LUA_TNIL then 1 else 0) + HashLength(nodes[1..])
  }

  // ---------------------------------------------------------------- call infos

  /**
   * The frames `iter_call_stack` visits from `p`: follow `previous` until
   * the address of `base_ci`, in at most `fuel` steps.  `None` when a frame
   * is not in memory or the chain is longer than `fuel`.
   */
  function ChainFrom(cis: map<Addr, CallInfo>, p: Addr, base: Addr, fuel: nat): Option<seq<Addr>>
    decreases fuel
  {
    if p == base then Some([])
    else if fuel == 0 || p !in cis then None
    else match ChainFrom(cis, cis[p].previous, base, fuel - 1)
      case None => None
      case Some(rest) => Some([p] + rest)
  }

  /**
   * The frames of a state, from the current `ci` back to `base_ci`.  A
   * chain that reaches `base_ci` without repeating a frame visits each
   * frame in memory at most once, so `|callInfos|` steps are enough.
   */
  function CallChain(L: LuaState): Option<seq<Addr>> {
    ChainFrom(L.callInfos, L.ci, L.baseCi, |L.callInfos|)
  }

  /**
   * `iter_call_stack`: the pointer starts at `ci` and follows `previous`
   * until it equals `base_ci`'s address.  The chain is required to reach it,
   * as it does in a consistent state (otherwise the original loops forever
   * or reads unmapped memory).
   */
  method IterCallStack(L: LuaState) returns (r: seq<Addr>)
    requires CallChain(L).Some?
    ensures r == CallChain(L).value
  {
    r := [];
    var p := L.ci;
    ghost var fuel: nat := |L.callInfos|;
    while p != L.baseCi
      invariant ChainFrom(L.callInfos, p, L.baseCi, fuel).Some?
      invariant r + ChainFrom(L.callInfos, p, L.baseCi, fuel).value == CallChain(L).value
      decreases fuel
    {
      r := r + [p];
      p := L.callInfos[p].previous;
      fuel := fuel - 1;
    }
  }

  /**
   * A chain from `p` starts at `p`, links each frame to the next by
   * `previous`, never contains `base`, and its last frame's `previous` is
   * `base`; it is empty exactly when `p` is `base`.
   */
  lemma {:induction false} ChainFromShape(cis: map<Addr, CallInfo>, p: Addr, base: Addr, fuel: nat)
    requires ChainFrom(cis, p, base, fuel).Some?
    ensures var c := ChainFrom(cis, p, base, fuel).value;
      && (c == [] <==> p == base)
      && |c| <= fuel
      && (forall k | 0 <= k < |c| :: c[k] in cis && c[k] != base)
      && (c != [] ==> c[0] == p && c[|c| - 1] in cis && cis[c[|c| - 1]].previous == base)
      && (forall k | 0 <= k < |c| - 1 :: c[k + 1] == cis[c[k]].previous)
    decreases fuel
  {
    if p != base {
      ChainFromShape(cis, cis[p].previous, base, fuel - 1);
    }
  }

  /** The frames of `CallChain`: from `ci`, linked by `previous`, ending just above `base_ci`. */
  lemma CallChainShape(L: LuaState)
    requires CallChain(L).Some?
    ensures var c := CallChain(L).value;
      && (c == [] <==> L.ci == L.baseCi)
      && |c| <= |L.callInfos|
      && (forall k | 0 <= k < |c| :: c[k] in L.callInfos && c[k] != L.baseCi)
      && (c != [] ==> c[0] == L.ci && c[|c| - 1] in L.callInfos && L.callInfos[c[|c| - 1]].previous == L.baseCi)
      && (forall k | 0 <= k < |c| - 1 :: c[k + 1] == L.callInfos[c[k]].previous)
  {
    ChainFromShape(L.callInfos, L.ci, L.baseCi, |L.callInfos|);
  }
}
