/**
 * The Lua VM structures the decoder reads, as plain values.
 *
 * In the original each of these is a view over the inspected process's
 * memory; here each is the record gdb would read at that address.  A C
 * union (`Value`, `GCUnion`) becomes a record holding every arm, because
 * the decoder may read any arm and only the tag says which one is
 * meaningful.  Addresses are integers.
 */
module LuaObjects {

  type Addr = int

  /** An `lu_byte` field, such as a table's `lsizenode`. */
  type Byte = x: int | 0 <= x < 0x100

  /** An `unsigned int` field, such as a table's `sizearray` or `alimit`. */
  type UInt32 = x: int | 0 <= x < 0x1_0000_0000

  /**
   * A tagged value (`TValue`): the raw tag and the payload union.  The tag
   * `tt_` is an `int` in 5.3 and an `lu_byte` in 5.4; the model takes any
   * integer, which covers both.
   */
  datatype TValue = TValue(tt: int, value: Value)

  /**
   * The payload union `Value`.  `p` is the pointer arm, which also holds the
   * address of the collectable object `gc` points to; `b` is the 5.3 boolean
   * arm, `i` the integer arm and `n` the float arm.
   */
  datatype Value = Value(p: Addr, b: int, i: int, n: real, gc: GCUnion)

  /** The object behind a `gc` pointer, read through every arm of `union GCUnion`. */
  datatype GCUnion = GCUnion(ts: TString, h: Table, l: LClosure, c: CClosure, u: Udata)

  /**
   * A string header.  `contentsAddr` is the address of the 5.4 `contents`
   * field; `contents` is the text gdb reads at the string's data address.
   */
  datatype TString = TString(contentsAddr: Addr, contents: string)

  /**
   * A table.  `arrayPart` is the memory from the `array` pointer onwards,
   * `alimit` is the `sizearray` field on 5.3 and the `alimit` field on 5.4,
   * `node` is the memory from the `node` pointer onwards.
   */
  datatype Table = Table(arrayPart: seq<TValue>, alimit: UInt32, node: seq<Node>, lsizenode: Byte)

  /** A hash node: its key (`i_key.tvk` on 5.3, the `u` key fields on 5.4) and `i_val`. */
  datatype Node = Node(key: TValue, val: TValue)

  /** The prototype fields the location of a Lua function is read from. */
  datatype Proto = Proto(source: TString, linedefined: int)

  datatype LClosure = LClosure(p: Proto)

  datatype CClosure = CClosure(f: Addr, nupvalues: int)

  /**
   * A full userdata: its byte length, the 5.4 `nuvalue` count, and the
   * address of the 5.4 `uv.uv` field.
   */
  datatype Udata = Udata(len: int, nuvalue: int, uvAddr: Addr)

  /** One call frame: the stack slot of the called function, the `previous` link and `callstatus`. */
  datatype CallInfo = CallInfo(func: Addr, previous: Addr, callstatus: nat)

  /**
   * A Lua state.  `slots` is the readable stack memory: the slot at address
   * `a` is `slots[a]` when `0 <= a < |slots|`.  `stack` and `top` are slot
   * addresses, `ci` the current frame's address, `baseCi` the address of the
   * embedded `base_ci` frame, and `callInfos` the frames in memory by address.
   */
  datatype LuaState = LuaState(
    slots: seq<TValue>,
    stack: Addr,
    top: Addr,
    ci: Addr,
    baseCi: Addr,
    callInfos: map<Addr, CallInfo>)

  predicate InMemory(L: LuaState, a: Addr) {
    0 <= a < |L.slots|
  }
}
