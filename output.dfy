/**
 * What the decoder hands to gdb for display.  Python strings are spelled out;
 * values whose text gdb produces itself (pointers, `char *` strings, floats,
 * tagged values printed through the registered pretty printer, raw unions)
 * stay as the value gdb is given.
 */
module Output {
  import opened LuaObjects

  datatype Piece =
    | Lit(text: string)          // text the Python code builds itself
    | Ptr(addr: Addr)            // a pointer value, formatted by gdb
    | CStr(addr: Addr, text: string)  // a `char *`, formatted by gdb with the text it points to
    | Float(n: real)             // a `lua_Number`, formatted by gdb
    | Val(tv: TValue)            // a `TValue`, formatted through the registered pretty printer
    | Raw(v: Value)              // a `Value` union, formatted by gdb
    | TypedRepr(v: Value)        // `f'{v.type} {repr(v)}'` of a `Value`

  /** One line written with `gdb.write`, without its final newline. */
  type Line = seq<Piece>
}
