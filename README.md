# gdb_lua in Dafny

A model of the decoder at the heart of gdb_lua, a gdb extension that reads
the state of a stopped Lua 5.3 or 5.4 virtual machine out of the memory of
the process hosting it.  The model covers the main script `gdb_lua.py` and,
beside it, the older package `gdb_lua/` (`types.py`, `lua.py`,
`printing.py`), and states where the two differ.

What is modelled:

- **Tags** (`tags.dfy`, `pkg_types.dfy`): a tagged value's raw `tt_` byte
  splits into the primary type (low nibble) and the variant (bits 4-5); the
  function variants, `TYPE_NAMES` and `Lua.type`, `idx_or_none`,
  `round_up`, and the array and hash capacities of a table (`array_cap`
  casts the array limit to a C `int`, `hash_cap` is `1 << lsizenode`).
- **Strategies** (`strategy.dfy`): `Lua53`, `Lua54` and `Lua54_le1` as one
  closed datatype; what differs between them (integer and boolean variants,
  the tail-call bit, where string bytes and userdata payloads start) is a
  function dispatching on it.  `hash_kv` reads the key from a differently
  named field in each version; the model has one key field, so its
  `HashKV` is the same for every strategy.
- **Choosing a strategy** (`selection.dfy`, `pkg_lua.dfy`): `version()`
  parses the `lua_ident` symbol with `VERSION_RE` (greedy digit groups,
  anything may follow the patch number); `lua()` builds a strategy on first
  use and keeps it in the global `G`, a class with one field.  The type
  lookups the constructors make are read from a record describing the
  inspected binary.  The package instead picks 5.3 when the symbol
  `lua_newuserdatauv` is absent and 5.4 otherwise.
- **Walkers** (`walkers.dfy`): `iter_stack`, `iter_array`, `iter_hash` and
  `iter_call_stack` are methods whose loops advance a pointer as the
  generators do; each is proved equal to a function, and lemmas say what
  that function yields.  `stack_idx` resolves a single index.  The
  package's `_iter_array` and `_iter_hash` (gdb_lua/printing.py:32-44) are
  the same loops and are modelled by `Walkers.IterArray` and
  `Walkers.IterHash`; its `_dump_table` (gdb_lua/printing.py:66-75)
  computes the same four numbers as `Render.Counts`.
- **Rendering** (`render.dfy`, `pkg_printing.dfy`): `LClosure.location`,
  `lookup_fn_loc`, the `_DUMP` table behind `dump` and the pretty printer's
  `display_hint` and `children`.  Output is a sequence of pieces: literal
  text, and the pointers, C strings, floats and values whose formatting is
  gdb's.
- **Commands** (`commands.dfy`, `pkg_lua.dfy`): what `dump_stack`,
  `dump_stack_idx` and `dump_call_stack` write, one `Line` per
  `gdb.write` of a whole line; the failing cases ("invalid stack index", a
  slot outside memory) are the error arm of a `Result`.
- **Differences** (`differences.dfy`): when the package and the main
  script agree and the inputs on which they do not.

Memory is abstracted: a Lua state holds its slots as a sequence indexed by
address, its `stack`, `top`, `ci` and `base_ci` as addresses, and its call
infos as a map from address to record.  C unions (`Value`, `GCUnion`) are
records with one field per arm.

Three behaviours of the code are easy to misread, and the model keeps them
as written:

- `lua()` refuses 5.4.5 and later as unsupported: it has a branch for
  5.4.0-1 and one for 5.4.2-4 only (gdb_lua.py:510-516);
- `stack_idx` refuses only out-of-range non-negative indices; any
  negative index resolves to `top + i`, unchecked, even below the stack
  (gdb_lua.py:176-177);
- `getfuncname` names only Lua closures, not C functions, and it tests
  only the variant bits of the tag, not the type (gdb_lua.py:157-166).

## Model

| member | source | states |
|---|---|---|
| Text.NatToString | gdb_lua.py:104 | `str()` of a non-negative integer is a non-empty run of decimal digits with no leading zero |
| Text.NatToStringRoundTrip | gdb_lua.py:141 | `int()` of the text `str()` gives for a non-negative integer is that integer |
| Text.IntToString | gdb_lua.py:380-382 | `str()` of an integer ends with a digit and starts with one exactly when the integer is not negative |
| Text.IntToStringRoundTrip | gdb_lua.py:241 | the text `str()` gives for any integer (such as an array index shown as a child's name) is integer text and reads back as that integer |
| Text.EscapeNewlines | gdb_lua.py:98 | `replace('\n', '\\n')` leaves no line break, grows the text by one character per line break, and changes nothing in text without one |
| Text.EscapeNewlinesAppend | gdb_lua.py:98 | replacing line breaks in a concatenation gives the concatenation of the replaced parts |
| Text.EscapeNewlinesChar | gdb_lua.py:98 | a line break becomes a backslash and `n`; every other character is kept as it is |
| Tags.TypeTag | gdb_lua.py:77-80 | the primary type of a raw tag is in 0..15 and differs from the tag by a multiple of 16 (`tt & 0xF`) |
| Tags.Variant | gdb_lua.py:82-85 | the variant of a raw tag is in 0..3 |
| Tags.TagFields | gdb_lua.py:77-85 | a tag is its type plus 16 times its variant plus 64 times the bits above bit 5 |
| Tags.MakeVariantRoundTrip | gdb_lua.py:77-85 | decoding a tag built as `t | v << 4` with any higher bits gives back `t` and `v` |
| Tags.FunctionKindsExclusive | gdb_lua.py:124-126 | the Lua-closure, light-C-function and C-closure tests exclude one another and variant 3 passes none of them |
| Tags.LuaFunctionTags | gdb_lua.py:124-126 | Lua's own tags 70, 22 and 102 are a Lua closure, a light C function and a C closure |
| Tags.IsLuaClosure | gdb_lua.py:124 | no contract of its own: variant 0; Tags.FunctionKindsExclusive and Tags.LuaFunctionTags state it |
| Tags.IsLightCFunction | gdb_lua.py:125 | no contract of its own: variant 1; Tags.FunctionKindsExclusive and Tags.LuaFunctionTags state it |
| Tags.IsCClosure | gdb_lua.py:126 | no contract of its own: variant 2; Tags.FunctionKindsExclusive and Tags.LuaFunctionTags state it |
| Tags.IdxOrNone | gdb_lua.py:111-112 | `idx_or_none` gives an item exactly for an index in `0..len-1`, and that item is `v[i]` |
| Tags.TypeNamesDistinct | gdb_lua.py:41-51 | the nine type names are distinct and neither `none` nor `unknown` |
| Tags.TypeNameCases | gdb_lua.py:309-313 | `Lua.type` gives `none` exactly for -1, the constant's name exactly for 0..8, and `unknown` for every other integer |
| Tags.TypeName | gdb_lua.py:309-313 | no contract of its own: `Lua.type` as written; Tags.TypeNameCases states what it gives |
| Tags.RoundUp | gdb_lua.py:114-117 | `round_up(i, n)` is a multiple of `n` in `i..i+n-1`, so the least multiple at least `i`, and `i` itself when `i` is a multiple |
| Tags.ArrayCap | gdb_lua.py:121 | the array capacity is the unsigned limit read as a 32-bit C `int`: equal below 2^31, congruent modulo 2^32 and within the `int` range |
| Tags.HashCap | gdb_lua.py:122 | the hash capacity `1 << lsizenode` is a power of two, at least 1 |
| Tags.Pow2IsPowerOfTwo | gdb_lua.py:122 | every shift `1 << n` of a non-negative count is a power of two: halving it repeatedly reaches 1 with no odd value on the way |
| Strategy.ToBoolean | gdb_lua.py:474-475 | on 5.4 a boolean is 1 exactly for a non-zero variant and 0 for variant 0; on 5.3 it is the `b` arm of the payload (lines 436-437) |
| Strategy.IsInteger | gdb_lua.py:438-439 | no contract of its own: a non-zero variant on 5.3, variant 0 on 5.4 (lines 476-477); Strategy.IsIntegerInverted and Strategy.VersionTags state it |
| Strategy.HashKV | gdb_lua.py:491-495 | `hash_kv` drops a node exactly when its value is nil and otherwise gives its key and value (also lines 465-469) |
| Strategy.IsIntegerInverted | gdb_lua.py:476-477 | 5.3 and 5.4 read the number variant in opposite ways (lines 438-439), and 5.4.0-1 reads it as 5.4 |
| Strategy.VersionTags | gdb_lua.py:436-439 | 5.3 reads tag 19 as an integer and 3 as a float, 5.4 the reverse; 5.4 shows tag 1 as 0 and tag 17 as 1 |
| Strategy.TailBitPositions | gdb_lua.py:497-500 | a status of `1 << 4` is a tail call only for 5.4.0-1, and `1 << 5` only for the others (lines 449-451, 482-484) |
| Strategy.IsTail | gdb_lua.py:449-451 | no contract of its own: bit 5 of the status (`& 32`), bit 4 (`& 16`) for 5.4.0-1 (lines 482-484, 497-500); Strategy.TailBitPositions states it on the two bits |
| Strategy.StringData | gdb_lua.py:440-442 | no contract of its own: past the header on 5.3, the `contents` field on 5.4 (lines 478-479); Selection.PayloadAddresses states where that is |
| Strategy.Uv | gdb_lua.py:445-446 | no contract of its own: past the header and no count on 5.3, the user values and their count on 5.4 (lines 486-489); Selection.PayloadAddresses and PkgLua.PkgUv state it |
| Selection.VersionEnds | gdb_lua.py:53 | a reported match has the literal prefix, three non-empty digit groups separated by dots, and a last group that stops before any further digit |
| Selection.MatchVersion | gdb_lua.py:133 | no contract of its own: `VERSION_RE.match` (line 53) and its groups; Selection.MatchVersionSound and Selection.MatchVersionComplete state it |
| Selection.MatchVersionSound | gdb_lua.py:133-137 | every match found is a match of `VERSION_RE` with its groups as found, the last group greedy |
| Selection.MatchVersionComplete | gdb_lua.py:133-137 | every match of `VERSION_RE` is found: the same first two groups, a last group extending the matched one, and exactly it when no digit follows |
| Selection.VersionRoundTrip | gdb_lua.py:128-141 | `version()` reads back major, minor and patch from every identification string of Lua's format, whatever follows the patch number |
| Selection.Version | gdb_lua.py:128-141 | no contract of its own: a missing `lua_ident` is an error, else its parse; Selection.VersionRoundTrip and Selection.MatchVersionSound state what the parse gives |
| Selection.FirstMissing | gdb_lua.py:280-284 | the type check fails exactly when some looked-up type is absent, and names one that is |
| Selection.InitBase | gdb_lua.py:277-289 | no contract of its own: `Lua.__init__`'s lookups and errors; Selection.SelectMissingTypes states when and how it fails |
| Selection.MaxAlign | gdb_lua.py:453-463 | `calc_max_align` is the largest alignment of double, long, `void *`, lua_Integer and lua_Number, and one of them |
| Selection.MakeLua53 | gdb_lua.py:422-432 | the 5.3 string and userdata headers are rounded up to the maximum alignment: aligned, no smaller than the header and less than one alignment beyond it |
| Selection.MakeLua54 | gdb_lua.py:508-513 | no contract of its own: `Lua54_le1()` or `Lua54()`, which run only `Lua.__init__`; Selection.SelectDispatch and Selection.SelectMissingTypes state it |
| Selection.SelectDispatch | gdb_lua.py:502-517 | 5.3 selects Lua53, 5.4.0-1 Lua54_le1, 5.4.2-4 Lua54, any other version (5.4.5 and later included) is unsupported, and a supported version whose types are present always succeeds |
| Selection.Select | gdb_lua.py:502-517 | no contract of its own: the dispatch of `lua()`; Selection.SelectDispatch and Selection.SelectMissingTypes state it |
| Selection.SelectMissingTypes | gdb_lua.py:277-289 | a supported version fails exactly when a type its constructor looks up is missing (lines 422-428, 455-463 for 5.3): a missing core type is `LuaInitializationFailed`, a missing `int`, `void` or `char` the error of its lookup |
| Selection.PayloadAddresses | gdb_lua.py:422-446 | on 5.3 a string's bytes and a userdata's payload start past the header at the next multiple of the maximum alignment, less than one alignment beyond it, with no user-value count; on 5.4 at the `contents` field and the user values, with the count (lines 478-489) |
| Selection.Init | gdb_lua.py:502-517 | no contract of its own: `version()` then the dispatch; Selection.VersionExamples states it on four versions |
| Selection.VersionExamples | gdb_lua.py:502-517 | the identification strings of 5.3.6, 5.4.1 and 5.4.3 select three different strategies and that of 5.4.6 is refused |
| Selection.Session.constructor | gdb_lua.py:55 | `G` starts unset |
| Selection.Session.Lua | gdb_lua.py:502-517 | once set, `G` is returned unchanged; while unset, `lua()` computes the strategy and keeps it only when building it succeeded |
| Walkers.IterStack | gdb_lua.py:168-172 | `iter_stack` yields the slots `stack+1 .. top-1` in order |
| Walkers.StackIdx | gdb_lua.py:174-180 | `stack_idx` answers exactly for negative indices and for `0 < i < top - stack`, counting from `top` and from `stack` respectively |
| Walkers.StackIdxMatchesIterStack | gdb_lua.py:168-180 | the k-th slot `iter_stack` yields is `stack_idx(k)` and the k-th from the end is `stack_idx(-k)`; no other non-negative index is accepted |
| Walkers.StackIdxNegativeUnchecked | gdb_lua.py:176-177 | a negative index past the live slots is accepted and names `stack` itself or memory below it, never a live slot |
| Walkers.IterArray | gdb_lua.py:182-188 | the loop yields what the array-walk function does |
| Walkers.ArrayWalkShape | gdb_lua.py:182-188 | `iter_array` yields indices 1, 2, ..., m with their non-nil slots, where m is the capacity or the position before the first nil, whichever is smaller; nothing for a capacity of 0 or less |
| Walkers.IterHash | gdb_lua.py:190-194 | `iter_hash` yields exactly `cap` consecutive nodes from `node` |
| Walkers.HashLength | gdb_lua.py:377-379 | the count of non-nil nodes is at most the number of nodes |
| Walkers.IterCallStack | gdb_lua.py:196-200 | the loop yields the frames of the call-chain function |
| Walkers.CallChainShape | gdb_lua.py:196-200 | the frames run from `ci`, each the `previous` of the one before, never `base_ci`, the last linking to `base_ci`; there are none exactly when `ci` is `base_ci` |
| Render.LocationLineRoundTrip | gdb_lua.py:91-105 | the line number can always be read back from a location: 0 from ` in main chunk`, else the integer after the last colon |
| Render.LocationShape | gdb_lua.py:91-105 | a location ends in ` in main chunk` exactly for line 0, and holds no line break unless a file name has one |
| Render.FileLocationExamples | gdb_lua.py:95-104 | chunk `@/tmp/x.lua` shows as `/tmp/x.lua in main chunk` at line 0 and `/tmp/x.lua:12` at line 12 |
| Render.StringLocationExample | gdb_lua.py:97-98 | a string chunk is quoted as `[string "..."]` with its line break escaped |
| Render.Location | gdb_lua.py:90-105 | no contract of its own: `LClosure.location` on the decoded chunk name; the lemmas above state what it gives |
| Render.LookupFnLoc | gdb_lua.py:150-155 | a location is given exactly when gdb has line information for the address, and it ends with `:LINE` |
| Render.LocPieces | gdb_lua.py:390-397 | a C function's location piece is there exactly when gdb has line information for it, and is then the single text ` at FILE:LINE` |
| Render.Counts | gdb_lua.py:373-382 | the table summary's length is at most the array capacity (none when negative) and its hash length at most the hash capacity, which is at least 1 |
| Render.TableSummary | gdb_lua.py:373-382 | no contract of its own: the four numbers of Render.Counts in `_dump_table`'s wording |
| Render.DumpUserdata | gdb_lua.py:400-403 | no contract of its own: the payload address, the strategy's count text and the size; Differences.UserdataAgreement compares it with the package's |
| Render.Dump | gdb_lua.py:349-351 | no contract of its own: the `_DUMP` entry for the tag (lines 408-419); the lemmas below state what each entry gives |
| Render.DumpIndex | gdb_lua.py:349-351 | `dump` picks entry `min(type, 9)` of `_DUMP`: always in range, the type itself below 9 |
| Render.DumpTotal | gdb_lua.py:349-419 | `dump` answers for every tag, shows types 9-15 raw, and gives `None` only for a function of variant 3 |
| Render.DumpIgnoresHighBits | gdb_lua.py:349-351 | `dump` reads only the type and variant: bits above bit 5 change nothing |
| Render.DumpNumber | gdb_lua.py:365-368 | no contract of its own: the `i` arm when `isinteger`, else the `n` arm; Render.DumpNumbersAndBooleans states it |
| Render.DumpNumbersAndBooleans | gdb_lua.py:359-368 | a number shows its integer arm exactly when the strategy reads the tag as an integer, else its float arm; a 5.4 boolean shows `0` or `1` by its variant |
| Render.DumpFunctionKinds | gdb_lua.py:384-398 | a function shows `lclosure`, `cfunction` or `cclosure` by variant with its pointer; a light C function then has exactly its location piece; a C closure its location piece and, last, ` (nupvalues: N)`; variant 3 shows nothing |
| Render.DumpFunction | gdb_lua.py:384-398 | no contract of its own: `_dump_function`; Render.DumpFunctionKinds states it for each variant |
| Render.DisplayHint | gdb_lua.py:221-227 | strings get the `string` hint, tables the `map` hint, every other type none |
| Render.ArrayChildren | gdb_lua.py:239-242 | each array item contributes two children |
| Render.ArrayChildrenAt | gdb_lua.py:239-242 | the k-th array item gives its index text at child 2k and its value at child 2k+1 |
| Render.HashChildrenCount | gdb_lua.py:243-245 | the hash children number twice the non-nil nodes |
| Render.HashChildrenAt | gdb_lua.py:243-245 | each non-nil node, in node order, gives its key and then its value right after the pairs of the non-nil nodes before it; nil-valued nodes give none |
| Render.ChildrenMatchSummary | gdb_lua.py:232-245 | a table's children number twice the summary's length plus hash length, the array children's names read back as 1, 2, ...; a non-table has none |
| Render.Children | gdb_lua.py:232-245 | no contract of its own: the array children then the hash children; Render.ArrayChildrenAt and Render.HashChildrenAt state each child, Render.HashChildrenCount and Render.ChildrenMatchSummary their number |
| Commands.NamedValue | gdb_lua.py:332 | a value is written after the name of its type and a space |
| Commands.DumpStackIdx | gdb_lua.py:326-332 | "invalid stack index" exactly when `stack_idx` refuses the index, a memory error exactly when the slot is outside memory, else the slot's type name and then its value |
| Commands.DumpStack | gdb_lua.py:318-324 | with an index, the single line of `dump_stack_idx`; without, one numbered line per slot `iter_stack` yields |
| Commands.StackLinesMatchIdx | gdb_lua.py:318-332 | the listing has `top - stack - 1` lines, line k is `k: `, the slot's address and what `dump_stack_idx(k)` writes, and the last line matches `dump_stack_idx(-1)` |
| Commands.FuncName | gdb_lua.py:157-166 | a frame is named exactly when its tag has the Lua-closure variant |
| Commands.DumpCallStack | gdb_lua.py:334-347 | the lines are those of the frames `iter_call_stack` yields, numbered from 0 |
| Commands.FrameHead | gdb_lua.py:339-345 | a frame's first line holds at least the frame number and the function; Commands.FrameHeadText states it whole |
| Commands.FrameHeadText | gdb_lua.py:339-345 | a frame's first line is `#n  `, the function's value, and ` LOCATION` exactly when the function is a Lua closure; it is never the marker line |
| Commands.FrameLines | gdb_lua.py:336-347 | a frame writes one or two lines; Commands.FrameLinesMarkers states which |
| Commands.FrameLinesMarkers | gdb_lua.py:336-347 | a frame writes its first line, which is not the marker, and then `(... tail calls ...)` exactly when its tail bit is set |
| Commands.CallStackLines | gdb_lua.py:334-347 | no contract of its own: the frames' lines one frame after another; the lemmas below state them |
| Commands.FrameBlocksShaped | gdb_lua.py:336-347 | every frame of the chain gives one line plus one marker line exactly when it was tail-called |
| Commands.CallStackFrameHead | gdb_lua.py:334-347 | frame k's first line sits at k plus the number of tail-called frames before it, and a marker follows it exactly when frame k's flag is set |
| Commands.CallStackFrameAt | gdb_lua.py:334-347 | frame k's line comes after k frame lines and one marker per tail-called earlier frame, starts `#k  ` and the frame's function, and is followed by `(... tail calls ...)` exactly when frame k's tail bit is set |
| Commands.CallStackShape | gdb_lua.py:334-347 | the backtrace has one line per frame from `ci` to `base_ci` plus one marker per tail-called frame, and is empty exactly when `ci` is `base_ci` |
| PkgTypes.TType | gdb_lua/types.py:34 | the package's `ttype` is in 0..15 and is the main script's primary type |
| PkgTypes.PkgVariant | gdb_lua/types.py:36 | the package's `variant` through its shift and mask constants is in 0..3 and is the main script's variant |
| PkgTypes.PkgFunctionKinds | gdb_lua/types.py:43-48 | the package's function tests are the main script's: exclusive, and variant 3 passes none |
| PkgTypes.TypeNamesByConstant | gdb_lua/types.py:20-30 | `TYPE_NAMES` has nine entries and names each `LUA_T*` constant |
| PkgLua.PkgIdxOrNone | gdb_lua/lua.py:12-13 | the package's `idx_or_none` gives nothing exactly at or past the end, raises `IndexError` exactly below `-len`, else indexes from the start or the end |
| PkgLua.IsLua53 | gdb_lua/lua.py:9-10 | no contract of its own: `lua_newuserdatauv` is absent; PkgLua.PkgInit and Differences.PkgInitIgnoresIdent state how the choice follows it |
| PkgLua.PkgStackIdx | gdb_lua/lua.py:21-24 | the package's `_stack_idx` answers exactly for `0 < i < top - stack`, with `stack + i` |
| PkgLua.PkgMakeLua53 | gdb_lua/lua.py:57-64 | the package's 5.3 header sizes are the larger of the header and `L_Umaxalign`; a missing type is the `gdb.error` of its lookup |
| PkgLua.PkgInit | gdb_lua/lua.py:100-107 | the package builds Lua53 exactly when `lua_newuserdatauv` is absent, never the 5.4.0-1 strategy, and fails exactly when a type it looks up is absent |
| PkgLua.PkgSession.constructor | gdb_lua/lua.py:7 | `G` starts unset |
| PkgLua.PkgSession.Lua | gdb_lua/lua.py:100-107 | once set, `G` is returned unchanged; while unset, the strategy is built and kept when building succeeded |
| PkgLua.PkgUv | gdb_lua/lua.py:94-98 | the package's `uv` gives no user-value count exactly on 5.3 (line 78), and the same payload address as the main script |
| PkgLua.PkgDumpStackIdx | gdb_lua/lua.py:39-48 | "invalid stack index" exactly when `_stack_idx` refuses the index, a memory error exactly when the slot is outside memory, else the slot's type name and then its value |
| PkgLua.PkgDumpStack | gdb_lua/lua.py:50-55 | with an index, the single line of `dump_stack_idx`; without, the same listing as the main script |
| PkgPrinting.PkgDisplayHint | gdb_lua/printing.py:17-20 | only strings get a hint, `string` |
| PkgPrinting.NuvalueText | gdb_lua/printing.py:97-98 | the `nuvalue: N, ` text is there exactly for a non-zero count |
| PkgPrinting.PkgDumpFunctionKinds | gdb_lua/printing.py:77-91 | testing the C closure first gives each kind the same word as testing it last, and variant 3 shows as `unknown function` with the pointer |
| PkgPrinting.PkgDumpFunction | gdb_lua/printing.py:77-91 | no contract of its own: the package's `_dump_function`; PkgPrinting.PkgDumpFunctionKinds and Differences.DumpAgreement state it |
| PkgPrinting.PkgUserdataText | gdb_lua/printing.py:93-100 | a userdata's text always ends with its size, and names a user-value count exactly on 5.4 when it is not zero |
| PkgPrinting.PkgDumpUserdata | gdb_lua/printing.py:93-100 | no contract of its own: the package's `_dump_userdata`; PkgPrinting.PkgUserdataText states it |
| PkgPrinting.PkgDumpUnknown | gdb_lua/printing.py:105-120 | types 9-15 show with their gdb type and repr, and no other type does |
| PkgPrinting.PkgDump | gdb_lua/printing.py:118-120 | no contract of its own: the package's `dump`; Differences.DumpAgreement compares it with the main script's |
| Differences.IdxOrNoneAgreement | gdb_lua/lua.py:12-13 | both `idx_or_none` agree inside the sequence and past its end; below 0 the package indexes from the end or raises where the main script gives `None` (gdb_lua.py:111-112) |
| Differences.StackIdxAgreement | gdb_lua/lua.py:21-24 | both `stack_idx` agree from 0 up; every negative index is accepted by the main script and refused by the package |
| Differences.DumpStackIdxAgreement | gdb_lua/lua.py:44-48 | `lua stack N` writes the same for N >= 0; a negative N is an invalid index for the package only |
| Differences.DumpAgreement | gdb_lua/printing.py:46-120 | both `dump` agree on every type but functions, userdata and 9-15; functions differ exactly for variant 3, userdata exactly on 5.4 with no user values; 9-15 are raw against typed |
| Differences.UserdataAgreement | gdb_lua/printing.py:93-100 | the two userdata texts agree exactly on 5.3 or for a non-zero user-value count |
| Differences.DisplayHintAgreement | gdb_lua/printing.py:17-20 | the hints agree except for tables, which get `map` from the main script only |
| Differences.HeaderSizeAgreement | gdb_lua/lua.py:60-64 | `max` and `round_up` header sizes agree for an aligned header no smaller than `L_Umaxalign`; a 20-byte header with alignment 8 gives 20 against 24 |
| Differences.InitAgreement | gdb_lua/lua.py:100-107 | for 5.4.6 the main script refuses while the package builds Lua54; for 5.4.1 they build different strategies |
| Differences.PkgInitIgnoresIdent | gdb_lua/lua.py:9-10 | the package's choice does not depend on `lua_ident`, and with the 5.4 symbol and its types present it is Lua54 |

## Left out

- Render.Location: a chunk name is taken as the text `.string()` decodes (gdb_lua.py:94); the `UnicodeDecodeError` that call raises on bytes invalid in gdb's target charset, which stops `bt` part-way through a frame's line, is not modelled.
- `lookup_type` writes `type "NAME" not found` to gdb's error stream before returning `None` (gdb_lua.py:143-148); the model keeps the `None` (a missing type) and drops the message, the only write to that stream.
- The gdb API: symbol and type lookups are read from a record of the inspected binary, `find_pc_line` from a table of code addresses, memory from the slot sequence and call-info map; casts, `dereference` and `address` become field reads.
- gdb's own formatting of pointers, C strings, floats, whole values and `repr` is left as pieces of the output; only Python's `str()` of integers is modelled.
- Command registration, `make_command`, `register_printers`, the `create` type-name checks of `TValuePrinter` and `NodeKeyPrinter` (which feeds a node key through the same `ValuePrinter`), the argument parsing of `cmd_type`, `cmd_stack` and `cmd_backtrace`, and `gdb_lua/__init__.py` are gdb glue and not part of this model.
- The C fixtures under test/ drive the Lua C API and are not part of this model.
- `stkid_to_value`, `string_contents`, `data_suffix` and `alimit` read differently named C fields per version; in the model each is one field, and only the addresses they compute are kept.
- Selection.MatchVersion: `\d` is taken as an ASCII digit; Python's `\d` in a text pattern also matches other Unicode decimal digits.
- Commands.DumpStack: without an index, requires every live slot to be in memory and to have a type below 9 (and `stack < top`); the original writes the lines before the first bad slot and then raises (`IndexError` from `TYPE_NAMES` or gdb's memory error).
- Commands.DumpStackIdx: requires a slot in memory to have a type below 9, where the original raises `IndexError` from `TYPE_NAMES`.
- PkgLua.PkgDumpStack: the same requirement as Commands.DumpStack, for the listing without an index only.
- Commands.DumpCallStack: requires the chain from `ci` to reach `base_ci` with every frame's function slot in memory; on a corrupt chain the original loops or faults. The test `if f := StkId(...)` at gdb_lua.py:337 is always true (the wrapper defines no truth value), so a head line is written for every frame, as in the model; a null `func` faults in gdb's memory read, which the requirement above excludes.
- Walkers.IterCallStack: requires the chain to reach `base_ci` within as many steps as there are call infos; otherwise the original loops forever or reads unmapped memory.
- Walkers.IterArray: requires the array to hold at least `cap` slots; the original reads whatever memory follows.
- Walkers.IterHash: requires at least `cap` nodes, for the same reason.
- Render.Counts: requires the table's array and node parts to be readable up to their capacities (the same reason).
- Tags.ArrayCap: takes the limit as the unsigned 32-bit field it is; wider values do not occur.
- Render.Dump: `None` stands for the Python `None` `_dump_function` returns for variant 3, and a raw value for what `_dump_unknown` returns; how gdb shows those is not modelled.
- `Lua54.alimit` reads `alimit` without the `isrealasize` refinement; the model reads it the same way.
