# Yagi symbol layer over the IDA database, in Dafny

This project models the symbol layer of the Yagi decompiler plugin
(`yagi/src/idasymbol.cc`): the glue that turns an address of the IDA
database into a symbol, classifies that symbol, shapes its display name,
finds stack-variable names in a function's frame, and keeps the analyst's
register-variable names and variable types in IDA's persistent netnodes.

- `wrappers.dfy` — `Option` (for `std::optional`) and `Result` (for thrown exceptions).
- `text.dfy` — `std::string::find`, the substring cuts around a delimiter, and the
  `split` helper of the base library.
- `ida_database.dfy` — the IDA database as one immutable value: names, short names,
  functions with their extents and frames, segments, incoming cross-references,
  import modules; and the SDK lookups over it (`get_func` and `getseg` return the
  first extent containing the address).
- `ida_symbol.dfy` — `IdaSymbolInfo`: `isFunction`, `getFunctionSize`, `isImport`,
  `isLabel`, `isReadOnly`, `getName`.
- `ida_function_symbol.dfy` — `IdaFunctionSymbolInfo`: `findStackVar`, `findRegVar`,
  `saveRegVar`, `saveSymbolType`, `findSymbolType`, and the record keys.
- `netnode.dfy` — the netnode store as a class whose `map<string, string>` field the
  saves update in place.
- `ida_symbol_factory.dfy` — `IdaSymbolInfoFactory::find` and `find_function`.

The SDK helpers whose code is not part of this model are parameters:
`cleanup_name` and `demangle_name` (a `NameServices` value), `to_hex` (a function
`U64 -> string`), `TypeInfo::getName` and `IdaTypeInfoFactory::build_decl` (functions
over an arbitrary type descriptor type). Lemmas about record keys assume of `to_hex`
only that it is injective and never produces a `.` (`HexEncoding`).

Assumptions about code that is not part of this model:
- `split` (from `base.hh`) splits the way repeated `std::getline` calls do: the empty
  string gives no token, and a trailing delimiter does not add an empty token.
- `IMPORT_PREFIX` is `"__imp_"`. The code hard-codes its length, 6, when it strips the prefix; the text itself is an assumption.
- The constants come from the IDA SDK: `fl_JN` = 19; `SEGPERM_EXEC` = 1,
  `SEGPERM_WRITE` = 2, `SEGPERM_READ` = 4. Addresses (`ea_t`) are 64 bits wide.
- `get_name` returning -1 instead of 0 on failure makes no difference: the name
  stays empty and the `size() == 0` test rejects it. So `Find` fails exactly when the
  name is missing or empty.
- `netnode(key, 0, true)` creates the node when it does not exist, so the read
  operations (`findRegVar`, `findSymbolType`) also add an empty node. No value anyone
  can read changes (`Netnode.CreatedReadsTheSame`).

Two behaviours of the code worth noting:
- `isLabel` does not stop at a call. A code reference of another kind (a call, an
  ordinary flow) is skipped, and the scan ends only at a data reference. So
  `[call, near jump]` is a label (`IdaSymbol.CallThenJumpIsLabel`).
- `isImport` removes the import prefix only from a name strictly longer than the
  prefix. The name `"__imp_"` itself is looked up unchanged.

## Model

| member | source | states |
|---|---|---|
| Text.IndexOf | yagi/src/idasymbol.cc:36 | The first occurrence of the character, or none exactly when the character does not occur |
| Text.TakeBefore | yagi/src/idasymbol.cc:36-37 | The cut before the first `(`: a prefix of the input with no `(`, followed by `(` when it is shorter than the input |
| Text.Split | yagi/src/idasymbol.cc:37 | `split` yields no token only for the empty string, and no token contains the delimiter |
| Text.SplitLastToken | yagi/src/idasymbol.cc:37 | The last token of `split` is the text after the last space, once one trailing space is dropped |
| Text.AfterLastIsSuffix | yagi/src/idasymbol.cc:37 | The text kept as the last word is a suffix of the input, preceded by a space unless it is the whole input |
| Text.AfterFirst | yagi/src/idasymbol.cc:170-175 | The whole name when it has no `.`; otherwise the name is a `.`-free prefix, then `.`, then the result |
| IdaSymbolFactory.Find | yagi/src/idasymbol.cc:15-23 | No symbol exactly when the address has no name or an empty name; otherwise the symbol has that address and that name |
| IdaSymbolFactory.BareFunctionName | yagi/src/idasymbol.cc:34-37 | The extracted function name holds no space and no `(`, and is the last space-separated word before the first `(` |
| IdaSymbolFactory.BareFunctionNameDropsDecoration | yagi/src/idasymbol.cc:34-37 | A decorated short name like `int __cdecl foo(int,char*)` yields the identifier before the parameter list (`foo`), whatever the decoration and the parameters are |
| IdaSymbolFactory.FindFunction | yagi/src/idasymbol.cc:26-40 | No function symbol exactly when no function contains the address; otherwise the symbol is at the start of a function containing the address, and its name is the bare identifier of the short name at that start (no space, no `(`) |
| IdaSymbolFactory.FindFunctionAtEntry | yagi/src/idasymbol.cc:28-39 | In a well-formed database the symbol `find_function` returns is a function entry, even when the address was inside the body |
| IdaDatabase.GetFunc | yagi/src/idasymbol.cc:50 | `get_func` returns a function containing the address, and null exactly when no function contains it |
| IdaDatabase.GetFuncFindsContaining | yagi/src/idasymbol.cc:50 | With non-overlapping functions, `get_func` returns the one function that contains the address |
| IdaDatabase.GetSeg | yagi/src/idasymbol.cc:103 | `getseg` returns a segment containing the address, and null exactly when no segment contains it |
| IdaSymbol.IsFunction | yagi/src/idasymbol.cc:48-52 | True only at the start address of some function |
| IdaSymbol.IsFunctionIffEntry | yagi/src/idasymbol.cc:48-52 | `isFunction` holds exactly when the address is the start of some function |
| IdaSymbol.InteriorIsNotFunction | yagi/src/idasymbol.cc:48-52 | An address strictly inside a function's body is not a function |
| IdaSymbol.GetFunctionSize | yagi/src/idasymbol.cc:118-127 | Throws `SymbolIsNotAFunction` with the symbol's name exactly when `isFunction` is false; otherwise returns `end - start` (modulo 2^64) of a function starting at the address |
| IdaSymbol.FunctionSizeOfEntry | yagi/src/idasymbol.cc:118-127 | In a well-formed database a function's size is its extent `end - start`, which is positive and does not wrap |
| IdaSymbol.StripImportPrefix | yagi/src/idasymbol.cc:57-61 | Removes the 6-character prefix only when the name is strictly longer than it and starts with it; leaves every other name unchanged |
| IdaSymbol.StripImportPrefixUndoesPrefix | yagi/src/idasymbol.cc:57-61 | Stripping a prefixed non-empty name gives back the name that `getName` prefixed |
| IdaSymbol.ImportCallback | yagi/src/idasymbol.cc:66-71 | The callback answers 0 (stop) exactly for an entry whose name equals the target, and 1 otherwise |
| IdaSymbol.EnumEntries | yagi/src/idasymbol.cc:65-73 | The enumeration returns 0 (stopped by the callback) exactly when an entry's name equals the target, and 1 otherwise |
| IdaSymbol.EnumImportNames | yagi/src/idasymbol.cc:65-75 | Returns -1, 0 or 1, and 0 exactly when the module can be enumerated and lists the target name |
| IdaSymbol.IsImport | yagi/src/idasymbol.cc:55-81 | True exactly when some import module lists the name, after the import prefix is stripped |
| IdaSymbol.IsLabel | yagi/src/idasymbol.cc:84-98 | True exactly when a near-jump reference occurs with only code references up to it, in enumeration order |
| IdaSymbol.CallThenJumpIsLabel | yagi/src/idasymbol.cc:87-95 | A call reference before a near jump does not end the scan: the address is a label |
| IdaSymbol.DataFirstIsNoLabel | yagi/src/idasymbol.cc:88-90 | A data reference first ends the scan with false, whatever references follow |
| IdaSymbol.IsReadOnly | yagi/src/idasymbol.cc:101-115 | A `.data` segment is always read-only; any other segment that is writable or not readable is not |
| IdaSymbol.ReadOnlyByPermissions | yagi/src/idasymbol.cc:114 | Outside `.data`, read-only means: read bit set, write bit clear, no bit besides read, write and execute |
| IdaSymbol.PreDemangleName | yagi/src/idasymbol.cc:132-136 | Placeholder names (`sub_`) and names whose cleanup fails go to the demangler unchanged; any other name goes as its cleaned form |
| IdaSymbol.BaseName | yagi/src/idasymbol.cc:138-148 | When demangling fails the name stays as it was; otherwise the result is the demangled text cut before its first `(`, so it contains no `(` |
| IdaSymbol.DemangledNameLosesParameters | yagi/src/idasymbol.cc:138-148 | A name that demangles to `Foo::bar(int)` displays as `Foo::bar` |
| IdaSymbol.GetName | yagi/src/idasymbol.cc:130-156 | The display name is the import prefix plus the base name when the symbol is an import, and the base name otherwise |
| IdaFunctionSymbol.NormalizedOffset | yagi/src/idasymbol.cc:167 | Adding `frsize + frregs` back to the normalised offset, modulo 2^64, gives the member's offset |
| IdaFunctionSymbol.MemberMatches | yagi/src/idasymbol.cc:168 | On a 32-bit target a member matches exactly when the low 32 bits of the offsets agree; on any other target exactly when the offsets are equal |
| IdaFunctionSymbol.FindStackVar | yagi/src/idasymbol.cc:159-179 | None exactly when no frame member matches; otherwise the name of the first matching member in frame order, after its first `.` |
| IdaFunctionSymbol.NodeKey | yagi/src/idasymbol.cc:185 | With a `.`-free hex text, a record key splits at its first `.` into `"$ "` plus the hex text, and the rest of the tag plus the variable name |
| IdaFunctionSymbol.NodeKeyInjective | yagi/src/idasymbol.cc:185 | A record key determines the address text, the namespace and the variable name |
| IdaFunctionSymbol.RegVarKey | yagi/src/idasymbol.cc:203 | Before the first `.` of a register-variable key is `"$ "` and the address in hex; after it, `yagireg.` and the variable name |
| IdaFunctionSymbol.TypeKey | yagi/src/idasymbol.cc:212 | Before the first `.` of a type key is `"$ "` and the address in hex; after it, `yagitype.` and the variable name |
| IdaFunctionSymbol.RegVarAndTypeKeysDiffer | yagi/src/idasymbol.cc:185 | A register-variable key never equals a type key |
| IdaFunctionSymbol.RegVarKeysDistinguish | yagi/src/idasymbol.cc:203 | Equal register-variable keys mean the same function address and the same variable name |
| IdaFunctionSymbol.TypeKeysDistinguish | yagi/src/idasymbol.cc:212 | Equal type keys mean the same function address and the same variable name |
| IdaFunctionSymbol.FindRegVar | yagi/src/idasymbol.cc:182-197 | Returns the value stored at the register-variable key, or none when it is unset or empty; the node is created if it was missing |
| IdaFunctionSymbol.SaveRegVar | yagi/src/idasymbol.cc:200-206 | The store afterwards maps the register-variable key to the value; nothing else changes |
| IdaFunctionSymbol.SaveSymbolType | yagi/src/idasymbol.cc:209-215 | The store afterwards maps the type key to the type's name; the memory location plays no part |
| IdaFunctionSymbol.FindSymbolType | yagi/src/idasymbol.cc:218-233 | None when nothing is stored at the type key; otherwise the parse of the stored text, with a parse failure passed on |
| IdaFunctionSymbol.SaveRegVarKeepsTypes | yagi/src/idasymbol.cc:200-215 | Saving a register variable leaves every type record readable as before |
| IdaFunctionSymbol.SaveRegVarKeepsOthers | yagi/src/idasymbol.cc:200-206 | Saving a register variable leaves the records of other names and other functions as before |
| IdaFunctionSymbol.SaveTwiceThenFindRegVar | yagi/src/idasymbol.cc:182-206 | After two saves to one key, the read returns the second value, or none when it is empty |
| IdaFunctionSymbol.SaveTwiceThenFindSymbolType | yagi/src/idasymbol.cc:209-233 | After two type saves to one key, the read returns the second type when the parser reads its name back |
| Netnode.Created | yagi/src/idasymbol.cc:186 | Opening a node makes the key present and keeps every existing value |
| Netnode.Stored | yagi/src/idasymbol.cc:188-196 | A read is absent exactly when the node's value is empty, and is the value otherwise |
| Netnode.CreatedReadsTheSame | yagi/src/idasymbol.cc:186-196 | Creating a node changes no read of any key |
| Netnode.StoredAfterSet | yagi/src/idasymbol.cc:205 | After a set, the key reads back the value, or absent when the value is empty |
| Netnode.NodeStore.Open | yagi/src/idasymbol.cc:186 | The node exists afterwards; existing nodes and values are unchanged |
| Netnode.NodeStore.ValStr | yagi/src/idasymbol.cc:189 | Returns the node's value |
| Netnode.NodeStore.Set | yagi/src/idasymbol.cc:205 | Replaces the value of that one node only |

## Left out

- Function tails: IDA's `get_func` also answers for addresses in a function's tail chunks. Here a function is one contiguous extent.
- 32-bit IDA: `ea_t` and the offset arithmetic are modelled as 64 bits wide.
- `cleanup_name`, `demangle_name` (dialect `0x0EA3BE67`), `to_hex`, `TypeInfo::getName` and `build_decl` are parameters. Their code is not part of this model. `split` and `IMPORT_PREFIX` come from headers that are not part of this model; the assumptions about them are listed above.
- `get_struc_name(member.id, STRNFL_REGEX)`: a frame member's name is taken as stored. The flag's rewriting of names is not modelled.
- Null pointers the code does not guard against are preconditions. `IsReadOnly` requires a segment at the address. `FindStackVar` requires a function and a frame there. `FindFunction` requires the short name to have text before its first `(`, so that `split(...).back()` has a token.
- `c_str()` copies: names are assumed free of NUL characters, so these copies never truncate.
- `unique_ptr` ownership, `noexcept` and the host's single-threaded access carry no logic. Symbols are plain values.
- The lemmas about keys never colliding assume that `to_hex` is injective and produces no `.` (`HexEncoding`). The source does not check this.
