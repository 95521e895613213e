/**
 * IdaFunctionSymbolInfo: a symbol at a function entry, and what the analyst
 * attached to that function's variables: stack-variable names read from the
 * function's frame, register-variable names and type declarations kept in
 * netnodes under keys built from the function's address and the variable.
 */
module IdaFunctionSymbol {
  import opened Wrappers
  import opened Text
  import opened IdaDatabase
  import opened IdaSymbol
  import opened Netnode

  datatype FunctionSymbolInfo = FunctionSymbolInfo(symbol: SymbolInfo)

  // -------------------------------------------------------------- findStackVar

  /** The function at the symbol's address has a frame (get_func and get_frame are not null). */
  predicate HasFrame(db: Database, fsym: FunctionSymbolInfo)
  {
    GetFunc(db.funcs, fsym.symbol.ea).Some? && GetFunc(db.funcs, fsym.symbol.ea).value.frame.Some?
  }

  /**
   * `soff - (frsize + frregs)` in 64-bit unsigned arithmetic. Normalising
   * removes the local and saved-register bias: adding it back, modulo 2^64,
   * gives the member's offset.
   */
  function NormalizedOffset(f: Func, m: Member): (r: U64)
    ensures Wrap64(r + f.frsize + f.frregs) == m.soff
  {
    Wrap64(m.soff - Wrap64(f.frsize + f.frregs))
  }

  /**
   * The offset test: equal offsets, or on a 32-bit target equal low 32 bits,
   * which on such a target is the whole test.
   */
  predicate MemberMatches(f: Func, m: Member, offset: U64, addrSize: U32): (r: bool)
    ensures addrSize == 4 ==> (r <==> Low32(NormalizedOffset(f, m)) == Low32(offset))
    ensures addrSize != 4 ==> (r <==> NormalizedOffset(f, m) == offset)
  {
    NormalizedOffset(f, m) == offset
    || (addrSize == 4 && Low32(NormalizedOffset(f, m)) == Low32(offset))
  }

  /** Member `k` is the first, in frame order, whose offset matches. */
  ghost predicate FirstMatch(f: Func, members: seq<Member>, k: nat, offset: U64, addrSize: U32)
  {
    && k < |members|
    && MemberMatches(f, members[k], offset, addrSize)
    && forall j :: 0 <= j < k ==> !MemberMatches(f, members[j], offset, addrSize)
  }

  /**
   * findStackVar: the name, after its first '.', of the first frame member
   * whose normalised offset matches; None when no member matches.
   */
  method FindStackVar(db: Database, fsym: FunctionSymbolInfo, offset: U64, addrSize: U32) returns (r: Option<string>)
    requires HasFrame(db, fsym)
    ensures var f := GetFunc(db.funcs, fsym.symbol.ea).value;
      r.None? <==> forall k :: 0 <= k < |f.frame.value| ==> !MemberMatches(f, f.frame.value[k], offset, addrSize)
    ensures var f := GetFunc(db.funcs, fsym.symbol.ea).value;
      r.Some? ==> exists k: nat :: FirstMatch(f, f.frame.value, k, offset, addrSize) && r.value == AfterFirst(f.frame.value[k].name, '.')
  {
    var idaFunc := GetFunc(db.funcs, fsym.symbol.ea).value;
    var members := idaFunc.frame.value;
    var i := 0;
    while i < |members|
      invariant 0 <= i <= |members|
      invariant forall j :: 0 <= j < i ==> !MemberMatches(idaFunc, members[j], offset, addrSize)
    {
      var member := members[i];
      var name := member.name;
      var sofset := Wrap64(member.soff - Wrap64(idaFunc.frsize + idaFunc.frregs));
      if sofset == offset || (addrSize == 4 && Low32(sofset) == Low32(offset)) {
        assert FirstMatch(idaFunc, members, i, offset, addrSize);
        var pp := IndexOf(name, '.');
        if pp.Some? {
          return Some(name[pp.value + 1..]);
        }
        return Some(name);
      }
      i := i + 1;
    }
    return None;
  }

  // ------------------------------------------------ register variables and types

  /** The namespace tags of register-variable and type records. */
  const RegVarTag := ".yagireg."
  const TypeTag := ".yagitype."

  /**
   * The netnode name of a record: "$ ", the function's address in hex, the
   * tag, the variable name. When the hex text holds no '.' and the tag starts
   * with one, the key splits back at its first '.' into "$ " plus the hex
   * text, and the rest of the tag plus the name.
   */
  function NodeKey(hex: string, tag: string, name: string): (r: string)
    ensures '.' !in hex && |tag| > 0 && tag[0] == '.' ==>
      TakeBefore(r, '.') == "$ " + hex && AfterFirst(r, '.') == tag[1..] + name
  {
    var key := "$ " + hex + tag + name;
    if '.' !in hex && |tag| > 0 && tag[0] == '.' then
      var head := "$ " + hex;
      assert '.' !in head by {
        assert forall i :: 2 <= i < |head| ==> head[i] == hex[i - 2];
      }
      assert key == head + ['.'] + (tag[1..] + name);
      IndexOfAfterFreeStretch(head, '.', tag[1..] + name);
      key
    else
      key
  }

  /**
   * Keys never collide: when the hex text holds no '.', the key determines
   * the address text, the namespace and the variable name.
   */
  lemma NodeKeyInjective(h1: string, t1: string, n1: string, h2: string, t2: string, n2: string)
    requires '.' !in h1 && '.' !in h2
    requires t1 == RegVarTag || t1 == TypeTag
    requires t2 == RegVarTag || t2 == TypeTag
    requires NodeKey(h1, t1, n1) == NodeKey(h2, t2, n2)
    ensures h1 == h2 && t1 == t2 && n1 == n2
  {
    var k := NodeKey(h1, t1, n1);
    assert "$ " + h1 == "$ " + h2;
    assert h1 == ("$ " + h1)[2..] == ("$ " + h2)[2..] == h2;
    var rest := AfterFirst(k, '.');
    assert rest == t1[1..] + n1 && rest == t2[1..] + n2;
    assert t1 == t2 by {
      assert t1[5] == rest[4] == t2[5];
    }
    assert n1 == rest[|t1| - 1..] == n2;
  }

  /** What the record keys assume of to_hex: distinct addresses give distinct texts, none holding a '.'. */
  ghost predicate HexEncoding(toHex: U64 -> string)
  {
    && (forall a, b :: toHex(a) == toHex(b) ==> a == b)
    && (forall a :: '.' !in toHex(a))
  }

  /** The key of a register-variable record: after its first '.' come the namespace "yagireg." and the name. */
  function RegVarKey(toHex: U64 -> string, fsym: FunctionSymbolInfo, name: string): (r: string)
    ensures '.' !in toHex(fsym.symbol.ea) ==>
      TakeBefore(r, '.') == "$ " + toHex(fsym.symbol.ea) && AfterFirst(r, '.') == "yagireg." + name
  {
    NodeKey(toHex(fsym.symbol.ea), RegVarTag, name)
  }

  /** The key of a type record: after its first '.' come the namespace "yagitype." and the name. */
  function TypeKey(toHex: U64 -> string, fsym: FunctionSymbolInfo, name: string): (r: string)
    ensures '.' !in toHex(fsym.symbol.ea) ==>
      TakeBefore(r, '.') == "$ " + toHex(fsym.symbol.ea) && AfterFirst(r, '.') == "yagitype." + name
  {
    NodeKey(toHex(fsym.symbol.ea), TypeTag, name)
  }

  /** Register-variable keys and type keys never collide. */
  lemma RegVarAndTypeKeysDiffer(toHex: U64 -> string, f1: FunctionSymbolInfo, n1: string, f2: FunctionSymbolInfo, n2: string)
    requires HexEncoding(toHex)
    ensures RegVarKey(toHex, f1, n1) != TypeKey(toHex, f2, n2)
  {
    if RegVarKey(toHex, f1, n1) == TypeKey(toHex, f2, n2) {
      NodeKeyInjective(toHex(f1.symbol.ea), RegVarTag, n1, toHex(f2.symbol.ea), TypeTag, n2);
    }
  }

  /** Two register-variable keys are equal only for the same function address and the same name. */
  lemma RegVarKeysDistinguish(toHex: U64 -> string, f1: FunctionSymbolInfo, n1: string, f2: FunctionSymbolInfo, n2: string)
    requires HexEncoding(toHex)
    requires RegVarKey(toHex, f1, n1) == RegVarKey(toHex, f2, n2)
    ensures f1.symbol.ea == f2.symbol.ea && n1 == n2
  {
    NodeKeyInjective(toHex(f1.symbol.ea), RegVarTag, n1, toHex(f2.symbol.ea), RegVarTag, n2);
  }

  /** Two type keys are equal only for the same function address and the same name. */
  lemma TypeKeysDistinguish(toHex: U64 -> string, f1: FunctionSymbolInfo, n1: string, f2: FunctionSymbolInfo, n2: string)
    requires HexEncoding(toHex)
    requires TypeKey(toHex, f1, n1) == TypeKey(toHex, f2, n2)
    ensures f1.symbol.ea == f2.symbol.ea && n1 == n2
  {
    NodeKeyInjective(toHex(f1.symbol.ea), TypeTag, n1, toHex(f2.symbol.ea), TypeTag, n2);
  }

  /** findRegVar: the saved register-variable value, None when unset or empty. Opening the node creates it. */
  method FindRegVar(store: NodeStore, toHex: U64 -> string, fsym: FunctionSymbolInfo, name: string) returns (r: Option<string>)
    modifies store
    ensures r == Stored(old(store.nodes), RegVarKey(toHex, fsym, name))
    ensures store.nodes == Created(old(store.nodes), RegVarKey(toHex, fsym, name))
  {
    var key := RegVarKey(toHex, fsym, name);
    store.Open(key);
    var res := store.ValStr(key);
    if |res| == 0 {
      return None;
    }
    return Some(res);
  }

  /** saveRegVar: writes the value at the register-variable key, and nothing else. */
  method SaveRegVar(store: NodeStore, toHex: U64 -> string, fsym: FunctionSymbolInfo, name: string, value: string)
    modifies store
    ensures store.nodes == old(store.nodes)[RegVarKey(toHex, fsym, name) := value]
  {
    var key := RegVarKey(toHex, fsym, name);
    store.Open(key);
    store.Set(key, value);
  }

  /** saveSymbolType: writes the type's declaration text at the type key; the memory location is ignored. */
  method SaveSymbolType<T, L>(store: NodeStore, toHex: U64 -> string, typeName: T -> string,
                              fsym: FunctionSymbolInfo, name: string, newType: T, loc: L)
    modifies store
    ensures store.nodes == old(store.nodes)[TypeKey(toHex, fsym, name) := typeName(newType)]
  {
    var key := TypeKey(toHex, fsym, name);
    store.Open(key);
    store.Set(key, typeName(newType));
  }

  /**
   * findSymbolType: None when no declaration is stored; otherwise the parse
   * of the stored text, whose failure is passed on unchanged.
   */
  method FindSymbolType<T, E>(store: NodeStore, toHex: U64 -> string, buildDecl: string -> Result<T, E>,
                              fsym: FunctionSymbolInfo, name: string) returns (r: Result<Option<T>, E>)
    modifies store
    ensures ValueOf(old(store.nodes), TypeKey(toHex, fsym, name)) == "" ==> r == Success(None)
    ensures var text := ValueOf(old(store.nodes), TypeKey(toHex, fsym, name));
      text != "" ==> match buildDecl(text)
        case Success(t) => r == Success(Some(t))
        case Failure(e) => r == Failure(e)
    ensures store.nodes == Created(old(store.nodes), TypeKey(toHex, fsym, name))
  {
    var key := TypeKey(toHex, fsym, name);
    store.Open(key);
    var res := store.ValStr(key);
    if |res| == 0 {
      return Success(None);
    }
    var parsed := buildDecl(res);
    match parsed
    case Success(t) => return Success(Some(t));
    case Failure(e) => return Failure(e);
  }

  /** Saving a register variable leaves every type record as it was. */
  lemma SaveRegVarKeepsTypes(toHex: U64 -> string, nodes: map<string, string>,
                             f1: FunctionSymbolInfo, n1: string, value: string, f2: FunctionSymbolInfo, n2: string)
    requires HexEncoding(toHex)
    ensures Stored(nodes[RegVarKey(toHex, f1, n1) := value], TypeKey(toHex, f2, n2)) == Stored(nodes, TypeKey(toHex, f2, n2))
  {
    RegVarAndTypeKeysDiffer(toHex, f1, n1, f2, n2);
  }

  /** Saving a register variable leaves the other register variables as they were. */
  lemma SaveRegVarKeepsOthers(toHex: U64 -> string, nodes: map<string, string>,
                              f1: FunctionSymbolInfo, n1: string, value: string, f2: FunctionSymbolInfo, n2: string)
    requires HexEncoding(toHex)
    requires f1.symbol.ea != f2.symbol.ea || n1 != n2
    ensures Stored(nodes[RegVarKey(toHex, f1, n1) := value], RegVarKey(toHex, f2, n2)) == Stored(nodes, RegVarKey(toHex, f2, n2))
  {
    if RegVarKey(toHex, f1, n1) == RegVarKey(toHex, f2, n2) {
      RegVarKeysDistinguish(toHex, f1, n1, f2, n2);
    }
  }

  /** Two saves and a read on a fresh store: the read sees the second value (last writer wins). */
  method SaveTwiceThenFindRegVar(toHex: U64 -> string, fsym: FunctionSymbolInfo, name: string, first: string, second: string)
    returns (r: Option<string>)
    ensures r == (if second == "" then None else Some(second))
  {
    var store := new NodeStore();
    SaveRegVar(store, toHex, fsym, name, first);
    SaveRegVar(store, toHex, fsym, name, second);
    r := FindRegVar(store, toHex, fsym, name);
  }

  /** Two type saves and a read on a fresh store: the read parses the second type's text. */
  method SaveTwiceThenFindSymbolType<T, E, L>(toHex: U64 -> string, typeName: T -> string, buildDecl: string -> Result<T, E>,
                                              fsym: FunctionSymbolInfo, name: string, t1: T, t2: T, loc: L)
    returns (r: Result<Option<T>, E>)
    requires typeName(t2) != ""
    requires buildDecl(typeName(t2)) == Success(t2)
    ensures r == Success(Some(t2))
  {
    var store := new NodeStore();
    SaveSymbolType(store, toHex, typeName, fsym, name, t1, loc);
    SaveSymbolType(store, toHex, typeName, fsym, name, t2, loc);
    r := FindSymbolType(store, toHex, buildDecl, fsym, name);
  }
}
