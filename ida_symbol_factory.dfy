/**
 * IdaSymbolInfoFactory: turns an address into a symbol, or into a function
 * symbol at the entry of the function that contains it.
 */
module IdaSymbolFactory {
  import opened Wrappers
  import opened Text
  import opened IdaDatabase
  import opened IdaSymbol
  import opened IdaFunctionSymbol

  /** find: a symbol for `ea` with the name bound there; None when the name is missing or empty. */
  function Find(db: Database, ea: U64): (r: Option<SymbolInfo>)
    ensures r.None? <==> NameAt(db, ea) == ""
    ensures r.Some? ==> r.value.ea == ea && r.value.name == NameAt(db, ea)
  {
    if NameAt(db, ea) == "" then None else Some(SymbolInfo(ea, NameAt(db, ea)))
  }

  /**
   * What find_function needs of the database: the short name of the
   * function containing `ea` has something before its first '(' (the
   * split it goes through then yields a last token).
   */
  predicate ShortNameUsable(db: Database, ea: U64)
  {
    GetFunc(db.funcs, ea).Some? ==> TakeBefore(ShortNameAt(db, GetFunc(db.funcs, ea).value.start), '(') != ""
  }

  /** The bare identifier find_function extracts from a decorated short name. */
  function BareFunctionName(shortName: string): (r: string)
    requires TakeBefore(shortName, '(') != ""
    ensures ' ' !in r && '(' !in r
    ensures r == AfterLast(DropTrailing(TakeBefore(shortName, '('), ' '), ' ')
  {
    var beforeParameters := TakeBefore(shortName, '(');
    SplitLastToken(beforeParameters, ' ');
    var tokens := Split(beforeParameters, ' ');
    var words := DropTrailing(beforeParameters, ' ');
    AfterLastIsSuffix(words, ' ');
    assert '(' !in words by {
      assert words <= beforeParameters;
    }
    tokens[|tokens| - 1]
  }

  /**
   * A decorated short name such as "int __cdecl foo(int,char*)" names the
   * function by the identifier just before its parameter list ("foo"):
   * whatever return type and calling convention precede it, and whatever
   * the parameters are.
   */
  lemma BareFunctionNameDropsDecoration(decoration: string, name: string, parameters: string)
    requires decoration == "" || decoration[|decoration| - 1] == ' '
    requires '(' !in decoration
    requires name != "" && ' ' !in name && '(' !in name
    ensures TakeBefore(decoration + name + "(" + parameters, '(') != ""
    ensures BareFunctionName(decoration + name + "(" + parameters) == name
  {
    var p := decoration + name;
    assert decoration + name + "(" + parameters == p + ['('] + parameters;
    TakeBeforeFreeStretch(p, '(', parameters);
    AfterLastOfLastWord(decoration, ' ', name);
  }

  /**
   * find_function: a function symbol at the entry of the function containing
   * `ea`, named by the bare identifier of its short name; None when no
   * function contains `ea`.
   */
  function FindFunction(db: Database, ea: U64): (r: Option<FunctionSymbolInfo>)
    requires ShortNameUsable(db, ea)
    ensures r.None? <==> forall k :: 0 <= k < |db.funcs| ==> !InFunc(db.funcs[k], ea)
    ensures r.Some? ==> exists f :: f in db.funcs && InFunc(f, ea) && r.value.symbol.ea == f.start
    ensures r.Some? ==> ' ' !in r.value.symbol.name && '(' !in r.value.symbol.name
    ensures r.Some? ==> TakeBefore(ShortNameAt(db, r.value.symbol.ea), '(') != ""
                        && r.value.symbol.name == BareFunctionName(ShortNameAt(db, r.value.symbol.ea))
  {
    match GetFunc(db.funcs, ea)
    case None => None
    case Some(f) =>
      Some(FunctionSymbolInfo(SymbolInfo(f.start, BareFunctionName(ShortNameAt(db, f.start)))))
  }

  /** In a well-formed database, find_function lands on a function entry, even from inside the body. */
  lemma FindFunctionAtEntry(db: Database, ea: U64)
    requires WellFormed(db) && ShortNameUsable(db, ea)
    ensures FindFunction(db, ea).Some? ==> IsFunction(db, FindFunction(db, ea).value.symbol)
  {
    if FindFunction(db, ea).Some? {
      var sym := FindFunction(db, ea).value.symbol;
      var k :| 0 <= k < |db.funcs| && db.funcs[k] == GetFunc(db.funcs, ea).value;
      IsFunctionIffEntry(db, sym);
    }
  }
}
