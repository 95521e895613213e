/**
 * IdaSymbolInfo: one address and the name bound to it, and the queries that
 * classify that address (function entry, import, jump label, read-only
 * data) and shape its display name. Every query reads the database value it
 * is given; none caches anything.
 */
module IdaSymbol {
  import opened Wrappers
  import opened Text
  import opened IdaDatabase

  datatype SymbolInfo = SymbolInfo(ea: U64, name: string)

  /** The exception getFunctionSize throws, carrying the symbol's name. */
  datatype SymbolError = SymbolIsNotAFunction(name: string)

  /**
   * IDA's helpers that the display name goes through, whose behaviour is
   * not part of this model: cleanup_name (None when it fails) and
   * demangle_name (the empty string when it fails).
   */
  datatype NameServices = NameServices(
    cleanupName: (U64, string) -> Option<string>,
    demangleName: (string, int) -> string)

  /** The demangler dialect getName asks for. */
  const DemangleDialect := 0x0EA3BE67

  /** The marker IDA puts before the names of imported routines. */
  const ImportPrefix := "__imp_"

  /** The prefix of IDA's placeholder names for unnamed functions. */
  const PlaceholderPrefix := "sub_"

  // ---------------------------------------------------------------- isFunction

  /** The address is exactly the entry of the function containing it. */
  predicate IsFunction(db: Database, sym: SymbolInfo): (r: bool)
    ensures r ==> exists f :: f in db.funcs && f.start == sym.ea
  {
    match GetFunc(db.funcs, sym.ea)
    case None => false
    case Some(f) => f.start == sym.ea
  }

  /** isFunction holds exactly at the entry address of some function. */
  lemma IsFunctionIffEntry(db: Database, sym: SymbolInfo)
    requires WellFormed(db)
    ensures IsFunction(db, sym) <==> exists k :: 0 <= k < |db.funcs| && db.funcs[k].start == sym.ea
  {
    if k :| 0 <= k < |db.funcs| && db.funcs[k].start == sym.ea {
      GetFuncFindsContaining(db, k, sym.ea);
    }
  }

  /** An address strictly inside a function's body is not a function. */
  lemma InteriorIsNotFunction(db: Database, k: nat, sym: SymbolInfo)
    requires WellFormed(db)
    requires k < |db.funcs| && db.funcs[k].start < sym.ea < db.funcs[k].end
    ensures !IsFunction(db, sym)
  {
    GetFuncFindsContaining(db, k, sym.ea);
  }

  // ----------------------------------------------------------- getFunctionSize

  /** getFunctionSize: the size of the function whose entry is the symbol's address. */
  function GetFunctionSize(db: Database, sym: SymbolInfo): (r: Result<U64, SymbolError>)
    ensures r.Failure? <==> !IsFunction(db, sym)
    ensures r.Failure? ==> r.error == SymbolIsNotAFunction(sym.name)
    ensures r.Success? ==> exists f :: f in db.funcs && f.start == sym.ea && r.value == Wrap64(f.end - f.start)
  {
    match GetFunc(db.funcs, sym.ea)
    case None => Failure(SymbolIsNotAFunction(sym.name))
    case Some(f) =>
      if f.start != sym.ea then Failure(SymbolIsNotAFunction(sym.name))
      else Success(Wrap64(f.end - f.start))
  }

  /** In a well-formed database the size of a function is its positive extent, without wrap-around. */
  lemma FunctionSizeOfEntry(db: Database, k: nat)
    requires WellFormed(db)
    requires k < |db.funcs|
    ensures forall name :: GetFunctionSize(db, SymbolInfo(db.funcs[k].start, name))
                           == Success(db.funcs[k].end - db.funcs[k].start)
    ensures db.funcs[k].end - db.funcs[k].start > 0
  {
    GetFuncFindsContaining(db, k, db.funcs[k].start);
  }

  // ------------------------------------------------------------------ isImport

  /** The name with the import marker removed, when it is strictly longer than the marker and starts with it. */
  function StripImportPrefix(name: string): (r: string)
    ensures |name| > |ImportPrefix| && StartsWith(name, ImportPrefix) ==> name == ImportPrefix + r
    ensures !(|name| > |ImportPrefix| && StartsWith(name, ImportPrefix)) ==> r == name
  {
    if |name| > 6 && name[..6] == ImportPrefix then name[6..] else name
  }

  /** Stripping undoes the marker getName adds, for any non-empty name. */
  lemma StripImportPrefixUndoesPrefix(base: string)
    requires base != []
    ensures StripImportPrefix(ImportPrefix + base) == base
  {
    assert (ImportPrefix + base)[..6] == ImportPrefix;
  }

  /** The import-name callback's answer for one entry: 0 (stop) on a match, 1 (go on) otherwise. */
  function ImportCallback(entry: Option<string>, target: string): (r: int)
    ensures r == 0 || r == 1
    ensures r == 0 <==> entry == Some(target)
  {
    if entry.Some? && entry.value == target then 0 else 1
  }

  /**
   * enum_import_names over the entries of one module: the first callback
   * answer that is not 1, or 1 when every entry has been seen.
   */
  function EnumEntries(entries: seq<Option<string>>, target: string): (r: int)
    ensures r == 0 || r == 1
    ensures r == 0 <==> Some(target) in entries
  {
    if entries == [] then 1
    else if ImportCallback(entries[0], target) == 0 then 0
    else
      assert entries == [entries[0]] + entries[1..];
      EnumEntries(entries[1..], target)
  }

  /** enum_import_names: -1 for a module that cannot be enumerated. */
  function EnumImportNames(m: ImportModule, target: string): (r: int)
    ensures r == -1 || r == 0 || r == 1
    ensures r == 0 <==> m.ImportModule? && Some(target) in m.names
  {
    match m
    case Unreadable => -1
    case ImportModule(names) => EnumEntries(names, target)
  }

  /** Some import module lists `target` by name. */
  ghost predicate ImportListed(modules: seq<ImportModule>, target: string)
  {
    exists i :: 0 <= i < |modules| && modules[i].ImportModule? && Some(target) in modules[i].names
  }

  /** isImport: the name, without its import marker, is an imported name of some module. */
  method IsImport(db: Database, sym: SymbolInfo) returns (r: bool)
    ensures r <==> ImportListed(db.imports, StripImportPrefix(sym.name))
  {
    var importName := sym.name;
    if |importName| > 6 && importName[..6] == ImportPrefix {
      importName := importName[6..];
    }
    var i := 0;
    while i < |db.imports|
      invariant 0 <= i <= |db.imports|
      invariant forall k :: 0 <= k < i ==> !(db.imports[k].ImportModule? && Some(importName) in db.imports[k].names)
    {
      var found := EnumImportNames(db.imports[i], importName);
      if found != -1 && found != 1 {
        return true;
      }
      i := i + 1;
    }
    return false;
  }

  // ------------------------------------------------------------------- isLabel

  /** Every reference up to and including index `k` is a code reference. */
  ghost predicate CodeThrough(xrefs: seq<Xref>, k: nat)
  {
    forall j :: 0 <= j <= k && j < |xrefs| ==> xrefs[j].isCode
  }

  /** A near-jump reference comes before the first data reference. */
  ghost predicate JumpBeforeData(xrefs: seq<Xref>)
  {
    exists k :: 0 <= k < |xrefs| && xrefs[k].kind == FlJN && CodeThrough(xrefs, k)
  }

  /**
   * isLabel: scans the references to the address in order, skipping code
   * references of other kinds and giving up at the first data reference.
   */
  method IsLabel(db: Database, sym: SymbolInfo) returns (r: bool)
    ensures r <==> JumpBeforeData(XrefsTo(db, sym.ea))
  {
    var xrefs := XrefsTo(db, sym.ea);
    var i := 0;
    while i < |xrefs|
      invariant 0 <= i <= |xrefs|
      invariant i > 0 ==> CodeThrough(xrefs, i - 1)
      invariant forall k :: 0 <= k < i ==> xrefs[k].kind != FlJN
    {
      var xr := xrefs[i];
      if !xr.isCode {
        break;
      }
      if xr.kind != FlJN {
        i := i + 1;
        continue;
      }
      return true;
    }
    return false;
  }

  /** A jump reference reached after skipping calls still makes a label. */
  lemma CallThenJumpIsLabel(call: Byte)
    ensures JumpBeforeData([Xref(true, call), Xref(true, FlJN)])
  {
    assert CodeThrough([Xref(true, call), Xref(true, FlJN)], 1);
  }

  /** A data reference first ends the scan: whatever follows, it is no label. */
  lemma DataFirstIsNoLabel(xrefs: seq<Xref>)
    requires xrefs != [] && !xrefs[0].isCode
    ensures !JumpBeforeData(xrefs)
  {
  }

  // ---------------------------------------------------------------- isReadOnly

  /**
   * isReadOnly: a segment named .data counts as read-only whatever its
   * permissions; any other segment is read-only when its permissions are
   * exactly read, or exactly read and execute.
   */
  predicate IsReadOnly(db: Database, sym: SymbolInfo): (r: bool)
    requires GetSeg(db.segments, sym.ea).Some?
    ensures GetSeg(db.segments, sym.ea).value.name == ".data" ==> r
    ensures var seg := GetSeg(db.segments, sym.ea).value;
      seg.name != ".data" && (seg.perm & SegPermWrite != 0 || seg.perm & SegPermRead == 0) ==> !r
  {
    var seg := GetSeg(db.segments, sym.ea).value;
    seg.name == ".data" || seg.perm == SegPermRead || seg.perm == SegPermRead + SegPermExec
  }

  /** The permission test is: readable, not writable, and no bit besides read, write and execute. */
  lemma ReadOnlyByPermissions(db: Database, sym: SymbolInfo)
    requires GetSeg(db.segments, sym.ea).Some? && GetSeg(db.segments, sym.ea).value.name != ".data"
    ensures var p := GetSeg(db.segments, sym.ea).value.perm;
      IsReadOnly(db, sym) <==>
        p & SegPermRead != 0 && p & SegPermWrite == 0 && p & !(SegPermRead | SegPermWrite | SegPermExec) == 0
  {
  }

  // ------------------------------------------------------------------- getName

  /** The name fed to the demangler: the raw name for placeholders or when cleanup fails, else the cleaned name. */
  function PreDemangleName(services: NameServices, sym: SymbolInfo): (r: string)
    ensures StartsWith(sym.name, PlaceholderPrefix) ==> r == sym.name
    ensures services.cleanupName(sym.ea, sym.name).None? ==> r == sym.name
    ensures (!StartsWith(sym.name, PlaceholderPrefix) && services.cleanupName(sym.ea, sym.name).Some?)
      ==> r == services.cleanupName(sym.ea, sym.name).value
  {
    if StartsWith(sym.name, PlaceholderPrefix) then sym.name
    else match services.cleanupName(sym.ea, sym.name)
      case None => sym.name
      case Some(cleaned) => cleaned
  }

  /** The display name before the import marker: a demangled name cut before its parameter list. */
  function BaseName(services: NameServices, sym: SymbolInfo): (r: string)
    ensures var demangled := services.demangleName(PreDemangleName(services, sym), DemangleDialect);
      && (demangled == "" ==> r == PreDemangleName(services, sym))
      && (demangled != "" ==> '(' !in r && r <= demangled && (|r| < |demangled| ==> demangled[|r|] == '('))
  {
    var demangled := services.demangleName(PreDemangleName(services, sym), DemangleDialect);
    if demangled != "" then TakeBefore(demangled, '(') else PreDemangleName(services, sym)
  }

  /** A name that demangles to "Foo::bar(int)" displays as "Foo::bar". */
  lemma DemangledNameLosesParameters(services: NameServices, sym: SymbolInfo)
    requires services.demangleName(PreDemangleName(services, sym), DemangleDialect) == "Foo::bar(int)"
    ensures BaseName(services, sym) == "Foo::bar"
  {
    assert "Foo::bar(int)" == "Foo::bar" + ['('] + "int)";
    IndexOfAfterFreeStretch("Foo::bar", '(', "int)");
  }

  /**
   * getName: the base name, with the import marker in front when the symbol
   * is an import. Placeholder names skip cleanup but still reach the demangler.
   */
  method GetName(db: Database, services: NameServices, sym: SymbolInfo) returns (r: string)
    ensures ImportListed(db.imports, StripImportPrefix(sym.name)) ==> r == ImportPrefix + BaseName(services, sym)
    ensures !ImportListed(db.imports, StripImportPrefix(sym.name)) ==> r == BaseName(services, sym)
  {
    var pname: string;
    var cleaned := services.cleanupName(sym.ea, sym.name);
    if StartsWith(sym.name, PlaceholderPrefix) || cleaned.None? {
      pname := sym.name;
    } else {
      pname := cleaned.value;
    }
    var idaName := services.demangleName(pname, DemangleDialect);
    if idaName != "" {
      var pp := |idaName|;
      var paren := IndexOf(idaName, '(');
      if paren.Some? {
        pp := paren.value;
      }
      pname := idaName[..pp];
    }
    var imported := IsImport(db, sym);
    if imported {
      return ImportPrefix + pname;
    }
    return pname;
  }
}
