/**
 * The state of the IDA database that the symbol layer queries, as one
 * immutable value, and the SDK lookups over it (get_name, get_short_name,
 * get_func, getseg, the cross-references to an address, the import modules).
 * Every query of the symbol layer reads this value afresh; nothing is cached.
 */
module IdaDatabase {
  import opened Wrappers

  type U64 = x: int | 0 <= x < 0x1_0000_0000_0000_0000
  type U32 = x: int | 0 <= x < 0x1_0000_0000
  type U16 = x: int | 0 <= x < 0x1_0000
  type Byte = x: int | 0 <= x < 0x100

  /** A C++ uint64_t result of an arithmetic expression: the value modulo 2^64. */
  function Wrap64(x: int): U64
  {
    x % 0x1_0000_0000_0000_0000
  }

  /** A cast to uint32_t: the low 32 bits. */
  function Low32(x: int): U32
  {
    x % 0x1_0000_0000
  }

  /** A member of a function's stack frame structure: its name and its offset `get_soff()`. */
  datatype Member = Member(name: string, soff: U64)

  /**
   * A function (func_t): its extent [start, end), the size of its local
   * variables `frsize`, of its saved registers `frregs`, and its frame
   * structure, absent when get_frame finds none.
   */
  datatype Func = Func(start: U64, end: U64, frsize: U64, frregs: U16, frame: Option<seq<Member>>)

  /** A segment (segment_t): its extent, its name and its permission bits. */
  datatype Segment = Segment(start: U64, end: U64, name: string, perm: bv8)

  /** One cross-reference to an address, as xrefblk_t presents it. */
  datatype Xref = Xref(isCode: bool, kind: Byte)

  /**
   * An import module: the names it imports (None for an entry imported by
   * ordinal only), or a module whose names cannot be enumerated.
   */
  datatype ImportModule = ImportModule(names: seq<Option<string>>) | Unreadable

  datatype Database = Database(
    names: map<U64, string>,        // get_name
    shortNames: map<U64, string>,   // get_short_name
    funcs: seq<Func>,
    segments: seq<Segment>,
    xrefsTo: map<U64, seq<Xref>>,   // xrefblk_t::first_to / next_to with XREF_ALL
    imports: seq<ImportModule>)

  /** Segment permission bits. */
  const SegPermExec: bv8 := 1
  const SegPermWrite: bv8 := 2
  const SegPermRead: bv8 := 4

  /** The code cross-reference type of a near jump. */
  const FlJN: Byte := 19

  /** The name bound at `ea`, empty when there is none. */
  function NameAt(db: Database, ea: U64): string
  {
    if ea in db.names then db.names[ea] else ""
  }

  /** The short (possibly decorated) name at `ea`, empty when there is none. */
  function ShortNameAt(db: Database, ea: U64): string
  {
    if ea in db.shortNames then db.shortNames[ea] else ""
  }

  /** The incoming references of `ea`, in the order the SDK enumerates them. */
  function XrefsTo(db: Database, ea: U64): seq<Xref>
  {
    if ea in db.xrefsTo then db.xrefsTo[ea] else []
  }

  predicate InFunc(f: Func, ea: U64)
  {
    f.start <= ea < f.end
  }

  predicate InSegment(s: Segment, ea: U64)
  {
    s.start <= ea < s.end
  }

  /** get_func: the function containing `ea`, or None for the null pointer. */
  function GetFunc(funcs: seq<Func>, ea: U64): (r: Option<Func>)
    ensures r.Some? ==> r.value in funcs && InFunc(r.value, ea)
    ensures r.None? <==> forall k :: 0 <= k < |funcs| ==> !InFunc(funcs[k], ea)
  {
    if funcs == [] then None
    else if InFunc(funcs[0], ea) then Some(funcs[0])
    else
      var r := GetFunc(funcs[1..], ea);
      assert forall k :: 1 <= k < |funcs| ==> funcs[k] == funcs[1..][k - 1];
      r
  }

  /** getseg: the segment containing `ea`, or None for the null pointer. */
  function GetSeg(segments: seq<Segment>, ea: U64): (r: Option<Segment>)
    ensures r.Some? ==> r.value in segments && InSegment(r.value, ea)
    ensures r.None? <==> forall k :: 0 <= k < |segments| ==> !InSegment(segments[k], ea)
  {
    if segments == [] then None
    else if InSegment(segments[0], ea) then Some(segments[0])
    else
      var r := GetSeg(segments[1..], ea);
      assert forall k :: 1 <= k < |segments| ==> segments[k] == segments[1..][k - 1];
      r
  }

  /** Functions are non-empty and do not overlap, as IDA keeps them. */
  ghost predicate WellFormed(db: Database)
  {
    && (forall k :: 0 <= k < |db.funcs| ==> db.funcs[k].start < db.funcs[k].end)
    && (forall i, j :: 0 <= i < j < |db.funcs| ==>
          db.funcs[i].end <= db.funcs[j].start || db.funcs[j].end <= db.funcs[i].start)
  }

  /** In a well-formed database, get_func finds the one function that contains `ea`. */
  lemma GetFuncFindsContaining(db: Database, k: nat, ea: U64)
    requires WellFormed(db)
    requires k < |db.funcs| && InFunc(db.funcs[k], ea)
    ensures GetFunc(db.funcs, ea) == Some(db.funcs[k])
  {
    var g := GetFunc(db.funcs, ea).value;
    var j :| 0 <= j < |db.funcs| && db.funcs[j] == g;
  }
}
