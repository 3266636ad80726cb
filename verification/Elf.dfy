/** The program-header walk that finds the interpreter a 64-bit ELF image asks for. */
module Elf {
  import opened Common

  datatype Refusal =
    | NotElf64 | BadType | BadMachine | BadVersion | BadHeaderSizes | BadCount | TableOutOfBounds
    | SecondInterpreter | InterpreterOutOfBounds | NotTerminated | NotUtf8 | NotAbsolute

  const IDENT: bytes := [0x7f, 'E' as int, 'L' as int, 'F' as int, 2, 1, 1]
  const SLASH: byte := '/' as int

  // --- What an admitted image looks like ---

  predicate Header(c: bytes) {
    && |c| >= 64 && c[..7] == IDENT
    && (Field(c, 16, 2) == 2 || Field(c, 16, 2) == 3)
    && Field(c, 18, 2) == 62 && Field(c, 20, 4) == 1
    && Field(c, 52, 2) == 64 && Field(c, 54, 2) == 56
    && 1 <= Field(c, 56, 2) <= 128
    && Field(c, 32, 8) >= 64 && Field(c, 32, 8) + 56 * Field(c, 56, 2) <= |c|
  }

  function Count(c: bytes): nat
    requires Header(c)
  {
    Field(c, 56, 2)
  }

  /** Where program header `i` begins; all 56 bytes of it are inside the image. */
  function Base(c: bytes, i: nat): (at: nat)
    requires Header(c) && i < Count(c)
    ensures at + 56 <= |c|
  {
    assert 56 * i + 56 <= 56 * Count(c);
    Field(c, 32, 8) + 56 * i
  }

  predicate IsInterpreter(c: bytes, i: nat)
    requires Header(c) && i < Count(c)
  {
    Field(c, Base(c, i), 4) == 3
  }

  /** The bytes an interpreter header points at, when they are inside the image. */
  function Raw(c: bytes, i: nat): Option<bytes>
    requires Header(c) && i < Count(c)
  {
    var offset, size := Field(c, Base(c, i) + 8, 8), Field(c, Base(c, i) + 32, 8);
    if 3 <= size <= 1026 && offset + size <= |c| then Some(c[offset..offset + size]) else None
  }

  /** One NUL-terminated absolute path of valid text. */
  predicate ValidInterpreter(raw: bytes, utf8: bytes -> bool) {
    && |raw| >= 3 && raw[|raw| - 1] == 0 && 0 !in raw[..|raw| - 1]
    && utf8(raw[..|raw| - 1]) && raw[0] == SLASH
  }

  /** The interpreter named by the headers below `limit`, none of which is refused. */
  ghost predicate Found(c: bytes, limit: nat, interpreter: Option<bytes>, utf8: bytes -> bool)
    requires Header(c) && limit <= Count(c)
  {
    match interpreter
    case None => forall i | 0 <= i < limit :: !IsInterpreter(c, i)
    case Some(path) =>
      exists i | 0 <= i < limit ::
        && IsInterpreter(c, i) && (forall j | 0 <= j < limit && j != i :: !IsInterpreter(c, j))
        && Raw(c, i).Some? && ValidInterpreter(Raw(c, i).value, utf8)
        && path == Raw(c, i).value[..|Raw(c, i).value| - 1]
  }

  /** An admitted image and the interpreter it asks for, if any. */
  ghost predicate Interprets(c: bytes, interpreter: Option<bytes>, utf8: bytes -> bool) {
    Header(c) && Found(c, Count(c), interpreter, utf8)
  }

  /** A header that makes the image inadmissible, whatever the others are. */
  ghost predicate Spoils(c: bytes, i: nat, utf8: bytes -> bool)
    requires Header(c) && i < Count(c)
  {
    IsInterpreter(c, i)
    && (Raw(c, i) == None || !ValidInterpreter(Raw(c, i).value, utf8)
        || exists j | 0 <= j < i :: IsInterpreter(c, j))
  }

  lemma {:induction false} SpoiledImage(c: bytes, i: nat, utf8: bytes -> bool, interpreter: Option<bytes>)
    requires Header(c) && i < Count(c) && Spoils(c, i, utf8)
    ensures !Interprets(c, interpreter, utf8)
  {}

  /**
   * `elf_interpreter`: reads inside its input only, and returns the path of the one
   * interpreter header, or nothing exactly when there is no such header.
   */
  method ElfInterpreter(c: bytes, utf8: bytes -> bool) returns (r: Result<Option<bytes>, Refusal>)
    ensures r.Ok? ==> Interprets(c, r.value, utf8)
    ensures r.Err? ==> forall interpreter :: !Interprets(c, interpreter, utf8)
  {
    if |c| < 64 || c[..7] != IDENT { return Err(NotElf64); }
    var fileType := Field(c, 16, 2);
    if fileType != 2 && fileType != 3 { return Err(BadType); }
    if Field(c, 18, 2) != 62 { return Err(BadMachine); }
    if Field(c, 20, 4) != 1 { return Err(BadVersion); }
    var table := Field(c, 32, 8);
    if Field(c, 52, 2) != 64 || Field(c, 54, 2) != 56 { return Err(BadHeaderSizes); }
    var count := Field(c, 56, 2);
    if !(1 <= count <= 128) { return Err(BadCount); }
    if table < 64 || table + 56 * count > |c| { return Err(TableOutOfBounds); }
    r := WalkHeaders(c, utf8);
  }

  lemma {:induction false} FoundHere(c: bytes, i: nat, utf8: bytes -> bool)
    requires Header(c) && i < Count(c) && Found(c, i, None, utf8) && IsInterpreter(c, i)
    requires Raw(c, i).Some? && ValidInterpreter(Raw(c, i).value, utf8)
    ensures Found(c, i + 1, Some(Raw(c, i).value[..|Raw(c, i).value| - 1]), utf8)
  {}

  lemma {:induction false} FoundBefore(c: bytes, i: nat, interpreter: Option<bytes>, utf8: bytes -> bool)
    requires Header(c) && i < Count(c) && Found(c, i, interpreter, utf8) && !IsInterpreter(c, i)
    ensures Found(c, i + 1, interpreter, utf8)
  {}

  /** The loop over the program headers. */
  method WalkHeaders(c: bytes, utf8: bytes -> bool) returns (r: Result<Option<bytes>, Refusal>)
    requires Header(c)
    ensures r.Ok? ==> Interprets(c, r.value, utf8)
    ensures r.Err? ==> forall interpreter :: !Interprets(c, interpreter, utf8)
  {
    var interpreter: Option<bytes> := None;
    for i := 0 to Count(c)
      invariant Found(c, i, interpreter, utf8)
    {
      if IsInterpreter(c, i) {
        var raw := Raw(c, i);
        if interpreter != None || raw == None || !ValidInterpreter(raw.value, utf8) {
          assert Spoils(c, i, utf8);
          forall any ensures !Interprets(c, any, utf8) { SpoiledImage(c, i, utf8, any); }
          return Err(if interpreter != None then SecondInterpreter else Complaint(raw, utf8));
        }
        FoundHere(c, i, utf8);
        interpreter := Some(raw.value[..|raw.value| - 1]);
      } else {
        FoundBefore(c, i, interpreter, utf8);
      }
    }
    return Ok(interpreter);
  }

  /** Which check an inadmissible interpreter fails first. */
  function Complaint(raw: Option<bytes>, utf8: bytes -> bool): Refusal {
    if raw == None || |raw.value| < 3 then InterpreterOutOfBounds
    else if raw.value[|raw.value| - 1] != 0 || 0 in raw.value[..|raw.value| - 1] then NotTerminated
    else if !utf8(raw.value[..|raw.value| - 1]) then NotUtf8
    else NotAbsolute
  }

  /** The header an admitted interpreter comes from; no other header has its type. */
  lemma {:induction false} InterpreterIndex(c: bytes, path: bytes, utf8: bytes -> bool) returns (i: nat)
    requires Interprets(c, Some(path), utf8)
    ensures i < Count(c) && IsInterpreter(c, i) && forall j | 0 <= j < Count(c) && j != i :: !IsInterpreter(c, j)
    ensures Raw(c, i).Some? && |Raw(c, i).value| > 0 && path == Raw(c, i).value[..|Raw(c, i).value| - 1]
  {
    i :| 0 <= i < Count(c) && IsInterpreter(c, i) && (forall j | 0 <= j < Count(c) && j != i :: !IsInterpreter(c, j))
         && Raw(c, i).Some? && ValidInterpreter(Raw(c, i).value, utf8)
         && path == Raw(c, i).value[..|Raw(c, i).value| - 1];
  }

  /** An image asks for one interpreter at most. */
  lemma {:induction false} InterpreterIsUnique(c: bytes, a: Option<bytes>, b: Option<bytes>, utf8: bytes -> bool)
    requires Interprets(c, a, utf8) && Interprets(c, b, utf8)
    ensures a == b
  {
    hide IsInterpreter, Raw, ValidInterpreter, Header;
    if a.Some? { var i := InterpreterIndex(c, a.value, utf8); }
    if b.Some? { var j := InterpreterIndex(c, b.value, utf8); }
  }

  /** An image with an admitted header asks for no interpreter exactly when none of its headers has type 3. */
  lemma {:induction false} NoInterpreterExactlyWhen(c: bytes, utf8: bytes -> bool)
    ensures Interprets(c, None, utf8) <==> Header(c) && forall i | 0 <= i < Count(c) :: Field(c, Base(c, i), 4) != 3
  {
    if Header(c) {
      hide Header, Base, Count, Field;
      assert forall i | 0 <= i < Count(c) :: IsInterpreter(c, i) <==> Field(c, Base(c, i), 4) == 3;
    }
  }

  /** An admitted image that asks for an interpreter, by the offsets of its fields. */
  lemma {:induction false} InterpretsExactlyWhen(c: bytes, path: bytes, utf8: bytes -> bool)
    ensures Interprets(c, Some(path), utf8) <==>
            && |c| >= 64 && c[..7] == [0x7f, 'E' as int, 'L' as int, 'F' as int, 2, 1, 1]
            && Field(c, 16, 2) in {2, 3} && Field(c, 18, 2) == 62 && Field(c, 20, 4) == 1
            && Field(c, 52, 2) == 64 && Field(c, 54, 2) == 56 && 1 <= Field(c, 56, 2) <= 128
            && Field(c, 32, 8) >= 64 && Field(c, 32, 8) + 56 * Field(c, 56, 2) <= |c|
            && exists i: nat | i < Field(c, 56, 2) :: NamesAlone(c, i, Field(c, 32, 8), Field(c, 56, 2), path, utf8)
  {
    if Header(c) {
      var table, count := Field(c, 32, 8), Field(c, 56, 2);
      forall i: nat | i < count
        ensures NamesAlone(c, i, table, count, path, utf8) <==>
                && IsInterpreter(c, i) && (forall j | 0 <= j < count && j != i :: !IsInterpreter(c, j))
                && Raw(c, i).Some? && ValidInterpreter(Raw(c, i).value, utf8)
                && path == Raw(c, i).value[..|Raw(c, i).value| - 1]
      {
        NamesAloneExactlyWhen(c, i, table, count, path, utf8);
      }
      hide NamesAlone, IsInterpreter, Raw, ValidInterpreter, Header, Field;
      if Interprets(c, Some(path), utf8) {
        var i := InterpreterIndex(c, path, utf8);
        assert NamesAlone(c, i, table, count, path, utf8);
      }
    }
  }

  /** Program header i is the only one of type 3, and points at the path and one NUL behind it. */
  ghost predicate NamesAlone(c: bytes, i: nat, table: nat, count: nat, path: bytes, utf8: bytes -> bool)
    requires table + 56 * count <= |c|
  {
    && (forall j: nat | j < count :: TypeAt(c, table, j) == 3 <==> j == i)
    && i < count
    && var base := table + 56 * i;
    && base + 56 <= |c|
    && var offset, size := Field(c, base + 8, 8), Field(c, base + 32, 8);
    && 3 <= size <= 1026 && offset + size <= |c| && c[offset..offset + size] == path + [0]
    && 0 !in path && path[0] == '/' as int && utf8(path)
  }

  ghost function TypeAt(c: bytes, table: nat, j: nat): nat {
    if table + 56 * j + 4 <= |c| then Field(c, table + 56 * j, 4) else 0
  }

  lemma {:induction false} NamesAloneExactlyWhen(c: bytes, i: nat, table: nat, count: nat, path: bytes,
                                                 utf8: bytes -> bool)
    requires Header(c) && table == Field(c, 32, 8) && count == Field(c, 56, 2) && i < count
    ensures NamesAlone(c, i, table, count, path, utf8) <==>
            && IsInterpreter(c, i) && (forall j | 0 <= j < count && j != i :: !IsInterpreter(c, j))
            && Raw(c, i).Some? && ValidInterpreter(Raw(c, i).value, utf8)
            && path == Raw(c, i).value[..|Raw(c, i).value| - 1]
  {
    forall j: nat | j < count ensures IsInterpreter(c, j) <==> TypeAt(c, table, j) == 3 {}
    hide Header;
    if Raw(c, i).Some? {
      var raw := Raw(c, i).value;
      assert raw[|raw| - 1] == 0 && path == raw[..|raw| - 1] <==> raw == path + [0];
    }
  }

  /** The path it asks for is absolute, free of NUL and at most 1025 bytes long. */
  lemma {:induction false} InterpreterShape(c: bytes, path: bytes, utf8: bytes -> bool)
    requires Interprets(c, Some(path), utf8)
    ensures 2 <= |path| <= 1025 && path[0] == SLASH && 0 !in path && utf8(path)
  {}
}
