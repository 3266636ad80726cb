/**
 * The fragment of WebAssembly that the endpoint fixture uses: decoding instructions from
 * bytes (section 5.4 of the WebAssembly Core Specification 1.0) and executing them
 * (section 4.4), with wrapping 32-bit integers, a byte memory and structured control.
 */
module WasmMachine {
  import opened Common
  import Leb128

  const WORD := 0x1_0000_0000
  const PAGE := 65536

  type u32 = n: int | 0 <= n < 0x1_0000_0000

  datatype Instr =
    | LocalGet(x: nat) | LocalSet(x: nat) | Const(n: u32) | Add | Sub | GeS | Drop
    | Load8U(offset: nat) | Store8(offset: nat) | MemoryGrow
    | Br(l: nat) | BrIf(l: nat) | Block(body: Code) | Loop(body: Code)
  datatype Code = End | Then(first: Instr, rest: Code)

  // --- Decoding ---

  /** A signed LEB128 immediate as a 32-bit pattern. */
  function SignedAt(b: bytes, pos: nat): (r: Option<(int, nat)>)
    ensures r.Some? ==> pos < r.value.1 <= |b|
    decreases |b| - pos
  {
    if pos >= |b| then None
    else if b[pos] < 64 then Some((b[pos], pos + 1))
    else if b[pos] < 128 then Some((b[pos] as int - 128, pos + 1))
    else match SignedAt(b, pos + 1)
      case None => None
      case Some(tail) => Some((b[pos] - 128 + 128 * tail.0, tail.1))
  }

  /** The alignment and offset immediates of a memory access; only the offset matters. */
  function MemArgAt(b: bytes, pos: nat): (r: Option<(nat, nat)>)
    ensures r.Some? ==> pos < r.value.1 <= |b|
  {
    match Leb128.DecodeAt(b, pos)
    case None => None
    case Some(alignment) => Leb128.DecodeAt(b, alignment.1)
  }

  function InstrAt(b: bytes, pos: nat): (r: Option<(Instr, nat)>)
    ensures r.Some? ==> pos < r.value.1 <= |b|
    decreases |b| - pos, 0
  {
    if pos >= |b| then None
    else
      var op := b[pos];
      if op == 0x02 || op == 0x03 then
        if pos + 1 >= |b| || b[pos + 1] != 0x40 then None
        else match CodeAt(b, pos + 2)
          case None => None
          case Some(body) => Some((if op == 0x02 then Block(body.0) else Loop(body.0), body.1))
      else if op == 0x0c || op == 0x0d || op == 0x20 || op == 0x21 then
        match Leb128.DecodeAt(b, pos + 1)
        case None => None
        case Some(index) =>
          Some((if op == 0x0c then Br(index.0) else if op == 0x0d then BrIf(index.0)
                else if op == 0x20 then LocalGet(index.0) else LocalSet(index.0), index.1))
      else if op == 0x2d || op == 0x3a then
        match MemArgAt(b, pos + 1)
        case None => None
        case Some(arg) => Some((if op == 0x2d then Load8U(arg.0) else Store8(arg.0), arg.1))
      else if op == 0x41 then
        match SignedAt(b, pos + 1)
        case None => None
        case Some(n) => Some((Const(n.0 % WORD), n.1))
      else if op == 0x40 then
        if pos + 1 >= |b| || b[pos + 1] != 0 then None else Some((MemoryGrow, pos + 2))
      else if op == 0x1a then Some((Drop, pos + 1))
      else if op == 0x4e then Some((GeS, pos + 1))
      else if op == 0x6a then Some((Add, pos + 1))
      else if op == 0x6b then Some((Sub, pos + 1))
      else None
  }

  /** Instructions up to and including the matching `end`. */
  function CodeAt(b: bytes, pos: nat): (r: Option<(Code, nat)>)
    ensures r.Some? ==> pos < r.value.1 <= |b|
    decreases |b| - pos, 1
  {
    if pos >= |b| then None
    else if b[pos] == 0x0b then Some((End, pos + 1))
    else match InstrAt(b, pos)
      case None => None
      case Some(first) =>
        match CodeAt(b, first.1)
        case None => None
        case Some(rest) => Some((Then(first.0, rest.0), rest.1))
  }

  /** How many locals the `groups` declarations from `pos` on introduce; i32 is the only type. */
  function LocalsAt(b: bytes, pos: nat, groups: nat): (r: Option<(nat, nat)>)
    decreases groups
  {
    if groups == 0 then Some((0, pos))
    else match Leb128.DecodeAt(b, pos)
      case None => None
      case Some(count) =>
        if count.1 >= |b| || b[count.1] != 0x7f then None
        else match LocalsAt(b, count.1 + 1, groups - 1)
          case None => None
          case Some(rest) => Some((count.0 + rest.0, rest.1))
  }

  datatype Function = Function(locals: nat, code: Code)

  /** A function body: its local declarations, then code that ends exactly with the body. */
  function DecodeBody(b: bytes): Option<Function> {
    match Leb128.DecodeAt(b, 0)
    case None => None
    case Some(groups) =>
      match LocalsAt(b, groups.1, groups.0)
      case None => None
      case Some(locals) =>
        match CodeAt(b, locals.1)
        case None => None
        case Some(code) => if code.1 == |b| then Some(Function(locals.0, code.0)) else None
  }

  // --- Execution ---

  datatype Stack = Empty | Push(top: u32, below: Stack)
  datatype State = State(stack: Stack, locals: seq<u32>, memory: bytes)

  /** `Stuck` marks code that validation rejects; `Trap` is the specification's trap. */
  datatype Outcome = Done(st: State) | Branch(l: nat, st: State) | Trap | Stuck | OutOfFuel

  /** What the embedder decides: the memory's maximum, and whether a possible growth succeeds. */
  datatype Host = Host(maxPages: nat, grants: bool)

  function Signed(n: u32): int {
    if n < 0x8000_0000 then n else n - WORD
  }

  function Grown(memory: bytes, pages: nat): bytes {
    memory + seq(PAGE * pages, _ => 0)
  }

  /** One instruction without control flow; control instructions are `Stuck` here. */
  function Step(i: Instr, st: State, host: Host): Outcome {
    match (i, st.stack)
    case (LocalGet(x), _) =>
      if x < |st.locals| then Done(st.(stack := Push(st.locals[x], st.stack))) else Stuck
    case (LocalSet(x), Push(v, s)) =>
      if x < |st.locals| then Done(st.(stack := s, locals := st.locals[x := v])) else Stuck
    case (Const(n), _) => Done(st.(stack := Push(n, st.stack)))
    case (Add, Push(b, Push(a, s))) => Done(st.(stack := Push((a + b) % WORD, s)))
    case (Sub, Push(b, Push(a, s))) => Done(st.(stack := Push((a - b) % WORD, s)))
    case (GeS, Push(b, Push(a, s))) => Done(st.(stack := Push(if Signed(a) >= Signed(b) then 1 else 0, s)))
    case (Drop, Push(_, s)) => Done(st.(stack := s))
    case (Load8U(offset), Push(a, s)) =>
      if a + offset < |st.memory| then Done(st.(stack := Push(st.memory[a + offset], s))) else Trap
    case (Store8(offset), Push(v, Push(a, s))) =>
      if a + offset < |st.memory|
      then Done(st.(stack := s, memory := st.memory[a + offset := v % 256]))
      else Trap
    case (MemoryGrow, Push(n, s)) =>
      var pages := |st.memory| / PAGE;
      if host.grants && pages + n <= host.maxPages && pages < WORD
      then Done(st.(stack := Push(pages, s), memory := Grown(st.memory, n)))
      else Done(st.(stack := Push(WORD - 1, s)))
    case _ => Stuck
  }

  /** Executes a sequence; `fuel` bounds how often a loop is entered again. */
  function Exec(c: Code, st: State, host: Host, fuel: nat): Outcome
    decreases fuel, c
  {
    match c
    case End => Done(st)
    case Then(Br(l), _) => Branch(l, st)
    case Then(BrIf(l), rest) =>
      (match st.stack
       case Empty => Stuck
       case Push(v, s) => if v != 0 then Branch(l, st.(stack := s)) else Exec(rest, st.(stack := s), host, fuel))
    case Then(Block(body), rest) =>
      (match Exec(body, st.(stack := Empty), host, fuel)
       case Done(s) => Exec(rest, s.(stack := st.stack), host, fuel)
       case Branch(l, s) => if l == 0 then Exec(rest, s.(stack := st.stack), host, fuel) else Branch(l - 1, s)
       case stop => stop)
    case Then(Loop(body), rest) =>
      (match Exec(body, st.(stack := Empty), host, fuel)
       case Done(s) => Exec(rest, s.(stack := st.stack), host, fuel)
       case Branch(l, s) =>
         if l > 0 then Branch(l - 1, s)
         else if fuel == 0 then OutOfFuel
         else Exec(c, s.(stack := st.stack), host, fuel - 1)
       case stop => stop)
    case Then(i, rest) =>
      (match Step(i, st, host)
       case Done(s) => Exec(rest, s, host, fuel)
       case stop => stop)
  }

  /** Calling a function without results: a branch out of the body returns. */
  function Invoke(f: Function, args: seq<u32>, memory: bytes, host: Host, fuel: nat): Outcome {
    match Exec(f.code, State(Empty, args + seq(f.locals, _ => 0), memory), host, fuel)
    case Branch(l, s) => if l == 0 then Done(s) else Stuck
    case other => other
  }

  /** More fuel never changes a run that already finished. */
  lemma {:induction false} FuelMonotone(c: Code, st: State, host: Host, fuel: nat, more: nat)
    requires fuel <= more && Exec(c, st, host, fuel) != OutOfFuel
    ensures Exec(c, st, host, more) == Exec(c, st, host, fuel)
    decreases fuel, c
  {
    match c
    case End =>
    case Then(Br(_), _) =>
    case Then(BrIf(_), rest) =>
      if st.stack.Push? && st.stack.top == 0 {
        FuelMonotone(rest, st.(stack := st.stack.below), host, fuel, more);
      }
    case Then(Block(body), rest) =>
      FuelMonotone(body, st.(stack := Empty), host, fuel, more);
      match Exec(body, st.(stack := Empty), host, fuel) {
        case Done(s) => FuelMonotone(rest, s.(stack := st.stack), host, fuel, more);
        case Branch(l, s) => if l == 0 { FuelMonotone(rest, s.(stack := st.stack), host, fuel, more); }
        case _ =>
      }
    case Then(Loop(body), rest) =>
      FuelMonotone(body, st.(stack := Empty), host, fuel, more);
      match Exec(body, st.(stack := Empty), host, fuel) {
        case Done(s) => FuelMonotone(rest, s.(stack := st.stack), host, fuel, more);
        case Branch(l, s) => if l == 0 { FuelMonotone(c, s.(stack := st.stack), host, fuel - 1, more - 1); }
        case _ =>
      }
    case Then(i, rest) =>
      if Step(i, st, host).Done? {
        FuelMonotone(rest, Step(i, st, host).st, host, fuel, more);
      }
  }
}
