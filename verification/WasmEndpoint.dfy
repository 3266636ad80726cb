/**
 * The endpoint's literal instruction bytes, decoded and executed: they reverse a range of
 * memory in place, for every memory and every range inside it.
 */
module WasmEndpoint {
  import opened Common
  import opened Sequences
  import opened WasmMachine
  import Leb128
  import WasmModule

  // --- The code the bytes stand for; locals are ptr, len, i, j, tmp ---

  function SetFrom(rest: Code): Code {
    Then(LocalGet(0), Then(LocalSet(2), rest))
  }

  function SetTo(rest: Code): Code {
    Then(LocalGet(0), Then(LocalGet(1), Then(Add, Then(Const(1), Then(Sub, Then(LocalSet(3), rest))))))
  }

  function LeaveWhenMet(rest: Code): Code {
    Then(LocalGet(2), Then(LocalGet(3), Then(GeS, Then(BrIf(1), rest))))
  }

  function Save(rest: Code): Code {
    Then(LocalGet(2), Then(Load8U(0), Then(LocalSet(4), rest)))
  }

  function Copy(rest: Code): Code {
    Then(LocalGet(2), Then(LocalGet(3), Then(Load8U(0), Then(Store8(0), rest))))
  }

  function Restore(rest: Code): Code {
    Then(LocalGet(3), Then(LocalGet(4), Then(Store8(0), rest)))
  }

  function Bump(x: nat, op: Instr, rest: Code): Code {
    Then(LocalGet(x), Then(Const(1), Then(op, Then(LocalSet(x), rest))))
  }

  const AGAIN := Then(Br(0), End)
  const ADVANCE := Bump(2, Add, Bump(3, Sub, AGAIN))
  const EXCHANGE := Save(Copy(Restore(ADVANCE)))
  const SWAP := LeaveWhenMet(EXCHANGE)
  const REVERSE := Then(Block(Then(Loop(SWAP), End)), End)
  const ENDPOINT := SetFrom(SetTo(REVERSE))

  function Grow(rest: Code): Code {
    Then(Const(0), Then(MemoryGrow, Then(Drop, rest)))
  }

  // --- Decoding ---

  ghost predicate Holds(b: bytes, pos: nat, part: bytes) {
    pos + |part| <= |b| && b[pos..pos + |part|] == part
  }

  lemma {:induction false} HoldsAt(b: bytes, pos: nat, part: bytes)
    requires Holds(b, pos, part)
    ensures forall i {:trigger b[i]} | pos <= i < pos + |part| :: b[i] == part[i - pos]
  {
    forall i {:trigger b[i]} | pos <= i < pos + |part| ensures b[i] == part[i - pos] {
      assert b[pos..pos + |part|][i - pos] == b[i];
    }
  }

  lemma {:induction false} DecodeBump(b: bytes, pos: nat, x: byte, op: byte, rest: Code, next: nat)
    requires Holds(b, pos, [0x20, x, 0x41, 1, op, 0x21, x]) && x < 128 && op in {0x6a, 0x6b}
    requires CodeAt(b, pos + 7) == Some((rest, next))
    ensures CodeAt(b, pos) == Some((Bump(x, if op == 0x6a then Add else Sub, rest), next))
  {
    HoldsAt(b, pos, [0x20, x, 0x41, 1, op, 0x21, x]);
    var o := if op == 0x6a then Add else Sub;
    assert b[pos] == 0x20 && b[pos + 1] == x && b[pos + 2] == 0x41 && b[pos + 3] == 1;
    assert b[pos + 4] == op && b[pos + 5] == 0x21 && b[pos + 6] == x;
    assert CodeAt(b, pos + 5) == Some((Then(LocalSet(x), rest), next));
    assert CodeAt(b, pos + 4) == Some((Then(o, Then(LocalSet(x), rest)), next));
    assert CodeAt(b, pos + 2) == Some((Then(Const(1), Then(o, Then(LocalSet(x), rest))), next));
  }

  /** `br 0 end`, which ends the loop's code. */
  lemma {:induction false} DecodeAgain(b: bytes, pos: nat)
    requires Holds(b, pos, WasmModule.CODE_CLOSE)
    ensures CodeAt(b, pos) == Some((AGAIN, pos + 3))
  {
    HoldsAt(b, pos, WasmModule.CODE_CLOSE);
    assert b[pos] == 0x0c && b[pos + 1] == 0 && b[pos + 2] == 0x0b;
    assert CodeAt(b, pos + 2) == Some((End, pos + 3));
  }

  lemma {:induction false} DecodeRestore(b: bytes, pos: nat, rest: Code, next: nat)
    requires Holds(b, pos, WasmModule.CODE_RESTORE)
    requires CodeAt(b, pos + 7) == Some((rest, next))
    ensures CodeAt(b, pos) == Some((Restore(rest), next))
  {
    HoldsAt(b, pos, WasmModule.CODE_RESTORE);
    assert b[pos] == 0x20 && b[pos + 1] == 3 && b[pos + 2] == 0x20 && b[pos + 3] == 4;
    assert b[pos + 4] == 0x3a && b[pos + 5] == 0 && b[pos + 6] == 0;
    assert CodeAt(b, pos + 4) == Some((Then(Store8(0), rest), next));
    assert CodeAt(b, pos + 2) == Some((Then(LocalGet(4), Then(Store8(0), rest)), next));
  }

  lemma {:induction false} DecodeCopy(b: bytes, pos: nat, rest: Code, next: nat)
    requires Holds(b, pos, WasmModule.CODE_COPY)
    requires CodeAt(b, pos + 10) == Some((rest, next))
    ensures CodeAt(b, pos) == Some((Copy(rest), next))
  {
    HoldsAt(b, pos, WasmModule.CODE_COPY);
    assert b[pos] == 0x20 && b[pos + 1] == 2 && b[pos + 2] == 0x20 && b[pos + 3] == 3;
    assert b[pos + 4] == 0x2d && b[pos + 5] == 0 && b[pos + 6] == 0;
    assert b[pos + 7] == 0x3a && b[pos + 8] == 0 && b[pos + 9] == 0;
    assert CodeAt(b, pos + 7) == Some((Then(Store8(0), rest), next));
    assert CodeAt(b, pos + 4) == Some((Then(Load8U(0), Then(Store8(0), rest)), next));
    assert CodeAt(b, pos + 2) == Some((Then(LocalGet(3), Then(Load8U(0), Then(Store8(0), rest))), next));
  }

  lemma {:induction false} DecodeSave(b: bytes, pos: nat, rest: Code, next: nat)
    requires Holds(b, pos, WasmModule.CODE_SAVE)
    requires CodeAt(b, pos + 7) == Some((rest, next))
    ensures CodeAt(b, pos) == Some((Save(rest), next))
  {
    HoldsAt(b, pos, WasmModule.CODE_SAVE);
    assert b[pos] == 0x20 && b[pos + 1] == 2 && b[pos + 2] == 0x2d && b[pos + 3] == 0 && b[pos + 4] == 0;
    assert b[pos + 5] == 0x21 && b[pos + 6] == 4;
    assert CodeAt(b, pos + 5) == Some((Then(LocalSet(4), rest), next));
    assert CodeAt(b, pos + 2) == Some((Then(Load8U(0), Then(LocalSet(4), rest)), next));
  }

  lemma {:induction false} DecodeLeave(b: bytes, pos: nat, rest: Code, next: nat)
    requires Holds(b, pos, WasmModule.CODE_LEAVE)
    requires CodeAt(b, pos + 7) == Some((rest, next))
    ensures CodeAt(b, pos) == Some((LeaveWhenMet(rest), next))
  {
    HoldsAt(b, pos, WasmModule.CODE_LEAVE);
    assert b[pos] == 0x20 && b[pos + 1] == 2 && b[pos + 2] == 0x20 && b[pos + 3] == 3;
    assert b[pos + 4] == 0x4e && b[pos + 5] == 0x0d && b[pos + 6] == 1;
    assert CodeAt(b, pos + 5) == Some((Then(BrIf(1), rest), next));
    assert CodeAt(b, pos + 4) == Some((Then(GeS, Then(BrIf(1), rest)), next));
    assert CodeAt(b, pos + 2) == Some((Then(LocalGet(3), Then(GeS, Then(BrIf(1), rest))), next));
  }

  lemma {:induction false} DecodeTo(b: bytes, pos: nat, rest: Code, next: nat)
    requires Holds(b, pos, WasmModule.CODE_TO)
    requires CodeAt(b, pos + 10) == Some((rest, next))
    ensures CodeAt(b, pos) == Some((SetTo(rest), next))
  {
    HoldsAt(b, pos, WasmModule.CODE_TO);
    assert b[pos] == 0x20 && b[pos + 1] == 0 && b[pos + 2] == 0x20 && b[pos + 3] == 1;
    assert b[pos + 4] == 0x6a && b[pos + 5] == 0x41 && b[pos + 6] == 1;
    assert b[pos + 7] == 0x6b && b[pos + 8] == 0x21 && b[pos + 9] == 3;
    var c := Then(Sub, Then(LocalSet(3), rest));
    assert CodeAt(b, pos + 8) == Some((Then(LocalSet(3), rest), next));
    assert CodeAt(b, pos + 7) == Some((c, next));
    assert CodeAt(b, pos + 5) == Some((Then(Const(1), c), next));
    assert CodeAt(b, pos + 4) == Some((Then(Add, Then(Const(1), c)), next));
    assert CodeAt(b, pos + 2) == Some((Then(LocalGet(1), Then(Add, Then(Const(1), c))), next));
  }

  lemma {:induction false} DecodeFrom(b: bytes, pos: nat, rest: Code, next: nat)
    requires Holds(b, pos, WasmModule.CODE_FROM)
    requires CodeAt(b, pos + 4) == Some((rest, next))
    ensures CodeAt(b, pos) == Some((SetFrom(rest), next))
  {
    HoldsAt(b, pos, WasmModule.CODE_FROM);
    assert b[pos] == 0x20 && b[pos + 1] == 0 && b[pos + 2] == 0x21 && b[pos + 3] == 2;
    assert CodeAt(b, pos + 2) == Some((Then(LocalSet(2), rest), next));
  }

  /** `block loop ... end end end` around `size` bytes of loop code. */
  lemma {:induction false} DecodeReverse(b: bytes, pos: nat, size: nat)
    requires Holds(b, pos, WasmModule.CODE_OPEN)
    requires CodeAt(b, pos + 4) == Some((SWAP, pos + 4 + size))
    requires size >= 3 && Holds(b, pos + 1 + size, WasmModule.CODE_CLOSE)
    ensures CodeAt(b, pos) == Some((REVERSE, pos + 6 + size))
  {
    HoldsAt(b, pos + 1 + size, WasmModule.CODE_CLOSE);
    HoldsAt(b, pos, WasmModule.CODE_OPEN);
    assert b[pos] == 2 && b[pos + 1] == 0x40 && b[pos + 2] == 3 && b[pos + 3] == 0x40;
    assert b[pos + 4 + size] == 0x0b && b[pos + 5 + size] == 0x0b;
    assert CodeAt(b, pos + 4 + size) == Some((End, pos + 5 + size));
    assert InstrAt(b, pos + 2) == Some((Loop(SWAP), pos + 4 + size));
    assert CodeAt(b, pos + 2) == Some((Then(Loop(SWAP), End), pos + 5 + size));
    assert CodeAt(b, pos + 5 + size) == Some((End, pos + 6 + size));
  }

  lemma {:induction false} HoldsSplit(b: bytes, pos: nat, x: bytes, y: bytes)
    requires Holds(b, pos, x + y)
    ensures Holds(b, pos, x) && Holds(b, pos + |x|, y)
  {
    var both := b[pos..pos + |x + y|];
    assert b[pos..pos + |x|] == both[..|x|] == x;
    assert b[pos + |x|..pos + |x| + |y|] == both[|x|..] == y;
  }

  lemma {:induction false} DecodeAdvance(b: bytes, pos: nat)
    requires Holds(b, pos, WasmModule.CODE_ADVANCE)
    ensures CodeAt(b, pos) == Some((ADVANCE, pos + 17))
  {
    HoldsSplit(b, pos, WasmModule.CODE_UP, WasmModule.CODE_DOWN + WasmModule.CODE_CLOSE);
    HoldsSplit(b, pos + 7, WasmModule.CODE_DOWN, WasmModule.CODE_CLOSE);
    DecodeAgain(b, pos + 14);
    DecodeBump(b, pos + 7, 3, 0x6b, AGAIN, pos + 17);
    DecodeBump(b, pos, 2, 0x6a, Bump(3, Sub, AGAIN), pos + 17);
  }

  lemma {:induction false} DecodeExchange(b: bytes, pos: nat, next: nat)
    requires Holds(b, pos, WasmModule.CODE_EXCHANGE)
    requires CodeAt(b, pos + 24) == Some((ADVANCE, next))
    ensures CodeAt(b, pos) == Some((EXCHANGE, next))
  {
    HoldsSplit(b, pos, WasmModule.CODE_SAVE, WasmModule.CODE_COPY + WasmModule.CODE_RESTORE);
    HoldsSplit(b, pos + 7, WasmModule.CODE_COPY, WasmModule.CODE_RESTORE);
    DecodeRestore(b, pos + 17, ADVANCE, next);
    DecodeCopy(b, pos + 7, Restore(ADVANCE), next);
    DecodeSave(b, pos, Copy(Restore(ADVANCE)), next);
  }

  lemma {:induction false} DecodeSwap(b: bytes, pos: nat)
    requires Holds(b, pos, WasmModule.CODE_LOOP)
    ensures CodeAt(b, pos) == Some((SWAP, pos + 48)) && Holds(b, pos + 45, WasmModule.CODE_CLOSE)
  {
    HoldsSplit(b, pos, WasmModule.CODE_LEAVE, WasmModule.CODE_EXCHANGE + WasmModule.CODE_ADVANCE);
    HoldsSplit(b, pos + 7, WasmModule.CODE_EXCHANGE, WasmModule.CODE_ADVANCE);
    HoldsSplit(b, pos + 31, WasmModule.CODE_UP, WasmModule.CODE_DOWN + WasmModule.CODE_CLOSE);
    HoldsSplit(b, pos + 38, WasmModule.CODE_DOWN, WasmModule.CODE_CLOSE);
    DecodeAdvance(b, pos + 31);
    DecodeExchange(b, pos + 7, pos + 48);
    DecodeLeave(b, pos, EXCHANGE, pos + 48);
  }

  /** The literal bytes decode to the endpoint wherever they stand. */
  lemma {:induction false} DecodeEndpoint(b: bytes, pos: nat)
    requires Holds(b, pos, WasmModule.ENDPOINT_CODE)
    ensures CodeAt(b, pos) == Some((ENDPOINT, pos + 68))
  {
    var loop := WasmModule.CODE_OPEN + WasmModule.CODE_LOOP;
    HoldsSplit(b, pos, WasmModule.CODE_FROM, WasmModule.CODE_TO + loop);
    HoldsSplit(b, pos + 4, WasmModule.CODE_TO, loop);
    HoldsSplit(b, pos + 14, WasmModule.CODE_OPEN, WasmModule.CODE_LOOP);
    DecodeSwap(b, pos + 18);
    DecodeReverse(b, pos + 14, 48);
    DecodeTo(b, pos + 4, REVERSE, pos + 68);
    DecodeFrom(b, pos, SetTo(REVERSE), pos + 68);
  }

  lemma {:induction false} DecodeGrow(b: bytes, pos: nat, rest: Code, next: nat)
    requires Holds(b, pos, WasmModule.GROW_PREFIX)
    requires CodeAt(b, pos + 5) == Some((rest, next))
    ensures CodeAt(b, pos) == Some((Grow(rest), next))
  {
    HoldsAt(b, pos, WasmModule.GROW_PREFIX);
    assert b[pos] == 0x41 && b[pos + 1] == 0 && b[pos + 2] == 0x40 && b[pos + 3] == 0 && b[pos + 4] == 0x1a;
    assert CodeAt(b, pos + 4) == Some((Then(Drop, rest), next));
    assert CodeAt(b, pos + 2) == Some((Then(MemoryGrow, Then(Drop, rest)), next));
  }

  lemma {:induction false} DecodeLocals(b: bytes, code: Code)
    requires Holds(b, 0, WasmModule.LOCALS) && CodeAt(b, 3) == Some((code, |b|))
    ensures DecodeBody(b) == Some(Function(3, code))
  {
    HoldsAt(b, 0, WasmModule.LOCALS);
    assert b[0] == 1 && b[1] == 3 && b[2] == 0x7f;
    assert LocalsAt(b, 3, 0) == Some((0, 3));
    assert LocalsAt(b, 1, 1) == Some((3, 3));
  }

  lemma {:induction false} DecodePlainBody(b: bytes)
    requires b == WasmModule.LOCALS + WasmModule.ENDPOINT_CODE
    ensures DecodeBody(b) == Some(Function(3, ENDPOINT))
  {
    assert Holds(b, 0, WasmModule.LOCALS + WasmModule.ENDPOINT_CODE);
    HoldsSplit(b, 0, WasmModule.LOCALS, WasmModule.ENDPOINT_CODE);
    CodeLength();
    DecodeEndpoint(b, 3);
    DecodeLocals(b, ENDPOINT);
  }

  lemma {:induction false} DecodeGrowBody(b: bytes)
    requires b == WasmModule.LOCALS + (WasmModule.GROW_PREFIX + WasmModule.ENDPOINT_CODE)
    ensures DecodeBody(b) == Some(Function(3, Grow(ENDPOINT)))
  {
    var tail := WasmModule.GROW_PREFIX + WasmModule.ENDPOINT_CODE;
    assert Holds(b, 0, WasmModule.LOCALS + tail);
    HoldsSplit(b, 0, WasmModule.LOCALS, tail);
    HoldsSplit(b, 3, WasmModule.GROW_PREFIX, WasmModule.ENDPOINT_CODE);
    CodeLength();
    DecodeEndpoint(b, 8);
    DecodeGrow(b, 3, ENDPOINT, |b|);
    DecodeLocals(b, Grow(ENDPOINT));
  }

  lemma {:induction false} CodeLength()
    ensures |WasmModule.ENDPOINT_CODE| == 68
  {}

  // --- Execution ---

  /** Memory with the bytes in [lo, hi) in the opposite order and all others in place. */
  function Reversed(memory: bytes, lo: nat, hi: nat): bytes
    requires hi <= |memory|
  {
    seq(|memory|, k requires 0 <= k < |memory| => if lo <= k < hi then memory[lo + hi - 1 - k] else memory[k])
  }

  /** A state between instructions: nothing on the stack, five locals. */
  function At(ptr: u32, len: u32, i: u32, j: u32, tmp: u32, memory: bytes): State {
    State(Empty, [ptr, len, i, j, tmp], memory)
  }

  lemma {:induction false} ExecBump(x: nat, op: Instr, rest: Code, st: State, host: Host, fuel: nat)
    requires op in {Add, Sub} && x < |st.locals|
    ensures var v: u32 := (if op == Add then st.locals[x] + 1 else st.locals[x] - 1) % WORD;
            Exec(Bump(x, op, rest), st, host, fuel) == Exec(rest, st.(locals := st.locals[x := v]), host, fuel)
  {
    var v: u32 := (if op == Add then st.locals[x] + 1 else st.locals[x] - 1) % WORD;
    var s1 := st.(stack := Push(st.locals[x], st.stack));
    var s2 := s1.(stack := Push(1, s1.stack));
    var s3 := st.(stack := Push(v, st.stack));
    assert Exec(Bump(x, op, rest), st, host, fuel)
           == Exec(Then(Const(1), Then(op, Then(LocalSet(x), rest))), s1, host, fuel);
    assert Exec(Then(op, Then(LocalSet(x), rest)), s2, host, fuel) == Exec(Then(LocalSet(x), rest), s3, host, fuel);
  }

  lemma {:induction false} ExecLeave(rest: Code, st: State, host: Host, fuel: nat)
    requires |st.locals| == 5
    ensures Exec(LeaveWhenMet(rest), st, host, fuel)
         == if Signed(st.locals[2]) >= Signed(st.locals[3]) then Branch(1, st) else Exec(rest, st, host, fuel)
  {
    var s1 := st.(stack := Push(st.locals[2], st.stack));
    var s2 := s1.(stack := Push(st.locals[3], s1.stack));
    var s3 := st.(stack := Push(if Signed(st.locals[2]) >= Signed(st.locals[3]) then 1 else 0, st.stack));
    assert Exec(LeaveWhenMet(rest), st, host, fuel)
           == Exec(Then(LocalGet(3), Then(GeS, Then(BrIf(1), rest))), s1, host, fuel);
    assert Exec(Then(GeS, Then(BrIf(1), rest)), s2, host, fuel) == Exec(Then(BrIf(1), rest), s3, host, fuel);
  }

  /** tmp := memory[i] */
  lemma {:induction false} ExecSave(rest: Code, st: State, host: Host, fuel: nat)
    requires |st.locals| == 5
    ensures Exec(Save(rest), st, host, fuel)
         == if st.locals[2] >= |st.memory| then Trap
            else Exec(rest, st.(locals := st.locals[4 := st.memory[st.locals[2]]]), host, fuel)
  {
    var s1 := st.(stack := Push(st.locals[2], st.stack));
    assert Exec(Save(rest), st, host, fuel) == Exec(Then(Load8U(0), Then(LocalSet(4), rest)), s1, host, fuel);
    if st.locals[2] < |st.memory| {
      var s2 := st.(stack := Push(st.memory[st.locals[2]], st.stack));
      assert Exec(Then(Load8U(0), Then(LocalSet(4), rest)), s1, host, fuel)
             == Exec(Then(LocalSet(4), rest), s2, host, fuel);
    }
  }

  /** memory[i] := memory[j] */
  lemma {:induction false} ExecCopy(rest: Code, st: State, host: Host, fuel: nat)
    requires |st.locals| == 5 && st.locals[2] < |st.memory|
    ensures Exec(Copy(rest), st, host, fuel)
         == if st.locals[3] >= |st.memory| then Trap
            else Exec(rest, st.(memory := st.memory[st.locals[2] := st.memory[st.locals[3]]]), host, fuel)
  {
    var s1 := st.(stack := Push(st.locals[2], st.stack));
    var s2 := s1.(stack := Push(st.locals[3], s1.stack));
    assert Exec(Copy(rest), st, host, fuel)
           == Exec(Then(LocalGet(3), Then(Load8U(0), Then(Store8(0), rest))), s1, host, fuel);
    assert Exec(Then(LocalGet(3), Then(Load8U(0), Then(Store8(0), rest))), s1, host, fuel)
        == Exec(Then(Load8U(0), Then(Store8(0), rest)), s2, host, fuel);
    if st.locals[3] < |st.memory| {
      var s3 := s1.(stack := Push(st.memory[st.locals[3]], s1.stack));
      assert Exec(Then(Load8U(0), Then(Store8(0), rest)), s2, host, fuel)
             == Exec(Then(Store8(0), rest), s3, host, fuel);
    }
  }

  /** memory[j] := tmp */
  lemma {:induction false} ExecRestore(rest: Code, st: State, host: Host, fuel: nat)
    requires |st.locals| == 5 && st.locals[3] < |st.memory|
    ensures Exec(Restore(rest), st, host, fuel)
         == Exec(rest, st.(memory := st.memory[st.locals[3] := st.locals[4] % 256]), host, fuel)
  {
    var s1 := st.(stack := Push(st.locals[3], st.stack));
    var s2 := s1.(stack := Push(st.locals[4], s1.stack));
    assert Exec(Restore(rest), st, host, fuel) == Exec(Then(LocalGet(4), Then(Store8(0), rest)), s1, host, fuel);
    assert Exec(Then(LocalGet(4), Then(Store8(0), rest)), s1, host, fuel)
           == Exec(Then(Store8(0), rest), s2, host, fuel);
  }

  function Swapped(memory: bytes, i: nat, j: nat): bytes
    requires i < |memory| && j < |memory|
  {
    memory[i := memory[j]][j := memory[i]]
  }

  /** One pass through the loop code. */
  lemma {:induction false} ExecSwap(ptr: u32, len: u32, i: u32, j: u32, tmp: u32, memory: bytes, host: Host, fuel: nat)
    ensures var r := Exec(SWAP, At(ptr, len, i, j, tmp, memory), host, fuel);
            if Signed(i) >= Signed(j) then r == Branch(1, At(ptr, len, i, j, tmp, memory))
            else if i >= |memory| || j >= |memory| then r == Trap
            else r == Branch(0, At(ptr, len, (i + 1) % WORD, (j - 1) % WORD, memory[i], Swapped(memory, i, j)))
  {
    var s0 := At(ptr, len, i, j, tmp, memory);
    ExecLeave(EXCHANGE, s0, host, fuel);
    if Signed(i) < Signed(j) {
      ExecSave(Copy(Restore(ADVANCE)), s0, host, fuel);
      if i < |memory| {
        var s1 := At(ptr, len, i, j, memory[i], memory);
        assert s0.locals[4 := memory[i]] == s1.locals;
        ExecExchange(ptr, len, i, j, memory, host, fuel);
        if j < |memory| { ExecAdvance(ptr, len, i, j, memory[i], Swapped(memory, i, j), host, fuel); }
      }
    }
  }

  /** The two stores, with memory[i] already in tmp. */
  lemma {:induction false} ExecExchange(ptr: u32, len: u32, i: u32, j: u32, memory: bytes, host: Host, fuel: nat)
    requires i < |memory|
    ensures var r := Exec(Copy(Restore(ADVANCE)), At(ptr, len, i, j, memory[i], memory), host, fuel);
            if j >= |memory| then r == Trap
            else r == Exec(ADVANCE, At(ptr, len, i, j, memory[i], Swapped(memory, i, j)), host, fuel)
  {
    var s1 := At(ptr, len, i, j, memory[i], memory);
    ExecCopy(Restore(ADVANCE), s1, host, fuel);
    if j < |memory| { ExecRestore(ADVANCE, s1.(memory := memory[i := memory[j]]), host, fuel); }
  }

  /** Both cursors move, and the loop starts over. */
  lemma {:induction false} ExecAdvance(ptr: u32, len: u32, i: u32, j: u32, tmp: u32, memory: bytes, host: Host,
                                       fuel: nat)
    ensures Exec(ADVANCE, At(ptr, len, i, j, tmp, memory), host, fuel)
         == Branch(0, At(ptr, len, (i + 1) % WORD, (j - 1) % WORD, tmp, memory))
  {
    var s3 := At(ptr, len, i, j, tmp, memory);
    ExecBump(2, Add, Bump(3, Sub, AGAIN), s3, host, fuel);
    var s4 := At(ptr, len, (i + 1) % WORD, j, tmp, memory);
    assert s3.locals[2 := (i + 1) % WORD] == s4.locals;
    ExecBump(3, Sub, AGAIN, s4, host, fuel);
    assert s4.locals[3 := (j - 1) % WORD] == [ptr, len, (i + 1) % WORD, (j - 1) % WORD, tmp];
  }

  const LOOP := Then(Loop(SWAP), End)

  lemma {:induction false} ReversedStep(memory: bytes, lo: nat, hi: nat)
    requires lo + 1 < hi <= |memory|
    ensures Reversed(Swapped(memory, lo, hi - 1), lo + 1, hi - 1) == Reversed(memory, lo, hi)
  {}

  /** While two bytes are left the lower cursor is below the upper one, even when that has wrapped to -1. */
  lemma {:induction false} Cursors(lo: nat, hi: nat)
    requires lo <= hi < 0x8000_0000
    ensures Signed(lo) >= Signed((hi - 1) % WORD) <==> hi < lo + 2
    ensures hi > 0 ==> (hi - 1) % WORD == hi - 1
    ensures lo + 1 < hi ==> (lo + 1) % WORD == lo + 1 && (hi - 2) % WORD == hi - 2
  {}

  /** The loop reverses [lo, hi) in exactly (hi - lo) / 2 passes and then leaves the block. */
  lemma {:induction false} LoopReverses(ptr: u32, len: u32, lo: nat, hi: nat, tmp: u32, memory: bytes,
                                        host: Host, fuel: nat)
    requires lo <= hi <= |memory| < 0x8000_0000
    ensures var r := Exec(LOOP, At(ptr, len, lo, (hi - 1) % WORD, tmp, memory), host, fuel);
            if fuel < (hi - lo) / 2 then r == OutOfFuel
            else r.Branch? && r.l == 0 && r.st.memory == Reversed(memory, lo, hi)
    decreases hi - lo
  {
    var j: u32 := (hi - 1) % WORD;
    ExecSwap(ptr, len, lo, j, tmp, memory, host, fuel);
    Cursors(lo, hi);
    if hi < lo + 2 {
      assert Reversed(memory, lo, hi) == memory;
    } else {
      ReversedStep(memory, lo, hi);
      if fuel > 0 {
        LoopReverses(ptr, len, lo + 1, hi - 1, memory[lo], Swapped(memory, lo, j), host, fuel - 1);
      }
    }
  }

  /** Leaving the loop by a branch to the block ends the block. */
  lemma {:induction false} ExecBlock(st: State, host: Host, fuel: nat)
    requires st.stack == Empty
    ensures Exec(REVERSE, st, host, fuel)
         == match Exec(LOOP, st, host, fuel)
            case Done(s) => Done(s.(stack := Empty))
            case Branch(l, s) => if l == 0 then Done(s.(stack := Empty)) else Branch(l - 1, s)
            case stop => stop
  {
    assert st.(stack := Empty) == st;
  }

  lemma {:induction false} ExecTo(st: State, rest: Code, host: Host, fuel: nat)
    requires |st.locals| == 5 && st.stack == Empty
    ensures var end: u32 := (st.locals[0] + st.locals[1] - 1) % WORD;
            Exec(SetTo(rest), st, host, fuel) == Exec(rest, st.(locals := st.locals[3 := end]), host, fuel)
  {
    var ptr, len := st.locals[0], st.locals[1];
    var sum: u32 := (ptr + len) % WORD;
    var end: u32 := (ptr + len - 1) % WORD;
    var store := Then(LocalSet(3), rest);
    var minus := Then(Const(1), Then(Sub, store));
    var p1 := Push(ptr, Empty);
    assert Exec(SetTo(rest), st, host, fuel) == Exec(Then(LocalGet(1), Then(Add, minus)), st.(stack := p1), host, fuel);
    assert Exec(Then(LocalGet(1), Then(Add, minus)), st.(stack := p1), host, fuel)
        == Exec(Then(Add, minus), st.(stack := Push(len, p1)), host, fuel);
    assert Exec(Then(Add, minus), st.(stack := Push(len, p1)), host, fuel)
        == Exec(minus, st.(stack := Push(sum, Empty)), host, fuel);
    assert Exec(minus, st.(stack := Push(sum, Empty)), host, fuel)
        == Exec(Then(Sub, store), st.(stack := Push(1, Push(sum, Empty))), host, fuel);
    assert (sum - 1) % WORD == end;
    assert Exec(Then(Sub, store), st.(stack := Push(1, Push(sum, Empty))), host, fuel)
        == Exec(store, st.(stack := Push(end, Empty)), host, fuel);
  }

  lemma {:induction false} ExecStart(ptr: u32, len: u32, memory: bytes, host: Host, fuel: nat)
    ensures Exec(ENDPOINT, At(ptr, len, 0, 0, 0, memory), host, fuel)
         == Exec(REVERSE, At(ptr, len, ptr, (ptr + len - 1) % WORD, 0, memory), host, fuel)
  {
    var s0 := At(ptr, len, 0, 0, 0, memory);
    var s2 := At(ptr, len, ptr, 0, 0, memory);
    assert s0.locals[2 := ptr] == s2.locals;
    var s1 := s0.(stack := Push(ptr, Empty));
    assert Exec(ENDPOINT, s0, host, fuel) == Exec(Then(LocalSet(2), SetTo(REVERSE)), s1, host, fuel);
    assert Exec(Then(LocalSet(2), SetTo(REVERSE)), s1, host, fuel) == Exec(SetTo(REVERSE), s2, host, fuel);
    ExecTo(s2, REVERSE, host, fuel);
    var end: u32 := (ptr + len - 1) % WORD;
    assert s2.locals[3 := end] == [ptr, len, ptr, end, 0];
  }

  /**
   * Calling the endpoint on a range inside memory finishes after exactly len / 2 exchanges,
   * with that range reversed and every other byte unchanged. The memory may be as large as
   * signed addresses reach, which covers the 257 pages the fixture allows.
   */
  lemma {:induction false} EndpointReverses(ptr: u32, len: u32, memory: bytes, host: Host, fuel: nat)
    requires ptr + len <= |memory| < 0x8000_0000
    ensures var r := Invoke(Function(3, ENDPOINT), [ptr, len], memory, host, fuel);
            if fuel < len / 2 then r == OutOfFuel
            else r.Done? && r.st.memory == Reversed(memory, ptr, ptr + len)
  {
    assert [ptr, len] + seq(3, _ => 0) == At(ptr, len, 0, 0, 0, memory).locals;
    ExecStart(ptr, len, memory, host, fuel);
    LoopReverses(ptr, len, ptr, ptr + len, 0, memory, host, fuel);
    var s := At(ptr, len, ptr, (ptr + len - 1) % WORD, 0, memory);
    ExecBlock(s, host, fuel);
  }

  /** Where the upper cursor starts: the last byte of the range, wrapped to 32 bits. */
  function LastByte(ptr: u32, len: u32): u32 { (ptr + len - 1) % WORD }

  /** Cursors that meet at once stop the call, cursors that do not meet outside memory trap it. */
  lemma {:induction false} FirstPass(ptr: u32, len: u32, memory: bytes, host: Host, fuel: nat)
    requires Signed(ptr) >= Signed(LastByte(ptr, len)) || ptr >= |memory| || LastByte(ptr, len) >= |memory|
    ensures Invoke(Function(3, ENDPOINT), [ptr, len], memory, host, fuel)
         == if Signed(ptr) < Signed(LastByte(ptr, len)) then Trap
            else Done(At(ptr, len, ptr, LastByte(ptr, len), 0, memory))
  {
    assert [ptr, len] + seq(3, _ => 0) == At(ptr, len, 0, 0, 0, memory).locals;
    ExecStart(ptr, len, memory, host, fuel);
    ExecBlock(At(ptr, len, ptr, LastByte(ptr, len), 0, memory), host, fuel);
    ExecSwap(ptr, len, ptr, LastByte(ptr, len), 0, memory, host, fuel);
  }

  /** Cursors inside memory that have not met enclose the range itself: nothing has wrapped. */
  lemma {:induction false} CursorsEncloseTheRange(ptr: u32, len: u32, size: nat)
    requires size < 0x8000_0000 && ptr < size && LastByte(ptr, len) < size && Signed(ptr) < Signed(LastByte(ptr, len))
    ensures ptr + len <= size && len >= 2
  {
    assert len == 0 ==> ptr + len - 1 < size;
    assert ptr + len - 1 >= WORD ==> LastByte(ptr, len) == ptr + len - 1 - WORD < ptr;
  }

  /**
   * Every call, whatever its range: it returns with memory unchanged when the cursors have met
   * from the start, traps when they have not and one is outside memory, and otherwise reverses
   * the range. The cursors are compared as signed integers, so a range that ends at 2^31 or
   * beyond can look empty.
   */
  lemma {:induction false} EveryCall(ptr: u32, len: u32, memory: bytes, host: Host, fuel: nat)
    requires |memory| < 0x8000_0000
    ensures var r := Invoke(Function(3, ENDPOINT), [ptr, len], memory, host, fuel);
            if Signed(ptr) >= Signed(LastByte(ptr, len)) then r.Done? && r.st.memory == memory
            else if ptr >= |memory| || LastByte(ptr, len) >= |memory| then r == Trap
            else if fuel < len / 2 then r == OutOfFuel
            else r.Done? && r.st.memory == Reversed(memory, ptr, ptr + len)
  {
    if Signed(ptr) >= Signed(LastByte(ptr, len)) || ptr >= |memory| || LastByte(ptr, len) >= |memory| {
      FirstPass(ptr, len, memory, host, fuel);
    } else {
      CursorsEncloseTheRange(ptr, len, |memory|);
      EndpointReverses(ptr, len, memory, host, fuel);
    }
  }

  /** A call traps exactly when the cursors have not met and one of them is outside memory. */
  lemma {:induction false} TrapsExactlyWhen(ptr: u32, len: u32, memory: bytes, host: Host, fuel: nat)
    requires |memory| < 0x8000_0000
    ensures Invoke(Function(3, ENDPOINT), [ptr, len], memory, host, fuel) == Trap
       <==> Signed(ptr) < Signed(LastByte(ptr, len)) && (ptr >= |memory| || LastByte(ptr, len) >= |memory|)
  {
    EveryCall(ptr, len, memory, host, fuel);
  }

  /** A range of two bytes or more that leaves memory traps exactly when its end does not look negative. */
  lemma {:induction false} OutsideRangesTrap(ptr: u32, len: u32, memory: bytes, host: Host, fuel: nat)
    requires len >= 2 && |memory| < ptr + len && |memory| < 0x8000_0000
    ensures Invoke(Function(3, ENDPOINT), [ptr, len], memory, host, fuel) == Trap
       <==> Signed(ptr) < Signed(LastByte(ptr, len))
  {
    EveryCall(ptr, len, memory, host, fuel);
    if Signed(ptr) < Signed(LastByte(ptr, len)) && ptr < |memory| && LastByte(ptr, len) < |memory| {
      CursorsEncloseTheRange(ptr, len, |memory|);
    }
  }

  /** One page, and a range of 2^31 + 1 bytes from its start: the call returns, and nothing is reversed. */
  lemma {:induction false} OversizedRangeReturnsSilently(memory: bytes, host: Host, fuel: nat)
    requires |memory| == PAGE
    ensures var r := Invoke(Function(3, ENDPOINT), [0, 0x8000_0001], memory, host, fuel);
            r.Done? && r.st.memory == memory
  {
    assert LastByte(0, 0x8000_0001) == 0x8000_0000;
    EveryCall(0, 0x8000_0001, memory, host, fuel);
  }

  /** Growing by zero pages first, granted or refused, changes nothing. */
  lemma {:induction false} GrowFirst(ptr: u32, len: u32, memory: bytes, host: Host, fuel: nat)
    ensures Invoke(Function(3, Grow(ENDPOINT)), [ptr, len], memory, host, fuel)
         == Invoke(Function(3, ENDPOINT), [ptr, len], memory, host, fuel)
  {
    var s := State(Empty, [ptr, len] + seq(3, _ => 0), memory);
    var s1 := s.(stack := Push(0, Empty));
    assert Grown(memory, 0) == memory;
    var pages := |memory| / PAGE;
    assert Exec(Grow(ENDPOINT), s, host, fuel) == Exec(Then(MemoryGrow, Then(Drop, ENDPOINT)), s1, host, fuel);
    var v: u32 := if host.grants && pages <= host.maxPages && pages < WORD then pages else WORD - 1;
    var s2 := s.(stack := Push(v, Empty));
    assert Exec(Then(MemoryGrow, Then(Drop, ENDPOINT)), s1, host, fuel) == Exec(Then(Drop, ENDPOINT), s2, host, fuel);
    assert Exec(Then(Drop, ENDPOINT), s2, host, fuel) == Exec(ENDPOINT, s, host, fuel);
  }

  lemma {:induction false} GrowBodyParts()
    ensures WasmModule.GrowBody(WasmModule.ENDPOINT_BODY)
         == WasmModule.LOCALS + (WasmModule.GROW_PREFIX + WasmModule.ENDPOINT_CODE)
  {
    assert |WasmModule.LOCALS| == 3;
    Halves(WasmModule.LOCALS, WasmModule.ENDPOINT_CODE);
    Concatenated(WasmModule.LOCALS, WasmModule.GROW_PREFIX, WasmModule.ENDPOINT_CODE);
  }

  // --- From module bytes to the reversed memory ---

  /** Parse the module, take the function in its code section, decode it and call it. */
  function RunModule(wasm: bytes, ptr: u32, len: u32, memory: bytes, host: Host, fuel: nat): Option<Outcome> {
    match WasmModule.Parsed(wasm)
    case None => None
    case Some(sections) =>
      if 10 !in sections then None
      else match WasmModule.BodyOf(sections[10])
        case None => None
        case Some(body) =>
          match DecodeBody(body)
          case None => None
          case Some(f) => Some(Invoke(f, [ptr, len], memory, host, fuel))
  }

  ghost predicate Reverses(r: Option<Outcome>, ptr: u32, len: u32, memory: bytes, fuel: nat)
    requires ptr + len <= |memory|
  {
    r.Some? && if fuel < len / 2 then r.value == OutOfFuel
               else r.value.Done? && r.value.st.memory == Reversed(memory, ptr, ptr + len)
  }

  /** The fixture's bytes, for every page bound: an in-place reversal of every range of every memory. */
  lemma {:induction false} FixtureReverses(maxPages: nat, ptr: u32, len: u32, memory: bytes, host: Host, fuel: nat)
    requires ptr + len <= |memory| < 0x8000_0000
    ensures Reverses(RunModule(WasmModule.Assemble(maxPages), ptr, len, memory, host, fuel), ptr, len, memory, fuel)
  {
    WasmModule.FixtureIsCanonical(maxPages);
    WasmModule.BodyOfCodeSection(WasmModule.ENDPOINT_BODY);
    DecodePlainBody(WasmModule.ENDPOINT_BODY);
    EndpointReverses(ptr, len, memory, host, fuel);
  }

  /** The growing variant computes the same memory, whatever the host answers to `memory.grow`. */
  lemma {:induction false} GrowingFixtureReverses(maxPages: nat, ptr: u32, len: u32, memory: bytes, host: Host,
                                                  fuel: nat)
    requires ptr + len <= |memory| < 0x8000_0000
    ensures Reverses(RunModule(WasmModule.EndpointGrow(maxPages), ptr, len, memory, host, fuel), ptr, len, memory, fuel)
  {
    var body := WasmModule.GrowBody(WasmModule.ENDPOINT_BODY);
    WasmModule.ReplaceChangesOneSection(maxPages, 10, WasmModule.CodeSection(body));
    WasmModule.BodyOfCodeSection(body);
    assert DecodeBody(body) == Some(Function(3, Grow(ENDPOINT))) by {
      GrowBodyParts();
      DecodeGrowBody(body);
    }
    GrowFirst(ptr, len, memory, host, fuel);
    EndpointReverses(ptr, len, memory, host, fuel);
  }
}
