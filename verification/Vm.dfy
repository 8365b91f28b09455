/** The engine: memory bytes, CPU state and undo log updated in place, against the machine as a value. */
module Vm {
  import opened Words
  import opened Opcodes
  import opened Memory
  import opened Machine
  import opened DispatchLoops

  datatype VMState = VMState(
    cycleCount: nat, regs: RegFile, pc: Word, sp: Word, flags: Word, halted: HaltReason,
    snapInterval: Word, snapTimer: Word)

  datatype DispatchMode = ComputedGoto | NaiveSwitch

  /** How `run` came back: with a halt reason, by an exception, or still going when the fuel ran out. */
  datatype Exit = Halted(reason: HaltReason) | Threw(fault: Fault) | OutOfFuel

  class VM {
    const mem: array<Byte>
    var state: VMState
    var io: Host
    var deltas: seq<MemDelta>
    var sink: Sink
    var mode: DispatchMode

    ghost predicate Valid() {
      mem.Length == MEM_SIZE
    }

    ghost function View(): Machine
      reads this, mem
      requires Valid()
    {
      Machine(
        Core(state.cycleCount, state.regs, state.pc, state.sp, state.flags, state.halted, mem[..], io),
        deltas, state.snapInterval, state.snapTimer, sink)
    }

    constructor (host: Host)
      ensures Valid() && fresh(mem)
      ensures View() == Machine(Boot([], host), [], 0, 0, NoSink)
      ensures mode == ComputedGoto
    {
      mem := new Byte[MEM_SIZE](i => 0);
      state := VMState(0, [0, 0, 0, 0, 0, 0, 0, 0], 0, MEM_SIZE - 4, 0, Running, 0, 0);
      io := host;
      deltas := [];
      sink := NoSink;
      mode := ComputedGoto;
      new;
      assert mem[..] == LoadImage([]);
    }

    method LoadProgram(bytes: seq<Byte>) returns (ok: bool)
      requires Valid()
      modifies mem
      ensures ok <==> |bytes| <= MEM_SIZE
      ensures mem[..] == if ok then bytes + old(mem[..])[|bytes|..] else old(mem[..])
    {
      if |bytes| > MEM_SIZE {
        return false;
      }
      var i := 0;
      while i < |bytes|
        invariant 0 <= i <= |bytes|
        invariant forall k :: 0 <= k < i ==> mem[k] == bytes[k]
        invariant forall k :: i <= k < MEM_SIZE ==> mem[k] == old(mem[k])
      {
        mem[i] := bytes[i];
        i := i + 1;
      }
      return true;
    }

    method MemLoadU32(addr: nat) returns (w: Word)
      requires Valid()
      ensures w == Load32(mem[..], addr) == WordAt(mem[..], addr)
    {
      LoadIs(mem[..], addr);
      var b0, b1 := mem[addr % MEM_SIZE], mem[(addr + 1) % MEM_SIZE];
      var b2, b3 := mem[(addr + 2) % MEM_SIZE], mem[(addr + 3) % MEM_SIZE];
      w := Join(b0, b1, b2, b3);
    }

    method MemStoreU32(addr: nat, v: Word)
      requires Valid()
      modifies mem
      ensures mem[..] == Store32(old(mem[..]), addr, v)
      ensures forall i :: 0 <= i < mem.Length ==> mem[i] == StoredByte(old(mem[..]), addr, v, i)
    {
      StoreIs(mem[..], addr, v);
      mem[addr % MEM_SIZE] := ByteOf(v, 0);
      mem[(addr + 1) % MEM_SIZE] := ByteOf(v, 1);
      mem[(addr + 2) % MEM_SIZE] := ByteOf(v, 2);
      mem[(addr + 3) % MEM_SIZE] := ByteOf(v, 3);
    }

    method ApplyOldValue(d: MemDelta)
      requires Valid()
      modifies mem
      ensures mem[..] == Memory.ApplyOldValue(old(mem[..]), d)
    {
      MemStoreU32(d.page * 4096 + d.offset, d.oldValue);
    }

    /** Undoes a whole log, newest entry first. */
    method UndoDeltas(log: seq<MemDelta>)
      requires Valid()
      modifies mem
      ensures mem[..] == Undo(old(mem[..]), log)
    {
      var k := |log|;
      assert log[..k] == log;
      while k > 0
        invariant 0 <= k <= |log|
        invariant Undo(mem[..], log[..k]) == Undo(old(mem[..]), log)
      {
        assert log[..k][..k - 1] == log[..k - 1];
        k := k - 1;
        ApplyOldValue(log[k]);
      }
    }

    method SetState(s: VMState)
      modifies this`state
      ensures state == s
    {
      state := s;
    }

    method RequestHalt(r: HaltReason)
      requires Valid()
      modifies this`state
      ensures View() == old(View()).(core := old(View()).core.(halted := r))
    {
      state := state.(halted := r);
    }

    method SetSnapshotInterval(cycles: Word)
      requires Valid()
      modifies this`state
      ensures View() == old(View()).(snapInterval := cycles, snapTimer := cycles)
    {
      state := state.(snapInterval := cycles, snapTimer := cycles);
    }

    method SetSnapshotSink(s: Sink)
      requires Valid()
      modifies this`sink
      ensures View() == old(View()).(sink := s)
    {
      sink := s;
    }

    /** Captures the CPU state and drains the log. */
    method TakeSnapshot() returns (s: Snapshot)
      requires Valid()
      modifies this`deltas
      ensures s == SnapshotOf(old(View()).core, old(deltas))
      ensures View() == old(View()).(deltas := [])
    {
      s := Snapshot(state.cycleCount, state.regs, state.pc, state.sp, state.flags, state.halted, deltas);
      deltas := [];
    }

    method MakeSnapshot()
      requires Valid()
      modifies this`deltas, this`sink, this`state
      ensures var v := old(View());
              var (sink', halt) := Notify(v.sink, SnapshotOf(v.core, v.deltas), Cursor(v.core.host));
              View() == v.(deltas := [], sink := sink',
                           core := if halt.Running? then v.core else v.core.(halted := halt))
    {
      if sink.NoSink? {
        deltas := [];
        return;
      }
      var s := TakeSnapshot();
      var (sink', halt) := Notify(sink, s, Cursor(io));
      sink := sink';
      if !halt.Running? {
        RequestHalt(halt);
      }
    }

    /** The head of an iteration: fetch, advance pc and cycle, count the snapshot timer down. */
    method FetchNext() returns (w: Word, due: bool)
      requires Valid()
      modifies this`state
      ensures View() == Tick(old(View()))
      ensures w == InstrAt(old(View()).core) && due == Due(old(View()))
    {
      w := MemLoadU32(state.pc);
      state := state.(pc := Wrap32(state.pc + 4), cycleCount := state.cycleCount + 1);
      due := false;
      if state.snapInterval > 0 {
        state := state.(snapTimer := Wrap32(state.snapTimer - 1));
        due := state.snapTimer == 0;
      }
    }

    method ReloadTimer()
      requires Valid()
      modifies this`state
      ensures View() == old(View()).(snapTimer := old(View()).snapInterval)
    {
      state := state.(snapTimer := state.snapInterval);
    }

    /** Everything between two handlers; `out` when `run` returns here, before dispatching. */
    method Next() returns (w: Word, out: bool)
      requires Valid()
      modifies this`state, this`deltas, this`sink
      ensures w == InstrAt(old(View()).core)
      ensures if out then TailDispatch(old(View())) == Returned(View())
              else TailDispatch(old(View())) == AtLabel(View(), w)
    {
      var due;
      w, due := FetchNext();
      if due {
        MakeSnapshot();
        ReloadTimer();
        assert View() == Arrive(old(View()));
        if !state.halted.Running? {
          return w, true;
        }
      }
      assert View() == Arrive(old(View()));
      if DecodeOp(w) >= OP_COUNT {
        RequestHalt(UnknownOp);
        return w, true;
      }
      return w, false;
    }

    /** The undo log's share of STORE: fold into the newest entry or push one. */
    method LogStoreTo(imm: nat)
      requires Valid() && imm < IMM_LIMIT
      modifies this`deltas
      ensures View() == old(View()).(deltas := LogStore(old(deltas), mem[..], imm))
    {
      var page := imm / 4096 % 256;
      var offset := imm % 4096;
      var n := |deltas|;
      if n > 0 && deltas[n - 1].page == page && deltas[n - 1].offset == offset && deltas[n - 1].runCount < RUN_CAP {
        deltas := deltas[n - 1 := deltas[n - 1].(runCount := deltas[n - 1].runCount + 1)];
      } else {
        var before := MemLoadU32(imm);
        deltas := deltas + [MemDelta(1, page, offset, before)];
      }
    }

    /** ADD, SUB, MUL, and DIV by a non-zero register. */
    method Alu(op: nat, dst: nat, src: nat)
      requires Valid() && dst < 8 && src < 8
      requires op == OP_ADD || op == OP_SUB || op == OP_MUL || (op == OP_DIV && state.regs[src] != 0)
      modifies this`state
      ensures var c := old(View()).core;
              var (r, carry) := Arith(op, c.regs[dst], c.regs[src]);
              View() == old(View()).(core := c.(regs := c.regs[dst := r], flags := Flags(r == 0, carry, r)))
    {
      hide Arith, Flags;
      var r, carry := Result(op, state.regs[dst], state.regs[src]);
      var f := FlagBits(r, carry);
      state := state.(regs := state.regs[dst := r], flags := f);
    }

    static method Result(op: nat, a: Word, b: Word) returns (r: Word, carry: bool)
      requires op == OP_ADD || op == OP_SUB || op == OP_MUL || (op == OP_DIV && b != 0)
      ensures (r, carry) == Arith(op, a, b)
    {
      if op == OP_ADD {
        r := Wrap32(a + b);
        carry := r < a;
      } else if op == OP_SUB {
        r := Wrap32(a - b);
        carry := a < b;
      } else if op == OP_MUL {
        r := Wrap32(a * b);
        carry := a * b > 0xFFFF_FFFF;
      } else {
        r := a / b;
        carry := false;
      }
    }

    static method FlagBits(r: Word, carry: bool) returns (f: Word)
      ensures f == Flags(r == 0, carry, r)
    {
      f := 0;
      if r == 0 {
        f := f + FLAG_ZF;
      }
      if carry {
        f := f + FLAG_CF;
      }
      if r >= 0x8000_0000 {
        f := f + FLAG_SF;
      }
    }

    /** IN and RAND: ask the host; no register changes when it throws. */
    method Input(op: Byte, dst: nat) returns (threw: bool)
      requires Valid() && dst < 8
      modifies this`state, this`io
      ensures var c := old(View()).core;
              var (host, v) := Draw(c.host, c.cycle, op);
              && threw == v.None?
              && View() == old(View()).(core := if v.Some? then c.(regs := c.regs[dst := v.value], host := host)
                                                else c.(host := host))
    {
      match io
      case Live(inputs, log) =>
        var v := inputs(|log|);
        state := state.(regs := state.regs[dst := v]);
        io := Live(inputs, log + [Frame(state.cycleCount, op, v)]);
        return false;
      case Replay(trace, cursor, fault) =>
        if cursor >= |trace| {
          io := Replay(trace, cursor, PrematureEof);
          return true;
        }
        if trace[cursor].cycle != state.cycleCount || trace[cursor].opcode != op {
          io := Replay(trace, cursor, Mismatch);
          return true;
        }
        io := Replay(trace, cursor + 1, fault);
        state := state.(regs := state.regs[dst := trace[cursor].value]);
        return false;
    }

    /** The handler of instruction `w`; `out` when `run` returns or throws from it. */
    method Handler(w: Word) returns (out: bool)
      requires Valid() && DecodeOp(w) < OP_COUNT
      modifies this, mem
      ensures View() == Dispatch(old(View()), w)
      ensures out == HandlerReturns(old(View()).core, w)
      ensures mode == old(mode)
    {
      var op, dst, src, imm := DecodeOp(w), DecodeDst(w), DecodeSrc(w), DecodeImm(w);
      out := false;
      if op == OP_HALT {
        state := state.(halted := Normal);
        out := true;
      } else if op == OP_LOAD {
        var v := MemLoadU32(imm);
        state := state.(regs := state.regs[dst := v]);
      } else if op == OP_STORE {
        LogStoreTo(imm);
        MemStoreU32(imm, state.regs[dst]);
      } else if op == OP_DIV && state.regs[src] == 0 {
        state := state.(pc := Wrap32(state.pc - 4), halted := DivZero);
        out := true;
      } else if op == OP_JUMP {
        state := state.(pc := imm);
      } else if op == OP_JNZ {
        if state.regs[dst] != 0 {
          state := state.(pc := imm);
        }
      } else if op == OP_IN || op == OP_RAND {
        out := Input(op, dst);
      } else if op == OP_LI {
        state := state.(regs := state.regs[dst := imm]);
      } else {
        Alu(op, dst, src);
      }
    }

    method ExitReason() returns (e: Exit)
      ensures e == if Faulted(io) then Threw(io.fault) else Halted(state.halted)
    {
      e := if io.Replay? && !io.fault.NoFault? then Threw(io.fault) else Halted(state.halted);
    }

    /** The body of the ladder's loop. */
    method SwitchIteration() returns (out: bool)
      requires Valid()
      modifies this, mem
      ensures SwitchBody(old(View())) == if out then Exited(View()) else AtHead(View())
    {
      hide Arrive, Dispatch, HandlerReturns;
      var w;
      w, out := Next();
      if !out {
        out := Handler(w);
      }
    }

    /** The ladder, for at most `fuel` iterations. */
    method RunSwitch(fuel: nat) returns (e: Exit)
      requires Valid()
      modifies this, mem
      ensures View() == SwitchRun(old(View()), fuel).m
      ensures e.OutOfFuel? <==> SwitchRun(old(View()), fuel).AtHead?
      ensures !e.OutOfFuel? ==> e == if Faulted(io) then Threw(io.fault) else Halted(state.halted)
    {
      hide SwitchBody;
      var i := 0;
      while state.halted.Running? && i < fuel
        invariant 0 <= i <= fuel
        invariant SwitchRun(old(View()), i) == AtHead(View())
        decreases fuel - i
      {
        ghost var before := View();
        assert SwitchRun(old(View()), i + 1) == SwitchBody(before);
        var out := SwitchIteration();
        i := i + 1;
        if out {
          LoopIsOver(old(View()), i, fuel);
          e := ExitReason();
          return;
        }
      }
      if i < fuel {
        assert SwitchRun(old(View()), i + 1) == Exited(View());
        LoopIsOver(old(View()), i + 1, fuel);
        e := ExitReason();
      } else {
        e := OutOfFuel;
      }
    }

    /** A handler of the chain and the dispatch that ends it. */
    method GotoIteration(w: Word) returns (w': Word, out: bool)
      requires Valid() && DecodeOp(w) < OP_COUNT
      modifies this, mem
      ensures Label(old(View()), w) == if out then Returned(View()) else AtLabel(View(), w')
      ensures !out ==> DecodeOp(w') < OP_COUNT
    {
      hide Dispatch, HandlerReturns, Arrive;
      w' := w;
      out := Handler(w);
      if !out {
        w', out := Next();
      }
    }

    /** The chain, for at most `fuel` handlers after the first dispatch. */
    method RunGoto(fuel: nat) returns (e: Exit)
      requires Valid()
      modifies this, mem
      ensures View() == GotoRun(old(View()), fuel).m
      ensures e.OutOfFuel? <==> GotoRun(old(View()), fuel).AtLabel?
      ensures !e.OutOfFuel? ==> e == if Faulted(io) then Threw(io.fault) else Halted(state.halted)
    {
      hide Label, TailDispatch;
      var i := 0;
      FirstDispatch(View());
      var w, out := Next();
      while !out && i < fuel
        invariant 0 <= i <= fuel
        invariant GotoRun(old(View()), i) == if out then Returned(View()) else AtLabel(View(), w)
        invariant !out ==> DecodeOp(w) < OP_COUNT
        decreases fuel - i
      {
        ghost var before := View();
        assert GotoRun(old(View()), i + 1) == Label(before, w);
        w, out := GotoIteration(w);
        i := i + 1;
      }
      if out {
        ChainIsOver(old(View()), i, fuel);
        e := ExitReason();
      } else {
        e := OutOfFuel;
      }
    }

    /** `run`, in the selected mode, for at most `fuel` instructions. */
    method RunProgram(fuel: nat) returns (e: Exit)
      requires Valid() && Live?(View().core)
      modifies this, mem
      ensures !e.OutOfFuel? ==>
                && View() == Run(old(View()), fuel + 1)
                && !Live?(View().core)
                && e == if Faulted(io) then Threw(io.fault) else Halted(state.halted)
      ensures e.OutOfFuel? ==> Live?(Run(old(View()), fuel).core)
    {
      hide SwitchRun, GotoRun, Run;
      ReturnIsRun(View(), fuel);
      LadderIsRun(View(), fuel);
      ChainFollowsLadder(View(), fuel);
      match mode
      case NaiveSwitch => e := RunSwitch(fuel);
      case ComputedGoto => e := RunGoto(fuel);
    }
  }

  lemma FirstDispatch(m: Machine)
    ensures GotoRun(m, 0) == TailDispatch(m)
    ensures TailDispatch(m).AtLabel? ==> DecodeOp(TailDispatch(m).w) < OP_COUNT
  {
    hide Arrive;
  }

  lemma {:induction false} LoopIsOver(m: Machine, i: nat, n: nat)
    requires SwitchRun(m, i).Exited? && i <= n
    ensures SwitchRun(m, n) == SwitchRun(m, i)
    decreases n
  {
    hide SwitchBody;
    if i < n {
      LoopIsOver(m, i, n - 1);
    }
  }

  lemma {:induction false} ChainIsOver(m: Machine, i: nat, n: nat)
    requires GotoRun(m, i).Returned? && i <= n
    ensures GotoRun(m, n) == GotoRun(m, i)
    decreases n
  {
    hide Label, TailDispatch;
    if i < n {
      ChainIsOver(m, i, n - 1);
    }
  }
}
