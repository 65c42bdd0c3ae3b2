/**
 `cf_cfg_vm_t` of src/cfgcomp_vm.c: the machine that runs the bytecode.

 It holds the bytecode with a read position, the config values and an array of 256
 registers.  The fetch loop moves the position over a command and its arguments, the
 command switch overwrites registers, config values or the position in place.  Its methods
 follow the source; what they do is stated with the machine over bytes of CfgVm and the
 commands of CfgMachine.
 */
module CfgInterpreter {
  import opened Wrappers
  import opened CfgMachine
  import opened CfgBytes
  import opened CfgVm

  /** Arguments already fetched in front of the others. */
  function Behind(args: seq<Arg>, rest: Option<(seq<Arg>, nat)>): Option<(seq<Arg>, nat)> {
    if rest.None? then None else Some((args + rest.value.0, rest.value.1))
  }

  lemma BehindOne(bc: seq<Byte>, pos: nat, desc: int, i: nat, count: nat, args: seq<Arg>)
    requires i < count
    ensures Behind(args, FetchArgs(bc, pos, desc, i, count)) ==
            match FetchArg(bc, pos, TypeOf(desc, i))
            case None => None
            case Some((a, next)) => Behind(args + [a], FetchArgs(bc, next, desc, i + 1, count))
  {
    hide FetchArg, TypeOf;
    match FetchArg(bc, pos, TypeOf(desc, i))
    case None =>
    case Some((a, next)) =>
      var rest := FetchArgs(bc, next, desc, i + 1, count);
      if rest.Some? {
        assert args + ([a] + rest.value.0) == args + [a] + rest.value.0;
      }
  }

  lemma BehindNothing(bc: seq<Byte>, pos: nat, desc: int, count: nat, args: seq<Arg>)
    ensures Behind(args, FetchArgs(bc, pos, desc, count, count)) == Some((args, pos))
    ensures Behind([], FetchArgs(bc, pos, desc, 0, count)) == FetchArgs(bc, pos, desc, 0, count)
  {
    hide FetchArg;
    assert args + [] == args;
    var r := FetchArgs(bc, pos, desc, 0, count);
    assert r.Some? ==> [] + r.value.0 == r.value.0;
  }

  class Interpreter {
    const content: seq<Byte>
    const registers: array<Val>
    var pos: int
    var cfg: Config

    constructor (content: seq<Byte>, cfg: Config)
      ensures Valid() && fresh(registers) && this.content == content && pos == 0
      ensures Now() == Store(EMPTY_STORE.regs, cfg)
    {
      this.content := content;
      this.cfg := cfg;
      pos := 0;
      var regs := new Val[256](_ => Untyped);
      registers := regs;
      new;
      assert registers[..] == EMPTY_STORE.regs;
    }

    predicate Valid() { registers.Length == 256 }

    /** The registers and config values as a value. */
    ghost function Now(): (st: Store)
      reads this, registers
      requires Valid()
      ensures st.Valid()
    {
      Store(registers[..], cfg)
    }

    /** One argument; None where the source would read outside the bytecode. */
    method FetchArgument(t: int) returns (a: Option<Arg>)
      requires 0 <= pos
      modifies this`pos
      ensures match FetchArg(content, old(pos), t)
              case None => a.None?
              case Some((v, next)) => a == Some(v) && pos == next
    {
      hide ReadI32, UpToNul;
      if t == 1 && pos < |content| {
        a := Some(AReg(content[pos]));
        pos := pos + 1;
        return;
      }
      if (t != 2 && t != 3) || pos + 4 > |content| { return None; }
      var i32 := ReadI32(content, pos);
      if t == 2 {
        a := Some(ANum(i32));
      } else {
        if i32 < 0 || i32 + 4 > |content| { return None; }
        var len := ReadI32(content, i32);
        if len < 0 || i32 + 4 + len > |content| { return None; }
        a := Some(AStr(UpToNul(CharsAt(content, i32 + 4, len))));
      }
      pos := pos + 4;
    }

    /** `cf_cfg_vm_fetch`. */
    method FetchCommand() returns (cmd: Option<Cmd>)
      requires 0 <= pos < |content|
      modifies this`pos
      ensures match Fetch(content, old(pos))
              case None => cmd.None?
              case Some((c, next)) => cmd == Some(c) && pos == next
    {
      hide FetchArg, FetchArgs, TypeOf;
      var instruction := content[pos];
      if pos + 3 > |content| { return None; }
      var argdesc := Word(content[pos + 2], content[pos + 1], 0, 0);
      pos := pos + 3;
      var argcount := argdesc / 8192;
      if argcount > 3 { return None; }
      ghost var start := pos;
      var args := [];
      var i := 0;
      BehindNothing(content, start, argdesc, argcount, []);
      while i < argcount
        invariant 0 <= i <= argcount && 0 <= pos
        invariant FetchArgs(content, start, argdesc, 0, argcount) ==
                  Behind(args, FetchArgs(content, pos, argdesc, i, argcount))
      {
        hide Behind;
        BehindOne(content, pos, argdesc, i, argcount, args);
        var a := FetchArgument(TypeOf(argdesc, i));
        if a.None? { return None; }
        args := args + [a.value];
        i := i + 1;
      }
      BehindNothing(content, pos, argdesc, argcount, args);
      cmd := Some(Cmd(instruction, args));
    }

    /** The outcome of a command in place. */
    ghost predicate Reached(o: Outcome, next: int, stop: Option<Reason>)
      reads this, registers
      requires Valid()
    {
      match o
      case Next(st) => stop.None? && pos == next && Now() == st
      case Goto(t, st) => stop.None? && pos == t && Now() == st
      case Halt(reason) => stop == Some(reason)
    }

    /** A result into its register. */
    method WriteRegister(r: Byte, v: Result<Val>) returns (stop: Option<Reason>)
      requires Valid()
      modifies registers
      ensures Reached(Write(r, v, old(Now())), pos, stop)
    {
      match v {
        case Ok(x) => registers[r] := x; stop := None;
        case Stop(reason) => stop := Some(reason);
      }
    }

    method Value(arg: Arg) returns (v: Val)
      requires Valid()
      ensures v == OperandValue(arg, registers[..])
    {
      match arg {
        case AReg(r) => v := registers[r];
        case ANum(n) => v := Num(n);
        case AStr(s) => v := Str(s);
      }
    }

    /** The cases of EQ, NE, ADD, SUB, MUL, DIV, AND and OR. */
    method Binary(b: Build, op: BinOp, args: seq<Arg>) returns (stop: Option<Reason>)
      requires Valid()
      modifies registers
      ensures Reached(ExecBinary(b, op, args, old(Now())), pos, stop)
    {
      hide Apply, OperandValue;
      if |args| < 2 || |args| > 3 { return Some(Error); }
      var dst := args[|args| - 1];
      if !dst.AReg? { return Some(Error); }
      var src := Value(args[0]);
      var src1 := Value(args[1]);
      if |args| == 3 && (op == Eq || op == Ne) && args[0].AReg? { src1 := src; }
      stop := WriteRegister(dst.bval, Apply(b, op, src, src1, cfg));
    }

    method Negate(args: seq<Arg>) returns (stop: Option<Reason>)
      requires Valid()
      modifies registers
      ensures Reached(ExecNeg(args, old(Now())), pos, stop)
    {
      if |args| < 1 || |args| > 2 { return Some(Error); }
      var dst := args[|args| - 1];
      if !dst.AReg? { return Some(Error); }
      var src := Value(args[0]);
      stop := WriteRegister(dst.bval, Ok(Bool(!IsTrue(src, cfg))));
    }

    method Copy(b: Build, args: seq<Arg>) returns (stop: Option<Reason>)
      requires Valid()
      modifies registers
      ensures Reached(ExecCpy(b, args, old(Now())), pos, stop)
    {
      if |args| != 2 || !args[1].AReg? { return Some(Error); }
      var src := Value(args[0]);
      stop := WriteRegister(args[1].bval, Ok(if b.cpyTags then src else Untyped));
    }

    method Branch(onTrue: bool, args: seq<Arg>) returns (stop: Option<Reason>)
      requires Valid()
      modifies this`pos
      ensures Reached(ExecBranch(onTrue, args, old(Now())), old(pos), stop)
    {
      if |args| != 2 || !args[0].ANum? || !args[1].AReg? { return Some(Error); }
      if IsTrue(registers[args[1].bval], cfg) == onTrue { pos := args[0].i32; }
      stop := None;
    }

    method Load(args: seq<Arg>) returns (stop: Option<Reason>)
      requires Valid()
      modifies this`cfg, registers
      ensures Reached(ExecLoad(args, old(Now())), pos, stop)
    {
      if |args| != 3 || !args[0].AStr? || args[1] != AStr("global") || !args[2].AReg? { return Some(Unmodelled); }
      var name := args[0].cval;
      registers[args[2].bval] := Cfg(CellOf(name, cfg));
      cfg := Loaded(name, cfg);
      stop := None;
    }

    method Assign(b: Build, args: seq<Arg>) returns (stop: Option<Reason>)
      requires Valid()
      modifies this`cfg
      ensures Reached(ExecSet(b, args, old(Now())), pos, stop)
    {
      if |args| != 2 || !args[0].AReg? || !args[1].AReg? { return Some(Unmodelled); }
      var dst := registers[args[1].bval];
      if !dst.Cfg? { return Some(Error); }
      cfg := Assigned(b, dst.cell, registers[args[0].bval], cfg);
      stop := None;
    }

    /** The switch of `cf_cfg_vm_start`. */
    method Execute(b: Build, cmd: Cmd) returns (stop: Option<Reason>)
      requires Valid()
      modifies this, registers
      ensures Reached(Exec(b, cmd, old(Now())), old(pos), stop)
    {
      hide ExecBinary, ExecCpy, ExecNeg, ExecBranch, ExecLoad, ExecSet;
      var op, args := cmd.instruction, cmd.args;
      stop := None;
      if op == ASM_CPY { stop := Copy(b, args); }
      else if op == ASM_ADD { stop := Binary(b, Add, args); }
      else if op == ASM_SUB { stop := Binary(b, Sub, args); }
      else if op == ASM_MUL { stop := Binary(b, Mul, args); }
      else if op == ASM_DIV { stop := Binary(b, Div, args); }
      else if op == ASM_EQ { stop := Binary(b, Eq, args); }
      else if op == ASM_NE { stop := Binary(b, Ne, args); }
      else if op == ASM_AND { stop := Binary(b, And, args); }
      else if op == ASM_OR { stop := Binary(b, Or, args); }
      else if op == ASM_NEG { stop := Negate(args); }
      else if op == ASM_JMP {
        if |args| != 1 { return Some(Error); }
        pos := JumpField(args[0]);
      }
      else if op == ASM_JMPIF { stop := Branch(true, args); }
      else if op == ASM_JMPIFNOT { stop := Branch(false, args); }
      else if op == ASM_LOAD { stop := Load(args); }
      else if op == ASM_SET { stop := Assign(b, args); }
      else if ASM_LT <= op <= ASM_GTEQ || ASM_ARRAY <= op <= ASM_ARRAYPUSH { stop := Some(Unmodelled); }
    }

    /** The state as the machine over bytes. */
    ghost function Machine(stop: Option<Reason>): (v: Vm)
      reads this, registers
      requires Valid()
      ensures v.Valid()
    {
      if stop.Some? then VmHalted(stop.value) else VmAt(pos, Now())
    }

    method Turn(b: Build) returns (stop: Option<Reason>)
      requires Valid() && pos < |content|
      modifies this, registers
      ensures Machine(stop) == VmStep(b, content, VmAt(old(pos), old(Now())))
    {
      hide Fetch, Exec;
      if pos < 0 { return Some(Unmodelled); }
      var cmd := FetchCommand();
      if cmd.None? { return Some(Unmodelled); }
      stop := Execute(b, cmd.value);
    }

    /** The loop of `cf_cfg_vm_start`, for at most `turns` turns. */
    method Start(b: Build, turns: nat) returns (stop: Option<Reason>)
      requires Valid()
      modifies this, registers
      ensures Machine(stop) == VmRun(b, content, VmAt(0, Store(EMPTY_STORE.regs, old(cfg))), turns)
    {
      hide VmStep;
      pos := 0;
      forall i | 0 <= i < registers.Length { registers[i] := Untyped; }
      assert registers[..] == EMPTY_STORE.regs;
      stop := None;
      var n := 0;
      ghost var first := VmAt(0, Store(EMPTY_STORE.regs, cfg));
      while pos < |content| && stop.None? && n < turns
        invariant n <= turns
        invariant VmRun(b, content, first, turns) == VmRun(b, content, Machine(stop), turns - n)
        decreases turns - n
      {
        stop := Turn(b);
        n := n + 1;
      }
      if n < turns {
        VmStays(b, content, Machine(stop), turns - n);
      }
    }
  }

  lemma {:induction false} VmStays(b: Build, bc: seq<Byte>, v: Vm, n: nat)
    requires v.Valid() && (v.VmHalted? || v.pos >= |bc|)
    ensures VmRun(b, bc, v, n) == v
  {
    hide Fetch;
    if n > 0 {
      VmStays(b, bc, v, n - 1);
    }
  }
}
