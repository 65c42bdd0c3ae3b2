/**
 The commands of the config VM (src/cfgcomp_vm.c) and the symbolic assembly the code
 generator writes (src/cfgcomp_codegenerator.c), with one meaning for both.
 */
module CfgMachine {
  import opened Wrappers
  import opened CfgText

  /**
   Five places where the sources, taken literally, cannot do what they are for.
   `cpyTags`: CPY stores the type of the value along with the value (as written it
   leaves the register untyped).  `jmpOpcode`: the assembler emits the JMP opcode for
   JMP (as written it emits the CPY opcode).  `setTags`: SET stores the type of a number
   or string (as written it replaces the payload only).  `ownNames`: a config value that
   is copied to another one leaves that one its name (as written the name is copied too).
   `subSubtracts`: SUB of a number and a config value is their difference (as written
   their product).
   All false is the code as written.
   */
  datatype Build = Build(cpyTags: bool, jmpOpcode: bool, setTags: bool, ownNames: bool, subSubtracts: bool)

  const AS_WRITTEN := Build(false, false, false, false, false)
  const INTENDED := Build(true, true, true, true, true)

  /** All but subtraction is as intended. */
  const PRODUCTS := Build(true, true, true, true, false)

  predicate Repaired(b: Build) { b.cpyTags && b.jmpOpcode && b.setTags && b.ownNames }

  // ----- values -----

  /** A register: no type yet, a 32-bit number, a string, or a pointer to a config value. */
  datatype Val = Untyped | Num(i32: int) | Str(sval: string) | Cfg(cell: nat)

  datatype Tag = NoTag | NumTag | StrTag

  /** `cf_cfg_config_value_t`; a string sets `ival` to its length. */
  datatype Cell = Cell(tag: Tag, ival: int, sval: Option<string>, name: string)

  /** The config values in the order they were allocated, and the tree of those with a key. */
  datatype Config = Config(cells: seq<Cell>, tree: map<string, nat>)

  const EMPTY_CONFIG := Config([], map[])

  /** What `calloc` leaves, with its name. */
  function NewCell(name: string): Cell { Cell(NoTag, 0, None, name) }

  function CellAt(cfg: Config, k: nat): Cell { if k < |cfg.cells| then cfg.cells[k] else NewCell("") }

  function CellValue(c: Cell): Val {
    match c.tag
    case NumTag => Num(c.ival)
    case StrTag => if c.sval.Some? then Str(c.sval.value) else Untyped
    case NoTag => Untyped
  }

  function Deref(v: Val, cfg: Config): Val { if v.Cfg? then CellValue(CellAt(cfg, v.cell)) else v }

  /** A value that is not a config value, as a condition. */
  predicate Truth(v: Val) {
    match v
    case Str(s) => s != []
    case Num(n) => n != 0
    case _ => false
  }

  /** `cf_cfg_vm_cfg_is_true`: a string is judged by its length field. */
  predicate CellTruth(c: Cell) { c.tag != NoTag && c.ival != 0 }

  /** `cf_cfg_vm_is_true`. */
  predicate IsTrue(v: Val, cfg: Config) { if v.Cfg? then CellTruth(CellAt(cfg, v.cell)) else Truth(v) }

  /** `cf_cfg_vm_cmp_reg(a, b) == 0`. */
  predicate SameValue(a: Val, b: Val) {
    match (a, b)
    case (Str(s), Str(t)) => s == t
    case (Str(s), Num(n)) => s == Dec(n)
    case (Num(n), Str(t)) => n == Wrap32(StrToLL(t))
    case (Num(n), Num(m)) => n == m
    case _ => false
  }

  // ----- config values -----

  /** The config value LOAD finds under a name, or the new one it allocates. */
  function CellOf(name: string, cfg: Config): nat { if name in cfg.tree then cfg.tree[name] else |cfg.cells| }

  function Loaded(name: string, cfg: Config): Config {
    if name in cfg.tree then cfg else cfg.(cells := cfg.cells + [NewCell(name)])
  }

  /** `cf_cfg_vm_cpy_val_to_cfg` */
  function Copied(b: Build, c: Cell, v: Val, cfg: Config): Cell {
    match v
    case Str(s) => c.(ival := |s|, sval := Some(s), tag := if b.setTags then StrTag else c.tag)
    case Num(n) => c.(ival := n, tag := if b.setTags then NumTag else c.tag)
    case Cfg(k) => if b.ownNames then CellAt(cfg, k).(name := c.name) else CellAt(cfg, k)
    case Untyped => c
  }

  /** SET of config value k: it is overwritten, and put into the tree under the name it had
      unless that name has a value already. */
  function Assigned(b: Build, k: nat, v: Val, cfg: Config): Config {
    if k >= |cfg.cells| then cfg
    else
      var key := cfg.cells[k].name;
      var cells := cfg.cells[k := Copied(b, cfg.cells[k], v, cfg)];
      Config(cells, if key in cfg.tree then cfg.tree else cfg.tree[key := k])
  }

  // ----- operations -----

  /** Why a run stops: an error return, a trap of the processor, or an instruction
      that is not part of this model. */
  datatype Reason = Error | Trap | Unmodelled

  datatype Result<+T> = Ok(value: T) | Stop(reason: Reason)

  datatype BinOp = Add | Sub | Mul | Div | Eq | Ne | And | Or

  function Bool(b: bool): Val { Num(if b then 1 else 0) }

  /** C's integer division: truncation towards zero. */
  function TruncDiv(a: int, b: int): int
    requires b != 0
  {
    var q := (if a < 0 then -a else a) / (if b < 0 then -b else b);
    if (a < 0) == (b < 0) then q else -q
  }

  /** q is n / m cut off: the remainder is smaller than m and has the sign of n. */
  predicate IsQuotient(n: int, m: int, q: int) {
    var r := n - q * m;
    (if r < 0 then -r else r) < (if m < 0 then -m else m) && (r == 0 || (r < 0 <==> n < 0))
  }

  lemma TruncDivCutsOff(n: int, m: int)
    requires m != 0
    ensures IsQuotient(n, m, TruncDiv(n, m))
  {
    var a, c := if n < 0 then -n else n, if m < 0 then -m else m;
    var k := EuclidParts(a, c);
    SignedProduct(k, c);
  }

  lemma EuclidParts(a: nat, c: nat) returns (k: int)
    requires c > 0
    ensures k == a / c && 0 <= a - k * c < c
  {
    k := a / c;
  }

  lemma SignedProduct(k: int, c: int)
    ensures (-k) * c == -(k * c) && k * (-c) == -(k * c) && (-k) * (-c) == k * c
  {
  }

  lemma QuotientUnique(n: int, m: int, q: int, q': int)
    requires m != 0 && IsQuotient(n, m, q) && IsQuotient(n, m, q')
    ensures q == q'
  {
    var r, r' := n - q * m, n - q' * m;
    assert r' - r == (q - q') * m;
    NoSmallMultiple(q - q', m);
  }

  lemma NoSmallMultiple(d: int, m: int)
    ensures d != 0 ==> d * m >= m || d * m <= -m
    ensures d != 0 ==> d * m >= -m || d * m <= m
  {
    if d >= 1 {
      assert d * m == m + (d - 1) * m;
    } else if d <= -1 {
      assert d * m == -m + (d + 1) * m;
    }
  }

  function Plus(a: Val, b: Val): Result<Val> {
    match (a, b)
    case (Num(n), Num(m)) => Ok(Num(Wrap32(n + m)))
    case (Num(n), Str(t)) => Ok(Num(Wrap32(n + Wrap32(StrToLL(t)))))
    case (Str(s), Str(t)) => Ok(Str(s + t))
    case (Str(s), Num(m)) => Ok(Str(s + Dec(m)))
    case _ => Stop(Error)
  }

  /** SUB, MUL and DIV. */
  function Arithmetic(op: BinOp, a: Val, b: Val): Result<Val>
    requires op == Sub || op == Mul || op == Div
  {
    match (a, b)
    case (Num(n), Num(m)) =>
      if op == Mul then Ok(Num(Wrap32(n * m)))
      else if op == Sub then Ok(Num(Wrap32(n - m)))
      else if m == 0 || (n == -0x8000_0000 && m == -1) then Stop(Trap)
      else Ok(Num(TruncDiv(n, m)))
    case _ => Stop(Error)
  }

  /** An operation on two values. */
  function Operation(op: BinOp, a: Val, b: Val): Result<Val> {
    match op
    case Add => Plus(a, b)
    case Eq => Ok(Bool(SameValue(a, b)))
    case Ne => Ok(Bool(!SameValue(a, b)))
    case And => Ok(Bool(Truth(a) && Truth(b)))
    case Or => Ok(Bool(Truth(a) || Truth(b)))
    case _ => Arithmetic(op, a, b)
  }

  /** As written a number minus a config value is their product. */
  predicate Multiplies(b: Build, op: BinOp, x: Val, y: Val) { op == Sub && !b.subSubtracts && !x.Cfg? && y.Cfg? }

  /** An operation on two registers. */
  function Apply(b: Build, op: BinOp, x: Val, y: Val, cfg: Config): Result<Val> {
    match op
    case And => Ok(Bool(IsTrue(x, cfg) && IsTrue(y, cfg)))
    case Or => Ok(Bool(IsTrue(x, cfg) || IsTrue(y, cfg)))
    case _ => Operation(if Multiplies(b, op, x, y) then Mul else op, Deref(x, cfg), Deref(y, cfg))
  }

  // ----- commands -----

  type Byte = x: int | 0 <= x < 256

  /** `cf_cfg_vm_command_t`: the opcode and its arguments as they are fetched. */
  datatype Arg = AReg(bval: Byte) | ANum(i32: int) | AStr(cval: string)
  datatype Cmd = Cmd(instruction: Byte, args: seq<Arg>)

  const ASM_MODULE: Byte := 0x1
  const ASM_SET: Byte := 0x2
  const ASM_UNSET: Byte := 0x4
  const ASM_LOAD: Byte := 0x5
  const ASM_CPY: Byte := 0x6
  const ASM_EQ: Byte := 0x7
  const ASM_NE: Byte := 0x8
  const ASM_LT: Byte := 0x9
  const ASM_LTEQ: Byte := 0xA
  const ASM_GT: Byte := 0xB
  const ASM_GTEQ: Byte := 0xC
  const ASM_ADD: Byte := 0xD
  const ASM_SUB: Byte := 0xE
  const ASM_DIV: Byte := 0xF
  const ASM_MUL: Byte := 0x10
  const ASM_JMP: Byte := 0x11
  const ASM_JMPIF: Byte := 0x12
  const ASM_JMPIFNOT: Byte := 0x13
  const ASM_AND: Byte := 0x14
  const ASM_OR: Byte := 0x15
  const ASM_NEG: Byte := 0x16
  const ASM_ARRAY: Byte := 0x17
  const ASM_ARRAYSUBS: Byte := 0x18
  const ASM_ARRAYPUSH: Byte := 0x19

  /** The registers and the config. */
  datatype Store = Store(regs: seq<Val>, cfg: Config)
  {
    ghost predicate Valid() { |regs| == 256 }
  }

  const EMPTY_STORE := Store(seq(256, _ => Untyped), EMPTY_CONFIG)

  /** What one command does: go on behind it, jump, or stop. */
  datatype Outcome = Next(store: Store) | Goto(target: int, store: Store) | Halt(reason: Reason)

  /** An argument as an operand: a register's value, or the immediate itself. */
  function OperandValue(arg: Arg, regs: seq<Val>): Val
    requires |regs| == 256
  {
    match arg
    case AReg(r) => regs[r]
    case ANum(n) => Num(n)
    case AStr(s) => Str(s)
  }

  function Write(r: Byte, v: Result<Val>, st: Store): Outcome
    requires st.Valid()
  {
    match v
    case Ok(x) => Next(st.(regs := st.regs[r := x]))
    case Stop(reason) => Halt(reason)
  }

  /** EQ, NE, ADD, SUB, MUL, DIV, AND, OR: the last argument is the destination.  With
      three arguments EQ and NE compare a first argument in a register with itself. */
  function ExecBinary(b: Build, op: BinOp, args: seq<Arg>, st: Store): Outcome
    requires st.Valid()
  {
    if |args| < 2 || |args| > 3 || !args[|args| - 1].AReg? then Halt(Error)
    else
      var x := OperandValue(args[0], st.regs);
      var y := if |args| == 3 && (op == Eq || op == Ne) && args[0].AReg? then x else OperandValue(args[1], st.regs);
      Write(args[|args| - 1].bval, Apply(b, op, x, y, st.cfg), st)
  }

  function ExecNeg(args: seq<Arg>, st: Store): Outcome
    requires st.Valid()
  {
    if |args| < 1 || |args| > 2 || !args[|args| - 1].AReg? then Halt(Error)
    else Write(args[|args| - 1].bval, Ok(Bool(!IsTrue(OperandValue(args[0], st.regs), st.cfg))), st)
  }

  function ExecCpy(b: Build, args: seq<Arg>, st: Store): Outcome
    requires st.Valid()
  {
    if |args| != 2 || !args[1].AReg? then Halt(Error)
    else Write(args[1].bval, Ok(if b.cpyTags then OperandValue(args[0], st.regs) else Untyped), st)
  }

  /** JMPIF and JMPIFNOT. */
  function ExecBranch(onTrue: bool, args: seq<Arg>, st: Store): Outcome
    requires st.Valid()
  {
    if |args| != 2 || !args[0].ANum? || !args[1].AReg? then Halt(Error)
    else if IsTrue(st.regs[args[1].bval], st.cfg) == onTrue then Goto(args[0].i32, st)
    else Next(st)
  }

  /** LOAD "name","global",reg. */
  function ExecLoad(args: seq<Arg>, st: Store): Outcome
    requires st.Valid()
  {
    if |args| == 3 && args[0].AStr? && args[1] == AStr("global") && args[2].AReg?
    then Next(Store(st.regs[args[2].bval := Cfg(CellOf(args[0].cval, st.cfg))], Loaded(args[0].cval, st.cfg)))
    else Halt(Unmodelled)
  }

  /** SET reg,reg: the first is copied to the config value the second points to. */
  function ExecSet(b: Build, args: seq<Arg>, st: Store): Outcome
    requires st.Valid()
  {
    if |args| == 2 && args[0].AReg? && args[1].AReg?
    then
      var dst := st.regs[args[1].bval];
      if dst.Cfg? then Next(st.(cfg := Assigned(b, dst.cell, st.regs[args[0].bval], st.cfg)))
      else Halt(Error)
    else Halt(Unmodelled)
  }

  /** The number field of a fetched argument: for a string its length, for a register 0. */
  function JumpField(arg: Arg): int {
    match arg
    case AReg(_) => 0
    case ANum(n) => n
    case AStr(s) => |s|
  }

  /** The switch of `cf_cfg_vm_start`. */
  function Exec(b: Build, cmd: Cmd, st: Store): (o: Outcome)
    requires st.Valid()
    ensures o.Next? || o.Goto? ==> o.store.Valid()
  {
    var op := cmd.instruction;
    if op == ASM_CPY then ExecCpy(b, cmd.args, st)
    else if op == ASM_ADD then ExecBinary(b, Add, cmd.args, st)
    else if op == ASM_SUB then ExecBinary(b, Sub, cmd.args, st)
    else if op == ASM_MUL then ExecBinary(b, Mul, cmd.args, st)
    else if op == ASM_DIV then ExecBinary(b, Div, cmd.args, st)
    else if op == ASM_EQ then ExecBinary(b, Eq, cmd.args, st)
    else if op == ASM_NE then ExecBinary(b, Ne, cmd.args, st)
    else if op == ASM_AND then ExecBinary(b, And, cmd.args, st)
    else if op == ASM_OR then ExecBinary(b, Or, cmd.args, st)
    else if op == ASM_NEG then ExecNeg(cmd.args, st)
    else if op == ASM_JMP then
      if |cmd.args| != 1 then Halt(Error) else Goto(JumpField(cmd.args[0]), st)
    else if op == ASM_JMPIF then ExecBranch(true, cmd.args, st)
    else if op == ASM_JMPIFNOT then ExecBranch(false, cmd.args, st)
    else if op == ASM_LOAD then ExecLoad(cmd.args, st)
    else if op == ASM_SET then ExecSet(b, cmd.args, st)
    else if ASM_LT <= op <= ASM_GTEQ || ASM_ARRAY <= op <= ASM_ARRAYPUSH then Halt(Unmodelled)
    else Next(st)
  }
}
