/** The DS3502 register protocol and the driver's behaviour as pure
    functions: every bus operation is one 2-byte write to the configured
    address, and each driver operation is a step from one driver state to the
    next under a given oracle of bus outcomes. */
module Protocol {
  import opened Types

  /** Register address of the wiper register (WR). */
  const WiperRegister: u8 := 0x00
  /** Register address of the control register (CR). */
  const ControlRegister: u8 := 0x02

  /** What one bus write asks the device to do. */
  datatype Command = SelectMode(mode: ControlRegisterMode) | SetWiper(wiper: Wiper)

  /** One attempted I2C write: the 7-bit address and the bytes written. */
  datatype Transaction = Transaction(addr: u8, bytes: seq<u8>)

  /** The two bytes the driver writes for a command: register, then payload. */
  function Frame(c: Command): (b: seq<u8>)
    ensures |b| == 2
    ensures Decode(b) == Some(c)
  {
    match c
    case SelectMode(m) => [ControlRegister, ModeByte(m)]
    case SetWiper(w) => [WiperRegister, w.Inner()]
  }

  /** The inverse of `Frame`: the command a 2-byte write is the frame of,
      if any. */
  function Decode(b: seq<u8>): (r: Option<Command>)
  {
    if |b| != 2 then None
    else if b[0] == ControlRegister then
      match ModeFromByte(b[1])
      case Some(m) => Some(SelectMode(m))
      case None => None
    else if b[0] == WiperRegister && b[1] <= 127 then Some(SetWiper(Wiper(b[1])))
    else None
  }

  /** A decoded write is exactly the frame of the command it decodes to. */
  lemma DecodeIsFrame(b: seq<u8>)
    requires Decode(b).Some?
    ensures Frame(Decode(b).value) == b
  {
  }

  /** The two disciplines of the bus transport: blocking and async. */
  datatype Discipline = Blocking | Async

  /** The driver's configuration together with every write the bus has seen. */
  datatype DriverState = DriverState(config: Config, log: seq<Transaction>)

  /** The state after an operation and whether it returned `Ok`. */
  datatype Step = Step(after: DriverState, ok: bool)

  /** The transaction a command becomes when sent to address `a`. */
  function Wire(a: I2cAddr, c: Command): Transaction
  {
    Transaction(AddrByte(a), Frame(c))
  }

  /** One bus write of `c` to the configured address. The write is appended
      to the log whatever its outcome; `accepts(n)` is the outcome of the
      n-th write the bus has seen. */
  function Send(d: DriverState, c: Command, accepts: nat -> bool): Step
  {
    Step(d.(log := d.log + [Wire(d.config.i2cAddr, c)]), accepts(|d.log|))
  }

  /** `set_mode` (blocking: the cached mode is assigned before the write, so
      a failed write still changes it) and `async_set_mode` (the cached mode
      is never assigned). Either way: one write `[0x02, mode]` to the
      configured address, whose outcome is the result. */
  function SetModeStep(disc: Discipline, d: DriverState, mode: ControlRegisterMode, accepts: nat -> bool): (s: Step)
    ensures s.after.log == d.log + [Transaction(AddrByte(d.config.i2cAddr), [0x02, ModeByte(mode)])]
    ensures s.ok == accepts(|d.log|)
    ensures s.after.config == if disc == Blocking then d.config.(mode := mode) else d.config
  {
    var d' := if disc == Blocking then d.(config := d.config.(mode := mode)) else d;
    Send(d', SelectMode(mode), accepts)
  }

  /** `write_wiper` / `async_write_wiper`: one write `[0x00, w]` to the
      configured address; the configuration (address and mode) is left as
      it was, whether the write succeeds or fails. */
  function WriteWiperStep(d: DriverState, w: Wiper, accepts: nat -> bool): (s: Step)
    ensures s.after.log == d.log + [Transaction(AddrByte(d.config.i2cAddr), [0x00, w.Inner()])]
    ensures s.ok == accepts(|d.log|)
    ensures s.after.config == d.config
  {
    Send(d, SetWiper(w), accepts)
  }

  /** `write_and_save_wiper` / `async_write_and_save_wiper`: writes
      `[0x02,0x00]`, `[0x00,w]`, `[0x02,0x80]` in this order and stops at the
      first write that fails, without rolling back. In the blocking driver
      the cached mode is `WiperAndInitialValue` when the first or second
      write fails (it was assigned before the failed write) and `WiperOnly`
      otherwise; the async driver never changes it. */
  function WriteAndSaveStep(disc: Discipline, d: DriverState, w: Wiper, accepts: nat -> bool): (s: Step)
    ensures var m := |d.log|;
            var a := AddrByte(d.config.i2cAddr);
            && (!accepts(m) ==> !s.ok && s.after.log == d.log + [Transaction(a, [0x02, 0x00])])
            && (accepts(m) && !accepts(m + 1) ==>
                  !s.ok && s.after.log == d.log + [Transaction(a, [0x02, 0x00]), Transaction(a, [0x00, w.Inner()])])
            && (accepts(m) && accepts(m + 1) ==>
                  s.ok == accepts(m + 2) &&
                  s.after.log == d.log + [Transaction(a, [0x02, 0x00]), Transaction(a, [0x00, w.Inner()]),
                                          Transaction(a, [0x02, 0x80])])
    ensures s.after.config.i2cAddr == d.config.i2cAddr
    ensures s.after.config.mode
            == (if disc == Async then d.config.mode
                else if accepts(|d.log|) && accepts(|d.log| + 1) then WiperOnly
                else WiperAndInitialValue)
  {
    var s1 := SetModeStep(disc, d, WiperAndInitialValue, accepts);
    if !s1.ok then s1
    else
      var s2 := WriteWiperStep(s1.after, w, accepts);
      if !s2.ok then s2
      else SetModeStep(disc, s2.after, WiperOnly, accepts)
  }

  /** `blocking_init` / `async_init` on a bus that has already seen `log`:
      one write `[0x02, config.mode]` to the configured address; the driver
      state carries exactly the given configuration, in both disciplines. */
  function InitStep(disc: Discipline, config: Config, log: seq<Transaction>, accepts: nat -> bool): (s: Step)
    ensures s.after.log == log + [Transaction(AddrByte(config.i2cAddr), [0x02, ModeByte(config.mode)])]
    ensures s.ok == accepts(|log|)
    ensures s.after.config == config
  {
    SetModeStep(disc, DriverState(config, log), config.mode, accepts)
  }

  /** The public operations on an initialised driver. */
  datatype Op = Write(wiper: Wiper) | WriteAndSave(wiper: Wiper)

  function OpStep(disc: Discipline, d: DriverState, op: Op, accepts: nat -> bool): Step
  {
    match op
    case Write(w) => WriteWiperStep(d, w, accepts)
    case WriteAndSave(w) => WriteAndSaveStep(disc, d, w, accepts)
  }

  /** Runs `ops` in order, returning at the first failing one (as `?` does).
      The bus log only grows (nothing is rolled back), by at most three writes
      per operation, and the address never changes. */
  function Run(disc: Discipline, d: DriverState, ops: seq<Op>, accepts: nat -> bool): (r: Step)
    ensures d.log <= r.after.log
    ensures |r.after.log| <= |d.log| + 3 * |ops|
    ensures r.after.config.i2cAddr == d.config.i2cAddr
    decreases |ops|
  {
    if ops == [] then Step(d, true)
    else
      var s := OpStep(disc, d, ops[0], accepts);
      if !s.ok then s else Run(disc, s.after, ops[1..], accepts)
  }

  /** Initialisation followed by `ops`, as an application drives the driver:
      the first write is always the configured mode, the log only grows and
      the address never changes. */
  function Session(disc: Discipline, config: Config, log: seq<Transaction>, ops: seq<Op>, accepts: nat -> bool): (r: Step)
    ensures log + [Transaction(AddrByte(config.i2cAddr), [0x02, ModeByte(config.mode)])] <= r.after.log
    ensures r.after.config.i2cAddr == config.i2cAddr
    ensures !accepts(|log|) ==> !r.ok && |r.after.log| == |log| + 1
  {
    var s := InitStep(disc, config, log, accepts);
    if !s.ok then s else Run(disc, s.after, ops, accepts)
  }

  /** Reference definition: the writes an operation issues when every one of
      them succeeds. */
  function OpTransactions(a: I2cAddr, op: Op): seq<Transaction>
  {
    match op
    case Write(w) => [Wire(a, SetWiper(w))]
    case WriteAndSave(w) =>
      [Wire(a, SelectMode(WiperAndInitialValue)), Wire(a, SetWiper(w)), Wire(a, SelectMode(WiperOnly))]
  }

  /** Reference definition: the writes a run of `ops` issues when every one
      of them succeeds. */
  function Transactions(a: I2cAddr, ops: seq<Op>): seq<Transaction>
    decreases |ops|
  {
    if ops == [] then [] else OpTransactions(a, ops[0]) + Transactions(a, ops[1..])
  }

  /** Whether the `n` writes starting at write number `m` all succeed. */
  predicate AllAccepted(accepts: nat -> bool, m: nat, n: nat)
    decreases n
  {
    n == 0 || (accepts(m) && AllAccepted(accepts, m + 1, n - 1))
  }

  /** How many of `n` planned writes starting at number `m` are attempted
      when the sequence stops at its first failure (the failing write is
      attempted, none after it). */
  function Issued(accepts: nat -> bool, m: nat, n: nat): (k: nat)
    ensures k <= n
    decreases n
  {
    if n == 0 then 0
    else if !accepts(m) then 1
    else 1 + Issued(accepts, m + 1, n - 1)
  }

  /** Whether an operation mentions write-and-save. */
  predicate SavesAny(ops: seq<Op>)
  {
    exists i :: 0 <= i < |ops| && ops[i].WriteAndSave?
  }
}
