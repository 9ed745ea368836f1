/** The driver object: `Ds3502` owns its I2C bus and its configuration and
    updates both in place. Each method is tied to the step function in
    `Protocol` that specifies it, and also states its traffic outright. */
module Driver {
  import opened Types
  import opened Protocol

  /** An I2C bus offering one primitive, "write these bytes to this
      address". It records every attempted write; the outcome of the n-th
      write it sees is `accepts(n)`, fixed when the bus is made, which stands
      for whatever the hardware does. */
  class I2cBus {
    var log: seq<Transaction>
    const accepts: nat -> bool

    constructor (accepts: nat -> bool)
      ensures log == [] && this.accepts == accepts
    {
      log := [];
      this.accepts := accepts;
    }

    /** `I2c::write` (blocking) and `AsyncI2c::write` with the `await` erased. */
    method Write(addr: u8, bytes: seq<u8>) returns (ok: bool)
      modifies this
      ensures log == old(log) + [Transaction(addr, bytes)]
      ensures ok == accepts(|old(log)|)
    {
      ok := accepts(|log|);
      log := log + [Transaction(addr, bytes)];
    }
  }

  /** Turns the bus's outcome into the driver's result, as `?` after a
      transport call does. */
  function FromBus(ok: bool): (r: Status)
    ensures r == Pass <==> ok
    ensures r.Fail? ==> r.error == I2cError
  {
    if ok then Pass else Fail(I2cError)
  }

  class Ds3502 {
    const i2c: I2cBus
    var config: Config

    /** The driver's configuration and the traffic its bus has seen, as a
        state of the pure model. */
    function State(): DriverState
      reads this, i2c
    {
      DriverState(config, i2c.log)
    }

    /** `Ds3502::new`: stores the bus and the configuration, touches no bus. */
    constructor (i2c: I2cBus, config: Config)
      ensures this.i2c == i2c && this.config == config
    {
      this.i2c := i2c;
      this.config := config;
    }

    /** `mode()`: the cached mode, read without any bus access. */
    function Mode(): (m: ControlRegisterMode)
      reads this
      ensures m == State().config.mode
    {
      config.mode
    }

    /** `blocking_init`: builds the driver and writes the configured mode. */
    static method BlockingInit(i2c: I2cBus, config: Config) returns (r: Result<Ds3502>)
      modifies i2c
      ensures i2c.log == old(i2c.log) + [Transaction(AddrByte(config.i2cAddr), [0x02, ModeByte(config.mode)])]
      ensures r.Ok? <==> i2c.accepts(|old(i2c.log)|)
      ensures r.Err? ==> r.error == I2cError
      ensures r.Ok? ==> fresh(r.value) && r.value.i2c == i2c && r.value.Mode() == config.mode
      ensures r.Ok? ==> r.value.State() == InitStep(Blocking, config, old(i2c.log), i2c.accepts).after
    {
      var pot := new Ds3502(i2c, config);
      var s := pot.SetMode(config.mode);
      if s.Fail? {
        return Err(s.error);
      }
      return Ok(pot);
    }

    /** Blocking `set_mode`: assigns the cached mode, then writes
        `[0x02, mode]`; a failed write leaves the new mode in place. */
    method SetMode(mode: ControlRegisterMode) returns (r: Status)
      modifies this`config, i2c
      ensures config == old(config).(mode := mode)
      ensures i2c.log == old(i2c.log) + [Transaction(AddrByte(config.i2cAddr), [0x02, ModeByte(mode)])]
      ensures r == FromBus(i2c.accepts(|old(i2c.log)|))
      ensures Step(State(), r.Pass?) == SetModeStep(Blocking, old(State()), mode, i2c.accepts)
    {
      config := config.(mode := mode);
      var ok := i2c.Write(AddrByte(config.i2cAddr), [ControlRegister, ModeByte(mode)]);
      r := FromBus(ok);
    }

    /** Blocking `write_and_save_wiper`: mode to `WiperAndInitialValue`, the
        wiper write, mode back to `WiperOnly`, returning at the first failure. */
    method WriteAndSaveWiper(value: Wiper) returns (r: Status)
      modifies this`config, i2c
      ensures r.Fail? ==> r.error == I2cError
      ensures Step(State(), r.Pass?) == WriteAndSaveStep(Blocking, old(State()), value, i2c.accepts)
      ensures var m := |old(i2c.log)|;
              var a := AddrByte(old(config).i2cAddr);
              && (!i2c.accepts(m) ==> r.Fail? && i2c.log == old(i2c.log) + [Transaction(a, [0x02, 0x00])])
              && (i2c.accepts(m) && !i2c.accepts(m + 1) ==>
                    r.Fail? && i2c.log == old(i2c.log) + [Transaction(a, [0x02, 0x00]), Transaction(a, [0x00, value.Inner()])])
              && (i2c.accepts(m) && i2c.accepts(m + 1) ==>
                    r == FromBus(i2c.accepts(m + 2)) &&
                    i2c.log == old(i2c.log) + [Transaction(a, [0x02, 0x00]), Transaction(a, [0x00, value.Inner()]),
                                               Transaction(a, [0x02, 0x80])])
      ensures r.Pass? ==> Mode() == WiperOnly
      ensures Mode() == if i2c.accepts(|old(i2c.log)|) && i2c.accepts(|old(i2c.log)| + 1)
                        then WiperOnly else WiperAndInitialValue
    {
      r := SetMode(WiperAndInitialValue);
      if r.Fail? {
        return;
      }
      r := WriteWiper(value);
      if r.Fail? {
        return;
      }
      r := SetMode(WiperOnly);
    }

    /** Blocking `write_wiper`: writes `[0x00, value]`; the configuration is
        left as it was. */
    method WriteWiper(value: Wiper) returns (r: Status)
      modifies i2c
      ensures i2c.log == old(i2c.log) + [Transaction(AddrByte(config.i2cAddr), [0x00, value.Inner()])]
      ensures r == FromBus(i2c.accepts(|old(i2c.log)|))
      ensures Step(State(), r.Pass?) == WriteWiperStep(old(State()), value, i2c.accepts)
    {
      var ok := i2c.Write(AddrByte(config.i2cAddr), [WiperRegister, value.Inner()]);
      r := FromBus(ok);
    }

    /** `async_init`: the same write as `blocking_init`. */
    static method AsyncInit(i2c: I2cBus, config: Config) returns (r: Result<Ds3502>)
      modifies i2c
      ensures i2c.log == old(i2c.log) + [Transaction(AddrByte(config.i2cAddr), [0x02, ModeByte(config.mode)])]
      ensures r.Ok? <==> i2c.accepts(|old(i2c.log)|)
      ensures r.Err? ==> r.error == I2cError
      ensures r.Ok? ==> fresh(r.value) && r.value.i2c == i2c && r.value.Mode() == config.mode
      ensures r.Ok? ==> r.value.State() == InitStep(Async, config, old(i2c.log), i2c.accepts).after
    {
      var pot := new Ds3502(i2c, config);
      var s := pot.AsyncSetMode(config.mode);
      if s.Fail? {
        return Err(s.error);
      }
      return Ok(pot);
    }

    /** `async_write_wiper`: writes `[0x00, value]`. */
    method AsyncWriteWiper(value: Wiper) returns (r: Status)
      modifies i2c
      ensures i2c.log == old(i2c.log) + [Transaction(AddrByte(config.i2cAddr), [0x00, value.Inner()])]
      ensures r == FromBus(i2c.accepts(|old(i2c.log)|))
      ensures Step(State(), r.Pass?) == WriteWiperStep(old(State()), value, i2c.accepts)
    {
      var ok := i2c.Write(AddrByte(config.i2cAddr), [WiperRegister, value.Inner()]);
      r := FromBus(ok);
    }

    /** `async_write_and_save_wiper`: the same three writes as the blocking
        variant; the cached mode is never changed. */
    method AsyncWriteAndSaveWiper(value: Wiper) returns (r: Status)
      modifies i2c
      ensures r.Fail? ==> r.error == I2cError
      ensures Step(State(), r.Pass?) == WriteAndSaveStep(Async, old(State()), value, i2c.accepts)
      ensures var m := |old(i2c.log)|;
              var a := AddrByte(old(config).i2cAddr);
              && (!i2c.accepts(m) ==> r.Fail? && i2c.log == old(i2c.log) + [Transaction(a, [0x02, 0x00])])
              && (i2c.accepts(m) && !i2c.accepts(m + 1) ==>
                    r.Fail? && i2c.log == old(i2c.log) + [Transaction(a, [0x02, 0x00]), Transaction(a, [0x00, value.Inner()])])
              && (i2c.accepts(m) && i2c.accepts(m + 1) ==>
                    r == FromBus(i2c.accepts(m + 2)) &&
                    i2c.log == old(i2c.log) + [Transaction(a, [0x02, 0x00]), Transaction(a, [0x00, value.Inner()]),
                                               Transaction(a, [0x02, 0x80])])
      ensures Mode() == old(Mode())
    {
      r := AsyncSetMode(WiperAndInitialValue);
      if r.Fail? {
        return;
      }
      r := AsyncWriteWiper(value);
      if r.Fail? {
        return;
      }
      r := AsyncSetMode(WiperOnly);
    }

    /** `async_set_mode`: writes `[0x02, mode]` and, unlike the blocking
        `set_mode`, never assigns the cached mode (its frame excludes it). */
    method AsyncSetMode(mode: ControlRegisterMode) returns (r: Status)
      modifies i2c
      ensures i2c.log == old(i2c.log) + [Transaction(AddrByte(config.i2cAddr), [0x02, ModeByte(mode)])]
      ensures r == FromBus(i2c.accepts(|old(i2c.log)|))
      ensures Step(State(), r.Pass?) == SetModeStep(Async, old(State()), mode, i2c.accepts)
    {
      var ok := i2c.Write(AddrByte(config.i2cAddr), [ControlRegister, ModeByte(mode)]);
      r := FromBus(ok);
    }
  }

  /** The five writes the crate's own test expects from init, `write_wiper(88)`
      and `write_and_save_wiper(23)` with the default configuration. */
  function TestExpectations(): (t: seq<Transaction>)
    ensures |t| == 5
    ensures forall i :: 0 <= i < 5 ==> t[i].addr == 0x28 && Decode(t[i].bytes).Some?
  {
    [ Transaction(0x28, [0x02, 0x80]),
      Transaction(0x28, [0x00, 88]),
      Transaction(0x28, [0x02, 0x00]),
      Transaction(0x28, [0x00, 23]),
      Transaction(0x28, [0x02, 0x80]) ]
  }

  /** `run_blocking` from the crate's test: init with the default
      configuration, `write_wiper(88)`, `write_and_save_wiper(23)`. */
  method RunBlocking(i2c: I2cBus) returns (r: Status)
    modifies i2c
    ensures var t := Session(Blocking, DefaultConfig(), old(i2c.log), [Write(Wiper(88)), WriteAndSave(Wiper(23))], i2c.accepts);
            i2c.log == t.after.log && (r == Pass <==> t.ok)
    ensures (forall n: nat :: i2c.accepts(n)) ==> r == Pass && i2c.log == old(i2c.log) + TestExpectations()
  {
    var init := Ds3502.BlockingInit(i2c, DefaultConfig());
    if init.Err? {
      return Fail(init.error);
    }
    var digipot := init.value;
    // `Wiper::try_from(88)?` and `(23)?` cannot fail: both are at most 127.
    var wv := WiperTryFrom(88).value;
    r := digipot.WriteWiper(wv);
    if r.Fail? {
      return;
    }
    wv := WiperTryFrom(23).value;
    r := digipot.WriteAndSaveWiper(wv);
  }

  /** `run_async` from the crate's test, with every `await` erased. */
  method RunAsync(i2c: I2cBus) returns (r: Status)
    modifies i2c
    ensures var t := Session(Async, DefaultConfig(), old(i2c.log), [Write(Wiper(88)), WriteAndSave(Wiper(23))], i2c.accepts);
            i2c.log == t.after.log && (r == Pass <==> t.ok)
    ensures (forall n: nat :: i2c.accepts(n)) ==> r == Pass && i2c.log == old(i2c.log) + TestExpectations()
  {
    var init := Ds3502.AsyncInit(i2c, DefaultConfig());
    if init.Err? {
      return Fail(init.error);
    }
    var digipot := init.value;
    // `Wiper::try_from(88)?` and `(23)?` cannot fail: both are at most 127.
    var wv := WiperTryFrom(88).value;
    r := digipot.AsyncWriteWiper(wv);
    if r.Fail? {
      return;
    }
    wv := WiperTryFrom(23).value;
    r := digipot.AsyncWriteAndSaveWiper(wv);
  }

  /** `test_both`: on buses that accept every write, both drivers succeed and
      record the same transactions, which are the expected five. */
  method TestBoth() returns (blockingLog: seq<Transaction>, asyncLog: seq<Transaction>, ok: bool)
    ensures ok
    ensures blockingLog == asyncLog == TestExpectations()
  {
    var blockingI2c := new I2cBus((n: nat) => true);
    var asyncI2c := new I2cBus((n: nat) => true);
    var r1 := RunBlocking(blockingI2c);
    var r2 := RunAsync(asyncI2c);
    blockingLog, asyncLog, ok := blockingI2c.log, asyncI2c.log, r1 == Pass && r2 == Pass;
  }
}
