# DS3502 digital-potentiometer driver, modelled in Dafny

This project models the Rust driver for the DS3502 I2C digital potentiometer
(`src/lib.rs`). The driver keeps a configuration: a bus address and a
control-register mode. Its public operations are `init`, `write_wiper`
("set the wiper") and `write_and_save_wiper` ("set the wiper and save it to
EEPROM"), each in a blocking form and an async form, and `mode()`, which
reads the cached mode. Every bus access is a 2-byte I2C write. The private
`set_mode` / `async_set_mode` performs the control-register write that
`init` and `write_and_save_wiper` use.

Files:

- `types.dfy` (module `Types`): `u8`, the four `I2cAddr` values, the two
  `ControlRegisterMode` values and their byte encodings, `Config` and its
  default, the error type `Ds3502Error`, the fallible results, and the
  validated `Wiper` with `Wiper::try_from` and `inner`.
- `protocol.dfy` (module `Protocol`): the register framing, and the driver's
  behaviour as pure step functions. A step maps a driver state (the
  configuration plus the bus log) and an oracle of bus outcomes to the next
  state and an ok flag. There is one step function per operation, each taking
  a discipline (`Blocking` or `Async`). Each step function's postcondition
  states the writes it appends, its outcome and its new configuration. `Run`
  and `Session` chain the steps the way `?` does in an application.
- `driver.dfy` (module `Driver`): the imperative model. `I2cBus` is a
  recording bus. `Ds3502` is a class with the fields `i2c` and `config`, and
  one method per driver function. Each method's postcondition ties its new
  state to the step function and also states its bus traffic directly. The
  file also models the crate's test `test_both` (`RunBlocking`, `RunAsync`,
  `TestBoth`).
- `properties.dfy` (module `Properties`): lemmas about the step functions.
  They cover the exact traffic of any sequence of operations, including where
  a failure cuts it short. They also show that the blocking and async drivers
  put the same bytes on the bus, and what each discipline does to the cached
  mode.

How the bus is modelled. The transport is a class that records every
attempted write, whether it succeeds or fails, as `Transaction(addr, bytes)`.
The outcome of the n-th write the bus sees is `accepts(n)`, where `accepts` is
a function fixed when the bus is made. So every pattern of bus failures is
covered. A failed write is still recorded as attempted. The `await` points
of the async variants are erased: each async write is the same sequential
write.

Two details of the code are modelled exactly as written:

- Blocking `set_mode` assigns `config.mode` before the write
  (src/lib.rs:272-274). A failed mode write therefore still changes `mode()`.
  After `write_and_save_wiper` fails at its first or second write, `mode()` is
  `WiperAndInitialValue` (`Protocol.WriteAndSaveStep`).
- `async_set_mode` never assigns `config.mode` (src/lib.rs:342-347).
  The async driver's `mode()` therefore always stays at the mode given to
  `async_init` (`Properties.AsyncSessionMode`). The bytes it writes are still
  the same as the blocking driver's (`Properties.SessionSameTraffic`).

## Model

| member | source | states |
|---|---|---|
| `Types.AddrByte` | src/lib.rs:82-91 | every address encodes to a byte in 0x28..0x2b (Default 0x28, Address0 0x29, Address1 0x2a, Address01 0x2b), and decoding that byte gives the address back |
| `Types.AddrFromByte` | src/lib.rs:82-91 | a byte is an address exactly when it lies in 0x28..0x2b |
| `Types.ModeByte` | src/lib.rs:205-210 | a mode encodes to 0x00 (`WiperAndInitialValue`) or 0x80 (`WiperOnly`), and decoding the byte gives the mode back |
| `Types.ModeFromByte` | src/lib.rs:205-210 | a byte is a mode exactly when it is 0x00 or 0x80 |
| `Types.DefaultConfig` | src/lib.rs:113-120 | `Config::default()` has address byte 0x28 and mode byte 0x80 (`WiperOnly`) |
| `Types.Wiper.Inner` | src/lib.rs:179-181 | the inner position of any wiper value is at most 127 |
| `Types.WiperTryFrom` | src/lib.rs:193-199 | `try_from(v)` succeeds exactly when v <= 127, and then `inner()` is v. For v > 127 it returns `InvalidWiperValue`, never a clamped value. It is a function, so it touches no bus |
| `Types.WiperRoundTrip` | src/lib.rs:193-199 | any wiper is rebuilt unchanged by `try_from(w.inner())` |
| `Protocol.Frame` | src/lib.rs:271-297 | every command is framed as exactly 2 bytes (register, then payload), and `Decode`, the inverse of `Frame`, maps those bytes back to the same command |
| `Protocol.DecodeIsFrame` | src/lib.rs:271-297 | any 2 bytes that `Decode` maps to a command are exactly the frame of that command |
| `Protocol.SetModeStep` | src/lib.rs:271-276 | set-mode appends exactly `(addr, [0x02, mode])` and its result is that write's outcome. Blocking: the cached mode becomes `mode` even when the write fails. Async (`async_set_mode`, src/lib.rs:342-347): the configuration is unchanged |
| `Protocol.WriteWiperStep` | src/lib.rs:293-297 | `write_wiper(w)` (and `async_write_wiper`, src/lib.rs:317-322) appends exactly `(addr, [0x00, w])`, its result is that write's outcome, and the address and mode are unchanged whether it succeeds or fails |
| `Protocol.WriteAndSaveStep` | src/lib.rs:282-287 | `write_and_save_wiper(w)` (and the async variant, src/lib.rs:328-334) writes `[0x02,0x00]`, `[0x00,w]`, `[0x02,0x80]` in order and stops at the first failing write: 1, 2 or 3 new entries, no roll-back, and success exactly when all three succeed. The address is unchanged. The blocking mode ends as `WiperOnly` when the first two writes succeed and as `WiperAndInitialValue` otherwise; the async mode is unchanged |
| `Protocol.InitStep` | src/lib.rs:257-261 | `blocking_init` (and `async_init`, src/lib.rs:307-311) appends exactly `(config.i2c_addr, [0x02, config.mode])`, its result is that write's outcome, and the driver's configuration is exactly `config` |
| `Protocol.Run` | src/lib.rs:361-377 | operations chained with `?` only append to the bus log (nothing is rolled back), at most three writes per operation, and never change the address |
| `Protocol.Session` | src/lib.rs:361-377 | init followed by operations: the first new write is always the configured mode to the configured address, and if it fails the session stops there with an error and exactly one new write. The address never changes |
| `Properties.OpTraffic` | src/lib.rs:282-297 | any public operation attempts a prefix of its planned writes, cut just after the first failure, and succeeds exactly when all planned writes succeed. The address never changes |
| `Properties.RunOutcome` | src/lib.rs:361-377 | a sequence of operations stopped by `?` succeeds exactly when every planned write succeeds, in both disciplines |
| `Properties.RunLog` | src/lib.rs:361-377 | a sequence of operations stopped by `?` attempts exactly the planned writes up to and including the first failing one, in both disciplines |
| `Properties.RunTraffic` | src/lib.rs:361-377 | a sequence of operations stopped by `?` attempts exactly the planned writes up to and including the first failure, and succeeds exactly when all of them succeed; this holds for both disciplines |
| `Properties.RunAllAccepted` | src/lib.rs:361-377 | on a bus that accepts every write, a sequence of operations succeeds and issues exactly the planned writes |
| `Properties.TransactionsFramed` | src/lib.rs:271-297 | every planned write goes to the configured address as a 2-byte frame the device decodes |
| `Properties.RunFramed` | src/lib.rs:271-297 | every write a run actually attempts is a 2-byte frame to the configured address |
| `Properties.SameTraffic` | src/lib.rs:300-347 | with the same bus history and address, the blocking and async drivers attempt the same writes and report the same outcome for any operations, whatever their cached modes |
| `Properties.InitSame` | src/lib.rs:257-261 | `blocking_init` and `async_init` reach the same state, whose configuration is the given one |
| `Properties.SessionSameTraffic` | src/lib.rs:379-402 | init followed by any operations gives byte-identical bus traffic and the same outcome in both disciplines, for every pattern of bus failures |
| `Properties.AsyncKeepsConfig` | src/lib.rs:342-347 | no sequence of async operations changes the driver's configuration |
| `Properties.AsyncSessionMode` | src/lib.rs:307-347 | the async driver's `mode()` always equals the mode given to `async_init` |
| `Properties.BlockingModeAfterRun` | src/lib.rs:271-287 | after a successful blocking sequence, `mode()` is `WiperOnly` if some operation was a write-and-save, and the initial mode otherwise |
| `Driver.I2cBus.Write` | src/lib.rs:273-274 | the transport records the attempted write and returns the oracle's outcome for that write |
| `Driver.FromBus` | src/lib.rs:151-158 | a failed bus write becomes `I2cError` and a successful one becomes `Pass` |
| `Driver.Ds3502.constructor` | src/lib.rs:240-242 | `new` stores the bus and the configuration without any bus access |
| `Driver.Ds3502.Mode` | src/lib.rs:245-247 | `mode()` is the cached mode; it reads only the driver, not the bus |
| `Driver.Ds3502.BlockingInit` | src/lib.rs:257-261 | appends exactly `(config.i2c_addr, [0x02, config.mode])`. On success it returns a fresh driver on that bus with `mode() == config.mode`. On failure it returns `I2cError` and no driver |
| `Driver.Ds3502.SetMode` | src/lib.rs:271-276 | the mode is assigned, then `[0x02, mode]` is written to the configured address. The new mode stays even when the write fails |
| `Driver.Ds3502.WriteWiper` | src/lib.rs:293-297 | appends exactly `(addr, [0x00, w])`. Its frame excludes `config`, so the address and mode are unchanged |
| `Driver.Ds3502.WriteAndSaveWiper` | src/lib.rs:282-287 | matches the blocking write-and-save step and states its traffic outright: a failing first write leaves one new entry, a failing second write two, otherwise all three, with the result that of the third. On success `mode() == WiperOnly`; if the first or second write fails, `mode() == WiperAndInitialValue` |
| `Driver.Ds3502.AsyncInit` | src/lib.rs:307-311 | the same single write and result as `BlockingInit` |
| `Driver.Ds3502.AsyncWriteWiper` | src/lib.rs:317-322 | appends exactly `(addr, [0x00, w])`, configuration unchanged |
| `Driver.Ds3502.AsyncWriteAndSaveWiper` | src/lib.rs:328-334 | matches the async write-and-save step and states the same three-case traffic as the blocking method; `mode()` is unchanged |
| `Driver.Ds3502.AsyncSetMode` | src/lib.rs:342-347 | appends exactly `(addr, [0x02, mode])`. Its frame excludes `config`, so the cached mode is never assigned |
| `Driver.TestExpectations` | src/lib.rs:381-392 | the five expected transactions all go to 0x28 and are valid frames |
| `Driver.RunBlocking` | src/lib.rs:361-368 | on any bus, `run_blocking` appends exactly the writes of the blocking `Session` of init, `write_wiper(88)`, `write_and_save_wiper(23)` and returns its outcome; on a bus that accepts every write it succeeds and appends exactly the five expected transactions |
| `Driver.RunAsync` | src/lib.rs:370-377 | on any bus, `run_async` appends exactly the writes of the async `Session` of the same operations and returns its outcome; on a bus that accepts every write it succeeds and appends exactly the five expected transactions |
| `Driver.TestBoth` | src/lib.rs:379-406 | both runs succeed, and the blocking and async logs are equal to each other and to the expected transactions |

## Left out

- The demonstration program `examples/pico-example/src/main.rs` (hardware bring-up, ADC reads, floating-point voltage arithmetic, timers) is not part of this model.
- The async/await machinery and the `embedded_hal` / `embedded_hal_async` traits: each async bus write is modelled as the same sequential write as the blocking one. Timing, suspension and cancellation are not modelled.
- The transport's error detail (`ErrorKind`, `I2cErrorKind`, the generic `From<E: I2cError>` conversion) is one opaque `I2cError` variant. `Display`/`thiserror` messages and the `Debug`/`Clone`/`Hash` derives are not modelled.
- `AsRef<u8>` for `Wiper` returns the same byte as `inner()` and is not modelled separately.
- The bus hardware itself: whether a write succeeds is the oracle `accepts`, fixed when the bus is made. No reads are issued by the driver, so none are modelled.
- Ownership: Rust moves the bus into the driver and drops both when `blocking_init` fails. Here the bus object survives, so its log can be inspected.
