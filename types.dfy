/** Value types of the DS3502 driver: bus addresses, the control-register
    mode, the configuration, the error taxonomy and the validated wiper
    position. */
module Types {

  /** An unsigned 8-bit value, as Rust's `u8`. */
  newtype u8 = x: int | 0 <= x < 256

  /** The four I2C addresses selectable through the A1/A0 pins. */
  datatype I2cAddr = Default | Address0 | Address1 | Address01

  /** The `I2cAddr as u8` cast of the `#[repr(u8)]` enum. */
  function AddrByte(a: I2cAddr): (b: u8)
    ensures 0x28 <= b <= 0x2b
    ensures AddrFromByte(b) == Some(a)
  {
    match a
    case Default => 0x28
    case Address0 => 0x29
    case Address1 => 0x2a
    case Address01 => 0x2b
  }

  /** The address whose byte is `b`, if any: the inverse of `AddrByte`. */
  function AddrFromByte(b: u8): (r: Option<I2cAddr>)
    ensures r.Some? <==> 0x28 <= b <= 0x2b
  {
    if b == 0x28 then Some(Default)
    else if b == 0x29 then Some(Address0)
    else if b == 0x2a then Some(Address1)
    else if b == 0x2b then Some(Address01)
    else None
  }

  /** Whether writes to the wiper register are also stored in the
      initial-value register (EEPROM). */
  datatype ControlRegisterMode = WiperAndInitialValue | WiperOnly

  /** The `ControlRegisterMode as u8` cast. */
  function ModeByte(m: ControlRegisterMode): (b: u8)
    ensures b == 0x00 || b == 0x80
    ensures ModeFromByte(b) == Some(m)
  {
    match m
    case WiperAndInitialValue => 0x00
    case WiperOnly => 0x80
  }

  /** The mode whose byte is `b`, if any: the inverse of `ModeByte`. */
  function ModeFromByte(b: u8): (r: Option<ControlRegisterMode>)
    ensures r.Some? <==> (b == 0x00 || b == 0x80)
  {
    if b == 0x00 then Some(WiperAndInitialValue)
    else if b == 0x80 then Some(WiperOnly)
    else None
  }

  datatype Config = Config(i2cAddr: I2cAddr, mode: ControlRegisterMode)

  /** `Config::default()`: the default address and EEPROM saves disabled. */
  function DefaultConfig(): (c: Config)
    ensures AddrByte(c.i2cAddr) == 0x28
    ensures ModeByte(c.mode) == 0x80
  {
    Config(Default, WiperOnly)
  }

  /** The driver's errors; the transport's own error kind is kept opaque. */
  datatype Ds3502Error = InvalidWiperValue | I2cError

  datatype Option<+T> = None | Some(value: T)

  /** A fallible result carrying a value, as Rust's `Result<T, Ds3502Error>`. */
  datatype Result<+T> = Ok(value: T) | Err(error: Ds3502Error)

  /** A fallible result carrying nothing, as Rust's `Result<(), Ds3502Error>`. */
  datatype Status = Pass | Fail(error: Ds3502Error)

  /** A wiper position: one of the 128 taps. */
  type WiperPos = x: u8 | x <= 127

  /** The validated wiper value; its field can only hold a position in range. */
  datatype Wiper = Wiper(raw: WiperPos) {
    /** `Wiper::inner`. */
    function Inner(): (v: u8)
      ensures v <= 127
    {
      raw
    }
  }

  /** `Wiper::try_from`: accepts 0..=127, rejects anything larger without
      clamping it. */
  function WiperTryFrom(value: u8): (r: Result<Wiper>)
    ensures r.Ok? <==> value <= 127
    ensures r.Ok? ==> r.value.Inner() == value
    ensures r.Err? ==> r.error == InvalidWiperValue
  {
    if value > 127 then Err(InvalidWiperValue) else Ok(Wiper(value))
  }

  /** Every wiper value is rebuilt unchanged from its inner position. */
  lemma WiperRoundTrip(w: Wiper)
    ensures WiperTryFrom(w.Inner()) == Ok(w)
  {
  }
}
