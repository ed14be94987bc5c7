/** The front panel's indicators and what can be asked of one. */
module Indicators {
  import opened Bytes

  datatype Indicator =
    | BtnModeCc | BtnModeCv | BtnModeCw | BtnModeExt | BtnLoadOn
    | Status | Trigger | Overheat | Overcurrent | Error | BtnMenu

  /** The 32-bit code of an indicator in configuration data; codes are truncated to 32 bits. */
  function FromCode(code: nat): Option<Indicator> {
    var c := code % 0x1_0000_0000;
    if c == 1 then Some(BtnModeCc)
    else if c == 2 then Some(BtnModeCv)
    else if c == 3 then Some(BtnModeCw)
    else if c == 4 then Some(BtnModeExt)
    else if c == 5 then Some(BtnLoadOn)
    else if c == 6 then Some(Status)
    else if c == 7 then Some(Trigger)
    else if c == 8 then Some(Overheat)
    else if c == 9 then Some(Overcurrent)
    else if c == 10 then Some(Error)
    else if c == 11 then Some(BtnMenu)
    else None
  }

  /** The codes, one by one; no other code is valid. */
  lemma Codes(code: nat)
    ensures var c := code % 4_294_967_296;
            FromCode(code) ==
            match c
            case 1 => Some(BtnModeCc)
            case 2 => Some(BtnModeCv)
            case 3 => Some(BtnModeCw)
            case 4 => Some(BtnModeExt)
            case 5 => Some(BtnLoadOn)
            case 6 => Some(Status)
            case 7 => Some(Trigger)
            case 8 => Some(Overheat)
            case 9 => Some(Overcurrent)
            case 10 => Some(Error)
            case 11 => Some(BtnMenu)
            case _ => None
  {}

  function Clamp(x: real): (r: real)
    ensures 0.0 <= r <= 1.0
  {
    if x < 0.0 then 0.0 else if x > 1.0 then 1.0 else x
  }

  /** One brightness for every channel, or one level per colour component. */
  datatype Update =
    | Brightness(level: real)
    | Color(red: real, green: real, blue: real)

  /** The level meant for the k-th channel of an indicator. */
  function Level(u: Update, k: nat): real {
    match u
    case Brightness(level) => level
    case Color(r, g, b) => if k == 0 then r else if k == 1 then g else b
  }
}
