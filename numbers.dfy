/** The few number conversions of Qt's `QString` that the assembler uses:
    `toInt(&ok, base)` and `toUInt(&ok, base)` for bases 2, 10 and 16.
    A conversion that fails answers `None` (Qt's `ok == false`); the forms
    without `ok` answer 0 on failure, as Qt does. Whitespace around the digits
    and Qt's locale-dependent forms are not accepted. */
module Numbers {
  import opened Optional

  datatype Radix = Binary | Decimal | Hex {
    function Base(): nat
    {
      match this
      case Binary => 2
      case Decimal => 10
      case Hex => 16
    }
  }

  /** `QChar::digitValue` on ASCII: the value of a decimal digit, else -1. */
  function DecimalDigit(c: char): (d: int)
    ensures -1 <= d <= 9
  {
    if '0' <= c <= '9' then c as int - '0' as int else -1
  }

  /** The value of `c` as a digit in radix `r`, or -1 if it is not one. */
  function DigitIn(c: char, r: Radix): (d: int)
    ensures -1 <= d < r.Base()
  {
    var d :=
      if '0' <= c <= '9' then c as int - '0' as int
      else if r == Hex && 'a' <= c <= 'f' then c as int - 'a' as int + 10
      else if r == Hex && 'A' <= c <= 'F' then c as int - 'A' as int + 10
      else -1;
    if d < r.Base() then d else -1
  }

  /** Every character of `s` is a digit of radix `r`. */
  predicate AllDigits(s: string, r: Radix)
    decreases |s|
  {
    s == [] || (AllDigits(s[..|s| - 1], r) && DigitIn(s[|s| - 1], r) >= 0)
  }

  /** The value of a digit string in radix `r`, most significant digit first. */
  function DigitsValue(s: string, r: Radix): (v: nat)
    requires AllDigits(s, r)
  {
    if s == [] then 0
    else r.Base() * DigitsValue(s[..|s| - 1], r) + DigitIn(s[|s| - 1], r)
  }

  /** Base 16 accepts an optional "0x" or "0X" prefix. */
  function StripPrefix(s: string, r: Radix): string
  {
    if r == Hex && |s| >= 2 && s[0] == '0' && (s[1] == 'x' || s[1] == 'X') then s[2..] else s
  }

  /** The unsigned magnitude written by `s`, if `s` is a non-empty digit string. */
  function Magnitude(s: string, r: Radix): Option<nat>
  {
    var body := StripPrefix(s, r);
    if body != [] && AllDigits(body, r) then Some(DigitsValue(body, r)) else None
  }

  /** `QString::toUInt(&ok, base)`: digits only, at most 2^32 - 1. */
  function ToUInt(s: string, r: Radix): (res: Option<nat>)
    ensures res.Some? ==> res.value <= 0xFFFF_FFFF
  {
    match Magnitude(s, r)
    case Some(m) => if m <= 0xFFFF_FFFF then Some(m) else None
    case None => None
  }

  /** `QString::toInt(&ok, base)`: an optional sign, then digits; within 32-bit `int`. */
  function ToInt(s: string, r: Radix): (res: Option<int>)
    ensures res.Some? ==> -0x8000_0000 <= res.value <= 0x7FFF_FFFF
  {
    var negative := |s| > 0 && s[0] == '-';
    var rest := if |s| > 0 && (s[0] == '-' || s[0] == '+') then s[1..] else s;
    match Magnitude(rest, r)
    case Some(m) =>
      var v: int := if negative then 0 - m else m;
      if -0x8000_0000 <= v <= 0x7FFF_FFFF then Some(v) else None
    case None => None
  }

  /** `QString::toInt(nullptr, base)`: the value, or 0 when the conversion fails. */
  function ToIntOrZero(s: string, r: Radix): int
  {
    ToInt(s, r).GetOr(0)
  }
}
