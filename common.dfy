/** Values shared by the account and the feedback models. */
module Common {

  /** A value that may be missing: C#'s nullable references and `int?`. */
  datatype Option<+T> = None | Some(value: T)

  /** A `System.Guid`: a 128-bit value. Fresh ones are supplied by the caller. */
  newtype Guid = g: int | 0 <= g < 0x1_0000_0000_0000_0000_0000_0000_0000_0000

  const Int32Min: int := -0x8000_0000
  const Int32Max: int := 0x7FFF_FFFF

  /** A C# `int`. */
  type Int32 = x: int | Int32Min <= x <= Int32Max

  /** The value an unchecked 32-bit C# `int` operation yields for the mathematical result `x`. */
  function Wrap32(x: int): (r: Int32)
    ensures (r - x) % 0x1_0000_0000 == 0
    ensures Int32Min <= x <= Int32Max ==> r == x
  {
    (x - Int32Min) % 0x1_0000_0000 + Int32Min
  }

  /** Instants, in whole seconds of UTC time. */
  type Time = int

  const Minute: int := 60
  const Hour: int := 60 * Minute
  const Day: int := 24 * Hour
}
