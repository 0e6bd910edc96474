/** Types shared by the display manager modules: machine integers, identifiers, rotations, points. */
module DmTypes {

  datatype Option<+T> = None | Some(value: T)

  /** The results of registrations: done, an unknown or missing listener, or a remote call that failed. */
  datatype Error = DmOk | NullPointer | IpcFailed

  /** Ids are 64-bit values that the code only compares; the all-ones value stands for "none". */
  type Id = nat
  const INVALID_ID: Id := 0xFFFF_FFFF_FFFF_FFFF

  type Int32 = x: int | -0x8000_0000 <= x < 0x8000_0000
  type UInt32 = x: nat | x < 0x1_0000_0000

  const INT32_MAX: Int32 := 0x7FFF_FFFF
  const INT32_MIN: Int32 := -0x8000_0000

  /** The value a two's complement 32-bit register holds after computing x. */
  function ToInt32(x: int): Int32 {
    var m := x % 0x1_0000_0000;
    if m < 0x8000_0000 then m else m - 0x1_0000_0000
  }

  function ToUInt32(x: int): UInt32 {
    x % 0x1_0000_0000
  }

  datatype Point = Point(x: Int32, y: Int32)

  const ORIGIN := Point(0, 0)

  datatype Rotation = Rotation0 | Rotation90 | Rotation180 | Rotation270

  predicate IsVertical(r: Rotation) {
    r == Rotation0 || r == Rotation180
  }

  /** How the screens of a group are combined; `Other` stands for all other values. */
  datatype Combination = Alone | Expand | Mirror | Other

  /** The active mode of a screen: the unrotated panel size. */
  datatype Mode = Mode(width: UInt32, height: UInt32)
}
