/**
 * A model of MGS.MouseManager: the decoding of 3-byte PS/2 movement reports
 * (the layout that a Linux mouse device node delivers) into button state and a
 * cursor position, and the clamping of that position to a configurable screen
 * area.
 *
 * The C# class is static; here its static fields are the fields of one
 * `MouseManager` object. The read from the device stream is not performed by
 * the model: its outcome is a parameter of `GetMousePos`.
 */
module MGS {

  /** Length of one device report, and of the manager's read buffer. */
  const REPORT_LENGTH := 3

  /** 2^32: a C# `uint` holds the values 0 .. UINT_MODULUS - 1. */
  const UINT_MODULUS := 0x1_0000_0000

  /** `uint.MaxValue`. */
  const UINT_MAX := 0xFFFF_FFFF

  /** C# `uint`. */
  type UInt = v: int | 0 <= v < 0x1_0000_0000

  /** C# `int`. */
  type Int32 = v: int | -0x8000_0000 <= v < 0x8000_0000

  /** C# `byte`. */
  type Byte = b: int | 0 <= b < 0x100

  /** The button state of the mouse; the source enum uses one flag bit per button. */
  datatype MouseState = None | Left | Right | Middle | FourthButton | FifthButton
  {
    /** The enum's underlying value. */
    function Flag(): nat
    {
      match this
      case None => 0
      case Left => 1
      case Right => 2
      case Middle => 4
      case FourthButton => 8
      case FifthButton => 16
    }
  }

  function Max(a: int, b: int): int { if a < b then b else a }

  function Min(a: int, b: int): int { if a < b then a else b }

  // ---------------------------------------------------------------------------
  // Decoding one report
  // ---------------------------------------------------------------------------

  /**
   * The button state of a report's status byte. Bit 0 is the left button,
   * bit 1 the right one, bit 2 the middle one; when several are pressed the
   * lowest bit wins, so the result is a single value and never a combination.
   * Bits 3 to 7 play no part, and the fourth and fifth buttons are never
   * reported.
   */
  function DecodeButtons(status: Byte): (state: MouseState)
    ensures state == Left <==> status % 2 == 1
    ensures state == Right <==> status % 4 == 2
    ensures state == Middle <==> status % 8 == 4
    ensures state == None <==> status % 8 == 0
    ensures state != FourthButton && state != FifthButton
    ensures state != None ==> (status / state.Flag()) % 2 == 1
  {
    var bits := status as bv8;
    StatusBits(status);
    if bits & 0x1 != 0 then Left
    else if bits & 0x2 != 0 then Right
    else if bits & 0x4 != 0 then Middle
    else None
  }

  /** What the masks 0x1, 0x2 and 0x4 of the status byte test, in arithmetic terms. */
  lemma StatusBits(status: Byte)
    ensures (status as bv8) & 0x1 != 0 <==> status % 2 == 1
    ensures (status as bv8) & 0x1 == 0 && (status as bv8) & 0x2 != 0 <==> status % 4 == 2
    ensures (status as bv8) & 0x3 == 0 && (status as bv8) & 0x4 != 0 <==> status % 8 == 4
    ensures (status as bv8) & 0x7 == 0 <==> status % 8 == 0
  {
  }

  /**
   * A motion byte read as a two's-complement signed byte: the one value in
   * -128 .. 127 that agrees with the byte modulo 256.
   */
  function SignedByte(b: Byte): (motion: int)
    ensures -128 <= motion <= 127
    ensures (motion - b) % 256 == 0
    ensures motion < 0 <==> b > 127
  {
    if b > 127 then b - 256 else b
  }

  /** C#'s unchecked `(uint)` conversion of a 64-bit value: it keeps the low 32 bits. */
  function ToUInt(v: int): (r: UInt)
    ensures (r - v) % UINT_MODULUS == 0
    ensures 0 <= v < UINT_MODULUS ==> r == v
  {
    v % UINT_MODULUS
  }

  /**
   * Where one coordinate lands after a poll, given the 64-bit sum `target` of
   * the old coordinate and the motion: `(uint)Math.Max(0, target)`, then lowered
   * to `bound` itself (not `bound - 1`) when it lies past it. A negative target
   * saturates at 0; a target past `uint.MaxValue` wraps before it is clamped.
   */
  function PollAxis(target: int, bound: UInt): (r: UInt)
    ensures r <= bound
    ensures target <= 0 ==> r == 0
    ensures 0 <= target < UINT_MODULUS ==> r == Min(target, bound)
    ensures UINT_MODULUS <= target < 2 * UINT_MODULUS ==> r == Min(target - UINT_MODULUS, bound)
  {
    var moved := ToUInt(Max(0, target));
    if moved > bound then bound else moved
  }

  /**
   * The setters' clamp: a coordinate at or past a new `bound` becomes
   * `bound - 1`, computed in unchecked `uint` arithmetic, so a bound of 0
   * sends it to `uint.MaxValue`.
   */
  function ClampToBound(pos: UInt, bound: UInt): (r: UInt)
    ensures pos < bound ==> r == pos
    ensures bound <= pos && 0 < bound ==> r == bound - 1
    ensures bound <= pos && bound == 0 ==> r == UINT_MAX
    ensures r < bound || (bound == 0 && r == UINT_MAX)
  {
    if pos >= bound then ToUInt(bound - 1) else pos
  }

  // ---------------------------------------------------------------------------
  // The manager's state as a value, and what each operation does to it
  // ---------------------------------------------------------------------------

  /**
   * The manager's observable state. `streamOpen` records whether start-up got
   * a device stream; without one every read throws.
   */
  datatype Cursor = Cursor(
    mouseState: MouseState,
    lastMouseState: MouseState,
    x: UInt,
    y: UInt,
    screenWidth: UInt,
    screenHeight: UInt,
    scrollDelta: Int32,
    streamOpen: bool)

  /** The outcome of one read from the device stream: the bytes it delivered, or a fault. */
  datatype ReadOutcome = Delivered(bytes: seq<Byte>) | Faulted

  /** The state right after start-up: every field at its default, whether or not a stream was opened. */
  function Initial(streamOpen: bool): (c: Cursor)
  {
    Cursor(None, None, 0, 0, 0, 0, 0, streamOpen)
  }

  /** A poll gets a whole report: the stream exists, the read did not fault and filled the buffer. */
  predicate FullReport(c: Cursor, read: ReadOutcome)
  {
    c.streamOpen && read.Delivered? && |read.bytes| == REPORT_LENGTH
  }

  /**
   * One poll. A whole report sets the button state from byte 0 and moves the
   * cursor by the signed bytes 1 and 2; device Y grows upward and screen Y
   * downward, so the Y motion is subtracted. Anything else changes nothing.
   */
  function Poll(c: Cursor, read: ReadOutcome): (r: Cursor)
    ensures !FullReport(c, read) ==> r == c
    ensures FullReport(c, read) ==> r.mouseState == DecodeButtons(read.bytes[0])
    ensures FullReport(c, read) ==> r.x <= r.screenWidth && r.y <= r.screenHeight
    ensures r.(mouseState := c.mouseState, x := c.x, y := c.y) == c
  {
    if FullReport(c, read) then
      var xMovement := SignedByte(read.bytes[1]);
      var yMovement := SignedByte(read.bytes[2]);
      c.(mouseState := DecodeButtons(read.bytes[0]),
         x := PollAxis(c.x + xMovement, c.screenWidth),
         y := PollAxis(c.y - yMovement, c.screenHeight))
    else
      c
  }

  /** Setting the screen width: stores it and pulls X back inside it; nothing else changes. */
  function SetWidth(c: Cursor, width: UInt): (r: Cursor)
    ensures r.screenWidth == width
    ensures r.x < width || (width == 0 && r.x == UINT_MAX)
    ensures c.x < width ==> r.x == c.x
    ensures r.(x := c.x, screenWidth := c.screenWidth) == c
  {
    c.(screenWidth := width, x := ClampToBound(c.x, width))
  }

  /** Setting the screen height: stores it and pulls Y back inside it; nothing else changes. */
  function SetHeight(c: Cursor, height: UInt): (r: Cursor)
    ensures r.screenHeight == height
    ensures r.y < height || (height == 0 && r.y == UINT_MAX)
    ensures c.y < height ==> r.y == c.y
    ensures r.(y := c.y, screenHeight := c.screenHeight) == c
  {
    c.(screenHeight := height, y := ClampToBound(c.y, height))
  }

  /** Resetting the scroll delta: it becomes 0 and nothing else changes. */
  function ResetScroll(c: Cursor): (r: Cursor)
    ensures r.scrollDelta == 0
    ensures r.(scrollDelta := c.scrollDelta) == c
  {
    c.(scrollDelta := 0)
  }

  // ---------------------------------------------------------------------------
  // Sequences of operations
  // ---------------------------------------------------------------------------

  /**
   * The manager's operations that change state, one per method of
   * `MouseManager`: `PollOp` stands for `GetMousePos`, `WidthOp` for
   * `SetScreenWidth`, `HeightOp` for `SetScreenHeight` and `ResetOp` for
   * `ResetScrollDelta`.
   */
  datatype Operation =
    | PollOp(read: ReadOutcome)
    | WidthOp(width: UInt)
    | HeightOp(height: UInt)
    | ResetOp

  function Step(c: Cursor, op: Operation): Cursor
  {
    match op
    case PollOp(read) => Poll(c, read)
    case WidthOp(width) => SetWidth(c, width)
    case HeightOp(height) => SetHeight(c, height)
    case ResetOp => ResetScroll(c)
  }

  /** The state after performing `ops` in order, starting from `c`. */
  function Run(c: Cursor, ops: seq<Operation>): Cursor
    decreases |ops|
  {
    if ops == [] then c else Run(Step(c, ops[0]), ops[1..])
  }

  /**
   * Where the manager's own operations keep the cursor: each coordinate is at
   * most its bound (a poll may leave it ON the bound), except that a bound of 0
   * set through the setter parks the coordinate at `uint.MaxValue`.
   */
  predicate InReach(c: Cursor)
  {
    (c.x <= c.screenWidth || (c.screenWidth == 0 && c.x == UINT_MAX)) &&
    (c.y <= c.screenHeight || (c.screenHeight == 0 && c.y == UINT_MAX))
  }

  /** No sequence of the manager's operations leads out of `InReach`. */
  lemma {:induction false} RunStaysInReach(c: Cursor, ops: seq<Operation>)
    requires InReach(c)
    ensures InReach(Run(c, ops))
    decreases |ops|
  {
    if ops != [] {
      var next := Step(c, ops[0]);
      assert InReach(next);
      RunStaysInReach(next, ops[1..]);
    }
  }

  /** Every state reachable from start-up is in reach of the bounds. */
  lemma ReachableIsInReach(streamOpen: bool, ops: seq<Operation>)
    ensures InReach(Run(Initial(streamOpen), ops))
  {
    RunStaysInReach(Initial(streamOpen), ops);
  }

  /** Polls that get no whole report, however many, leave every field as it was. */
  lemma {:induction false} FailedPollsChangeNothing(c: Cursor, ops: seq<Operation>)
    requires forall i :: 0 <= i < |ops| ==> ops[i].PollOp? && !FullReport(c, ops[i].read)
    ensures Run(c, ops) == c
    decreases |ops|
  {
    if ops != [] {
      assert Step(c, ops[0]) == c;
      FailedPollsChangeNothing(c, ops[1..]);
    }
  }

  /** With the start-up bounds of 0, whatever a poll reads, the cursor stays at the origin. */
  lemma InitialBoundsPinOrigin(streamOpen: bool, read: ReadOutcome)
    ensures Poll(Initial(streamOpen), read).x == 0
    ensures Poll(Initial(streamOpen), read).y == 0
  {
  }

  /**
   * With both bounds 0, a whole report leaves X = Y = 0 from any state,
   * including a coordinate parked at `uint.MaxValue` by a zero-bound setter.
   */
  lemma ZeroBoundsPinOrigin(c: Cursor, read: ReadOutcome)
    requires c.screenWidth == 0 && c.screenHeight == 0 && FullReport(c, read)
    ensures Poll(c, read).x == 0 && Poll(c, read).y == 0
  {
  }

  /**
   * A whole report moves X by the signed byte 1 and Y against the signed byte 2
   * in 64-bit arithmetic, saturating at 0, keeping the low 32 bits and stopping
   * at the bound; away from the wrap-around that is plain min/max arithmetic.
   */
  lemma PollMovesCursor(c: Cursor, status: Byte, dx: Byte, dy: Byte)
    requires c.streamOpen
    ensures Poll(c, Delivered([status, dx, dy])).x
         == Min(c.screenWidth, ToUInt(Max(0, c.x + SignedByte(dx))))
    ensures Poll(c, Delivered([status, dx, dy])).y
         == Min(c.screenHeight, ToUInt(Max(0, c.y - SignedByte(dy))))
    ensures c.x + SignedByte(dx) < UINT_MODULUS ==>
              Poll(c, Delivered([status, dx, dy])).x == Min(c.screenWidth, Max(0, c.x + SignedByte(dx)))
    ensures c.y - SignedByte(dy) < UINT_MODULUS ==>
              Poll(c, Delivered([status, dx, dy])).y == Min(c.screenHeight, Max(0, c.y - SignedByte(dy)))
  {
  }

  /**
   * The same positive motion byte on both axes moves X right and Y up on screen
   * by the same amount, wherever neither move runs into 0 or the bound.
   */
  lemma OppositeVerticalSense(c: Cursor, status: Byte, motion: Byte)
    requires c.streamOpen && 0 < motion <= 127
    requires c.x + motion <= c.screenWidth && motion <= c.y <= c.screenHeight
    ensures Poll(c, Delivered([status, motion, motion])).x == c.x + motion
    ensures Poll(c, Delivered([status, motion, motion])).y == c.y - motion
  {
  }

  /** Report [0x01, 0x05, 0xFB] from (100, 100) on a 1000 x 1000 area: left button, (105, 105). */
  lemma LeftClickReport(c: Cursor)
    requires c.streamOpen && c.x == 100 && c.y == 100
    requires c.screenWidth == 1000 && c.screenHeight == 1000
    ensures Poll(c, Delivered([0x01, 0x05, 0xFB])).mouseState == Left
    ensures Poll(c, Delivered([0x01, 0x05, 0xFB])).x == 105
    ensures Poll(c, Delivered([0x01, 0x05, 0xFB])).y == 105
  {
  }

  /**
   * The setter clamps to `bound - 1`, a poll to `bound`: with X at 15, setting
   * the width to 10 gives X = 9, and a report moving one to the right then gives
   * X = 10, on the bound itself.
   */
  lemma ClampAsymmetry(c: Cursor)
    requires c.streamOpen && c.x == 15
    ensures SetWidth(c, 10).x == 9
    ensures Poll(SetWidth(c, 10), Delivered([0, 1, 0])).x == 10
  {
  }

  /** Setting a width of 0 at start-up sends X to `uint.MaxValue`, far outside the area. */
  lemma ZeroWidthWraps(streamOpen: bool)
    ensures SetWidth(Initial(streamOpen), 0).x == UINT_MAX
  {
  }

  // ---------------------------------------------------------------------------
  // The manager itself
  // ---------------------------------------------------------------------------

  /** The static state of MGS.MouseManager, held as one object. */
  class MouseManager {
    /** The button state of the current frame. */
    var mouseState: MouseState
    /** The button state of the last frame; kept for callers, never written here. */
    var lastMouseState: MouseState
    var x: UInt
    var y: UInt
    var screenWidth: UInt
    var screenHeight: UInt
    var scrollDelta: Int32
    /** Whether start-up opened the device stream. */
    var streamOpen: bool

    /** The observable state as a value. */
    function Snapshot(): Cursor
      reads this
    {
      Cursor(mouseState, lastMouseState, x, y, screenWidth, screenHeight, scrollDelta, streamOpen)
    }

    /**
     * Start-up: `streamOpened` is whether loading the kernel modules and opening
     * the device both succeeded; a failure is swallowed either way.
     */
    constructor (streamOpened: bool)
      ensures Snapshot() == Initial(streamOpened)
    {
      mouseState, lastMouseState := None, None;
      x, y := 0, 0;
      screenWidth, screenHeight := 0, 0;
      scrollDelta := 0;
      streamOpen := streamOpened;
    }

    /** Reads one report and updates the button state and the cursor position. */
    method GetMousePos(read: ReadOutcome)
      modifies this`mouseState, this`x, this`y
      ensures Snapshot() == Poll(old(Snapshot()), read)
    {
      if !streamOpen || read.Faulted? {
        // The read throws, and the exception is swallowed.
        return;
      }
      var bytesRead := |read.bytes|;
      if bytesRead == REPORT_LENGTH {
        var buffer := read.bytes;
        mouseState := DecodeButtons(buffer[0]);
        var xMovement := SignedByte(buffer[1]);
        var yMovement := SignedByte(buffer[2]);
        x := ToUInt(Max(0, x + xMovement));
        y := ToUInt(Max(0, y - yMovement));
        if x > screenWidth {
          x := screenWidth;
        }
        if y > screenHeight {
          y := screenHeight;
        }
      }
    }

    /** The `ScreenWidth` setter. */
    method SetScreenWidth(value: UInt)
      modifies this`screenWidth, this`x
      ensures Snapshot() == SetWidth(old(Snapshot()), value)
    {
      screenWidth := value;
      if x >= screenWidth {
        x := ToUInt(screenWidth - 1);
      }
    }

    /** The `ScreenHeight` setter. */
    method SetScreenHeight(value: UInt)
      modifies this`screenHeight, this`y
      ensures Snapshot() == SetHeight(old(Snapshot()), value)
    {
      screenHeight := value;
      if y >= screenHeight {
        y := ToUInt(screenHeight - 1);
      }
    }

    /** Sets the scroll delta back to 0. */
    method ResetScrollDelta()
      modifies this`scrollDelta
      ensures Snapshot() == ResetScroll(old(Snapshot()))
    {
      scrollDelta := 0;
    }

    /** No scroll wheel is ever reported, whatever the state. */
    function ScrollWheelPresent(): (present: bool)
      ensures !present
    {
      false
    }
  }
}
