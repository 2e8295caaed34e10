# MouseManager, modelled in Dafny

This project models `MGS.MouseManager`, the pointer input of the Malino graphics subsystem. A frame loop calls `GetMousePos` once per frame. Each call reads one 3-byte PS/2 movement report from the Linux mouse device (`/dev/input/mice`) and updates the cursor state:

- byte 0 holds the button bits, which collapse to one `MouseState` value in priority order Left, Right, Middle;
- bytes 1 and 2 are two's-complement X and Y motion;
- the position saturates at 0 and is clamped to the screen area.

The setters of `ScreenWidth` and `ScreenHeight` pull the cursor back inside a smaller area. `ResetScrollDelta` clears the scroll counter, and `ScrollWheelPresent` is always false.

Everything is in `mouse_manager.dfy`, module `MGS`:

- `MouseManager` is a class. Its fields are the C# class's static fields. Its methods change those fields in place, as the source does.
- `Cursor` is the same state as a value. `Poll`, `SetWidth`, `SetHeight` and `ResetScroll` say what each operation does to it. Each method is proved to equal its function: `Snapshot() == Poll(old(Snapshot()), read)`.
- The decodes are pure functions: `DecodeButtons`, `SignedByte`, the unchecked `(uint)` cast `ToUInt`, the poll clamp `PollAxis` and the setter clamp `ClampToBound`.
- `Operation` and `Run` describe any sequence of the manager's operations. `RunStaysInReach` and `ReachableIsInReach` prove that no such sequence leads out of `InReach`.

C# integer semantics are written out:

- `X + xMovement` is a 64-bit sum. `(uint)` of it keeps the low 32 bits, so a coordinate at `uint.MaxValue` wraps when it moves right.
- `screenWidth - 1` is unchecked `uint` subtraction. A width of 0 therefore sends X to 4294967295.
- A poll clamps X to `screenWidth` itself. A setter clamps it to `screenWidth - 1`. The model keeps both rules as they are.

Two facts about the code are worth stating on their own:

- A poll never writes `LastMouseState` (MGS/MouseManager.cs:17-19). Only callers can set it.
- The doc comments of `ScreenWidth` and `ScreenHeight` (MGS/MouseManager.cs:76, 93) call the bound the maximum value of X or Y. A poll can leave a coordinate on its bound. A bound of 0 set through a setter leaves the coordinate at `uint.MaxValue`, above that maximum. `InReach` states the invariant that does hold.

## Model

| member | source | states |
|---|---|---|
| `MGS.DecodeButtons` | MGS/MouseManager.cs:132-139 | Left iff bit 0 of the status byte is set; Right iff bit 0 is clear and bit 1 set; Middle iff bits 0-1 are clear and bit 2 set; None iff bits 0-2 are clear; never FourthButton or FifthButton; the decoded button's own flag bit is set |
| `MGS.SignedByte` | MGS/MouseManager.cs:141-142 | the motion lies in -128..127, agrees with the byte modulo 256 (two's complement) and is negative exactly when the byte exceeds 127 |
| `MGS.ToUInt` | MGS/MouseManager.cs:145-146 | the `(uint)` cast gives the one uint congruent to its argument modulo 2^32, which is the argument itself when it already fits |
| `MGS.PollAxis` | MGS/MouseManager.cs:145-149 | a coordinate after a poll is at most the bound, is 0 when the 64-bit sum is not positive, is min(sum, bound) when the sum fits in a uint, and min(sum - 2^32, bound) when it wraps |
| `MGS.ClampToBound` | MGS/MouseManager.cs:85-88 | the setter clamp leaves a coordinate below the bound alone, turns one at or past it into bound - 1, and into uint.MaxValue when the bound is 0 |
| `MGS.Poll` | MGS/MouseManager.cs:123-156 | without a stream, on a fault, or on a read of other than 3 bytes, nothing changes; on a whole report the button state is the decoded byte 0 and X <= screenWidth, Y <= screenHeight; LastMouseState, the bounds, the scroll delta and the stream are never changed |
| `MGS.SetWidth` | MGS/MouseManager.cs:81-89 | the new width is stored; X ends below it, or at uint.MaxValue when it is 0; an X already below it is kept; Y and every other field are unchanged |
| `MGS.SetHeight` | MGS/MouseManager.cs:98-106 | the new height is stored; Y ends below it, or at uint.MaxValue when it is 0; a Y already below it is kept; X and every other field are unchanged |
| `MGS.ResetScroll` | MGS/MouseManager.cs:161-163 | the scroll delta becomes 0 and every other field is unchanged |
| `MGS.RunStaysInReach` | MGS/MouseManager.cs:81-156 | any sequence of polls, setter calls and scroll resets keeps each coordinate at most its bound, except a coordinate parked at uint.MaxValue by a bound of 0 |
| `MGS.ReachableIsInReach` | MGS/MouseManager.cs:57-67 | every state reachable from start-up through the manager's operations is in that reach |
| `MGS.FailedPollsChangeNothing` | MGS/MouseManager.cs:126-155 | any number of polls that get no whole report (short read, fault, no stream) leave every field as it was |
| `MGS.InitialBoundsPinOrigin` | MGS/MouseManager.cs:148-149 | with the start-up bounds of 0, any poll leaves X = Y = 0 |
| `MGS.ZeroBoundsPinOrigin` | MGS/MouseManager.cs:145-149 | with both bounds 0, a whole report leaves X = Y = 0 from any state, even one parked at uint.MaxValue |
| `MGS.PollMovesCursor` | MGS/MouseManager.cs:141-149 | a whole report gives X' = min(width, uint(max(0, X + dx))) and Y' = min(height, uint(max(0, Y - dy))), wrap-around included; away from the wrap that is min(width, max(0, X + dx)) and min(height, max(0, Y - dy)) |
| `MGS.OppositeVerticalSense` | MGS/MouseManager.cs:145-146 | from any position where X + m is at most the width and m <= Y <= height, the same positive motion byte m on both axes gives X' = X + m and Y' = Y - m: right and up on screen by the same amount |
| `MGS.LeftClickReport` | MGS/MouseManager.cs:132-149 | report [0x01, 0x05, 0xFB] from (100, 100) on a 1000 x 1000 area gives Left, X = 105, Y = 105 |
| `MGS.ClampAsymmetry` | MGS/MouseManager.cs:83-148 | with X = 15, setting the width to 10 gives X = 9, and a poll moving one step right then gives X = 10, the bound itself |
| `MGS.ZeroWidthWraps` | MGS/MouseManager.cs:83-88 | setting a width of 0 in the start-up state sends X to uint.MaxValue |
| `MGS.MouseManager.constructor` | MGS/MouseManager.cs:57-67 | after start-up every field has its default value (X = Y = 0, bounds 0, both button states None, scroll delta 0); only whether a stream was opened varies |
| `MGS.MouseManager.GetMousePos` | MGS/MouseManager.cs:123-156 | the object's new state is `Poll` of its old state and the read's outcome; only the button state, X and Y may be written |
| `MGS.MouseManager.SetScreenWidth` | MGS/MouseManager.cs:81-89 | the new state is `SetWidth` of the old one; only screenWidth and X may be written |
| `MGS.MouseManager.SetScreenHeight` | MGS/MouseManager.cs:98-106 | the new state is `SetHeight` of the old one; only screenHeight and Y may be written |
| `MGS.MouseManager.ResetScrollDelta` | MGS/MouseManager.cs:161-163 | the new state is `ResetScroll` of the old one; only scrollDelta may be written |
| `MGS.MouseManager.ScrollWheelPresent` | MGS/MouseManager.cs:119 | no scroll wheel is ever reported |

## Left out

- Kernel-module loading (`malino.LoadAllKernelModules`, MGS/MouseManager.cs:62) and opening the device as a `FileStream` (MGS/MouseManager.cs:69-73) are foreign calls and I/O. Their combined outcome is the constructor's `streamOpened` parameter.
- The blocking `mfs.Read` (MGS/MouseManager.cs:128) is I/O. Its outcome is the parameter of `GetMousePos`: either the bytes it delivered, whose count is `bytesRead`, or a fault.
- Exceptions are not modelled. A read that throws, including a read with no stream (a null reference in C#), is a no-op, as the swallowing `catch` makes it.
- The contents of the static 3-byte buffer between calls are not modelled. Only a read that fills all three bytes uses them.
- `MouseSensitivity` (MGS/MouseManager.cs:28, 59) is a float. It is set to 1.0 and never used in any computation.
- `hasReadDeltaX`, `hasReadDeltaY`, `deltaX` and `deltaY` (MGS/MouseManager.cs:34-39) are declared and never read or written.
- The getters of `ScreenWidth`, `ScreenHeight` and `ScrollDelta` just return a field. The model reads those fields directly.
- The `internal` setter of `ScrollDelta` is modelled only through `ResetScrollDelta`, which is its only caller.
- `MGS.RunStaysInReach`: X, Y, `MouseState` and `LastMouseState` are public fields in C#, and callers may assign them directly. The invariant covers only the manager's own operations. The per-poll bound in `MGS.Poll` holds whatever the earlier state was.
- The class is static in C#, and nothing guards its fields against concurrent callers. The model is one object used by one caller. The unused `System.Drawing` import is not modelled.
