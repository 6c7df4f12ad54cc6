# linrdp, modelled and proved in Dafny

linrdp is an RDP server for Linux desktops. This project models its stateful
and arithmetic kernels and proves what they are for. `dafny verify
dfyconfig.toml` checks all of it (Dafny 4.11).

| files | what they model |
|---|---|
| `Geometry`, `Frames` | rectangles in 16-bit coordinates, debt bands, BGRX frames, crops |
| `Capture` | the tile differ, and the grabber with the X server it watches (`capture.rs`) |
| `Pipeline`, `DebtSafety`, `DisplayRuns`, `DisplayLoop` | the lossless-debt machine of the display loop (`gfx_display.rs`), its invariant, its runs, and the class that updates the loop's fields |
| `Delivery`, `Repayment`, `Chroma`, `DisplayWitnesses` | what each frame sends, how the debt is paid off, which pixels keep half-resolution chroma, and runs in which a promise fails |
| `Routing`, `Legacy` | how long frames are held for the graphics channel, and what a client without it shows |
| `Session` | grabber and display loop together |
| `Bt709`, `Planes`, `Yuv420`, `Yuv444v2` | BT.709 in numbers, row-parallel colour conversion and the AVC444v2 two-view layout |
| `Resampler`, `MicControl`, `MicTurns` | the microphone stream, its channel automaton and exactly when that acts (`mic.rs`) |
| `Downloads`, `Skips`, `Paste`, `ClipText`, `Dib`, `DibLayout`, `DibTwins` | clipboard files, text and bitmaps (`clipboard.rs`) |
| `SoundGate` | RDPSND flow control and capture chunking (`sound_real.rs`) |
| `Sam`, `SamText`, `SamStore` | the account store's format, what its bytes mean, and its locked rewrites (`sam.rs`, `atomic.rs`) |
| `Prelude` | shared types |

Code that changes fields or buffers is modelled by classes, arrays and loops,
each method tied to a function of the old state; the lemmas are about those
functions.

The main results:

- **Debt safety.** Every event of the loop (grab, refresh, resize, channel loss,
  re-advertisement, timeout) keeps every pixel the client does not show
  correctly owed *if and only if* it avoids the few branches that forget
  damage (`StepSafeIff`); so does every run without them (`RunSafe`), and the
  client's picture is then the last grab outside the owed region (`EndToEnd`).
- **What is sent.** Over any step, exactly the grabs that change more than an
  eighth of the tiles may go out lossy, as one frame of the whole screen; the others
  go out as their own damage, or wait (`StepLossless`, `MotionGoesOut`,
  `PartialGoesOut`, `MotionSuppresses`).
- **The debt is paid.** For a debt of h rows, ceil(h/16) idle frames leave
  nothing owed and every pixel shown (`IdleScreenIsRepaid`).
- **A whole session.** Driving the grabber and the loop over any script of
  drawing, polls, client events and lost sources, a poll that finds nothing to do
  means that the client shows the X screen (`Session.Drive`).
- **Exact damage.** The differ reports the tight box of the changed tiles, and
  replaying boxes rebuilds the latest frame (`ComputeTileDamage`, `ReplayRebuilds`).
- **Plane layout.** The parallel conversions store every byte exactly once and
  their result does not depend on the workers; each byte is the BT.709 value of the
  frame's own bytes at that place (`IsI420`, `IsMainView`, `IsAuxView`), and a
  decoder gets Y back exactly and chroma exactly or within 3.
- **Streaming equals one-shot** for the resampler under every packet split, and
  every output lies on the line between its neighbours (`OutputIsLinear`).
- **Downloads** stay within budget, end, deliver the client's bytes, skip alone
  what does not fit, and publish exactly the complete selections.
- **Bitmaps.** Exactly the well-formed ones are decoded, and each byte of the
  picture is the one the format stores for it (`DecodesIff`, `PictureBytes`).
- **Sound and microphone.** When a chunk is dropped, and when the microphone
  channel opens and closes, as an if-and-only-if over whole runs
  (`BacklogGateIff`, `OpensIff`, `ClosesIff`).
- **No lost update** in the account store over all interleavings and crashes.

Where the code departs from what it is meant to do, the model follows the code
and states exactly when the property holds:

- `union_rect` adds in `u16`. The release profile has no overflow checks, so an
  edge past 65535 wraps (`UnionCoversIff`, `UnionLosesAnEdgeArea`).
- The tile scan adds in `u16` too and never ends on a side above 65472
  (`CursorEndsIff`).
- The grabber re-arms DAMAGE before it asks for the image, so an image that
  fails swallows the change it was taken for (`PollInner`, `SwallowedChange`).
- A ClearCodec or H.264 encode that does not join, an empty H.264 stream,
  and a failed x264 start whose fallback band is dropped forget the grab's
  damage (`FrameSafeIff`, `StrandingExample`).
- An AVC444v2 frame that goes out without its chroma view settles the debt like
  a whole one, and 4:4:4 sessions do not repaint when motion ends
  (`MotionEndLeavesHalfIff`, `HalfStays`, `HalfChromaExample`).
- The ClearCodec counter is not reset when a client reset coincides with a
  resize or a new handle (`RestartsAtZeroIff`, `NumberingExample`).
- Grabs held back while the graphics channel is awaited are dropped, damage and
  all; a client that then gets bitmap updates never sees what they changed
  (`CurrentIffNeverHeld`). A channel first seen late starts another wait
  (`HoldEnds`, `SecondWaitExample`).
- Every download numbers its requests from the start, so a late answer to a
  replaced one can be taken for the current one's (`LateAnswerAcceptedIff`,
  `LateAnswerExample`).
- `set_password` treats a store it cannot read as empty (`FailedReadIff`,
  `FailedReadExample`), and writes names that it cannot read back
  (`NoLostUpdateIff`, `BadNameExample`).
- A bitmap with bit fields and more than one row, whose pixels start before
  byte 52, has its masks inside its pixels (`AlwaysAlikeIff`, `TwinDiffers`).

Assumptions about the environment, built into the models:

- Display: only the most recently built pipeline server calls back, and a
  closed one processes nothing. A frame works on the handle it took, so a server
  published while it runs is an event right after it. Code under one lock is one
  atomic step. Clock readings within a frame do not decrease. A delivered H.264
  frame is taken to show the grab; the pixels it covers are tracked as lossy until
  repainted without loss. Byte budgets, backpressure, delivery and timeouts are
  arbitrary.
- Capture: a DAMAGE object reports the first change since it was last subtracted,
  and the whole window when it is created; a change may fall between the
  subtraction and the image, and the image may fail.
- Sound: a send with its bookkeeping, and a confirm, are atomic. Times are
  those the code measures.
- Downloads: each creation, write and directory may fail independently.
- Account store: the cipher, authenticated where SamText says so, and the text encoding are functions with
  `decrypt(encrypt(p)) = p` and `decode(encode(b)) = b`; encoded text has no
  line break; a process sees the same machine keys throughout; `rename` is
  atomic and temporary files are private to a process.

## Model

| member | source | states |
|---|---|---|
| Geometry.UnionKeepsFittingOperand | linrdp/src/gfx_display.rs:2497-2503 | an operand whose far edges fit in 16 bits is covered by the union and leaves it fitting, whatever the other operand is |
| Geometry.UnionIsLeastCover | linrdp/src/gfx_display.rs:2497-2503 | on fitting operands the union covers both and is inside every rectangle that does |
| Geometry.UnionCoversIff | linrdp/src/gfx_display.rs:2497-2503 | for non-empty operands the wrapping union covers every pixel of both if and only if, on each axis, the wrap does not cut the span |
| Geometry.UnionLosesAnEdgeArea | linrdp/src/gfx_display.rs:2497-2503 | a concrete pair of rectangles whose union loses a pixel |
| Geometry.ClampIsIntersection | linrdp/src/gfx_display.rs:2531-2535 | the clamped rectangle holds exactly the pixels of the rectangle that are on the frame, None when there are none |
| Geometry.SplitIsExact | linrdp/src/gfx_display.rs:2407-2424 | band and remainder partition the rectangle, the band fits the larger of budget and 16 rows, and the row count always fits 16 bits |
| Geometry.SplitFillsBudget | linrdp/src/gfx_display.rs:2407-2424 | a rectangle goes out whole if and only if it is within the budget or at most 16 rows high; otherwise the band has 16 rows or as many as the budget holds |
| Geometry.RepayPaintsOnce | linrdp/src/gfx_display.rs:2407-2443 | over any sequence of budgets every debt pixel is painted exactly once or still owed, and no other pixel is painted |
| Geometry.RepayBandsStack | linrdp/src/gfx_display.rs:2407-2443 | successive bands are contiguous from the top and each keeps to its own budget or 16 rows |
| Geometry.RepayTerminates | linrdp/src/gfx_display.rs:2407-2443 | ceil(h/16) delivered bands clear any debt, whatever the budgets |
| Frames.CropBgra | linrdp/src/gfx_display.rs:2937-2947 | the payload is exactly w*h pixels, each the frame's colour at its own place, opaque |
| Frames.MakeOpaque | linrdp/src/gfx_display.rs:1797-1803 | only alpha bytes change, to 0xFF |
| Frames.FullFrameIsCrop | linrdp/src/gfx_display.rs:1794-1806 | forcing alpha on the whole frame is the crop of the whole frame |
| Capture.TileEqSamePos | linrdp/src/capture.rs:1209-1218 | the row-by-row comparison answers whether any pixel of the tile differs |
| Capture.ComputeTileDamage | linrdp/src/capture.rs:1228-1268 | the count is the number of tiles holding a difference and at most all of them, the box is their tight bounding box, None when there are none; without a baseline, at any size, everything is damaged |
| Capture.CursorEndsIff | linrdp/src/capture.rs:1240-1262 | the 16-bit tile cursor reaches the end of a side if and only if the side is at most 65472 |
| Capture.UnchangedOutsideDamage | linrdp/src/capture.rs:1228-1268 | outside the reported box both frames agree |
| Capture.NoDamageIffIdentical | linrdp/src/capture.rs:1228-1268 | no damage, and a zero count, exactly for byte-equal frames |
| Capture.ScreenGrabber.constructor | linrdp/src/capture.rs:658-684 | a new grabber has no baseline and grabs at once, whatever was emitted before it |
| Capture.ScreenGrabber.Reconnect | linrdp/src/capture.rs:714-741 | a reconnect adopts the new geometry and drops the baseline; one that fails changes nothing |
| Capture.ScreenGrabber.PollInner | linrdp/src/capture.rs:919-981 | exactly when a poll is idle, fails or yields a grab; a grab shows the screen and its damage accounts for every change since the previous grab; an idle poll means the last grab is current, if no change was swallowed; exactly which failing polls swallow one |
| Capture.ScreenGrabber.DamagePending | linrdp/src/capture.rs:988-1015 | whether the next image is due, and the notification state it leaves: a new DAMAGE object, a waiting notification or a connection in trouble |
| Capture.ScreenGrabber.TakeImage | linrdp/src/capture.rs:941-981 | the grab is what the screen shows, accounts for the previous grab across resizes, and is undamaged exactly for an identical screen of the same size |
| Capture.ScreenGrabber.Poll | linrdp/src/capture.rs:848-868 | a grab resets the failure count; an answered poll without a grab means no debt was due and the last grab is current; a due reconnect restores the promise that the next poll grabs |
| Capture.Outage | linrdp/src/capture.rs:603-619 | however long the server is gone, a connection is tried at failure 30 and then at every 60th failure |
| Capture.SwallowedChange | linrdp/src/capture.rs:919-981 | a concrete session in which a failed image leaves the grabber idle on a screen its last grab does not show |
| Capture.ReplayRebuilds | linrdp/src/capture.rs:947-972 | painting only the box of each grab of any run rebuilds the latest frame pixel by pixel |
| DebtSafety.OweRegionKeeps | linrdp/src/gfx_display.rs:1437-1447 | merging a region never loses a secured pixel, secures every pixel of a fitting region, leaves a whole-screen debt alone, and a debt rectangle implies the pending flag |
| DebtSafety.DebtRegionIsOwed | linrdp/src/gfx_display.rs:1458-1467 | on the screen the region to repay is exactly what is owed, and lies in the frame |
| DebtSafety.AbsorbOpens | linrdp/src/gfx_display.rs:1235-1252 | taking a grab of the same size leaves only its own damage stale and not yet owed |
| DebtSafety.NewSurfaceOpens | linrdp/src/gfx_display.rs:1236-1260 | a recreated surface shows nothing and everything is owed |
| DebtSafety.GateCore | linrdp/src/gfx_display.rs:1262-1354 | every early return (lost surface, caps-reset hold, backpressure) leaves all stale pixels owed; the hold relies on the whole screen being owed until it expires |
| DebtSafety.SendClearCore | linrdp/src/gfx_display.rs:1768-1879 | a delivered rectangle settles exactly its own pixels, a dropped one is owed, a stalled or unjoined one changes nothing |
| DebtSafety.RepayDebtCore | linrdp/src/gfx_display.rs:1543-1566 | repaying a region that holds every claim keeps the remainder owed |
| DebtSafety.FallbackIff | linrdp/src/gfx_display.rs:1935-1959 | the lossless fallback after a failed x264 start is safe if and only if its band gets out or the damage is owed anyway |
| DebtSafety.UnrecordedIff | linrdp/src/gfx_display.rs:2003-2019 | an unjoined H.264 encode or an empty stream is safe if and only if the damage is owed anyway |
| DebtSafety.MotionIff | linrdp/src/gfx_display.rs:1391-1422 | motion frames, rate limit and all encoder outcomes included, are safe if and only if they do not strand their damage |
| DebtSafety.PartialIff | linrdp/src/gfx_display.rs:1422-1432 | lossless partials are safe if and only if they do not strand their damage |
| DebtSafety.RepayBranch | linrdp/src/gfx_display.rs:1356-1379 | repaying with the grab's damage folded in is always safe |
| DebtSafety.FrameSafeIff | linrdp/src/gfx_display.rs:1235-1432 | one frame in any environment keeps every stale pixel owed if and only if it takes no stranding branch |
| DisplayRuns.StepSafeIff | linrdp/src/gfx_display.rs:804-983 | the same for any event of the loop: grab on any route, refresh, resize, channel events, a new server, timeout |
| DisplayRuns.RunSafe | linrdp/src/gfx_display.rs:804-983 | debt safety in every state of every run without stranding events |
| DisplayRuns.EndToEnd | linrdp/src/gfx_display.rs:804-983 | from a fresh stream on any pipe, wherever the client has a surface each pixel shows the last grab or lies in the region to be repaid; with no debt pending the picture is the last grab, and outside motion mode a 4:2:0 session has painted it without loss |
| DisplayRuns.RunNumbered | linrdp/src/gfx_display.rs:1779-1876 | over every run the ClearCodec messages delivered since the client's last reset carry consecutive numbers modulo 256, whatever is dropped, stalled or rebuilt |
| DisplayRuns.SeqAfterIsMod | linrdp/src/gfx_display.rs:1841-1876 | the i-th number is base + i modulo 256 |
| DisplayRuns.RestartsAtZeroIff | linrdp/src/gfx_display.rs:1236-1287 | after a client reset the numbering restarts at 0 if and only if it was 0 or neither size nor handle changed |
| DisplayRuns.RoutingSafe | linrdp/src/gfx_display.rs:147-199 | a grab goes to the pipeline exactly when its channel is ready; a session on the pipeline falls back to bitmaps only when its channel is closed, and no live surface is bypassed |
| Delivery.StepLossless | linrdp/src/gfx_display.rs:1391-1432 | a grab that changed at most an eighth of the tiles, or comes within 12 ms of the last H.264 frame, or while the desktop settles, adds no lossy pixel, sends no H.264 frame and starts no motion mode; nor does any other event |
| Delivery.MotionGoesOut | linrdp/src/gfx_display.rs:1391-1421 | more than an eighth of the tiles, settled, AVC on, 12 ms on, nothing owed outside motion: the whole screen is painted by one H.264 frame, all debt is settled, and motion mode lasts 250 ms |
| Delivery.PartialGoesOut | linrdp/src/gfx_display.rs:1424-1432 | at rest a grab that is not motion paints exactly its damage, losslessly, under the next number |
| Delivery.MotionSuppresses | linrdp/src/gfx_display.rs:1391-1424 | in motion mode a small change, or one within 12 ms, sends nothing and is owed |
| Delivery.HeldFrameSendsNothing | linrdp/src/gfx_display.rs:1301-1318 | under backpressure or the hold after a reset the client's picture and the numbering do not change; only backpressure records the damage |
| Delivery.ResizeSettles | linrdp/src/gfx_display.rs:1236-1260 | a changed size starts 1500 ms of settling and its frame leaves nothing lossy |
| Delivery.ResetHolds | linrdp/src/gfx_display.rs:1262-1287 | a surface the client dropped is made again, everything is owed, numbering restarts and frames wait 250 ms |
| Delivery.MotionEnds | linrdp/src/gfx_display.rs:1345-1354 | when the 250 ms are over, a 4:2:0 session starts its lossless repaint and a 4:4:4 session sends nothing |
| Delivery.IdleFrameRepays | linrdp/src/gfx_display.rs:1356-1370 | an undamaged frame paints the top band of what is owed, in motion mode too, and owes the rest |
| Delivery.NothingEncoded | linrdp/src/gfx_display.rs:2003-2019 | without an encoder everything is owed, an empty stream keeps motion mode going, an encode that does not join changes nothing; the client sees none of them |
| Delivery.StartFailureFallsBack | linrdp/src/gfx_display.rs:1935-1959 | when x264 does not start, H.264 is given up and the top band of the screen goes out losslessly |
| Delivery.StallOwesAll | linrdp/src/gfx_display.rs:950-965 | a frame that stalls at rest owes the whole screen and changes nothing else the client sees |
| Delivery.StallEndsMotion | linrdp/src/gfx_display.rs:950-965 | a frame that stalls in motion mode ends it and owes the whole screen |
| Repayment.IdleRepaysDebt | linrdp/src/gfx_display.rs:1356-1379 | over any run of idle frames the loop's debt is what repeated banding with the frames' budgets leaves |
| Repayment.IdleScreenIsRepaid | linrdp/src/gfx_display.rs:1543-1566 | from any safe state with a surface, outside motion mode and past the hold of a reset, ceil(h/16) idle frames for a debt of h rows leave nothing owed and every pixel shown |
| Chroma.FullChromaAtRest | linrdp/src/gfx_display.rs:1345-1354 | after any run, with nothing owed and motion over, no pixel is left at half-resolution chroma: in 4:2:0 sessions always, in 4:4:4 sessions if no chroma view was missing |
| Chroma.MotionEndLeavesHalfIff | linrdp/src/gfx_display.rs:2038-2060 | the frame that ends motion leaves a half-resolution pixel with nobody owing it if and only if the session is 4:4:4 and no debt held the pixel |
| Chroma.HalfStays | linrdp/src/gfx_display.rs:1345-1379 | no number of idle frames repairs such a pixel |
| DisplayWitnesses.StrandingExample | linrdp/src/gfx_display.rs:1812-1816 | a run from a fresh stream and a frame whose encode does not join: a changed pixel stays wrong with no debt pending |
| DisplayWitnesses.NumberingExample | linrdp/src/gfx_display.rs:1236-1287 | a run from a fresh stream with a reset and a resize, after which the new surface's first message carries number 1 |
| DisplayWitnesses.HalfChromaExample | linrdp/src/gfx_display.rs:2038-2060 | a run from a fresh 4:4:4 stream that ends at rest, nothing owed, with half-resolution chroma |
| Routing.HeldIff | linrdp/src/gfx_display.rs:880-925 | over every connection, a turn is held if and only if the channel is neither ready nor gone and the session was on the pipeline before or a capable client still has time, counted from the first sight of a channel or from the start |
| Routing.HoldEnds | linrdp/src/gfx_display.rs:147-199 | once a client is overdue, every later turn of a session not yet on the pipeline uses it or sends bitmap updates; only the first sight of a channel starts another wait |
| Routing.SecondWaitExample | linrdp/src/gfx_display.rs:177-198 | a connection whose bitmap updates stop for a channel first seen after ten seconds |
| Legacy.RegionHolds | linrdp/src/gfx_display.rs:2539-2546 | a bitmap update lies in the frame and holds the damage and the requested area; there is none only without damage |
| Legacy.StreamAgrees | linrdp/src/gfx_display.rs:925-940 | after any stream of bitmap updates each pixel shows the last grab or changed in a held grab and was not sent since |
| Legacy.RequestIsShown | linrdp/src/gfx_display.rs:815-818 | an area the client asked for outlasts held turns, and the first turn that is sent shows all of it |
| Legacy.RequestIsForgotten | linrdp/src/gfx_display.rs:925-930 | once answered it is not sent again for an undamaged grab |
| Legacy.CurrentIffNeverHeld | linrdp/src/gfx_display.rs:925-940 | the picture is the last grab in every stream with a given routing if and only if no turn was held |
| Session.CurrentPicture | linrdp/src/gfx_display.rs:804-983 | a safe state with nothing owed and a current last grab shows the X screen |
| Session.PollAndUpdate | linrdp/src/gfx_display.rs:848-983 | a poll and its turn of the loop: every grab is a possible event of the proved machine, and an idle poll means nothing is owed |
| Session.Drive | linrdp/src/gfx_display.rs:804-983 | over every script of drawing, polls, client events and lost sources the loop runs as the proved machine; if the image requests were answered and no frame stranded its damage, an idle poll means the client shows the X screen |
| DisplayLoop.PayloadPaints | linrdp/src/gfx_display.rs:1797-1876 | what a client decodes from a payload is the frame's own content at that place |
| DisplayLoop.EgfxUpdates.constructor | linrdp/src/gfx_display.rs:529-600 | a fresh loop on any pipe has drawn nothing and owes the first paint |
| DisplayLoop.EgfxUpdates.OweRegion | linrdp/src/gfx_display.rs:1437-1447 | the fields after the call are the modelled merge, all others unchanged |
| DisplayLoop.EgfxUpdates.OweEverything | linrdp/src/gfx_display.rs:1451-1455 | the whole screen is owed, all other fields unchanged |
| DisplayLoop.EgfxUpdates.EnsureSurface | linrdp/src/gfx_display.rs:1569-1621 | the new state of surface, codec flags and client picture |
| DisplayLoop.EgfxUpdates.SendClear | linrdp/src/gfx_display.rs:1768-1879 | state and result; the client paints the actual cropped payload and the counter advances only on delivery |
| DisplayLoop.EgfxUpdates.PushClear | linrdp/src/gfx_display.rs:1818-1879 | state and result of the send; what the client paints is the payload, which is the frame's content |
| DisplayLoop.EgfxUpdates.RepayDebt | linrdp/src/gfx_display.rs:1543-1566 | state and result of one banded repayment |
| DisplayLoop.EgfxUpdates.Fallback | linrdp/src/gfx_display.rs:1935-1959 | the lossless repaint that replaces H.264 for the rest of the surface's life |
| DisplayLoop.EgfxUpdates.PushH264 | linrdp/src/gfx_display.rs:2021-2106 | state and result of the send, with both views, the luma view alone or AVC420 |
| DisplayLoop.EgfxUpdates.SendH264 | linrdp/src/gfx_display.rs:1891-2106 | state and result for every encoder outcome, a missing chroma view included |
| DisplayLoop.EgfxUpdates.Gate | linrdp/src/gfx_display.rs:1262-1354 | state after the checks and whether the frame goes on |
| DisplayLoop.EgfxUpdates.Dispatch | linrdp/src/gfx_display.rs:1356-1432 | state and result of the damage routing, whose outcomes Delivery states in numbers |
| DisplayLoop.EgfxUpdates.EgfxFrame | linrdp/src/gfx_display.rs:1235-1432 | the whole frame, including the reset after a timeout, moves the state as the proved step does |
| DisplayLoop.EgfxUpdates.NextUpdate | linrdp/src/gfx_display.rs:804-983 | one turn of the loop is one step of the proved machine |
| Planes.SplitRowChunks | linrdp/src/gfx_display.rs:2248-2258 | chunks are consecutive, full except the last, and stop at the end of the plane |
| Planes.PlanSlices | linrdp/src/gfx_display.rs:2218-2244 | the chunks given to the workers are whole row pairs of each of the three planes |
| Planes.AllChunksAllPairs | linrdp/src/gfx_display.rs:2218-2244 | once every chunk is done, in whatever order, the whole buffer is |
| Planes.AllBytesHit | linrdp/src/gfx_display.rs:2218-2244 | once every chunk ran, each byte of the buffer was stored exactly once |
| Planes.ConvertedIsUnique | linrdp/src/gfx_display.rs:2218-2308 | the converted buffer is determined byte for byte, so the number of workers does not matter |
| Yuv420.ClampsAreIdle | linrdp/src/gfx_display.rs:2285-2306 | no luma or chroma clamp ever changes a value |
| Yuv420.GreyIsNeutral | linrdp/src/gfx_display.rs:2293-2300 | grey gives neutral chroma |
| Yuv420.LumaIsBt709 | linrdp/src/gfx_display.rs:2303-2306 | for 8-bit pixels the stored luma is 0.2126 r + 0.7152 g + 0.0722 b, less than 2 below it |
| Yuv420.ChromaIsBt709 | linrdp/src/gfx_display.rs:2293-2300 | the stored differences are the BT.709 ones, less than 2 off |
| Yuv420.ConvertedIsI420 | linrdp/src/gfx_display.rs:2262-2308 | every byte of a converted buffer, read at its column and row, is the luma or the mean difference of the frame's bytes there, black beyond the frame |
| Yuv420.ConvertRows | linrdp/src/gfx_display.rs:2262-2308 | a worker converts exactly its row pairs, stores each of their bytes once and leaves every other byte as it was |
| Yuv420.Bgrx420 | linrdp/src/gfx_display.rs:2218-2244 | for every frame, padded size, worker count and finishing order the buffer is the frame in I420 in BT.709 numbers, each byte stored exactly once |
| Yuv444v2.ConvertRowsV2 | linrdp/src/gfx_display.rs:2561-2661 | a worker fills exactly its row pairs of both views, stores each of their bytes once and leaves every other byte as it was |
| Yuv444v2.Bgrx444v2 | linrdp/src/gfx_display.rs:2323-2375 | both views hold the layout of section 3.3.8.3.3 of MS-RDPEGFX, in BT.709 numbers of the frame's bytes, for every worker count and order, each byte stored exactly once |
| Yuv444v2.SampleShows | linrdp/src/gfx_display.rs:2580-2602 | each sample is the BT.709 value of the nearest real pixel |
| Yuv444v2.ConvertedIsMainView | linrdp/src/gfx_display.rs:2618-2636 | every byte of the luma view is the luma of its pixel or a mean difference of its block |
| Yuv444v2.ConvertedIsAuxView | linrdp/src/gfx_display.rs:2638-2658 | every byte of the chroma view is the difference of the pixel the layout puts there: odd columns, then every fourth column of odd rows, blue left and red right |
| Yuv444v2.UnfilterError | linrdp/src/gfx_display.rs:2561-2661 | undoing the rounded 2x2 mean is low by 0 to 3 |
| Yuv444v2.RoundTrip | linrdp/src/gfx_display.rs:2323-2375 | a decoder of the two views recovers Y exactly, U and V exactly except at even row and even column, and there within 0..3 |
| Yuv444v2.SamplesInside | linrdp/src/gfx_display.rs:2561-2661 | inside the frame the samples are the unclamped BT.709 values of the pixel's own bytes |
| Resampling.InterpolateBetween | linrdp/src/mic.rs:216-222 | an interpolated sample lies between its two neighbours, rounds toward the first, and never saturates |
| Resampling.OneShotExtends | linrdp/src/mic.rs:187-214 | more input never changes what is already out |
| Resampling.Produce | linrdp/src/mic.rs:187-214 | the loop emits exactly the missing frames of the one-shot result, reads in range, and leaves the position aligned |
| Resampling.Resampler.Process | linrdp/src/mic.rs:167-214 | one packet emits exactly the frames by which the one-shot output of the whole stream grows |
| Resampling.Stream | linrdp/src/mic.rs:167-214 | for every split into packets, empty and one-frame ones included, the concatenated output is the one-shot output |
| Resampling.OutputsBetweenNeighbours | linrdp/src/mic.rs:167-222 | at different rates n >= 1 frames yield ceil((n-1)*to/from), frame k at tick k*from, between the two frames around it |
| Resampling.OutputIsLinear | linrdp/src/mic.rs:187-222 | output k is the point of tick k*from on the line between its two input frames, less than one unit off in each channel, and the input frame itself at its tick; equal rates pass the stream through |
| MicControl.RunConsistent | linrdp/src/mic.rs:258-318 | over every run of ticks the watcher and the automaton agree on which channel exists |
| MicControl.RefusalIsFinal | linrdp/src/mic.rs:307-311 | nothing opens after a refusal or missing dynamic channels |
| MicControl.ReopenNeedsAStop | linrdp/src/mic.rs:269-318 | after a client close, an open is preceded by a non-recording observation |
| MicControl.CloseNeedsQuiet | linrdp/src/mic.rs:281-292 | a close is preceded by at least two seconds in which every observation was non-recording |
| MicControl.CloseNamesLatestOpen | linrdp/src/mic.rs:436-492 | a close names the id assigned to the latest open |
| MicTurns.OpensIff | linrdp/src/mic.rs:269-280 | over every run, a turn asks for the channel if and only if something records, there is no channel, none was refused, and recording stopped since each client close |
| MicTurns.OpensAgain | linrdp/src/mic.rs:269-318 | after a client close and a stop the next recording opens the channel |
| MicTurns.ClosesIff | linrdp/src/mic.rs:281-292 | a turn closes the channel if and only if it was open with nothing recording throughout at least two seconds |
| MicControl.Control.Advance | linrdp/src/mic.rs:269-292 | step and new state of the automaton |
| MicControl.Control.OnAssigned | linrdp/src/mic.rs:296-304 | the new state for an id or for none |
| MicControl.Control.OnRefused | linrdp/src/mic.rs:307-310 | the new state after a refusal |
| MicControl.Control.OnClosedByClient | linrdp/src/mic.rs:313-317 | the new state after a client close |
| MicControl.Watcher.Turn | linrdp/src/mic.rs:436-492 | one tick handles reply, fate and observation in that order, as the proved step does |
| SoundGate.HeldAcrossWrap | linrdp/src/sound_real.rs:404-412 | a residence time up to five seconds is read back exactly across the wrap of the 16-bit clock |
| SoundGate.Run | linrdp/src/sound_real.rs:253-433 | over all interleavings of sends, confirms and restarts the in-flight count stays in 0..5 and the backlog gauge in 0..5000 |
| SoundGate.StepExactIff | linrdp/src/sound_real.rs:253-433 | an exact in-flight count stays exact if and only if no self-heal, overwritten unconfirmed block or restart with waves outstanding happens |
| SoundGate.RunExact | linrdp/src/sound_real.rs:253-433 | without those, the count is the number of sent and unconfirmed blocks over the whole run, however often each is confirmed |
| SoundGate.EwmaQuarterStep | linrdp/src/sound_real.rs:425-427 | the backlog gauge moves a quarter of the way to the new reading, up to rounding |
| SoundGate.GaugeFollows | linrdp/src/sound_real.rs:404-433 | over any run, a confirm of a recorded block moves the gauge a quarter of the way, from empty all the way, to the longest residence reported for that block, and keeps the time |
| SoundGate.BacklogGateIff | linrdp/src/sound_real.rs:262-305 | on an empty gauge, a wave sent at t and confirmed at c as held for d ms closes the gate if and only if d > 400 and now < c + d - 250; otherwise the next chunk goes out |
| SoundGate.FlightGateIff | linrdp/src/sound_real.rs:284-305 | on an empty gauge a chunk goes out if and only if fewer than five waves are in flight or the last confirm is more than 1500 ms old; then the count starts over |
| SoundGate.UnknownConfirmDelays | linrdp/src/sound_real.rs:428-432 | a confirm of an unknown block puts that off to 1500 ms after it |
| SoundGate.RestartBegins | linrdp/src/sound_real.rs:245-252 | after a restart the first wave is number 1 and alone in flight |
| SoundGate.RunSlot | linrdp/src/sound_real.rs:404-424 | over any run, until its slot is reused, a wave keeps the longest residence any of its confirms reported |
| SoundGate.NeverWedged | linrdp/src/sound_real.rs:262-305 | 4750 ms after the last confirm every non-silent chunk passes both gates, from any bounded state |
| SoundGate.TurnConserves | linrdp/src/sound_real.rs:643-669 | one capture turn loses no byte: each is sent, dropped as the oldest of an overfull queue, or still queued, in order |
| SoundGate.TurnSends | linrdp/src/sound_real.rs:643-669 | a turn with 7680 bytes or more sends one chunk; more than 61440 are cut to the newest 7680 before |
| SoundGate.CaptureLoop | linrdp/src/sound_real.rs:615-690 | the same over a whole capture: waves are whole chunks, at most seven chunks stay queued |
| SoundGate.SoundHandler.WaveConfirm | linrdp/src/sound_real.rs:404-433 | the counters and the ring slot after a confirm |
| SoundGate.SoundHandler.SendChunk | linrdp/src/sound_real.rs:253-372 | the counters and the ring slot after a chunk, and whether it went out |
| SoundGate.SoundHandler.constructor | linrdp/src/sound_real.rs:199-204 | the start state is bounded and its count exact |
| Downloads.SizeRoundTrip | linrdp/src/clipboard.rs:1208-1211 | a size sent as eight little-endian bytes is the size read on the other side |
| Downloads.RespondSound | linrdp/src/clipboard.rs:1235-1321 | every response keeps the invariant; an accepted one strictly uses up potential, any other, an id that is not the current one included, changes nothing |
| Downloads.LateAnswerAcceptedIff | linrdp/src/clipboard.rs:1235-1242 | an answer to the last request of a replaced download is accepted by the current one if and only if both have asked for the same number of files modulo 2^32 |
| Downloads.LateAnswerExample | linrdp/src/clipboard.rs:1235-1395 | a concrete replaced download whose late byte becomes the content of the new file |
| Downloads.RequestBounds | linrdp/src/clipboard.rs:348-370 | a RANGE request asks right behind what is written for 1 to 512 KiB, never past the admitted size, and less than a chunk only for the end of the file |
| Downloads.DownloadSafe | linrdp/src/clipboard.rs:281-371 | in every state of every run: bytes written = offset, offset + remaining = admitted size, budget + admitted sizes = 4 GiB, a stored file has exactly its announced size, admitted sizes are at most 2 GiB; at most 2^32 + 2n responses are accepted |
| Downloads.RunFaithful | linrdp/src/clipboard.rs:1235-1321 | if the client answers truthfully, every stored file has the client's bytes and the open file a prefix of them, whatever fails in between |
| Downloads.DownloadDelivers | linrdp/src/clipboard.rs:1235-1395 | if nothing fails and the list is within the limits, a finished run has stored every listed file, in list order, with the client's bytes |
| Skips.DownloadSkips | linrdp/src/clipboard.rs:302-346 | if the client answers truthfully, a finished download has stored exactly the files that fit the limits and can be created, in list order, with the client's bytes |
| Skips.SkippedAlone | linrdp/src/clipboard.rs:302-346 | with room for every file of at most 2 GiB, each file's fate is its own |
| Paste.Download.constructor | linrdp/src/clipboard.rs:1324-1395 | expected paths, made directories, queue and first request for a descriptor list |
| Paste.Download.Advance | linrdp/src/clipboard.rs:302-346 | the loop to the next request moves the state as the proved function does |
| Paste.Download.OnFileContentsResponse | linrdp/src/clipboard.rs:1235-1321 | one response moves the state as the proved step does |
| Paste.PublicationRoots | linrdp/src/clipboard.rs:1404-1416 | the roots that appear and whose expected entries are all done, each once, in the order of first appearance |
| Paste.LandedIff | linrdp/src/clipboard.rs:1324-1395 | with distinct paths an entry's path is in `done` exactly when that entry was made or stored |
| Paste.RunPublishes | linrdp/src/clipboard.rs:1324-1416 | for every list with distinct paths and every run, a root is published exactly when something was expected under it and all of it landed |
| Paste.RangeResponseLen | linrdp/src/clipboard.rs:1422-1426 | an answer is all that was asked, a whole chunk, or what is left of the offered file, and never more than any of them |
| ClipText.TextToCrlf | linrdp/src/clipboard.rs:1461-1479 | every line end becomes CRLF, and no bare CR or LF is left |
| ClipText.CrlfIdempotent | linrdp/src/clipboard.rs:1461-1479 | rewriting twice is rewriting once |
| ClipText.Utf16RoundTrip | linrdp/src/clipboard.rs:1482-1489 | decoding the UTF-16 of any text gives the text (section 2 of RFC 2781) |
| ClipText.EncodeIs | linrdp/src/clipboard.rs:1482-1489 | a character above U+FFFF is a high and a low surrogate with ten bits each (section 2.1 of RFC 2781) |
| ClipText.WireIs | linrdp/src/clipboard.rs:1482-1489 | two bytes for each ordinary character, low byte first, and a final NUL |
| ClipText.LoneSurrogate | linrdp/src/clipboard.rs:580-587 | a surrogate without its partner is read as U+FFFD and spoils no neighbour |
| ClipText.LossyExtendsStrict | linrdp/src/clipboard.rs:580-587 | the lossy reading equals the strict one wherever that exists |
| ClipText.ReceivedIs | linrdp/src/clipboard.rs:1156-1160 | what arrives of any text is what precedes its first NUL, each line end as LF |
| ClipText.TextRoundTripIff | linrdp/src/clipboard.rs:1461-1489 | a text comes back unchanged if and only if it has neither CR nor NUL |
| Dib.EightBitMask | linrdp/src/clipboard.rs:554-567 | a mask of eight consecutive ones reproduces those eight bits |
| Dib.ContiguousMask | linrdp/src/clipboard.rs:554-567 | a mask of n ones anywhere takes those n bits and scales them to eight, rounded down from eight bits on and to the nearest below |
| Dib.AcceptedHolds | linrdp/src/clipboard.rs:477-527 | an accepted header leaves every row within the bytes |
| Dib.DecodeDib | linrdp/src/clipboard.rs:477-551 | the loops compute the image row by row, all reads in bounds, None exactly for a refused header |
| Dib.ImagePixel | linrdp/src/clipboard.rs:529-551 | exactly 3*w*h bytes come out, and each is the channel of the stored word of its pixel in the row the orientation says |
| Dib.DecodesStoredBytes | linrdp/src/clipboard.rs:477-551 | with the standard masks the three bytes of each pixel are the three stored for it |
| DibLayout.DecodesIff | linrdp/src/clipboard.rs:477-551 | exactly which byte strings are decoded, in terms of the header's bytes, and to what size |
| DibLayout.PictureBytes | linrdp/src/clipboard.rs:505-551 | with plain masks each byte of the picture is the byte at pixel offset + stride * row + column, red last, from the header's bytes alone |
| DibLayout.PictureWords | linrdp/src/clipboard.rs:505-551 | with any masks it is the pixel's stored word through the mask of the channel |
| DibTwins.TwinDecodesAlike | linrdp/src/clipboard.rs:529-551 | an accepted image and its height-negated, row-reversed twin decode identically when no masks are read, the pixels start at byte 52 or later, or there is one row |
| DibTwins.AlwaysAlikeIff | linrdp/src/clipboard.rs:477-551 | for every acceptable header, all images with it decode like their twins if and only if no masks are read, the pixels start at byte 52 or later, or there is one row |
| DibTwins.UnsafeDiffers | linrdp/src/clipboard.rs:505-551 | every other header has an image and a twin that decode differently |
| DibTwins.TwinDiffers | linrdp/src/clipboard.rs:505-515 | the same for one concrete header |
| Sam.OpenSealed | linrdp/src/sam.rs:96-142 | a sealed password opens for its account with the key of the mode the blob names |
| SamText.OpensIff | linrdp/src/sam.rs:91-142 | with an authenticated cipher a sealed password opens if and only if it is read for its own account and with its own key |
| Sam.ParseBody | linrdp/src/sam.rs:160-190 | the loop over the lines fills the map the later lemmas are about |
| Sam.RenderBody | linrdp/src/sam.rs:194-204 | the loop writes header and lines in the iteration order |
| Sam.RoundTripIff | linrdp/src/sam.rs:160-204 | for every map and iteration order the rendered body parses to the map if and only if all names are non-empty and free of ':' and newline |
| Sam.RenderedNames | linrdp/src/sam.rs:208-210 | the names of a rendered body are its accounts, in order, and it is never taken for legacy |
| Sam.ParsedNames | linrdp/src/sam.rs:160-190 | whatever body is read, sealed or legacy, only well-formed names come out |
| Sam.MigrationKeeps | linrdp/src/sam.rs:410-447 | rewriting any body keeps what it parses to and leaves it sealed |
| SamText.ClearStoreReads | linrdp/src/sam.rs:160-190 | a store in the clear, with line breaks of either kind, gives each account the rest of its last line, and counts as legacy unless empty |
| SamText.TrimIs | linrdp/src/sam.rs:227-253 | trimming takes white space off both ends and nothing else |
| SamText.LegacyIff | linrdp/src/sam.rs:208-210 | a store is legacy if and only if it is not blank and does not start with the header |
| SamText.IkmIs | linrdp/src/sam.rs:227-253 | the key input is the board's uuid, unless blank, followed by the machine's id, both trimmed |
| Sam.IkmAgrees | linrdp/src/sam.rs:231-253 | the read side rebuilds the sealing input of the recorded mode; with another board uuid exactly when the uuid was not used or is the same |
| SamStore.StepKeeps | linrdp/src/sam.rs:329-447 | every step of every process, crashes included, keeps one writer at a time working on the store as it is |
| SamStore.NoLostUpdateIff | linrdp/src/sam.rs:375-447 | after any interleaving the file is one whole body, sealed from the first rewrite on, and parses to the committed rewrites applied in lock order if and only if each names an account a line can carry |
| SamStore.BadNameExample | linrdp/src/sam.rs:375-389 | a committed change whose account name does not survive the file |
| SamStore.RenameKeeps | linrdp/src/atomic.rs:17-39 | only a completely written temporary file replaces the store |
| SamStore.FailureLeavesNothing | linrdp/src/atomic.rs:17-39 | a rewrite that fails leaves the file, a free lock and no temporary file; one that dies leaves its temporary file behind |
| SamStore.LastChangeWins | linrdp/src/sam.rs:375-389 | an account ends with the password of its last committed change |
| SamStore.MigrationSealsIff | linrdp/src/sam.rs:410-447 | one process migrating alone rewrites the store if and only if it can read it and it holds passwords in the clear, and leaves it sealed with the same accounts |
| SamStore.FailedReadIff | linrdp/src/sam.rs:382-384 | taking an unreadable store for empty loses nothing if and only if no other account is in it |
| SamStore.FailedReadLoses | linrdp/src/sam.rs:382-389 | a password set while the store is unreadable leaves only that account |
| SamStore.FailedReadExample | linrdp/src/sam.rs:382-389 | a concrete store and call for which the file is not the committed rewrites |

## Left out

- X11, PulseAudio, PAM, D-Bus, TLS, UDP and process handling: foreign calls; their outcomes are arbitrary inputs where a model needs them.
- x264, ClearCodec, Opus, PNG, AES-GCM, HKDF and base64: libraries; abstract functions or outcomes here.
- Floating-point rate control and the byte budget it computes: any budget is allowed instead.
- The ClearCodec glyph cache: inside the encoder.
- The fixed-size re-apply at linrdp/src/capture.rs:775-778: it changes the recorded geometry without dropping the baseline, outside the polling protocol modelled here.
- `legacy_display_update_of`, `argb_to_rdp_xor`, the cursor slot cache and Suppress Output: per-pixel copies and one-branch facts.
- `Converter::convert` in mic.rs: channel mixing before the resampler, easy beside it.
- `safe_relative`, `path_to_uri` and `parse_uri_list`: a descriptor's path is given, None for an unsafe name.
- Serving files to the client beyond `range_response_len`.
- Opus bitrate steps in the sound sender, and its end when the event channel is gone: no effect on flow control.
- UTF-8 encoding of strings: names, passwords and bodies are character sequences.
- Capture.ComputeTileDamage: a diff is specified for sides up to 65472; past that the scan does not end (Capture.CursorEndsIff).
- DisplayLoop.EgfxUpdates.NextUpdate: the bitmap, resize and cursor updates it returns are not part of its contract; `Legacy` models what the bitmap updates carry.
- Legacy.StreamAgrees: streams that were never on the graphics pipeline, up to the resize that ends them.
- Session.Drive: its last clause is for sessions whose image requests were answered; PollInner says what a failing one loses.
- Yuv444v2.RoundTrip: frame widths are multiples of 4 (the code pads to 16), and the decoder is this model's reading of the standard.
- SamStore.NoLostUpdateIff: reads under the lock succeed or find no other account (SamStore.FailedReadIff is the other case), and a reader is any look at the file between two steps.
- SoundGate.RunExact: says nothing after a self-heal, an overwritten unconfirmed block or a restart with waves outstanding, where the count is only an estimate.
