# Verified model of the race orchestrator

A Dafny model of the logic that decides what the racing venue's orchestrator and
sleds do, with proofs that it does it. The modules follow the program:

| modules | what they model |
|---|---|
| Binary, GaloisField, GaloisTables, GaloisAlgebra, Polynomial, ReedSolomon, Bch | the arithmetic of the QR generator: GF(256), Reed-Solomon, the BCH words |
| BitStream, Codewords, Blocks, Zigzag, QrLayout, QrPattern, QrMatrix, QrCode | the QR generator itself, ISO/IEC 18004 versions 1 to 10 at level L with mask 0, and a reader for its symbols |
| QrStream, QrPicture | what its codewords and modules are, spelled out without its functions |
| LapValidity, LapCapture, RaceControl, CommandEffects | the sled's lap validity latch, the orchestrator's heartbeat and command endpoints, and what commands leave behind |
| AppState, Registry, CheckIns, StateEffects, CheckInEffects | rigs, groups, race sessions, check-ins; `Registry` is the mutable object, `AppState` what its methods compute, the last two what that is field by field |
| Leaderboard, IndexRows, Standings, RidgeSync | the laps table with its session-best index, the tables read from it, the upload to the Ridge server |
| IniMerge, IniEffects, IniStability, VideoBackup, ServerPorts | the two rewrites of video.ini, what they read and write, and when a second one changes nothing, their backup, and the ports of the race servers |
| Wrappers, OrderedDict | options and insertion-ordered dictionaries |

Mutable objects are classes whose methods are proved against functions on
values; the laws are then lemmas about those functions over every input or
every run, and beside them lemmas that say what the functions compute in the
fields of the records alone, without the functions' names. Bytes are integers from 0 to 255 and exclusive or is defined bit by
bit. Clocks, lap times, network outcomes, file failures and the results of
process starts are parameters. Every endpoint and database call is one step;
an upload takes one step per request, with other uploads and database steps in
between, and a poll, made of single writes, applies its reply to rows it may have read long
before.

How the main results hang together:

- **QR.** `GaloisAlgebra` shows that the tables multiply as the field does.
  `ReedSolomon` shows that a block with its check bytes is a code word and that
  code words lie more than `ec_len` bytes apart. `QrLayout.PlacementIsBijection` counts
  and orders the data modules for all ten versions. `QrMatrix.Matrix.Draw`
  draws in place, and `QrCode.GenerateQrMatrix` closes the circle: reading the symbol gives back the payload.
  `QrStream` and `QrPicture` spell out the codewords and every kind of module.
- **Laps.** `LapValidity` says what the reported flag means frame by frame,
  `LapCapture.RecordedFaithful` carries that meaning through arbitrary heartbeat
  sampling to the recorded lap. `LapCapture.LogGrowsIff` says when a lap must be recorded, and
  `CommandEffects.LapsUnderLaunch` where the laps of a race go.
- **Index and upload.** `Leaderboard` keeps the index sound over every run,
  `Standings.StandingsAgree` compares the two tables read from it, and `RidgeSync`
  proves safety over all runs and convergence of fault-free calls.

Where the code differs from what one might expect:

- The QR round trip holds iff the payload has at most 271 bytes; beyond that
  version 10 is drawn without a fit and the symbol does not decode to the payload.
- The format bits stand at coordinates with row and column exchanged relative to
  section 7.9 of ISO/IEC 18004:2015. They are modelled where the code writes
  them. Bit 7 of the second copy is written on the dark module.
- `finish_race_session` treats an empty list of rigs as no list and finishes
  every session, so a kill of an empty group ends everyone's. It also gives the
  session started last a new finishing time, finished or not, so one that was due
  to be dropped is listed for another three minutes.
- A new record for a rig that a group lists has no group id. That happens when
  the rig was reaped and is heard from again, and when it was listed before it
  was first heard from, and after every restart; nothing else does it.
- A new record also starts armed, at count 0 and without a kill guard. A rig that
  was silent for ten seconds, or that reports to a restarted orchestrator, has
  its current lap recorded again, or a lap of the race before a reset; a kill is
  forgotten; and a group launch arms the listed rigs that have no record.
- A status update over HTTP never takes a racing or ready rig back to idle or
  setup: the three-second test compares with the contact that has just been noted.
- A reaped rig has also lost its unbound flag: a claim re-binds it unless its
  row still reads unbound.
- A lap is recorded as valid with no frame of a lap behind it unless the counter's
  last change before the heartbeat was a rise over a frame of a lap: when it fell
  between two heartbeats to a value still above the last count, or when a
  restarted sled's first frame is above it.
- A poll looks at a rig's flag first and writes later, in a thread of its own: an
  unbind made in between is overwritten.
- The loops that send a command end with an error at the first rig whose record
  has no address, one made by a launch, a poll, a registration, the naming or
  clearing of a driver or the QR switch before the rig itself was heard from. A kill of all rigs
  then misses the rigs after it; a kill of a group does not.
- `delete_record` recomputes the index from all laps, invalid ones included: an
  invalid time moves into the row exactly when no valid lap has the fastest time left.
- The video.ini rewrites are idempotent on every newline-terminated file, on other files
  exactly under the condition of `IniStability.RewriteTwiceIff`. The backup is
  lost when its first write breaks off part-way. A game that ended by itself
  leaves the low-quality file in place when it is killed.

## Model

| member | source | states |
|---|---|---|
| `GaloisField.MulReduces` | apps/orchestrator/services/qr_generator.py:24-41 | the shift-and-add product equals the carry-less product reduced modulo 0x11D: the two differ by a multiple of 0x11D |
| `GaloisField.MulPlus` | apps/orchestrator/services/qr_generator.py:38-41 | the product distributes over exclusive or |
| `GaloisField.ExpAdd` | apps/orchestrator/services/qr_generator.py:28-35 | alpha^i times alpha^j is alpha^(i+j), with alpha^(k+1) one turn of the table loop |
| `GaloisTables.NoShorterPeriod` | apps/orchestrator/services/qr_generator.py:28-35 | alpha has order 255: no shorter period |
| `GaloisAlgebra.HasLog` | apps/orchestrator/services/qr_generator.py:26-33 | every non-zero byte is a power of alpha with exponent below 255, so the 255 turns of the loop fill every log entry but 0 |
| `GaloisAlgebra.MulComm` | apps/orchestrator/services/qr_generator.py:38-41 | the product commutes |
| `GaloisAlgebra.MulAssoc` | apps/orchestrator/services/qr_generator.py:38-41 | the product is associative |
| `GaloisAlgebra.NoZeroDivisors` | apps/orchestrator/services/qr_generator.py:38-41 | a product is 0 iff a factor is: the early return is exactly the zero case |
| `GaloisAlgebra.Inverse` | apps/orchestrator/services/qr_generator.py:38-41 | every non-zero byte has an inverse |
| `GaloisAlgebra.Tables.constructor` | apps/orchestrator/services/qr_generator.py:24-35 | the loops fill the 512 antilogs and the 256 logs with powers of alpha and discrete logarithms |
| `GaloisAlgebra.Tables.Product` | apps/orchestrator/services/qr_generator.py:38-41 | the product read from the tables is the field product, no index out of range |
| `Polynomial.EvalMul` | apps/orchestrator/services/qr_generator.py:44-53 | evaluation turns a product of polynomials into a product of values |
| `ReedSolomon.GeneratorPoly` | apps/orchestrator/services/qr_generator.py:44-53 | the nested loops compute the generator polynomial, for any degree the table reaches |
| `ReedSolomon.GeneratorMonic` | apps/orchestrator/services/qr_generator.py:45-53 | its leading coefficient is 1 |
| `ReedSolomon.GeneratorIsProduct` | apps/orchestrator/services/qr_generator.py:46-53 | it is the product of (x - alpha^i) for i below the degree, at every x |
| `ReedSolomon.GeneratorRoots` | apps/orchestrator/services/qr_generator.py:46-53 | its roots are exactly alpha^0 .. alpha^(degree-1) |
| `ReedSolomon.Encode` | apps/orchestrator/services/qr_generator.py:56-65 | the shift register computes the remainder `CheckBytes`, skipped turns included |
| `ReedSolomon.DivisionIdentity` | apps/orchestrator/services/qr_generator.py:56-65 | data followed by the remainder is quotient times generator, coefficient by coefficient |
| `ReedSolomon.EncodedIsCodeword` | apps/orchestrator/services/qr_generator.py:56-65 | data followed by its check bytes is a multiple of the generator and vanishes at alpha^0 .. alpha^(ec_len-1) |
| `ReedSolomon.CheckBytesUnique` | apps/orchestrator/services/qr_generator.py:56-65 | no other check bytes complete the data to a code word (blocks up to 255 bytes) |
| `ReedSolomon.Vandermonde` | apps/orchestrator/services/qr_generator.py:56-65 | at most n terms with distinct locators whose first n power sums vanish are zero |
| `ReedSolomon.MinimumDistance` | apps/orchestrator/services/qr_generator.py:56-65 | two different code words of at most 255 bytes differ in more than ec_len places |
| `ReedSolomon.UniqueCorrection` | apps/orchestrator/services/qr_generator.py:56-65 | up to ec_len / 2 wrong bytes leave the sent word as the only code word in reach |
| `Bch.ShiftXor` | apps/orchestrator/services/qr_generator.py:68-83 | the loop both BCH functions share, for any generator and width, computes `Divide` |
| `Bch.DivideReduces` | apps/orchestrator/services/qr_generator.py:72-74 | its result is below the generator's degree and off by a multiple of the generator: the GF(2) remainder |
| `Bch.AppendIsCodeword` | apps/orchestrator/services/qr_generator.py:75-83 | data followed by the remainder is a multiple of the generator, the data is its high part, and no other low part does this |
| `Bch.BchFormatBits` | apps/orchestrator/services/qr_generator.py:68-75 | the format loop computes `FormatBits` for any level and mask |
| `Bch.BchVersionBits` | apps/orchestrator/services/qr_generator.py:78-83 | the version loop computes `VersionBits` |
| `Bch.FormatReadable` | apps/orchestrator/services/qr_generator.py:68-75 | unmasked, the format word is a multiple of 0x537 whose high part is level and mask |
| `Bch.VersionReadable` | apps/orchestrator/services/qr_generator.py:78-83 | the version word is a multiple of 0x1F25 whose high part is the version |
| `Bch.FormatWord` | apps/orchestrator/services/qr_generator.py:255 | level L with mask 0 gives 0x77C4 |
| `BitStream.NatRoundTrip` | apps/orchestrator/services/qr_generator.py:122-126 | the bits written for a number read back as it |
| `BitStream.PackByteBits` | apps/orchestrator/services/qr_generator.py:124-139 | packing undoes unpacking |
| `BitStream.ByteBitsPack` | apps/orchestrator/services/qr_generator.py:134-139 | unpacking undoes packing |
| `BitStream.PackBytes` | apps/orchestrator/services/qr_generator.py:134-139 | the packing loop computes `Pack` |
| `Codewords.ChooseVersion` | apps/orchestrator/services/qr_generator.py:106-114 | the smallest version that fits, version 10 when none does |
| `QrStream.CapacityTable` | apps/orchestrator/services/qr_generator.py:11-22 | total codewords, check codewords, blocks and payload bytes of versions 1 to 10, in figures |
| `Codewords.Terminate` | apps/orchestrator/services/qr_generator.py:128-132 | terminator and zero fill up to a byte boundary, none of the terminator when there is no room |
| `Codewords.BuildCodewords` | apps/orchestrator/services/qr_generator.py:119-145 | the bit-stream, packing and padding loops compute `Encoded` |
| `Codewords.EncodedLength` | apps/orchestrator/services/qr_generator.py:141-145 | a payload that fits fills exactly the data codewords |
| `QrStream.HeaderLayout` | apps/orchestrator/services/qr_generator.py:119-123 | the codewords begin with 0100 and the number of bytes, highest bit first |
| `QrStream.PayloadLayout` | apps/orchestrator/services/qr_generator.py:124-132 | then the bits of the bytes, highest first, then four zeros |
| `QrStream.PadLayout` | apps/orchestrator/services/qr_generator.py:141-145 | the rest is 0xEC and 0x11 by turns |
| `QrStream.OverlongLayout` | apps/orchestrator/services/qr_generator.py:119-145 | a payload that does not fit has its header in place and its bytes cut off where the codewords end |
| `Codewords.ParseStream` | apps/orchestrator/services/qr_generator.py:119-126 | mode, count and payload read back whatever follows them |
| `Codewords.ParseEncoded` | apps/orchestrator/services/qr_generator.py:106-145 | the data codewords parse to the payload iff it fits the version |
| `Blocks.SplitBlocks` | apps/orchestrator/services/qr_generator.py:148-157 | the loop computes `Split`: lengths differ by at most one, the longer blocks last |
| `Blocks.JoinSplit` | apps/orchestrator/services/qr_generator.py:148-157 | the blocks joined are the data, for any block count |
| `Blocks.InterleaveBlocks` | apps/orchestrator/services/qr_generator.py:160-169 | the column loop computes `Interleave` |
| `Blocks.InterleaveSlots` | apps/orchestrator/services/qr_generator.py:160-169 | interleaving keeps the number of bytes and puts every byte in its slot |
| `Blocks.DeinterleaveInterleave` | apps/orchestrator/services/qr_generator.py:160-169 | de-interleaving undoes interleaving, for any block count and any total length |
| `Zigzag.WalkMember` | apps/orchestrator/services/qr_generator.py:234-252 | the walk visits a module iff it lies in the grid off column 6 |
| `Zigzag.WalkNoDup` | apps/orchestrator/services/qr_generator.py:234-252 | and no module twice |
| `QrLayout.RectsApart` | apps/orchestrator/services/qr_generator.py:185-231 | the function areas of every version, cut into rectangles, are pairwise disjoint |
| `QrLayout.DataModules` | apps/orchestrator/services/qr_generator.py:233-252 | the modules outside them are 8 times the total codewords plus 0 or 7 |
| `QrLayout.PlacementIsBijection` | apps/orchestrator/services/qr_generator.py:233-252 | the zig-zag visits every data module exactly once and no other, so every codeword bit has its module |
| `QrPattern.DrawnIffFunction` | apps/orchestrator/services/qr_generator.py:180-231 | a module is drawn by some pattern iff it lies in the function area |
| `QrMatrix.Matrix.DrawFinders` | apps/orchestrator/services/qr_generator.py:185-193 | three overlays of `FinderAround` at the three corners, every other module unchanged; QrPicture.FinderPicture says what a finder shows |
| `QrMatrix.Matrix.DrawAlignments` | apps/orchestrator/services/qr_generator.py:200-208 | alignment patterns in drawing order, corners skipped |
| `QrMatrix.Matrix.ReserveFormat` | apps/orchestrator/services/qr_generator.py:210-222 | dark module and reserved modules, none overwritten |
| `QrMatrix.Matrix.DrawVersion` | apps/orchestrator/services/qr_generator.py:224-231 | both version blocks, for versions 7 to 10 |
| `QrMatrix.Matrix.DrawPatterns` | apps/orchestrator/services/qr_generator.py:185-231 | the function modules after all patterns, later drawing over earlier |
| `QrMatrix.Matrix.PlaceData` | apps/orchestrator/services/qr_generator.py:233-252 | the k-th data module of the walk holds bit k under mask 0; function modules keep their value |
| `QrMatrix.Matrix.WriteFormat` | apps/orchestrator/services/qr_generator.py:254-267 | both copies of the format word, every other module unchanged |
| `QrMatrix.FormatOnReserved` | apps/orchestrator/services/qr_generator.py:254-267 | the format writes touch reserved modules only |
| `QrMatrix.DarkModuleStaysDark` | apps/orchestrator/services/qr_generator.py:211-267 | bit 7 of the second copy falls on the dark module and leaves it dark |
| `QrMatrix.FormatTwice` | apps/orchestrator/services/qr_generator.py:254-267 | both copies hold all fifteen bits |
| `QrMatrix.Matrix.Draw` | apps/orchestrator/services/qr_generator.py:176-267 | the finished symbol: `Shows` fixes every function and every data module; the lemmas of QrPicture spell it out |
| `QrPicture.FinderPicture` | apps/orchestrator/services/qr_generator.py:185-193 | in a finished symbol all three finders are a dark frame, a light ring and a dark three by three core, with light modules around |
| `QrPicture.AlignmentPicture` | apps/orchestrator/services/qr_generator.py:200-208 | one alignment pattern from version 2, six from version 7: a dark five by five frame with a dark centre |
| `QrPicture.TimingPicture` | apps/orchestrator/services/qr_generator.py:195-198 | row 6 and column 6 are dark on even positions between the finders, across alignment patterns too |
| `QrPicture.FormatPicture` | apps/orchestrator/services/qr_generator.py:254-267 | the fifteen bits of the word for level L and mask 0, listed, at both places |
| `QrPicture.VersionPicture` | apps/orchestrator/services/qr_generator.py:224-231 | the eighteen bits of the version word at both places, from version 7 |
| `QrPicture.DataPicture` | apps/orchestrator/services/qr_generator.py:233-252 | data module k shows bit k, or a light bit past the end, inverted where row plus column is even |
| `QrPicture.DataOrder` | apps/orchestrator/services/qr_generator.py:234-252 | data modules come in the order of column pairs from the right, up and down by turns, right module first |
| `QrPicture.QuietZone` | apps/orchestrator/services/qr_generator.py:269-275 | the border is light on all four sides and the symbol stands inside it unchanged |
| `QrCode.InterleavedParts` | apps/orchestrator/services/qr_generator.py:147-169 | data blocks and check blocks come back from the interleaved sequence |
| `QrCode.BuildSequence` | apps/orchestrator/services/qr_generator.py:116-169 | codewords, blocks, check bytes and interleaving in one |
| `QrStream.DataBytesLayout` | apps/orchestrator/services/qr_generator.py:147-165 | the sequence has byte i of block b at place b of row i, the last shorter row only of the longer blocks, which come last |
| `QrStream.CheckBytesLayout` | apps/orchestrator/services/qr_generator.py:155-169 | then check byte i of block b at place b of row i |
| `QrCode.ReadDrawn` | apps/orchestrator/services/qr_generator.py:116-275 | a drawn symbol reads back as its data blocks and their check blocks |
| `QrCode.SymbolBlocksAreCodewords` | apps/orchestrator/services/qr_generator.py:147-158 | every block of a symbol with its check bytes is a Reed-Solomon code word |
| `QrCode.DamagedBlockRecoverable` | apps/orchestrator/services/qr_generator.py:147-158 | a block of a symbol with up to half as many damaged bytes as check bytes determines the data drawn |
| `QrCode.AddBorder` | apps/orchestrator/services/qr_generator.py:269-275 | the symbol inside a light quiet zone |
| `QrCode.GenerateQrMatrix` | apps/orchestrator/services/qr_generator.py:103-275 | decoding the result gives the payload iff it has at most 271 bytes; the version is the smallest that fits |
| `LapValidity.LapLatch.GetData` | apps/sled/telemetry.py:336-359 | one frame: the three branches of the latch and the two flags reported |
| `LapValidity.LapLatch.ResetLapState` | apps/sled/telemetry.py:301-305 | a reset returns to the initial state |
| `LapValidity.CurrentIsConjunction` | apps/sled/telemetry.py:336-357 | the current flag is the conjunction of the frames of the lap in progress |
| `LapValidity.LastIsConjunction` | apps/sled/telemetry.py:340-345 | the last flag is the conjunction of the frames of the lap that ended at the last rise; the rise frame opens the next lap, a frame whose counter fell is excluded |
| `LapValidity.LastWithoutRise` | apps/sled/telemetry.py:346-350 | with no completed lap since the last reset the flag reads valid |
| `LapValidity.ReportUnique` | apps/sled/telemetry.py:336-357 | the frame-by-frame description of a report determines the flag for every history |
| `LapValidity.ReportedLapIff` | apps/sled/telemetry.py:336-357 | a report describes a completed lap, one with at least one frame, iff the counter's last change was a rise and the event before it belonged to a lap; otherwise it reads valid |
| `LapCapture.KillSticks` | apps/orchestrator/routers/rigs.py:138-175 | after a kill no heartbeats within ten seconds make the rig racing unless a launch intervenes or its record is lost |
| `LapCapture.KillSticksIff` | apps/orchestrator/routers/rigs.py:138-175 | and it stays guarded throughout iff neither happens |
| `LapCapture.ReapedKillForgotten` | apps/orchestrator/services/heartbeat.py:66-71 | a rig reaped after its kill is racing again with its next report |
| `LapCapture.KillArmsGuard` | apps/orchestrator/routers/commands.py:153-170 | every kind of kill arms the guard, and the first racing report lifts it iff ten seconds have passed |
| `LapCapture.ResetDisarms` | apps/orchestrator/routers/commands.py:149-151 | LAUNCH, KILL and SETUP disarm; the rig stays disarmed iff no heartbeat shows lap 0 or a drop and no new record is made, and until then nothing is recorded |
| `LapCapture.DisarmedRecordsNothing` | apps/orchestrator/routers/rigs.py:193-214 | over runs with reaping, restarts and new records, a rig that is disarmed or has no record stays so iff no step re-arms it or makes a record, and until then records nothing |
| `LapCapture.DisarmedStepIff` | apps/orchestrator/routers/rigs.py:193-214 | the same for one step |
| `LapCapture.HeartbeatEffect` | apps/orchestrator/routers/rigs.py:133-192 | all fields after a heartbeat: a racing report is blocked for ten seconds after a kill, and no report of idle or setup takes a racing or ready rig back; only explicit selections change the car |
| `LapCapture.RacingEndsIff` | apps/orchestrator/routers/rigs.py:158-171 | a racing rig stops racing iff its record is lost, a kill, setup, group or global command reaches it, or it reports ready or an error |
| `LapCapture.CounterEffect` | apps/orchestrator/routers/rigs.py:193-214 | while racing the count follows the counter, and 0 or a drop re-arms |
| `LapCapture.LapRecordedIff` | apps/orchestrator/routers/rigs.py:193-302 | a lap is recorded iff the rig is racing, armed, the counter is above the last count and not 0, and the time positive; it carries counter, time and flag, valid or not |
| `LapCapture.LogGrowsIff` | apps/orchestrator/routers/rigs.py:193-302 | over every history of sled and orchestrator a heartbeat adds exactly one such lap, or none |
| `LapCapture.CommandEffect` | apps/orchestrator/routers/commands.py:146-197 | all fields after a command, action by action |
| `LapCapture.RediscoveryRecordsStaleLap` | apps/orchestrator/state.py:229-244 | a disarmed rig, reaped and heard from again, records the lap of the race before |
| `LapCapture.RecordedIncrease` | apps/orchestrator/routers/rigs.py:193-302 | between points that re-arm the rig or make a new record, recorded lap numbers strictly increase |
| `LapCapture.RediscoveryRepeatsLap` | apps/orchestrator/state.py:229-244 | a rig reaped in the middle of a race and heard from again records the same lap twice |
| `LapCapture.RecordedFaithful` | apps/orchestrator/routers/rigs.py:193-302 | for every history of frames, resets, heartbeats and commands a recorded lap carries the sled's counter and the flag the latch reports for the events seen |
| `LapCapture.RecordedLapIff` | apps/orchestrator/routers/rigs.py:193-302 | that flag is the conjunction over a lap, with at least one frame, that ended when the counter last rose iff the counter's last change was a rise over a frame of a lap; otherwise the lap is recorded as valid with no frame behind it |
| `LapCapture.FallRecordsValidLap` | apps/orchestrator/routers/rigs.py:193-302 | four frames and a heartbeat that record a valid lap after the counter fell |
| `LapCapture.RestartRecordsValidLap` | apps/orchestrator/routers/rigs.py:193-302 | the single frame of a restarted sled that records a valid lap |
| `RaceControl.ApplyStatus` | apps/orchestrator/routers/rigs.py:138-175 | the status rules, branch by branch |
| `RaceControl.CaptureLap` | apps/orchestrator/routers/rigs.py:193-302 | the telemetry branches compute `LapStep`; LapCapture.CounterEffect and LapRecordedIff say what that is |
| `RaceControl.UpdateRigStatus` | apps/orchestrator/routers/rigs.py:121-302 | a heartbeat registers the rig, notes its address, steps status, car and laps, leaves the rest of the state alone, and files the lap under the session of CommandEffects.LapSessionIs |
| `RaceControl.ReuseOrStartSession` | apps/orchestrator/routers/commands.py:86-137 | the loop with its early break picks `FirstOpen` or the new id and starts it: the whole new state |
| `RaceControl.SendCommand` | apps/orchestrator/routers/commands.py:140-205 | one rig: the whole new state, the ids of the sessions ended, and when the sending fails; unknown rigs are refused |
| `RaceControl.SendGlobalCommand` | apps/orchestrator/routers/commands.py:208-270 | every registered rig: the whole new state and the ids of the sessions ended; the loop ends at the first rig without an address |
| `RaceControl.SendGroupCommand` | apps/orchestrator/routers/commands.py:279-409 | the rigs of a group: the whole new state, the ids of the sessions ended, and exactly when the loop ends early |
| `RaceControl.OneChangesOne` | apps/orchestrator/routers/commands.py:140-205 | a command to one rig changes no other rig and no group; sessions change under launch and kill only; a launch makes the latest session the rig's current one |
| `CommandEffects.FirstOpenIs` | apps/orchestrator/routers/commands.py:95-103 | the session reused is the open current session of the first listed rig that has one; there is none iff no listed rig has one |
| `CommandEffects.LaunchStarts` | apps/orchestrator/routers/commands.py:105-137 | a launch starts that session or else the new one, as an unfinished record of these rigs, the latest and the current one of each |
| `CommandEffects.OwnGroupIs` | apps/orchestrator/routers/commands.py:171-175 | the group noted is the first that lists the rig |
| `CommandEffects.OneLaunched` | apps/orchestrator/routers/commands.py:146-183 | a launch of one rig, all fields of the new state |
| `CommandEffects.OneKilled` | apps/orchestrator/routers/commands.py:146-155 | a kill of one rig, all fields of the new state |
| `CommandEffects.OneOther` | apps/orchestrator/routers/commands.py:146-197 | setup and other actions for one rig |
| `CommandEffects.ServedIff` | apps/orchestrator/routers/commands.py:242-268 | a sending loop gets to a rig iff no record before its place in the list lacks an address |
| `CommandEffects.AllLaunched` | apps/orchestrator/routers/commands.py:211-268 | a launch of all rigs: the session, and each rig, reached or not |
| `CommandEffects.AllKilled` | apps/orchestrator/routers/commands.py:227-268 | a kill of all rigs: every session, and each rig, reached or not |
| `CommandEffects.AllOther` | apps/orchestrator/routers/commands.py:242-268 | setup and other actions for all rigs |
| `CommandEffects.GroupLaunched` | apps/orchestrator/routers/commands.py:334-374 | a launch of a group: the session, each listed rig, recorded or not, and no other |
| `CommandEffects.GroupKilled` | apps/orchestrator/routers/commands.py:313-374 | a kill of a group that lists rigs: their sessions, each of them, and no other |
| `CommandEffects.GroupOther` | apps/orchestrator/routers/commands.py:361-374 | setup and other actions for a group |
| `CommandEffects.LapSessionIs` | apps/orchestrator/routers/rigs.py:231-300 | a lap is filed under the rig's own session, else the latest, else the id of its group |
| `CommandEffects.LapsUnderLaunch` | apps/orchestrator/routers/commands.py:105-137 | after a launch of one rig, a group or all, the laps of every rig it was for are filed under the session just started |
| `RaceControl.LaunchMakesArmedRecord` | apps/orchestrator/routers/commands.py:334-357 | a launch of a group disarms the rigs that have a record and makes armed ones for the listed rigs that have none |
| `RaceControl.GroupKillReachesAll` | apps/orchestrator/routers/commands.py:313-320 | a kill of a group stops every registered rig it lists |
| `RaceControl.GroupKillLeavesOthersIff` | apps/orchestrator/routers/commands.py:313-320 | and leaves every other rig alone iff the group is not empty or no rig is in a session |
| `RaceControl.ServedAllIff` | apps/orchestrator/routers/commands.py:242-268 | a sending loop gets to every rig iff none before the last lacks an address |
| `RaceControl.GlobalKillStopsAllIff` | apps/orchestrator/routers/commands.py:227-268 | a kill of all rigs stops every rig iff those the loop does not get to already were |
| `CheckIns.CheckInDesk.PollSessionCheckins` | apps/orchestrator/services/ridge_api.py:383-475 | one poll over rigs and check-in rows, and exactly the rigs it reports as newly claimed |
| `CheckIns.NewlyClaimedIff` | apps/orchestrator/services/ridge_api.py:398-450 | a rig is reported iff the reply names a driver who claimed it, the rows showed neither a claim nor an unbind, and the operator has not cleared it |
| `CheckIns.CheckInDesk.SetDriverName` | apps/orchestrator/routers/rigs.py:410-443 | an empty name unbinds, any other assigns |
| `CheckIns.CheckInDesk.RegisterSessionTokens` | apps/orchestrator/services/ridge_api.py:188-233 | the session name used, and new tokens for the first fifty rigs, local effects |
| `CheckInEffects.RegisteredRows` | apps/orchestrator/services/ridge_api.py:188-233 | a registration claims no rig: the rows of its rigs read pending and keep their drivers, no other row changes |
| `CheckInEffects.RegisteredRigs` | apps/orchestrator/services/ridge_api.py:188-233 | its rigs sit in the session, pending and unflagged; no other rig changes |
| `CheckInEffects.OperatorEffect` | apps/orchestrator/routers/rigs.py:410-443 | unbinding and naming a driver, all fields of rig and rows |
| `CheckInEffects.ItemEffect` | apps/orchestrator/services/ridge_api.py:398-450 | one entry of a reply, all fields: what binds, what is vetoed, what is only noted |
| `CheckInEffects.PollEffect` | apps/orchestrator/services/ridge_api.py:383-475 | after a poll the last entry of each rig decides, against the flag the rig had before |
| `CheckInEffects.PollLeavesOthers` | apps/orchestrator/services/ridge_api.py:383-475 | a poll touches the rigs and rows its reply names and no others |
| `CheckInEffects.ReportedIff` | apps/orchestrator/services/ridge_api.py:398-450 | a rig is reported as newly claimed iff an entry claims it with a driver, it was not flagged, and its row, if any, read neither claimed nor unbound |
| `CheckIns.UnbindFrees` | apps/orchestrator/services/leaderboard_db.py:850-875 | an unbind clears driver and rows of every session |
| `CheckIns.UnbindSticks` | apps/orchestrator/services/ridge_api.py:383-475 | an unbind made while no poll has a claim of the rig in flight sticks: no polls, whatever rows they had read and whatever the server replies, re-bind it until it is registered or assigned anew |
| `CheckIns.UnbindSurvivesIff` | apps/orchestrator/services/ridge_api.py:402-475 | in general, with polls at any write, the rig stays free throughout iff no step is a harmful write for it, a registration or an assignment |
| `CheckIns.LateWriteRebinds` | apps/orchestrator/services/ridge_api.py:402-444 | a poll that looked before the unbind and writes after it binds the driver again |
| `CheckIns.PollIsRun` | apps/orchestrator/services/ridge_api.py:386-475 | a poll left undisturbed is a run of those looks and writes |
| `CheckIns.ReapedRigRebound` | apps/orchestrator/services/ridge_api.py:399-420 | a rig that was reaped is re-bound by a claim iff its row does not read unbound |
| `Registry.Registry.Upsert` | apps/orchestrator/state.py:228-250 | a contact registers the rig or refreshes it |
| `StateEffects.ContactEffect` | apps/orchestrator/state.py:228-250 | the refreshed record, or the fields of a new one |
| `StateEffects.ReapEffect` | apps/orchestrator/state.py:257-272 | the rigs kept are those heard from within the timeout or never, unchanged |
| `Registry.Registry.RemoveStaleRigs` | apps/orchestrator/state.py:257-272 | exactly the silent rigs go |
| `Registry.Registry.Delete` | apps/orchestrator/state.py:328-339 | the group goes and its rigs lose their group id |
| `Registry.Registry.AddRigToGroup` | apps/orchestrator/state.py:341-354 | the rig leaves every other group and joins this one |
| `Registry.Registry.RemoveRigFromGroup` | apps/orchestrator/state.py:356-365 | the rig leaves the group, and the call succeeds iff the group lists it |
| `StateEffects.DeleteEffect` | apps/orchestrator/state.py:328-339 | the other groups in order, and the rigs of the deleted one without a group id |
| `StateEffects.AddEffect` | apps/orchestrator/state.py:341-354 | each group after an addition, rig by rig in order: at the end of this one, gone from the others |
| `StateEffects.RemoveEffect` | apps/orchestrator/state.py:356-365 | the group without the rig, in order, and the record without a group id |
| `Registry.Registry.ReorderGroups` | apps/orchestrator/state.py:282-294 | the two loops compute `Reorder` |
| `Registry.Registry.StartRaceSession` | apps/orchestrator/state.py:526-569 | the session record, the rigs that hold it as current, and the session started last |
| `Registry.Registry.FinishRaceSession` | apps/orchestrator/state.py:571-615 | the three branches of the call, the ids returned, and the new finishing time of the session started last when everything is finished |
| `Registry.Registry.ClearActiveSession` | apps/orchestrator/state.py:627-643 | one session or all of them dropped, and released by the rigs |
| `Registry.Registry.GetAllSessions` | apps/orchestrator/state.py:649-667 | finished sessions older than 180 seconds are dropped |
| `StateEffects.StartEffect` | apps/orchestrator/state.py:526-569 | a session started: its record in the place of the old one or at the end, the latest id, and each rig |
| `StateEffects.FinishOneEffect` | apps/orchestrator/state.py:578-583 | finishing by id: that session and no rig |
| `StateEffects.FinishRigsFields` | apps/orchestrator/state.py:584-599 | finishing by rigs: each session and each rig afterwards |
| `StateEffects.FinishAllFields` | apps/orchestrator/state.py:600-615 | finishing everything: each session and each rig afterwards, the latest session stamped anew |
| `StateEffects.FinishAllIds` | apps/orchestrator/state.py:600-615 | the ids returned then: those just finished and those the rigs held, each once |
| `StateEffects.KeptIs` | apps/orchestrator/state.py:649-667 | a session is listed iff it is unfinished or was finished at most 180 seconds ago |
| `StateEffects.ClearEffect` | apps/orchestrator/state.py:627-643 | clearing one session: the list and each rig |
| `StateEffects.ClearAllEffect` | apps/orchestrator/state.py:627-643 | clearing all: no session, no latest id, every rig released |
| `AppState.AddRigInv` | apps/orchestrator/state.py:341-354 | adding keeps the group invariant and puts the rig in the group |
| `AppState.EveryRun` | apps/orchestrator/state.py:93-365 | over every run, restarts included, a rig sits in at most one group and once, and a group id names an existing group that contains the rig |
| `AppState.StepConverse` | apps/orchestrator/state.py:228-365 | a step keeps the converse, that a registered rig a group lists carries its id, iff it makes no new record for a listed rig |
| `AppState.ConverseThroughout` | apps/orchestrator/state.py:228-365 | along a run the converse holds throughout iff no step does that |
| `AppState.ReapingForgetsGroup` | apps/orchestrator/state.py:228-272 | one such step: reaping a listed rig and hearing from it again |
| `AppState.RestartForgetsGroup` | apps/orchestrator/state.py:93-107 | another: hearing from a listed rig after a restart, which keeps the groups and drops the rigs |
| `AppState.EarlyAddForgetsGroup` | apps/orchestrator/state.py:341-354 | another: a rig added to a group before it is first heard from |
| `AppState.ReorderIsPermutation` | apps/orchestrator/state.py:282-294 | reordering permutes the groups, the listed ones first |
| `AppState.ListedOrder` | apps/orchestrator/state.py:285-289 | listed groups stand in the order they were listed |
| `AppState.OthersOrder` | apps/orchestrator/state.py:290-294 | the others keep their relative order |
| `AppState.FinishRigsEffect` | apps/orchestrator/state.py:584-599 | finishing some rigs' sessions: those sessions finished, disjoint ones untouched, each id once, and which ids |
| `AppState.FinishRigsTwice` | apps/orchestrator/state.py:584-599 | a repeat changes nothing and returns no id |
| `AppState.FinishEmptyListFinishesAll` | apps/orchestrator/state.py:584-615 | an empty list of rigs finishes every session |
| `AppState.DisjointLeftAloneIff` | apps/orchestrator/state.py:578-615 | at the level of the call, sessions without any of the rigs are left alone iff the list is not empty, or all sessions are finished and the one started last, if listed, has this very instant as its finishing time |
| `AppState.FinishingAgainKeepsListed` | apps/orchestrator/state.py:600-615 | a finished session due to be dropped that is stamped anew and listed again |
| `AppState.ActiveIsLatest` | apps/orchestrator/state.py:552-553 | over every run the active-session reference holds a listed session iff the session started last is listed, and then it is that one |
| `AppState.KeptMembers` | apps/orchestrator/state.py:649-667 | exactly the outdated sessions are dropped |
| `AppState.KeptTwice` | apps/orchestrator/state.py:649-667 | listing again at the same instant drops nothing more |
| `Leaderboard.LeaderboardDB.InsertLap` | apps/orchestrator/services/leaderboard_db.py:133-171 | a new row under the next id |
| `Leaderboard.LeaderboardDB.UpsertSessionBest` | apps/orchestrator/services/leaderboard_db.py:173-211 | the ON CONFLICT rule: null and non-positive times replaced, a faster time kept |
| `Leaderboard.LeaderboardDB.DeleteRecord` | apps/orchestrator/services/leaderboard_db.py:240-281 | the row goes, its key is recomputed, and whether it was there |
| `Leaderboard.LeaderboardDB.ClearLeaderboard` | apps/orchestrator/services/leaderboard_db.py:283-289 | both tables emptied |
| `Leaderboard.LeaderboardDB.MarkLapsSynced` | apps/orchestrator/services/leaderboard_db.py:977-985 | exactly the named rows marked |
| `Leaderboard.Unsynced` | apps/orchestrator/services/leaderboard_db.py:945-975 | exactly the unsynchronised laps of the session with a time of 1 ms to one day |
| `Leaderboard.DeleteIndexed` | apps/orchestrator/services/leaderboard_db.py:240-281 | deleting any lap keeps the index sound |
| `Leaderboard.IndexedAlways` | apps/orchestrator/services/leaderboard_db.py:133-289 | over every run each row is witnessed by a stored lap, and every valid lap has a row no slower |
| `Leaderboard.IndexExact` | apps/orchestrator/services/leaderboard_db.py:133-289 | over every run of valid laps, deletions, sync marks and clearing a row exists iff a lap does, and holds the minimum |
| `Leaderboard.IndexBetween` | apps/orchestrator/services/leaderboard_db.py:250-276 | with invalid laps a row lies between the minimum over all laps and the minimum over valid ones |
| `Leaderboard.DeleteValidIff` | apps/orchestrator/services/leaderboard_db.py:240-281 | a deletion keeps the index one of valid laps iff the key has no row, no lap of it is left, or a valid lap has the fastest time left |
| `Leaderboard.StepValidIff` | apps/orchestrator/services/leaderboard_db.py:133-289 | recording, marking and clearing always keep it |
| `Leaderboard.ValidThroughout` | apps/orchestrator/services/leaderboard_db.py:133-289 | along a run the index is one of valid laps throughout iff no deletion breaks it |
| `Leaderboard.ValidRowIsMinimum` | apps/orchestrator/services/leaderboard_db.py:173-211 | its rows then hold the minimum over the valid laps |
| `Leaderboard.DeletePromotesInvalid` | apps/orchestrator/services/leaderboard_db.py:250-276 | a deletion that moves an invalid time into the row |
| `IndexRows.RecordEffect` | apps/orchestrator/services/leaderboard_db.py:133-211 | every lap is stored under the next id; only a valid one with a session touches the index, and only its row |
| `IndexRows.MergeEffect` | apps/orchestrator/services/leaderboard_db.py:173-211 | the row keeps the fastest positive time and the highest number, and takes timestamp and driver |
| `IndexRows.DeleteEffect` | apps/orchestrator/services/leaderboard_db.py:240-281 | a deletion repairs the row from the fastest lap left, time, number and timestamp, and keeps the driver; it drops the row iff no timed lap is left |
| `IndexRows.RowExistsIff` | apps/orchestrator/services/leaderboard_db.py:133-211 | since any point after the last deletion the rows are those there were and those of rigs and sessions with a valid lap since |
| `IndexRows.RowNumber` | apps/orchestrator/services/leaderboard_db.py:173-211 | a row's number is the highest of those laps and the number it had |
| `IndexRows.RowTimestamp` | apps/orchestrator/services/leaderboard_db.py:173-211 | its timestamp is that of the last of them |
| `IndexRows.RowDriver` | apps/orchestrator/services/leaderboard_db.py:173-211 | its driver is that of the last of them that names one |
| `Standings.GetSessionStandings` | apps/orchestrator/services/leaderboard_db.py:504-582 | one line per selected rig, positions 1..n, best first, gaps to the leader; absent iff nothing is selected; the index is the fallback |
| `Standings.StandingsMeaning` | apps/orchestrator/services/leaderboard_db.py:524-539 | a rig is listed iff it has a timed lap, with its minimum and its highest lap; the leader's gap is 0 and gaps never decrease |
| `Standings.TableLines` | apps/orchestrator/services/leaderboard_db.py:556-574 | positions from 1, best first, gaps to the first line, no rig twice |
| `Standings.StandingsFromLaps` | apps/orchestrator/services/leaderboard_db.py:523-538 | a rig has a line iff it has a timed lap in the session; its time is the fastest of them and its count the highest number |
| `Standings.StandingsFromIndex` | apps/orchestrator/services/leaderboard_db.py:540-549 | without timed laps: a line for each index row of the session with a positive time, and what the row says |
| `Standings.NoStandingsIff` | apps/orchestrator/services/leaderboard_db.py:534-554 | a session has no standings iff neither a lap nor a row of it has a positive time |
| `Standings.BestListLines` | apps/orchestrator/services/leaderboard_db.py:389-427 | each line is a row of the session, fastest first, none twice; none is left out unless the limit is reached, and then none faster |
| `Standings.GetSessionBest` | apps/orchestrator/services/leaderboard_db.py:389-427 | at most `limit` index rows, fastest first, null times last, each with its lap; without a session the latest one |
| `Standings.BestLapBehind` | apps/orchestrator/services/leaderboard_db.py:396-398 | over every run the lap joined to a row exists, has its time, and is the newest such lap |
| `Standings.StandingsAgree` | apps/orchestrator/services/leaderboard_db.py:389-582 | over every run of valid laps with the limit not reached both tables pair the same rigs with the same times |
| `RidgeSync.RidgeService.SyncSessionLaps` | apps/orchestrator/services/ridge_api.py:497-669 | a call: no key, no effect; poll first; whole batches until one is not acknowledged; the final request iff asked for and every batch was acknowledged; the failure flag |
| `RidgeSync.RidgeService.SendBatches` | apps/orchestrator/services/ridge_api.py:525-588 | the batch loop with its early break computes `SendAll` |
| `RidgeSync.RidgeService.SendBatch` | apps/orchestrator/services/ridge_api.py:527-560 | one request: what the server stores and what is marked here |
| `RidgeSync.FilterClaimed` | apps/orchestrator/services/ridge_api.py:507-515 | with rows for the session only claimed rigs' laps stay, without rows all |
| `RidgeSync.UploadSafety` | apps/orchestrator/services/ridge_api.py:497-588 | over every run of overlapping calls with lost requests, lost and late replies, retries and a changing database: a synchronised lap was acknowledged or imported, the server holds what it acknowledged, and nothing twice |
| `RidgeSync.AcknowledgedOnly` | apps/orchestrator/services/ridge_api.py:555-560 | a source id counts as acknowledged iff it was in a batch the server answered |
| `RidgeSync.MarkedRowsAnswered` | apps/orchestrator/services/ridge_api.py:556-560 | over every run a row marked as synchronised was itself, by row id and source id, in an answered batch, or was imported |
| `RidgeSync.CallIsRun` | apps/orchestrator/services/ridge_api.py:525-588 | a call is a run of requests of that system |
| `RidgeSync.CallSafe` | apps/orchestrator/services/ridge_api.py:497-588 | so a call made after any run, with others under way, leaves it safe |
| `RidgeSync.SendAllMarks` | apps/orchestrator/services/ridge_api.py:525-588 | a call marks exactly a prefix of its selection |
| `RidgeSync.CoveredIsPrefix` | apps/orchestrator/services/ridge_api.py:525-588 | the prefix is whole batches of 500, up to the first batch not acknowledged |
| `RidgeSync.SentOnlyClaimed` | apps/orchestrator/services/ridge_api.py:507-545 | every batch has 1 to 500 unsynchronised laps of the session, with times up to a day; once the session has a row each of them is of a rig whose row reads claimed |
| `RidgeSync.SelectedIff` | apps/orchestrator/services/ridge_api.py:502-515 | a lap is selected iff it is an unsynchronised lap of the session with a time of 1 ms to one day and, once the session has a row, the row of its rig reads claimed |
| `RidgeSync.ClaimedOnlyIs` | apps/orchestrator/services/ridge_api.py:507-515 | what the filter keeps: all laps without rows, else those of claimed rigs |
| `RidgeSync.BatchesAre` | apps/orchestrator/services/ridge_api.py:525-531 | request i carries laps 500 i to 500 i + 499 of the selection |
| `RidgeSync.RequestsAre` | apps/orchestrator/services/ridge_api.py:525-588 | how many requests a call makes: all before the last were acknowledged, the last was needed and ends it |
| `RidgeSync.RequestOnServer` | apps/orchestrator/services/ridge_api.py:533-560 | what one request puts on the server, by outcome |
| `RidgeSync.RequestHere` | apps/orchestrator/services/ridge_api.py:553-588 | what one request marks here, by outcome |
| `RidgeSync.RepeatSelectsRest` | apps/orchestrator/services/ridge_api.py:502-515 | with unchanged claims and no new laps the next call selects exactly what this one left, in order |
| `RidgeSync.FaultFreeConverges` | apps/orchestrator/services/ridge_api.py:502-588 | a fault-free call leaves no sendable lap unsynchronised; a repeat has no batch |
| `IniMerge.EnsurePureVideoIni` | apps/sled/launcher.py:511-561 | the sled's loop computes `Merge` for its settings |
| `IniMerge.WriteLowQualityVideoIni` | apps/orchestrator/services/spectator.py:191-273 | the spectator's loop computes `Merge` for its settings |
| `IniMerge.LineKind` | apps/sled/launcher.py:519-537 | a line the merge writes reads back as an entry of its key |
| `IniMerge.MergeTwice` | apps/sled/launcher.py:511-561 | merging the merged lines changes nothing |
| `IniMerge.RewriteTwice` | apps/sled/launcher.py:508-561 | on a newline-terminated file the rewrite is idempotent |
| `IniMerge.UnterminatedFileGrows` | apps/sled/launcher.py:555-561 | a file without the final newline that grows |
| `IniStability.RewriteTwiceIff` | apps/sled/launcher.py:508-561 | rewriting twice is rewriting once iff the file ends with a newline, or its open last line is a header or a required entry, or nothing is appended, or its section occurs twice and the line is not blank |
| `IniStability.BothRewritesTwiceIff` | apps/orchestrator/services/spectator.py:191-273 | this holds of the sled's settings and of the spectator's |
| `IniMerge.MergeKeepsRest` | apps/sled/launcher.py:511-561 | every line but the required entries of the two target sections is kept, in order |
| `IniMerge.MergeDelivers` | apps/sled/launcher.py:511-561 | whenever a target section exists it holds every required line, and no required entry has another form |
| `IniEffects.PostSettings` | apps/sled/launcher.py:473-482 | the settings of [POST_PROCESS], key by key and in order |
| `IniEffects.PureSettings` | apps/sled/launcher.py:547-549 | the sled's setting of [VIDEO] |
| `IniEffects.LowSettings` | apps/orchestrator/services/spectator.py:204-218 | the spectator's settings of [VIDEO], key by key and in order |
| `IniEffects.HeaderRead` | apps/sled/launcher.py:519-532 | a name in brackets opens the section of that name in capitals, blanks around allowed |
| `IniEffects.EntryRead` | apps/sled/launcher.py:536-537 | key = value is an entry of the key in capitals, blanks around the key allowed |
| `IniEffects.MergeCounts` | apps/sled/launcher.py:511-561 | how many entries of a required key the result has: none is dropped, and one is added each time the section ends before it has had one |
| `IniEffects.BothMergeCounts` | apps/orchestrator/services/spectator.py:191-273 | under [VIDEO] the sled's rewrite adds at most one, the spectator's one for each such end |
| `VideoBackup.SpectatorService.WriteLowQualityVideoIni` | apps/orchestrator/services/spectator.py:176-280 | backup unless one exists, then the merge; every point of failure |
| `VideoBackup.SpectatorService.RestoreVideoIni` | apps/orchestrator/services/spectator.py:294-301 | the backup copied back and removed; every point of failure |
| `VideoBackup.SpectatorService.LaunchSpectator` | apps/orchestrator/services/spectator.py:451-497 | a launch over its failure points computes `Launched`; FailedStartRestoresIff, LaunchedProcess and LaunchedFiles say what is left |
| `VideoBackup.SpectatorService.KillSpectator` | apps/orchestrator/services/spectator.py:514-522 | a kill; nothing is restored when the process is gone |
| `VideoBackup.StepKeepsOriginal` | apps/orchestrator/services/spectator.py:184-189 | backup if present, else the file, is unchanged by a step iff no first backup breaks off with other content |
| `VideoBackup.OriginalKept` | apps/orchestrator/services/spectator.py:184-303 | so over every such run |
| `VideoBackup.LaunchesDoNotPileUp` | apps/orchestrator/services/spectator.py:451-522 | over runs without failures a file that settles is the original or its once-rewritten form |
| `VideoBackup.SecondLaunchTidyIff` | apps/orchestrator/services/spectator.py:451-497 | two launches in a row leave the once-rewritten form iff the file settles |
| `VideoBackup.KillRestoresIff` | apps/orchestrator/services/spectator.py:514-522 | after any run that has not lost it, a kill leaves the original and no backup iff there was no backup, or the game was live and the restore did not fail |
| `VideoBackup.FailedStartRestoresIff` | apps/orchestrator/services/spectator.py:485-495 | a launch whose process does not start leaves the original and no backup iff none was made, or the restore did not fail and no first backup had broken off |
| `VideoBackup.LaunchedProcess` | apps/orchestrator/services/spectator.py:451-497 | which process and group a launch leaves |
| `VideoBackup.LaunchedFiles` | apps/orchestrator/services/spectator.py:176-280 | which file and backup a launch leaves, by how the writing ends |
| `VideoBackup.KilledFields` | apps/orchestrator/services/spectator.py:514-522 | which file, backup, process and group a kill leaves |
| `ServerPorts.LowestFree` | apps/orchestrator/services/acserver.py:117-119 | the search terminates at the least free offset |
| `ServerPorts.LeastFreeBound` | apps/orchestrator/services/acserver.py:115-119 | the least free offset is at most the number in use |
| `ServerPorts.ServerManager.StartServer` | apps/orchestrator/services/acserver.py:105-354 | the old server stopped, then the least free offset, at most the number of other servers; a failed start keeps nothing; other groups as before |
| `ServerPorts.ServerManager.StopServer` | apps/orchestrator/services/acserver.py:383-397 | the group's entry goes |
| `ServerPorts.ServerManager.StopAllServers` | apps/orchestrator/services/acserver.py:399-402 | every entry goes |
| `ServerPorts.OffsetsApart` | apps/orchestrator/services/acserver.py:105-402 | over every run offsets are pairwise distinct and below the greatest number of servers that ran together |
| `ServerPorts.PortsApart` | apps/orchestrator/services/acserver.py:25-27 | while at most 1520 servers have run together no two share a TCP or HTTP port |

## Left out

- The `import qrcode` branch of the generator and the encoding of text as UTF-8: the payload bytes are the parameter.
- Any claim that the format bits stand where the standard puts them, and SVG or PNG output.
- ReedSolomon.GeneratorPoly: degrees above 512, where the source's table lookup would fail, are outside its precondition.
- ReedSolomon.Encode: likewise for check lengths above 512, and for length 0, which no version uses.
- RaceControl.UpdateRigStatus: how the address is found, the values of temperature and telemetry kept for display, the service flags, the notifications, and of a recorded lap the driver, car and track are left out.
- LapCapture.KillSticks: speaks of HTTP heartbeats; the UDP heartbeat path sets the status without these rules and is not part of this model.
- LapCapture.RacingEndsIff: likewise.
- Lap-time parsing: a heartbeat carries the parsed time in milliseconds, or none.
- RaceControl.SendGroupCommand: does not model the lookup of the group's game server nor the payload sent to the rigs.
- RaceControl.ReuseOrStartSession: the sessions still open on the Ridge side and the new session id are parameters; the registration of a new session with the server is left out.
- Registry.Registry.StartRaceSession: track and group names are left out. `_active_session` is not a field: while its record is listed it is the one under the latest id, by AppState.ActiveIsLatest.
- Registry.Registry.FinishRaceSession: the Ridge status of the finished sessions is set to completed by the source; what is open there is a parameter where it is read.
- JSON persistence, locks, presets, car and map pools, voice channels.
- CheckIns.UnbindSurvivesIff: the operator's own writes of an unbind are one step.
- CheckIns.CheckInDesk.PollSessionCheckins: one poll without interruption; e-mail, timestamps, the driver roster and the raw reply are left out; a failed poll changes nothing and is a missing reply in RidgeSync.
- CheckIns.CheckInDesk.RegisterSessionTokens: the tokens, their expiry and the requests for them.
- Leaderboard.LeaderboardDB.InsertLap: keeps only the columns the index, the standings and the upload read; the default source id is a parameter, not formatted.
- Leaderboard.LeaderboardDB.DeleteRecord: among laps with equal times the earliest row is taken, which SQL leaves open; only lap number and timestamp of the index row depend on it.
- Leaderboard.IndexExact: `toggle_lap_validity` and `delete_by_match` change one table without the other and are not among the steps.
- Standings.GetSessionStandings: track, group, car, driver and start time of the table are left out; ties stand in any order.
- Standings.GetSessionBest: likewise for the descriptive columns.
- RidgeSync.RidgeService.SyncSessionLaps: does not model the counters of inserted and duplicate laps, the session's status row and the notifications; the reply to a request is one of four outcomes.
- RidgeSync.UploadSafety: the server is taken to store a batch whole or not at all and to file a source id once. That it holds the imported laps is its own doing.
- IniMerge.LineKind: blanks and upper case are those of ASCII; a line is read after newline translation.
- VideoBackup.OriginalKept: bytes that are not UTF-8 are replaced when the file is read, before the backup is written; contents here are the text read. Edits by other programs are not among the steps.
- VideoBackup.SpectatorService.LaunchSpectator: race.ini, steam_appid.txt, windows and keys are outcomes or left out.
- ServerPorts.ServerManager.StartServer: configuration files, content and the health check are one outcome; an entry whose process died holds its port until stopped, as in the source.
- The web front end, Discord, Mumble, certificates, discovery, bootstrap and shortcut scripts.
