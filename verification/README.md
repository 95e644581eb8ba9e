# Verification model of the OpenSAMP client

This project models the parts of the OpenSAMP multiplayer client that carry logic of their
own and proves what they promise. `dafny verify dfyconfig.toml` checks all of it.

| file | system part |
|---|---|
| `Machine.dfy` | fixed-width integers as ranges of `nat`, byte strings as numbers, `Option`, protocol limits, lines and digits |
| `JoinToken.dfy` | the join token: 160-bit by 32-bit multiplication in limbs, and its hexadecimal printer |
| `Session.dfy` | the connection layer as step functions: the `CNetGame` states over the bridge's globals, the spawn FSM, the sync pump, server events, runs |
| `SessionSafety.dfy` | the invariant of every reachable state and of the log of every run |
| `SessionTheorems.dfy` | the promises read off that log: timeouts, spawns, packet pacing, gamemode restart |
| `SessionEffects.dfy`, `SessionEvents.dfy` | what each server event, the spawn FSM and the sync pump do, in fields and log |
| `SessionActions.dfy` | connecting, ending a session, quitting, and what a dialog holds back |
| `SessionProgress.dfy` | the other half of the timeouts: what a frame must do once they are due |
| `SessionThrottle.dfy` | what the send throttles do to whole runs when the clock wraps |
| `NetGame.dfy` | the same layer as two objects with mutable fields, played through any legal run |
| `Wire.dfy` | RakNet bit streams: integers as bits, short reads |
| `LossyCodecs.dfy` | RakNet's codecs for normalised quaternions and for vectors |
| `VehicleSync.dfy`, `Markers.dfy`, `Scores.dfy` | the in-car sync, markers and scores codecs |
| `Players.dfy` | the table of remote players against the set it stands for |
| `ColoredText.dfy` | the `{RRGGBB}` tag reader, the two renderers and the line loop |
| `Quaternion.dfy` | quaternions and vectors; rotation matrix to quaternion, over the reals |
| `Dialog.dfy` | splitting a list body into items, and the dialog's reply |
| `ScmScript.dfy` | the script parameter encoder over one reused buffer |
| `StackDump.dfy` | the minidump walker: memory ranges, reads, the stack scan |

## How the model is built

- Time: true time is an unbounded number of milliseconds and never runs backwards;
  `GetTickCount` is true time modulo 2^32. A run is any sequence of user actions and frames,
  at any boot time; every frame delivers any queue of server events.
- Environment: RakNet delivers an accept only while a connect has been issued, remote calls
  only after the accept, and server player ids are below `MAX_PLAYERS`
  (`Session.Deliverable`). Nothing else is assumed of the server.
- The log: each state change, timeout, class request, reply, restart, spawn and packet is
  recorded; the theorems of `SessionTheorems` quantify over the logs of all legal runs.
- Unsigned C++ arithmetic is written out: wrapping differences, remainders for casts,
  division and remainder for shifts and masks by whole bytes.
- Uninitialised locals of the handlers are parameters or arbitrary values, so the results
  hold whatever they contain.
- `ReadNormQuat`, `WriteNormQuat`, `ReadVector` and `WriteVector` are modelled field by field;
  their float arithmetic (`LossyCodecs.Floats`) is an input, so the results hold whatever it
  rounds to.
- Random bytes, tick counts, the ped and the vehicle, text widths and the square root are
  inputs.

## Where the code differs from what it says

The model follows the code. Each difference has its exact condition.

- `GameModeRestart` says the spawn FSM will run again. Stage `Done` is absorbing, so it can
  only if the FSM has not reached `Done` (`RestartRespawnsUnlessDone`, `RestartFailsAfterSpawn`).
- `resetPools` clears one entry of the player table, not the table (`ResetClearsOnlyFirst`,
  `ResetLeavesStale`), so that a reconnected client counts the players of its old session
  (`ReconnectKeepsStale`).
- A lost connection never clears the connected flag, so `TickConnected` never leaves
  Connected in a reachable state (`TickKeeps`).
- The inner send throttles compare absolute ticks and are not wrap-safe (`GatesExact`). A
  packet at tick 0xFFFFFFFF, or on foot at tick 0, silences its sender for good, and no other
  stamp does (`SendsUnlessDead`, `SilencedForGood`, `SilentFromBootZero`); any other stamp can
  silence it for up to 49.7 days after a wrap (`SilentAfterWrap`, `SilencedAfterWrap`). The
  outer 20 Hz gate is wrap-safe, and so is the pacing of packets.
- `inCarUpdate` says its format is the exact inverse of the reader. It is if and only if the
  speed is not NaN (`InCarComesBackExactly`): for NaN the vector writer and the vector reader
  disagree about the length (`VectorLawfulExactly`, `NaNReadsShort`), and the receiver then
  records what its uninitialised trailer variable happened to hold (`NaNSpeedMisread`,
  `NaNSpeedFails`).
- `GetQuaternion` promises a normalised quaternion; it gives one exactly when its clamp
  changes nothing (`NormalisedExactly`). The game hands over rotations up to rounding: on an
  exact one the clamp never acts (`OfRotation`), on a half-turn with a rounded entry it does
  (`RoundedHalfTurn`), and the result is then too long by at most three times the rounding
  error (`NearlyNormalised`). It also loses the signs of some half-turns
  (`RotationPreservedExactly`, `HalfTurnLost`).
- `UpdateScoresPingsIPs` takes ten-byte entries in a loop bounded by bytes / 9 over a stream
  one byte longer than the payload. Whole entries are applied correctly (`ScoresRefineFold`);
  of other payloads the stray byte or a cut-off tail is applied as one or two more entries
  (`TurnsOfPayload`, `EntryCount`).
- `SplitLines` loses an empty last item and carriage returns at the end of items in the
  cases `SplitUndoesJoin` names (`ReturnLost`).
- The reply of a table list sends no index and no text (`DialogBox.Respond`).

## Model

| member | source | states |
|---|---|---|
| `JoinToken.Bswap32Swaps` | native/sampraknet_bridge.cpp:415-418 | swapping any word exchanges its four bytes end for end |
| `JoinToken.ReadWords` | native/sampraknet_bridge.cpp:422-432 | the five words are the little-endian readings of bytes 0..3, 4..7, ..., 16..19 of the input, which is not changed |
| `JoinToken.SwapWords` | native/sampraknet_bridge.cpp:434-436 | the reversed, byte-swapped words are the big-endian readings of the 20 bytes taken four at a time from the back |
| `JoinToken.LimbsOfBytes` | native/sampraknet_bridge.cpp:434-436 | big-endian words taken from the back of a byte string of any length are the limbs of its big-endian value |
| `JoinToken.LimbProductFits` | native/sampraknet_bridge.cpp:441-459 | a 32-bit limb times a 32-bit factor plus a 32-bit carry never exceeds 64 bits |
| `JoinToken.CarryChain` | native/sampraknet_bridge.cpp:441-459 | for any number of limbs, limb products linked by their carries add up to the whole product |
| `JoinToken.MulLimbs` | native/sampraknet_bridge.cpp:438-459 | the six output limbs have the value of the five input limbs times the factor |
| `JoinToken.BytesOfLimbs` | native/sampraknet_bridge.cpp:461-470 | limbs stored little-endian one after another are one little-endian number |
| `JoinToken.StoreWords` | native/sampraknet_bridge.cpp:461-470 | the 24 stored bytes, read little-endian, have the value of the six limbs |
| `JoinToken.ReverseBytes` | native/sampraknet_bridge.cpp:472-474 | after the in-place reversal the bytes read big-endian what they read little-endian before |
| `JoinToken.BigNumMulSafe` | native/sampraknet_bridge.cpp:420-475 | for every 24-byte input and 32-bit factor the output bytes read big-endian are the first 20 input bytes read big-endian times the factor, also when both buffers are the same; bytes 20..23 never matter |
| `JoinToken.PrintDigit` | native/sampraknet_bridge.cpp:505-517 | one digit step turns the numeral of v into the numeral of 16v + d, with leading zeros suppressed |
| `Text.HexDigitIs` | native/sampraknet_bridge.cpp:505-517 | the digits printed are those of 0123456789ABCDEF |
| `JoinToken.PrintHex` | native/sampraknet_bridge.cpp:500-529 | the buffer holds exactly the hexadecimal numeral of the 24 bytes, at most 48 digits, with the terminator at the returned length; the `pos >= 63` break is never taken |
| `JoinToken.GenGpci` | native/sampraknet_bridge.cpp:477-530 | null buffer, zero factor and every other case: the text is the upper-case hexadecimal numeral of the product of the first 20 random bytes and the factor, terminated at the returned length |
| `JoinToken.HexNumeralParses` | native/sampraknet_bridge.cpp:503-519 | the numeral of any number consists of upper-case hexadecimal digits and parses back to that number |
| `JoinToken.HexNumeralCanonical` | native/sampraknet_bridge.cpp:503-526 | a digit string is the numeral of its own value if and only if it is non-empty and has no leading zero (or is the single 0) |
| `JoinToken.TokenRecoversBytes` | native/sampraknet_bridge.cpp:477-530 | for a nonzero factor, parsing the token and dividing gives back the first 20 random bytes, and two tokens are equal exactly when those 20 bytes are |
| `JoinToken.TokenLength` | native/sampraknet_bridge.cpp:479-559 | for alphanumeric random bytes and the client's factor the token has 43 digits exactly when the first character is one of B to Z, and 42 otherwise |
| `Wire.U32Then` | native/vendor/sampraknet/src/BitStream.cpp:347-512 | a 32-bit word written least significant byte first, bits of a byte most significant first, is read back at any bit offset, and what follows stands right after it |
| `Wire.ByteBits` | native/vendor/sampraknet/src/BitStream.cpp:347-400 | of a byte on the wire the first bit is worth 128 and the last one 1 |
| `Wire.FieldBytes` | native/vendor/sampraknet/src/BitStream.cpp:347-400 | of a field of several bytes the least significant byte stands first |
| `Wire.CodedThen` | native/vendor/sampraknet/include/BitStream.h:1214-1390 | a value written by a lawful lossy codec is read back normalised, at any bit offset and whatever follows, consuming exactly the bits written |
| `Wire.BitStream.ReadU8` | native/vendor/sampraknet/src/BitStream.cpp:464-512 | a short read fails, leaves the destination and the offset alone; otherwise the value and the advance by 8 bits |
| `Wire.BitStream.ReadU16` | native/vendor/sampraknet/src/BitStream.cpp:464-512 | the same for 16-bit reads |
| `Wire.BitStream.ReadU32` | native/vendor/sampraknet/src/BitStream.cpp:464-512 | the same for 32-bit reads |
| `Wire.BitStream.ReadFlag` | native/vendor/sampraknet/include/BitStream.h:1011-1026 | a bool is one bit, with the same rule for short reads |
| `LossyCodecs.ReadNormQuat` | native/vendor/sampraknet/include/BitStream.h:1364-1390 | for any bits, complete or short: the value and the offset of the specified decode, the destination kept when the last read fails, whatever the locals held |
| `LossyCodecs.ReadVector` | native/vendor/sampraknet/include/BitStream.h:1327-1360 | the same for vectors, whose direction is read only for a nonzero magnitude |
| `LossyCodecs.TestsAgree` | native/vendor/sampraknet/include/BitStream.h:1214-1340 | the writer's test > 0.0 and the reader's test != 0.0, as tests on the 32 bits, agree exactly for words up to 0x7F800000 and for 0x80000000 |
| `LossyCodecs.QuatLayout` | native/vendor/sampraknet/include/BitStream.h:1230-1240 | four sign bits in the order w, x, y, z, then the 16-bit words of x, y and z |
| `LossyCodecs.VectorLayout` | native/vendor/sampraknet/include/BitStream.h:1214-1227 | 80 bits are written if and only if the magnitude word is from 1 to 0x7F800000, and 32 otherwise: the magnitude, then the words of x, y and z |
| `LossyCodecs.QuatConsumes` | native/vendor/sampraknet/include/BitStream.h:1364-1377 | a quaternion read succeeds exactly when 52 bits are left; otherwise the whole fields that fit are consumed |
| `LossyCodecs.VectorConsumes` | native/vendor/sampraknet/include/BitStream.h:1327-1347 | a vector read needs 32 bits, or 80 for a nonzero magnitude; otherwise the whole fields that fit are consumed |
| `LossyCodecs.QuatLawful` | native/vendor/sampraknet/include/BitStream.h:1230-1240 | every quaternion written is read back as the restored quantised one, consuming the 52 bits written |
| `LossyCodecs.VectorLawfulExactly` | native/vendor/sampraknet/include/BitStream.h:1214-1227 | the vector codec reads back what it wrote, in every context, if and only if the magnitude word is at most 0x7F800000 or 0x80000000, that is, neither NaN nor negative; a zero magnitude comes back as the zero vector and any other as the restored packed one |
| `LossyCodecs.NaNReadsShort` | native/vendor/sampraknet/include/BitStream.h:1214-1360 | a concrete NaN magnitude, 0x7FC00000, whose own 32 bits are read back as a short vector |
| `VehicleSync.NibbleLoss` | native/sampraknet_bridge.cpp:3170-3175 | health of 100 or more comes back as 100, anything else at most 6 below the non-negative value sent, and re-encoding what came back gives the same nibble; the nibble itself is 0, v / 7 or 15 |
| `VehicleSync.TruncMeans` | native/sampraknet_bridge.cpp:3176-3186 | a float becomes the integer next to it toward zero |
| `VehicleSync.HealthReceived` | native/sampraknet_bridge.cpp:780-803 | what the receiver shows is the car's health without its fraction, and of the driver's health and armour less than 7 below what was sent, 0 for negative and 100 for 100 or more |
| `VehicleSync.StateReceived` | native/sampraknet_bridge.cpp:755-833 | what a packet that comes back leaves is the controls, weapon and position as sent, the restored rotation and speed, no speed for a zero magnitude, and the trailer cut to 16 bits |
| `VehicleSync.InCarUpdate` | native/sampraknet_bridge.cpp:3146-3210 | a packet is sent exactly when all three guards pass, with the literal limit 2000 on vehicle ids, and its bits are the specified fields in order, with all controls zero |
| `VehicleSync.PacketLayout` | native/sampraknet_bridge.cpp:3180-3206 | the absolute bit offset of every field: identifier, vehicle id, keys, rotation at 72, position at 124, velocity at 220, and the status at 300 or 252 as a direction is sent or not |
| `VehicleSync.StatusLayout` | native/sampraknet_bridge.cpp:3194-3206 | within the status: health word, health and armour nibbles in that order, weapon, four flags, trailer word, train flag and speed |
| `VehicleSync.PacketVehicleSync` | native/sampraknet_bridge.cpp:730-834 | any packet, complete or short, sets the sender's in-car data to what its bits leave in a cleared entry and changes nothing else; bad player or vehicle ids change nothing |
| `VehicleSync.CutAfterHead` | native/sampraknet_bridge.cpp:741-834 | a packet that ends after the vehicle id leaves zeros in the cleared entry, and in the other fields what the uninitialised locals held |
| `VehicleSync.MotionBack` | native/sampraknet_bridge.cpp:763-778 | normalised rotation, raw position words and normalised velocity come back from the bits written |
| `VehicleSync.VitalsBack` | native/sampraknet_bridge.cpp:780-806 | health word, packed health and armour, and weapon come back from the bits written |
| `VehicleSync.ExtrasBack` | native/sampraknet_bridge.cpp:808-833 | siren, landing gear, trailer word (cut to 16 bits) and train speed come back from the bits written, whatever the flags |
| `VehicleSync.InCarRoundTrip` | native/sampraknet_bridge.cpp:3180-3206 | for every sendable vehicle state whose speed word is at most 0x7F800000 or 0x80000000, any controls and any float arithmetic of the codecs, the sent bits with the player id inserted by the server, followed by any padding, decode to the same sender, vehicle, controls, position, health word and normalised rotation and velocity, consuming every bit |
| `VehicleSync.NaNSpeedMisread` | native/sampraknet_bridge.cpp:773-834 | for every sendable vehicle state whose speed is NaN, any controls and any padding of the last byte, the receiver records as trailer the low 16 bits of its uninitialised local |
| `VehicleSync.InCarComesBackExactly` | native/sampraknet_bridge.cpp:3133-3206 | for every sendable vehicle state, any controls and any padding of the last byte, the relayed packet decodes to what was sent, whatever the receiver's locals hold, if and only if the speed word is at most 0x7F800000 or 0x80000000, that is, neither NaN nor negative |
| `VehicleSync.NaNSpeedFails` | native/sampraknet_bridge.cpp:3133-3206 | a concrete vehicle, its packet padded to whole bytes and a concrete local for which the packet does not come back |
| `Markers.PacketMarkersSync` | native/sampraknet_bridge.cpp:869-907 | for arbitrary bits, including short ones, the handler leaves the table that the specified turns leave; a count outside 0..1000 changes nothing |
| `Markers.MarkerLayout` | native/sampraknet_bridge.cpp:883-898 | id, flag, then x, y and z at bits 17, 33 and 49; an inactive entry ends after the flag |
| `Markers.ReadBack` | native/sampraknet_bridge.cpp:885-898 | an entry written at any bit offset is read back, an inactive one keeping the position read before, an out-of-range id stopping the packet |
| `Markers.MarkersDecode` | native/sampraknet_bridge.cpp:869-907 | decoding any encoded packet of up to 1000 entries applies exactly the entries before the first out-of-range id, whatever pads it and whatever the uninitialised locals hold |
| `Markers.MarkersFrame` | native/sampraknet_bridge.cpp:892-903 | only marker fields change, and only those of players mentioned before the bad entry |
| `Markers.LastMentionWins` | native/sampraknet_bridge.cpp:890-900 | a player's activity is that of the last entry that mentions it |
| `Markers.LastActiveWins` | native/sampraknet_bridge.cpp:900-903 | a player's position is that of its last active entry: each coordinate is the number from -32768 to 32767 congruent to the 16-bit word |
| `Markers.CoordinatesComeBack` | native/sampraknet_bridge.cpp:875-903 | signed coordinates from -32768 to 32767, written into the last active entry, are the position recorded |
| `Markers.PositionKept` | native/sampraknet_bridge.cpp:890-894 | a player without an active entry keeps its position |
| `Scores.UpdateScoresPingsIPs` | native/sampraknet_bridge.cpp:1466-1491 | for payload bits of any content and length, whatever the locals hold, the loop bounded by bytes / 9 leaves what applying the entries of the stream leaves: the whole ones in order, then where turns are left the cut-off one and its left-over bytes; before InitGame it changes nothing |
| `Scores.EntryLayout` | native/sampraknet_bridge.cpp:1479-1483 | id, score and ping stand at bits 0, 16 and 48 of an entry |
| `Scores.TurnsOfPayload` | native/sampraknet_bridge.cpp:1475-1490 | the turns of the loop and the list of entries leave the same table, for any bits |
| `Scores.EntryCount` | native/sampraknet_bridge.cpp:1471-1479 | a payload of L bytes is taken for its (L + 1) / 10 whole entries and, with the bytes left added to that number, none more below 10, one more below 19, and two more from there on |
| `Scores.SurplusTurns` | native/sampraknet_bridge.cpp:1479-1490 | once the stream is exhausted every further turn re-applies the last entry and changes nothing |
| `Scores.ScoresRefineFold` | native/sampraknet_bridge.cpp:1466-1491 | for every list of ten-byte entries, whatever the stray last byte and the uninitialised locals hold, the bytes / 9 loop leaves exactly what applying the entries once each leaves |
| `Scores.LastEntryWins` | native/sampraknet_bridge.cpp:1485-1489 | after the entries each named player has score and ping of the last entry that names it |
| `Scores.OnlyFigures` | native/sampraknet_bridge.cpp:1485-1489 | nothing but scores and pings changes, and a player no entry names is untouched |
| `Players.ResetPools` | native/sampraknet_bridge.cpp:930-933 | entry 0 is all zero afterwards and no other entry is changed |
| `Players.ResetClearsOnlyFirst` | native/sampraknet_bridge.cpp:930-933 | a reset empties the table if and only if nobody but player 0 was connected |
| `Players.ConnectionSucceeded` | native/sampraknet_bridge.cpp:544-547 | marks exactly the accepted id connected |
| `Players.ServerJoin` | native/sampraknet_bridge.cpp:1041-1071 | marks exactly the joining id connected, and does nothing before InitGame, for a name over 20 bytes or for a bad id |
| `Players.ServerQuit` | native/sampraknet_bridge.cpp:1073-1093 | marks exactly the quitting id disconnected, and does nothing before InitGame or for a bad id |
| `Players.GetPlayerCount` | native/sampraknet_bridge.cpp:3014-3023 | the 16-bit count is the cardinality of the set of connected ids |
| `Players.ResetLeavesStale` | native/sampraknet_bridge.cpp:930-933 | a concrete table on which the reset fails: with players 0 and 1 connected, player 1 stays connected |
| `Players.PlayHistory` | native/sampraknet_bridge.cpp:1041-1093 | after any history of accept, InitGame, join, quit, session close and reset events the connected ids are the members of that history and their count is its cardinality |
| `Players.MembersByLastEvent` | native/sampraknet_bridge.cpp:1041-1093 | an id is a member if and only if the last event acted on for it was neither a quit nor a reset |
| `Players.MembersUntouched` | native/sampraknet_bridge.cpp:1041-1093 | an id no event was acted on for is a member if and only if it was one to begin with; joins and quits outside a joined session and with bad ids are not acted on |
| `Players.ReconnectKeepsStale` | native/sampraknet_bridge.cpp:3383-3467 | after a session is closed and another accepted and joined, everybody connected before is still counted, player 0 excepted after a reset; the count is one if and only if nobody else was left |
| `NetGame.BridgeGlobals.UpdateNetwork` | native/sampraknet_bridge.cpp:957-1037 | dispatching a queue of any length is the fold of the single deliveries |
| `NetGame.BridgeGlobals.ScrTogglePlayerSpectating` | native/sampraknet_bridge.cpp:2800-2817 | a toggle to off that finds the client spectating and unspawned spawns it and records one spawn; any other toggle changes neither; spectating is afterwards what was received |
| `NetGame.CNetGame.constructor` | native/net/netgame.cpp:44-48 | a new game is in the initial state, field by field, and satisfies the invariant at any time |
| `NetGame.CNetGame.Perform` | native/net/netgame.cpp:50-207 | each user action and each frame changes the fields of the game and of the bridge's globals exactly as the step function says |
| `NetGame.CNetGame.Play` | native/net/netgame.cpp:50-207 | a game played through any legal run ends in the state of that run and keeps the invariant of every reachable state |
| `NetGame.Live` | native/net/netgame.cpp:44-207 | a game started at any tick and played through any legal run leaves a log of which all theorems about recorded logs speak |
| `SessionSafety.ElapsedAtMost` | native/net/netgame.cpp:164-167 | the wrapping 32-bit difference is the true elapsed time modulo 2^32 and never exceeds it |
| `SessionSafety.DeliverKeeps` | native/sampraknet_bridge.cpp:977-1026 | every deliverable event keeps the bridge invariant, the session and the spawn stage |
| `SessionSafety.SpawnFsmKeeps` | native/sampraknet_bridge.cpp:3487-3524 | the spawn FSM keeps the invariant, given that stage Ready implies Connected |
| `SessionSafety.SyncPumpKeeps` | native/sampraknet_bridge.cpp:3539-3572 | the sync pump keeps the invariant, the session and the spawn stage |
| `SessionSafety.QuietTick` | native/sampraknet_bridge.cpp:3469-3573 | with nothing requested nothing can be delivered and a frame changes nothing |
| `SessionSafety.ConnectKeeps` | native/net/netgame.cpp:99-132 | connecting from any state keeps the invariant |
| `SessionSafety.DisconnectKeeps` | native/net/netgame.cpp:134-142 | disconnecting keeps the invariant and ends in None or Disconnected |
| `SessionSafety.TickStateKeeps` | native/net/netgame.cpp:82-96 | the per-state ticks restore the coupling after a bridge frame |
| `SessionSafety.TickKeeps` | native/net/netgame.cpp:199-207 | a frame keeps the invariant and never leaves Connected: the branch that would is not taken in reachable states |
| `SessionSafety.RunKeeps` | native/net/netgame.cpp:50-207 | every state reached by any legal run, at any boot time, satisfies the invariant that ties both state machines, their stamps and the whole log |
| `SessionTheorems.StatesCoupled` | native/net/netgame.cpp:74-207 | in every reachable state: None and Disconnected mean nothing requested, connected, joined or spawned and FSM Idle; Connected means connected, joined and a valid player id; WaitingClass means AwaitJoin or Connected; Ready means Connected |
| `SessionTheorems.RequestsSpaced` | native/sampraknet_bridge.cpp:3491-3513 | two class requests of one session are more than 3000 ms of true time apart, across any number of clock wraps |
| `SessionTheorems.TimeoutsAreDue` | native/net/netgame.cpp:184-197 | a join timeout is preceded by more than 20000 ms of true time in AwaitJoin, across any number of clock wraps |
| `SessionTheorems.SpawnsBounded` | native/sampraknet_bridge.cpp:2748-2817 | in any stretch of one session the spawn calls, by the FSM and by leaving spectator mode together, number at most 1 + the gamemode restarts, and those by the FSM at most 1 |
| `SessionTheorems.AutoSpawnsJustified` | native/sampraknet_bridge.cpp:3489-3524 | each spawn by the FSM happens in Connected and after a positive reply received after the latest class request of the same session |
| `SessionTheorems.PacketsPerWindow` | native/sampraknet_bridge.cpp:3539-3572 | any window of L ms of true time holds at most L / 50 + 1 body sync packets, for any frame times and any clock wraps |
| `SessionTheorems.PacketsSpaced` | native/sampraknet_bridge.cpp:3539-3572 | packets i and j are at least 50 (j - i) ms of true time apart |
| `SessionTheorems.OnFootPacketsSpaced` | native/sampraknet_bridge.cpp:3075-3128 | two on-foot packets are more than 50 ms of true time apart, also across clock wraps |
| `SessionTheorems.GateShutAtRate` | native/sampraknet_bridge.cpp:3082 | at exactly 50 ms after a packet the inner on-foot gate is shut |
| `SessionTheorems.DoneAbsorbs` | native/sampraknet_bridge.cpp:3521-3523 | from stage Done, no continuation without a user action requests a class or spawns by the FSM again |
| `SessionTheorems.RestartRespawnsUnlessDone` | native/sampraknet_bridge.cpp:2368-2377 | after any legal run into Connected, a gamemode restart can be followed by an FSM spawn if and only if the stage is not Done |
| `SessionTheorems.RestartFailsAfterSpawn` | native/sampraknet_bridge.cpp:2371-2376 | an ordinary session is exhibited in which a gamemode restart can never make the client spawn again |
| `SessionEffects.Effects` | native/sampraknet_bridge.cpp:957-1026 | what any one event does to every field of the bridge and to the log |
| `SessionEvents.LeavingSpawns` | native/sampraknet_bridge.cpp:2800-2817 | in any queue, an event spawns exactly when it is a toggle to off that finds the client spectating and unspawned: the client is then spawned, not spectating, and one spawn is logged; no other event logs one, and after any toggle spectating is the value received |
| `SessionEvents.SpawnsOfQueue` | native/sampraknet_bridge.cpp:2800-2817 | over any queue the spawns logged number exactly these toggles, and none is by the FSM |
| `SessionEvents.SpectatorSpawns` | native/sampraknet_bridge.cpp:2800-2817 | in every reachable Connected state that spectates unspawned, the frame that carries a toggle to off leaves the client spawned and not spectating, with exactly one spawn more, not by the FSM |
| `SessionEvents.SpawnedAfter` | native/sampraknet_bridge.cpp:2368-2377 | after any queue the client is spawned if the last restart or end of spectator mode is no restart, and as before if there is neither |
| `SessionEvents.SpectatingAfter` | native/sampraknet_bridge.cpp:2816 | after any queue spectator mode is what the last toggle says |
| `SessionEvents.DialogAfter` | native/sampraknet_bridge.cpp:1933-1985 | after any queue a dialog is open exactly if the last dialog box opens one, or one was open and there is none |
| `SessionEvents.PlayerIdAfter` | native/sampraknet_bridge.cpp:532-547 | after any queue the player id is that of the last accept or complete InitGame |
| `SessionEvents.SpawnInfoAfter` | native/sampraknet_bridge.cpp:1574-1600 | after any queue a class reply is held if the last event among restarts and positive replies is a reply, and as before if there is none |
| `SessionEvents.ConnectedAfter` | native/sampraknet_bridge.cpp:957-1026 | after any queue the client is connected exactly if it was or an accept came; nothing delivered disconnects it |
| `SessionEvents.FsmHeld` | native/sampraknet_bridge.cpp:3489-3490 | a frame of a client that has not joined, is spawned or is in a dialog requests no class, spawns nobody by the FSM and keeps the stage |
| `SessionEvents.FsmRuns` | native/sampraknet_bridge.cpp:3491-3524 | any other frame moves the FSM by exactly one step: requests, spawns, stage, stamp, spawned, spectating and class reply afterwards |
| `SessionEvents.FrameSendsExactly` | native/sampraknet_bridge.cpp:3539-3572 | any frame sends an in-car or an on-foot packet if and only if the client is in the game, spawned and not spectating, 50 ms have passed since the last pump, it drives a vehicle that is found or does not drive, and the 40 ms or 50 ms gate is open; the stamps move with the packets and not otherwise |
| `SessionActions.ConnectOpens` | native/net/netgame.cpp:99-132 | in every reachable state a connect, unless the factory fails, opens a session of which nothing has happened, closes an old session's dialog and keeps the send stamps; the log entries it adds |
| `SessionActions.InitialiseOnce` | native/net/netgame.cpp:50-63 | in every reachable state initialising changes nothing when done before or when the factory fails, and otherwise exactly state, stamp, both flags and the log |
| `SessionActions.ConnectingMoves` | native/net/netgame.cpp:171-182 | any frame of a connecting client issues the connect and moves to AwaitJoin, stamped and logged, exactly when an accept is delivered |
| `SessionActions.DisconnectEnds` | native/net/netgame.cpp:134-142 | in every reachable state a disconnect changes nothing outside a session, and in one leaves none of it: no request, connection, spawn, player id, dialog or FSM stage |
| `SessionActions.QuitEnds` | native/net/netgame.cpp:65-72 | in every reachable state quitting leaves client and bridge uninitialised and nothing of a session, and logs an end only if there was one |
| `SessionActions.QuitIsSilent` | native/net/netgame.cpp:74-97 | after quitting no run without an initialise or connect logs anything or changes the state |
| `SessionActions.DialogHolds` | native/sampraknet_bridge.cpp:3484-3490 | from any Connected state with a dialog open, over any number of frames in which it is neither answered nor closed, no class is requested, the FSM spawns nobody and keeps its stage |
| `SessionActions.AnswerReleases` | native/gui/dialog.cpp:70-101 | an answer closes the dialog and changes nothing else, and the next frame requests a class or spawns as the stage says |
| `SessionProgress.JoinEndsExactly` | native/net/netgame.cpp:184-197 | in every reachable AwaitJoin state any frame connects if the client has joined or joins in it, and otherwise disconnects exactly when the time since entering, modulo 2^32, is over 20000 ms; so once over 20000 ms of true time have passed, and for 49.7 days, no frame leaves the client waiting |
| `SessionProgress.JoinEndIsRecorded` | native/net/netgame.cpp:184-197 | the frame that ends the wait logs the new state last, after the timeout if it was one, and stamps it |
| `SessionProgress.RequestRepeatedExactly` | native/sampraknet_bridge.cpp:3491-3513 | in every reachable state that waits for a class reply, over two frames without reply, spawn or dialog the request is sent again, once, exactly when at the first of them the time since the latest request, modulo 2^32, is over 3000 ms |
| `SessionThrottle.GatesExact` | native/sampraknet_bridge.cpp:3082-3157 | for a nonzero stamp a send gate agrees with the wrap-safe elapsed time if and only if both or neither of the two differences wrap; a zero stamp shuts the on-foot gate and opens the in-car one |
| `SessionThrottle.SilentWhileShut` | native/sampraknet_bridge.cpp:3075-3210 | over any events at all, legal or not and across sessions, a sender whose gate is shut at every frame sends nothing and keeps its stamp |
| `SessionThrottle.DeadForGood` | native/sampraknet_bridge.cpp:3082-3157 | from a dead stamp (0xFFFFFFFF, or 0 on foot) no events of any kind make the client send again, in this session or a later one |
| `SessionThrottle.SendsUnlessDead` | native/sampraknet_bridge.cpp:3075-3210 | in every reachable state of a spawned client some undisturbed continuation sends a packet if and only if the stamp is not dead |
| `SessionThrottle.SilentAfterWrap` | native/sampraknet_bridge.cpp:3082-3157 | after a packet at tick s, if none follows until one rate past the wrap, none follows in the next s ms, however the frames fall |
| `SessionThrottle.StampReachable` | native/sampraknet_bridge.cpp:3075-3210 | for every tick from 100 on a legal run, an ordinary session first, ends with a spawned client whose last packet was sent at that tick |
| `SessionThrottle.SilencedForGood` | native/sampraknet_bridge.cpp:3082-3157 | a legal run is exhibited after which a connected, spawned client never sends again |
| `SessionThrottle.SilencedAfterWrap` | native/sampraknet_bridge.cpp:3082-3157 | a legal run is exhibited after which the client is silent for s ms past the coming wrap, for any s from 100 up to 49.7 days |
| `SessionThrottle.SilentFromBootZero` | native/sampraknet_bridge.cpp:3027-3082 | a client started at tick count 0 never sends an on-foot packet |
| `ColoredText.ParseHexTag` | native/gui/colored_text.h:25-53 | succeeds exactly on a whole tag, with its colour and length 8, and never reads past the terminator |
| `ColoredText.ScanToBrace` | native/gui/colored_text.h:91-92 | stops at the first brace at or after p, or at the end |
| `ColoredText.DrawLine` | native/gui/colored_text.h:61-114 | emits the specified chunks, hands on the sticky colour, and draws a blank row exactly when there is no chunk |
| `ColoredText.DrawColoredTextOnDrawList` | native/gui/colored_text.h:122-175 | emits the same chunks as DrawLine, each placed at the sum of the widths before it; nothing without a draw list |
| `ColoredText.DrawColoredText` | native/gui/colored_text.h:182-210 | emits one row per line with the colour carried from row to row |
| `ColoredText.TagChannels` | native/gui/colored_text.h:44-86 | every tag is three bytes printed in hexadecimal, each digit in either case, and its colour is those bytes over 255, with the caller's alpha factor as its whole alpha |
| `ColoredText.TagCharacters` | native/gui/colored_text.h:25-43 | eight characters are a tag if and only if the outer ones are braces and each inner one is from 0 to 9, a to f or A to F |
| `ColoredText.BaseColour` | native/gui/colored_text.h:187-188 | each character before the first brace is painted in the caller's colour with its alpha times the alpha factor |
| `ColoredText.PlacedSideBySide` | native/gui/colored_text.h:137-143 | the first chunk is placed at the given position and each further one where the one before it ends |
| `ColoredText.EachByteOnce` | native/gui/colored_text.h:77-108 | each position of a text is painted, once and in order, if and only if it lies in no removed tag; the removed tags are whole and do not overlap; the k-th painted character is the one at the k-th painted position |
| `ColoredText.PaintPlain` | native/gui/colored_text.h:91-107 | a stretch without an opening brace is painted as it stands and leaves the colour alone |
| `ColoredText.TagStaysInside` | native/gui/colored_text.h:25-53 | in a view followed by newline or NUL the reader, which looks past the view, accepts exactly the tags inside it |
| `ColoredText.LineMeaning` | native/gui/colored_text.h:61-114 | the chunks of a view followed by newline or NUL, put together, are the leftmost-tag meaning of its text, and the colour handed on is the one that sticks |
| `ColoredText.PaintAcrossNewline` | native/gui/colored_text.h:187-207 | the meaning of a text is that of its first line, a line break in the sticky colour, and that of the rest from that colour |
| `ColoredText.RowCount` | native/gui/colored_text.h:195-207 | there is one row more than there are newlines |
| `ColoredText.RowsMeaning` | native/gui/colored_text.h:182-210 | the rows, joined by line breaks, carry exactly the coloured characters of the whole text |
| `ColoredText.PrintedSegmentsComeBack` | native/gui/colored_text.h:22-53 | segments printed as tag and brace-free text, the digits of each tag in any mix of cases, come back in their colours from any starting colour |
| `ColoredText.SegmentChannels` | native/gui/colored_text.h:83-86 | those colours are the three bytes over 255 and the alpha factor |
| `Quaternion.OfRotation` | native/game/game.h:223-242 | on the rotation matrix of any unit quaternion the clamp never acts and the components come back up to the sign rule of copysign |
| `Quaternion.RotationComesBack` | native/game/game.h:223-242 | for w nonzero the result is q when w is positive and -q when w is negative |
| `Quaternion.NullIsIdentity` | native/game/game.h:225-226 | without a matrix the result is the unit quaternion of the identity rotation |
| `Quaternion.RotationPreservedExactly` | native/game/game.h:230-242 | the same rotation comes back if and only if w is nonzero or x, y and z do not differ in sign |
| `Quaternion.HalfTurnLost` | native/game/game.h:230-242 | the half-turn about (0.6, -0.8, 0) comes back as the one about (0.6, 0.8, 0), a different rotation |
| `Quaternion.NormalisedExactly` | native/game/game.h:218-238 | for any matrix the result has norm one if and only if no radicand is negative, that is, the clamp changes nothing |
| `Quaternion.RoundedHalfTurn` | native/game/game.h:218-238 | a half-turn whose last diagonal entry is e below 1, for any e up to 1, has a negative radicand, and its quaternion the squared norm 1 + e / 4 |
| `Quaternion.NearlyNormalised` | native/game/game.h:218-238 | for a matrix whose diagonal is within e of that of a rotation the squared norm is between 1 and 1 + 3e |
| `Dialog.SplitLines` | native/gui/dialog.cpp:17-34 | the items are the trimmed lines with one empty last line dropped |
| `Dialog.PiecesOfBody` | native/gui/dialog.cpp:21-30 | between the newlines of items joined by LF or CRLF stand exactly the items, with the carriage returns CRLF adds |
| `Dialog.SplitUndoesJoin` | native/gui/dialog.cpp:17-34 | joining by LF or CRLF, with or without a final separator, is undone if and only if with LF no item ends in CR and, without a final separator, the last item neither ends in CR nor is empty |
| `Dialog.ReturnLost` | native/gui/dialog.cpp:17-34 | the items "a\r" and "b" joined by LF come back as "a" and "b" |
| `Dialog.ItemCount` | native/gui/dialog.cpp:17-34 | there is at most one item more than there are newlines |
| `Dialog.DialogBox.Show` | native/gui/dialog.cpp:43-68 | the whole new state: texts with null as empty, items of the body for the three list styles and none for the others, the first selected if there is one, focus wanted for the two input styles |
| `Dialog.DialogBox.Select` | native/gui/dialog.cpp:183-196 | the selection stays a valid item |
| `Dialog.DialogBox.Respond` | native/gui/dialog.cpp:75-101 | for a list, the text of the selected item and its index cut to 16 bits, which is the index itself when the body has fewer than 65535 newlines; 0xFFFF and the right text for every other style, table lists included; the dialog is hidden |
| `ScmScript.Script.Reset` | native/game/scm.h:69-76 | the buffer holds the opcode and no parameter, flag and local variables are cleared, stale bytes stay |
| `ScmScript.Script.PushInt` | native/game/scm.h:78-83 | appends one tagged integer to the call being built, whatever was in the buffer |
| `ScmScript.Script.PushFloat` | native/game/scm.h:85-90 | appends one tagged float to the call being built |
| `ScmScript.Script.Call` | native/game/scm.h:69-90 | from any dirty buffer, a reset and any list of at most fifty integers and floats leave the position at 2 + 5k and bytes before it that decode to exactly that opcode and list |
| `ScmScript.Script.SelectInterior` | native/game/scm.h:116-121 | from any dirty buffer the bytes before the position decode to opcode 0x04BB and the id |
| `ScmScript.Script.LinkActorToInterior` | native/game/scm.h:125-131 | from any dirty buffer they decode to opcode 0x0860, actor and interior |
| `ScmScript.Script.RefreshStreamingAt` | native/game/scm.h:137-143 | from any dirty buffer they decode to opcode 0x04E4 and the two floats |
| `ScmScript.ScriptRoundTrip` | native/game/scm.h:69-90 | every opcode and parameter list decodes to itself |
| `ScmScript.CallBytes` | native/game/scm.h:69-90 | the literal bytes: the opcode, low byte first, then at 2 + 5i the five bytes of parameter i |
| `ScmScript.ParamBytes` | native/game/scm.h:78-90 | tag 1 for an integer and 6 for a float, then the two's complement word or the float's bits, lowest byte first |
| `StackDump.ReadMemory64Lists` | parse_stack.py:51-61 | over every such stream of the dump, succeeds exactly when each is complete, with the ranges of all of them in directory order |
| `StackDump.ReadMemory64List` | parse_stack.py:52-61 | for any file bytes, succeeds exactly when all fields are there, with ranges stored one after another from the base offset |
| `StackDump.RangesBack` | parse_stack.py:58-61 | a descriptor list written little-endian is read back as ranges laid out from the base offset |
| `StackDump.ReadMemIsImage` | parse_stack.py:70-75 | when the file stores the listed ranges of a memory image from the base offset on, a read gives the image's bytes exactly when one range covers the request, and nothing otherwise, overlapping ranges included |
| `StackDump.DumpReadsImage` | parse_stack.py:52-75 | the same from the file's bytes alone, through the list header |
| `StackDump.SliceIsCut` | parse_stack.py:73-74 | a read that runs past the end of the file gives the bytes that are there |
| `StackDump.ModuleForExactly` | parse_stack.py:44-48 | a lookup gives a name and an offset if and only if they are the name of the first module that contains the address and the distance from its base, and nothing if and only if no module contains it |
| `StackDump.ScanStack` | parse_stack.py:93-100 | the loop with its remembered set lists the first occurrences of the candidate words in stack order |
| `StackDump.RememberedWords` | parse_stack.py:97-99 | address and module name are in the remembered set exactly when the address was seen before |
| `StackDump.HitsAreFirst` | parse_stack.py:94-100 | every listed entry, the last and the only one included, is the first occurrence of a little-endian word of the stack that points past the base of the first module containing it, with that module's non-empty name and the distance from its base; entries are at increasing offsets, no address twice |
| `StackDump.AllReported` | parse_stack.py:94-100 | every word that points past the base of the first module containing it is listed, if that module is named |

## Left out

- VehicleSync.InCarUpdate: requires a vehicle health whose conversion to 16 bits the language defines; outside it the source's own conversion is undefined.
- Scores.UpdateScoresPingsIPs: requires that the 16-bit loop counter can reach the bound, that is, at most 589823 payload bytes; beyond that the source's loop does not end.
- Players.ConnectionSucceeded: requires an accepted id below MAX_PLAYERS, which the delivery assumption grants; for any other id the source writes outside its table. The same holds of `Players.PlayHistory`.
- VehicleSync.InCarRoundTrip: for a NaN speed it promises nothing, because the packet then does not come back; `InCarComesBackExactly` states both halves.
- StackDump.DumpReadsImage: speaks of a dump with one Memory64List stream.
- NetGame.BridgeGlobals.UpdateNetwork: a malformed timestamp packet ends the source's receive loop early; here that is a frame with a shorter queue.
- NetGame.CNetGame.Perform: host, port, nickname and password strings, the refusal of null ones, the ClientJoin message, the contents of on-foot packets and the pinning of the world clock are not modelled; one clock reading per frame stands for the several the source makes.
- Quaternion.RotationComesBack: arithmetic is over the reals, without rounding, and over a square root given by its defining property.
- ColoredText.DrawColoredTextOnDrawList: colours are real numbers, not the packed 8-bit value ImGui finally draws.
- Players: names and other strings of the table, and its part in the session step functions.
- StackDump: the stream directory, the MemoryList branch, the exception record and the printing.
- ScmScript: `exec` and what the game's dispatcher does with the buffer.
- RakNet's connections, its reliability layer, the string compressor and the authentication keys.
- Aim, passenger, trailer, unoccupied and bullet sync: they read fixed fields and store them.
- The score request timer, chat, command routing and character encodings.
- Game memory, hooks, patches, engine calls, ImGui drawing and window procedures.
- The launcher and the crash handler.
