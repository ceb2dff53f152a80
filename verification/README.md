# Verified model of vbox

vbox shows the windows of a Linux guest on a macOS host. A guest server sends window
pictures as tiles over QUIC datagrams or TCP; a viewer assembles, composes, letterboxes and
scales them and maps the mouse back; a control daemon in the guest starts and stops servers
on request; the host's command line hands out ports and drives the guest over ssh.

This project models the parts of that program whose behaviour is not visible from any single
function, and proves what they guarantee for every input, every run and every interleaving.

| Part | Files |
|---|---|
| Wire format: postcard, tiles in datagrams, messages, frames | `Postcard`, `Utf8`, `Slices`, `TileWire`, `MessageWire`, `Framing`, `WireLayout`, `Occurrences` |
| Reassembly of tiles from datagrams | `TileAssembler`, `AssemblerRuns` |
| The viewer: canvas, content rectangle, letterbox, mouse, resizing | `Pixels`, `FrameBuffer`, `BoundingBox`, `ContentRect`, `Letterbox`, `ViewGeometry` |
| Falling back from QUIC to TCP | `OutboundTee` |
| The control daemon: sessions, remote calls, the instance table | `ControlSession`, `ControlWire`, `RequestWire`, `ControlProtocol`, `Registry`, `SnapshotFile`, `SnapshotStore`, `RegistryRuns`, `ServerRuns`, `FlushRaces` |
| The command line: ports, ssh options | `Strings`, `PortFile`, `PortAllocator`, `PortRaces`, `Shell`, `SshOptions` |
| Shared | `Wrappers`, `MachineInts`, `Arith` |

What the source changes in place is a class or a method over an array here (the assembler, the
frame buffer, the byte stream, the session, the daemon's table, the port allocator, the command
builder), proved against a function of its old state; protocols are state machines whose
theorems range over all runs. `dafny verify dfyconfig.toml` checks everything.

Results that say something the program's own comments do not:

- A tile can arrive over datagrams if and only if it takes at most 16384 chunks
  (`AssemblerRuns.ArrivesExactlyWhenFewChunks`). The sender does not check this, so a larger tile
  is sent in full and never shown.
- A tile is handed on at least m times if and only if the trace has m stretches, one after the
  other, in each of which all its chunks arrive without a wipe of the table
  (`AssemblerRuns.HandedOnIffWindows`). So it is shown at all exactly when there is one such
  stretch, and late duplicates show it again exactly when there are two
  (`AssemblerRuns.DuplicateEmittedTwice` and `AssemblerRuns.WipeLosesTile` are instances).
- A click in the margin reaches the far edge of the content if and only if the picture is not
  shrunk (`ViewGeometry.LastDrawnIsEdge`).
- Resizing back and forth does not drift when magnified (`ViewGeometry.SizeKeptMagnified`). When
  shrunk, down to a third, both sides stay within one pixel if and only if neither side of the
  content is a single pixel or the scale is above 0.4 (`ViewGeometry.SizeSteadyIff`).
- Whatever message a peer can send can also be written again by its receiver
  (`Framing.LimitsAgree`). Decoding is not injective (`Postcard.DecodingNotInjective`): of the
  inputs with one outcome exactly one is shortest, and it is the encoder's
  (`Postcard.CanonicalIff`, `Postcard.CanonicalInjective`).
- After a crash the daemon comes back answering for every running server if and only if the snapshot
  `state.bin` held at the crash is of a table that had all of them
  (`ServerRuns.CrashLosesNothingIff`), however fresh its own table was. All flushes share one
  temporary file, so which snapshot that is takes care to say: what a flush wrote is on disk if and
  only if `state.bin` is the file it wrote into and no other flush has opened or written that file
  since (`SnapshotStore.FlushIsOnDiskIff`, `ServerRuns.FlushSavesIff`). When no flush opens the
  temporary file between another's opening and its end, it is the last one renamed
  (`ServerRuns.SerialCrashFallsBack`).
- Servers are lost when the older of two flushes is renamed last
  (`FlushRaces.StaleFlushLosesServer`), when it is not but has written into the newer one's file
  (`FlushRaces.OverlapLosesServer`), and when the crash finds the file just emptied
  (`FlushRaces.EmptiedFileLosesAll`). A lost one stays lost (`ServerRuns.LostForever`).
- A client whose bytes do not contain the daemon's token anywhere can send what it likes: the daemon
  state stays as it was and no answer depends on it (`ControlWire.TokenlessStreamIsBlind`).
- Whatever calls an authenticated client writes are run in order with the very fields it wrote, from
  the bytes of the stream to the daemon's state and the answers (`RequestWire.CallsAreRun`).
- A start that is refused for its empty QUIC token has already stopped the instance it was to
  replace, and does not save that (`Registry.DaemonState.StartInstance`).
- An identifier without an ASCII letter or digit gets the empty name, and using it makes the port
  file unreadable for good: from then on no instance but the default one is given a port, those
  already known included (`PortAllocator.EmptyNameBreaksFile`).
- Two command lines that run at once are given the same port for two names if and only if the files
  they read listed equally many names (`PortRaces.SamePortIff`, `PortRaces.TwoNamesOnePort`).
- The two ssh back ends agree if and only if every value is Unicode (`SshOptions.BackEndsAgree`).

## Model

| member | source | states |
|---|---|---|
| Postcard.RoundTrip | crates/proto/src/data_plane.rs:130-136 | for every type and value of it, decoding the encoding gives the value back and leaves all later bytes untouched |
| Postcard.DecodeTyped | crates/proto/src/data_plane.rs:134-136 | whatever bytes decode at all decode to a value of the type asked for, and the remainder is a suffix of the input |
| Postcard.ShortestEncoding | crates/proto/src/framing.rs:121-129 | encoding a decoded value again never takes more bytes than it was read from, and takes as many only when they are the very same bytes |
| Postcard.CanonicalIff | crates/proto/src/data_plane.rs:134-136 | of all inputs with one outcome, an input is shortest if and only if it is the encoding followed by what is left over |
| Postcard.CanonicalInjective | crates/proto/src/data_plane.rs:134-136 | two inputs with one outcome, one of them shortest, are equal if and only if the other is shortest too |
| Postcard.FromBytesCanonicalIff | crates/proto/src/data_plane.rs:134-136 | for `from_bytes`, which ignores what is left over: an input is the value's encoding if and only if no shorter input decodes to that value |
| Postcard.DecodingNotInjective | crates/proto/src/data_plane.rs:134-136 | outside those inputs decoding is not injective: a padded varint and trailing bytes change nothing |
| Postcard.SizeBound | crates/proto/src/data_plane.rs:130-132 | an encoding is never longer than a constant of its type plus the bytes in its blobs |
| WireLayout.VarintBytes | crates/proto/src/data_plane.rs:130-132 | a length or number is written as its base-128 digits, least first, without a leading zero, top bit set on all but the last |
| WireLayout.NumberForms | crates/proto/src/data_plane.rs:130-132 | signed numbers are folded onto the even and odd ones and the bits of a float go least byte first |
| WireLayout.OtherForms | crates/proto/src/data_plane.rs:130-132 | flags, bytes after their length, and optional values after a byte that says whether they are there |
| Utf8.ValidIffSpelled | crates/proto/src/rpc.rs:28-65 | the bytes accepted as a text are exactly those that spell Unicode scalar values: no surrogate, no overlong form, nothing above U+10FFFF, nothing cut short |
| TileWire.DatagramRoundTrip | crates/proto/src/data_plane.rs:130-136 | a tile chunk survives the wire, whatever trails it |
| TileWire.DatagramSize | crates/proto/src/data_plane.rs:74-98 | a chunk takes at most 90 bytes besides its payload, whatever its fields |
| TileWire.SentChunkFits | crates/proto/src/data_plane.rs:147-191 | every chunk the sender makes fits the datagram limit and decodes to itself |
| TileWire.FrameTileDatagrams | crates/proto/src/data_plane.rs:138-195 | fragmentation succeeds exactly for a limit of 512 or more and a tile below 2^32 bytes; every datagram then decodes to the tile's next piece, min(limit, 1200) - 256 bytes long but for the last, with the tile's numbers and header; there are as many as that length requires, one for an empty tile; and neither size check ever fires |
| TileWire.ChunksJoin | crates/proto/src/data_plane.rs:174-183 | the chunk payloads in index order concatenate to the tile |
| WireLayout.DatagramLayout | crates/proto/src/data_plane.rs:74-132 | a datagram byte by byte: the chunk's numbers, the tile's header and the payload, in the order of the fields |
| TileAssembler.FrameTileDatagramAssembler.Push | crates/client/src/data_plane/quic.rs:493-551 | one push, in place, has the table and the tile of the specification step: refusals, wholesale wipe, conflicting or overlong slot dropped, duplicate ignored, last chunk emits |
| TileAssembler.ImpossibleChunkIgnored | crates/client/src/data_plane/quic.rs:497-506 | a chunk count of zero or above 16384, an index out of range or a length above 64 MiB changes nothing |
| TileAssembler.OthersKept | crates/client/src/data_plane/quic.rs:508-550 | a push leaves every other key's slot as it was, unless it wipes a table of 32 or more for a new key |
| TileAssembler.NewTileWipes | crates/client/src/data_plane/quic.rs:509-511 | the first chunk of a new tile at a table of 32 or more leaves no other key |
| TileAssembler.ConflictDropsSlot | crates/client/src/data_plane/quic.rs:519-525 | a chunk that contradicts its slot's length, header or count takes the slot away and hands nothing on |
| TileAssembler.DuplicateIgnored | crates/client/src/data_plane/quic.rs:527-530 | a chunk that is already there changes nothing, whatever bytes it brings |
| TileAssembler.OverlongDropsSlot | crates/client/src/data_plane/quic.rs:531-540 | a new chunk takes its slot away if and only if the bytes gathered would exceed the announced length; otherwise, while another is missing, it is stored at its index and nothing else of the slot changes |
| AssemblerRuns.StepKeepsInvariant | crates/client/src/data_plane/quic.rs:494-540 | for any chunk at all, a push keeps at most 32 slots, each with an exact byte count within its declared length of at most 64 MiB, something stored and something missing |
| AssemblerRuns.ReachableInvariant | crates/client/src/data_plane/quic.rs:494-540 | the same in every reachable state |
| AssemblerRuns.EmissionsBounded | crates/client/src/data_plane/quic.rs:532-550 | over any trace, tiles handed on for a key plus chunk i still held never exceed the pushes of chunk i |
| AssemblerRuns.DuplicateEmittedTwice | crates/client/src/data_plane/quic.rs:540-550 | a late duplicate hands a one-chunk tile on again |
| AssemblerRuns.HandedOnIsRounds | crates/client/src/data_plane/quic.rs:493-551 | with no hypothesis on wipes, a tile is handed on exactly as often as a round of all its indices is completed since the last completion or wipe, and the table holds exactly the chunks of the round under way |
| AssemblerRuns.HandsOnIff | crates/client/src/data_plane/quic.rs:532-550 | a push hands the tile on if and only if it completes a round |
| AssemblerRuns.HandedOnIffWindows | crates/client/src/data_plane/quic.rs:493-551 | a tile is handed on at least m times if and only if the trace has m successive stretches without a wipe in each of which all its chunks arrive: the exact law of arrival, repetition and loss |
| AssemblerRuns.WipeLosesTile | crates/client/src/data_plane/quic.rs:509-511 | with 31 other tiles pending, one chunk of yet another key between the two chunks of a tile loses it, though both arrive |
| AssemblerRuns.ReassemblyIntegrity | crates/client/src/data_plane/quic.rs:493-551 | under any loss, repetition, reordering, interleaving and wiping, a tile handed on is the tile sent under that key, byte for byte |
| AssemblerRuns.ReassemblyCompleteness | crates/client/src/data_plane/quic.rs:508-550 | in any order and among any other chunks, the push that supplies the last missing chunk hands the tile on and no earlier push for its key does, unless a wipe intervenes |
| AssemblerRuns.FewKeysNeverWipe | crates/client/src/data_plane/quic.rs:509-511 | with at most 32 keys in flight no wipe happens |
| AssemblerRuns.InOrderDelivers | crates/client/src/data_plane/quic.rs:493-551 | a tile of at most 16384 chunks sent in order with nothing lost arrives |
| AssemblerRuns.ArrivesExactlyWhenFewChunks | crates/client/src/data_plane/quic.rs:495-502 | some run of genuine chunks delivers a tile if and only if it takes at most 16384 of them |
| AssemblerRuns.DatagramsToTiles | crates/client/src/data_plane/quic.rs:253-254 | end to end from encoded datagrams, in any multiset and order, to tiles: only tiles that were sent come out |
| AssemblerRuns.FragmentsAreFromSender | crates/proto/src/data_plane.rs:138-195 | what fragmentation returns is what the end-to-end statement speaks of |
| Pixels.PackUnpack | crates/client/src/viewer/frame.rs:505-527 | packing four channels and reading them back is the identity |
| FrameBuffers.FrameBuffer.constructor | crates/client/src/viewer/frame.rs:54-64 | a new buffer has its size and every pixel transparent |
| FrameBuffers.FrameBuffer.Resize | crates/client/src/viewer/frame.rs:66-75 | every pixel of the new size is the one the old frame had there, or transparent where it had none; the matte is kept |
| FrameBuffers.FrameBuffer.ResizeForRemoteSize | crates/client/src/viewer/frame.rs:77-91 | all pixels become transparent when either side shrinks; otherwise the frame is padded as by `Resize` |
| FrameBuffers.FrameBuffer.ApplyTile | crates/client/src/viewer/frame.rs:128-182 | a refused tile changes nothing and names the first failed check; after an accepted one the frame is as large as frame and tile together, each covered cell with an alpha byte of 48 or more has the red, green, blue and alpha of its four tile bytes, every other cell keeps its pixel, and content and matte follow; the result tells whether the display size changed |
| FrameBuffers.LastWriteMeaning | crates/client/src/viewer/frame.rs:66-182 | the canvas: a coordinate shows a pixel if and only if some tile put it there and no later operation wrote over it, cropped it or cleared the frame |
| FrameBuffers.NothingOutside | crates/client/src/viewer/frame.rs:105-126 | nothing is remembered outside the present frame |
| BoundingBox.BoundingBoxUnique | crates/client/src/viewer/frame.rs:198-227 | a frame has at most one tight box around its visible pixels |
| BoundingBox.ScanFrame | crates/client/src/viewer/frame.rs:188-214 | the scan gathers tight bounds, exact channel sums and the count of the visible pixels |
| BoundingBox.UpdateContentRect | crates/client/src/viewer/frame.rs:188-241 | the content is the trimmed tight box and the matte the average visible colour; a frame with nothing visible gives the whole frame and the default matte |
| BoundingBox.MatteIsAverage | crates/client/src/viewer/frame.rs:216-241 | each channel of the matte is the floor of that channel's sum over the pixels of alpha 48 or more, divided by their number; with none of them the matte is 0x181818 and the content the whole frame |
| BoundingBox.ContentUnique | crates/client/src/viewer/frame.rs:188-241 | the frame determines its content rectangle and matte |
| BoundingBox.ContentInsideFrame | crates/client/src/viewer/frame.rs:216-235 | the content lies in the frame and is never empty |
| ContentRect.IsUniformRow | crates/client/src/viewer/frame.rs:331-350 | a row is uniform if and only if at most max(len/20, 1) pixels stray from its first colour, though counting stops early |
| ContentRect.IsUniformCol | crates/client/src/viewer/frame.rs:352-370 | the same for a column |
| ContentRect.UniformLineMeans | crates/client/src/viewer/frame.rs:311-370 | uniform means that the pixels whose colour differs from the first by more than 12, summed over three channels, are counted at most max(len/20, 1) |
| ContentRect.TrimUniformPadding | crates/client/src/viewer/frame.rs:249-309 | the four phases in order, each over the span left by the ones before, each stopping at the first line that is not uniform or at the last one, and restoring a run shorter than 16 |
| ContentRect.TrimDeterministic | crates/client/src/viewer/frame.rs:249-309 | that description has one outcome |
| ContentRect.TrimShrinks | crates/client/src/viewer/frame.rs:249-309 | the result is a non-empty sub-rectangle, and each side moved by 0 or at least 16 |
| ContentRect.RemovedRowUniform | crates/client/src/viewer/frame.rs:255-280 | every row cut away was uniform over the rectangle's full width |
| ContentRect.RemovedColUniform | crates/client/src/viewer/frame.rs:282-306 | every column cut away was uniform over the height left after the rows went |
| ContentRect.PhaseMovesExactly | crates/client/src/viewer/frame.rs:244-267 | a side moves if and only if its first 16 lines are uniform and another line remains behind them |
| ContentRect.BlankKeepsTopLeft | crates/client/src/viewer/frame.rs:249-309 | a rectangle more than 16 rows high with only uniform rows keeps its top row, and of that only the left pixel when more than 16 wide |
| Letterbox.ClampsNeverAct | crates/client/src/viewer/frame.rs:487-495 | the two `.min` clamps of the fit never change anything |
| Letterbox.FitNeverOverflows | crates/client/src/viewer/frame.rs:482-495 | for all u32 inputs every intermediate value fits 64 bits |
| Letterbox.FitInside | crates/client/src/viewer/frame.rs:476-503 | the rectangle lies in the window, is not empty, fills one whole dimension and is centred to within one pixel |
| Letterbox.FitKeepsRatio | crates/client/src/viewer/frame.rs:487-495 | its other side is the exact ratio rounded to nearest, a tie going up, or one pixel where that is less than a half |
| Letterbox.BlendedPixel | crates/client/src/viewer/frame.rs:529-549 | every drawn pixel is opaque with each channel between source and matte; an opaque source keeps its colour, an invisible one gives the matte |
| Letterbox.PixelBlends | crates/client/src/viewer/frame.rs:529-549 | from alpha 48 to 254 each channel is alpha parts of 255 of the source and the rest of the matte, rounded down; below that the matte, at 255 the source |
| Letterbox.SampledAt | crates/client/src/viewer/frame.rs:411-430 | the cell drawn in column x is the region's column s with s * width <= x * region width < (s + 1) * width, and likewise for rows |
| Letterbox.CopyFrameRegionPreserveAspect | crates/client/src/viewer/frame.rs:433-474 | in place, every window cell has the matte's colour, opaque, outside the fitted rectangle, and inside it the colour of its sampled source pixel and the matte blended by the source's alpha |
| Letterbox.RenderedOpaque | crates/client/src/viewer/frame.rs:433-445 | every rendered cell has alpha 255 |
| Letterbox.FastCopyIsScaledCopy | crates/client/src/viewer/frame.rs:411-430 | pixel by pixel: at equal sizes the position the scaled copy samples is the position itself, so the copy without scaling that the tests keep beside it draws the same |
| ViewGeometry.ClickHitsDrawnPixel | crates/client/src/viewer/geometry.rs:72-94 | clicking a host pixel inside the letterbox reports the very source pixel drawn there |
| ViewGeometry.AxisIsScaled | crates/client/src/viewer/geometry.rs:79-93 | for any real host position an axis lands inside the content at the floored scaled position, and the final clamp never acts |
| ViewGeometry.AxisExactly | crates/client/src/viewer/geometry.rs:79-93 | and in products: the column c hit from a position in the letterbox is the one with c * map length <= position * content length < (c + 1) * map length |
| ViewGeometry.AxisMonotone | crates/client/src/viewer/geometry.rs:79-93 | moving right never lands further left |
| ViewGeometry.MarginLandsOnEdge | crates/client/src/viewer/geometry.rs:80-83 | a click in the margin lands on the first, or the last drawn, content column |
| ViewGeometry.LastDrawnIsEdge | crates/client/src/viewer/geometry.rs:80-87 | the last drawn column is the content's last if and only if the letterbox is at least as wide as the content |
| ViewGeometry.RemoteSizeAsks | crates/client/src/viewer/geometry.rs:17-33 | for every window, scale, content and frame, both axes: what is asked for, less the hidden part, is the window length divided by the scale, rounded to nearest; one pixel where that is less, and the largest number where it saturates |
| ViewGeometry.AsksForOne | crates/client/src/viewer/geometry.rs:17-33 | only one length satisfies that |
| ViewGeometry.ScaledLenIsNearest | crates/client/src/viewer/frame.rs:551-555 | a guest length is shown as the nearest number of host pixels, at least one, at most 2^32 - 1 |
| ViewGeometry.NoDriftMagnified | crates/client/src/viewer/geometry.rs:17-33 | for scales of at least one, feeding the scaled content size back gives exactly the present frame size |
| ViewGeometry.DriftWhenShrunk | crates/client/src/viewer/frame.rs:551-555 | for scales above one third it is off by at most one pixel when the floor does not act |
| ViewGeometry.SizeSteadyIff | crates/client/src/viewer/geometry.rs:17-33 | shrunk, down to a third (the viewer's smallest scale is 0.35), both sides of the size asked back are within one pixel of the frame if and only if not: a content side of one pixel and a scale of at most 0.4 |
| ViewGeometry.SizeKeptMagnified | crates/client/src/viewer/geometry.rs:17-33 | magnified, both sides come back exactly |
| MessageWire.KindCodes | crates/proto/src/framing.rs:36-84 | the code table and its inverse agree in both directions |
| MessageWire.VariantCodes | crates/proto/src/message.rs:18-59 | the tag of each of the sixteen messages, by its number on the wire |
| Framing.FrameAcceptance | crates/proto/src/framing.rs:139-172 | a reader yields message m and remainder r if and only if the input is a frame of m followed by r |
| Framing.TruncatedFrame | crates/proto/src/framing.rs:139-158 | every proper prefix of a frame reads as end of stream and as nothing else |
| Framing.FrameRoundTrip | crates/proto/src/framing.rs:114-159 | reading what was written gives the message back and touches nothing after it |
| Framing.LimitsAgree | crates/proto/src/framing.rs:126-148 | a message can be written if and only if some bytes can be read as it, so the 64 MiB limits of the two ends agree |
| Framing.ImeFrameRejected | crates/proto/src/framing.rs:52-76 | kind 201 is in the tag table, yet no frame with it ever yields a message |
| Framing.StreamRoundTrip | crates/proto/src/framing.rs:114-159 | any list of messages followed by any bytes reads back as the list, then as those bytes alone would |
| Framing.StreamCut | crates/proto/src/framing.rs:139-159 | a stream cut inside the frame of message j reads as exactly the messages before it, then the end |
| Framing.ReadStreamSound | crates/proto/src/framing.rs:139-172 | on arbitrary bytes, what is handed out are the contents of consecutive frames at the front, and what is left does not parse |
| Framing.ReadFrame | crates/proto/src/framing.rs:139-159 | the blocking reader returns what the specification of a frame says, with the same error, and leaves unread exactly what it says, after a failure too |
| Framing.ReadFrameAsync | crates/client/src/data_plane/quic.rs:454-478 | the QUIC reader meets the same specification, so it accepts the same inputs |
| Framing.WriteFrame | crates/proto/src/framing.rs:114-137 | writes the whole frame, or nothing when it is too big |
| WireLayout.FrameHeader | crates/proto/src/framing.rs:114-137 | a frame byte by byte: a big-endian count of what follows, the big-endian tag of the message, the payload; and a payload is written if and only if it and the tag fit 64 MiB |
| Framing.WritePrelude | crates/proto/src/framing.rs:89-94 | writes exactly the six bytes `ReadPrelude` accepts |
| WireLayout.PreludeOnTheWire | crates/proto/src/framing.rs:89-94 | the letters VBOX, a zero and fifteen |
| Framing.ReadPrelude | crates/proto/src/framing.rs:97-110 | succeeds exactly on a stream that starts with magic and version 15, and tells a short stream, another magic and each other version apart |
| ControlSession.ConstantTimeEq | crates/controld/src/main.rs:456-465 | comparing without early exit still decides equality |
| ControlSession.UntrustedPeerIsBlind | crates/controld/src/main.rs:250-262 | a peer with neither certificate nor token leaves the daemon state as it was and gets answers that do not depend on it |
| ControlSession.ChangeNeedsTrust | crates/controld/src/main.rs:253-262 | a changed daemon state means the session was trusted and a method ran after that |
| ControlSession.Dispatch | crates/controld/src/main.rs:244-338 | only Authenticate with the exact token changes the trust; any other method runs only when trusted |
| ControlSession.ServeMessages | crates/controld/src/main.rs:212-338 | for every client, the loop handles the messages before the first Goodbye one by one, answers each while the peer is there to hear it, leaves the state the trusted methods produce, and fails exactly when an answer cannot be written; a Ping is echoed, the answers carry the requests' ids by position, refuse the untrusted, and never refuse a later request of a trusted session |
| ControlSession.HandleSession | crates/controld/src/main.rs:184-241 | only a prelude and a Hello of version 15 are welcomed, and the loop's answers follow; any other opening runs nothing and is answered with the prelude, and the complaint 426 when it told another version; a peer that is gone at any point ends the session with an error |
| Occurrences.MentionedOccurs | crates/proto/src/data_plane.rs:134-136 | every blob or text in a decoded value is a contiguous part of the input |
| Occurrences.StreamMentions | crates/proto/src/framing.rs:139-172 | the same for every message read off a stream of frames |
| ControlWire.KindIsKept | crates/controld/src/main.rs:502-513 | a session sees every message under the kind its frame carries |
| ControlWire.RequestsAreRequests | crates/controld/src/main.rs:228-234 | a frame is seen as a request if and only if its kind is that of requests |
| ControlWire.TokenlessStreamIsBlind | crates/controld/src/main.rs:250-262 | for every byte stream in which the token does not occur, the daemon state stays as it was and no answer depends on it |
| ControlWire.ServeClient | crates/controld/src/main.rs:120-143 | a plain connection is conducted, in state and answers, on exactly the messages the client's bytes carry; and the daemon state is untouched unless the token occurs in them |
| RequestWire.MethodArrives | crates/proto/src/rpc.rs:28-65 | each of the seven methods, written as the wire value of its fields, is read back with every field |
| RequestWire.MessagesArrive | crates/controld/src/main.rs:212-234 | the frames of any greetings, pings, farewells and requests, whatever follows, are received as exactly those messages, ids and every field kept |
| RequestWire.CallsAreRun | crates/controld/src/main.rs:184-338 | from bytes to daemon state: a client that greets, presents the token and makes calls has exactly those calls run in order, with the fields it wrote, and each answered with its id and result |
| ControlProtocol.ReachableInv | crates/client/src/ctl/call.rs:38-69 | the joint invariant of client, daemon and both channels in every interleaving |
| ControlProtocol.ResponsesMatch | crates/client/src/ctl/call.rs:78-89 | whatever response the client can read is alone in the channel and carries the id just sent |
| ControlProtocol.AtMostOnce | crates/client/src/ctl/call.rs:51-68 | at most the wanted method runs, at most once, only for a trusted caller, and the caller's result is the result of that run |
| ControlProtocol.NoDeadlock | crates/client/src/ctl/call.rs:38-89 | until the client has its answer or gives up, one side can move |
| ControlProtocol.CallTerminates | crates/client/src/ctl/call.rs:38-89 | however scheduled, a call takes at most 47 steps |
| ControlProtocol.CallOutcome | crates/client/src/ctl/call.rs:51-89 | a run that can go no further ends with refusal and nothing run for a wrong token, and otherwise with the result of the one run |
| Registry.RestoreGivesLiveInstances | crates/controld/src/state.rs:77-120 | restoring a snapshot, in whatever order it was written, gives exactly the live instances of its table with their live applications |
| Registry.Terminate | crates/controld/src/state.rs:418-447 | the applications are asked to exit in launch order, then the server; after that exactly the tracked processes still running are killed, in the same order; none survives and nothing else is signalled |
| Registry.DaemonState.constructor | crates/controld/src/state.rs:55-68 | a fresh daemon holds and saves the live part of what the last one saved |
| Registry.DaemonState.ReapDeadInstances | crates/controld/src/state.rs:599-615 | drops exactly the instances whose server has exited and reports whether there were any |
| Registry.LiveAppsInOrder | crates/controld/src/state.rs:593-597 | the applications kept are the live ones, in order and as often: each stands where as many stand before it as were live before it |
| Registry.DaemonState.PortConflictOwner | crates/controld/src/state.rs:617-626 | finds an owner if and only if another instance holds the port |
| Registry.DaemonState.StartInstance | crates/controld/src/state.rs:147-238 | a conflict refuses before anything is stopped; otherwise the old instance is stopped, with the signals of `Terminate`, even if the new server then fails; the start succeeds if and only if the log opened, the QUIC token is not empty and has its certificate, and the server was spawned and did not exit at once, and names the first that failed; the name then has the new instance, or none, every other instance is as it was, and only success is saved |
| Registry.DaemonState.StopInstance | crates/controld/src/state.rs:240-250 | an unknown name changes nothing; a known one is removed, its processes are signalled as in `Terminate` and gone, and the table is saved |
| Registry.DaemonState.LaunchApp | crates/controld/src/state.rs:252-361 | each failure in its order changes nothing; a successful launch is recorded with the instance if it is still there |
| Registry.DaemonState.Summaries | crates/controld/src/state.rs:122-145 | the report lists exactly the live instances with their live applications, and the file is rewritten exactly when something was dropped |
| Registry.DaemonState.Flush | crates/controld/src/state.rs:394-415 | the file lists every instance of the table exactly once, or stays as it was when it cannot be written |
| SnapshotFile.OverwriteRoundTrip | crates/controld/src/snapshot.rs:29-40 | a file that begins with the bytes of a snapshot loads as it, whatever follows, so a snapshot written over a longer one reads back as itself |
| SnapshotFile.SnapshotRoundTrip | crates/controld/src/snapshot.rs:29-40 | loading the bytes of a snapshot gives it back, and an empty table is not taken for a missing file |
| WireLayout.SnapshotLayout | crates/controld/src/snapshot.rs:16-27 | the state file byte by byte: the number of entries, then of each the name, port, server and applications |
| SnapshotFile.SavedTableIsRestored | crates/controld/src/state.rs:394-415 | from table to bytes to table: exactly the live instances return |
| SnapshotFile.OpenDaemon | crates/controld/src/state.rs:55-81 | a file that does not decode starts no daemon; any other gives the live part of what it says |
| SnapshotStore.WriteSurvivesIff | crates/controld/src/state.rs:408-413 | over any moves of racing flushes: what a flush wrote is in the file it opened at a later moment if and only if no other flush has opened or written that file since |
| SnapshotStore.FlushIsOnDiskIff | crates/controld/src/state.rs:408-413 | `state.bin` holds what a flush wrote if and only if it is that file and the file is untouched since |
| SnapshotStore.SerialFlushesPublish | crates/controld/src/state.rs:408-413 | when flushes do not overlap, every rename succeeds and publishes its own snapshot, and nothing else changes what is on disk |
| RegistryRuns.StartAlone | crates/controld/src/state.rs:147-238 | an uninterrupted start, refused, failed or successful, does to the table what `StartInstance` promises |
| RegistryRuns.StopAlone | crates/controld/src/state.rs:240-250 | an uninterrupted stop does what `StopInstance` promises |
| RegistryRuns.FlushAlone | crates/controld/src/state.rs:394-415 | an uninterrupted flush, over whatever temporary file is lying about, does what `Flush` promises |
| RegistryRuns.ReachableInv | crates/controld/src/state.rs:147-250 | the invariant of table, lock, stopping threads and snapshots over every run |
| RegistryRuns.PortsNeverShared | crates/controld/src/state.rs:147-250 | no two instances ever share a port or a process, in the table or on disk |
| RegistryRuns.DiskWasTable | crates/controld/src/state.rs:394-415 | with flushes racing for the one temporary file, whatever a daemon that starts now would find is a table the daemon once held |
| RegistryRuns.RestartRestores | crates/controld/src/state.rs:77-120 | a restart restores exactly the live instances of a table the daemon once held, or starts empty when the file is missing or was left empty |
| RegistryRuns.StopsAreIsolated | crates/controld/src/state.rs:418-447 | stopping or replacing one instance never takes a process away from another |
| ServerRuns.ServersConserved | crates/controld/src/state.rs:122-250 | in every run whose crashes find every running server on disk, each running server is in the table, in the hands of a start or a stop, or on disk while the daemon is down |
| ServerRuns.CrashKeepsExactly | crates/controld/src/state.rs:77-120 | over a crash and the restart after it, overlapping flushes included, a server still running is in the restored table if and only if the snapshot `state.bin` held at the crash is of a table that had it |
| ServerRuns.CrashLosesNothingIff | crates/controld/src/state.rs:77-120 | the restarted daemon answers for every running server if and only if that table had all of them |
| ServerRuns.FlushSavesIff | crates/controld/src/state.rs:394-415 | a crash falls back to what a given flush wrote if and only if `state.bin` is by then the file it wrote into and no other flush has opened or written that file since; then exactly the table it captured is restored |
| ServerRuns.SerialCrashFallsBack | crates/controld/src/state.rs:394-415 | when flushes do not overlap, a crash falls back to the table captured by the last flush renamed |
| ServerRuns.SettledCrashIsSafe | crates/controld/src/state.rs:394-415 | every running server is on disk when nothing is under way and the file is a snapshot of the present table |
| ServerRuns.LostForever | crates/controld/src/state.rs:77-120 | a server not on disk at a crash is never mentioned again by any table, stop, start or published file, even if a temporary file left behind lists it |
| FlushRaces.StaleFlushLosesServer | crates/controld/src/state.rs:394-415 | a run in which flushes do not overlap, all succeed, nothing exits, and the crash loses a server |
| FlushRaces.OverlapLosesServer | crates/controld/src/state.rs:408-413 | a run in which the one rename that succeeds is that of the newer snapshot, and the crash loses a server all the same |
| FlushRaces.EmptiedFileLosesAll | crates/controld/src/state.rs:408-413 | a run in which the crash finds the file emptied by the other flush, and every server is lost |
| PortFile.PrintParse | crates/vbox-cli/src/runtime.rs:1323-1377 | a printed list reads back as itself if and only if every name is non-empty, free of white space and no comment |
| PortFile.ReadInstancePorts | crates/vbox-cli/src/runtime.rs:1323-1361 | the parsing loop, with its skips and its three errors by line, for any text |
| PortFile.WriteInstancePorts | crates/vbox-cli/src/runtime.rs:1362-1377 | the printing loop builds the text whose parse is known |
| PortFile.DecimalSample | crates/vbox-cli/src/runtime.rs:1366-1372 | digits are written most significant first |
| PortFile.ReadsWhatFits | crates/vbox-cli/src/runtime.rs:1353-1357 | a decimal number, with or without a plus sign, is read back if and only if it fits 16 bits |
| PortFile.SanitizedIsCleanIff | crates/vbox-cli/src/runtime.rs:1379-1386 | a sanitized identifier is a usable name if and only if the identifier has an ASCII letter or digit; otherwise it is empty |
| PortFile.SanitizedIs | crates/vbox-cli/src/runtime.rs:1379-1386 | the result is the stretch from the first to the last ASCII letter or digit, with a dash for every other character in it |
| PortAllocator.Allocator.InstancePort | crates/vbox-cli/src/runtime.rs:1276-1310 | default gives the base port; a bad file is an error; a known name its port; otherwise the least free eligible port, recorded, or an error when the range is full |
| PortAllocator.OutcomeInNumbers | crates/vbox-cli/src/runtime.rs:1276-1321 | a new name gets the lowest of the 2048 ports from max(base + 2, 1024), up to 65535, that is neither the control port nor in an entry, written behind the others; if there is none the file is left alone |
| PortAllocator.AllocatesDeterministic | crates/vbox-cli/src/runtime.rs:1276-1310 | the file and the name determine the answer and the new file: the least free port is unique |
| PortAllocator.FullNeedsEntries | crates/vbox-cli/src/runtime.rs:1288-1309 | for any file at all, the range is full only with an entry for every port but the control port |
| PortAllocator.RoomFor2046 | crates/vbox-cli/src/runtime.rs:1288-1309 | with all 2048 ports in range, 2046 entries or fewer always leave room |
| PortAllocator.RunIsOrderly | crates/vbox-cli/src/runtime.rs:1276-1377 | in every run from no file, the file parses and its i-th entry holds the i-th port of the range, control port left out |
| PortAllocator.RunPortsDiffer | crates/vbox-cli/src/runtime.rs:1276-1321 | over every run ports are distinct, in range, and neither base nor control |
| PortAllocator.NameKeepsPort | crates/vbox-cli/src/runtime.rs:1281-1285 | once given, a name's port never changes |
| PortAllocator.FailsIffFull | crates/vbox-cli/src/runtime.rs:1276-1310 | a call fails if and only if its name is new and as many names are known as the range has ports |
| PortAllocator.NewNameKeepsFileIff | crates/vbox-cli/src/runtime.rs:1303-1305 | after a new name is recorded the file reads back as the same list with one entry more if and only if the name is clean |
| PortAllocator.BrokenFileStaysBroken | crates/vbox-cli/src/runtime.rs:1281-1282 | over any sequence of calls, a file that does not parse is never changed again and every name but default gets that error |
| PortAllocator.EmptyNameBreaksFile | crates/vbox-cli/src/runtime.rs:1276-1386 | over any sequence of calls on any file: once the empty name has been given a port the file never parses again and every later call but the default one fails |
| PortRaces.UninterruptedCall | crates/vbox-cli/src/runtime.rs:1276-1310 | reading and writing with nothing in between is one call as the allocator promises it |
| PortRaces.SamePortIff | crates/vbox-cli/src/runtime.rs:1276-1377 | in every interleaving of command lines, two names are given one port if and only if the files read for them listed equally many names |
| PortRaces.LastWriterWins | crates/vbox-cli/src/runtime.rs:1303-1377 | however they race, the file always parses and lists no port twice; it lists what the last writer read, and its own name |
| PortRaces.TwoNamesOnePort | crates/vbox-cli/src/runtime.rs:1276-1377 | the shortest race: two names asked for at once on a fresh machine get the first port, and only the later one is remembered |
| Shell.LexQuoted | crates/vbox-cli/src/ssh.rs:167-170 | anywhere in a word, a quoted string is read back by the shell as exactly its characters |
| Shell.QuoteIsOneWord | crates/vbox-cli/src/runtime.rs:1428-1431 | a quoted string is one word, even when empty |
| SshOptions.BuiltOptionsWellNamed | crates/vbox-cli/src/ssh.rs:84-112 | the options always have names the shell takes literally |
| SshOptions.BuiltCommand | crates/vbox-cli/src/ssh.rs:84-112 | the process gets the key file and only it when there is one; with an account and a helper, the askpass variables, a display if none is set, and password authentication asked once; otherwise no variable and no further argument |
| SshOptions.ApplyToCommand | crates/vbox-cli/src/ssh.rs:30-37 | sets every variable, later ones winning, and appends every flag and value in order |
| SshOptions.ToShellString | crates/vbox-cli/src/ssh.rs:39-60 | builds the command line whose meaning is given next |
| SshOptions.ShellMeaning | crates/vbox-cli/src/ssh.rs:39-60 | a POSIX shell splits that line into exactly the assignments, the program and the arguments, in order, for all values |
| SshOptions.BackEndsAgree | crates/vbox-cli/src/ssh.rs:29-60 | the two back ends give the same command if and only if every value is Unicode |
| SshOptions.ScriptArrives | crates/vbox-cli/src/runtime.rs:910-915 | the guest's login shell hands bash one script, whatever characters are in it, and it is the one sent if and only if that is Unicode |
| SshOptions.NestedQuoting | crates/vbox-cli/src/runtime.rs:880-915 | a directory quoted inside a script that is quoted again arrives as one word, and is the one meant if and only if it is Unicode |
| OutboundTee.TcpGetsOneStretch | crates/client/src/net.rs:376-391 | in every interleaving QUIC is given every message and TCP one unbroken stretch in order, starting with the first message checked after the gate opened |
| OutboundTee.StretchStartIsFixed | crates/client/src/net.rs:388-418 | the start of that stretch never moves again |
| OutboundTee.TcpGetsTheWholeSuffix | crates/client/src/net.rs:376-433 | once the copying thread has caught up, TCP has received the whole stream from the message unchecked when the gate opened |

## Left out

- FrameBuffers.FrameBuffer.ApplyTile: requires that the grown frame has fewer than 2^32 pixels and that no coordinate saturates, because the source's u32 index arithmetic wraps or panics beyond that; the same bound stands on the frame's other operations.
- ViewGeometry.ClickHitsDrawnPixel: f64 positions are exact reals, so rounding of the division is not modelled; `clamp_f64_to_i32` clamps and then truncates, which is floor here.
- ViewGeometry.DriftWhenShrunk: f32 scales are exact reals; the loss of f32 precision above 2^24 pixels is not modelled.
- AssemblerRuns.ReassemblyCompleteness: assumes no wipe while the tile is pending, which `FewKeysNeverWipe` gives for up to 32 keys; `HandedOnIffWindows` is the law without that assumption.
- ControlSession.HandleSession: what each method does to the daemon state is a parameter, and the wording of the errors is not modelled; the bytes a client sends are in `ControlWire`, those the daemon answers with are not.
- ControlProtocol.AtMostOnce: a call that gives up may leave its method run or not, as in the program.
- Registry.DaemonState.StartInstance: one thread at a time; `RegistryRuns` adds the interleavings. The order of a hash map is an arbitrary order here, and failing signals are not modelled.
- ServerRuns.ServersConserved: process ids are not reused, a killed process is gone, and each write of a snapshot is one system call, as it is for a file of this size.
- PortAllocator.RunIsOrderly: calls come one after the other; `PortRaces` has them race, with the file read in one step and replaced in another. Failing writes are not modelled, nor the temporary file that racing writers share.
- SshOptions.BackEndsAgree: variables already in the environment, and values with a NUL character (which a process cannot be given), are not modelled.
- Shell.LexQuoted: expansions, redirections, comments, double quotes, aliases and reserved words have no meaning here; the program writes none of them unquoted in these strings.
- The flow label and scope of an IPv6 socket address, which the wire form drops.
- 32-bit hosts: `usize` is 64 bits wide.
- Sockets, TLS, QUIC, certificates, threads and timeouts themselves: only the streams, queues and steps they provide.
- Window events, shortcuts, fullscreen, icons, launchers, the Swift interface, installation scripts.
- The clipboard echo loop and the volume channel.
- The other sanitizers and the environment planning, which are one-pass functions without a law across calls.
- Liveness of processes (`/proc`, signals to other users' processes) and inotify: whether a process lives is an oracle.
