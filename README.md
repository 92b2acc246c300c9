# SyncWave wire protocol, jitter buffer and target list, in Dafny

SyncWave streams the audio a machine is playing to other machines over UDP.
A Rust core (`src/lib.rs`) captures the audio and sends datagrams. Python
receivers decode and play them. A desktop application (`syncwave_app.py`)
manages the targets a server streams to. This project models the parts of
that system that can be stated exactly, and proves their properties:

- **The wire format.**
  - A header is 12 bytes: `SYNC`, version 1, the sample rate (u32 LE), the
    channel count (u16 LE) and a compression flag.
  - An audio packet is a type byte, a u64 LE timestamp, a u16 LE length
    and the samples.
  - The model holds both encoders (`Sender`), the enhanced receiver's two
    parsers (`EnhancedReceiver`), and the silent receiver's older 10-byte
    header parser (`SilentReceiver`).
  - Round trips and the disagreements between them are in `Interop`.
  - Little-endian encoding is in `Wire`.
- **The jitter buffer** (`Jitter`).
  - It is a deque bounded to `maxlen` entries. `get` hands out the oldest
    entry once at least three are held.
  - `receiver_enhanced.py` and `syncwave_app.py` each define this class
    with the same behaviour; one names its capacity and threshold with
    constants, the other writes 10 and 3 inline. It is modelled once.
- **The sender's header schedule** (`Sender.AudioServer`).
  - Five headers are sent at startup.
  - After that, a header is re-sent on every callback whose packet
    counter, read before the increment, is a multiple of 1000.
- **The receive loops.**
  - The enhanced loop skips 12-byte headers, drops datagrams too short to
    parse, counts bytes and latency, and plays payloads through the jitter
    buffer.
  - The silent loop skips only 10-byte headers and counts everything else.
- **The application's target list and server dispatch** (`App`).
  - `add_target_device` validates its input and rejects duplicates.
  - `remove_target_device` removes an entry.
  - `start_server` chooses which servers to start for the single,
    broadcast and multi modes.
  - Python's `str.strip` and `int()`, which this code relies on, are in
    `Decimal`.

## The jitter buffer's order

`JitterBuffer.get` (receiver_enhanced.py:45-49) hands out entries in the
order they arrived, once at least 3 are held. Nothing orders them by
timestamp, and there is no state machine: the occupancy is tested against
3 on every call. `Jitter.ArrivalOrderNotTimestampOrder` shows a
late-stamped packet coming out first.

## Parameters

Calls the model cannot see become parameters:

- The clock becomes `Datagram.clock` and `Frame.timestamp`.
- The audio device's configuration becomes the `AudioServer` constructor's
  `deviceRate` and `deviceChannels`.
- Whether the Rust core imported becomes `SyncWaveApp.rustCoreAvailable`.
- Datagrams read from a socket become a sequence passed to the loop. Where
  the source reads with `recvfrom(8192)`, each datagram is cut to its
  first 8192 bytes, as Linux does (`Wire.Received`).
- Datagrams written to a socket become the `sent` field.
- Servers started on threads become the `launches` field.

## Model

| member | source | states |
|---|---|---|
| Wire.HasMagic | receiver_enhanced.py:60-62 | `data[:4] == HEADER_MAGIC` holds exactly when there are at least 4 bytes and they are `S`, `Y`, `N`, `C` |
| Wire.LeBytes | src/lib.rs:21-22 | `to_le_bytes` of an n-byte field gives exactly n bytes |
| Wire.LeValue | receiver_enhanced.py:65-66 | `struct.unpack` of n little-endian bytes gives a value below 256^n, the field's range (also receiver_silent.py:22-23) |
| Wire.Received | receiver_silent.py:69 | `recvfrom(bufsize)` returns the datagram, or its first bufsize bytes when it is longer |
| Wire.Pow256Widths | src/lib.rs:21-22 | the 2-, 4- and 8-byte fields hold exactly the u16, u32 and u64 ranges |
| Wire.LeValueOfLeBytes | receiver_enhanced.py:65-66 | `struct.unpack('<…')` of `to_le_bytes` gives the value back for every value that fits |
| Wire.LeBytesOfLeValue | receiver_enhanced.py:83-84 | re-encoding the value unpacked from n bytes gives the same n bytes |
| Wire.LeValueOfLeBytesMod | src/lib.rs:37 | encoding to n bytes keeps the value modulo 256^n: a cast truncates |
| Wire.LeValueAppend | receiver_silent.py:22-23 | the value of two byte strings laid end to end weighs the second by 256^(length of the first) |
| Wire.LeBytesPrefix | receiver_silent.py:22 | the first m bytes of an n-byte encoding are the m-byte encoding |
| Decimal.TrimStart | syncwave_app.py:562-563 | drops only leading white space and never leaves a leading white-space character |
| Decimal.TrimEnd | syncwave_app.py:562-563 | drops only trailing white space and never leaves a trailing white-space character |
| Decimal.StripKeepsMiddle | syncwave_app.py:562-563 | `strip()` keeps a contiguous middle and removes only white space |
| Decimal.SpaceIsNoNumeral | syncwave_app.py:562-570 | no character `strip()` removes is a digit, a sign or an underscore, so stripping never removes part of what `int()` reads |
| Decimal.Strip | syncwave_app.py:562-563 | what `strip()` keeps neither starts nor ends with white space |
| Decimal.StripBounds | syncwave_app.py:562-563 | `strip()` keeps s[i..j], and everything before i and after j is white space |
| Decimal.StripTwice | syncwave_app.py:562-570 | stripping the already-stripped text changes nothing |
| Decimal.ParseIntOfStripped | syncwave_app.py:562-570 | `int()` of the stripped port text is `int()` of the text as typed |
| Decimal.ParsedHasNoSpace | syncwave_app.py:562-570 | text `int()` accepts holds no white space once stripped, so `strip()` removed nothing `int()` reads |
| Decimal.ParseInt | syncwave_app.py:570 | `int()` of blank text fails |
| Decimal.ShowNat | src/lib.rs:54 | the decimal rendering of a number is non-empty, all digits, with no leading zero |
| Decimal.ParseShowNat | syncwave_app.py:570 | `int()` reads back the number its decimal rendering shows |
| Sender.EncodeHeader | src/lib.rs:17-23 | a header is 12 bytes: the magic, version 1, then the flag byte 1 or 0 last |
| Sender.BuildPacket | src/lib.rs:33-40 | a packet is 11 + len bytes, starts with the type, and ends with the data verbatim |
| Sender.Repeat | src/lib.rs:67-70 | the burst is n copies of the header |
| Sender.AudioServer.constructor | src/lib.rs:43-70 | compression is forced off, broadcast defaults to false, the address is `ip:port`, and the header is sent exactly five times |
| Sender.AudioServer.OnInput | src/lib.rs:81-89 | a callback sends the header first when the counter it read is a multiple of 1000, then its packet; the counter advances |
| Sender.NextCountAt | src/lib.rs:82 | `fetch_add(1)` takes the counter after k callbacks to the counter after k + 1, wrapping at 2^64 |
| Sender.NextCount | src/lib.rs:82 | `fetch_add(1)` leaves the counter one higher modulo 2^64 |
| Sender.CountAt | src/lib.rs:76-82 | before it wraps, the counter the k-th callback reads equals the number of earlier callbacks |
| Sender.CallbackDatagrams | src/lib.rs:83-88 | a callback sends one or two datagrams, two exactly when its counter is a multiple of 1000; the first is then the header, and the last is always its raw packet |
| Sender.StreamDatagrams | src/lib.rs:81-89 | n callbacks send at least n and at most 2n datagrams |
| Sender.ServerDatagrams | src/lib.rs:67-89 | a server's first five datagrams are the header, followed by at least one datagram per callback |
| Sender.ScheduledHeadersCount | src/lib.rs:82-85 | the first n callbacks re-send the header ceil(n/1000) times |
| Sender.StreamLength | src/lib.rs:81-89 | the stream holds one packet per callback plus one header per scheduled re-send |
| Sender.FirstCallbackResendsHeader | src/lib.rs:82-88 | the very first callback sends the header, then its packet |
| Sender.StreamShape | src/lib.rs:81-89 | every datagram of the stream is the header or the packet of one of the frames |
| Sender.ServerSendsUncompressed | src/lib.rs:44-88 | every datagram a server sends is at least 11 bytes; its headers carry compression byte 0 and its other datagrams are raw packets |
| Sender.HeadersSent | src/lib.rs:67-85 | over n callbacks before the wrap, the header is sent 5 + ceil(n/1000) times |
| Sender.BurstOccurrences | src/lib.rs:67-70 | the startup burst holds the header exactly five times |
| Sender.StreamHeaderOccurrences | src/lib.rs:82-85 | the stream holds the header once per scheduled re-send |
| Sender.CallbackOccurrences | src/lib.rs:83-88 | one callback sends the header once if its counter is a multiple of 1000, otherwise not at all |
| Jitter.Appended | receiver_enhanced.py:38-43 | `append` on a `deque(maxlen)` keeps at most maxlen entries, appends at the back, and evicts the oldest entry when full |
| Jitter.JitterBuffer.constructor | receiver_enhanced.py:37-39 | a new buffer is empty with capacity `size` (also syncwave_app.py:64-66) |
| Jitter.JitterBuffer.Add | receiver_enhanced.py:41-43 | `add` appends with eviction and keeps the buffer holding the newest entries within capacity; the call is one `Jitter.Apply` step, the step `Jitter.ReplayHoldsNewest` and `Jitter.ReplayFifo` reason about (also syncwave_app.py:68-70) |
| Jitter.JitterBuffer.Get | receiver_enhanced.py:45-49 | below 3 entries `get` returns None and changes nothing; otherwise it removes and returns the oldest entry; the call is one `Jitter.Apply` step, with the returned entry appended to what was handed out (also syncwave_app.py:72-76) |
| Jitter.JitterBuffer.Size | receiver_enhanced.py:51-53 | `size` returns the occupancy and changes nothing (also syncwave_app.py:78-80) |
| Jitter.NewestAfterAppend | receiver_enhanced.py:41-43 | appending to a deque that holds the newest entries keeps it holding the newest entries |
| Jitter.ReplayHoldsNewest | receiver_enhanced.py:37-49 | after any calls, occupancy is within capacity and the buffer holds the most recently added entries in arrival order |
| Jitter.ApplyHoldsNewest | receiver_enhanced.py:41-49 | one `add` or `get` keeps the buffer within capacity and holding the most recently added entries |
| Jitter.ReplayFifo | receiver_enhanced.py:41-49 | if no `add` ever meets a full buffer, however many calls were made, what `get` handed out followed by what is held is exactly what was added, in order |
| Jitter.FewAddsNeverEvict | receiver_enhanced.py:38-43 | with at most maxlen adds in all, no `add` meets a full buffer |
| Jitter.AddGetsNeverEvict | receiver_enhanced.py:198-203 | the receive loop's pattern of one `add` then one `get` per packet, for any number of packets, leaves fewer than three entries after each pair, so no `add` meets a full buffer of capacity 3 or more |
| Jitter.AddsOfAddGets | receiver_enhanced.py:198-201 | the add-then-get calls add exactly the payloads, in order |
| Jitter.AddGetsFifo | receiver_enhanced.py:198-203 | for any number of packets, the add-then-get calls on a 10-entry buffer hand out every payload oldest first, except the ones still held |
| Jitter.UnderrunThenFirst | receiver_enhanced.py:45-49 | two adds give no output; after the third add, `get` returns the first entry |
| Jitter.ArrivalOrderNotTimestampOrder | receiver_enhanced.py:41-49 | entries leave in arrival order, so the latest-stamped packet can come out first |
| Jitter.OverflowEvictsOldest | receiver_enhanced.py:38-43 | a full buffer drops its oldest entry on `add` |
| EnhancedReceiver.CompressionName | receiver_enhanced.py:74 | the name is 'Opus' exactly when the compression byte is 1, and 'Raw' otherwise |
| EnhancedReceiver.ParseHeader | receiver_enhanced.py:55-75 | None exactly below 12 bytes or without the magic; otherwise the version is byte 4, the rate and channels are bytes 5..9 and 9..11 LE, and the compression is byte 11 |
| EnhancedReceiver.ParseHeaderIgnoresTail | receiver_enhanced.py:64-67 | bytes past the 12th do not change the parse |
| EnhancedReceiver.ParseAudioPacket | receiver_enhanced.py:77-92 | None exactly below 11 bytes; otherwise type, timestamp and size are as laid out, and the payload is the next min(size, len-11) bytes, with no check against the size |
| EnhancedReceiver.Classify | receiver_enhanced.py:168-175 | exactly 12 bytes with the magic is skipped, under 11 bytes is dropped, and anything else is audio with the parsed packet |
| EnhancedReceiver.Latency | receiver_enhanced.py:181-182 | latency plus the timestamp is the receive time, and latency is negative exactly when the receive time is earlier |
| EnhancedReceiver.ParseHeaderOfReceived | receiver_enhanced.py:111-112 | cutting a datagram to the 8192-byte buffer does not change how it parses as a header |
| EnhancedReceiver.WaitForHeader | receiver_enhanced.py:107-125 | returns the first datagram that parses as a header, with the count of those before it, or None when none does |
| EnhancedReceiver.Step | receiver_enhanced.py:168-203 | a skipped or dropped datagram changes nothing; output is only appended to; packet_count and latency_count grow together; a buffer of at most two entries stays so |
| EnhancedReceiver.Accept | receiver_enhanced.py:177-203 | an accepted packet adds one to packet_count and to latency_count, and appends at most one payload to the output |
| EnhancedReceiver.Feed | receiver_enhanced.py:198-203 | the 10-entry buffer never fills; from at most two held it holds min(n + 1, 2) after the add and `get`; at most one payload is written, after those already written |
| EnhancedReceiver.RunBounds | receiver_enhanced.py:164-203 | after any datagrams packet_count equals latency_count, at most two payloads are held, and no more payloads are written than packets counted |
| EnhancedReceiver.StepStats | receiver_enhanced.py:177-184 | an accepted datagram adds one packet, its length and its latency to the counters; any other leaves them unchanged |
| EnhancedReceiver.RunSkipsLeadingHeader | receiver_enhanced.py:168-170 | a header in front of the datagrams changes nothing the receive loop computes |
| EnhancedReceiver.StepIgnores | receiver_enhanced.py:168-175 | a skipped or dropped datagram leaves the loop's state unchanged |
| EnhancedReceiver.StepAccepts | receiver_enhanced.py:173-198 | a parsed non-header datagram is accepted |
| EnhancedReceiver.Receive | receiver_enhanced.py:166-203 | one iteration of the loop body performs one step of the loop's specification |
| EnhancedReceiver.Admit | receiver_enhanced.py:177-203 | the loop body after a packet parses performs the specification's step for an accepted packet |
| EnhancedReceiver.Play | receiver_enhanced.py:197-203 | add, get, and write only a non-empty entry |
| EnhancedReceiver.ReceiveLoop | receiver_enhanced.py:151-203 | the loop with a 10-entry jitter buffer ends in the counters and output its specification gives |
| EnhancedReceiver.AcceptedAreAudio | receiver_enhanced.py:168-177 | every datagram the loop accepts is audio of at least 11 bytes |
| EnhancedReceiver.RunCounts | receiver_enhanced.py:177-184 | packet_count and latency_count are the number of accepted datagrams, bytes_received their total length, total_latency_us the sum of their latencies; skipped and dropped datagrams count for nothing |
| EnhancedReceiver.HeldBack | receiver_enhanced.py:200-203 | the loop holds back at most two payloads |
| EnhancedReceiver.AcceptPlaysInOrder | receiver_enhanced.py:197-203 | one accepted packet keeps "last two held, all earlier non-empty ones written in order" true |
| EnhancedReceiver.RunPlaysInOrder | receiver_enhanced.py:197-203 | the jitter buffer holds the last two accepted payloads, nothing is evicted, and every earlier non-empty payload has been written in arrival order |
| EnhancedReceiver.AcceptedCount | receiver_enhanced.py:177-198 | one payload goes to the jitter buffer per counted packet |
| EnhancedReceiver.AudioPayloadsIgnoreClock | receiver_enhanced.py:181-198 | what is played does not depend on the clock readings |
| SilentReceiver.ParseHeader | receiver_silent.py:13-28 | None exactly below 10 bytes or without the magic; otherwise the rate is bytes 4..8 LE and the channels bytes 8..10 LE, with no version byte |
| SilentReceiver.ParseHeaderIgnoresTail | receiver_silent.py:22-23 | bytes past the 10th do not change the parse |
| SilentReceiver.ParseHeaderOfReceived | receiver_silent.py:43-44 | cutting a datagram to the 8192-byte buffer does not change how it parses as a header |
| SilentReceiver.WaitForHeader | receiver_silent.py:39-59 | returns the first datagram that parses as a header, with the count of those before it, or None |
| SilentReceiver.IsSkipped | receiver_silent.py:72-73 | every datagram the monitor loop skips also parses as a header |
| SilentReceiver.Counted | receiver_silent.py:72-76 | the counted datagrams are no more than those received |
| SilentReceiver.ReceivedKeepsSkip | receiver_silent.py:69-72 | cutting a datagram to the 8192-byte buffer does not change whether the loop skips it |
| SilentReceiver.ReceivedSizeAtMost | receiver_silent.py:69-76 | the lengths `recvfrom(8192)` returns add up to no more than what was sent, and to exactly that when no datagram exceeds 8192 bytes |
| SilentReceiver.MonitorLoop | receiver_silent.py:62-76 | packet_count is the number of datagrams that are not 10-byte headers, and bytes_received their total length as cut to the 8192-byte buffer |
| SilentReceiver.CountedMembers | receiver_silent.py:72-76 | a datagram is counted exactly when it arrived and is not a 10-byte header with the magic |
| SilentReceiver.NothingSkipped | receiver_silent.py:72-76 | with no 10-byte datagram, every datagram is counted |
| Interop.HeaderFields | src/lib.rs:18-23 | bytes 5..9 and 9..11 of a header are the rate and channels LE |
| Interop.HeaderRoundTrip | src/lib.rs:18-23 | the enhanced parser reads back version 1 and the rate, channels and compression flag the sender wrote |
| Interop.PacketFields | src/lib.rs:34-38 | bytes 1..9 and 9..11 of a packet are the timestamp and the truncated length LE |
| Interop.PacketParse | receiver_enhanced.py:79-85 | any sender packet parses to its type, its timestamp, its length mod 65536, and that many bytes of the data |
| Interop.PacketRoundTrip | src/lib.rs:33-40 | for up to 65535 bytes, parsing a built packet gives back the type, timestamp, length and data |
| Interop.OversizePacketTruncated | src/lib.rs:37 | beyond 65535 bytes the size field is wrong and the payload comes back cut short |
| Interop.SenderDatagramsClassified | receiver_enhanced.py:168-175 | the enhanced loop skips every sender header and takes every raw packet of at most 65535 data bytes as audio |
| Interop.PacketIsNoHeader | receiver_enhanced.py:57-62 | neither header parser accepts a raw packet |
| Interop.SilentMisreadsHeader | receiver_silent.py:22-23 | on a sender header, the silent parser reads rate 1 + 256·(rate mod 2^24) and channels rate/2^24 + 256·(channels mod 256) |
| Interop.SilentMisreadsRate | receiver_silent.py:22 | the silent parser misreads every rate not congruent to 1 mod 256 |
| Interop.SilentMisreadsCommonRates | receiver_silent.py:22-23 | 48000 Hz stereo reads as 12288001 Hz with 512 channels, 44100 Hz stereo as 11289601 Hz with 512 channels |
| Interop.ShortHeaderOnlySilent | receiver_enhanced.py:57-58 | a 10-byte header the silent receiver accepts and skips is rejected by the enhanced parser and dropped by its loop |
| Interop.SilentCountsSenderHeader | receiver_silent.py:72-76 | the silent loop counts the sender's 12-byte headers as packets |
| Interop.SilentCountsAllServerDatagrams | receiver_silent.py:72-76 | the silent loop skips nothing a server sends |
| Interop.BurstCarriesNoAudio | src/lib.rs:67-70 | the startup burst gives the enhanced loop no audio |
| Interop.CallbackCarriesSamples | src/lib.rs:83-88 | for a frame of at most 65535 bytes, the enhanced loop takes exactly that callback's samples from its datagrams |
| Interop.StreamCarriesSamples | src/lib.rs:81-89 | for frames of at most 65535 bytes each, the enhanced loop takes the callbacks' samples, in order, from the stream |
| Interop.ServerAudioReceived | receiver_enhanced.py:165-198 | for frames of at most 65535 bytes each, the enhanced loop takes exactly the frames' samples in callback order from everything a server sends, whatever the clock readings |
| Interop.ServerArrivalsCarrySamples | receiver_enhanced.py:168-198 | for frames of at most 65535 bytes each, the enhanced loop takes exactly the frames' samples in callback order from everything a server sends, read at one clock value |
| Interop.ServerStreamPlayed | receiver_enhanced.py:165-203 | for frames of at most 65535 bytes each, the receive loop over everything a server sends counts one packet per callback, writes every non-empty frame but the last two in order, and holds the last two |
| Interop.ServerStreamAfterWait | receiver_enhanced.py:107-125 | when the first datagram is a server's first, it parses as the sender's header, so the wait loop stops there, and the receive loop over the datagrams after it ends as it does over all of them |
| Interop.SenderHeaderIsRaw | receiver_enhanced.py:74 | the sender's headers always read as 'Raw' |
| App.CheckNewTarget | syncwave_app.py:560-580 | blank ip or port text is missing input; a port `int()` rejects or outside 1..65535 is invalid; an entry already listed is a duplicate; otherwise the stripped ip and parsed port, not yet listed |
| App.IndexOf | syncwave_app.py:616 | the first position holding the entry |
| App.RemoveFirst | syncwave_app.py:616 | `list.remove` shortens the list by one and removes exactly one copy of the entry |
| App.RemoveFirstAt | syncwave_app.py:616 | entries before the removed one keep their place; later ones move up by one |
| App.AddKeepsValid | syncwave_app.py:578-583 | a successful add keeps the list free of duplicates, with valid ports and stripped non-empty ips |
| App.AddTwiceIsDuplicate | syncwave_app.py:578-580 | repeating a successful add is rejected as a duplicate |
| App.RemoveKeepsValid | syncwave_app.py:613-616 | removing keeps the list valid and leaves the entry absent |
| App.RemoveUndoesAdd | syncwave_app.py:583-616 | removing what was just appended restores the list |
| App.LaunchPlan | syncwave_app.py:655-701 | single is one non-broadcast server to the ip field; broadcast is one to 255.255.255.255 with broadcast on; multi is one non-broadcast server per target in list order; nothing with an unreadable port or an empty list |
| App.MultiLaunches | syncwave_app.py:692-701 | one launch per target, in list order, with broadcast off |
| App.MultiPlanAfterAdd | syncwave_app.py:682-701 | a newly added target is streamed to last in multi mode |
| App.SinglePlanOfTypedPort | syncwave_app.py:655-658 | port text that `int()` reads as a number starts exactly one server to that ip and port, without broadcast; with `Decimal.ParseShowNat`, so does a port typed as its decimal digits |
| App.SyncWaveApp.constructor | syncwave_app.py:93-98 | the app starts with no server running and none started, and with no targets (the list is created at syncwave_app.py:257, in `create_ui`) |
| App.SyncWaveApp.AddTargetDevice | syncwave_app.py:560-611 | appends the checked entry on success; any rejection leaves the list unchanged; the list stays valid |
| App.SyncWaveApp.RemoveTargetDevice | syncwave_app.py:613-619 | a listed entry is removed, an unlisted one is a no-op, and afterwards the entry is absent |
| App.SyncWaveApp.StartServer | syncwave_app.py:645-720 | without the core, or with nothing to start, nothing changes; otherwise the planned servers are started in order and the server is running |
| App.SyncWaveApp.StartEach | syncwave_app.py:690-701 | the multi-target loop starts one server per target in list order |
| App.SyncWaveApp.StopServer | syncwave_app.py:731-734 | the server is marked stopped and its threads are left running |
| App.SyncWaveApp.ToggleServer | syncwave_app.py:638-643 | starts when stopped, stops when running |

## Left out

- Sockets, the audio devices, the output stream and printing are I/O. The
  model records what would be sent, started and written. It assumes every
  send succeeds. `send_header` failing in the startup burst, which aborts
  `start_audio_server`, is not modelled.
- Threads, the jitter buffer's lock, the `AtomicU64` and the server's
  endless sleep are concurrency. Everything runs sequentially. The counter
  is a plain value that wraps at 2^64.
- `as_u8_slice` reinterprets f32 samples as bytes. Samples are opaque
  bytes here.
- Opus decoding is a foreign library. The decoder is taken to be absent,
  and the sender never asks for compression. With it absent, the receive
  loop adds every payload raw, as modelled.
- The floating-point statistics are left out: kbps, average latency,
  compression ratio, audio duration and the two-second reports.
- Configuration persistence (`load_config`/`save_config`), the widgets
  and message boxes, and the receiver tab are outside the modelled core.
  So are `build_app.py`, `check_devices.py` and the device frames that
  `remove_target_device` destroys.
- Decimal.ParseInt: accepts only ASCII digits. Python's `int()` also
  accepts other Unicode decimal digits. Python 3.11 and later also reject
  more than 4300 digits, which the model reads. That matters only for
  `start_server`'s unchecked `int()`; in `add_target_device` such a port is
  invalid either way. Its own contract states only that blank text fails;
  the round trip is `Decimal.ParseShowNat`.
- App.SyncWaveApp.StartServer: the single and broadcast modes do not
  range-check the port. A port outside 0..65535 fails inside the server
  thread, when it is converted to u16, after the app already counts as
  running. The model records the launch and leaves that failure out. The
  `server_thread`/`server_threads` handles are not modelled, and only the
  `int()` failure is modelled of the exceptions the handler catches.

- Interop.SenderDatagramsClassified: proved for at most 65535 data bytes.
  A larger packet's size field wraps (`Interop.OversizePacketTruncated`).
  UDP cannot carry such a datagram anyway, and src/lib.rs:88 ignores the
  failed send. The model does not capture that loss.
- Interop.CallbackCarriesSamples: proved for a frame of at most 65535
  bytes, for the same reason.
- Interop.StreamCarriesSamples: proved for frames of at most 65535 bytes,
  for the same reason.
- Interop.ServerAudioReceived: proved for frames of at most 65535 bytes,
  for the same reason.
- Interop.ServerArrivalsCarrySamples: proved for frames of at most 65535
  bytes, for the same reason.
- Interop.ServerStreamPlayed: proved for frames of at most 65535 bytes,
  for the same reason.
- EnhancedReceiver.ReceiveLoop: takes datagrams whole. Its
  `recvfrom(65536)` buffer is larger than any UDP datagram, so it never
  cuts one.
- On Windows, a datagram longer than an 8192-byte `recvfrom` buffer raises
  an error instead of being cut. The model follows Linux (`Wire.Received`).

## Findings

| source | as written | input that shows it | evidently intended | confidence | as-written member | corrected member |
|---|---|---|---|---|---|---|
| receiver_silent.py:22-23 | reads the rate from bytes 4..8 and the channels from bytes 8..10, a layout without the version byte | the sender's header for 48000 Hz stereo | read the 12-byte layout the sender writes, as `receiver_enhanced.py` does | high (not executed) | Interop.SilentMisreadsCommonRates | Interop.HeaderRoundTrip |
| receiver_silent.py:72-73 | skips only 10-byte headers, so the sender's 12-byte headers are counted as audio packets | any server stream: the silent wait loop takes the first startup header as its configuration (its parser accepts 12 bytes), so the other four startup headers and every header re-sent after them are counted | skip the sender's 12-byte headers, as the enhanced loop does | high (not executed) | Interop.SilentCountsSenderHeader | Interop.SenderDatagramsClassified |
