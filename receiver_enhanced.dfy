/** receiver_enhanced.py: the 12-byte header parser, the audio packet parser,
    the loop that waits for a header, and the receive loop that skips
    headers, drops unparsable datagrams, accumulates latency statistics and
    plays audio through the jitter buffer. The socket and the output stream
    are not modelled: a loop takes the datagrams it would read, each paired
    with the clock reading it would take for it, and returns what it would
    write to the stream. The Opus branch is not modelled: the decoder is
    taken to be absent, as it is for every header src/lib.rs sends. */
module EnhancedReceiver {
  import opened Wrappers
  import opened Wire
  import Jitter

  const Port: nat := 5555

  /** The fields `parse_header` returns. */
  datatype Header = Header(version: byte, sampleRate: u32, channels: u16, compression: byte)

  /** The 'compression_name' entry of `parse_header`'s result. */
  function CompressionName(h: Header): (name: string)
    ensures name == "Opus" || name == "Raw"
    ensures name == "Opus" <==> h.compression == 1
  {
    if h.compression == 1 then "Opus" else "Raw"
  }

  /** `parse_header`: None for fewer than 12 bytes or a wrong magic. */
  function ParseHeader(data: seq<byte>): (r: Option<Header>)
    ensures r.None? <==> |data| < 12 || !HasMagic(data)
    ensures r.Some? ==> r.value.version == data[4] && r.value.compression == data[11]
    ensures r.Some? ==> LeBytes(r.value.sampleRate, 4) == data[5..9] && LeBytes(r.value.channels, 2) == data[9..11]
  {
    if |data| < 12 || !HasMagic(data) then None
    else
      Pow256Widths();
      LeBytesOfLeValue(data[5..9]);
      LeBytesOfLeValue(data[9..11]);
      Some(Header(data[4], LeValue(data[5..9]), LeValue(data[9..11]), data[11]))
  }

  /** Only the first 12 bytes of a datagram matter to `parse_header`. */
  lemma ParseHeaderIgnoresTail(data: seq<byte>, extra: seq<byte>)
    requires |data| >= 12
    ensures ParseHeader(data + extra) == ParseHeader(data)
  {
    var d := data + extra;
    assert d[..4] == data[..4] && d[5..9] == data[5..9] && d[9..11] == data[9..11];
  }

  /** The fields `parse_audio_packet` returns; `size` is the length field as
      sent, `payload` what the slice `data[11:11+size]` yields. */
  datatype AudioPacket = AudioPacket(packetType: byte, timestamp: u64, size: u16, payload: seq<byte>)

  /** `parse_audio_packet`: None below 11 bytes; otherwise the payload is
      the size-field's worth of bytes after the 11-byte prefix, or what there
      is of them. A size field that disagrees with the datagram is not
      rejected. */
  function ParseAudioPacket(data: seq<byte>): (r: Option<AudioPacket>)
    ensures r.None? <==> |data| < 11
    ensures r.Some? ==> r.value.packetType == data[0]
    ensures r.Some? ==> LeBytes(r.value.timestamp, 8) == data[1..9] && LeBytes(r.value.size, 2) == data[9..11]
    ensures r.Some? ==> |r.value.payload| == Jitter.Min(r.value.size, |data| - 11)
    ensures r.Some? ==> r.value.payload == data[11..11 + |r.value.payload|]
  {
    if |data| < 11 then None
    else
      Pow256Widths();
      LeBytesOfLeValue(data[1..9]);
      LeBytesOfLeValue(data[9..11]);
      var size := LeValue(data[9..11]);
      Some(AudioPacket(data[0], LeValue(data[1..9]), size, data[11..Jitter.Min(11 + size, |data|)]))
  }

  /** How the receive loop treats a datagram. */
  datatype Kind = HeaderSkipped | Dropped | Audio(packet: AudioPacket)

  /** Exactly 12 bytes starting with the magic is a header and is skipped
      before any audio parsing; otherwise a datagram too short to parse is
      dropped, and anything else is audio. */
  function Classify(data: seq<byte>): (k: Kind)
    ensures k.HeaderSkipped? <==> |data| == 12 && HasMagic(data)
    ensures k.Dropped? <==> |data| < 11
    ensures k.Audio? <==> |data| >= 11 && !(|data| == 12 && HasMagic(data))
    ensures k.Audio? ==> ParseAudioPacket(data) == Some(k.packet)
  {
    if |data| == 12 && HasMagic(data) then HeaderSkipped
    else
      match ParseAudioPacket(data)
      case None => Dropped
      case Some(p) => Audio(p)
  }

  /** `receive_time - packet['timestamp']`, in microseconds: negative when
      the receiver's clock is behind the sender's. */
  function Latency(receiveTime: int, timestamp: u64): (l: int)
    ensures timestamp + l == receiveTime
    ensures l < 0 <==> receiveTime < timestamp
  {
    receiveTime - timestamp
  }

  /** The buffer size of the wait loop's `recvfrom`. */
  const WaitBufferSize: nat := 8192

  /** A header is no longer than the wait loop's buffer, so cutting a
      datagram to the buffer does not change how it parses. */
  lemma ParseHeaderOfReceived(d: seq<byte>)
    ensures ParseHeader(Received(d, WaitBufferSize)) == ParseHeader(d)
  {
    if |d| > WaitBufferSize {
      ParseHeaderIgnoresTail(d[..WaitBufferSize], d[WaitBufferSize..]);
      assert d[..WaitBufferSize] + d[WaitBufferSize..] == d;
    }
  }

  /** `parse_header` is tried on every datagram (as `recvfrom(8192)` returns it) until one
      parses; the ones
      before it are counted as audio packets received while waiting.
      Returns None when the datagrams run out first. */
  method WaitForHeader(datagrams: seq<seq<byte>>) returns (config: Option<Header>, audioPacketCount: nat)
    ensures audioPacketCount <= |datagrams|
    ensures forall k :: 0 <= k < audioPacketCount ==> ParseHeader(datagrams[k]) == None
    ensures config.None? ==> audioPacketCount == |datagrams|
    ensures config.Some? ==> audioPacketCount < |datagrams| && config == ParseHeader(datagrams[audioPacketCount])
  {
    config := None;
    audioPacketCount := 0;
    while config.None? && audioPacketCount < |datagrams|
      invariant audioPacketCount <= |datagrams|
      invariant forall k :: 0 <= k < audioPacketCount ==> ParseHeader(datagrams[k]) == None
      invariant config.Some? ==> audioPacketCount < |datagrams| && config == ParseHeader(datagrams[audioPacketCount])
      decreases |datagrams| - audioPacketCount, if config.None? then 1 else 0
    {
      ParseHeaderOfReceived(datagrams[audioPacketCount]);
      config := ParseHeader(Received(datagrams[audioPacketCount], WaitBufferSize));
      if config.None? {
        audioPacketCount := audioPacketCount + 1;
      }
    }
  }

  /** A datagram as the receive loop sees it: its bytes, and what
      `get_timestamp_us()` returns if the loop reads the clock for it. */
  datatype Datagram = Datagram(data: seq<byte>, clock: int)

  /** The loop's counters: packet_count, bytes_received, total_latency_us,
      latency_count. */
  datatype Stats = Stats(packetCount: nat, bytesReceived: nat, totalLatency: int, latencyCount: nat)

  /** The counters, the jitter buffer's contents, and what was written to
      the output stream. */
  datatype LoopState = LoopState(stats: Stats, buffer: seq<seq<byte>>, played: seq<seq<byte>>)

  /** One iteration of the receive loop. */
  function Step(s: LoopState, d: Datagram): (r: LoopState)
    ensures !Classify(d.data).Audio? ==> r == s
    ensures s.played <= r.played
    ensures r.stats.packetCount - r.stats.latencyCount == s.stats.packetCount - s.stats.latencyCount
    ensures |s.buffer| <= 2 ==> |r.buffer| <= 2
  {
    match Classify(d.data)
    case HeaderSkipped => s
    case Dropped => s
    case Audio(p) => Accept(s, d, p)
  }

  /** An accepted packet: the counters grow and its payload goes through
      the jitter buffer. */
  function Accept(s: LoopState, d: Datagram, p: AudioPacket): (r: LoopState)
    ensures r.stats.packetCount == s.stats.packetCount + 1
    ensures r.stats.packetCount - r.stats.latencyCount == s.stats.packetCount - s.stats.latencyCount
    ensures s.played <= r.played && |r.played| <= |s.played| + 1
    ensures |s.buffer| <= 2 ==> |r.buffer| <= 2
  {
    var stats := Stats(s.stats.packetCount + 1, s.stats.bytesReceived + |d.data|,
                       s.stats.totalLatency + Latency(d.clock, p.timestamp), s.stats.latencyCount + 1);
    var (buffer, played) := Feed(s.buffer, s.played, p.payload);
    LoopState(stats, buffer, played)
  }

  /** The payload is added to the jitter buffer and one `get` follows, whose
      entry, if any and if not empty, is written out. */
  function Feed(buffer: seq<seq<byte>>, played: seq<seq<byte>>, x: seq<byte>): (r: (seq<seq<byte>>, seq<seq<byte>>))
    ensures |r.0| < Jitter.DefaultSize
    ensures |buffer| <= 2 ==> |r.0| == Jitter.Min(|buffer| + 1, 2)
    ensures played <= r.1 && |r.1| <= |played| + 1
  {
    var b := Jitter.Appended(buffer, x, Jitter.DefaultSize);
    if |b| >= Jitter.MinFill then (b[1..], played + (if b[0] != [] then [b[0]] else []))
    else (b, played)
  }

  /** The receive loop's state after the given datagrams. */
  function Run(ds: seq<Datagram>): LoopState
  {
    if ds == [] then LoopState(Stats(0, 0, 0, 0), [], [])
    else Step(Run(ds[..|ds| - 1]), ds[|ds| - 1])
  }

  /** After any datagrams, packet_count equals latency_count, the jitter
      buffer holds at most two payloads, and no more payloads were written
      than packets counted. */
  lemma {:induction false} RunBounds(ds: seq<Datagram>)
    ensures Run(ds).stats.packetCount == Run(ds).stats.latencyCount
    ensures |Run(ds).buffer| <= 2
    ensures |Run(ds).played| <= Run(ds).stats.packetCount
  {
    if ds != [] {
      var init, d := ds[..|ds| - 1], ds[|ds| - 1];
      RunBounds(init);
      match Classify(d.data)
      case HeaderSkipped =>
      case Dropped =>
      case Audio(p) => assert Run(ds) == Accept(Run(init), d, p);
    }
  }

  /** One pass of the receive loop's body. */
  method Receive(jitter: Jitter.JitterBuffer<seq<byte>>, stats: Stats, played: seq<seq<byte>>, d: Datagram)
    returns (stats': Stats, played': seq<seq<byte>>)
    requires jitter.Valid() && jitter.maxlen == Jitter.DefaultSize
    modifies jitter
    ensures jitter.Valid()
    ensures LoopState(stats', jitter.buffer, played') == Step(LoopState(stats, old(jitter.buffer), played), d)
  {
    ghost var before := LoopState(stats, jitter.buffer, played);
    stats', played' := stats, played;
    var data := d.data;
    if |data| == 12 && HasMagic(data) {
      StepIgnores(before, d);
      return;
    }
    var packet := ParseAudioPacket(data);
    if packet.None? {
      StepIgnores(before, d);
      return;
    }
    StepAccepts(before, d, packet.value);
    stats', played' := Admit(jitter, stats, played, d, packet.value);
  }

  /** The rest of the loop body for a parsed audio packet: the counters,
      then the jitter buffer and the write. */
  method Admit(jitter: Jitter.JitterBuffer<seq<byte>>, stats: Stats, played: seq<seq<byte>>, d: Datagram, p: AudioPacket)
    returns (stats': Stats, played': seq<seq<byte>>)
    requires jitter.Valid() && jitter.maxlen == Jitter.DefaultSize
    modifies jitter
    ensures jitter.Valid()
    ensures LoopState(stats', jitter.buffer, played') == Accept(LoopState(stats, old(jitter.buffer), played), d, p)
  {
    stats' := Stats(stats.packetCount + 1, stats.bytesReceived + |d.data|,
                    stats.totalLatency + Latency(d.clock, p.timestamp), stats.latencyCount + 1);
    played' := Play(jitter, played, p.payload);
  }

  /** `jitter_buffer.add(packet['payload'])`, then `get()` and the write. */
  method Play(jitter: Jitter.JitterBuffer<seq<byte>>, played: seq<seq<byte>>, x: seq<byte>)
    returns (played': seq<seq<byte>>)
    requires jitter.Valid() && jitter.maxlen == Jitter.DefaultSize
    modifies jitter
    ensures jitter.Valid()
    ensures (jitter.buffer, played') == Feed(old(jitter.buffer), played, x)
  {
    played' := played;
    jitter.Add(x);
    ghost var b := jitter.buffer;
    var audio := jitter.Get();
    if audio.Some? && audio.value != [] {
      played' := played + [audio.value];
    }
    assert b == Jitter.Appended(old(jitter.buffer), x, Jitter.DefaultSize);
    if |b| >= Jitter.MinFill {
      assert audio == Some(b[0]);
      assert jitter.buffer == b[1..];
      assert played' == played + (if b[0] != [] then [b[0]] else []);
    }
  }

  lemma StepIgnores(s: LoopState, d: Datagram)
    requires !Classify(d.data).Audio?
    ensures Step(s, d) == s
  {
  }

  lemma StepAccepts(s: LoopState, d: Datagram, p: AudioPacket)
    requires |d.data| >= 11 && !(|d.data| == 12 && HasMagic(d.data)) && ParseAudioPacket(d.data) == Some(p)
    ensures Step(s, d) == Accept(s, d, p)
  {
  }

  /** The receive loop over the given datagrams, with a jitter buffer of
      JITTER_BUFFER_SIZE entries. */
  method ReceiveLoop(ds: seq<Datagram>) returns (stats: Stats, played: seq<seq<byte>>)
    ensures stats == Run(ds).stats && played == Run(ds).played
  {
    var jitter := new Jitter.JitterBuffer<seq<byte>>(Jitter.DefaultSize);
    stats := Stats(0, 0, 0, 0);
    played := [];
    var i := 0;
    while i < |ds|
      invariant 0 <= i <= |ds|
      invariant fresh(jitter) && jitter.Valid() && jitter.maxlen == Jitter.DefaultSize
      invariant Run(ds[..i]) == LoopState(stats, jitter.buffer, played)
    {
      assert ds[..i + 1][..i] == ds[..i];
      stats, played := Receive(jitter, stats, played, ds[i]);
      i := i + 1;
    }
    assert ds[..|ds|] == ds;
  }

  /** The datagrams the loop accepts as audio, in arrival order. */
  function Accepted(ds: seq<Datagram>): seq<Datagram> {
    if ds == [] then []
    else
      var d := ds[|ds| - 1];
      Accepted(ds[..|ds| - 1]) + (if Classify(d.data).Audio? then [d] else [])
  }

  function TotalBytes(accepted: seq<Datagram>): nat {
    if accepted == [] then 0
    else TotalBytes(accepted[..|accepted| - 1]) + |accepted[|accepted| - 1].data|
  }

  /** Every datagram is long enough to parse as an audio packet. */
  predicate HoldPackets(accepted: seq<Datagram>) {
    forall k :: 0 <= k < |accepted| ==> |accepted[k].data| >= 11
  }

  function TotalLatency(accepted: seq<Datagram>): int
    requires HoldPackets(accepted)
  {
    if accepted == [] then 0
    else
      var d := accepted[|accepted| - 1];
      TotalLatency(accepted[..|accepted| - 1]) + Latency(d.clock, ParseAudioPacket(d.data).value.timestamp)
  }

  /** The non-empty payloads, in order: `if audio_data:` writes only those. */
  function NonEmpty(payloads: seq<seq<byte>>): seq<seq<byte>> {
    if payloads == [] then []
    else
      var last := payloads[|payloads| - 1];
      NonEmpty(payloads[..|payloads| - 1]) + (if last != [] then [last] else [])
  }

  lemma {:induction false} AcceptedAreAudio(ds: seq<Datagram>)
    ensures forall k :: 0 <= k < |Accepted(ds)| ==> Classify(Accepted(ds)[k].data).Audio?
    ensures HoldPackets(Accepted(ds))
  {
    if ds != [] {
      AcceptedAreAudio(ds[..|ds| - 1]);
    }
  }

  /** How one iteration changes the counters: only accepted audio counts. */
  lemma StepStats(s: LoopState, d: Datagram)
    ensures Classify(d.data).Audio? ==>
      (Step(s, d).stats ==
        Stats(s.stats.packetCount + 1, s.stats.bytesReceived + |d.data|,
              s.stats.totalLatency + Latency(d.clock, ParseAudioPacket(d.data).value.timestamp),
              s.stats.latencyCount + 1))
    ensures !Classify(d.data).Audio? ==> Step(s, d).stats == s.stats
  {
  }

  /** Only accepted audio counts: packet_count and latency_count both equal
      the number of accepted datagrams, bytes_received is their total size,
      and total_latency_us the sum over them of receive time minus the
      packet's timestamp. Skipped headers and dropped datagrams count for
      nothing. */
  lemma {:induction false} RunCounts(ds: seq<Datagram>)
    ensures HoldPackets(Accepted(ds))
    ensures Run(ds).stats == Stats(|Accepted(ds)|, TotalBytes(Accepted(ds)),
                                   TotalLatency(Accepted(ds)), |Accepted(ds)|)
  {
    AcceptedAreAudio(ds);
    if ds != [] {
      var init := ds[..|ds| - 1];
      var d := ds[|ds| - 1];
      assert ds[..|ds| - 1] == init;
      StepStats(Run(init), d);
      RunCounts(init);
      AcceptedAreAudio(init);
      var a := Accepted(ds);
      if Classify(d.data).Audio? {
        assert a == Accepted(init) + [d];
        assert a[..|a| - 1] == Accepted(init);
        assert TotalBytes(a) == TotalBytes(Accepted(init)) + |d.data|;
        assert TotalLatency(a) == TotalLatency(Accepted(init)) + Latency(d.clock, ParseAudioPacket(d.data).value.timestamp);
      } else {
        assert a == Accepted(init);
      }
    }
  }

  /** The payloads of the datagrams the loop accepts as audio, in arrival
      order. */
  function AudioPayloads(ds: seq<Datagram>): seq<seq<byte>> {
    if ds == [] then []
    else
      var k := Classify(ds[|ds| - 1].data);
      AudioPayloads(ds[..|ds| - 1]) + (if k.Audio? then [k.packet.payload] else [])
  }

  /** Each accepted packet is added to the jitter buffer and, because one
      `get` follows every `add`, the buffer never holds more than two
      entries after an iteration and nothing is ever evicted: the loop holds
      back the last two accepted payloads and has written every earlier
      non-empty payload, in arrival order. */
  lemma {:induction false} RunPlaysInOrder(ds: seq<Datagram>)
    ensures var p := AudioPayloads(ds);
      Run(ds).buffer == HeldBack(p) && Run(ds).played == NonEmpty(p[..|p| - |HeldBack(p)|])
  {
    if ds != [] {
      var init := ds[..|ds| - 1];
      var d := ds[|ds| - 1];
      RunPlaysInOrder(init);
      var k := Classify(d.data);
      assert ds[..|ds| - 1] == init;
      if k.Audio? {
        assert Run(ds) == Accept(Run(init), d, k.packet);
        assert AudioPayloads(ds) == AudioPayloads(init) + [k.packet.payload];
        AcceptPlaysInOrder(Run(init), d, k.packet, AudioPayloads(init));
      } else {
        assert Run(ds) == Run(init);
        assert AudioPayloads(ds) == AudioPayloads(init);
      }
    }
  }

  /** The payloads the loop still holds: the last two accepted, or fewer. */
  function HeldBack(p: seq<seq<byte>>): (r: seq<seq<byte>>)
    ensures |r| <= 2 && |r| <= |p|
  {
    p[|p| - Jitter.Min(|p|, 2)..]
  }

  lemma AcceptPlaysInOrder(s: LoopState, d: Datagram, pk: AudioPacket, p0: seq<seq<byte>>)
    requires s.buffer == HeldBack(p0) && s.played == NonEmpty(p0[..|p0| - |HeldBack(p0)|])
    ensures var p := p0 + [pk.payload]; var r := Accept(s, d, pk);
      r.buffer == HeldBack(p) && r.played == NonEmpty(p[..|p| - |HeldBack(p)|])
  {
    var p := p0 + [pk.payload];
    var b := Jitter.Appended(s.buffer, pk.payload, Jitter.DefaultSize);
    assert b == s.buffer + [pk.payload];
    if |p0| >= 2 {
      var k := |p0| - 2;
      assert b[0] == p[k];
      assert b[1..] == p[k + 1..];
      assert p[..k + 1][..k] == p0[..k];
    } else {
      assert b == p;
    }
  }

  /** One payload per accepted datagram. */
  lemma {:induction false} AcceptedCount(ds: seq<Datagram>)
    ensures |Accepted(ds)| == |AudioPayloads(ds)|
  {
    if ds != [] {
      AcceptedCount(ds[..|ds| - 1]);
    }
  }

  /** The payloads of two runs of datagrams, one after the other. */
  lemma {:induction false} AudioPayloadsAppend(a: seq<Datagram>, b: seq<Datagram>)
    ensures AudioPayloads(a + b) == AudioPayloads(a) + AudioPayloads(b)
  {
    if b == [] {
      assert a + b == a;
    } else {
      var init := b[..|b| - 1];
      AudioPayloadsAppend(a, init);
      assert (a + b)[..|a + b| - 1] == a + init;
      assert (a + b)[|a + b| - 1] == b[|b| - 1];
      var k := Classify(b[|b| - 1].data);
      var last := if k.Audio? then [k.packet.payload] else [];
      assert AudioPayloads(b) == AudioPayloads(init) + last;
      assert AudioPayloads(a + b) == AudioPayloads(a + init) + last;
    }
  }

  /** The payloads depend only on the datagrams' bytes, not on the clock
      readings. */
  lemma {:induction false} AudioPayloadsIgnoreClock(ds: seq<Datagram>, es: seq<Datagram>)
    requires |ds| == |es| && forall k :: 0 <= k < |ds| ==> ds[k].data == es[k].data
    ensures AudioPayloads(ds) == AudioPayloads(es)
  {
    if ds != [] {
      AudioPayloadsIgnoreClock(ds[..|ds| - 1], es[..|es| - 1]);
    }
  }

  /** A header read by the wait loop before the receive loop starts changes
      nothing the receive loop would compute: the loop skips headers. */
  lemma {:induction false} RunSkipsLeadingHeader(d: Datagram, rest: seq<Datagram>)
    requires Classify(d.data) == HeaderSkipped
    ensures Run([d] + rest) == Run(rest)
  {
    if rest == [] {
      assert Run([d]) == Step(Run([]), d);
    } else {
      var init := rest[..|rest| - 1];
      var all := [d] + rest;
      assert all[..|all| - 1] == [d] + init;
      assert all[|all| - 1] == rest[|rest| - 1];
      RunSkipsLeadingHeader(d, init);
    }
  }
}
