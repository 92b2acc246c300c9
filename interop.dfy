/** What the sender's bytes mean to each receiver: the round trips between
    src/lib.rs's encoders and receiver_enhanced.py's parsers, the 10-byte
    header layout of receiver_silent.py against the 12-byte one the sender
    uses, and the enhanced receive loop run over everything a server sends. */
module Interop {
  import opened Wire
  import opened Wrappers
  import Sender
  import E = EnhancedReceiver
  import S = SilentReceiver
  import Jitter

  /** The header bytes, field by field. */
  lemma HeaderFields(sampleRate: u32, channels: u16, useCompression: bool)
    ensures var h := Sender.EncodeHeader(sampleRate, channels, useCompression);
      h[5..9] == LeBytes(sampleRate, 4) && h[9..11] == LeBytes(channels, 2)
  {
  }

  /** The enhanced receiver reads back every header the sender builds:
      version 1 and the same rate, channel count and compression flag. */
  lemma HeaderRoundTrip(sampleRate: u32, channels: u16, useCompression: bool)
    ensures E.ParseHeader(Sender.EncodeHeader(sampleRate, channels, useCompression))
      == Some(E.Header(1, sampleRate, channels, if useCompression then 1 else 0))
  {
    Pow256Widths();
    HeaderFields(sampleRate, channels, useCompression);
    LeValueOfLeBytes(sampleRate, 4);
    LeValueOfLeBytes(channels, 2);
  }

  /** The bytes of an audio packet, field by field. */
  lemma PacketFields(packetType: byte, timestamp: u64, data: seq<byte>)
    ensures var p := Sender.BuildPacket(packetType, timestamp, data);
      p[1..9] == LeBytes(timestamp, 8) && p[9..11] == LeBytes(|data| % 0x1_0000, 2)
  {
  }

  /** What the enhanced receiver reads from any packet the sender builds:
      the type and timestamp as sent, the length truncated to 16 bits, and
      that many bytes of the samples. */
  lemma PacketParse(packetType: byte, timestamp: u64, data: seq<byte>)
    ensures var size := |data| % 0x1_0000;
      E.ParseAudioPacket(Sender.BuildPacket(packetType, timestamp, data))
        == Some(E.AudioPacket(packetType, timestamp, size, data[..size]))
  {
    Pow256Widths();
    var p := Sender.BuildPacket(packetType, timestamp, data);
    var size := |data| % 0x1_0000;
    PacketFields(packetType, timestamp, data);
    LeValueOfLeBytes(timestamp, 8);
    LeValueOfLeBytes(size, 2);
    assert p[11..11 + size] == data[..size];
  }

  /** A packet of up to 65535 bytes of samples comes back whole. */
  lemma PacketRoundTrip(packetType: byte, timestamp: u64, data: seq<byte>)
    requires |data| <= 0xFFFF
    ensures E.ParseAudioPacket(Sender.BuildPacket(packetType, timestamp, data))
      == Some(E.AudioPacket(packetType, timestamp, |data|, data))
  {
    PacketParse(packetType, timestamp, data);
    assert data[..|data|] == data;
  }

  /** A longer one carries a wrong size and is cut short on receipt. */
  lemma OversizePacketTruncated(packetType: byte, timestamp: u64, data: seq<byte>)
    requires |data| > 0xFFFF
    ensures var r := E.ParseAudioPacket(Sender.BuildPacket(packetType, timestamp, data));
      r.Some? && r.value.size != |data| && r.value.payload != data
  {
    PacketParse(packetType, timestamp, data);
  }

  /** The enhanced loop skips the sender's headers, and takes every raw
      packet as audio. */
  lemma SenderDatagramsClassified(sampleRate: u32, channels: u16, useCompression: bool,
                                   timestamp: u64, data: seq<byte>)
    requires |data| <= 0xFFFF
    ensures E.Classify(Sender.EncodeHeader(sampleRate, channels, useCompression)) == E.HeaderSkipped
    ensures E.Classify(Sender.BuildPacket(Sender.PacketTypeRaw, timestamp, data))
      == E.Audio(E.AudioPacket(Sender.PacketTypeRaw, timestamp, |data|, data))
  {
    PacketRoundTrip(Sender.PacketTypeRaw, timestamp, data);
    var p := Sender.BuildPacket(Sender.PacketTypeRaw, timestamp, data);
    assert p[..4][0] != Magic[0];
  }

  /** Neither header parser takes a raw audio packet for a header. */
  lemma PacketIsNoHeader(timestamp: u64, data: seq<byte>)
    ensures E.ParseHeader(Sender.BuildPacket(Sender.PacketTypeRaw, timestamp, data)) == None
    ensures S.ParseHeader(Sender.BuildPacket(Sender.PacketTypeRaw, timestamp, data)) == None
  {
    var p := Sender.BuildPacket(Sender.PacketTypeRaw, timestamp, data);
    assert p[..4][0] != Magic[0];
  }

  /** The silent receiver parses the sender's 12-byte header as if it had
      the 10-byte layout: the version byte becomes the low byte of the rate,
      the rate's top byte becomes the low byte of the channel count, and the
      channel count's low byte its high byte. */
  lemma SilentMisreadsHeader(sampleRate: u32, channels: u16, useCompression: bool)
    ensures S.ParseHeader(Sender.EncodeHeader(sampleRate, channels, useCompression))
      == Some(S.Header(1 + 256 * (sampleRate % 0x100_0000), sampleRate / 0x100_0000 + 256 * (channels % 256)))
  {
    Pow256Widths();
    var h := Sender.EncodeHeader(sampleRate, channels, useCompression);
    var low3 := LeBytes(sampleRate, 3);
    var all4 := LeBytes(sampleRate, 4);
    LeBytesPrefix(sampleRate, 4, 3);
    assert all4 == low3 + [all4[3]];
    // The rate the silent receiver reads.
    assert h[4..8] == [1] + low3;
    assert ([1] + low3)[1..] == low3;
    LeValueOfLeBytesMod(sampleRate, 3);
    assert LeValue(h[4..8]) == 1 + 256 * (sampleRate % 0x100_0000);
    // The top byte of the rate.
    LeValueAppend(low3, [all4[3]]);
    LeValueOfLeBytes(sampleRate, 4);
    var top: int := all4[3];
    assert sampleRate == sampleRate % 0x100_0000 + 0x100_0000 * top;
    ModUnique(sampleRate, 0x100_0000, top, sampleRate % 0x100_0000);
    // The channel count the silent receiver reads.
    assert h[8..10] == [all4[3], LeBytes(channels, 2)[0]];
    assert LeValue(h[8..10]) == top + 256 * (channels % 256);
  }

  /** Whatever the sender's rate, the rate the silent receiver reads leaves
      remainder 1 modulo 256, so it misreads every rate that does not. */
  lemma SilentMisreadsRate(sampleRate: u32, channels: u16, useCompression: bool)
    requires sampleRate % 256 != 1
    ensures var r := S.ParseHeader(Sender.EncodeHeader(sampleRate, channels, useCompression));
      r.Some? && r.value.sampleRate != sampleRate
  {
    SilentMisreadsHeader(sampleRate, channels, useCompression);
  }

  /** The common rates, in stereo: 48000 Hz reads as 12288001 Hz with 512
      channels, 44100 Hz as 11289601 Hz with 512 channels. */
  lemma SilentMisreadsCommonRates(useCompression: bool)
    ensures S.ParseHeader(Sender.EncodeHeader(48000, 2, useCompression)) == Some(S.Header(12288001, 512))
    ensures S.ParseHeader(Sender.EncodeHeader(44100, 2, useCompression)) == Some(S.Header(11289601, 512))
  {
    SilentMisreadsHeader(48000, 2, useCompression);
    assert 48000 % 0x100_0000 == 48000 && 48000 / 0x100_0000 == 0;
    SilentMisreadsHeader(44100, 2, useCompression);
    assert 44100 % 0x100_0000 == 44100 && 44100 / 0x100_0000 == 0;
  }

  /** The two header layouts disagree: a 10-byte header the silent
      receiver accepts is rejected by the enhanced parser and dropped by the
      enhanced loop. */
  lemma ShortHeaderOnlySilent(data: seq<byte>)
    requires |data| == 10 && HasMagic(data)
    ensures S.ParseHeader(data).Some? && S.IsSkipped(data)
    ensures E.ParseHeader(data) == None && E.Classify(data) == E.Dropped
  {
  }

  /** The silent monitor loop counts the sender's 12-byte headers as
      packets. */
  lemma SilentCountsSenderHeader(sampleRate: u32, channels: u16, useCompression: bool, ds: seq<seq<byte>>)
    requires Sender.EncodeHeader(sampleRate, channels, useCompression) in ds
    ensures Sender.EncodeHeader(sampleRate, channels, useCompression) in S.Counted(ds)
  {
    S.CountedMembers(ds, Sender.EncodeHeader(sampleRate, channels, useCompression));
  }

  /** Nothing a server sends is skipped by the silent monitor loop: the
      startup headers, the re-sent headers and the audio are all counted. */
  lemma SilentCountsAllServerDatagrams(sampleRate: u32, channels: u16, frames: seq<Sender.Frame>)
    ensures var sent := Sender.ServerDatagrams(Sender.EncodeHeader(sampleRate, channels, false), frames);
      S.Counted(sent) == sent
  {
    var sent := Sender.ServerDatagrams(Sender.EncodeHeader(sampleRate, channels, false), frames);
    forall k | 0 <= k < |sent| ensures |sent[k]| != 10 {
      Sender.ServerSendsUncompressed(sampleRate, channels, frames, sent[k]);
    }
    S.NothingSkipped(sent);
  }

  /** Datagrams all read at one clock value. */
  function Arrivals(sent: seq<seq<byte>>, clock: int): (r: seq<E.Datagram>)
    ensures |r| == |sent| && forall k :: 0 <= k < |sent| ==> r[k] == E.Datagram(sent[k], clock)
  {
    if sent == [] then [] else Arrivals(sent[..|sent| - 1], clock) + [E.Datagram(sent[|sent| - 1], clock)]
  }

  /** The samples of each frame, in callback order. */
  function Samples(frames: seq<Sender.Frame>): (r: seq<seq<byte>>)
    ensures |r| == |frames| && forall k :: 0 <= k < |frames| ==> r[k] == frames[k].samples
  {
    if frames == [] then [] else Samples(frames[..|frames| - 1]) + [frames[|frames| - 1].samples]
  }

  /** Frames whose samples fit the 16-bit size field. */
  predicate FitsSizeField(frames: seq<Sender.Frame>) {
    forall k :: 0 <= k < |frames| ==> |frames[k].samples| <= 0xFFFF
  }

  lemma {:induction false} BurstCarriesNoAudio(h: seq<byte>, n: nat, clock: int)
    requires E.Classify(h) == E.HeaderSkipped
    ensures E.AudioPayloads(Arrivals(Sender.Repeat(h, n), clock)) == []
  {
    if n > 0 {
      var r := Sender.Repeat(h, n);
      BurstCarriesNoAudio(h, n - 1, clock);
      assert Arrivals(r, clock)[..n - 1] == Arrivals(Sender.Repeat(h, n - 1), clock);
    }
  }

  /** The audio the enhanced loop takes from one callback's datagrams is
      that callback's samples. */
  lemma CallbackCarriesSamples(sampleRate: u32, channels: u16, count: u64, f: Sender.Frame, clock: int)
    requires |f.samples| <= 0xFFFF
    ensures var h := Sender.EncodeHeader(sampleRate, channels, false);
      E.AudioPayloads(Arrivals(Sender.CallbackDatagrams(h, count, f), clock)) == [f.samples]
  {
    var h := Sender.EncodeHeader(sampleRate, channels, false);
    var p := Sender.BuildPacket(Sender.PacketTypeRaw, f.timestamp, f.samples);
    SenderDatagramsClassified(sampleRate, channels, false, f.timestamp, f.samples);
    var one := [E.Datagram(p, clock)];
    assert E.AudioPayloads(one) == [f.samples] by {
      assert one[..0] == [];
    }
    if count % Sender.HeaderInterval == 0 {
      var ds := Arrivals([h, p], clock);
      assert ds == [E.Datagram(h, clock)] + one;
      assert E.AudioPayloads([E.Datagram(h, clock)]) == [] by {
        assert [E.Datagram(h, clock)][..0] == [];
      }
      E.AudioPayloadsAppend([E.Datagram(h, clock)], one);
    } else {
      assert Arrivals([p], clock) == one;
    }
  }

  lemma {:induction false} StreamCarriesSamples(sampleRate: u32, channels: u16, frames: seq<Sender.Frame>, clock: int)
    requires FitsSizeField(frames)
    ensures var h := Sender.EncodeHeader(sampleRate, channels, false);
      E.AudioPayloads(Arrivals(Sender.StreamDatagrams(h, frames), clock)) == Samples(frames)
  {
    if frames != [] {
      var h := Sender.EncodeHeader(sampleRate, channels, false);
      var n := |frames| - 1;
      var a := Sender.StreamDatagrams(h, frames[..n]);
      var b := Sender.CallbackDatagrams(h, Sender.CountAt(n), frames[n]);
      StreamCarriesSamples(sampleRate, channels, frames[..n], clock);
      CallbackCarriesSamples(sampleRate, channels, Sender.CountAt(n), frames[n], clock);
      ArrivalsAppend(a, b, clock);
      E.AudioPayloadsAppend(Arrivals(a, clock), Arrivals(b, clock));
      assert Samples(frames)[..n] == Samples(frames[..n]);
    }
  }

  /** The enhanced loop takes exactly the frames' samples, in callback
      order, from everything a server sends, whatever the clock readings. */
  lemma ServerAudioReceived(sampleRate: u32, channels: u16, frames: seq<Sender.Frame>, ds: seq<E.Datagram>)
    requires FitsSizeField(frames)
    requires var sent := Sender.ServerDatagrams(Sender.EncodeHeader(sampleRate, channels, false), frames);
      |ds| == |sent| && forall k :: 0 <= k < |ds| ==> ds[k].data == sent[k]
    ensures E.AudioPayloads(ds) == Samples(frames)
  {
    var h := Sender.EncodeHeader(sampleRate, channels, false);
    var arrived := Arrivals(Sender.ServerDatagrams(h, frames), 0);
    ServerArrivalsCarrySamples(sampleRate, channels, frames);
    assert forall k :: 0 <= k < |ds| ==> ds[k].data == arrived[k].data;
    E.AudioPayloadsIgnoreClock(ds, arrived);
  }

  /** The same, with every datagram read at one clock value. */
  lemma ServerArrivalsCarrySamples(sampleRate: u32, channels: u16, frames: seq<Sender.Frame>)
    requires FitsSizeField(frames)
    ensures var h := Sender.EncodeHeader(sampleRate, channels, false);
      E.AudioPayloads(Arrivals(Sender.ServerDatagrams(h, frames), 0)) == Samples(frames)
  {
    var h := Sender.EncodeHeader(sampleRate, channels, false);
    var burst := Sender.Repeat(h, Sender.StartupHeaders);
    var stream := Sender.StreamDatagrams(h, frames);
    SenderDatagramsClassified(sampleRate, channels, false, 0, []);
    BurstCarriesNoAudio(h, Sender.StartupHeaders, 0);
    StreamCarriesSamples(sampleRate, channels, frames, 0);
    ArrivalsAppend(burst, stream, 0);
    E.AudioPayloadsAppend(Arrivals(burst, 0), Arrivals(stream, 0));
  }

  lemma ArrivalsAppend(a: seq<seq<byte>>, b: seq<seq<byte>>, clock: int)
    ensures Arrivals(a + b, clock) == Arrivals(a, clock) + Arrivals(b, clock)
  {
    assert forall k :: 0 <= k < |a + b| ==> (a + b)[k] == if k < |a| then a[k] else b[k - |a|];
  }

  /** End to end: over everything a server sends, the enhanced loop counts
      one packet per callback and has written every non-empty frame of
      samples, in order, except the last two, which the jitter buffer still
      holds. */
  lemma ServerStreamPlayed(sampleRate: u32, channels: u16, frames: seq<Sender.Frame>, ds: seq<E.Datagram>)
    requires FitsSizeField(frames)
    requires var sent := Sender.ServerDatagrams(Sender.EncodeHeader(sampleRate, channels, false), frames);
      |ds| == |sent| && forall k :: 0 <= k < |ds| ==> ds[k].data == sent[k]
    ensures E.Run(ds).stats.packetCount == |frames|
    ensures var held := Jitter.Min(|frames|, 2);
      E.Run(ds).buffer == Samples(frames)[|frames| - held..] &&
      E.Run(ds).played == E.NonEmpty(Samples(frames)[..|frames| - held])
  {
    ServerAudioReceived(sampleRate, channels, frames, ds);
    var p := E.AudioPayloads(ds);
    assert |p| == |frames|;
    E.RunCounts(ds);
    E.AcceptedCount(ds);
    E.RunPlaysInOrder(ds);
    assert E.HeldBack(p) == p[|p| - Jitter.Min(|p|, 2)..];
  }

  /** The wait loop before the receive loop: a server's first datagram is
      its header, so `WaitForHeader` stops there with nothing counted, and
      the receive loop, run over the datagrams after it, ends as it does
      over all of them. Only the first datagram matters, so this holds for
      every arrival that starts as a server's stream does, in particular
      for the datagrams of ServerStreamPlayed. */
  lemma ServerStreamAfterWait(sampleRate: u32, channels: u16, frames: seq<Sender.Frame>, ds: seq<E.Datagram>)
    requires |ds| > 0
    requires ds[0].data == Sender.ServerDatagrams(Sender.EncodeHeader(sampleRate, channels, false), frames)[0]
    ensures E.ParseHeader(ds[0].data) == Some(E.Header(1, sampleRate, channels, 0))
    ensures E.Run(ds[1..]) == E.Run(ds)
  {
    var h := Sender.EncodeHeader(sampleRate, channels, false);
    assert Sender.ServerDatagrams(h, frames)[0] == h;
    HeaderRoundTrip(sampleRate, channels, false);
    SenderDatagramsClassified(sampleRate, channels, false, 0, []);
    assert ds == [ds[0]] + ds[1..];
    E.RunSkipsLeadingHeader(ds[0], ds[1..]);
  }

  /** The sender's headers always name the raw format. */
  lemma SenderHeaderIsRaw(sampleRate: u32, channels: u16)
    ensures var r := E.ParseHeader(Sender.EncodeHeader(sampleRate, channels, false));
      r.Some? && E.CompressionName(r.value) == "Raw"
  {
    HeaderRoundTrip(sampleRate, channels, false);
  }
}
