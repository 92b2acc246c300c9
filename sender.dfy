/** The sending side (src/lib.rs): the bytes of a header and of an audio
    packet, and `start_audio_server`'s emission schedule — a burst of five
    headers, then one more header on every callback whose packet counter
    is a multiple of 1000. Sockets, the audio device and the clock are not
    modelled: the datagrams sent are recorded in order, and each callback is
    given the captured samples (as bytes) and the timestamp it would read. */
module Sender {
  import opened Wrappers
  import opened Wire
  import Decimal

  const ProtocolVersion: byte := 1
  const PacketTypeRaw: byte := 0

  /** Headers sent before the input stream is built. */
  const StartupHeaders: nat := 5
  /** A header is re-sent when the packet counter is a multiple of this. */
  const HeaderInterval: nat := 1000

  /** `send_header`'s datagram: magic, version, rate (u32 LE), channels
      (u16 LE), compression flag. */
  function EncodeHeader(sampleRate: u32, channels: u16, useCompression: bool): (h: seq<byte>)
    ensures |h| == 12 && h[..4] == Magic && h[4] == ProtocolVersion
    ensures h[11] == (if useCompression then 1 else 0)
  {
    Magic + [ProtocolVersion] + LeBytes(sampleRate, 4) + LeBytes(channels, 2)
      + [if useCompression then 1 else 0]
  }

  /** `build_packet`: type, timestamp (u64 LE), payload length cast to u16
      (LE), payload. The cast keeps the length modulo 65536. */
  function BuildPacket(packetType: byte, timestamp: u64, data: seq<byte>): (p: seq<byte>)
    ensures |p| == 11 + |data| && p[0] == packetType && p[11..] == data
  {
    [packetType] + LeBytes(timestamp, 8) + LeBytes(|data| % 0x1_0000, 2) + data
  }

  /** One audio callback's input: the timestamp `build_packet` reads from
      the clock, and the captured samples as bytes. */
  datatype Frame = Frame(timestamp: u64, samples: seq<byte>)

  /** `fetch_add(1)` on an AtomicU64: the counter wraps at 2^64. */
  function NextCount(count: u64): (r: u64)
    ensures r == (count + 1) % 0x1_0000_0000_0000_0000
  {
    if count == 0xFFFF_FFFF_FFFF_FFFF then 0 else count + 1
  }

  /** The counter value the k-th callback (from 0) reads: before it wraps,
      the number of earlier callbacks. */
  function CountAt(k: nat): (c: u64)
    ensures k < 0x1_0000_0000_0000_0000 ==> c == k
  {
    k % 0x1_0000_0000_0000_0000
  }

  /** The datagrams one callback sends, given the counter value it read. */
  function CallbackDatagrams(header: seq<byte>, count: u64, f: Frame): (r: seq<seq<byte>>)
    ensures 1 <= |r| <= 2 && (|r| == 2 <==> count % HeaderInterval == 0)
    ensures r[|r| - 1] == BuildPacket(PacketTypeRaw, f.timestamp, f.samples)
    ensures |r| == 2 ==> r[0] == header
  {
    (if count % HeaderInterval == 0 then [header] else [])
      + [BuildPacket(PacketTypeRaw, f.timestamp, f.samples)]
  }

  /** The datagrams the callbacks send for the frames, in order. */
  function StreamDatagrams(header: seq<byte>, frames: seq<Frame>): (r: seq<seq<byte>>)
    ensures |frames| <= |r| <= 2 * |frames|
  {
    if frames == [] then []
    else
      var n := |frames| - 1;
      StreamDatagrams(header, frames[..n]) + CallbackDatagrams(header, CountAt(n), frames[n])
  }

  /** n copies of a datagram. */
  function Repeat(d: seq<byte>, n: nat): (r: seq<seq<byte>>)
    ensures |r| == n && forall k :: 0 <= k < n ==> r[k] == d
  {
    if n == 0 then [] else Repeat(d, n - 1) + [d]
  }

  /** Everything a server sends: the startup burst, then the stream. */
  function ServerDatagrams(header: seq<byte>, frames: seq<Frame>): (r: seq<seq<byte>>)
    ensures StartupHeaders + |frames| <= |r|
    ensures forall k :: 0 <= k < StartupHeaders ==> r[k] == header
  {
    Repeat(header, StartupHeaders) + StreamDatagrams(header, frames)
  }

  /** `start_audio_server` after its socket and device are set up. */
  class AudioServer {
    /** `format!("{}:{}", target_ip, target_port)`. */
    const targetAddr: string
    const broadcast: bool
    const sampleRate: u32
    const channels: u16
    /** Always false: the argument that asks for compression is ignored. */
    const useCompression: bool
    /** The shared packet counter. */
    var packetCounter: u64
    /** Datagrams sent to targetAddr, oldest first. */
    var sent: seq<seq<byte>>
    /** The callbacks' inputs so far. */
    ghost var frames: seq<Frame>

    function Header(): seq<byte>
      reads this
    {
      EncodeHeader(sampleRate, channels, useCompression)
    }

    ghost predicate Valid()
      reads this
    {
      && !useCompression
      && packetCounter == CountAt(|frames|)
      && sent == ServerDatagrams(Header(), frames)
    }

    /** Binds, reads the device configuration (given here as deviceRate and
        deviceChannels) and sends the header five times. */
    constructor (targetIp: string, targetPort: u16, compressionArg: Option<bool>,
                 broadcastArg: Option<bool>, deviceRate: u32, deviceChannels: u16)
      ensures Valid() && frames == [] && packetCounter == 0
      ensures sent == Repeat(EncodeHeader(deviceRate, deviceChannels, false), StartupHeaders)
      ensures targetAddr == targetIp + ":" + Decimal.ShowNat(targetPort)
      ensures broadcast == broadcastArg.GetOr(false)
      ensures sampleRate == deviceRate && channels == deviceChannels && !useCompression
    {
      targetAddr := targetIp + ":" + Decimal.ShowNat(targetPort);
      broadcast := broadcastArg.GetOr(false);
      sampleRate, channels := deviceRate, deviceChannels;
      useCompression := false;
      var burst: seq<seq<byte>> := [];
      for i := 0 to StartupHeaders
        invariant burst == Repeat(EncodeHeader(deviceRate, deviceChannels, false), i)
      {
        burst := burst + [EncodeHeader(deviceRate, deviceChannels, false)];
      }
      sent := burst;
      packetCounter := 0;
      frames := [];
    }

    /** The input-stream callback. */
    method OnInput(f: Frame)
      requires Valid()
      modifies this
      ensures Valid() && frames == old(frames) + [f]
      ensures sent == old(sent) + CallbackDatagrams(Header(), old(packetCounter), f)
    {
      var count := packetCounter;
      NextCountAt(|frames|);
      packetCounter := NextCount(packetCounter);
      if count % HeaderInterval == 0 {
        sent := sent + [EncodeHeader(sampleRate, channels, useCompression)];
      }
      sent := sent + [BuildPacket(PacketTypeRaw, f.timestamp, f.samples)];
      ServerSnoc(Header(), frames, f);
      frames := frames + [f];
    }
  }

  /** One more callback appends its datagrams to what a server has sent. */
  lemma ServerSnoc(header: seq<byte>, frames: seq<Frame>, f: Frame)
    ensures ServerDatagrams(header, frames + [f])
      == ServerDatagrams(header, frames) + CallbackDatagrams(header, CountAt(|frames|), f)
  {
    assert (frames + [f])[..|frames|] == frames;
  }

  /** The counter after k callbacks, advanced once, is the counter after
      k + 1. */
  lemma NextCountAt(k: nat)
    ensures NextCount(CountAt(k)) == CountAt(k + 1)
  {
  }

  /** How many of the first n callbacks re-send the header. */
  function ScheduledHeaders(n: nat): nat {
    if n == 0 then 0
    else ScheduledHeaders(n - 1) + (if CountAt(n - 1) % HeaderInterval == 0 then 1 else 0)
  }

  /** Before the counter wraps, the first n callbacks re-send the header
      ceil(n / 1000) times: on callbacks 0, 1000, 2000, ... */
  lemma {:induction false} ScheduledHeadersCount(n: nat)
    requires n <= 0x1_0000_0000_0000_0000
    ensures ScheduledHeaders(n) == (n + 999) / 1000
  {
    if n > 0 {
      ScheduledHeadersCount(n - 1);
      assert ScheduledHeaders(n) == ScheduledHeaders(n - 1) + (if (n - 1) % HeaderInterval == 0 then 1 else 0);
      CeilStep(n - 1);
    }
  }

  /** ceil((m + 1) / 1000) grows past ceil(m / 1000) exactly when m is a
      multiple of 1000. */
  lemma CeilStep(m: nat)
    ensures (m + 1 + 999) / 1000 == (m + 999) / 1000 + (if m % 1000 == 0 then 1 else 0)
  {
    var q, r := m / 1000, m % 1000;
    assert m == 1000 * q + r;
    if r == 0 {
      ModUnique(m + 999, 1000, q, 999);
      ModUnique(m + 1 + 999, 1000, q + 1, 0);
    } else {
      ModUnique(m + 999, 1000, q + 1, r - 1);
      ModUnique(m + 1 + 999, 1000, q + 1, r);
    }
  }

  /** The stream holds one audio packet per callback and one header per
      scheduled re-send. */
  lemma {:induction false} StreamLength(header: seq<byte>, frames: seq<Frame>)
    ensures |StreamDatagrams(header, frames)| == |frames| + ScheduledHeaders(|frames|)
  {
    if frames != [] {
      StreamLength(header, frames[..|frames| - 1]);
    }
  }

  /** The very first callback re-sends the header before its packet. */
  lemma FirstCallbackResendsHeader(header: seq<byte>, f: Frame)
    ensures StreamDatagrams(header, [f]) == [header, BuildPacket(PacketTypeRaw, f.timestamp, f.samples)]
  {
    assert [f][..0] == [];
  }

  /** Every datagram of the stream is the header or an audio packet built
      from one of the frames, in callback order. */
  lemma {:induction false} StreamShape(header: seq<byte>, frames: seq<Frame>, d: seq<byte>)
    requires d in StreamDatagrams(header, frames)
    ensures d == header || exists k :: (0 <= k < |frames| &&
      d == BuildPacket(PacketTypeRaw, frames[k].timestamp, frames[k].samples))
  {
    var n := |frames| - 1;
    var prefix := frames[..n];
    if d in StreamDatagrams(header, prefix) {
      StreamShape(header, prefix, d);
      if d != header {
        var k :| 0 <= k < |prefix| && d == BuildPacket(PacketTypeRaw, prefix[k].timestamp, prefix[k].samples);
        assert frames[k] == prefix[k];
      }
    }
  }

  /** Compression is forced off: every header a server sends carries
      compression byte 0, and every other datagram it sends is a raw packet. */
  lemma ServerSendsUncompressed(sampleRate: u32, channels: u16, frames: seq<Frame>, d: seq<byte>)
    requires d in ServerDatagrams(EncodeHeader(sampleRate, channels, false), frames)
    ensures |d| >= 11
    ensures HasMagic(d) ==> |d| == 12 && d[11] == 0
    ensures !HasMagic(d) ==> d[0] == PacketTypeRaw
  {
    var h := EncodeHeader(sampleRate, channels, false);
    if d !in Repeat(h, StartupHeaders) {
      assert d in StreamDatagrams(h, frames);
      StreamShape(h, frames, d);
      if d != h {
        var k :| 0 <= k < |frames| && d == BuildPacket(PacketTypeRaw, frames[k].timestamp, frames[k].samples);
        assert d[0] == 0 && d[..4][0] == 0;
        assert Magic[0] != 0;
      }
    }
  }

  /** How many times d occurs in ds. */
  function Occurrences(ds: seq<seq<byte>>, d: seq<byte>): nat {
    if ds == [] then 0
    else Occurrences(ds[..|ds| - 1], d) + (if ds[|ds| - 1] == d then 1 else 0)
  }

  lemma {:induction false} OccurrencesAppend(a: seq<seq<byte>>, b: seq<seq<byte>>, d: seq<byte>)
    ensures Occurrences(a + b, d) == Occurrences(a, d) + Occurrences(b, d)
  {
    if b != [] {
      OccurrencesAppend(a, b[..|b| - 1], d);
      assert (a + b)[..|a + b| - 1] == a + b[..|b| - 1];
    } else {
      assert a + b == a;
    }
  }

  /** A server sends its header 5 times at startup and then once per
      scheduled re-send: for n callbacks before the counter wraps,
      5 + ceil(n / 1000) headers in all. */
  lemma {:induction false} HeadersSent(sampleRate: u32, channels: u16, frames: seq<Frame>)
    requires |frames| <= 0x1_0000_0000_0000_0000
    ensures Occurrences(ServerDatagrams(EncodeHeader(sampleRate, channels, false), frames),
                        EncodeHeader(sampleRate, channels, false))
            == StartupHeaders + (|frames| + 999) / 1000
  {
    var h := EncodeHeader(sampleRate, channels, false);
    BurstOccurrences(h, StartupHeaders);
    StreamHeaderOccurrences(h, frames);
    OccurrencesAppend(Repeat(h, StartupHeaders), StreamDatagrams(h, frames), h);
    ScheduledHeadersCount(|frames|);
  }

  lemma {:induction false} BurstOccurrences(h: seq<byte>, n: nat)
    ensures Occurrences(Repeat(h, n), h) == n
  {
    if n > 0 {
      BurstOccurrences(h, n - 1);
      assert Repeat(h, n)[..n - 1] == Repeat(h, n - 1);
    }
  }

  lemma {:induction false} StreamHeaderOccurrences(h: seq<byte>, frames: seq<Frame>)
    requires |h| >= 1 && h[0] != PacketTypeRaw
    ensures Occurrences(StreamDatagrams(h, frames), h) == ScheduledHeaders(|frames|)
  {
    if frames != [] {
      var n := |frames| - 1;
      StreamHeaderOccurrences(h, frames[..n]);
      var c := CallbackDatagrams(h, CountAt(n), frames[n]);
      assert StreamDatagrams(h, frames) == StreamDatagrams(h, frames[..n]) + c;
      assert ScheduledHeaders(n + 1) == ScheduledHeaders(n) + (if CountAt(n) % HeaderInterval == 0 then 1 else 0);
      OccurrencesAppend(StreamDatagrams(h, frames[..n]), c, h);
      CallbackOccurrences(h, CountAt(n), frames[n]);
    }
  }

  /** A callback sends the header once when it re-sends it, and otherwise
      not at all. */
  lemma CallbackOccurrences(h: seq<byte>, count: u64, f: Frame)
    requires |h| >= 1 && h[0] != PacketTypeRaw
    ensures Occurrences(CallbackDatagrams(h, count, f), h) == if count % HeaderInterval == 0 then 1 else 0
  {
    var c := CallbackDatagrams(h, count, f);
    var p := BuildPacket(PacketTypeRaw, f.timestamp, f.samples);
    assert p[0] != h[0];
    assert c[|c| - 1] == p != h;
    if count % HeaderInterval == 0 {
      assert c[..1] == [h] && [h][..0] == [];
      assert Occurrences([h], h) == 1;
      assert Occurrences(c, h) == Occurrences([h], h);
    } else {
      assert c[..0] == [];
      assert Occurrences(c, h) == 0;
    }
  }
}
