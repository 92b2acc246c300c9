/** receiver_silent.py: a receiver that counts what arrives without playing
    it. Its header parser expects a 10-byte layout (magic, rate, channels)
    and its monitor loop skips only datagrams of exactly 10 bytes that start
    with the magic. The socket is not modelled: a loop takes the datagrams
    that arrive, each cut to the 8192-byte `recvfrom` buffer as Linux cuts
    it. The two-second progress report (clock, floating-point
    rates, printing) is not modelled. */
module SilentReceiver {
  import opened Wrappers
  import opened Wire

  const Port: nat := 5555

  /** The fields this receiver's `parse_header` returns. */
  datatype Header = Header(sampleRate: u32, channels: u16)

  /** `parse_header`: None for fewer than 10 bytes or a wrong magic;
      otherwise the rate from bytes 4..8 and the channel count from bytes
      8..10, both little-endian. */
  function ParseHeader(data: seq<byte>): (r: Option<Header>)
    ensures r.None? <==> |data| < 10 || !HasMagic(data)
    ensures r.Some? ==> LeBytes(r.value.sampleRate, 4) == data[4..8]
    ensures r.Some? ==> LeBytes(r.value.channels, 2) == data[8..10]
  {
    if |data| < 10 || !HasMagic(data) then None
    else
      Pow256Widths();
      LeBytesOfLeValue(data[4..8]);
      LeBytesOfLeValue(data[8..10]);
      Some(Header(LeValue(data[4..8]), LeValue(data[8..10])))
  }

  /** Only the first 10 bytes of a datagram matter to `parse_header`. */
  lemma ParseHeaderIgnoresTail(data: seq<byte>, extra: seq<byte>)
    requires |data| >= 10
    ensures ParseHeader(data + extra) == ParseHeader(data)
  {
    var d := data + extra;
    assert d[..4] == data[..4] && d[4..8] == data[4..8] && d[8..10] == data[8..10];
  }

  /** The buffer size of every `recvfrom` in this receiver. */
  const BufferSize: nat := 8192

  /** A header is no longer than the buffer, so cutting a datagram to the
      buffer does not change how it parses. */
  lemma ParseHeaderOfReceived(d: seq<byte>)
    ensures ParseHeader(Received(d, BufferSize)) == ParseHeader(d)
  {
    if |d| > BufferSize {
      ParseHeaderIgnoresTail(d[..BufferSize], d[BufferSize..]);
      assert d[..BufferSize] + d[BufferSize..] == d;
    }
  }

  /** The loop before monitoring: every datagram, as `recvfrom(8192)`
      returns it, is tried as a header until one parses; the others are counted as audio packets received while
      waiting. Returns None when the datagrams run out first. */
  method WaitForHeader(datagrams: seq<seq<byte>>) returns (config: Option<Header>, audioPacketCount: nat)
    ensures audioPacketCount <= |datagrams|
    ensures forall k :: 0 <= k < audioPacketCount ==> ParseHeader(datagrams[k]) == None
    ensures config.None? ==> audioPacketCount == |datagrams|
    ensures config.Some? ==> audioPacketCount < |datagrams| && config == ParseHeader(datagrams[audioPacketCount])
  {
    config := None;
    audioPacketCount := 0;
    while config.None? && audioPacketCount < |datagrams|
      invariant audioPacketCount <= |datagrams|
      invariant forall k :: 0 <= k < audioPacketCount ==> ParseHeader(datagrams[k]) == None
      invariant config.Some? ==> audioPacketCount < |datagrams| && config == ParseHeader(datagrams[audioPacketCount])
      decreases |datagrams| - audioPacketCount, if config.None? then 1 else 0
    {
      ParseHeaderOfReceived(datagrams[audioPacketCount]);
      config := ParseHeader(Received(datagrams[audioPacketCount], BufferSize));
      if config.None? {
        audioPacketCount := audioPacketCount + 1;
      }
    }
  }

  /** The monitor loop's header test: exactly 10 bytes and the magic. */
  predicate IsSkipped(data: seq<byte>)
    ensures IsSkipped(data) ==> ParseHeader(data).Some?
  {
    |data| == 10 && HasMagic(data)
  }

  /** The datagrams the monitor loop counts, in arrival order. */
  function Counted(ds: seq<seq<byte>>): (r: seq<seq<byte>>)
    ensures |r| <= |ds|
  {
    if ds == [] then []
    else
      var d := ds[|ds| - 1];
      Counted(ds[..|ds| - 1]) + (if IsSkipped(d) then [] else [d])
  }

  /** The total length of some datagrams as sent. */
  function TotalSize(ds: seq<seq<byte>>): nat {
    if ds == [] then 0 else TotalSize(ds[..|ds| - 1]) + |ds[|ds| - 1]|
  }

  /** The total length of some datagrams as `recvfrom(8192)` returns them. */
  function ReceivedSize(ds: seq<seq<byte>>): nat {
    if ds == [] then 0 else ReceivedSize(ds[..|ds| - 1]) + |Received(ds[|ds| - 1], BufferSize)|
  }

  /** The cut at the buffer never lengthens a datagram, and changes nothing
      when every datagram fits. */
  lemma {:induction false} ReceivedSizeAtMost(ds: seq<seq<byte>>)
    ensures ReceivedSize(ds) <= TotalSize(ds)
    ensures (forall k :: 0 <= k < |ds| ==> |ds[k]| <= BufferSize) ==> ReceivedSize(ds) == TotalSize(ds)
  {
    if ds != [] {
      ReceivedSizeAtMost(ds[..|ds| - 1]);
    }
  }

  /** The cut at the buffer does not change the skip test: a datagram of
      exactly 10 bytes is never cut. */
  lemma ReceivedKeepsSkip(d: seq<byte>)
    ensures IsSkipped(Received(d, BufferSize)) == IsSkipped(d)
  {
    if |d| > BufferSize {
      assert Received(d, BufferSize)[..4] == d[..4];
    }
  }

  /** The monitor loop: packet_count and bytes_received over every datagram
      that is not skipped, each as long as `recvfrom(8192)` returns it. */
  method MonitorLoop(ds: seq<seq<byte>>) returns (packetCount: nat, bytesReceived: nat)
    ensures packetCount == |Counted(ds)| && bytesReceived == ReceivedSize(Counted(ds))
  {
    packetCount, bytesReceived := 0, 0;
    var i := 0;
    while i < |ds|
      invariant 0 <= i <= |ds|
      invariant packetCount == |Counted(ds[..i])| && bytesReceived == ReceivedSize(Counted(ds[..i]))
    {
      var data := Received(ds[i], BufferSize);
      ReceivedKeepsSkip(ds[i]);
      assert ds[..i + 1][..i] == ds[..i];
      if !IsSkipped(data) {
        var c := Counted(ds[..i + 1]);
        assert c == Counted(ds[..i]) + [ds[i]];
        assert c[..|c| - 1] == Counted(ds[..i]);
        packetCount := packetCount + 1;
        bytesReceived := bytesReceived + |data|;
      } else {
        assert Counted(ds[..i + 1]) == Counted(ds[..i]);
      }
      i := i + 1;
    }
    assert ds[..|ds|] == ds;
  }

  /** A datagram is counted exactly when it arrives and is not a 10-byte
      header. */
  lemma {:induction false} CountedMembers(ds: seq<seq<byte>>, d: seq<byte>)
    ensures d in Counted(ds) <==> d in ds && !IsSkipped(d)
  {
    if ds != [] {
      var init := ds[..|ds| - 1];
      CountedMembers(init, d);
      assert ds == init + [ds[|ds| - 1]];
    }
  }

  /** When no datagram is 10 bytes long, the loop skips nothing: every
      datagram, headers of any other length included, is counted. */
  lemma {:induction false} NothingSkipped(ds: seq<seq<byte>>)
    requires forall k :: 0 <= k < |ds| ==> |ds[k]| != 10
    ensures Counted(ds) == ds
  {
    if ds != [] {
      var init := ds[..|ds| - 1];
      NothingSkipped(init);
      assert ds == init + [ds[|ds| - 1]];
    }
  }
}
