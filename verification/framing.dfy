/** The framing layer: extracts 5-byte packets from the received byte stream.
    The encode direction passes bytes through unchanged. */
module Framing {
  import opened Common

  /** Outcome of one scan: the accepted packets in order, the offset of each
      accepted window in the scanned data, the number of bytes dropped one at
      a time while resynchronising, and the bytes left when fewer than five
      remain. */
  datatype ScanResult = ScanResult(
    packets: seq<seq<Byte>>,
    offsets: seq<nat>,
    discarded: nat,
    leftover: seq<Byte>)

  /** The window of five bytes starting at `j` is a packet. */
  predicate PacketAt(data: seq<Byte>, j: int)
    requires 0 <= j && j + 5 <= |data|
  {
    IsPacket(data[j..j + 5])
  }

  /** The scan loop of the decoder, run on `data` from position `pos`:
      while five or more bytes remain, accept the leading window when it is a
      packet and move past it, otherwise move past one byte. Offsets are
      positions in `data`. */
  function ScanAt(data: seq<Byte>, pos: nat): (r: ScanResult)
    requires pos <= |data|
    ensures |r.packets| == |r.offsets|
    ensures forall i :: 0 <= i < |r.packets| ==> IsPacket(r.packets[i])
    ensures |r.leftover| < 5 && |r.leftover| <= |data| - pos
    ensures r.leftover == data[|data| - |r.leftover|..]
    ensures 5 * |r.packets| + r.discarded + |r.leftover| == |data| - pos
    decreases |data| - pos
  {
    if |data| - pos < 5 then
      ScanResult([], [], 0, data[pos..])
    else if PacketAt(data, pos) then
      var rest := ScanAt(data, pos + 5);
      ScanResult([data[pos..pos + 5]] + rest.packets, [pos] + rest.offsets, rest.discarded, rest.leftover)
    else
      var rest := ScanAt(data, pos + 1);
      ScanResult(rest.packets, rest.offsets, rest.discarded + 1, rest.leftover)
  }

  /** The whole scan of one buffer. */
  function Scan(data: seq<Byte>): (r: ScanResult)
    ensures forall i :: 0 <= i < |r.packets| ==> IsPacket(r.packets[i])
    ensures |r.leftover| < 5
    ensures 5 * |r.packets| + r.discarded + |r.leftover| == |data|
  {
    ScanAt(data, 0)
  }

  /** Position `j` lies inside one of the accepted windows. */
  predicate Covered(offsets: seq<nat>, j: int)
  {
    exists i :: 0 <= i < |offsets| && offsets[i] <= j < offsets[i] + 5
  }

  /** The accepted windows are the packets themselves, lie between `pos` and
      the leftover, and are pairwise disjoint in input order. */
  predicate WindowsOf(data: seq<Byte>, pos: nat, r: ScanResult)
    requires |r.offsets| == |r.packets| && |r.leftover| <= |data|
  {
    && (forall i :: 0 <= i < |r.offsets| ==>
          pos <= r.offsets[i] && r.offsets[i] + 5 <= |data| - |r.leftover|
          && data[r.offsets[i]..r.offsets[i] + 5] == r.packets[i])
    && (forall i, j :: 0 <= i < j < |r.offsets| ==> r.offsets[i] + 5 <= r.offsets[j])
  }

  lemma {:induction false} ScanWindows(data: seq<Byte>, pos: nat)
    requires pos <= |data|
    ensures WindowsOf(data, pos, ScanAt(data, pos))
    decreases |data| - pos
  {
    if |data| - pos < 5 {
    } else if PacketAt(data, pos) {
      ScanWindows(data, pos + 5);
      WindowsAccept(data, pos);
    } else {
      ScanWindows(data, pos + 1);
      WindowsReject(data, pos);
    }
  }

  lemma WindowsAccept(data: seq<Byte>, pos: nat)
    requires pos + 5 <= |data| && PacketAt(data, pos)
    requires WindowsOf(data, pos + 5, ScanAt(data, pos + 5))
    ensures WindowsOf(data, pos, ScanAt(data, pos))
  {
    var rest := ScanAt(data, pos + 5);
    assert ScanAt(data, pos)
        == ScanResult([data[pos..pos + 5]] + rest.packets, [pos] + rest.offsets, rest.discarded, rest.leftover);
    ConsWindow(data, pos, rest);
  }

  /** Putting an accepted window in front of the windows found after it. */
  lemma ConsWindow(data: seq<Byte>, pos: nat, rest: ScanResult)
    requires pos + 5 <= |data|
    requires |rest.offsets| == |rest.packets| && |rest.leftover| <= |data| - (pos + 5)
    requires WindowsOf(data, pos + 5, rest)
    ensures var r := ScanResult([data[pos..pos + 5]] + rest.packets, [pos] + rest.offsets, rest.discarded, rest.leftover);
      WindowsOf(data, pos, r)
  {
    var r := ScanResult([data[pos..pos + 5]] + rest.packets, [pos] + rest.offsets, rest.discarded, rest.leftover);
    forall i | 0 <= i < |r.offsets|
      ensures pos <= r.offsets[i] && r.offsets[i] + 5 <= |data| - |r.leftover|
      ensures data[r.offsets[i]..r.offsets[i] + 5] == r.packets[i]
    {
      if i > 0 {
        assert r.offsets[i] == rest.offsets[i - 1] && r.packets[i] == rest.packets[i - 1];
      }
    }
    forall i, j | 0 <= i < j < |r.offsets|
      ensures r.offsets[i] + 5 <= r.offsets[j]
    {
      assert r.offsets[j] == rest.offsets[j - 1];
      if i > 0 {
        assert r.offsets[i] == rest.offsets[i - 1];
      }
    }
  }

  lemma WindowsReject(data: seq<Byte>, pos: nat)
    requires pos + 5 <= |data| && !PacketAt(data, pos)
    requires WindowsOf(data, pos + 1, ScanAt(data, pos + 1))
    ensures WindowsOf(data, pos, ScanAt(data, pos))
  {
    assert ScanAt(data, pos).offsets == ScanAt(data, pos + 1).offsets;
    assert ScanAt(data, pos).packets == ScanAt(data, pos + 1).packets;
    assert ScanAt(data, pos).leftover == ScanAt(data, pos + 1).leftover;
  }

  /** The scan never passes over a packet: every packet window at or after
      `pos` lies inside one of the accepted windows. */
  lemma {:induction false} ScanCovers(data: seq<Byte>, pos: nat, j: int)
    requires pos <= j && j + 5 <= |data|
    requires PacketAt(data, j)
    ensures Covered(ScanAt(data, pos).offsets, j)
    decreases |data| - pos
  {
    var offs := ScanAt(data, pos).offsets;
    if PacketAt(data, pos) {
      var rest := ScanAt(data, pos + 5).offsets;
      assert offs == [pos] + rest;
      if j < pos + 5 {
        assert offs[0] <= j < offs[0] + 5;
      } else {
        ScanCovers(data, pos + 5, j);
        var i :| 0 <= i < |rest| && rest[i] <= j < rest[i] + 5;
        assert offs[i + 1] == rest[i];
      }
    } else {
      ScanCovers(data, pos + 1, j);
    }
  }

  /** The scan emits nothing exactly when no window of the data is a packet. */
  lemma NoPacketsIffNoWindow(data: seq<Byte>)
    ensures Scan(data).packets == [] <==>
      (forall j :: 0 <= j && j + 5 <= |data| ==> !PacketAt(data, j))
  {
    var r := Scan(data);
    if r.packets == [] {
      forall j | 0 <= j && j + 5 <= |data|
        ensures !PacketAt(data, j)
      {
        if PacketAt(data, j) {
          ScanCovers(data, 0, j);
          assert false;
        }
      }
    } else {
      ScanWindows(data, 0);
      assert data[r.offsets[0]..r.offsets[0] + 5] == r.packets[0];
      assert PacketAt(data, r.offsets[0]);
    }
  }

  /** State of the framing decoder. Its `buffer` is read on every call but
      never assigned, so it keeps its initial (empty) value. */
  datatype Decoder = Decoder(buffer: seq<Byte>)

  const InitialDecoder := Decoder([])

  /** One call of the decoder: scan the stored buffer followed by the chunk
      and push every accepted packet; the leftover is not stored. */
  function Receive(d: Decoder, chunk: seq<Byte>): (r: (Decoder, seq<seq<Byte>>))
    ensures r.0 == d
    ensures forall i :: 0 <= i < |r.1| ==> IsPacket(r.1[i])
    ensures 5 * |r.1| <= |d.buffer| + |chunk|
  {
    (d, Scan(d.buffer + chunk).packets)
  }

  /** The encoder is the identity on bytes. */
  function Send(packet: seq<Byte>): (r: seq<Byte>)
    ensures |r| == |packet| && forall i :: 0 <= i < |r| ==> r[i] == packet[i]
  {
    packet
  }

  /** One pass of the scan loop keeps "emitted so far, followed by what the
      rest of the scan emits" equal to what the whole scan emits. */
  lemma ScanAtStep(all: seq<Byte>, pos: nat, packets: seq<seq<Byte>>)
    requires pos + 5 <= |all|
    requires packets + ScanAt(all, pos).packets == Scan(all).packets
    ensures PacketAt(all, pos) ==> (packets + [all[pos..pos + 5]]) + ScanAt(all, pos + 5).packets == Scan(all).packets
    ensures !PacketAt(all, pos) ==> packets + ScanAt(all, pos + 1).packets == Scan(all).packets
  {
    if PacketAt(all, pos) {
      assert ScanAt(all, pos).packets == [all[pos..pos + 5]] + ScanAt(all, pos + 5).packets;
      assert (packets + [all[pos..pos + 5]]) + ScanAt(all, pos + 5).packets
          == packets + ([all[pos..pos + 5]] + ScanAt(all, pos + 5).packets);
    }
  }

  /** One pass of the loop below: `data` is the suffix of `all` from `pos`,
      so its leading window is the one the scan looks at there. */
  lemma LoopStep(all: seq<Byte>, pos: nat, data: seq<Byte>, packets: seq<seq<Byte>>)
    requires pos <= |all| && data == all[pos..] && |data| >= 5
    requires packets + ScanAt(all, pos).packets == Scan(all).packets
    ensures data[..5] == all[pos..pos + 5] && data[5..] == all[pos + 5..] && data[1..] == all[pos + 1..]
    ensures IsPacket(data[..5]) ==> (packets + [data[..5]]) + ScanAt(all, pos + 5).packets == Scan(all).packets
    ensures !IsPacket(data[..5]) ==> packets + ScanAt(all, pos + 1).packets == Scan(all).packets
  {
    assert data[..5] == all[pos..pos + 5];
    ScanAtStep(all, pos, packets);
  }

  /** The while loop of the decoder, written as the source writes it:
      `data` loses one or five leading bytes per pass. */
  method ReceiveLoop(d: Decoder, chunk: seq<Byte>) returns (packets: seq<seq<Byte>>)
    ensures packets == Receive(d, chunk).1
    ensures forall i :: 0 <= i < |packets| ==> IsPacket(packets[i])
  {
    var all := d.buffer + chunk;
    var data := all;
    ghost var pos := 0;
    packets := [];
    while |data| >= 5
      invariant pos <= |all| && data == all[pos..]
      invariant packets + ScanAt(all, pos).packets == Scan(all).packets
      decreases |data|
    {
      LoopStep(all, pos, data, packets);
      if IsPacket(data[..5]) {
        packets := packets + [data[..5]];
        data := data[5..];
        pos := pos + 5;
      } else {
        data := data[1..];
        pos := pos + 1;
      }
    }
    assert ScanAt(all, pos).packets == [];
  }

  /** Feeding chunks one call at a time: the packets of each call are those
      of that chunk alone. */
  function ReceiveAll(d: Decoder, chunks: seq<seq<Byte>>): (r: (Decoder, seq<seq<Byte>>))
    ensures r.0 == d
    decreases |chunks|
  {
    if chunks == [] then (d, [])
    else
      var (d1, ps) := Receive(d, chunks[0]);
      var (d2, qs) := ReceiveAll(d1, chunks[1..]);
      (d2, ps + qs)
  }

  /** Starting from the initial decoder, the buffer stays empty whatever
      arrives, so "buffer shorter than five bytes" holds after every call. */
  lemma {:induction false} BufferStaysEmpty(chunks: seq<seq<Byte>>)
    ensures ReceiveAll(InitialDecoder, chunks).0.buffer == []
    ensures |ReceiveAll(InitialDecoder, chunks).0.buffer| < 5
  {
  }

  /** A packet split across two chunks is never reassembled, although the
      same bytes in one chunk yield it. */
  lemma SplitPacketLost()
    ensures ReceiveAll(InitialDecoder, [[0xFE, 0x02, 0x83], [0x88, 0xFD]]).1 == []
    ensures Receive(InitialDecoder, [0xFE, 0x02, 0x83, 0x88, 0xFD]).1 == [[0xFE, 0x02, 0x83, 0x88, 0xFD]]
  {
    var c: seq<Byte> := [0xFE, 0x02, 0x83];
    var e: seq<Byte> := [0x88, 0xFD];
    assert [] + c == c;
    assert [] + e == e;
    var full: seq<Byte> := [0xFE, 0x02, 0x83, 0x88, 0xFD];
    assert [] + full == full;
    assert full[..5] == full;
    assert Scan(full[5..]).packets == [];
  }

  /** Input that is exactly one packet yields exactly that packet. */
  lemma SinglePacket(p: seq<Byte>)
    requires IsPacket(p)
    ensures Scan(p).packets == [p]
    ensures Scan(p).discarded == 0 && Scan(p).leftover == []
  {
    assert p[..5] == p;
    assert |p[5..]| == 0;
  }

  /** From a position after which no window is a packet, nothing more is
      emitted. */
  lemma {:induction false} NoneFrom(data: seq<Byte>, pos: nat)
    requires pos <= |data|
    requires forall j :: pos <= j && j + 5 <= |data| ==> !PacketAt(data, j)
    ensures ScanAt(data, pos).packets == []
    decreases |data| - pos
  {
    if |data| - pos >= 5 {
      NoneFrom(data, pos + 1);
    }
  }

  /** Windows that are not packets are skipped one byte at a time. */
  lemma {:induction false} SkipTo(data: seq<Byte>, pos: nat, k: nat)
    requires pos <= k && k + 5 <= |data|
    requires forall j :: pos <= j < k ==> !PacketAt(data, j)
    ensures ScanAt(data, pos).packets == ScanAt(data, k).packets
    decreases k - pos
  {
    if pos < k {
      SkipTo(data, pos + 1, k);
    }
  }

  /** Resynchronisation: one packet preceded by bytes that start no packet
      and followed by bytes that start no packet is emitted exactly once. */
  lemma EmbeddedPacket(data: seq<Byte>, k: nat)
    requires k + 5 <= |data| && PacketAt(data, k)
    requires forall j :: 0 <= j < k ==> !PacketAt(data, j)
    requires forall j :: k + 5 <= j && j + 5 <= |data| ==> !PacketAt(data, j)
    ensures Scan(data).packets == [data[k..k + 5]]
  {
    SkipTo(data, 0, k);
    NoneFrom(data, k + 5);
  }

  /** The four golden inputs of the framing decoder each yield the sample
      packet exactly once. */
  lemma GoldenPackets()
    ensures Scan([0xFE, 0x02, 0x83, 0x88, 0xFD]).packets == [SamplePacket]
    ensures Scan([0x01, 0x02, 0x03, 0xFE, 0x02, 0x83, 0x88, 0xFD]).packets == [SamplePacket]
    ensures Scan([0xFE, 0xFE, 0xFE, 0xFE, 0x02, 0x83, 0x88, 0xFD]).packets == [SamplePacket]
    ensures Scan([0xFE, 0x02, 0x83, 0x88, 0xFD, 0xFD, 0xFD]).packets == [SamplePacket]
  {
    GoldenAlone();
    GoldenAfterGarbage();
    GoldenAfterStarts();
    GoldenBeforeEnds();
  }

  lemma GoldenAlone()
    ensures Scan([0xFE, 0x02, 0x83, 0x88, 0xFD]).packets == [SamplePacket]
  {
    var g: seq<Byte> := [0xFE, 0x02, 0x83, 0x88, 0xFD];
    assert g[0..5] == SamplePacket;
    EmbeddedPacket(g, 0);
  }

  lemma GoldenAfterGarbage()
    ensures Scan([0x01, 0x02, 0x03, 0xFE, 0x02, 0x83, 0x88, 0xFD]).packets == [SamplePacket]
  {
    var g: seq<Byte> := [0x01, 0x02, 0x03, 0xFE, 0x02, 0x83, 0x88, 0xFD];
    assert g[3..8] == SamplePacket;
    assert !PacketAt(g, 0) && !PacketAt(g, 1) && !PacketAt(g, 2);
    EmbeddedPacket(g, 3);
  }

  lemma GoldenAfterStarts()
    ensures Scan([0xFE, 0xFE, 0xFE, 0xFE, 0x02, 0x83, 0x88, 0xFD]).packets == [SamplePacket]
  {
    var g: seq<Byte> := [0xFE, 0xFE, 0xFE, 0xFE, 0x02, 0x83, 0x88, 0xFD];
    assert g[3..8] == SamplePacket;
    assert !PacketAt(g, 0) && !PacketAt(g, 1) && !PacketAt(g, 2);
    EmbeddedPacket(g, 3);
  }

  lemma GoldenBeforeEnds()
    ensures Scan([0xFE, 0x02, 0x83, 0x88, 0xFD, 0xFD, 0xFD]).packets == [SamplePacket]
  {
    var g: seq<Byte> := [0xFE, 0x02, 0x83, 0x88, 0xFD, 0xFD, 0xFD];
    assert g[0..5] == SamplePacket;
    EmbeddedPacket(g, 0);
  }

  /** Pure garbage: nineteen 0x02 bytes yield no packet. */
  lemma GarbageOnly()
    ensures Receive(InitialDecoder, seq(19, i => 0x02)).1 == []
    ensures |Receive(InitialDecoder, seq(19, i => 0x02)).0.buffer| < 5
  {
    var g: seq<Byte> := seq(19, i => 0x02);
    assert [] + g == g;
    NoPacketsIffNoWindow(g);
    forall j | 0 <= j && j + 5 <= |g|
      ensures !PacketAt(g, j)
    {
      assert g[j..j + 5][0] == 0x02;
    }
  }
}
