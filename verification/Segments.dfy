/**
 Cutting a byte run into datagrams, which is what segmentation offload does to a send and what the
 receiver does to a coalesced read (slt-core/src/transport/mod.rs).
 */
module Segments {
  import opened Bytes

  /** The datagrams of `bytes` at segment size `n`: all of `n` bytes but possibly a shorter last one. */
  function Cut(bytes: seq<Byte>, n: nat): seq<seq<Byte>>
    requires 0 < n
    decreases |bytes|
  {
    if bytes == [] then [] else if |bytes| <= n then [bytes] else [bytes[..n]] + Cut(bytes[n..], n)
  }

  /** Packets that can share one offloaded send: equal sizes, the last one possibly shorter. */
  ghost predicate Segmentable(packets: seq<seq<Byte>>, n: nat) {
    && (forall i :: 0 <= i < |packets| ==> 0 < |packets[i]| <= n)
    && (forall i :: 0 <= i < |packets| - 1 ==> |packets[i]| == n)
  }

  /** Cutting undoes concatenation. */
  lemma {:induction false} CutConcat(packets: seq<seq<Byte>>, n: nat)
    requires 0 < n && Segmentable(packets, n)
    ensures Cut(Concat(packets), n) == packets
  {
    if |packets| == 1 {
      assert Concat(packets[1..]) == [];
      assert Concat(packets) == packets[0];
    } else if |packets| > 1 {
      var rest := packets[1..];
      assert |rest[0]| > 0 && Concat(rest) == rest[0] + Concat(rest[1..]);
      assert forall i :: 0 <= i < |rest| ==> rest[i] == packets[i + 1];
      CutConcat(rest, n);
      assert Concat(packets)[..n] == packets[0] && Concat(packets)[n..] == Concat(rest);
    }
  }

  /** And concatenation undoes cutting. */
  lemma {:induction false} ConcatCut(bytes: seq<Byte>, n: nat)
    requires 0 < n
    ensures Concat(Cut(bytes, n)) == bytes && Segmentable(Cut(bytes, n), n)
    decreases |bytes|
  {
    if bytes == [] {
    } else if |bytes| <= n {
      assert Concat([bytes]) == bytes + Concat([]);
    } else {
      ConcatCut(bytes[n..], n);
      var cut := Cut(bytes, n);
      assert cut[1..] == Cut(bytes[n..], n) && cut[1..] != [];
      assert bytes == bytes[..n] + bytes[n..];
      forall i | 0 <= i < |cut| ensures 0 < |cut[i]| <= n && (i < |cut| - 1 ==> |cut[i]| == n) {
        if i > 0 {
          assert cut[i] == cut[1..][i - 1];
        }
      }
    }
  }

  /** The ranges follow one another through `[0, len)`, of full size except possibly the last. */
  ghost predicate Partition(ranges: seq<(nat, nat)>, upTo: nat, stride: nat, len: nat) {
    && (ranges == [] <==> upTo == 0)
    && (ranges != [] ==> ranges[0].0 == 0 && ranges[|ranges| - 1].1 == upTo)
    && (forall i :: 0 <= i < |ranges| - 1 ==> ranges[i].1 == ranges[i + 1].0)
    && (forall i :: 0 <= i < |ranges| ==> ranges[i].0 < ranges[i].1 <= len)
    && (forall i :: 0 <= i < |ranges| ==> ranges[i].1 == Min(ranges[i].0 + stride, len))
  }

  method GroDatagramRanges(len: nat, stride: nat) returns (ranges: seq<(nat, nat)>)
    ensures Partition(ranges, len, Max(stride, 1), len)
  {
    hide Partition;
    var step := Max(stride, 1);
    ranges := [];
    PartitionNone(step, len);
    var off := 0;
    while off < len
      invariant 0 <= off
      invariant Partition(ranges, Min(off, len), step, len)
      decreases len - off
    {
      PartitionMore(ranges, off, step, len);
      ranges := ranges + [(off, Min(off + step, len))];
      off := off + step;
    }
  }

  lemma PartitionNone(stride: nat, len: nat)
    ensures Partition([], 0, stride, len)
  {
  }

  lemma PartitionMore(ranges: seq<(nat, nat)>, off: nat, stride: nat, len: nat)
    requires Partition(ranges, off, stride, len) && off < len && 0 < stride
    ensures Partition(ranges + [(off, Min(off + stride, len))], Min(off + stride, len), stride, len)
  {
    var more := ranges + [(off, Min(off + stride, len))];
    forall i | 0 <= i < |more| - 1 ensures more[i].1 == more[i + 1].0 {
      assert more[i] == ranges[i];
    }
  }

  /** The datagrams in the given ranges of a buffer. */
  function Slices(buf: seq<Byte>, ranges: seq<(nat, nat)>): seq<seq<Byte>>
    requires forall i :: 0 <= i < |ranges| ==> ranges[i].0 <= ranges[i].1 <= |buf|
  {
    seq(|ranges|, i requires 0 <= i < |ranges| => buf[ranges[i].0..ranges[i].1])
  }

  /** The ranges yield exactly the datagrams of the received bytes. */
  lemma {:induction false} SlicesAreCut(buf: seq<Byte>, ranges: seq<(nat, nat)>, len: nat, stride: nat, from: nat)
    requires 0 < stride && len <= |buf| && from <= |ranges| && Partition(ranges, len, stride, len)
    ensures var off := if from == |ranges| then len else ranges[from].0;
            off <= len && Slices(buf, ranges)[from..] == Cut(buf[off..len], stride)
    decreases |ranges| - from
  {
    if from < |ranges| {
      var off, end := ranges[from].0, ranges[from].1;
      SlicesAreCut(buf, ranges, len, stride, from + 1);
      assert Slices(buf, ranges)[from..] == [buf[off..end]] + Slices(buf, ranges)[from + 1..];
      if from + 1 < |ranges| {
        assert end == ranges[from + 1].0 < len;
        assert buf[off..len][..stride] == buf[off..end] && buf[off..len][stride..] == buf[end..len];
      } else {
        assert end == len;
      }
    }
  }
}
