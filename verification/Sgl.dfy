/** _nvme_qpair_build_hw_sgl_request: a scattered payload as a scatter gather
    list, section 4.4 of NVM Express 1.2. */
module Sgl {
  import opened Common
  import opened Prp
  import opened ScatteredPrp

  const MAX_SGL: nat := 253
  const DESCRIPTOR_SIZE: nat := 16

  datatype Descriptor = DataBlock(addr: nat, len: nat) | LastSegment(addr: nat, len: nat)

  /** Section 4.4: the bytes of a run of data blocks. */
  function DecodeBlocks(blocks: seq<Descriptor>): (r: Option<seq<nat>>) {
    if blocks == [] then Some([])
    else
      var last := blocks[|blocks| - 1];
      match DecodeBlocks(blocks[..|blocks| - 1])
      case None => None
      case Some(bytes) => if last.DataBlock? then Some(bytes + Bytes(last.addr, last.len)) else None
  }

  /** The first descriptor is the only data block, or points at the last segment
      in host memory at listAddr. */
  function DecodeSgl(first: Descriptor, listAddr: nat, list: seq<Descriptor>): (r: Option<seq<nat>>) {
    match first
    case DataBlock(_, _) => DecodeBlocks([first])
    case LastSegment(addr, len) =>
      var n := len / DESCRIPTOR_SIZE;
      if addr != listAddr || len % DESCRIPTOR_SIZE != 0 || n > |list| then None
      else DecodeBlocks(list[..n])
  }

  /** next_sge_fn: what it answers on each call, for ever; None is an error. */
  type Source = nat -> Option<Segment>

  ghost predicate Delivers(next: Source, k: nat) {
    forall i: nat :: i < k ==> next(i).Some?
  }

  ghost function Prefix(next: Source, k: nat): (s: seq<Segment>)
    requires Delivers(next, k)
    ensures |s| == k
  {
    if k == 0 then [] else Prefix(next, k - 1) + [next(k - 1).value]
  }

  /** k calls bring the payload, and no fewer. */
  ghost predicate Enough(next: Source, size: nat, k: nat) {
    && Delivers(next, k)
    && Total(Prefix(next, k)) >= size
    && forall i: nat :: i < k ==> Total(Prefix(next, i)) < size
  }

  lemma PrefixNext(next: Source, k: nat)
    requires Delivers(next, k + 1)
    ensures
      var s, s' := Prefix(next, k), Prefix(next, k + 1);
      var sge := next(k).value;
      && Total(s') == Total(s) + sge.len
      && Stream(s') == Stream(s) + Bytes(sge.addr, sge.len)
  {
    assert Prefix(next, k + 1)[..k] == Prefix(next, k);
  }

  /** The loop's state after some answers: the blocks written so far describe
      what was delivered, and all of it was needed. */
  ghost predicate Upto(next: Source, size: nat, blocks: seq<Descriptor>, left: nat) {
    && Delivers(next, |blocks|)
    && left == size - Min(size, Total(Prefix(next, |blocks|)))
    && (forall i: nat :: i < |blocks| ==> Total(Prefix(next, i)) < size)
    && DecodeBlocks(blocks) == Some(Stream(Prefix(next, |blocks|))[..size - left])
  }

  lemma UptoNext(next: Source, size: nat, blocks: seq<Descriptor>, left: nat)
    requires Upto(next, size, blocks, left) && left > 0 && next(|blocks|).Some?
    ensures
      var sge := next(|blocks|).value;
      var len := Min(left, sge.len);
      len <= left && Upto(next, size, blocks + [DataBlock(sge.addr, len)], left - len)
  {
    var k := |blocks|;
    var sge := next(k).value;
    var len := Min(left, sge.len);
    var blocks' := blocks + [DataBlock(sge.addr, len)];
    PrefixNext(next, k);
    assert blocks'[..k] == blocks;
    BytesPrefix(sge.addr, len, sge.len);
    hide Prefix, Total, Stream, Bytes;
    assert Stream(Prefix(next, k))[..size - left] == Stream(Prefix(next, k));
    CutConcat(Stream(Prefix(next, k)), Bytes(sge.addr, sge.len), len);
  }

  /** When the payload is complete, these are the answers it takes. */
  lemma UptoEnd(next: Source, size: nat, blocks: seq<Descriptor>)
    requires Upto(next, size, blocks, 0)
    ensures Enough(next, size, |blocks|)
    ensures DecodeBlocks(blocks) == Some(Stream(Prefix(next, |blocks|))[..size])
    ensures forall k: nat :: Enough(next, size, k) ==> k == |blocks|
  {
    hide Prefix, Total, Stream, DecodeBlocks;
  }

  /** When the source fails or the descriptors run out first, no number of
      answers would do. */
  lemma UptoStuck(next: Source, size: nat, blocks: seq<Descriptor>, left: nat)
    requires Upto(next, size, blocks, left) && left > 0 && (|blocks| == MAX_SGL || next(|blocks|).None?)
    ensures forall k: nat :: k <= MAX_SGL ==> !Enough(next, size, k)
  {
    hide Prefix, Total, Stream, DecodeBlocks;
  }

  lemma FirstDecodes(blocks: seq<Descriptor>, listAddr: nat, list: seq<Descriptor>)
    requires 0 < |blocks| <= |list| && list[..|blocks|] == blocks && blocks[0].DataBlock?
    ensures |blocks| == 1 ==> DecodeSgl(blocks[0], listAddr, list) == DecodeBlocks(blocks)
    ensures DecodeSgl(LastSegment(listAddr, |blocks| * DESCRIPTOR_SIZE), listAddr, list) == DecodeBlocks(blocks)
  {
    hide DecodeBlocks;
    if |blocks| == 1 {
      assert blocks == [blocks[0]];
    }
  }

  datatype SglBuilt = Refused | Sgl(first: Descriptor)

  /** It takes at most 253 answers, whatever the source, and accepts exactly
      when they bring the payload; the list then decodes to the first `size`
      bytes of the stream, inline when one descriptor is enough. */
  method BuildSgl(next: Source, size: nat, list: array<Descriptor>, listAddr: nat) returns (r: SglBuilt)
    requires size > 0 && list.Length == 253
    modifies list
    ensures r.Sgl? <==> exists k: nat :: k <= 253 && Enough(next, size, k)
    ensures forall k: nat :: r.Sgl? && Enough(next, size, k) ==>
      && (r.first.DataBlock? <==> k == 1)
      && DecodeSgl(r.first, listAddr, list[..]) == Some(Stream(Prefix(next, k))[..size])
  {
    var left, nseg := size, 0;
    assert Upto(next, size, list[..nseg], left);
    hide *;
    while left > 0
      invariant 0 <= nseg <= MAX_SGL && (nseg == 0 ==> left > 0)
      invariant Upto(next, size, list[..nseg], left)
      invariant nseg > 0 ==> list[0].DataBlock?
      decreases MAX_SGL - nseg
    {
      if nseg >= MAX_SGL || next(nseg).None? {
        UptoStuck(next, size, list[..nseg], left);
        return Refused;
      }
      var sge := next(nseg).value;
      UptoNext(next, size, list[..nseg], left);
      ghost var blocks := list[..nseg];
      var len := Min(left, sge.len);
      list[nseg] := DataBlock(sge.addr, len);
      assert list[..nseg + 1] == blocks + [DataBlock(sge.addr, len)];
      left, nseg := left - len, nseg + 1;
    }
    UptoEnd(next, size, list[..nseg]);
    assert list[..][..nseg] == list[..nseg];
    FirstDecodes(list[..nseg], listAddr, list[..]);
    if nseg == 1 {
      r := Sgl(list[0]);
    } else {
      r := Sgl(LastSegment(listAddr, nseg * DESCRIPTOR_SIZE));
    }
  }
}
