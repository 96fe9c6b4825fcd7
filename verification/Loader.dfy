/**
  Loading the tensor-data section: aligned chunks read straight into place or
  through a bounce buffer, whatever the device returns short.
 */
module Loaders {
  import opened Utf8
  import Ggufs

  type Bytes = seq<byte>

  const BLOCK: nat := 4096
  const CHUNK: nat := 16777216

  datatype IoError = InvalidInput | CannotOpen | UnexpectedEof | DeviceError

  datatype Result<+T> = Ok(value: T) | Err(error: IoError)

  /** What one read call does: at most so many bytes, an interruption, or a failure. */
  datatype Outcome = UpTo(n: nat) | Interrupted | Failed

  predicate NeverFails(plan: seq<Outcome>) {
    forall i | 0 <= i < |plan| :: plan[i] != Failed
  }

  /** An open file: its bytes, and how the device will answer the coming reads (in full once the plan is used up). */
  class Disk {
    const content: Bytes
    var plan: seq<Outcome>

    constructor (content: Bytes, plan: seq<Outcome>)
      ensures this.content == content && this.plan == plan
    {
      this.content, this.plan := content, plan;
    }

    /** `read_at` into `buf[lo..hi]`: some bytes unless at the end of the file, none past it. */
    method ReadAt(buf: array<byte>, lo: nat, hi: nat, offset: nat) returns (r: Result<nat>, retry: bool)
      requires lo < hi <= buf.Length
      modifies buf, `plan
      ensures |plan| <= |old(plan)| && (retry ==> |plan| < |old(plan)|)
      ensures NeverFails(old(plan)) ==> NeverFails(plan) && r.Ok?
      ensures r.Ok? ==> r.value <= hi - lo && (!retry && r.value == 0 ==> offset >= |content|) && (retry ==> r.value == 0)
      ensures r.Ok? && r.value > 0 ==> offset + r.value <= |content| && buf[lo..lo + r.value] == content[offset..offset + r.value]
      ensures forall i | 0 <= i < buf.Length && (r.Err? || i < lo || i >= lo + r.value) :: buf[i] == old(buf[i])
    {
      var next := if plan == [] then UpTo(hi - lo) else plan[0];
      if plan != [] {
        plan := plan[1..];
      }
      if next.Failed? {
        return Err(DeviceError), false;
      }
      if next.Interrupted? {
        return Ok(0), true;
      }
      if offset >= |content| {
        return Ok(0), false;
      }
      var n := Least(Least(hi - lo, |content| - offset), if next.n == 0 then 1 else next.n);
      forall i | lo <= i < lo + n {
        buf[i] := content[offset + (i - lo)];
      }
      r, retry := Ok(n), false;
    }
  }

  function Least(a: nat, b: nat): nat {
    if a < b then a else b
  }

  function Greatest(a: nat, b: nat): nat {
    if a > b then a else b
  }

  /** What unbuffered reading asks of a request that can return bytes: file offset, length and target address in whole blocks. */
  predicate InBlocks(size: nat, offset: nat, want: nat, address: nat) {
    offset < size ==> offset % BLOCK == 0 && want % BLOCK == 0 && address % BLOCK == 0
  }

  /**
    `read_full`: fills the window, or stops short only at the end of the file; an empty result is an error.
    `base` is the address of `buf[0]`.
   */
  method ReadFull(disk: Disk, buf: array<byte>, lo: nat, want: nat, offset: nat, ghost base: nat) returns (r: Result<nat>)
    requires 0 < want && lo + want <= buf.Length
    requires offset < |disk.content| ==> offset % 4096 == 0 && want % 4096 == 0 && (base + lo) % 4096 == 0
    modifies buf, disk`plan
    ensures NeverFails(old(disk.plan)) ==> NeverFails(disk.plan) && (r.Ok? <==> offset < |disk.content|)
    ensures r.Ok? ==>
      && 0 < r.value <= want && offset + r.value <= |disk.content|
      && (r.value < want ==> offset + r.value == |disk.content|)
      && buf[lo..lo + r.value] == disk.content[offset..offset + r.value]
    ensures forall i | 0 <= i < buf.Length && (i < lo || i >= lo + want) :: buf[i] == old(buf[i])
    ensures r.Err? && r.error != DeviceError ==> offset >= |disk.content|
  {
    var done: nat, ended := 0, false;
    while done < want && !ended
      invariant done <= want && (done > 0 ==> offset + done <= |disk.content|)
      invariant ended ==> offset + done >= |disk.content|
      invariant done > 0 ==> buf[lo..lo + done] == disk.content[offset..offset + done]
      invariant forall i | 0 <= i < buf.Length && (i < lo || i >= lo + want) :: buf[i] == old(buf[i])
      invariant NeverFails(old(disk.plan)) ==> NeverFails(disk.plan)
      decreases !ended, want - done, |disk.plan|
    {
      ghost var before := buf[..];
      var n, retry := disk.ReadAt(buf, lo + done, lo + want, offset + done);
      if n.Err? {
        return Err(DeviceError);
      }
      if !retry {
        if n.value == 0 {
          ended := true;
        } else {
          Extend(buf[..], before, disk.content, lo, done, n.value, offset);
        }
      }
      assert n.value == 0 ==> buf[..] == before;
      assert n.value == 0 && done > 0 ==> buf[lo..lo + done] == before[lo..lo + done];
      done := done + n.value;
    }
    if done == 0 {
      return Err(UnexpectedEof);
    }
    r := Ok(done);
  }

  /** Bytes read next to bytes already in place. */
  lemma Extend(now: Bytes, before: Bytes, content: Bytes, lo: nat, done: nat, n: nat, offset: nat)
    requires |now| == |before| && lo + done + n <= |now| && offset + done + n <= |content|
    requires forall i | lo <= i < lo + done :: now[i] == before[i]
    requires before[lo..lo + done] == content[offset..offset + done]
    requires now[lo + done..lo + done + n] == content[offset + done..offset + done + n]
    ensures now[lo..lo + done + n] == content[offset..offset + done + n]
  {
    assert now[lo..lo + done] == before[lo..lo + done];
    assert now[lo..lo + done + n] == now[lo..lo + done] + now[lo + done..lo + done + n];
    assert content[offset..offset + done + n] == content[offset..offset + done] + content[offset + done..offset + done + n];
  }

  /** How much of the destination is filled once the file has been read up to `offset`. */
  function Filled(offset: nat, dataOffset: nat, dataLen: nat): (n: nat)
    ensures n <= dataLen
  {
    if offset <= dataOffset then 0 else Least(offset - dataOffset, dataLen)
  }

  /** The request: a chunk, or what is left rounded up to whole blocks. */
  function Request(left: nat): (want: nat)
    ensures left > 0 ==> 0 < want
    ensures want <= 16777216 && (want < 16777216 ==> left <= want < left + 4096) && want % 4096 == 0
  {
    Least(CHUNK, (left + BLOCK - 1) / BLOCK * BLOCK)
  }

  /** A direct read lands in place. */
  lemma DirectFills(dst: Bytes, old_: Bytes, content: Bytes, offset: nat, n: nat, dataOffset: nat)
    requires |dst| == |old_| && dataOffset <= offset && offset + n <= |content| && offset - dataOffset + n <= |dst|
    requires old_[..offset - dataOffset] == content[dataOffset..offset]
    requires forall i | 0 <= i < offset - dataOffset :: dst[i] == old_[i]
    requires dst[offset - dataOffset..offset - dataOffset + n] == content[offset..offset + n]
    ensures dst[..offset - dataOffset + n] == content[dataOffset..offset + n]
  {
    var at := offset - dataOffset;
    assert dst[..at] == old_[..at];
    assert dst[..at + n] == dst[..at] + dst[at..at + n];
    assert content[dataOffset..offset + n] == content[dataOffset..offset] + content[offset..offset + n];
  }

  /** `copy_from_slice` of the part of the bounce buffer that belongs to the data section. */
  method CopyOverlap(dst: array<byte>, bounce: array<byte>, content: Bytes, offset: nat, n: nat, dataOffset: nat)
    requires dst != bounce && n <= bounce.Length && offset + n <= |content|
    requires bounce[..n] == content[offset..offset + n]
    requires Filled(offset, dataOffset, dst.Length) < dst.Length || dst.Length == 0
    requires Placed(dst[..], content, offset, dataOffset)
    modifies dst
    ensures Placed(dst[..], content, offset + n, dataOffset)
  {
    var end := dataOffset + dst.Length;
    var copyStart, copyEnd := Greatest(offset, dataOffset), Least(offset + n, end);
    if copyStart < copyEnd {
      var len, src, at := copyEnd - copyStart, copyStart - offset, copyStart - dataOffset;
      ghost var before := dst[..];
      forall i | at <= i < at + len {
        dst[i] := bounce[src + (i - at)];
      }
      forall i | 0 <= i < at + len
        ensures dst[i] == content[dataOffset + i]
      {
        if i < at {
          assert before[..at][i] == content[dataOffset..dataOffset + at][i];
        } else {
          assert bounce[..n][src + (i - at)] == content[offset..offset + n][src + (i - at)];
        }
      }
    }
  }

  /** Everything read so far is in place. */
  predicate Placed(dst: Bytes, content: Bytes, offset: nat, dataOffset: nat) {
    var n := Filled(offset, dataOffset, |dst|);
    n > 0 ==> dataOffset + n <= |content| && dst[..n] == content[dataOffset..dataOffset + n]
  }

  /** The bytes of the data section. */
  function Section(content: Bytes, dataOffset: nat, dataLen: nat): Bytes
    requires dataOffset + dataLen <= |content|
  {
    content[dataOffset..dataOffset + dataLen]
  }

  /** A chunk whose place and phase allow reading straight into the destination. */
  method ReadDirect(disk: Disk, dst: array<byte>, want: nat, offset: nat, dataOffset: nat, ghost dstAddress: nat) returns (r: Result<nat>)
    requires 0 < want && dataOffset <= offset && offset - dataOffset + want <= dst.Length
    requires InBlocks(|disk.content|, offset, want, dstAddress + (offset - dataOffset))
    requires Placed(dst[..], disk.content, offset, dataOffset)
    modifies dst, disk`plan
    ensures NeverFails(old(disk.plan)) ==> NeverFails(disk.plan) && (r.Ok? <==> offset < |disk.content|)
    ensures r.Ok? ==> 0 < r.value <= want && offset + r.value <= |disk.content| && Placed(dst[..], disk.content, offset + r.value, dataOffset)
    ensures r.Ok? && r.value < want ==> offset + r.value == |disk.content|
  {
    ghost var before := dst[..];
    assert before[..offset - dataOffset] == [] || Filled(offset, dataOffset, dst.Length) == offset - dataOffset;
    hide NeverFails;
    r := ReadFull(disk, dst, offset - dataOffset, want, offset, dstAddress);
    if r.Ok? {
      assert before[..offset - dataOffset] == disk.content[dataOffset..offset];
      DirectFills(dst[..], before, disk.content, offset, r.value, dataOffset);
    }
  }

  /** Any other chunk goes through the bounce buffer. */
  method ReadBounced(disk: Disk, dst: array<byte>, bounce: array<byte>, want: nat, offset: nat, dataOffset: nat, ghost bounceAddress: nat) returns (r: Result<nat>)
    requires InBlocks(|disk.content|, offset, want, bounceAddress)
    requires dst != bounce && 0 < want <= bounce.Length && offset < dataOffset + dst.Length
    requires Placed(dst[..], disk.content, offset, dataOffset)
    modifies dst, bounce, disk`plan
    ensures NeverFails(old(disk.plan)) ==> NeverFails(disk.plan) && (r.Ok? <==> offset < |disk.content|)
    ensures r.Ok? ==> 0 < r.value <= want && offset + r.value <= |disk.content| && Placed(dst[..], disk.content, offset + r.value, dataOffset)
    ensures r.Ok? && r.value < want ==> offset + r.value == |disk.content|
  {
    hide NeverFails, Placed;
    r := ReadFull(disk, bounce, 0, want, offset, bounceAddress);
    if r.Ok? {
      assert bounce[0..0 + r.value] == bounce[..r.value];
      CopyOverlap(dst, bounce, disk.content, offset, r.value, dataOffset);
    }
  }

  /** The target of file offset `offset` keeps the phase of the aligned start. */
  predicate SamePhase(dstAddress: nat, dataOffset: nat) {
    (dstAddress + dataOffset / BLOCK * BLOCK - dataOffset) % BLOCK == 0
  }

  lemma PhaseKept(dstAddress: nat, dataOffset: nat, offset: nat)
    requires SamePhase(dstAddress, dataOffset) && dataOffset <= offset && offset % BLOCK == 0
    ensures (dstAddress + (offset - dataOffset)) % BLOCK == 0
  {
  }

  /** Every chunk but the one that ends the file starts on a block boundary. */
  predicate OnBoundary(size: nat, offset: nat) {
    offset < size ==> offset % BLOCK == 0
  }

  /** One turn of the chunk loop: whatever can return bytes is asked for in whole blocks, at an aligned address. */
  method ReadChunk(disk: Disk, dst: array<byte>, bounce: array<byte>, offset: nat, dataOffset: nat, directOk: bool, ghost dstAddress: nat, ghost bounceAddress: nat)
    returns (r: Result<nat>)
    requires dst != bounce && bounce.Length == CHUNK && offset < dataOffset + dst.Length
    requires OnBoundary(|disk.content|, offset) && bounceAddress % BLOCK == 0 && directOk == SamePhase(dstAddress, dataOffset)
    requires Placed(dst[..], disk.content, offset, dataOffset)
    modifies dst, bounce, disk`plan
    ensures NeverFails(old(disk.plan)) ==> NeverFails(disk.plan) && (r.Ok? <==> offset < |disk.content|)
    ensures r.Ok? ==> 0 < r.value && offset + r.value <= |disk.content| && Placed(dst[..], disk.content, offset + r.value, dataOffset)
    ensures r.Ok? ==> OnBoundary(|disk.content|, offset + r.value)
    ensures var want := Least(16777216, (dataOffset + dst.Length - offset + 4095) / 4096 * 4096);
            && (r.Ok? ==> r.value <= want)
            && (directOk && dataOffset <= offset && offset - dataOffset + want <= dst.Length ==> bounce[..] == old(bounce[..]))
  {
    hide NeverFails, Placed, SamePhase;
    var want := Request(dataOffset + dst.Length - offset);
    if directOk && dataOffset <= offset && offset - dataOffset + want <= dst.Length {
      if offset < |disk.content| {
        PhaseKept(dstAddress, dataOffset, offset);
      }
      r := ReadDirect(disk, dst, want, offset, dataOffset, dstAddress);
    } else {
      r := ReadBounced(disk, dst, bounce, want, offset, dataOffset, bounceAddress);
    }
  }

  /**
    `DirectSource::load`. Success means the destination holds exactly the data
    section; a file that ends before it gives an error. When the device never
    fails, success is exactly that the file is long enough.
   */
  method DirectLoad(disk: Disk, opens: bool, dst: array<byte>, dstAddress: nat, dataOffset: nat, dataLen: nat) returns (r: Result<()>)
    requires dstAddress >= BLOCK
    modifies dst, disk`plan
    ensures r.Ok? ==> dst.Length == dataLen && (dataLen > 0 ==> dataOffset + dataLen <= |disk.content| && dst[..] == Section(disk.content, dataOffset, dataLen))
    ensures opens && dst.Length == dataLen && NeverFails(old(disk.plan)) ==> (r.Ok? <==> dataLen == 0 || dataOffset + dataLen <= |disk.content|)
    ensures dst.Length != dataLen ==> r == Err(InvalidInput) && dst[..] == old(dst[..])
    ensures dst.Length == dataLen == 0 ==> r.Ok?
    ensures !opens && dst.Length == dataLen > 0 ==> r == Err(CannotOpen) && dst[..] == old(dst[..])
  {
    if dst.Length != dataLen {
      return Err(InvalidInput);
    }
    if dst.Length == 0 {
      return Ok(());
    }
    if !opens {
      return Err(CannotOpen);
    }
    var bounce := new byte[16777216];
    var alignedStart := dataOffset / BLOCK * BLOCK;
    var end := dataOffset + dataLen;
    ghost var bounceAddress: nat :| bounceAddress % BLOCK == 0;
    var directOk := (dstAddress + alignedStart - dataOffset) % BLOCK == 0;
    var offset := alignedStart;
    while offset < end
      invariant alignedStart <= offset && (offset > alignedStart ==> offset <= |disk.content|)
      invariant Placed(dst[..], disk.content, offset, dataOffset) && OnBoundary(|disk.content|, offset)
      invariant NeverFails(old(disk.plan)) ==> NeverFails(disk.plan)
      decreases if offset < end then end - offset else 0
    {
      var n := ReadChunk(disk, dst, bounce, offset, dataOffset, directOk, dstAddress, bounceAddress);
      if n.Err? {
        return Err(n.error);
      }
      offset := offset + n.value;
    }
    assert dst[..dataLen] == dst[..];
    r := Ok(());
  }

  /** `MmapCopySource::load`. */
  method MmapLoad(data: Bytes, dst: array<byte>) returns (r: Result<()>)
    modifies dst
    ensures r.Ok? <==> dst.Length == |data|
    ensures dst[..] == if r.Ok? then data else old(dst[..])
  {
    if dst.Length != |data| {
      return Err(InvalidInput);
    }
    forall i | 0 <= i < dst.Length {
      dst[i] := data[i];
    }
    r := Ok(());
  }

  /** The section a loader is built for is the parsed file's data section, so both sources load what `data_of` slices. */
  lemma SectionOfParsed(bytes: Bytes)
    requires Ggufs.Parse(bytes).Ok?
    ensures var g := Ggufs.Parse(bytes).value;
            g.dataStart + |g.data| == |bytes| && Section(bytes, g.dataStart, |g.data|) == g.data
  {
    hide Ggufs.Parse, Ggufs.Accepted;
    Ggufs.ParseAccepts(bytes);
    var g := Ggufs.Parse(bytes).value;
    assert bytes[g.dataStart..|bytes|] == bytes[g.dataStart..];
  }

  /** Both sources, given the parsed file and an unchanged disk, fill a destination of the right length with its data section. */
  method LoadBothWays(bytes: Bytes, plan: seq<Outcome>, g: Ggufs.Gguf, address: nat) returns (direct: Result<()>, first: Bytes, second: Bytes)
    requires Ggufs.Parse(bytes) == Ggufs.Ok(g) && address >= BLOCK
    ensures second == g.data && (direct.Ok? ==> first == second) && (NeverFails(plan) ==> direct.Ok?)
  {
    SectionOfParsed(bytes);
    hide Ggufs.Parse;
    var disk := new Disk(bytes, plan);
    var a := new byte[|g.data|];
    var b := new byte[|g.data|];
    direct := DirectLoad(disk, true, a, address, g.dataStart, |g.data|);
    var _ := MmapLoad(g.data, b);
    first, second := a[..], b[..];
  }
}
