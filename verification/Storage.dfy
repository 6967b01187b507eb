/** Mapping pieces onto the files of a torrent: internal/client/storage.go. */
module Storage {
  import opened Common

  /** A buffer that sits at position `start` of the torrent, after `data` was laid over position `off`. */
  function Patch(buffer: Bytes, start: nat, off: nat, data: Bytes): Bytes {
    seq(|buffer|, k requires 0 <= k < |buffer| =>
      if off <= start + k < off + |data| then data[start + k - off] else buffer[k])
  }

  /** The same, file by file. */
  function Overlay(files: seq<Bytes>, start: nat, off: nat, data: Bytes): seq<Bytes> {
    if files == [] then []
    else [Patch(files[0], start, off, data)] + Overlay(files[1..], start + |files[0]|, off, data)
  }

  /** Where file `i` begins in the concatenation. */
  function Start(files: seq<Bytes>, i: nat): nat
    requires i <= |files|
  {
    if i == 0 then 0 else |files[0]| + Start(files[1..], i - 1)
  }

  lemma {:induction false} StartNext(files: seq<Bytes>, i: nat)
    requires i < |files|
    ensures Start(files, i + 1) == Start(files, i) + |files[i]|
  {
    if i > 0 {
      StartNext(files[1..], i - 1);
    }
  }

  lemma {:induction false} StartEnd(files: seq<Bytes>)
    ensures Start(files, |files|) == |Flatten(files)|
  {
    if files != [] {
      StartEnd(files[1..]);
    }
  }

  lemma {:induction false} OverlayLength(files: seq<Bytes>, start: nat, off: nat, data: Bytes)
    ensures |Overlay(files, start, off, data)| == |files|
  {
    if files != [] {
      OverlayLength(files[1..], start + |files[0]|, off, data);
    }
  }

  lemma {:induction false} OverlayEntry(files: seq<Bytes>, start: nat, off: nat, data: Bytes, i: nat, at: nat)
    requires i < |files| && at == start + Start(files, i)
    ensures i < |Overlay(files, start, off, data)| && Overlay(files, start, off, data)[i] == Patch(files[i], at, off, data)
  {
    if i > 0 {
      OverlayEntry(files[1..], start + |files[0]|, off, data, i - 1, at);
    }
  }

  lemma OverlayAt(files: seq<Bytes>, start: nat, off: nat, data: Bytes)
    ensures |Overlay(files, start, off, data)| == |files|
    ensures forall i :: 0 <= i < |files| ==>
                          Overlay(files, start, off, data)[i] == Patch(files[i], start + Start(files, i), off, data)
  {
    OverlayLength(files, start, off, data);
    forall i | 0 <= i < |files|
      ensures Overlay(files, start, off, data)[i] == Patch(files[i], start + Start(files, i), off, data)
    {
      OverlayEntry(files, start, off, data, i, start + Start(files, i));
    }
  }

  /** Writing file by file is one flat write, whatever the file boundaries and however many files are empty. */
  lemma {:induction false} OverlayIsFlatPatch(files: seq<Bytes>, start: nat, off: nat, data: Bytes)
    ensures Flatten(Overlay(files, start, off, data)) == Patch(Flatten(files), start, off, data)
  {
    if files != [] {
      OverlayIsFlatPatch(files[1..], start + |files[0]|, off, data);
    }
  }

  lemma OverlayIsSplice(files: seq<Bytes>, off: nat, data: Bytes)
    requires off + |data| <= |Flatten(files)|
    ensures Flatten(Overlay(files, 0, off, data)) == Splice(Flatten(files), off, data)
  {
    OverlayIsFlatPatch(files, 0, off, data);
  }

  ghost predicate Within(order: seq<nat>, len: nat, size: nat) {
    forall k :: 0 <= k < |order| ==> order[k] * len <= size
  }

  /** The files after writing the pieces of `content` in the given order. */
  ghost function WriteAll(files: seq<Bytes>, content: Bytes, len: nat, order: seq<nat>): seq<Bytes>
    requires len > 0 && Within(order, len, |content|)
    decreases |order|
  {
    if order == [] then files
    else WriteAll(Overlay(files, 0, order[0] * len, Chunk(content, len, order[0])), content, len, order[1..])
  }

  lemma ChunkWrite(files: seq<Bytes>, content: Bytes, len: nat, i: nat, p: nat)
    requires len > 0 && |Flatten(files)| == |content| && i * len <= |content| && p < |content|
    ensures |Flatten(Overlay(files, 0, i * len, Chunk(content, len, i)))| == |content|
    ensures Flatten(Overlay(files, 0, i * len, Chunk(content, len, i)))[p]
            == if p / len == i then content[p] else Flatten(files)[p]
  {
    assert (i + 1) * len == i * len + len;
    OverlayIsSplice(files, i * len, Chunk(content, len, i));
    DivisionBounds(p, len);
    if i * len <= p < i * len + len {
      SameQuotient(p, len, i);
    }
  }

  lemma {:induction false} WriteAllBytes(files: seq<Bytes>, content: Bytes, len: nat, order: seq<nat>, p: nat)
    requires len > 0 && |Flatten(files)| == |content| && p < |content|
    requires Within(order, len, |content|)
    ensures |Flatten(WriteAll(files, content, len, order))| == |content|
    ensures Flatten(WriteAll(files, content, len, order))[p]
            == if p / len in order then content[p] else Flatten(files)[p]
    decreases |order|
  {
    if order != [] {
      ChunkWrite(files, content, len, order[0], p);
      WriteAllBytes(Overlay(files, 0, order[0] * len, Chunk(content, len, order[0])), content, len, order[1..], p);
    }
  }

  lemma PiecesWithin(order: seq<nat>, len: nat, size: nat)
    requires len > 0 && forall k :: 0 <= k < |order| ==> order[k] < CeilDiv(size, len)
    ensures Within(order, len, size)
  {
    forall k | 0 <= k < |order|
      ensures order[k] * len <= size
    {
      PieceBegins(size, len, order[k]);
    }
  }

  lemma PieceCovered(order: seq<nat>, size: nat, len: nat, p: nat)
    requires len > 0 && p < size
    requires forall i :: 0 <= i < CeilDiv(size, len) ==> i in order
    ensures p / len in order
  {
    PieceExists(size, len, p);
  }

  /** Writing every piece, in any order and with any repetition, rebuilds the content. */
  lemma AnyOrderRebuilds(files: seq<Bytes>, content: Bytes, len: nat, order: seq<nat>)
    requires len > 0 && |Flatten(files)| == |content| > 0
    requires forall k :: 0 <= k < |order| ==> order[k] < CeilDiv(|content|, len)
    requires forall i :: 0 <= i < CeilDiv(|content|, len) ==> i in order
    ensures (PiecesWithin(order, len, |content|); Flatten(WriteAll(files, content, len, order)) == content)
  {
    PiecesWithin(order, len, |content|);
    var rebuilt := Flatten(WriteAll(files, content, len, order));
    WriteAllBytes(files, content, len, order, 0);
    forall p | 0 <= p < |content|
      ensures rebuilt[p] == content[p]
    {
      WriteAllBytes(files, content, len, order, p);
      PieceCovered(order, |content|, len, p);
    }
  }

  /** The guard under which WritePiece writes to file `i`. */
  predicate TouchesFile(files: seq<Bytes>, i: nat, off: nat, size: nat)
    requires i < |files|
  {
    off < Start(files, i) + |files[i]| && off + size > Start(files, i)
  }

  ghost predicate FaultHit(files: seq<Bytes>, off: nat, size: nat, fault: map<nat, nat>) {
    exists i :: 0 <= i < |files| && i in fault && TouchesFile(files, i, off, size)
  }

  /** None of the first `n` files is to be written and has a fault. */
  ghost predicate FaultFree(files: seq<Bytes>, n: nat, off: nat, size: nat, fault: map<nat, nat>) {
    n <= |files| && forall i :: 0 <= i < n && i in fault ==> !TouchesFile(files, i, off, size)
  }

  lemma FaultFreeNext(files: seq<Bytes>, n: nat, off: nat, size: nat, fault: map<nat, nat>)
    requires n < |files| && FaultFree(files, n, off, size, fault)
    requires n in fault ==> !TouchesFile(files, n, off, size)
    ensures FaultFree(files, n + 1, off, size, fault)
  {
  }

  /** No byte changed except, possibly, to the byte of `data` that belongs there. */
  ghost predicate ConfinedFile(before: Bytes, after: Bytes, start: nat, off: nat, data: Bytes) {
    && |before| == |after|
    && forall k :: 0 <= k < |after| ==>
         after[k] == before[k] || (off <= start + k < off + |data| && after[k] == data[start + k - off])
  }

  ghost predicate Confined(before: seq<Bytes>, after: seq<Bytes>, off: nat, data: Bytes) {
    && |before| == |after|
    && forall i :: 0 <= i < |after| ==> ConfinedFile(before[i], after[i], Start(before, i), off, data)
  }

  /** How many of the `size` bytes at `off` lie before `pos`. */
  function Covered(pos: nat, off: nat, size: nat): nat {
    if pos <= off then 0 else Min(off + size, pos) - off
  }

  /** The arithmetic of one file: the slice WritePiece selects and the place it goes to. */
  lemma FileWrite(file: Bytes, start: nat, off: nat, data: Bytes, at: nat, from: nat, to: nat)
    requires off < start + |file| && off + |data| > start
    requires at == Max(off - start, 0) && from == Max(start - off, 0)
    requires to == Min(from + (|file| - at), |data|)
    ensures from <= to && at + (to - from) <= |file|
    ensures Splice(file, at, data[from..to]) == Patch(file, start, off, data)
    ensures Covered(start + |file|, off, |data|) == Covered(start, off, |data|) + (to - from)
  {
  }

  lemma FileSkip(file: Bytes, start: nat, off: nat, data: Bytes)
    requires !(off < start + |file| && off + |data| > start)
    ensures file == Patch(file, start, off, data)
    ensures Covered(start + |file|, off, |data|) == Covered(start, off, |data|)
  {
  }

  lemma PartialWrite(file: Bytes, start: nat, off: nat, data: Bytes, at: nat, from: nat, to: nat, reached: nat)
    requires at == Max(off - start, 0) && from == Max(start - off, 0)
    requires from <= to <= |data| && at + (to - from) <= |file| && reached <= to - from
    ensures ConfinedFile(file, Splice(file, at, data[from..to][..reached]), start, off, data)
  {
  }

  lemma PatchConfined(file: Bytes, start: nat, off: nat, data: Bytes)
    ensures ConfinedFile(file, Patch(file, start, off, data), start, off, data)
  {
  }

  /** The first `i` files hold their share of `data`, the others are as they were. */
  ghost predicate WrittenUpTo(before: seq<Bytes>, after: seq<Bytes>, i: nat, off: nat, data: Bytes) {
    && i <= |before| == |after|
    && (forall j :: 0 <= j < i ==> after[j] == Patch(before[j], Start(before, j), off, data))
    && (forall j :: i <= j < |before| ==> after[j] == before[j])
  }

  lemma WrittenNext(before: seq<Bytes>, after: seq<Bytes>, i: nat, off: nat, data: Bytes, file: Bytes)
    requires i < |before| && WrittenUpTo(before, after, i, off, data)
    requires file == Patch(before[i], Start(before, i), off, data)
    ensures WrittenUpTo(before, after[i := file], i + 1, off, data)
  {
  }

  lemma WrittenAll(before: seq<Bytes>, after: seq<Bytes>, off: nat, data: Bytes)
    requires WrittenUpTo(before, after, |before|, off, data)
    ensures after == Overlay(before, 0, off, data)
    ensures Confined(before, after, off, data)
  {
    OverlayAt(before, 0, off, data);
    forall j | 0 <= j < |before|
      ensures ConfinedFile(before[j], after[j], Start(before, j), off, data)
    {
      PatchConfined(before[j], Start(before, j), off, data);
    }
  }

  lemma WrittenPartly(before: seq<Bytes>, after: seq<Bytes>, i: nat, off: nat, data: Bytes, file: Bytes)
    requires i < |before| && WrittenUpTo(before, after, i, off, data)
    requires ConfinedFile(before[i], file, Start(before, i), off, data)
    ensures Confined(before, after[i := file], off, data)
  {
    forall j | 0 <= j < |before|
      ensures ConfinedFile(before[j], after[i := file][j], Start(before, j), off, data)
    {
      PatchConfined(before[j], Start(before, j), off, data);
    }
  }

  class Store {
    const lengths: seq<nat>
    var disk: seq<Bytes>

    /** Every file has its declared length: what Preallocate leaves behind. */
    ghost predicate Valid()
      reads this
    {
      |disk| == |lengths| && forall i :: 0 <= i < |disk| ==> |disk[i]| == lengths[i]
    }

    /** `before` holds whatever the download directory already contained at each path. */
    constructor (lengths: seq<nat>, before: seq<Bytes>)
      requires |lengths| == |before|
      ensures this.lengths == lengths && disk == before
    {
      this.lengths, this.disk := lengths, before;
    }

    method Preallocate()
      requires |disk| == |lengths|
      modifies this
      ensures Valid()
      ensures forall i, k :: 0 <= i < |disk| && 0 <= k < |disk[i]| ==>
                               disk[i][k] == if k < |old(disk)[i]| then old(disk)[i][k] else 0
    {
      var i := 0;
      while i < |lengths|
        invariant 0 <= i <= |lengths| && |disk| == |lengths|
        invariant forall j :: 0 <= j < i ==> |disk[j]| == lengths[j]
        invariant forall j :: i <= j < |disk| ==> disk[j] == old(disk)[j]
        invariant forall j, k :: 0 <= j < i && 0 <= k < |disk[j]| ==>
                                   disk[j][k] == if k < |old(disk)[j]| then old(disk)[j][k] else 0
      {
        var file := disk[i];
        var sized := if lengths[i] <= |file| then file[..lengths[i]] else file + seq(lengths[i] - |file|, _ => 0);
        disk := disk[i := sized];
        i := i + 1;
      }
    }

    /** `fault` names the files whose write fails, with the number of bytes that reach the disk before it does. */
    method WritePiece(pieceIndex: nat, pieceLength: nat, data: Bytes, fault: map<nat, nat>) returns (ok: bool)
      requires Valid()
      modifies this
      ensures Valid()
      ensures ok <==> && (data == [] || pieceIndex * pieceLength + |data| <= |Flatten(old(disk))|)
                      && !FaultHit(old(disk), pieceIndex * pieceLength, |data|, fault)
      ensures ok ==> disk == Overlay(old(disk), 0, pieceIndex * pieceLength, data)
      ensures Confined(old(disk), disk, pieceIndex * pieceLength, data)
    {
      ok := WriteRange(pieceIndex * pieceLength, data, fault);
    }

    method WriteRange(globalOffset: nat, data: Bytes, fault: map<nat, nat>) returns (ok: bool)
      requires Valid()
      modifies this
      ensures Valid()
      ensures ok <==> && (data == [] || globalOffset + |data| <= |Flatten(old(disk))|)
                      && !FaultHit(old(disk), globalOffset, |data|, fault)
      ensures ok ==> disk == Overlay(old(disk), 0, globalOffset, data)
      ensures Confined(old(disk), disk, globalOffset, data)
    {
      var dataOffset := 0;
      var bytesToWrite := |data|;
      var currentPos := 0;
      ghost var before := disk;
      StartEnd(before);
      var i := 0;
      while i < |lengths|
        invariant 0 <= i <= |lengths| && Valid()
        invariant WrittenUpTo(before, disk, i, globalOffset, data)
        invariant currentPos == Start(before, i)
        invariant dataOffset == Covered(currentPos, globalOffset, bytesToWrite)
        invariant FaultFree(before, i, globalOffset, bytesToWrite, fault)
      {
        StartNext(before, i);
        ghost var file := Patch(disk[i], currentPos, globalOffset, data);
        WrittenNext(before, disk, i, globalOffset, data, file);
        var fileEnd := currentPos + lengths[i];
        if globalOffset < fileEnd && globalOffset + bytesToWrite > currentPos {
          var writeAt := if globalOffset > currentPos then globalOffset - currentPos else 0;
          var startInPiece := if currentPos > globalOffset then currentPos - globalOffset else 0;
          var endInPiece := startInPiece + (lengths[i] - writeAt);
          if endInPiece > bytesToWrite {
            endInPiece := bytesToWrite;
          }
          FileWrite(disk[i], currentPos, globalOffset, data, writeAt, startInPiece, endInPiece);
          var toWrite := data[startInPiece..endInPiece];
          if i in fault {
            var reached := Min(fault[i], |toWrite|);
            PartialWrite(disk[i], currentPos, globalOffset, data, writeAt, startInPiece, endInPiece, reached);
            WrittenPartly(before, disk, i, globalOffset, data, Splice(disk[i], writeAt, toWrite[..reached]));
            disk := disk[i := Splice(disk[i], writeAt, toWrite[..reached])];
            assert TouchesFile(before, i, globalOffset, bytesToWrite);
            return false;
          }
          disk := disk[i := Splice(disk[i], writeAt, toWrite)];
          dataOffset := dataOffset + |toWrite|;
        } else {
          FileSkip(disk[i], currentPos, globalOffset, data);
          assert disk[i := file] == disk;
        }
        FaultFreeNext(before, i, globalOffset, bytesToWrite, fault);
        currentPos := fileEnd;
        i := i + 1;
      }
      WrittenAll(before, disk, globalOffset, data);
      ok := dataOffset == bytesToWrite;
    }
  }
}
