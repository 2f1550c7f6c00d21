/** Searching a staged image for its hardware marker in overlapping blocks (components/airlink_ota/airlink_ota.c). */
module MarkerScan {
  import opened Bits

  const BLOCK_SIZE := 1024

  predicate OccursAt(s: seq<u8>, marker: seq<u8>, i: nat) {
    i + |marker| <= |s| && s[i..i + |marker|] == marker
  }

  /** Naive substring search. */
  predicate Contains(s: seq<u8>, marker: seq<u8>) {
    exists i: nat :: i <= |s| && OccursAt(s, marker, i)
  }

  lemma OccursInBlock(s: seq<u8>, marker: seq<u8>, offset: nat, count: nat, i: nat)
    requires offset + count <= |s| && i + |marker| <= count
    ensures OccursAt(s[offset..offset + count], marker, i) <==> OccursAt(s, marker, offset + i)
  {
    var inside, whole := s[offset..offset + count][i..i + |marker|], s[offset + i..offset + i + |marker|];
    assert forall k :: 0 <= k < |marker| ==> inside[k] == whole[k];
    assert inside == whole;
  }

  /** memcmp of a marker's length at one place of the block. */
  method Compare(buffer: array<u8>, at: nat, marker: seq<u8>) returns (equal: bool)
    requires at + |marker| <= buffer.Length
    ensures equal <==> buffer[at..at + |marker|] == marker
  {
    var k := 0;
    while k < |marker|
      invariant k <= |marker| && forall j :: 0 <= j < k ==> buffer[at + j] == marker[j]
    {
      if buffer[at + k] != marker[k] {
        assert buffer[at..at + |marker|][k] != marker[k];
        return false;
      }
      k := k + 1;
    }
    return true;
  }

  /** The inner loop: the marker in one block. */
  method InBlock(buffer: array<u8>, count: nat, marker: seq<u8>) returns (found: bool)
    requires count <= buffer.Length
    ensures found <==> Contains(buffer[..count], marker)
  {
    var i := 0;
    while i + |marker| <= count
      invariant forall j: nat :: j < i ==> !OccursAt(buffer[..count], marker, j)
    {
      var equal := Compare(buffer, i, marker);
      assert buffer[..count][i..i + |marker|] == buffer[i..i + |marker|];
      if equal {
        assert OccursAt(buffer[..count], marker, i);
        return true;
      }
      i := i + 1;
    }
    return false;
  }

  /** partition_contains_marker: for every image size, the blocks overlap by just enough that the search finds the
      marker if and only if the image contains it, wherever it lies. A read may fail; then nothing is reported that
      is not there. */
  method PartitionContainsMarker(partition: seq<u8>, imageSize: nat, marker: seq<u8>, readable: nat -> bool)
    returns (found: bool)
    requires 0 < |marker| <= BLOCK_SIZE && imageSize <= |partition|
    ensures found ==> Contains(partition[..imageSize], marker)
    ensures (forall offset :: readable(offset)) ==> (found <==> Contains(partition[..imageSize], marker))
  {
    ghost var image := partition[..imageSize];
    var buffer := new u8[BLOCK_SIZE];
    if imageSize < |marker| {
      return false;
    }
    var step := BLOCK_SIZE - |marker| + 1;
    var offset := 0;
    while offset < imageSize
      invariant forall j: nat :: j < offset ==> !OccursAt(image, marker, j)
    {
      var count := if imageSize - offset < BLOCK_SIZE then imageSize - offset else BLOCK_SIZE;
      if !readable(offset) {
        return false;
      }
      forall k | 0 <= k < count {
        buffer[k] := partition[offset + k];
      }
      assert buffer[..count] == image[offset..offset + count];
      var here := InBlock(buffer, count, marker);
      BlockSays(image, marker, offset, count);
      if here {
        return true;
      }
      if count < BLOCK_SIZE {
        break;
      }
      offset := offset + step;
    }
    return false;
  }

  /** A block decides about every occurrence that lies within it. */
  lemma BlockSays(image: seq<u8>, marker: seq<u8>, offset: nat, count: nat)
    requires offset + count <= |image|
    ensures Contains(image[offset..offset + count], marker) <==>
      exists j: nat :: offset <= j && j + |marker| <= offset + count && OccursAt(image, marker, j)
  {
    var block := image[offset..offset + count];
    if i: nat :| i <= |block| && OccursAt(block, marker, i) {
      OccursInBlock(image, marker, offset, count, i);
      assert OccursAt(image, marker, offset + i);
    }
    if j: nat :| offset <= j && j + |marker| <= offset + count && OccursAt(image, marker, j) {
      OccursInBlock(image, marker, offset, count, j - offset);
      assert OccursAt(block, marker, j - offset);
    }
  }
}
