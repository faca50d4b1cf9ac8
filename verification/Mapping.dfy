// Carving an aligned superblock out of a mapping of twice its size
// (src/superblock.c, allocate_new_superblock).
module Mapping {
  import opened Layout

  datatype Range = Range(start: nat, len: nat) {
    predicate Contains(x: int) {
      start <= x < start + len
    }
  }

  /** The ranges are nonempty, do not overlap, and together make up `whole`. */
  ghost predicate Tile(ranges: seq<Range>, whole: Range) {
    && (forall i :: 0 <= i < |ranges| ==> ranges[i].len > 0)
    && (forall i, j, x :: 0 <= i < j < |ranges| && ranges[i].Contains(x) ==> !ranges[j].Contains(x))
    && (forall x :: whole.Contains(x) <==> exists i :: 0 <= i < |ranges| && ranges[i].Contains(x))
  }

  /** The first multiple of the superblock size at or after `raw`. */
  function AlignUp(raw: nat): (a: nat)
    ensures a % SUPERBLOCK_SIZE == 0
    ensures raw <= a < raw + SUPERBLOCK_SIZE
  {
    if raw % SUPERBLOCK_SIZE == 0 then raw else raw - raw % SUPERBLOCK_SIZE + SUPERBLOCK_SIZE
  }

  /** `raw` is what mmap returned for 2 * SUPERBLOCK_SIZE bytes; `unmapped` lists the ranges
      given back to the system. What is kept and what is given back tile the mapping. */
  method CarveOut(raw: nat) returns (aligned: nat, unmapped: seq<Range>)
    ensures aligned == AlignUp(raw)
    ensures Tile([Range(aligned, SUPERBLOCK_SIZE)] + unmapped, Range(raw, 2 * SUPERBLOCK_SIZE))
  {
    var alignment := raw % SUPERBLOCK_SIZE;
    var prologueBytes;
    if alignment == 0 {
      prologueBytes := 0;
      aligned := raw;
    } else {
      prologueBytes := SUPERBLOCK_SIZE - alignment;
      aligned := raw + prologueBytes;
    }
    unmapped := [];
    if prologueBytes > 0 {
      unmapped := unmapped + [Range(raw, prologueBytes)];
    }
    unmapped := unmapped + [Range(aligned + SUPERBLOCK_SIZE, SUPERBLOCK_SIZE - prologueBytes)];

    ghost var ranges := [Range(aligned, SUPERBLOCK_SIZE)] + unmapped;
    forall x | Range(raw, 2 * SUPERBLOCK_SIZE).Contains(x)
      ensures exists i :: 0 <= i < |ranges| && ranges[i].Contains(x)
    {
      var i := if x < aligned then 1 else if x < aligned + SUPERBLOCK_SIZE then 0 else |ranges| - 1;
      assert ranges[i].Contains(x);
    }
  }

  /** The superblock that `raw` yields is determined by being aligned and inside the first half. */
  lemma AlignUpUnique(raw: nat, a: nat)
    requires a % SUPERBLOCK_SIZE == 0 && raw <= a < raw + SUPERBLOCK_SIZE
    ensures a == AlignUp(raw)
  {
    var b := AlignUp(raw);
    assert a / SUPERBLOCK_SIZE == b / SUPERBLOCK_SIZE;
  }
}
