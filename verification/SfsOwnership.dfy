/** Who owns each disk block.  Every block has at most one role, because the roles form a map;
    the predicate below says that the map, the free bitmap and the block pointers agree. */
module SfsOwnership {
  import opened SfsFormat

  datatype Role =
    | Reserved
    | InodeBlock(ino: int)
    | IndirectBlock(ino: int)
    | DataBlock(ino: int, index: int)

  /** The superblock and the bitmap's own blocks. */
  predicate IsReserved(b: int, n: nat) {
    b == SUPER_LOCATION || MAP_LOCATION <= b < MAP_LOCATION + BitBlocks(n)
  }

  ghost predicate RoleOk(b: int, r: Role, n: nat, ptrs: map<int, seq<int>>, inds: map<int, int>) {
    match r
    case Reserved => IsReserved(b, n)
    case InodeBlock(ino) => b == ino && ino in inds
    case IndirectBlock(ino) => ino in inds && inds[ino] == b
    case DataBlock(ino, i) =>
      ino in ptrs && 0 <= i < |ptrs[ino]| && i < NFILEBLOCKS && ptrs[ino][i] == b
  }

  ghost predicate BitsOk(n: nat, bits: seq<bool>, owner: map<int, Role>) {
    forall b :: 0 <= b < |bits| ==> (bits[b] <==> b >= n || b in owner)
  }

  ghost predicate PointersOk(n: nat, ptrs: map<int, seq<int>>, inds: map<int, int>, owner: map<int, Role>) {
    && ptrs.Keys == inds.Keys
    && (forall b :: IsReserved(b, n) ==> b in owner && owner[b] == Reserved)
    && (forall ino :: ino in inds ==> ino in owner && owner[ino] == InodeBlock(ino))
    && (forall ino :: ino in inds && inds[ino] != 0 ==>
          inds[ino] in owner && owner[inds[ino]] == IndirectBlock(ino))
    && (forall ino :: ino in ptrs ==> |ptrs[ino]| == NFILEBLOCKS)
    && (forall ino, i :: ino in ptrs && 0 <= i < NFILEBLOCKS && ptrs[ino][i] != 0 ==>
          ptrs[ino][i] in owner && owner[ptrs[ino][i]] == DataBlock(ino, i))
  }

  ghost predicate RolesOk(n: nat, ptrs: map<int, seq<int>>, inds: map<int, int>, owner: map<int, Role>) {
    forall b :: b in owner ==> 0 <= b < n && RoleOk(b, owner[b], n, ptrs, inds)
  }

  /** A bit is set exactly for a block past the end of the volume or a block with a role;
      every role is backed by a pointer, and every pointer has its role. */
  ghost predicate OwnOk(n: nat, bits: seq<bool>, ptrs: map<int, seq<int>>, inds: map<int, int>, owner: map<int, Role>) {
    n <= |bits| && BitsOk(n, bits, owner) && PointersOk(n, ptrs, inds, owner) && RolesOk(n, ptrs, inds, owner)
  }

  /** Two pointers to the same nonzero block are the same pointer. */
  lemma OwnedOnce(n: nat, bits: seq<bool>, ptrs: map<int, seq<int>>, inds: map<int, int>, owner: map<int, Role>,
                  ino: int, i: int, ino': int, i': int)
    requires OwnOk(n, bits, ptrs, inds, owner)
    requires ino in ptrs && ino' in ptrs && 0 <= i < NFILEBLOCKS && 0 <= i' < NFILEBLOCKS
    requires ptrs[ino][i] == ptrs[ino'][i'] != 0
    ensures ino == ino' && i == i'
  {
    assert owner[ptrs[ino][i]] == DataBlock(ino, i);
  }

  lemma LinkData(n: nat, bits: seq<bool>, ptrs: map<int, seq<int>>, inds: map<int, int>, owner: map<int, Role>,
                 ino: int, i: int, b: int)
    requires OwnOk(n, bits, ptrs, inds, owner)
    requires ino in ptrs && 0 <= i < NFILEBLOCKS && ptrs[ino][i] == 0
    requires 0 <= b < n && !bits[b]
    ensures OwnOk(n, bits[b := true], ptrs[ino := ptrs[ino][i := b]], inds, owner[b := DataBlock(ino, i)])
  {
  }

  lemma UnlinkData(n: nat, bits: seq<bool>, ptrs: map<int, seq<int>>, inds: map<int, int>, owner: map<int, Role>,
                   ino: int, i: int)
    requires OwnOk(n, bits, ptrs, inds, owner)
    requires ino in ptrs && 0 <= i < NFILEBLOCKS && ptrs[ino][i] != 0
    ensures var b := ptrs[ino][i];
            && 0 <= b < n && bits[b]
            && OwnOk(n, bits[b := false], ptrs[ino := ptrs[ino][i := 0]], inds, owner - {b})
  {
  }

  lemma LinkIndirect(n: nat, bits: seq<bool>, ptrs: map<int, seq<int>>, inds: map<int, int>, owner: map<int, Role>,
                     ino: int, b: int)
    requires OwnOk(n, bits, ptrs, inds, owner)
    requires ino in inds && inds[ino] == 0
    requires 0 <= b < n && !bits[b]
    ensures OwnOk(n, bits[b := true], ptrs, inds[ino := b], owner[b := IndirectBlock(ino)])
  {
  }

  lemma UnlinkIndirect(n: nat, bits: seq<bool>, ptrs: map<int, seq<int>>, inds: map<int, int>, owner: map<int, Role>,
                       ino: int)
    requires OwnOk(n, bits, ptrs, inds, owner)
    requires ino in inds && inds[ino] != 0
    ensures var b := inds[ino];
            && 0 <= b < n && bits[b]
            && OwnOk(n, bits[b := false], ptrs, inds[ino := 0], owner - {b})
  {
  }

  lemma LinkInode(n: nat, bits: seq<bool>, ptrs: map<int, seq<int>>, inds: map<int, int>, owner: map<int, Role>,
                  b: int, p: seq<int>)
    requires OwnOk(n, bits, ptrs, inds, owner)
    requires 0 <= b < n && !bits[b]
    requires |p| == NFILEBLOCKS && forall i :: 0 <= i < NFILEBLOCKS ==> p[i] == 0
    ensures b !in ptrs
    ensures OwnOk(n, bits[b := true], ptrs[b := p], inds[b := 0], owner[b := InodeBlock(b)])
  {
  }

  lemma UnlinkInode(n: nat, bits: seq<bool>, ptrs: map<int, seq<int>>, inds: map<int, int>, owner: map<int, Role>,
                    ino: int)
    requires OwnOk(n, bits, ptrs, inds, owner)
    requires ino in inds && inds[ino] == 0
    requires forall i :: 0 <= i < NFILEBLOCKS ==> ptrs[ino][i] == 0
    ensures 0 <= ino < n && bits[ino]
    ensures OwnOk(n, bits[ino := false], ptrs - {ino}, inds - {ino}, owner - {ino})
  {
  }
}
