/**
 * Inode placement of inode.c: NINODES_BLOCK inodes to a block of the inode table. Reading,
 * updating and removing an inode by number is reading and writing one entry of a list.
 */
module InodeTable {
  /** A block of 512 bytes holds two inodes of 256. */
  const NINODES_BLOCK: nat := 2

  datatype InodeData = InodeData(iNum: int, size: int, isDir: bool, ptrs: seq<nat>, numBlocks: nat)

  type TableBlock = b: seq<InodeData> | |b| == NINODES_BLOCK
    witness [InodeData(0, 0, false, [], 0), InodeData(0, 0, false, [], 0)]

  function GetInodeIndex(n: nat): nat {
    if n >= NINODES_BLOCK then n % NINODES_BLOCK else n
  }

  /** Relative to the first block of the table. */
  function GetInodeBlockIndex(n: nat): nat {
    n / NINODES_BLOCK
  }

  /** Every number has a place of its own, and every place a number. */
  lemma PlacesAreUnique(n: nat, m: nat, block: nat, index: nat)
    requires index < NINODES_BLOCK
    ensures GetInodeIndex(n) < NINODES_BLOCK
    ensures GetInodeIndex(n) == GetInodeIndex(m) && GetInodeBlockIndex(n) == GetInodeBlockIndex(m) <==> n == m
    ensures GetInodeBlockIndex(NINODES_BLOCK * block + index) == block
    ensures GetInodeIndex(NINODES_BLOCK * block + index) == index
  {
  }

  function Entry(table: seq<TableBlock>, n: nat): InodeData
    requires n < NINODES_BLOCK * |table|
  {
    table[GetInodeBlockIndex(n)][GetInodeIndex(n)]
  }

  /** The table as a list of inodes. */
  function Inodes(table: seq<TableBlock>): (r: seq<InodeData>)
    ensures |r| == NINODES_BLOCK * |table|
    ensures forall n :: 0 <= n < |r| ==> r[n] == Entry(table, n)
  {
    seq(NINODES_BLOCK * |table|, n requires 0 <= n < NINODES_BLOCK * |table| => Entry(table, n))
  }

  /** memset to zero, then size -1 and the number. */
  function Removed(n: nat): InodeData {
    InodeData(n, -1, false, [], 0)
  }

  method StoreInode(table: array<TableBlock>, n: nat, data: InodeData)
    requires n < NINODES_BLOCK * table.Length
    modifies table
    ensures Inodes(table[..]) == Inodes(old(table[..]))[n := data]
  {
    var inodeTable := table[GetInodeBlockIndex(n)];
    inodeTable := inodeTable[GetInodeIndex(n) := data];
    table[GetInodeBlockIndex(n)] := inodeTable;
    ghost var was, now := Inodes(old(table[..])), Inodes(table[..]);
    forall m | 0 <= m < |now| ensures now[m] == was[n := data][m] {
      PlacesAreUnique(n, m, 0, 0);
    }
  }

  method GetInode(table: array<TableBlock>, n: nat) returns (data: InodeData)
    requires n < NINODES_BLOCK * table.Length
    ensures data == Inodes(table[..])[n]
  {
    var inodeTable := table[GetInodeBlockIndex(n)];
    data := inodeTable[GetInodeIndex(n)];
  }

  /** updateInode: the inode goes to the place of its own number. */
  method UpdateInode(table: array<TableBlock>, data: InodeData)
    requires 0 <= data.iNum < NINODES_BLOCK * table.Length
    modifies table
    ensures Inodes(table[..]) == Inodes(old(table[..]))[data.iNum := data]
  {
    StoreInode(table, data.iNum, data);
  }

  /**
   * removeInode: refused for an inode that is not in use, or is of the other kind. Afterwards the
   * inode is not in use, so that the next call is refused.
   */
  method RemoveInode(table: array<TableBlock>, n: nat, isDir: bool) returns (result: int)
    requires n < NINODES_BLOCK * table.Length
    modifies table
    ensures
      var was := Inodes(old(table[..]));
      var refused := was[n].size == -1 || was[n].isDir != isDir;
      && result == (if refused then -1 else 1)
      && Inodes(table[..]) == (if refused then was else was[n := Removed(n)])
    ensures
      var now := Inodes(table[..])[n];
      result == 1 ==> now.size == -1 && now.iNum == n && now.ptrs == [] && now.numBlocks == 0 && !now.isDir
  {
    var inode := GetInode(table, n);
    if inode.size == -1 {
      return -1;
    } else if inode.isDir != isDir {
      return -1;
    }
    StoreInode(table, n, Removed(n));
    return 1;
  }
}
