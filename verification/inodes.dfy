/** The two compiled-in inodes of the null filesystem and the namespace they
    form: the root directory (inode 1) holding one regular file, `null`
    (inode 2). Nothing here ever changes while the filesystem is mounted. */
module Inodes {
  import opened Fuse

  const ROOT_INO: u64 := 1
  const NULL_INO: u64 := 2
  const NULL_NAME: string := "null"

  /** How long the kernel may cache the attributes of a reply: one second. */
  const TTL: Timespec := Timespec(1, 0)

  /** Every timestamp of both inodes. */
  const EPOCH: Timespec := Timespec(0, 0)

  /** A permission word written as its three octal digits. */
  function Perm(user: nat, group: nat, other: nat): (r: u16)
    requires user < 8 && group < 8 && other < 8
    ensures r % 8 == other && r / 8 % 8 == group && r / 64 == user
  {
    user * 64 + group * 8 + other
  }

  const DIR_ATTR: FileAttr := FileAttr(
    ino := ROOT_INO,
    size := 0,
    blocks := 0,
    atime := EPOCH,
    mtime := EPOCH,
    ctime := EPOCH,
    crtime := EPOCH,
    kind := Directory,
    perm := Perm(7, 7, 7),
    nlink := 2,
    uid := 0,
    gid := 0,
    rdev := 0,
    flags := 0)

  const NULL_ATTR: FileAttr := FileAttr(
    ino := NULL_INO,
    size := 0,
    blocks := 1,
    atime := EPOCH,
    mtime := EPOCH,
    ctime := EPOCH,
    crtime := EPOCH,
    kind := RegularFile,
    perm := Perm(6, 6, 6),
    nlink := 1,
    uid := 0,
    gid := 0,
    rdev := 0,
    flags := 0)

  /** The inode table: every inode number that exists, with its attributes. */
  const Table: map<u64, FileAttr> := map[ROOT_INO := DIR_ATTR, NULL_INO := NULL_ATTR]

  /** The directory table: (parent inode, name) to child inode. */
  const Names: map<(u64, string), u64> := map[(ROOT_INO, NULL_NAME) := NULL_INO]

  predicate IsDir(ino: u64) {
    ino in Table && Table[ino].kind == Directory
  }

  predicate IsFile(ino: u64) {
    ino in Table && Table[ino].kind == RegularFile
  }

  /** The fixed attributes: a world-writable root directory with two links and
      a world-readable-and-writable empty file with one link, all times zero. */
  lemma AttrConstants()
    ensures DIR_ATTR.kind == Directory && DIR_ATTR.size == 0
    ensures DIR_ATTR.perm == 0x1FF && DIR_ATTR.nlink == 2
    ensures NULL_ATTR.kind == RegularFile && NULL_ATTR.size == 0 && NULL_ATTR.blocks == 1
    ensures NULL_ATTR.perm == 0x1B6 && NULL_ATTR.nlink == 1
    ensures forall a :: a in Table.Values ==>
      a.atime == a.mtime == a.ctime == a.crtime == Timespec(0, 0)
  {
  }

  /** The namespace is well formed: each inode's attributes carry its own
      number, exactly one directory and one file exist, and every name in the
      directory table sits in a directory and leads to an existing inode. */
  lemma TableWellFormed()
    ensures Table.Keys == {1, 2}
    ensures forall ino :: ino in Table ==> Table[ino].ino == ino
    ensures forall ino :: IsDir(ino) <==> ino == 1
    ensures forall ino :: IsFile(ino) <==> ino == 2
    ensures forall k :: k in Names ==> IsDir(k.0) && Names[k] in Table
    ensures forall p, n :: (p, n) in Names <==> p == 1 && n == "null"
  {
  }
}
