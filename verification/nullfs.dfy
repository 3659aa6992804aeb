/** The `Filesystem` callbacks of the null filesystem, one pure function per
    callback from its arguments to the single reply it sends. The handler has
    no fields, so nothing but the arguments and the constant inode table
    decides a reply. Every contract is stated against the inode table
    `Inodes.Table` and the directory table `Inodes.Names`:
    - an inode that is not in the table gets ENOENT;
    - an inode of the wrong kind gets EPERM, except for `read`, `write` and
      `readdir`, which answer ENOENT there too. */
module NullFS {
  import opened Fuse
  import opened Inodes

  function Lookup(parent: u64, name: string): (r: Reply)
    ensures r.Entry? <==> (parent, name) in Names
    ensures r.Entry? ==> r.attr == Table[Names[(parent, name)]]
    ensures r.Entry? ==> r.ttl == TTL && r.generation == 0
    ensures !r.Entry? ==> r == Err(ENOENT)
  {
    if parent == 1 && name == "null" then Entry(TTL, NULL_ATTR, 0) else Err(ENOENT)
  }

  function GetAttr(ino: u64): (r: Reply)
    ensures r.Attr? <==> ino in Table
    ensures r.Attr? ==> r.attr == Table[ino] && r.attr.ino == ino && r.ttl == TTL
    ensures !r.Attr? ==> r == Err(ENOENT)
  {
    match ino
    case 1 => Attr(TTL, DIR_ATTR)
    case 2 => Attr(TTL, NULL_ATTR)
    case _ => Err(ENOENT)
  }

  /** Accepts every requested change and applies none of them. */
  function SetAttr(
    ino: u64,
    mode: Option<u32>,
    uid: Option<u32>,
    gid: Option<u32>,
    size: Option<u64>,
    atime: Option<Timespec>,
    mtime: Option<Timespec>,
    fh: Option<u64>,
    crtime: Option<Timespec>,
    chgtime: Option<Timespec>,
    bkuptime: Option<Timespec>,
    flags: Option<u32>): (r: Reply)
    ensures r.Attr? <==> ino in Table
    ensures r.Attr? ==> r.attr == Table[ino] && r.ttl == TTL
    ensures r.Attr? && size.Some? && size.value != 0 ==> r.attr.size == 0
    ensures !r.Attr? ==> r == Err(ENOENT)
  {
    match ino
    case 1 => Attr(TTL, DIR_ATTR)
    case 2 => Attr(TTL, NULL_ATTR)
    case _ => Err(ENOENT)
  }

  /** The file reads as empty wherever and however much is asked for. */
  function Read(ino: u64, fh: u64, offset: i64, size: u32): (r: Reply)
    ensures r.Data? <==> IsFile(ino)
    ensures r.Data? ==> |r.data| == 0
    ensures !r.Data? ==> r == Err(ENOENT)
  {
    if ino == 2 then Data([]) else Err(ENOENT)
  }

  /** The `vec!` of the root directory's entries, in listing order: the
      directory itself, its parent (the root is its own parent) and the file. */
  const ENTRIES: seq<(u64, FileType, string)> :=
    [(1, Directory, "."), (1, Directory, ".."), (2, RegularFile, "null")]

  /** What the `for` loop of `readdir` adds, starting at index `i`: each
      entry together with the cookie `i + 1`, the index of the entry after it. */
  function AddFrom(entries: seq<(u64, FileType, string)>, i: nat): (r: seq<DirEntry>)
    requires |entries| < I64_LIMIT
    ensures |r| == if i < |entries| then |entries| - i else 0
    ensures forall j :: 0 <= j < |r| ==>
      && r[j].offset == i + j + 1
      && (r[j].ino, r[j].kind, r[j].name) == entries[i + j]
    decreases |entries| - i
  {
    if |entries| <= i then []
    else
      var (ino, kind, name) := entries[i];
      [DirEntry(ino, i + 1, kind, name)] + AddFrom(entries, i + 1)
  }

  /** Lists the root directory from cookie `offset` on; the cookie is
      reinterpreted as unsigned, so a negative one skips every entry. */
  function ReadDir(ino: u64, fh: u64, offset: i64): (r: Reply)
    ensures r.Dir? <==> IsDir(ino)
    ensures !r.Dir? ==> r == Err(ENOENT)
    ensures r.Dir? && 0 <= offset <= |ENTRIES| ==> |r.entries| == |ENTRIES| - offset
    ensures r.Dir? && (offset < 0 || |ENTRIES| <= offset) ==> r.entries == []
    ensures r.Dir? ==> forall j :: 0 <= j < |r.entries| ==>
      && r.entries[j].offset == offset + j + 1
      && (r.entries[j].ino, r.entries[j].kind, r.entries[j].name) == ENTRIES[offset + j]
  {
    if ino != 1 then Err(ENOENT)
    else Dir(AddFrom(ENTRIES, I64AsUsize(offset)))
  }

  /** Every byte is accepted and thrown away; the count is `data.len() as u32`. */
  function Write(ino: u64, fh: u64, offset: i64, data: seq<u8>, flags: u32): (r: Reply)
    ensures r.Written? <==> IsFile(ino)
    ensures r.Written? && |data| < U32_LIMIT ==> r.count == |data|
    ensures r.Written? ==> (r.count - |data|) % U32_LIMIT == 0
    ensures !r.Written? ==> r == Err(ENOENT)
  {
    if ino != 2 then Err(ENOENT)
    else Written(TruncateU32(|data|))
  }

  /** Creating the name that already exists hands out that file again; every
      other name is refused, as the namespace is fixed. */
  function Create(parent: u64, name: string, mode: u32, flags: u32): (r: Reply)
    ensures r.Created? <==> (parent, name) in Names
    ensures r.Created? ==> r.attr == Table[Names[(parent, name)]] && r.fh == r.attr.ino
    ensures r.Created? ==> r.flags == flags && r.ttl == TTL && r.generation == 0
    ensures !r.Created? ==> r == Err(EPERM)
  {
    if parent == 1 && name == "null" then Created(TTL, NULL_ATTR, 0, 2, flags)
    else Err(EPERM)
  }

  function MkNod(parent: u64, name: string, mode: u32, rdev: u32): (r: Reply)
    ensures r.Entry? <==> (parent, name) in Names
    ensures r.Entry? ==> r.attr == Table[Names[(parent, name)]]
    ensures r.Entry? ==> r.ttl == TTL && r.generation == 0
    ensures !r.Entry? ==> r == Err(EPERM)
  {
    if parent == 1 && name == "null" then Entry(TTL, NULL_ATTR, 0) else Err(EPERM)
  }

  /** The shared answer of `flush`, `release` and `fsync`. */
  function FileOnly(ino: u64): Reply
  {
    match ino
    case 1 => Err(EPERM)
    case 2 => Ok
    case _ => Err(ENOENT)
  }

  /** The shared answer of `releasedir` and `fsyncdir`. */
  function DirOnly(ino: u64): Reply
  {
    match ino
    case 1 => Ok
    case 2 => Err(EPERM)
    case _ => Err(ENOENT)
  }

  function Flush(ino: u64, fh: u64, lockOwner: u64): (r: Reply)
    ensures r == Ok <==> IsFile(ino)
    ensures r != Ok ==> r == Err(if ino in Table then EPERM else ENOENT)
  {
    FileOnly(ino)
  }

  function Release(ino: u64, fh: u64, flags: u32, lockOwner: u64, flush: bool): (r: Reply)
    ensures r == Ok <==> IsFile(ino)
    ensures r != Ok ==> r == Err(if ino in Table then EPERM else ENOENT)
  {
    FileOnly(ino)
  }

  function FSync(ino: u64, fh: u64, datasync: bool): (r: Reply)
    ensures r == Ok <==> IsFile(ino)
    ensures r != Ok ==> r == Err(if ino in Table then EPERM else ENOENT)
  {
    FileOnly(ino)
  }

  /** The handle of the opened file is its inode number. */
  function Open(ino: u64, flags: u32): (r: Reply)
    ensures r.Opened? <==> IsFile(ino)
    ensures r.Opened? ==> r.fh == ino && r.flags == flags
    ensures !r.Opened? ==> r == Err(if ino in Table then EPERM else ENOENT)
  {
    match ino
    case 1 => Err(EPERM)
    case 2 => Opened(2, flags)
    case _ => Err(ENOENT)
  }

  function ReleaseDir(ino: u64, fh: u64, flags: u32): (r: Reply)
    ensures r == Ok <==> IsDir(ino)
    ensures r != Ok ==> r == Err(if ino in Table then EPERM else ENOENT)
  {
    DirOnly(ino)
  }

  function FSyncDir(ino: u64, fh: u64, datasync: bool): (r: Reply)
    ensures r == Ok <==> IsDir(ino)
    ensures r != Ok ==> r == Err(if ino in Table then EPERM else ENOENT)
  {
    DirOnly(ino)
  }

  /** The handle of the opened directory is its inode number. */
  function OpenDir(ino: u64, flags: u32): (r: Reply)
    ensures r.Opened? <==> IsDir(ino)
    ensures r.Opened? ==> r.fh == ino && r.flags == flags
    ensures !r.Opened? ==> r == Err(if ino in Table then EPERM else ENOENT)
  {
    match ino
    case 1 => Opened(1, flags)
    case 2 => Err(EPERM)
    case _ => Err(ENOENT)
  }

  /** No permission bit is evaluated: any mask is granted on an existing inode. */
  function Access(ino: u64, mask: u32): (r: Reply)
    ensures r == Ok <==> ino in Table
    ensures r != Ok ==> r == Err(ENOENT)
  {
    match ino
    case 1 => Ok
    case 2 => Ok
    case _ => Err(ENOENT)
  }

  /** No extended attribute exists: a size query reports length 0, and any
      buffer offered for a value is refused. The buffer size is checked before
      the inode, so an unknown inode with a non-zero size gets ERANGE. */
  function GetXattr(ino: u64, name: string, size: u32): (r: Reply)
    ensures 0 < size ==> r == Err(ERANGE)
    ensures size == 0 ==> (r.Size? <==> ino in Table)
    ensures r.Size? ==> r.size == 0
    ensures size == 0 && !r.Size? ==> r == Err(ENOENT)
  {
    if size == 0 then
      match ino
      case 1 => Size(0)
      case 2 => Size(0)
      case _ => Err(ENOENT)
    else Err(ERANGE)
  }
}
