/** The slice of the FUSE protocol that the null filesystem speaks: the
    fixed-width integers of its callback signatures, the attribute and
    directory-entry records, and the one reply each callback sends. */
module Fuse {

  const U32_LIMIT: int := 0x1_0000_0000
  const U64_LIMIT: int := 0x1_0000_0000_0000_0000
  const I32_LIMIT: int := 0x8000_0000
  const I64_LIMIT: int := 0x8000_0000_0000_0000

  type u8 = x: int | 0 <= x < 0x100
  type u16 = x: int | 0 <= x < 0x1_0000
  type u32 = x: int | 0 <= x < U32_LIMIT
  type u64 = x: int | 0 <= x < U64_LIMIT
  type i32 = x: int | -I32_LIMIT <= x < I32_LIMIT
  type i64 = x: int | -I64_LIMIT <= x < I64_LIMIT

  /** Rust's `Option`, for the optional fields of a `setattr` request. */
  datatype Option<T> = None | Some(value: T)

  /** A point in time or a duration; only ever a constant here. */
  datatype Timespec = Timespec(sec: i64, nsec: i32)

  datatype FileType =
    | NamedPipe
    | CharDevice
    | BlockDevice
    | Directory
    | RegularFile
    | Symlink
    | Socket

  /** The inode attributes a reply carries. */
  datatype FileAttr = FileAttr(
    ino: u64,
    size: u64,
    blocks: u64,
    atime: Timespec,
    mtime: Timespec,
    ctime: Timespec,
    crtime: Timespec,
    kind: FileType,
    perm: u16,
    nlink: u32,
    uid: u32,
    gid: u32,
    rdev: u32,
    flags: u32)

  /** One `reply.add(ino, offset, kind, name)` of a directory listing; `offset`
      is the cookie from which the listing resumes after this entry. */
  datatype DirEntry = DirEntry(ino: u64, offset: i64, kind: FileType, name: string)

  /** The errno values of the C library (identical on Linux and macOS). */
  const EPERM: int := 1
  const ENOENT: int := 2
  const ERANGE: int := 34

  /** The one answer a callback sends back through its reply object. */
  datatype Reply =
    | Entry(ttl: Timespec, attr: FileAttr, generation: u64)
    | Attr(ttl: Timespec, attr: FileAttr)
    | Data(data: seq<u8>)
    | Written(count: u32)
    | Opened(fh: u64, flags: u32)
    | Created(ttl: Timespec, attr: FileAttr, generation: u64, fh: u64, flags: u32)
    | Size(size: u32)
    | Dir(entries: seq<DirEntry>)
    | Ok
    | Err(code: int)

  /** Rust's `n as u32` for a length `n`: the low 32 bits. */
  function TruncateU32(n: nat): (r: u32)
    ensures n < U32_LIMIT ==> r == n
    ensures (r - n) % U32_LIMIT == 0
  {
    n % U32_LIMIT
  }

  /** Rust's `x as usize` for an `i64` on a 64-bit target: the same bits read
      as unsigned, so a negative value becomes a very large one. */
  function I64AsUsize(x: i64): (r: nat)
    ensures r < U64_LIMIT
    ensures (r - x) % U64_LIMIT == 0
    ensures 0 <= x ==> r == x
    ensures x < 0 ==> r >= I64_LIMIT
  {
    if x < 0 then x + U64_LIMIT else x
  }
}
