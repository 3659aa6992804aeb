/** The kernel bridge's view of the null filesystem: a request names one
    callback and carries its arguments, and the handler answers each request
    on its own. Since the handler has no fields, serving a sequence of
    requests is answering each one independently of all the others. */
module Dispatch {
  import opened Fuse
  import opened Inodes
  import NullFS

  /** One call into the `Filesystem` implementation, with every argument the
      callback receives apart from the request context and the reply object. */
  datatype Request =
    | Lookup(parent: u64, name: string)
    | GetAttr(ino: u64)
    | SetAttr(
        ino: u64,
        setMode: Option<u32>,
        setUid: Option<u32>,
        setGid: Option<u32>,
        setSize: Option<u64>,
        setAtime: Option<Timespec>,
        setMtime: Option<Timespec>,
        setFh: Option<u64>,
        setCrtime: Option<Timespec>,
        setChgtime: Option<Timespec>,
        setBkuptime: Option<Timespec>,
        setFlags: Option<u32>)
    | Read(ino: u64, fh: u64, offset: i64, size: u32)
    | ReadDir(ino: u64, fh: u64, offset: i64)
    | Write(ino: u64, fh: u64, offset: i64, data: seq<u8>, flags: u32)
    | Create(parent: u64, name: string, mode: u32, flags: u32)
    | MkNod(parent: u64, name: string, mode: u32, rdev: u32)
    | Flush(ino: u64, fh: u64, lockOwner: u64)
    | Release(ino: u64, fh: u64, flags: u32, lockOwner: u64, flush: bool)
    | FSync(ino: u64, fh: u64, datasync: bool)
    | Open(ino: u64, flags: u32)
    | ReleaseDir(ino: u64, fh: u64, flags: u32)
    | FSyncDir(ino: u64, fh: u64, datasync: bool)
    | OpenDir(ino: u64, flags: u32)
    | Access(ino: u64, mask: u32)
    | GetXattr(ino: u64, name: string, size: u32)

  /** Routes a request to its callback. */
  function Handle(req: Request): Reply {
    match req
    case Lookup(parent, name) => NullFS.Lookup(parent, name)
    case GetAttr(ino) => NullFS.GetAttr(ino)
    case SetAttr(ino, mode, uid, gid, size, atime, mtime, fh, crtime, chgtime, bkuptime, flags) =>
      NullFS.SetAttr(ino, mode, uid, gid, size, atime, mtime, fh, crtime, chgtime, bkuptime, flags)
    case Read(ino, fh, offset, size) => NullFS.Read(ino, fh, offset, size)
    case ReadDir(ino, fh, offset) => NullFS.ReadDir(ino, fh, offset)
    case Write(ino, fh, offset, data, flags) => NullFS.Write(ino, fh, offset, data, flags)
    case Create(parent, name, mode, flags) => NullFS.Create(parent, name, mode, flags)
    case MkNod(parent, name, mode, rdev) => NullFS.MkNod(parent, name, mode, rdev)
    case Flush(ino, fh, lockOwner) => NullFS.Flush(ino, fh, lockOwner)
    case Release(ino, fh, flags, lockOwner, flush) => NullFS.Release(ino, fh, flags, lockOwner, flush)
    case FSync(ino, fh, datasync) => NullFS.FSync(ino, fh, datasync)
    case Open(ino, flags) => NullFS.Open(ino, flags)
    case ReleaseDir(ino, fh, flags) => NullFS.ReleaseDir(ino, fh, flags)
    case FSyncDir(ino, fh, datasync) => NullFS.FSyncDir(ino, fh, datasync)
    case OpenDir(ino, flags) => NullFS.OpenDir(ino, flags)
    case Access(ino, mask) => NullFS.Access(ino, mask)
    case GetXattr(ino, name, size) => NullFS.GetXattr(ino, name, size)
  }

  /** The replies to a sequence of requests served one after another. */
  function Serve(trace: seq<Request>): (replies: seq<Reply>)
    ensures |replies| == |trace|
    ensures forall i :: 0 <= i < |trace| ==> replies[i] == Handle(trace[i])
  {
    if trace == [] then []
    else Serve(trace[..|trace| - 1]) + [Handle(trace[|trace| - 1])]
  }

  /** Serving two sequences back to back gives the replies of serving each
      on its own. This holds by construction: `Serve` answers every request
      with `Handle` alone, as the fieldless handler does, so the lemma spells
      out that design rather than deriving it. */
  lemma ServeIsHistoryFree(earlier: seq<Request>, later: seq<Request>)
    ensures Serve(earlier + later) == Serve(earlier) + Serve(later)
  {
  }

  /** A read of the file after any history at all, including writes to it,
      still returns no data. */
  lemma ReadAfterAnyHistory(history: seq<Request>, fh: u64, offset: i64, size: u32)
    ensures Serve(history + [Read(NULL_INO, fh, offset, size)])[|history|] == Data([])
  {
  }

  /** However much has been written to it, the file still reports size 0. */
  lemma SizeStaysZero(history: seq<Request>)
    ensures Serve(history + [GetAttr(NULL_INO)])[|history|].attr.size == 0
  {
  }

  /** Look up the file, open it read-write, write "hello", read it back and
      close it: the write counts five bytes, the read gets nothing back. */
  lemma WriteThenReadSession()
    ensures Serve([
        Lookup(ROOT_INO, "null"),
        Open(NULL_INO, 2),
        Write(NULL_INO, 2, 0, [0x68, 0x65, 0x6C, 0x6C, 0x6F], 0),
        Read(NULL_INO, 2, 0, 5),
        Release(NULL_INO, 2, 2, 0, true)])
      == [Entry(TTL, NULL_ATTR, 0), Opened(NULL_INO, 2), Written(5), Data([]), Ok]
  {
  }
}
