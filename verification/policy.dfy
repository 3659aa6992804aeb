/** The error policy of the null filesystem, written once for every request
    rather than per callback, and the proof that the callbacks follow it.

    Errors fall into three kinds:
    - identity: the inode, or the (parent, name) pair, names nothing;
    - kind: the inode exists but the operation does not apply to it, or a
      new name would have to be created;
    - capacity: an extended attribute value is asked for with a buffer,
      which can never be filled because no attribute exists.
    An identity error is always ENOENT. A kind error is EPERM, except that
    `read`, `write` and `readdir` collapse it into ENOENT. */
module Policy {
  import opened Fuse
  import opened Inodes
  import opened Dispatch

  /** The kind of inode an operation applies to. */
  datatype Target = AnyKind | DirKind | FileKind

  predicate Fits(kind: FileType, target: Target) {
    match target
    case AnyKind => true
    case DirKind => kind == Directory
    case FileKind => kind == RegularFile
  }

  /** The inode a request addresses, or None when it addresses a name. */
  function Addressed(req: Request): Option<u64> {
    if req.Lookup? || req.Create? || req.MkNod? then None else Some(req.ino)
  }

  function Wants(req: Request): Target {
    if req.Read? || req.Write? || req.Flush? || req.Release? || req.FSync? || req.Open? then FileKind
    else if req.ReadDir? || req.ReleaseDir? || req.FSyncDir? || req.OpenDir? then DirKind
    else AnyKind
  }

  /** The errno of a kind error: EPERM, or ENOENT for the byte and listing operations. */
  function KindErrno(req: Request): int {
    if req.Read? || req.Write? || req.ReadDir? then ENOENT else EPERM
  }

  /** The errno an inode-addressed request must get, or None for success. */
  function InodeCheck(ino: u64, target: Target, kindErrno: int): Option<int> {
    if ino !in Table then Some(ENOENT)
    else if !Fits(Table[ino].kind, target) then Some(kindErrno)
    else None
  }

  /** The errno a request must get, or None when it must succeed. */
  function Expected(req: Request): Option<int> {
    match req
    case Lookup(parent, name) => if (parent, name) in Names then None else Some(ENOENT)
    case Create(parent, name, _, _) => if (parent, name) in Names then None else Some(EPERM)
    case MkNod(parent, name, _, _) => if (parent, name) in Names then None else Some(EPERM)
    case GetXattr(ino, _, size) => if 0 < size then Some(ERANGE) else InodeCheck(ino, AnyKind, EPERM)
    case _ => InodeCheck(req.ino, Wants(req), KindErrno(req))
  }

  /** Every callback fails exactly when the policy demands an error, and
      with the errno the policy demands. */
  lemma HandleFollowsPolicy(req: Request)
    ensures Handle(req).Err? <==> Expected(req).Some?
    ensures Handle(req).Err? ==> Handle(req).code == Expected(req).value
  {
  }

  /** Only the three errno values of the taxonomy ever occur, and ERANGE only
      from an extended attribute query. */
  lemma ErrorsAreClassified(req: Request)
    ensures Handle(req).Err? ==> Handle(req).code in {ENOENT, EPERM, ERANGE}
    ensures Handle(req).Err? && Handle(req).code == ERANGE ==> req.GetXattr? && 0 < req.size
  {
  }

  /** Identity errors: every inode-addressed request on an inode other than
      1 and 2 gets ENOENT, unless it is an attribute query with a buffer. */
  lemma UnknownInodeIsENOENT(req: Request)
    requires Addressed(req).Some? && Addressed(req).value !in Table
    requires !(req.GetXattr? && 0 < req.size)
    ensures Handle(req) == Err(ENOENT)
  {
  }

  /** Kind errors: an existing inode of the wrong kind gets EPERM from every
      operation except `read`, `write` and `readdir`. */
  lemma WrongKindIsEPERM(req: Request)
    requires Addressed(req).Some? && Addressed(req).value in Table
    requires !Fits(Table[req.ino].kind, Wants(req))
    requires !(req.Read? || req.Write? || req.ReadDir?)
    ensures Handle(req) == Err(EPERM)
  {
  }

  /** `read` and `write` on the directory and `readdir` on the file answer as
      if the inode did not exist. */
  lemma WrongKindByteOpIsENOENT(req: Request)
    requires req.Read? || req.Write? || req.ReadDir?
    requires req.ino in Table && !Fits(Table[req.ino].kind, Wants(req))
    ensures Handle(req) == Err(ENOENT)
  {
  }

  /** Name-addressed requests: `lookup` reports a missing name as an identity
      error, while `create` and `mknod` refuse any new name as a kind error. */
  lemma NameErrors(parent: u64, name: string, mode: u32, flags: u32, rdev: u32)
    requires (parent, name) !in Names
    ensures Handle(Lookup(parent, name)) == Err(ENOENT)
    ensures Handle(Create(parent, name, mode, flags)) == Err(EPERM)
    ensures Handle(MkNod(parent, name, mode, rdev)) == Err(EPERM)
  {
  }
}
