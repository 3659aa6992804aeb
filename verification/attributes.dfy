/** How the attribute-carrying replies agree with one another. */
module Attributes {
  import opened Fuse
  import opened Inodes
  import opened NullFS

  /** `setattr` applies none of the requested changes: whatever it is asked
      for, it answers exactly what `getattr` answers for the same inode. */
  lemma SetAttrIsGetAttr(
    ino: u64,
    mode: Option<u32>,
    uid: Option<u32>,
    gid: Option<u32>,
    size: Option<u64>,
    atime: Option<Timespec>,
    mtime: Option<Timespec>,
    fh: Option<u64>,
    crtime: Option<Timespec>,
    chgtime: Option<Timespec>,
    bkuptime: Option<Timespec>,
    flags: Option<u32>)
    ensures SetAttr(ino, mode, uid, gid, size, atime, mtime, fh, crtime, chgtime, bkuptime, flags)
      == GetAttr(ino)
  {
  }

  /** The entry that `lookup`, `mknod` and `create` hand out for a name
      carries the same attributes and validity window as `getattr` on the
      inode it names. */
  lemma EntriesMatchGetAttr(parent: u64, name: string, mode: u32, rdev: u32, flags: u32)
    requires (parent, name) in Names
    ensures var child := GetAttr(Names[(parent, name)]);
      && child.Attr?
      && Lookup(parent, name).attr == child.attr && Lookup(parent, name).ttl == child.ttl
      && MkNod(parent, name, mode, rdev).attr == child.attr
      && Create(parent, name, mode, flags).attr == child.attr
  {
  }
}
