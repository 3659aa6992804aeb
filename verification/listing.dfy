/** The root directory listing: its cookies, how a listing resumes from a
    cookie, and how it agrees with `lookup` and `getattr`. */
module Listing {
  import opened Fuse
  import opened Inodes
  import opened NullFS

  /** A whole listing, and a listing resumed from the cookie of its second entry. */
  lemma ListingFromStart(fh: u64)
    ensures ReadDir(ROOT_INO, fh, 0) == Dir([
      DirEntry(1, 1, Directory, "."),
      DirEntry(1, 2, Directory, ".."),
      DirEntry(2, 3, RegularFile, "null")])
    ensures ReadDir(ROOT_INO, fh, 2) == Dir([DirEntry(2, 3, RegularFile, "null")])
  {
  }

  /** Cookies grow strictly along a listing, and each lies between 1 and the
      number of entries. */
  lemma CookiesIncrease(fh: u64, offset: i64)
    ensures var es := ReadDir(ROOT_INO, fh, offset).entries;
      && (forall i, j :: 0 <= i < j < |es| ==> es[i].offset < es[j].offset)
      && (forall i :: 0 <= i < |es| ==> 1 <= es[i].offset <= |ENTRIES|)
  {
  }

  /** Resuming from the cookie of any entry of a listing yields exactly the
      entries that followed it, so a listing cut short can be continued. */
  lemma ResumeFromCookie(fh: u64, offset: i64, j: nat, fh': u64)
    requires j < |ReadDir(ROOT_INO, fh, offset).entries|
    ensures var es := ReadDir(ROOT_INO, fh, offset).entries;
      ReadDir(ROOT_INO, fh', es[j].offset) == Dir(es[j + 1..])
  {
  }

  /** A cookie past the end, or a negative one, lists nothing. */
  lemma PastTheEnd(fh: u64, offset: i64)
    requires offset < 0 || |ENTRIES| <= offset
    ensures ReadDir(ROOT_INO, fh, offset) == Dir([])
  {
  }

  /** The listing agrees with the namespace: every entry names an existing
      inode of the kind it claims; `.` and `..` are the root itself; every
      other entry is a name `lookup` resolves to the same inode; and every
      name `lookup` resolves in the root is listed. */
  lemma ListingMatchesNamespace(fh: u64)
    ensures var es := ReadDir(ROOT_INO, fh, 0).entries;
      && (forall e :: e in es ==> e.ino in Table && Table[e.ino].kind == e.kind)
      && (forall e :: e in es ==> GetAttr(e.ino).Attr? && GetAttr(e.ino).attr.kind == e.kind)
      && (forall e :: e in es && e.name in {".", ".."} ==> e.ino == ROOT_INO)
      && (forall e :: e in es && e.name !in {".", ".."} ==>
            Lookup(ROOT_INO, e.name).Entry? && Lookup(ROOT_INO, e.name).attr.ino == e.ino)
      && (forall n :: (ROOT_INO, n) in Names ==> exists e :: e in es && e.name == n)
  {
  }
}
