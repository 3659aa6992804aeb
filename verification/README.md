# nullfs in Dafny

A model of `nullfs`, a FUSE filesystem that serves exactly two inodes. Inode 1
is the root directory. Inode 2 is a regular file called `null` that accepts
every write, keeps nothing and always reads as empty. The filesystem is the
stateless `NullFS` implementation of the `Filesystem` trait. Each callback
looks at its inode, its (parent, name) pair or its buffer size and sends
exactly one reply: attributes, an entry, data, a written count, an open
handle, a created file, a size, a directory listing, a plain success, or one
of the errors ENOENT, EPERM and ERANGE.

Modules:

- `Fuse` (`fuse.dfy`): the protocol types. It holds the fixed-width integers
  of the callback signatures, `Timespec`, `FileType`, `FileAttr`, `DirEntry`,
  the errno constants and the `Reply` datatype. It also holds the two Rust
  casts the code relies on: `as u32` on a length and `as usize` on an `i64`.
- `Inodes` (`inodes.dfy`): the compiled-in constants `TTL`, `DIR_ATTR` and
  `NULL_ATTR`. It also holds the namespace they form: the inode table `Table`
  and the directory table `Names`, which maps (1, "null") to 2.
- `NullFS` (`nullfs.dfy`): one pure function per callback. Each contract is
  stated against `Table` and `Names`, not against inode literals.
- `Dispatch` (`dispatch.dfy`): a `Request` datatype with one constructor per
  callback, the router `Handle`, and `Serve`, which answers a sequence of
  requests. The handler has no fields, so a request's reply never depends on
  earlier requests.
- `Policy` (`policy.dfy`): the error policy, written once for all requests as
  `Expected`. It comes with the proof that every callback follows it.
- `Listing` (`listing.dfy`): the cookie scheme of `readdir` and how the
  listing agrees with `lookup`.
- `Attributes` (`attributes.dfy`): how `setattr`, `lookup`, `mknod` and
  `create` agree with `getattr`.

Modelling choices:

- `usize` is taken to be 64 bits wide. `offset as usize` on a negative
  `offset` therefore gives `offset + 2^64`, and that skips every entry.
- `data.len() as u32` is modelled as the length modulo 2^32.
- Errno values are those of the C library: EPERM 1, ENOENT 2, ERANGE 34.
- `OsStr` names are modelled as strings.
- `Timespec` is a (seconds, nanoseconds) record used only as a constant.
- The file handle and flag arguments that the code ignores are still
  parameters, so each lemma holds for every value of them.

For `read` and `write` on inode 1 and for `readdir` on inode 2, the code
answers ENOENT rather than EPERM. `Policy.KindErrno` records this exception,
and `Policy.WrongKindByteOpIsENOENT` proves it.

## Model

| member | source | states |
|---|---|---|
| `Fuse.TruncateU32` | src/main.rs:149 | `data.len() as u32` keeps lengths below 2^32 and agrees with the length modulo 2^32 otherwise |
| `Fuse.I64AsUsize` | src/main.rs:127 | `offset as usize` is the unsigned value below 2^64 congruent to the offset modulo 2^64: non-negative offsets are kept, and every negative offset lands at 2^63 or above, past any listing |
| `Inodes.Perm` | src/main.rs:24 | a permission word whose three octal digits are exactly the given user, group and other bits, as in `0o777` and `0o666` |
| `Inodes.AttrConstants` | src/main.rs:13-47 | the root is a directory of size 0, mode 0o777, 2 links; the file is a regular file of size 0, 1 block, mode 0o666, 1 link; every timestamp is 0 |
| `Inodes.TableWellFormed` | src/main.rs:15-58 | the inodes are exactly 1 and 2, and each one's attributes carry its own number; 1 is the only directory and 2 the only file; the root's only name is `null` |
| `NullFS.Lookup` | src/main.rs:52-58 | succeeds exactly for a (parent, name) pair in the directory table, with the child's attributes, TTL 1 s and generation 0; otherwise ENOENT |
| `NullFS.GetAttr` | src/main.rs:60-66 | returns attributes exactly for the inodes in the table: those of the inode asked for, carrying its number, with TTL 1 s; otherwise ENOENT |
| `NullFS.SetAttr` | src/main.rs:68-90 | returns the table's attributes unchanged for an existing inode, even when asked to truncate to a non-zero size; otherwise ENOENT |
| `NullFS.Read` | src/main.rs:92-106 | returns zero bytes exactly when the inode is a regular file, whatever the offset and size; otherwise ENOENT |
| `NullFS.AddFrom` | src/main.rs:121-130 | the loop adds each entry from the start index on, in order, each with the cookie of the entry after it |
| `NullFS.ReadDir` | src/main.rs:108-132 | lists exactly when the inode is a directory; from offset k it gives entries k.. with cookies k+1, k+2, …; a negative or too-large offset gives an empty listing; otherwise ENOENT |
| `NullFS.Write` | src/main.rs:134-150 | accepts exactly when the inode is a regular file and reports all bytes written, modulo 2^32, for any offset; otherwise ENOENT |
| `NullFS.Create` | src/main.rs:152-166 | succeeds exactly for a name in the directory table, with that file's attributes, a handle equal to its inode and the caller's flags echoed; any other name is EPERM |
| `NullFS.MkNod` | src/main.rs:168-182 | succeeds exactly for a name in the directory table, with the child's attributes; any other name is EPERM |
| `NullFS.Flush` | src/main.rs:184-190 | succeeds exactly on a regular file; EPERM on an existing inode of another kind; ENOENT on an unknown inode |
| `NullFS.Release` | src/main.rs:192-207 | succeeds exactly on a regular file; EPERM on an existing inode of another kind; ENOENT on an unknown inode |
| `NullFS.FSync` | src/main.rs:209-215 | succeeds exactly on a regular file; EPERM on an existing inode of another kind; ENOENT on an unknown inode |
| `NullFS.Open` | src/main.rs:217-223 | opens exactly a regular file, with a handle equal to its inode and the flags echoed; EPERM on the directory; ENOENT on an unknown inode |
| `NullFS.ReleaseDir` | src/main.rs:225-231 | succeeds exactly on a directory; EPERM on an existing inode of another kind; ENOENT on an unknown inode |
| `NullFS.FSyncDir` | src/main.rs:233-239 | succeeds exactly on a directory; EPERM on an existing inode of another kind; ENOENT on an unknown inode |
| `NullFS.OpenDir` | src/main.rs:241-247 | opens exactly a directory, with a handle equal to its inode and the flags echoed; EPERM on the file; ENOENT on an unknown inode |
| `NullFS.Access` | src/main.rs:249-255 | grants every mask exactly on the existing inodes; otherwise ENOENT |
| `NullFS.GetXattr` | src/main.rs:257-267 | a non-zero buffer size is ERANGE for every inode, known or not; size 0 reports length 0 exactly on the existing inodes and ENOENT otherwise |
| `Dispatch.Serve` | src/main.rs:49-51 | the handler has no state: the reply to each request in a sequence is the reply to that request alone |
| `Dispatch.ServeIsHistoryFree` | src/main.rs:49-51 | serving two request sequences back to back gives the two reply sequences concatenated |
| `Dispatch.ReadAfterAnyHistory` | src/main.rs:92-106 | a read of the file after any earlier requests, writes included, returns empty data |
| `Dispatch.SizeStaysZero` | src/main.rs:32-47 | after any earlier requests, writes included, the file still reports size 0 |
| `Dispatch.WriteThenReadSession` | src/main.rs:52-223 | lookup of `null`, open, writing "hello", reading 5 bytes and release reply with an entry, a handle, 5 bytes written, empty data and success |
| `Policy.HandleFollowsPolicy` | src/main.rs:51-268 | every callback fails exactly when the identity/kind/capacity policy demands an error, and with the errno it demands |
| `Policy.ErrorsAreClassified` | src/main.rs:10 | only ENOENT, EPERM and ERANGE are ever sent, and ERANGE only for an attribute query with a non-zero buffer |
| `Policy.UnknownInodeIsENOENT` | src/main.rs:60-255 | every inode-addressed request on an inode other than 1 and 2 gets ENOENT, unless it is an attribute query with a buffer |
| `Policy.WrongKindIsEPERM` | src/main.rs:184-247 | an existing inode of the wrong kind gets EPERM from every operation other than read, write and readdir |
| `Policy.WrongKindByteOpIsENOENT` | src/main.rs:101-147 | read or write on the directory and readdir on the file get ENOENT, not EPERM |
| `Policy.NameErrors` | src/main.rs:52-182 | a name outside the namespace is ENOENT for lookup and EPERM for create and mknod |
| `Listing.ListingFromStart` | src/main.rs:121-131 | the full listing is `.`, `..`, `null` with cookies 1, 2, 3; resuming from 2 gives only `null` |
| `Listing.CookiesIncrease` | src/main.rs:127-129 | cookies strictly increase along any listing and lie between 1 and 3 |
| `Listing.ResumeFromCookie` | src/main.rs:127-129 | resuming from the cookie of any listed entry gives exactly the entries after it |
| `Listing.PastTheEnd` | src/main.rs:127 | a negative offset, or one of 3 or more, gives an empty listing |
| `Listing.ListingMatchesNamespace` | src/main.rs:121-125 | each listed entry is an existing inode, and `getattr` on it reports the kind the entry claims; `.` and `..` are the root; every other entry is a name lookup resolves to the same inode, and every name in the root is listed |
| `Attributes.SetAttrIsGetAttr` | src/main.rs:60-90 | for every combination of requested changes, setattr replies exactly what getattr replies for the same inode |
| `Attributes.EntriesMatchGetAttr` | src/main.rs:52-182 | lookup, mknod and create hand out the same attributes as getattr on the inode the name resolves to |

## Left out

- `main()` is left out. It parses the mount point, logs it, builds the mount options `auto_unmount`, `rw` and `fsname=nullfs`, and calls `fuse::mount`. That is command-line and library plumbing, with no decision in it.
- Replies are modelled as values, not as the kernel messages the `fuse` crate serialises them into.
- The kernel's listing buffer is not modelled. When that buffer is full, `reply.add` drops the entry and returns true; the code ignores that result. With a buffer too small for all three entries, the listing sent is therefore shorter than the `Dir` that `NullFS.ReadDir` returns.
- The `Request` context argument and `&mut self` are not modelled: the handler has no fields and never reads the context.
- Concurrency is not modelled: with no shared state, a concurrent call answers like a sequential one.
- The `Filesystem` trait methods that `NullFS` does not override are not modelled. They keep the library's default answers and are not part of this code.
- Timestamps and the TTL are constants, with no time arithmetic.
