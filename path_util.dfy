/**
 * `Path`: a string wrapper that joins path components with `/`, and the
 * `isDir` test on the `st_mode` of a directory entry. File-system access
 * (`stat`, `opendir`, `readdir`) is not part of this module.
 */
module PathUtil {

  /** Joining onto `base` inserts a `/` only when `base` is non-empty and does not end in one. */
  predicate NeedsSeparator(base: string)
  {
    |base| != 0 && base[|base| - 1] != '/'
  }

  /**
   * The path `joinInplace(sub)` leaves behind when the path was `base`:
   * `base`, then a separator if one is needed, then `sub`.
   */
  function Joined(base: string, sub: string): (r: string)
    ensures base == [] ==> r == sub
    ensures |base| + |sub| <= |r| <= |base| + |sub| + 1
  {
    if NeedsSeparator(base) then base + "/" + sub else base + sub
  }

  /**
   * The joined path starts with `base` and ends with `sub`, and when `base`
   * is non-empty the character just before `sub` is a `/`.
   */
  lemma JoinedPrefixSuffix(base: string, sub: string)
    ensures var r := Joined(base, sub);
      r[..|base|] == base && r[|r| - |sub|..] == sub &&
      (base != [] ==> |base| + |sub| < |r| + 1 && r[|r| - |sub| - 1] == '/')
  {
  }

  /** The separator is added exactly when it is needed, and never doubled. */
  lemma JoinedLength(base: string, sub: string)
    ensures |Joined(base, sub)| == |base| + |sub| + 1 <==> NeedsSeparator(base)
    ensures |Joined(base, sub)| == |base| + |sub| <==> !NeedsSeparator(base)
  {
  }

  /** What `joinInplace` puts between the old path and the component: one `/` or nothing. */
  function Separator(base: string): string
  {
    if NeedsSeparator(base) then "/" else ""
  }

  /** The joined path is `base`, its separator and `sub`, in that order. */
  lemma JoinedParts(base: string, sub: string)
    ensures Joined(base, sub) == base + Separator(base) + sub
  {
  }

  /** A joined path needs a further separator exactly when its last component does. */
  lemma JoinedNeedsSeparator(base: string, sub: string)
    ensures NeedsSeparator(Joined(base, sub)) <==> sub != [] && NeedsSeparator(sub)
  {
  }

  /**
   * Joining is associative: `a.join(b).join(c)` and `a.join(b.join(c))`
   * name the same path, whatever the components.
   */
  lemma JoinedAssociative(a: string, b: string, c: string)
    ensures Joined(Joined(a, b), c) == Joined(a, Joined(b, c))
  {
    var ab, bc := Joined(a, b), Joined(b, c);
    JoinedParts(a, b);
    JoinedParts(b, c);
    JoinedParts(ab, c);
    JoinedParts(a, bc);
    JoinedNeedsSeparator(a, b);
    if a == [] {
      assert ab == b && Separator(a) == "";
    } else if b == [] {
      assert Separator(ab) == "" && bc == c;
      assert ab + c == a + Separator(a) + c;
    } else {
      assert Separator(ab) == Separator(b);
      assert ab + Separator(b) + c == a + Separator(a) + (b + Separator(b) + c);
    }
  }

  class Path {
    /** `m_path`. */
    var path: string

    constructor (path: string)
      ensures this.path == path
    {
      this.path := path;
    }

    method Reset(path: string)
      modifies this
      ensures this.path == path
    {
      this.path := path;
    }

    /** Appends `/` when the path is non-empty and does not end in one, then `subPath`. */
    method JoinInplace(subPath: string)
      modifies this
      ensures path == Joined(old(path), subPath)
    {
      if |path| != 0 && path[|path| - 1] != '/' {
        path := path + "/";
      }
      path := path + subPath;
    }

    /** Joins on a fresh copy; the receiver keeps its path. */
    method JoinCopy(subPath: string) returns (another: Path)
      ensures fresh(another)
      ensures another.path == Joined(path, subPath)
      ensures unchanged(this)
    {
      another := new Path(path);
      another.JoinInplace(subPath);
    }

    /** The stored path, as the last constructor, `Reset` or join left it. */
    function GetPathString(): (r: string)
      reads this
      ensures r == path
    {
      path
    }
  }

  /** `reset(s)` then `getPathString()` returns `s`. */
  method ResetThenGet(p: Path, s: string) returns (r: string)
    modifies p
    ensures r == s
  {
    p.Reset(s);
    r := p.GetPathString();
  }

  /** A `Path` constructed from `s` reports `s`. */
  method ConstructThenGet(s: string) returns (r: string)
    ensures r == s
  {
    var p := new Path(s);
    r := p.GetPathString();
  }

  /** `joinCopy(s)` reports the path `joinInplace(s)` leaves on the receiver. */
  method JoinCopyThenGet(p: Path, s: string) returns (copied: string, inplace: string)
    modifies p
    ensures copied == inplace
  {
    var q := p.JoinCopy(s);
    copied := q.GetPathString();
    p.JoinInplace(s);
    inplace := p.GetPathString();
  }

  /**
   * A directory entry with the one field of its `stat` record that `isDir`
   * reads. `st_mode` is a 32-bit `mode_t`.
   */
  datatype DirMetaInfo = DirMetaInfo(name: string, stMode: bv32)

  /** File-type bits of `st_mode`, as POSIX `<sys/stat.h>` defines them on Linux. */
  const S_IFMT: bv32 := 0xF000
  const S_IFSOCK: bv32 := 0xC000
  const S_IFLNK: bv32 := 0xA000
  const S_IFREG: bv32 := 0x8000
  const S_IFBLK: bv32 := 0x6000
  const S_IFDIR: bv32 := 0x4000
  const S_IFCHR: bv32 := 0x2000
  const S_IFIFO: bv32 := 0x1000

  /** The file-type field of a mode. */
  function FileType(mode: bv32): bv32
  {
    mode & S_IFMT
  }

  /** The seven file types POSIX defines. */
  predicate KnownType(t: bv32)
  {
    t == S_IFSOCK || t == S_IFLNK || t == S_IFREG || t == S_IFBLK ||
    t == S_IFDIR || t == S_IFCHR || t == S_IFIFO
  }

  /**
   * `isDir`: tests the single `S_IFDIR` bit. Among the POSIX file types that
   * bit is set for directories, and also for block devices and sockets.
   */
  function IsDir(info: DirMetaInfo): (r: bool)
    ensures FileType(info.stMode) == S_IFDIR ==> r
    ensures KnownType(FileType(info.stMode)) ==>
      (r <==> FileType(info.stMode) == S_IFDIR || FileType(info.stMode) == S_IFBLK ||
              FileType(info.stMode) == S_IFSOCK)
  {
    info.stMode & S_IFDIR != 0
  }

  /** A block device with mode `0644` passes `isDir`. */
  lemma IsDirBlockDevice()
    ensures var info := DirMetaInfo("sda", S_IFBLK | 0x1A4);
      IsDir(info) && FileType(info.stMode) != S_IFDIR
  {
  }

  /**
   * The test the name promises, POSIX `S_ISDIR`: the file type is a
   * directory. It accepts a subset of what `IsDir` accepts, and over the
   * POSIX file types it differs from `IsDir` on block devices and sockets
   * only.
   */
  function IsDirectory(info: DirMetaInfo): (r: bool)
    ensures r ==> IsDir(info)
    ensures KnownType(FileType(info.stMode)) ==>
      (r <==> IsDir(info) && FileType(info.stMode) != S_IFBLK && FileType(info.stMode) != S_IFSOCK)
  {
    FileType(info.stMode) == S_IFDIR
  }
}
