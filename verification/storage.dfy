/** Writing a file the way the example generator and the deploy helper do:
    `path.parent.mkdir(parents=True, exist_ok=True)` and then a write of the
    whole content. The disk is the filesystem view of `Paths` plus what
    each file holds. */
module Storage {
  import opened Paths

  datatype Disk = Disk(fs: FileSystem, contents: map<Path, string>)

  /** The proper ancestors of `p`, as `p.parents` lists them. */
  function Ancestors(p: Path): (r: set<Path>)
    ensures forall k :: 0 <= k < |p.parts| ==> Path(p.absolute, p.parts[..k]) in r
    ensures forall q :: q in r ==> |q.parts| < |p.parts|
  {
    set k | 0 <= k < |p.parts| :: Path(p.absolute, p.parts[..k])
  }

  /** `p.read_bytes()` of a file; what a file holds that the disk does not
      record reads as empty. */
  function Read(d: Disk, p: Path): string {
    if p in d.contents then d.contents[p] else ""
  }

  /** Creates the missing parent directories, then writes `content` to `p`. */
  function Write(d: Disk, p: Path, content: string): (r: Disk)
    ensures IsFile(r.fs, p) && p in r.contents && r.contents[p] == content
    ensures forall q :: q in Ancestors(p) ==> IsDir(r.fs, q)
    ensures forall q :: Exists(d.fs, q) ==> Exists(r.fs, q)
    ensures forall q :: IsFile(d.fs, q) ==> IsFile(r.fs, q)
    ensures forall q :: IsDir(d.fs, q) ==> IsDir(r.fs, q)
    ensures forall q :: q != p && q in d.contents ==> q in r.contents && r.contents[q] == d.contents[q]
    ensures forall q :: q != p && q !in Ancestors(p) ==> (Exists(r.fs, q) <==> Exists(d.fs, q))
  {
    Disk(FileSystem(d.fs.files + {p}, d.fs.dirs + Ancestors(p), d.fs.listing), d.contents[p := content])
  }
}
