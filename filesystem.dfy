/**
  * The filesystem as the packager observes it through java.io.File and java.nio.file.Files:
  * a finite map from paths to nodes. A path is its list of name segments below the root.
  */
module FileSystem {
  import opened Wrappers
  import opened Text

  type Path = seq<string>

  /**
    * A directory, whose listing is None when it cannot be read (`listFiles()` returns null),
    * or a regular file. Both carry the `lastModified` stamp.
    */
  datatype Node = Dir(mtime: int, listing: Option<seq<string>>) | File(mtime: int, content: seq<bv8>)

  type FS = map<Path, Node>

  /** A freshly created, empty directory. */
  function EmptyDir(now: int): Node {
    Dir(now, Some([]))
  }

  /** `File.isDirectory()`. */
  predicate IsDir(fs: FS, p: Path) {
    p in fs && fs[p].Dir?
  }

  /** `File.isFile()`. */
  predicate IsFile(fs: FS, p: Path) {
    p in fs && fs[p].File?
  }

  /** `File.lastModified()`: zero for a path that does not exist. */
  function LastModified(fs: FS, p: Path): int {
    if p in fs then fs[p].mtime else 0
  }

  /** `File.getParentFile()` of a path below the root. */
  function Parent(p: Path): (r: Path)
    requires p != []
    ensures r < p && |r| == |p| - 1
  {
    p[..|p| - 1]
  }

  /** `File.getName()` of a path below the root. */
  function Name(p: Path): string
    requires p != []
  {
    p[|p| - 1]
  }

  /** A piece between two slashes that names an entry: not empty and not the current directory ".". */
  predicate Names(x: string) {
    x != [] && x != "."
  }

  /** A name that can stand between two slashes. */
  predicate IsSegment(x: string) {
    Names(x) && '/' !in x
  }

  /** The pieces that name an entry, in order. */
  function NonEmpty(parts: seq<string>): (r: seq<string>)
    ensures |r| <= |parts|
    ensures forall i :: 0 <= i < |r| ==> Names(r[i])
    decreases |parts|
  {
    if parts == [] then []
    else if !Names(parts[0]) then NonEmpty(parts[1..])
    else [parts[0]] + NonEmpty(parts[1..])
  }

  /**
    * `new File(s)` as the operating system resolves it: the segments of `s` between slashes,
    * with empty ones (doubled or outer slashes) and "." dropped.
    */
  function PathOf(s: string): (p: Path)
    ensures forall i :: 0 <= i < |p| ==> IsSegment(p[i])
  {
    var parts := Split(s, '/');
    var p := NonEmpty(parts);
    assert forall i :: 0 <= i < |p| ==> p[i] in parts by {
      NonEmptyFrom(parts);
    }
    p
  }

  lemma {:induction false} NonEmptyFrom(parts: seq<string>)
    ensures forall i :: 0 <= i < |NonEmpty(parts)| ==> NonEmpty(parts)[i] in parts
    decreases |parts|
  {
    if parts != [] {
      NonEmptyFrom(parts[1..]);
      var r := NonEmpty(parts);
      forall i | 0 <= i < |r|
        ensures r[i] in parts
      {
        if Names(parts[0]) && i > 0 {
          assert r[i] == NonEmpty(parts[1..])[i - 1];
        }
        if !Names(parts[0]) {
          assert r[i] == NonEmpty(parts[1..])[i];
        }
      }
    }
  }

  /** `new File(dir, s)`. */
  function Under(dir: Path, s: string): (r: Path)
    ensures dir <= r
  {
    dir + PathOf(s)
  }

  /** A leading "./" names the same entry as the rest of the path. */
  lemma CurrentDirIgnored(dir: Path, s: string)
    ensures Under(dir, "./" + s) == Under(dir, s)
  {
    var t := "/" + s;
    assert t[1..] == s;
    assert Split(t, '/') == [[]] + Split(s, '/');
    SplitPrefix(".", t, '/');
    assert "./" + s == "." + t;
    assert ([[]] + Split(s, '/'))[1..] == Split(s, '/');
    assert "." + [] == ".";
    assert Split("./" + s, '/') == ["."] + Split(s, '/');
  }

  /** `getAbsolutePath()`: a slash before every segment, and a lone slash for the root. */
  function Render(p: Path): string {
    if p == [] then "/" else RenderSegments(p)
  }

  function RenderSegments(p: Path): string
    decreases |p|
  {
    if p == [] then "" else "/" + p[0] + RenderSegments(p[1..])
  }

  /** A rendered path reads back as the same path. */
  lemma RenderRoundTrip(p: Path)
    requires forall i :: 0 <= i < |p| ==> IsSegment(p[i])
    ensures PathOf(Render(p)) == p
  {
    if p == [] {
      assert Split("/", '/') == [[], []];
    } else {
      SplitRendered(p);
      NonEmptyKeeps(p);
      assert ([[]] + p)[1..] == p;
    }
  }

  lemma {:induction false} SplitRendered(p: Path)
    requires forall i :: 0 <= i < |p| ==> IsSegment(p[i])
    ensures Split(RenderSegments(p), '/') == [[]] + p
    decreases |p|
  {
    if p != [] {
      SplitRendered(p[1..]);
      var rest := RenderSegments(p[1..]);
      SplitPrefix(p[0], rest, '/');
      assert Split(rest, '/')[0] == [] && Split(rest, '/')[1..] == p[1..];
      assert p[0] + [] == p[0];
      var s := "/" + p[0] + rest;
      assert s[1..] == p[0] + rest;
      assert [p[0]] + p[1..] == p;
    }
  }

  lemma {:induction false} NonEmptyKeeps(parts: seq<string>)
    requires forall i :: 0 <= i < |parts| ==> Names(parts[i])
    ensures NonEmpty(parts) == parts
    decreases |parts|
  {
    if parts != [] {
      NonEmptyKeeps(parts[1..]);
      assert [parts[0]] + parts[1..] == parts;
    }
  }

  /** The listing of `dir` with `name` appended, when `dir` is a readable directory that lacks it. */
  function AddEntry(fs: FS, dir: Path, name: string): (r: FS)
    ensures r.Keys == fs.Keys
    ensures forall q :: q in fs && q != dir ==> r[q] == fs[q]
    ensures dir in fs ==> (r[dir].Dir? <==> fs[dir].Dir?) && (fs[dir].File? ==> r[dir] == fs[dir])
  {
    if dir in fs && fs[dir].Dir? && fs[dir].listing.Some? && name !in fs[dir].listing.value then
      fs[dir := fs[dir].(listing := Some(fs[dir].listing.value + [name]))]
    else fs
  }

  /**
    * `Files.createDirectories(p)`: every missing directory from the root down to `p` is
    * created (and entered in its parent's listing); a file anywhere on the way is an error.
    */
  function MkDirs(fs: FS, p: Path, now: int): (r: Option<FS>)
    ensures r.Some? ==> forall k :: 0 <= k <= |p| ==> IsDir(r.value, p[..k])
    ensures r.Some? ==> forall q :: q in fs ==> q in r.value && (r.value[q] == fs[q] || (q <= p && fs[q].Dir? && r.value[q].Dir?))
    ensures r.Some? ==> forall q :: q in r.value && q !in fs ==> q <= p
    ensures r.None? ==> exists k :: 0 <= k <= |p| && IsFile(fs, p[..k])
    decreases |p|
  {
    var up := if p == [] then Some(fs) else MkDirs(fs, Parent(p), now);
    match up
    case None =>
      assert p != [];
      var k :| 0 <= k <= |Parent(p)| && IsFile(fs, Parent(p)[..k]);
      assert Parent(p)[..k] == p[..k];
      None
    case Some(fs1) =>
      assert p != [] ==> forall k :: 0 <= k < |p| ==> p[..k] == Parent(p)[..k];
      if p in fs1 then
        if fs1[p].Dir? then
          assert p[..|p|] == p;
          Some(fs1)
        else
          assert p != [] ==> !(p <= Parent(p));
          assert p in fs && fs[p] == fs1[p];
          assert p[..|p|] == p;
          None
      else if p == [] then
        Some(fs1[p := EmptyDir(now)])
      else
        assert p !in fs;
        var fs2 := AddEntry(fs1, Parent(p), Name(p));
        assert forall k :: 0 <= k < |p| ==> IsDir(fs1, p[..k]) && IsDir(fs2, p[..k]);
        assert p[..|p|] == p;
        Some(fs2[p := EmptyDir(now)])
  }

  /** `File.mkdirs()`: the same walk, but a failure is reported by the ignored return value only. */
  function MkDirsQuiet(fs: FS, p: Path, now: int): (r: FS)
    ensures forall q :: IsFile(fs, q) ==> IsFile(r, q) && r[q] == fs[q]
  {
    match MkDirs(fs, p, now)
    case Some(fs1) => fs1
    case None => fs
  }

  /** `createDirectories` fails exactly when some ancestor of `p`, or `p` itself, is a regular file. */
  lemma MkDirsFailsIff(fs: FS, p: Path, now: int)
    ensures MkDirs(fs, p, now).None? <==> exists k :: 0 <= k <= |p| && IsFile(fs, p[..k])
  {
    if MkDirs(fs, p, now).Some? {
      var r := MkDirs(fs, p, now).value;
      forall k | 0 <= k <= |p|
        ensures !IsFile(fs, p[..k])
      {
        assert IsDir(r, p[..k]);
      }
    }
  }

  /** The directory tree on the machine; `now` stamps what gets created. */
  class Disk {
    var nodes: FS
    const now: int

    constructor (nodes0: FS, now: int)
      ensures nodes == nodes0 && this.now == now
    {
      nodes := nodes0;
      this.now := now;
    }
  }
}
