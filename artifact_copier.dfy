/**
  * ArtifactCopier: copying one file onto the output tree. `Files.createDirectories` and
  * `Files.copy(..., REPLACE_EXISTING)` are modelled on the filesystem map.
  */
module ArtifactCopier {
  import opened Wrappers
  import opened FileSystem

  /**
    * Why a copy throws: the source is not a regular file, the target has no parent
    * (`getParentFile()` is null), a file stands where a parent directory is needed, or the
    * target is a directory that cannot be replaced because it is not empty.
    */
  datatype CopyError = SourceMissing | NoParent | CannotCreate | TargetIsDirectory

  /** `to` as a new entry of its parent. */
  function Place(fs: FS, to: Path, node: Node): (r: FS)
    requires to != []
    ensures r.Keys == fs.Keys + {to} && r[to] == node
    ensures forall q :: q in fs && q != to ==> (r[q].Dir? <==> fs[q].Dir?) && (fs[q].File? ==> r[q] == fs[q])
  {
    AddEntry(fs, Parent(to), Name(to))[to := node]
  }

  /** A directory that `REPLACE_EXISTING` may delete. */
  predicate IsEmptyDir(fs: FS, p: Path) {
    p in fs && fs[p] == Dir(fs[p].mtime, Some([]))
  }

  /** `copy(from, to)`; `now` stamps the directories and the file it creates. */
  function CopySpec(dryRun: bool, fs: FS, from: Path, to: Path, now: int): (r: (Outcome<CopyError>, FS))
    ensures dryRun ==> r == (Pass, fs)
    ensures !dryRun && !IsFile(fs, from) ==> r == (Fail(SourceMissing), fs)
    ensures forall q :: IsFile(fs, q) && q != to ==> q in r.1 && r.1[q] == fs[q]
    ensures forall q :: q in r.1 && q !in fs ==> q <= to
    ensures forall q :: q in fs && !(q <= to) ==> q in r.1 && r.1[q] == fs[q]
    ensures !dryRun && r.0.Pass? ==>
      IsFile(r.1, to) && r.1[to].content == fs[from].content &&
      forall k :: 0 <= k < |to| ==> IsDir(r.1, to[..k])
    ensures r.0.Fail? && r.0.error != TargetIsDirectory ==> r.1 == fs
    ensures r.0 == Fail(CannotCreate) ==> exists k :: 0 <= k < |to| && IsFile(fs, to[..k])
    ensures r.0 == Fail(TargetIsDirectory) ==> IsDir(r.1, to) && !IsEmptyDir(r.1, to)
  {
    if dryRun then (Pass, fs)
    else if !IsFile(fs, from) then (Fail(SourceMissing), fs)
    else if to == [] then (Fail(NoParent), fs)
    else
      var up := MkDirs(fs, Parent(to), now);
      if up.None? then
        var k :| 0 <= k <= |Parent(to)| && IsFile(fs, Parent(to)[..k]);
        assert Parent(to)[..k] == to[..k];
        (Fail(CannotCreate), fs)
      else
        var fs1 := up.value;
        assert forall k :: 0 <= k < |to| ==> to[..k] == Parent(to)[..k];
        if from == to then
          (Pass, fs1)
        else if IsDir(fs1, to) && !IsEmptyDir(fs1, to) then
          (Fail(TargetIsDirectory), fs1)
        else
          (Pass, Place(fs1, to, File(now, fs[from].content)))
  }

  /**
    * Copying a file onto itself succeeds and leaves the file as it was (`Files.copy` sees the
    * same file), when nothing on the way to it is a file.
    */
  lemma CopyOntoItself(fs: FS, p: Path, now: int)
    requires IsFile(fs, p) && p != []
    requires forall k :: 0 <= k < |p| ==> !IsFile(fs, p[..k])
    ensures CopySpec(false, fs, p, p, now).0 == Pass
    ensures CopySpec(false, fs, p, p, now).1[p] == fs[p]
  {
    MkDirsFailsIff(fs, Parent(p), now);
    assert forall k :: 0 <= k <= |Parent(p)| ==> Parent(p)[..k] == p[..k];
  }

  /** A real copy with a source file and a target whose ancestors are not files succeeds. */
  lemma CopySucceeds(fs: FS, from: Path, to: Path, now: int)
    requires IsFile(fs, from) && to != [] && !IsDir(fs, to)
    requires forall k :: 0 <= k < |to| ==> !IsFile(fs, to[..k])
    ensures CopySpec(false, fs, from, to, now).0 == Pass
  {
    MkDirsFailsIff(fs, Parent(to), now);
    assert forall k :: 0 <= k <= |Parent(to)| ==> Parent(to)[..k] == to[..k];
  }

  /** `ArtifactCopier`: the dry-run switch is fixed when it is built. */
  class ArtifactCopier {
    const dryRun: bool
    const disk: Disk

    /** The no-argument constructor copies for real. */
    constructor Default(disk: Disk)
      ensures !dryRun && this.disk == disk
    {
      dryRun := false;
      this.disk := disk;
    }

    constructor (dryRun: bool, disk: Disk)
      ensures this.dryRun == dryRun && this.disk == disk
    {
      this.dryRun := dryRun;
      this.disk := disk;
    }

    /** `copy(from, to)`. */
    method Copy(from: Path, to: Path) returns (out: Outcome<CopyError>)
      modifies disk`nodes
      ensures (out, disk.nodes) == CopySpec(dryRun, old(disk.nodes), from, to, disk.now)
    {
      if dryRun {
        return Pass;
      }
      var fs := disk.nodes;
      if !(from in fs && fs[from].File?) {
        return Fail(SourceMissing);
      }
      if to == [] {
        return Fail(NoParent);
      }
      var up := MkDirs(fs, Parent(to), disk.now);
      if up.None? {
        return Fail(CannotCreate);
      }
      disk.nodes := up.value;
      if from == to {
        return Pass;
      }
      if to in disk.nodes && disk.nodes[to].Dir? && disk.nodes[to].listing != Some([]) {
        return Fail(TargetIsDirectory);
      }
      disk.nodes := Place(disk.nodes, to, File(disk.now, fs[from].content));
      return Pass;
    }
  }
}
