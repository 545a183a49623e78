/**
  * ArtifactFinder: the wars of a checkout. The tree is walked depth-first in listing order;
  * a directory named "target" is not entered but has its war files collected instead.
  */
module ArtifactFinder {
  import opened Wrappers
  import opened Text
  import opened FileSystem

  const TargetDirName: string := "target"

  /** The file-name filter of `collectWar`; it looks at the name only. */
  predicate IsWarName(name: string) {
    EndsWith(name, ".war") && !StartsWith(name, "original-") && !EndsWith(name, "-sources.war")
  }

  /** The names `listFiles()` gives for `dir`, when it is a readable directory. */
  predicate Listable(fs: FS, dir: Path) {
    IsDir(fs, dir) && fs[dir].listing.Some?
  }

  function Listing(fs: FS, dir: Path): seq<string>
    requires Listable(fs, dir)
  {
    fs[dir].listing.value
  }

  /** Everything strictly below `dir`: what is left to walk. */
  function Below(fs: FS, dir: Path): set<Path> {
    set q | q in fs.Keys && dir < q
  }

  lemma BelowShrinks(fs: FS, dir: Path, c: Path)
    requires dir < c && c in fs
    ensures Below(fs, c) < Below(fs, dir)
  {
    assert c in Below(fs, dir) && c !in Below(fs, c);
  }

  /** The entries of `names` below `targetDir` that pass the filter, in order. */
  function WarsIn(targetDir: Path, names: seq<string>): (r: seq<Path>)
    ensures forall w :: w in r <==> |w| == |targetDir| + 1 && w[..|targetDir|] == targetDir && w[|targetDir|] in names && IsWarName(w[|targetDir|])
  {
    if names == [] then []
    else
      var last := names[|names| - 1];
      var prev := WarsIn(targetDir, names[..|names| - 1]);
      assert names == names[..|names| - 1] + [last];
      var w := targetDir + [last];
      assert w[..|targetDir|] == targetDir;
      assert forall v :: |v| == |targetDir| + 1 && v[..|targetDir|] == targetDir && v[|targetDir|] == last ==> v == w by {
        forall v | |v| == |targetDir| + 1 && v[..|targetDir|] == targetDir && v[|targetDir|] == last
          ensures v == w
        {
          assert v == v[..|targetDir|] + [v[|targetDir|]];
        }
      }
      if IsWarName(last) then prev + [w] else prev
  }

  /** `collectWar(targetDir, result)`: what it adds. */
  function CollectWarSpec(fs: FS, targetDir: Path): seq<Path> {
    if Listable(fs, targetDir) then WarsIn(targetDir, Listing(fs, targetDir)) else []
  }

  /** What one entry `name` of `dir` contributes to the scan. */
  function EntryWars(fs: FS, dir: Path, name: string): (r: seq<Path>)
    ensures forall w :: w in r ==> |w| >= |dir| + 2 && w[..|dir|] == dir && w[|dir|] == name
    decreases Below(fs, dir), 0, 0
  {
    var c := dir + [name];
    if !IsDir(fs, c) then []
    else if name == TargetDirName then
      var r := CollectWarSpec(fs, c);
      InsideChild(r, dir, name);
      r
    else
      BelowShrinks(fs, dir, c);
      var r := ScanDir(fs, c);
      InsideChild(r, dir, name);
      r
  }

  /** Paths that start with the child `dir + [name]` start with `dir`, then `name`. */
  lemma InsideChild(r: seq<Path>, dir: Path, name: string)
    requires forall w :: w in r ==> |w| >= |dir| + 2 && w[..|dir| + 1] == dir + [name]
    ensures forall w :: w in r ==> |w| >= |dir| + 2 && w[..|dir|] == dir && w[|dir|] == name
  {
    forall w | w in r
      ensures w[..|dir|] == dir && w[|dir|] == name
    {
      assert w[..|dir|] == w[..|dir| + 1][..|dir|];
    }
  }

  /** The contributions of `names`, one after the other. */
  function ScanEntries(fs: FS, dir: Path, names: seq<string>): (r: seq<Path>)
    ensures forall w :: w in r ==> |w| >= |dir| + 2 && w[..|dir|] == dir && w[|dir|] in names
    decreases Below(fs, dir), 0, |names|
  {
    if names == [] then []
    else
      var last := names[|names| - 1];
      assert names == names[..|names| - 1] + [last];
      var r := ScanEntries(fs, dir, names[..|names| - 1]) + EntryWars(fs, dir, last);
      r
  }

  /** `scan(dir, result)`: what it adds; an unreadable or missing directory adds nothing. */
  function ScanDir(fs: FS, dir: Path): (r: seq<Path>)
    ensures forall w :: w in r ==> |w| >= |dir| + 2 && w[..|dir|] == dir
    decreases Below(fs, dir), 1, 0
  {
    if Listable(fs, dir) then ScanEntries(fs, dir, Listing(fs, dir)) else []
  }

  /**
    * An independent description of the wars found below `dir`: `rest` leads from `dir`
    * through listed directories, none of them named "target", into a listed "target"
    * directory, and ends with a name that passes the filter.
    */
  predicate ReachedWar(fs: FS, dir: Path, rest: seq<string>)
    decreases |rest|
  {
    Listable(fs, dir) && |rest| >= 2 && rest[0] in Listing(fs, dir) && IsDir(fs, dir + [rest[0]]) &&
    if rest[0] == TargetDirName then
      |rest| == 2 && Listable(fs, dir + [rest[0]]) && rest[1] in Listing(fs, dir + [rest[0]]) && IsWarName(rest[1])
    else ReachedWar(fs, dir + [rest[0]], rest[1..])
  }

  lemma {:induction false} ScanEntriesIff(fs: FS, dir: Path, names: seq<string>, w: Path)
    ensures w in ScanEntries(fs, dir, names) <==>
      |w| >= |dir| + 2 && w[..|dir|] == dir && w[|dir|] in names && w in EntryWars(fs, dir, w[|dir|])
    decreases |names|
  {
    if names != [] {
      var last := names[|names| - 1];
      var init := names[..|names| - 1];
      assert names == init + [last];
      ScanEntriesIff(fs, dir, init, w);
      if w in EntryWars(fs, dir, last) {
        assert w[|dir|] == w[..|dir| + 1][|dir|];
      }
    }
  }

  /** The scan finds exactly the wars `ReachedWar` describes. */
  lemma {:induction false} ScanDirIff(fs: FS, dir: Path, w: Path)
    ensures w in ScanDir(fs, dir) <==> |w| >= |dir| + 2 && w[..|dir|] == dir && ReachedWar(fs, dir, w[|dir|..])
    decreases Below(fs, dir), 1
  {
    if Listable(fs, dir) {
      ScanEntriesIff(fs, dir, Listing(fs, dir), w);
      if |w| >= |dir| + 2 && w[..|dir|] == dir {
        EntryIff(fs, dir, w);
      }
    }
  }

  /** One entry of a listed directory contributes `w` exactly when `ReachedWar` leads there. */
  lemma {:induction false} EntryIff(fs: FS, dir: Path, w: Path)
    requires Listable(fs, dir) && |w| >= |dir| + 2 && w[..|dir|] == dir
    ensures w[|dir|] in Listing(fs, dir) && w in EntryWars(fs, dir, w[|dir|]) <==> ReachedWar(fs, dir, w[|dir|..])
    decreases Below(fs, dir), 0
  {
    var name := w[|dir|];
    var c := dir + [name];
    var rest := w[|dir|..];
    assert rest[0] == name && rest[1..] == w[|c|..];
    assert w[..|c|] == c by {
      assert w[..|c|] == w[..|dir|] + [w[|dir|]];
    }
    if IsDir(fs, c) && name != TargetDirName {
      BelowShrinks(fs, dir, c);
      ScanDirIff(fs, c, w);
    }
    if IsDir(fs, c) && name == TargetDirName {
      TargetEntryIff(fs, c, w);
    }
  }

  lemma TargetEntryIff(fs: FS, c: Path, w: Path)
    requires |w| >= |c| + 1 && w[..|c|] == c
    ensures w in CollectWarSpec(fs, c) <==> |w| == |c| + 1 && Listable(fs, c) && w[|c|] in Listing(fs, c) && IsWarName(w[|c|])
  {
  }

  /** Every war found is named like a war and sits directly in a directory named "target". */
  lemma FoundWarsAreWars(fs: FS, dir: Path, w: Path)
    requires w in ScanDir(fs, dir)
    ensures |w| >= |dir| + 2 && w[..|dir|] == dir
    ensures IsWarName(w[|w| - 1]) && w[|w| - 2] == TargetDirName && IsDir(fs, w[..|w| - 1])
    ensures forall k :: |dir| <= k < |w| - 2 ==> w[k] != TargetDirName
  {
    ScanDirIff(fs, dir, w);
    ReachedWarShape(fs, dir, w[|dir|..]);
    var rest := w[|dir|..];
    assert dir + rest[..|rest| - 1] == w[..|w| - 1];
  }

  lemma {:induction false} ReachedWarShape(fs: FS, dir: Path, rest: seq<string>)
    requires ReachedWar(fs, dir, rest)
    ensures IsWarName(rest[|rest| - 1]) && rest[|rest| - 2] == TargetDirName && IsDir(fs, dir + rest[..|rest| - 1])
    ensures forall k :: 0 <= k < |rest| - 2 ==> rest[k] != TargetDirName
    decreases |rest|
  {
    if rest[0] == TargetDirName {
      assert rest[..|rest| - 1] == [rest[0]];
    } else {
      ReachedWarShape(fs, dir + [rest[0]], rest[1..]);
      assert dir + [rest[0]] + rest[1..][..|rest| - 2] == dir + rest[..|rest| - 1];
    }
  }

  /** `findWars(repoDir)`. */
  method FindWars(fs: FS, repoDir: Path) returns (result: seq<Path>)
    ensures result == ScanDir(fs, repoDir)
  {
    result := Scan(fs, repoDir, []);
  }

  lemma ScanEntriesStep(fs: FS, dir: Path, names: seq<string>, i: nat)
    requires i < |names|
    ensures ScanEntries(fs, dir, names[..i + 1]) == ScanEntries(fs, dir, names[..i]) + EntryWars(fs, dir, names[i])
  {
    assert names[..i + 1][..i] == names[..i];
  }

  /** `scan(dir, result)`: appends to the list it is given. */
  method Scan(fs: FS, dir: Path, acc: seq<Path>) returns (result: seq<Path>)
    ensures result == acc + ScanDir(fs, dir)
    decreases Below(fs, dir), 2
  {
    if !Listable(fs, dir) {
      return acc;
    }
    result := ScanListing(fs, dir, fs[dir].listing.value, acc);
  }

  /** The loop of `scan` over the entries `listFiles()` gave. */
  method ScanListing(fs: FS, dir: Path, files: seq<string>, acc: seq<Path>) returns (result: seq<Path>)
    ensures result == acc + ScanEntries(fs, dir, files)
    decreases Below(fs, dir), 1
  {
    result := acc;
    for i := 0 to |files|
      invariant result == acc + ScanEntries(fs, dir, files[..i])
    {
      ScanEntriesStep(fs, dir, files, i);
      AppendAssoc(acc, ScanEntries(fs, dir, files[..i]), EntryWars(fs, dir, files[i]));
      result := ScanEntry(fs, dir, files[i], result);
    }
    assert files[..|files|] == files;
  }

  /** One turn of the loop in `scan`: a subdirectory is collected from or walked into. */
  method ScanEntry(fs: FS, dir: Path, name: string, acc: seq<Path>) returns (result: seq<Path>)
    ensures result == acc + EntryWars(fs, dir, name)
    decreases Below(fs, dir), 0
  {
    var f := dir + [name];
    result := acc;
    if IsDir(fs, f) {
      if name == TargetDirName {
        result := CollectWar(fs, f, result);
      } else {
        BelowShrinks(fs, dir, f);
        result := Scan(fs, f, result);
      }
    }
  }

  lemma WarsInStep(targetDir: Path, names: seq<string>, i: nat)
    requires i < |names|
    ensures WarsIn(targetDir, names[..i + 1]) ==
      WarsIn(targetDir, names[..i]) + if IsWarName(names[i]) then [targetDir + [names[i]]] else []
  {
    assert names[..i + 1][..i] == names[..i];
  }

  /** `collectWar(targetDir, result)`. */
  method CollectWar(fs: FS, targetDir: Path, acc: seq<Path>) returns (result: seq<Path>)
    ensures result == acc + CollectWarSpec(fs, targetDir)
  {
    result := acc;
    if !Listable(fs, targetDir) {
      return;
    }
    var names := fs[targetDir].listing.value;
    for i := 0 to |names|
      invariant result == acc + WarsIn(targetDir, names[..i])
    {
      WarsInStep(targetDir, names, i);
      if IsWarName(names[i]) {
        AppendAssoc(acc, WarsIn(targetDir, names[..i]), [targetDir + [names[i]]]);
        result := result + [targetDir + [names[i]]];
      }
    }
    assert names[..|names|] == names;
  }
}
