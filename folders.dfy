/** `FolderAnalyzer.analyze_structure`: walking the input tree top-down,
    pruning excluded directories, and grouping every file found by the first
    folder below the root (files in the root itself form the group `root`).

    The file system is replaced by a `Folder` tree; paths are taken as already
    absolute and normalised, so `abspath` and `normcase` are the identity. */
module Folders {
  import opened Wrappers
  import opened Text
  import opened Paths

  /** A directory as `os.walk` lists it: its name, its files and its
      subdirectories, each in listing order. */
  datatype Folder = Folder(name: string, files: seq<string>, subfolders: seq<Folder>)

  /** `is_excluded`: the path is one of the (non-empty) excluded paths or lies
      below one of them. */
  predicate IsExcluded(excluded: seq<string>, p: string) {
    exists k :: 0 <= k < |excluded| && excluded[k] != "" && (p == excluded[k] || StartsWith(p, excluded[k] + "/"))
  }

  /** The group of a file: `root` for the root directory, otherwise the first
      path segment of its directory relative to the root. */
  function GroupLabel(top: Option<string>): string {
    if top.None? then "root" else top.value
  }

  /** The files of one directory, each with its group and its full path. */
  function FilesHere(group: string, path: string, files: seq<string>): (r: seq<(string, string)>)
    ensures |r| == |files|
    ensures forall i :: 0 <= i < |r| ==> r[i] == (group, PathJoin(path, files[i]))
  {
    seq(|files|, i requires 0 <= i < |files| => (group, PathJoin(path, files[i])))
  }

  /** `os.walk` from directory `f` at `path`, top-down: nothing when the
      directory is excluded, else its own files and then, in order, the
      walks of its subdirectories. `top` is the first folder below the root
      on the way here. */
  function Walk(excluded: seq<string>, f: Folder, path: string, top: Option<string>): seq<(string, string)>
    decreases f, |f.subfolders| + 1
  {
    if IsExcluded(excluded, path) then []
    else FilesHere(GroupLabel(top), path, f.files) + WalkSubs(excluded, f, path, top, |f.subfolders|)
  }

  /** The walks of the first `n` subdirectories of `f`. */
  function WalkSubs(excluded: seq<string>, f: Folder, path: string, top: Option<string>, n: nat): seq<(string, string)>
    requires n <= |f.subfolders|
    decreases f, n
  {
    if n == 0 then []
    else
      var sub := f.subfolders[n - 1];
      WalkSubs(excluded, f, path, top, n - 1)
        + Walk(excluded, sub, PathJoin(path, sub.name), if top.None? then Some(sub.name) else top)
  }

  /** The paths listed with group `g`, in listing order. */
  function FilesOf(listing: seq<(string, string)>, g: string): seq<string> {
    if |listing| == 0 then []
    else FilesOf(listing[..|listing| - 1], g) + (if listing[|listing| - 1].0 == g then [listing[|listing| - 1].1] else [])
  }

  /** Some listed path has group `g`. */
  predicate HasGroup(listing: seq<(string, string)>, g: string) {
    exists k :: 0 <= k < |listing| && listing[k].0 == g
  }

  /** A group collects a path exactly when some listed path has that group. */
  lemma {:induction false} FilesOfEmpty(listing: seq<(string, string)>, g: string)
    ensures FilesOf(listing, g) != [] <==> HasGroup(listing, g)
  {
    if |listing| > 0 {
      var init := listing[..|listing| - 1];
      FilesOfEmpty(init, g);
      if HasGroup(listing, g) && listing[|listing| - 1].0 != g {
        var k :| 0 <= k < |listing| && listing[k].0 == g;
        assert init[k].0 == g;
      }
      if HasGroup(init, g) {
        var k :| 0 <= k < |init| && init[k].0 == g;
        assert listing[k].0 == g;
      }
    }
  }

  /** `analyze_structure`: the walk's files collected into a dictionary by
      group, in the order found. */
  method AnalyzeStructure(excluded: seq<string>, root: Folder, rootPath: string)
    returns (groups: map<string, seq<string>>)
    ensures forall g :: g in groups <==> HasGroup(Walk(excluded, root, rootPath, None), g)
    ensures forall g :: g in groups ==> groups[g] == FilesOf(Walk(excluded, root, rootPath, None), g)
  {
    var listing := Walk(excluded, root, rootPath, None);
    hide Walk;
    groups := map[];
    for i := 0 to |listing|
      invariant forall g :: g in groups <==> HasGroup(listing[..i], g)
      invariant forall g :: g in groups ==> groups[g] == FilesOf(listing[..i], g)
    {
      var (group, path) := listing[i];
      var prefix := listing[..i + 1];
      assert prefix[..i] == listing[..i];
      if group !in groups {
        FilesOfEmpty(listing[..i], group);
      }
      groups := groups[group := (if group in groups then groups[group] else []) + [path]];
      forall g ensures g in groups <==> HasGroup(prefix, g) {
        if HasGroup(prefix, g) && g != group {
          var k :| 0 <= k < |prefix| && prefix[k].0 == g;
          assert listing[..i][k].0 == g;
        }
        if HasGroup(listing[..i], g) {
          var k :| 0 <= k < i && listing[..i][k].0 == g;
          assert prefix[k].0 == g;
        }
        assert prefix[i].0 == group;
      }
    }
    assert listing[..|listing|] == listing;
  }

  // ---------------------------------------------------------------------------
  // What the walk guarantees

  /** Every file and folder name in the tree is non-empty and has no `/`. */
  predicate WellNamed(f: Folder)
    decreases f
  {
    && (forall i :: 0 <= i < |f.files| ==> f.files[i] != "" && '/' !in f.files[i])
    && (forall i :: 0 <= i < |f.subfolders| ==> f.subfolders[i].name != "" && '/' !in f.subfolders[i].name && WellNamed(f.subfolders[i]))
  }

  /** No excluded directory has `p` below it. */
  predicate NotBelowExcluded(excluded: seq<string>, p: string) {
    forall k :: 0 <= k < |excluded| && excluded[k] != "" ==> !StartsWith(p, excluded[k] + "/")
  }

  /** No listed path lies below an excluded directory. */
  predicate NoneBelowExcluded(excluded: seq<string>, listing: seq<(string, string)>) {
    forall i :: 0 <= i < |listing| ==> NotBelowExcluded(excluded, listing[i].1)
  }

  /** Every listed path has group `t`. */
  predicate AllInGroup(listing: seq<(string, string)>, t: string) {
    forall i :: 0 <= i < |listing| ==> listing[i].0 == t
  }

  /** A file named without `/` in a directory that is not excluded is not
      below any excluded directory. */
  lemma FileBelowKept(excluded: seq<string>, dir: string, file: string)
    requires !IsExcluded(excluded, dir) && file != "" && '/' !in file
    ensures NotBelowExcluded(excluded, PathJoin(dir, file))
  {
    var p := PathJoin(dir, file);
    forall k | 0 <= k < |excluded| && excluded[k] != "" ensures !StartsWith(p, excluded[k] + "/") {
      var x := excluded[k] + "/";
      assert file[0] != '/';
      if |x| <= |p| {
        if dir == "" || EndsWith(dir, "/") {
          assert p == dir + file;
          if |x| <= |dir| {
            assert p[..|x|] == dir[..|x|];
          } else {
            assert p[|x| - 1] == file[|x| - 1 - |dir|];
          }
        } else {
          assert p == dir + "/" + file;
          if |x| <= |dir| {
            assert p[..|x|] == dir[..|x|];
          } else if |x| == |dir| + 1 {
            assert p[..|dir|] == dir;
          } else {
            assert p[|x| - 1] == file[|x| - 2 - |dir|];
          }
        }
      }
    }
  }

  /** Every file the walk lists lies in no excluded directory: excluding
      the output folder keeps earlier outputs out of the scan. */
  lemma {:induction false} WalkAvoidsExcluded(excluded: seq<string>, f: Folder, path: string, top: Option<string>)
    requires WellNamed(f)
    ensures NoneBelowExcluded(excluded, Walk(excluded, f, path, top))
    decreases f, |f.subfolders| + 1
  {
    if !IsExcluded(excluded, path) {
      var here: seq<(string, string)> := FilesHere(GroupLabel(top), path, f.files);
      var below: seq<(string, string)> := WalkSubs(excluded, f, path, top, |f.subfolders|);
      forall i | 0 <= i < |here| ensures NotBelowExcluded(excluded, here[i].1) {
        FileBelowKept(excluded, path, f.files[i]);
      }
      WalkSubsAvoidsExcluded(excluded, f, path, top, |f.subfolders|);
      forall i | 0 <= i < |here + below| ensures NotBelowExcluded(excluded, (here + below)[i].1) {
        if i >= |here| { assert (here + below)[i] == below[i - |here|]; }
      }
    }
  }

  lemma {:induction false} WalkSubsAvoidsExcluded(excluded: seq<string>, f: Folder, path: string, top: Option<string>, n: nat)
    requires WellNamed(f) && n <= |f.subfolders|
    ensures NoneBelowExcluded(excluded, WalkSubs(excluded, f, path, top, n))
    decreases f, n
  {
    if n > 0 {
      var sub := f.subfolders[n - 1];
      var subTop := if top.None? then Some(sub.name) else top;
      var front: seq<(string, string)> := WalkSubs(excluded, f, path, top, n - 1);
      var back: seq<(string, string)> := Walk(excluded, sub, PathJoin(path, sub.name), subTop);
      WalkSubsAvoidsExcluded(excluded, f, path, top, n - 1);
      WalkAvoidsExcluded(excluded, sub, PathJoin(path, sub.name), subTop);
      forall i | 0 <= i < |front + back| ensures NotBelowExcluded(excluded, (front + back)[i].1) {
        if i >= |front| { assert (front + back)[i] == back[i - |front|]; }
      }
    }
  }

  /** Below the first level every file keeps the group of the top-level
      folder it was reached through. */
  lemma {:induction false} WalkKeepsGroup(excluded: seq<string>, f: Folder, path: string, t: string)
    ensures AllInGroup(Walk(excluded, f, path, Some(t)), t)
    decreases f, |f.subfolders| + 1
  {
    if !IsExcluded(excluded, path) {
      var here: seq<(string, string)> := FilesHere(t, path, f.files);
      var below: seq<(string, string)> := WalkSubs(excluded, f, path, Some(t), |f.subfolders|);
      WalkSubsKeepGroup(excluded, f, path, t, |f.subfolders|);
      forall i | 0 <= i < |here + below| ensures (here + below)[i].0 == t {
        if i >= |here| {
          assert (here + below)[i] == below[i - |here|];
          assert below[i - |here|].0 == t;
        } else {
          assert (here + below)[i] == here[i];
          assert here[i].0 == t;
        }
      }
    }
  }

  lemma {:induction false} WalkSubsKeepGroup(excluded: seq<string>, f: Folder, path: string, t: string, n: nat)
    requires n <= |f.subfolders|
    ensures AllInGroup(WalkSubs(excluded, f, path, Some(t), n), t)
    decreases f, n
  {
    if n > 0 {
      var sub := f.subfolders[n - 1];
      var front: seq<(string, string)> := WalkSubs(excluded, f, path, Some(t), n - 1);
      var back: seq<(string, string)> := Walk(excluded, sub, PathJoin(path, sub.name), Some(t));
      WalkSubsKeepGroup(excluded, f, path, t, n - 1);
      WalkKeepsGroup(excluded, sub, PathJoin(path, sub.name), t);
      forall i | 0 <= i < |front + back| ensures (front + back)[i].0 == t {
        if i >= |front| { assert (front + back)[i] == back[i - |front|]; }
      }
    }
  }

  /** A top-level walk gives every file either the group `root` (the files of
      the root directory, listed first) or the name of one of the root's
      subdirectories; an excluded root lists nothing. */
  lemma AnalyzeGroups(excluded: seq<string>, root: Folder, rootPath: string)
    ensures && (IsExcluded(excluded, rootPath) ==> Walk(excluded, root, rootPath, None) == [])
      && (!IsExcluded(excluded, rootPath) ==> Walk(excluded, root, rootPath, None)[..|root.files|] == FilesHere("root", rootPath, root.files))
      && forall i :: 0 <= i < |Walk(excluded, root, rootPath, None)| ==>
           Walk(excluded, root, rootPath, None)[i].0 == "root" || exists j :: 0 <= j < |root.subfolders| && Walk(excluded, root, rootPath, None)[i].0 == root.subfolders[j].name
  {
    if !IsExcluded(excluded, rootPath) {
      var here: seq<(string, string)> := FilesHere("root", rootPath, root.files);
      var below: seq<(string, string)> := WalkSubs(excluded, root, rootPath, None, |root.subfolders|);
      assert (here + below)[..|here|] == here;
      TopLevelGroups(excluded, root, rootPath, |root.subfolders|);
      forall i | 0 <= i < |here + below|
        ensures (here + below)[i].0 == "root" || exists j :: 0 <= j < |root.subfolders| && (here + below)[i].0 == root.subfolders[j].name
      {
        if i >= |here| { assert (here + below)[i] == below[i - |here|]; }
      }
    }
  }

  /** Every listed path has the name of one of the first `n` subdirectories
      of `root` as its group. */
  predicate AmongFirst(listing: seq<(string, string)>, root: Folder, n: nat)
    requires n <= |root.subfolders|
  {
    forall i :: 0 <= i < |listing| ==> exists j :: 0 <= j < n && listing[i].0 == root.subfolders[j].name
  }

  lemma {:induction false} TopLevelGroups(excluded: seq<string>, root: Folder, rootPath: string, n: nat)
    requires n <= |root.subfolders|
    ensures AmongFirst(WalkSubs(excluded, root, rootPath, None, n), root, n)
  {
    if n > 0 {
      var sub := root.subfolders[n - 1];
      var front: seq<(string, string)> := WalkSubs(excluded, root, rootPath, None, n - 1);
      var back: seq<(string, string)> := Walk(excluded, sub, PathJoin(rootPath, sub.name), Some(sub.name));
      TopLevelGroups(excluded, root, rootPath, n - 1);
      WalkKeepsGroup(excluded, sub, PathJoin(rootPath, sub.name), sub.name);
      assert WalkSubs(excluded, root, rootPath, None, n) == front + back;
      forall i | 0 <= i < |front + back| ensures exists j :: 0 <= j < n && (front + back)[i].0 == root.subfolders[j].name {
        if i >= |front| {
          assert (front + back)[i] == back[i - |front|];
          assert (front + back)[i].0 == root.subfolders[n - 1].name;
        } else {
          assert (front + back)[i] == front[i];
          var j :| 0 <= j < n - 1 && front[i].0 == root.subfolders[j].name;
        }
      }
      assert AmongFirst(front + back, root, n);
    }
  }
}
