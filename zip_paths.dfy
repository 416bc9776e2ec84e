/** How `ZipArchiveProcessor` turns an archive member name into a relative
    path: rejecting unsafe names, shortening long leaf names and renumbering
    names that collide with ones already extracted. */
module ZipPaths {
  import opened Wrappers
  import opened Text
  import opened Paths

  function Max(a: int, b: int): int { if a >= b then a else b }
  function Min(a: int, b: int): int { if a <= b then a else b }

  predicate IsAsciiLetter(c: char) {
    'A' <= c <= 'Z' || 'a' <= c <= 'z'
  }

  /** The name starts with a drive letter and a colon (`^[A-Za-z]:`). */
  predicate DriveStart(s: string) {
    |s| >= 2 && IsAsciiLetter(s[0]) && s[1] == ':'
  }

  /** Backslashes read as `/`. */
  function Normalize(name: string): (r: string)
    ensures |r| == |name| && '\\' !in r
  {
    ReplaceChar(name, '\\', '/')
  }

  /** A name without backslashes is already normal. */
  lemma NormalizeClean(name: string)
    requires '\\' !in name
    ensures Normalize(name) == name
  {
    assert forall i :: 0 <= i < |name| ==> Normalize(name)[i] == name[i];
  }

  /** The segments a member path keeps: every one but empty and `.` ones. */
  function KeptSegments(parts: seq<string>): seq<string> {
    if |parts| == 0 then []
    else
      var rest := KeptSegments(parts[1..]);
      if parts[0] == "" || parts[0] == "." then rest else [parts[0]] + rest
  }

  /** The kept segments are exactly the segments other than empty and `.`
      ones: none is dropped and none is invented. */
  lemma {:induction false} KeptSegmentsSpec(parts: seq<string>)
    ensures var kept := KeptSegments(parts);
      && |kept| <= |parts|
      && (forall k :: 0 <= k < |kept| ==> kept[k] != "" && kept[k] != "." && kept[k] in parts)
      && (forall k :: 0 <= k < |parts| && parts[k] != "" && parts[k] != "." ==> parts[k] in kept)
  {
    if |parts| > 0 {
      KeptSegmentsSpec(parts[1..]);
      assert forall k :: 1 <= k < |parts| ==> parts[k] == parts[1..][k - 1];
    }
  }

  /** `_safe_member_path`: `None` for a name that is empty, absolute, starts
      with a drive, climbs out with `..` or names nothing; otherwise the kept
      segments joined by `/`, plus a trailing `/` when the name had one. */
  function SafeMemberPath(name: string): Option<string> {
    if name == "" then None
    else
      var normalized := Normalize(name);
      if StartsWith(normalized, "/") then None
      else if DriveStart(normalized) then None
      else
        var parts := Split(normalized, '/');
        if ".." in parts then None
        else
          var kept := KeptSegments(parts);
          if kept == [] then None
          else Some(Join(kept, "/") + (if EndsWith(normalized, "/") then "/" else ""))
  }

  /** The name is rejected exactly when it is empty, absolute, starts with a
      drive, has a `..` segment, or has no segment besides empty and `.`
      ones. */
  lemma SafeMemberPathAccepts(name: string)
    ensures SafeMemberPath(name).Some? <==>
      && name != ""
      && !StartsWith(Normalize(name), "/")
      && !DriveStart(Normalize(name))
      && ".." !in Split(Normalize(name), '/')
      && (exists k :: 0 <= k < |Split(Normalize(name), '/')|
            && Split(Normalize(name), '/')[k] != "" && Split(Normalize(name), '/')[k] != ".")
  {
    var parts := Split(Normalize(name), '/');
    KeptSegmentsSpec(parts);
    var kept := KeptSegments(parts);
    if kept != [] {
      var j :| 0 <= j < |parts| && parts[j] == kept[0];
    }
  }

  /** A safe path is relative, has no backslash, and its segments are the
      kept segments of the name, none of them empty, `.` or `..`, followed by
      one empty segment exactly when the name ended with `/`. */
  lemma SafeMemberPathShape(name: string)
    requires SafeMemberPath(name).Some?
    ensures var v := SafeMemberPath(name).value;
      var kept := KeptSegments(Split(Normalize(name), '/'));
      && Split(v, '/') == kept + (if EndsWith(Normalize(name), "/") then [""] else [])
      && (forall k :: 0 <= k < |kept| ==> kept[k] != "" && kept[k] != "." && kept[k] != "..")
      && '\\' !in v
      && !StartsWith(v, "/")
  {
    var normalized := Normalize(name);
    var parts := Split(normalized, '/');
    var kept := KeptSegments(parts);
    KeptSegmentsSpec(parts);
    var v := SafeMemberPath(name).value;
    var trailing := EndsWith(normalized, "/");
    var segs := kept + (if trailing then [""] else []);
    assert forall k :: 0 <= k < |kept| ==> '/' !in kept[k];
    if trailing {
      JoinSnoc(kept, "", "/");
      assert v == Join(segs, "/");
    } else {
      assert segs == kept;
    }
    SplitJoin(segs, '/');
    assert v == Join(segs, "/");
    if '\\' in v {
      JoinChars(segs, "/", '\\');
      var k :| 0 <= k < |segs| && '\\' in segs[k];
      assert segs[k] == kept[k];
      var j :| 0 <= j < |parts| && parts[j] == kept[k];
      SplitChars(normalized, '/', j, '\\');
    }
    assert kept[0] != "" && Split(v, '/')[0] == kept[0];
  }

  /** The drive test only looks at the start of the normalised name: a
      drive-prefixed segment behind `./` is kept, so `./C:x` yields `C:x`. */
  lemma DriveAfterDotKept(x: string)
    requires DriveStart(x) && '/' !in x && '\\' !in x
    ensures SafeMemberPath("./" + x) == Some(x)
  {
    var name := "./" + x;
    assert '\\' !in name by {
      forall i | 2 <= i < |name| ensures name[i] != '\\' { assert name[i] == x[i - 2]; }
    }
    NormalizeClean(name);
    assert name == "." + ['/'] + x;
    SplitAppend(".", x, '/');
    SplitNoSep(x, '/');
    assert KeptSegments([".", x]) == [x] by {
      assert [".", x][1..] == [x];
      assert [x][1..] == [];
      assert KeptSegments([x]) == [x] + KeptSegments([]);
    }
    assert !EndsWith(name, "/") by {
      assert name[|name| - 1] == x[|x| - 1];
    }
    assert Join([x], "/") + "" == x;
  }

  /** The base length `_truncate_leaf_name` keeps. */
  function AllowedBase(maxLen: int, extLen: nat, includeExt: bool): int {
    if includeExt then Max(1, maxLen - extLen) else maxLen
  }

  /** `_truncate_leaf_name` (archive flavour): unchanged when `maxLen <= 0`;
      otherwise the extension is kept and the base cut to the allowed length. */
  function TruncateLeafName(name: string, maxLen: int, includeExt: bool): string {
    if maxLen <= 0 then name
    else
      var (base, ext) := Splitext(name);
      var allowed := AllowedBase(maxLen, |ext|, includeExt);
      if |base| > allowed then base[..allowed] + ext else base + ext
  }

  /** A name comes back unchanged when there is no limit or it is already
      short enough. */
  lemma TruncateShortUnchanged(name: string, maxLen: int, includeExt: bool)
    requires maxLen <= 0 || |name| <= maxLen
    ensures TruncateLeafName(name, maxLen, includeExt) == name
  {
    var (base, ext) := Splitext(name);
    assert base + ext == name;
  }

  /** The truncated name ends with the original extension and starts with
      the longest prefix of the original base the allowance permits, so it
      fits in `maxLen` characters whenever the extension is counted and
      shorter than `maxLen`. */
  lemma TruncateBounds(name: string, maxLen: int, includeExt: bool)
    requires maxLen > 0
    ensures var r := TruncateLeafName(name, maxLen, includeExt);
      var (base, ext) := Splitext(name);
      && |r| - |ext| == Min(|base|, AllowedBase(maxLen, |ext|, includeExt))
      && EndsWith(r, ext)
      && StartsWith(base, r[..|r| - |ext|])
      && (includeExt && |ext| < maxLen ==> |r| <= maxLen)
      && (!includeExt ==> |r| <= maxLen + |ext|)
  {
    var r := TruncateLeafName(name, maxLen, includeExt);
    var (base, ext) := Splitext(name);
    var keep := Min(|base|, AllowedBase(maxLen, |ext|, includeExt));
    assert r[..|r| - |ext|] == base[..keep];
    assert r[|r| - |ext|..] == ext;
  }

  /** The highest counter `_unique_path` tries. */
  const MaxCounter: nat := 99999

  /** Where a colliding candidate lives: the directory prefix (the segments
      before the last, joined) and the leaf's base and extension. */
  function Locate(candidate: string): (string, string, string) {
    var parts := Split(candidate, '/');
    var (base, ext) := Splitext(parts[|parts| - 1]);
    (Join(parts[..|parts| - 1], "/"), base, ext)
  }

  /** The leaf tried for `counter`: the base, cut so that the suffix (and the
      extension, when counted) fit `maxLen`, then `_<counter>`, then the
      extension. */
  function RenumberedLeaf(base: string, ext: string, counter: nat, maxLen: int, includeExt: bool): string {
    var suffix := "_" + NatToString(counter);
    var allowed :=
      if maxLen <= 0 then |base|
      else if includeExt then Max(1, maxLen - |ext| - |suffix|)
      else Max(1, maxLen - |suffix|);
    base[..Min(allowed, |base|)] + suffix + ext
  }

  /** The path tried for `counter`: the renumbered leaf in the candidate's
      directory. */
  function Renumbered(candidate: string, counter: nat, maxLen: int, includeExt: bool): string {
    var (dir, base, ext) := Locate(candidate);
    var leaf := RenumberedLeaf(base, ext, counter, maxLen, includeExt);
    if dir != "" then dir + "/" + leaf else leaf
  }

  /** The counters whose renumbered path is already used. */
  function Taken(candidate: string, used: set<string>, maxLen: int, includeExt: bool): nat -> bool {
    (k: nat) => Renumbered(candidate, k, maxLen, includeExt) in used
  }

  /** The first counter from `from` on that is not taken, if any up to
      `MaxCounter` is. */
  function FirstFree(taken: nat -> bool, from: nat): Option<nat>
    decreases MaxCounter + 1 - from
  {
    if from > MaxCounter then None
    else if !taken(from) then Some(from)
    else FirstFree(taken, from + 1)
  }

  /** The counter found is free and every earlier one from `from` is taken;
      finding none means every counter from `from` to `MaxCounter` is taken. */
  lemma {:induction false} FirstFreeSpec(taken: nat -> bool, from: nat)
    ensures var r := FirstFree(taken, from);
      && (r.Some? ==> from <= r.value <= MaxCounter && !taken(r.value))
      && (r.Some? ==> forall k :: from <= k < r.value ==> taken(k))
      && (r.None? ==> forall k :: from <= k <= MaxCounter ==> taken(k))
    decreases MaxCounter + 1 - from
  {
    if from <= MaxCounter && taken(from) {
      FirstFreeSpec(taken, from + 1);
    }
  }

  /** What `_unique_path` returns: the candidate itself when unused, else the
      path of the smallest free counter, flagged as renamed; an error when all
      counters up to `MaxCounter` are taken. */
  function UniqueName(candidate: string, used: set<string>, maxLen: int, includeExt: bool): Result<(string, bool)> {
    if candidate !in used then Ok((candidate, false))
    else
      match FirstFree(Taken(candidate, used, maxLen, includeExt), 1)
      case None => Err("Unable to resolve ZIP filename collisions.")
      case Some(k) => Ok((Renumbered(candidate, k, maxLen, includeExt), true))
  }

  /** `_unique_path`: tries counters 1, 2, ... in order. */
  method UniquePath(candidate: string, used: set<string>, maxLen: int, includeExt: bool)
    returns (r: Result<(string, bool)>)
    ensures r == UniqueName(candidate, used, maxLen, includeExt)
  {
    if candidate !in used {
      return Ok((candidate, false));
    }
    ghost var taken := Taken(candidate, used, maxLen, includeExt);
    var (dirPrefix, base, ext) := Locate(candidate);
    for counter := 1 to MaxCounter + 1
      invariant FirstFree(taken, counter) == FirstFree(taken, 1)
    {
      var nextLeaf := RenumberedLeaf(base, ext, counter, maxLen, includeExt);
      var next := if dirPrefix != "" then dirPrefix + "/" + nextLeaf else nextLeaf;
      assert taken(counter) == (next in used);
      if next !in used {
        return Ok((next, true));
      }
    }
    return Err("Unable to resolve ZIP filename collisions.");
  }

  /** The result is never a used path; it is the candidate exactly when the
      candidate is unused, and otherwise the renumbered path of the smallest
      free counter; the error means every counter up to `MaxCounter` is taken. */
  lemma UniqueNameSpec(candidate: string, used: set<string>, maxLen: int, includeExt: bool)
    ensures var r := UniqueName(candidate, used, maxLen, includeExt);
      && (r.Ok? ==> r.value.0 !in used)
      && (r.Ok? ==> (r.value.1 <==> candidate in used))
      && (candidate !in used ==> r == Ok((candidate, false)))
      && (r.Ok? && r.value.1 ==>
            (exists k :: 1 <= k <= MaxCounter
              && r.value.0 == Renumbered(candidate, k, maxLen, includeExt)
              && forall j :: 1 <= j < k ==> Renumbered(candidate, j, maxLen, includeExt) in used))
      && (r.Err? <==> candidate in used && forall k :: 1 <= k <= MaxCounter ==> Renumbered(candidate, k, maxLen, includeExt) in used)
  {
    var taken := Taken(candidate, used, maxLen, includeExt);
    FirstFreeSpec(taken, 1);
    forall k: nat ensures taken(k) == (Renumbered(candidate, k, maxLen, includeExt) in used) {}
    var f := FirstFree(taken, 1);
    if candidate in used && f.Some? {
      assert !taken(f.value);
      assert forall j :: 1 <= j < f.value ==> taken(j);
    }
    if candidate in used && f.None? {
      assert forall k :: 1 <= k <= MaxCounter ==> taken(k);
    }
  }

  /** Neither piece of a leaf split at its extension holds a `/`. */
  lemma SplitextNoSlash(leafName: string)
    requires '/' !in leafName
    ensures '/' !in Splitext(leafName).0 && '/' !in Splitext(leafName).1
  {
    var (base, ext) := Splitext(leafName);
    assert base + ext == leafName;
    forall i | 0 <= i < |base| ensures base[i] != '/' {
      assert base[i] == leafName[i];
    }
  }

  /** A renumbered leaf has no `/` and ends with the extension it was given. */
  lemma RenumberedLeafShape(base: string, ext: string, counter: nat, maxLen: int, includeExt: bool)
    requires '/' !in base && '/' !in ext
    ensures var leaf := RenumberedLeaf(base, ext, counter, maxLen, includeExt);
      '/' !in leaf && EndsWith(leaf, ext)
  {
    var leaf := RenumberedLeaf(base, ext, counter, maxLen, includeExt);
    var digits := NatToString(counter);
    var suffix := "_" + digits;
    var keep := |leaf| - |suffix| - |ext|;
    forall i | 0 <= i < |leaf| ensures leaf[i] != '/' {
      if i < keep {
        assert leaf[i] == base[i];
      } else if i < keep + |suffix| {
        assert leaf[i] == suffix[i - keep];
        if i > keep { assert suffix[i - keep] == digits[i - keep - 1]; }
      } else {
        assert leaf[i] == ext[i - keep - |suffix|];
      }
    }
    assert leaf[|leaf| - |ext|..] == ext;
  }

  /** Putting a `/`-free leaf after a directory prefix splits into the
      prefix's segments and the leaf. */
  lemma DirectoryThenLeaf(parts: seq<string>, leaf: string)
    requires |parts| > 0 && '/' !in leaf
    ensures var dir := Join(parts[..|parts| - 1], "/");
      Split(if dir != "" then dir + "/" + leaf else leaf, '/')
        == (if dir != "" then parts[..|parts| - 1] else []) + [leaf]
    requires forall k :: 0 <= k < |parts| ==> '/' !in parts[k]
  {
    var ds := parts[..|parts| - 1];
    if Join(ds, "/") != "" {
      assert ds != [];
      assert forall k :: 0 <= k < |ds| ==> '/' !in ds[k] by {
        forall k | 0 <= k < |ds| ensures '/' !in ds[k] { assert ds[k] == parts[k]; }
      }
      JoinSnoc(ds, leaf, "/");
      SplitJoin(ds + [leaf], '/');
    } else {
      SplitNoSep(leaf, '/');
    }
  }

  /** A renumbered path stays in the candidate's directory: its segments are
      the candidate's directory segments followed by the new leaf, which has
      no `/` and ends with the candidate's extension. */
  lemma RenumberedSameDirectory(candidate: string, counter: nat, maxLen: int, includeExt: bool)
    ensures var parts := Split(candidate, '/');
      var (dir, base, ext) := Locate(candidate);
      var leaf := RenumberedLeaf(base, ext, counter, maxLen, includeExt);
      && '/' !in leaf
      && EndsWith(leaf, ext)
      && Split(Renumbered(candidate, counter, maxLen, includeExt), '/')
         == (if dir != "" then parts[..|parts| - 1] else []) + [leaf]
  {
    var parts := Split(candidate, '/');
    var (dir, base, ext) := Locate(candidate);
    SplitextNoSlash(parts[|parts| - 1]);
    RenumberedLeafShape(base, ext, counter, maxLen, includeExt);
    DirectoryThenLeaf(parts, RenumberedLeaf(base, ext, counter, maxLen, includeExt));
  }

  /** Renumbered leaves are at most `maxLen` long whenever the extension and
      the counter suffix together are shorter than `maxLen`. */
  lemma RenumberedLeafBound(base: string, ext: string, counter: nat, maxLen: int)
    requires |ext| + 1 + |NatToString(counter)| < maxLen
    ensures |RenumberedLeaf(base, ext, counter, maxLen, true)| <= maxLen
  {
  }
}
