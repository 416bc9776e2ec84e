/** `_prepare_groups_with_zip_expansion` and the classification of a
    group's files: archives found in the input groups are extracted into
    groups of their own, every input file is weighed once, and the files of a
    group are split into supported kinds. */
module Expansion {
  import opened Wrappers
  import opened Text
  import opened Order
  import opened Warnings
  import opened ZipExtract
  import opened ZipGroups

  // ---------------------------------------------------------------------------
  // Filtering and classification

  /** `[x for x in xs if keep(x)]`. */
  function Filter(xs: seq<string>, keep: string -> bool): (r: seq<string>)
    ensures |r| <= |xs|
  {
    if |xs| == 0 then []
    else Filter(xs[..|xs| - 1], keep) + (if keep(xs[|xs| - 1]) then [xs[|xs| - 1]] else [])
  }

  /** The filter keeps exactly the elements that pass, each as often as it
      occurs. */
  lemma {:induction false} FilterMultiset(xs: seq<string>, keep: string -> bool)
    ensures forall x :: multiset(Filter(xs, keep))[x] == if keep(x) then multiset(xs)[x] else 0
  {
    if |xs| > 0 {
      var init := xs[..|xs| - 1];
      FilterMultiset(init, keep);
      assert xs == init + [xs[|xs| - 1]];
    }
  }

  lemma FilterMembers(xs: seq<string>, keep: string -> bool)
    ensures forall x :: x in Filter(xs, keep) <==> x in xs && keep(x)
  {
    FilterMultiset(xs, keep);
    forall x ensures x in Filter(xs, keep) <==> x in xs && keep(x) {
      assert x in Filter(xs, keep) <==> x in multiset(Filter(xs, keep));
      assert x in xs <==> x in multiset(xs);
    }
  }

  /** Filtering by a test and by its negation splits the list. */
  lemma FilterPartition(xs: seq<string>, keep: string -> bool, drop: string -> bool)
    requires forall x :: drop(x) == !keep(x)
    ensures multiset(Filter(xs, keep)) + multiset(Filter(xs, drop)) == multiset(xs)
    ensures |Filter(xs, keep)| + |Filter(xs, drop)| == |xs|
  {
    FilterMultiset(xs, keep);
    FilterMultiset(xs, drop);
    assert multiset(Filter(xs, keep)) + multiset(Filter(xs, drop)) == multiset(xs);
    assert |multiset(Filter(xs, keep)) + multiset(Filter(xs, drop))| == |multiset(xs)|;
  }

  predicate IsZip(p: string) {
    EndsWithIgnoreCase(p, ".zip")
  }

  predicate NotZip(p: string) {
    !IsZip(p)
  }

  predicate IsPdf(p: string) {
    EndsWithIgnoreCase(p, ".pdf")
  }

  predicate IsWord(p: string) {
    EndsWithIgnoreCase(p, ".docx") || EndsWithIgnoreCase(p, ".doc")
  }

  predicate IsEmail(p: string) {
    EndsWithIgnoreCase(p, ".msg") || EndsWithIgnoreCase(p, ".eml")
  }

  /** `_is_supported_processable_file`: one of the five extensions, in any
      case. */
  predicate IsSupported(p: string) {
    EndsWithIgnoreCase(p, ".pdf") || EndsWithIgnoreCase(p, ".docx") || EndsWithIgnoreCase(p, ".doc")
    || EndsWithIgnoreCase(p, ".msg") || EndsWithIgnoreCase(p, ".eml")
  }

  /** A path that ends with `suffix` ends with its last character. */
  lemma LastChar(s: string, suffix: string)
    requires EndsWith(s, suffix) && |suffix| > 0
    ensures s[|s| - 1] == suffix[|suffix| - 1]
  {
    assert s[|s| - |suffix|..][|suffix| - 1] == s[|s| - 1];
  }

  /** Every supported file is of exactly one kind: PDF, Word or email. */
  lemma ExactlyOneKind(p: string)
    ensures IsSupported(p) <==> IsPdf(p) || IsWord(p) || IsEmail(p)
    ensures !(IsPdf(p) && IsWord(p)) && !(IsPdf(p) && IsEmail(p)) && !(IsWord(p) && IsEmail(p))
  {
    var l := Lower(p);
    if EndsWith(l, ".pdf") { LastChar(l, ".pdf"); }
    if EndsWith(l, ".docx") { LastChar(l, ".docx"); }
    if EndsWith(l, ".doc") { LastChar(l, ".doc"); }
    if EndsWith(l, ".msg") { LastChar(l, ".msg"); }
    if EndsWith(l, ".eml") { LastChar(l, ".eml"); }
  }

  /** `[f for f in xs if f not in among]`. */
  function NotAmong(xs: seq<string>, among: seq<string>): (r: seq<string>)
  {
    if |xs| == 0 then []
    else NotAmong(xs[..|xs| - 1], among) + (if xs[|xs| - 1] !in among then [xs[|xs| - 1]] else [])
  }

  predicate IsUnsupported(p: string) {
    !IsSupported(p)
  }

  /** Leaving out the members of the supported list is filtering by the
      negated test. */
  lemma {:induction false} NotAmongSupported(xs: seq<string>, all: seq<string>)
    requires forall x :: x in Filter(all, IsSupported) <==> x in all && IsSupported(x)
    requires forall x :: x in xs ==> x in all
    ensures NotAmong(xs, Filter(all, IsSupported)) == Filter(xs, IsUnsupported)
  {
    if |xs| > 0 {
      NotAmongSupported(xs[..|xs| - 1], all);
      assert xs[|xs| - 1] in all;
    }
  }

  /** A group's files as the merge loop splits them. */
  datatype Kinds = Kinds(
    supported: seq<string>,
    unsupported: seq<string>,
    pdfs: seq<string>,
    words: seq<string>,
    emails: seq<string>)

  /** Sorting a group's files, separating the unsupported ones, and
      splitting the rest by kind. */
  function SplitGroup(files: seq<string>): Kinds {
    var groupFiles := SortStrings(files);
    var supported := Filter(groupFiles, IsSupported);
    Kinds(supported, NotAmong(groupFiles, supported),
          Filter(supported, IsPdf), Filter(supported, IsWord), Filter(supported, IsEmail))
  }

  /** Counts of the three kinds within a list of supported files. */
  lemma {:induction false} KindCounts(xs: seq<string>)
    requires forall x :: x in xs ==> IsSupported(x)
    ensures |Filter(xs, IsPdf)| + |Filter(xs, IsWord)| + |Filter(xs, IsEmail)| == |xs|
  {
    if |xs| > 0 {
      KindCounts(xs[..|xs| - 1]);
      ExactlyOneKind(xs[|xs| - 1]);
    }
  }

  /** Every file of a group is either supported or unsupported, and every
      supported file lands in exactly one of the PDF, Word and email lists,
      each in sorted order. */
  lemma SplitGroupPartitions(files: seq<string>)
    ensures var k := SplitGroup(files);
      && multiset(k.supported) + multiset(k.unsupported) == multiset(files)
      && (forall x :: x in k.supported ==> IsSupported(x))
      && (forall x :: x in k.unsupported ==> !IsSupported(x))
      && |k.pdfs| + |k.words| + |k.emails| == |k.supported|
      && (forall x :: x in k.pdfs ==> x in k.supported && IsPdf(x))
      && (forall x :: x in k.words ==> x in k.supported && IsWord(x))
      && (forall x :: x in k.emails ==> x in k.supported && IsEmail(x))
  {
    var groupFiles := SortStrings(files);
    var supported := Filter(groupFiles, IsSupported);
    FilterMembers(groupFiles, IsSupported);
    NotAmongSupported(groupFiles, groupFiles);
    FilterPartition(groupFiles, IsSupported, IsUnsupported);
    FilterMembers(groupFiles, IsUnsupported);
    KindCounts(supported);
    FilterMembers(supported, IsPdf);
    FilterMembers(supported, IsWord);
    FilterMembers(supported, IsEmail);
  }

  // ---------------------------------------------------------------------------
  // Expanding archives into groups

  /** The archive settings of the engine. */
  datatype ZipConfig = ZipConfig(
    processZipArchives: bool,
    maxFilenameLength: int,
    includeExtensionInLimit: bool,
    nestedDepthLimit: int,
    maxExtractBytes: int)

  /** The outside world: the archives, and the temporary folder created for
      each ZIP group name (`None` when it cannot be created). */
  datatype Env = Env(disk: Disk, tempRoot: string -> Option<string>, config: ZipConfig)

  /** The `zip_processing` summary of a run. */
  datatype Summary = Summary(
    archivesFound: nat,
    archivesExtracted: nat,
    archivesFailed: nat,
    entriesTotal: nat,
    entriesExtracted: nat,
    entriesRenamed: nat,
    entriesSkippedUnsafePath: nat,
    nestedArchivesExtracted: nat,
    nestedArchivesSkippedDepth: nat)

  /** `_merge_zip_stats`: adds the eight extraction counters of one call. */
  function MergeZipStats(acc: Summary, update: Stats): (r: Summary)
    ensures r.archivesFound == acc.archivesFound
  {
    Summary(
      acc.archivesFound,
      acc.archivesExtracted + update.archivesExtracted,
      acc.archivesFailed + update.archivesFailed,
      acc.entriesTotal + update.entriesTotal,
      acc.entriesExtracted + update.entriesExtracted,
      acc.entriesRenamed + update.entriesRenamed,
      acc.entriesSkippedUnsafePath + update.entriesSkippedUnsafePath,
      acc.nestedArchivesExtracted + update.nestedArchivesExtracted,
      acc.nestedArchivesSkippedDepth + update.nestedArchivesSkippedDepth)
  }

  /** The dictionaries and lists the expansion fills. `meta` maps a ZIP
      group to its source archive and extraction root. */
  datatype Prep = Prep(
    expanded: map<string, seq<string>>,
    weights: map<string, nat>,
    used: set<string>,
    tempDirs: seq<string>,
    meta: map<string, (string, string)>,
    summary: Summary,
    warnings: seq<Warning>)

  /** `d[k].extend(xs)` on a `defaultdict(list)`. */
  function Extend(m: map<string, seq<string>>, k: string, xs: seq<string>): map<string, seq<string>> {
    m[k := (if k in m then m[k] else []) + xs]
  }

  /** `d[k] += n` on a `defaultdict(int)`. */
  function Bump(w: map<string, nat>, k: string, n: nat): map<string, nat> {
    w[k := (if k in w then w[k] else 0) + n]
  }

  /** One archive of a group: a fresh group name, one unit of weight, a
      temporary folder, the extraction at depth 0 and its statistics; the
      extracted files form the new group, or a warning says there were
      none. */
  function ExpandZip(env: Env, p: Prep, group: string, zipFile: string): Result<Prep> {
    var found := p.summary.(archivesFound := p.summary.archivesFound + 1);
    match ZipGroupName(group, zipFile, p.used)
    case Err(message) => Err(message)
    case Ok(name) =>
      var q := p.(summary := found, used := p.used + {name}, weights := Bump(p.weights, name, 1));
      match env.tempRoot(name)
      case None =>
        Ok(q.(summary := q.summary.(archivesFailed := q.summary.archivesFailed + 1),
              warnings := q.warnings + [ArchiveWarning(ZipDirectoryFailed, zipFile)]))
      case Some(root) =>
        var c := env.config;
        var result := Extract(env.disk, zipFile, root, c.maxFilenameLength, c.includeExtensionInLimit,
                              0, c.nestedDepthLimit, c.maxExtractBytes);
        var r := q.(tempDirs := q.tempDirs + [root], summary := MergeZipStats(q.summary, result.0),
                    warnings := q.warnings + result.1);
        if result.0.extractedFiles != [] then
          Ok(r.(expanded := Extend(r.expanded, name, result.0.extractedFiles), meta := r.meta[name := (zipFile, root)]))
        else
          Ok(r.(warnings := r.warnings + [ArchiveWarning(ZipEmptyAfterExtraction, zipFile)]))
  }

  /** The archives of one group, in order; an exception ends the run. */
  function ExpandZips(env: Env, p: Prep, group: string, zips: seq<string>): Result<Prep> {
    if |zips| == 0 then Ok(p)
    else
      match ExpandZips(env, p, group, zips[..|zips| - 1])
      case Err(message) => Err(message)
      case Ok(q) => ExpandZip(env, q, group, zips[|zips| - 1])
  }

  /** `zip_files`: a group's sorted archives. */
  function ZipFiles(files: seq<string>): seq<string> {
    Filter(SortStrings(files), IsZip)
  }

  /** `non_zip_files`: a group's sorted files that are not archives. */
  function NonZipFiles(files: seq<string>): seq<string> {
    Filter(SortStrings(files), NotZip)
  }

  /** One input group: its other files stay in the group and weigh one
      each; its archives are weighed in the group when archives are not
      processed, and are expanded otherwise. */
  function ExpandGroup(env: Env, p: Prep, group: string, files: seq<string>): Result<Prep> {
    var zips := ZipFiles(files);
    var others := NonZipFiles(files);
    var q :=
      if others != [] then p.(expanded := Extend(p.expanded, group, others), weights := Bump(p.weights, group, |others|))
      else p;
    if !env.config.processZipArchives then Ok(q.(weights := Bump(q.weights, group, |zips|)))
    else ExpandZips(env, q, group, zips)
  }

  /** The groups named by `keys`, in order. */
  function ExpandGroups(env: Env, groups: map<string, seq<string>>, keys: seq<string>, p: Prep): Result<Prep>
    requires forall k :: k in keys ==> k in groups
  {
    if |keys| == 0 then Ok(p)
    else
      match ExpandGroups(env, groups, keys[..|keys| - 1], p)
      case Err(message) => Err(message)
      case Ok(q) => ExpandGroup(env, q, keys[|keys| - 1], groups[keys[|keys| - 1]])
  }

  /** The state before the first group: every input group name is taken. */
  function Start(groups: map<string, seq<string>>, summary: Summary, warnings: seq<Warning>): Prep {
    Prep(map[], map[], groups.Keys, [], map[], summary, warnings)
  }

  /** `_prepare_groups_with_zip_expansion`, groups in sorted order. */
  ghost function Prepare(env: Env, groups: map<string, seq<string>>, summary: Summary, warnings: seq<Warning>): Result<Prep> {
    ExpandGroups(env, groups, SortedKeysOf(groups.Keys), Start(groups, summary, warnings))
  }

  // ---------------------------------------------------------------------------
  // The procedure

  /** One archive. */
  method ExpandZipArchive(env: Env, p: Prep, group: string, zipFile: string) returns (r: Result<Prep>)
    ensures r == ExpandZip(env, p, group, zipFile)
  {
    var summary := p.summary.(archivesFound := p.summary.archivesFound + 1);
    var allocation := AllocateZipGroupName(group, zipFile, p.used);
    if allocation.Err? {
      return Err(allocation.message);
    }
    var name := allocation.value;
    var weights := Bump(p.weights, name, 1);
    var used := p.used + {name};
    var extractionRoot := env.tempRoot(name);
    if extractionRoot.None? {
      summary := summary.(archivesFailed := summary.archivesFailed + 1);
      return Ok(p.(summary := summary, used := used, weights := weights,
                   warnings := p.warnings + [ArchiveWarning(ZipDirectoryFailed, zipFile)]));
    }
    var root := extractionRoot.value;
    var c := env.config;
    var stats, logged := ExtractArchive(env.disk, zipFile, root, c.maxFilenameLength, c.includeExtensionInLimit,
                                        0, c.nestedDepthLimit, c.maxExtractBytes);
    summary := MergeZipStats(summary, stats);
    var q := p.(summary := summary, used := used, weights := weights, tempDirs := p.tempDirs + [root],
                warnings := p.warnings + logged);
    if stats.extractedFiles != [] {
      r := Ok(q.(expanded := Extend(q.expanded, name, stats.extractedFiles), meta := q.meta[name := (zipFile, root)]));
    } else {
      r := Ok(q.(warnings := q.warnings + [ArchiveWarning(ZipEmptyAfterExtraction, zipFile)]));
    }
  }

  /** Once an archive has raised, later archives are not reached. */
  lemma {:induction false} ExpandZipsStops(env: Env, p: Prep, group: string, zips: seq<string>, i: nat)
    requires i <= |zips| && ExpandZips(env, p, group, zips[..i]).Err?
    ensures ExpandZips(env, p, group, zips) == ExpandZips(env, p, group, zips[..i])
    decreases |zips| - i
  {
    if i < |zips| {
      assert zips[..i + 1][..i] == zips[..i];
      ExpandZipsStops(env, p, group, zips, i + 1);
    } else {
      assert zips[..i] == zips;
    }
  }

  /** One group. */
  method ExpandGroupFiles(env: Env, p: Prep, group: string, files: seq<string>) returns (r: Result<Prep>)
    ensures r == ExpandGroup(env, p, group, files)
  {
    var sortedFiles := SortStrings(files);
    var zips := Filter(sortedFiles, IsZip);
    var others := Filter(sortedFiles, NotZip);
    var q := p;
    if others != [] {
      q := q.(expanded := Extend(q.expanded, group, others), weights := Bump(q.weights, group, |others|));
    }
    if !env.config.processZipArchives {
      return Ok(q.(weights := Bump(q.weights, group, |zips|)));
    }
    hide ExpandZip;
    var acc := q;
    for i := 0 to |zips|
      invariant ExpandZips(env, q, group, zips[..i]) == Ok(acc)
    {
      assert zips[..i + 1][..i] == zips[..i];
      var next := ExpandZipArchive(env, acc, group, zips[i]);
      if next.Err? {
        ExpandZipsStops(env, q, group, zips, i + 1);
        return next;
      }
      acc := next.value;
    }
    assert zips[..|zips|] == zips;
    r := Ok(acc);
  }

  /** Once a group has raised, later groups are not reached. */
  lemma {:induction false} ExpandGroupsStops(env: Env, groups: map<string, seq<string>>, keys: seq<string>, p: Prep, i: nat)
    requires forall k :: k in keys ==> k in groups
    requires i <= |keys| && ExpandGroups(env, groups, keys[..i], p).Err?
    ensures ExpandGroups(env, groups, keys, p) == ExpandGroups(env, groups, keys[..i], p)
    decreases |keys| - i
  {
    if i < |keys| {
      assert keys[..i + 1][..i] == keys[..i];
      ExpandGroupsStops(env, groups, keys, p, i + 1);
    } else {
      assert keys[..i] == keys;
    }
  }

  /** `_prepare_groups_with_zip_expansion`. */
  method PrepareGroupsWithZipExpansion(env: Env, groups: map<string, seq<string>>, summary: Summary, warnings: seq<Warning>)
    returns (r: Result<Prep>)
    ensures r == Prepare(env, groups, summary, warnings)
  {
    hide ExpandGroup;
    var keys := SortedKeys(groups.Keys);
    SortedListingUnique(keys, SortedKeysOf(groups.Keys));
    var start := Start(groups, summary, warnings);
    var acc := start;
    for i := 0 to |keys|
      invariant ExpandGroups(env, groups, keys[..i], start) == Ok(acc)
    {
      assert keys[..i + 1][..i] == keys[..i];
      var next := ExpandGroupFiles(env, acc, keys[i], groups[keys[i]]);
      if next.Err? {
        ExpandGroupsStops(env, groups, keys, start, i + 1);
        return next;
      }
      acc := next.value;
    }
    assert keys[..|keys|] == keys;
    r := Ok(acc);
  }

  // ---------------------------------------------------------------------------
  // What the expansion guarantees

  /** The sum of a weight dictionary. */
  ghost function Total(w: map<string, nat>): nat
    decreases |w|
  {
    if w == map[] then 0
    else
      assert w.Keys != {};
      var k :| k in w;
      w[k] + Total(w - {k})
  }

  /** The sum does not depend on which key is taken first. */
  lemma {:induction false} TotalRemove(w: map<string, nat>, k: string)
    requires k in w
    ensures Total(w) == w[k] + Total(w - {k})
    decreases |w|
  {
    var j :| j in w && Total(w) == w[j] + Total(w - {j});
    if j != k {
      TotalRemove(w - {j}, k);
      TotalRemove(w - {k}, j);
      assert w - {j} - {k} == w - {k} - {j};
    }
  }

  /** Adding `n` to one entry adds `n` to the sum. */
  lemma TotalBump(w: map<string, nat>, k: string, n: nat)
    ensures Total(Bump(w, k, n)) == Total(w) + n
  {
    var b := Bump(w, k, n);
    TotalRemove(b, k);
    assert b - {k} == w - {k};
    if k in w {
      TotalRemove(w, k);
    } else {
      assert w - {k} == w;
    }
  }

  /** The number of files of each input group. */
  function FileSizes(groups: map<string, seq<string>>): map<string, nat> {
    map k | k in groups :: |groups[k]|
  }

  /** The file counts of the groups named by `keys`. */
  function Sizes(groups: map<string, seq<string>>, keys: seq<string>): (r: map<string, nat>)
    requires forall k :: k in keys ==> k in groups
    ensures forall k :: k in r <==> k in keys
    ensures forall k :: k in r ==> r[k] == |groups[k]|
  {
    if |keys| == 0 then map[]
    else Sizes(groups, keys[..|keys| - 1])[keys[|keys| - 1] := |groups[keys[|keys| - 1]]|]
  }

  /** Files weighed and the rest of a consistent state: input names stay
      reserved, no expanded group holds an archive, and every archive group
      with metadata is an expanded group that is not an input group. */
  ghost predicate Sound(groups: map<string, seq<string>>, p: Prep) {
    && groups.Keys <= p.used
    && (forall g :: g in p.expanded ==> NoZip(p.expanded[g]))
    && (forall g :: g in p.meta ==> g in p.expanded && g !in groups)
  }

  lemma NoZipConcat(a: seq<string>, b: seq<string>)
    requires NoZip(a) && NoZip(b)
    ensures NoZip(a + b)
  {
    assert forall k :: |a| <= k < |a + b| ==> (a + b)[k] == b[k - |a|];
  }

  lemma NoZipExtend(m: map<string, seq<string>>, k: string, xs: seq<string>)
    requires forall g :: g in m ==> NoZip(m[g])
    requires NoZip(xs)
    ensures forall g :: g in Extend(m, k, xs) ==> NoZip(Extend(m, k, xs)[g])
  {
    NoZipConcat(if k in m then m[k] else [], xs);
  }

  /** One archive keeps the state consistent and weighs one unit. */
  lemma ExpandZipSound(env: Env, p: Prep, group: string, zipFile: string, groups: map<string, seq<string>>)
    requires Sound(groups, p)
    ensures ExpandZip(env, p, group, zipFile).Ok? ==>
      Sound(groups, ExpandZip(env, p, group, zipFile).value)
      && Total(ExpandZip(env, p, group, zipFile).value.weights) == Total(p.weights) + 1
  {
    hide Extract, ZipGroupName, MergeZipStats, NoZip;
    var allocation := ZipGroupName(group, zipFile, p.used);
    if allocation.Ok? {
      ZipGroupNameFresh(group, zipFile, p.used);
      var name := allocation.value;
      TotalBump(p.weights, name, 1);
      var root := env.tempRoot(name);
      if root.Some? {
        var c := env.config;
        ExtractFilesNotZip(env.disk, zipFile, root.value, c.maxFilenameLength, c.includeExtensionInLimit,
                           0, c.nestedDepthLimit, c.maxExtractBytes);
        var files := Extract(env.disk, zipFile, root.value, c.maxFilenameLength, c.includeExtensionInLimit,
                             0, c.nestedDepthLimit, c.maxExtractBytes).0.extractedFiles;
        NoZipExtend(p.expanded, name, files);
      }
    }
  }

  /** The archives of a group weigh one unit each. */
  lemma {:induction false} ExpandZipsSound(env: Env, p: Prep, group: string, zips: seq<string>, groups: map<string, seq<string>>)
    requires Sound(groups, p)
    ensures ExpandZips(env, p, group, zips).Ok? ==>
      Sound(groups, ExpandZips(env, p, group, zips).value)
      && Total(ExpandZips(env, p, group, zips).value.weights) == Total(p.weights) + |zips|
  {
    hide ExpandZip;
    if |zips| > 0 {
      var init := zips[..|zips| - 1];
      ExpandZipsSound(env, p, group, init, groups);
      var q := ExpandZips(env, p, group, init);
      if q.Ok? {
        ExpandZipSound(env, q.value, group, zips[|zips| - 1], groups);
      }
    }
  }

  /** The other files of a group and its archives are the group's files,
      split once. */
  lemma ZipSplit(files: seq<string>)
    ensures var sortedFiles := SortStrings(files);
      && |Filter(sortedFiles, IsZip)| + |Filter(sortedFiles, NotZip)| == |files|
      && NoZip(Filter(sortedFiles, NotZip))
  {
    var sortedFiles := SortStrings(files);
    FilterPartition(sortedFiles, IsZip, NotZip);
    assert |sortedFiles| == |multiset(sortedFiles)| == |multiset(files)| == |files|;
    var others := Filter(sortedFiles, NotZip);
    FilterMembers(sortedFiles, NotZip);
    assert forall k :: 0 <= k < |others| ==> others[k] in others;
  }

  /** A group's files are weighed one unit each. */
  lemma ExpandGroupSound(env: Env, p: Prep, group: string, files: seq<string>, groups: map<string, seq<string>>)
    requires Sound(groups, p) && group in groups
    ensures ExpandGroup(env, p, group, files).Ok? ==>
      Sound(groups, ExpandGroup(env, p, group, files).value)
      && Total(ExpandGroup(env, p, group, files).value.weights) == Total(p.weights) + |files|
  {
    hide ExpandZips, NoZip, SortStrings, Filter;
    var sortedFiles := SortStrings(files);
    var zips := Filter(sortedFiles, IsZip);
    var others := Filter(sortedFiles, NotZip);
    ZipSplit(files);
    var q :=
      if others != [] then p.(expanded := Extend(p.expanded, group, others), weights := Bump(p.weights, group, |others|))
      else p;
    if others != [] {
      NoZipExtend(p.expanded, group, others);
      TotalBump(p.weights, group, |others|);
    }
    assert Sound(groups, q) && Total(q.weights) == Total(p.weights) + |others|;
    var r := ExpandGroup(env, p, group, files);
    if env.config.processZipArchives {
      assert r == ExpandZips(env, q, group, zips);
      hide ExpandGroup, Extend;
      ExpandZipsSound(env, q, group, zips, groups);
    } else {
      assert r == Ok(q.(weights := Bump(q.weights, group, |zips|)));
      hide ExpandGroup, Extend;
      TotalBump(q.weights, group, |zips|);
    }
  }

  /** The input groups, one after the other: the weights grow by the file
      counts of the groups. */
  lemma {:induction false} ExpandGroupsSound(env: Env, groups: map<string, seq<string>>, keys: seq<string>, p: Prep)
    requires forall k :: k in keys ==> k in groups
    requires Distinct(keys) && Sound(groups, p)
    ensures ExpandGroups(env, groups, keys, p).Ok? ==>
      Sound(groups, ExpandGroups(env, groups, keys, p).value)
      && Total(ExpandGroups(env, groups, keys, p).value.weights) == Total(p.weights) + Total(Sizes(groups, keys))
  {
    hide ExpandGroup;
    if |keys| > 0 {
      var init := keys[..|keys| - 1];
      var last := keys[|keys| - 1];
      assert Distinct(init);
      ExpandGroupsSound(env, groups, init, p);
      var q := ExpandGroups(env, groups, init, p);
      if q.Ok? {
        ExpandGroupSound(env, q.value, last, groups[last], groups);
      }
      var before := Sizes(groups, init);
      assert last !in init;
      assert Sizes(groups, keys) == Bump(before, last, |groups[last]|);
      TotalBump(before, last, |groups[last]|);
    }
  }

  /** When the expansion succeeds, every input file weighs exactly one unit
      in total (an archive counts for the group made from it, or for its own
      group when archives are not processed), no group left to merge holds
      an archive, and archive groups never take an input group's name. */
  lemma PrepareSound(env: Env, groups: map<string, seq<string>>, summary: Summary, warnings: seq<Warning>)
    ensures Prepare(env, groups, summary, warnings).Ok? ==>
      Sound(groups, Prepare(env, groups, summary, warnings).value)
      && Total(Prepare(env, groups, summary, warnings).value.weights) == Total(FileSizes(groups))
  {
    var keys := SortedKeysOf(groups.Keys);
    var start := Start(groups, summary, warnings);
    assert Total(start.weights) == 0;
    AllSizes(groups);
    ExpandGroupsSound(env, groups, keys, start);
    hide ExpandGroups, Sound, Sizes, Total;
  }

  /** `extracted_files` of the top-level extraction of `zipFile` into `root`. */
  function ArchiveFiles(env: Env, zipFile: string, root: string): seq<string> {
    var c := env.config;
    Extract(env.disk, zipFile, root, c.maxFilenameLength, c.includeExtensionInLimit,
            0, c.nestedDepthLimit, c.maxExtractBytes).0.extractedFiles
  }

  /** What the groups to merge hold once the input groups in `done` have
      been expanded: each of those keeps its non-archive files when it has
      any, the input groups not yet reached are absent, every group with
      metadata holds the files extracted from its archive, and there is no
      other group. */
  ghost predicate Contents(env: Env, groups: map<string, seq<string>>, done: set<string>, p: Prep) {
    && groups.Keys <= p.used && p.meta.Keys <= p.used
    && (forall g :: g in p.expanded ==> g in groups || g in p.meta)
    && (forall g :: g in groups ==> (g in p.expanded <==> g in done && NonZipFiles(groups[g]) != []))
    && (forall g :: g in groups && g in p.expanded ==> p.expanded[g] == NonZipFiles(groups[g]))
    && (forall n :: n in p.meta ==>
          && n !in groups && n in p.expanded && p.expanded[n] != []
          && p.expanded[n] == ArchiveFiles(env, p.meta[n].0, p.meta[n].1))
  }

  /** An archive adds at most a group of a fresh name holding its files. */
  lemma ExpandZipContents(env: Env, p: Prep, group: string, zipFile: string,
                          groups: map<string, seq<string>>, done: set<string>)
    requires Contents(env, groups, done, p)
    ensures ExpandZip(env, p, group, zipFile).Ok? ==> Contents(env, groups, done, ExpandZip(env, p, group, zipFile).value)
  {
    hide Extract, ZipGroupName, MergeZipStats, NonZipFiles;
    var allocation := ZipGroupName(group, zipFile, p.used);
    if allocation.Ok? {
      ZipGroupNameFresh(group, zipFile, p.used);
      var name := allocation.value;
      assert name !in p.expanded && name !in groups && name !in p.meta;
    }
  }

  lemma {:induction false} ExpandZipsContents(env: Env, p: Prep, group: string, zips: seq<string>,
                                              groups: map<string, seq<string>>, done: set<string>)
    requires Contents(env, groups, done, p)
    ensures ExpandZips(env, p, group, zips).Ok? ==> Contents(env, groups, done, ExpandZips(env, p, group, zips).value)
  {
    hide ExpandZip, Contents;
    if |zips| > 0 {
      var init := zips[..|zips| - 1];
      ExpandZipsContents(env, p, group, init, groups, done);
      var q := ExpandZips(env, p, group, init);
      if q.Ok? {
        ExpandZipContents(env, q.value, group, zips[|zips| - 1], groups, done);
      }
    }
  }

  /** A group's non-archive files fill in that group. */
  lemma KeepNonZipContents(env: Env, p: Prep, group: string, groups: map<string, seq<string>>, done: set<string>)
    requires group in groups && group !in done && Contents(env, groups, done, p)
    ensures var others := NonZipFiles(groups[group]);
      Contents(env, groups, done + {group},
               if others != [] then p.(expanded := Extend(p.expanded, group, others), weights := Bump(p.weights, group, |others|))
               else p)
  {
    hide NonZipFiles, ArchiveFiles;
    assert group !in p.expanded;
  }

  /** Expanding a group not reached before fills in that group. */
  lemma ExpandGroupContents(env: Env, p: Prep, group: string, groups: map<string, seq<string>>, done: set<string>)
    requires group in groups && group !in done && Contents(env, groups, done, p)
    ensures ExpandGroup(env, p, group, groups[group]).Ok? ==>
      Contents(env, groups, done + {group}, ExpandGroup(env, p, group, groups[group]).value)
  {
    var files := groups[group];
    var others := NonZipFiles(files);
    var zips := Filter(SortStrings(files), IsZip);
    var q :=
      if others != [] then p.(expanded := Extend(p.expanded, group, others), weights := Bump(p.weights, group, |others|))
      else p;
    ExpandGroupUnfold(env, p, group, files);
    KeepNonZipContents(env, p, group, groups, done);
    hide ExpandGroup, ExpandZips, SortStrings, Filter, NonZipFiles, Contents;
    if env.config.processZipArchives {
      ExpandZipsContents(env, q, group, zips, groups, done + {group});
    } else {
      ContentsIgnoresWeights(env, groups, done + {group}, q, Bump(q.weights, group, |zips|));
    }
  }

  lemma ExpandGroupUnfold(env: Env, p: Prep, group: string, files: seq<string>)
    ensures var others := NonZipFiles(files);
      var zips := Filter(SortStrings(files), IsZip);
      var q :=
        if others != [] then p.(expanded := Extend(p.expanded, group, others), weights := Bump(p.weights, group, |others|))
        else p;
      ExpandGroup(env, p, group, files)
        == if env.config.processZipArchives then ExpandZips(env, q, group, zips)
           else Ok(q.(weights := Bump(q.weights, group, |zips|)))
  {
  }

  lemma ContentsIgnoresWeights(env: Env, groups: map<string, seq<string>>, done: set<string>, p: Prep, w: map<string, nat>)
    requires Contents(env, groups, done, p)
    ensures Contents(env, groups, done, p.(weights := w))
  {
  }

  lemma {:induction false} ExpandGroupsContents(env: Env, groups: map<string, seq<string>>, keys: seq<string>, p: Prep)
    requires forall k :: k in keys ==> k in groups
    requires Distinct(keys) && Contents(env, groups, {}, p)
    ensures ExpandGroups(env, groups, keys, p).Ok? ==>
      Contents(env, groups, (set k | k in keys), ExpandGroups(env, groups, keys, p).value)
  {
    hide ExpandGroup, Contents;
    if |keys| > 0 {
      var init := keys[..|keys| - 1];
      var last := keys[|keys| - 1];
      assert Distinct(init);
      ExpandGroupsContents(env, groups, init, p);
      var q := ExpandGroups(env, groups, init, p);
      if q.Ok? {
        assert last !in init;
        ExpandGroupContents(env, q.value, last, groups, (set k | k in init));
        assert (set k | k in init) + {last} == set k | k in keys;
      }
    } else {
      assert (set k | k in keys) == {};
    }
  }

  /** When the expansion succeeds, an input group is kept exactly when it
      has files other than archives, and then holds those files in sorted
      order; every archive group with metadata holds the non-empty list of
      files extracted from its archive into its extraction root; and there
      are no other groups. */
  lemma PrepareContents(env: Env, groups: map<string, seq<string>>, summary: Summary, warnings: seq<Warning>)
    ensures Prepare(env, groups, summary, warnings).Ok? ==>
      var p := Prepare(env, groups, summary, warnings).value;
      && (forall g :: g in groups ==> (g in p.expanded <==> NonZipFiles(groups[g]) != []))
      && (forall g :: g in groups && g in p.expanded ==> p.expanded[g] == NonZipFiles(groups[g]))
      && (forall n :: n in p.meta ==>
            && n !in groups && n in p.expanded && p.expanded[n] != []
            && p.expanded[n] == ArchiveFiles(env, p.meta[n].0, p.meta[n].1))
      && (forall g :: g in p.expanded ==> g in groups || g in p.meta)
  {
    var keys := SortedKeysOf(groups.Keys);
    var start := Start(groups, summary, warnings);
    ExpandGroupsContents(env, groups, keys, start);
    assert (set k | k in keys) == groups.Keys;
  }

  /** The file counts of all the input groups, in sorted order. */
  lemma AllSizes(groups: map<string, seq<string>>)
    ensures Sizes(groups, SortedKeysOf(groups.Keys)) == FileSizes(groups)
  {
  }

  /** With archives not processed, a group keeps its other files and weighs
      all of its files; nothing else changes. */
  lemma ExpandGroupWithoutArchives(env: Env, p: Prep, group: string, files: seq<string>)
    requires !env.config.processZipArchives
    ensures ExpandGroup(env, p, group, files).Ok?
    ensures ExpandGroup(env, p, group, files).value.weights == Bump(p.weights, group, |files|)
    ensures ExpandGroup(env, p, group, files).value
      == p.(weights := ExpandGroup(env, p, group, files).value.weights,
            expanded := ExpandGroup(env, p, group, files).value.expanded)
  {
    var sortedFiles := SortStrings(files);
    var zips := Filter(sortedFiles, IsZip);
    var others := Filter(sortedFiles, NotZip);
    ZipSplit(files);
    hide SortStrings, Filter, NoZip;
    if others != [] {
      assert Bump(Bump(p.weights, group, |others|), group, |zips|) == Bump(p.weights, group, |files|);
    }
  }

  lemma {:induction false} ExpandGroupsWithoutArchives(env: Env, groups: map<string, seq<string>>, keys: seq<string>, p: Prep)
    requires !env.config.processZipArchives
    requires forall k :: k in keys ==> k in groups
    requires Distinct(keys) && forall k :: k in keys ==> k !in p.weights
    ensures ExpandGroups(env, groups, keys, p).Ok?
    ensures ExpandGroups(env, groups, keys, p).value.weights == p.weights + Sizes(groups, keys)
    ensures ExpandGroups(env, groups, keys, p).value
      == p.(weights := ExpandGroups(env, groups, keys, p).value.weights,
            expanded := ExpandGroups(env, groups, keys, p).value.expanded)
  {
    hide ExpandGroup;
    if |keys| > 0 {
      var init := keys[..|keys| - 1];
      var last := keys[|keys| - 1];
      assert Distinct(init);
      ExpandGroupsWithoutArchives(env, groups, init, p);
      var q := ExpandGroups(env, groups, init, p).value;
      ExpandGroupWithoutArchives(env, q, last, groups[last]);
      assert last !in init;
      assert Sizes(groups, keys) == Sizes(groups, init)[last := |groups[last]|];
      BumpUnion(p.weights, Sizes(groups, init), last, |groups[last]|);
    }
  }

  lemma BumpUnion(a: map<string, nat>, b: map<string, nat>, k: string, n: nat)
    requires k !in a && k !in b
    ensures Bump(a + b, k, n) == a + b[k := n]
  {
  }

  /** With archives not processed the expansion cannot fail, each input
      group weighs its number of files and keeps exactly its non-archive
      files, no archive is opened and no warning or statistic is added. */
  lemma PrepareWithoutArchives(env: Env, groups: map<string, seq<string>>, summary: Summary, warnings: seq<Warning>)
    requires !env.config.processZipArchives
    ensures Prepare(env, groups, summary, warnings).Ok?
    ensures Prepare(env, groups, summary, warnings).value.weights == FileSizes(groups)
    ensures Prepare(env, groups, summary, warnings).value.meta == map[]
    ensures Prepare(env, groups, summary, warnings).value.tempDirs == []
    ensures Prepare(env, groups, summary, warnings).value.used == groups.Keys
    ensures Prepare(env, groups, summary, warnings).value.summary == summary
    ensures Prepare(env, groups, summary, warnings).value.warnings == warnings
  {
    var keys := SortedKeysOf(groups.Keys);
    var start := Start(groups, summary, warnings);
    var r := Prepare(env, groups, summary, warnings);
    assert r == ExpandGroups(env, groups, keys, start);
    AllSizes(groups);
    ExpandGroupsWithoutArchives(env, groups, keys, start);
    hide Prepare, ExpandGroups, Sizes, FileSizes;
    assert r.value.weights == map[] + FileSizes(groups) == FileSizes(groups);
  }

  /** With archives not processed, the groups to merge are exactly the input
      groups that have files other than archives, each holding those files
      in sorted order. */
  lemma PrepareWithoutArchivesGroups(env: Env, groups: map<string, seq<string>>, summary: Summary, warnings: seq<Warning>)
    requires !env.config.processZipArchives
    ensures Prepare(env, groups, summary, warnings).Ok?
    ensures Prepare(env, groups, summary, warnings).value.expanded
         == map g | g in groups && NonZipFiles(groups[g]) != [] :: NonZipFiles(groups[g])
  {
    PrepareWithoutArchives(env, groups, summary, warnings);
    PrepareContents(env, groups, summary, warnings);
    hide Prepare, NonZipFiles, ArchiveFiles;
    OnlyInputGroups(groups, Prepare(env, groups, summary, warnings).value);
  }

  /** With no archive group, the groups to merge are the input groups that
      have non-archive files. */
  lemma OnlyInputGroups(groups: map<string, seq<string>>, p: Prep)
    requires p.meta == map[]
    requires forall g :: g in groups ==> (g in p.expanded <==> NonZipFiles(groups[g]) != [])
    requires forall g :: g in groups && g in p.expanded ==> p.expanded[g] == NonZipFiles(groups[g])
    requires forall g :: g in p.expanded ==> g in groups || g in p.meta
    ensures p.expanded == map g | g in groups && NonZipFiles(groups[g]) != [] :: NonZipFiles(groups[g])
  {
    hide NonZipFiles;
  }

  // ---------------------------------------------------------------------------
  // Counting the archives found

  /** The number of archives of each group named by `keys`. */
  function ArchiveCounts(groups: map<string, seq<string>>, keys: seq<string>): (r: map<string, nat>)
    requires forall k :: k in keys ==> k in groups
    ensures forall k :: k in r <==> k in keys
    ensures forall k :: k in r ==> r[k] == |ZipFiles(groups[k])|
  {
    if |keys| == 0 then map[]
    else ArchiveCounts(groups, keys[..|keys| - 1])[keys[|keys| - 1] := |ZipFiles(groups[keys[|keys| - 1]])|]
  }

  lemma ExpandZipFound(env: Env, p: Prep, group: string, zipFile: string)
    ensures ExpandZip(env, p, group, zipFile).Ok? ==>
      ExpandZip(env, p, group, zipFile).value.summary.archivesFound == p.summary.archivesFound + 1
  {
    hide Extract, ZipGroupName;
  }

  lemma {:induction false} ExpandZipsFound(env: Env, p: Prep, group: string, zips: seq<string>)
    ensures ExpandZips(env, p, group, zips).Ok? ==>
      ExpandZips(env, p, group, zips).value.summary.archivesFound == p.summary.archivesFound + |zips|
  {
    hide ExpandZip;
    if |zips| > 0 {
      var init := zips[..|zips| - 1];
      ExpandZipsFound(env, p, group, init);
      var q := ExpandZips(env, p, group, init);
      if q.Ok? {
        ExpandZipFound(env, q.value, group, zips[|zips| - 1]);
      }
    }
  }

  lemma ExpandGroupFound(env: Env, p: Prep, group: string, files: seq<string>)
    ensures ExpandGroup(env, p, group, files).Ok? ==>
      ExpandGroup(env, p, group, files).value.summary.archivesFound
        == p.summary.archivesFound + (if env.config.processZipArchives then |ZipFiles(files)| else 0)
  {
    var others := NonZipFiles(files);
    var zips := ZipFiles(files);
    var q :=
      if others != [] then p.(expanded := Extend(p.expanded, group, others), weights := Bump(p.weights, group, |others|))
      else p;
    ExpandGroupUnfold(env, p, group, files);
    hide ExpandGroup, ExpandZips, SortStrings, Filter, NonZipFiles, ZipFiles;
    if env.config.processZipArchives {
      ExpandZipsFound(env, q, group, zips);
    }
  }

  lemma {:induction false} ExpandGroupsFound(env: Env, groups: map<string, seq<string>>, keys: seq<string>, p: Prep)
    requires forall k :: k in keys ==> k in groups
    requires Distinct(keys)
    ensures ExpandGroups(env, groups, keys, p).Ok? ==>
      ExpandGroups(env, groups, keys, p).value.summary.archivesFound
        == p.summary.archivesFound + (if env.config.processZipArchives then Total(ArchiveCounts(groups, keys)) else 0)
  {
    hide ExpandGroup, ZipFiles;
    if |keys| > 0 {
      var init := keys[..|keys| - 1];
      var last := keys[|keys| - 1];
      assert Distinct(init);
      ExpandGroupsFound(env, groups, init, p);
      var q := ExpandGroups(env, groups, init, p);
      if q.Ok? {
        ExpandGroupFound(env, q.value, last, groups[last]);
      }
      var before := ArchiveCounts(groups, init);
      assert last !in init;
      assert ArchiveCounts(groups, keys) == Bump(before, last, |ZipFiles(groups[last])|);
      TotalBump(before, last, |ZipFiles(groups[last])|);
    } else {
      assert ArchiveCounts(groups, keys) == map[];
    }
  }

  /** `archives_found` counts every archive of every input group once when
      archives are processed, and stays as it was otherwise. */
  lemma PrepareArchivesFound(env: Env, groups: map<string, seq<string>>, summary: Summary, warnings: seq<Warning>)
    ensures Prepare(env, groups, summary, warnings).Ok? ==>
      Prepare(env, groups, summary, warnings).value.summary.archivesFound
        == summary.archivesFound
           + (if env.config.processZipArchives then Total(map g | g in groups :: |ZipFiles(groups[g])|) else 0)
  {
    var keys := SortedKeysOf(groups.Keys);
    var start := Start(groups, summary, warnings);
    ExpandGroupsFound(env, groups, keys, start);
    assert ArchiveCounts(groups, keys) == map g | g in groups :: |ZipFiles(groups[g])|;
  }
}
