/** `ZipArchiveProcessor.extract_archive`: extracting the members of an
    archive under a target directory, with the zip-bomb ratio test, a byte
    budget per call, unsafe-name rejection, name truncation and collision
    renumbering, and recursion into nested archives up to a depth limit.

    The archive library, the file system and `uuid4` are replaced by a `Disk`
    of oracles: the member list of each archive path, whether copying one
    member succeeds, and the random name of each nested extraction folder. */
module ZipExtract {
  import opened Wrappers
  import opened Text
  import opened Paths
  import opened Warnings
  import opened ZipPaths

  /** One member as `infolist()` reports it. */
  datatype Entry = Entry(name: string, fileSize: nat, compressSize: nat)

  /** `ZipInfo.is_dir()`: the name ends with `/`. */
  predicate IsDir(e: Entry) {
    EndsWith(e.name, "/")
  }

  /** The outside world: `members(p)` is `None` when archive `p` cannot be
      opened; `copies(p, i)` says whether copying member `i` of `p` to disk
      succeeds; `nestedName(p)` is the random hex naming the folder nested
      archive `p` is extracted into. */
  datatype Disk = Disk(
    members: string -> Option<seq<Entry>>,
    copies: (string, nat) -> bool,
    nestedName: string -> string)

  /** The statistics dictionary `extract_archive` returns. */
  datatype Stats = Stats(
    archivesExtracted: nat,
    archivesFailed: nat,
    entriesTotal: nat,
    entriesExtracted: nat,
    entriesRenamed: nat,
    entriesSkippedUnsafePath: nat,
    nestedArchivesExtracted: nat,
    nestedArchivesSkippedDepth: nat,
    extractedFiles: seq<string>)

  const NoStats := Stats(0, 0, 0, 0, 0, 0, 0, 0, [])

  /** The arguments of one call that stay fixed while its members are read. */
  datatype Call = Call(zipPath: string, targetRoot: string, maxLen: int, includeExt: bool, maxBytes: int)

  /** The member loop's state: the statistics so far, the relative paths
      used, the nested archives found, the bytes extracted, whether the
      budget stopped the loop, whether an exception left it, and the warnings
      recorded. */
  datatype Scan = Scan(
    stats: Stats,
    used: set<string>,
    nested: seq<string>,
    total: nat,
    budgetExceeded: bool,
    failed: bool,
    warnings: seq<Warning>)

  /** The state once the archive is open: it already counts as extracted. */
  const Opened := Scan(NoStats.(archivesExtracted := 1), {}, [], 0, false, false, [])

  /** `ratio > 100` for `ratio = file_size / max(compress_size, 1)`. */
  predicate Suspicious(e: Entry) {
    e.fileSize > 100 * Max(e.compressSize, 1)
  }

  /** `os.path.join(root, *parts)`. */
  function JoinAll(root: string, parts: seq<string>): string {
    if |parts| == 0 then root else PathJoin(JoinAll(root, parts[..|parts| - 1]), parts[|parts| - 1])
  }

  /** Where a member with relative path `rel` is written. */
  function TargetPath(root: string, rel: string): string {
    JoinAll(root, Split(rel, '/'))
  }

  /** The relative path a safe member name is first tried under: its leaf
      truncated, its folders kept. */
  function CandidateRel(member: string, maxLen: int, includeExt: bool): string {
    var parts := Split(member, '/');
    var truncated := TruncateLeafName(parts[|parts| - 1], maxLen, includeExt);
    if |parts| > 1 then Join(parts[..|parts| - 1] + [truncated], "/") else truncated
  }

  /** The leaf of a safe member name was shortened. */
  predicate LeafTruncated(member: string, maxLen: int, includeExt: bool) {
    var parts := Split(member, '/');
    TruncateLeafName(parts[|parts| - 1], maxLen, includeExt) != parts[|parts| - 1]
  }

  /** Writing a member that passed the checks: count it, name it uniquely and
      copy it. Running out of counters is an exception that ends the member
      loop. */
  function Place(disk: Disk, c: Call, s: Scan, e: Entry, index: nat, member: string): Scan {
    Settle(disk, c, s, e, index, LeafTruncated(member, c.maxLen, c.includeExt),
           UniqueName(CandidateRel(member, c.maxLen, c.includeExt), s.used, c.maxLen, c.includeExt))
  }

  /** The member counted, then either the exception of `_unique_path` or the
      member renamed (when its leaf was truncated or its name collided),
      its name reserved and its bytes copied. */
  function Settle(disk: Disk, c: Call, s: Scan, e: Entry, index: nat, truncated: bool, unique: Result<(string, bool)>): Scan {
    var counted := s.stats.(entriesTotal := s.stats.entriesTotal + 1);
    if unique.Err? then s.(stats := counted, failed := true)
    else
      var named :=
        if truncated || unique.value.1
        then counted.(entriesRenamed := counted.entriesRenamed + 1) else counted;
      Write(disk, c, s.(stats := named, used := s.used + {unique.value.0}), e, index, unique.value.0)
  }

  /** Copying a named member to `rel` under the target root: a copied `.zip`
      is kept for the nested pass, anything else is an extracted file; a
      failed copy is a warning. */
  function Write(disk: Disk, c: Call, s: Scan, e: Entry, index: nat, rel: string): Scan {
    var target := TargetPath(c.targetRoot, rel);
    if !disk.copies(c.zipPath, index) then
      s.(warnings := s.warnings + [EntryWarning(ZipEntryExtractFailed, c.zipPath, e.name)])
    else
      var copied := s.stats.(entriesExtracted := s.stats.entriesExtracted + 1);
      if EndsWithIgnoreCase(target, ".zip") then
        s.(stats := copied, total := s.total + e.fileSize, nested := s.nested + [target])
      else
        s.(stats := copied.(extractedFiles := copied.extractedFiles + [target]), total := s.total + e.fileSize)
  }

  /** One iteration of the member loop. */
  function EntryStep(disk: Disk, c: Call, s: Scan, e: Entry, index: nat): Scan {
    if s.budgetExceeded || s.failed then s
    else if c.maxBytes > 0 && e.fileSize > 0 && Suspicious(e) then
      s.(warnings := s.warnings + [EntryWarning(ZipEntrySuspiciousRatio, c.zipPath, e.name)])
    else if c.maxBytes > 0 && e.fileSize > 0 && s.total + e.fileSize > c.maxBytes then
      s.(budgetExceeded := true, warnings := s.warnings + [ArchiveWarning(ZipExtractionBudgetExceeded, c.zipPath)])
    else
      match SafeMemberPath(e.name)
      case None =>
        if IsDir(e) then s
        else
          s.(stats := s.stats.(entriesTotal := s.stats.entriesTotal + 1,
                               entriesSkippedUnsafePath := s.stats.entriesSkippedUnsafePath + 1),
             warnings := s.warnings + [EntryWarning(ZipEntrySkippedUnsafePath, c.zipPath, e.name)])
      case Some(member) =>
        if EndsWith(member, "/") then s else Place(disk, c, s, e, index, member)
  }

  /** The loop state after the first `n` members. */
  function ScanPrefix(disk: Disk, c: Call, entries: seq<Entry>, n: nat): Scan
    requires n <= |entries|
  {
    if n == 0 then Opened
    else EntryStep(disk, c, ScanPrefix(disk, c, entries, n - 1), entries[n - 1], n - 1)
  }

  /** The warnings of the nested archives skipped at the depth limit. */
  function DepthWarnings(archives: seq<string>): (ws: seq<Warning>)
    ensures |ws| == |archives|
    ensures forall k :: 0 <= k < |ws| ==> ws[k] == ArchiveWarning(ZipNestedDepthExceeded, archives[k])
  {
    if |archives| == 0 then []
    else DepthWarnings(archives[..|archives| - 1]) + [ArchiveWarning(ZipNestedDepthExceeded, archives[|archives| - 1])]
  }

  /** Adding a nested archive's statistics to the parent's. */
  function Absorb(parent: Stats, child: Stats): Stats {
    Stats(
      parent.archivesExtracted + child.archivesExtracted,
      parent.archivesFailed + child.archivesFailed,
      parent.entriesTotal + child.entriesTotal,
      parent.entriesExtracted + child.entriesExtracted,
      parent.entriesRenamed + child.entriesRenamed,
      parent.entriesSkippedUnsafePath + child.entriesSkippedUnsafePath,
      parent.nestedArchivesExtracted + 1 + child.nestedArchivesExtracted,
      parent.nestedArchivesSkippedDepth + child.nestedArchivesSkippedDepth,
      parent.extractedFiles + child.extractedFiles)
  }

  /** The measure that bounds the recursion into nested archives. */
  function Height(depth: int, depthLimit: int): nat {
    if depth < depthLimit then depthLimit - depth else 0
  }

  /** The folder nested archive `archive` is extracted into. */
  function NestedTarget(disk: Disk, targetRoot: string, archive: string): string {
    PathJoin(targetRoot, "_nested_" + disk.nestedName(archive))
  }

  /** `extract_archive(zipPath, targetRoot, ...)`: its statistics and the
      warnings it records, in order. */
  function Extract(disk: Disk, zipPath: string, targetRoot: string, maxLen: int, includeExt: bool,
                   depth: int, depthLimit: int, maxBytes: int): (Stats, seq<Warning>)
    decreases Height(depth, depthLimit), 1, 0
  {
    match disk.members(zipPath)
    case None => (NoStats.(archivesFailed := 1), [ArchiveWarning(ZipArchiveExtractFailed, zipPath)])
    case Some(entries) =>
      var s := ScanPrefix(disk, Call(zipPath, targetRoot, maxLen, includeExt, maxBytes), entries, |entries|);
      if s.failed then
        (s.stats.(archivesFailed := s.stats.archivesFailed + 1), s.warnings + [ArchiveWarning(ZipArchiveExtractFailed, zipPath)])
      else if depth < depthLimit then
        ExtractNested(disk, targetRoot, maxLen, includeExt, depth, depthLimit, maxBytes, s.nested, (s.stats, s.warnings))
      else
        (s.stats.(nestedArchivesSkippedDepth := s.stats.nestedArchivesSkippedDepth + |s.nested|),
         s.warnings + DepthWarnings(s.nested))
  }

  /** Recursing into `archives` in order, each one a level deeper, adding
      each result to `base`. */
  function ExtractNested(disk: Disk, targetRoot: string, maxLen: int, includeExt: bool,
                         depth: int, depthLimit: int, maxBytes: int,
                         archives: seq<string>, base: (Stats, seq<Warning>)): (Stats, seq<Warning>)
    requires depth < depthLimit
    decreases Height(depth, depthLimit), 0, |archives|
  {
    if |archives| == 0 then base
    else
      var acc := ExtractNested(disk, targetRoot, maxLen, includeExt, depth, depthLimit, maxBytes,
                               archives[..|archives| - 1], base);
      var archive := archives[|archives| - 1];
      var child := Extract(disk, archive, NestedTarget(disk, targetRoot, archive), maxLen, includeExt,
                           depth + 1, depthLimit, maxBytes);
      (Absorb(acc.0, child.0), acc.1 + child.1)
  }

  // ---------------------------------------------------------------------------
  // The procedure

  /** The body of the member loop for one member. */
  method VisitEntry(disk: Disk, c: Call, s: Scan, e: Entry, index: nat) returns (s': Scan)
    requires !s.budgetExceeded && !s.failed
    ensures s' == EntryStep(disk, c, s, e, index)
  {
    hide Place, SafeMemberPath;
    if c.maxBytes > 0 && e.fileSize > 0 {
      if e.fileSize > 100 * Max(e.compressSize, 1) {
        return s.(warnings := s.warnings + [EntryWarning(ZipEntrySuspiciousRatio, c.zipPath, e.name)]);
      }
      if s.total + e.fileSize > c.maxBytes {
        return s.(budgetExceeded := true, warnings := s.warnings + [ArchiveWarning(ZipExtractionBudgetExceeded, c.zipPath)]);
      }
    }
    var safeMember := SafeMemberPath(e.name);
    if safeMember.None? {
      s' := s;
      if !IsDir(e) {
        s' := s.(stats := s.stats.(entriesTotal := s.stats.entriesTotal + 1,
                                   entriesSkippedUnsafePath := s.stats.entriesSkippedUnsafePath + 1),
                 warnings := s.warnings + [EntryWarning(ZipEntrySkippedUnsafePath, c.zipPath, e.name)]);
      }
      return;
    }
    if EndsWith(safeMember.value, "/") {
      return s;
    }
    s' := PlaceEntry(disk, c, s, e, index, safeMember.value);
  }

  /** Naming one member. */
  method PlaceEntry(disk: Disk, c: Call, s: Scan, e: Entry, index: nat, member: string) returns (s': Scan)
    ensures s' == Place(disk, c, s, e, index, member)
  {
    var renamed := LeafTruncated(member, c.maxLen, c.includeExt);
    var candidateRel := CandidateRel(member, c.maxLen, c.includeExt);
    var unique := UniquePath(candidateRel, s.used, c.maxLen, c.includeExt);
    s' := SettleEntry(disk, c, s, e, index, renamed, unique);
  }

  /** Counting one member and, once it has a name, reserving and copying it. */
  method SettleEntry(disk: Disk, c: Call, s: Scan, e: Entry, index: nat, renamed: bool, unique: Result<(string, bool)>)
    returns (s': Scan)
    ensures s' == Settle(disk, c, s, e, index, renamed, unique)
  {
    hide Write;
    var stats := s.stats.(entriesTotal := s.stats.entriesTotal + 1);
    if unique.Err? {
      return s.(stats := stats, failed := true);
    }
    var (uniqueRel, renamedByCollision) := unique.value;
    if renamed || renamedByCollision {
      stats := stats.(entriesRenamed := stats.entriesRenamed + 1);
    }
    s' := WriteEntry(disk, c, s.(stats := stats, used := s.used + {uniqueRel}), e, index, uniqueRel);
  }

  /** Copying one named member. */
  method WriteEntry(disk: Disk, c: Call, s: Scan, e: Entry, index: nat, rel: string) returns (s': Scan)
    ensures s' == Write(disk, c, s, e, index, rel)
  {
    var targetPath := TargetPath(c.targetRoot, rel);
    if !disk.copies(c.zipPath, index) {
      return s.(warnings := s.warnings + [EntryWarning(ZipEntryExtractFailed, c.zipPath, e.name)]);
    }
    var stats := s.stats.(entriesExtracted := s.stats.entriesExtracted + 1);
    var total := s.total + e.fileSize;
    if EndsWithIgnoreCase(targetPath, ".zip") {
      s' := s.(stats := stats, total := total, nested := s.nested + [targetPath]);
    } else {
      s' := s.(stats := stats.(extractedFiles := stats.extractedFiles + [targetPath]), total := total);
    }
  }

  /** The member loop: stops at the first budget overrun or exception. */
  method ScanEntries(disk: Disk, c: Call, entries: seq<Entry>) returns (s: Scan)
    ensures s == ScanPrefix(disk, c, entries, |entries|)
  {
    hide EntryStep;
    s := Opened;
    var i := 0;
    while i < |entries| && !s.budgetExceeded && !s.failed
      invariant i <= |entries|
      invariant s == ScanPrefix(disk, c, entries, i)
    {
      s := VisitEntry(disk, c, s, entries[i], i);
      i := i + 1;
    }
    if i < |entries| {
      ScanHalts(disk, c, entries, i, |entries|);
    }
  }

  /** Once the loop has stopped (budget overrun or exception), later
      members change nothing: no member after the stopping one is read. */
  lemma {:induction false} ScanHalts(disk: Disk, c: Call, entries: seq<Entry>, i: nat, j: nat)
    requires i <= j <= |entries|
    requires ScanPrefix(disk, c, entries, i).budgetExceeded || ScanPrefix(disk, c, entries, i).failed
    ensures ScanPrefix(disk, c, entries, j) == ScanPrefix(disk, c, entries, i)
    decreases j - i
  {
    hide Place, SafeMemberPath;
    if i < j {
      ScanHalts(disk, c, entries, i, j - 1);
    }
  }

  /** `extract_archive`. */
  method ExtractArchive(disk: Disk, zipPath: string, targetRoot: string, maxLen: int, includeExt: bool,
                        depth: int, depthLimit: int, maxBytes: int)
    returns (stats: Stats, logged: seq<Warning>)
    ensures (stats, logged) == Extract(disk, zipPath, targetRoot, maxLen, includeExt, depth, depthLimit, maxBytes)
    decreases Height(depth, depthLimit), 1, 0
  {
    hide EntryStep;
    var listing := disk.members(zipPath);
    if listing.None? {
      return NoStats.(archivesFailed := 1), [ArchiveWarning(ZipArchiveExtractFailed, zipPath)];
    }
    var s := ScanEntries(disk, Call(zipPath, targetRoot, maxLen, includeExt, maxBytes), listing.value);
    if s.failed {
      return s.stats.(archivesFailed := s.stats.archivesFailed + 1), s.warnings + [ArchiveWarning(ZipArchiveExtractFailed, zipPath)];
    }
    if depth < depthLimit {
      stats, logged := ExtractAllNested(disk, targetRoot, maxLen, includeExt, depth, depthLimit, maxBytes, s.nested, s.stats, s.warnings);
    } else {
      stats, logged := SkipNested(s.nested, s.stats, s.warnings);
    }
  }

  /** Past the depth limit: every nested archive is counted and warned about,
      none is opened. */
  method SkipNested(archives: seq<string>, stats0: Stats, logged0: seq<Warning>)
    returns (stats: Stats, logged: seq<Warning>)
    ensures stats == stats0.(nestedArchivesSkippedDepth := stats0.nestedArchivesSkippedDepth + |archives|)
    ensures logged == logged0 + DepthWarnings(archives)
  {
    stats, logged := stats0, logged0;
    for k := 0 to |archives|
      invariant stats == stats0.(nestedArchivesSkippedDepth := stats0.nestedArchivesSkippedDepth + k)
      invariant logged == logged0 + DepthWarnings(archives[..k])
    {
      assert archives[..k + 1][..k] == archives[..k];
      stats := stats.(nestedArchivesSkippedDepth := stats.nestedArchivesSkippedDepth + 1);
      logged := logged + [ArchiveWarning(ZipNestedDepthExceeded, archives[k])];
    }
    assert archives[..|archives|] == archives;
  }

  /** The nested pass: each archive extracted one level deeper into its own
      folder, its statistics and warnings added to the parent's. */
  method ExtractAllNested(disk: Disk, targetRoot: string, maxLen: int, includeExt: bool,
                          depth: int, depthLimit: int, maxBytes: int,
                          archives: seq<string>, stats0: Stats, logged0: seq<Warning>)
    returns (stats: Stats, logged: seq<Warning>)
    requires depth < depthLimit
    ensures (stats, logged) == ExtractNested(disk, targetRoot, maxLen, includeExt, depth, depthLimit, maxBytes, archives, (stats0, logged0))
    decreases Height(depth, depthLimit), 0, |archives|
  {
    stats, logged := stats0, logged0;
    for k := 0 to |archives|
      invariant (stats, logged) == ExtractNested(disk, targetRoot, maxLen, includeExt, depth, depthLimit, maxBytes, archives[..k], (stats0, logged0))
    {
      assert archives[..k + 1][..k] == archives[..k];
      var archive := archives[k];
      var childStats, childLogged := ExtractArchive(disk, archive, NestedTarget(disk, targetRoot, archive),
                                                    maxLen, includeExt, depth + 1, depthLimit, maxBytes);
      stats := Absorb(stats, childStats);
      logged := logged + childLogged;
    }
    assert archives[..|archives|] == archives;
  }

  // ---------------------------------------------------------------------------
  // What the member loop guarantees

  /** No path in `files` ends with `.zip` (in any case). */
  predicate NoZip(files: seq<string>) {
    forall k :: 0 <= k < |files| ==> !EndsWithIgnoreCase(files[k], ".zip")
  }

  /** The invariant of the member loop of one call:
      - with a budget, the bytes extracted stay within it;
      - one budget warning exactly when the budget stopped the loop, and no
        depth warning;
      - every member counted was either rejected as unsafe, given a relative
        path no earlier member got, or (at most once) ended the loop with an
        exception;
      - every copied member is either a nested archive, whose path ends with
        `.zip`, or an extracted file, whose path does not;
      - only this archive is counted, and no nested archive yet. */
  predicate Sound(c: Call, s: Scan) {
    && (c.maxBytes > 0 ==> s.total <= c.maxBytes)
    && CountCode(s.warnings, ZipExtractionBudgetExceeded) == (if s.budgetExceeded then 1 else 0)
    && CountCode(s.warnings, ZipNestedDepthExceeded) == 0
    && |s.used| + s.stats.entriesSkippedUnsafePath + (if s.failed then 1 else 0) == s.stats.entriesTotal
    && |s.stats.extractedFiles| + |s.nested| == s.stats.entriesExtracted
    && s.stats.entriesExtracted <= |s.used|
    && (forall k :: 0 <= k < |s.nested| ==> EndsWithIgnoreCase(s.nested[k], ".zip"))
    && NoZip(s.stats.extractedFiles)
    && s.stats.archivesExtracted == 1 && s.stats.archivesFailed == 0
    && s.stats.nestedArchivesExtracted == 0 && s.stats.nestedArchivesSkippedDepth == 0
  }

  /** Recording a warning of another code keeps both counts. */
  lemma RecordOther(ws: seq<Warning>, w: Warning)
    requires w.code != ZipExtractionBudgetExceeded && w.code != ZipNestedDepthExceeded
    ensures CountCode(ws + [w], ZipExtractionBudgetExceeded) == CountCode(ws, ZipExtractionBudgetExceeded)
    ensures CountCode(ws + [w], ZipNestedDepthExceeded) == CountCode(ws, ZipNestedDepthExceeded)
  {
    assert (ws + [w])[..|ws|] == ws;
  }

  /** Copying a member into a freshly reserved path keeps the invariant. */
  lemma WriteSound(disk: Disk, c: Call, s: Scan, e: Entry, index: nat, rel: string)
    requires Sound(c, s) && !s.failed && !s.budgetExceeded
    requires s.stats.entriesExtracted < |s.used|
    requires c.maxBytes > 0 && e.fileSize > 0 ==> s.total + e.fileSize <= c.maxBytes
    requires c.maxBytes > 0 ==> e.fileSize == 0 || s.total + e.fileSize <= c.maxBytes
    ensures Sound(c, Write(disk, c, s, e, index, rel))
  {
    hide TargetPath, EndsWithIgnoreCase;
    if !disk.copies(c.zipPath, index) {
      RecordOther(s.warnings, EntryWarning(ZipEntryExtractFailed, c.zipPath, e.name));
    }
  }

  /** Naming a member keeps the invariant when the name it gets is new. */
  lemma SettleSound(disk: Disk, c: Call, s: Scan, e: Entry, index: nat, truncated: bool, unique: Result<(string, bool)>)
    requires Sound(c, s) && !s.failed && !s.budgetExceeded
    requires c.maxBytes > 0 ==> e.fileSize == 0 || s.total + e.fileSize <= c.maxBytes
    requires unique.Ok? ==> unique.value.0 !in s.used
    ensures Sound(c, Settle(disk, c, s, e, index, truncated, unique))
  {
    hide Write;
    if unique.Ok? {
      var rel := unique.value.0;
      assert |s.used + {rel}| == |s.used| + 1;
      var counted := s.stats.(entriesTotal := s.stats.entriesTotal + 1);
      var named :=
        if truncated || unique.value.1
        then counted.(entriesRenamed := counted.entriesRenamed + 1) else counted;
      WriteSound(disk, c, s.(stats := named, used := s.used + {rel}), e, index, rel);
    }
  }

  /** One member keeps the invariant. */
  lemma StepSound(disk: Disk, c: Call, s: Scan, e: Entry, index: nat)
    requires Sound(c, s)
    ensures Sound(c, EntryStep(disk, c, s, e, index))
  {
    hide Settle, SafeMemberPath, UniqueName, CandidateRel, LeafTruncated;
    if s.budgetExceeded || s.failed {
    } else if c.maxBytes > 0 && e.fileSize > 0 && Suspicious(e) {
      RecordOther(s.warnings, EntryWarning(ZipEntrySuspiciousRatio, c.zipPath, e.name));
    } else if c.maxBytes > 0 && e.fileSize > 0 && s.total + e.fileSize > c.maxBytes {
      var w := ArchiveWarning(ZipExtractionBudgetExceeded, c.zipPath);
      assert (s.warnings + [w])[..|s.warnings|] == s.warnings;
    } else {
      match SafeMemberPath(e.name)
      case None =>
        RecordOther(s.warnings, EntryWarning(ZipEntrySkippedUnsafePath, c.zipPath, e.name));
      case Some(member) =>
        if !EndsWith(member, "/") {
          var unique := UniqueName(CandidateRel(member, c.maxLen, c.includeExt), s.used, c.maxLen, c.includeExt);
          UniqueNameSpec(CandidateRel(member, c.maxLen, c.includeExt), s.used, c.maxLen, c.includeExt);
          SettleSound(disk, c, s, e, index, LeafTruncated(member, c.maxLen, c.includeExt), unique);
        }
    }
  }

  /** The member loop's invariant holds after every member. */
  lemma {:induction false} ScanSound(disk: Disk, c: Call, entries: seq<Entry>, n: nat)
    requires n <= |entries|
    ensures Sound(c, ScanPrefix(disk, c, entries, n))
  {
    hide EntryStep;
    if n > 0 {
      ScanSound(disk, c, entries, n - 1);
      PrefixStepSound(disk, c, entries, n);
    }
  }

  lemma PrefixStepSound(disk: Disk, c: Call, entries: seq<Entry>, n: nat)
    requires 0 < n <= |entries|
    requires Sound(c, ScanPrefix(disk, c, entries, n - 1))
    ensures Sound(c, ScanPrefix(disk, c, entries, n))
  {
    hide EntryStep;
    StepSound(disk, c, ScanPrefix(disk, c, entries, n - 1), entries[n - 1], n - 1);
  }

  // ---------------------------------------------------------------------------
  // What a whole call guarantees

  /** An archive that cannot be opened counts as failed, is not counted as
      extracted, yields no file and records one warning. */
  lemma ExtractUnopened(disk: Disk, zipPath: string, targetRoot: string, maxLen: int, includeExt: bool,
                        depth: int, depthLimit: int, maxBytes: int)
    requires disk.members(zipPath).None?
    ensures var r := Extract(disk, zipPath, targetRoot, maxLen, includeExt, depth, depthLimit, maxBytes);
      && r.0.archivesFailed == 1 && r.0.archivesExtracted == 0 && r.0.extractedFiles == []
      && r.1 == [ArchiveWarning(ZipArchiveExtractFailed, zipPath)]
  {
  }

  /** At the depth limit no nested archive is opened: the files are exactly
      those of this archive, every nested archive is counted as skipped and
      gets one depth warning, and none is counted as extracted. */
  lemma ExtractAtDepthLimit(disk: Disk, zipPath: string, targetRoot: string, maxLen: int, includeExt: bool,
                            depth: int, depthLimit: int, maxBytes: int)
    requires depth >= depthLimit && disk.members(zipPath).Some?
    ensures var entries := disk.members(zipPath).value;
      var s := ScanPrefix(disk, Call(zipPath, targetRoot, maxLen, includeExt, maxBytes), entries, |entries|);
      var r := Extract(disk, zipPath, targetRoot, maxLen, includeExt, depth, depthLimit, maxBytes);
      !s.failed ==>
        && r.0.extractedFiles == s.stats.extractedFiles
        && r.0.archivesExtracted == 1
        && r.0.nestedArchivesExtracted == 0
        && r.0.nestedArchivesSkippedDepth == |s.nested|
        && CountCode(r.1, ZipNestedDepthExceeded) == |s.nested|
  {
    hide EntryStep;
    var entries := disk.members(zipPath).value;
    var c := Call(zipPath, targetRoot, maxLen, includeExt, maxBytes);
    var s := ScanPrefix(disk, c, entries, |entries|);
    ScanSound(disk, c, entries, |entries|);
    CountCodeAppend(s.warnings, DepthWarnings(s.nested), ZipNestedDepthExceeded);
    DepthWarningsCount(s.nested);
  }

  lemma {:induction false} DepthWarningsCount(archives: seq<string>)
    ensures CountCode(DepthWarnings(archives), ZipNestedDepthExceeded) == |archives|
  {
    if |archives| > 0 {
      var prefix := archives[..|archives| - 1];
      DepthWarningsCount(prefix);
      assert DepthWarnings(archives)[..|archives| - 1] == DepthWarnings(prefix);
    }
  }

  /** With a budget, one call extracts at most the budget; once the budget
      would be passed there is exactly one budget warning and no later member
      is read. Nested archives get a budget of their own. */
  lemma ScanWithinBudget(disk: Disk, c: Call, entries: seq<Entry>, n: nat)
    requires n <= |entries|
    ensures var s := ScanPrefix(disk, c, entries, n);
      && (c.maxBytes > 0 ==> s.total <= c.maxBytes)
      && CountCode(s.warnings, ZipExtractionBudgetExceeded) == (if s.budgetExceeded then 1 else 0)
      && (s.budgetExceeded ==> ScanPrefix(disk, c, entries, |entries|) == s)
  {
    hide EntryStep;
    ScanSound(disk, c, entries, n);
    if ScanPrefix(disk, c, entries, n).budgetExceeded {
      ScanHalts(disk, c, entries, n, |entries|);
    }
  }

  /** Every member given a name gets one no earlier member got: the names
      reserved number the counted members minus those rejected as unsafe
      (and minus the one an exception interrupted). */
  lemma ScanNamesDistinct(disk: Disk, c: Call, entries: seq<Entry>)
    ensures var s := ScanPrefix(disk, c, entries, |entries|);
      && |s.used| + s.stats.entriesSkippedUnsafePath + (if s.failed then 1 else 0) == s.stats.entriesTotal
      && s.stats.entriesExtracted <= |s.used|
      && |s.stats.extractedFiles| + |s.nested| == s.stats.entriesExtracted
  {
    hide EntryStep;
    ScanSound(disk, c, entries, |entries|);
  }

  lemma NoZipAppend(a: seq<string>, b: seq<string>)
    requires NoZip(a) && NoZip(b)
    ensures NoZip(a + b)
  {
    forall k | 0 <= k < |a + b| ensures !EndsWithIgnoreCase((a + b)[k], ".zip") {
      if k >= |a| { assert (a + b)[k] == b[k - |a|]; }
    }
  }

  /** No extracted file anywhere in the tree of nested archives ends with
      `.zip`: archives are only ever recursed into, never listed. */
  lemma {:induction false} ExtractFilesNotZip(disk: Disk, zipPath: string, targetRoot: string, maxLen: int, includeExt: bool,
                                              depth: int, depthLimit: int, maxBytes: int)
    ensures NoZip(Extract(disk, zipPath, targetRoot, maxLen, includeExt, depth, depthLimit, maxBytes).0.extractedFiles)
    decreases Height(depth, depthLimit), 1, 0
  {
    hide EntryStep;
    match disk.members(zipPath)
    case None =>
    case Some(entries) =>
      var c := Call(zipPath, targetRoot, maxLen, includeExt, maxBytes);
      var s := ScanPrefix(disk, c, entries, |entries|);
      ScanSound(disk, c, entries, |entries|);
      if !s.failed && depth < depthLimit {
        NestedFilesNotZip(disk, targetRoot, maxLen, includeExt, depth, depthLimit, maxBytes, s.nested, (s.stats, s.warnings));
      }
  }

  lemma {:induction false} NestedFilesNotZip(disk: Disk, targetRoot: string, maxLen: int, includeExt: bool,
                                             depth: int, depthLimit: int, maxBytes: int,
                                             archives: seq<string>, base: (Stats, seq<Warning>))
    requires depth < depthLimit && NoZip(base.0.extractedFiles)
    ensures NoZip(ExtractNested(disk, targetRoot, maxLen, includeExt, depth, depthLimit, maxBytes, archives, base).0.extractedFiles)
    decreases Height(depth, depthLimit), 0, |archives|
  {
    if |archives| > 0 {
      var prefix := archives[..|archives| - 1];
      var archive := archives[|archives| - 1];
      var acc := ExtractNested(disk, targetRoot, maxLen, includeExt, depth, depthLimit, maxBytes, prefix, base);
      var child := Extract(disk, archive, NestedTarget(disk, targetRoot, archive), maxLen, includeExt, depth + 1, depthLimit, maxBytes);
      NestedFilesNotZip(disk, targetRoot, maxLen, includeExt, depth, depthLimit, maxBytes, prefix, base);
      ExtractFilesNotZip(disk, archive, NestedTarget(disk, targetRoot, archive), maxLen, includeExt, depth + 1, depthLimit, maxBytes);
      NoZipAppend(acc.0.extractedFiles, child.0.extractedFiles);
    }
  }
}
