/** The run's outcome ledger: which inputs failed or were skipped (read
    back from the warnings) and where copies of failed inputs are placed. */
module Ledger {
  import opened Wrappers
  import opened Text
  import opened Paths
  import opened Warnings
  import opened ZipPaths
  import opened Batching

  // ---------------------------------------------------------------------------
  // `_collect_file_outcomes_from_warnings`

  /** A context value Python treats as true: present and non-empty. */
  predicate Truthy(o: Option<string>) {
    o.Some? && o.value != ""
  }

  /** The input a warning is about: its `file`; else `archive::entry` when
      both are set; else the archive or the destination. `None` when the
      warning names no input, including an empty `file`. */
  function WarningSource(w: Warning): (r: Option<string>)
    ensures r.Some? ==> r.value != ""
  {
    if w.file.Some? then (if w.file.value != "" then w.file else None)
    else if Truthy(w.archive) && Truthy(w.entry) then Some(w.archive.value + "::" + w.entry.value)
    else if Truthy(w.archive) then w.archive
    else if Truthy(w.destination) then w.destination
    else None
  }

  /** `code.split("_", 1)[0]`: the code up to its first `_`. */
  function Stage(code: string): (r: string)
    ensures '_' !in r && StartsWith(code, r)
    ensures r == code || code[|r|] == '_'
  {
    if |code| == 0 || code[0] == '_' then ""
    else [code[0]] + Stage(code[1..])
  }

  /** One ledger entry. */
  datatype Outcome = Outcome(source: string, code: string, message: string, stage: string)

  /** The codes recorded as skipped rather than failed. */
  predicate IsSkipCode(code: string) {
    code == "zip_entry_skipped_unsafe_path" || code == "zip_nested_depth_exceeded" || code == "zip_empty_after_extraction"
  }

  function OutcomeOf(w: Warning, source: string): Outcome {
    var code := CodeName(w.code);
    Outcome(source, code, Message(w.code), Stage(code))
  }

  /** The entries the warnings describe, in order, repeats included. */
  function Outcomes(ws: seq<Warning>): (r: seq<Outcome>)
    ensures |r| <= |ws|
  {
    if |ws| == 0 then []
    else
      var w := ws[|ws| - 1];
      Outcomes(ws[..|ws| - 1]) + (if WarningSource(w).Some? then [OutcomeOf(w, WarningSource(w).value)] else [])
  }

  /** Each entry at its first occurrence only. */
  function FirstOccurrences(xs: seq<Outcome>): seq<Outcome> {
    if |xs| == 0 then []
    else
      var init := xs[..|xs| - 1];
      FirstOccurrences(init) + (if xs[|xs| - 1] in init then [] else [xs[|xs| - 1]])
  }

  /** The entries whose code is (`skip`) or is not (`!skip`) a skip code. */
  function OfKind(xs: seq<Outcome>, skip: bool): seq<Outcome> {
    if |xs| == 0 then []
    else OfKind(xs[..|xs| - 1], skip) + (if IsSkipCode(xs[|xs| - 1].code) == skip then [xs[|xs| - 1]] else [])
  }

  /** `_collect_file_outcomes_from_warnings`: the failed and the skipped
      entries, each entry kept at its first occurrence. */
  method CollectFileOutcomes(warnings: seq<Warning>) returns (failed: seq<Outcome>, skipped: seq<Outcome>)
    ensures failed == OfKind(FirstOccurrences(Outcomes(warnings)), false)
    ensures skipped == OfKind(FirstOccurrences(Outcomes(warnings)), true)
  {
    hide CodeName, Message, Stage;
    failed := [];
    skipped := [];
    var seen: set<Outcome> := {};
    for i := 0 to |warnings|
      invariant forall x :: x in seen <==> x in Outcomes(warnings[..i])
      invariant failed == OfKind(FirstOccurrences(Outcomes(warnings[..i])), false)
      invariant skipped == OfKind(FirstOccurrences(Outcomes(warnings[..i])), true)
    {
      assert warnings[..i + 1][..i] == warnings[..i];
      var warning := warnings[i];
      var code := CodeName(warning.code);
      var message := Message(warning.code);
      var stage := Stage(code);
      var source := warning.file;
      if source.None? && Truthy(warning.archive) && Truthy(warning.entry) {
        source := Some(warning.archive.value + "::" + warning.entry.value);
      }
      if source.None? {
        source := if Truthy(warning.archive) then warning.archive else warning.destination;
      }
      assert (if source.Some? && source.value != "" then source else None) == WarningSource(warning);
      ghost var done := Outcomes(warnings[..i]);
      assert Outcomes(warnings[..i + 1])
        == done + (if WarningSource(warning).Some? then [OutcomeOf(warning, WarningSource(warning).value)] else []);
      hide Outcomes, WarningSource, FirstOccurrences, OfKind;
      if source.Some? && source.value != "" {
        var item := Outcome(source.value, code, message, stage);
        assert item == OutcomeOf(warning, source.value);
        FirstOccurrencesSnoc(done, item);
        OfKindSnoc(FirstOccurrences(done), item, false);
        OfKindSnoc(FirstOccurrences(done), item, true);
        ghost var firsts := FirstOccurrences(done);
        if item !in seen {
          seen := seen + {item};
          assert FirstOccurrences(Outcomes(warnings[..i + 1])) == firsts + [item];
          if IsSkipCode(code) {
            skipped := skipped + [item];
          } else {
            failed := failed + [item];
          }
        } else {
          assert FirstOccurrences(Outcomes(warnings[..i + 1])) == firsts;
        }
      } else {
        assert Outcomes(warnings[..i + 1]) == done;
      }
    }
    assert warnings[..|warnings|] == warnings;
  }

  lemma {:induction false} FirstOccurrencesSpec(xs: seq<Outcome>)
    ensures forall x :: x in FirstOccurrences(xs) <==> x in xs
    ensures Distinct(FirstOccurrences(xs))
    ensures |FirstOccurrences(xs)| <= |xs|
  {
    if |xs| > 0 {
      FirstOccurrencesSpec(xs[..|xs| - 1]);
    }
  }

  predicate Distinct(xs: seq<Outcome>) {
    forall i, j :: 0 <= i < j < |xs| ==> xs[i] != xs[j]
  }

  lemma {:induction false} OfKindSpec(xs: seq<Outcome>, skip: bool)
    ensures forall x :: x in OfKind(xs, skip) <==> x in xs && IsSkipCode(x.code) == skip
    ensures Distinct(xs) ==> Distinct(OfKind(xs, skip))
    ensures |OfKind(xs, skip)| + |OfKind(xs, !skip)| == |xs|
  {
    if |xs| > 0 {
      OfKindSpec(xs[..|xs| - 1], skip);
    }
  }

  /** The entries of the warnings are exactly those of the warnings that
      name an input, each under that input's source. */
  lemma {:induction false} OutcomesSpec(ws: seq<Warning>)
    ensures forall x :: x in Outcomes(ws) <==>
      exists i :: 0 <= i < |ws| && WarningSource(ws[i]).Some? && x == OutcomeOf(ws[i], WarningSource(ws[i]).value)
  {
    hide CodeName, Message, Stage, OutcomeOf, WarningSource;
    if |ws| > 0 {
      var init := ws[..|ws| - 1];
      OutcomesSpec(init);
      forall x | x in Outcomes(ws)
        ensures exists i :: 0 <= i < |ws| && WarningSource(ws[i]).Some? && x == OutcomeOf(ws[i], WarningSource(ws[i]).value)
      {
        if x in Outcomes(init) {
          var i :| 0 <= i < |init| && WarningSource(init[i]).Some? && x == OutcomeOf(init[i], WarningSource(init[i]).value);
          assert ws[i] == init[i];
        }
      }
      forall i | 0 <= i < |ws| && WarningSource(ws[i]).Some?
        ensures OutcomeOf(ws[i], WarningSource(ws[i]).value) in Outcomes(ws)
      {
        if i < |init| {
          assert ws[i] == init[i];
        }
      }
    }
  }

  /** What the ledger promises: every warning that names an input yields an
      entry and every entry comes from such a warning; an entry appears
      once; skip codes go to `skipped` and nothing else does, so the lists
      are disjoint; and there are never more entries than warnings. */
  lemma CollectFileOutcomesSpec(ws: seq<Warning>)
    ensures var unique := FirstOccurrences(Outcomes(ws));
      var failed := OfKind(unique, false);
      var skipped := OfKind(unique, true);
      && (forall x :: x in failed + skipped <==>
            exists i :: 0 <= i < |ws| && WarningSource(ws[i]).Some? && x == OutcomeOf(ws[i], WarningSource(ws[i]).value))
      && (forall x :: x in skipped ==> IsSkipCode(x.code))
      && (forall x :: x in failed ==> !IsSkipCode(x.code))
      && Distinct(failed) && Distinct(skipped)
      && |failed| + |skipped| <= |ws|
  {
    var unique := FirstOccurrences(Outcomes(ws));
    OutcomesSpec(ws);
    FirstOccurrencesSpec(Outcomes(ws));
    OfKindSpec(unique, false);
    OfKindSpec(unique, true);
    hide CodeName, Message, Stage, OutcomeOf, WarningSource, Outcomes, FirstOccurrences, OfKind;
    var failed := OfKind(unique, false);
    var skipped := OfKind(unique, true);
    forall x ensures x in failed + skipped <==> x in Outcomes(ws) {
      assert x in failed + skipped <==> x in failed || x in skipped;
    }
  }

  lemma FirstOccurrencesSnoc(xs: seq<Outcome>, y: Outcome)
    ensures FirstOccurrences(xs + [y]) == FirstOccurrences(xs) + (if y in xs then [] else [y])
  {
    assert (xs + [y])[..|xs|] == xs;
  }

  lemma OfKindSnoc(xs: seq<Outcome>, y: Outcome, skip: bool)
    ensures OfKind(xs + [y], skip) == OfKind(xs, skip) + (if IsSkipCode(y.code) == skip then [y] else [])
  {
    assert (xs + [y])[..|xs|] == xs;
  }

  // ---------------------------------------------------------------------------
  // Where a failed input's copy goes

  /** The orchestrator's `_truncate_leaf_name`: unchanged when there is no
      limit or the name fits; otherwise the extension is kept and the base
      cut to leave room for it (at least one character). */
  function LeafName(name: string, maxLen: int): string {
    if maxLen <= 0 || |name| <= maxLen then name
    else
      var (base, ext) := Splitext(name);
      var keep := Max(1, maxLen - |ext|);
      base[..Min(keep, |base|)] + ext
  }

  /** It is the archive truncation with the extension counted, so the bounds
      proved for that one hold here. */
  lemma LeafNameIsArchiveTruncation(name: string, maxLen: int)
    ensures LeafName(name, maxLen) == TruncateLeafName(name, maxLen, true)
  {
    var (base, ext) := Splitext(name);
    assert base + ext == name;
  }

  /** The leaf limit used for failed-input copies. */
  const ArtifactLeafLimit: int := 120

  /** The path tried for `index`: `<base>_<index><ext>` in the directory of
      `path`. */
  function NumberedDestination(path: string, index: nat): string {
    var (directory, filename) := PathSplit(path);
    var (base, ext) := Splitext(filename);
    PathJoin(directory, base + "_" + NatToString(index) + ext)
  }

  function DestinationTaken(path: string, existing: set<string>): nat -> bool {
    (k: nat) => NumberedDestination(path, k) in existing
  }

  /** What `_ensure_unique_destination` returns: the path when nothing is
      there, else the first free numbered path from 1; an error when every
      index up to `MaxCounter` is taken. */
  function UniqueDestination(path: string, existing: set<string>): Result<string> {
    if path !in existing then Ok(path)
    else
      match FirstFree(DestinationTaken(path, existing), 1)
      case None => Err("Unable to allocate destination filename.")
      case Some(k) => Ok(NumberedDestination(path, k))
  }

  /** `_ensure_unique_destination`. */
  method EnsureUniqueDestination(path: string, existing: set<string>) returns (r: Result<string>)
    ensures r == UniqueDestination(path, existing)
  {
    if path !in existing {
      return Ok(path);
    }
    ghost var taken := DestinationTaken(path, existing);
    var (directory, filename) := PathSplit(path);
    var (base, ext) := Splitext(filename);
    for index := 1 to MaxCounter + 1
      invariant FirstFree(taken, index) == FirstFree(taken, 1)
    {
      var candidate := PathJoin(directory, base + "_" + NatToString(index) + ext);
      assert taken(index) == (candidate in existing);
      if candidate !in existing {
        return Ok(candidate);
      }
    }
    return Err("Unable to allocate destination filename.");
  }

  /** The destination is never an existing path: the path itself when free,
      else the numbered path with the smallest free index from 1; the error
      means every index up to `MaxCounter` is taken. */
  lemma UniqueDestinationSpec(path: string, existing: set<string>)
    ensures UniqueDestination(path, existing).Ok? ==> UniqueDestination(path, existing).value !in existing
    ensures path !in existing ==> UniqueDestination(path, existing) == Ok(path)
    ensures path in existing && UniqueDestination(path, existing).Ok? ==>
      exists k :: 1 <= k <= MaxCounter && UniqueDestination(path, existing).value == NumberedDestination(path, k)
        && forall j :: 1 <= j < k ==> NumberedDestination(path, j) in existing
    ensures UniqueDestination(path, existing).Err? <==>
      path in existing && forall k :: 1 <= k <= MaxCounter ==> NumberedDestination(path, k) in existing
  {
    var taken := DestinationTaken(path, existing);
    FirstFreeSpec(taken, 1);
    forall k: nat ensures taken(k) == (NumberedDestination(path, k) in existing) {}
  }

  /** Joining a leaf without `/` gives a path whose leaf it is. */
  lemma BasenameOfJoin(directory: string, leaf: string)
    requires leaf != "" && '/' !in leaf
    ensures Basename(PathJoin(directory, leaf)) == leaf
  {
    assert !StartsWith(leaf, "/") by {
      assert leaf[0] in leaf;
    }
    var prefix := if directory == "" || EndsWith(directory, "/") then directory else directory + "/";
    var p := prefix + leaf;
    assert PathJoin(directory, leaf) == p;
    assert prefix == "" || prefix[|prefix| - 1] == '/';
    var r := RFind(p, '/');
    assert forall j :: |prefix| <= j < |p| ==> p[j] == leaf[j - |prefix|];
    if prefix != "" {
      assert p[|prefix| - 1] == '/';
    }
    assert r == |prefix| - 1;
    assert p[r + 1..] == leaf;
  }

  lemma NoSlashConcat(a: string, b: string)
    requires '/' !in a && '/' !in b
    ensures '/' !in a + b
  {
    assert forall j :: 0 <= j < |a + b| ==> (a + b)[j] == if j < |a| then a[j] else b[j - |a|];
  }

  lemma NoSlashParts(s: string, a: string, b: string)
    requires '/' !in s && a + b == s
    ensures '/' !in a && '/' !in b
  {
    assert forall j :: 0 <= j < |a| ==> a[j] == s[j];
    assert forall j :: 0 <= j < |b| ==> b[j] == s[|a| + j];
  }

  /** A numbered destination stays in the directory of the path, keeps its
      extension, and inserts `_<index>` before it. */
  lemma NumberedDestinationLeaf(path: string, index: nat)
    ensures var (base, ext) := Splitext(Basename(path));
      Basename(NumberedDestination(path, index)) == base + "_" + NatToString(index) + ext
  {
    var (directory, filename) := PathSplit(path);
    var (base, ext) := Splitext(filename);
    var digits := NatToString(index);
    hide PathSplit, Splitext, NatToString, Basename;
    NoSlashParts(filename, base, ext);
    assert '/' !in digits by {
      assert forall j :: 0 <= j < |digits| ==> IsDigit(digits[j]);
    }
    NoSlashConcat(base, "_");
    NoSlashConcat(base + "_", digits);
    NoSlashConcat(base + "_" + digits, ext);
    BasenameOfJoin(directory, base + "_" + digits + ext);
  }

  // ---------------------------------------------------------------------------
  // `_materialize_failed_artifacts`

  /** What to do with a failed input. */
  datatype Action = Copy | Move | MetadataOnly

  /** The action setting, lower-cased; anything else means `copy`. */
  function NormalizeAction(action: string): Action {
    var a := Lower(action);
    if a == "move" then Move else if a == "metadata_only" then MetadataOnly else Copy
  }

  /** The `artifact_status` values. */
  datatype Status = NotCreated | SourceMissing | Created | CopyFailed

  /** The paths that exist: regular files, and everything else. */
  datatype FileSystem = FileSystem(files: set<string>, others: set<string>)

  function Existing(fs: FileSystem): set<string> {
    fs.files + fs.others
  }

  /** `"::" in s`: the source names a member of an archive. */
  predicate HasArchiveSeparator(s: string) {
    exists i :: 0 <= i < |s| - 1 && s[i] == ':' && s[i + 1] == ':'
  }

  /** The status and destination given to one failed input. */
  datatype Artifact = Artifact(status: Status, destination: Option<string>)

  /** Where the copy of `source` is planned: `<root>/<stage>/<leaf>`, the
      stage `unknown` when empty, the leaf cut to `ArtifactLeafLimit`. */
  function PlannedDestination(failedRoot: string, source: string, stage: string): string {
    var stageDirectory := if stage == "" then "unknown" else stage;
    PathJoin(PathJoin(failedRoot, stageDirectory), LeafName(Basename(source), ArtifactLeafLimit))
  }

  /** One failed input handled: its artifact, the file system after, and
      the warning a failed copy records. */
  datatype Placed = Placed(artifact: Artifact, fs: FileSystem, warnings: seq<Warning>)

  /** One failed input. Nothing is done when artifacts are off or only
      metadata is wanted; an archive member or a missing file is a missing
      source; otherwise the input is copied (or moved) to a free destination,
      or a warning records why it could not be. Running out of destination
      names is an error. `copyFails` says which copies fail. */
  function PlaceArtifact(source: string, stage: string, failedRoot: string, action: Action, enabled: bool,
                         fs: FileSystem, copyFails: (string, string) -> bool): Result<Placed>
  {
    if !enabled || action == MetadataOnly then Ok(Placed(Artifact(NotCreated, None), fs, []))
    else if source == "" || HasArchiveSeparator(source) || source !in fs.files then
      Ok(Placed(Artifact(SourceMissing, None), fs, []))
    else
      match UniqueDestination(PlannedDestination(failedRoot, source, stage), Existing(fs))
      case Err(message) => Err(message)
      case Ok(destination) =>
        if copyFails(source, destination) then
          Ok(Placed(Artifact(CopyFailed, Some(destination)), fs,
                    [Warning(FailedArtifactCreateFailed, Some(source), None, None, Some(destination))]))
        else
          var files := if action == Move then fs.files - {source} + {destination} else fs.files + {destination};
          Ok(Placed(Artifact(Created, Some(destination)), fs.(files := files), []))
  }

  /** The artifacts step over a list of failed inputs, stopped by the first
      error. */
  datatype Pass = Pass(artifacts: seq<Artifact>, fs: FileSystem, warnings: seq<Warning>, failure: Option<string>)

  function Materialize(entries: seq<(string, string)>, failedRoot: string, action: Action, enabled: bool,
                       fs: FileSystem, copyFails: (string, string) -> bool): (p: Pass)
    ensures p.failure.None? ==> |p.artifacts| == |entries|
    ensures p.failure.Some? ==> |p.artifacts| < |entries|
  {
    if |entries| == 0 then Pass([], fs, [], None)
    else
      var p := Materialize(entries[..|entries| - 1], failedRoot, action, enabled, fs, copyFails);
      if p.failure.Some? then p
      else
        var (source, stage) := entries[|entries| - 1];
        match PlaceArtifact(source, stage, failedRoot, action, enabled, p.fs, copyFails)
        case Err(message) => p.(failure := Some(message))
        case Ok(placed) => Pass(p.artifacts + [placed.artifact], placed.fs, p.warnings + placed.warnings, None)
  }

  /** How many artifacts have `status`. */
  function CountStatus(artifacts: seq<Artifact>, status: Status): (n: nat)
    ensures n <= |artifacts|
  {
    if |artifacts| == 0 then 0
    else CountStatus(artifacts[..|artifacts| - 1], status) + (if artifacts[|artifacts| - 1].status == status then 1 else 0)
  }

  lemma CountStatusSnoc(artifacts: seq<Artifact>, a: Artifact, status: Status)
    ensures CountStatus(artifacts + [a], status) == CountStatus(artifacts, status) + (if a.status == status then 1 else 0)
  {
    assert (artifacts + [a])[..|artifacts|] == artifacts;
  }

  /** What one artifact says about its input: nothing is done when
      artifacts are off or only metadata is wanted; an empty source or an
      archive member is a missing source; a destination is recorded exactly
      when a copy was attempted. */
  predicate Consistent(entry: (string, string), artifact: Artifact, action: Action, enabled: bool) {
    && ((!enabled || action == MetadataOnly) ==> artifact == Artifact(NotCreated, None))
    && (enabled && action != MetadataOnly && (entry.0 == "" || HasArchiveSeparator(entry.0)) ==> artifact.status == SourceMissing)
    && (artifact.destination.Some? <==> artifact.status == Created || artifact.status == CopyFailed)
  }

  /** One input: its artifact is consistent with it, a warning is recorded
      exactly for a failed copy, and with `copy` the destination of a created
      artifact is a new file added to the existing ones. */
  lemma PlaceArtifactSpec(source: string, stage: string, failedRoot: string, action: Action, enabled: bool,
                          fs: FileSystem, copyFails: (string, string) -> bool)
    ensures match PlaceArtifact(source, stage, failedRoot, action, enabled, fs, copyFails)
      case Err(_) => enabled && action != MetadataOnly
      case Ok(placed) =>
        && Consistent((source, stage), placed.artifact, action, enabled)
        && |placed.warnings| == (if placed.artifact.status == CopyFailed then 1 else 0)
        && (forall w :: w in placed.warnings ==> w.code == FailedArtifactCreateFailed)
        && ((!enabled || action == MetadataOnly) ==> placed == Placed(Artifact(NotCreated, None), fs, []))
        && (action == Copy ==>
              && placed.fs.others == fs.others && fs.files <= placed.fs.files
              && (placed.artifact.status == Created ==>
                    placed.fs.files == fs.files + {placed.artifact.destination.value}
                    && placed.artifact.destination.value !in Existing(fs))
              && (placed.artifact.status != Created ==> placed.fs == fs))
  {
    if enabled && action != MetadataOnly && !(source == "" || HasArchiveSeparator(source) || source !in fs.files) {
      UniqueDestinationSpec(PlannedDestination(failedRoot, source, stage), Existing(fs));
    }
  }

  /** The artifacts step: each artifact is consistent with its input, the
      warnings are one per failed copy, and with artifacts off or only
      metadata wanted nothing changes and nothing fails. */
  lemma {:induction false} MaterializeSpec(entries: seq<(string, string)>, failedRoot: string, action: Action, enabled: bool,
                                           fs: FileSystem, copyFails: (string, string) -> bool)
    ensures var p := Materialize(entries, failedRoot, action, enabled, fs, copyFails);
      && (forall i :: 0 <= i < |p.artifacts| ==> Consistent(entries[i], p.artifacts[i], action, enabled))
      && |p.warnings| == CountStatus(p.artifacts, CopyFailed)
      && (forall w :: w in p.warnings ==> w.code == FailedArtifactCreateFailed)
      && ((!enabled || action == MetadataOnly) ==> p.fs == fs && p.warnings == [] && p.failure.None?)
  {
    hide PlaceArtifact, CountStatus, Consistent;
    if |entries| > 0 {
      var init := entries[..|entries| - 1];
      MaterializeSpec(init, failedRoot, action, enabled, fs, copyFails);
      var p := Materialize(init, failedRoot, action, enabled, fs, copyFails);
      if p.failure.None? {
        var (source, stage) := entries[|entries| - 1];
        PlaceArtifactSpec(source, stage, failedRoot, action, enabled, p.fs, copyFails);
        var step := PlaceArtifact(source, stage, failedRoot, action, enabled, p.fs, copyFails);
        if step.Ok? {
          CountStatusSnoc(p.artifacts, step.value.artifact, CopyFailed);
          assert forall i :: 0 <= i < |p.artifacts| ==> entries[i] == init[i];
          var q := Pass(p.artifacts + [step.value.artifact], step.value.fs, p.warnings + step.value.warnings, None);
          assert Materialize(entries, failedRoot, action, enabled, fs, copyFails) == q;
          assert forall i :: 0 <= i < |p.artifacts| ==> q.artifacts[i] == p.artifacts[i];
        }
      }
    }
  }

  /** With `copy`, the created artifacts are new files that stay: each
      destination did not exist before the step, is a file after it, and no
      two created artifacts share one; no existing path goes away. */
  ghost predicate FreshCopies(artifacts: seq<Artifact>, after: FileSystem, fs: FileSystem) {
    && fs.files <= after.files && after.others == fs.others
    && (forall i :: 0 <= i < |artifacts| && artifacts[i].status == Created ==>
          && artifacts[i].destination.Some?
          && artifacts[i].destination.value in after.files
          && artifacts[i].destination.value !in Existing(fs))
    && (forall i, j :: 0 <= i < j < |artifacts| && artifacts[i].status == Created && artifacts[j].status == Created ==>
          artifacts[i].destination != artifacts[j].destination)
  }

  lemma {:induction false} MaterializeCopiesFresh(entries: seq<(string, string)>, failedRoot: string, enabled: bool,
                                                  fs: FileSystem, copyFails: (string, string) -> bool)
    ensures var p := Materialize(entries, failedRoot, Copy, enabled, fs, copyFails);
      FreshCopies(p.artifacts, p.fs, fs)
  {
    if |entries| > 0 {
      hide PlaceArtifact, Consistent, FreshCopies;
      var init := entries[..|entries| - 1];
      MaterializeCopiesFresh(init, failedRoot, enabled, fs, copyFails);
      var p := Materialize(init, failedRoot, Copy, enabled, fs, copyFails);
      if p.failure.None? {
        var (source, stage) := entries[|entries| - 1];
        PlaceArtifactSpec(source, stage, failedRoot, Copy, enabled, p.fs, copyFails);
        var step := PlaceArtifact(source, stage, failedRoot, Copy, enabled, p.fs, copyFails);
        if step.Ok? {
          assert Materialize(entries, failedRoot, Copy, enabled, fs, copyFails)
              == Pass(p.artifacts + [step.value.artifact], step.value.fs, p.warnings + step.value.warnings, None);
          FreshCopiesExtend(p.artifacts, p.fs, fs, step.value.artifact, step.value.fs);
        }
      }
    }
  }

  /** One more copy keeps the copies fresh when its destination is new. */
  lemma FreshCopiesExtend(artifacts: seq<Artifact>, after: FileSystem, fs: FileSystem, a: Artifact, next: FileSystem)
    requires FreshCopies(artifacts, after, fs)
    requires after.files <= next.files && next.others == after.others
    requires a.status == Created ==>
      a.destination.Some? && a.destination.value in next.files && a.destination.value !in Existing(after)
    ensures FreshCopies(artifacts + [a], next, fs)
  {
    assert forall i :: 0 <= i < |artifacts| ==> (artifacts + [a])[i] == artifacts[i];
  }

  /** The three keys the artifacts step writes into a failed input's
      record: `artifact_action`, `artifact_status`, `artifact_destination`. */
  datatype Annotation = Annotation(action: Option<Action>, status: Option<Status>, destination: Option<string>)

  /** A failed input as the dictionary the artifacts step annotates in
      place. */
  class FailedFile {
    const source: string
    const stage: string
    var artifactAction: Option<Action>
    var artifactStatus: Option<Status>
    var artifactDestination: Option<string>

    constructor(entry: Outcome)
      ensures source == entry.source && stage == entry.stage
      ensures artifactAction == None && artifactStatus == None && artifactDestination == None
    {
      source := entry.source;
      stage := entry.stage;
      artifactAction := None;
      artifactStatus := None;
      artifactDestination := None;
    }

    function Annotated(): Annotation
      reads this
    {
      Annotation(artifactAction, artifactStatus, artifactDestination)
    }
  }

  /** A record after its input is placed: the action and the artifact's
      status, and the destination once one is chosen; an input whose
      placement raised (`None`) is marked not created. */
  function Noted(before: Annotation, act: Action, artifact: Option<Artifact>): Annotation {
    match artifact
    case None => Annotation(Some(act), Some(NotCreated), before.destination)
    case Some(a) => Annotation(Some(act), Some(a.status), if a.destination.Some? then a.destination else before.destination)
  }

  /** The annotations of every failed input, in order. */
  function AnnotationsOf(items: seq<FailedFile>): (notes: seq<Annotation>)
    reads items
    ensures |notes| == |items| && forall i :: 0 <= i < |items| ==> notes[i] == items[i].Annotated()
  {
    seq(|items|, i requires 0 <= i < |items| reads items => items[i].Annotated())
  }

  /** What a pass leaves in the records it has reached: the action and the
      artifact's status everywhere, the destination where one was chosen;
      the input that raised is marked not created; inputs after it are not
      touched. */
  function Annotate(before: seq<Annotation>, pass: Pass, act: Action): (after: seq<Annotation>)
    requires |pass.artifacts| + (if pass.failure.Some? then 1 else 0) <= |before|
    ensures |after| == |before|
    ensures forall j :: |pass.artifacts| + (if pass.failure.Some? then 1 else 0) <= j < |before| ==> after[j] == before[j]
  {
    seq(|before|, j requires 0 <= j < |before| =>
      if j < |pass.artifacts| then Noted(before[j], act, Some(pass.artifacts[j]))
      else if j == |pass.artifacts| && pass.failure.Some? then Noted(before[j], act, None)
      else before[j])
  }

  /** Placing input `i` changes only record `i`. */
  lemma AnnotateStep(before: seq<Annotation>, done: seq<Artifact>, current: FileSystem, logged: seq<Warning>,
                     act: Action, next: Pass)
    requires |done| < |before|
    requires || (next.failure.Some? && next.artifacts == done)
             || (next.failure.None? && |next.artifacts| == |done| + 1 && next.artifacts[..|done|] == done)
    ensures Annotate(before, next, act)
         == Annotate(before, Pass(done, current, logged, None), act)[|done| := Annotate(before, next, act)[|done|]]
    ensures Annotate(before, next, act)[|done|]
         == Noted(before[|done|], act, if next.failure.Some? then None else Some(next.artifacts[|done|]))
  {
    var i := |done|;
    forall j | 0 <= j < |before| && j != i
      ensures Annotate(before, next, act)[j] == Annotate(before, Pass(done, current, logged, None), act)[j]
    {
      if j < i {
        assert next.artifacts[j] == done[j];
      }
    }
  }

  function EntriesOf(items: seq<FailedFile>): (entries: seq<(string, string)>)
    ensures |entries| == |items| && forall i :: 0 <= i < |items| ==> entries[i] == (items[i].source, items[i].stage)
  {
    seq(|items|, i requires 0 <= i < |items| => (items[i].source, items[i].stage))
  }

  /** Once an input has raised, later inputs are not reached. */
  lemma {:induction false} MaterializeStops(entries: seq<(string, string)>, failedRoot: string, action: Action, enabled: bool,
                                            fs: FileSystem, copyFails: (string, string) -> bool, i: nat)
    requires i <= |entries| && Materialize(entries[..i], failedRoot, action, enabled, fs, copyFails).failure.Some?
    ensures Materialize(entries, failedRoot, action, enabled, fs, copyFails)
         == Materialize(entries[..i], failedRoot, action, enabled, fs, copyFails)
    decreases |entries| - i
  {
    hide PlaceArtifact;
    if i < |entries| {
      assert entries[..i + 1][..i] == entries[..i];
      MaterializeStops(entries, failedRoot, action, enabled, fs, copyFails, i + 1);
    } else {
      assert entries[..i] == entries;
    }
  }

  /** The loop body of `_materialize_failed_artifacts` for one input. */
  method PlaceFailedFile(item: FailedFile, failedRoot: string, act: Action, enabled: bool,
                         current: FileSystem, copyFails: (string, string) -> bool) returns (r: Result<Placed>)
    modifies item
    ensures r == PlaceArtifact(item.source, item.stage, failedRoot, act, enabled, current, copyFails)
    ensures item.Annotated() == Noted(old(item.Annotated()), act, if r.Ok? then Some(r.value.artifact) else None)
  {
    item.artifactAction := Some(act);
    item.artifactStatus := Some(NotCreated);
    if !enabled || act == MetadataOnly {
      return Ok(Placed(Artifact(NotCreated, None), current, []));
    }
    var source := item.source;
    if source == "" || HasArchiveSeparator(source) || source !in current.files {
      item.artifactStatus := Some(SourceMissing);
      return Ok(Placed(Artifact(SourceMissing, None), current, []));
    }
    var stage := if item.stage == "" then "unknown" else item.stage;
    var leaf := LeafName(Basename(source), ArtifactLeafLimit);
    var destination := PathJoin(PathJoin(failedRoot, stage), leaf);
    var unique := EnsureUniqueDestination(destination, Existing(current));
    if unique.Err? {
      return Err(unique.message);
    }
    destination := unique.value;
    item.artifactDestination := Some(destination);
    if copyFails(source, destination) {
      item.artifactStatus := Some(CopyFailed);
      r := Ok(Placed(Artifact(CopyFailed, Some(destination)), current,
                     [Warning(FailedArtifactCreateFailed, Some(source), None, None, Some(destination))]));
    } else {
      var files := if act == Move then current.files - {source} + {destination} else current.files + {destination};
      item.artifactStatus := Some(Created);
      r := Ok(Placed(Artifact(Created, Some(destination)), current.(files := files), []));
    }
  }

  /** One more input: the pass over the first `i + 1` inputs extends the
      pass over the first `i` by placing input `i`. */
  lemma MaterializeStep(entries: seq<(string, string)>, failedRoot: string, action: Action, enabled: bool,
                        fs: FileSystem, copyFails: (string, string) -> bool, i: nat,
                        done: seq<Artifact>, current: FileSystem, logged: seq<Warning>)
    requires i < |entries| && Materialize(entries[..i], failedRoot, action, enabled, fs, copyFails) == Pass(done, current, logged, None)
    ensures Materialize(entries[..i + 1], failedRoot, action, enabled, fs, copyFails)
         == match PlaceArtifact(entries[i].0, entries[i].1, failedRoot, action, enabled, current, copyFails)
            case Err(message) => Pass(done, current, logged, Some(message))
            case Ok(placed) => Pass(done + [placed.artifact], placed.fs, logged + placed.warnings, None)
  {
    assert entries[..i + 1][..i] == entries[..i];
  }

  /** `_materialize_failed_artifacts`: annotates each failed input with the
      action and its status (and destination, once one is chosen) and
      returns how many artifacts were created. */
  method MaterializeFailedArtifacts(items: seq<FailedFile>, failedRoot: string, action: string, includeArtifacts: bool,
                                    fs: FileSystem, copyFails: (string, string) -> bool)
    returns (r: Result<(nat, FileSystem, seq<Warning>)>)
    requires forall i, j :: 0 <= i < j < |items| ==> items[i] != items[j]
    modifies items
    ensures var pass := Materialize(EntriesOf(items), failedRoot, NormalizeAction(action), includeArtifacts, fs, copyFails);
      && r == (if pass.failure.Some? then Err(pass.failure.value)
               else Ok((CountStatus(pass.artifacts, Created), pass.fs, pass.warnings)))
      && AnnotationsOf(items) == Annotate(old(AnnotationsOf(items)), pass, NormalizeAction(action))
  {
    hide PlaceArtifact, EntriesOf, CountStatus;
    var act := NormalizeAction(action);
    ghost var entries := EntriesOf(items);
    ghost var before := AnnotationsOf(items);
    var created := 0;
    var current := fs;
    var logged: seq<Warning> := [];
    ghost var done: seq<Artifact> := [];
    for i := 0 to |items|
      invariant Materialize(entries[..i], failedRoot, act, includeArtifacts, fs, copyFails) == Pass(done, current, logged, None)
      invariant |done| == i
      invariant created == CountStatus(done, Created)
      invariant AnnotationsOf(items) == Annotate(before, Pass(done, current, logged, None), act)
    {
      hide Materialize, Annotate, AnnotationsOf, Noted;
      MaterializeStep(entries, failedRoot, act, includeArtifacts, fs, copyFails, i, done, current, logged);
      ghost var prev := AnnotationsOf(items);
      assert entries[i] == (items[i].source, items[i].stage);
      var placed := PlaceFailedFile(items[i], failedRoot, act, includeArtifacts, current, copyFails);
      assert forall j | 0 <= j < |items| && j != i :: items[j].Annotated() == prev[j];
      assert AnnotationsOf(items) == prev[i := items[i].Annotated()];
      assert prev[i] == before[i];
      ghost var next := Materialize(entries[..i + 1], failedRoot, act, includeArtifacts, fs, copyFails);
      AnnotateStep(before, done, current, logged, act, next);
      if placed.Err? {
        assert AnnotationsOf(items) == Annotate(before, next, act);
        MaterializeStops(entries, failedRoot, act, includeArtifacts, fs, copyFails, i + 1);
        return Err(placed.message);
      }
      var step := placed.value;
      assert AnnotationsOf(items) == Annotate(before, next, act);
      CountStatusSnoc(done, step.artifact, Created);
      if step.artifact.status == Created {
        created := created + 1;
      }
      done := done + [step.artifact];
      current := step.fs;
      logged := logged + step.warnings;
    }
    assert entries[..|items|] == entries;
    r := Ok((created, current, logged));
  }
}
