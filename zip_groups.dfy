/** Naming the group an archive's files are merged under:
    `_sanitize_group_component` and `_allocate_zip_group_name`. */
module ZipGroups {
  import opened Wrappers
  import opened Text
  import opened Paths
  import opened ZipPaths

  /** The characters `[A-Za-z0-9_-]` a group component may keep. */
  predicate GroupChar(c: char) {
    ('A' <= c <= 'Z') || ('a' <= c <= 'z') || ('0' <= c <= '9') || c == '_' || c == '-'
  }

  predicate AllGroupChars(s: string) {
    forall i :: 0 <= i < |s| ==> GroupChar(s[i])
  }

  /** `re.sub(r'[^A-Za-z0-9_-]+', '_', s)`: every maximal run of other
      characters becomes one `_`. */
  function ReplaceRuns(s: string): string {
    if |s| == 0 then ""
    else if GroupChar(s[|s| - 1]) then ReplaceRuns(s[..|s| - 1]) + [s[|s| - 1]]
    else if |s| >= 2 && !GroupChar(s[|s| - 2]) then ReplaceRuns(s[..|s| - 1])
    else ReplaceRuns(s[..|s| - 1]) + "_"
  }

  /** `s.lstrip(c)`. */
  function StripLeading(s: string, c: char): string {
    if |s| > 0 && s[0] == c then StripLeading(s[1..], c) else s
  }

  /** `s.rstrip(c)`. */
  function StripTrailing(s: string, c: char): string {
    if |s| > 0 && s[|s| - 1] == c then StripTrailing(s[..|s| - 1], c) else s
  }

  /** `_sanitize_group_component`: runs of disallowed characters replaced
      by `_`, outer `_` stripped, and `zip` when nothing is left. */
  function SanitizeGroupComponent(value: string): string {
    var normalized := StripTrailing(StripLeading(ReplaceRuns(value), '_'), '_');
    if normalized == "" then "zip" else normalized
  }

  /** The replacement leaves only allowed characters, and leaves a string of
      allowed characters as it is. */
  lemma {:induction false} ReplaceRunsAllowed(s: string)
    ensures AllGroupChars(ReplaceRuns(s))
    ensures AllGroupChars(s) ==> ReplaceRuns(s) == s
    ensures |ReplaceRuns(s)| <= |s|
  {
    if |s| > 0 {
      var init := s[..|s| - 1];
      ReplaceRunsAllowed(init);
      if AllGroupChars(s) {
        assert AllGroupChars(init) by {
          forall i | 0 <= i < |init| ensures GroupChar(init[i]) { assert init[i] == s[i]; }
        }
        assert s == init + [s[|s| - 1]];
      }
    }
  }

  /** Stripping keeps a contiguous piece of the string, so only allowed
      characters when there were only allowed ones, and removes every
      leading (trailing) `c`. */
  lemma {:induction false} StripLeadingSpec(s: string, c: char)
    ensures var r := StripLeading(s, c);
      && (exists k :: 0 <= k <= |s| && r == s[k..])
      && (AllGroupChars(s) ==> AllGroupChars(r))
      && (r != "" ==> r[0] != c)
      && (|s| > 0 && s[0] != c ==> r == s)
  {
    if |s| > 0 && s[0] == c {
      StripLeadingSpec(s[1..], c);
      var k :| 0 <= k <= |s[1..]| && StripLeading(s[1..], c) == s[1..][k..];
      assert s[1..][k..] == s[k + 1..];
      if AllGroupChars(s) {
        assert forall i :: 0 <= i < |s[1..]| ==> s[1..][i] == s[i + 1];
      }
    } else {
      assert s == s[0..];
    }
  }

  lemma {:induction false} StripTrailingSpec(s: string, c: char)
    ensures var r := StripTrailing(s, c);
      && (exists k :: 0 <= k <= |s| && r == s[..k])
      && (AllGroupChars(s) ==> AllGroupChars(r))
      && (r != "" ==> r[0] == s[0] && r[|r| - 1] != c)
      && (|s| > 0 && s[|s| - 1] != c ==> r == s)
  {
    if |s| > 0 && s[|s| - 1] == c {
      var init := s[..|s| - 1];
      StripTrailingSpec(init, c);
      var k :| 0 <= k <= |init| && StripTrailing(init, c) == init[..k];
      assert init[..k] == s[..k];
      if AllGroupChars(s) {
        assert forall i :: 0 <= i < |init| ==> init[i] == s[i];
      }
    } else {
      assert s == s[..|s|];
    }
  }

  /** The component is never empty, holds only `[A-Za-z0-9_-]`, and neither
      starts nor ends with `_`. */
  lemma SanitizeShape(value: string)
    ensures var r := SanitizeGroupComponent(value);
      && r != "" && AllGroupChars(r) && r[0] != '_' && r[|r| - 1] != '_'
  {
    var replaced := ReplaceRuns(value);
    ReplaceRunsAllowed(value);
    var lead := StripLeading(replaced, '_');
    StripLeadingSpec(replaced, '_');
    var trimmed := StripTrailing(lead, '_');
    StripTrailingSpec(lead, '_');
    hide ReplaceRuns, StripLeading, StripTrailing;
    if trimmed == "" {
      assert "zip"[0] == 'z' && "zip"[1] == 'i' && "zip"[2] == 'p';
    }
  }

  /** A component that already has that shape is kept as it is, so
      sanitising twice is sanitising once. */
  lemma SanitizeKeepsClean(value: string)
    requires value != "" && AllGroupChars(value) && value[0] != '_' && value[|value| - 1] != '_'
    ensures SanitizeGroupComponent(value) == value
  {
    ReplaceRunsAllowed(value);
    StripLeadingSpec(value, '_');
    StripTrailingSpec(value, '_');
  }

  lemma SanitizeIdempotent(value: string)
    ensures SanitizeGroupComponent(SanitizeGroupComponent(value)) == SanitizeGroupComponent(value)
  {
    SanitizeShape(value);
    SanitizeKeepsClean(SanitizeGroupComponent(value));
  }

  /** The name tried first: the group, `_`, and the archive's sanitised
      stem; just the stem for the unnamed group. */
  function ZipGroupBase(group: string, zipPath: string): string {
    var component := SanitizeGroupComponent(Splitext(Basename(zipPath)).0);
    if group != "" then group + "_" + component else component
  }

  /** The name tried for `counter`. */
  function Numbered(base: string, counter: nat): string {
    base + "_" + NatToString(counter)
  }

  /** Which counters already name a group. */
  function NumberTaken(base: string, used: set<string>): nat -> bool {
    (k: nat) => Numbered(base, k) in used
  }

  /** What `_allocate_zip_group_name` returns: the base name when unused,
      otherwise the base with the smallest free counter from 2; an error
      when every counter up to `MaxCounter` is taken. */
  function ZipGroupName(group: string, zipPath: string, used: set<string>): Result<string> {
    var base := ZipGroupBase(group, zipPath);
    if base !in used then Ok(base)
    else
      match FirstFree(NumberTaken(base, used), 2)
      case None => Err("Unable to generate a unique group name for ZIP archive.")
      case Some(k) => Ok(Numbered(base, k))
  }

  /** `_allocate_zip_group_name`. */
  method AllocateZipGroupName(group: string, zipPath: string, used: set<string>) returns (r: Result<string>)
    ensures r == ZipGroupName(group, zipPath, used)
  {
    var stem := Splitext(Basename(zipPath)).0;
    var component := SanitizeGroupComponent(stem);
    var base := if group != "" then group + "_" + component else component;
    if base !in used {
      return Ok(base);
    }
    ghost var taken := NumberTaken(base, used);
    for counter := 2 to MaxCounter + 1
      invariant FirstFree(taken, counter) == FirstFree(taken, 2)
    {
      var candidate := base + "_" + NatToString(counter);
      assert taken(counter) == (candidate in used);
      if candidate !in used {
        return Ok(candidate);
      }
    }
    return Err("Unable to generate a unique group name for ZIP archive.");
  }

  /** The name allocated is never one already used: the base name when it is
      free, otherwise the base numbered with the smallest free counter from
      2; allocation fails only when the base and every counter from 2 to
      `MaxCounter` are taken. */
  lemma ZipGroupNameSpec(group: string, zipPath: string, used: set<string>)
    ensures var base := ZipGroupBase(group, zipPath);
      match ZipGroupName(group, zipPath, used)
      case Ok(name) =>
        && name !in used
        && (base !in used ==> name == base)
        && (base in used ==> exists k :: 2 <= k <= MaxCounter && name == Numbered(base, k)
                                 && forall j :: 2 <= j < k ==> Numbered(base, j) in used)
      case Err(_) =>
        base in used && forall k :: 2 <= k <= MaxCounter ==> Numbered(base, k) in used
  {
    var base := ZipGroupBase(group, zipPath);
    var taken := NumberTaken(base, used);
    FirstFreeSpec(taken, 2);
    forall k: nat ensures taken(k) == (Numbered(base, k) in used) {}
  }

  /** In short: an allocated name is always a new one. */
  lemma ZipGroupNameFresh(group: string, zipPath: string, used: set<string>)
    ensures ZipGroupName(group, zipPath, used).Ok? ==> ZipGroupName(group, zipPath, used).value !in used
  {
    ZipGroupNameSpec(group, zipPath, used);
  }

  /** Different counters give different names. */
  lemma NumberedInjective(base: string, a: nat, b: nat)
    requires Numbered(base, a) == Numbered(base, b)
    ensures a == b
  {
    var prefix := base + "_";
    assert Numbered(base, a)[|prefix|..] == NatToString(a);
    assert Numbered(base, b)[|prefix|..] == NatToString(b);
    NatToStringInjective(a, b);
  }
}
