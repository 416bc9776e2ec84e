/** The PDF and Word-document mergers (`PDFMerger`, `DOCXMerger`): per-file
    read outcomes, batch finalisation, the merge loop that plans batches while
    saving them, and the pre-flight estimate. The format libraries are
    replaced by an oracle that says, for each path, what stat, the text
    extractor and the reader make of the file. */
module Merging {
  import opened Wrappers
  import opened Text
  import opened Paths
  import opened Order
  import opened Warnings
  import opened Batching

  /** What the PDF reader makes of a file. */
  datatype PdfRead =
    | Locked                          // encrypted, and the empty password is refused
    | Readable(pages: nat)            // opened (decrypted if need be); this many pages copied
    | Unreadable(fallback: Fallback)  // the reader raised

  /** The image and legacy-document conversions tried after the reader raised. */
  datatype Fallback =
    | NoFallback                      // neither conversion produced bytes
    | Converted(pages: nat)           // the converted bytes read back with this many pages
    | ConversionFails                 // the converted bytes could not be read back

  /** What the Word-document reader makes of a file. */
  datatype DocxRead =
    | Opens(body: Option<nat>)        // opened, directly or from a temporary copy: the number
                                      // of body elements, or None when copying them raised
    | RecoversText(text: string)      // not openable; text recovered from the XML or OLE stream
    | Unopenable                      // not openable and nothing recovered

  /** Everything the merge learns about one path: its size (None when stat
      fails), the text its kind's extractor returns, and how each reader fares. */
  datatype FileFacts = FileFacts(size: Option<nat>, text: string, pdf: PdfRead, docx: DocxRead)

  /** Which merger runs: the PDF one with its output label, or the Word one. */
  datatype Kind = PdfKind(outputLabel: string) | DocxKind

  /** What one file adds to the batch being saved (pages for a PDF, one
      document for a Word file) and the warning it records instead. */
  datatype Outcome = Outcome(added: nat, warning: Option<Warning>)

  function PdfOutcome(path: string, r: PdfRead): (o: Outcome)
    ensures o.added > 0 <==> o.warning == None
    ensures o.warning.Some? ==> o.warning.value.file == Some(path)
  {
    match r
    case Locked =>
      Outcome(0, Some(FileWarning(PdfEncrypted, path)))
    case Readable(pages) =>
      if pages == 0 then Outcome(0, Some(FileWarning(PdfNoPages, path)))
      else Outcome(pages, None)
    case Unreadable(NoFallback) =>
      Outcome(0, Some(FileWarning(PdfUnreadable, path)))
    case Unreadable(Converted(pages)) =>
      if pages == 0 then Outcome(0, Some(FileWarning(PdfConversionEmpty, path)))
      else Outcome(pages, None)
    case Unreadable(ConversionFails) =>
      Outcome(0, Some(FileWarning(PdfConversionFailed, path)))
  }

  function DocxOutcome(path: string, r: DocxRead): (o: Outcome)
    ensures o.added <= 1
    ensures o.added == 1 <==> o.warning == None
    ensures o.warning.Some? ==> o.warning.value.file == Some(path)
  {
    match r
    case Opens(None) =>
      Outcome(0, Some(FileWarning(DocxAppendFailed, path)))
    case Opens(Some(elements)) =>
      if elements == 0 then Outcome(0, Some(FileWarning(DocxEmptyDocument, path)))
      else Outcome(1, None)
    case RecoversText(text) =>
      if text == "" then Outcome(0, Some(FileWarning(DocxUnreadable, path)))
      else Outcome(1, None)
    case Unopenable =>
      Outcome(0, Some(FileWarning(DocxUnreadable, path)))
  }

  function FileOutcome(kind: Kind, path: string, f: FileFacts): (o: Outcome)
    ensures o.added > 0 <==> o.warning == None
  {
    if kind.PdfKind? then PdfOutcome(path, f.pdf) else DocxOutcome(path, f.docx)
  }

  // ---------------------------------------------------------------------------
  // Batch finalisation (`_save_pdf_batch`, `_save_docx_batch`)

  /** Pages (or documents) the batch's files add, in total. */
  function BatchTotal(kind: Kind, batch: seq<string>, facts: string -> FileFacts): nat {
    if |batch| == 0 then 0
    else
      var n := |batch|;
      BatchTotal(kind, batch[..n - 1], facts) + FileOutcome(kind, batch[n - 1], facts(batch[n - 1])).added
  }

  /** The files that add something, in batch order. */
  function Contributors(kind: Kind, batch: seq<string>, facts: string -> FileFacts): seq<string> {
    if |batch| == 0 then []
    else
      var n := |batch|;
      Contributors(kind, batch[..n - 1], facts) +
        (if FileOutcome(kind, batch[n - 1], facts(batch[n - 1])).added > 0 then [batch[n - 1]] else [])
  }

  /** The per-file warnings of a batch, in batch order. */
  function FileWarnings(kind: Kind, batch: seq<string>, facts: string -> FileFacts): seq<Warning> {
    if |batch| == 0 then []
    else
      var n := |batch|;
      var o := FileOutcome(kind, batch[n - 1], facts(batch[n - 1]));
      FileWarnings(kind, batch[..n - 1], facts) + (if o.warning.Some? then [o.warning.value] else [])
  }

  function EmptyBatchWarning(kind: Kind): (w: Warning)
    ensures w.file == None
  {
    ContextWarning(if kind.PdfKind? then PdfEmptyBatch else DocxEmptyBatch)
  }

  /** The warnings a batch records: its files', then the empty-batch one when
      nothing was added. */
  function BatchWarnings(kind: Kind, batch: seq<string>, facts: string -> FileFacts): seq<Warning> {
    FileWarnings(kind, batch, facts) + (if BatchTotal(kind, batch, facts) == 0 then [EmptyBatchWarning(kind)] else [])
  }

  /** The part of an output name before the batch number. */
  function NameStem(kind: Kind, group: string): (s: string)
    ensures |s| > 0
  {
    match kind
    case PdfKind(outputLabel) => group + "_" + outputLabel + "_batch"
    case DocxKind => group + "_documents_batch"
  }

  function Extension(kind: Kind): string {
    if kind.PdfKind? then ".pdf" else ".docx"
  }

  /** `{group}_{label}_batch{n}.pdf` or `{group}_documents_batch{n}.docx`,
      joined to the output directory. */
  function BatchFileName(kind: Kind, outputPath: string, group: string, n: nat): string {
    PathJoin(outputPath, NameStem(kind, group) + NatToString(n) + Extension(kind))
  }

  /** The file a batch is saved to, or None when it adds nothing. */
  function SavedOutput(kind: Kind, batch: seq<string>, facts: string -> FileFacts,
                       outputPath: string, group: string, n: nat): Option<string> {
    if BatchTotal(kind, batch, facts) == 0 then None else Some(BatchFileName(kind, outputPath, group, n))
  }

  /** `source_file_map.get(s, s)`. */
  function MapSource(m: map<string, string>, s: string): string {
    if s in m then m[s] else s
  }

  function MapAll(m: map<string, string>, xs: seq<string>): (ys: seq<string>)
    ensures |ys| == |xs| && forall i :: 0 <= i < |xs| ==> ys[i] == MapSource(m, xs[i])
  {
    seq(|xs|, i requires 0 <= i < |xs| => MapSource(m, xs[i]))
  }

  /** The elements of `xs`, each at its first occurrence. */
  function Dedup(xs: seq<string>): seq<string> {
    if |xs| == 0 then []
    else
      var d := Dedup(xs[..|xs| - 1]);
      if xs[|xs| - 1] in d then d else d + [xs[|xs| - 1]]
  }

  /** The originals behind a saved batch: its contributors mapped through the
      source map, each once, in first-seen order. */
  function MappedSources(m: map<string, string>, contributors: seq<string>): seq<string> {
    Dedup(MapAll(m, contributors))
  }

  method SaveBatch(kind: Kind, batch: seq<string>, facts: string -> FileFacts,
                   outputPath: string, group: string, batchNum: nat, sourceMap: map<string, string>)
    returns (output: Option<string>, warnings: seq<Warning>, sources: seq<string>)
    ensures output == SavedOutput(kind, batch, facts, outputPath, group, batchNum)
    ensures warnings == BatchWarnings(kind, batch, facts)
    ensures output.Some? ==> sources == MappedSources(sourceMap, Contributors(kind, batch, facts))
  {
    var total := 0;
    var merged: seq<string> := [];
    warnings := [];
    for i := 0 to |batch|
      invariant total == BatchTotal(kind, batch[..i], facts)
      invariant merged == Contributors(kind, batch[..i], facts)
      invariant warnings == FileWarnings(kind, batch[..i], facts)
    {
      assert batch[..i + 1][..i] == batch[..i];
      var o := FileOutcome(kind, batch[i], facts(batch[i]));
      if o.warning.Some? {
        warnings := warnings + [o.warning.value];
      }
      if o.added > 0 {
        merged := merged + [batch[i]];
      }
      total := total + o.added;
    }
    assert batch[..|batch|] == batch;
    sources := [];
    if total == 0 {
      warnings := warnings + [EmptyBatchWarning(kind)];
      return None, warnings, sources;
    }
    output := Some(BatchFileName(kind, outputPath, group, batchNum));
    sources := RecordSources(sourceMap, merged);
  }

  /** The `output_to_sources` entry of a saved batch: each merged file's
      original, once, in first-seen order. */
  method RecordSources(sourceMap: map<string, string>, merged: seq<string>) returns (sources: seq<string>)
    ensures sources == MappedSources(sourceMap, merged)
  {
    sources := [];
    for i := 0 to |merged|
      invariant sources == Dedup(MapAll(sourceMap, merged[..i]))
    {
      assert MapAll(sourceMap, merged[..i + 1])[..i] == MapAll(sourceMap, merged[..i]);
      var original := MapSource(sourceMap, merged[i]);
      if original !in sources {
        sources := sources + [original];
      }
    }
    assert merged[..|merged|] == merged;
  }

  /** Each file of a batch either adds to it or records a warning, never both. */
  lemma {:induction false} EachFileAddsOrWarns(kind: Kind, batch: seq<string>, facts: string -> FileFacts)
    ensures |Contributors(kind, batch, facts)| + |FileWarnings(kind, batch, facts)| == |batch|
    ensures BatchTotal(kind, batch, facts) == 0 <==> Contributors(kind, batch, facts) == []
  {
    if |batch| > 0 {
      EachFileAddsOrWarns(kind, batch[..|batch| - 1], facts);
    }
  }

  /** A batch is saved exactly when some file contributes; otherwise it
      records the empty-batch warning and every file recorded its own. */
  lemma SavedIffContributor(kind: Kind, batch: seq<string>, facts: string -> FileFacts,
                            outputPath: string, group: string, n: nat)
    ensures SavedOutput(kind, batch, facts, outputPath, group, n) == None <==>
      Contributors(kind, batch, facts) == []
    ensures SavedOutput(kind, batch, facts, outputPath, group, n) == None ==>
      |BatchWarnings(kind, batch, facts)| == |batch| + 1 &&
      BatchWarnings(kind, batch, facts)[|batch|] == EmptyBatchWarning(kind)
  {
    EachFileAddsOrWarns(kind, batch, facts);
  }

  lemma {:induction false} ContributorsFromBatch(kind: Kind, batch: seq<string>, facts: string -> FileFacts)
    ensures forall s :: s in Contributors(kind, batch, facts) ==> s in batch
  {
    if |batch| > 0 {
      ContributorsFromBatch(kind, batch[..|batch| - 1], facts);
    }
  }

  /** Dedup keeps every element once and nothing else. */
  lemma {:induction false} DedupSpec(xs: seq<string>)
    ensures forall x :: x in Dedup(xs) <==> x in xs
    ensures forall i, j :: 0 <= i < j < |Dedup(xs)| ==> Dedup(xs)[i] != Dedup(xs)[j]
  {
    if |xs| > 0 {
      DedupSpec(xs[..|xs| - 1]);
      assert xs == xs[..|xs| - 1] + [xs[|xs| - 1]];
    }
  }

  /** Dedup is first-seen order: what a prefix keeps is a prefix of what the
      whole keeps. */
  lemma {:induction false} DedupPrefix(xs: seq<string>, k: nat)
    requires k <= |xs|
    ensures |Dedup(xs[..k])| <= |Dedup(xs)| && Dedup(xs)[..|Dedup(xs[..k])|] == Dedup(xs[..k])
    decreases |xs| - k
  {
    if k < |xs| {
      var n := |xs|;
      assert xs[..n - 1][..k] == xs[..k];
      DedupPrefix(xs[..n - 1], k);
      if k == n - 1 {
        assert xs[..k] == xs[..n - 1];
      }
    } else {
      assert xs[..k] == xs;
    }
  }

  /** The recorded sources of a saved batch are distinct originals of its
      contributing files, and every contributor's original is among them. */
  lemma SourcesAreMappedContributors(m: map<string, string>, contributors: seq<string>)
    ensures forall s :: s in MappedSources(m, contributors) <==>
      exists c :: c in contributors && s == MapSource(m, c)
    ensures forall i, j :: 0 <= i < j < |MappedSources(m, contributors)| ==>
      MappedSources(m, contributors)[i] != MappedSources(m, contributors)[j]
  {
    var ys := MapAll(m, contributors);
    DedupSpec(ys);
    forall s ensures s in ys <==> exists c :: c in contributors && s == MapSource(m, c) {
      if s in ys {
        var i :| 0 <= i < |ys| && ys[i] == s;
        assert contributors[i] in contributors;
      }
      if exists c :: c in contributors && s == MapSource(m, c) {
        var c :| c in contributors && s == MapSource(m, c);
        var i :| 0 <= i < |contributors| && contributors[i] == c;
        assert ys[i] == s;
      }
    }
  }

  // ---------------------------------------------------------------------------
  // Batch names

  lemma PathJoinSameStart(a: string, b1: string, b2: string)
    requires |b1| > 0 && |b2| > 0 && b1[0] == b2[0]
    requires PathJoin(a, b1) == PathJoin(a, b2)
    ensures b1 == b2
  {
    if StartsWith(b1, "/") {
      assert StartsWith(b2, "/");
    } else {
      assert !StartsWith(b2, "/");
      var j1, j2 := PathJoin(a, b1), PathJoin(a, b2);
      if a == "" || EndsWith(a, "/") {
        assert b1 == j1[|a|..] && b2 == j2[|a|..];
      } else {
        assert b1 == j1[|a| + 1..] && b2 == j2[|a| + 1..];
      }
    }
  }

  /** Distinct batch numbers give distinct output files. */
  lemma BatchFileNameInjective(kind: Kind, outputPath: string, group: string, n: nat, m: nat)
    ensures BatchFileName(kind, outputPath, group, n) == BatchFileName(kind, outputPath, group, m) ==> n == m
  {
    var stem, ext := NameStem(kind, group), Extension(kind);
    var l1 := stem + NatToString(n) + ext;
    var l2 := stem + NatToString(m) + ext;
    if BatchFileName(kind, outputPath, group, n) == BatchFileName(kind, outputPath, group, m) {
      assert l1[0] == stem[0] == l2[0];
      PathJoinSameStart(outputPath, l1, l2);
      assert |NatToString(n)| == |NatToString(m)|;
      assert NatToString(n) == l1[|stem|..|l1| - |ext|];
      assert NatToString(m) == l2[|stem|..|l2| - |ext|];
      NatToStringInjective(n, m);
    }
  }

  // ---------------------------------------------------------------------------
  // The merge loop (`merge_pdfs`, `merge_docx`)

  /** A size stat could not read counts as the cap. */
  function SizeOr(cap: nat, size: Option<nat>): nat {
    if size.Some? then size.value else cap
  }

  /** Each path as a planning item: its size and its word count. */
  function ItemsOf(cap: nat, files: seq<string>, facts: string -> FileFacts): (items: seq<Item<string>>)
    ensures |items| == |files|
    ensures forall i :: 0 <= i < |files| ==>
      items[i] == Item(files[i], SizeOr(cap, facts(files[i]).size), CountWords(facts(files[i]).text))
  {
    seq(|files|, i requires 0 <= i < |files| =>
      Item(files[i], SizeOr(cap, facts(files[i]).size), CountWords(facts(files[i]).text)))
  }

  function PayloadsOf<T>(items: seq<Item<T>>): (ps: seq<T>)
    ensures |ps| == |items| && forall i :: 0 <= i < |items| ==> ps[i] == items[i].payload
  {
    seq(|items|, i requires 0 <= i < |items| => items[i].payload)
  }

  /** The files saved for the planned batches, batch `k` (from 1) numbered `k`. */
  function Outputs(kind: Kind, batches: seq<seq<Item<string>>>, facts: string -> FileFacts,
                   outputPath: string, group: string): seq<string> {
    if |batches| == 0 then []
    else
      var n := |batches|;
      var out := SavedOutput(kind, PayloadsOf(batches[n - 1]), facts, outputPath, group, n);
      Outputs(kind, batches[..n - 1], facts, outputPath, group) + (if out.Some? then [out.value] else [])
  }

  /** `output_to_sources` after the planned batches: PDF outputs only. */
  function SourcesOf(kind: Kind, batches: seq<seq<Item<string>>>, facts: string -> FileFacts,
                     outputPath: string, group: string, m: map<string, string>): map<string, seq<string>> {
    if |batches| == 0 then map[]
    else
      var n := |batches|;
      var b := PayloadsOf(batches[n - 1]);
      var out := SavedOutput(kind, b, facts, outputPath, group, n);
      var before := SourcesOf(kind, batches[..n - 1], facts, outputPath, group, m);
      if kind.PdfKind? && out.Some? then before[out.value := MappedSources(m, Contributors(kind, b, facts))]
      else before
  }

  /** The warnings all planned batches record when saved, batch by batch. */
  function SaveWarnings(kind: Kind, batches: seq<seq<Item<string>>>, facts: string -> FileFacts): seq<Warning> {
    if |batches| == 0 then []
    else
      var n := |batches|;
      SaveWarnings(kind, batches[..n - 1], facts) + BatchWarnings(kind, PayloadsOf(batches[n - 1]), facts)
  }

  function StatWarning(kind: Kind, path: string): (w: Warning)
    ensures w.file == Some(path)
  {
    FileWarning(if kind.PdfKind? then PdfStatFailed else DocxStatFailed, path)
  }

  function WordCapWarning(kind: Kind, path: string): (w: Warning)
    ensures w.file == Some(path)
  {
    FileWarning(if kind.PdfKind? then PdfExceedsWordCap else DocxExceedsWordCap, path)
  }

  /** The stat warning an item's file records, if its size could not be read. */
  function StatLog(kind: Kind, it: Item<string>, facts: string -> FileFacts): seq<Warning> {
    if facts(it.payload).size.None? then [StatWarning(kind, it.payload)] else []
  }

  /** The word-cap warning an item records, if it alone passes the word cap. */
  function CapLog(kind: Kind, it: Item<string>): seq<Warning> {
    if it.words > MaxBatchWords then [WordCapWarning(kind, it.payload)] else []
  }

  /** What the running batch records when `it` closes it, if it does. */
  function CloseLog(kind: Kind, cap: nat, p: Packer<string>, it: Item<string>, facts: string -> FileFacts): seq<Warning> {
    if Closes(cap, p, it) then BatchWarnings(kind, PayloadsOf(p.current), facts) else []
  }

  /** The warnings the merge loop records over `items`, in order: for each
      item its stat warning, then those of the batch it closes, then its
      word-cap warning. */
  function MergeLog(kind: Kind, cap: nat, items: seq<Item<string>>, facts: string -> FileFacts): seq<Warning> {
    if |items| == 0 then []
    else
      var n := |items|;
      var it := items[n - 1];
      MergeLog(kind, cap, items[..n - 1], facts) + StatLog(kind, it, facts) +
        CloseLog(kind, cap, Pack(cap, items[..n - 1]), it, facts) + CapLog(kind, it)
  }

  /** Everything a merge records: the loop's warnings, then those of the last
      batch, saved after the loop. */
  function MergeWarnings(kind: Kind, cap: nat, items: seq<Item<string>>, facts: string -> FileFacts): seq<Warning> {
    var p := Pack(cap, items);
    MergeLog(kind, cap, items, facts) +
      (if p.current != [] then BatchWarnings(kind, PayloadsOf(p.current), facts) else [])
  }

  /** The stat warnings of the items, in input order. */
  function StatWarnings(kind: Kind, items: seq<Item<string>>, facts: string -> FileFacts): seq<Warning> {
    if |items| == 0 then []
    else StatWarnings(kind, items[..|items| - 1], facts) + StatLog(kind, items[|items| - 1], facts)
  }

  /** The word-cap warnings of the items, in input order. */
  function WordCapWarnings(kind: Kind, items: seq<Item<string>>): seq<Warning> {
    if |items| == 0 then []
    else WordCapWarnings(kind, items[..|items| - 1]) + CapLog(kind, items[|items| - 1])
  }

  lemma {:induction false} SaveWarningsAppend(kind: Kind, closed: seq<seq<Item<string>>>, b: seq<Item<string>>,
                                              facts: string -> FileFacts)
    ensures SaveWarnings(kind, closed + [b], facts) ==
      SaveWarnings(kind, closed, facts) + BatchWarnings(kind, PayloadsOf(b), facts)
  {
    assert (closed + [b])[..|closed|] == closed;
  }

  /** What one more item adds to the warnings of the closed batches. */
  lemma ClosedWarningsStep(kind: Kind, cap: nat, prefix: seq<Item<string>>, it: Item<string>, facts: string -> FileFacts)
    ensures multiset(SaveWarnings(kind, Pack(cap, prefix + [it]).closed, facts)) ==
      multiset(SaveWarnings(kind, Pack(cap, prefix).closed, facts)) + multiset(CloseLog(kind, cap, Pack(cap, prefix), it, facts))
  {
    var p := Pack(cap, prefix);
    assert (prefix + [it])[..|prefix|] == prefix;
    if Closes(cap, p, it) {
      assert Pack(cap, prefix + [it]).closed == p.closed + [p.current];
      SaveWarningsAppend(kind, p.closed, p.current, facts);
    } else {
      assert Pack(cap, prefix + [it]).closed == p.closed;
    }
  }

  /** Up to order, the loop records each file's stat and word-cap warnings
      and the warnings of every batch it closed. */
  lemma {:induction false} MergeLogContents(kind: Kind, cap: nat, items: seq<Item<string>>, facts: string -> FileFacts)
    ensures multiset(MergeLog(kind, cap, items, facts)) ==
      multiset(StatWarnings(kind, items, facts)) + multiset(WordCapWarnings(kind, items)) +
      multiset(SaveWarnings(kind, Pack(cap, items).closed, facts))
  {
    if |items| > 0 {
      var n := |items|;
      var prefix, it := items[..n - 1], items[n - 1];
      assert items == prefix + [it];
      MergeLogContents(kind, cap, prefix, facts);
      LogsSnoc(kind, cap, prefix, it, facts);
      ClosedWarningsStep(kind, cap, prefix, it, facts);
      MultisetRegroup(MergeLog(kind, cap, prefix, facts), StatLog(kind, it, facts),
        CloseLog(kind, cap, Pack(cap, prefix), it, facts), CapLog(kind, it),
        StatWarnings(kind, prefix, facts), WordCapWarnings(kind, prefix),
        SaveWarnings(kind, Pack(cap, prefix).closed, facts), SaveWarnings(kind, Pack(cap, items).closed, facts));
    }
  }

  /** The three warning logs one item further on. */
  lemma LogsSnoc(kind: Kind, cap: nat, prefix: seq<Item<string>>, it: Item<string>, facts: string -> FileFacts)
    ensures MergeLog(kind, cap, prefix + [it], facts) ==
      MergeLog(kind, cap, prefix, facts) + StatLog(kind, it, facts) + CloseLog(kind, cap, Pack(cap, prefix), it, facts) + CapLog(kind, it)
    ensures StatWarnings(kind, prefix + [it], facts) == StatWarnings(kind, prefix, facts) + StatLog(kind, it, facts)
    ensures WordCapWarnings(kind, prefix + [it]) == WordCapWarnings(kind, prefix) + CapLog(kind, it)
  {
    assert (prefix + [it])[..|prefix|] == prefix;
  }

  lemma MultisetRegroup(log: seq<Warning>, stat: seq<Warning>, close: seq<Warning>, capLog: seq<Warning>,
                        stats: seq<Warning>, caps: seq<Warning>, saved: seq<Warning>, saved': seq<Warning>)
    requires multiset(log) == multiset(stats) + multiset(caps) + multiset(saved)
    requires multiset(saved') == multiset(saved) + multiset(close)
    ensures multiset(log + stat + close + capLog) == multiset(stats + stat) + multiset(caps + capLog) + multiset(saved')
  {
  }

  /** Up to order, a merge records exactly each file's stat and word-cap
      warnings and what every planned batch records when saved. */
  lemma MergeWarningsContents(kind: Kind, cap: nat, items: seq<Item<string>>, facts: string -> FileFacts)
    ensures multiset(MergeWarnings(kind, cap, items, facts)) ==
      multiset(StatWarnings(kind, items, facts)) + multiset(WordCapWarnings(kind, items)) +
      multiset(SaveWarnings(kind, Plan(cap, items), facts))
  {
    var p := Pack(cap, items);
    var log := MergeLog(kind, cap, items, facts);
    MergeLogContents(kind, cap, items, facts);
    if p.current != [] {
      var last := BatchWarnings(kind, PayloadsOf(p.current), facts);
      assert Plan(cap, items) == p.closed + [p.current];
      SaveWarningsAppend(kind, p.closed, p.current, facts);
      assert multiset(log + last) == multiset(log) + multiset(last);
    } else {
      assert Plan(cap, items) == p.closed;
      assert MergeWarnings(kind, cap, items, facts) == log;
    }
  }

  lemma MergeLogStep(kind: Kind, cap: nat, items: seq<Item<string>>, i: nat, facts: string -> FileFacts,
                     p: Packer<string>, it: Item<string>)
    requires i < |items| && items[i] == it && Pack(cap, items[..i]) == p
    ensures MergeLog(kind, cap, items[..i + 1], facts) ==
      MergeLog(kind, cap, items[..i], facts) + StatLog(kind, it, facts) + CloseLog(kind, cap, p, it, facts) + CapLog(kind, it)
  {
    assert items[..i + 1][..i] == items[..i];
  }

  lemma TakeOneMore<T>(s: seq<T>, i: nat)
    requires i < |s|
    ensures s[..i + 1] == s[..i] + [s[i]]
  {
  }

  lemma PayloadsAppend<T>(items: seq<Item<T>>, it: Item<T>)
    ensures PayloadsOf(items + [it]) == PayloadsOf(items) + [it.payload]
  {
  }

  /** One iteration of the packing rule, as the merge loop performs it. */
  lemma PackAdvance<T>(cap: nat, items: seq<Item<T>>, i: nat, it: Item<T>)
    requires i < |items| && items[i] == it
    ensures Pack(cap, items[..i + 1]) == Step(cap, Pack(cap, items[..i]), it)
  {
    assert items[..i + 1][..i] == items[..i];
  }

  /** The merge loop's running batch: its files, their bytes and words, and
      the number it will be saved under. */
  datatype Running = Running(batch: seq<string>, bytes: nat, words: nat, number: nat)

  /** The loop's state for packer state `p`: the running batch is the
      packer's, and every batch it closed has been saved. */
  ghost predicate LoopState(kind: Kind, p: Packer<string>, facts: string -> FileFacts,
                            outputPath: string, group: string, sourceMap: map<string, string>,
                            r: Running, outputs: seq<string>, sourcesOf: map<string, seq<string>>)
  {
    && r == Running(PayloadsOf(p.current), p.currentBytes, p.currentWords, |p.closed| + 1)
    && outputs == Outputs(kind, p.closed, facts, outputPath, group)
    && sourcesOf == SourcesOf(kind, p.closed, facts, outputPath, group, sourceMap)
  }

  /** What one more planned batch adds to the outputs and the source map. */
  lemma RecordsSnoc(kind: Kind, closed: seq<seq<Item<string>>>, current: seq<Item<string>>, facts: string -> FileFacts,
                    outputPath: string, group: string, m: map<string, string>)
    ensures var b := PayloadsOf(current);
      var out := SavedOutput(kind, b, facts, outputPath, group, |closed| + 1);
      && Outputs(kind, closed + [current], facts, outputPath, group) ==
           Outputs(kind, closed, facts, outputPath, group) + (if out.Some? then [out.value] else [])
      && SourcesOf(kind, closed + [current], facts, outputPath, group, m) ==
           (if kind.PdfKind? && out.Some?
            then SourcesOf(kind, closed, facts, outputPath, group, m)[out.value := MappedSources(m, Contributors(kind, b, facts))]
            else SourcesOf(kind, closed, facts, outputPath, group, m))
  {
    assert (closed + [current])[..|closed|] == closed;
  }

  /** Saving the running batch and recording its result: the output list and
      the source map grow by what the batch yields, the warnings by its own. */
  method SaveAndRecord(kind: Kind, ghost closed: seq<seq<Item<string>>>, ghost current: seq<Item<string>>,
                       batch: seq<string>, facts: string -> FileFacts, outputPath: string, group: string,
                       batchNum: nat, sourceMap: map<string, string>,
                       outputs: seq<string>, warnings: seq<Warning>, sourcesOf: map<string, seq<string>>)
    returns (outputs': seq<string>, warnings': seq<Warning>, sourcesOf': map<string, seq<string>>)
    requires batch == PayloadsOf(current) && batchNum == |closed| + 1
    requires outputs == Outputs(kind, closed, facts, outputPath, group)
    requires sourcesOf == SourcesOf(kind, closed, facts, outputPath, group, sourceMap)
    ensures outputs' == Outputs(kind, closed + [current], facts, outputPath, group)
    ensures sourcesOf' == SourcesOf(kind, closed + [current], facts, outputPath, group, sourceMap)
    ensures warnings' == warnings + BatchWarnings(kind, batch, facts)
  {
    RecordsSnoc(kind, closed, current, facts, outputPath, group, sourceMap);
    var out, ws, srcs := SaveBatch(kind, batch, facts, outputPath, group, batchNum, sourceMap);
    outputs', warnings', sourcesOf' := outputs, warnings + ws, sourcesOf;
    if out.Some? {
      outputs' := outputs + [out.value];
      if kind.PdfKind? {
        sourcesOf' := sourcesOf[out.value := srcs];
      }
    }
  }

  /** The packer state once the running batch has been closed. */
  function Reset<T>(p: Packer<T>): Packer<T> {
    Packer(p.closed + [p.current], [], 0, 0)
  }

  /** The packer state once `it` has joined the running batch. */
  function Push<T>(p: Packer<T>, it: Item<T>): Packer<T> {
    Packer(p.closed, p.current + [it], p.currentBytes + it.bytes, p.currentWords + it.words)
  }

  lemma StepIsResetThenPush<T>(cap: nat, p: Packer<T>, it: Item<T>)
    ensures Step(cap, p, it) == if Closes(cap, p, it) then Push(Reset(p), it) else Push(p, it)
  {
    assert [] + [it] == [it];
  }

  /** Adding a file to the running batch keeps the loop state in step with the packer. */
  lemma PushKeepsState(kind: Kind, p: Packer<string>, it: Item<string>, facts: string -> FileFacts,
                       outputPath: string, group: string, sourceMap: map<string, string>,
                       r: Running, outputs: seq<string>, sourcesOf: map<string, seq<string>>)
    requires LoopState(kind, p, facts, outputPath, group, sourceMap, r, outputs, sourcesOf)
    ensures LoopState(kind, Push(p, it), facts, outputPath, group, sourceMap,
      Running(r.batch + [it.payload], r.bytes + it.bytes, r.words + it.words, r.number), outputs, sourcesOf)
  {
    PayloadsAppend(p.current, it);
  }

  /** Saving and closing the running batch: the next batch starts empty under
      the next number. */
  method CloseBatch(kind: Kind, ghost p: Packer<string>, facts: string -> FileFacts,
                    outputPath: string, group: string, sourceMap: map<string, string>,
                    r: Running, outputs: seq<string>, warnings: seq<Warning>, sourcesOf: map<string, seq<string>>)
    returns (r': Running, outputs': seq<string>, warnings': seq<Warning>, sourcesOf': map<string, seq<string>>)
    requires LoopState(kind, p, facts, outputPath, group, sourceMap, r, outputs, sourcesOf)
    ensures LoopState(kind, Reset(p), facts, outputPath, group, sourceMap, r', outputs', sourcesOf')
    ensures warnings' == warnings + BatchWarnings(kind, PayloadsOf(p.current), facts)
  {
    outputs', warnings', sourcesOf' := SaveAndRecord(kind, p.closed, p.current, r.batch, facts,
      outputPath, group, r.number, sourceMap, outputs, warnings, sourcesOf);
    r' := Running([], 0, 0, r.number + 1);
  }

  /** The merge loop's body once a file's size and words are known: save the
      running batch and start a new one if the file would take it past a cap
      (the number advances even when nothing was saved), add the file, and
      warn when the file alone passes the word cap. */
  method AddFile(kind: Kind, cap: nat, ghost p: Packer<string>, it: Item<string>,
                 facts: string -> FileFacts, outputPath: string, group: string, sourceMap: map<string, string>,
                 r: Running, outputs: seq<string>, warnings: seq<Warning>, sourcesOf: map<string, seq<string>>)
    returns (r': Running, outputs': seq<string>, warnings': seq<Warning>, sourcesOf': map<string, seq<string>>)
    requires LoopState(kind, p, facts, outputPath, group, sourceMap, r, outputs, sourcesOf)
    ensures LoopState(kind, Step(cap, p, it), facts, outputPath, group, sourceMap, r', outputs', sourcesOf')
    ensures warnings' == warnings + CloseLog(kind, cap, p, it, facts) + CapLog(kind, it)
  {
    StepIsResetThenPush(cap, p, it);
    ghost var p' := p;
    var running := r;
    outputs', warnings', sourcesOf' := outputs, warnings, sourcesOf;
    if r.batch != [] && (r.bytes + it.bytes > cap || r.words + it.words > MaxBatchWords) {
      running, outputs', warnings', sourcesOf' := CloseBatch(kind, p, facts, outputPath, group, sourceMap,
        r, outputs, warnings, sourcesOf);
      p' := Reset(p);
    }
    PushKeepsState(kind, p', it, facts, outputPath, group, sourceMap, running, outputs', sourcesOf');
    r' := Running(running.batch + [it.payload], running.bytes + it.bytes, running.words + it.words, running.number);
    if it.words > MaxBatchWords {
      warnings' := warnings' + [WordCapWarning(kind, it.payload)];
    }
  }

  /** After the loop: save the running batch if it holds any file. */
  method SaveRemaining(kind: Kind, ghost p: Packer<string>, facts: string -> FileFacts,
                       outputPath: string, group: string, sourceMap: map<string, string>,
                       r: Running, outputs: seq<string>, warnings: seq<Warning>, sourcesOf: map<string, seq<string>>)
    returns (outputs': seq<string>, warnings': seq<Warning>, sourcesOf': map<string, seq<string>>)
    requires LoopState(kind, p, facts, outputPath, group, sourceMap, r, outputs, sourcesOf)
    ensures var batches := p.closed + (if p.current != [] then [p.current] else []);
      && outputs' == Outputs(kind, batches, facts, outputPath, group)
      && sourcesOf' == SourcesOf(kind, batches, facts, outputPath, group, sourceMap)
      && warnings' == warnings + (if p.current != [] then BatchWarnings(kind, PayloadsOf(p.current), facts) else [])
  {
    outputs', warnings', sourcesOf' := outputs, warnings, sourcesOf;
    if r.batch != [] {
      outputs', warnings', sourcesOf' := SaveAndRecord(kind, p.closed, p.current, r.batch, facts,
        outputPath, group, r.number, sourceMap, outputs, warnings, sourcesOf);
    } else {
      assert p.closed + [] == p.closed;
    }
  }

  /** The start of the loop body: the file's size, or the cap and a warning
      when stat fails, and the words of its extracted text. */
  method ReadFile(kind: Kind, cap: nat, path: string, facts: string -> FileFacts)
    returns (it: Item<string>, stat: seq<Warning>)
    ensures it == Item(path, SizeOr(cap, facts(path).size), CountWords(facts(path).text))
    ensures stat == StatLog(kind, it, facts)
  {
    var f := facts(path);
    var size: nat;
    stat := [];
    if f.size.Some? {
      size := f.size.value;
    } else {
      stat := [StatWarning(kind, path)];
      size := cap;
    }
    it := Item(path, size, CountWords(f.text));
  }

  /** `merge_pdfs` and `merge_docx`: the input is sorted first. */
  method MergeFiles(kind: Kind, files: seq<string>, facts: string -> FileFacts, cap: nat,
                    outputPath: string, group: string, sourceMap: map<string, string>)
    returns (outputs: seq<string>, warnings: seq<Warning>, sourcesOf: map<string, seq<string>>)
    ensures var items := ItemsOf(cap, SortStrings(files), facts);
      && outputs == Outputs(kind, Plan(cap, items), facts, outputPath, group)
      && sourcesOf == SourcesOf(kind, Plan(cap, items), facts, outputPath, group, sourceMap)
      && warnings == MergeWarnings(kind, cap, items, facts)
  {
    outputs, warnings, sourcesOf := MergeSorted(kind, SortStrings(files), facts, cap, outputPath, group, sourceMap);
  }

  /** The loop shared by `merge_pdfs` and `merge_docx`, over the sorted input:
      a stat failure counts as the cap, a batch is saved each time one is
      closed and once at the end. */
  method MergeSorted(kind: Kind, sorted: seq<string>, facts: string -> FileFacts, cap: nat,
                     outputPath: string, group: string, sourceMap: map<string, string>)
    returns (outputs: seq<string>, warnings: seq<Warning>, sourcesOf: map<string, seq<string>>)
    ensures var items := ItemsOf(cap, sorted, facts);
      && outputs == Outputs(kind, Plan(cap, items), facts, outputPath, group)
      && sourcesOf == SourcesOf(kind, Plan(cap, items), facts, outputPath, group, sourceMap)
      && warnings == MergeWarnings(kind, cap, items, facts)
  {
    ghost var items := ItemsOf(cap, sorted, facts);
    outputs, warnings, sourcesOf := [], [], map[];
    var r := Running([], 0, 0, 1);
    for i := 0 to |sorted|
      invariant LoopState(kind, Pack(cap, items[..i]), facts, outputPath, group, sourceMap, r, outputs, sourcesOf)
      invariant warnings == MergeLog(kind, cap, items[..i], facts)
    {
      var it, stat := ReadFile(kind, cap, sorted[i], facts);
      warnings := warnings + stat;
      PackAdvance(cap, items, i, it);
      MergeLogStep(kind, cap, items, i, facts, Pack(cap, items[..i]), it);
      r, outputs, warnings, sourcesOf := AddFile(kind, cap, Pack(cap, items[..i]), it, facts, outputPath, group, sourceMap,
        r, outputs, warnings, sourcesOf);
    }
    assert items[..|sorted|] == items;
    outputs, warnings, sourcesOf := SaveRemaining(kind, Pack(cap, items), facts, outputPath, group, sourceMap,
      r, outputs, warnings, sourcesOf);
  }

  /** Every output is the file of some batch number in 1..|batches|. */
  lemma {:induction false} OutputsNumbered(kind: Kind, batches: seq<seq<Item<string>>>, facts: string -> FileFacts,
                                           outputPath: string, group: string)
    ensures |Outputs(kind, batches, facts, outputPath, group)| <= |batches|
    ensures forall o :: o in Outputs(kind, batches, facts, outputPath, group) ==>
      exists n :: 1 <= n <= |batches| && o == BatchFileName(kind, outputPath, group, n)
  {
    if |batches| > 0 {
      OutputsNumbered(kind, batches[..|batches| - 1], facts, outputPath, group);
    }
  }

  /** A merge never writes the same output file twice, and writes at most one
      file per planned batch. */
  lemma {:induction false} OutputsDistinct(kind: Kind, batches: seq<seq<Item<string>>>, facts: string -> FileFacts,
                                           outputPath: string, group: string)
    ensures |Outputs(kind, batches, facts, outputPath, group)| <= |batches|
    ensures var outs := Outputs(kind, batches, facts, outputPath, group);
      forall i, j :: 0 <= i < j < |outs| ==> outs[i] != outs[j]
  {
    OutputsNumbered(kind, batches, facts, outputPath, group);
    if |batches| > 0 {
      var n := |batches|;
      var prefix := batches[..n - 1];
      OutputsDistinct(kind, prefix, facts, outputPath, group);
      OutputsNumbered(kind, prefix, facts, outputPath, group);
      var before, outs := Outputs(kind, prefix, facts, outputPath, group), Outputs(kind, batches, facts, outputPath, group);
      var newest := BatchFileName(kind, outputPath, group, n);
      forall o | o in before ensures o != newest {
        var k :| 1 <= k <= n - 1 && o == BatchFileName(kind, outputPath, group, k);
        BatchFileNameInjective(kind, outputPath, group, k, n);
      }
      forall i, j | 0 <= i < j < |outs| ensures outs[i] != outs[j] {
        if j < |before| {
          assert outs[i] == before[i] && outs[j] == before[j];
        } else {
          assert outs[j] == newest && outs[i] in before;
        }
      }
    }
  }

  // ---------------------------------------------------------------------------
  // The pre-flight estimate (`estimate_batch_count`)

  function SizesOf(cap: nat, files: seq<string>, facts: string -> FileFacts): (sizes: seq<nat>)
    ensures |sizes| == |files| && forall i :: 0 <= i < |files| ==> sizes[i] == SizeOr(cap, facts(files[i]).size)
  {
    seq(|files|, i requires 0 <= i < |files| => SizeOr(cap, facts(files[i]).size))
  }

  /** The estimate both mergers run over the sorted input, sizes only. */
  method EstimateBatchCount(files: seq<string>, facts: string -> FileFacts, cap: nat) returns (batches: nat)
    ensures batches == Estimate(cap, SizesOf(cap, SortStrings(files), facts))
  {
    var sorted := SortStrings(files);
    ghost var sizes := SizesOf(cap, sorted, facts);
    if |sorted| == 0 {
      return 0;
    }
    batches := 1;
    var current: nat := 0;
    for i := 0 to |sorted|
      invariant TallyOf(cap, sizes[..i]) == Tally(batches, current)
    {
      assert sizes[..i + 1][..i] == sizes[..i];
      var f := facts(sorted[i]);
      var size := if f.size.Some? then f.size.value else cap;
      if current != 0 && current + size > cap {
        batches := batches + 1;
        current := 0;
      }
      current := current + size;
    }
    assert sizes[..|sorted|] == sizes;
  }

  /** The estimate sees the same sizes as the merge loop (the cap where stat
      fails), so it never exceeds the batches the merge plans; with positive
      sizes and no words it is exact. */
  lemma EstimateAgainstMerge(cap: nat, files: seq<string>, facts: string -> FileFacts)
    ensures var sorted := SortStrings(files);
      Estimate(cap, SizesOf(cap, sorted, facts)) <= |Plan(cap, ItemsOf(cap, sorted, facts))|
    ensures var sorted := SortStrings(files);
      (forall i :: 0 <= i < |sorted| ==> SizeOr(cap, facts(sorted[i]).size) > 0 && CountWords(facts(sorted[i]).text) == 0)
      ==> Estimate(cap, SizesOf(cap, sorted, facts)) == |Plan(cap, ItemsOf(cap, sorted, facts))|
  {
    var sorted := SortStrings(files);
    var items := ItemsOf(cap, sorted, facts);
    assert SizesOf(cap, sorted, facts) == BytesOf(items);
    EstimateAtMostPlan(cap, items);
    if forall i :: 0 <= i < |sorted| ==> SizeOr(cap, facts(sorted[i]).size) > 0 && CountWords(facts(sorted[i]).text) == 0 {
      EstimateMatchesPlan(cap, items);
    }
  }
}
