/** The engine's structured warning records (`_record_warning`). Every call
    site records a fixed code with a fixed message, so a warning is modelled
    by which call site recorded it; the code and message strings are
    functions of that. */
module Warnings {
  import opened Wrappers
  import opened Text

  /** The call sites that record a warning, one constructor per distinct
      (code, message) pair. */
  datatype Code =
    | WordToPdfTimeout(seconds: nat)
    | WordToPdfFailed
    | PdfStatFailed
    | PdfExceedsWordCap
    | PdfEncrypted
    | PdfNoPages
    | PdfConversionEmpty
    | PdfConversionFailed
    | PdfUnreadable
    | PdfEmptyBatch
    | DocxStatFailed
    | DocxExceedsWordCap
    | DocxUnreadable
    | DocxEmptyDocument
    | DocxAppendFailed
    | DocxEmptyBatch
    | ZipEntrySuspiciousRatio
    | ZipExtractionBudgetExceeded
    | ZipEntrySkippedUnsafePath
    | ZipEntryExtractFailed
    | ZipArchiveExtractFailed
    | ZipDirectoryFailed
    | ZipNestedDepthExceeded
    | ZipEmptyAfterExtraction
    | UnsupportedRelocateFailed
    | FailedArtifactCreateFailed
    | WordConversionNoOutputs
    | EmailExtractFailed
    | EmailThreadExceedsBatchCap
    | EmailThreadExceedsWordCap

  /** The `code` string a call site records. */
  function CodeName(c: Code): (s: string)
    ensures |s| > 0
  {
    match c
    case WordToPdfTimeout(_) => "word_to_pdf_timeout"
    case WordToPdfFailed => "word_to_pdf_failed"
    case PdfStatFailed => "pdf_stat_failed"
    case PdfExceedsWordCap => "pdf_exceeds_word_cap"
    case PdfEncrypted => "pdf_encrypted"
    case PdfNoPages => "pdf_no_pages"
    case PdfConversionEmpty => "pdf_conversion_empty"
    case PdfConversionFailed => "pdf_conversion_failed"
    case PdfUnreadable => "pdf_unreadable"
    case PdfEmptyBatch => "pdf_empty_batch"
    case DocxStatFailed => "docx_stat_failed"
    case DocxExceedsWordCap => "docx_exceeds_word_cap"
    case DocxUnreadable => "docx_unreadable"
    case DocxEmptyDocument => "docx_empty_document"
    case DocxAppendFailed => "docx_append_failed"
    case DocxEmptyBatch => "docx_empty_batch"
    case ZipEntrySuspiciousRatio => "zip_entry_suspicious_ratio"
    case ZipExtractionBudgetExceeded => "zip_extraction_budget_exceeded"
    case ZipEntrySkippedUnsafePath => "zip_entry_skipped_unsafe_path"
    case ZipEntryExtractFailed => "zip_extract_failed"
    case ZipArchiveExtractFailed => "zip_extract_failed"
    case ZipDirectoryFailed => "zip_extract_failed"
    case ZipNestedDepthExceeded => "zip_nested_depth_exceeded"
    case ZipEmptyAfterExtraction => "zip_empty_after_extraction"
    case UnsupportedRelocateFailed => "unsupported_relocate_failed"
    case FailedArtifactCreateFailed => "failed_artifact_create_failed"
    case WordConversionNoOutputs => "word_conversion_no_outputs"
    case EmailExtractFailed => "email_extract_failed"
    case EmailThreadExceedsBatchCap => "email_thread_exceeds_batch_cap"
    case EmailThreadExceedsWordCap => "email_thread_exceeds_word_cap"
  }

  /** The `message` string a call site records. */
  function Message(c: Code): string {
    match c
    case WordToPdfTimeout(seconds) => "Word conversion timed out after " + NatToString(seconds) + "s; skipping file"
    case WordToPdfFailed => "Word-to-PDF conversion failed; skipping file"
    case PdfStatFailed => "Could not determine PDF file size; using max batch size for pre-allocation"
    case PdfExceedsWordCap => "PDF exceeds netdoc word limit (50000); writing dedicated batch file"
    case PdfEncrypted => "PDF is password-protected and cannot be merged; skipping"
    case PdfNoPages => "PDF contained zero readable pages"
    case PdfConversionEmpty => "Fallback conversion produced zero pages"
    case PdfConversionFailed => "Could not merge file after fallback conversion"
    case PdfUnreadable => "Could not read PDF file and fallback conversion failed"
    case PdfEmptyBatch => "Skipped PDF batch because no readable pages were found"
    case DocxStatFailed => "Could not determine document file size; using max batch size for pre-allocation"
    case DocxExceedsWordCap => "DOCX exceeds netdoc word limit (50000); writing dedicated batch file"
    case DocxUnreadable => "Could not read DOCX/DOC file; skipping file"
    case DocxEmptyDocument => "DOCX file had no readable body elements; skipping file"
    case DocxAppendFailed => "Could not append DOCX body elements; skipping file"
    case DocxEmptyBatch => "Skipped DOCX batch because no readable documents were found"
    case ZipEntrySuspiciousRatio => "ZIP entry has suspicious compression ratio (possible zip bomb); skipping"
    case ZipExtractionBudgetExceeded => "ZIP extraction stopped: total extracted size would exceed safety budget"
    case ZipEntrySkippedUnsafePath => "Skipped ZIP entry with unsafe path"
    case ZipEntryExtractFailed => "Failed to extract ZIP entry; skipping entry"
    case ZipArchiveExtractFailed => "Failed to extract ZIP archive; skipping archive"
    case ZipDirectoryFailed => "Failed to prepare extraction directory; skipping archive"
    case ZipNestedDepthExceeded => "Nested ZIP archive skipped due to depth limit"
    case ZipEmptyAfterExtraction => "ZIP archive did not contain extractable files"
    case UnsupportedRelocateFailed => "Failed to relocate unsupported file"
    case FailedArtifactCreateFailed => "Failed to create artifact for failed file"
    case WordConversionNoOutputs => "No Word documents could be converted to PDF in this group"
    case EmailExtractFailed => "Could not parse email file; skipping file"
    case EmailThreadExceedsBatchCap => "Email thread exceeds configured batch size cap; writing dedicated batch file"
    case EmailThreadExceedsWordCap => "Email thread exceeds netdoc word limit (50000); writing dedicated batch file"
  }

  /** A warning: the call site that recorded it plus the context keys the
      outcome ledger reads. Other context keys (error text, sizes, ratios,
      group, batch) carry no decision and are left out. */
  datatype Warning = Warning(
    code: Code,
    file: Option<string>,
    archive: Option<string>,
    entry: Option<string>,
    destination: Option<string>)

  /** A warning about one input file (`file=...`). */
  function FileWarning(code: Code, file: string): (w: Warning)
    ensures w.code == code && w.file == Some(file)
  {
    Warning(code, Some(file), None, None, None)
  }

  /** A warning about a whole archive (`archive=...`). */
  function ArchiveWarning(code: Code, archive: string): (w: Warning)
    ensures w.code == code && w.file == None && w.archive == Some(archive) && w.entry == None
  {
    Warning(code, None, Some(archive), None, None)
  }

  /** A warning about one member of an archive (`archive=..., entry=...`). */
  function EntryWarning(code: Code, archive: string, entry: string): (w: Warning)
    ensures w.code == code && w.file == None && w.archive == Some(archive) && w.entry == Some(entry)
  {
    Warning(code, None, Some(archive), Some(entry), None)
  }

  /** A warning with no file context (a group, batch or thread warning). */
  function ContextWarning(code: Code): (w: Warning)
    ensures w.code == code && w.file == None && w.archive == None && w.destination == None
  {
    Warning(code, None, None, None, None)
  }

  /** How many warnings carry `code`. */
  function CountCode(ws: seq<Warning>, code: Code): (n: nat)
    ensures n <= |ws|
  {
    if |ws| == 0 then 0
    else CountCode(ws[..|ws| - 1], code) + (if ws[|ws| - 1].code == code then 1 else 0)
  }

  /** Counting distributes over concatenation. */
  lemma {:induction false} CountCodeAppend(a: seq<Warning>, b: seq<Warning>, code: Code)
    ensures CountCode(a + b, code) == CountCode(a, code) + CountCode(b, code)
  {
    if |b| > 0 {
      CountCodeAppend(a, b[..|b| - 1], code);
      assert (a + b)[..|a + b| - 1] == a + b[..|b| - 1];
    } else {
      assert a + b == a;
    }
  }
}
