/** The printable-run scan the legacy `.doc` fallbacks apply to the raw
    `WordDocument` stream (`_try_convert_ole_doc_to_pdf`,
    `_try_extract_ole_text`): runs of printable bytes longer than three are
    kept and joined by line breaks. Opening the compound file is not
    modelled; the scan starts from the stream's bytes. */
module Scanner {
  import opened Wrappers
  import opened Text

  newtype byte = x: int | 0 <= x < 256

  /** `32 <= byte < 127 or byte in (10, 13, 9)`. */
  predicate Printable(b: byte) {
    (32 <= b < 127) || b == 10 || b == 13 || b == 9
  }

  /** `chr(byte)`. */
  function CharOf(b: byte): char {
    (b as int) as char
  }

  /** The loop state: the chunks kept so far and the run being collected. */
  datatype Scan = Scan(chunks: seq<string>, current: string)

  /** A finished run is kept only when it is longer than three characters. */
  function Flush(current: string): seq<string> {
    if |current| > 3 then [current] else []
  }

  /** One byte: a printable one extends the run, any other ends it. */
  function Step(s: Scan, b: byte): Scan {
    if Printable(b) then Scan(s.chunks, s.current + [CharOf(b)])
    else Scan(s.chunks + Flush(s.current), "")
  }

  function ScanAll(raw: seq<byte>): Scan {
    if |raw| == 0 then Scan([], "") else Step(ScanAll(raw[..|raw| - 1]), raw[|raw| - 1])
  }

  /** The chunks kept, the last run included. */
  function Chunks(raw: seq<byte>): seq<string> {
    var s := ScanAll(raw);
    s.chunks + Flush(s.current)
  }

  /** The scan loop and `'\n'.join(text_chunks)`. */
  method PrintableText(raw: seq<byte>) returns (text: string)
    ensures text == Join(Chunks(raw), "\n")
  {
    var chunks: seq<string> := [];
    var current: string := "";
    for i := 0 to |raw|
      invariant ScanAll(raw[..i]) == Scan(chunks, current)
    {
      assert raw[..i + 1][..i] == raw[..i];
      var b := raw[i];
      if 32 <= b < 127 || b == 10 || b == 13 || b == 9 {
        current := current + [(b as int) as char];
      } else {
        if |current| > 3 {
          chunks := chunks + [current];
        }
        current := "";
      }
    }
    assert raw[..|raw|] == raw;
    assert Chunks(raw) == chunks + Flush(current);
    if |current| > 3 {
      chunks := chunks + [current];
    }
    assert chunks == Chunks(raw);
    text := Join(chunks, "\n");
  }

  /** `_try_extract_ole_text`: nothing when every kept run is blank;
      otherwise the joined runs with the surrounding whitespace cut off,
      which keeps all of their words and only printable characters. */
  function OleText(raw: seq<byte>): (r: Option<string>)
    ensures r.None? <==> forall k :: 0 <= k < |Chunks(raw)| ==> Words(Chunks(raw)[k]) == []
    ensures r.Some? ==> var joined := Join(Chunks(raw), "\n");
      && r.value != ""
      && !IsSpace(r.value[0]) && !IsSpace(r.value[|r.value| - 1])
      && AllPrintable(r.value)
      && Words(r.value) == Words(joined)
      && exists i, j :: 0 <= i <= j <= |joined| && r.value == joined[i..j]
  {
    var joined := Join(Chunks(raw), "\n");
    StripSpec(joined);
    WordsOfLines(Chunks(raw));
    LineWordsEmpty(Chunks(raw));
    JoinedChunksPrintable(raw);
    var text := Strip(joined);
    if text == "" then None else Some(text)
  }

  /** The characters a printable byte becomes. */
  predicate PrintableChar(c: char) {
    (32 <= c as int < 127) || c == '\n' || c == '\r' || c == '\t'
  }

  predicate AllPrintable(s: string) {
    forall j :: 0 <= j < |s| ==> PrintableChar(s[j])
  }

  /** Every chunk kept is longer than three characters, all of them from
      printable bytes. */
  lemma {:induction false} ChunksShape(raw: seq<byte>)
    ensures forall k :: 0 <= k < |Chunks(raw)| ==> |Chunks(raw)[k]| > 3 && AllPrintable(Chunks(raw)[k])
  {
    ScanShape(raw);
  }

  lemma {:induction false} ScanShape(raw: seq<byte>)
    ensures var s := ScanAll(raw);
      && (forall k :: 0 <= k < |s.chunks| ==> |s.chunks[k]| > 3 && AllPrintable(s.chunks[k]))
      && AllPrintable(s.current)
  {
    if |raw| > 0 {
      ScanShape(raw[..|raw| - 1]);
    }
  }

  /** The characters of a byte string. */
  function Chars(raw: seq<byte>): (s: string)
    ensures |s| == |raw|
  {
    seq(|raw|, i requires 0 <= i < |raw| => CharOf(raw[i]))
  }

  /** A run of printable bytes is kept whole exactly when it is longer than
      three bytes. */
  lemma {:induction false} ChunksOfRun(raw: seq<byte>)
    requires forall i :: 0 <= i < |raw| ==> Printable(raw[i])
    ensures Chunks(raw) == if |raw| > 3 then [Chars(raw)] else []
  {
    RunState(raw);
  }

  lemma {:induction false} RunState(raw: seq<byte>)
    requires forall i :: 0 <= i < |raw| ==> Printable(raw[i])
    ensures ScanAll(raw) == Scan([], Chars(raw))
  {
    if |raw| > 0 {
      RunState(raw[..|raw| - 1]);
      assert Chars(raw) == Chars(raw[..|raw| - 1]) + [CharOf(raw[|raw| - 1])];
    }
  }

  /** A byte that is not printable splits the scan: the chunks of the bytes
      before it, then the chunks of the bytes after it. With `ChunksOfRun`
      this says the chunks are the maximal printable runs longer than three,
      in order. */
  lemma ChunksSplit(a: seq<byte>, sep: byte, b: seq<byte>)
    requires !Printable(sep)
    ensures Chunks(a + [sep] + b) == Chunks(a) + Chunks(b)
  {
    ScanAfterSplit(a, sep, b);
  }

  lemma {:induction false} ScanAfterSplit(a: seq<byte>, sep: byte, b: seq<byte>)
    requires !Printable(sep)
    ensures ScanAll(a + [sep] + b) == Scan(Chunks(a) + ScanAll(b).chunks, ScanAll(b).current)
  {
    if |b| == 0 {
      assert a + [sep] + b == a + [sep];
      assert (a + [sep])[..|a|] == a;
    } else {
      var init := b[..|b| - 1];
      ScanAfterSplit(a, sep, init);
      assert (a + [sep] + b)[..|a + [sep] + b| - 1] == a + [sep] + init;
    }
  }

  /** The joined text of the kept runs, and any piece of it, is printable. */
  lemma JoinedChunksPrintable(raw: seq<byte>)
    ensures var joined := Join(Chunks(raw), "\n");
      forall i, j :: 0 <= i <= j <= |joined| ==> AllPrintable(joined[i..j])
  {
    ChunksShape(raw);
    JoinPrintable(Chunks(raw));
  }

  lemma {:induction false} JoinPrintable(parts: seq<string>)
    requires forall k :: 0 <= k < |parts| ==> AllPrintable(parts[k])
    ensures AllPrintable(Join(parts, "\n"))
    decreases |parts|
  {
    if |parts| > 1 {
      JoinPrintable(parts[1..]);
      var rest := Join(parts[1..], "\n");
      assert AllPrintable(parts[0]);
      assert Join(parts, "\n") == parts[0] + "\n" + rest;
    }
  }
}
