/** Email threading and the email outputs: `EmailThreader.normalize_subject`
    and `group_emails`, the text layout of `_render_email_entry` and
    `_render_thread_block`, and the batch planning of `_write_email_batches`.
    Parsing `.msg`/`.eml` files and dates is not modelled: an email arrives
    as the record the extractor returns, its date already normalised. */
module Email {
  import opened Wrappers
  import opened Text
  import opened Paths
  import opened Order
  import opened Warnings
  import opened Batching
  import opened Capacity
  import Merging

  // ---------------------------------------------------------------------------
  // Subjects (`normalize_subject`)

  /** `RE`, `FW` or `FWD` in any mix of cases. */
  predicate IsReplyTag(t: string) {
    || (|t| == 2 && LowerChar(t[0]) == 'r' && LowerChar(t[1]) == 'e')
    || (|t| == 2 && LowerChar(t[0]) == 'f' && LowerChar(t[1]) == 'w')
    || (|t| == 3 && LowerChar(t[0]) == 'f' && LowerChar(t[1]) == 'w' && LowerChar(t[2]) == 'd')
  }

  /** Length of the tag and colon that `^(RE|FW|FWD):` matches at the start
      of `s`, or 0 when it does not match. */
  function ReplyTagLength(s: string): (n: nat)
    ensures n == 0 || (3 <= n <= 4 && n <= |s| && IsReplyTag(s[..n - 1]) && s[n - 1] == ':')
  {
    if |s| >= 3 && IsReplyTag(s[..2]) && s[2] == ':' then 3
    else if |s| >= 4 && IsReplyTag(s[..3]) && s[3] == ':' then 4
    else 0
  }

  /** `re.sub(r'^(RE|FW|FWD):\s*', '', s, flags=re.IGNORECASE)`: one leading
      tag and the whitespace after it removed. */
  function StripReplyTag(s: string): string {
    var n := ReplyTagLength(s);
    if n == 0 then s
    else
      var rest := s[n..];
      rest[SpaceLength(rest)..]
  }

  /** `normalize_subject`: the empty subject stays empty; otherwise one tag
      is removed, whitespace runs collapse to one space, the ends are
      trimmed and the letters lower-cased. */
  function NormalizeSubject(subject: string): string {
    if subject == "" then ""
    else Lower(Strip(CollapseSpace(StripReplyTag(subject))))
  }

  /** The normalised subject is the words left after at most one tag,
      lower-cased and joined by single spaces. */
  lemma NormalizeSubjectWords(subject: string)
    ensures NormalizeSubject(subject)
         == Lower(Join(Words(subject[ReplyTagLength(subject)..]), " "))
  {
    var n := ReplyTagLength(subject);
    if subject != "" {
      CollapseStripIsJoinedWords(StripReplyTag(subject));
      if n > 0 {
        WordsSkipSpace(subject[n..]);
      }
    } else {
      assert Words(subject) == [];
    }
  }

  /** A reply or forward lands in the thread of its original: exactly one
      tag is removed, with the whitespace after it, whatever follows; a
      second tag is kept. */
  lemma NormalizeReply(tag: string, rest: string)
    requires IsReplyTag(tag)
    ensures NormalizeSubject(tag + ":" + rest) == Lower(Join(Words(rest), " "))
    ensures ReplyTagLength(rest) == 0 ==> NormalizeSubject(tag + ":" + rest) == NormalizeSubject(rest)
  {
    var s := tag + ":" + rest;
    assert s[..|tag|] == tag;
    if |tag| == 3 {
      assert s[..2] == tag[..2];
    }
    assert ReplyTagLength(s) == |tag| + 1;
    assert s[|tag| + 1..] == rest;
    NormalizeSubjectWords(s);
    NormalizeSubjectWords(rest);
    assert rest[0..] == rest;
  }

  // ---------------------------------------------------------------------------
  // Threads (`group_emails`)

  /** One attachment as the extractor lists it. */
  datatype Attachment = Attachment(filename: Option<string>, contentType: string, sizeBytes: Option<nat>)

  /** One parsed email. `dateText` is how the date value prints; `date` is
      what `normalize_date` makes of it, `None` for a missing or unparseable
      date (Python's `datetime.min`, earlier than every parsed date). */
  datatype Email = Email(subject: string, sender: string, to: string, cc: string, dateText: string,
                         date: Option<int>, filePath: string, body: string, attachments: seq<Attachment>)

  /** The thread an email belongs to: its normalised subject, or
      `no_subject_<file path>` when that is empty. */
  function ThreadKey(e: Email): (k: string)
    ensures k != ""
  {
    var normalized := NormalizeSubject(e.subject);
    if normalized != "" then normalized else "no_subject_" + e.filePath
  }

  /** `a` sorts strictly before `b`. */
  predicate Earlier(a: Option<int>, b: Option<int>) {
    b.Some? && (a.None? || a.value < b.value)
  }

  /** Insert `e` behind every email that is not later than it. */
  function InsertByDate(e: Email, s: seq<Email>): seq<Email> {
    if |s| == 0 then [e]
    else if Earlier(e.date, s[|s| - 1].date) then InsertByDate(e, s[..|s| - 1]) + [s[|s| - 1]]
    else s + [e]
  }

  /** `list.sort(key=normalize_date)`: Python's stable sort by date. */
  function SortByDate(s: seq<Email>): seq<Email> {
    if |s| == 0 then [] else InsertByDate(s[|s| - 1], SortByDate(s[..|s| - 1]))
  }

  predicate DateSorted(s: seq<Email>) {
    forall i, j :: 0 <= i < j < |s| ==> !Earlier(s[j].date, s[i].date)
  }

  /** The emails of `s` with date `d`, in order. */
  function WithDate(s: seq<Email>, d: Option<int>): seq<Email> {
    if |s| == 0 then []
    else WithDate(s[..|s| - 1], d) + (if s[|s| - 1].date == d then [s[|s| - 1]] else [])
  }

  lemma WithDateAppend(s: seq<Email>, e: Email, d: Option<int>)
    ensures WithDate(s + [e], d) == WithDate(s, d) + (if e.date == d then [e] else [])
  {
    assert (s + [e])[..|s|] == s;
  }

  /** Inserting adds exactly `e`. */
  lemma {:induction false} InsertByDateKeeps(e: Email, s: seq<Email>)
    ensures multiset(InsertByDate(e, s)) == multiset(s) + multiset{e}
  {
    if |s| > 0 {
      var init, last := s[..|s| - 1], s[|s| - 1];
      assert s == init + [last];
      if Earlier(e.date, last.date) {
        InsertByDateKeeps(e, init);
      }
    }
  }

  /** Inserting puts `e` behind every email with the same date. */
  lemma {:induction false} InsertByDateStable(e: Email, s: seq<Email>, d: Option<int>)
    ensures WithDate(InsertByDate(e, s), d) == WithDate(s, d) + (if e.date == d then [e] else [])
  {
    if |s| > 0 {
      var init, last := s[..|s| - 1], s[|s| - 1];
      assert s == init + [last];
      if Earlier(e.date, last.date) {
        InsertByDateStable(e, init, d);
        WithDateAppend(InsertByDate(e, init), last, d);
        WithDateAppend(init, last, d);
      } else {
        WithDateAppend(s, e, d);
      }
    } else {
      WithDateAppend([], e, d);
    }
  }

  /** Inserting into a sorted list keeps it sorted. */
  lemma {:induction false} InsertByDateSorted(e: Email, s: seq<Email>)
    requires DateSorted(s)
    ensures DateSorted(InsertByDate(e, s))
  {
    if |s| > 0 {
      var init, last := s[..|s| - 1], s[|s| - 1];
      if Earlier(e.date, last.date) {
        InsertByDateSorted(e, init);
        var r' := InsertByDate(e, init);
        InsertByDateKeeps(e, init);
        forall i | 0 <= i < |r'| ensures !Earlier(last.date, r'[i].date) {
          assert r'[i] in multiset(r');
          assert r'[i] in init || r'[i] == e;
        }
      }
    }
  }

  /** The sort orders by date, keeps every email, and is stable: the emails
      sharing a date keep their input order. */
  lemma {:induction false} SortByDateSpec(s: seq<Email>)
    ensures var r := SortByDate(s);
      && DateSorted(r)
      && multiset(r) == multiset(s)
      && forall d :: WithDate(r, d) == WithDate(s, d)
  {
    if |s| > 0 {
      var init, last := s[..|s| - 1], s[|s| - 1];
      assert s == init + [last];
      SortByDateSpec(init);
      InsertByDateKeeps(last, SortByDate(init));
      InsertByDateSorted(last, SortByDate(init));
      forall d ensures WithDate(SortByDate(s), d) == WithDate(s, d) {
        InsertByDateStable(last, SortByDate(init), d);
        WithDateAppend(init, last, d);
      }
    }
  }

  /** Mixed dates in one thread: the two undated emails come first, in their
      input order, then the dated ones by date. */
  lemma SortMixedDates(a: Email, b: Email, c: Email, d: Email)
    requires a.date == Some(2) && b.date == None && c.date == Some(1) && d.date == None
    ensures SortByDate([a, b, c, d]) == [b, d, c, a]
  {
    assert [a, b, c, d][..3] == [a, b, c] && [a, b, c][..2] == [a, b] && [a, b][..1] == [a];
    assert [b, a][..1] == [b] && [a][..0] == [] && [b][..0] == [];
    assert [b, c, a][..2] == [b, c] && [b, c][..1] == [b];
    assert SortByDate([a]) == [a];
    assert InsertByDate(b, [a]) == [b, a];
    assert SortByDate([a, b]) == [b, a];
    assert InsertByDate(c, [b, a]) == [b, c, a];
    assert SortByDate([a, b, c]) == [b, c, a];
    assert InsertByDate(d, [b]) == [b, d];
    assert InsertByDate(d, [b, c]) == [b, d, c];
    assert InsertByDate(d, [b, c, a]) == [b, d, c, a];
  }

  /** The emails of thread `key`, in input order. */
  function Bucket(emails: seq<Email>, key: string): seq<Email> {
    if |emails| == 0 then []
    else Bucket(emails[..|emails| - 1], key) + (if ThreadKey(emails[|emails| - 1]) == key then [emails[|emails| - 1]] else [])
  }

  function KeysOf(emails: seq<Email>): set<string> {
    set i | 0 <= i < |emails| :: ThreadKey(emails[i])
  }

  /** The threads before sorting. */
  function Buckets(emails: seq<Email>): map<string, seq<Email>> {
    map k | k in KeysOf(emails) :: Bucket(emails, k)
  }

  /** What `group_emails` returns. */
  function Threads(emails: seq<Email>): map<string, seq<Email>> {
    map k | k in KeysOf(emails) :: SortByDate(Bucket(emails, k))
  }

  lemma BucketAppend(emails: seq<Email>, e: Email, key: string)
    ensures Bucket(emails + [e], key) == Bucket(emails, key) + (if ThreadKey(e) == key then [e] else [])
  {
    assert (emails + [e])[..|emails|] == emails;
  }

  /** A thread holds every email with its key, as often as the input does,
      and nothing else. */
  lemma {:induction false} BucketSpec(emails: seq<Email>, key: string)
    ensures forall e :: multiset(Bucket(emails, key))[e] == if ThreadKey(e) == key then multiset(emails)[e] else 0
  {
    if |emails| > 0 {
      var init, last := emails[..|emails| - 1], emails[|emails| - 1];
      assert emails == init + [last];
      BucketSpec(init, key);
      BucketAppend(init, last, key);
    }
  }

  lemma KeysOfAppend(emails: seq<Email>, e: Email)
    ensures KeysOf(emails + [e]) == KeysOf(emails) + {ThreadKey(e)}
  {
    hide ThreadKey;
    var next := emails + [e];
    forall k ensures k in KeysOf(next) <==> k in KeysOf(emails) || k == ThreadKey(e) {
      if k in KeysOf(next) {
        var i :| 0 <= i < |next| && ThreadKey(next[i]) == k;
        if i < |emails| { assert next[i] == emails[i]; }
      }
      if k in KeysOf(emails) {
        var i :| 0 <= i < |emails| && ThreadKey(emails[i]) == k;
        assert next[i] == emails[i];
      }
      assert next[|emails|] == e;
    }
  }

  /** A key no email has names an empty thread. */
  lemma BucketOutside(emails: seq<Email>, key: string)
    requires key !in KeysOf(emails)
    ensures Bucket(emails, key) == []
  {
    hide ThreadKey;
    BucketSpec(emails, key);
    forall x | x in emails ensures ThreadKey(x) != key {
      var i :| 0 <= i < |emails| && emails[i] == x;
      assert ThreadKey(emails[i]) in KeysOf(emails);
    }
    assert multiset(Bucket(emails, key)) == multiset{};
  }

  /** Adding one email to the threads appends it to its own thread. */
  lemma BucketsAppend(emails: seq<Email>, e: Email)
    ensures var key := ThreadKey(e);
      Buckets(emails + [e]) == Buckets(emails)[key := (if key in Buckets(emails) then Buckets(emails)[key] else []) + [e]]
  {
    hide ThreadKey;
    var key := ThreadKey(e);
    var next := emails + [e];
    KeysOfAppend(emails, e);
    if key !in KeysOf(emails) {
      BucketOutside(emails, key);
    }
    var thread := if key in Buckets(emails) then Buckets(emails)[key] else [];
    assert thread == Bucket(emails, key);
    var lhs, rhs := Buckets(next), Buckets(emails)[key := thread + [e]];
    assert lhs.Keys == rhs.Keys;
    hide Bucket;
    forall k | k in lhs ensures lhs[k] == rhs[k] {
      BucketAppend(emails, e, k);
    }
  }

  /** `group_emails`: each email appended to its thread in input order,
      then each thread sorted by date. */
  method GroupEmails(emails: seq<Email>) returns (threads: map<string, seq<Email>>)
    ensures threads == Threads(emails)
  {
    hide ThreadKey, SortByDate;
    threads := map[];
    for i := 0 to |emails|
      invariant threads == Buckets(emails[..i])
    {
      assert emails[..i + 1] == emails[..i] + [emails[i]];
      BucketsAppend(emails[..i], emails[i]);
      var key := ThreadKey(emails[i]);
      var thread := if key in threads then threads[key] else [];
      threads := threads[key := thread + [emails[i]]];
    }
    assert emails[..|emails|] == emails;
    ghost var buckets := threads;
    var pending := threads.Keys;
    while pending != {}
      invariant pending <= threads.Keys == buckets.Keys
      invariant forall k :: k in threads ==> threads[k] == if k in pending then buckets[k] else SortByDate(buckets[k])
      decreases pending
    {
      var key :| key in pending;
      threads := threads[key := SortByDate(threads[key])];
      pending := pending - {key};
    }
    assert threads.Keys == Threads(emails).Keys;
  }

  /** Every email is in exactly one thread, the one named by its key, as
      often as it is in the input; each thread is non-empty, sorted by date
      (missing dates first), and keeps the input order of emails sharing a
      date. */
  lemma GroupEmailsSpec(emails: seq<Email>)
    ensures var threads := Threads(emails);
      && (forall i :: 0 <= i < |emails| ==> ThreadKey(emails[i]) in threads)
      && (forall k :: k in threads ==> exists i :: 0 <= i < |emails| && ThreadKey(emails[i]) == k)
      && (forall k, e :: k in threads ==>
            multiset(threads[k])[e] == if ThreadKey(e) == k then multiset(emails)[e] else 0)
      && (forall k :: k in threads ==> threads[k] != [] && DateSorted(threads[k]))
      && (forall k, d :: k in threads ==> WithDate(threads[k], d) == WithDate(Bucket(emails, k), d))
  {
    hide ThreadKey;
    var threads := Threads(emails);
    forall k | k in threads
      ensures forall e :: multiset(threads[k])[e] == if ThreadKey(e) == k then multiset(emails)[e] else 0
      ensures threads[k] != [] && DateSorted(threads[k])
      ensures forall d :: WithDate(threads[k], d) == WithDate(Bucket(emails, k), d)
    {
      SortByDateSpec(Bucket(emails, k));
      BucketSpec(emails, k);
      var i :| 0 <= i < |emails| && ThreadKey(emails[i]) == k;
      assert multiset(emails)[emails[i]] > 0;
      assert multiset(threads[k])[emails[i]] > 0;
    }
  }

  // ---------------------------------------------------------------------------
  // Text layout (`_render_email_entry`, `_render_thread_block`)

  /** A line of `n` copies of `c` (`"=" * 80`). */
  function Rule(c: char, n: nat): (r: string)
    ensures |r| == n && forall i :: 0 <= i < n ==> r[i] == c
  {
    seq(n, _ => c)
  }

  function AttachmentLine(a: Attachment): string {
    var size := match a.sizeBytes case Some(n) => NatToString(n) case None => "unknown";
    "- " + a.filename.GetOr("unnamed_attachment") + " (type=" + a.contentType + ", bytes=" + size + ")"
  }

  /** The attachment index: one line per attachment, or `- none`. */
  function AttachmentLines(attachments: seq<Attachment>): seq<string> {
    if |attachments| == 0 then ["- none"]
    else seq(|attachments|, i requires 0 <= i < |attachments| => AttachmentLine(attachments[i]))
  }

  function EntryHeading(index: nat, total: nat): string {
    "EMAIL " + NatToString(index) + " of " + NatToString(total)
  }

  /** The lines of one email: heading, rule, the header fields, rule, the
      body between blank lines, the optional attachment index, and a closing
      rule. */
  function EntryLines(e: Email, index: nat, total: nat, attachmentIndex: bool): seq<string> {
    [EntryHeading(index, total), Rule('=', 80),
     "Subject: " + e.subject, "From: " + e.sender, "To: " + e.to, "CC: " + e.cc,
     "Date: " + e.dateText, "Source: " + Basename(e.filePath), Rule('-', 80), "", e.body, ""]
    + (if attachmentIndex then ["ATTACHMENTS:"] + AttachmentLines(e.attachments) + [""] else [])
    + [Rule('=', 80), ""]
  }

  /** `_render_email_entry`. */
  function RenderEmailEntry(e: Email, index: nat, total: nat, attachmentIndex: bool): string {
    Join(EntryLines(e, index, total, attachmentIndex), "\n")
  }

  function ThreadHeader(threadNum: nat, key: string, total: nat): seq<string> {
    ["EMAIL THREAD " + NatToString(threadNum),
     "THREAD KEY: " + (if key == "" then "(no subject)" else key),
     "TOTAL EMAILS: " + NatToString(total), Rule('=', 80), ""]
  }

  function EntriesOf(emails: seq<Email>, attachmentIndex: bool): (entries: seq<string>)
    ensures |entries| == |emails|
  {
    seq(|emails|, i requires 0 <= i < |emails| => RenderEmailEntry(emails[i], i + 1, |emails|, attachmentIndex))
  }

  /** `_render_thread_block`: the thread header, then each email numbered
      from 1. */
  function RenderThreadBlock(threadNum: nat, key: string, emails: seq<Email>, attachmentIndex: bool): string {
    Join(ThreadHeader(threadNum, key, |emails|) + EntriesOf(emails, attachmentIndex), "\n")
  }

  lemma {:induction false} JoinSnoc(lines: seq<string>, last: string, sep: string)
    requires lines != []
    ensures Join(lines + [last], sep) == Join(lines, sep) + sep + last
    decreases |lines|
  {
    if |lines| == 1 {
      assert (lines + [last])[1..] == [last];
    } else {
      assert (lines + [last])[1..] == lines[1..] + [last];
      JoinSnoc(lines[1..], last, sep);
    }
  }

  /** An entry opens with its `EMAIL i of n` line and closes with the
      closing rule and a line break. */
  lemma RenderEmailEntryShape(e: Email, index: nat, total: nat, attachmentIndex: bool)
    ensures var r := RenderEmailEntry(e, index, total, attachmentIndex);
      && StartsWith(r, EntryHeading(index, total) + "\n")
      && EndsWith(r, Rule('=', 80) + "\n")
  {
    var lines := EntryLines(e, index, total, attachmentIndex);
    var body := lines[..|lines| - 2];
    assert lines == body + [Rule('=', 80)] + [""];
    JoinSnoc(body + [Rule('=', 80)], "", "\n");
    JoinSnoc(body, Rule('=', 80), "\n");
    assert lines == [lines[0]] + lines[1..];
    JoinCons(lines[0], lines[1..], "\n");
  }

  // ---------------------------------------------------------------------------
  // Counting a block's words and bytes (`len(text.split())`, UTF-8 length)

  /** The words a thread block is counted by are its header's words
      followed by each email's words in order. */
  lemma ThreadBlockWords(threadNum: nat, key: string, emails: seq<Email>, attachmentIndex: bool)
    ensures Words(RenderThreadBlock(threadNum, key, emails, attachmentIndex))
         == LineWords(ThreadHeader(threadNum, key, |emails|)) + LineWords(EntriesOf(emails, attachmentIndex))
  {
    WordsOfLines(ThreadHeader(threadNum, key, |emails|) + EntriesOf(emails, attachmentIndex));
    LineWordsAppend(ThreadHeader(threadNum, key, |emails|), EntriesOf(emails, attachmentIndex));
  }

  /** How many bytes UTF-8 takes for one character. */
  function Utf8Width(c: char): nat {
    if c as int < 0x80 then 1 else if c as int < 0x800 then 2 else if c as int < 0x10000 then 3 else 4
  }

  /** `len(text.encode("utf-8"))`: at least one and at most four bytes per
      character. */
  function Utf8Length(s: string): (n: nat)
    ensures |s| <= n <= 4 * |s|
  {
    if |s| == 0 then 0 else Utf8Length(s[..|s| - 1]) + Utf8Width(s[|s| - 1])
  }

  // ---------------------------------------------------------------------------
  // Email batches (`_write_email_batches`)

  /** One rendered thread: its key, its number of emails, its number in key
      order and its text. */
  datatype Block = Block(threadKey: string, emailCount: nat, threadNum: nat, text: string)

  /** The planner's item for the `i`-th thread in key order. */
  function ThreadItem(threads: map<string, seq<Email>>, keys: seq<string>, i: nat, attachmentIndex: bool): Item<Block>
    requires i < |keys| && keys[i] in threads
  {
    var emails := threads[keys[i]];
    var text := RenderThreadBlock(i + 1, keys[i], emails, attachmentIndex);
    Item(Block(keys[i], |emails|, i + 1, text), Utf8Length(text), CountWords(text))
  }

  function ThreadItems(threads: map<string, seq<Email>>, keys: seq<string>, attachmentIndex: bool): (items: seq<Item<Block>>)
    requires forall k :: k in keys ==> k in threads
    ensures |items| == |keys|
  {
    seq(|keys|, i requires 0 <= i < |keys| => ThreadItem(threads, keys, i, attachmentIndex))
  }

  /** The warnings one thread records while it is planned: one for passing
      the byte cap, one for passing the word cap. */
  function BlockWarnings(cap: nat, it: Item<Block>): seq<Warning> {
    (if it.bytes > cap then [Warning(EmailThreadExceedsBatchCap, None, None, None, None)] else [])
    + (if it.words > MaxBatchWords then [Warning(EmailThreadExceedsWordCap, None, None, None, None)] else [])
  }

  function CapWarnings(cap: nat, items: seq<Item<Block>>): seq<Warning> {
    if |items| == 0 then []
    else CapWarnings(cap, items[..|items| - 1]) + BlockWarnings(cap, items[|items| - 1])
  }

  /** The planning loop of `_write_email_batches`: the greedy packing of
      the thread blocks, warning about each block that alone passes a cap. */
  method PlanEmailBatches(cap: nat, items: seq<Item<Block>>) returns (batches: seq<seq<Item<Block>>>, warnings: seq<Warning>)
    ensures batches == Plan(cap, items)
    ensures warnings == CapWarnings(cap, items)
  {
    batches, warnings := [], [];
    var current: seq<Item<Block>> := [];
    var currentBytes: nat, currentWords: nat := 0, 0;
    for i := 0 to |items|
      invariant Pack(cap, items[..i]) == Packer(batches, current, currentBytes, currentWords)
      invariant warnings == CapWarnings(cap, items[..i])
    {
      assert items[..i + 1][..i] == items[..i];
      var it := items[i];
      assert Pack(cap, items[..i + 1]) == Step(cap, Pack(cap, items[..i]), it);
      assert CapWarnings(cap, items[..i + 1]) == warnings + BlockWarnings(cap, it);
      if current != [] && (currentBytes + it.bytes > cap || currentWords + it.words > MaxBatchWords) {
        batches := batches + [current];
        current, currentBytes, currentWords := [], 0, 0;
      }
      current := current + [it];
      currentBytes := currentBytes + it.bytes;
      currentWords := currentWords + it.words;
      if it.bytes > cap {
        warnings := warnings + [Warning(EmailThreadExceedsBatchCap, None, None, None, None)];
      }
      if it.words > MaxBatchWords {
        warnings := warnings + [Warning(EmailThreadExceedsWordCap, None, None, None, None)];
      }
    }
    assert items[..|items|] == items;
    if current != [] {
      batches := batches + [current];
    }
  }

  /** How many blocks pass the byte cap, and how many the word cap. */
  function OverBytes(cap: nat, items: seq<Item<Block>>): nat {
    if |items| == 0 then 0
    else OverBytes(cap, items[..|items| - 1]) + (if items[|items| - 1].bytes > cap then 1 else 0)
  }

  function OverWords(items: seq<Item<Block>>): nat {
    if |items| == 0 then 0
    else OverWords(items[..|items| - 1]) + (if items[|items| - 1].words > MaxBatchWords then 1 else 0)
  }

  /** One byte-cap warning per block past the byte cap, one word-cap
      warning per block past the word cap, and nothing else. */
  lemma {:induction false} CapWarningsSpec(cap: nat, items: seq<Item<Block>>)
    ensures var ws := CapWarnings(cap, items);
      && CountCode(ws, EmailThreadExceedsBatchCap) == OverBytes(cap, items)
      && CountCode(ws, EmailThreadExceedsWordCap) == OverWords(items)
      && |ws| == OverBytes(cap, items) + OverWords(items)
  {
    if |items| > 0 {
      var init := items[..|items| - 1];
      CapWarningsSpec(cap, init);
      var last := BlockWarnings(cap, items[|items| - 1]);
      CountCodeAppend(CapWarnings(cap, init), last, EmailThreadExceedsBatchCap);
      CountCodeAppend(CapWarnings(cap, init), last, EmailThreadExceedsWordCap);
      var byteWarning := Warning(EmailThreadExceedsBatchCap, None, None, None, None);
      var wordWarning := Warning(EmailThreadExceedsWordCap, None, None, None, None);
      assert CountCode([byteWarning], EmailThreadExceedsBatchCap) == 1 by { assert [byteWarning][..0] == []; }
      assert CountCode([byteWarning], EmailThreadExceedsWordCap) == 0 by { assert [byteWarning][..0] == []; }
      assert CountCode([wordWarning], EmailThreadExceedsBatchCap) == 0 by { assert [wordWarning][..0] == []; }
      assert CountCode([wordWarning], EmailThreadExceedsWordCap) == 1 by { assert [wordWarning][..0] == []; }
      assert CountCode([byteWarning, wordWarning], EmailThreadExceedsBatchCap) == 1 by {
        assert [byteWarning, wordWarning][..1] == [byteWarning];
      }
      assert CountCode([byteWarning, wordWarning], EmailThreadExceedsWordCap) == 1 by {
        assert [byteWarning, wordWarning][..1] == [byteWarning];
      }
    }
  }

  /** `{output}/{group}_{prefix}{n}.txt`. */
  function EmailBatchFile(outputPath: string, group: string, prefix: string, n: nat): string {
    PathJoin(outputPath, group + "_" + prefix + NatToString(n) + ".txt")
  }

  /** The text of batch `n`: a header with the counts, a rule, and the
      thread blocks separated by line breaks. */
  function BatchText(n: nat, group: string, batch: seq<Item<Block>>): string {
    "EMAIL BATCH " + NatToString(n) + "\nGROUP: " + group + "\nBATCH THREADS: " + NatToString(|batch|)
    + "\nBATCH WORDS: " + NatToString(SumWords(batch)) + "\n" + Rule('=', 80) + "\n\n"
    + Join(seq(|batch|, i requires 0 <= i < |batch| => batch[i].payload.text), "\n")
  }

  /** The `(thread_key, email_count)` pairs `batch_to_threads` lists. */
  function Refs(batch: seq<Item<Block>>): (refs: seq<(string, nat)>)
    ensures |refs| == |batch|
  {
    seq(|batch|, i requires 0 <= i < |batch| => (batch[i].payload.threadKey, batch[i].payload.emailCount))
  }

  /** What the batch step writes: the output files, their texts, and the
      threads each holds. */
  datatype Written = Written(outputs: seq<string>, texts: seq<string>, threadLists: seq<seq<(string, nat)>>)

  function WrittenOf(outputPath: string, group: string, prefix: string, batches: seq<seq<Item<Block>>>): Written {
    Written(seq(|batches|, n requires 0 <= n < |batches| => EmailBatchFile(outputPath, group, prefix, n + 1)),
            seq(|batches|, n requires 0 <= n < |batches| => BatchText(n + 1, group, batches[n])),
            seq(|batches|, n requires 0 <= n < |batches| => Refs(batches[n])))
  }

  function BatchesContext(group: string): string {
    "group '" + group + "' email batches"
  }

  /** The batches planned for the threads, in key order. */
  ghost function BatchPlan(threads: map<string, seq<Email>>, maxMb: nat, attachmentIndex: bool): seq<seq<Item<Block>>> {
    Plan(maxMb * 1024 * 1024, ThreadItems(threads, SortedKeysOf(threads.Keys), attachmentIndex))
  }

  /** What `_write_email_batches` records and returns: the cap warnings,
      then the written batches, or the error of the capacity check. */

  ghost function EmailBatches(threads: map<string, seq<Email>>, outputPath: string, group: string, prefix: string,
                              maxMb: nat, current: int, maxOutputs: int, attachmentIndex: bool)
    : (seq<Warning>, Result<Written>)
  {
    var cap := maxMb * 1024 * 1024;
    var items := ThreadItems(threads, SortedKeysOf(threads.Keys), attachmentIndex);
    var batches := BatchPlan(threads, maxMb, attachmentIndex);
    var check := EnsureOutputCapacity(|batches|, current, maxOutputs, BatchesContext(group));
    (CapWarnings(cap, items), if check.Err? then Err(check.message) else Ok(WrittenOf(outputPath, group, prefix, batches)))
  }

  /** `_write_email_batches`: the thread blocks in key order, the plan and
      its warnings, the capacity check against the exact number of batches,
      and one output per batch. */
  method WriteEmailBatches(threads: map<string, seq<Email>>, outputPath: string, group: string, prefix: string,
                           maxMb: nat, current: int, maxOutputs: int, attachmentIndex: bool)
    returns (warnings: seq<Warning>, r: Result<Written>)
    ensures (warnings, r) == EmailBatches(threads, outputPath, group, prefix, maxMb, current, maxOutputs, attachmentIndex)
  {
    hide ThreadItems, WrittenOf, Plan, CapWarnings;
    var cap := maxMb * 1024 * 1024;
    var keys := SortedKeys(threads.Keys);
    SortedListingUnique(keys, SortedKeysOf(threads.Keys));
    var items := RenderThreadItems(threads, keys, attachmentIndex);
    var batches;
    batches, warnings := PlanEmailBatches(cap, items);
    var check := EnsureOutputCapacity(|batches|, current, maxOutputs, BatchesContext(group));
    if check.Err? {
      return warnings, Err(check.message);
    }
    var written := WriteBatches(outputPath, group, prefix, batches);
    r := Ok(written);
  }

  /** The thread blocks of `keys`, numbered from one, with their sizes. */
  method RenderThreadItems(threads: map<string, seq<Email>>, keys: seq<string>, attachmentIndex: bool)
    returns (items: seq<Item<Block>>)
    requires forall k :: k in keys ==> k in threads
    ensures items == ThreadItems(threads, keys, attachmentIndex)
  {
    hide RenderThreadBlock, Utf8Length, CountWords;
    items := [];
    for i := 0 to |keys|
      invariant items == ThreadItems(threads, keys, attachmentIndex)[..i]
    {
      var emails := threads[keys[i]];
      var text := RenderThreadBlock(i + 1, keys[i], emails, attachmentIndex);
      items := items + [Item(Block(keys[i], |emails|, i + 1, text), Utf8Length(text), CountWords(text))];
    }
    assert items == ThreadItems(threads, keys, attachmentIndex);
  }

  /** One output per batch, numbered from one. */
  method WriteBatches(outputPath: string, group: string, prefix: string, batches: seq<seq<Item<Block>>>)
    returns (written: Written)
    ensures written == WrittenOf(outputPath, group, prefix, batches)
  {
    hide BatchText, Refs, EmailBatchFile;
    var outputs, texts, threadLists := [], [], [];
    for n := 0 to |batches|
      invariant Written(outputs, texts, threadLists) == WrittenOf(outputPath, group, prefix, batches[..n])
    {
      outputs := outputs + [EmailBatchFile(outputPath, group, prefix, n + 1)];
      texts := texts + [BatchText(n + 1, group, batches[n])];
      threadLists := threadLists + [Refs(batches[n])];
    }
    assert batches[..|batches|] == batches;
    written := Written(outputs, texts, threadLists);
  }

  /** The thread lists of the batches, one after another. */
  function ConcatRefs(lists: seq<seq<(string, nat)>>): seq<(string, nat)> {
    if |lists| == 0 then [] else ConcatRefs(lists[..|lists| - 1]) + lists[|lists| - 1]
  }

  lemma {:induction false} RefsOfBatches(outputPath: string, group: string, prefix: string, batches: seq<seq<Item<Block>>>)
    ensures ConcatRefs(WrittenOf(outputPath, group, prefix, batches).threadLists) == Refs(Flatten(batches))
  {
    if |batches| > 0 {
      var init := batches[..|batches| - 1];
      RefsOfBatches(outputPath, group, prefix, init);
      var lists := WrittenOf(outputPath, group, prefix, batches).threadLists;
      assert lists[..|batches| - 1] == WrittenOf(outputPath, group, prefix, init).threadLists;
      assert Refs(Flatten(init) + batches[|batches| - 1]) == Refs(Flatten(init)) + Refs(batches[|batches| - 1]);
    }
  }

  /** Different batch numbers give different output files. */
  lemma EmailBatchFileInjective(outputPath: string, group: string, prefix: string, n: nat, m: nat)
    requires EmailBatchFile(outputPath, group, prefix, n) == EmailBatchFile(outputPath, group, prefix, m)
    ensures n == m
  {
    var stem := group + "_" + prefix;
    var l1 := stem + NatToString(n) + ".txt";
    var l2 := stem + NatToString(m) + ".txt";
    if group == "" {
      assert l1[0] == '_' == l2[0];
    } else {
      assert l1[0] == group[0] == l2[0];
    }
    Merging.PathJoinSameStart(outputPath, l1, l2);
    assert |NatToString(n)| == |NatToString(m)|;
    assert NatToString(n) == l1[|stem|..|l1| - 4];
    assert NatToString(m) == l2[|stem|..|l2| - 4];
    NatToStringInjective(n, m);
  }

  /** Each thread's key with its number of emails, in key order. */
  function ThreadCounts(threads: map<string, seq<Email>>, keys: seq<string>): (counts: seq<(string, nat)>)
    requires forall k :: k in keys ==> k in threads
    ensures |counts| == |keys|
  {
    seq(|keys|, i requires 0 <= i < |keys| => (keys[i], |threads[keys[i]]|))
  }

  /** The batch step fails exactly when there are threads and fewer free
      output slots than planned batches; otherwise it writes the planned
      batches, and they stay within the output limit. */
  lemma WriteEmailBatchesSpec(threads: map<string, seq<Email>>, outputPath: string, group: string, prefix: string,
                              maxMb: nat, current: int, maxOutputs: int, attachmentIndex: bool)
    ensures var result := EmailBatches(threads, outputPath, group, prefix, maxMb, current, maxOutputs, attachmentIndex);
      var batches := BatchPlan(threads, maxMb, attachmentIndex);
      && (result.1.Err? <==> threads.Keys != {} && current + |batches| > maxOutputs)
      && (result.1.Ok? ==> result.1.value == WrittenOf(outputPath, group, prefix, batches))
      && (result.1.Ok? ==> threads.Keys == {} || current + |batches| <= maxOutputs)
  {
    var keys := SortedKeysOf(threads.Keys);
    var items := ThreadItems(threads, keys, attachmentIndex);
    hide ThreadItems, WrittenOf, CapWarnings;
    PlanLength(maxMb * 1024 * 1024, items);
    assert threads.Keys == {} <==> keys == [] by {
      if keys != [] { assert keys[0] in threads.Keys; }
      if threads.Keys != {} { var k :| k in threads.Keys; assert k in keys; }
    }
  }

  /** The written batches: one distinct file per batch, and together they
      list every thread exactly once, in key order, with its number of
      emails. */
  lemma WrittenSpec(threads: map<string, seq<Email>>, outputPath: string, group: string, prefix: string,
                    maxMb: nat, attachmentIndex: bool)
    ensures var batches := BatchPlan(threads, maxMb, attachmentIndex);
      var written := WrittenOf(outputPath, group, prefix, batches);
      && |written.outputs| == |batches|
      && (forall i, j :: 0 <= i < j < |written.outputs| ==> written.outputs[i] != written.outputs[j])
      && ConcatRefs(written.threadLists) == ThreadCounts(threads, SortedKeysOf(threads.Keys))
  {
    var keys := SortedKeysOf(threads.Keys);
    var items := ThreadItems(threads, keys, attachmentIndex);
    var batches := BatchPlan(threads, maxMb, attachmentIndex);
    var written := WrittenOf(outputPath, group, prefix, batches);
    forall i, j | 0 <= i < j < |written.outputs| ensures written.outputs[i] != written.outputs[j] {
      if written.outputs[i] == written.outputs[j] {
        EmailBatchFileInjective(outputPath, group, prefix, i + 1, j + 1);
      }
    }
    PlanPartitions(maxMb * 1024 * 1024, items);
    RefsOfBatches(outputPath, group, prefix, batches);
    hide RenderThreadBlock, Utf8Length, CountWords;
    assert Refs(items) == ThreadCounts(threads, keys);
  }
}
