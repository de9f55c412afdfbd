/** The incremental transcript cache: a byte offset and a summary per file, kept up to date with a
    growing file, against the full scan of the same file. */
module TranscriptCache {
  import opened Bits
  import opened Options
  import opened Transcript

  datatype Stat = Stat(inode: nat, size: nat, mtime: int)

  datatype Entry = Entry(inode: nat, offset: nat, mtime: int, summary: Summary)

  /** What a caller asks for; `sessionId` is empty when none is given. */
  datatype Query = Query(sessionId: string, phases: set<string>, fallbackToAny: bool)

  datatype Answer = Answer(result: Result, mtime: int)

  predicate NeedsFullScan(entry: Option<Entry>, stat: Stat) {
    || entry.None?
    || entry.value.inode != stat.inode
    || stat.size < entry.value.offset
    || (stat.size == entry.value.offset && stat.mtime != entry.value.mtime)
  }

  /** What is left to read behind an offset, which may lie past the end. */
  function From(content: Bytes, offset: nat): Bytes {
    if offset <= |content| then content[offset..] else []
  }

  function Resume(entry: Option<Entry>, sessionId: string): Summary {
    if entry.None? then Start(sessionId)
    else if sessionId == "" then entry.value.summary
    else entry.value.summary.(sessionId := sessionId)
  }

  /** The entry after reading the complete lines behind `offset` on top of `summary`. */
  function ReadOn(content: Bytes, stat: Stat, offset: nat, summary: Summary, phases: set<string>, parse: Parser):
    Entry
  {
    var rest := From(content, offset);
    Entry(stat.inode, offset + CompleteLength(rest), stat.mtime, FoldAll(summary, Lines(rest), parse, phases))
  }

  function Scanned(
      content: Bytes, stat: Stat, sessionId: string, phases: set<string>, entry: Option<Entry>, parse: Parser): Entry
  {
    ReadOn(content, stat, if entry.Some? then entry.value.offset else 0, Resume(entry, sessionId), phases, parse)
  }

  /** Reading on from `offset` with `summary` leads to `goal`. */
  ghost predicate LeadsTo(
      goal: Entry, content: Bytes, stat: Stat, offset: nat, summary: Summary, phases: set<string>, parse: Parser)
  {
    goal == ReadOn(content, stat, offset, summary, phases, parse)
  }

  lemma ScanBegins(
      content: Bytes, stat: Stat, sessionId: string, phases: set<string>, entry: Option<Entry>, parse: Parser)
    ensures LeadsTo(Scanned(content, stat, sessionId, phases, entry, parse), content, stat,
      if entry.Some? then entry.value.offset else 0, Resume(entry, sessionId), phases, parse)
  {
  }

  lemma ReadsLine(
      goal: Entry, content: Bytes, stat: Stat, offset: nat, line: Bytes, summary: Summary, next: Summary,
      phases: set<string>, parse: Parser)
    requires LeadsTo(goal, content, stat, offset, summary, phases, parse)
    requires var rest := From(content, offset);
      rest != [] && line == rest[..LineLength(rest)] && Terminated(line)
    requires next == Fold(summary, parse(line), phases)
    ensures LeadsTo(goal, content, stat, offset + |line|, next, phases, parse)
  {
    var rest := From(content, offset);
    var tail := rest[|line|..];
    assert From(content, offset + |line|) == tail;
    assert Lines(rest) == [line] + Lines(tail);
    assert ([line] + Lines(tail))[1..] == Lines(tail);
  }

  lemma NothingToRead(
      goal: Entry, content: Bytes, stat: Stat, offset: nat, summary: Summary, phases: set<string>, parse: Parser)
    requires LeadsTo(goal, content, stat, offset, summary, phases, parse)
    requires var rest := From(content, offset); rest == [] || !Terminated(rest[..LineLength(rest)])
    ensures goal == Entry(stat.inode, offset, stat.mtime, summary)
  {
  }

  /** The entry after one `latest` call that saw `stat` first and then read `content`. */
  function Updated(entry: Option<Entry>, stat: Stat, content: Bytes, q: Query, parse: Parser): Entry {
    if NeedsFullScan(entry, stat) then Scanned(content, stat, q.sessionId, q.phases, None, parse)
    else if stat.size > entry.value.offset then
      var sessionId := if q.sessionId != "" then q.sessionId else entry.value.summary.sessionId;
      Scanned(content, stat, sessionId, q.phases, entry, parse)
    else entry.value.(mtime := stat.mtime)
  }

  function AnswerOf(entry: Entry, stat: Stat, q: Query): Option<Answer> {
    match Selected(entry.summary, q.fallbackToAny)
    case None => None
    case Some(result) =>
      var sessionId := if q.sessionId != "" then q.sessionId else result.sessionId;
      Some(Answer(result.(sessionId := sessionId), stat.mtime))
  }

  /** One complete record of `_scan_transcript_tail`. */
  method ScanRecord(s: Summary, record: Record, phases: set<string>) returns (next: Summary)
    ensures next == Fold(s, record, phases)
  {
    next := s.(lineIndex := s.lineIndex + 1);
    match record {
      case Meta(id) =>
        if next.sessionId == "" {
          next := next.(sessionId := id);
        }
      case User(text) =>
        next := next.(prompt := text);
      case Assistant(text, phase) =>
        var result := Result(text, next.sessionId, phase, next.lineIndex, next.prompt);
        if phase in phases {
          next := next.(preferred := Some(result));
        } else {
          next := next.(fallback := Some(result));
        }
      case Other =>
    }
  }

  /** `_scan_transcript_tail`: read line by line from the offset on, stop at an unfinished line. */
  method ScanTranscriptTail(
      content: Bytes, stat: Stat, sessionId: string, phases: set<string>, entry: Option<Entry>, parse: Parser)
    returns (scanned: Entry)
    ensures scanned == Scanned(content, stat, sessionId, phases, entry, parse)
  {
    hide FoldAll, Lines, CompleteLength, LineLength, Fold, LeadsTo, Scanned, ReadOn;
    var offset: nat := if entry.Some? then entry.value.offset else 0;
    var summary := Resume(entry, sessionId);
    ghost var goal := Scanned(content, stat, sessionId, phases, entry, parse);
    ScanBegins(content, stat, sessionId, phases, entry, parse);
    while true
      invariant LeadsTo(goal, content, stat, offset, summary, phases, parse)
      decreases |From(content, offset)|
    {
      var rest := From(content, offset);
      var rawLine := rest[..LineLength(rest)];
      if rawLine == [] {
        break;
      }
      if rawLine[|rawLine| - 1] != NEWLINE {
        break;
      }
      var next := ScanRecord(summary, parse(rawLine), phases);
      ReadsLine(goal, content, stat, offset, rawLine, summary, next, phases, parse);
      summary := next;
      offset := offset + |rawLine|;
    }
    NothingToRead(goal, content, stat, offset, summary, phases, parse);
    scanned := Entry(stat.inode, offset, stat.mtime, summary);
  }

  class CodexTranscriptTailCache {
    var entries: map<string, Entry>

    constructor ()
      ensures entries == map[]
    {
      entries := map[];
    }

    method Clear()
      modifies this
      ensures entries == map[]
    {
      entries := map[];
    }

    function EntryOf(path: string): Option<Entry>
      reads this
    {
      if path in entries then Some(entries[path]) else None
    }

    /** One `latest` call. The file is looked at twice: `stat` first, `content` later; a file that
        is not there leaves the cache alone. */
    method Latest(path: string, stat: Option<Stat>, content: Bytes, q: Query, parse: Parser)
      returns (answer: Option<Answer>)
      modifies this
      ensures stat.None? ==> answer == None && entries == old(entries)
      ensures stat.Some? ==>
        var entry := Updated(old(EntryOf(path)), stat.value, content, q, parse);
        entries == old(entries)[path := entry] && answer == AnswerOf(entry, stat.value, q)
    {
      if stat.None? {
        return None;
      }
      var cached := EntryOf(path);
      var entry: Entry;
      if NeedsFullScan(cached, stat.value) {
        entry := ScanTranscriptTail(content, stat.value, q.sessionId, q.phases, None, parse);
      } else if stat.value.size > cached.value.offset {
        var sessionId := if q.sessionId != "" then q.sessionId else cached.value.summary.sessionId;
        entry := ScanTranscriptTail(content, stat.value, sessionId, q.phases, cached, parse);
      } else {
        entry := cached.value.(mtime := stat.value.mtime);
      }
      entries := entries[path := entry];
      var result := if entry.summary.preferred.Some? then entry.summary.preferred
                    else if q.fallbackToAny then entry.summary.fallback else None;
      if result.None? {
        return None;
      }
      var sessionId := if q.sessionId != "" then q.sessionId else result.value.sessionId;
      answer := Some(Answer(result.value.(sessionId := sessionId), stat.value.mtime));
    }
  }

  // ----- The stored state is the fold of exactly the lines before the offset -----

  /** The offset is a line boundary of the file, and the summary is that of the lines before it. */
  ghost predicate Consistent(entry: Entry, content: Bytes, q: Query, parse: Parser) {
    && entry.offset <= |content|
    && AtBoundary(content[..entry.offset])
    && entry.summary == FoldAll(Start(q.sessionId), Lines(content[..entry.offset]), parse, q.phases)
  }

  lemma FreshScanIsConsistent(content: Bytes, stat: Stat, q: Query, parse: Parser)
    ensures var entry := Scanned(content, stat, q.sessionId, q.phases, None, parse);
      Consistent(entry, content, q, parse) && entry.offset == CompleteLength(content)
  {
    CompletePart(content);
    assert From(content, 0) == content;
  }

  lemma TailScanIsConsistent(entry: Entry, content: Bytes, stat: Stat, sessionId: string, q: Query, parse: Parser)
    requires Consistent(entry, content, q, parse)
    requires sessionId == (if q.sessionId != "" then q.sessionId else entry.summary.sessionId)
    ensures var scanned := Scanned(content, stat, sessionId, q.phases, Some(entry), parse);
      Consistent(scanned, content, q, parse) && scanned.offset == CompleteLength(content)
  {
    if q.sessionId != "" {
      GivenSessionIdIsKept(Start(q.sessionId), q.sessionId, Lines(content[..entry.offset]), parse, q.phases);
    }
    assert Resume(Some(entry), sessionId) == entry.summary;
    ReadOnIsConsistent(entry, content, stat, q, parse);
  }

  lemma ReadOnIsConsistent(entry: Entry, content: Bytes, stat: Stat, q: Query, parse: Parser)
    requires Consistent(entry, content, q, parse)
    ensures var scanned := ReadOn(content, stat, entry.offset, entry.summary, q.phases, parse);
      Consistent(scanned, content, q, parse) && scanned.offset == CompleteLength(content)
  {
    var done, rest := content[..entry.offset], content[entry.offset..];
    assert content == done + rest;
    LinesOfConcat(done, rest);
    FoldAllConcat(Start(q.sessionId), Lines(done), Lines(rest), parse, q.phases);
    assert From(content, entry.offset) == rest;
    CompleteFoldIsConsistent(content, ReadOn(content, stat, entry.offset, entry.summary, q.phases, parse), q, parse);
  }

  lemma CompleteFoldIsConsistent(content: Bytes, entry: Entry, q: Query, parse: Parser)
    requires entry.offset == CompleteLength(content)
    requires entry.summary == FoldAll(Start(q.sessionId), Lines(content), parse, q.phases)
    ensures Consistent(entry, content, q, parse)
  {
    CompletePart(content);
  }

  lemma ConsistentAfterAppend(entry: Entry, content: Bytes, more: Bytes, q: Query, parse: Parser)
    requires Consistent(entry, content, q, parse)
    ensures Consistent(entry, content + more, q, parse)
  {
    assert (content + more)[..entry.offset] == content[..entry.offset];
  }

  /** A consistent entry answers like a full scan of the lines before its offset. */
  lemma ConsistentAnswers(entry: Entry, content: Bytes, stat: Stat, q: Query, parse: Parser)
    requires Consistent(entry, content, q, parse)
    ensures AnswerOf(entry, stat, q) == Expected(content[..entry.offset], stat.mtime, q, parse)
  {
    if q.sessionId != "" {
      GivenSessionIdIsKept(Start(q.sessionId), q.sessionId, Lines(content[..entry.offset]), parse, q.phases);
    }
  }

  /** The answer of a scan of the complete lines of `content` from the beginning. */
  function Expected(content: Bytes, mtime: int, q: Query, parse: Parser): Option<Answer> {
    match Selected(FoldAll(Start(q.sessionId), Lines(content), parse, q.phases), q.fallbackToAny)
    case None => None
    case Some(result) => Some(Answer(result, mtime))
  }

  /** The answer of the full scan, with the modification time it is reported with. */
  function FullAnswer(content: Bytes, mtime: int, q: Query, parse: Parser): Option<Answer> {
    match FullScan(content, q.sessionId, q.phases, q.fallbackToAny, parse)
    case None => None
    case Some(result) => Some(Answer(result, mtime))
  }

  /** The unfinished last line holds a result that would be selected. */
  predicate UnfinishedCounts(content: Bytes, q: Query, parse: Parser) {
    var rest, done := content[CompleteLength(content)..], FoldAll(Start(q.sessionId), Lines(content), parse, q.phases);
    rest != [] && Counts(done, parse(rest), q.phases, q.fallbackToAny)
  }

  /** What an answer of the cache is made of. */
  ghost predicate CacheAnswers(answer: Option<Answer>, lines: seq<Bytes>, mtime: int, q: Query, parse: Parser) {
    && (answer.Some? ==> answer.value.mtime == mtime)
    && Answers(if answer.Some? then Some(answer.value.result) else None,
               q.sessionId, lines, q.phases, q.fallbackToAny, parse)
  }

  lemma ExpectedAnswers(content: Bytes, mtime: int, q: Query, parse: Parser)
    ensures CacheAnswers(Expected(content, mtime, q, parse), Lines(content), mtime, q, parse)
    ensures CacheAnswers(FullAnswer(content, mtime, q, parse), TextLines(content), mtime, q, parse)
  {
    hide Answers, FoldAll, Lines, TextLines;
    SelectedAnswers(q.sessionId, Lines(content), parse, q.phases, q.fallbackToAny);
    SelectedAnswers(q.sessionId, TextLines(content), parse, q.phases, q.fallbackToAny);
  }

  /** For a text file, the complete lines give the answer of the full scan exactly if the unfinished last
      line does not count. */
  lemma ExpectedIsFullScanIff(content: Bytes, mtime: int, q: Query, parse: Parser)
    requires PairedReturns(content)
    ensures Expected(content, mtime, q, parse) == FullAnswer(content, mtime, q, parse) <==>
      !UnfinishedCounts(content, q, parse)
  {
    hide FoldAll, Fold, Lines, TextLines, CompleteLength, Counts;
    var rest, done := content[CompleteLength(content)..], FoldAll(Start(q.sessionId), Lines(content), parse, q.phases);
    TextLinesPlain(content);
    FoldAllIsNumbered(Start(q.sessionId), Lines(content), parse, q.phases);
    if rest == [] {
      assert Lines(content) + [] == Lines(content);
    } else {
      FoldAllConcat(Start(q.sessionId), Lines(content), [rest], parse, q.phases);
      FoldOne(done, rest, parse, q.phases);
      SelectedChangesIff(done, parse(rest), q.phases, q.fallbackToAny);
    }
  }

  /** One call on a file that grows from `before`, as the `stat` saw it, to `after`, as it was read.
      The new entry is consistent, and the answer is that of a scan of the complete lines of one
      state of the file in between: of `after` if anything was read, of `before` otherwise. */
  lemma CallIsExact(entry: Option<Entry>, stat: Stat, before: Bytes, after: Bytes, q: Query, parse: Parser)
    requires before <= after && stat.size == |before|
    requires entry.Some? && entry.value.inode == stat.inode ==> Consistent(entry.value, after, q, parse)
    ensures var next := Updated(entry, stat, after, q, parse);
      && Consistent(next, after, q, parse)
      && next.inode == stat.inode
      && next.summary.lineIndex + 1 == |Lines(after[..next.offset])|
      && next.offset in {|before|, CompleteLength(after)}
      && AnswerOf(next, stat, q) == Expected(after[..next.offset], stat.mtime, q, parse)
  {
    var next := Updated(entry, stat, after, q, parse);
    if NeedsFullScan(entry, stat) {
      FreshScanIsConsistent(after, stat, q, parse);
    } else if stat.size > entry.value.offset {
      var sessionId := if q.sessionId != "" then q.sessionId else entry.value.summary.sessionId;
      TailScanIsConsistent(entry.value, after, stat, sessionId, q, parse);
    }
    ConsistentAnswers(next, after, stat, q, parse);
    FoldCounts(Start(q.sessionId), Lines(after[..next.offset]), parse, q.phases);
  }

  // ----- When the file is read again, read on, and left alone -----

  /** A file with another inode, one that has become shorter than what was read, and one of that very length that
      has been touched are read from the beginning; a longer one is read on from where the last scan stopped; and
      otherwise only the time is new. */
  lemma ReadAgainOrOn(entry: Entry, stat: Stat, content: Bytes, q: Query, parse: Parser)
    requires stat.size > entry.offset ==> entry.offset <= |content|
    ensures var next := Updated(Some(entry), stat, content, q, parse);
      var known := if q.sessionId != "" then q.sessionId else entry.summary.sessionId;
      && next.inode == stat.inode && next.mtime == stat.mtime
      && (stat.inode == entry.inode && stat.size == entry.offset && stat.mtime == entry.mtime ==>
            next.summary == entry.summary && next.offset == entry.offset)
      && (stat.inode == entry.inode && stat.size > entry.offset ==>
            next.offset == entry.offset + CompleteLength(content[entry.offset..])
            && next.summary ==
                 FoldAll(entry.summary.(sessionId := known), Lines(content[entry.offset..]), parse, q.phases))
      && (stat.inode != entry.inode || stat.size < entry.offset
          || (stat.size == entry.offset && stat.mtime != entry.mtime)
          ==> next.offset == CompleteLength(content)
              && next.summary == FoldAll(Start(q.sessionId), Lines(content), parse, q.phases))
  {
    hide FoldAll, Lines, CompleteLength;
    assert content[0..] == content;
  }

  // ----- Whole runs -----

  /** A transcript file: appended to, or replaced by a file with a new inode. */
  datatype File = File(inode: nat, content: Bytes, mtime: int)

  /** What may happen, in any order. A call takes the file's status in `Look`, before the lock of the cache; later,
      under the lock, `Finish` reads the file and updates the entry with that status. In between the file may
      change, and other calls may run. */
  datatype Event =
    | Append(more: Bytes, mtime: int)
    | Replace(content: Bytes, mtime: int)
    | Look
    | Finish(call: nat)

  /** `seen` are the statuses taken so far. */
  datatype World = World(file: File, cached: Option<Entry>, seen: seq<Stat>)

  function StatOf(file: File): Stat { Stat(file.inode, |file.content|, file.mtime) }

  function Next(w: World, e: Event, q: Query, parse: Parser): World {
    match e
    case Append(more, mtime) => w.(file := File(w.file.inode, w.file.content + more, mtime))
    case Replace(content, mtime) => w.(file := File(w.file.inode + 1, content, mtime))
    case Look => w.(seen := w.seen + [StatOf(w.file)])
    case Finish(call) =>
      if call < |w.seen| then w.(cached := Some(Updated(w.cached, w.seen[call], w.file.content, q, parse))) else w
  }

  function AfterRun(w: World, events: seq<Event>, q: Query, parse: Parser): World
    decreases |events|
  {
    if events == [] then w else AfterRun(Next(w, events[0], q, parse), events[1..], q, parse)
  }

  function Fresh(file: File): World { World(file, None, []) }

  /** The status is of a file that is gone, or of an earlier state of the file. */
  predicate SeenBefore(file: File, stat: Stat) {
    stat.inode <= file.inode && (stat.inode == file.inode ==> stat.size <= |file.content|)
  }

  /** The cache is empty, belongs to a file that is gone, or is consistent with the file. */
  ghost predicate CacheOk(w: World, q: Query, parse: Parser) {
    && (forall i :: 0 <= i < |w.seen| ==> SeenBefore(w.file, w.seen[i]))
    && (w.cached.Some? ==>
          && w.cached.value.inode <= w.file.inode
          && (w.cached.value.inode == w.file.inode ==> Consistent(w.cached.value, w.file.content, q, parse)))
  }

  lemma EventKeepsCacheOk(w: World, e: Event, q: Query, parse: Parser)
    requires CacheOk(w, q, parse)
    ensures CacheOk(Next(w, e, q, parse), q, parse)
  {
    hide Consistent, Updated;
    match e
    case Append(more, _) =>
      if w.cached.Some? && w.cached.value.inode == w.file.inode {
        ConsistentAfterAppend(w.cached.value, w.file.content, more, q, parse);
      }
    case Replace(_, _) =>
    case Look =>
    case Finish(call) =>
      if call < |w.seen| {
        UpdateStampsInode(w.cached, w.seen[call], w.file.content, q, parse);
        if w.seen[call].inode == w.file.inode {
          FinishedIsExact(w, w.seen[call], q, parse);
        }
      }
  }

  /** An entry carries the inode of the status, so one read from another file is never taken up again. */
  lemma UpdateStampsInode(entry: Option<Entry>, stat: Stat, content: Bytes, q: Query, parse: Parser)
    ensures Updated(entry, stat, content, q, parse).inode == stat.inode
  {
  }

  /** Whatever has happened since a call took its status, as long as the file is the same one: the entry it
      leaves is consistent, and it answers like a scan of the complete lines of one state of the file. */
  lemma FinishedIsExact(w: World, stat: Stat, q: Query, parse: Parser)
    requires CacheOk(w, q, parse) && SeenBefore(w.file, stat) && stat.inode == w.file.inode
    ensures var next := Updated(w.cached, stat, w.file.content, q, parse);
      && Consistent(next, w.file.content, q, parse) && next.inode == w.file.inode
      && next.summary.lineIndex + 1 == |Lines(w.file.content[..next.offset])|
      && next.offset in {stat.size, CompleteLength(w.file.content)}
      && AnswerOf(next, stat, q) == Expected(w.file.content[..next.offset], stat.mtime, q, parse)
  {
    CallIsExact(w.cached, stat, w.file.content[..stat.size], w.file.content, q, parse);
  }

  lemma {:induction false} RunKeepsCacheOk(w: World, events: seq<Event>, q: Query, parse: Parser)
    requires CacheOk(w, q, parse)
    ensures CacheOk(AfterRun(w, events, q, parse), q, parse)
    decreases |events|
  {
    hide CacheOk;
    if events != [] {
      EventKeepsCacheOk(w, events[0], q, parse);
      RunKeepsCacheOk(Next(w, events[0], q, parse), events[1..], q, parse);
    }
  }

  /** Under any interleaving of appends, replacements and overlapping calls with one query, starting from an
      empty cache, the stored entry is the fold of exactly the complete lines before its offset; and any call
      under way that looked at the same file will answer exactly, as above. */
  lemma CacheIsConsistentAfterAnyRun(file: File, events: seq<Event>, q: Query, parse: Parser)
    ensures var w := AfterRun(Fresh(file), events, q, parse);
      && (w.cached.Some? && w.cached.value.inode == w.file.inode ==>
            Consistent(w.cached.value, w.file.content, q, parse))
      && forall i :: 0 <= i < |w.seen| && w.seen[i].inode == w.file.inode ==>
           var next := Updated(w.cached, w.seen[i], w.file.content, q, parse);
           && Consistent(next, w.file.content, q, parse)
           && next.offset in {w.seen[i].size, CompleteLength(w.file.content)}
           && AnswerOf(next, w.seen[i], q) == Expected(w.file.content[..next.offset], w.seen[i].mtime, q, parse)
           && CacheAnswers(AnswerOf(next, w.seen[i], q), Lines(w.file.content[..next.offset]), w.seen[i].mtime, q,
                           parse)
  {
    hide Updated, Consistent, AnswerOf, Expected, AfterRun, CacheAnswers, Lines;
    RunKeepsCacheOk(Fresh(file), events, q, parse);
    var w := AfterRun(Fresh(file), events, q, parse);
    forall i | 0 <= i < |w.seen| && w.seen[i].inode == w.file.inode
      ensures var next := Updated(w.cached, w.seen[i], w.file.content, q, parse);
        && Consistent(next, w.file.content, q, parse)
        && next.offset in {w.seen[i].size, CompleteLength(w.file.content)}
        && AnswerOf(next, w.seen[i], q) == Expected(w.file.content[..next.offset], w.seen[i].mtime, q, parse)
        && CacheAnswers(AnswerOf(next, w.seen[i], q), Lines(w.file.content[..next.offset]), w.seen[i].mtime, q, parse)
    {
      FinishedIsExact(w, w.seen[i], q, parse);
      var next := Updated(w.cached, w.seen[i], w.file.content, q, parse);
      ConsistentInside(next, w.file.content, q, parse);
      ExpectedAnswers(w.file.content[..next.offset], w.seen[i].mtime, q, parse);
    }
  }

  lemma ConsistentInside(entry: Entry, content: Bytes, q: Query, parse: Parser)
    requires Consistent(entry, content, q, parse)
    ensures entry.offset <= |content|
  {
  }

  /** After any such run, a call on a text file that has not changed since its status was taken answers what the
      full scan of the whole file answers, exactly if the unfinished last line does not count. */
  lemma CachedAnswerIsFullScanIff(file: File, events: seq<Event>, q: Query, parse: Parser)
    requires PairedReturns(AfterRun(Fresh(file), events, q, parse).file.content)
    ensures var w := AfterRun(Fresh(file), events, q, parse); var content := w.file.content;
      var entry := Updated(w.cached, StatOf(w.file), content, q, parse);
      AnswerOf(entry, StatOf(w.file), q) == FullAnswer(content, w.file.mtime, q, parse) <==>
        !UnfinishedCounts(content, q, parse)
  {
    hide Updated, AnswerOf, Expected, FullAnswer, UnfinishedCounts, AfterRun, AtBoundary, CompleteLength, FoldAll;
    var w := AfterRun(Fresh(file), events, q, parse);
    RunKeepsCacheOk(Fresh(file), events, q, parse);
    FinishedIsExact(w, StatOf(w.file), q, parse);
    var entry := Updated(w.cached, StatOf(w.file), w.file.content, q, parse);
    SameExpected(w.file.content, entry, w.file.mtime, q, parse);
    ExpectedIsFullScanIff(w.file.content, w.file.mtime, q, parse);
  }

  lemma SameExpected(content: Bytes, entry: Entry, mtime: int, q: Query, parse: Parser)
    requires Consistent(entry, content, q, parse) && entry.offset in {|content|, CompleteLength(content)}
    ensures Expected(content[..entry.offset], mtime, q, parse) == Expected(content, mtime, q, parse)
  {
    CompletePart(content);
    assert content[..|content|] == content;
  }

  // ----- Where the two differ -----

  /** A parser for two-byte lines: the byte in front of the newline is a phase of one letter. */
  function SampleParser(line: Bytes): Record {
    if line == [] then Other else Assistant("text", if line[0] == 65 then "A" else "B")
  }

  /** A file whose unfinished last line counts. */
  lemma UnfinishedLineDiffers()
    ensures PairedReturns([65]) && UnfinishedCounts([65], Query("", {"A"}, true), SampleParser)
  {
    var content: Bytes := [65];
    assert LineLength(content) == 1 + LineLength([]) == 1;
    assert content[..1] == content && content[0..] == content && !Terminated(content);
  }

  // ----- The cache is not keyed by the phases -----

  /** What a second question is answered while the file stands still, and what a full scan answers. */
  predicate SecondIsFullScan(content: Bytes, mtime: int, q: Query, other: Query, parse: Parser) {
    var stat := Stat(1, |content|, mtime);
    var entry := Updated(None, stat, content, q, parse);
    AnswerOf(Updated(Some(entry), stat, content, other, parse), stat, other) == FullAnswer(content, mtime, other, parse)
  }

  lemma NothingNewToRead(content: Bytes, mtime: int, q: Query, other: Query, parse: Parser)
    requires q.sessionId == other.sessionId
    ensures var stat := Stat(1, |content|, mtime);
      var entry := Updated(None, stat, content, q, parse);
      && entry.summary == FoldAll(Start(q.sessionId), Lines(content), parse, q.phases)
      && Updated(Some(entry), stat, content, other, parse).summary == entry.summary
  {
    hide FoldAll, Lines, CompleteLength, AtBoundary;
    var stat := Stat(1, |content|, mtime);
    FreshScanIsConsistent(content, stat, q, parse);
    var entry := Updated(None, stat, content, q, parse);
    NoMoreLines(content);
    FoldNothing(entry.summary, parse, other.phases);
    CompletePart(content);
    if q.sessionId != "" {
      GivenSessionIdIsKept(Start(q.sessionId), q.sessionId, Lines(content), parse, q.phases);
    }
  }

  lemma NoMoreLines(content: Bytes)
    ensures Lines(content[CompleteLength(content)..]) == []
  {
    hide Lines, CompleteLength, AtBoundary;
    var done, rest := content[..CompleteLength(content)], content[CompleteLength(content)..];
    CompletePart(content);
    assert content == done + rest;
    LinesOfConcat(done, rest);
    assert |Lines(content)| == |Lines(done)| + |Lines(rest)|;
  }

  lemma AnswerIsPreferred(content: Bytes, lines: seq<Bytes>, mtime: int, q: Query, parse: Parser)
    requires !q.fallbackToAny && lines == TextLines(content)
    ensures FullAnswer(content, mtime, q, parse) ==
      match FoldAll(Start(q.sessionId), lines, parse, q.phases).preferred
      case None => None
      case Some(result) => Some(Answer(result, mtime))
  {
  }

  /** Asked again with other phases while the file stands still, the cache answers as the full scan exactly if
      the last answer of the first phases, among the complete lines, is that of the second, among all. */
  lemma SecondIsFullScanIff(content: Bytes, mtime: int, q: Query, other: Query, parse: Parser)
    requires PairedReturns(content) && q.sessionId == other.sessionId && !other.fallbackToAny
    ensures SecondIsFullScan(content, mtime, q, other, parse) <==>
      LastAnswer(Lines(content), parse, q.phases) == LastAnswer(TextLines(content), parse, other.phases)
  {
    hide FoldAll, Lines, TextLines, CompleteLength, Updated, LastAnswer;
    var id, lines, rest := q.sessionId, Lines(content), content[CompleteLength(content)..];
    NothingNewToRead(content, mtime, q, other, parse);
    AnswerIsPreferred(content, TextLines(content), mtime, other, parse);
    TextLinesPlain(content);
    StampedAnswer(id, lines, q.phases, parse);
    if rest == [] {
      assert lines + [] == lines;
      PreferredAgreesIff(id, lines, parse, q.phases, other.phases);
    } else {
      PreferredWithRest(id, lines, rest, parse, q.phases, other.phases);
    }
  }

  lemma StampedAnswer(id: string, lines: seq<Bytes>, phases: set<string>, parse: Parser)
    ensures var preferred := FoldAll(Start(id), lines, parse, phases).preferred;
      id != "" && preferred.Some? ==> preferred.value.sessionId == id
  {
    if id != "" {
      GivenSessionIdIsKept(Start(id), id, lines, parse, phases);
    }
  }

  lemma PreferredWithRest(
      id: string, lines: seq<Bytes>, rest: Bytes, parse: Parser, a: set<string>, b: set<string>)
    ensures FoldAll(Start(id), lines, parse, a).preferred == FoldAll(Start(id), lines + [rest], parse, b).preferred
      <==> LastAnswer(lines, parse, a) == LastAnswer(lines + [rest], parse, b)
  {
    hide FoldAll;
    var all := lines + [rest];
    assert all[..|all| - 1] == lines && all[|all| - 1] == rest;
    FoldLast(Start(id), all, parse, b);
    PreferredIsLast(id, lines, parse, a);
    PreferredIsLast(id, all, parse, b);
    PreferredAgreesIff(id, lines, parse, a, b);
  }

  /** One complete line of a text file. */
  ghost predicate IsLine(line: Bytes) {
    line != [] && LineLength(line) == |line| && Terminated(line) && PairedReturns(line)
  }

  /** The two sets agree on every phase that the parser finds in a line. */
  ghost predicate SamePhases(parse: Parser, a: set<string>, b: set<string>) {
    forall line :: IsLine(line) ==> (AnswersIn(parse(line), a) <==> AnswersIn(parse(line), b))
  }

  /** So the cache may be asked with other phases, whatever finished file it has read, exactly if the two sets of
      phases agree on the phases that there are. */
  lemma PhasesAreNotPartOfTheKey(mtime: int, q: Query, other: Query, parse: Parser)
    requires q.sessionId == other.sessionId && !other.fallbackToAny
    ensures (forall content :: PairedReturns(content) && AtBoundary(content) ==>
               SecondIsFullScan(content, mtime, q, other, parse))
      <==> SamePhases(parse, q.phases, other.phases)
  {
    hide SecondIsFullScan, AtBoundary, IsLine, AnswersIn, LastAnswer, Lines, TextLines;
    if SamePhases(parse, q.phases, other.phases) {
      forall content | PairedReturns(content) && AtBoundary(content)
        ensures SecondIsFullScan(content, mtime, q, other, parse)
      {
        FinishedLines(content);
        LastAnswersAgree(Lines(content), parse, q.phases, other.phases);
        SecondIsFullScanIff(content, mtime, q, other, parse);
      }
    } else {
      var line :| IsLine(line) && (AnswersIn(parse(line), q.phases) != AnswersIn(parse(line), other.phases));
      OneLineFile(line, mtime, q, other, parse);
    }
  }

  lemma {:induction false} LinesAreLines(content: Bytes)
    requires PairedReturns(content)
    ensures forall i :: 0 <= i < |Lines(content)| ==> IsLine(Lines(content)[i])
    decreases |content|
  {
    if content != [] {
      var n := LineLength(content);
      if Terminated(content[..n]) {
        LineLengthOfLine(content);
        assert PairedReturns(content[n..]);
        assert IsLine(content[..n]);
        LinesAreLines(content[n..]);
      }
    }
  }

  lemma FinishedLines(content: Bytes)
    requires PairedReturns(content) && AtBoundary(content)
    ensures TextLines(content) == Lines(content)
    ensures forall i :: 0 <= i < |Lines(content)| ==> IsLine(Lines(content)[i])
  {
    TextLinesPlain(content);
    assert Lines(content) + [] == Lines(content);
    LinesAreLines(content);
  }

  lemma {:induction false} LastAnswersAgree(lines: seq<Bytes>, parse: Parser, a: set<string>, b: set<string>)
    requires SamePhases(parse, a, b) && forall i :: 0 <= i < |lines| ==> IsLine(lines[i])
    ensures LastAnswer(lines, parse, a) == LastAnswer(lines, parse, b)
    decreases |lines|
  {
    hide IsLine, AnswersIn;
    if lines != [] {
      assert IsLine(lines[|lines| - 1]);
      LastAnswersAgree(lines[..|lines| - 1], parse, a, b);
    }
  }

  /** The shortest witness: a file with one line, whose phase is in one of the sets only. */
  lemma OneLineFile(line: Bytes, mtime: int, q: Query, other: Query, parse: Parser)
    requires IsLine(line) && AnswersIn(parse(line), q.phases) != AnswersIn(parse(line), other.phases)
    requires q.sessionId == other.sessionId && !other.fallbackToAny
    ensures PairedReturns(line) && AtBoundary(line) && !SecondIsFullScan(line, mtime, q, other, parse)
  {
    hide SecondIsFullScan, TextLines, PairedReturns;
    assert line[..|line|] == line;
    OneLine(line);
    FinishedLines(line);
    assert [line][..0] == [];
    SecondIsFullScanIff(line, mtime, q, other, parse);
  }
}
