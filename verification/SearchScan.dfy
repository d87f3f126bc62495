/**
 The content search scanner as functions on its state. Regular expressions are not modelled: a line comes
 with the matches of every query, and the byte size of a result item is a parameter.
 */
module SearchScan {
  import opened Options

  datatype Found = Found(start: nat, end: nat)

  /** A line of a file and, query by query, its matches in order. */
  datatype Line = Line(text: string, found: seq<seq<Found>>)

  datatype File = File(path: string, lines: seq<Line>)

  /** Where a match was found; this identifies it among all results. */
  datatype Core = Core(path: string, line: nat, query: nat, found: Found)

  datatype Item = Item(core: Core, before: Option<seq<string>>, after: Option<seq<string>>,
                       contextTruncated: bool, contextOmitted: bool)

  datatype FileRecord = FileRecord(path: string, line: nat, query: nat)

  /** The limits of a search, the size of an item and the cut of a context line. */
  datatype Limits = Limits(
    maxResults: nat,
    cursor: nat,
    contextLines: nat,
    maxMatchesPerFile: nat,
    filesOnly: bool,
    countOnly: bool,
    calculateTotal: bool,
    exactTotalFastTail: bool,
    responseBytesLimit: nat,
    size: Item -> nat,
    bound: string -> (string, bool))

  datatype State = State(
    matches: seq<Item>,
    files: seq<FileRecord>,
    queryCounts: seq<nat>,
    responseBytesEstimate: nat,
    responseLimitReached: bool,
    matchedFiles: nat,
    skipped: nat,
    truncated: bool,
    stoppedEarly: bool,
    stop: bool,
    fastTailActive: bool,
    fastTailSkippedMatchDetails: nat)

  function Initial(queries: nat): State {
    State([], [], seq(queries, _ => 0), 0, false, 0, 0, false, false, false, false, 0)
  }

  /** A limit was hit: a full count goes on, with or without the fast tail; any other search stops. */
  function HitLimit(lim: Limits, s: State): State {
    if !lim.calculateTotal then s.(truncated := true, stoppedEarly := true, stop := true)
    else if lim.exactTotalFastTail then
      s.(truncated := true, fastTailActive := true,
         fastTailSkippedMatchDetails := s.fastTailSkippedMatchDetails + 1)
    else s.(truncated := true)
  }

  predicate HasFile(files: seq<FileRecord>, path: string) {
    exists i :: 0 <= i < |files| && files[i].path == path
  }

  function RecordFile(lim: Limits, s: State, record: FileRecord): State {
    if HasFile(s.files, record.path) then s
    else if lim.maxResults <= |s.files| then HitLimit(lim, s)
    else s.(files := s.files + [record])
  }

  /** The first item is stripped of its context when it alone exceeds the response limit. */
  function Fitted(lim: Limits, s: State, item: Item): Item {
    if s.matches == [] && lim.responseBytesLimit < lim.size(item) && (item.before.Some? || item.after.Some?)
    then item.(before := None, after := None, contextOmitted := true)
    else item
  }

  function EmitMatch(lim: Limits, s: State, item: Item): State {
    var fitted := Fitted(lim, s, item);
    if lim.responseBytesLimit < s.responseBytesEstimate + lim.size(fitted) then
      HitLimit(lim, s.(responseLimitReached := true))
    else
      s.(responseBytesEstimate := s.responseBytesEstimate + lim.size(fitted), matches := s.matches + [fitted])
  }

  // ----- one match -----

  /** What the counters of the current file say. */
  datatype Tracker = Tracker(matchCount: nat, recorded: bool)

  /** Whether a match is passed over, ends the loop over the line, or becomes a result. */
  datatype Verdict = PassOver | Break | Take

  datatype Filtered = Filtered(state: State, tracker: Tracker, verdict: Verdict)

  /** The common head of both match loops: counting, the fast tail, the file cap, the cursor and the limits. */
  function Filter(lim: Limits, s: State, t: Tracker, core: Core, pending: nat): Filtered
    requires core.query < |s.queryCounts|
  {
    var counted := s.(
      queryCounts := s.queryCounts[core.query := s.queryCounts[core.query] + 1],
      matchedFiles := if t.recorded then s.matchedFiles else s.matchedFiles + 1);
    if s.fastTailActive then
      Filtered(counted.(fastTailSkippedMatchDetails := s.fastTailSkippedMatchDetails + 1),
               t.(recorded := true), PassOver)
    else
      var tracked := Tracker(t.matchCount + 1, true);
      if lim.maxMatchesPerFile < tracked.matchCount then Filtered(counted, tracked, PassOver)
      else if s.skipped < lim.cursor then Filtered(counted.(skipped := s.skipped + 1), tracked, PassOver)
      else if lim.filesOnly then
        var listed := RecordFile(lim, counted, FileRecord(core.path, core.line, core.query));
        Filtered(listed, tracked, if listed.stop then Break else PassOver)
      else if lim.countOnly || s.responseLimitReached then Filtered(counted, tracked, PassOver)
      else if lim.maxResults <= |s.matches| + pending then
        Filtered(HitLimit(lim, counted), tracked, if lim.calculateTotal then PassOver else Break)
      else Filtered(counted, tracked, Take)
  }

  // ----- the streaming scan of one file -----

  /** A result that still collects the lines after it. */
  datatype Pending = Pending(item: Item, after: seq<string>, contextTruncated: bool)

  /** The scan of one file for one query: the state, the file's counters and the context buffers. */
  datatype Scan = Scan(state: State, tracker: Tracker, before: seq<string>, pending: seq<Pending>)

  function Bounded(lim: Limits, lines: seq<string>): seq<string> {
    seq(|lines|, i requires 0 <= i < |lines| => lim.bound(lines[i]).0)
  }

  predicate AnyCut(lim: Limits, lines: seq<string>) {
    exists i :: 0 <= i < |lines| && lim.bound(lines[i]).1
  }

  function Finished(pending: Pending): Item {
    pending.item.(after := Some(pending.after), contextTruncated := pending.contextTruncated)
  }

  /** Emits the pending results, or only those whose context is complete, and keeps the others. */
  function Flush(lim: Limits, s: State, pending: seq<Pending>, completeOnly: bool): (State, seq<Pending>)
    decreases |pending|
  {
    if pending == [] then (s, [])
    else if completeOnly && |pending[0].after| < lim.contextLines then
      var (s', kept) := Flush(lim, s, pending[1..], completeOnly);
      (s', [pending[0]] + kept)
    else
      Flush(lim, EmitMatch(lim, s, Finished(pending[0])), pending[1..], completeOnly)
  }

  function WithLine(lim: Limits, pending: seq<Pending>, text: string): seq<Pending> {
    seq(|pending|, i requires 0 <= i < |pending| =>
      if lim.contextLines <= |pending[i].after| then pending[i]
      else Pending(pending[i].item, pending[i].after + [lim.bound(text).0],
                   pending[i].contextTruncated || lim.bound(text).1))
  }

  /** The arrival of a line: pending results take it as context and complete ones are emitted. */
  function LineArrives(lim: Limits, scan: Scan, text: string): Scan {
    if lim.contextLines == 0 then scan
    else
      var (s, kept) := Flush(lim, scan.state, WithLine(lim, scan.pending, text), true);
      scan.(state := s, pending := kept)
  }

  /** One match of the line; the flag says that the loop over the line ends. */
  function OnFound(lim: Limits, scan: Scan, core: Core): (Scan, bool)
    requires core.query < |scan.state.queryCounts|
  {
    var f := Filter(lim, scan.state, scan.tracker, core, |scan.pending|);
    var filtered := scan.(state := f.state, tracker := f.tracker);
    match f.verdict
    case PassOver => (filtered, false)
    case Break => (filtered, true)
    case Take =>
      if lim.contextLines == 0 then
        var emitted := EmitMatch(lim, f.state, Item(core, None, None, false, false));
        (filtered.(state := emitted), emitted.stop)
      else
        var item := Item(core, Some(Bounded(lim, scan.before)), None, false, false);
        (filtered.(pending := scan.pending + [Pending(item, [], AnyCut(lim, scan.before))]), f.state.stop)
  }

  function OnFounds(lim: Limits, scan: Scan, path: string, line: nat, query: nat, founds: seq<Found>): Scan
    requires query < |scan.state.queryCounts|
    decreases |founds|
  {
    if founds == [] then scan
    else
      var (next, stop) := OnFound(lim, scan, Core(path, line, query, founds[0]));
      OnFoundKeepsQueries(lim, scan, Core(path, line, query, founds[0]));
      if stop then next else OnFounds(lim, next, path, line, query, founds[1..])
  }

  lemma FlushKeepsQueries(lim: Limits, s: State, pending: seq<Pending>, completeOnly: bool)
    ensures Flush(lim, s, pending, completeOnly).0.queryCounts == s.queryCounts
    decreases |pending|
  {
  }

  lemma FilterKeepsQueries(lim: Limits, s: State, t: Tracker, core: Core, pending: nat)
    requires core.query < |s.queryCounts|
    ensures |Filter(lim, s, t, core, pending).state.queryCounts| == |s.queryCounts|
  {
  }

  lemma EmitKeepsQueries(lim: Limits, s: State, item: Item)
    ensures EmitMatch(lim, s, item).queryCounts == s.queryCounts
  {
  }

  lemma OnFoundKeepsQueries(lim: Limits, scan: Scan, core: Core)
    requires core.query < |scan.state.queryCounts|
    ensures |OnFound(lim, scan, core).0.state.queryCounts| == |scan.state.queryCounts|
  {
    FilterKeepsQueries(lim, scan.state, scan.tracker, core, |scan.pending|);
    var f := Filter(lim, scan.state, scan.tracker, core, |scan.pending|);
    EmitKeepsQueries(lim, f.state, Item(core, None, None, false, false));
  }

  lemma OnFoundsKeepsQueries(lim: Limits, scan: Scan, path: string, line: nat, query: nat, founds: seq<Found>)
    requires query < |scan.state.queryCounts|
    ensures |OnFounds(lim, scan, path, line, query, founds).state.queryCounts| == |scan.state.queryCounts|
    decreases |founds|
  {
    if founds != [] {
      OnFoundKeepsQueries(lim, scan, Core(path, line, query, founds[0]));
    }
  }

  function Remember(lim: Limits, before: seq<string>, text: string): seq<string> {
    if lim.contextLines == 0 then before
    else
      var longer := before + [text];
      if lim.contextLines < |longer| then longer[1..] else longer
  }

  function FoundsOf(line: Line, query: nat): seq<Found> {
    if query < |line.found| then line.found[query] else []
  }

  function OnLine(lim: Limits, scan: Scan, path: string, number: nat, query: nat, line: Line): Scan
    requires query < |scan.state.queryCounts|
  {
    var arrived := LineArrives(lim, scan, line.text);
    FlushKeepsQueries(lim, scan.state, WithLine(lim, scan.pending, line.text), true);
    var searched := OnFounds(lim, arrived, path, number, query, FoundsOf(line, query));
    searched.(before := Remember(lim, searched.before, line.text))
  }

  lemma OnLineKeepsQueries(lim: Limits, scan: Scan, path: string, number: nat, query: nat, line: Line)
    requires query < |scan.state.queryCounts|
    ensures |OnLine(lim, scan, path, number, query, line).state.queryCounts| == |scan.state.queryCounts|
  {
    FlushKeepsQueries(lim, scan.state, WithLine(lim, scan.pending, line.text), true);
    OnFoundsKeepsQueries(lim, LineArrives(lim, scan, line.text), path, number, query, FoundsOf(line, query));
  }

  /** The lines of the file from number `n` (counted from zero) on, until the search stops. */
  function OnLines(lim: Limits, scan: Scan, file: File, query: nat, n: nat): Scan
    requires query < |scan.state.queryCounts| && n <= |file.lines|
    decreases |file.lines| - n
  {
    if n == |file.lines| || scan.state.stop then scan
    else
      OnLineKeepsQueries(lim, scan, file.path, n + 1, query, file.lines[n]);
      OnLines(lim, OnLine(lim, scan, file.path, n + 1, query, file.lines[n]), file, query, n + 1)
  }

  lemma {:induction false} OnLinesKeepsQueries(lim: Limits, scan: Scan, file: File, query: nat, n: nat)
    requires query < |scan.state.queryCounts| && n <= |file.lines|
    ensures |OnLines(lim, scan, file, query, n).state.queryCounts| == |scan.state.queryCounts|
    decreases |file.lines| - n
  {
    if n < |file.lines| && !scan.state.stop {
      OnLineKeepsQueries(lim, scan, file.path, n + 1, query, file.lines[n]);
      OnLinesKeepsQueries(lim, OnLine(lim, scan, file.path, n + 1, query, file.lines[n]), file, query, n + 1);
    }
  }

  /** One query over one file; what is still pending at the end is emitted with the context it has. */
  function OnQuery(lim: Limits, s: State, t: Tracker, file: File, query: nat): (State, Tracker)
    requires query < |s.queryCounts|
  {
    var scan := OnLines(lim, Scan(s, t, [], []), file, query, 0);
    (if lim.contextLines == 0 then scan.state else Flush(lim, scan.state, scan.pending, false).0, scan.tracker)
  }

  lemma OnQueryKeepsQueries(lim: Limits, s: State, t: Tracker, file: File, query: nat)
    requires query < |s.queryCounts|
    ensures |OnQuery(lim, s, t, file, query).0.queryCounts| == |s.queryCounts|
  {
    var scan := OnLines(lim, Scan(s, t, [], []), file, query, 0);
    OnLinesKeepsQueries(lim, Scan(s, t, [], []), file, query, 0);
    FlushKeepsQueries(lim, scan.state, scan.pending, false);
  }

  /** The queries from number `q` on, until the search stops. */
  function OnQueries(lim: Limits, s: State, t: Tracker, file: File, q: nat): State
    requires q <= |s.queryCounts|
    decreases |s.queryCounts| - q
  {
    if q == |s.queryCounts| || s.stop then s
    else
      var (s', t') := OnQuery(lim, s, t, file, q);
      OnQueryKeepsQueries(lim, s, t, file, q);
      OnQueries(lim, s', t', file, q + 1)
  }

  /** `scanSearchFileStreaming`. */
  function OnFile(lim: Limits, s: State, file: File): State {
    OnQueries(lim, s, Tracker(0, false), file, 0)
  }

  /** The files from number `n` on, until the search stops. */
  function OnFiles(lim: Limits, s: State, files: seq<File>, n: nat): State
    requires n <= |files|
    decreases |files| - n
  {
    if n == |files| || s.stop then s else OnFiles(lim, OnFile(lim, s, files[n]), files, n + 1)
  }

  /** The whole scan. */
  function Search(lim: Limits, queries: nat, files: seq<File>): State {
    OnFiles(lim, Initial(queries), files, 0)
  }

  // ----- lines prepared by an external search -----

  /** A line found by ripgrep or grep, with the context it came with. */
  datatype Prepared = Prepared(path: string, line: nat, query: nat, founds: seq<Found>,
                               before: seq<string>, after: seq<string>)

  datatype Ingest = Ingest(state: State, trackers: map<string, Tracker>)

  function TrackerOf(trackers: map<string, Tracker>, path: string): Tracker {
    if path in trackers then trackers[path] else Tracker(0, false)
  }

  function PreparedItem(lim: Limits, core: Core, p: Prepared): Item {
    if lim.contextLines == 0 then Item(core, None, None, false, false)
    else Item(core, Some(Bounded(lim, p.before)), Some(Bounded(lim, p.after)),
              AnyCut(lim, p.before) || AnyCut(lim, p.after), false)
  }

  /** One match of a prepared line; the verdict says whether the loop over the line ends. */
  function OnPreparedFound(lim: Limits, s: State, t: Tracker, p: Prepared, core: Core): Filtered
    requires core.query < |s.queryCounts|
  {
    var f := Filter(lim, s, t, core, 0);
    if f.verdict != Take then f
    else
      var emitted := EmitMatch(lim, f.state, PreparedItem(lim, core, p));
      Filtered(emitted, f.tracker, if emitted.stop then Break else PassOver)
  }

  lemma OnPreparedFoundKeepsQueries(lim: Limits, s: State, t: Tracker, p: Prepared, core: Core)
    requires core.query < |s.queryCounts|
    ensures |OnPreparedFound(lim, s, t, p, core).state.queryCounts| == |s.queryCounts|
  {
    FilterKeepsQueries(lim, s, t, core, 0);
    EmitKeepsQueries(lim, Filter(lim, s, t, core, 0).state, PreparedItem(lim, core, p));
  }

  function OnPreparedFounds(lim: Limits, s: State, t: Tracker, p: Prepared, n: nat): (State, Tracker)
    requires p.query < |s.queryCounts| && n <= |p.founds|
    decreases |p.founds| - n
  {
    if n == |p.founds| then (s, t)
    else
      var core := Core(p.path, p.line, p.query, p.founds[n]);
      var f := OnPreparedFound(lim, s, t, p, core);
      OnPreparedFoundKeepsQueries(lim, s, t, p, core);
      if f.verdict == Break then (f.state, f.tracker) else OnPreparedFounds(lim, f.state, f.tracker, p, n + 1)
  }

  /** `ingestPreparedLine`. */
  function OnPrepared(lim: Limits, g: Ingest, p: Prepared): Ingest
    requires p.query < |g.state.queryCounts|
  {
    var (s, t) := OnPreparedFounds(lim, g.state, TrackerOf(g.trackers, p.path), p, 0);
    Ingest(s, g.trackers[p.path := t])
  }

  lemma {:induction false} OnPreparedFoundsKeepsQueries(lim: Limits, s: State, t: Tracker, p: Prepared, n: nat)
    requires p.query < |s.queryCounts| && n <= |p.founds|
    ensures |OnPreparedFounds(lim, s, t, p, n).0.queryCounts| == |s.queryCounts|
    decreases |p.founds| - n
  {
    if n < |p.founds| {
      var core := Core(p.path, p.line, p.query, p.founds[n]);
      var f := OnPreparedFound(lim, s, t, p, core);
      OnPreparedFoundKeepsQueries(lim, s, t, p, core);
      if f.verdict != Break {
        OnPreparedFoundsKeepsQueries(lim, f.state, f.tracker, p, n + 1);
      }
    }
  }

  /** The prepared lines from number `n` on, until the search stops. */
  function OnPreparedLines(lim: Limits, g: Ingest, lines: seq<Prepared>, n: nat): Ingest
    requires n <= |lines| && forall i :: 0 <= i < |lines| ==> lines[i].query < |g.state.queryCounts|
    decreases |lines| - n
  {
    if n == |lines| || g.state.stop then g
    else
      OnPreparedFoundsKeepsQueries(lim, g.state, TrackerOf(g.trackers, lines[n].path), lines[n], 0);
      OnPreparedLines(lim, OnPrepared(lim, g, lines[n]), lines, n + 1)
  }
}
