/** The knowledge-base panel: file selection, the upload that reads the
    server's newline-delimited JSON progress stream, and bulk deletion. */
module KnowledgeBase {
  import opened Wrappers
  import opened Seqs
  import opened Schema

  // Splitting a decoded chunk into lines.

  /** `s.split('\n')`. */
  function SplitLines(s: string): (r: seq<string>)
    ensures |r| >= 1
    ensures forall k :: 0 <= k < |r| ==> '\n' !in r[k]
    ensures JoinLines(r) == s
    decreases |s|
  {
    if |s| == 0 then [""]
    else if s[0] == '\n' then
      var rest := SplitLines(s[1..]);
      assert s == "\n" + s[1..];
      [""] + rest
    else
      var rest := SplitLines(s[1..]);
      assert s == [s[0]] + s[1..];
      [[s[0]] + rest[0]] + rest[1..]
  }

  /** `xs.join('\n')`. */
  function JoinLines(xs: seq<string>): string
    decreases |xs|
  {
    if |xs| == 0 then ""
    else if |xs| == 1 then xs[0]
    else xs[0] + "\n" + JoinLines(xs[1..])
  }

  /** Splitting undoes joining lines that hold no newline. */
  lemma {:induction false} SplitJoin(xs: seq<string>)
    requires |xs| >= 1
    requires forall k :: 0 <= k < |xs| ==> '\n' !in xs[k]
    ensures SplitLines(JoinLines(xs)) == xs
    decreases |xs|, |xs[0]|
  {
    if |xs| == 1 {
      NoNewlineSplit(xs[0]);
    } else if |xs[0]| == 0 {
      var tail := xs[1..];
      assert JoinLines(xs) == "\n" + JoinLines(tail);
      SplitJoin(tail);
      assert ("\n" + JoinLines(tail))[1..] == JoinLines(tail);
      assert [""] + tail == xs;
    } else {
      var head := xs[0][1..];
      var ys := [head] + xs[1..];
      assert ys[1..] == xs[1..];
      assert JoinLines(xs) == [xs[0][0]] + JoinLines(ys);
      SplitJoin(ys);
      assert (JoinLines(xs))[1..] == JoinLines(ys);
      assert [xs[0][0]] + head == xs[0];
      assert [[xs[0][0]] + head] + xs[1..] == xs;
    }
  }

  lemma {:induction false} NoNewlineSplit(s: string)
    requires '\n' !in s
    ensures SplitLines(s) == [s]
    decreases |s|
  {
    if |s| > 0 {
      assert forall c :: c in s[1..] ==> c in s;
      NoNewlineSplit(s[1..]);
      assert [s[0]] + s[1..] == s;
    }
  }

  /** The characters `String.prototype.trim` removes: the ECMAScript
      WhiteSpace and LineTerminator code points. */
  predicate IsJsWhitespace(c: char) {
    || c == ' ' || c == '\t' || c == '\n' || c == '\r' || c == '\U{000B}' || c == '\U{000C}'
    || c == '\U{00A0}' || c == '\U{1680}' || ('\U{2000}' <= c <= '\U{200A}')
    || c == '\U{2028}' || c == '\U{2029}' || c == '\U{202F}' || c == '\U{205F}'
    || c == '\U{3000}' || c == '\U{FEFF}'
  }

  /** `line.trim() !== ''`. */
  predicate NotBlank(line: string) {
    exists k :: 0 <= k < |line| && !IsJsWhitespace(line[k])
  }

  /** The lines of one decoded chunk that the upload handler looks at. */
  function Lines(chunk: string): (r: seq<string>)
    ensures forall l :: l in r <==> l in SplitLines(chunk) && NotBlank(l)
    ensures forall l :: l in r ==> '\n' !in l
  {
    Filter(NotBlank, SplitLines(chunk))
  }

  // The progress events.

  /** What `JSON.parse` of one line yields, as far as the handler looks at
      it: `null`, another non-object value, or an object with its `status`,
      `type` and `message` members (absent when missing or not strings). */
  datatype Json =
    | JNull
    | JOther
    | JObject(status: Option<string>, eventType: Option<string>, message: Option<string>)

  /** The parser: `None` when `JSON.parse` throws. */
  type Parser = string -> Option<Json>

  datatype UploadState = UploadState(events: seq<Json>, uploadStep: string, isUploading: bool)

  const StartMessage: string := "Starting upload..."

  const StartEvent: Json := JObject(None, Some("log"), Some(StartMessage))

  predicate Truthy(m: Option<string>) {
    m.Some? && m.value != ""
  }

  /** One parsed value: it is appended to the events, then dispatched on.
      Reading a member of `null` throws, so a `null` is appended and
      nothing else happens. */
  function ApplyEvent(st: UploadState, data: Json): (r: UploadState)
    ensures r.events == st.events + [data]
  {
    var st' := st.(events := st.events + [data]);
    match data
    case JNull => st'
    case JOther => st'
    case JObject(status, eventType, message) =>
      if status == Some("progress") || eventType == Some("log") then
        if Truthy(message) then st'.(uploadStep := message.value) else st'
      else if status == Some("complete") then st'.(uploadStep := "Processing complete.")
      else if status == Some("error") then st'.(isUploading := false)
      else st'
  }

  /** What one event does to the step shown and the uploading flag. */
  lemma ApplyEventContract(st: UploadState, data: Json)
    ensures var r := ApplyEvent(st, data);
      && (data.JObject? && (data.status == Some("progress") || data.eventType == Some("log")) ==>
            r.isUploading == st.isUploading
            && r.uploadStep == (if Truthy(data.message) then data.message.value else st.uploadStep))
      && (data.JObject? && data.status == Some("complete") && data.eventType != Some("log") ==>
            r.uploadStep == "Processing complete." && r.isUploading == st.isUploading)
      && (data.JObject? && data.status == Some("error") && data.eventType != Some("log") ==>
            !r.isUploading && r.uploadStep == st.uploadStep)
      && (!data.JObject? ==> r.uploadStep == st.uploadStep && r.isUploading == st.isUploading)
      && (r.isUploading ==> st.isUploading)
  {
  }

  function ApplyLine(st: UploadState, line: string, parse: Parser): UploadState {
    match parse(line)
    case None => st
    case Some(data) => ApplyEvent(st, data)
  }

  /** The lines of a chunk, handled in order. */
  function ApplyLines(st: UploadState, lines: seq<string>, parse: Parser): (r: UploadState)
    ensures st.events <= r.events
    ensures |r.events| <= |st.events| + |lines|
    decreases |lines|
  {
    if |lines| == 0 then st
    else ApplyLine(ApplyLines(st, lines[..|lines| - 1], parse), lines[|lines| - 1], parse)
  }

  /** The chunks of the stream, handled in order. */
  function ApplyChunks(st: UploadState, chunks: seq<string>, parse: Parser): (r: UploadState)
    ensures st.events <= r.events
    decreases |chunks|
  {
    if |chunks| == 0 then st
    else ApplyLines(ApplyChunks(st, chunks[..|chunks| - 1], parse), Lines(chunks[|chunks| - 1]), parse)
  }

  /** The values the lines parse to, in order; lines that do not parse
      contribute nothing. */
  function Parsed(lines: seq<string>, parse: Parser): (r: seq<Json>)
    ensures |r| <= |lines|
    decreases |lines|
  {
    if |lines| == 0 then []
    else
      var init := Parsed(lines[..|lines| - 1], parse);
      match parse(lines[|lines| - 1])
      case None => init
      case Some(data) => init + [data]
  }

  /** Parsed values are appended to the events in arrival order, and a line
      that fails to parse is skipped without stopping the later ones. */
  lemma {:induction false} EventsInArrivalOrder(st: UploadState, lines: seq<string>, parse: Parser)
    ensures ApplyLines(st, lines, parse).events == st.events + Parsed(lines, parse)
    decreases |lines|
  {
    if |lines| > 0 {
      EventsInArrivalOrder(st, lines[..|lines| - 1], parse);
    }
  }

  /** Removing a line that does not parse changes nothing. */
  lemma {:induction false} UnparsableLineIgnored(st: UploadState, xs: seq<string>, line: string, ys: seq<string>, parse: Parser)
    requires parse(line).None?
    ensures ApplyLines(st, xs + [line] + ys, parse) == ApplyLines(st, xs + ys, parse)
    decreases |ys|
  {
    if |ys| == 0 {
      assert (xs + [line] + ys)[..|xs + [line]| - 1] == xs;
      assert xs + ys == xs;
    } else {
      var ys' := ys[..|ys| - 1];
      var last := ys[|ys| - 1];
      UnparsableLineIgnored(st, xs, line, ys', parse);
      assert (xs + [line] + ys)[..|xs + [line] + ys| - 1] == xs + [line] + ys';
      assert (xs + ys)[..|xs + ys| - 1] == xs + ys';
    }
  }

  /** The upload handler never sets the uploading flag again once an
      event has cleared it. */
  lemma {:induction false} UploadingOnlyClears(st: UploadState, lines: seq<string>, parse: Parser)
    ensures ApplyLines(st, lines, parse).isUploading ==> st.isUploading
    decreases |lines|
  {
    if |lines| > 0 {
      UploadingOnlyClears(st, lines[..|lines| - 1], parse);
    }
  }

  /** The chosen file, if any, with its MIME type. */
  datatype FileInfo = FileInfo(mimeType: string)

  /** How the upload request ends: the fetch throws, the response is not
      ok, it has no body, or a body whose chunks decode to `chunks`, after
      which reading either ends or throws. */
  datatype UploadResponse =
    | FetchFailed
    | NotOk
    | NoBody
    | Body(chunks: seq<string>, readFails: bool)

  /** The state the upload handler leaves behind. */
  function UploadOutcome(st: UploadState, file: Option<FileInfo>, response: UploadResponse, parse: Parser): (r: UploadState)
    ensures r != st ==> file.Some? && file.value.mimeType == "application/pdf"
    ensures file.Some? && file.value.mimeType == "application/pdf" ==> |r.events| >= 1 && r.events[0] == StartEvent
  {
    if file.None? || file.value.mimeType != "application/pdf" then st
    else
      var started := UploadState([StartEvent], StartMessage, true);
      match response
      case Body(chunks, readFails) =>
        var read := ApplyChunks(started, chunks, parse);
        if readFails then read.(isUploading := false, uploadStep := "") else read
      case _ => started.(isUploading := false, uploadStep := "")
    }

  /** Anything but a PDF leaves the state alone; a PDF restarts the upload;
      a failed request or a failed read closes the viewer and clears the
      step, keeping the events received so far. */
  lemma UploadOutcomeContract(st: UploadState, file: Option<FileInfo>, response: UploadResponse, parse: Parser)
    ensures file.None? || file.value.mimeType != "application/pdf" ==>
      UploadOutcome(st, file, response, parse) == st
    ensures file.Some? && file.value.mimeType == "application/pdf" && !response.Body? ==>
      UploadOutcome(st, file, response, parse) == UploadState([StartEvent], "", false)
    ensures file.Some? && file.value.mimeType == "application/pdf" && response.Body? && response.readFails ==>
      var r := UploadOutcome(st, file, response, parse);
      !r.isUploading && r.uploadStep == ""
      && r.events == [StartEvent] + AllParsed(response.chunks, parse)
    ensures file.Some? && file.value.mimeType == "application/pdf" && response.Body? && !response.readFails ==>
      UploadOutcome(st, file, response, parse).isUploading
        == ApplyChunks(UploadState([StartEvent], StartMessage, true), response.chunks, parse).isUploading
  {
    if file.Some? && file.value.mimeType == "application/pdf" && response.Body? {
      ChunksInArrivalOrder(UploadState([StartEvent], StartMessage, true), response.chunks, parse);
    }
  }

  /** An upload of a PDF restarts the event list with the start message and
      then appends, in order, every value the streamed lines parse to. */
  lemma UploadEvents(st: UploadState, chunks: seq<string>, readFails: bool, parse: Parser)
    ensures UploadOutcome(st, Some(FileInfo("application/pdf")), Body(chunks, readFails), parse).events
      == [StartEvent] + AllParsed(chunks, parse)
  {
    ChunksInArrivalOrder(UploadState([StartEvent], StartMessage, true), chunks, parse);
  }

  function AllParsed(chunks: seq<string>, parse: Parser): seq<Json>
    decreases |chunks|
  {
    if |chunks| == 0 then []
    else AllParsed(chunks[..|chunks| - 1], parse) + Parsed(Lines(chunks[|chunks| - 1]), parse)
  }

  lemma {:induction false} ChunksInArrivalOrder(st: UploadState, chunks: seq<string>, parse: Parser)
    ensures ApplyChunks(st, chunks, parse).events == st.events + AllParsed(chunks, parse)
    decreases |chunks|
  {
    if |chunks| > 0 {
      var init := chunks[..|chunks| - 1];
      ChunksInArrivalOrder(st, init, parse);
      EventsInArrivalOrder(ApplyChunks(st, init, parse), Lines(chunks[|chunks| - 1]), parse);
    }
  }

  // Selection.

  /** `toggleSelection(id)`. */
  function Toggle(selected: set<Id>, id: Id): (r: set<Id>)
    ensures id in r <==> id !in selected
    ensures forall x :: x != id ==> (x in r <==> x in selected)
  {
    if id in selected then selected - {id} else selected + {id}
  }

  /** Toggling twice restores the selection. */
  lemma ToggleTwice(selected: set<Id>, id: Id)
    ensures Toggle(Toggle(selected, id), id) == selected
  {
  }

  function FileIds(files: seq<FileRow>): (r: set<Id>)
    ensures forall x :: x in r <==> exists f :: f in files && f.id == x
  {
    set f | f in files :: f.id
  }

  /** `toggleSelectAll`: clear when the selection has as many ids as there
      are files, otherwise select exactly the files' ids. */
  function SelectAll(selected: set<Id>, files: seq<FileRow>): (r: set<Id>)
    ensures |selected| == |files| ==> r == {}
    ensures |selected| != |files| ==> forall x :: x in r <==> exists f :: f in files && f.id == x
  {
    if |selected| == |files| then {} else FileIds(files)
  }

  /** The comparison is on sizes only: a selection holding an id that is no
      longer listed can clear the selection although a listed file is not
      selected. */
  lemma SelectAllComparesSizes()
    ensures var files := [FileRow("a", "", "u", "", "", 0, None, None), FileRow("b", "", "u", "", "", 0, None, None)];
      && "b" !in {"a", "c"}
      && SelectAll({"a", "c"}, files) == {}
  {
    var files := [FileRow("a", "", "u", "", "", 0, None, None), FileRow("b", "", "u", "", "", 0, None, None)];
    assert |{"a", "c"}| == 2 by {
      assert "a" != "c";
    }
  }

  class KnowledgeBasePanel {
    var files: seq<FileRow>
    var events: seq<Json>
    var uploadStep: string
    var isUploading: bool
    var selectedIds: set<Id>

    constructor ()
      ensures files == [] && events == [] && uploadStep == "" && !isUploading && selectedIds == {}
    {
      files, events, uploadStep, isUploading, selectedIds := [], [], "", false, {};
    }

    function Upload(): UploadState
      reads this
    {
      UploadState(events, uploadStep, isUploading)
    }

    method ToggleSelection(id: Id)
      modifies this`selectedIds
      ensures selectedIds == Toggle(old(selectedIds), id)
    {
      if id in selectedIds {
        selectedIds := selectedIds - {id};
      } else {
        selectedIds := selectedIds + {id};
      }
    }

    method ToggleSelectAll()
      modifies this`selectedIds
      ensures selectedIds == SelectAll(old(selectedIds), files)
    {
      if |selectedIds| == |files| {
        selectedIds := {};
      } else {
        selectedIds := set f | f in files :: f.id;
      }
    }

    /** One line of a chunk: parse it, skipping it when parsing throws. */
    method HandleLine(line: string, parse: Parser)
      modifies this`events, this`uploadStep, this`isUploading
      ensures Upload() == ApplyLine(old(Upload()), line, parse)
    {
      var parsed := parse(line);
      if parsed.None? {
        return;
      }
      var data := parsed.value;
      events := events + [data];
      if data.JObject? {
        if data.status == Some("progress") || data.eventType == Some("log") {
          if Truthy(data.message) {
            uploadStep := data.message.value;
          }
        } else if data.status == Some("complete") {
          uploadStep := "Processing complete.";
        } else if data.status == Some("error") {
          isUploading := false;
        }
      }
    }

    /** The lines of one decoded chunk, in order. */
    method HandleChunk(chunk: string, parse: Parser)
      modifies this`events, this`uploadStep, this`isUploading
      ensures Upload() == ApplyLines(old(Upload()), Lines(chunk), parse)
    {
      var lines := Lines(chunk);
      ghost var before := Upload();
      for l := 0 to |lines|
        invariant Upload() == ApplyLines(before, lines[..l], parse)
      {
        HandleLine(lines[l], parse);
        PrefixSnoc(lines, l);
      }
      assert lines[..|lines|] == lines;
    }

    /** The read loop: the decoded chunks of the stream, in order. */
    method HandleChunks(chunks: seq<string>, parse: Parser)
      modifies this`events, this`uploadStep, this`isUploading
      ensures Upload() == ApplyChunks(old(Upload()), chunks, parse)
    {
      ghost var started := Upload();
      var c := 0;
      while c < |chunks|
        invariant 0 <= c <= |chunks|
        invariant Upload() == ApplyChunks(started, chunks[..c], parse)
        decreases |chunks| - c
      {
        HandleChunk(chunks[c], parse);
        PrefixSnoc(chunks, c);
        c := c + 1;
      }
      assert chunks[..|chunks|] == chunks;
    }

    /** `handleFileChange`: reject anything but a PDF, reset the upload
        state, then read the stream chunk by chunk and line by line; any
        failure closes the viewer and clears the step. */
    method HandleFileChange(file: Option<FileInfo>, response: UploadResponse, parse: Parser)
      modifies this`events, this`uploadStep, this`isUploading
      ensures Upload() == UploadOutcome(old(Upload()), file, response, parse)
    {
      if file.None? {
        return;
      }
      if file.value.mimeType != "application/pdf" {
        return;
      }
      isUploading := true;
      uploadStep := StartMessage;
      events := [StartEvent];
      if !response.Body? {
        isUploading := false;
        uploadStep := "";
        return;
      }
      HandleChunks(response.chunks, parse);
      if response.readFails {
        isUploading := false;
        uploadStep := "";
      }
    }

    /** `handleBulkDelete`: nothing happens for an empty selection or an
        unconfirmed dialog; otherwise the ids are sent, and an ok response
        clears the selection. */
    method HandleBulkDelete(confirmed: bool, responseOk: bool) returns (requested: bool)
      modifies this`selectedIds
      ensures requested <==> |old(selectedIds)| > 0 && confirmed
      ensures selectedIds == if requested && responseOk then {} else old(selectedIds)
    {
      if |selectedIds| == 0 {
        return false;
      }
      if !confirmed {
        return false;
      }
      requested := true;
      if responseOk {
        selectedIds := {};
      }
    }
  }
}
