/** The table operations of the query layer, over in-memory tables. Each
    table is a sequence of rows in storage order; a `DELETE ... WHERE c`
    keeps, in order, the rows that fail `c`, and an `INSERT` appends. */
module Queries {
  import opened Wrappers
  import opened Seqs
  import opened Strings
  import opened Ranking
  import opened Schema
  import Chunking

  // Row predicates used as `WHERE` clauses.

  function VoteOutsideChat(id: Id): Vote -> bool {
    (v: Vote) => v.chatId != id
  }

  function MessageOutsideChat(id: Id): Message -> bool {
    (m: Message) => m.chatId != id
  }

  function ChatNotWithId(id: Id): Chat -> bool {
    (c: Chat) => c.id != id
  }

  function FileNotWithId(id: Id): FileRow -> bool {
    (f: FileRow) => f.id != id
  }

  function ResourceOfFile(id: Id): Resource -> bool {
    (r: Resource) => r.fileId == id
  }

  function ResourceOutsideFile(id: Id): Resource -> bool {
    (r: Resource) => r.fileId != id
  }

  /** The embedding row points at one of `rs`. */
  predicate RefersToAny(e: EmbeddingRow, rs: seq<Resource>) {
    e.resourceId.Some? && exists k :: 0 <= k < |rs| && rs[k].id == e.resourceId.value
  }

  function EmbeddingNotOf(resourceId: Id): EmbeddingRow -> bool {
    (e: EmbeddingRow) => e.resourceId != Some(resourceId)
  }

  function EmbeddingOutside(rs: seq<Resource>): EmbeddingRow -> bool {
    (e: EmbeddingRow) => !RefersToAny(e, rs)
  }

  /** A suggestion on a version of document `id` created after `timestamp`. */
  function SuggestionNotAfter(id: Id, timestamp: Timestamp): Suggestion -> bool {
    (s: Suggestion) => !(s.documentId == id && s.documentCreatedAt > timestamp)
  }

  function DocumentNotAfter(id: Id, timestamp: Timestamp): Document -> bool {
    (d: Document) => !(d.id == id && d.createdAt > timestamp)
  }

  /** A message of chat `chatId` created at or after `timestamp`. */
  function MessageNotFrom(chatId: Id, timestamp: Timestamp): Message -> bool {
    (m: Message) => !(m.chatId == chatId && m.createdAt >= timestamp)
  }

  /** Deleting the embeddings of one more resource: filtering out `r.id`
      from the rows outside `rs` leaves the rows outside `rs + [r]`. */
  lemma OutsideOneMore(es: seq<EmbeddingRow>, rs: seq<Resource>, r: Resource)
    ensures Filter(EmbeddingNotOf(r.id), Filter(EmbeddingOutside(rs), es))
      == Filter(EmbeddingOutside(rs + [r]), es)
  {
    var rs' := rs + [r];
    forall e: EmbeddingRow
      ensures EmbeddingOutside(rs')(e) == (EmbeddingNotOf(r.id)(e) && EmbeddingOutside(rs)(e))
    {
      if RefersToAny(e, rs') {
        var k :| 0 <= k < |rs'| && rs'[k].id == e.resourceId.value;
        if k < |rs| {
          assert rs[k] == rs'[k];
        }
      }
      if RefersToAny(e, rs) {
        var k :| 0 <= k < |rs| && rs[k].id == e.resourceId.value;
        assert rs'[k] == rs[k];
      }
      if e.resourceId == Some(r.id) {
        assert rs'[|rs|] == r;
      }
    }
    FilterFilter(EmbeddingNotOf(r.id), EmbeddingOutside(rs), EmbeddingOutside(rs'), es);
  }

  /** The embeddings left after deleting those of the resources of file
      `id` are exactly the rows that do not point at such a resource; rows
      with no resource are all kept. */
  lemma EmbeddingsOfFile(es: seq<EmbeddingRow>, rs: seq<Resource>, id: Id)
    ensures var kept := Filter(EmbeddingOutside(Filter(ResourceOfFile(id), rs)), es);
      forall e :: e in kept <==>
        (e in es && !(e.resourceId.Some? && exists r :: r in rs && r.fileId == id && r.id == e.resourceId.value))
  {
    var gone := Filter(ResourceOfFile(id), rs);
    forall e: EmbeddingRow
      ensures RefersToAny(e, gone) <==>
        (e.resourceId.Some? && exists r :: r in rs && r.fileId == id && r.id == e.resourceId.value)
    {
      if RefersToAny(e, gone) {
        var k :| 0 <= k < |gone| && gone[k].id == e.resourceId.value;
        assert gone[k] in gone;
      }
      if e.resourceId.Some? && exists r :: r in rs && r.fileId == id && r.id == e.resourceId.value {
        var r :| r in rs && r.fileId == id && r.id == e.resourceId.value;
        assert r in gone;
        var k :| 0 <= k < |gone| && gone[k] == r;
      }
    }
  }

  /** `getChatsByUserId({ id })`: an empty id is refused before any query;
      otherwise the user's chats, newest first. */
  function GetChatsByUserId(chats: seq<Chat>, id: Id): (r: Result<seq<Chat>, string>)
    ensures r.Failure? <==> id == ""
    ensures r.Failure? ==> r.error == "User ID is required"
    ensures r.Success? ==>
      && SortedDesc(r.value, ChatCreatedAt)
      && multiset(r.value) == multiset(Filter((c: Chat) => c.userId == id, chats))
      && forall c :: c in r.value <==> c in chats && c.userId == id
  {
    if id == "" then Failure("User ID is required")
    else
      var kept := Filter((c: Chat) => c.userId == id, chats);
      var r := SortDesc(kept, ChatCreatedAt);
      assert forall c :: c in r <==> c in kept by {
        forall c ensures c in r <==> c in kept {
          assert c in r <==> c in multiset(r);
          assert c in kept <==> c in multiset(kept);
        }
      }
      Success(r)
  }

  function ChatCreatedAt(c: Chat): real {
    c.createdAt as real
  }

  datatype VoteType = Up | Down

  /** The first vote with key (chatId, messageId), or `|votes|`. */
  function FindVote(votes: seq<Vote>, chatId: Id, messageId: Id): (i: nat)
    ensures i <= |votes|
    ensures i < |votes| ==> SameVoteKey(votes[i], chatId, messageId)
    ensures forall k :: 0 <= k < i ==> !SameVoteKey(votes[k], chatId, messageId)
    decreases |votes|
  {
    if |votes| == 0 then 0
    else if SameVoteKey(votes[0], chatId, messageId) then 0
    else 1 + FindVote(votes[1..], chatId, messageId)
  }

  /** The vote table after `voteMessage`: the existing vote with that key is
      updated in place, or a new vote is appended. */
  function CastVote(votes: seq<Vote>, chatId: Id, messageId: Id, t: VoteType): (r: seq<Vote>)
    ensures Vote(chatId, messageId, t == Up) in r
    ensures (exists k :: 0 <= k < |votes| && SameVoteKey(votes[k], chatId, messageId)) ==> |r| == |votes|
    ensures (forall k :: 0 <= k < |votes| ==> !SameVoteKey(votes[k], chatId, messageId)) ==>
      r == votes + [Vote(chatId, messageId, t == Up)]
  {
    var i := FindVote(votes, chatId, messageId);
    var v := Vote(chatId, messageId, t == Up);
    if i < |votes| then
      assert votes[i := v][i] == v;
      votes[i := v]
    else votes + [v]
  }

  /** After a vote there is exactly one vote with its key, recording the
      direction; every vote with another key is kept, and nothing else is
      added; the key stays unique. */
  lemma CastVoteContract(votes: seq<Vote>, chatId: Id, messageId: Id, t: VoteType)
    requires VoteKeysUnique(votes)
    ensures var r := CastVote(votes, chatId, messageId, t);
      && VoteKeysUnique(r)
      && Vote(chatId, messageId, t == Up) in r
      && (forall v :: v in r && SameVoteKey(v, chatId, messageId) ==> v == Vote(chatId, messageId, t == Up))
      && (forall v :: !SameVoteKey(v, chatId, messageId) ==> (v in r <==> v in votes))
  {
    var i := FindVote(votes, chatId, messageId);
    var v := Vote(chatId, messageId, t == Up);
    var r := CastVote(votes, chatId, messageId, t);
    if i < |votes| {
      assert r[i] == v;
      forall a: nat, b: nat | a < b < |r|
        ensures KeysDiffer(r, a, b)
      {
        assert KeysDiffer(votes, a, b);
        if a != i && b != i {
          assert r[a] == votes[a] && r[b] == votes[b];
        } else if a == i {
          assert r[b] == votes[b];
        } else {
          assert r[a] == votes[a];
        }
      }
      forall k | 0 <= k < |votes| && k != i ensures !SameVoteKey(votes[k], chatId, messageId) {
        if k > i {
          assert KeysDiffer(votes, i, k);
        }
      }
      forall w | !SameVoteKey(w, chatId, messageId) ensures w in r <==> w in votes {
        if w in r {
          var k :| 0 <= k < |r| && r[k] == w;
          assert k != i && votes[k] == w;
        }
        if w in votes {
          var k :| 0 <= k < |votes| && votes[k] == w;
          assert k != i && r[k] == w;
        }
      }
    } else {
      assert r == votes + [v];
      assert r[|votes|] == v;
      forall a: nat, b: nat | a < b < |r|
        ensures KeysDiffer(r, a, b)
      {
        if b < |votes| {
          assert KeysDiffer(votes, a, b);
          assert r[a] == votes[a] && r[b] == votes[b];
        } else {
          assert r[a] == votes[a];
        }
      }
      forall w | w in r && SameVoteKey(w, chatId, messageId) ensures w == v {
        var k :| 0 <= k < |r| && r[k] == w;
        if k < |votes| {
          assert votes[k] == w;
        }
      }
    }
  }

  /** The file table after `updateFileStatus`. */
  function SetFileStatus(files: seq<FileRow>, id: Id, status: FileStatus): (r: seq<FileRow>)
    ensures |r| == |files|
    ensures forall k :: 0 <= k < |r| ==> r[k].(status := files[k].status) == files[k]
    ensures forall k :: 0 <= k < |r| ==> if files[k].id == id then r[k].status == Some(status) else r[k] == files[k]
  {
    seq(|files|, k requires 0 <= k < |files| =>
      if files[k].id == id then files[k].(status := Some(status)) else files[k])
  }

  /** A value thrown inside the `try` of `createResource`: either an
      `Error` with its message, or some other value. */
  datatype Thrown = Thrown(isError: bool, message: string)

  /** The message `createResource` returns for a caught value. */
  function ErrorText(t: Thrown): (r: string)
    ensures |r| > 0
    ensures r == t.message || r == "Error, please try again."
    ensures t.isError && |t.message| > 0 ==> r == t.message
    ensures !(t.isError && |t.message| > 0) ==> r == "Error, please try again."
  {
    if t.isError && |t.message| > 0 then t.message else "Error, please try again."
  }

  const ResourceCreated: string := "Resource successfully created and embedded."

  /** The steps of `createResource` that can throw. */
  datatype Stage = ParseInput | SaveResource | Generate | SaveEmbeddings

  /** A failure of one step, with the value it throws. */
  datatype Fault = Fault(stage: Stage, thrown: Thrown)

  /** The position of a step in the pipeline of `createResource`. */
  function StageIndex(stage: Stage): nat {
    match stage
    case ParseInput => 0
    case SaveResource => 1
    case Generate => 2
    case SaveEmbeddings => 3
  }

  /** The progress messages of a run that reaches its last step, storing `n`
      embeddings. */
  function FullProgress(n: nat): seq<string> {
    ["Saving raw resource...", "Generating semantic embeddings...", "Saving " + NatToString(n) + " embeddings..."]
  }

  /** The progress messages emitted before the step `stage` runs; a step
      that fails emits nothing after its own message. */
  function ProgressBefore(stage: Stage, n: nat): (r: seq<string>)
    ensures |r| == StageIndex(stage)
    ensures r <= FullProgress(n)
  {
    match stage
    case ParseInput => []
    case SaveResource => ["Saving raw resource..."]
    case Generate => ["Saving raw resource...", "Generating semantic embeddings..."]
    case SaveEmbeddings =>
      ["Saving raw resource...", "Generating semantic embeddings...", "Saving " + NatToString(n) + " embeddings..."]
  }

  /** The rows `createResource` inserts into the embedding table: the
      embedding's fields, the new resource's id and the caller's id. */
  function StoredRows(resourceId: Id, userId: Id, es: seq<Chunking.ChunkEmbedding>): (r: seq<EmbeddingRow>)
    ensures |r| == |es|
    ensures forall k :: 0 <= k < |r| ==>
      && r[k].resourceId == Some(resourceId)
      && r[k].userId == userId
      && r[k].content == es[k].content
      && r[k].embedding == es[k].embedding
  {
    seq(|es|, k requires 0 <= k < |es| => EmbeddingRow(Some(resourceId), es[k].content, es[k].embedding, userId))
  }

  /** The outcome of `analyzePDFDocument`: a returned message, or a
      thrown value. */
  type Outcome = Result<string, Thrown>

  class Database {
    var chats: seq<Chat>
    var messages: seq<Message>
    var votes: seq<Vote>
    var documents: seq<Document>
    var suggestions: seq<Suggestion>
    var files: seq<FileRow>
    var resources: seq<Resource>
    var embeddings: seq<EmbeddingRow>

    /** The key constraints the queries rely on. */
    ghost predicate Valid()
      reads this`votes
    {
      VoteKeysUnique(votes)
    }

    constructor ()
      ensures Valid()
      ensures chats == [] && messages == [] && votes == [] && documents == []
      ensures suggestions == [] && files == [] && resources == [] && embeddings == []
    {
      chats, messages, votes, documents := [], [], [], [];
      suggestions, files, resources, embeddings := [], [], [], [];
    }

    /** `deleteChatById`: the chat's votes, then its messages, then the
        chat itself. */
    method DeleteChatById(id: Id)
      requires Valid()
      modifies this`votes, this`messages, this`chats
      ensures Valid()
      ensures votes == Filter(VoteOutsideChat(id), old(votes))
      ensures messages == Filter(MessageOutsideChat(id), old(messages))
      ensures chats == Filter(ChatNotWithId(id), old(chats))
      ensures forall v :: v in votes <==> v in old(votes) && v.chatId != id
      ensures forall m :: m in messages <==> m in old(messages) && m.chatId != id
      ensures forall c :: c in chats <==> c in old(chats) && c.id != id
    {
      FilterKeepsUnique(VoteOutsideChat(id), votes);
      votes := Filter(VoteOutsideChat(id), votes);
      messages := Filter(MessageOutsideChat(id), messages);
      chats := Filter(ChatNotWithId(id), chats);
    }

    /** `voteMessage`: look the vote up by its key, then update it or
        insert it. */
    method VoteMessage(chatId: Id, messageId: Id, t: VoteType)
      requires Valid()
      modifies this`votes
      ensures Valid()
      ensures votes == CastVote(old(votes), chatId, messageId, t)
      ensures Vote(chatId, messageId, t == Up) in votes
      ensures forall v :: v in votes && SameVoteKey(v, chatId, messageId) ==> v == Vote(chatId, messageId, t == Up)
      ensures forall v :: !SameVoteKey(v, chatId, messageId) ==> (v in votes <==> v in old(votes))
    {
      var i := 0;
      while i < |votes| && !SameVoteKey(votes[i], chatId, messageId)
        invariant 0 <= i <= |votes|
        invariant forall k :: 0 <= k < i ==> !SameVoteKey(votes[k], chatId, messageId)
        decreases |votes| - i
      {
        i := i + 1;
      }
      assert i == FindVote(votes, chatId, messageId);
      CastVoteContract(votes, chatId, messageId, t);
      if i < |votes| {
        votes := votes[i := Vote(chatId, messageId, t == Up)];
      } else {
        votes := votes + [Vote(chatId, messageId, t == Up)];
      }
    }

    /** `deleteDocumentsByIdAfterTimestamp`: suggestions on, and versions
        of, document `id` created strictly after `timestamp`. */
    method DeleteDocumentsByIdAfterTimestamp(id: Id, timestamp: Timestamp)
      requires Valid()
      modifies this`suggestions, this`documents
      ensures Valid()
      ensures suggestions == Filter(SuggestionNotAfter(id, timestamp), old(suggestions))
      ensures documents == Filter(DocumentNotAfter(id, timestamp), old(documents))
      ensures forall s :: s in suggestions <==>
        s in old(suggestions) && !(s.documentId == id && s.documentCreatedAt > timestamp)
      ensures forall d :: d in documents <==> d in old(documents) && !(d.id == id && d.createdAt > timestamp)
    {
      suggestions := Filter(SuggestionNotAfter(id, timestamp), suggestions);
      documents := Filter(DocumentNotAfter(id, timestamp), documents);
    }

    /** `deleteMessagesByChatIdAfterTimestamp`: the chat's messages created
        at or after `timestamp`. */
    method DeleteMessagesByChatIdAfterTimestamp(chatId: Id, timestamp: Timestamp)
      requires Valid()
      modifies this`messages
      ensures Valid()
      ensures messages == Filter(MessageNotFrom(chatId, timestamp), old(messages))
      ensures forall m :: m in messages <==> m in old(messages) && !(m.chatId == chatId && m.createdAt >= timestamp)
    {
      messages := Filter(MessageNotFrom(chatId, timestamp), messages);
    }

    /** `updateFileStatus`. */
    method UpdateFileStatus(id: Id, status: FileStatus)
      requires Valid()
      modifies this`files
      ensures Valid()
      ensures files == SetFileStatus(old(files), id, status)
    {
      files := SetFileStatus(files, id, status);
    }

    /** The loop of `deleteFileById`: for each resource in turn, delete
        the embeddings that point at it. */
    method DeleteEmbeddingsOf(rs: seq<Resource>)
      modifies this`embeddings
      ensures embeddings == Filter(EmbeddingOutside(rs), old(embeddings))
    {
      ghost var before := embeddings;
      FilterKeepsAll(EmbeddingOutside([]), embeddings);
      for i := 0 to |rs|
        invariant embeddings == Filter(EmbeddingOutside(rs[..i]), before)
      {
        OutsideOneMore(before, rs[..i], rs[i]);
        PrefixSnoc(rs, i);
        embeddings := Filter(EmbeddingNotOf(rs[i].id), embeddings);
      }
      assert rs[..|rs|] == rs;
    }

    /** `deleteFileById`: for each resource of the file, its embeddings;
        then the file's resources; then the file. */
    method DeleteFileById(id: Id)
      requires Valid()
      modifies this`embeddings, this`resources, this`files
      ensures Valid()
      ensures var gone := Filter(ResourceOfFile(id), old(resources));
        embeddings == Filter(EmbeddingOutside(gone), old(embeddings))
      ensures resources == Filter(ResourceOutsideFile(id), old(resources))
      ensures files == Filter(FileNotWithId(id), old(files))
      ensures forall r :: r in resources <==> r in old(resources) && r.fileId != id
      ensures forall f :: f in files <==> f in old(files) && f.id != id
      ensures forall e :: e in embeddings <==>
        (e in old(embeddings)
         && !(e.resourceId.Some? && exists r :: r in old(resources) && r.fileId == id && r.id == e.resourceId.value))
    {
      var fileResources := Filter(ResourceOfFile(id), resources);
      ghost var before := embeddings;
      DeleteEmbeddingsOf(fileResources);
      EmbeddingsOfFile(before, resources, id);
      resources := Filter(ResourceOutsideFile(id), resources);
      files := Filter(FileNotWithId(id), files);
    }

    /** `createResource(input, userId)`: validate the input, insert the
        resource, generate the chunk embeddings, insert one row per
        embedding. The call never throws: a failure at any step yields its
        message, and the steps already done stay done. `newId` is the id
        the database generates for the resource; `fault` is the step that
        fails, if any. */
    method CreateResource(
      content: string, fileId: Id, userId: Id, newId: Id, fault: Option<Fault>,
      embedMany: seq<string> -> seq<Chunking.Vector>, sim: Chunking.Similarity)
      returns (message: string, progress: seq<string>)
      requires Valid()
      requires Chunking.OneVectorPerText(embedMany)
      modifies this`resources, this`embeddings
      ensures Valid()
      ensures var generated := Chunking.EmbeddedChunks(content, embedMany, sim);
        var row := Resource(content, userId, fileId, newId);
        match fault
        case None =>
          && message == ResourceCreated
          && progress == ProgressBefore(SaveEmbeddings, |generated|)
          && resources == old(resources) + [row]
          && embeddings == old(embeddings) + StoredRows(newId, userId, generated)
        case Some(f) =>
          && message == ErrorText(f.thrown)
          && progress == ProgressBefore(f.stage, |generated|)
          && resources == old(resources) + (if f.stage in {ParseInput, SaveResource} then [] else [row])
          && embeddings == old(embeddings)
    {
      progress := ProgressBefore(ParseInput, 0);
      if fault.Some? && fault.value.stage == ParseInput {
        return ErrorText(fault.value.thrown), progress;
      }
      progress := ProgressBefore(SaveResource, 0);
      if fault.Some? && fault.value.stage == SaveResource {
        return ErrorText(fault.value.thrown), progress;
      }
      resources := resources + [Resource(content, userId, fileId, newId)];
      progress := ProgressBefore(Generate, 0);
      if fault.Some? && fault.value.stage == Generate {
        return ErrorText(fault.value.thrown), progress;
      }
      var generated := Chunking.GenerateEmbeddings(content, embedMany, sim);
      progress := ProgressBefore(SaveEmbeddings, |generated|);
      if fault.Some? {
        return ErrorText(fault.value.thrown), progress;
      }
      embeddings := embeddings + StoredRows(newId, userId, generated);
      message := ResourceCreated;
    }

    /** `analyzePDFDocument(file, fileId)`: `sessionUser` is the id of the
        signed-in user, absent without a session; `extracted` is the text
        the PDF extractor returns, or the value it throws. */
    method AnalyzePDFDocument(
      sessionUser: Option<Id>, extracted: Result<string, Thrown>, fileId: Id, newId: Id, fault: Option<Fault>,
      embedMany: seq<string> -> seq<Chunking.Vector>, sim: Chunking.Similarity)
      returns (outcome: Outcome, progress: seq<string>)
      requires Valid()
      requires Chunking.OneVectorPerText(embedMany)
      modifies this`resources, this`embeddings
      ensures Valid()
      ensures sessionUser.None? ==>
        outcome == Failure(Thrown(true, "Unauthorized")) && progress == []
      ensures sessionUser.Some? ==> |progress| >= 1 && progress[0] == "Extracting text from PDF..."
      ensures sessionUser.Some? && extracted.Failure? ==>
        outcome == Failure(extracted.error) && progress == ["Extracting text from PDF..."]
      ensures sessionUser.Some? && extracted.Success? && extracted.value == "" ==>
        outcome == Success("No text found in PDF") && progress == ["Extracting text from PDF..."]
      ensures sessionUser.Some? && extracted.Success? && extracted.value != "" ==>
        outcome.Success? && (fault.None? ==> outcome.value == ResourceCreated)
      ensures sessionUser.Some? && extracted.Success? && extracted.value != "" ==>
        var generated := Chunking.EmbeddedChunks(extracted.value, embedMany, sim);
        var row := Resource(extracted.value, sessionUser.value, fileId, newId);
        match fault
        case None =>
          && progress == ["Extracting text from PDF..."] + ProgressBefore(SaveEmbeddings, |generated|)
          && resources == old(resources) + [row]
          && embeddings == old(embeddings) + StoredRows(newId, sessionUser.value, generated)
        case Some(f) =>
          && outcome == Success(ErrorText(f.thrown))
          && progress == ["Extracting text from PDF..."] + ProgressBefore(f.stage, |generated|)
          && resources == old(resources) + (if f.stage in {ParseInput, SaveResource} then [] else [row])
          && embeddings == old(embeddings)
      ensures !(sessionUser.Some? && extracted.Success? && extracted.value != "") ==>
        resources == old(resources) && embeddings == old(embeddings)
    {
      progress := [];
      if sessionUser.None? {
        return Failure(Thrown(true, "Unauthorized")), progress;
      }
      progress := ["Extracting text from PDF..."];
      if extracted.Failure? {
        return Failure(extracted.error), progress;
      }
      var text := extracted.value;
      if |text| > 0 {
        var message, steps := CreateResource(text, fileId, sessionUser.value, newId, fault, embedMany, sim);
        return Success(message), progress + steps;
      } else {
        return Success("No text found in PDF"), progress;
      }
    }
  }

  lemma UniqueTail(votes: seq<Vote>)
    requires |votes| > 0 && VoteKeysUnique(votes)
    ensures VoteKeysUnique(votes[1..])
    ensures forall w :: w in votes[1..] ==> !SameVoteKey(votes[0], w.chatId, w.messageId)
  {
    var tail := votes[1..];
    forall i: nat, j: nat | i < j < |tail| ensures KeysDiffer(tail, i, j) {
      assert KeysDiffer(votes, i + 1, j + 1);
      assert tail[i] == votes[i + 1] && tail[j] == votes[j + 1];
    }
    forall w | w in tail ensures !SameVoteKey(votes[0], w.chatId, w.messageId) {
      var k :| 0 <= k < |tail| && tail[k] == w;
      assert KeysDiffer(votes, 0, k + 1);
      assert votes[k + 1] == w;
    }
  }

  lemma UniqueCons(v: Vote, rest: seq<Vote>)
    requires VoteKeysUnique(rest)
    requires forall w :: w in rest ==> !SameVoteKey(v, w.chatId, w.messageId)
    ensures VoteKeysUnique([v] + rest)
  {
    var r := [v] + rest;
    forall i: nat, j: nat | i < j < |r| ensures KeysDiffer(r, i, j) {
      if i == 0 {
        assert r[j] == rest[j - 1];
        assert r[j] in rest;
      } else {
        assert KeysDiffer(rest, i - 1, j - 1);
        assert r[i] == rest[i - 1] && r[j] == rest[j - 1];
      }
    }
  }

  /** Deleting rows keeps the vote key unique. */
  lemma {:induction false} FilterKeepsUnique(p: Vote -> bool, votes: seq<Vote>)
    requires VoteKeysUnique(votes)
    ensures VoteKeysUnique(Filter(p, votes))
    decreases |votes|
  {
    if |votes| != 0 {
      var tail := votes[1..];
      UniqueTail(votes);
      FilterKeepsUnique(p, tail);
      if p(votes[0]) {
        UniqueCons(votes[0], Filter(p, tail));
      }
    }
  }
}
