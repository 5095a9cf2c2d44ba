# RAG chatbot ingestion and recall, modelled in Dafny

This project models the core of a retrieval-augmented chat application and proves properties of that model:

- **Ingestion.** A PDF's text is split into sentences by a regular expression. Neighbouring sentences whose embedding vectors are similar are grouped into chunks. The chunks are embedded and stored with a back-reference to their resource and their owner.
- **Recall.** A question is expanded into a hypothetical answer, which is embedded. The caller's stored chunks are ranked by similarity to it: at most ten are kept, all above a floor of 0.3.
- **Query layer.** Operations that delete, update and insert rows in the chat, vote, document, file, resource and embedding tables. They are modelled over in-memory tables: `class Database`, one `seq` field per table.
- **Graph endpoint.** Builds the user's knowledge graph (files, resources and links between them).
- **Client components.**
  - The ingestion progress viewer: stage classification, forward-only stepping, displayed steps and the progress bar.
  - The knowledge-base panel: selection, the newline-delimited JSON upload stream, and bulk delete.
  - The research-process panel: trace unwrapping and evaluation rendering.

Files:

| file | content |
|---|---|
| `wrappers.dfy` | `Option`, `Result` |
| `seqs.dfy` | order-preserving `Filter` (a `WHERE` clause, `Array.prototype.filter`) and its laws |
| `strings.dfy` | `includes`, `join(" ")`, decimal rendering of a count |
| `ranking.dfy` | `ORDER BY … DESC LIMIT n` as a stable descending sort followed by a prefix |
| `sentences.dfy` | the sentence expression `[^.!?]+[.!?]+[\])'"]*` with the `g` flag, as a scanner |
| `chunking.dfy` | the grouping loop of `generateEmbeddings` and its pairing with the chunk vectors |
| `embedding_input.dfy` | the `replaceAll("\\n", " ")` normaliser of `generateEmbedding` |
| `recall.dfy` | `findRelevantContent` |
| `schema.dfy` | row shapes and the vote primary key |
| `queries.dfy` | the query layer, `class Database` |
| `graph.dfy` | `GET /api/graph` |
| `viewer.dfy` | the ingestion viewer, `class RagProcessViewer` |
| `knowledge_base.dfy` | the knowledge-base panel, `class KnowledgeBasePanel` |
| `research.dfy` | the research-process panel |

Modelling choices:

- **External services and I/O become parameters.** The language-model call, the embedding calls, the similarity score, the PDF text extractor, the session, the database's generated ids, and which step of a sequence throws are all given as parameters.
- **The sentence expression.** It is modelled as the scan a backtracking engine performs:
  - a match starting at a position takes the longest run of non-terminators, then of terminators, then of closing characters;
  - a position holding a terminator cannot start a match;
  - text that never reaches a terminator ends the search.
- **Sentences keep their leading blanks.** The class `[^.!?]` accepts spaces, so every sentence after the first carries whatever blanks follow the previous match. That is usually the space after a terminator, but in `Hi.) there!` it is the space after the closing parenthesis, and in `A.B.` there is none. Grouping then joins sentences with one more space.
- **"Newest first".** It is a descending insertion sort on the timestamp. The model does not state how ties are ordered (see "Left out").
- **The viewer's props.** The viewer's `Props` are `currentMessage` and `currentEvent`, but the knowledge-base panel mounts it with an `events` prop (components/knowledge-base.tsx:193-197). The viewer is therefore modelled as driven by individual messages and events, as its own props require.
- **`toggleSelectAll` compares sizes only.** It compares the size of the selection with the number of listed files. A selection holding an id that is no longer listed can therefore be cleared while a listed file is still unselected. `SelectAllComparesSizes` exhibits one such input. The model keeps this behaviour, as the code is written.

## Model

| member | source | states |
|---|---|---|
| Seqs.Filter | lib/db/queries.ts:389 | the rows kept are exactly the rows of the table satisfying the clause, each no more often than in the table, none added |
| Ranking.SortDesc | lib/ai/embedding.ts:132 | the ordered rows are a permutation of the input, sorted by descending key |
| Ranking.Take | lib/ai/embedding.ts:133 | `LIMIT n` keeps the first `min(n, |rows|)` rows |
| Ranking.TopOfSorted | lib/ai/embedding.ts:132-133 | a limited, sorted result is sorted, is a sub-multiset of the input, and every row left out has a key no greater than the last row kept |
| Sentences.MatchesFrom | lib/ai/embedding.ts:22 | the global match yields spans in left-to-right order, pairwise disjoint, inside the text, each a whole match: non-terminators, then terminators, then closing characters; each match is maximal: the character after it is not a closing character, nor a terminator when the match ends in terminators |
| Sentences.MatchesCover | lib/ai/embedding.ts:22 | the search skips nothing that could start a sentence: every non-terminator with a terminator somewhere after it lies inside a match |
| Sentences.SentenceEndCovered | lib/ai/embedding.ts:22 | the non-terminator before every terminator that follows one lies inside a match |
| Sentences.StrayTerminatorAfterCloser | lib/ai/embedding.ts:22 | in `A.).` the only match is `A.)`; the last terminator follows a non-terminator yet belongs to no match |
| Sentences.Sentences | lib/ai/embedding.ts:22 | the sentence list is never empty |
| Sentences.NoMatchIff | lib/ai/embedding.ts:22 | the search finds nothing exactly when no terminator follows a non-terminator |
| Sentences.SentencesFallback | lib/ai/embedding.ts:22 | when nothing matches, the sentence list is `[value]` |
| Sentences.EmptyTextIsOneSentence | lib/ai/embedding.ts:22 | the empty text gives `[""]` |
| Sentences.SentencesAreMatches | lib/ai/embedding.ts:22 | when something matches: the sentences are exactly the matched substrings, in order, disjoint; each is non-empty, contains a terminator and has the match's shape |
| Sentences.TrailingTextDropped | lib/ai/embedding.ts:22 | text after the last terminator which is not a closing character belongs to no sentence |
| Chunking.ChunkStarts | lib/ai/embedding.ts:38-66 | sentence `i` opens a chunk exactly when `i` is 0 or the similarity of sentence `i-1`'s vector with sentence `i`'s vector is not above 0.5; the starts are strictly increasing, begin at 0 and are at most as many as the sentences |
| Chunking.GroupSentences | lib/ai/embedding.ts:34-68 | the loop yields the reference segmentation; at least one chunk and never more than there are sentences; joining the chunks with spaces equals joining the sentences with spaces |
| Chunking.SegmentsJoin | lib/ai/embedding.ts:55-68 | cutting the sentences at the starts and joining each segment, then joining the segments, loses nothing and keeps the order |
| Chunking.Pair | lib/ai/embedding.ts:91-94 | one `{ content, embedding }` element per chunk |
| Chunking.PairUnzips | lib/ai/embedding.ts:91-94 | element `i` holds chunk `i` and vector `i` |
| Chunking.EmbeddedChunks | lib/ai/embedding.ts:17-95 | between one chunk and as many chunks as sentences; the chunk contents joined with spaces equal the sentences joined with spaces; each chunk's vector is the capability's vector for it |
| Chunking.GenerateEmbeddings | lib/ai/embedding.ts:17-95 | with one vector per input text: the result pairs the chunks of the grouping with their vectors; it has between one element and as many elements as sentences; its contents joined with spaces equal the sentences joined with spaces |
| EmbeddingInput.Normalise | lib/ai/embedding.ts:99 | the normalised input is never longer than the raw one |
| EmbeddingInput.NormaliseLength | lib/ai/embedding.ts:99 | each left-to-right, non-overlapping backslash-`n` pair shortens the text by exactly one character |
| EmbeddingInput.NoEscapedNewlineLeft | lib/ai/embedding.ts:99 | the normalised input contains no backslash-`n` pair |
| EmbeddingInput.NormaliseIdentity | lib/ai/embedding.ts:99 | a text without a backslash-`n` pair is left unchanged |
| EmbeddingInput.NormaliseIdempotent | lib/ai/embedding.ts:99 | normalising twice equals normalising once |
| EmbeddingInput.NormaliseAround | lib/ai/embedding.ts:99 | a backslash-`n` pair between two texts becomes one space between their normalised forms; no replacement reaches across it |
| EmbeddingInput.GenerateEmbedding | lib/ai/embedding.ts:98-105 | a text without a backslash-`n` pair is embedded exactly as given |
| EmbeddingInput.GenerateEmbeddingIgnoresEscapes | lib/ai/embedding.ts:98-105 | embedding an already normalised text gives the same vector as embedding the raw text |
| Recall.Candidates | lib/ai/embedding.ts:123-131 | a candidate is selected exactly when it is the content and score of a row owned by the caller with similarity above 0.3 |
| Recall.RecallRows | lib/ai/embedding.ts:123-134 | at most ten rows, sorted by descending similarity, and no row more often than it is eligible |
| Recall.RecallContract | lib/ai/embedding.ts:123-134 | at most ten rows, exactly `min(10, eligible)`, each from a caller-owned row above 0.3, sorted by descending similarity, a sub-multiset of the eligible rows; every eligible row left out scores no higher than the last row returned |
| Recall.RecallIsOwnerScoped | lib/ai/embedding.ts:129 | rows of other users never change the result |
| Recall.NothingAboveFloor | lib/ai/embedding.ts:128 | with no row above 0.3 the result is empty |
| Recall.FindRelevantContent | lib/ai/embedding.ts:107-135 | at most ten rows, most similar first |
| Recall.FindRelevantContentContract | lib/ai/embedding.ts:107-135 | every returned row is a caller-owned chunk whose similarity with the embedded, normalised hypothetical answer exceeds 0.3; rows are most similar first; at most ten |
| Strings.Includes | components/rag-process-viewer.tsx:66-71 | `includes` holds exactly when the substring occurs at some index |
| Strings.NatToString | lib/db/queries.ts:441 | the rendered count is a non-empty string of decimal digits with no leading zero except for 0 itself |
| Strings.NatToStringRoundTrip | lib/db/queries.ts:441 | the rendered digits read back as the count |
| Queries.GetChatsByUserId | lib/db/queries.ts:92-102 | an empty id fails with "User ID is required" and only then; otherwise the result is the user's chats, all of them and no others, newest first |
| Queries.FindVote | lib/db/queries.ts:151-154 | the lookup finds the first vote with the (chatId, messageId) key, or reports none |
| Queries.CastVote | lib/db/queries.ts:150-167 | the vote with the given direction is in the table; an existing key keeps the table size; a new key appends the vote at the end and changes nothing else |
| Queries.CastVoteContract | lib/db/queries.ts:150-167 | after a vote: exactly one vote with the key, with `isUpvoted == (type == "up")`; every vote with another key is kept and none is added; the key stays unique |
| Queries.FilterKeepsUnique | lib/db/schema.ts:66 | deleting votes keeps the (chatId, messageId) primary key unique |
| Queries.SetFileStatus | lib/db/queries.ts:405-408 | only the status column of the rows with the id changes, to the given value; every other row is unchanged |
| Queries.ErrorText | lib/db/queries.ts:451-455 | the message returned for a caught value is its message when it is an `Error` with a non-empty message, otherwise "Error, please try again."; never empty |
| Queries.ProgressBefore | lib/db/queries.ts:432-441 | the trace emitted before a step holds one message per earlier step and is a prefix of the full trace "Saving raw resource...", "Generating semantic embeddings...", "Saving n embeddings..." |
| Queries.StoredRows | lib/db/queries.ts:442-448 | one embedding row per generated embedding, with its content and vector, the new resource's id and the caller's id |
| Queries.OutsideOneMore | lib/db/queries.ts:391-393 | deleting one more resource's embeddings leaves the rows pointing at none of the resources handled so far |
| Queries.EmbeddingsOfFile | lib/db/queries.ts:387-398 | the embeddings left are exactly those that do not point at a resource of the file; rows with no resource are kept |
| Queries.Database.DeleteChatById | lib/db/queries.ts:80-86 | removes exactly the votes and messages with the chat id and the chat itself; keeps the vote key unique |
| Queries.Database.VoteMessage | lib/db/queries.ts:141-172 | updates the existing vote in place or appends one; exactly one vote with the key afterwards, with the direction given; other votes unchanged |
| Queries.Database.DeleteDocumentsByIdAfterTimestamp | lib/db/queries.ts:249-260 | removes the suggestions and document versions of the id created strictly after the timestamp, and nothing else |
| Queries.Database.DeleteMessagesByChatIdAfterTimestamp | lib/db/queries.ts:315-319 | removes the chat's messages created at or after the timestamp, and nothing else |
| Queries.Database.UpdateFileStatus | lib/db/queries.ts:405-408 | the file table becomes `SetFileStatus` of the old one; no other table changes |
| Queries.Database.DeleteEmbeddingsOf | lib/db/queries.ts:391-393 | the loop over the file's resources deletes exactly the embeddings pointing at one of them |
| Queries.Database.DeleteFileById | lib/db/queries.ts:387-398 | no resource of the file, no embedding of those resources and no file with the id remains; other files, resources and embeddings, including those with no resource, are kept |
| Queries.Database.CreateResource | lib/db/queries.ts:423-456 | never throws; on success it inserts one resource and one embedding row per generated chunk (resource id and caller id set) and returns "Resource successfully created and embedded."; the progress trace is save raw, generate, save n, cut at the failing step; a failure returns `ErrorText` of the thrown value and keeps a resource already inserted |
| Queries.Database.AnalyzePDFDocument | lib/db/queries.ts:478-509 | without a session it throws "Unauthorized", emits nothing and changes nothing; with one it first emits "Extracting text from PDF..."; an extractor error is rethrown and empty text returns "No text found in PDF", both with only that message and no new rows; other text goes to `createResource` for the session user: on success one resource and its embedding rows are inserted and the trace continues with save raw, generate, save n; a failure at a step returns `ErrorText` of the thrown value, cuts the trace at that step, keeps the resource if it was already inserted and inserts no embeddings |
| Graph.Prefix | app/api/graph/route.ts:36 | the preview is the first `min(n, |s|)` characters of the content (characters, where `substring` counts UTF-16 code units; see "Left out") |
| Graph.Get | app/api/graph/route.ts:9-53 | 401 exactly when there is no session user id; a status response only then or when a query fails, and a failing query for a signed-in user gives 500 "Internal Server Error" |
| Graph.GraphShape | app/api/graph/route.ts:27-46 | file nodes first, then resource nodes, one per row of the user; file nodes named after the file or "Untitled File", type "file", val 10; resource nodes named by the first 20 characters plus "...", type "resource", val 5, full content kept; link `i` goes from resource `i`'s file to resource `i` and targets its node |
| Graph.GraphIsOwnerScoped | app/api/graph/route.ts:17-25 | every node comes from a file or resource of the user, and every such row is present |
| Viewer.Classify | components/rag-process-viewer.tsx:65-72 | the announced stage is one of the five stages or the current one |
| Viewer.ClassifyIsStageOrCurrent | components/rag-process-viewer.tsx:65-72 | a message matching no rule keeps the stage; a matching one gives a stage independent of the current one |
| Viewer.ExtractingWins | components/rag-process-viewer.tsx:66 | the first rule takes precedence: a message mentioning "Extracting" is stage 0 |
| Viewer.DisplayedSteps | components/rag-process-viewer.tsx:87-91 | one displayed step per stage |
| Viewer.DisplayedStepsContract | components/rag-process-viewer.tsx:87-91 | steps before the view are completed, the one at the view current, later ones pending; ids in order; exactly one current step before the final screen and none on it |
| Viewer.Progress | components/rag-process-viewer.tsx:103 | the bar is at least 5 and at most 100 for every view up to the final screen |
| Viewer.ProgressContract | components/rag-process-viewer.tsx:103 | progress is at least 5, is 25 per stage once the view has moved, is 100 on the final screen, and grows with the view |
| Viewer.RagProcessViewer.OnMessage | components/rag-process-viewer.tsx:62-77 | an empty message changes nothing; otherwise the server stage moves to the classified stage only when that is later; it never decreases |
| Viewer.RagProcessViewer.HandleNext | components/rag-process-viewer.tsx:93-97 | the view moves one stage forward while below 4 and stays within 0 to 4 |
| Viewer.RagProcessViewer.ClickNext | components/rag-process-viewer.tsx:159-164 | a disabled button does nothing; the view never passes the server stage |
| KnowledgeBase.SplitLines | components/knowledge-base.tsx:92 | the pieces contain no newline and join back to the chunk |
| KnowledgeBase.SplitJoin | components/knowledge-base.tsx:92 | splitting lines joined by newlines gives them back |
| KnowledgeBase.Lines | components/knowledge-base.tsx:92 | the lines kept are exactly the split pieces whose trim is not empty |
| KnowledgeBase.ApplyEvent | components/knowledge-base.tsx:96-97 | every parsed value is appended to the events |
| KnowledgeBase.ApplyEventContract | components/knowledge-base.tsx:99-110 | progress or log with a message sets the step to it; complete sets "Processing complete."; error clears the uploading flag; a non-object changes neither |
| KnowledgeBase.ApplyLines | components/knowledge-base.tsx:92-114 | the events received before the chunk are kept as a prefix, and each line adds at most one event |
| KnowledgeBase.ApplyChunks | components/knowledge-base.tsx:87-115 | the events received before the stream are kept as a prefix |
| KnowledgeBase.Parsed | components/knowledge-base.tsx:94-97 | no more parsed values than lines |
| KnowledgeBase.EventsInArrivalOrder | components/knowledge-base.tsx:94-113 | parsed values are appended in arrival order; unparsable lines are skipped and do not stop later ones |
| KnowledgeBase.UnparsableLineIgnored | components/knowledge-base.tsx:111-113 | removing a line that fails to parse changes nothing |
| KnowledgeBase.UploadingOnlyClears | components/knowledge-base.tsx:107-110 | stream events never set the uploading flag again |
| KnowledgeBase.ChunksInArrivalOrder | components/knowledge-base.tsx:87-115 | over all chunks, parsed values are appended chunk by chunk in order |
| KnowledgeBase.UploadOutcome | components/knowledge-base.tsx:59-121 | only a PDF changes the state, and after a PDF upload the events start with the start log |
| KnowledgeBase.UploadOutcomeContract | components/knowledge-base.tsx:59-121 | no file or a non-PDF leaves the state; a failed request leaves only the start log with the viewer closed and the step cleared; a failed read keeps the events received and closes the viewer; a completed read leaves the flag to the stream events |
| KnowledgeBase.UploadEvents | components/knowledge-base.tsx:68-115 | a PDF upload resets the events to the single start log, then appends every parsed value in order |
| KnowledgeBase.Toggle | components/knowledge-base.tsx:174-181 | flips the membership of the id and leaves every other id alone |
| KnowledgeBase.ToggleTwice | components/knowledge-base.tsx:174-181 | toggling twice restores the selection |
| KnowledgeBase.FileIds | components/knowledge-base.tsx:187 | exactly the ids of the listed files |
| KnowledgeBase.SelectAll | components/knowledge-base.tsx:183-189 | empties the selection when its size equals the number of files, otherwise selects exactly the files' ids |
| KnowledgeBase.SelectAllComparesSizes | components/knowledge-base.tsx:184 | a selection of the right size but with a stale id is cleared although a listed file is unselected |
| KnowledgeBase.KnowledgeBasePanel.ToggleSelection | components/knowledge-base.tsx:174-181 | the selection becomes `Toggle` of the old one |
| KnowledgeBase.KnowledgeBasePanel.ToggleSelectAll | components/knowledge-base.tsx:183-189 | the selection becomes `SelectAll` of the old one |
| KnowledgeBase.KnowledgeBasePanel.HandleLine | components/knowledge-base.tsx:95-113 | one line: skipped when it does not parse, otherwise appended and dispatched |
| KnowledgeBase.KnowledgeBasePanel.HandleChunk | components/knowledge-base.tsx:92-114 | the chunk's non-blank lines are handled in order |
| KnowledgeBase.KnowledgeBasePanel.HandleChunks | components/knowledge-base.tsx:87-115 | the read loop handles the decoded chunks in arrival order, each as `HandleChunk` does |
| KnowledgeBase.KnowledgeBasePanel.HandleFileChange | components/knowledge-base.tsx:59-128 | no file or a non-PDF changes nothing; otherwise the upload state is reset, the stream is handled chunk by chunk, and a failed request or read closes the viewer and clears the step |
| KnowledgeBase.KnowledgeBasePanel.HandleBulkDelete | components/knowledge-base.tsx:151-172 | an empty selection or an unconfirmed dialog sends nothing; an ok response clears the selection |
| Research.Traces | components/research-process.tsx:14-16 | no more traces than data items |
| Research.TracesAppend | components/research-process.tsx:14-16 | unwrapping keeps input order |
| Research.TracesMembers | components/research-process.tsx:14-16 | the traces are exactly the contents of the items of type "trace" |
| Research.Hyde | components/research-process.tsx:19 | the first trace of type "hyde-generated", or none exactly when there is no such trace |
| Research.Evaluations | components/research-process.tsx:20 | the evaluations are exactly the traces of type "react-evaluation", no more than the traces |
| Research.Quote | components/research-process.tsx:76-79 | a quote is shown exactly when the evaluation is relevant and has a non-empty quote list, and it is the first quote |
| Research.RenderContract | components/research-process.tsx:10-79 | nothing is rendered exactly when there is no data or neither an evaluation nor a HyDE trace; otherwise the header counts the evaluations, there is one entry per evaluation in order with "Relevant Content Found" or "Discarded", and the HyDE text is present exactly when a HyDE trace exists and is then the content of the first HyDE trace |
| Research.Render | components/research-process.tsx:7-79 | no data renders nothing; a panel's header count equals its number of entries and is at most the number of traces |

## Left out

- Calls to the language model and the embedding model: they are opaque function parameters. The unused placeholder `Promise.all` in `generateEmbeddings` has no effect and is not modelled.
- Cosine similarity, `toFixed` and floating-point rounding: similarity is an abstract real-valued function or a given score. The 1536-dimension vector column is not modelled.
- Progress events of `generateEmbeddings` (sentence count, similarity samples, chunk previews): they are fire-and-forget logging. The progress messages of `createResource` and `analyzePDFDocument` are modelled as an output trace.
- Postgres I/O errors other than the ones modelled as faults, foreign-key cascades, user lookup and creation with bcrypt hashing (lib/db/queries.ts:37-56), and the other plain select and insert queries of the query layer.
- Database-generated ids: the resource's id is a parameter. Embedding row ids are random, are not a key, and are not modelled.
- PDF parsing: the extractor is a parameter returning either text or a thrown value.
- Queries.Database.CreateResource: the input validation of `insertResourceSchema` is modelled as a step that may throw, not by its field rules.
- Queries.GetChatsByUserId: when several chats share a timestamp, the model does not fix their relative order. SQL does not fix it either.
- Graph.Get: a session whose user has no id is modelled as the empty id. A failure of either query is one boolean.
- Viewer: the comparison-data effect, the step titles, descriptions and icons are rendering only. `handleFinish` only calls `onClose`.
- KnowledgeBase: toasts, `fetchFiles` after a completed upload, the file-input reset, `handleDelete`, and the text decoding of bytes. Each chunk is given already decoded, so a character split across reads is not modelled.
- KnowledgeBase.Parsed: only the bound on its length is stated on the function; its content is stated through EventsInArrivalOrder.
- Graph.Prefix: the preview counts characters, but `substring(0, 20)` counts UTF-16 code units, so for content with characters outside the Basic Multilingual Plane the source can keep fewer characters or cut a surrogate pair in half. Strings are sequences of Unicode characters here, and a lone surrogate has no value of that type.
- KnowledgeBase.ApplyEventContract: a `message` that is truthy but not a string (a number, an object) would also become the step shown in the source; the model treats a non-string `message` as missing.
- Research: a trace item without a `content` would make `find` throw. Every trace item is modelled with content.
- Fetch-and-render components, navigation, the code editor, the sidebar, the loading overlay's timer, the debug scripts, and the declarations-only files are not part of this model.
