/** Row shapes of the tables the queries read and write, with the keys the
    queries rely on. Vectors are kept as sequences of reals; their fixed
    dimension is a property of the column, not of any query. */
module Schema {
  import opened Wrappers

  type Id = string

  /** A `timestamp` column, as a number on a common clock. */
  type Timestamp = int

  datatype Visibility = Public | Private

  datatype Chat = Chat(id: Id, createdAt: Timestamp, title: string, userId: Id, visibility: Visibility)

  datatype Message = Message(id: Id, chatId: Id, role: string, content: string, createdAt: Timestamp)

  /** Primary key (chatId, messageId). */
  datatype Vote = Vote(chatId: Id, messageId: Id, isUpvoted: bool)

  datatype DocumentKind = TextKind | CodeKind

  /** Primary key (id, createdAt): one id can have several versions. */
  datatype Document = Document(
    id: Id, createdAt: Timestamp, title: string, content: Option<string>, kind: DocumentKind, userId: Id)

  /** Refers to the document version (documentId, documentCreatedAt). */
  datatype Suggestion = Suggestion(
    id: Id, documentId: Id, documentCreatedAt: Timestamp, originalText: string, suggestedText: string,
    description: Option<string>, isResolved: bool, userId: Id, createdAt: Timestamp)

  /** The only values the `status` column admits. */
  datatype FileStatus = Processing | Processed | Failed

  datatype FileRow = FileRow(
    id: Id, url: string, userId: Id, fileType: string, name: string, createdAt: Timestamp,
    status: Option<FileStatus>, description: Option<string>)

  /** One raw text unit extracted from a file. */
  datatype Resource = Resource(content: string, userId: Id, fileId: Id, id: Id)

  /** A stored chunk: a nullable back-reference to its resource, the chunk
      text, its vector and its owner. */
  datatype EmbeddingRow = EmbeddingRow(resourceId: Option<Id>, content: string, embedding: seq<real>, userId: Id)

  predicate SameVoteKey(v: Vote, chatId: Id, messageId: Id) {
    v.chatId == chatId && v.messageId == messageId
  }

  /** The votes at `i` and `j` have different keys. */
  predicate KeysDiffer(votes: seq<Vote>, i: nat, j: nat)
    requires i < |votes| && j < |votes|
  {
    !SameVoteKey(votes[i], votes[j].chatId, votes[j].messageId)
  }

  /** The primary key of the vote table. */
  ghost predicate VoteKeysUnique(votes: seq<Vote>) {
    forall i: nat, j: nat :: i < j < |votes| ==> KeysDiffer(votes, i, j)
  }
}
