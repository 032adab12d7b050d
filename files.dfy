/** The records the file actions read and write: the `FileType` union and
    the `FileDocument` fields of types/index.d.ts, the current user, a
    backend listing and a thrown error. */
module Files {

  /** The closed union `"document" | "image" | "video" | "audio" | "other"`. */
  datatype FileType = Document | Image | Video | Audio | Other

  /** What a document's `users` field, or the result of `JSON.parse`, can
      be as far as the file actions can tell: a string, an array, or
      anything else (number, boolean, null, object, undefined). */
  datatype Value = Str(text: string) | Arr(items: seq<Value>) | OtherValue

  /** A document of the files collection. `id` is `$id`; `updatedAt` is
      `$updatedAt` read as a timestamp. */
  datatype FileDocument = FileDocument(
    id: string,
    fileType: FileType,
    name: string,
    url: string,
    extension: string,
    size: int,
    owner: string,
    accountId: string,
    users: Value,
    bucketFileId: string,
    updatedAt: int)

  /** The authenticated user's document; an absent `accountId` is "". */
  datatype User = User(id: string, email: string, accountId: string)

  /** What `listDocuments` returns. */
  datatype DocList = DocList(total: int, documents: seq<FileDocument>)

  /** A thrown error, through the text `String(err.message)` gives. */
  datatype Error = Error(message: string)

  const UserNotFound := Error("User not found")
  const NotAuthenticated := Error("User is not authenticated.")
  const MissingAccountId := Error("Missing accountId for file document")

  /** The `$id`s of a list of documents. */
  function Ids(docs: seq<FileDocument>): set<string> {
    set d <- docs :: d.id
  }

  /** No two documents of the list share an `$id`. */
  predicate DistinctIds(docs: seq<FileDocument>) {
    forall i, j :: 0 <= i < j < |docs| ==> docs[i].id != docs[j].id
  }
}
