/** The state-changing file actions of lib/actions/file.actions.ts:
    `uploadFile`, `renameFile`, `updateFileUsers` and `deleteFile`, over
    the backend's storage bucket and files collection. */
module Mutations {
  import opened Wrappers
  import opened Files

  /** The backend as the file actions change it. */
  class Store {
    /** The ids of the objects in the storage bucket. */
    var objects: set<string>
    /** The files collection, by `$id`. */
    var documents: map<string, FileDocument>

    constructor (objects: set<string>, documents: map<string, FileDocument>)
      ensures this.objects == objects && this.documents == documents
    {
      this.objects := objects;
      this.documents := documents;
    }

    /** Every document's storage object exists. */
    ghost predicate Linked()
      reads this
    {
      forall id <- documents :: documents[id].bucketFileId in objects
    }
  }

  /** The backend's own "not found" failures (its wording is not part of this model). */
  const DocumentNotFound := Error("document not found")
  const ObjectNotFound := Error("storage object not found")

  /** Who a new document belongs to. */
  datatype Ownership = Ownership(owner: string, accountId: string)

  /** Lines 27-40: a missing `ownerId` or `accountId` ("" when absent) is
      taken from the current user, if any; without an account id the
      upload fails. A given value is never overridden. */
  function ResolveOwnership(ownerId: string, accountId: string, currentUser: Option<User>): (r: Result<Ownership, Error>)
    ensures r.Failure? <==> accountId == "" && (currentUser.None? || currentUser.value.accountId == "")
    ensures r.Failure? ==> r.error == MissingAccountId
    ensures r.Success? ==> r.value.accountId != ""
    ensures r.Success? && ownerId != "" ==> r.value.owner == ownerId
    ensures r.Success? && accountId != "" ==> r.value.accountId == accountId
    ensures r.Success? && ownerId == "" ==> r.value.owner == (if currentUser.Some? then currentUser.value.id else "")
    ensures r.Success? && accountId == "" ==> currentUser.Some? && r.value.accountId == currentUser.value.accountId
  {
    var derived :=
      if (ownerId == "" || accountId == "") && currentUser.Some? then
        Ownership(if ownerId != "" then ownerId else currentUser.value.id,
                  if accountId != "" then accountId else currentUser.value.accountId)
      else Ownership(ownerId, accountId);
    if derived.accountId == "" then Failure(MissingAccountId) else Success(derived)
  }

  /** The file being uploaded. */
  datatype Upload = Upload(ownerId: string, accountId: string, fileName: string, fileSize: int)

  /** What the backend answers to the upload's three calls: `None` for
      success, or the error `createFile`, `createDocument` or the
      compensating `deleteFile` throws. */
  datatype UploadAnswers = UploadAnswers(store: Option<Error>, create: Option<Error>, compensate: Option<Error>)

  /** The document lines 50-61 describe for a stored object. `getFileType`
      and `constructFileUrl` are given as `fileTypeOf`, `extensionOf` and `urlOf`. */
  function NewDocument(id: string, own: Ownership, upload: Upload, objectId: string, now: int,
                       fileTypeOf: string -> FileType, extensionOf: string -> string, urlOf: string -> string)
    : FileDocument
  {
    FileDocument(
      id := id,
      fileType := fileTypeOf(upload.fileName),
      name := upload.fileName,
      url := urlOf(objectId),
      extension := extensionOf(upload.fileName),
      size := upload.fileSize,
      owner := own.owner,
      accountId := own.accountId,
      users := Str("[]"),
      bucketFileId := objectId,
      updatedAt := now)
  }

  /** `uploadFile`: resolve the ownership, store the object, then create its
      document; when the document cannot be created, delete the object just
      stored and rethrow, so that on failure no new object remains unless
      the compensating delete fails too. `objectId` and `documentId` are the
      fresh ids `ID.unique()` yields; `now` is the creation time. */
  method UploadFile(store: Store, upload: Upload, currentUser: Option<User>,
                    objectId: string, documentId: string, now: int,
                    fileTypeOf: string -> FileType, extensionOf: string -> string, urlOf: string -> string,
                    answers: UploadAnswers)
    returns (r: Result<FileDocument, Error>)
    requires objectId !in store.objects && documentId !in store.documents
    modifies store
    ensures var own := ResolveOwnership(upload.ownerId, upload.accountId, currentUser);
      own.Failure? ==> r == Failure(own.error) && unchanged(store)
    ensures var own := ResolveOwnership(upload.ownerId, upload.accountId, currentUser);
      own.Success? && answers.store.Some? ==> r == Failure(answers.store.value) && unchanged(store)
    ensures var own := ResolveOwnership(upload.ownerId, upload.accountId, currentUser);
      own.Success? && answers.store.None? && answers.create.Some? ==>
        && store.documents == old(store.documents)
        && (answers.compensate.None? ==> r == Failure(answers.create.value) && store.objects == old(store.objects))
        && (answers.compensate.Some? ==>
              r == Failure(answers.compensate.value) && store.objects == old(store.objects) + {objectId})
    ensures var own := ResolveOwnership(upload.ownerId, upload.accountId, currentUser);
      own.Success? && answers.store.None? && answers.create.None? ==>
        && r == Success(NewDocument(documentId, own.value, upload, objectId, now, fileTypeOf, extensionOf, urlOf))
        && store.objects == old(store.objects) + {objectId}
        && store.documents == old(store.documents)[documentId := r.value]
    ensures old(store.Linked()) ==> store.Linked()
  {
    var own := ResolveOwnership(upload.ownerId, upload.accountId, currentUser);
    if own.Failure? {
      return Failure(own.error);
    }
    if answers.store.Some? {
      return Failure(answers.store.value);
    }
    store.objects := store.objects + {objectId};
    var doc := NewDocument(documentId, own.value, upload, objectId, now, fileTypeOf, extensionOf, urlOf);
    if answers.create.Some? {
      if answers.compensate.Some? {
        return Failure(answers.compensate.value);
      }
      store.objects := store.objects - {objectId};
      return Failure(answers.create.value);
    }
    store.documents := store.documents[documentId := doc];
    r := Success(doc);
  }

  /** Line 214: the stored name is the name, a dot, and the extension. */
  function RenamedName(name: string, extension: string): (r: string)
    ensures |r| == |name| + 1 + |extension|
    ensures r[..|name|] == name && r[|name|] == '.' && r[|name| + 1..] == extension
  {
    name + "." + extension
  }

  /** Where the last `.` of `s` stands, if there is one. */
  function LastDot(s: string): (r: Option<nat>)
    ensures r.Some? ==> r.value < |s| && s[r.value] == '.'
    ensures forall j :: (if r.Some? then r.value + 1 else 0) <= j < |s| ==> s[j] != '.'
    decreases |s|
  {
    if s == [] then None
    else if s[|s| - 1] == '.' then Some(|s| - 1)
    else LastDot(s[..|s| - 1])
  }

  /** For an extension without a dot, the renamed name splits back at its
      last dot into the name and the extension. */
  lemma RenamedNameSplitsBack(name: string, extension: string)
    requires '.' !in extension
    ensures var r := RenamedName(name, extension);
      LastDot(r) == Some(|name|) && r[..|name|] == name && r[|name| + 1..] == extension
  {
  }

  /** `renameFile`: only the document's name changes, to `name.extension`,
      and the backend stamps it with the update time `now`. `answer` is the
      error `updateDocument` throws for an existing document, if any; it is
      rethrown and nothing changes. */
  method RenameFile(store: Store, fileId: string, name: string, extension: string, now: int,
                    answer: Option<Error>)
    returns (r: Result<FileDocument, Error>)
    modifies store
    ensures fileId !in old(store.documents) ==> r == Failure(DocumentNotFound) && unchanged(store)
    ensures fileId in old(store.documents) && answer.Some? ==> r == Failure(answer.value) && unchanged(store)
    ensures fileId in old(store.documents) && answer.None? ==>
      && r == Success(old(store.documents)[fileId].(name := RenamedName(name, extension), updatedAt := now))
      && store.documents == old(store.documents)[fileId := r.value]
      && store.objects == old(store.objects)
    ensures old(store.Linked()) ==> store.Linked()
  {
    if fileId !in store.documents {
      return Failure(DocumentNotFound);
    }
    if answer.Some? {
      return Failure(answer.value);
    }
    var updated := store.documents[fileId].(name := RenamedName(name, extension), updatedAt := now);
    store.documents := store.documents[fileId := updated];
    r := Success(updated);
  }

  /** `updateFileUsers`: only the document's `users` changes, to the
      serialised email list (`JSON.stringify` is given as `serialize`), and
      the backend stamps it with the update time `now`. `answer` is the
      error `updateDocument` throws for an existing document, if any; it is
      rethrown and nothing changes. */
  method UpdateFileUsers(store: Store, fileId: string, emails: seq<string>, serialize: seq<string> -> string,
                         now: int, answer: Option<Error>)
    returns (r: Result<FileDocument, Error>)
    modifies store
    ensures fileId !in old(store.documents) ==> r == Failure(DocumentNotFound) && unchanged(store)
    ensures fileId in old(store.documents) && answer.Some? ==> r == Failure(answer.value) && unchanged(store)
    ensures fileId in old(store.documents) && answer.None? ==>
      && r == Success(old(store.documents)[fileId].(users := Str(serialize(emails)), updatedAt := now))
      && store.documents == old(store.documents)[fileId := r.value]
      && store.objects == old(store.objects)
    ensures old(store.Linked()) ==> store.Linked()
  {
    if fileId !in store.documents {
      return Failure(DocumentNotFound);
    }
    if answer.Some? {
      return Failure(answer.value);
    }
    var updated := store.documents[fileId].(users := Str(serialize(emails)), updatedAt := now);
    store.documents := store.documents[fileId := updated];
    r := Success(updated);
  }

  /** What the backend answers to `deleteFile`'s calls: the error
      `deleteDocument` throws for an existing document, if any; whether its
      answer is truthy; and the error `storage.deleteFile` throws for an
      existing object, if any. */
  datatype DeleteAnswers = DeleteAnswers(document: Option<Error>, deletedTruthy: bool, storage: Option<Error>)

  /** `deleteFile`: the document goes first; the storage object the caller
      names is deleted only when the document deletion answered with a
      truthy value, and is otherwise left in place. A failure of the
      document deletion changes nothing; a failure of the storage deletion
      comes after the document is gone and leaves the object behind. */
  method DeleteFile(store: Store, fileId: string, bucketFileId: string, answers: DeleteAnswers)
    returns (r: Result<string, Error>)
    modifies store
    ensures fileId !in old(store.documents) ==> r == Failure(DocumentNotFound) && unchanged(store)
    ensures fileId in old(store.documents) && answers.document.Some? ==>
      r == Failure(answers.document.value) && unchanged(store)
    ensures fileId in old(store.documents) && answers.document.None? ==>
      store.documents == old(store.documents) - {fileId}
    ensures fileId in old(store.documents) && answers.document.None? && !answers.deletedTruthy ==>
      store.objects == old(store.objects) && r == Success("success")
    ensures fileId in old(store.documents) && answers.document.None? && answers.deletedTruthy ==>
      && (bucketFileId !in old(store.objects) ==> r == Failure(ObjectNotFound) && store.objects == old(store.objects))
      && (bucketFileId in old(store.objects) && answers.storage.Some? ==>
            r == Failure(answers.storage.value) && store.objects == old(store.objects))
      && (bucketFileId in old(store.objects) && answers.storage.None? ==>
            r == Success("success") && store.objects == old(store.objects) - {bucketFileId})
    ensures old(store.Linked()) && fileId in old(store.documents)
      && (forall id <- old(store.documents) :: id != fileId ==> old(store.documents)[id].bucketFileId != bucketFileId)
      ==> store.Linked()
  {
    if fileId !in store.documents {
      return Failure(DocumentNotFound);
    }
    if answers.document.Some? {
      return Failure(answers.document.value);
    }
    store.documents := store.documents - {fileId};
    if !answers.deletedTruthy {
      return Success("success");
    }
    if bucketFileId !in store.objects {
      return Failure(ObjectNotFound);
    }
    if answers.storage.Some? {
      return Failure(answers.storage.value);
    }
    store.objects := store.objects - {bucketFileId};
    r := Success("success");
  }
}
