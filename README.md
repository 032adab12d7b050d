# StoreIT file actions, modelled in Dafny

StoreIT is a file-storage web application: users upload, list, rename,
share and delete files kept in a backend-as-a-service (an object-storage
bucket plus a document collection). This project models the rules layer
of its server actions in `lib/actions/file.actions.ts`, with the backend
reduced to values and state:

- `text.dfy` (`Text`): the JavaScript string operations the actions rely
  on, `includes` and `split("-")`.
- `files.dfy` (`Files`): the `FileType` union and `FileDocument` record of
  `types/index.d.ts`, the current user, a listing, an error.
- `queries.dfy` (`Queries`): `createQueries`, the ordered list of
  predicates a listing sends (ownership-or-sharing, type, name, limit,
  sort).
- `listing.dfy` (`Listing`): `getFiles`, including the fallback used when
  the backend has no full-text index on `users` (owned documents plus
  candidates whose parsed `users` list holds the user's email, merged by
  `$id` through a map where the last write wins) and the parsing of
  `users` on the way out.
- `space.dfy` (`Space`): `getTotalSpaceUsed`, one pass that adds sizes per
  type bucket and in total and keeps each bucket's latest update time.
- `mutations.dfy` (`Mutations`): `uploadFile` (ownership derivation, store
  then create, compensating delete), `renameFile`, `updateFileUsers` and
  `deleteFile`, over a `Store` class holding the set of stored object ids
  and the collection's documents by `$id`.
- `wrappers.dfy` (`Wrappers`): `Option` and `Result`.

The backend's `listDocuments` is a parameter of type
`seq<Query> -> Result<DocList, Error>`, so each contract says which
queries were sent and what was done with the answer. `JSON.parse` is a
parameter `string -> Option<Value>` (`None` when it throws). Calls that
may fail when they change state (`createFile`, `createDocument`, the
compensating `deleteFile`, `updateDocument` in `renameFile` and
`updateFileUsers`, `deleteDocument` and `storage.deleteFile` in
`deleteFile`) take their outcome as a parameter, and so does the
truthiness of what `deleteDocument` answers. The update time the backend
stamps on a document it creates or updates (`$updatedAt`) is a parameter
`now`.
`getCurrentUser` is a parameter `Option<User>`. `getFileType`,
`constructFileUrl` and `JSON.stringify` are parameters too.

Absent strings (`ownerId`, `accountId`, `searchText`) are `""`, which
is falsy in JavaScript as `undefined` is; for these the empty string is
also the default `getFiles` gives. `getFiles` takes `sort` as an
`Option<string>`: an omitted sort (`None`) becomes the default
`"$createdAt-desc"`, newest first, while `Some("")` adds no sort
predicate. `limit` is an `Option<int>` whose
truthy values are `Some(n)` with `n != 0`. Timestamps are integers, and an
empty `latestDate` is `None`.

Two behaviours follow from the code's truthiness tests: a `limit` of 0
adds no `Limit` predicate, and the sort direction is ascending only when
the second `-`-separated piece is exactly `asc`.

## Model

| member | source | states |
|---|---|---|
| `Queries.CreateQueries` | lib/actions/file.actions.ts:82-110 | the query list opens with `Or(owner == user id, Search(users, email))`, then holds at most one predicate of each kind in the order type, name, limit, sort; its length is 1 plus one per non-empty types / non-empty search text / truthy limit / non-empty sort, so 1 to 5 |
| `Queries.CreateQueriesFilters` | lib/actions/file.actions.ts:97-107 | `Equal(type, types)` is present iff types is non-empty; `Contains(name, searchText)` iff the search text is non-empty; the sort predicate iff sort is non-empty |
| `Queries.CreateQueriesLimit` | lib/actions/file.actions.ts:99 | some `Limit` is present iff the limit is truthy (so 0 adds none), and any `Limit` present carries the given limit |
| `Queries.SortQueryMeaning` | lib/actions/file.actions.ts:101-106 | the sort predicate orders by the text before the first `-`; it is `OrderAsc` iff the text after that `-` is exactly `asc`, alone or followed by another `-`; otherwise (no `-`, another direction) `OrderDesc` |
| `Queries.FirstPieceIsAsc` | lib/actions/file.actions.ts:102-105 | the first piece of a split on `-` equals `asc` iff the text is `asc` or starts with `asc-` |
| `Queries.AfterSeparator` | lib/actions/file.actions.ts:102-105 | a sort text `field-rest` is `field-asc` or starts with `field-asc-` exactly when `rest` is `asc` or starts with `asc-` |
| `Queries.PushIfKeepsOrder` | lib/actions/file.actions.ts:97-99 | a conditional `push` of a predicate of higher rank keeps the list in rank order, grows it by one exactly when the condition holds, and adds only that predicate |
| `Text.Split` | lib/actions/file.actions.ts:102 | `split("-")` yields at least one piece, and no piece holds the separator |
| `Text.SplitJoin` | lib/actions/file.actions.ts:102 | joining the pieces of a split with the separator gives back the string |
| `Text.SplitFirst` | lib/actions/file.actions.ts:102 | the first piece is the prefix before the first separator; there is a second piece iff there is a separator, and the remaining pieces are the split of the text after it |
| `Text.IncludesIffOccurs` | lib/actions/file.actions.ts:145 | `includes` holds iff the searched text occurs at some position |
| `Text.IncludesTransitive` | lib/actions/file.actions.ts:145 | a text that includes `b` includes every text `b` includes |
| `Listing.FulltextChecksSubsumed` | lib/actions/file.actions.ts:145 | the three message tests together hold iff the message includes `fulltext` |
| `Listing.GetFiles` | lib/actions/file.actions.ts:111-203 | no user fails with "User not found"; the listing query is built with the given sort or, when none is given, with `$createdAt-desc`; a successful listing is returned with its total and its documents normalised; a failure whose message does not include `fulltext` is rethrown unchanged; otherwise owned documents are fetched with `owner == id` and the pool with `Limit(n)`, n being the limit when truthy and 1000 otherwise, either failure is rethrown, and the result is the fallback listing |
| `Listing.SharedWith` | lib/actions/file.actions.ts:162-171 | a candidate is kept iff its `users` (parsed first when a string) is an array holding the email; a string that fails to parse excludes the candidate |
| `Listing.CombineById` | lib/actions/file.actions.ts:174-178 | the loop over a `Map` keyed by `$id` yields exactly the de-duplicated list (insertion order of first keys, last value per key), and `total` is its length |
| `Listing.DedupedStep` | lib/actions/file.actions.ts:176 | one more document of the input is set into the merge by id |
| `Listing.MapValues` | lib/actions/file.actions.ts:178 | `Array.from(map.values())` lists the entries in the order of their keys |
| `Listing.MapSetNew` | lib/actions/file.actions.ts:176 | `map.set` with a new key appends the key and the value |
| `Listing.MapSetKnown` | lib/actions/file.actions.ts:176 | `map.set` with a known key keeps its position and replaces its value |
| `Listing.SetByIdKeepsDistinct` | lib/actions/file.actions.ts:176 | setting a document by id keeps ids distinct, adds its id, and keeps every other document only if its id differs |
| `Listing.DedupedIds` | lib/actions/file.actions.ts:174-178 | the merged documents have pairwise distinct ids, and their id set equals the input's |
| `Listing.DedupedLastWins` | lib/actions/file.actions.ts:175-176 | each kept document is the last document of the input with its id |
| `Listing.DedupedOfDistinct` | lib/actions/file.actions.ts:174-178 | an input whose ids are already distinct comes out unchanged |
| `Listing.DedupedIdempotent` | lib/actions/file.actions.ts:174-178 | merging the merged list again changes nothing |
| `Listing.LastWithIdAppend` | lib/actions/file.actions.ts:174 | in `owned ++ shared`, the last copy of an id that `shared` holds comes from `shared` |
| `Listing.FallbackListingIds` | lib/actions/file.actions.ts:146-178 | the fallback result's `total` is its number of documents, pairwise distinct ids, and id set = owned ids ∪ ids of candidates shared with the email |
| `Listing.FallbackListingOrigin` | lib/actions/file.actions.ts:174-178 | each returned document is the normalised last copy of its id in the owned documents followed by the shared ones |
| `Listing.FallbackListingPrefersShared` | lib/actions/file.actions.ts:174-176 | for an id with a shared copy, the kept document is that shared copy (the later one), normalised, not the owned one |
| `Listing.FallbackListingSharedWithUser` | lib/actions/file.actions.ts:162-178 | every returned document the user does not own has a normalised `users` array holding the user's email |
| `Listing.NormalizeAll` | lib/actions/file.actions.ts:185-197 | normalisation keeps count and order; a string `users` becomes its parse, or `[]` when parsing fails; a non-string `users` and every other field are unchanged |
| `Listing.NormalizeAllKeepsIds` | lib/actions/file.actions.ts:186-196 | normalisation keeps the id set and distinctness of ids |
| `Listing.SharedNormalizesToMember` | lib/actions/file.actions.ts:186-196 | a document the filter keeps normalises to a `users` array holding the email |
| `Space.Aggregate` | lib/actions/file.actions.ts:294-317 | after the loop each bucket's size is the sum of sizes of files of its type, its latest date is the latest update among them, `used` is the sum of all sizes, and `all` is 2·1024³ |
| `Space.GetTotalSpaceUsed` | lib/actions/file.actions.ts:282-323 | no user fails with "User is not authenticated."; a failed listing of owned files is rethrown; otherwise the summary of the owned files |
| `Space.UsedIsSumOfBuckets` | lib/actions/file.actions.ts:308-309 | the total of all sizes equals the sum of the five bucket sizes |
| `Space.SizeOfAppend` | lib/actions/file.actions.ts:308 | a bucket's size over two lists is the sum over each |
| `Space.LatestIsMaximum` | lib/actions/file.actions.ts:311-316 | a bucket's latest date is empty iff no file has its type; otherwise it is the update time of one such file and no earlier than any other |
| `Space.ThreeDocumentsScenario` | lib/actions/file.actions.ts:294-317 | three documents of 100, 200 and 300 bytes give document size 600, used 600 and 0 in the other buckets |
| `Mutations.ResolveOwnership` | lib/actions/file.actions.ts:27-40 | the upload fails with "Missing accountId…" iff no account id is given and none comes from the current user; a given owner or account id is never overridden; missing ones come from the current user |
| `Mutations.UploadFile` | lib/actions/file.actions.ts:17-80 | ownership failure and a failed store change nothing; a failed document creation deletes the new object and rethrows, so storage is as before, unless the compensating delete fails, which rethrows its error and leaves the object; success adds exactly the object and a document with the resolved owner and account, `users` `"[]"` and the object's id; every document's storage object still exists afterwards |
| `Mutations.RenamedName` | lib/actions/file.actions.ts:214 | the stored name is the name, a `.`, then the extension |
| `Mutations.RenamedNameSplitsBack` | lib/actions/file.actions.ts:214 | for an extension without `.`, the stored name's last `.` sits right after the name, so name and extension split back out |
| `Mutations.RenameFile` | lib/actions/file.actions.ts:205-229 | a missing document fails and changes nothing; an `updateDocument` error is rethrown and changes nothing; otherwise only the document's `name` changes, to `name.extension`, and its update time becomes `now`; storage is untouched |
| `Mutations.UpdateFileUsers` | lib/actions/file.actions.ts:231-254 | a missing document fails and changes nothing; an `updateDocument` error is rethrown and changes nothing; otherwise only the document's `users` changes, to the serialised email list, and its update time becomes `now`; storage is untouched |
| `Mutations.DeleteFile` | lib/actions/file.actions.ts:256-279 | a missing document or a `deleteDocument` error fails and changes nothing; otherwise the document is removed; the named storage object is removed only when the document deletion answered truthy, and is otherwise kept with the call succeeding; a missing object, or a `storage.deleteFile` error, fails after the document is gone and leaves storage as it was; when the named object belongs to no other document, every remaining document's object still exists |
| `Queries.DescendingSort` | lib/actions/file.actions.ts:102-105 | a sort `field-desc` with no `-` in `field` orders by `field`, descending |
| `Listing.DefaultSortListing` | lib/actions/file.actions.ts:111-116 | with no types, no search text, no limit and the default sort, the listing asks for files owned or shared, ordered by `$createdAt` descending |

## Left out

- Appwrite SDK calls, `revalidatePath` and the `console.log` in `handleError`: I/O. The SDK calls' answers are parameters, and their effects are the `Store` state.
- `parseStringify`, a JSON round trip of a result: the model returns the value itself, since the round trip only drops what JSON cannot carry.
- `getCurrentUser`, `getFileType` and `constructFileUrl`: helpers outside the actions file, given as opaque parameters.
- `JSON.parse` and `JSON.stringify`: JavaScript built-ins, given as opaque parameters (`parse`, `serialize`); their grammar is not modelled.
- `String(err)` for an error without a `message`: an error is modelled by its message text only.
- `new Date(...)` parsing and `NaN` comparisons: timestamps are integers.
- A file `type` outside the `FileType` union, which would make line 308 throw: the closed datatype rules it out.
- `NaN` as a `limit`, which is falsy in JavaScript: `limit` is an integer or absent.
- The backend's own caps on `listDocuments` pages and its query semantics: a listing is whatever the backend parameter returns.
- `Mutations.UploadFile`: `getCurrentUser` is called only when an id is missing; as it has no modelled effect, the model does not record whether it was called.
- `Mutations.UploadFile` requires that the fresh object and document ids are unused, which is what `ID.unique()` provides.
- `async`/`await` ordering and concurrency: each action runs to completion on its own.
- components/Chart.tsx and components/Sidebar.tsx: UI rendering (the chart's 9 GiB constant differs from the 2 GiB `all` of the summary).
- next.config.ts: build configuration.
