/** `getFiles` (lib/actions/file.actions.ts): the listing query, the
    client-side fallback used when the backend has no full-text index on
    `users`, and the parsing of `users` on the way out. */
module Listing {
  import opened Wrappers
  import opened Files
  import opened Queries
  import Text

  /** `JSON.parse`: `None` when it throws. */
  type Parser = string -> Option<Value>

  /** `databases.listDocuments` on the files collection, for a list of queries. */
  type Backend = seq<Query> -> Result<DocList, Error>

  /** The three tests line 145 makes on the error text. */
  predicate MentionsFulltext(message: string) {
    || Text.Includes(message, "fulltext index")
    || Text.Includes(message, "fulltext")
    || Text.Includes(message, "requires a fulltext index")
  }

  /** The longer two tests add nothing to the test for "fulltext". */
  lemma FulltextChecksSubsumed(message: string)
    ensures MentionsFulltext(message) <==> Text.Includes(message, "fulltext")
  {
    if Text.Includes(message, "fulltext index") {
      assert Text.IsPrefix("fulltext", "fulltext index");
      Text.IncludesTransitive(message, "fulltext index", "fulltext");
    }
    if Text.Includes(message, "requires a fulltext index") {
      assert Text.OccursAt("requires a fulltext index", "fulltext", 11);
      Text.IncludesIffOccurs("requires a fulltext index", "fulltext");
      Text.IncludesTransitive(message, "requires a fulltext index", "fulltext");
    }
  }

  const DefaultPoolSize := 1000

  /** The sort `getFiles` applies when the caller gives none. */
  const DefaultSort := "$createdAt-desc"

  /** With nothing but the default sort, the listing asks for the files the
      user owns or shares, newest first. */
  lemma DefaultSortListing(user: User)
    ensures CreateQueries(user, [], "", DefaultSort, None)
         == [OwnedOrShared(user), OrderDesc("$createdAt")]
  {
    assert DefaultSort == "$createdAt" + "-desc";
    DescendingSort("$createdAt");
  }

  /** The fallback's second request: `limit || 1000` documents of anyone's. */
  function PoolQuery(limit: Option<int>): seq<Query> {
    [Limit(if IsTruthy(limit) then limit.value else DefaultPoolSize)]
  }

  /** `Array.isArray(v) && v.includes(email)`. */
  predicate ListIncludes(v: Value, email: string) {
    v.Arr? && Str(email) in v.items
  }

  /** The filter callback of the fallback: a string `users` is parsed first,
      and a parse that throws rejects the document. */
  predicate IsSharedWith(d: FileDocument, email: string, parse: Parser) {
    match d.users
    case Str(text) => (match parse(text) case Some(v) => ListIncludes(v, email) case None => false)
    case _ => ListIncludes(d.users, email)
  }

  /** `candidates.filter(...)`: the documents shared with `email`, in order. */
  function SharedWith(docs: seq<FileDocument>, email: string, parse: Parser): (r: seq<FileDocument>)
    ensures forall d :: d in r <==> d in docs && IsSharedWith(d, email, parse)
    ensures |r| <= |docs|
  {
    if docs == [] then []
    else (if IsSharedWith(docs[0], email, parse) then [docs[0]] else []) + SharedWith(docs[1..], email, parse)
  }

  /** Where the first document with `$id` `id` stands, if any. */
  function IndexOfId(docs: seq<FileDocument>, id: string): (r: Option<nat>)
    ensures r.Some? ==> r.value < |docs| && docs[r.value].id == id
    ensures r.None? <==> id !in Ids(docs)
  {
    if docs == [] then None
    else if docs[0].id == id then Some(0)
    else match IndexOfId(docs[1..], id)
      case Some(k) => Some(k + 1)
      case None => None
  }

  /** `map.set(d.$id, d)` seen through `map.values()`: a known key keeps its
      place and takes the new value, a new key goes last. */
  function SetById(docs: seq<FileDocument>, d: FileDocument): seq<FileDocument> {
    match IndexOfId(docs, d.id)
    case Some(k) => docs[k := d]
    case None => docs + [d]
  }

  /** `Array.from(map.values())` after `map.set(d.$id, d)` for each `d` in turn. */
  function Deduped(docs: seq<FileDocument>): seq<FileDocument>
    decreases |docs|
  {
    if docs == [] then [] else SetById(Deduped(docs[..|docs| - 1]), docs[|docs| - 1])
  }

  /** The last document of the list with `$id` `id`. */
  function LastWithId(docs: seq<FileDocument>, id: string): (r: Option<FileDocument>)
    ensures r.Some? ==> r.value in docs && r.value.id == id
    ensures r.None? <==> id !in Ids(docs)
    decreases |docs|
  {
    if docs == [] then None
    else if docs[|docs| - 1].id == id then Some(docs[|docs| - 1])
    else
      assert Ids(docs) == Ids(docs[..|docs| - 1]) + {docs[|docs| - 1].id};
      LastWithId(docs[..|docs| - 1], id)
  }

  /** On a list with distinct ids, `SetById` replaces or appends and keeps the ids distinct. */
  lemma SetByIdKeepsDistinct(docs: seq<FileDocument>, d: FileDocument)
    requires DistinctIds(docs)
    ensures var r := SetById(docs, d);
      && DistinctIds(r)
      && Ids(r) == Ids(docs) + {d.id}
      && d in r
      && (forall x <- r :: x == d || (x in docs && x.id != d.id))
  {
    match IndexOfId(docs, d.id)
    case Some(k) =>
      var r := docs[k := d];
      forall x <- r ensures x == d || (x in docs && x.id != d.id) {
        var j :| 0 <= j < |r| && r[j] == x;
        if j != k {
          assert docs[j] == x;
        }
      }
      assert Ids(r) == Ids(docs) + {d.id} by {
        forall id <- Ids(docs) ensures id in Ids(r) {
          var j :| 0 <= j < |docs| && docs[j].id == id;
          assert r[j].id == id;
        }
      }
    case None =>
      var r := docs + [d];
      assert Ids(r) == Ids(docs) + {d.id};
  }

  /** The values of the map hold each `$id` of the input exactly once. */
  lemma {:induction false} DedupedIds(docs: seq<FileDocument>)
    ensures DistinctIds(Deduped(docs)) && Ids(Deduped(docs)) == Ids(docs)
    decreases |docs|
  {
    if docs != [] {
      var prefix := docs[..|docs| - 1];
      DedupedIds(prefix);
      SetByIdKeepsDistinct(Deduped(prefix), docs[|docs| - 1]);
      assert docs == prefix + [docs[|docs| - 1]];
      assert Ids(docs) == Ids(prefix) + {docs[|docs| - 1].id};
    }
  }

  /** Last write wins: each value kept is the last document with its `$id`. */
  lemma {:induction false} DedupedLastWins(docs: seq<FileDocument>)
    ensures forall d <- Deduped(docs) :: LastWithId(docs, d.id) == Some(d)
    decreases |docs|
  {
    if docs != [] {
      var prefix := docs[..|docs| - 1];
      var last := docs[|docs| - 1];
      DedupedLastWins(prefix);
      DedupedIds(prefix);
      SetByIdKeepsDistinct(Deduped(prefix), last);
    }
  }

  /** A list whose ids are already distinct passes through unchanged. */
  lemma {:induction false} DedupedOfDistinct(docs: seq<FileDocument>)
    requires DistinctIds(docs)
    ensures Deduped(docs) == docs
    decreases |docs|
  {
    if docs != [] {
      var prefix := docs[..|docs| - 1];
      var last := docs[|docs| - 1];
      DedupedOfDistinct(prefix);
      assert last.id !in Ids(prefix);
    }
  }

  /** Re-running the de-duplication on its own output changes nothing. */
  lemma DedupedIdempotent(docs: seq<FileDocument>)
    ensures Deduped(Deduped(docs)) == Deduped(docs)
  {
    DedupedIds(docs);
    DedupedOfDistinct(Deduped(docs));
  }

  /** The last document with an id in `a + b` comes from `b` when `b` has that id. */
  lemma {:induction false} LastWithIdAppend(a: seq<FileDocument>, b: seq<FileDocument>, id: string)
    ensures LastWithId(a + b, id) == if id in Ids(b) then LastWithId(b, id) else LastWithId(a, id)
    decreases |b|
  {
    if b == [] {
      assert a + b == a;
    } else {
      var prefix := b[..|b| - 1];
      assert (a + b)[..|a + b| - 1] == a + prefix;
      assert Ids(b) == Ids(prefix) + {b[|b| - 1].id};
      LastWithIdAppend(a, prefix, id);
    }
  }

  /** The `map` callback of lines 186-196 on one document. */
  function NormalizeUsers(d: FileDocument, parse: Parser): FileDocument {
    match d.users
    case Str(text) => d.(users := parse(text).GetOr(Arr([])))
    case _ => d
  }

  /** `files.documents.map(...)`: same documents in the same order; a string
      `users` becomes what it parses to, or `[]` when parsing throws; any
      other `users`, and every other field, is left as it was. */
  function NormalizeAll(docs: seq<FileDocument>, parse: Parser): (r: seq<FileDocument>)
    ensures |r| == |docs|
    ensures forall i :: 0 <= i < |r| ==> r[i] == docs[i].(users := r[i].users)
    ensures forall i :: 0 <= i < |r| && docs[i].users.Str? ==>
      r[i].users == parse(docs[i].users.text).GetOr(Arr([]))
    ensures forall i :: 0 <= i < |r| && !docs[i].users.Str? ==> r[i] == docs[i]
  {
    seq(|docs|, i requires 0 <= i < |docs| => NormalizeUsers(docs[i], parse))
  }

  /** A document the fallback keeps as shared comes out of normalisation
      with a `users` list that holds the email. */
  lemma SharedNormalizesToMember(d: FileDocument, email: string, parse: Parser)
    requires IsSharedWith(d, email, parse)
    ensures ListIncludes(NormalizeAll([d], parse)[0].users, email)
  {
  }

  /** What the fallback returns: owned documents, then candidates shared
      with `email`, merged by `$id` with the later copy winning, and
      normalised; `total` is the size of the merge. */
  function FallbackListing(owned: seq<FileDocument>, pool: seq<FileDocument>, email: string, parse: Parser): DocList {
    var docs := NormalizeAll(Deduped(owned + SharedWith(pool, email, parse)), parse);
    DocList(|docs|, docs)
  }

  /** Normalisation touches no `$id`. */
  lemma NormalizeAllKeepsIds(docs: seq<FileDocument>, parse: Parser)
    ensures Ids(NormalizeAll(docs, parse)) == Ids(docs)
    ensures DistinctIds(NormalizeAll(docs, parse)) <==> DistinctIds(docs)
  {
  }

  /** The fallback result counts its documents, holds each `$id` once, and
      holds exactly the owned ids and the ids of candidates shared with
      `email`: a candidate whose `users` does not parse, or is not a list
      holding the email, contributes nothing. */
  lemma FallbackListingIds(owned: seq<FileDocument>, pool: seq<FileDocument>, email: string, parse: Parser)
    ensures var r := FallbackListing(owned, pool, email, parse);
      && r.total == |r.documents|
      && DistinctIds(r.documents)
      && Ids(r.documents) == Ids(owned) + (set c <- pool | IsSharedWith(c, email, parse) :: c.id)
  {
    var shared := SharedWith(pool, email, parse);
    var merged := Deduped(owned + shared);
    DedupedIds(owned + shared);
    NormalizeAllKeepsIds(merged, parse);
    assert Ids(owned + shared) == Ids(owned) + Ids(shared);
    assert Ids(shared) == (set c <- pool | IsSharedWith(c, email, parse) :: c.id);
  }

  /** Each document of the fallback result is, normalised, the last copy
      of its id in `owned ++ shared`. */
  lemma FallbackListingOrigin(owned: seq<FileDocument>, pool: seq<FileDocument>, email: string, parse: Parser, i: nat)
    requires i < |FallbackListing(owned, pool, email, parse).documents|
    ensures var shared := SharedWith(pool, email, parse);
      var m := Deduped(owned + shared)[i];
      && FallbackListing(owned, pool, email, parse).documents[i] == NormalizeUsers(m, parse)
      && LastWithId(owned + shared, m.id) == Some(m)
  {
    DedupedLastWins(owned + SharedWith(pool, email, parse));
  }

  /** For an id with a shared copy the fallback keeps that copy, the later
      one, rather than the owned one. */
  lemma FallbackListingPrefersShared(owned: seq<FileDocument>, pool: seq<FileDocument>, email: string, parse: Parser)
    ensures var shared := SharedWith(pool, email, parse);
      forall d <- FallbackListing(owned, pool, email, parse).documents :: d.id in Ids(shared) ==>
        exists c <- shared :: c.id == d.id && d == NormalizeUsers(c, parse)
  {
    var shared := SharedWith(pool, email, parse);
    var r := FallbackListing(owned, pool, email, parse);
    forall d <- r.documents | d.id in Ids(shared)
      ensures exists c <- shared :: c.id == d.id && d == NormalizeUsers(c, parse)
    {
      var i :| 0 <= i < |r.documents| && r.documents[i] == d;
      FallbackListingOrigin(owned, pool, email, parse, i);
      var m := Deduped(owned + shared)[i];
      LastWithIdAppend(owned, shared, m.id);
      assert m in shared;
    }
  }

  /** Every document of the fallback result the user does not own lists
      the user's email in its normalised `users`. */
  lemma FallbackListingSharedWithUser(owned: seq<FileDocument>, pool: seq<FileDocument>, email: string, parse: Parser)
    ensures forall d <- FallbackListing(owned, pool, email, parse).documents :: d.id !in Ids(owned) ==>
      ListIncludes(d.users, email)
  {
    var shared := SharedWith(pool, email, parse);
    var r := FallbackListing(owned, pool, email, parse);
    forall d <- r.documents | d.id !in Ids(owned)
      ensures ListIncludes(d.users, email)
    {
      var i :| 0 <= i < |r.documents| && r.documents[i] == d;
      FallbackListingOrigin(owned, pool, email, parse, i);
      var m := Deduped(owned + shared)[i];
      assert m in owned + shared;
      assert m !in owned;
      SharedNormalizesToMember(m, email, parse);
    }
  }

  /** The map of lines 175-176, as its keys in insertion order and its
      entries, holds the documents `docs` in that order. */
  ghost predicate MapHolds(keys: seq<string>, entries: map<string, FileDocument>, docs: seq<FileDocument>) {
    && |keys| == |docs| == |entries|
    && (forall k :: 0 <= k < |keys| ==> keys[k] in entries && entries[keys[k]] == docs[k] && keys[k] == docs[k].id)
    && (forall id :: id in entries <==> id in keys)
  }

  /** `map.set(d.$id, d)` with a new key appends it. */
  lemma MapSetNew(keys: seq<string>, entries: map<string, FileDocument>, docs: seq<FileDocument>, d: FileDocument)
    requires MapHolds(keys, entries, docs) && d.id !in entries
    ensures MapHolds(keys + [d.id], entries[d.id := d], SetById(docs, d))
  {
  }

  /** `map.set(d.$id, d)` with a known key replaces its value in place. */
  lemma MapSetKnown(keys: seq<string>, entries: map<string, FileDocument>, docs: seq<FileDocument>, d: FileDocument)
    requires MapHolds(keys, entries, docs) && DistinctIds(docs) && d.id in entries
    ensures MapHolds(keys, entries[d.id := d], SetById(docs, d))
  {
  }

  /** Taking one more document of the input sets it into the merge. */
  lemma DedupedStep(docs: seq<FileDocument>, i: nat)
    requires i < |docs|
    ensures Deduped(docs[..i + 1]) == SetById(Deduped(docs[..i]), docs[i])
  {
    assert docs[..i + 1][..i] == docs[..i];
  }

  /** `Array.from(map.values())`: the entries in the order of their keys. */
  method MapValues(keys: seq<string>, entries: map<string, FileDocument>) returns (values: seq<FileDocument>)
    requires forall k :: 0 <= k < |keys| ==> keys[k] in entries
    ensures |values| == |keys|
    ensures forall k :: 0 <= k < |keys| ==> values[k] == entries[keys[k]]
  {
    values := [];
    for j := 0 to |keys|
      invariant |values| == j
      invariant forall k :: 0 <= k < j ==> values[k] == entries[keys[k]]
    {
      values := values + [entries[keys[j]]];
    }
  }

  /** Lines 174-178: every document goes into a `Map` keyed by `$id`, and
      the listing is the map's size and its values in insertion order. */
  method CombineById(combined: seq<FileDocument>) returns (total: int, documents: seq<FileDocument>)
    ensures documents == Deduped(combined)
    ensures total == |documents|
  {
    var keys: seq<string> := [];
    var entries: map<string, FileDocument> := map[];
    for i := 0 to |combined|
      invariant MapHolds(keys, entries, Deduped(combined[..i]))
    {
      var d := combined[i];
      DedupedIds(combined[..i]);
      DedupedStep(combined, i);
      if d.id !in entries {
        MapSetNew(keys, entries, Deduped(combined[..i]), d);
        keys := keys + [d.id];
      } else {
        MapSetKnown(keys, entries, Deduped(combined[..i]), d);
      }
      entries := entries[d.id := d];
    }
    assert combined[..|combined|] == combined;
    documents := MapValues(keys, entries);
    total := |entries|;
  }

  /** `getFiles`: the user must be signed in; the listing query goes first;
      when it fails for want of a full-text index the owned documents and a
      capped pool of candidates are fetched and merged instead; any other
      failure is rethrown as it is. The listing's `users` are parsed last.
      An omitted `sort` (`None`) takes the default `DefaultSort`. */
  method GetFiles(user: Option<User>, types: seq<string>, searchText: string, sort: Option<string>, limit: Option<int>,
                  backend: Backend, parse: Parser)
    returns (r: Result<DocList, Error>)
    ensures user.None? ==> r == Failure(UserNotFound)
    ensures user.Some? ==>
      var primary := backend(CreateQueries(user.value, types, searchText, sort.GetOr(DefaultSort), limit));
      && (primary.Success? ==>
            r == Success(DocList(primary.value.total, NormalizeAll(primary.value.documents, parse))))
      && (primary.Failure? && !Text.Includes(primary.error.message, "fulltext") ==>
            r == Failure(primary.error))
    ensures user.Some? ==>
      var primary := backend(CreateQueries(user.value, types, searchText, sort.GetOr(DefaultSort), limit));
      var owned := backend(OwnedQuery(user.value));
      var pool := backend(PoolQuery(limit));
      primary.Failure? && Text.Includes(primary.error.message, "fulltext") ==>
        && (owned.Failure? ==> r == Failure(owned.error))
        && (owned.Success? && pool.Failure? ==> r == Failure(pool.error))
        && (owned.Success? && pool.Success? ==>
              r == Success(FallbackListing(owned.value.documents, pool.value.documents, user.value.email, parse)))
  {
    if user.None? {
      return Failure(UserNotFound);
    }
    var currentUser := user.value;
    var queries := CreateQueries(currentUser, types, searchText, sort.GetOr(DefaultSort), limit);
    var files: DocList;
    match backend(queries) {
      case Success(listing) =>
        files := listing;
      case Failure(err) =>
        FulltextChecksSubsumed(err.message);
        if !MentionsFulltext(err.message) {
          return Failure(err);
        }
        var owned := backend(OwnedQuery(currentUser));
        if owned.Failure? {
          return Failure(owned.error);
        }
        var pool := backend(PoolQuery(limit));
        if pool.Failure? {
          return Failure(pool.error);
        }
        var shared := SharedWith(pool.value.documents, currentUser.email, parse);
        var total, documents := CombineById(owned.value.documents + shared);
        files := DocList(total, documents);
    }
    files := files.(documents := NormalizeAll(files.documents, parse));
    r := Success(files);
  }
}
