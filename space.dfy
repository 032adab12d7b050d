/** `getTotalSpaceUsed` (lib/actions/file.actions.ts): one pass over the
    user's files that adds up sizes per type bucket and in total, and
    keeps the latest update time per bucket. */
module Space {
  import opened Wrappers
  import opened Files
  import opened Queries

  /** One bucket of the summary; an empty `latestDate` ("") is `None`. */
  datatype BucketUsage = BucketUsage(size: int, latestDate: Option<int>)

  /** The `totalSpace` record. */
  datatype SpaceSummary = SpaceSummary(
    image: BucketUsage,
    document: BucketUsage,
    video: BucketUsage,
    audio: BucketUsage,
    other: BucketUsage,
    used: int,
    all: int)
  {
    /** `totalSpace[key]`. */
    function Bucket(t: FileType): BucketUsage {
      match t
      case Image => image
      case Document => document
      case Video => video
      case Audio => audio
      case Other => other
    }

    /** The summary with bucket `t` replaced and everything else kept. */
    function WithBucket(t: FileType, b: BucketUsage): (r: SpaceSummary)
      ensures r.Bucket(t) == b
      ensures forall u :: u != t ==> r.Bucket(u) == Bucket(u)
      ensures r.used == used && r.all == all
    {
      match t
      case Image => this.(image := b)
      case Document => this.(document := b)
      case Video => this.(video := b)
      case Audio => this.(audio := b)
      case Other => this.(other := b)
    }
  }

  /** The fixed 2 GB of available bucket storage. */
  const Quota := 2 * 1024 * 1024 * 1024

  const Empty := BucketUsage(0, None)

  /** Total size of the files of type `t`. */
  function SizeOf(files: seq<FileDocument>, t: FileType): int
    decreases |files|
  {
    if files == [] then 0
    else
      var last := files[|files| - 1];
      SizeOf(files[..|files| - 1], t) + (if last.fileType == t then last.size else 0)
  }

  /** Total size of all files. */
  function TotalSize(files: seq<FileDocument>): int
    decreases |files|
  {
    if files == [] then 0 else TotalSize(files[..|files| - 1]) + files[|files| - 1].size
  }

  function Max(a: int, b: int): int {
    if a < b then b else a
  }

  /** The greatest update time among files of type `t`, if there is any. */
  function LatestOf(files: seq<FileDocument>, t: FileType): Option<int>
    decreases |files|
  {
    if files == [] then None
    else
      var last := files[|files| - 1];
      var before := LatestOf(files[..|files| - 1], t);
      if last.fileType != t then before
      else match before
        case None => Some(last.updatedAt)
        case Some(m) => Some(Max(m, last.updatedAt))
  }

  /** Lines 294-317: the record starts with empty buckets, and each file adds
      its size to its bucket and to `used`, and becomes its bucket's latest
      date when the bucket has none yet or the file is strictly newer. */
  method Aggregate(files: seq<FileDocument>) returns (s: SpaceSummary)
    ensures forall t :: s.Bucket(t).size == SizeOf(files, t)
    ensures forall t :: s.Bucket(t).latestDate == LatestOf(files, t)
    ensures s.used == TotalSize(files)
    ensures s.all == Quota
  {
    s := SpaceSummary(Empty, Empty, Empty, Empty, Empty, 0, Quota);
    for i := 0 to |files|
      invariant forall t :: s.Bucket(t).size == SizeOf(files[..i], t)
      invariant forall t :: s.Bucket(t).latestDate == LatestOf(files[..i], t)
      invariant s.used == TotalSize(files[..i])
      invariant s.all == Quota
    {
      var file := files[i];
      var key := file.fileType;
      assert files[..i + 1][..i] == files[..i];
      s := s.WithBucket(key, s.Bucket(key).(size := s.Bucket(key).size + file.size));
      s := s.(used := s.used + file.size);
      var latest := s.Bucket(key).latestDate;
      if latest.None? || file.updatedAt > latest.value {
        s := s.WithBucket(key, s.Bucket(key).(latestDate := Some(file.updatedAt)));
      }
    }
    assert files[..|files|] == files;
  }

  /** `getTotalSpaceUsed`: the user must be signed in; the summary covers
      exactly the documents the user owns, as the backend lists them. */
  method GetTotalSpaceUsed(user: Option<User>, backend: seq<Query> -> Result<DocList, Error>)
    returns (r: Result<SpaceSummary, Error>)
    ensures user.None? ==> r == Failure(NotAuthenticated)
    ensures user.Some? ==>
      var listing := backend(OwnedQuery(user.value));
      && (listing.Failure? ==> r == Failure(listing.error))
      && (listing.Success? ==>
            var files := listing.value.documents;
            && r.Success?
            && r.value.used == TotalSize(files)
            && r.value.all == Quota
            && (forall t :: r.value.Bucket(t).size == SizeOf(files, t))
            && (forall t :: r.value.Bucket(t).latestDate == LatestOf(files, t)))
  {
    if user.None? {
      return Failure(NotAuthenticated);
    }
    var listing := backend(OwnedQuery(user.value));
    if listing.Failure? {
      return Failure(listing.error);
    }
    var summary := Aggregate(listing.value.documents);
    r := Success(summary);
  }

  /** `used` is the sum of the five bucket sizes. */
  lemma {:induction false} UsedIsSumOfBuckets(files: seq<FileDocument>)
    ensures TotalSize(files)
      == SizeOf(files, Document) + SizeOf(files, Image) + SizeOf(files, Video)
       + SizeOf(files, Audio) + SizeOf(files, Other)
    decreases |files|
  {
    if files != [] {
      UsedIsSumOfBuckets(files[..|files| - 1]);
    }
  }

  /** A bucket's size adds up the sizes of exactly the files of its type. */
  lemma {:induction false} SizeOfAppend(a: seq<FileDocument>, b: seq<FileDocument>, t: FileType)
    ensures SizeOf(a + b, t) == SizeOf(a, t) + SizeOf(b, t)
    decreases |b|
  {
    if b == [] {
      assert a + b == a;
    } else {
      assert (a + b)[..|a + b| - 1] == a + b[..|b| - 1];
      SizeOfAppend(a, b[..|b| - 1], t);
    }
  }

  /** A bucket's latest date is empty exactly when no file has its type, and
      otherwise is the update time of one of its files, no earlier than any
      other. */
  lemma {:induction false} LatestIsMaximum(files: seq<FileDocument>, t: FileType)
    ensures LatestOf(files, t).None? <==> forall f <- files :: f.fileType != t
    ensures LatestOf(files, t).Some? ==>
      && (exists f <- files :: f.fileType == t && f.updatedAt == LatestOf(files, t).value)
      && (forall f <- files :: f.fileType == t ==> f.updatedAt <= LatestOf(files, t).value)
    decreases |files|
  {
    if files != [] {
      var prefix := files[..|files| - 1];
      LatestIsMaximum(prefix, t);
      assert files == prefix + [files[|files| - 1]];
    }
  }

  /** Three owned documents of 100, 200 and 300 bytes fill the document
      bucket with 600 and leave the other buckets at 0. */
  lemma ThreeDocumentsScenario(a: FileDocument, b: FileDocument, c: FileDocument)
    requires a.fileType == b.fileType == c.fileType == Document
    requires a.size == 100 && b.size == 200 && c.size == 300
    ensures var files := [a, b, c];
      && SizeOf(files, Document) == 600 && TotalSize(files) == 600
      && SizeOf(files, Image) == SizeOf(files, Video) == SizeOf(files, Audio) == SizeOf(files, Other) == 0
  {
    var files := [a, b, c];
    assert [a][..0] == [] && [a, b][..1] == [a] && files[..2] == [a, b];
    forall t ensures SizeOf([a], t) == if t == Document then 100 else 0 {
    }
    forall t ensures SizeOf([a, b], t) == if t == Document then 300 else 0 {
    }
    forall t ensures SizeOf(files, t) == if t == Document then 600 else 0 {
    }
    assert TotalSize([a]) == 100 && TotalSize([a, b]) == 300;
  }
}
