/** `createQueries` (lib/actions/file.actions.ts): the filters, the limit
    and the order that one listing of the files collection sends. */
module Queries {
  import opened Wrappers
  import opened Files
  import Text

  /** The backend's query predicates, by the `Query` helper that builds them. */
  datatype Query =
    | Or(alternatives: seq<Query>)
    | Equal(attribute: string, values: seq<string>)
    | Search(attribute: string, text: string)
    | Contains(attribute: string, text: string)
    | Limit(count: int)
    | OrderAsc(attribute: string)
    | OrderDesc(attribute: string)

  /** `if (limit)`: an absent limit and 0 are falsy (NaN is not modelled). */
  predicate IsTruthy(limit: Option<int>) {
    limit.Some? && limit.value != 0
  }

  /** Documents the user owns, or whose `users` text mentions the user's email. */
  function OwnedOrShared(user: User): Query {
    Or([Equal("owner", [user.id]), Search("users", user.email)])
  }

  /** Every document the user owns: the fallback's first request, and the
      listing the space summary is computed from. */
  function OwnedQuery(user: User): seq<Query> {
    [Equal("owner", [user.id])]
  }

  /** `const [sortBy, orderBy] = sort.split("-")`, then ascending exactly
      when `orderBy === "asc"`. */
  function SortQuery(sort: string): (q: Query)
    ensures Rank(q) == 4
  {
    var pieces := Text.Split(sort, '-');
    if |pieces| >= 2 && pieces[1] == "asc" then OrderAsc(pieces[0]) else OrderDesc(pieces[0])
  }

  /** The position a predicate of each kind takes in the list `CreateQueries` builds. */
  function Rank(q: Query): nat {
    match q
    case Or(_) => 0
    case Search(_, _) => 0
    case Equal(_, _) => 1
    case Contains(_, _) => 2
    case Limit(_) => 3
    case OrderAsc(_) => 4
    case OrderDesc(_) => 4
  }

  function Count(b: bool): nat {
    if b then 1 else 0
  }

  /** Queries in strictly increasing rank: each kind at most once, in a fixed order. */
  predicate InRankOrder(qs: seq<Query>) {
    forall i :: 0 < i < |qs| ==> Rank(qs[i - 1]) < Rank(qs[i])
  }

  /** `if (cond) queries.push(q)`. */
  function PushIf(qs: seq<Query>, cond: bool, q: Query): seq<Query> {
    if cond then qs + [q] else qs
  }

  lemma PushIfKeepsOrder(qs: seq<Query>, cond: bool, q: Query)
    requires InRankOrder(qs) && |qs| > 0 && Rank(qs[|qs| - 1]) < Rank(q)
    ensures InRankOrder(PushIf(qs, cond, q))
    ensures |PushIf(qs, cond, q)| == |qs| + Count(cond) && PushIf(qs, cond, q)[..|qs|] == qs
    ensures forall x :: x in PushIf(qs, cond, q) <==> x in qs || (cond && x == q)
  {
  }

  /** `createQueries(currentUser, types, searchText, sort, limit)`: the
      list always opens with the ownership-or-sharing predicate; a type
      filter, a name filter, a limit and a sort predicate follow, in that
      order, each only when its parameter is non-empty (truthy for the
      limit), so the list holds one to five predicates. */
  function CreateQueries(user: User, types: seq<string>, searchText: string, sort: string, limit: Option<int>)
    : (r: seq<Query>)
    ensures |r| == 1 + Count(|types| > 0) + Count(searchText != "") + Count(IsTruthy(limit)) + Count(sort != "")
    ensures 1 <= |r| <= 5
    ensures r[0] == OwnedOrShared(user)
    ensures InRankOrder(r)
  {
    var q0 := [OwnedOrShared(user)];
    var withType := PushIf(q0, |types| > 0, Equal("type", types));
    PushIfKeepsOrder(q0, |types| > 0, Equal("type", types));
    var withName := PushIf(withType, searchText != "", Contains("name", searchText));
    PushIfKeepsOrder(withType, searchText != "", Contains("name", searchText));
    var withLimit := PushIf(withName, IsTruthy(limit), Limit(limit.GetOr(0)));
    PushIfKeepsOrder(withName, IsTruthy(limit), Limit(limit.GetOr(0)));
    PushIfKeepsOrder(withLimit, sort != "", SortQuery(sort));
    PushIf(withLimit, sort != "", SortQuery(sort))
  }

  /** The type filter, the name filter and the sort predicate are in the
      list exactly when their parameter is non-empty. */
  lemma CreateQueriesFilters(user: User, types: seq<string>, searchText: string, sort: string, limit: Option<int>)
    ensures var r := CreateQueries(user, types, searchText, sort, limit);
      && (Equal("type", types) in r <==> |types| > 0)
      && (Contains("name", searchText) in r <==> searchText != "")
      && (SortQuery(sort) in r <==> sort != "")
  {
  }

  /** A limit is in the list exactly when the limit is truthy (0 adds
      none), and it is the given one. */
  lemma CreateQueriesLimit(user: User, types: seq<string>, searchText: string, sort: string, limit: Option<int>)
    ensures var r := CreateQueries(user, types, searchText, sort, limit);
      && (IsTruthy(limit) <==> exists q <- r :: q.Limit?)
      && (forall q <- r :: q.Limit? ==> limit == Some(q.count))
  {
    var q0 := [OwnedOrShared(user)];
    var withType := PushIf(q0, |types| > 0, Equal("type", types));
    var withName := PushIf(withType, searchText != "", Contains("name", searchText));
    var withLimit := PushIf(withName, IsTruthy(limit), Limit(limit.GetOr(0)));
    var r := PushIf(withLimit, sort != "", SortQuery(sort));
    assert r == CreateQueries(user, types, searchText, sort, limit);
    assert IsTruthy(limit) ==> r[|withName|] == Limit(limit.GetOr(0));
  }

  /** The first piece of a split is "asc" exactly when the text is "asc"
      alone or starts with "asc-". */
  lemma FirstPieceIsAsc(rest: string)
    ensures Text.Split(rest, '-')[0] == "asc" <==> rest == "asc" || Text.IsPrefix("asc-", rest)
  {
    Text.SplitFirst(rest, '-');
    var g := Text.Split(rest, '-')[0];
    if g == "asc" {
      if |g| < |rest| {
        assert rest[..4] == "asc-";
      } else {
        assert rest == rest[..3];
      }
    }
    if rest == "asc" || Text.IsPrefix("asc-", rest) {
      assert rest[..3] == "asc";
      assert forall k :: 0 <= k < 3 ==> rest[k] != '-';
      assert |rest| == 3 || rest[3] == '-';
      assert g == rest[..3];
    }
  }

  /** Text glued after a field and a `-` starts with `asc-`, or is `asc`,
      exactly when the whole starts with the field and `-asc-`, or is the
      field and `-asc`. */
  lemma AfterSeparator(f: string, rest: string)
    ensures f + "-" + rest == f + "-asc" <==> rest == "asc"
    ensures Text.IsPrefix(f + "-asc-", f + "-" + rest) <==> Text.IsPrefix("asc-", rest)
  {
    var whole := f + "-" + rest;
    assert whole[|f| + 1..] == rest;
    if |whole| >= |f| + 5 {
      assert whole[..|f| + 5] == f + "-" + rest[..4];
    }
  }

  /** The sort predicate orders by the text before the first `-`, and is
      ascending exactly when the text after that `-` is `asc`, alone or
      followed by a further `-`: a missing direction, or any other one,
      sorts descending. */
  lemma SortQueryMeaning(sort: string)
    ensures var q := SortQuery(sort);
      var field := q.attribute;
      && (q.OrderAsc? || q.OrderDesc?)
      && Text.IsPrefix(field, sort) && '-' !in field
      && (|field| == |sort| || sort[|field|] == '-')
      && (q.OrderAsc? <==> sort == field + "-asc" || Text.IsPrefix(field + "-asc-", sort))
  {
    var pieces := Text.Split(sort, '-');
    var f := pieces[0];
    Text.SplitFirst(sort, '-');
    if |f| < |sort| {
      var rest := sort[|f| + 1..];
      assert sort == f + "-" + rest by {
        assert sort == sort[..|f|] + [sort[|f|]] + sort[|f| + 1..];
      }
      assert pieces[1] == Text.Split(rest, '-')[0];
      FirstPieceIsAsc(rest);
      AfterSeparator(f, rest);
    }
  }

  /** A sort of the form `field-desc` orders by `field`, descending. */
  lemma DescendingSort(field: string)
    requires '-' !in field
    ensures SortQuery(field + "-desc") == OrderDesc(field)
  {
    var sort := field + "-desc";
    SortQueryMeaning(sort);
    var q := SortQuery(sort);
    var found := q.attribute;
    assert sort[|field|] == '-';
    assert |found| <= |field| by {
      assert sort[|field|] !in found;
    }
    assert forall i | 0 <= i < |field| :: sort[i] == field[i];
    assert |found| == |field|;
    assert found == sort[..|field|] == field;
    assert sort != found + "-asc" by {
      assert |sort| != |found + "-asc"|;
    }
    assert !Text.IsPrefix(found + "-asc-", sort) by {
      assert (found + "-asc-")[|field| + 1] != sort[|field| + 1];
    }
  }
}
