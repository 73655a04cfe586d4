/** Cursor pagination over the provider (`r_query_programs`, `r_query_rounds`,
    `r_query_projects`, `r_query_votes`): ask for up to 1000 records whose id
    is above the cursor; a page shorter than 1000 ends the traversal,
    otherwise the last record's id becomes the next cursor and the page is
    put in front of the rest of the traversal. */
module Pagination {
  import opened Models
  import opened Order

  /** The `first:` argument of every provider query. */
  const PageSize: nat := 1000

  /** What the provider answers to one query: a transport or decoding
      failure, or a page of records. */
  datatype Answer<R> = Failure | Page(records: seq<R>)

  /** One request of a traversal: the cursor sent and the answer received. */
  datatype Exchange<R> = Exchange(cursor: string, answer: Answer<R>)

  /** The outcome of a traversal: the records returned (`None` when a query
      failed, which the source turns into a panic) and every exchange with
      the provider, in order. */
  datatype Fetch<R> = Fetch(result: Option<seq<R>>, log: seq<Exchange<R>>)

  ghost predicate Ascending<R>(records: seq<R>, key: R -> string) {
    forall i, j :: 0 <= i < j < |records| ==> Below(key(records[i]), key(records[j]))
  }

  /** The query contract for one page at `cursor`: at most `PageSize`
      records, ascending by id, every id above the cursor and one of the
      provider's ids. */
  ghost predicate Conforms<R>(page: seq<R>, key: R -> string, ids: set<string>, cursor: string) {
    && |page| <= PageSize
    && Ascending(page, key)
    && forall i :: 0 <= i < |page| ==> key(page[i]) in ids && Below(cursor, key(page[i]))
  }

  /** The provider's answer to `cursor` keeps the query contract. */
  ghost predicate AnswersAt<R>(provider: string -> Answer<R>, key: R -> string, ids: set<string>, cursor: string) {
    provider(cursor).Page? ==> Conforms(provider(cursor).records, key, ids, cursor)
  }

  /** Every page the provider hands out keeps the query contract. */
  ghost predicate Honours<R>(provider: string -> Answer<R>, key: R -> string, ids: set<string>) {
    forall cursor :: AnswersAt(provider, key, ids, cursor)
  }

  /** A page that does not end the traversal. */
  predicate Full<R>(answer: Answer<R>) {
    answer.Page? && |answer.records| >= PageSize
  }

  /** The provider's ids still above `cursor`: the termination measure. */
  ghost function Remaining(ids: set<string>, cursor: string): set<string> {
    set id | id in ids && Below(cursor, id)
  }

  lemma RemainingShrinks(ids: set<string>, cursor: string, next: string)
    requires next in ids && Below(cursor, next)
    ensures |Remaining(ids, next)| < |Remaining(ids, cursor)|
  {
    var later, now := Remaining(ids, next), Remaining(ids, cursor);
    forall id | id in later ensures id in now {
      BelowTransitive(cursor, next, id);
    }
    BelowIrreflexive(next);
    assert next in now - later;
    assert now == later + (now - later);
    assert |now| == |later| + |now - later|;
  }

  /** All records of all pages in `log`, in order. */
  function Received<R>(log: seq<Exchange<R>>): seq<R> {
    if log == [] then []
    else (if log[0].answer.Page? then log[0].answer.records else []) + Received(log[1..])
  }

  /** The answer recorded in `e` is what the provider says to its cursor. */
  ghost predicate Asked<R>(provider: string -> Answer<R>, e: Exchange<R>) {
    e.answer == provider(e.cursor)
  }

  /** Exchange `i` of `log` is a page of exactly `PageSize` records and the
      next exchange asks from its last id. */
  predicate Continued<R>(key: R -> string, log: seq<Exchange<R>>, i: nat)
    requires i + 1 < |log|
  {
    && log[i].answer.Page?
    && |log[i].answer.records| == PageSize
    && log[i + 1].cursor == key(log[i].answer.records[PageSize - 1])
  }

  /** `r_query_*(gql, cursor)`: the traversal from `cursor`. It starts at
      `cursor` and ends at the first answer that is a failure or a short
      page; on success the result is every record received, in order. */
  function QueryFrom<R>(provider: string -> Answer<R>, key: R -> string, ids: set<string>, cursor: string): (f: Fetch<R>)
    requires Honours(provider, key, ids)
    ensures 0 < |f.log| && f.log[0] == Exchange(cursor, provider(cursor))
    ensures !Full(f.log[|f.log| - 1].answer)
    ensures f.result.Some? <==> f.log[|f.log| - 1].answer.Page?
    ensures f.result.Some? ==> f.result.value == Received(f.log)
    decreases |Remaining(ids, cursor)|
  {
    var answer := provider(cursor);
    if !Full(answer) then
      Fetch(if answer.Page? then Some(answer.records) else None, [Exchange(cursor, answer)])
    else
      var page := answer.records;
      var next := key(page[|page| - 1]);
      assert AnswersAt(provider, key, ids, cursor);
      RemainingShrinks(ids, cursor, next);
      var rest := QueryFrom(provider, key, ids, next);
      var log := [Exchange(cursor, answer)] + rest.log;
      assert log[1..] == rest.log;
      Fetch(if rest.result.Some? then Some(page + rest.result.value) else None, log)
  }

  /** The whole conversation of a traversal: each answer is the provider's
      answer to the cursor sent, and every page but the last is full, holds
      exactly `PageSize` records and is followed by a query at its last id. */
  lemma {:induction false} QueryFromConversation<R>(provider: string -> Answer<R>, key: R -> string, ids: set<string>, cursor: string)
    requires Honours(provider, key, ids)
    ensures forall i :: 0 <= i < |QueryFrom(provider, key, ids, cursor).log| ==>
              Asked(provider, QueryFrom(provider, key, ids, cursor).log[i])
    ensures forall i :: 0 <= i < |QueryFrom(provider, key, ids, cursor).log| - 1 ==>
              Continued(key, QueryFrom(provider, key, ids, cursor).log, i)
    decreases |Remaining(ids, cursor)|
  {
    var answer := provider(cursor);
    if Full(answer) {
      var page := answer.records;
      var next := key(page[|page| - 1]);
      assert AnswersAt(provider, key, ids, cursor);
      RemainingShrinks(ids, cursor, next);
      QueryFromConversation(provider, key, ids, next);
      var f, rest := QueryFrom(provider, key, ids, cursor), QueryFrom(provider, key, ids, next);
      assert f.log == [Exchange(cursor, answer)] + rest.log;
      assert |page| == PageSize;
      forall i | 1 <= i < |f.log| ensures Asked(provider, f.log[i]) {
        assert f.log[i] == rest.log[i - 1];
      }
      forall i | 0 <= i < |f.log| - 1 ensures Continued(key, f.log, i) {
        if i > 0 {
          assert Continued(key, rest.log, i - 1);
          assert f.log[i] == rest.log[i - 1] && f.log[i + 1] == rest.log[i];
        }
      }
    }
  }

  /** `seed_*` starts every traversal from the empty cursor. */
  function QueryAll<R>(provider: string -> Answer<R>, key: R -> string, ids: set<string>): (f: Fetch<R>)
    requires Honours(provider, key, ids)
    ensures 0 < |f.log| && f.log[0] == Exchange("", provider(""))
  {
    QueryFrom(provider, key, ids, "")
  }

  /* ---------- A provider that serves a fixed, ascending set of records ---------- */

  /** The records of `records` whose id lies above `cursor`, in order. */
  function Above<R>(records: seq<R>, key: R -> string, cursor: string): (r: seq<R>)
    ensures |r| <= |records|
  {
    if records == [] then []
    else if Below(cursor, key(records[0])) then [records[0]] + Above(records[1..], key, cursor)
    else Above(records[1..], key, cursor)
  }

  function Take<R>(s: seq<R>, n: nat): (r: seq<R>)
    ensures |r| <= n && |r| <= |s|
    ensures |s| <= n ==> r == s
    ensures |s| > n ==> r == s[..n]
  {
    if |s| <= n then s else s[..n]
  }

  /** An indexer holding `records` that answers at most `limit` records per
      query; with `limit == PageSize` it is the well-behaved provider the
      traversal is written for. */
  function Indexer<R>(records: seq<R>, key: R -> string, limit: nat): string -> Answer<R> {
    cursor => Page(Take(Above(records, key, cursor), limit))
  }

  /** Every record `Above` yields comes from `records` and lies above the cursor. */
  lemma {:induction false} AboveMembers<R>(records: seq<R>, key: R -> string, cursor: string)
    ensures forall i :: 0 <= i < |Above(records, key, cursor)| ==>
              && key(Above(records, key, cursor)[i]) in Ids(records, key)
              && Below(cursor, key(Above(records, key, cursor)[i]))
    decreases |records|
  {
    if records != [] {
      AboveMembers(records[1..], key, cursor);
      var rest := Above(records[1..], key, cursor);
      forall i | 0 <= i < |rest| ensures key(rest[i]) in Ids(records, key) {
        var j :| 0 <= j < |records[1..]| && key(records[1..][j]) == key(rest[i]);
        assert records[1..][j] == records[j + 1];
      }
    }
  }

  /** The first record of an ascending sequence lies below all the others. */
  lemma HeadBelowTail<R>(records: seq<R>, key: R -> string, cursor: string)
    requires Ascending(records, key) && records != []
    ensures forall i :: 0 <= i < |Above(records[1..], key, cursor)| ==>
              Below(key(records[0]), key(Above(records[1..], key, cursor)[i]))
  {
    var rest := Above(records[1..], key, cursor);
    AboveMembers(records[1..], key, cursor);
    forall i | 0 <= i < |rest| ensures Below(key(records[0]), key(rest[i])) {
      assert key(rest[i]) in Ids(records[1..], key);
      var j :| 0 <= j < |records[1..]| && key(records[1..][j]) == key(rest[i]);
      assert records[1..][j] == records[j + 1];
    }
  }

  lemma {:induction false} AboveAscending<R>(records: seq<R>, key: R -> string, cursor: string)
    requires Ascending(records, key)
    ensures Ascending(Above(records, key, cursor), key)
    decreases |records|
  {
    if records != [] {
      assert Ascending(records[1..], key) by {
        forall i, j | 0 <= i < j < |records[1..]| ensures Below(key(records[1..][i]), key(records[1..][j])) {
          assert records[1..][i] == records[i + 1] && records[1..][j] == records[j + 1];
        }
      }
      AboveAscending(records[1..], key, cursor);
      if Below(cursor, key(records[0])) {
        HeadBelowTail(records, key, cursor);
        var rest := Above(records[1..], key, cursor);
        var r := [records[0]] + rest;
        forall i, j | 0 <= i < j < |r| ensures Below(key(r[i]), key(r[j])) {
          assert r[j] == rest[j - 1];
          if i > 0 { assert r[i] == rest[i - 1]; }
        }
      }
    }
  }

  /** Filtering above `c` and then above a later `d` is filtering above `d`. */
  lemma {:induction false} AboveAbove<R>(records: seq<R>, key: R -> string, c: string, d: string)
    requires Below(c, d)
    ensures Above(Above(records, key, c), key, d) == Above(records, key, d)
    decreases |records|
  {
    if records != [] {
      AboveAbove(records[1..], key, c, d);
      var x := records[0];
      var rest := Above(records[1..], key, c);
      if Below(c, key(x)) {
        assert ([x] + rest)[0] == x && ([x] + rest)[1..] == rest;
      } else if Below(d, key(x)) {
        BelowTransitive(c, d, key(x));
      }
    }
  }

  /** When every record lies above the cursor, `Above` keeps them all. */
  lemma {:induction false} AboveAll<R>(records: seq<R>, key: R -> string, cursor: string)
    requires forall i :: 0 <= i < |records| ==> Below(cursor, key(records[i]))
    ensures Above(records, key, cursor) == records
    decreases |records|
  {
    if records != [] {
      AboveAll(records[1..], key, cursor);
      assert records == [records[0]] + records[1..];
    }
  }

  /** In an ascending sequence, the records above the `k`-th id are exactly
      those after position `k`. */
  lemma {:induction false} AboveAt<R>(records: seq<R>, key: R -> string, k: nat)
    requires Ascending(records, key) && k < |records|
    ensures Above(records, key, key(records[k])) == records[k + 1..]
    decreases k
  {
    BelowIrreflexive(key(records[k]));
    if k == 0 {
      AboveAll(records[1..], key, key(records[0]));
    } else {
      BelowAsymmetric(key(records[0]), key(records[k]));
      assert Ascending(records[1..], key) by {
        forall i, j | 0 <= i < j < |records[1..]| ensures Below(key(records[1..][i]), key(records[1..][j])) {
          assert records[1..][i] == records[i + 1] && records[1..][j] == records[j + 1];
        }
      }
      assert records[1..][k - 1] == records[k];
      AboveAt(records[1..], key, k - 1);
      assert records[1..][k..] == records[k + 1..];
    }
  }

  /** An indexer that answers at most `PageSize` records keeps the query
      contract, with the ids of its records as the universe. */
  lemma IndexerHonours<R>(records: seq<R>, key: R -> string, limit: nat)
    requires Ascending(records, key) && limit <= PageSize
    ensures Honours(Indexer(records, key, limit), key, Ids(records, key))
  {
    forall cursor
      ensures AnswersAt(Indexer(records, key, limit), key, Ids(records, key), cursor)
    {
      IndexerPageConforms(records, key, limit, cursor);
    }
  }

  lemma IndexerPageConforms<R>(records: seq<R>, key: R -> string, limit: nat, cursor: string)
    requires Ascending(records, key) && limit <= PageSize
    ensures Conforms(Take(Above(records, key, cursor), limit), key, Ids(records, key), cursor)
  {
    var above := Above(records, key, cursor);
    var page := Take(above, limit);
    AboveMembers(records, key, cursor);
    AboveAscending(records, key, cursor);
    assert forall i :: 0 <= i < |page| ==> page[i] == above[i];
  }

  /** After a full page from the indexer, the next cursor lies above the
      current one, is one of the ids, and the records above it are those
      after the page. */
  lemma NextCursor<R>(records: seq<R>, key: R -> string, cursor: string)
    requires Ascending(records, key) && |Above(records, key, cursor)| >= PageSize
    ensures var above := Above(records, key, cursor);
            var next := key(above[PageSize - 1]);
            && Below(cursor, next) && next in Ids(records, key)
            && Above(records, key, next) == above[PageSize..]
  {
    var above := Above(records, key, cursor);
    var next := key(above[PageSize - 1]);
    AboveMembers(records, key, cursor);
    AboveAscending(records, key, cursor);
    AboveAbove(records, key, cursor, next);
    AboveAt(above, key, PageSize - 1);
  }

  /** One step of the traversal: a full page is followed by the traversal
      from its last id. */
  lemma FullPageStep<R>(provider: string -> Answer<R>, key: R -> string, ids: set<string>, cursor: string, page: seq<R>)
    requires Honours(provider, key, ids)
    requires provider(cursor) == Page(page) && |page| >= PageSize
    ensures var f := QueryFrom(provider, key, ids, cursor);
            var rest := QueryFrom(provider, key, ids, key(page[|page| - 1]));
            && f.result == (if rest.result.Some? then Some(page + rest.result.value) else None)
            && |f.log| == 1 + |rest.log|
  {
  }

  lemma SplitAt<T>(s: seq<T>, n: nat)
    requires n <= |s|
    ensures s == s[..n] + s[n..]
  {
  }

  lemma PageCount(n: nat)
    ensures n < PageSize ==> n / PageSize == 0
    ensures n >= PageSize ==> n / PageSize == (n - PageSize) / PageSize + 1
  {
  }

  /** The indexer's page at `cursor`: the first `limit` records above it. */
  lemma IndexerAnswer<R>(records: seq<R>, key: R -> string, limit: nat, cursor: string)
    ensures var above := Above(records, key, cursor);
            Indexer(records, key, limit)(cursor) == Page(if |above| <= limit then above else above[..limit])
  {
  }

  /** A full first page followed by a traversal that returns the rest of
      `whole` returns all of `whole`, with one more request. */
  lemma FullPageCount<R>(provider: string -> Answer<R>, key: R -> string, ids: set<string>, cursor: string, whole: seq<R>)
    requires Honours(provider, key, ids)
    requires |whole| >= PageSize && provider(cursor) == Page(whole[..PageSize])
    requires var rest := QueryFrom(provider, key, ids, key(whole[PageSize - 1]));
             rest.result == Some(whole[PageSize..]) && |rest.log| == (|whole| - PageSize) / PageSize + 1
    ensures var f := QueryFrom(provider, key, ids, cursor);
            f.result == Some(whole) && |f.log| == |whole| / PageSize + 1
  {
    var page := whole[..PageSize];
    assert page[|page| - 1] == whole[PageSize - 1];
    FullPageStep(provider, key, ids, cursor, page);
    SplitAt(whole, PageSize);
    PageCount(|whole|);
  }

  /** The indexer's answer to a full page, given the traversal from the
      page's last id. */
  lemma IndexerFullPage<R>(records: seq<R>, key: R -> string, cursor: string)
    requires Honours(Indexer(records, key, PageSize), key, Ids(records, key))
    requires |Above(records, key, cursor)| >= PageSize
    requires var above := Above(records, key, cursor);
             var rest := QueryFrom(Indexer(records, key, PageSize), key, Ids(records, key), key(above[PageSize - 1]));
             rest.result == Some(above[PageSize..]) && |rest.log| == (|above| - PageSize) / PageSize + 1
    ensures var f := QueryFrom(Indexer(records, key, PageSize), key, Ids(records, key), cursor);
            var above := Above(records, key, cursor);
            f.result == Some(above) && |f.log| == |above| / PageSize + 1
  {
    var above := Above(records, key, cursor);
    IndexerAnswer(records, key, PageSize, cursor);
    FullPageCount(Indexer(records, key, PageSize), key, Ids(records, key), cursor, above);
  }

  /** The indexer's answer to a short page ends the traversal. */
  lemma IndexerShortPage<R>(records: seq<R>, key: R -> string, cursor: string)
    requires Honours(Indexer(records, key, PageSize), key, Ids(records, key))
    requires |Above(records, key, cursor)| < PageSize
    ensures var f := QueryFrom(Indexer(records, key, PageSize), key, Ids(records, key), cursor);
            var above := Above(records, key, cursor);
            f.result == Some(above) && |f.log| == |above| / PageSize + 1
  {
    var provider := Indexer(records, key, PageSize);
    var above := Above(records, key, cursor);
    assert provider(cursor) == Page(above);
    PageCount(|above|);
  }

  /** Against an indexer of ascending records with full pages, the traversal
      from any cursor returns exactly the records above it, in order, using
      `N / PageSize + 1` requests for `N` such records. */
  lemma {:induction false} IndexerTraversal<R>(records: seq<R>, key: R -> string, cursor: string)
    requires Ascending(records, key)
    ensures Honours(Indexer(records, key, PageSize), key, Ids(records, key))
    ensures var f := QueryFrom(Indexer(records, key, PageSize), key, Ids(records, key), cursor);
            var above := Above(records, key, cursor);
            f.result == Some(above) && |f.log| == |above| / PageSize + 1
    decreases |Above(records, key, cursor)|
  {
    IndexerHonours(records, key, PageSize);
    var above := Above(records, key, cursor);
    if |above| >= PageSize {
      NextCursor(records, key, cursor);
      IndexerTraversal(records, key, key(above[PageSize - 1]));
      IndexerFullPage(records, key, cursor);
    } else {
      IndexerShortPage(records, key, cursor);
    }
  }

  /** From the empty cursor the traversal returns every record (ids are
      non-empty), with `N / PageSize + 1` requests: one for `N = 0`, two for
      `N = PageSize`. */
  lemma FetchesEverything<R>(records: seq<R>, key: R -> string)
    requires Ascending(records, key)
    requires forall i :: 0 <= i < |records| ==> key(records[i]) != ""
    ensures Honours(Indexer(records, key, PageSize), key, Ids(records, key))
    ensures var f := QueryAll(Indexer(records, key, PageSize), key, Ids(records, key));
            f.result == Some(records) && |f.log| == |records| / PageSize + 1
  {
    IndexerTraversal(records, key, "");
    AboveAll(records, key, "");
  }

  /** A provider holding exactly `PageSize` records costs a second request,
      at the last id, that comes back empty. */
  lemma ExactPageCostsEmptyRequest<R>(records: seq<R>, key: R -> string)
    requires Ascending(records, key) && |records| == PageSize
    requires forall i :: 0 <= i < |records| ==> key(records[i]) != ""
    ensures Honours(Indexer(records, key, PageSize), key, Ids(records, key))
    ensures var f := QueryAll(Indexer(records, key, PageSize), key, Ids(records, key));
            |f.log| == 2 && f.log[1] == Exchange(key(records[PageSize - 1]), Page([]))
  {
    FetchesEverything(records, key);
    var provider, ids := Indexer(records, key, PageSize), Ids(records, key);
    var f := QueryAll(provider, key, ids);
    var last := key(records[PageSize - 1]);
    QueryFromConversation(provider, key, ids, "");
    AboveAll(records, key, "");
    IndexerAnswer(records, key, PageSize, "");
    assert Continued(key, f.log, 0);
    assert f.log[1].cursor == last;
    AboveAt(records, key, PageSize - 1);
    IndexerAnswer(records, key, PageSize, last);
    assert Asked(provider, f.log[1]);
  }

  /** A short page ends the traversal whatever the provider still holds:
      its records are the whole result. */
  lemma ShortPageEndsTraversal<R>(provider: string -> Answer<R>, key: R -> string, ids: set<string>, cursor: string)
    requires Honours(provider, key, ids)
    requires provider(cursor).Page? && |provider(cursor).records| < PageSize
    ensures QueryFrom(provider, key, ids, cursor) == Fetch(Some(provider(cursor).records), [Exchange(cursor, provider(cursor))])
  {
  }

  /** An indexer that caps its pages below `PageSize` (a limit the query
      contract allows) ends the traversal after one request, and every
      record past the cap is never fetched. */
  lemma CappedIndexerUnderFetches<R>(records: seq<R>, key: R -> string, limit: nat)
    requires Ascending(records, key) && limit < PageSize
    requires forall i :: 0 <= i < |records| ==> key(records[i]) != ""
    ensures Honours(Indexer(records, key, limit), key, Ids(records, key))
    ensures var f := QueryAll(Indexer(records, key, limit), key, Ids(records, key));
            && f.result == Some(Take(records, limit))
            && |f.log| == 1
            && forall i :: limit <= i < |records| ==> records[i] !in f.result.value
  {
    IndexerHonours(records, key, limit);
    AboveAll(records, key, "");
    IndexerAnswer(records, key, limit, "");
    ShortPageEndsTraversal(Indexer(records, key, limit), key, Ids(records, key), "");
    var f := QueryAll(Indexer(records, key, limit), key, Ids(records, key));
    assert f.result.value == Take(records, limit);
    forall i | limit <= i < |records| ensures records[i] !in f.result.value {
      if records[i] in f.result.value {
        var j :| 0 <= j < |f.result.value| && f.result.value[j] == records[i];
        assert records[j] == records[i] && j < i;
        BelowIrreflexive(key(records[i]));
      }
    }
  }
}
