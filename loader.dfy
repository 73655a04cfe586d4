/** The chunked insert-or-ignore loader (`new_programs`, `new_rounds`,
    `new_projects`, `new_votes`, the single-record `new_program` ...
    `new_vote`, the `insert_*` statements and the `get_*` read-backs). The
    file database.rs repeats the same code, so one model serves both. */
module Loader {
  import opened Models

  /** The `chunk_size` of every `new_*` loop. */
  const ChunkSize: nat := 1000

  function Concat<R>(batches: seq<seq<R>>): seq<R> {
    if batches == [] then [] else batches[0] + Concat(batches[1..])
  }

  lemma {:induction false} ConcatAppend<R>(a: seq<seq<R>>, b: seq<seq<R>>)
    ensures Concat(a + b) == Concat(a) + Concat(b)
    decreases |a|
  {
    if a == [] {
      assert a + b == b;
    } else {
      assert (a + b)[0] == a[0] && (a + b)[1..] == a[1..] + b;
      ConcatAppend(a[1..], b);
    }
  }

  /** The batches the `while len > chunk_size` loop and the final insert
      hand to the store, in order. */
  function Chunks<R>(records: seq<R>): (batches: seq<seq<R>>)
    ensures 0 < |batches|
    decreases |records|
  {
    if |records| > ChunkSize then [records[..ChunkSize]] + Chunks(records[ChunkSize..]) else [records]
  }

  /** The batches put back together are the input; each holds at most
      `ChunkSize` records and all but the last exactly `ChunkSize`; there is
      one batch up to `ChunkSize` records and `ceil(n / ChunkSize)` above. */
  lemma {:induction false} ChunksMeaning<R>(records: seq<R>)
    ensures var batches := Chunks(records);
            && Concat(batches) == records
            && (forall i :: 0 <= i < |batches| ==> |batches[i]| <= ChunkSize)
            && (forall i :: 0 <= i < |batches| - 1 ==> |batches[i]| == ChunkSize)
            && |batches| == if |records| <= ChunkSize then 1 else (|records| + ChunkSize - 1) / ChunkSize
    decreases |records|
  {
    var batches := Chunks(records);
    if |records| > ChunkSize {
      var rest := records[ChunkSize..];
      ChunksMeaning(rest);
      assert batches[0] == records[..ChunkSize] && batches[1..] == Chunks(rest);
      assert records == records[..ChunkSize] + rest;
      forall i | 1 <= i < |batches| ensures |batches[i]| <= ChunkSize {
        assert batches[i] == Chunks(rest)[i - 1];
      }
      forall i | 1 <= i < |batches| - 1 ensures |batches[i]| == ChunkSize {
        assert batches[i] == Chunks(rest)[i - 1];
      }
    } else {
      assert Concat(batches) == records by {
        assert batches[1..] == [];
      }
    }
  }

  /** `insert_*` with `on_conflict(id).do_nothing()`: each record of the
      batch, in order, is added unless its id is already a key. */
  function InsertOrIgnore<R>(rows: map<string, R>, batch: seq<R>, key: R -> string): map<string, R>
    decreases |batch|
  {
    if batch == [] then rows
    else
      var k := key(batch[0]);
      InsertOrIgnore(if k in rows then rows else rows[k := batch[0]], batch[1..], key)
  }

  /** What an insert-or-ignore statement leaves in the table: every id of
      the batch becomes a key, a row that existed is never overwritten, and
      inside one batch the first record with an id wins. */
  lemma {:induction false} InsertOrIgnoreMeaning<R>(rows: map<string, R>, batch: seq<R>, key: R -> string)
    ensures var r := InsertOrIgnore(rows, batch, key);
            && r.Keys == rows.Keys + Ids(batch, key)
            && (forall k :: k in rows ==> r[k] == rows[k])
            && (forall k :: k in r && k !in rows ==> r[k] == FirstWith(batch, key, k))
    decreases |batch|
  {
    if batch != [] {
      var k := key(batch[0]);
      var next := if k in rows then rows else rows[k := batch[0]];
      InsertOrIgnoreMeaning(next, batch[1..], key);
      var r := InsertOrIgnore(rows, batch, key);
      forall k' | k' in r && k' !in rows && k' != k ensures r[k'] == FirstWith(batch, key, k') {
        FirstWithAppend([batch[0]], batch[1..], key, k');
        assert [batch[0]] + batch[1..] == batch;
      }
    }
  }

  /** Every row is stored under its own id. */
  ghost predicate KeyedBy<R>(rows: map<string, R>, key: R -> string) {
    forall k :: k in rows ==> key(rows[k]) == k
  }

  lemma InsertKeepsKeying<R>(rows: map<string, R>, batch: seq<R>, key: R -> string)
    requires KeyedBy(rows, key)
    ensures KeyedBy(InsertOrIgnore(rows, batch, key), key)
  {
    InsertOrIgnoreMeaning(rows, batch, key);
  }

  /** A single record: added when its id is new, ignored otherwise. */
  lemma InsertOne<R>(rows: map<string, R>, record: R, key: R -> string)
    ensures InsertOrIgnore(rows, [record], key) == if key(record) in rows then rows else rows[key(record) := record]
  {
    assert [record][1..] == [];
  }

  /** Inserting `a` and then `b` is inserting `a + b`. */
  lemma {:induction false} InsertAppend<R>(rows: map<string, R>, a: seq<R>, b: seq<R>, key: R -> string)
    ensures InsertOrIgnore(InsertOrIgnore(rows, a, key), b, key) == InsertOrIgnore(rows, a + b, key)
    decreases |a|
  {
    if a == [] {
      assert a + b == b;
    } else {
      var k := key(a[0]);
      var next := if k in rows then rows else rows[k := a[0]];
      assert (a + b)[0] == a[0] && (a + b)[1..] == a[1..] + b;
      InsertAppend(next, a[1..], b, key);
    }
  }

  /** Inserting the same batch twice leaves the table as inserting it once. */
  lemma InsertIdempotent<R>(rows: map<string, R>, batch: seq<R>, key: R -> string)
    ensures InsertOrIgnore(InsertOrIgnore(rows, batch, key), batch, key) == InsertOrIgnore(rows, batch, key)
  {
    var once := InsertOrIgnore(rows, batch, key);
    var twice := InsertOrIgnore(once, batch, key);
    InsertOrIgnoreMeaning(rows, batch, key);
    InsertOrIgnoreMeaning(once, batch, key);
    assert twice.Keys == once.Keys;
  }

  /** Loading two overlapping sequences gives the union keyed by id: rows
      already present win, then the first sequence, then the second. */
  lemma OverlappingLoads<R>(rows: map<string, R>, a: seq<R>, b: seq<R>, key: R -> string)
    ensures var r := InsertOrIgnore(InsertOrIgnore(rows, a, key), b, key);
            && r.Keys == rows.Keys + Ids(a, key) + Ids(b, key)
            && (forall k :: k in rows ==> r[k] == rows[k])
            && (forall k :: k !in rows && k in Ids(a, key) ==> r[k] == FirstWith(a, key, k))
            && (forall k :: k !in rows && k !in Ids(a, key) && k in Ids(b, key) ==> r[k] == FirstWith(b, key, k))
  {
    InsertOrIgnoreMeaning(rows, a, key);
    InsertOrIgnoreMeaning(InsertOrIgnore(rows, a, key), b, key);
  }

  /* ---------- Store failures ---------- */

  /** Whether the store rejects one of the statements of loading `records`,
      when `fault` names the position (within this load) of the first
      statement the store rejects. */
  predicate Fails<R>(records: seq<R>, fault: Option<nat>) {
    fault.Some? && fault.value < |Chunks(records)|
  }

  /** The statements issued: all batches, or those up to and including the
      rejected one (the panic ends the loop). */
  function Issued<R>(records: seq<R>, fault: Option<nat>): seq<seq<R>> {
    if Fails(records, fault) then Chunks(records)[..fault.value + 1] else Chunks(records)
  }

  /** The statements that took effect: a rejected statement changes nothing. */
  function Committed<R>(records: seq<R>, fault: Option<nat>): seq<seq<R>> {
    if Fails(records, fault) then Chunks(records)[..fault.value] else Chunks(records)
  }

  /** The table after loading `records`. */
  function Loaded<R>(rows: map<string, R>, records: seq<R>, fault: Option<nat>, key: R -> string): map<string, R> {
    InsertOrIgnore(rows, Concat(Committed(records, fault)), key)
  }

  /** The first `n` batches hold exactly the first `n * ChunkSize` records. */
  lemma {:induction false} ChunksPrefix<R>(records: seq<R>, n: nat)
    requires n < |Chunks(records)|
    ensures n * ChunkSize <= |records|
    ensures Concat(Chunks(records)[..n]) == records[..n * ChunkSize]
    decreases n
  {
    if n > 0 {
      var rest := records[ChunkSize..];
      assert Chunks(records)[1..] == Chunks(rest);
      ChunksPrefix(rest, n - 1);
      var c := Chunks(records)[..n];
      assert c[0] == records[..ChunkSize] && c[1..] == Chunks(rest)[..n - 1];
      assert records[..n * ChunkSize] == records[..ChunkSize] + rest[..(n - 1) * ChunkSize];
    } else {
      assert Chunks(records)[..0] == [];
    }
  }

  /** Every statement of a load holds at most `ChunkSize` records, and the
      statements, in order, are consecutive pieces of the input. */
  lemma IssuedBatches<R>(records: seq<R>, fault: Option<nat>)
    ensures forall i :: 0 <= i < |Issued(records, fault)| ==> |Issued(records, fault)[i]| <= ChunkSize
    ensures !Fails(records, fault) ==> Concat(Issued(records, fault)) == records
    ensures Fails(records, fault) ==> |Issued(records, fault)| == fault.value + 1
  {
    ChunksMeaning(records);
  }

  /** A load the store never rejects inserts the whole input. */
  lemma CleanLoad<R>(rows: map<string, R>, records: seq<R>, fault: Option<nat>, key: R -> string)
    requires !Fails(records, fault)
    ensures Loaded(rows, records, fault, key) == InsertOrIgnore(rows, records, key)
  {
    ChunksMeaning(records);
  }

  /** A rejected statement aborts the load: no later batch is issued, and
      the batches before it stay in the table. */
  lemma FailedLoadKeepsEarlierBatches<R>(rows: map<string, R>, records: seq<R>, fault: Option<nat>, key: R -> string)
    requires Fails(records, fault)
    ensures |Issued(records, fault)| == fault.value + 1
    ensures fault.value * ChunkSize <= |records|
    ensures Loaded(rows, records, fault, key) == InsertOrIgnore(rows, records[..fault.value * ChunkSize], key)
  {
    ChunksPrefix(records, fault.value);
  }

  /** A load adds nothing but records of its input: every row it adds is
      one of the records it was given. */
  lemma LoadAddsOnlyInput<R>(rows: map<string, R>, records: seq<R>, fault: Option<nat>, key: R -> string)
    ensures var r := Loaded(rows, records, fault, key);
            forall k :: k in r && k !in rows ==> r[k] in records
  {
    var done := Concat(Committed(records, fault));
    ChunksMeaning(records);
    if Fails(records, fault) {
      ChunksPrefix(records, fault.value);
    }
    assert done == records[..|done|];
    InsertOrIgnoreMeaning(rows, done, key);
    var r := Loaded(rows, records, fault, key);
    forall k | k in r && k !in rows ensures r[k] in records {
      assert r[k] == done[FirstIndex(done, key, k)];
    }
  }

  /** Loading the same records again after any load of them, failed or
      not, gives the table a single clean load gives: a re-run repairs a
      partial load and never duplicates. */
  lemma ReloadRepairs<R>(rows: map<string, R>, records: seq<R>, fault: Option<nat>, key: R -> string)
    ensures InsertOrIgnore(Loaded(rows, records, fault, key), records, key) == InsertOrIgnore(rows, records, key)
  {
    var done := Concat(Committed(records, fault));
    ChunksMeaning(records);
    if Fails(records, fault) {
      ChunksPrefix(records, fault.value);
    }
    var rest := records[|done|..];
    assert records == done + rest;
    InsertAppend(rows, done, done, key);
    InsertIdempotent(rows, done, key);
    InsertAppend(InsertOrIgnore(rows, done, key), done, rest, key);
    InsertAppend(rows, done, rest, key);
  }

  /** A snapshot of one table: its rows by id and the statements issued
      against it so far. */
  datatype TableState<R> = TableState(rows: map<string, R>, log: seq<seq<R>>)

  /** One table of the store. `log` records every insert statement issued
      against it, in order. */
  class Table<R> {
    const key: R -> string
    var rows: map<string, R>
    var log: seq<seq<R>>

    ghost predicate Valid()
      reads this
    {
      KeyedBy(rows, key)
    }

    function State(): TableState<R>
      reads this
    {
      TableState(rows, log)
    }

    constructor (key: R -> string)
      ensures this.key == key && rows == map[] && log == [] && Valid()
    {
      this.key := key;
      rows := map[];
      log := [];
    }

    /** `insert_*`: one statement; when the store rejects it (`fault`) it
        changes nothing and the caller's `expect` aborts. */
    method Insert(batch: seq<R>, fault: bool) returns (ok: bool)
      requires Valid()
      modifies this
      ensures Valid()
      ensures ok == !fault
      ensures log == old(log) + [batch]
      ensures rows == if fault then old(rows) else InsertOrIgnore(old(rows), batch, key)
    {
      log := log + [batch];
      ok := !fault;
      if ok {
        InsertKeepsKeying(rows, batch, key);
        rows := InsertOrIgnore(rows, batch, key);
      }
    }

    /** `new_program` / `new_round` / `new_project` / `new_vote`: the insert
        of a one-element batch. */
    method InsertSingle(record: R, fault: bool) returns (ok: bool)
      requires Valid()
      modifies this
      ensures Valid()
      ensures ok == !fault
      ensures log == old(log) + [[record]]
      ensures rows == if fault then old(rows) else InsertOrIgnore(old(rows), [record], key)
    {
      ok := Insert([record], fault);
    }

    /** `new_programs` / `new_rounds` / `new_projects` / `new_votes`: split
        `records` into chunks of `ChunkSize` while more than `ChunkSize`
        remain, insert each, then insert what remains. `fault` is the
        position of the statement the store rejects, if any. */
    method Load(records: seq<R>, fault: Option<nat>) returns (ok: bool)
      requires Valid()
      modifies this
      ensures Valid()
      ensures ok == !Fails(records, fault)
      ensures log == old(log) + Issued(records, fault)
      ensures rows == Loaded(old(rows), records, fault, key)
    {
      ghost var chunks := Chunks(records);
      var rest := records;
      var n: nat := 0;
      while |rest| > ChunkSize
        invariant n < |chunks| && Chunks(rest) == chunks[n..]
        invariant fault.Some? ==> n <= fault.value
        invariant log == old(log) + chunks[..n]
        invariant rows == InsertOrIgnore(old(rows), Concat(chunks[..n]), key)
        invariant Valid()
        decreases |rest|
      {
        ChunksAdvance(records, rest, n);
        var chunk := rest[..ChunkSize];
        ok := Insert(chunk, fault == Some(n));
        if !ok {
          LoadStopsAt(old(rows), records, fault, n, key);
          return;
        }
        NextChunk(old(rows), chunks, n, key);
        rest := rest[ChunkSize..];
        n := n + 1;
      }
      ChunksLast(records, rest, n);
      ok := Insert(rest, fault == Some(n));
      if ok {
        NextChunk(old(rows), chunks, n, key);
        LoadCompletes(records, fault, n);
      } else {
        LoadStopsAt(old(rows), records, fault, n, key);
      }
    }

    /** `get_programs` / `get_rounds` / `get_projects` / `get_votes`: every
        stored row exactly once, in the order the store chooses. */
    method GetAll() returns (all: seq<R>)
      requires Valid()
      ensures |all| == |rows|
      ensures forall k :: k in rows ==> rows[k] in all
      ensures forall i :: 0 <= i < |all| ==> key(all[i]) in rows && rows[key(all[i])] == all[i]
      ensures forall i, j :: 0 <= i < j < |all| ==> key(all[i]) != key(all[j])
    {
      all := [];
      var pending := rows.Keys;
      while pending != {}
        invariant pending <= rows.Keys
        invariant |all| + |pending| == |rows|
        invariant forall i :: 0 <= i < |all| ==> key(all[i]) in rows && rows[key(all[i])] == all[i] && key(all[i]) !in pending
        invariant forall k :: k in rows && k !in pending ==> rows[k] in all
        invariant forall i, j :: 0 <= i < j < |all| ==> key(all[i]) != key(all[j])
        decreases |pending|
      {
        var k :| k in pending;
        all := all + [rows[k]];
        pending := pending - {k};
      }
    }
  }

  /** One turn of the `while` loop of `new_*`: when more than `ChunkSize`
      records remain, the next batch is the first `ChunkSize` of them and
      the batches after it are those of the rest. */
  lemma ChunksAdvance<R>(records: seq<R>, rest: seq<R>, n: nat)
    requires n < |Chunks(records)| && Chunks(rest) == Chunks(records)[n..] && |rest| > ChunkSize
    ensures n + 1 < |Chunks(records)|
    ensures Chunks(records)[n] == rest[..ChunkSize]
    ensures Chunks(rest[ChunkSize..]) == Chunks(records)[n + 1..]
  {
    var chunks := Chunks(records);
    assert Chunks(rest) == [rest[..ChunkSize]] + Chunks(rest[ChunkSize..]);
    assert chunks[n..][0] == chunks[n];
    assert chunks[n..][1..] == chunks[n + 1..];
  }

  /** After the loop, what remains is the last batch. */
  lemma ChunksLast<R>(records: seq<R>, rest: seq<R>, n: nat)
    requires n < |Chunks(records)| && Chunks(rest) == Chunks(records)[n..] && |rest| <= ChunkSize
    ensures Chunks(records)[n] == rest && Chunks(records)[n..] == [Chunks(records)[n]]
  {
    assert Chunks(records)[n..][0] == Chunks(records)[n];
  }

  /** The load ends at batch `n` because the store rejected it. */
  lemma LoadStopsAt<R>(rows: map<string, R>, records: seq<R>, fault: Option<nat>, n: nat, key: R -> string)
    requires n < |Chunks(records)| && fault == Some(n)
    ensures Fails(records, fault)
    ensures Issued(records, fault) == Chunks(records)[..n] + [Chunks(records)[n]]
    ensures Loaded(rows, records, fault, key) == InsertOrIgnore(rows, Concat(Chunks(records)[..n]), key)
  {
    assert Chunks(records)[..n + 1] == Chunks(records)[..n] + [Chunks(records)[n]];
  }

  /** The load ends after its last batch `n`, which the store accepted. */
  lemma LoadCompletes<R>(records: seq<R>, fault: Option<nat>, n: nat)
    requires n < |Chunks(records)| && Chunks(records)[n..] == [Chunks(records)[n]]
    requires fault.Some? ==> n < fault.value
    ensures !Fails(records, fault)
    ensures Issued(records, fault) == Committed(records, fault) == Chunks(records)[..n + 1]
  {
    assert |Chunks(records)| == n + 1 by {
      assert |Chunks(records)[n..]| == 1;
    }
  }

  /** Inserting batch `n` after the first `n` batches is inserting the
      first `n + 1`. */
  lemma NextChunk<R>(rows: map<string, R>, chunks: seq<seq<R>>, n: nat, key: R -> string)
    requires n < |chunks|
    ensures InsertOrIgnore(InsertOrIgnore(rows, Concat(chunks[..n]), key), chunks[n], key)
            == InsertOrIgnore(rows, Concat(chunks[..n + 1]), key)
  {
    assert chunks[..n + 1] == chunks[..n] + [chunks[n]];
    ConcatAppend(chunks[..n], [chunks[n]]);
    assert Concat([chunks[n]]) == chunks[n] by {
      assert [chunks[n]][1..] == [];
    }
    InsertAppend(rows, Concat(chunks[..n]), chunks[n], key);
  }
}
