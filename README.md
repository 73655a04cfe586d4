# gtc-api ingestion, modelled in Dafny

gtc-api copies grant data from a GraphQL subgraph into Postgres. A request to
`/seed/{chain_id}` works like this:

1. It picks one of five chains by name.
2. It runs four stages in order: programs, rounds, projects, votes.
3. Each stage does three things:
   - It pages through the subgraph from the empty cursor. Each page asks for up
     to 1000 records whose id is above the cursor. A short page ends the paging.
   - It tags every record with the chain's id.
   - It loads the records into their table, in insert statements of at most
     1000 records. Each statement uses `ON CONFLICT (id) DO NOTHING`.

A failed query or a rejected statement panics. The panic ends the request
where it happened.

The model is split into modules that follow the program:

- `Order` (order.dfy): the order of ids that `id_gt` compares by.
- `Models` (models.dfy): the four record kinds, and the sets of ids in a record
  sequence.
- `Pagination` (pagination.dfy): the `r_query_*` traversal.
  - It runs against an abstract provider. The provider is a function from
    cursor to answer, plus the set of ids it holds.
  - `Honours` is the query contract the provider must keep. A page has at most
    1000 records, ascending by id, all above the cursor, all among its ids.
  - `Indexer` is a concrete provider that keeps the contract.
- `Tagging` (tagging.dfy): `add_*_chain_id`.
- `Loader` (loader.dfy): the loader of src/lib.rs.
  - Functions on values describe an insert-or-ignore statement (`InsertOrIgnore`)
    and the chunking (`Chunks`).
  - The class `Table` holds a table's rows, keyed by id, and a log of the
    statements issued against it.
  - Its methods are `Insert` for `insert_*`, `InsertSingle` for `new_program`
    and its siblings, `Load` for the `while` loop of `new_*`, and `GetAll` for
    `get_*`.
  - src/database.rs is the same code up to names, so the same model serves
    both files.
- `Seeding` (seeding.dfy): the `seed` dispatch, the five `seed_<chain>`
  handlers and the four `seed_<kind>` stages.
  - Pure functions describe them: `Stage`, `Run`.
  - Methods carry them out on live `Table` objects: `SeedStage`, `SeedChain`,
    `Seed`.
  - The methods are proved to change the tables exactly as the functions say.

The points of I/O become inputs:

- The provider of each record kind is a parameter (`Source`).
- A store fault is a parameter. `fault` is the position, within one load, of
  the statement the store rejects, if any.
- Every run returns a trace of the steps it took: each query with its cursor,
  and each insert statement with its size.
- A panic becomes the reply `Aborted(stage, cause)`.

## Model

| member | source | states |
|---|---|---|
| Order.EmptyIsBottom | src/main.rs:141 | The empty cursor of the first query lies below every non-empty id, and only below those. |
| Order.BelowTotal | src/main.rs:172 | The `id_gt` order is total: any two distinct ids are ordered one way or the other. |
| Order.BelowTransitive | src/main.rs:172 | The `id_gt` order is transitive. |
| Pagination.RemainingShrinks | src/main.rs:191-192 | The next cursor is one of the provider's ids above the current cursor, so fewer ids remain above it. The traversal terminates. |
| Pagination.QueryFrom | src/main.rs:169-197 | The first request is at the given cursor. The traversal ends at the first failed or short answer. It succeeds exactly when that answer is a page, and then returns every record received, in order. |
| Pagination.QueryFromConversation | src/main.rs:180-196 | Each recorded answer is the provider's answer to the cursor sent. Every page but the last holds exactly 1000 records, and the next request is at that page's last id. |
| Pagination.QueryAll | src/main.rs:141 | Each `seed_<kind>` starts its traversal at the cursor `""`. |
| Pagination.FullPageStep | src/main.rs:191-196 | After a full page, the result is that page followed by the traversal from its last id, with one more request. A failure further on fails the whole traversal. |
| Pagination.ShortPageEndsTraversal | src/main.rs:187-189 | A page of fewer than 1000 records comes back unchanged as the whole result, after one request, whatever the provider still holds. |
| Pagination.IndexerHonours | src/main.rs:172 | An indexer of ascending records that answers at most 1000 records above the cursor keeps the query contract. |
| Pagination.NextCursor | src/main.rs:191 | At the indexer, the last id of a full page lies above the cursor. The records above it are exactly those after the page. |
| Pagination.IndexerTraversal | src/main.rs:169-197 | From any cursor, the indexer traversal returns exactly the records above the cursor, in ascending order, with `N / 1000 + 1` requests for `N` records. |
| Pagination.FetchesEverything | src/main.rs:169-197 | From `""`, the traversal returns all `N` records (their ids non-empty) with `N / 1000 + 1` requests: one for `N = 0`, two for `N = 1000`. |
| Pagination.ExactPageCostsEmptyRequest | src/main.rs:187-192 | With exactly 1000 records there are two requests. The second is at the last id and comes back empty. |
| Pagination.CappedIndexerUnderFetches | src/main.rs:187-189 | A provider that caps pages below 1000 ends the traversal after one request. Every record past the cap is never fetched. |
| Tagging.TagPrograms | src/main.rs:297-303 | Length and order are kept. Every `chainId` becomes `Some(chain_id)`. `id`, `createdAt` and `updatedAt` are unchanged. |
| Tagging.TagRounds | src/main.rs:305-311 | Length and order are kept. Every `chainId` becomes `Some(chain_id)`. The other fields are unchanged. |
| Tagging.TagProjects | src/main.rs:313-319 | Length and order are kept. Every `chainId` becomes `Some(chain_id)`. The other fields are unchanged. |
| Tagging.TagVotes | src/main.rs:321-327 | Length and order are kept. Every `chainId` becomes `Some(chain_id)`. The other eight fields are unchanged. |
| Tagging.TaggingKeepsIds | src/main.rs:297-327 | Tagging keeps the ids of the fetched records, so the loader sees the same keys the traversal fetched. |
| Loader.ChunksMeaning | src/lib.rs:43-49 | The batches, concatenated in call order, are the input. Each holds at most 1000 records, and all but the last exactly 1000. There is one batch (even an empty one) for `n <= 1000`, and `ceil(n / 1000)` otherwise. |
| Loader.InsertOrIgnoreMeaning | src/lib.rs:103-112 | After `insert_*`, the keys are the old keys plus the batch's ids. No existing row is overwritten. A new id holds the first record of the batch with that id. |
| Loader.InsertKeepsKeying | src/lib.rs:106-108 | Every row stays stored under its own id, the primary key. |
| Loader.InsertOne | src/lib.rs:19-22 | Inserting a one-element batch adds the record when its id is new, and leaves the table as it was otherwise. |
| Loader.InsertAppend | src/lib.rs:69-75 | Inserting one sequence and then another is inserting their concatenation. |
| Loader.InsertIdempotent | src/lib.rs:103-112 | Inserting the same batch twice leaves the table as inserting it once. |
| Loader.OverlappingLoads | src/lib.rs:65-76 | Two overlapping loads give the union keyed by id. Rows already present win, then the first load, then the second. |
| Loader.IssuedBatches | src/database.rs:56-67 | Every statement of a load holds at most 1000 records. A load without a rejection issues the input in order. A rejected statement is the last one issued. |
| Loader.CleanLoad | src/database.rs:56-67 | A load the store never rejects has the effect of one insert of the whole input. |
| Loader.FailedLoadKeepsEarlierBatches | src/lib.rs:69-73 | When the store rejects statement `k`, no later batch is issued. The first `k * 1000` records stay inserted. The rejected batch changes nothing. |
| Loader.LoadAddsOnlyInput | src/lib.rs:65-76 | Every row a load adds is one of the records it was given. |
| Loader.ReloadRepairs | src/database.rs:56-67 | Loading the same records again after any load of them, failed or not, gives the table one clean load gives. |
| Loader.ChunksPrefix | src/database.rs:60-64 | The first `n` batches hold exactly the first `n * 1000` records. |
| Loader.Table.Insert | src/lib.rs:103-112 | One statement is logged. If accepted, the rows become the insert-or-ignore of the batch. If rejected, the rows are unchanged and the caller aborts. |
| Loader.Table.InsertSingle | src/lib.rs:19-22 | `new_program` and its siblings are exactly the insert of a one-element batch. |
| Loader.Table.Load | src/lib.rs:65-76 | The `while` loop does three things. It issues exactly the batches of `Chunks`, up to the rejected one. It leaves the rows of the committed batches. It reports whether every statement was accepted. |
| Loader.Table.GetAll | src/lib.rs:136-139 | Every stored row comes back exactly once, and nothing else does. |
| Seeding.ChainNamed | src/main.rs:31-37 | A chain is picked only for its own name. An unknown name matches no chain. |
| Seeding.ChainTable | src/main.rs:31-37 | The five names map to "250", "4002", "5", "1" and "10". No other name is accepted. |
| Seeding.ChainsAreDistinct | src/main.rs:65-138 | Every chain is found under its own name. No two chains share a name or a chain id. |
| Seeding.StageSteps | src/main.rs:140-145 | A stage's steps start with the query at `""` and all belong to that stage. Queries come before statements, and each statement holds at most 1000 records. |
| Seeding.Stage | src/main.rs:140-166 | A stage (fetch, then tag, then load) starts with the query at `""`. All its steps belong to it, queries come before statements, and each statement holds at most 1000 records. If the fetch fails, no statement is issued and the table is unchanged. |
| Seeding.StageAddsOnlyTagged | src/main.rs:140-145 | Every row a stage adds is one of the records it fetched, tagged with the stage's chain id. A stage whose fetch failed adds nothing. |
| Seeding.StageOnlyAdds | src/main.rs:140-145 | A stage only appends to the statement log. It never changes or removes an existing row. |
| Seeding.ProceedInOrder | src/main.rs:73-76 | Running stages in order keeps the stage order of the trace. |
| Seeding.ProceedReply | src/main.rs:73-77 | A run of stages succeeds exactly when no stage fails. Otherwise the reply names the first stage that failed, and why. |
| Seeding.ProceedStops | src/main.rs:73-76 | A run that stops at a failed stage takes no step of a later stage. |
| Seeding.SequencedIsProceed | src/main.rs:73-77 | The four stages in sequence are the general run of their summaries. |
| Seeding.SequencedInOrder | src/main.rs:73-77 | A run starts with the programs query at `""` and keeps the stage order. On success it replies with the chain's message. An abort takes no step of a later stage, and tables of unreached stages are untouched. |
| Seeding.Run | src/main.rs:65-78 | `seed_<chain>` runs programs, rounds, projects and votes strictly in that order. The first failure ends it, and stages it did not reach leave their tables as they were. |
| Seeding.SucceedingRun | src/main.rs:73-77 | A run succeeds exactly when all four stages do. Then every table holds what its stage made of it. |
| Seeding.StageRetry | src/main.rs:140-145 | A stage re-run after any earlier run of it leaves the rows of one clean run. This holds whether a failed query or a rejected statement cut the earlier run short, provided whatever the earlier run fetched completely is what the re-run fetches. With a store that rejects nothing, the re-run fails exactly when a clean run fails, and then the earlier run failed too. |
| Seeding.SequencedTables | src/main.rs:73-77 | After a run, every stage it reached (all four on success, up to the aborting one otherwise) has left its table as that stage made it. Every stage it did not reach has left its table as it was. Every stage before the aborting one succeeded. |
| Seeding.SequencedRetry | src/main.rs:73-77 | A run on the tables a first run left and a run on the original tables leave the same rows. This holds when their stages fail alike, only where the first run failed, and leave the same rows. |
| Seeding.RetryRepairs | src/main.rs:65-78 | Re-seeding a chain after a run that a failed query or a rejected statement cut short leaves the rows of one clean run, whether or not that clean run succeeds. The first run may use a flaky subgraph, required to agree with the retry's subgraph on every record kind it fetched completely. |
| Seeding.RunTagsNewRows | src/main.rs:65-78 | Every row a run adds to any of the four tables carries `Some(chain_id)` of the run's chain. |
| Seeding.ReseedChangesNoRows | src/main.rs:65-78 | Seeding a chain twice without store rejections leaves the rows of seeding it once, even when a query of the subgraph fails. |
| Seeding.IndexedStageLoadsEverything | src/main.rs:140-145 | Against a well-behaved provider and store, a stage succeeds. It inserts every tagged record, issues the batches of `Chunks`, and takes `N / 1000 + 1` queries. |
| Seeding.SeedStage | src/main.rs:140-166 | `seed_programs` and its siblings change their live table exactly as `Stage` says, and return its outcome and steps. |
| Seeding.SeedChain | src/main.rs:65-138 | Each `seed_<chain>` handler replies, traces and changes the four tables exactly as `Run` says. |
| Seeding.Seed | src/main.rs:29-38 | An unknown chain name gets `BadRequest("Invalid chain id")`, with no query, no statement and no table change. A known name runs that chain's handler. |

## Left out

- HTTP routing and response construction (actix-web) are left out. Only the
  reply of `seed` is modelled: `Ok(body)`, `BadRequest(body)`, or `Aborted`
  for a panic.
- The `/rounds`, `/projects` and `/votes` endpoints only wrap `get_*`, which
  `Table.GetAll` models.
- Reading the environment (`dotenv`, the subgraph URLs, `DATABASE_URL`) and
  `establish_connection` are foreign I/O and are left out. The connection
  opened for an unknown chain has no visible effect.
- The GraphQL client, the query text and JSON decoding become the abstract
  provider. A transport or decoding error is the answer `Failure`.
  - The query has no `orderBy`. That pages come back ascending by id is part
    of the assumed query contract (`Honours`), not something the model derives.
  - Ids are compared lexicographically by character (`Order.Below`). A
    different collation in the indexer is not modelled.
- Pagination.QueryFrom requires `Honours`. A provider that breaks the contract,
  for instance by answering a full page at or below the cursor, could make the
  source recurse forever. The model does not describe that case.
- The provider is a fixed function of the cursor. Records added to the
  subgraph during a traversal are not modelled.
- Diesel and Postgres internals are left out:
  - A statement is atomic: a rejected one changes nothing.
  - Inside one batch, the first record with an id wins, which is what
    `ON CONFLICT DO NOTHING` does.
  - Only the facts that `id` is the primary key and the field lists of the
    records are kept. The `table!` declarations and serde derives are left out.
- Loader.Table.GetAll: the row order is chosen by the store. The model promises
  only that each row comes back once. A failing `get_*` query is not modelled.
- Seeding.RunTagsNewRows: covers only the rows a run adds. An earlier row wins
  under `ON CONFLICT DO NOTHING`, so a row stored before the run keeps its
  `chainId`, even a null one. After a successful run, every row carries some
  chain id only if every earlier row did.
- Seeding.Seed: a panic is modelled as the reply `Aborted`. The source has no
  such reply; the request simply ends without one.
- async/await, `async_recursion`, `Box::pin` and `println!` have no effect on
  the result and are left out. The awaits run strictly in sequence. Concurrent
  requests for different chains are not modelled.
