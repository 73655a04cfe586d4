/** The `/seed/{chain_id}` endpoint: pick the chain named in the path, then
    run the four stages programs, rounds, projects and votes in that order
    against that chain's subgraph. Each stage pages through the provider
    from the empty cursor, tags every record with the chain id and loads the
    result into its table. A failed query or a rejected statement panics
    and ends the run where it happened. */
module Seeding {
  import opened Models
  import opened Pagination
  import opened Tagging
  import opened Loader

  /** The chains `seed` knows, in the order of its `match`. */
  datatype Chain = FantomMainnet | FantomTestnet | EthereumGoerli | EthereumMainnet | OptimismMainnet
  {
    /** The path segment that selects the chain. */
    function Name(): string {
      match this
      case FantomMainnet => "fantom_mainnet"
      case FantomTestnet => "fantom_testnet"
      case EthereumGoerli => "ethereum_goerli"
      case EthereumMainnet => "ethereum_mainnet"
      case OptimismMainnet => "optimism_mainnet"
    }

    /** The `chain_id` written into every record seeded from the chain. */
    function Id(): string {
      match this
      case FantomMainnet => "250"
      case FantomTestnet => "4002"
      case EthereumGoerli => "5"
      case EthereumMainnet => "1"
      case OptimismMainnet => "10"
    }

    /** The body of the `200 OK` reply once all four stages are done. */
    function Done(): string {
      match this
      case FantomMainnet => "done: fantom mainnet data seeding"
      case FantomTestnet => "done: fantom testnet data seeding"
      case EthereumGoerli => "done: ethereum goerli data seeding"
      case EthereumMainnet => "done: ethereum mainnet data seeding"
      case OptimismMainnet => "done: optimism mainnet data seeding"
    }
  }

  /** The `match` of `seed`: the chain whose name is `name`, if any. */
  function ChainNamed(name: string): (chain: Option<Chain>)
    ensures chain.Some? ==> chain.value.Name() == name
    ensures chain.None? ==> forall c: Chain :: c.Name() != name
  {
    if name == "fantom_mainnet" then Some(FantomMainnet)
    else if name == "fantom_testnet" then Some(FantomTestnet)
    else if name == "ethereum_goerli" then Some(EthereumGoerli)
    else if name == "ethereum_mainnet" then Some(EthereumMainnet)
    else if name == "optimism_mainnet" then Some(OptimismMainnet)
    else None
  }

  /** Every chain is found under its own name, and no two chains share a
      name or a chain id, so tagged records of different chains never
      carry the same tag. */
  lemma ChainsAreDistinct(a: Chain, b: Chain)
    ensures ChainNamed(a.Name()) == Some(a)
    ensures a.Id() == b.Id() ==> a == b
    ensures a.Name() == b.Name() ==> a == b
  {
  }

  /** The chain ids by chain name, as the handlers write them. */
  const ChainIds: map<string, string> := map[
    "fantom_mainnet" := "250",
    "fantom_testnet" := "4002",
    "ethereum_goerli" := "5",
    "ethereum_mainnet" := "1",
    "optimism_mainnet" := "10"]

  /** `seed` knows exactly the five names of the table, and the chain it
      picks tags its records with the id the table gives the name. */
  lemma ChainTable(name: string)
    ensures ChainNamed(name).Some? <==> name in ChainIds
    ensures ChainNamed(name).Some? ==> ChainNamed(name).value.Id() == ChainIds[name]
  {
  }

  /* ---------- Stages ---------- */

  /** The four stages of a run, and their position in it. */
  datatype Kind = Programs | Rounds | Projects | Votes
  {
    function Rank(): nat {
      match this
      case Programs => 0
      case Rounds => 1
      case Projects => 2
      case Votes => 3
    }
  }

  /** Why a run ended early: a provider query failed, or the store
      rejected an insert statement. */
  datatype Cause = ProviderFailed | StoreRejected

  /** What the endpoint answers. `Aborted` stands for the panic that ends
      the handler without a reply. */
  datatype Reply = Ok(body: string) | BadRequest(body: string) | Aborted(stage: Kind, cause: Cause)

  /** What a run does, as seen from outside: a query to the provider with a
      cursor, or an insert statement of `size` records. */
  datatype Step = Request(kind: Kind, cursor: string) | Statement(kind: Kind, size: nat)

  /** One record kind of a subgraph: how it answers queries, and the ids it
      holds. */
  datatype Source<R> = Source(provider: string -> Answer<R>, ids: set<string>)

  /** The subgraph of one chain. */
  datatype Subgraph = Subgraph(programs: Source<Program>, rounds: Source<Round>, projects: Source<Project>, votes: Source<Vote>)

  /** Every record kind of the subgraph keeps the query contract. */
  ghost predicate Serves(g: Subgraph) {
    && Honours(g.programs.provider, ProgramId, g.programs.ids)
    && Honours(g.rounds.provider, RoundId, g.rounds.ids)
    && Honours(g.projects.provider, ProjectId, g.projects.ids)
    && Honours(g.votes.provider, VoteId, g.votes.ids)
  }

  /** The four tables. */
  datatype Store = Store(programs: TableState<Program>, rounds: TableState<Round>, projects: TableState<Project>, votes: TableState<Vote>)

  /** `a` may happen before `b`: an earlier stage, or within one stage a
      query before a statement. */
  predicate Precedes(a: Step, b: Step) {
    a.kind.Rank() < b.kind.Rank() || (a.kind == b.kind && (a.Request? || b.Statement?))
  }

  predicate InStageOrder(trace: seq<Step>) {
    forall i, j :: 0 <= i < j < |trace| ==> Precedes(trace[i], trace[j])
  }

  /** No step of `trace` belongs to a stage after `kind`. */
  predicate UpTo(trace: seq<Step>, kind: Kind) {
    forall i :: 0 <= i < |trace| ==> trace[i].kind.Rank() <= kind.Rank()
  }

  function Requests<R>(kind: Kind, log: seq<Exchange<R>>): (steps: seq<Step>)
    ensures |steps| == |log|
    ensures forall i :: 0 <= i < |log| ==> steps[i] == Request(kind, log[i].cursor)
  {
    seq(|log|, i requires 0 <= i < |log| => Request(kind, log[i].cursor))
  }

  function Statements<R>(kind: Kind, batches: seq<seq<R>>): (steps: seq<Step>)
    ensures |steps| == |batches|
    ensures forall i :: 0 <= i < |batches| ==> steps[i] == Statement(kind, |batches[i]|)
  {
    seq(|batches|, i requires 0 <= i < |batches| => Statement(kind, |batches[i]|))
  }

  /** The steps of one stage: its queries, then its statements. */
  function StageSteps<R>(kind: Kind, log: seq<Exchange<R>>, issued: seq<seq<R>>): (steps: seq<Step>)
    requires 0 < |log| && log[0].cursor == ""
    requires forall i :: 0 <= i < |issued| ==> |issued[i]| <= ChunkSize
    ensures 0 < |steps| && steps[0] == Request(kind, "")
    ensures forall i :: 0 <= i < |steps| ==> steps[i].kind == kind
    ensures InStageOrder(steps)
    ensures forall i :: 0 <= i < |steps| && steps[i].Statement? ==> steps[i].size <= ChunkSize
    ensures issued == [] ==> forall i :: 0 <= i < |steps| ==> steps[i].Request?
  {
    var requests := Requests(kind, log);
    var steps := requests + Statements(kind, issued);
    assert InStageOrder(steps) by {
      forall i, j | 0 <= i < j < |steps| ensures Precedes(steps[i], steps[j]) {
        if j < |requests| {
          assert steps[i] == requests[i];
        }
      }
    }
    steps
  }

  /** The outcome of one stage: why it failed, if it did, the table after
      it, and its steps. */
  datatype StageEnd<R> = StageEnd(cause: Option<Cause>, table: TableState<R>, steps: seq<Step>)

  /** `seed_programs` / `seed_rounds` / `seed_projects` / `seed_votes`:
      fetch everything from the empty cursor, tag it with `chainId`, load
      it. A failed query ends the stage before anything is loaded; a
      rejected statement ends it after the batches before it. */
  function Stage<R>(kind: Kind, source: Source<R>, key: R -> string, tag: (seq<R>, string) -> seq<R>,
                    chainId: string, table: TableState<R>, fault: Option<nat>): (e: StageEnd<R>)
    requires Honours(source.provider, key, source.ids)
    ensures 0 < |e.steps| && e.steps[0] == Request(kind, "")
    ensures forall i :: 0 <= i < |e.steps| ==> e.steps[i].kind == kind
    ensures InStageOrder(e.steps)
    ensures forall i :: 0 <= i < |e.steps| && e.steps[i].Statement? ==> e.steps[i].size <= ChunkSize
    ensures e.cause == Some(ProviderFailed) ==> e.table == table && forall i :: 0 <= i < |e.steps| ==> e.steps[i].Request?
  {
    var f := QueryAll(source.provider, key, source.ids);
    match f.result
    case None => StageEnd(Some(ProviderFailed), table, StageSteps(kind, f.log, []))
    case Some(records) =>
      var tagged := tag(records, chainId);
      IssuedBatches(tagged, fault);
      StageEnd(if Fails(tagged, fault) then Some(StoreRejected) else None,
               TableState(Loaded(table.rows, tagged, fault, key), table.log + Issued(tagged, fault)),
               StageSteps(kind, f.log, Issued(tagged, fault)))
  }

  /** A stage only appends to the statement log, and never changes or
      removes a row that was in the table before it. */
  lemma StageOnlyAdds<R>(kind: Kind, source: Source<R>, key: R -> string, tag: (seq<R>, string) -> seq<R>,
                         chainId: string, table: TableState<R>, fault: Option<nat>)
    requires Honours(source.provider, key, source.ids)
    ensures var e := Stage(kind, source, key, tag, chainId, table, fault);
            && |table.log| <= |e.table.log| && e.table.log[..|table.log|] == table.log
            && table.rows.Keys <= e.table.rows.Keys
            && forall k :: k in table.rows ==> e.table.rows[k] == table.rows[k]
  {
    var f := QueryAll(source.provider, key, source.ids);
    if f.result.Some? {
      var tagged := tag(f.result.value, chainId);
      InsertOrIgnoreMeaning(table.rows, Concat(Committed(tagged, fault)), key);
      var log := table.log + Issued(tagged, fault);
      assert log[..|table.log|] == table.log;
    }
  }

  /** A stage adds only records it fetched, tagged with `chainId`. */
  lemma StageAddsOnlyTagged<R>(kind: Kind, source: Source<R>, key: R -> string, tag: (seq<R>, string) -> seq<R>,
                               chainId: string, table: TableState<R>, fault: Option<nat>)
    requires Honours(source.provider, key, source.ids)
    ensures var f := QueryAll(source.provider, key, source.ids);
            var e := Stage(kind, source, key, tag, chainId, table, fault);
            forall k :: k in e.table.rows && k !in table.rows ==>
              f.result.Some? && e.table.rows[k] in tag(f.result.value, chainId)
  {
    var f := QueryAll(source.provider, key, source.ids);
    if f.result.Some? {
      LoadAddsOnlyInput(table.rows, tag(f.result.value, chainId), fault, key);
    }
  }

  /* ---------- A run ---------- */

  /** What the handler sees of a stage: which stage, whether it failed
      and the steps it took. */
  datatype Summary = Summary(kind: Kind, cause: Option<Cause>, steps: seq<Step>)

  /** The reply and the steps of a run as far as it got. */
  datatype Progress = Progress(reply: Reply, trace: seq<Step>)

  /** The stages from `i` on, in order, until one fails: its failure is the
      reply; when none fails the reply is `200 OK` with `done`. */
  function Proceed(stages: seq<Summary>, i: nat, done: string): Progress
    requires i <= |stages|
    decreases |stages| - i
  {
    if i == |stages| then Progress(Ok(done), [])
    else if stages[i].cause.Some? then Progress(Aborted(stages[i].kind, stages[i].cause.value), stages[i].steps)
    else
      var rest := Proceed(stages, i + 1, done);
      Progress(rest.reply, stages[i].steps + rest.trace)
  }

  /** Every step of the stage is its own, in query-then-statement order. */
  predicate Coherent(stage: Summary) {
    && InStageOrder(stage.steps)
    && forall k :: 0 <= k < |stage.steps| ==> stage.steps[k].kind == stage.kind
  }

  /** The stages come in strictly increasing rank, each coherent. */
  predicate Pipeline(stages: seq<Summary>) {
    && (forall i, j :: 0 <= i < j < |stages| ==> stages[i].kind.Rank() < stages[j].kind.Rank())
    && (forall i :: 0 <= i < |stages| ==> Coherent(stages[i]))
  }

  /** Putting the steps of one stage before those of later stages keeps
      the stage order. */
  lemma PrependStage(steps: seq<Step>, rest: seq<Step>, kind: Kind)
    requires InStageOrder(steps) && forall k :: 0 <= k < |steps| ==> steps[k].kind == kind
    requires InStageOrder(rest) && forall k :: 0 <= k < |rest| ==> kind.Rank() < rest[k].kind.Rank()
    ensures InStageOrder(steps + rest)
  {
    var all := steps + rest;
    forall a, b | 0 <= a < b < |all| ensures Precedes(all[a], all[b]) {
      if b < |steps| {
        assert all[a] == steps[a] && all[b] == steps[b];
      } else if a >= |steps| {
        assert all[a] == rest[a - |steps|] && all[b] == rest[b - |steps|];
      } else {
        assert all[a] == steps[a] && all[b] == rest[b - |steps|];
      }
    }
  }

  /** The trace of a pipeline run from stage `i` keeps the stage order,
      starts with stage `i`'s steps and holds no step of an earlier stage. */
  lemma {:induction false} ProceedInOrder(stages: seq<Summary>, i: nat, done: string)
    requires i <= |stages| && Pipeline(stages)
    ensures var r := Proceed(stages, i, done);
            && InStageOrder(r.trace)
            && (i < |stages| ==> forall t :: 0 <= t < |r.trace| ==> stages[i].kind.Rank() <= r.trace[t].kind.Rank())
            && (i < |stages| && 0 < |stages[i].steps| ==> 0 < |r.trace| && r.trace[0] == stages[i].steps[0])
    decreases |stages| - i
  {
    if i < |stages| && stages[i].cause.None? {
      assert Coherent(stages[i]);
      ProceedInOrder(stages, i + 1, done);
      var rest := Proceed(stages, i + 1, done);
      assert forall t :: 0 <= t < |rest.trace| ==> stages[i].kind.Rank() < rest.trace[t].kind.Rank();
      PrependStage(stages[i].steps, rest.trace, stages[i].kind);
    }
  }

  /** A pipeline run from stage `i` succeeds exactly when no stage fails;
      otherwise its reply names the first stage that failed, and why. */
  lemma {:induction false} ProceedReply(stages: seq<Summary>, i: nat, done: string)
    requires i <= |stages|
    ensures var r := Proceed(stages, i, done);
            && (r.reply.Ok? <==> forall l :: i <= l < |stages| ==> stages[l].cause.None?)
            && (r.reply.Ok? ==> r.reply.body == done)
            && !r.reply.BadRequest?
            && (r.reply.Aborted? ==>
                  exists m :: i <= m < |stages| && stages[m].kind == r.reply.stage
                              && stages[m].cause == Some(r.reply.cause)
                              && forall l :: i <= l < m ==> stages[l].cause.None?)
    decreases |stages| - i
  {
    if i < |stages| && stages[i].cause.None? {
      ProceedReply(stages, i + 1, done);
    }
  }

  /** A run cut short by a failing stage takes no step of a later stage. */
  lemma {:induction false} ProceedStops(stages: seq<Summary>, i: nat, done: string)
    requires i <= |stages| && Pipeline(stages)
    ensures var r := Proceed(stages, i, done);
            r.reply.Aborted? ==> UpTo(r.trace, r.reply.stage)
    decreases |stages| - i
  {
    if i < |stages| {
      var r := Proceed(stages, i, done);
      assert Coherent(stages[i]);
      if stages[i].cause.None? && r.reply.Aborted? {
        ProceedStops(stages, i + 1, done);
        ProceedReply(stages, i + 1, done);
        var m :| i + 1 <= m < |stages| && stages[m].kind == r.reply.stage
                 && stages[m].cause == Some(r.reply.cause)
                 && forall l :: i + 1 <= l < m ==> stages[l].cause.None?;
        assert stages[i].kind.Rank() < stages[m].kind.Rank();
        var rest := Proceed(stages, i + 1, done);
        forall t | 0 <= t < |r.trace| ensures r.trace[t].kind.Rank() <= r.reply.stage.Rank() {
          if t < |stages[i].steps| {
            assert r.trace[t] == stages[i].steps[t];
          } else {
            assert r.trace[t] == rest.trace[t - |stages[i].steps|];
          }
        }
      }
    }
  }

  /** The four stages of a run, each computed on its own table as it
      stood before the run. */
  datatype Stages = Stages(programs: StageEnd<Program>, rounds: StageEnd<Round>, projects: StageEnd<Project>, votes: StageEnd<Vote>)

  function StagesOf(chain: Chain, g: Subgraph, fault: Kind -> Option<nat>, s: Store): Stages
    requires Serves(g)
  {
    Stages(
      Stage(Programs, g.programs, ProgramId, TagPrograms, chain.Id(), s.programs, fault(Programs)),
      Stage(Rounds, g.rounds, RoundId, TagRounds, chain.Id(), s.rounds, fault(Rounds)),
      Stage(Projects, g.projects, ProjectId, TagProjects, chain.Id(), s.projects, fault(Projects)),
      Stage(Votes, g.votes, VoteId, TagVotes, chain.Id(), s.votes, fault(Votes)))
  }

  /** The order in which `seed_<chain>` calls the stages. */
  function Summaries(st: Stages): (stages: seq<Summary>)
    ensures |stages| == 4
  {
    [Summary(Programs, st.programs.cause, st.programs.steps),
     Summary(Rounds, st.rounds.cause, st.rounds.steps),
     Summary(Projects, st.projects.cause, st.projects.steps),
     Summary(Votes, st.votes.cause, st.votes.steps)]
  }

  /** The outcome of `seed_<chain>`. */
  datatype RunEnd = RunEnd(reply: Reply, store: Store, trace: seq<Step>)

  /** What a run relies on about its stages: each is coherent, and the
      first begins with a query from the empty cursor. */
  predicate Fits(st: Stages) {
    && Coherent(Summary(Programs, st.programs.cause, st.programs.steps))
    && Coherent(Summary(Rounds, st.rounds.cause, st.rounds.steps))
    && Coherent(Summary(Projects, st.projects.cause, st.projects.steps))
    && Coherent(Summary(Votes, st.votes.cause, st.votes.steps))
    && 0 < |st.programs.steps| && st.programs.steps[0] == Request(Programs, "")
  }

  /** The stages of a run, in the order the handler calls them, form a
      pipeline. */
  lemma FitsPipeline(st: Stages)
    requires Fits(st)
    ensures Pipeline(Summaries(st))
  {
    var stages := Summaries(st);
    forall i | 0 <= i < |stages| ensures Coherent(stages[i]) {
      if i == 0 {} else if i == 1 {} else if i == 2 {} else {}
    }
  }

  /** `seed_<chain>` over the computed stages: programs, rounds, projects
      and votes in this order, until one fails. A stage the run does not
      reach leaves its table as it was. */
  function Sequenced(st: Stages, s: Store, done: string): RunEnd {
    var (p, o, j, v) := (st.programs, st.rounds, st.projects, st.votes);
    if p.cause.Some? then
      RunEnd(Aborted(Programs, p.cause.value), s.(programs := p.table), p.steps)
    else if o.cause.Some? then
      RunEnd(Aborted(Rounds, o.cause.value), s.(programs := p.table, rounds := o.table), p.steps + o.steps)
    else if j.cause.Some? then
      RunEnd(Aborted(Projects, j.cause.value), s.(programs := p.table, rounds := o.table, projects := j.table),
             p.steps + o.steps + j.steps)
    else
      RunEnd(if v.cause.Some? then Aborted(Votes, v.cause.value) else Ok(done),
             Store(p.table, o.table, j.table, v.table), p.steps + o.steps + j.steps + v.steps)
  }

  /** The four stages in sequence are the pipeline of their summaries. */
  lemma SequencedIsProceed(st: Stages, s: Store, done: string)
    ensures var r, q := Sequenced(st, s, done), Proceed(Summaries(st), 0, done);
            r.reply == q.reply && r.trace == q.trace
  {
    var stages := Summaries(st);
    var (p, o, j, v) := (st.programs, st.rounds, st.projects, st.votes);
    var q3 := Proceed(stages, 3, done);
    assert Proceed(stages, 4, done) == Progress(Ok(done), []);
    assert v.cause.None? ==> q3.trace == v.steps + [];
    assert q3.trace == v.steps;
    var q2 := Proceed(stages, 2, done);
    assert j.cause.None? ==> q2.trace == j.steps + v.steps && q2.reply == q3.reply;
    var q1 := Proceed(stages, 1, done);
    assert o.cause.None? ==> q1.trace == o.steps + q2.trace && q1.reply == q2.reply;
    if p.cause.None? && o.cause.None? && j.cause.None? {
      assert p.steps + o.steps + j.steps + v.steps == p.steps + (o.steps + (j.steps + v.steps));
    }
  }

  /** What the stage order, stated once for any pipeline, means for a run:
      it starts with the first query of the programs stage, keeps the
      stage order, and an abort takes no step of a later stage. */
  lemma SequencedInOrder(st: Stages, s: Store, done: string)
    requires Fits(st)
    ensures var r := Sequenced(st, s, done);
            && 0 < |r.trace| && r.trace[0] == Request(Programs, "")
            && InStageOrder(r.trace)
            && !r.reply.BadRequest?
            && (r.reply.Ok? ==> r.reply.body == done)
            && (r.reply.Aborted? ==> UpTo(r.trace, r.reply.stage))
            && (r.reply.Aborted? && r.reply.stage.Rank() < Rounds.Rank() ==> r.store.rounds == s.rounds)
            && (r.reply.Aborted? && r.reply.stage.Rank() < Projects.Rank() ==> r.store.projects == s.projects)
            && (r.reply.Aborted? && r.reply.stage.Rank() < Votes.Rank() ==> r.store.votes == s.votes)
  {
    var stages := Summaries(st);
    FitsPipeline(st);
    SequencedIsProceed(st, s, done);
    ProceedInOrder(stages, 0, done);
    ProceedReply(stages, 0, done);
    ProceedStops(stages, 0, done);
  }

  /** `seed_<chain>` once the chain is known: programs, rounds, projects and
      votes in this order, each stage on its own table. The first stage
      that fails ends the run; a stage it does not reach leaves its table
      as it was. */
  function Run(chain: Chain, g: Subgraph, fault: Kind -> Option<nat>, s: Store): (r: RunEnd)
    requires Serves(g)
    ensures 0 < |r.trace| && r.trace[0] == Request(Programs, "")
    ensures InStageOrder(r.trace)
    ensures !r.reply.BadRequest?
    ensures r.reply.Ok? ==> r.reply.body == chain.Done()
    ensures r.reply.Aborted? ==> UpTo(r.trace, r.reply.stage)
    ensures r.reply.Aborted? && r.reply.stage.Rank() < Rounds.Rank() ==> r.store.rounds == s.rounds
    ensures r.reply.Aborted? && r.reply.stage.Rank() < Projects.Rank() ==> r.store.projects == s.projects
    ensures r.reply.Aborted? && r.reply.stage.Rank() < Votes.Rank() ==> r.store.votes == s.votes
  {
    var st := StagesOf(chain, g, fault, s);
    StagesFit(chain, g, fault, s);
    SequencedInOrder(st, s, chain.Done());
    Sequenced(st, s, chain.Done())
  }

  lemma StagesFit(chain: Chain, g: Subgraph, fault: Kind -> Option<nat>, s: Store)
    requires Serves(g)
    ensures Fits(StagesOf(chain, g, fault, s))
  {
  }

  /* ---------- Properties of runs ---------- */

  /** A run in which the store accepts every statement. */
  function NoFaults(k: Kind): Option<nat> {
    None
  }

  /** The two stores hold the same rows (their statement logs may differ). */
  predicate SameRows(a: Store, b: Store) {
    && a.programs.rows == b.programs.rows
    && a.rounds.rows == b.rounds.rows
    && a.projects.rows == b.projects.rows
    && a.votes.rows == b.votes.rows
  }

  /** A run succeeds exactly when each of its four stages does, and then
      every table is what its stage made of it. */
  lemma SucceedingRun(chain: Chain, g: Subgraph, fault: Kind -> Option<nat>, s: Store)
    requires Serves(g)
    ensures var st := StagesOf(chain, g, fault, s);
            var ok := && st.programs.cause.None? && st.rounds.cause.None?
                      && st.projects.cause.None? && st.votes.cause.None?;
            && (Run(chain, g, fault, s).reply.Ok? <==> ok)
            && (ok ==> Run(chain, g, fault, s).store == Store(st.programs.table, st.rounds.table, st.projects.table, st.votes.table))
  {
  }

  /** A later traversal of `source` fetches what an earlier one of
      `earlier` fetched, whenever the earlier one succeeded. */
  ghost predicate Refetches<R>(earlier: Source<R>, source: Source<R>, key: R -> string)
    requires Honours(earlier.provider, key, earlier.ids) && Honours(source.provider, key, source.ids)
  {
    var f0 := QueryAll(earlier.provider, key, earlier.ids);
    f0.result.Some? ==> f0.result == QueryAll(source.provider, key, source.ids).result
  }

  /** A stage run again after any run of it, whether a failed query or a
      rejected statement cut that run short, leaves the rows a single clean
      run leaves. With a store that rejects nothing, the re-run fails exactly
      when a clean run fails, and then the earlier run failed as well. */
  lemma StageRetry<R>(kind: Kind, earlier: Source<R>, source: Source<R>, key: R -> string,
                      tag: (seq<R>, string) -> seq<R>, chainId: string, table: TableState<R>, fault: Option<nat>)
    requires Honours(earlier.provider, key, earlier.ids) && Honours(source.provider, key, source.ids)
    requires Refetches(earlier, source, key)
    ensures var first := Stage(kind, earlier, key, tag, chainId, table, fault);
            var again := Stage(kind, source, key, tag, chainId, first.table, None);
            var clean := Stage(kind, source, key, tag, chainId, table, None);
            && again.table.rows == clean.table.rows
            && again.cause == clean.cause
            && (clean.cause.Some? ==> first.cause.Some?)
  {
    var f0 := QueryAll(earlier.provider, key, earlier.ids);
    var f := QueryAll(source.provider, key, source.ids);
    if f0.result.Some? {
      var tagged := tag(f.result.value, chainId);
      var first := Loaded(table.rows, tagged, fault, key);
      CleanLoad(first, tagged, None, key);
      CleanLoad(table.rows, tagged, None, key);
      ReloadRepairs(table.rows, tagged, fault, key);
    }
  }

  /** The run got as far as stage `kind`: it succeeded, or it stopped at
      `kind` or at a later stage. */
  predicate Reached(reply: Reply, kind: Kind) {
    reply.Ok? || (reply.Aborted? && kind.Rank() <= reply.stage.Rank())
  }

  /** After a run, every stage it reached has left its table as that stage
      made it, and every stage it did not reach has left its table as it
      was. Every stage before the one that aborted the run succeeded. */
  lemma SequencedTables(st: Stages, s: Store, done: string)
    ensures var r := Sequenced(st, s, done);
            && r.store.programs == st.programs.table
            && (if Reached(r.reply, Rounds) then r.store.rounds == st.rounds.table else r.store.rounds == s.rounds)
            && (if Reached(r.reply, Projects) then r.store.projects == st.projects.table else r.store.projects == s.projects)
            && (if Reached(r.reply, Votes) then r.store.votes == st.votes.table else r.store.votes == s.votes)
            && (r.reply.Aborted? && Programs.Rank() < r.reply.stage.Rank() ==> st.programs.cause.None?)
            && (r.reply.Aborted? && Rounds.Rank() < r.reply.stage.Rank() ==> st.rounds.cause.None?)
            && (r.reply.Aborted? && Projects.Rank() < r.reply.stage.Rank() ==> st.projects.cause.None?)
  {
  }

  /** The first run's subgraph gives, for every record kind it fetched
      completely, what the later run's subgraph gives. */
  ghost predicate RefetchesAll(g0: Subgraph, g: Subgraph)
    requires Serves(g0) && Serves(g)
  {
    && Refetches(g0.programs, g.programs, ProgramId)
    && Refetches(g0.rounds, g.rounds, RoundId)
    && Refetches(g0.projects, g.projects, ProjectId)
    && Refetches(g0.votes, g.votes, VoteId)
  }

  /** Every row a run adds, in any of the four tables, carries the chain
      id of the run's chain: each stage fetches, tags with `chain.Id()`
      and loads what it tagged. Rows that were there before are kept as
      they were, whatever their tag. */
  lemma RunTagsNewRows(chain: Chain, g: Subgraph, fault: Kind -> Option<nat>, s: Store)
    requires Serves(g)
    ensures var r := Run(chain, g, fault, s).store;
            && (forall k :: k in r.programs.rows && k !in s.programs.rows ==> r.programs.rows[k].chainId == Some(chain.Id()))
            && (forall k :: k in r.rounds.rows && k !in s.rounds.rows ==> r.rounds.rows[k].chainId == Some(chain.Id()))
            && (forall k :: k in r.projects.rows && k !in s.projects.rows ==> r.projects.rows[k].chainId == Some(chain.Id()))
            && (forall k :: k in r.votes.rows && k !in s.votes.rows ==> r.votes.rows[k].chainId == Some(chain.Id()))
  {
    var id := chain.Id();
    SequencedTables(StagesOf(chain, g, fault, s), s, chain.Done());
    StageAddsOnlyTagged(Programs, g.programs, ProgramId, TagPrograms, id, s.programs, fault(Programs));
    StageAddsOnlyTagged(Rounds, g.rounds, RoundId, TagRounds, id, s.rounds, fault(Rounds));
    StageAddsOnlyTagged(Projects, g.projects, ProjectId, TagProjects, id, s.projects, fault(Projects));
    StageAddsOnlyTagged(Votes, g.votes, VoteId, TagVotes, id, s.votes, fault(Votes));
  }

  /** A run `b` on the tables a first run `a` left, against a run `c` on
      the original tables: when each stage of `b` fails exactly when the
      same stage of `c` does, only where `a` failed too, and leaves the rows
      `c` leaves, the two runs leave the same rows. */
  lemma SequencedRetry(a: Stages, b: Stages, c: Stages, s: Store, done: string)
    requires b.programs.cause == c.programs.cause && b.rounds.cause == c.rounds.cause
    requires b.projects.cause == c.projects.cause && b.votes.cause == c.votes.cause
    requires b.programs.table.rows == c.programs.table.rows && b.rounds.table.rows == c.rounds.table.rows
    requires b.projects.table.rows == c.projects.table.rows && b.votes.table.rows == c.votes.table.rows
    requires c.programs.cause.Some? ==> a.programs.cause.Some?
    requires c.rounds.cause.Some? ==> a.rounds.cause.Some?
    requires c.projects.cause.Some? ==> a.projects.cause.Some?
    ensures SameRows(Sequenced(b, Sequenced(a, s, done).store, done).store, Sequenced(c, s, done).store)
  {
  }

  /** Re-running `seed` for a chain after a run that a failed query or a
      rejected statement cut short leaves every table with the rows of one
      clean run: completed stages and completed batches are neither lost
      nor duplicated. The first run may see a flaky subgraph `g0`; what it
      fetched completely must be what the retry fetches. */
  lemma RetryRepairs(chain: Chain, g0: Subgraph, g: Subgraph, fault: Kind -> Option<nat>, s: Store)
    requires Serves(g0) && Serves(g) && RefetchesAll(g0, g)
    ensures SameRows(Run(chain, g, NoFaults, Run(chain, g0, fault, s).store).store, Run(chain, g, NoFaults, s).store)
  {
    var (id, done) := (chain.Id(), chain.Done());
    var a := StagesOf(chain, g0, fault, s);
    var first := Sequenced(a, s, done).store;
    SequencedTables(a, s, done);
    StageRetry(Programs, g0.programs, g.programs, ProgramId, TagPrograms, id, s.programs, fault(Programs));
    StageRetry(Rounds, g0.rounds, g.rounds, RoundId, TagRounds, id, s.rounds, fault(Rounds));
    StageRetry(Projects, g0.projects, g.projects, ProjectId, TagProjects, id, s.projects, fault(Projects));
    StageRetry(Votes, g0.votes, g.votes, VoteId, TagVotes, id, s.votes, fault(Votes));
    SequencedRetry(a, StagesOf(chain, g, NoFaults, first), StagesOf(chain, g, NoFaults, s), s, done);
  }


  /** Seeding a chain twice, with a store that rejects nothing, leaves the
      rows of seeding it once, whether or not a query fails. */
  lemma ReseedChangesNoRows(chain: Chain, g: Subgraph, s: Store)
    requires Serves(g)
    ensures SameRows(Run(chain, g, NoFaults, Run(chain, g, NoFaults, s).store).store, Run(chain, g, NoFaults, s).store)
  {
    RetryRepairs(chain, g, g, NoFaults, s);
  }

  /** Against a provider that serves a fixed ascending set of records with
      non-empty ids, and a store that accepts every statement, a stage
      succeeds, inserts every tagged record in batches of `ChunkSize` and
      asks for `n / PageSize + 1` pages. */
  lemma IndexedStageLoadsEverything<R>(kind: Kind, records: seq<R>, key: R -> string, tag: (seq<R>, string) -> seq<R>,
                                       chainId: string, table: TableState<R>)
    requires Ascending(records, key)
    requires forall i :: 0 <= i < |records| ==> key(records[i]) != ""
    ensures Honours(Indexer(records, key, PageSize), key, Ids(records, key))
    ensures var e := Stage(kind, Source(Indexer(records, key, PageSize), Ids(records, key)), key, tag, chainId, table, None);
            var tagged := tag(records, chainId);
            && e.cause.None?
            && e.table.rows == InsertOrIgnore(table.rows, tagged, key)
            && e.table.log == table.log + Chunks(tagged)
            && |e.steps| == |records| / PageSize + 1 + |Chunks(tagged)|
  {
    FetchesEverything(records, key);
    var tagged := tag(records, chainId);
    CleanLoad(table.rows, tagged, None, key);
  }

  /* ---------- The handlers ---------- */

  /** `seed_programs` and its siblings on a live table whose state on entry
      is `before`. */
  method SeedStage<R>(kind: Kind, source: Source<R>, key: R -> string, tag: (seq<R>, string) -> seq<R>, chainId: string,
                      table: Table<R>, fault: Option<nat>, ghost before: TableState<R>) returns (cause: Option<Cause>, steps: seq<Step>)
    requires table.key == key && table.Valid() && table.State() == before
    requires Honours(source.provider, key, source.ids)
    modifies table
    ensures table.Valid()
    ensures var e := Stage(kind, source, key, tag, chainId, before, fault);
            cause == e.cause && steps == e.steps && table.State() == e.table
  {
    var f := QueryAll(source.provider, key, source.ids);
    if f.result.None? {
      return Some(ProviderFailed), StageSteps(kind, f.log, []);
    }
    var tagged := tag(f.result.value, chainId);
    var start := |table.log|;
    var ok := table.Load(tagged, fault);
    IssuedBatches(tagged, fault);
    assert table.log[start..] == Issued(tagged, fault);
    cause := if ok then None else Some(StoreRejected);
    steps := StageSteps(kind, f.log, table.log[start..]);
  }

  /** `seed_fantom_mainnet`, `seed_fantom_testnet`, `seed_optimism_mainnet`,
      `seed_ethereum_goerli`, `seed_ethereum_mainnet`: one handler per
      chain, alike but for the chain id and the reply. */
  method SeedChain(chain: Chain, g: Subgraph, fault: Kind -> Option<nat>,
                   programs: Table<Program>, rounds: Table<Round>, projects: Table<Project>, votes: Table<Vote>)
    returns (reply: Reply, trace: seq<Step>)
    requires programs.key == ProgramId && rounds.key == RoundId && projects.key == ProjectId && votes.key == VoteId
    requires programs.Valid() && rounds.Valid() && projects.Valid() && votes.Valid()
    requires Serves(g)
    modifies programs, rounds, projects, votes
    ensures programs.Valid() && rounds.Valid() && projects.Valid() && votes.Valid()
    ensures var r := Run(chain, g, fault, Store(old(programs.State()), old(rounds.State()), old(projects.State()), old(votes.State())));
            && reply == r.reply && trace == r.trace
            && Store(programs.State(), rounds.State(), projects.State(), votes.State()) == r.store
  {
    ghost var s0 := Store(programs.State(), rounds.State(), projects.State(), votes.State());
    var cause, steps := SeedStage(Programs, g.programs, ProgramId, TagPrograms, chain.Id(), programs, fault(Programs), s0.programs);
    trace := steps;
    if cause.Some? {
      return Aborted(Programs, cause.value), trace;
    }
    cause, steps := SeedStage(Rounds, g.rounds, RoundId, TagRounds, chain.Id(), rounds, fault(Rounds), s0.rounds);
    trace := trace + steps;
    if cause.Some? {
      return Aborted(Rounds, cause.value), trace;
    }
    cause, steps := SeedStage(Projects, g.projects, ProjectId, TagProjects, chain.Id(), projects, fault(Projects), s0.projects);
    trace := trace + steps;
    if cause.Some? {
      return Aborted(Projects, cause.value), trace;
    }
    cause, steps := SeedStage(Votes, g.votes, VoteId, TagVotes, chain.Id(), votes, fault(Votes), s0.votes);
    trace := trace + steps;
    if cause.Some? {
      return Aborted(Votes, cause.value), trace;
    }
    reply := Ok(chain.Done());
  }

  /** `seed`: an unknown chain name is a bad request that touches neither
      the provider nor the store; a known one runs that chain's handler
      against the subgraph configured for it. */
  method Seed(name: string, subgraph: Chain -> Subgraph, fault: Kind -> Option<nat>,
              programs: Table<Program>, rounds: Table<Round>, projects: Table<Project>, votes: Table<Vote>)
    returns (reply: Reply, trace: seq<Step>)
    requires programs.key == ProgramId && rounds.key == RoundId && projects.key == ProjectId && votes.key == VoteId
    requires programs.Valid() && rounds.Valid() && projects.Valid() && votes.Valid()
    requires ChainNamed(name).Some? ==> Serves(subgraph(ChainNamed(name).value))
    modifies programs, rounds, projects, votes
    ensures programs.Valid() && rounds.Valid() && projects.Valid() && votes.Valid()
    ensures ChainNamed(name).None? ==> reply == BadRequest("Invalid chain id") && trace == []
    ensures ChainNamed(name).None? ==> unchanged(programs, rounds, projects, votes)
    ensures ChainNamed(name).Some? ==>
              var chain := ChainNamed(name).value;
              var r := Run(chain, subgraph(chain), fault, Store(old(programs.State()), old(rounds.State()), old(projects.State()), old(votes.State())));
              && reply == r.reply && trace == r.trace
              && Store(programs.State(), rounds.State(), projects.State(), votes.State()) == r.store
  {
    var chain := ChainNamed(name);
    if chain.None? {
      return BadRequest("Invalid chain id"), [];
    }
    reply, trace := SeedChain(chain.value, subgraph(chain.value), fault, programs, rounds, projects, votes);
  }
}
