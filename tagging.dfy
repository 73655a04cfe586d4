/** Chain tagging (`add_program_chain_id`, `add_round_chain_id`,
    `add_project_chain_id`, `add_vote_chain_id`): a copy of every fetched
    record with its `chainId` set to the chain of the current run. */
module Tagging {
  import opened Models

  function TagPrograms(programs: seq<Program>, chainId: string): (tagged: seq<Program>)
    ensures |tagged| == |programs|
    ensures forall i :: 0 <= i < |programs| ==>
              && tagged[i].chainId == Some(chainId)
              && tagged[i].id == programs[i].id
              && tagged[i].createdAt == programs[i].createdAt
              && tagged[i].updatedAt == programs[i].updatedAt
  {
    seq(|programs|, i requires 0 <= i < |programs| => programs[i].(chainId := Some(chainId)))
  }

  function TagRounds(rounds: seq<Round>, chainId: string): (tagged: seq<Round>)
    ensures |tagged| == |rounds|
    ensures forall i :: 0 <= i < |rounds| ==>
              && tagged[i].chainId == Some(chainId)
              && tagged[i].id == rounds[i].id
              && tagged[i].createdAt == rounds[i].createdAt
              && tagged[i].updatedAt == rounds[i].updatedAt
  {
    seq(|rounds|, i requires 0 <= i < |rounds| => rounds[i].(chainId := Some(chainId)))
  }

  function TagProjects(projects: seq<Project>, chainId: string): (tagged: seq<Project>)
    ensures |tagged| == |projects|
    ensures forall i :: 0 <= i < |projects| ==>
              && tagged[i].chainId == Some(chainId)
              && tagged[i].id == projects[i].id
              && tagged[i].createdAt == projects[i].createdAt
              && tagged[i].updatedAt == projects[i].updatedAt
  {
    seq(|projects|, i requires 0 <= i < |projects| => projects[i].(chainId := Some(chainId)))
  }

  function TagVotes(votes: seq<Vote>, chainId: string): (tagged: seq<Vote>)
    ensures |tagged| == |votes|
    ensures forall i :: 0 <= i < |votes| ==>
              && tagged[i].chainId == Some(chainId)
              && tagged[i].id == votes[i].id
              && tagged[i].createdAt == votes[i].createdAt
              && tagged[i].amount == votes[i].amount
              && tagged[i].from == votes[i].from
              && tagged[i].to == votes[i].to
              && tagged[i].token == votes[i].token
              && tagged[i].version == votes[i].version
              && tagged[i].projectId == votes[i].projectId
  {
    seq(|votes|, i requires 0 <= i < |votes| => votes[i].(chainId := Some(chainId)))
  }

  /** Tagging keeps the sequence of ids, so the loader sees the records the
      pagination fetched, in the same order and under the same keys. */
  lemma TaggingKeepsIds(p: seq<Program>, r: seq<Round>, j: seq<Project>, v: seq<Vote>, chainId: string)
    ensures Ids(TagPrograms(p, chainId), ProgramId) == Ids(p, ProgramId)
    ensures Ids(TagRounds(r, chainId), RoundId) == Ids(r, RoundId)
    ensures Ids(TagProjects(j, chainId), ProjectId) == Ids(j, ProjectId)
    ensures Ids(TagVotes(v, chainId), VoteId) == Ids(v, VoteId)
  {
    SameKeysSameIds(TagPrograms(p, chainId), p, ProgramId);
    SameKeysSameIds(TagRounds(r, chainId), r, RoundId);
    SameKeysSameIds(TagProjects(j, chainId), j, ProjectId);
    SameKeysSameIds(TagVotes(v, chainId), v, VoteId);
  }

  lemma SameKeysSameIds<R>(a: seq<R>, b: seq<R>, key: R -> string)
    requires |a| == |b| && forall i :: 0 <= i < |a| ==> key(a[i]) == key(b[i])
    ensures Ids(a, key) == Ids(b, key)
  {
  }
}
