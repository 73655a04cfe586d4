/** The four record kinds the pipeline ingests, as the provider delivers
    them and as the store keeps them (one table per kind, `id` the
    primary key), and the functions over record sequences that the
    pagination and the loader share. */
module Models {

  datatype Option<T> = None | Some(value: T)

  datatype Program = Program(id: string, createdAt: string, updatedAt: string, chainId: Option<string>)

  datatype Round = Round(id: string, createdAt: string, updatedAt: string, chainId: Option<string>)

  datatype Project = Project(id: string, createdAt: string, updatedAt: string, chainId: Option<string>)

  /** `amount` is a decimal kept as text; `projectId` may be absent. */
  datatype Vote = Vote(
    id: string,
    createdAt: string,
    amount: string,
    from: string,
    to: string,
    token: string,
    version: string,
    projectId: Option<string>,
    chainId: Option<string>)

  // The primary key of each table, and the cursor of each traversal.
  function ProgramId(p: Program): string { p.id }
  function RoundId(r: Round): string { r.id }
  function ProjectId(p: Project): string { p.id }
  function VoteId(v: Vote): string { v.id }

  /** The set of keys carried by `records`. */
  function Ids<R>(records: seq<R>, key: R -> string): (ids: set<string>)
    ensures forall i :: 0 <= i < |records| ==> key(records[i]) in ids
    ensures forall k :: k in ids ==> exists i :: 0 <= i < |records| && key(records[i]) == k
  {
    if records == [] then {}
    else
      var rest := Ids(records[1..], key);
      assert forall k :: k in rest ==> exists i :: 1 <= i < |records| && key(records[i]) == k by {
        forall k | k in rest ensures exists i :: 1 <= i < |records| && key(records[i]) == k {
          var j :| 0 <= j < |records[1..]| && key(records[1..][j]) == k;
          assert key(records[j + 1]) == k;
        }
      }
      {key(records[0])} + rest
  }

  /** The position of the first record of `records` whose key is `k`. */
  function FirstIndex<R>(records: seq<R>, key: R -> string, k: string): (i: nat)
    requires k in Ids(records, key)
    ensures i < |records| && key(records[i]) == k
    ensures forall j :: 0 <= j < i ==> key(records[j]) != k
  {
    if key(records[0]) == k then 0
    else
      var i := FirstIndex(records[1..], key, k);
      assert forall j :: 1 <= j < i + 1 ==> key(records[j]) != k by {
        forall j | 1 <= j < i + 1 ensures key(records[j]) != k {
          assert records[j] == records[1..][j - 1];
        }
      }
      i + 1
  }

  /** The first record of `records` whose key is `k`. */
  function FirstWith<R>(records: seq<R>, key: R -> string, k: string): (r: R)
    requires k in Ids(records, key)
    ensures key(r) == k
  {
    records[FirstIndex(records, key, k)]
  }

  /** Ids of a concatenation, and which occurrence comes first in it. */
  lemma {:induction false} FirstWithAppend<R>(a: seq<R>, b: seq<R>, key: R -> string, k: string)
    requires k in Ids(a, key) || k in Ids(b, key)
    ensures k in Ids(a + b, key)
    ensures FirstWith(a + b, key, k) == if k in Ids(a, key) then FirstWith(a, key, k) else FirstWith(b, key, k)
    decreases |a|
  {
    if a == [] {
      assert a + b == b;
    } else {
      assert (a + b)[0] == a[0] && (a + b)[1..] == a[1..] + b;
      if key(a[0]) != k {
        assert k in Ids(a, key) <==> k in Ids(a[1..], key);
        FirstWithAppend(a[1..], b, key, k);
      }
    }
  }
}
