/** The traversal shared by the listing and the extraction: visit a cluster, then ask
    the FAT for the next one, until a terminator. The reader writes it as tail
    recursion; the cycle guard is the model's. */
module ChainWalk {
  import opened Base
  import opened VolumeLayout
  import opened FatTable

  /** The output of visiting `cluster` and then, while `next` names a fresh followable
      cluster, the clusters after it. `visited` holds the clusters walked so far. */
  function Walk<T>(visit: nat -> Trace<T>, next: nat -> Result<nat>, cluster: nat, visited: set<nat>): Trace<T>
    requires cluster in visited
    decreases |Followable - visited|
  {
    var here := visit(cluster);
    if here.status.Failed? then here
    else match next(cluster)
      case Err(e) => Trace(here.out, Failed(e))
      case Ok(n) =>
        if IsEnd(n) then here
        else if n in visited then Trace(here.out, Failed(CorruptChain))
        else
          FollowShrinks(visited, n);
          Then(here, Walk(visit, next, n, visited + {n}))
  }

  /** The outputs of the clusters `cs`, in order, ended by `status`: a failed cluster
      ends the whole. */
  function Over<T>(visit: nat -> Trace<T>, cs: seq<nat>, status: Status): Trace<T>
    decreases |cs|
  {
    if cs == [] then Trace([], status)
    else Then(visit(cs[0]), Over(visit, cs[1..], status))
  }

  /** Walking the FAT is visiting the clusters of the cluster chain in chain order: the
      walk's output is the clusters' outputs one after another, and it ends as the
      chain ends unless a cluster fails first. */
  lemma {:induction false} WalkFollowsChain<T>(visit: nat -> Trace<T>, fat: nat -> Result<nat>,
                                              cluster: nat, visited: set<nat>)
    requires cluster in visited
    ensures var ch := ChainFrom(fat, cluster, visited);
      Walk(visit, fat, cluster, visited) == Over(visit, ch.clusters, ch.status)
    decreases |Followable - visited|
  {
    var here := visit(cluster);
    var ch := ChainFrom(fat, cluster, visited);
    match fat(cluster)
    case Err(e) =>
      assert ch == Chain([cluster], Failed(e));
      assert Over(visit, [cluster], Failed(e)) == Then(here, Trace([], Failed(e)));
      assert here.out + [] == here.out;
    case Ok(n) =>
      if IsEnd(n) || n in visited {
        assert ch.clusters == [cluster];
        assert Over(visit, [cluster], ch.status) == Then(here, Trace([], ch.status));
        assert here.out + [] == here.out;
      } else {
        FollowShrinks(visited, n);
        WalkFollowsChain(visit, fat, n, visited + {n});
        var rest := ChainFrom(fat, n, visited + {n});
        assert ch == Chain([cluster] + rest.clusters, rest.status);
        assert ([cluster] + rest.clusters)[1..] == rest.clusters;
      }
  }

  /** The outputs of visiting the clusters `cs`, one after another. */
  function Outputs<T>(visit: nat -> Trace<T>, cs: seq<nat>): seq<T>
    decreases |cs|
  {
    if cs == [] then [] else visit(cs[0]).out + Outputs(visit, cs[1..])
  }

  /** A sequence of visits completes exactly when every visit completes and the
      sequence's own ending is Complete, and then its output is the visits' outputs
      one after another. */
  lemma {:induction false} OverComplete<T>(visit: nat -> Trace<T>, cs: seq<nat>, status: Status)
    ensures Over(visit, cs, status).status == Complete
        <==> status == Complete && forall k :: 0 <= k < |cs| ==> visit(cs[k]).status == Complete
    ensures Over(visit, cs, status).status == Complete ==> Over(visit, cs, status).out == Outputs(visit, cs)
    decreases |cs|
  {
    if cs != [] {
      OverComplete(visit, cs[1..], status);
      if visit(cs[0]).status == Complete {
        forall k | 1 <= k < |cs| ensures cs[k] == cs[1..][k - 1] { }
      }
    }
  }
}
