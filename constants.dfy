/** The tracked clusters and the per-cluster service-unit (SU) maps keyed by them.

    Every proposal and investment row holds one integer column per cluster; here
    such a group of columns is a `map<Cluster, int>` with an entry for every cluster. */
module Constants {

  /** The clusters whose usage is tracked. */
  datatype Cluster = Smp | Mpi | Gpu | Htc

  /** The name of a cluster, as the scheduler and the command line spell it. */
  function Name(c: Cluster): (n: string)
    ensures |n| > 0 && ',' !in n
  {
    match c
    case Smp => "smp"
    case Mpi => "mpi"
    case Gpu => "gpu"
    case Htc => "htc"
  }

  /** The clusters in the order every per-cluster loop visits them. */
  const CLUSTERS: seq<Cluster> := [Smp, Mpi, Gpu, Htc]

  /** No cluster is listed twice, so a loop over CLUSTERS touches each key once. */
  lemma ClustersDistinct()
    ensures forall i, j :: 0 <= i < j < |CLUSTERS| ==> CLUSTERS[i] != CLUSTERS[j]
  {
  }

  /** Every cluster is listed, so a map with an entry for each listed cluster has every key. */
  lemma AllClustersListed()
    ensures forall c: Cluster :: c in CLUSTERS
  {
    forall c: Cluster
      ensures c in CLUSTERS
    {
      match c
      case Smp => assert CLUSTERS[0] == c;
      case Mpi => assert CLUSTERS[1] == c;
      case Gpu => assert CLUSTERS[2] == c;
      case Htc => assert CLUSTERS[3] == c;
    }
  }

  /** The position of a cluster in CLUSTERS. */
  function Rank(c: Cluster): (k: nat)
    ensures k < |CLUSTERS| && CLUSTERS[k] == c
  {
    match c
    case Smp => 0
    case Mpi => 1
    case Gpu => 2
    case Htc => 3
  }

  /** `cs` lists clusters in the order of CLUSTERS, each at most once. */
  predicate InClusterOrder(cs: seq<Cluster>) {
    forall i, j :: 0 <= i < j < |cs| ==> Rank(cs[i]) < Rank(cs[j])
  }

  /** CLUSTERS itself is in cluster order. */
  lemma ClustersInOrder()
    ensures InClusterOrder(CLUSTERS)
  {
    forall i, j | 0 <= i < j < |CLUSTERS|
      ensures Rank(CLUSTERS[i]) < Rank(CLUSTERS[j])
    {
      assert Rank(CLUSTERS[i]) == i && Rank(CLUSTERS[j]) == j;
    }
  }

  /** The names of a list of clusters, in order. */
  function Names(cs: seq<Cluster>): (r: seq<string>)
    ensures |r| == |cs|
    ensures forall i :: 0 <= i < |cs| ==> r[i] == Name(cs[i])
  {
    seq(|cs|, i requires 0 <= i < |cs| => Name(cs[i]))
  }

  /** A per-cluster map: an entry for every cluster. */
  ghost predicate HasClusters(m: map<Cluster, int>) {
    forall c :: c in CLUSTERS ==> c in m
  }

  /** Sum of the entries of `m` named by `cs`, visiting `cs` in order. */
  function SumOver(m: map<Cluster, int>, cs: seq<Cluster>): int
    requires forall c :: c in cs ==> c in m
  {
    if cs == [] then 0 else SumOver(m, cs[..|cs| - 1]) + m[cs[|cs| - 1]]
  }

  /** The total of a per-cluster map, summed in cluster order. */
  function Total(m: map<Cluster, int>): int
    requires HasClusters(m)
  {
    SumOver(m, CLUSTERS)
  }

  /** The total is exactly the four cluster columns added up. */
  lemma TotalColumns(m: map<Cluster, int>)
    requires HasClusters(m)
    ensures Total(m) == m[Smp] + m[Mpi] + m[Gpu] + m[Htc]
  {
    assert SumOver(m, [Smp]) == m[Smp] by { assert [Smp][..0] == []; }
    assert SumOver(m, [Smp, Mpi]) == m[Smp] + m[Mpi] by { assert [Smp, Mpi][..1] == [Smp]; }
    assert SumOver(m, [Smp, Mpi, Gpu]) == m[Smp] + m[Mpi] + m[Gpu] by {
      assert [Smp, Mpi, Gpu][..2] == [Smp, Mpi];
    }
    assert CLUSTERS[..3] == [Smp, Mpi, Gpu];
  }

  /** The values of a per-cluster map in CLUSTERS order. */
  function ClusterValues(m: map<Cluster, int>): (r: seq<int>)
    requires HasClusters(m)
    ensures |r| == |CLUSTERS|
    ensures forall i :: 0 <= i < |CLUSTERS| ==> r[i] == m[CLUSTERS[i]]
  {
    seq(|CLUSTERS|, i requires 0 <= i < |CLUSTERS| => m[CLUSTERS[i]])
  }

  /** Summing a pointwise sum is the sum of the sums. */
  lemma {:induction false} SumOverPointwise(a: map<Cluster, int>, b: map<Cluster, int>, s: map<Cluster, int>, cs: seq<Cluster>)
    requires forall c :: c in cs ==> c in a && c in b && c in s && s[c] == a[c] + b[c]
    ensures SumOver(s, cs) == SumOver(a, cs) + SumOver(b, cs)
  {
    if cs != [] {
      SumOverPointwise(a, b, s, cs[..|cs| - 1]);
    }
  }
}
