/** `prepare_visualization_data`: the graph the front end draws. Dataset nodes
    sit at their reduced coordinates and carry their cluster label; each PMID
    gets a node at the centroid of its datasets; links join a PMID to each of
    its GEO IDs and join every two datasets of one cluster; and the cluster
    summaries list the members of each label. Each phase is a loop proved
    against a reference definition, and the lemmas state what the phases
    promise about those definitions. */
module Visualization {
  import opened Common
  import opened TextProcessing

  const GeoIdColumn := "geo_id"
  const PmidColumn := "pmid"

  /** The columns a dataset node reads from its row, in the order it reads them. */
  const NodeColumns: seq<string> := [GeoIdColumn, Title, ExperimentType, Organism, PmidColumn]

  /** The cluster a PMID node carries: PMIDs are not clustered. */
  const PmidCluster := -1

  /** A node of type "dataset". */
  datatype DatasetNode = DatasetNode(id: Option<string>, title: Option<string>, experimentType: Option<string>,
                                     organism: Option<string>, pmid: Option<string>, x: real, y: real, cluster: int)

  /** A node of type "pmid". */
  datatype PmidNode = PmidNode(pmid: string, x: real, y: real, cluster: int)

  datatype Node = Dataset(dataset: DatasetNode) | Publication(publication: PmidNode)

  datatype LinkKind = PmidToDataset | SameCluster

  datatype Link = Link(source: Option<string>, target: Option<string>, kind: LinkKind)

  datatype ClusterSummary = ClusterSummary(id: int, size: nat, datasets: seq<Option<string>>)

  datatype VisData = VisData(nodes: seq<Node>, links: seq<Link>, clusters: seq<ClusterSummary>)

  const NoData := VisData([], [], [])

  // ---------------------------------------------------------------------
  // Dataset nodes
  // ---------------------------------------------------------------------

  /** The rows that get a node: those below the lengths of the vectors and the labels. */
  function NodeCount(df: Frame, vectors: Matrix, labels: seq<int>): (m: nat)
    ensures m <= df.length && m <= |vectors| && m <= |labels|
    ensures m == df.length || m == |vectors| || m == |labels|
  {
    Min(df.length, Min(|vectors|, |labels|))
  }

  predicate HasNodeColumns(df: Frame) {
    forall c :: c in NodeColumns ==> c in df.columns
  }

  /** The node of row `i`. */
  function NodeAt(df: Frame, vectors: Matrix, labels: seq<int>, i: nat): DatasetNode
    requires WellFormed(df) && HasNodeColumns(df)
    requires i < df.length && i < |vectors| && i < |labels| && |vectors[i]| >= 2
  {
    DatasetNode(df.columns[GeoIdColumn][i], df.columns[Title][i], df.columns[ExperimentType][i],
                df.columns[Organism][i], df.columns[PmidColumn][i], vectors[i][0], vectors[i][1], labels[i])
  }

  /** What the node loop produces: a `KeyError` when some row is visited and a
      node column is missing, an `IndexError` when a visited row's vector has
      fewer than two coordinates, and otherwise one node per visited row. */
  function DatasetNodes(df: Frame, vectors: Matrix, labels: seq<int>): Result<seq<DatasetNode>>
    requires WellFormed(df)
  {
    var m := NodeCount(df, vectors, labels);
    if m > 0 && !HasNodeColumns(df) then Raised(KeyError)
    else if exists i :: 0 <= i < m && |vectors[i]| < 2 then Raised(IndexError)
    else Ok(seq(m, i requires 0 <= i < m => NodeAt(df, vectors, labels, i)))
  }

  /** The loop over `df.iterrows()` that builds the dataset nodes. */
  method BuildDatasetNodes(df: Frame, vectors: Matrix, labels: seq<int>) returns (r: Result<seq<DatasetNode>>)
    requires WellFormed(df)
    ensures r == DatasetNodes(df, vectors, labels)
  {
    ghost var m := NodeCount(df, vectors, labels);
    var nodes: seq<DatasetNode> := [];
    var i := 0;
    while i < df.length
      invariant 0 <= i <= df.length
      invariant |nodes| == Min(i, m)
      invariant |nodes| > 0 ==> HasNodeColumns(df)
      invariant forall j :: 0 <= j < |nodes| ==> |vectors[j]| >= 2
      invariant forall j :: 0 <= j < |nodes| ==> nodes[j] == NodeAt(df, vectors, labels, j)
    {
      if i >= |vectors| || i >= |labels| {
        i := i + 1;
        continue;
      }
      if !HasNodeColumns(df) {
        return Raised(KeyError);
      }
      if |vectors[i]| < 2 {
        return Raised(IndexError);
      }
      nodes := nodes + [NodeAt(df, vectors, labels, i)];
      i := i + 1;
    }
    assert !exists j :: 0 <= j < m && |vectors[j]| < 2;
    assert nodes == seq(m, j requires 0 <= j < m => NodeAt(df, vectors, labels, j));
    return Ok(nodes);
  }

  /** On success there is one node per visited row, in row order, carrying the
      row's cells, the first two coordinates of its vector and its label. */
  lemma DatasetNodesContents(df: Frame, vectors: Matrix, labels: seq<int>, i: nat)
    requires WellFormed(df)
    requires DatasetNodes(df, vectors, labels).Ok?
    requires i < NodeCount(df, vectors, labels)
    ensures var nodes := DatasetNodes(df, vectors, labels).value;
      && |nodes| == NodeCount(df, vectors, labels)
      && nodes[i].id == df.columns[GeoIdColumn][i]
      && nodes[i].pmid == df.columns[PmidColumn][i]
      && nodes[i].x == vectors[i][0] && nodes[i].y == vectors[i][1]
      && nodes[i].cluster == labels[i]
  {
  }

  // ---------------------------------------------------------------------
  // PMID nodes
  // ---------------------------------------------------------------------

  function Sum(xs: seq<real>): real {
    if xs == [] then 0.0 else Sum(xs[..|xs| - 1]) + xs[|xs| - 1]
  }

  function Mean(xs: seq<real>): real
    requires xs != []
  {
    Sum(xs) / (|xs| as real)
  }

  /** `[node for node in nodes if node["pmid"] == pmid]`. */
  function Related(nodes: seq<DatasetNode>, pmid: string): (r: seq<DatasetNode>)
    ensures forall n :: n in r <==> n in nodes && n.pmid == Some(pmid)
  {
    if nodes == [] then []
    else
      var last := nodes[|nodes| - 1];
      Related(nodes[..|nodes| - 1], pmid) + (if last.pmid == Some(pmid) then [last] else [])
  }

  /** The comprehension keeps node order and repetitions: filtering a
      concatenation is concatenating the filtered parts. */
  lemma {:induction false} RelatedAppend(a: seq<DatasetNode>, b: seq<DatasetNode>, pmid: string)
    ensures Related(a + b, pmid) == Related(a, pmid) + Related(b, pmid)
  {
    if b == [] {
      assert a + b == a;
      assert Related(a, pmid) + [] == Related(a, pmid);
    } else {
      var n := |b| - 1;
      var init, last := b[..n], b[n];
      var ab := a + b;
      var x := if last.pmid == Some(pmid) then [last] else [];
      SplitLast(a, b);
      assert Related(ab, pmid) == Related(a + init, pmid) + x;
      assert Related(b, pmid) == Related(init, pmid) + x;
      RelatedAppend(a, init, pmid);
      assert Related(a, pmid) + Related(init, pmid) + x == Related(a, pmid) + (Related(init, pmid) + x);
    }
  }

  /** One node is kept exactly when it carries the PMID. */
  lemma RelatedOne(x: DatasetNode, pmid: string)
    ensures Related([x], pmid) == if x.pmid == Some(pmid) then [x] else []
  {
    assert [x][..0] == [];
  }

  function Xs(nodes: seq<DatasetNode>): (r: seq<real>)
    ensures |r| == |nodes| && forall i :: 0 <= i < |nodes| ==> r[i] == nodes[i].x
  {
    seq(|nodes|, i requires 0 <= i < |nodes| => nodes[i].x)
  }

  function Ys(nodes: seq<DatasetNode>): (r: seq<real>)
    ensures |r| == |nodes| && forall i :: 0 <= i < |nodes| ==> r[i] == nodes[i].y
  {
    seq(|nodes|, i requires 0 <= i < |nodes| => nodes[i].y)
  }

  /** The node of one PMID: none when no dataset node carries it. */
  function PmidNodeFor(nodes: seq<DatasetNode>, pmid: string): Option<PmidNode> {
    var related := Related(nodes, pmid);
    if related == [] then None
    else Some(PmidNode(pmid, Mean(Xs(related)), Mean(Ys(related)), PmidCluster))
  }

  /** The node of one PMID as a list of zero or one nodes. */
  function PmidNodeList(nodes: seq<DatasetNode>, pmid: string): seq<PmidNode> {
    match PmidNodeFor(nodes, pmid) case None => [] case Some(p) => [p]
  }

  /** The PMID nodes, in the dictionary's key order. */
  function PmidNodes(nodes: seq<DatasetNode>, pmids: Assoc<seq<string>>): seq<PmidNode> {
    if pmids == [] then []
    else PmidNodes(nodes, pmids[..|pmids| - 1]) + PmidNodeList(nodes, pmids[|pmids| - 1].0)
  }

  /** The loop over the PMIDs of the dictionary. */
  method BuildPmidNodes(nodes: seq<DatasetNode>, pmids: Assoc<seq<string>>) returns (pmidNodes: seq<PmidNode>)
    ensures pmidNodes == PmidNodes(nodes, pmids)
  {
    pmidNodes := [];
    for i := 0 to |pmids|
      invariant pmidNodes == PmidNodes(nodes, pmids[..i])
    {
      assert pmids[..i + 1][..i] == pmids[..i];
      var pmid := pmids[i].0;
      var related := Related(nodes, pmid);
      if related == [] {
        continue;
      }
      var avgX := Sum(Xs(related)) / (|related| as real);
      var avgY := Sum(Ys(related)) / (|related| as real);
      pmidNodes := pmidNodes + [PmidNode(pmid, avgX, avgY, PmidCluster)];
    }
    assert pmids[..|pmids|] == pmids;
  }

  /** Every PMID node belongs to a key of the dictionary that some dataset node
      carries, is not clustered, and sits at the centroid of those nodes; and
      every such key gets a node. */
  lemma {:induction false} PmidNodesExactly(nodes: seq<DatasetNode>, pmids: Assoc<seq<string>>)
    ensures forall p :: p in PmidNodes(nodes, pmids) ==>
      && (exists i :: 0 <= i < |pmids| && pmids[i].0 == p.pmid)
      && Related(nodes, p.pmid) != []
      && p == PmidNodeFor(nodes, p.pmid).value
      && p.cluster == PmidCluster
    ensures forall i :: 0 <= i < |pmids| && Related(nodes, pmids[i].0) != [] ==>
      PmidNodeFor(nodes, pmids[i].0).value in PmidNodes(nodes, pmids)
  {
    if pmids != [] {
      var n := |pmids| - 1;
      var init := pmids[..n];
      PmidNodesExactly(nodes, init);
      var prev, extra := PmidNodes(nodes, init), PmidNodeList(nodes, pmids[n].0);
      assert PmidNodes(nodes, pmids) == prev + extra;
      forall p: PmidNode | p in prev + extra
        ensures && (exists i :: 0 <= i < |pmids| && pmids[i].0 == p.pmid)
                && Related(nodes, p.pmid) != []
                && p == PmidNodeFor(nodes, p.pmid).value
                && p.cluster == PmidCluster
      {
        if p in prev {
          var i :| 0 <= i < |init| && init[i].0 == p.pmid;
          assert pmids[i] == init[i];
        } else {
          assert p == extra[0] && p.pmid == pmids[n].0;
        }
      }
      forall i | 0 <= i < |pmids| && Related(nodes, pmids[i].0) != []
        ensures PmidNodeFor(nodes, pmids[i].0).value in prev + extra
      {
        if i < n {
          assert init[i] == pmids[i];
        } else {
          assert extra == [PmidNodeFor(nodes, pmids[i].0).value];
        }
      }
    }
  }

  /** A sum of values all in [lo, hi] lies between |xs| * lo and |xs| * hi. */
  lemma {:induction false} SumBounds(xs: seq<real>, lo: real, hi: real)
    requires forall i :: 0 <= i < |xs| ==> lo <= xs[i] <= hi
    ensures (|xs| as real) * lo <= Sum(xs) <= (|xs| as real) * hi
  {
    if xs != [] {
      var n := |xs| - 1;
      assert forall i :: 0 <= i < n ==> xs[..n][i] == xs[i];
      SumBounds(xs[..n], lo, hi);
      assert Sum(xs) == Sum(xs[..n]) + xs[n];
      assert (|xs| as real) * lo == (n as real) * lo + lo;
      assert (|xs| as real) * hi == (n as real) * hi + hi;
    }
  }

  /** The mean of values all in [lo, hi] lies in [lo, hi]. */
  lemma MeanBounds(xs: seq<real>, lo: real, hi: real)
    requires xs != []
    requires forall i :: 0 <= i < |xs| ==> lo <= xs[i] <= hi
    ensures lo <= Mean(xs) <= hi
  {
    SumBounds(xs, lo, hi);
    var n := |xs| as real;
    assert Mean(xs) * n == Sum(xs);
  }

  /** A PMID node lies inside every box that holds all of its related dataset
      nodes: it is their centroid. */
  lemma CentroidInBox(nodes: seq<DatasetNode>, pmid: string, loX: real, hiX: real, loY: real, hiY: real)
    requires PmidNodeFor(nodes, pmid).Some?
    requires forall n :: n in nodes && n.pmid == Some(pmid) ==> loX <= n.x <= hiX && loY <= n.y <= hiY
    ensures var p := PmidNodeFor(nodes, pmid).value;
      loX <= p.x <= hiX && loY <= p.y <= hiY
  {
    var related := Related(nodes, pmid);
    assert forall i :: 0 <= i < |related| ==> related[i] in related;
    MeanBounds(Xs(related), loX, hiX);
    MeanBounds(Ys(related), loY, hiY);
  }

  // ---------------------------------------------------------------------
  // Links
  // ---------------------------------------------------------------------

  function PmidLink(pmid: string, geoId: string): Link {
    Link(Some(pmid), Some(geoId), PmidToDataset)
  }

  /** The links of one entry of the dictionary, one per GEO ID. */
  function EntryLinks(pmid: string, geoIds: seq<string>): (r: seq<Link>)
    ensures |r| == |geoIds| && forall j :: 0 <= j < |geoIds| ==> r[j] == PmidLink(pmid, geoIds[j])
  {
    seq(|geoIds|, j requires 0 <= j < |geoIds| => PmidLink(pmid, geoIds[j]))
  }

  /** The `pmid_to_dataset` links, entry by entry in dictionary order. */
  function PmidLinks(pmids: Assoc<seq<string>>): seq<Link> {
    if pmids == [] then []
    else
      var n := |pmids| - 1;
      PmidLinks(pmids[..n]) + EntryLinks(pmids[n].0, pmids[n].1)
  }

  /** The number of GEO IDs listed in the dictionary. */
  function TotalIds(pmids: Assoc<seq<string>>): nat {
    if pmids == [] then 0 else TotalIds(pmids[..|pmids| - 1]) + |pmids[|pmids| - 1].1|
  }

  function SameClusterLink(a: DatasetNode, b: DatasetNode): Link {
    Link(a.id, b.id, SameCluster)
  }

  /** The links from node `i` to the nodes `i + 1 .. hi - 1` of its cluster. */
  function PairLinks(nodes: seq<DatasetNode>, i: nat, hi: nat): seq<Link>
    requires i < |nodes| && hi <= |nodes|
    decreases hi
  {
    if hi <= i + 1 then []
    else
      PairLinks(nodes, i, hi - 1)
      + if nodes[i].cluster == nodes[hi - 1].cluster then [SameClusterLink(nodes[i], nodes[hi - 1])] else []
  }

  /** The `same_cluster` links whose first node is among the first `k`. */
  function ClusterLinks(nodes: seq<DatasetNode>, k: nat): seq<Link>
    requires k <= |nodes|
  {
    if k == 0 then [] else ClusterLinks(nodes, k - 1) + PairLinks(nodes, k - 1, |nodes|)
  }

  /** The two link loops, one after the other. */
  method BuildLinks(nodes: seq<DatasetNode>, pmids: Assoc<seq<string>>) returns (links: seq<Link>)
    ensures links == PmidLinks(pmids) + ClusterLinks(nodes, |nodes|)
  {
    links := BuildPmidLinks(pmids);
    links := AppendClusterLinks(links, nodes);
  }

  /** The loop over `pmid_to_geo_ids.items()` and, inside it, over the GEO IDs. */
  method BuildPmidLinks(pmids: Assoc<seq<string>>) returns (links: seq<Link>)
    ensures links == PmidLinks(pmids)
  {
    links := [];
    for i := 0 to |pmids|
      invariant links == PmidLinks(pmids[..i])
    {
      assert pmids[..i + 1][..i] == pmids[..i];
      links := AppendEntryLinks(links, pmids[i].0, pmids[i].1);
    }
    assert pmids[..|pmids|] == pmids;
  }

  method AppendEntryLinks(links0: seq<Link>, pmid: string, geoIds: seq<string>) returns (links: seq<Link>)
    ensures links == links0 + EntryLinks(pmid, geoIds)
  {
    links := links0;
    for j := 0 to |geoIds|
      invariant links == links0 + EntryLinks(pmid, geoIds[..j])
    {
      assert EntryLinks(pmid, geoIds[..j + 1]) == EntryLinks(pmid, geoIds[..j]) + [PmidLink(pmid, geoIds[j])];
      links := links + [PmidLink(pmid, geoIds[j])];
    }
    assert geoIds[..|geoIds|] == geoIds;
  }

  /** The loop over `enumerate(nodes)` and, inside it, over `nodes[i + 1:]`. */
  method AppendClusterLinks(links0: seq<Link>, nodes: seq<DatasetNode>) returns (links: seq<Link>)
    ensures links == links0 + ClusterLinks(nodes, |nodes|)
  {
    links := links0;
    for i := 0 to |nodes|
      invariant links == links0 + ClusterLinks(nodes, i)
    {
      links := AppendPairLinks(links, nodes, i);
    }
  }

  method AppendPairLinks(links0: seq<Link>, nodes: seq<DatasetNode>, i: nat) returns (links: seq<Link>)
    requires i < |nodes|
    ensures links == links0 + PairLinks(nodes, i, |nodes|)
  {
    links := links0;
    for j := i + 1 to |nodes|
      invariant links == links0 + PairLinks(nodes, i, j)
    {
      if nodes[i].cluster == nodes[j].cluster {
        links := links + [SameClusterLink(nodes[i], nodes[j])];
      }
    }
  }

  /** There is one `pmid_to_dataset` link per listed GEO ID. */
  lemma {:induction false} PmidLinksCount(pmids: Assoc<seq<string>>)
    ensures |PmidLinks(pmids)| == TotalIds(pmids)
  {
    if pmids != [] {
      PmidLinksCount(pmids[..|pmids| - 1]);
    }
  }

  /** The `pmid_to_dataset` links are exactly the pairs (PMID, GEO ID) the
      dictionary lists. */
  lemma {:induction false} PmidLinksExactly(pmids: Assoc<seq<string>>, l: Link)
    ensures l in PmidLinks(pmids) <==>
      exists i, j :: 0 <= i < |pmids| && 0 <= j < |pmids[i].1| && l == PmidLink(pmids[i].0, pmids[i].1[j])
  {
    if pmids != [] {
      var n := |pmids| - 1;
      PmidLinksExactly(pmids[..n], l);
      assert forall i :: 0 <= i < n ==> pmids[..n][i] == pmids[i];
      var e := EntryLinks(pmids[n].0, pmids[n].1);
      if l in e {
        var j :| 0 <= j < |e| && e[j] == l;
        assert l == PmidLink(pmids[n].0, pmids[n].1[j]);
      }
      if exists i, j :: 0 <= i < |pmids| && 0 <= j < |pmids[i].1| && l == PmidLink(pmids[i].0, pmids[i].1[j]) {
        var i, j :| 0 <= i < |pmids| && 0 <= j < |pmids[i].1| && l == PmidLink(pmids[i].0, pmids[i].1[j]);
        if i == n {
          assert e[j] == l;
        }
      }
    }
  }

  lemma {:induction false} PairLinksExactly(nodes: seq<DatasetNode>, i: nat, hi: nat, l: Link)
    requires i < |nodes| && hi <= |nodes|
    ensures l in PairLinks(nodes, i, hi) <==>
      exists j :: i < j < hi && nodes[i].cluster == nodes[j].cluster && l == SameClusterLink(nodes[i], nodes[j])
    decreases hi
  {
    if hi > i + 1 {
      PairLinksExactly(nodes, i, hi - 1, l);
    }
  }

  /** Some pair i < j with i < k and equal labels yields link `l`. */
  ghost predicate LinkedBefore(nodes: seq<DatasetNode>, k: nat, l: Link) {
    exists i, j :: 0 <= i < k && i < j < |nodes| && nodes[i].cluster == nodes[j].cluster
                   && l == SameClusterLink(nodes[i], nodes[j])
  }

  /** The pairs below k + 1 are those below k and those starting at k. */
  lemma LinkedBeforeStep(nodes: seq<DatasetNode>, k: nat, l: Link)
    requires k < |nodes|
    ensures LinkedBefore(nodes, k + 1, l) <==>
      LinkedBefore(nodes, k, l) ||
      exists j :: k < j < |nodes| && nodes[k].cluster == nodes[j].cluster && l == SameClusterLink(nodes[k], nodes[j])
  {
    if LinkedBefore(nodes, k + 1, l) {
      var i, j :| 0 <= i < k + 1 && i < j < |nodes| && nodes[i].cluster == nodes[j].cluster
                  && l == SameClusterLink(nodes[i], nodes[j]);
      if i == k {
        assert k < j < |nodes| && nodes[k].cluster == nodes[j].cluster && l == SameClusterLink(nodes[k], nodes[j]);
      } else {
        assert 0 <= i < k && i < j < |nodes| && nodes[i].cluster == nodes[j].cluster
               && l == SameClusterLink(nodes[i], nodes[j]);
      }
    }
    if exists j :: k < j < |nodes| && nodes[k].cluster == nodes[j].cluster && l == SameClusterLink(nodes[k], nodes[j]) {
      var j :| k < j < |nodes| && nodes[k].cluster == nodes[j].cluster && l == SameClusterLink(nodes[k], nodes[j]);
      assert 0 <= k < k + 1 && k < j < |nodes| && nodes[k].cluster == nodes[j].cluster
             && l == SameClusterLink(nodes[k], nodes[j]);
    }
  }

  lemma {:induction false} ClusterLinksUpTo(nodes: seq<DatasetNode>, k: nat, l: Link)
    requires k <= |nodes|
    ensures l in ClusterLinks(nodes, k) <==> LinkedBefore(nodes, k, l)
  {
    if k > 0 {
      var prev, row := ClusterLinks(nodes, k - 1), PairLinks(nodes, k - 1, |nodes|);
      assert ClusterLinks(nodes, k) == prev + row;
      ClusterLinksUpTo(nodes, k - 1, l);
      PairLinksExactly(nodes, k - 1, |nodes|, l);
      LinkedBeforeStep(nodes, k - 1, l);
    }
  }

  /** The `same_cluster` links are exactly the pairs i < j of dataset nodes with
      equal labels. */
  lemma ClusterLinksExactly(nodes: seq<DatasetNode>, l: Link)
    ensures l in ClusterLinks(nodes, |nodes|) <==>
      exists i, j :: 0 <= i < j < |nodes| && nodes[i].cluster == nodes[j].cluster
                     && l == SameClusterLink(nodes[i], nodes[j])
  {
    ClusterLinksUpTo(nodes, |nodes|, l);
  }

  /** The index pairs (i, j), i < j < hi, that share node `i`'s label. */
  ghost function SamePairsFrom(nodes: seq<DatasetNode>, i: nat, hi: nat): set<(int, int)>
    requires i < |nodes| && hi <= |nodes|
    decreases hi
  {
    if hi <= i + 1 then {}
    else SamePairsFrom(nodes, i, hi - 1) + if nodes[i].cluster == nodes[hi - 1].cluster then {(i, hi - 1)} else {}
  }

  /** The index pairs (i, j), i < j, i < k, of nodes with equal labels. */
  ghost function SamePairs(nodes: seq<DatasetNode>, k: nat): set<(int, int)>
    requires k <= |nodes|
  {
    if k == 0 then {} else SamePairs(nodes, k - 1) + SamePairsFrom(nodes, k - 1, |nodes|)
  }

  lemma {:induction false} SamePairsFromMembers(nodes: seq<DatasetNode>, i: nat, hi: nat)
    requires i < |nodes| && hi <= |nodes|
    ensures forall p :: p in SamePairsFrom(nodes, i, hi) <==>
      p.0 == i && i < p.1 < hi && nodes[i].cluster == nodes[p.1].cluster
    decreases hi
  {
    if hi > i + 1 {
      SamePairsFromMembers(nodes, i, hi - 1);
    }
  }

  lemma {:induction false} SamePairsMembers(nodes: seq<DatasetNode>, k: nat)
    requires k <= |nodes|
    ensures forall p :: p in SamePairs(nodes, k) <==>
      0 <= p.0 < k && p.0 < p.1 < |nodes| && nodes[p.0].cluster == nodes[p.1].cluster
  {
    if k > 0 {
      SamePairsMembers(nodes, k - 1);
      SamePairsFromMembers(nodes, k - 1, |nodes|);
    }
  }

  lemma {:induction false} PairLinksCount(nodes: seq<DatasetNode>, i: nat, hi: nat)
    requires i < |nodes| && hi <= |nodes|
    ensures |PairLinks(nodes, i, hi)| == |SamePairsFrom(nodes, i, hi)|
    decreases hi
  {
    if hi > i + 1 {
      PairLinksCount(nodes, i, hi - 1);
      SamePairsFromStep(nodes, i, hi);
    }
  }

  /** One more candidate partner adds one pair exactly when it shares the label. */
  lemma SamePairsFromStep(nodes: seq<DatasetNode>, i: nat, hi: nat)
    requires i + 1 < hi <= |nodes|
    ensures |SamePairsFrom(nodes, i, hi)| ==
      |SamePairsFrom(nodes, i, hi - 1)| + if nodes[i].cluster == nodes[hi - 1].cluster then 1 else 0
  {
    var prev := SamePairsFrom(nodes, i, hi - 1);
    if nodes[i].cluster == nodes[hi - 1].cluster {
      SamePairsFromBelow(nodes, i, hi - 1);
      assert (i, hi - 1) !in prev;
    }
  }

  lemma {:induction false} SamePairsFromBelow(nodes: seq<DatasetNode>, i: nat, hi: nat)
    requires i < |nodes| && hi <= |nodes|
    ensures forall p :: p in SamePairsFrom(nodes, i, hi) ==> p.0 == i && p.1 < hi
    decreases hi
  {
    if hi > i + 1 {
      SamePairsFromBelow(nodes, i, hi - 1);
    }
  }

  lemma {:induction false} SamePairsBelow(nodes: seq<DatasetNode>, k: nat)
    requires k <= |nodes|
    ensures forall p :: p in SamePairs(nodes, k) ==> p.0 < k
  {
    if k > 0 {
      SamePairsBelow(nodes, k - 1);
      SamePairsFromBelow(nodes, k - 1, |nodes|);
    }
  }

  /** Node i's inner loop adds one link per later node with its label. */
  lemma RowLinksCount(nodes: seq<DatasetNode>, i: nat)
    requires i < |nodes|
    ensures |PairLinks(nodes, i, |nodes|)| == |SamePairsFrom(nodes, i, |nodes|)|
  {
    PairLinksCount(nodes, i, |nodes|);
  }

  /** The pairs of the next first node are new, so they add their number. */
  lemma SamePairsStep(nodes: seq<DatasetNode>, k: nat)
    requires 0 < k <= |nodes|
    ensures |SamePairs(nodes, k)| == |SamePairs(nodes, k - 1)| + |SamePairsFrom(nodes, k - 1, |nodes|)|
  {
    SamePairsBelow(nodes, k - 1);
    SamePairsFromBelow(nodes, k - 1, |nodes|);
    var prev, row := SamePairs(nodes, k - 1), SamePairsFrom(nodes, k - 1, |nodes|);
    assert prev * row == {} by {
      forall p | p in row ensures p !in prev {
      }
    }
    assert SamePairs(nodes, k) == prev + row;
  }

  /** The outer loop's next node adds as many links as it has later partners. */
  lemma ClusterLinksCountStep(nodes: seq<DatasetNode>, k: nat)
    requires 0 < k <= |nodes|
    requires |ClusterLinks(nodes, k - 1)| == |SamePairs(nodes, k - 1)|
    ensures |ClusterLinks(nodes, k)| == |SamePairs(nodes, k)|
  {
    var prevLinks, row := ClusterLinks(nodes, k - 1), PairLinks(nodes, k - 1, |nodes|);
    var prevPairs, rowPairs := SamePairs(nodes, k - 1), SamePairsFrom(nodes, k - 1, |nodes|);
    assert |ClusterLinks(nodes, k)| == |prevLinks| + |row|;
    assert |row| == |rowPairs| by { RowLinksCount(nodes, k - 1); }
    assert |SamePairs(nodes, k)| == |prevPairs| + |rowPairs| by { SamePairsStep(nodes, k); }
  }

  lemma {:induction false} ClusterLinksCountUpTo(nodes: seq<DatasetNode>, k: nat)
    requires k <= |nodes|
    ensures |ClusterLinks(nodes, k)| == |SamePairs(nodes, k)|
  {
    if k > 0 {
      ClusterLinksCountUpTo(nodes, k - 1);
      ClusterLinksCountStep(nodes, k);
    }
  }

  /** There is one `same_cluster` link per pair i < j of dataset nodes with
      equal labels. */
  lemma ClusterLinksCount(nodes: seq<DatasetNode>)
    ensures |ClusterLinks(nodes, |nodes|)| ==
      |set i, j | 0 <= i < j < |nodes| && nodes[i].cluster == nodes[j].cluster :: (i, j)|
  {
    ClusterLinksCountUpTo(nodes, |nodes|);
    SamePairsMembers(nodes, |nodes|);
    assert SamePairs(nodes, |nodes|) ==
      set i, j | 0 <= i < j < |nodes| && nodes[i].cluster == nodes[j].cluster :: (i, j);
  }

  // ---------------------------------------------------------------------
  // Cluster summaries
  // ---------------------------------------------------------------------

  /** `max(cluster_labels)`. */
  function MaxLabel(labels: seq<int>): (r: int)
    requires labels != []
    ensures r in labels && forall i :: 0 <= i < |labels| ==> labels[i] <= r
  {
    if |labels| == 1 then labels[0]
    else
      var n := |labels| - 1;
      assert forall i :: 0 <= i < n ==> labels[..n][i] == labels[i];
      Max(MaxLabel(labels[..n]), labels[n])
  }

  /** `[node for node in nodes if node["cluster"] == c]`. */
  function Members(nodes: seq<DatasetNode>, c: int): (r: seq<DatasetNode>)
    ensures |r| <= |nodes|
  {
    if nodes == [] then []
    else
      var last := nodes[|nodes| - 1];
      Members(nodes[..|nodes| - 1], c) + (if last.cluster == c then [last] else [])
  }

  /** A cluster's members are exactly the nodes that carry its label. */
  lemma {:induction false} MembersExactly(nodes: seq<DatasetNode>, c: int)
    ensures forall n :: n in Members(nodes, c) <==> n in nodes && n.cluster == c
  {
    if nodes != [] {
      var init := nodes[..|nodes| - 1];
      MembersExactly(init, c);
      assert forall n :: n in nodes <==> n in init || n == nodes[|nodes| - 1];
    }
  }

  /** The comprehension keeps node order and repetitions: filtering a
      concatenation is concatenating the filtered parts. */
  lemma {:induction false} MembersAppend(a: seq<DatasetNode>, b: seq<DatasetNode>, c: int)
    ensures Members(a + b, c) == Members(a, c) + Members(b, c)
  {
    if b == [] {
      assert a + b == a;
      assert Members(a, c) + [] == Members(a, c);
    } else {
      var n := |b| - 1;
      var init, last := b[..n], b[n];
      var ab := a + b;
      var x := if last.cluster == c then [last] else [];
      SplitLast(a, b);
      assert Members(ab, c) == Members(a + init, c) + x;
      assert Members(b, c) == Members(init, c) + x;
      MembersAppend(a, init, c);
      assert Members(a, c) + Members(init, c) + x == Members(a, c) + (Members(init, c) + x);
    }
  }

  /** One node is kept exactly when it carries the label. */
  lemma MembersOne(x: DatasetNode, c: int)
    ensures Members([x], c) == if x.cluster == c then [x] else []
  {
    assert [x][..0] == [];
  }

  /** `[node["id"] for node in cluster_nodes]`. */
  function Ids(nodes: seq<DatasetNode>): (r: seq<Option<string>>)
    ensures |r| == |nodes| && forall i :: 0 <= i < |nodes| ==> r[i] == nodes[i].id
  {
    seq(|nodes|, i requires 0 <= i < |nodes| => nodes[i].id)
  }

  /** The summary of label `c`: none when no node carries it. */
  function SummaryOf(nodes: seq<DatasetNode>, c: int): seq<ClusterSummary> {
    var members := Members(nodes, c);
    if members == [] then [] else [ClusterSummary(c, |members|, Ids(members))]
  }

  /** The summaries of the labels 0 .. hi - 1 that some node carries. */
  function SummariesUpTo(nodes: seq<DatasetNode>, hi: int): seq<ClusterSummary>
    decreases hi
  {
    if hi <= 0 then [] else SummariesUpTo(nodes, hi - 1) + SummaryOf(nodes, hi - 1)
  }

  /** One more label adds its summary when some node carries it. */
  lemma SummariesUpToStep(nodes: seq<DatasetNode>, c: nat)
    ensures Members(nodes, c) != [] ==>
      SummariesUpTo(nodes, c + 1) == SummariesUpTo(nodes, c) + [ClusterSummary(c, |Members(nodes, c)|, Ids(Members(nodes, c)))]
    ensures Members(nodes, c) == [] ==> SummariesUpTo(nodes, c + 1) == SummariesUpTo(nodes, c)
  {
    assert SummariesUpTo(nodes, c + 1) == SummariesUpTo(nodes, c) + SummaryOf(nodes, c);
  }

  /** The cluster loop: `max` of no labels raises `ValueError`. */
  function Summaries(nodes: seq<DatasetNode>, labels: seq<int>): Result<seq<ClusterSummary>> {
    if labels == [] then Raised(ValueError) else Ok(SummariesUpTo(nodes, MaxLabel(labels) + 1))
  }

  method BuildSummaries(nodes: seq<DatasetNode>, labels: seq<int>) returns (r: Result<seq<ClusterSummary>>)
    ensures r == Summaries(nodes, labels)
  {
    if labels == [] {
      return Raised(ValueError);
    }
    var bound := MaxLabel(labels) + 1;
    var clusters: seq<ClusterSummary> := [];
    var clusterId := 0;
    while clusterId < bound
      invariant 0 <= clusterId <= Max(bound, 0)
      invariant clusters == SummariesUpTo(nodes, clusterId)
    {
      var members := Members(nodes, clusterId);
      SummariesUpToStep(nodes, clusterId);
      if members != [] {
        clusters := clusters + [ClusterSummary(clusterId, |members|, Ids(members))];
      }
      clusterId := clusterId + 1;
    }
    return Ok(clusters);
  }

  /** Every summary is of a label in 0 .. hi - 1 that some node carries, with
      its size and its members' IDs in node order. */
  lemma {:induction false} SummariesSound(nodes: seq<DatasetNode>, hi: int)
    ensures forall s :: s in SummariesUpTo(nodes, hi) ==> 0 <= s.id < hi && Summarises(nodes, s)
    decreases hi
  {
    if hi > 0 {
      SummariesSound(nodes, hi - 1);
      var prev := SummariesUpTo(nodes, hi - 1);
      var members := Members(nodes, hi - 1);
      var last := SummaryOf(nodes, hi - 1);
      assert SummariesUpTo(nodes, hi) == prev + last;
      forall s: ClusterSummary | s in prev + last
        ensures 0 <= s.id < hi && Summarises(nodes, s)
      {
        if s !in prev {
          assert s == last[0];
        }
      }
    }
  }

  /** `s` is the summary of its label: some node carries the label, `s` counts
      them and lists their IDs in node order. */
  ghost predicate Summarises(nodes: seq<DatasetNode>, s: ClusterSummary) {
    && Members(nodes, s.id) != []
    && s.size == |Members(nodes, s.id)|
    && s.datasets == Ids(Members(nodes, s.id))
  }

  /** The summaries' labels lie in 0 .. hi - 1 and ascend strictly, so no
      label is summarised twice. */
  lemma {:induction false} SummariesAscend(nodes: seq<DatasetNode>, hi: int)
    ensures forall i :: 0 <= i < |SummariesUpTo(nodes, hi)| ==> 0 <= SummariesUpTo(nodes, hi)[i].id < hi
    ensures forall i, j :: 0 <= i < j < |SummariesUpTo(nodes, hi)| ==>
      SummariesUpTo(nodes, hi)[i].id < SummariesUpTo(nodes, hi)[j].id
    decreases hi
  {
    if hi > 0 {
      SummariesAscend(nodes, hi - 1);
      var prev, last := SummariesUpTo(nodes, hi - 1), SummaryOf(nodes, hi - 1);
      var all := prev + last;
      assert SummariesUpTo(nodes, hi) == all;
      assert forall j :: 0 <= j < |last| ==> last[j].id == hi - 1;
      forall i | 0 <= i < |all| ensures 0 <= all[i].id < hi {
        if i < |prev| {
          assert all[i] == prev[i];
        } else {
          assert all[i] == last[i - |prev|];
        }
      }
      forall i, j | 0 <= i < j < |all| ensures all[i].id < all[j].id {
        assert all[i] == prev[i];
        if j < |prev| {
          assert all[j] == prev[j];
        } else {
          assert all[j] == last[j - |prev|];
        }
      }
    }
  }

  /** Every label in 0 .. hi - 1 that some node carries is summarised. */
  lemma {:induction false} SummariesComplete(nodes: seq<DatasetNode>, hi: int)
    ensures forall c :: 0 <= c < hi && Members(nodes, c) != [] ==>
      exists s :: s in SummariesUpTo(nodes, hi) && s.id == c
    decreases hi
  {
    if hi > 0 {
      SummariesComplete(nodes, hi - 1);
      var prev := SummariesUpTo(nodes, hi - 1);
      var all := SummariesUpTo(nodes, hi);
      forall c | 0 <= c < hi && Members(nodes, c) != []
        ensures exists s :: s in all && s.id == c
      {
        if c == hi - 1 {
          assert all[|prev|].id == c;
        } else {
          var s :| s in prev && s.id == c;
          assert s in all;
        }
      }
    }
  }

  /** The number of nodes whose label lies in 0 .. hi - 1. */
  function CountBelow(nodes: seq<DatasetNode>, hi: int): nat {
    if nodes == [] then 0
    else
      CountBelow(nodes[..|nodes| - 1], hi) + (if 0 <= nodes[|nodes| - 1].cluster < hi then 1 else 0)
  }

  function SizeSum(clusters: seq<ClusterSummary>): nat {
    if clusters == [] then 0 else SizeSum(clusters[..|clusters| - 1]) + clusters[|clusters| - 1].size
  }

  lemma {:induction false} SizeSumAppend(a: seq<ClusterSummary>, b: seq<ClusterSummary>)
    ensures SizeSum(a + b) == SizeSum(a) + SizeSum(b)
    decreases |b|
  {
    if b == [] {
      assert a + b == a;
    } else {
      var n := |b| - 1;
      assert (a + b)[..|a + b| - 1] == a + b[..n];
      SizeSumAppend(a, b[..n]);
    }
  }

  lemma {:induction false} CountBelowStep(nodes: seq<DatasetNode>, hi: int)
    requires hi > 0
    ensures CountBelow(nodes, hi) == CountBelow(nodes, hi - 1) + |Members(nodes, hi - 1)|
  {
    if nodes != [] {
      CountBelowStep(nodes[..|nodes| - 1], hi);
    }
  }

  lemma {:induction false} CountBelowAll(nodes: seq<DatasetNode>, hi: int)
    requires forall i :: 0 <= i < |nodes| ==> 0 <= nodes[i].cluster < hi
    ensures CountBelow(nodes, hi) == |nodes|
  {
    if nodes != [] {
      var n := |nodes| - 1;
      assert forall i :: 0 <= i < n ==> nodes[..n][i] == nodes[i];
      CountBelowAll(nodes[..n], hi);
    }
  }

  /** The summaries' sizes add up to the number of nodes whose label is in 0 .. hi - 1. */
  lemma {:induction false} SummarySizes(nodes: seq<DatasetNode>, hi: int)
    ensures SizeSum(SummariesUpTo(nodes, hi)) == CountBelow(nodes, Max(hi, 0))
    decreases hi
  {
    if hi <= 0 {
      if nodes != [] {
        CountBelowZero(nodes);
      }
    } else {
      SummarySizes(nodes, hi - 1);
      var members := Members(nodes, hi - 1);
      var last := SummaryOf(nodes, hi - 1);
      SizeSumAppend(SummariesUpTo(nodes, hi - 1), last);
      assert SizeSum(last) == |members| by {
        if members != [] {
          assert last[..0] == [];
        }
      }
      CountBelowStep(nodes, hi);
    }
  }

  lemma {:induction false} CountBelowZero(nodes: seq<DatasetNode>)
    ensures CountBelow(nodes, 0) == 0
  {
    if nodes != [] {
      CountBelowZero(nodes[..|nodes| - 1]);
    }
  }

  /** With no negative label, every node is in exactly one summary: the sizes
      add up to the number of nodes. */
  lemma SummariesCoverNodes(nodes: seq<DatasetNode>, labels: seq<int>)
    requires labels != []
    requires forall i :: 0 <= i < |nodes| ==> 0 <= nodes[i].cluster && nodes[i].cluster in labels
    ensures Summaries(nodes, labels).Ok?
    ensures SizeSum(Summaries(nodes, labels).value) == |nodes|
  {
    var hi := MaxLabel(labels) + 1;
    SummarySizes(nodes, hi);
    forall i | 0 <= i < |nodes| ensures 0 <= nodes[i].cluster < hi {
      var j :| 0 <= j < |labels| && labels[j] == nodes[i].cluster;
    }
    CountBelowAll(nodes, hi);
  }

  // ---------------------------------------------------------------------
  // The whole graph
  // ---------------------------------------------------------------------

  function DatasetVertices(nodes: seq<DatasetNode>): (r: seq<Node>)
    ensures |r| == |nodes| && forall i :: 0 <= i < |nodes| ==> r[i] == Dataset(nodes[i])
  {
    seq(|nodes|, i requires 0 <= i < |nodes| => Dataset(nodes[i]))
  }

  function PmidVertices(nodes: seq<PmidNode>): (r: seq<Node>)
    ensures |r| == |nodes| && forall i :: 0 <= i < |nodes| ==> r[i] == Publication(nodes[i])
  {
    seq(|nodes|, i requires 0 <= i < |nodes| => Publication(nodes[i]))
  }

  /** The graph built from the dataset nodes once they exist. */
  function Assembled(nodes: seq<DatasetNode>, labels: seq<int>, pmids: Assoc<seq<string>>): Result<VisData> {
    match Summaries(nodes, labels)
    case Raised(e) => Raised(e)
    case Ok(clusters) =>
      Ok(VisData(DatasetVertices(nodes) + PmidVertices(PmidNodes(nodes, pmids)),
                 PmidLinks(pmids) + ClusterLinks(nodes, |nodes|), clusters))
  }

  /** `prepare_visualization_data`. */
  function Prepared(df: Frame, vectors: Matrix, labels: seq<int>, pmids: Assoc<seq<string>>): Result<VisData>
    requires WellFormed(df)
  {
    if Empty(df) || |vectors| == 0 then Ok(NoData)
    else
      match DatasetNodes(df, vectors, labels)
      case Raised(e) => Raised(e)
      case Ok(nodes) => Assembled(nodes, labels, pmids)
  }

  method PrepareVisualizationData(df: Frame, vectors: Matrix, labels: seq<int>, pmids: Assoc<seq<string>>)
    returns (r: Result<VisData>)
    requires WellFormed(df)
    ensures r == Prepared(df, vectors, labels, pmids)
  {
    if Empty(df) || |vectors| == 0 {
      return Ok(NoData);
    }
    var nodes := BuildDatasetNodes(df, vectors, labels);
    if nodes.Raised? {
      return Raised(nodes.error);
    }
    var pmidNodes := BuildPmidNodes(nodes.value, pmids);
    var allNodes := DatasetVertices(nodes.value) + PmidVertices(pmidNodes);
    var links := BuildLinks(nodes.value, pmids);
    var clusters := BuildSummaries(nodes.value, labels);
    if clusters.Raised? {
      return Raised(clusters.error);
    }
    return Ok(VisData(allNodes, links, clusters.value));
  }

  /** The outcome: the empty graph for an empty frame or no vectors; otherwise
      a `KeyError` for a missing node column, an `IndexError` for a short
      vector, a `ValueError` for no labels, in that order of precedence. */
  lemma PreparedOutcome(df: Frame, vectors: Matrix, labels: seq<int>, pmids: Assoc<seq<string>>)
    requires WellFormed(df)
    ensures Empty(df) || |vectors| == 0 ==> Prepared(df, vectors, labels, pmids) == Ok(NoData)
    ensures !Empty(df) && |vectors| > 0 && MissesColumn(df, vectors, labels) ==>
      Prepared(df, vectors, labels, pmids) == Raised(KeyError)
    ensures !Empty(df) && |vectors| > 0 && !MissesColumn(df, vectors, labels) && HasShortVector(df, vectors, labels) ==>
      Prepared(df, vectors, labels, pmids) == Raised(IndexError)
    ensures !Empty(df) && |vectors| > 0 && !MissesColumn(df, vectors, labels) && !HasShortVector(df, vectors, labels) ==>
      Prepared(df, vectors, labels, pmids) == if labels == [] then Raised(ValueError) else Ok(Prepared(df, vectors, labels, pmids).value)
  {
  }

  /** Some row is visited and a node column is missing. */
  predicate MissesColumn(df: Frame, vectors: Matrix, labels: seq<int>) {
    NodeCount(df, vectors, labels) > 0 && !HasNodeColumns(df)
  }

  /** Some visited row has a vector with fewer than two coordinates. */
  predicate HasShortVector(df: Frame, vectors: Matrix, labels: seq<int>) {
    exists i :: 0 <= i < NodeCount(df, vectors, labels) && |vectors[i]| < 2
  }

  /** On success beyond the guard: the nodes are the dataset nodes, one per
      visited row, followed by the PMID nodes; the links are one
      `pmid_to_dataset` link per listed GEO ID followed by the
      `same_cluster` links; and, when no label is negative, the cluster sizes add
      up to the number of dataset nodes. */
  lemma PreparedShape(df: Frame, vectors: Matrix, labels: seq<int>, pmids: Assoc<seq<string>>)
    requires WellFormed(df)
    requires !Empty(df) && |vectors| > 0
    requires Prepared(df, vectors, labels, pmids).Ok?
    ensures DatasetNodes(df, vectors, labels).Ok?
    ensures var g, nodes := Prepared(df, vectors, labels, pmids).value, DatasetNodes(df, vectors, labels).value;
      && |nodes| == NodeCount(df, vectors, labels)
      && g.nodes == DatasetVertices(nodes) + PmidVertices(PmidNodes(nodes, pmids))
      && g.links == PmidLinks(pmids) + ClusterLinks(nodes, |nodes|)
      && |g.links| == TotalIds(pmids) + |ClusterLinks(nodes, |nodes|)|
      && ((forall i :: 0 <= i < |labels| ==> labels[i] >= 0) ==> SizeSum(g.clusters) == |nodes|)
  {
    var nodes := DatasetNodes(df, vectors, labels).value;
    var g := Prepared(df, vectors, labels, pmids).value;
    assert Assembled(nodes, labels, pmids) == Ok(g);
    PmidLinksCount(pmids);
    if forall i :: 0 <= i < |labels| ==> labels[i] >= 0 {
      NodeLabels(df, vectors, labels);
      SummariesCoverNodes(nodes, labels);
    }
  }

  /** Each dataset node carries the label of its row, so one of the labels. */
  lemma NodeLabels(df: Frame, vectors: Matrix, labels: seq<int>)
    requires WellFormed(df)
    requires DatasetNodes(df, vectors, labels).Ok?
    ensures forall i :: 0 <= i < |DatasetNodes(df, vectors, labels).value| ==>
      DatasetNodes(df, vectors, labels).value[i].cluster == labels[i]
  {
  }
}
