/**
 * What the upsert query of app/database/neo4j_client.py does to the graph,
 * stated over the pure step `Upsert` that the client method is proved to
 * perform.
 */
module UpsertProperties {
  import opened Neo4jClient

  /** Running the same upsert twice is the same as running it once (MERGE). */
  lemma UpsertIdempotent(g: Graph, p: UpsertParams)
    ensures Upsert(Upsert(g, p), p) == Upsert(g, p)
  {
    var once := Upsert(g, p);
    assert once.codes + {p.node} == once.codes;
    assert Links(ParentsOf(once.codes, p.node.categoryCode), p.node) <= once.hasSubcategory;
  }

  /** After an upsert the Category, the node and the CONTAINS edge between them exist. */
  lemma UpsertEstablishes(g: Graph, p: UpsertParams)
    ensures p.categoryName in Upsert(g, p).categories
    ensures p.node in Upsert(g, p).codes
    ensures (p.categoryName, p.node) in Upsert(g, p).contains
  {
  }

  /** Upsert only adds: everything present before is present after, and BELONGS_TO is never written. */
  lemma UpsertOnlyAdds(g: Graph, p: UpsertParams)
    ensures g.categories <= Upsert(g, p).categories
    ensures g.codes <= Upsert(g, p).codes
    ensures g.contains <= Upsert(g, p).contains
    ensures g.hasSubcategory <= Upsert(g, p).hasSubcategory
    ensures Upsert(g, p).belongsTo == g.belongsTo
  {
  }

  /** Upsert adds nothing beyond the row's category, node, CONTAINS edge and edges into the node. */
  lemma UpsertAddsOnlyTheRow(g: Graph, p: UpsertParams)
    ensures Upsert(g, p).categories - g.categories <= {p.categoryName}
    ensures Upsert(g, p).codes - g.codes <= {p.node}
    ensures Upsert(g, p).contains - g.contains <= {(p.categoryName, p.node)}
    ensures forall e :: e in Upsert(g, p).hasSubcategory - g.hasSubcategory ==> e.1 == p.node
  {
  }

  /**
   * A HAS_SUBCATEGORY edge into the new node comes from exactly the nodes
   * (the new one included) whose code is the row's category code.
   */
  lemma UpsertParentEdges(g: Graph, p: UpsertParams, q: CodeNode)
    ensures (q, p.node) in Upsert(g, p).hasSubcategory
        <==> (q, p.node) in g.hasSubcategory || (q in g.codes + {p.node} && q.code == p.node.categoryCode)
  {
    if q in g.codes + {p.node} && q.code == p.node.categoryCode {
      assert q in ParentsOf(g.codes + {p.node}, p.node.categoryCode);
    }
  }

  /** With no node carrying the category code yet, the hierarchy step adds nothing. */
  lemma UpsertWithoutParentAddsNoEdge(g: Graph, p: UpsertParams)
    requires !HasCode(g, p.node.categoryCode)
    requires p.node.code != p.node.categoryCode
    ensures Upsert(g, p).hasSubcategory == g.hasSubcategory
  {
    assert ParentsOf(g.codes + {p.node}, p.node.categoryCode) == {};
  }

  /**
   * Linking only looks upward from the row being written: the parents of
   * every other node are what they were, so a parent written after its child
   * never gets the edge to it.
   */
  lemma UpsertKeepsOtherParents(g: Graph, p: UpsertParams, c: CodeNode)
    requires c != p.node
    ensures Parents(Upsert(g, p), c) == Parents(g, c)
  {
  }

  /** A row whose full code is its own category code gets a self-edge. */
  lemma UpsertSelfEdge(g: Graph, p: UpsertParams)
    requires p.node.code == p.node.categoryCode
    ensures (p.node, p.node) in Upsert(g, p).hasSubcategory
  {
    assert p.node in ParentsOf(g.codes + {p.node}, p.node.categoryCode);
  }

  /** The nodes carrying a code. */
  function NodesWithCode(g: Graph, code: string): set<CodeNode>
  {
    set n | n in g.codes && n.code == code
  }

  /**
   * Re-upserting a code with any other property changed adds a second node
   * beside the stored one; nothing is overwritten.
   */
  lemma UpsertChangedRowAddsNode(g: Graph, p: UpsertParams, n: CodeNode)
    requires n in g.codes && n.code == p.node.code && n != p.node
    ensures n in Upsert(g, p).codes && p.node in Upsert(g, p).codes
    ensures |NodesWithCode(Upsert(g, p), n.code)| >= 2
  {
    var both := {n, p.node};
    assert both <= NodesWithCode(Upsert(g, p), n.code);
    assert |both| == 2;
    SubsetCard(both, NodesWithCode(Upsert(g, p), n.code));
  }

  lemma {:induction false} SubsetCard<T>(a: set<T>, b: set<T>)
    requires a <= b
    ensures |a| <= |b|
    decreases |a|
  {
    if a != {} {
      var x :| x in a;
      SubsetCard(a - {x}, b - {x});
    }
  }

  /** No sequence of upserts writes BELONGS_TO. */
  lemma {:induction false} UpsertAllKeepsBelongsTo(g: Graph, ps: seq<UpsertParams>)
    ensures UpsertAll(g, ps).belongsTo == g.belongsTo
    decreases |ps|
  {
    if ps != [] {
      UpsertAllKeepsBelongsTo(g, ps[..|ps| - 1]);
    }
  }

  /** A database built by upserts keeps every relationship between existing nodes. */
  lemma {:induction false} UpsertAllWellFormed(g: Graph, ps: seq<UpsertParams>)
    requires WellFormed(g)
    ensures WellFormed(UpsertAll(g, ps))
    decreases |ps|
  {
    if ps != [] {
      UpsertAllWellFormed(g, ps[..|ps| - 1]);
      UpsertWellFormed(UpsertAll(g, ps[..|ps| - 1]), ps[|ps| - 1]);
    }
  }

  /**
   * For a code carried by a single node, the lookup answers with that node's
   * long description and category code and the codes exactly one hop above
   * and below it.
   */
  lemma LookupOfUniqueCode(g: Graph, n: CodeNode)
    requires WellFormed(g)
    requires n in g.codes
    requires forall m :: m in g.codes && m.code == n.code ==> m == n
    ensures DiseaseRecords(g, n.code)
         == {DiseaseRecord(n.longDesc, n.categoryCode, CodesOf(Parents(g, n)), CodesOf(Children(g, n)))}
  {
    var ps := GroupParents(g, n.code, n.longDesc, n.categoryCode);
    var cs := GroupChildren(g, n.code, n.longDesc, n.categoryCode);
    forall x | x in ps ensures x in CodesOf(Parents(g, n)) {
      var e :| e in g.hasSubcategory && e.0 in g.codes && e.1 in g.codes
        && InGroup(e.1, n.code, n.longDesc, n.categoryCode) && e.0.code == x;
      assert e.0 in Parents(g, n);
    }
    forall x | x in CodesOf(Parents(g, n)) ensures x in ps {
      var m :| m in Parents(g, n) && m.code == x;
      var e :| e in g.hasSubcategory && e.1 == n && e.0 == m;
    }
    forall x | x in cs ensures x in CodesOf(Children(g, n)) {
      var e :| e in g.hasSubcategory && e.0 in g.codes && e.1 in g.codes
        && InGroup(e.0, n.code, n.longDesc, n.categoryCode) && e.1.code == x;
      assert e.1 in Children(g, n);
    }
    forall x | x in CodesOf(Children(g, n)) ensures x in cs {
      var m :| m in Children(g, n) && m.code == x;
      var e :| e in g.hasSubcategory && e.0 == n && e.1 == m;
    }
    assert ps == CodesOf(Parents(g, n));
    assert cs == CodesOf(Children(g, n));
  }

  /**
   * Ingestion order decides the hierarchy: "A001" under category code "A00"
   * gets "A00" as its parent when "A00" was written first, and no parent at
   * all when it was written second.
   */
  lemma HierarchyDependsOnOrder(parent: UpsertParams, child: UpsertParams)
    requires parent.node.code == "A00" && parent.node.categoryCode == "A00"
    requires child.node.code == "A001" && child.node.categoryCode == "A00"
    ensures Parents(Upsert(Upsert(EmptyGraph, parent), child), child.node) == {parent.node}
    ensures Parents(Upsert(Upsert(EmptyGraph, child), parent), child.node) == {}
  {
    var first := Upsert(EmptyGraph, parent);
    assert first.hasSubcategory == {(parent.node, parent.node)} by {
      assert ParentsOf(first.codes, "A00") == {parent.node};
    }
    assert ParentsOf(first.codes + {child.node}, "A00") == {parent.node};
    var reversed := Upsert(EmptyGraph, child);
    UpsertWithoutParentAddsNoEdge(EmptyGraph, child);
    UpsertKeepsOtherParents(reversed, parent, child.node);
  }
}
