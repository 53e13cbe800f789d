/**
 * The Neo4j graph behind app/database/neo4j_client.py, made explicit.
 *
 * The database holds Category nodes (keyed by name), ICDCode nodes and three
 * kinds of relationship. The upsert query MERGEs an ICDCode node on all five
 * of its properties, so a node's identity is the whole record: two rows with
 * the same code but different descriptions give two nodes.
 */
module Neo4jClient {
  import opened Basics
  import opened Cypher
  import opened IcdModels

  /** An ICDCode node, identified by all five properties. */
  datatype CodeNode = CodeNode(
    code: string,
    categoryCode: string,
    subcategory: string,
    shortDesc: string,
    longDesc: string)

  /** The parameters the upsert query receives once they are read from a row. */
  datatype UpsertParams = UpsertParams(categoryName: string, node: CodeNode)

  datatype UpsertError =
    | KeyError(key: RowKey)      // the row has no such key: Python raises before the query runs
    | NullProperty(key: RowKey)  // the value is None: Neo4j refuses to MERGE on a null property

  /**
   * The whole database: Category names, ICDCode nodes, and the
   * CONTAINS (Category to code), HAS_SUBCATEGORY (code to code) and
   * BELONGS_TO (code to Category) relationships.
   */
  datatype Graph = Graph(
    categories: set<string>,
    codes: set<CodeNode>,
    contains: set<(string, CodeNode)>,
    hasSubcategory: set<(CodeNode, CodeNode)>,
    belongsTo: set<(CodeNode, string)>)

  const EmptyGraph := Graph({}, {}, {}, {}, {})

  /** Every relationship joins two nodes that are in the database. */
  predicate WellFormed(g: Graph)
  {
    && (forall e :: e in g.contains ==> e.0 in g.categories && e.1 in g.codes)
    && (forall e :: e in g.hasSubcategory ==> e.0 in g.codes && e.1 in g.codes)
    && (forall e :: e in g.belongsTo ==> e.0 in g.codes && e.1 in g.categories)
  }

  /** Some ICDCode node carries this code. */
  predicate HasCode(g: Graph, code: string)
  {
    exists n :: n in g.codes && n.code == code
  }

  // ---------------------------------------------------------------------
  // create_icd_relationships
  // ---------------------------------------------------------------------

  /** The row keys the upsert reads, in the order Python evaluates them. */
  const ParamKeys: seq<RowKey> :=
    [CategoryName, FullCode, CategoryCode, Subcategory, ShortDescription, LongDescription]

  /** The first of `keys` that the row lacks. */
  function FirstMissing(row: Row, keys: seq<RowKey>): (r: Option<RowKey>)
    ensures r.None? <==> forall k :: k in keys ==> k in row
    ensures r.Some? ==> r.value in keys && r.value !in row
  {
    if keys == [] then None
    else if keys[0] !in row then Some(keys[0])
    else FirstMissing(row, keys[1..])
  }

  /** The first of `keys` whose value is None. */
  function FirstNull(row: Row, keys: seq<RowKey>): (r: Option<RowKey>)
    requires forall k :: k in keys ==> k in row
    ensures r.None? <==> forall k :: k in keys ==> row[k].Some?
    ensures r.Some? ==> r.value in keys && row[r.value].None?
  {
    if keys == [] then None
    else if row[keys[0]].None? then Some(keys[0])
    else FirstNull(row, keys[1..])
  }

  /**
   * Reading the six query parameters out of a row: a missing key raises
   * before anything is sent, a None value makes the MERGE fail.
   */
  function ReadParams(row: Row): (r: Result<UpsertParams, UpsertError>)
    ensures r.Ok? <==> forall k :: k in ParamKeys ==> k in row && row[k].Some?
    ensures r.Err? && r.error.KeyError? ==> r.error.key in ParamKeys && r.error.key !in row
    ensures r.Err? && r.error.NullProperty? ==> r.error.key in row && row[r.error.key].None?
  {
    match FirstMissing(row, ParamKeys)
    case Some(k) => Err(KeyError(k))
    case None =>
      match FirstNull(row, ParamKeys)
      case Some(k) => Err(NullProperty(k))
      case None =>
        Ok(UpsertParams(
          row[CategoryName].value,
          CodeNode(
            row[FullCode].value,
            row[CategoryCode].value,
            row[Subcategory].value,
            row[ShortDescription].value,
            row[LongDescription].value)))
  }

  /** The nodes the hierarchy MATCH finds: those whose code is the category code. */
  function ParentsOf(codes: set<CodeNode>, categoryCode: string): set<CodeNode>
  {
    set p | p in codes && p.code == categoryCode
  }

  /** HAS_SUBCATEGORY edges from each of `parents` to `child`. */
  function Links(parents: set<CodeNode>, child: CodeNode): set<(CodeNode, CodeNode)>
  {
    set q | q in parents :: (q, child)
  }

  /** Moving one parent from the pending set to the linked set adds exactly its edge. */
  lemma LinksStep(all: set<CodeNode>, pending: set<CodeNode>, q: CodeNode, child: CodeNode)
    requires q in pending && pending <= all
    ensures Links(all - (pending - {q}), child) == Links(all - pending, child) + {(q, child)}
  {
    assert all - (pending - {q}) == (all - pending) + {q};
  }

  /**
   * The upsert query as one step on the graph: MERGE the Category, MERGE the
   * node, MERGE the CONTAINS edge, then MERGE a HAS_SUBCATEGORY edge from every
   * node (the new one included) whose code is the row's category code.
   */
  function Upsert(g: Graph, p: UpsertParams): Graph
  {
    var codes := g.codes + {p.node};
    Graph(
      g.categories + {p.categoryName},
      codes,
      g.contains + {(p.categoryName, p.node)},
      g.hasSubcategory + Links(ParentsOf(codes, p.node.categoryCode), p.node),
      g.belongsTo)
  }

  /** The effect of a whole call: a failed query leaves the graph as it was. */
  function ApplyRow(g: Graph, row: Row): Graph
  {
    match ReadParams(row)
    case Ok(p) => Upsert(g, p)
    case Err(_) => g
  }

  /** Upsert keeps every relationship between nodes that exist. */
  lemma UpsertWellFormed(g: Graph, p: UpsertParams)
    requires WellFormed(g)
    ensures WellFormed(Upsert(g, p))
  {
  }

  /** Upserts applied one after another, in order. */
  function UpsertAll(g: Graph, ps: seq<UpsertParams>): Graph
    decreases |ps|
  {
    if ps == [] then g else Upsert(UpsertAll(g, ps[..|ps| - 1]), ps[|ps| - 1])
  }

  // ---------------------------------------------------------------------
  // get_disease_info
  // ---------------------------------------------------------------------

  /**
   * One record of the lookup query. The aggregation groups the matched nodes
   * by (long_desc, category_code); each group collects the distinct codes one
   * HAS_SUBCATEGORY hop in and one hop out.
   */
  datatype DiseaseRecord = DiseaseRecord(
    description: string,
    category: string,
    parentCodes: set<string>,
    childCodes: set<string>)

  /** The lookup query's answer as the driver returns it: the lists in some order. */
  datatype DiseaseInfo = DiseaseInfo(
    description: string,
    category: string,
    parentCodes: seq<string>,
    childCodes: seq<string>)

  /** A node matched by `{code: code}` that falls into the group (longDesc, category). */
  predicate InGroup(n: CodeNode, code: string, longDesc: string, category: string)
  {
    n.code == code && n.longDesc == longDesc && n.categoryCode == category
  }

  function GroupParents(g: Graph, code: string, longDesc: string, category: string): set<string>
  {
    set e | e in g.hasSubcategory && e.0 in g.codes && e.1 in g.codes && InGroup(e.1, code, longDesc, category) :: e.0.code
  }

  function GroupChildren(g: Graph, code: string, longDesc: string, category: string): set<string>
  {
    set e | e in g.hasSubcategory && e.0 in g.codes && e.1 in g.codes && InGroup(e.0, code, longDesc, category) :: e.1.code
  }

  /** All records the lookup query produces for a code. */
  function DiseaseRecords(g: Graph, code: string): set<DiseaseRecord>
  {
    set n | n in g.codes && n.code == code ::
      DiseaseRecord(
        n.longDesc,
        n.categoryCode,
        GroupParents(g, code, n.longDesc, n.categoryCode),
        GroupChildren(g, code, n.longDesc, n.categoryCode))
  }

  /** The driver's record matches a query record, lists in any order. */
  predicate Presents(info: DiseaseInfo, rec: DiseaseRecord)
  {
    && info.description == rec.description
    && info.category == rec.category
    && Enumerates(info.parentCodes, rec.parentCodes)
    && Enumerates(info.childCodes, rec.childCodes)
  }

  /** The nodes one HAS_SUBCATEGORY hop above n. */
  function Parents(g: Graph, n: CodeNode): set<CodeNode>
  {
    set e | e in g.hasSubcategory && e.1 == n :: e.0
  }

  /** The nodes one HAS_SUBCATEGORY hop below n. */
  function Children(g: Graph, n: CodeNode): set<CodeNode>
  {
    set e | e in g.hasSubcategory && e.0 == n :: e.1
  }

  function CodesOf(ns: set<CodeNode>): set<string>
  {
    set m | m in ns :: m.code
  }

  /** The query returns a record exactly when some node carries the code. */
  lemma DiseaseRecordsEmptyIff(g: Graph, code: string)
    ensures DiseaseRecords(g, code) == {} <==> !HasCode(g, code)
  {
    if HasCode(g, code) {
      var n :| n in g.codes && n.code == code;
      var rec := DiseaseRecord(
        n.longDesc,
        n.categoryCode,
        GroupParents(g, code, n.longDesc, n.categoryCode),
        GroupChildren(g, code, n.longDesc, n.categoryCode));
      assert rec in DiseaseRecords(g, code);
    }
  }

  // ---------------------------------------------------------------------
  // The client object
  // ---------------------------------------------------------------------

  /**
   * The client together with the database it talks to. The driver and its
   * sessions are not modelled; the fields are the database's contents.
   */
  class Neo4jICD {
    var categories: set<string>
    var codes: set<CodeNode>
    var contains: set<(string, CodeNode)>
    var hasSubcategory: set<(CodeNode, CodeNode)>
    var belongsTo: set<(CodeNode, string)>

    /** The database's contents as a value. */
    function Value(): Graph
      reads this
    {
      Graph(categories, codes, contains, hasSubcategory, belongsTo)
    }

    /** Neo4j never holds a relationship whose end node is missing. */
    predicate Valid()
      reads this
    {
      WellFormed(Value())
    }

    /** A client on an empty database. */
    constructor ()
      ensures Valid() && Value() == EmptyGraph
    {
      categories, codes, contains, hasSubcategory, belongsTo := {}, {}, {}, {}, {};
    }

    /** `create_icd_relationships`: run the upsert query for one row. */
    method CreateIcdRelationships(row: Row) returns (outcome: Outcome<UpsertError>)
      requires Valid()
      modifies this
      ensures Valid()
      ensures outcome.Pass? <==> ReadParams(row).Ok?
      ensures outcome.Fail? ==> outcome.error == ReadParams(row).error
      ensures Value() == ApplyRow(old(Value()), row)
    {
      var params := ReadParams(row);
      if params.Err? {
        return Fail(params.error);
      }
      var p := params.value;
      ghost var start := Value();
      categories := categories + {p.categoryName};
      codes := codes + {p.node};
      contains := contains + {(p.categoryName, p.node)};
      // The hierarchy MATCH runs after the node exists, so it can find the node itself.
      LinkParents(ParentsOf(codes, p.node.categoryCode), p.node);
      UpsertWellFormed(start, p);
      outcome := Pass;
    }

    /** The hierarchy MERGE: one HAS_SUBCATEGORY edge from each of `parents` to `child`, one at a time. */
    method LinkParents(parents: set<CodeNode>, child: CodeNode)
      modifies this
      ensures Value() == old(Value()).(hasSubcategory := old(hasSubcategory) + Links(parents, child))
    {
      var pending := parents;
      while pending != {}
        invariant pending <= parents
        invariant Value() == old(Value()).(hasSubcategory := old(hasSubcategory) + Links(parents - pending, child))
        decreases |pending|
      {
        var q :| q in pending;
        LinksStep(parents, pending, q, child);
        hasSubcategory := hasSubcategory + {(q, child)};
        pending := pending - {q};
      }
      assert parents - pending == parents;
    }

    /**
     * `get_disease_info`: the one-hop lookup. When several groups answer,
     * `single()` returns the first, in an order Neo4j does not promise.
     */
    method GetDiseaseInfo(icdCode: string) returns (r: Option<DiseaseInfo>)
      ensures r.None? <==> !HasCode(Value(), icdCode)
      ensures r.Some? ==> exists rec :: rec in DiseaseRecords(Value(), icdCode) && Presents(r.value, rec)
    {
      var records := DiseaseRecords(Value(), icdCode);
      DiseaseRecordsEmptyIff(Value(), icdCode);
      if records == {} {
        return None;
      }
      var rec :| rec in records;
      var parents := Enumerate(rec.parentCodes, |rec.parentCodes|);
      var children := Enumerate(rec.childCodes, |rec.childCodes|);
      r := Some(DiseaseInfo(rec.description, rec.category, parents, children));
      assert Presents(r.value, rec);
    }
  }
}
