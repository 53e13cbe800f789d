/**
 * The read and write paths of app/services/icd_service.py, over the same
 * database the client of app/database/neo4j_client.py writes.
 */
module IcdService {
  import opened Basics
  import opened Cypher
  import opened IcdModels
  import opened Neo4jClient
  import UpsertProperties

  // ---------------------------------------------------------------------
  // create_icd_code
  // ---------------------------------------------------------------------

  /** The query parameters a record with a subcategory turns into. */
  function ParamsOf(c: ICDCode): UpsertParams
    requires c.subcategory.Some?
  {
    UpsertParams(
      c.categoryName,
      CodeNode(c.fullCode, c.categoryCode, c.subcategory.value, c.shortDescription, c.longDescription))
  }

  /** The dumped record has exactly the keys the upsert reads. */
  lemma ModelDumpHasParamKeys(c: ICDCode)
    ensures ModelDump(c).Keys == set k | k in ParamKeys
  {
    forall k: RowKey
      ensures k in ModelDump(c) <==> k in ParamKeys
    {
      match k
      case CategoryName => assert ParamKeys[0] == k;
      case FullCode => assert ParamKeys[1] == k;
      case CategoryCode => assert ParamKeys[2] == k;
      case Subcategory => assert ParamKeys[3] == k;
      case ShortDescription => assert ParamKeys[4] == k;
      case LongDescription => assert ParamKeys[5] == k;
    }
  }

  /**
   * So the only way a dumped record can fail the upsert is a None
   * subcategory, which Neo4j refuses to MERGE on.
   */
  lemma ModelDumpFeedsUpsert(c: ICDCode)
    ensures ReadParams(ModelDump(c))
         == if c.subcategory.Some? then Ok(ParamsOf(c)) else Err(NullProperty(Subcategory))
  {
    var row := ModelDump(c);
    assert FirstMissing(row, ParamKeys) == None;
    if c.subcategory.None? {
      assert FirstNull(row, ParamKeys[3..]) == Some(Subcategory);
      assert FirstNull(row, ParamKeys) == FirstNull(row, ParamKeys[3..]);
    }
  }

  // ---------------------------------------------------------------------
  // search_by_description
  // ---------------------------------------------------------------------

  /** Python's `str.upper`, on ASCII letters. */
  function UpperChar(c: char): char
  {
    if 'a' <= c <= 'z' then (c as int - 32) as char else c
  }

  /** Every character of the query upper-cased, in place. */
  function Upper(s: string): (r: string)
    ensures |r| == |s|
    ensures forall i :: 0 <= i < |s| ==> r[i] == UpperChar(s[i])
  {
    if s == [] then [] else [UpperChar(s[0])] + Upper(s[1..])
  }

  const DefaultSearchLimit := 10

  datatype QueryError =
    | NegativeLimit   // Neo4j refuses a negative LIMIT
    | StoreFailure    // the database could not be reached or failed the query

  /** The WHERE clause: the pattern occurs in either description (not in the code or category code). */
  predicate SearchHit(n: CodeNode, pattern: string)
  {
    Contains(n.shortDesc, pattern) || Contains(n.longDesc, pattern)
  }

  /** Every node the search query can return for `query`. */
  function SearchMatches(g: Graph, query: string): set<CodeNode>
  {
    set n | n in g.codes && SearchHit(n, Upper(query))
  }

  /**
   * r is an answer the search query may give: distinct matching nodes, as
   * many as the limit allows, in no promised order.
   */
  predicate IsSearchResult(g: Graph, query: string, limit: int, r: seq<CodeNode>)
  {
    && 0 <= limit
    && Distinct(r)
    && |r| == (if |SearchMatches(g, query)| <= limit then |SearchMatches(g, query)| else limit)
    && (forall n :: n in r ==> n in SearchMatches(g, query))
    && (|SearchMatches(g, query)| <= limit ==> forall n :: n in SearchMatches(g, query) ==> n in r)
  }

  /** The empty query is contained in every description, so it matches every node. */
  lemma SearchEmptyQueryMatchesAll(g: Graph)
    ensures SearchMatches(g, "") == g.codes
  {
    forall n | n in g.codes ensures SearchHit(n, Upper("")) {
      ContainsEmpty(n.shortDesc);
    }
  }

  /** The category code is never searched: a node matches on its descriptions alone. */
  lemma SearchIgnoresCodes(g: Graph, query: string, n: CodeNode, code: string, categoryCode: string)
    requires n in g.codes && n.(code := code, categoryCode := categoryCode) in g.codes
    ensures n in SearchMatches(g, query) <==> n.(code := code, categoryCode := categoryCode) in SearchMatches(g, query)
  {
  }

  // ---------------------------------------------------------------------
  // get_category_codes
  // ---------------------------------------------------------------------

  /** The (code, Category) pairs the category query matches: one row per BELONGS_TO edge. */
  function CategoryRows(g: Graph, categoryCode: string): set<(CodeNode, string)>
  {
    set e | e in g.belongsTo && e.0 in g.codes && e.1 in g.categories && e.0.categoryCode == categoryCode
  }

  /** The rows that return node n. */
  function RowsOf(rows: set<(CodeNode, string)>, n: CodeNode): set<(CodeNode, string)>
  {
    set e | e in rows && e.0 == n
  }

  /** Ascending by code, as `ORDER BY code.code` leaves the rows. */
  predicate SortedByCode(r: seq<CodeNode>)
  {
    forall i, j :: 0 <= i < j < |r| ==> LessEq(r[i].code, r[j].code)
  }

  /** Putting x at position k keeps the list sorted when k separates the codes not above x from those not below it. */
  lemma InsertAtKeepsSorted(r: seq<CodeNode>, k: int, x: CodeNode)
    requires SortedByCode(r) && 0 <= k <= |r|
    requires forall i :: 0 <= i < k ==> LessEq(r[i].code, x.code)
    requires forall j :: k <= j < |r| ==> LessEq(x.code, r[j].code)
    ensures SortedByCode(r[..k] + [x] + r[k..])
  {
    var s := r[..k] + [x] + r[k..];
    forall i, j | 0 <= i < j < |s| ensures LessEq(s[i].code, s[j].code) {
      if j < k {
        assert s[i] == r[i] && s[j] == r[j];
      } else if j == k {
        assert s[i] == r[i];
      } else if i < k {
        assert s[i] == r[i] && s[j] == r[j - 1];
      } else if i == k {
        assert s[j] == r[j - 1];
      } else {
        assert s[i] == r[i - 1] && s[j] == r[j - 1];
      }
    }
  }

  /** Puts x into a sorted list after every code not above its own. */
  method InsertByCode(r: seq<CodeNode>, x: CodeNode) returns (s: seq<CodeNode>)
    requires SortedByCode(r)
    ensures SortedByCode(s)
    ensures multiset(s) == multiset(r) + multiset{x}
  {
    var k := 0;
    while k < |r| && LessEq(r[k].code, x.code)
      invariant 0 <= k <= |r|
      invariant forall i :: 0 <= i < k ==> LessEq(r[i].code, x.code)
    {
      k := k + 1;
    }
    forall j | k <= j < |r| ensures LessEq(x.code, r[j].code) {
      LessEqTotal(r[k].code, x.code);
      if j > k {
        LessEqTransitive(x.code, r[k].code, r[j].code);
      }
    }
    InsertAtKeepsSorted(r, k, x);
    s := r[..k] + [x] + r[k..];
    assert r == r[..k] + r[k..];
  }

  /** Adding one row to the rows seen adds one to the count of its node and leaves the others. */
  lemma RowsOfAdd(done: set<(CodeNode, string)>, e: (CodeNode, string), n: CodeNode)
    requires e !in done
    ensures |RowsOf(done + {e}, n)| == |RowsOf(done, n)| + (if n == e.0 then 1 else 0)
  {
    if n == e.0 {
      assert RowsOf(done + {e}, n) == RowsOf(done, n) + {e};
    } else {
      assert RowsOf(done + {e}, n) == RowsOf(done, n);
    }
  }

  /** Every answer of the category query is in the category and comes from a row. */
  lemma CategoryRowsAreInCategory(g: Graph, categoryCode: string, n: CodeNode)
    requires RowsOf(CategoryRows(g, categoryCode), n) != {}
    ensures n.categoryCode == categoryCode && n in g.codes
  {
    var e :| e in RowsOf(CategoryRows(g, categoryCode), n);
  }

  /**
   * A database built only by upserts has no BELONGS_TO edge, so the category
   * query finds nothing in it, whatever the category code.
   */
  lemma CategoryRowsEmptyAfterUpserts(ps: seq<UpsertParams>, categoryCode: string)
    ensures CategoryRows(UpsertAll(EmptyGraph, ps), categoryCode) == {}
  {
    UpsertProperties.UpsertAllKeepsBelongsTo(EmptyGraph, ps);
  }

  // ---------------------------------------------------------------------
  // get_code_details
  // ---------------------------------------------------------------------

  /** A node's properties, with the category name added when there is one. */
  datatype CodeDetails = CodeDetails(node: CodeNode, categoryName: Option<string>)

  predicate HasCategory(g: Graph, n: CodeNode)
  {
    exists c :: c in g.categories && (n, c) in g.belongsTo
  }

  /**
   * The rows of the details query: one per BELONGS_TO edge out of a matched
   * node, and one with no category for a matched node without such an edge.
   */
  function DetailRows(g: Graph, code: string): set<CodeDetails>
  {
    (set e | e in g.belongsTo && e.0 in g.codes && e.1 in g.categories && e.0.code == code :: CodeDetails(e.0, Some(e.1)))
    + (set n | n in g.codes && n.code == code && !HasCategory(g, n) :: CodeDetails(n, None))
  }

  /** The details query answers exactly when some node carries the code. */
  lemma DetailRowsEmptyIff(g: Graph, code: string)
    ensures DetailRows(g, code) == {} <==> !HasCode(g, code)
  {
    if HasCode(g, code) {
      var n :| n in g.codes && n.code == code;
      if HasCategory(g, n) {
        var c :| c in g.categories && (n, c) in g.belongsTo;
        assert CodeDetails(n, Some(c)) in DetailRows(g, code);
      } else {
        assert CodeDetails(n, None) in DetailRows(g, code);
      }
    }
  }

  /** A details row is a matched node; its category name is present exactly when a BELONGS_TO Category exists. */
  lemma DetailRowShape(g: Graph, code: string, d: CodeDetails)
    requires d in DetailRows(g, code)
    ensures d.node in g.codes && d.node.code == code
    ensures d.categoryName.Some? ==> d.categoryName.value in g.categories && (d.node, d.categoryName.value) in g.belongsTo
    ensures d.categoryName.None? <==> !HasCategory(g, d.node)
  {
  }

  /** On a database built only by upserts no details carry a category name. */
  lemma DetailsWithoutCategoryAfterUpserts(ps: seq<UpsertParams>, code: string, d: CodeDetails)
    requires d in DetailRows(UpsertAll(EmptyGraph, ps), code)
    ensures d.categoryName.None?
  {
    UpsertProperties.UpsertAllKeepsBelongsTo(EmptyGraph, ps);
  }

  // ---------------------------------------------------------------------
  // get_disease_info
  // ---------------------------------------------------------------------

  /** A response built from a lookup record: the parent codes, then the child codes. */
  predicate Answers(resp: ICDResponse, rec: DiseaseRecord)
  {
    && resp.description == rec.description
    && resp.category == rec.category
    && exists k :: 0 <= k <= |resp.relatedConditions|
         && Enumerates(resp.relatedConditions[..k], rec.parentCodes)
         && Enumerates(resp.relatedConditions[k..], rec.childCodes)
  }

  // ---------------------------------------------------------------------
  // The service object
  // ---------------------------------------------------------------------

  class ICDService {
    const dbClient: Neo4jICD

    constructor (neo4jClient: Neo4jICD)
      ensures dbClient == neo4jClient
    {
      dbClient := neo4jClient;
    }

    /** `create_icd_code`: one upsert of the record's fields. */
    method CreateIcdCode(icdCode: ICDCode) returns (outcome: Outcome<UpsertError>)
      requires dbClient.Valid()
      modifies dbClient
      ensures dbClient.Valid()
      ensures outcome.Pass? <==> icdCode.subcategory.Some?
      ensures icdCode.subcategory.Some? ==> dbClient.Value() == Upsert(old(dbClient.Value()), ParamsOf(icdCode))
      ensures icdCode.subcategory.None? ==> dbClient.Value() == old(dbClient.Value())
    {
      ModelDumpFeedsUpsert(icdCode);
      outcome := dbClient.CreateIcdRelationships(ModelDump(icdCode));
    }

    /** `get_disease_info`: None for an unknown code, otherwise the lookup record as a response. */
    method GetDiseaseInfo(code: string) returns (r: Option<ICDResponse>)
      ensures r.None? <==> !HasCode(dbClient.Value(), code)
      ensures r.Some? ==> r.value.code == code
      ensures r.Some? ==> exists rec :: rec in DiseaseRecords(dbClient.Value(), code) && Answers(r.value, rec)
    {
      var result := dbClient.GetDiseaseInfo(code);
      if result.None? {
        return None;
      }
      var info := result.value;
      var related := info.parentCodes + info.childCodes;
      r := Some(ICDResponse(code, info.description, info.category, related));
      ghost var rec :| rec in DiseaseRecords(dbClient.Value(), code) && Presents(info, rec);
      assert related[..|info.parentCodes|] == info.parentCodes;
      assert related[|info.parentCodes|..] == info.childCodes;
      assert Answers(r.value, rec);
    }

    /** `search_by_description`: nodes whose descriptions contain the upper-cased query. */
    method SearchByDescription(query: string, limit: int) returns (r: Result<seq<CodeNode>, QueryError>)
      ensures r.Err? <==> limit < 0
      ensures r.Err? ==> r.error == NegativeLimit
      ensures r.Ok? ==> IsSearchResult(dbClient.Value(), query, limit, r.value)
    {
      if limit < 0 {
        return Err(NegativeLimit);
      }
      var rows := Enumerate(SearchMatches(dbClient.Value(), query), limit);
      r := Ok(rows);
    }

    /** `get_category_codes`: the nodes reached through BELONGS_TO with that exact category code, by code. */
    method GetCategoryCodes(categoryCode: string) returns (r: seq<CodeNode>)
      ensures forall i :: 0 <= i < |r| ==> r[i].categoryCode == categoryCode
      ensures SortedByCode(r)
      ensures forall n :: multiset(r)[n] == |RowsOf(CategoryRows(dbClient.Value(), categoryCode), n)|
    {
      var rows := CategoryRows(dbClient.Value(), categoryCode);
      var rest := rows;
      r := [];
      while rest != {}
        invariant rest <= rows
        invariant SortedByCode(r)
        invariant forall n :: n in r ==> n.categoryCode == categoryCode
        invariant forall n :: multiset(r)[n] == |RowsOf(rows - rest, n)|
        decreases |rest|
      {
        var e :| e in rest;
        ghost var done := rows - rest;
        r := InsertByCode(r, e.0);
        rest := rest - {e};
        assert rows - rest == done + {e};
        forall n ensures multiset(r)[n] == |RowsOf(rows - rest, n)| {
          RowsOfAdd(done, e, n);
        }
        forall n | n in r ensures n.categoryCode == categoryCode {
          assert n in multiset(r);
        }
      }
      assert rows - rest == rows;
    }

    /** `get_code_details`: None for an unknown code, otherwise one row of the details query. */
    method GetCodeDetails(code: string) returns (r: Option<CodeDetails>)
      ensures r.None? <==> !HasCode(dbClient.Value(), code)
      ensures r.Some? ==> r.value in DetailRows(dbClient.Value(), code)
    {
      var rows := DetailRows(dbClient.Value(), code);
      DetailRowsEmptyIff(dbClient.Value(), code);
      if rows == {} {
        return None;
      }
      var d :| d in rows;
      r := Some(d);
    }
  }
}
