# ICD-10 code graph: a Dafny model

This project models the core of a small ICD-10 coding service. The service keeps
diagnosis codes in a Neo4j graph and answers four kinds of request:

- a lookup of a code with its one-hop parents and children;
- a free-text search over descriptions;
- a listing by category;
- an assistant that grounds a generated explanation in the search results.

The Cypher queries become explicit operations on an explicit graph state. The
Python around them becomes Dafny methods and functions.

- `Neo4jClient` (`neo4j_client.dfy`) holds the database as a value, `Graph`.
  A `Graph` has Category names, ICDCode nodes, and CONTAINS, HAS_SUBCATEGORY and
  BELONGS_TO edges. The upsert query is the pure step `Upsert`. The class
  `Neo4jICD` holds the same five sets as fields. Its method
  `CreateIcdRelationships` applies the query step by step: the Category, the
  node, the CONTAINS edge, then one HAS_SUBCATEGORY edge per parent found. The
  method is proved to compute `Upsert`. A row dict is a
  `map<RowKey, Option<string>>`, where `RowKey` names the six keys the code
  reads and `KeyName` gives each one's Python spelling. A missing key (Python's KeyError) and a `None`
  value (Neo4j refuses to MERGE on a null property) are explicit failures that
  leave the database unchanged.
- `UpsertProperties` (`upsert_properties.dfy`) states what an upsert does:
  - it is idempotent;
  - it only adds;
  - it adds exactly the row's Category, node, CONTAINS edge and edges into the node;
  - parent linking is order-dependent;
  - a row whose full code equals its category code gets a self-edge;
  - a row with changed descriptions gives a second node.
- `IcdService` (`icd_service.dfy`) models the service's writes and reads: disease
  lookup, search, category listing and code details.
- `LoadIcdData` (`load_icd_data.dfy`) models the ingestion loop and its two counters.
- `LlmService` (`llm_service.dfy`) models the context string and the four
  outcomes of `process_query`.
- `Cypher` (`cypher.dfy`) defines the Cypher semantics the queries use: the
  `CONTAINS` operator, string `ORDER BY`, and rows returned in an unpromised order.
- `IcdModels` (`icd_models.dfy`) holds the two pydantic records. `Basics`
  (`basics.dfy`) holds Option, Result and Outcome.

Some behaviour of the code is reproduced on purpose, not corrected:

- **Node identity is the whole record.** The upsert MERGEs a node on all five
  properties. Re-upserting a code with another description or subcategory adds a
  second node.
- **Parent linking is order-dependent.** A HAS_SUBCATEGORY edge is added only
  from nodes that already carry the row's category code. A parent written after
  its child is never linked to it (`HierarchyDependsOnOrder`).
- **Nothing writes BELONGS_TO.** So `get_category_codes` returns nothing, and
  `get_code_details` never carries a category name, on a database built by
  upserts.
- **Search has no ORDER BY and no ranking.** It is case-sensitive against the
  stored descriptions, with the query upper-cased. The category code is never
  searched.
- **Category listing matches `category_code` exactly.** It does not match on a
  prefix.

The code has none of the following, so the model has none either. Codes are
not unique keys, and a re-upsert never overwrites a stored node. Search has no
synonym expansion. No code is reformatted for display. The generator call has
no timeout and no retry.

Unpromised orders are modelled as arbitrary choices made inside methods. These
orders are: the order of `collect(DISTINCT ...)` lists, rows under `LIMIT`
without `ORDER BY`, ties under `ORDER BY`, and which record `single()` returns
when the lookup groups several nodes. For each such method, the contracts state
membership, distinctness, length and sortedness, and nothing about the order
itself.

## Model

| member | source | states |
|---|---|---|
| `Neo4jClient.ReadParams` | app/database/neo4j_client.py:34-41 | the query runs exactly when all six keys are present and non-None; otherwise the error names a missing key or a None value |
| `Neo4jClient.Neo4jICD.LinkParents` | app/database/neo4j_client.py:29-31 | merging the HAS_SUBCATEGORY edges one parent at a time adds exactly one edge per parent to the child and changes nothing else |
| `Neo4jClient.Upsert` | app/database/neo4j_client.py:14-31 | defines the upsert query on the graph: MERGE the Category, the whole five-property node and the CONTAINS edge, then a HAS_SUBCATEGORY edge from every node whose code is the row's category code, the new node included |
| `Neo4jClient.Neo4jICD.CreateIcdRelationships` | app/database/neo4j_client.py:11-41 | the new database is `Upsert` of the old one when the row reads cleanly, and the old one unchanged when it does not; relationships keep existing end nodes |
| `Neo4jClient.UpsertWellFormed` | app/database/neo4j_client.py:25-31 | every edge the upsert adds joins nodes that exist afterwards |
| `UpsertProperties.UpsertIdempotent` | app/database/neo4j_client.py:15-31 | upserting the same row twice leaves every node and edge set as after the first upsert |
| `UpsertProperties.UpsertEstablishes` | app/database/neo4j_client.py:15-25 | afterwards the Category, the row's node and the CONTAINS edge between them exist |
| `UpsertProperties.UpsertOnlyAdds` | app/database/neo4j_client.py:11-41 | every node and edge present before is still present; BELONGS_TO is untouched |
| `UpsertProperties.UpsertAddsOnlyTheRow` | app/database/neo4j_client.py:15-31 | the only additions are the row's Category, node, CONTAINS edge and HAS_SUBCATEGORY edges into the row's node |
| `UpsertProperties.UpsertParentEdges` | app/database/neo4j_client.py:28-31 | a HAS_SUBCATEGORY edge into the new node exists afterwards iff it existed before or its source carries the row's category code (the new node included) |
| `UpsertProperties.UpsertWithoutParentAddsNoEdge` | app/database/neo4j_client.py:28-31 | with no node carrying the category code, and the row not its own parent, no HAS_SUBCATEGORY edge is added |
| `UpsertProperties.UpsertKeepsOtherParents` | app/database/neo4j_client.py:28-31 | the parents of every node other than the row's own are unchanged, so a parent written after its child is not linked to it |
| `UpsertProperties.UpsertSelfEdge` | app/database/neo4j_client.py:17-31 | a row whose full code equals its category code gets a HAS_SUBCATEGORY self-edge |
| `UpsertProperties.UpsertChangedRowAddsNode` | app/database/neo4j_client.py:17-23 | a row with a stored code but any other property different leaves the stored node and adds a second node with that code |
| `UpsertProperties.UpsertAllKeepsBelongsTo` | app/database/neo4j_client.py:11-41 | no sequence of upserts writes a BELONGS_TO edge |
| `UpsertProperties.UpsertAllWellFormed` | app/database/neo4j_client.py:11-41 | a database built by upserts only holds edges between existing nodes |
| `UpsertProperties.HierarchyDependsOnOrder` | app/database/neo4j_client.py:28-31 | "A001" under "A00" has parent {"A00"} when "A00" is upserted first, and no parent when it is upserted second |
| `Neo4jClient.DiseaseRecords` | app/database/neo4j_client.py:45-54 | defines the lookup query's records: the nodes with the code, grouped by long_desc and category_code, each group with the distinct codes one HAS_SUBCATEGORY hop in and one hop out |
| `Neo4jClient.DiseaseRecordsEmptyIff` | app/database/neo4j_client.py:46 | the lookup query yields a record exactly when some node carries the code |
| `Neo4jClient.Neo4jICD.GetDiseaseInfo` | app/database/neo4j_client.py:43-55 | None exactly for an unknown code; otherwise a record of the query: long_desc, category_code, and duplicate-free lists of the codes one hop in and one hop out |
| `UpsertProperties.LookupOfUniqueCode` | app/database/neo4j_client.py:43-55 | for a code on a single node, the only record is its long_desc, category_code, and the codes of exactly its one-hop parents and children |
| `IcdModels.KeyNamesDistinct` | scripts/load_icd_data.py:17-24 | the six row keys have pairwise different spellings, so keys as constructors are told apart exactly as the dict's string keys are |
| `IcdModels.ModelDump` | app/services/icd_service.py:13 | defines pydantic's `model_dump` of an `ICDCode`: one key per field, each holding that field's value |
| `IcdService.ModelDumpHasParamKeys` | app/models/icd_models.py:4-10 | the record's dict has exactly the six keys the upsert reads |
| `IcdService.ModelDumpFeedsUpsert` | app/models/icd_models.py:4-10 | the upsert of a dumped record fails only for a None subcategory, and otherwise receives the record's fields |
| `IcdService.ICDService.CreateIcdCode` | app/services/icd_service.py:11-14 | one upsert of the record's fields; a None subcategory fails and changes nothing |
| `IcdService.ICDService.GetDiseaseInfo` | app/services/icd_service.py:16-28 | None exactly for an unknown code; otherwise `code` echoes the argument, `description` is long_desc, `category` is category_code, and `related_conditions` is the parent codes followed by the child codes |
| `IcdService.ICDService.SearchByDescription` | app/services/icd_service.py:33-45 | a negative limit fails; otherwise distinct nodes whose short or long description contains the upper-cased query, min(limit, matches) of them, all matches when they fit |
| `IcdService.Upper` | app/services/icd_service.py:44 | the upper-cased query has the query's length and each character upper-cased in place |
| `IcdService.SearchMatches` | app/services/icd_service.py:38-44 | defines the search query's matches: the nodes whose short or long description contains the upper-cased query |
| `IcdService.SearchEmptyQueryMatchesAll` | app/services/icd_service.py:38-44 | the empty query matches every node |
| `IcdService.SearchIgnoresCodes` | app/services/icd_service.py:40 | whether a node matches does not depend on its code or category code |
| `Cypher.ContainsAt` | app/services/icd_service.py:40 | `CONTAINS` holds exactly when the pattern occurs at some position |
| `Cypher.Enumerate` | app/services/icd_service.py:38-45 | rows drawn from a set of matches: distinct, members of the set, min(limit, size) of them, the whole set when it fits |
| `IcdService.ICDService.GetCategoryCodes` | app/services/icd_service.py:47-59 | results have category_code equal to the argument, ascend by code, and return each node once per BELONGS_TO edge to a Category |
| `IcdService.CategoryRows` | app/services/icd_service.py:52-55 | defines the category query's rows: one per BELONGS_TO edge from a node whose category_code equals the argument to a Category |
| `IcdService.InsertByCode` | app/services/icd_service.py:56 | inserting into a list sorted by code keeps it sorted and adds exactly that node |
| `IcdService.CategoryRowsAreInCategory` | app/services/icd_service.py:53-54 | a node returned by the category query has exactly the requested category code |
| `IcdService.CategoryRowsEmptyAfterUpserts` | app/services/icd_service.py:53 | on a database built only by upserts the category query returns nothing |
| `IcdService.ICDService.GetCodeDetails` | app/services/icd_service.py:61-78 | None exactly for an unknown code; otherwise one row of the details query |
| `IcdService.DetailRows` | app/services/icd_service.py:66-69 | defines the details query's rows: each node with the code, with the name of each Category it BELONGS_TO, or with no category when it has none |
| `IcdService.DetailRowsEmptyIff` | app/services/icd_service.py:66-73 | the details query has a row exactly when some node carries the code |
| `IcdService.DetailRowShape` | app/services/icd_service.py:67-76 | a details row is a node with the code; a category name is present iff that node has a BELONGS_TO Category, and then names it |
| `IcdService.DetailsWithoutCategoryAfterUpserts` | app/services/icd_service.py:68 | on a database built only by upserts no details carry a category name |
| `LoadIcdData.ProcessIcdRow` | scripts/load_icd_data.py:15-24 | a row dict exactly when the record has at least six fields |
| `LoadIcdData.ProcessedRowFeedsUpsert` | scripts/load_icd_data.py:15-24 | fields 0 to 5 reach the upsert as category_code, subcategory, full_code, short_description, long_description, category_name |
| `LoadIcdData.ExtraFieldsIgnored` | scripts/load_icd_data.py:17-23 | fields beyond the sixth do not affect the row |
| `LoadIcdData.IngestRecord` | scripts/load_icd_data.py:53-62 | defines one iteration of the loop: a short record or a failed upsert counts an error and changes nothing else; otherwise the row is upserted and counted as processed |
| `LoadIcdData.Ingest` | scripts/load_icd_data.py:49-62 | defines the whole loop as the record-by-record fold of that step, in file order |
| `LoadIcdData.ShortRecordOnlyCounts` | scripts/load_icd_data.py:52-62 | a record with fewer than six fields increments `errors` and leaves the database and `processed` unchanged |
| `LoadIcdData.IngestCounts` | scripts/load_icd_data.py:49-62 | `errors` counts the short records and `processed + errors` equals the number of records |
| `LoadIcdData.IngestIsUpsertFold` | scripts/load_icd_data.py:52-56 | the final database is the left fold of upserts over the well-formed records in file order |
| `LoadIcdData.IngestContinues` | scripts/load_icd_data.py:59-62 | ingesting a + b is ingesting b from where a left off, so a failing record does not stop the loop |
| `LoadIcdData.LoadIcdData` | scripts/load_icd_data.py:49-62 | the loop's database and counters are those of the record-by-record fold; `processed + errors` equals the number of records |
| `LlmService.ContextOf` | app/services/llm_service.py:97-106 | defines the context string: the fixed "No exact matches" text for no results, otherwise the header and then each result's code, short_desc and long_desc entry in order |
| `LlmService.ContextEntryInPlace` | app/services/llm_service.py:102-104 | a non-empty context is the header followed by one entry per result in input order |
| `LlmService.ContextMentionsEveryCode` | app/services/llm_service.py:102-104 | every result's code occurs in the context handed to the generator |
| `LlmService.PrepareContext` | app/services/llm_service.py:97-106 | the fixed "No exact matches" text for no results; otherwise the header and the results' entries (code, short_desc, long_desc) in order |
| `LlmService.Respond` | app/services/llm_service.py:30-95 | suggested codes are always [] or exactly the search result; the generator is called exactly when the search returned results, with their context |
| `LlmService.RespondNoResults` | app/services/llm_service.py:38-43 | empty search: codes [], the fixed text, source "no results", no `verified_codes`, no generator call |
| `LlmService.RespondGenerated` | app/services/llm_service.py:60-77 | generated text: the search's codes, the text verbatim, source "database + llm", `verified_codes` True |
| `LlmService.RespondFallback` | app/services/llm_service.py:79-86 | failed generation: the search's codes, the fixed fallback text, source "database only", `verified_codes` True |
| `LlmService.RespondError` | app/services/llm_service.py:88-95 | failed search: codes [], the fixed apology, source "error", `verified_codes` False |
| `LlmService.GeneratorAddsNoCodes` | app/services/llm_service.py:38-95 | the generator's answer never changes the suggested codes |
| `LlmService.MedicalCodingAssistant.ProcessQuery` | app/services/llm_service.py:30-95 | the response is `Respond` on a search with the default limit 10, so at most 10 codes are suggested |

## Left out

- The driver, sessions and `close` are not modelled. The client object stands for the database it talks to.
- `ICDService.__init__` reads `uri`, `user` and `password` from the client to build a second driver (app/services/icd_service.py:9). `Neo4jICD.__init__` stores only `_driver` (app/database/neo4j_client.py:5-6), so as written that read raises AttributeError. No `ICDService` can then be constructed, and no `MedicalCodingAssistant` either. The model's constructors succeed instead: the service holds the client itself, and every query reads that one database.
- streamlit/app.py, the UI, is not part of this model.
- The OpenAI client, model name, temperature and prompt wording are not modelled. The generator is an oracle `ChatRequest -> Generation`. Its request carries only the part of the system prompt that varies (the context) and the user's query.
- Store failures (an unreachable database, a failed query) are not produced by the modelled store. `Respond` takes the search outcome as an input, so its error branch is still covered. `ProcessQuery` always sees a successful search.
- The loader's file handling is not modelled: the CSV path check, physical-line counting, progress and summary prints, dotenv and logging. The loader takes the parsed records as a sequence of field lists.
- `get_code_details` assigns `category_name` into the returned node. The model returns a record with an optional category name, treating the node as a plain dict.
- IcdService.Upper: upper-cases ASCII letters only, whereas Python's `str.upper` also maps other Unicode letters.
- IcdService.SortedByCode: orders strings by character code point, character by character. Neo4j compares UTF-16 code units, which differs only outside the Basic Multilingual Plane.
- Neo4jClient.Neo4jICD.GetDiseaseInfo: states which record and which elements are returned, not their order, because the query promises none.
- IcdService.ICDService.SearchByDescription: states membership, distinctness and length only, because the query has no ORDER BY.
- Concurrency is not modelled: the code has none.
