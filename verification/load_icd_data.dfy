/**
 * The ingestion script scripts/load_icd_data.py: every CSV record is turned
 * into a row dict and upserted, in file order; a record that fails is
 * counted and skipped.
 */
module LoadIcdData {
  import opened Basics
  import opened IcdModels
  import opened Neo4jClient

  /** Indexing a record with fewer than six fields raises IndexError. */
  datatype RowError = IndexError

  /** `process_icd_row`: the six positional fields, by name. */
  function ProcessIcdRow(fields: seq<string>): (r: Result<Row, RowError>)
    ensures r.Ok? <==> |fields| >= 6
  {
    if |fields| < 6 then Err(IndexError)
    else Ok(map[
      CategoryCode := Some(fields[0]),
      Subcategory := Some(fields[1]),
      FullCode := Some(fields[2]),
      ShortDescription := Some(fields[3]),
      LongDescription := Some(fields[4]),
      CategoryName := Some(fields[5])])
  }

  /** The upsert parameters a record of at least six fields stands for. */
  function RecordParams(fields: seq<string>): UpsertParams
    requires |fields| >= 6
  {
    UpsertParams(fields[5], CodeNode(fields[2], fields[0], fields[1], fields[3], fields[4]))
  }

  /**
   * Field 0 is the category code, 1 the subcategory, 2 the full code, 3 and 4
   * the descriptions and 5 the category name; the upsert reads every one of
   * them successfully, since a CSV field is never None.
   */
  lemma ProcessedRowFeedsUpsert(fields: seq<string>)
    requires |fields| >= 6
    ensures ReadParams(ProcessIcdRow(fields).value) == Ok(RecordParams(fields))
  {
    var row := ProcessIcdRow(fields).value;
    assert row[CategoryName] == Some(fields[5]);
    assert row[FullCode] == Some(fields[2]);
    assert row[CategoryCode] == Some(fields[0]);
    assert row[Subcategory] == Some(fields[1]);
    assert row[ShortDescription] == Some(fields[3]);
    assert row[LongDescription] == Some(fields[4]);
    assert FirstMissing(row, ParamKeys) == None;
    assert FirstNull(row, ParamKeys) == None;
  }

  /** Fields beyond the sixth play no part. */
  lemma ExtraFieldsIgnored(fields: seq<string>)
    requires |fields| >= 6
    ensures ProcessIcdRow(fields) == ProcessIcdRow(fields[..6])
  {
  }

  /** The loader's state: the database and its two counters. */
  datatype Summary = Summary(graph: Graph, processed: nat, errors: nat)

  /** One iteration of the loop: a record that raises is counted as an error and changes nothing else. */
  function IngestRecord(s: Summary, fields: seq<string>): Summary
  {
    match ProcessIcdRow(fields)
    case Err(_) => s.(errors := s.errors + 1)
    case Ok(row) =>
      match ReadParams(row)
      case Err(_) => s.(errors := s.errors + 1)
      case Ok(p) => Summary(Upsert(s.graph, p), s.processed + 1, s.errors)
  }

  /** The whole loop, one record after another in file order. */
  function Ingest(s: Summary, records: seq<seq<string>>): Summary
    decreases |records|
  {
    if records == [] then s
    else IngestRecord(Ingest(s, records[..|records| - 1]), records[|records| - 1])
  }

  /** How many records have fewer than six fields. */
  function CountShort(records: seq<seq<string>>): nat
    decreases |records|
  {
    if records == [] then 0
    else CountShort(records[..|records| - 1]) + (if |records[|records| - 1]| < 6 then 1 else 0)
  }

  /** The upsert parameters of the well-formed records, in file order. */
  function ValidParams(records: seq<seq<string>>): seq<UpsertParams>
    decreases |records|
  {
    if records == [] then []
    else
      var last := records[|records| - 1];
      ValidParams(records[..|records| - 1]) + (if |last| < 6 then [] else [RecordParams(last)])
  }

  /** A short record fails before any upsert: the error count grows and nothing else changes. */
  lemma ShortRecordOnlyCounts(s: Summary, fields: seq<string>)
    requires |fields| < 6
    ensures IngestRecord(s, fields) == s.(errors := s.errors + 1)
  {
  }

  /**
   * Every record is accounted for: errors are the short records, the rest
   * are processed.
   */
  lemma {:induction false} IngestCounts(s: Summary, records: seq<seq<string>>)
    ensures Ingest(s, records).errors == s.errors + CountShort(records)
    ensures Ingest(s, records).processed + Ingest(s, records).errors == s.processed + s.errors + |records|
    decreases |records|
  {
    if records != [] {
      var last := records[|records| - 1];
      IngestCounts(s, records[..|records| - 1]);
      if |last| >= 6 {
        ProcessedRowFeedsUpsert(last);
      }
    }
  }

  /** The final database is the left fold of upserts over the well-formed records. */
  lemma {:induction false} IngestIsUpsertFold(s: Summary, records: seq<seq<string>>)
    ensures Ingest(s, records).graph == UpsertAll(s.graph, ValidParams(records))
    decreases |records|
  {
    if records != [] {
      var init := records[..|records| - 1];
      var last := records[|records| - 1];
      IngestIsUpsertFold(s, init);
      if |last| >= 6 {
        ProcessedRowFeedsUpsert(last);
        var ps := ValidParams(init) + [RecordParams(last)];
        assert ps[..|ps| - 1] == ValidParams(init);
      } else {
        assert ValidParams(records) == ValidParams(init) + [];
        assert ValidParams(init) + [] == ValidParams(init);
      }
    }
  }

  /** A failing record does not stop the loop: what follows is processed from where it left off. */
  lemma {:induction false} IngestContinues(s: Summary, a: seq<seq<string>>, b: seq<seq<string>>)
    ensures Ingest(s, a + b) == Ingest(Ingest(s, a), b)
    decreases |b|
  {
    if b == [] {
      assert a + b == a;
    } else {
      var init := b[..|b| - 1];
      assert (a + b)[..|a + b| - 1] == a + init;
      IngestContinues(s, a, init);
    }
  }

  /** `load_icd_data`'s loop over the CSV records. */
  method LoadIcdData(client: Neo4jICD, records: seq<seq<string>>) returns (processed: nat, errors: nat)
    requires client.Valid()
    modifies client
    ensures client.Valid()
    ensures Summary(client.Value(), processed, errors) == Ingest(Summary(old(client.Value()), 0, 0), records)
    ensures processed + errors == |records|
  {
    processed, errors := 0, 0;
    for i := 0 to |records|
      invariant client.Valid()
      invariant Summary(client.Value(), processed, errors) == Ingest(Summary(old(client.Value()), 0, 0), records[..i])
    {
      assert records[..i + 1][..i] == records[..i];
      var row := ProcessIcdRow(records[i]);
      var failed := true;
      if row.Ok? {
        var outcome := client.CreateIcdRelationships(row.value);
        failed := outcome.Fail?;
      }
      if failed {
        errors := errors + 1;
      } else {
        processed := processed + 1;
      }
    }
    assert records[..|records|] == records;
    IngestCounts(Summary(old(client.Value()), 0, 0), records);
  }
}
