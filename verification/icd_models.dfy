/**
 * The two pydantic records of app/models/icd_models.py, and the dict a
 * record becomes when it is handed to the graph upsert.
 */
module IcdModels {
  import opened Basics

  /**
   * The six keys a row dict is read by. Python's keys are strings; they are
   * kept apart here as constructors, and `KeyName` gives each one's spelling.
   * Any other key a dict may hold is never read, so it is not represented.
   */
  datatype RowKey =
    | CategoryCode | Subcategory | FullCode | ShortDescription | LongDescription | CategoryName

  /** The string each key is spelled as in the Python dicts. */
  function KeyName(k: RowKey): string
  {
    match k
    case CategoryCode => "category_code"
    case Subcategory => "subcategory"
    case FullCode => "full_code"
    case ShortDescription => "short_description"
    case LongDescription => "long_description"
    case CategoryName => "category_name"
  }

  /**
   * No two keys are spelled alike, so telling keys apart by constructor
   * tells them apart exactly as the Python dicts do.
   */
  lemma KeyNamesDistinct(a: RowKey, b: RowKey)
    ensures KeyName(a) == KeyName(b) <==> a == b
  {
    if a != b {
      var x, y := KeyName(a), KeyName(b);
      assert x[0] != y[0] || |x| != |y| || x[1] != y[1] || x[9] != y[9];
    }
  }

  /**
   * A row dict as the upsert receives it: some of the keys, each value a
   * string or Python's `None`.
   */
  type Row = map<RowKey, Option<string>>

  /** One ICD-10 entry as the API accepts it; only `subcategory` may be absent. */
  datatype ICDCode = ICDCode(
    categoryCode: string,
    subcategory: Option<string>,
    fullCode: string,
    shortDescription: string,
    longDescription: string,
    categoryName: string)

  /** The answer to a disease lookup. */
  datatype ICDResponse = ICDResponse(
    code: string,
    description: string,
    category: string,
    relatedConditions: seq<string>)

  /** pydantic's `model_dump`: one key per field, named as the field is. */
  function ModelDump(c: ICDCode): Row
  {
    map[
      CategoryCode := Some(c.categoryCode),
      Subcategory := c.subcategory,
      FullCode := Some(c.fullCode),
      ShortDescription := Some(c.shortDescription),
      LongDescription := Some(c.longDescription),
      CategoryName := Some(c.categoryName)]
  }
}
