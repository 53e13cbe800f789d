/**
 * The medical coding assistant of app/services/llm_service.py: a search,
 * a context string built from its results, and one call to a text
 * generator. The generator is an oracle: given the request it either
 * returns text or fails.
 */
module LlmService {
  import opened Basics
  import opened Cypher
  import opened Neo4jClient
  import opened IcdService

  const NoResultsText :=
    "I couldn't find any matching ICD-10 codes in the database. Please try rephrasing your query or provide more specific medical terms."
  const FallbackText :=
    "Here are the relevant codes found in our database. For detailed explanations, please consult official ICD-10 documentation."
  const ErrorText :=
    "I apologize, but I encountered an error processing your request. Please try again."
  const NoMatchesContext := "No exact matches found in the database."
  const ContextHeader := "Related codes found in database:\n"

  // ---------------------------------------------------------------------
  // _prepare_context
  // ---------------------------------------------------------------------

  /** The context line for one search result: its code, short and long description. */
  function ContextEntry(n: CodeNode): string
  {
    "- " + n.code + ": " + n.shortDesc + "\n  Long description: " + n.longDesc + "\n"
  }

  /** The strings `entry` gives for the results, one after another in input order. */
  function Joined(results: seq<CodeNode>, entry: CodeNode -> string): string
    decreases |results|
  {
    if results == [] then ""
    else Joined(results[..|results| - 1], entry) + entry(results[|results| - 1])
  }

  /** The whole context handed to the generator. */
  function ContextOf(results: seq<CodeNode>): string
  {
    if results == [] then NoMatchesContext else ContextHeader + Joined(results, ContextEntry)
  }

  lemma {:induction false} JoinedAppend(a: seq<CodeNode>, b: seq<CodeNode>, entry: CodeNode -> string)
    ensures Joined(a + b, entry) == Joined(a, entry) + Joined(b, entry)
    decreases |b|
  {
    if b == [] {
      assert a + b == a;
    } else {
      var init := b[..|b| - 1];
      assert (a + b)[..|a + b| - 1] == a + init;
      assert (a + b)[|a + b| - 1] == b[|b| - 1];
      JoinedAppend(a, init, entry);
    }
  }

  /** Joining splits around any one element. */
  lemma JoinedAround(results: seq<CodeNode>, i: int, entry: CodeNode -> string)
    requires 0 <= i < |results|
    ensures Joined(results, entry) == Joined(results[..i], entry) + entry(results[i]) + Joined(results[i + 1..], entry)
  {
    var upTo := results[..i + 1];
    assert results == upTo + results[i + 1..];
    JoinedAppend(upTo, results[i + 1..], entry);
    assert upTo[..i] == results[..i];
  }

  /**
   * A non-empty context is the header and then one entry per result in
   * input order: entry i stands between the entries before it and after it.
   */
  lemma ContextEntryInPlace(results: seq<CodeNode>, i: int)
    requires 0 <= i < |results|
    ensures ContextOf(results)
         == ContextHeader + (Joined(results[..i], ContextEntry) + ContextEntry(results[i]) + Joined(results[i + 1..], ContextEntry))
  {
    JoinedAround(results, i, ContextEntry);
  }

  /** An entry begins with "- " and then the code. */
  lemma EntryNamesCode(n: CodeNode)
    ensures OccursAt(ContextEntry(n), n.code, 2)
  {
    assert ContextEntry(n) == "- " + n.code + (": " + n.shortDesc + "\n  Long description: " + n.longDesc + "\n");
  }

  /** Every result's code is spelled out in the context the generator sees. */
  lemma ContextMentionsEveryCode(results: seq<CodeNode>, i: int)
    requires 0 <= i < |results|
    ensures Contains(ContextOf(results), results[i].code)
  {
    ContextEntryInPlace(results, i);
    EntryNamesCode(results[i]);
    var before := Joined(results[..i], ContextEntry);
    var after := Joined(results[i + 1..], ContextEntry);
    OccursInside(before, ContextEntry(results[i]), after, results[i].code, 2);
    OccursAfter(ContextHeader, before + ContextEntry(results[i]) + after, results[i].code, |before| + 2);
    ContainsAt(ContextOf(results), results[i].code);
  }

  /** `_prepare_context`, built with `+=` as the Python code does. */
  method PrepareContext(dbResults: seq<CodeNode>) returns (context: string)
    ensures context == ContextOf(dbResults)
  {
    if dbResults == [] {
      return NoMatchesContext;
    }
    context := ContextHeader;
    for i := 0 to |dbResults|
      invariant context == ContextHeader + Joined(dbResults[..i], ContextEntry)
    {
      assert dbResults[..i + 1][..i] == dbResults[..i];
      context := context + ContextEntry(dbResults[i]);
    }
    assert dbResults[..|dbResults|] == dbResults;
  }

  // ---------------------------------------------------------------------
  // process_query
  // ---------------------------------------------------------------------

  /** What the generator gives back: text, or a raised error. */
  datatype Generation = Generated(text: string) | GenerationFailed

  /** The request sent to the generator: the varying part of the system prompt, and the user's query. */
  datatype ChatRequest = ChatRequest(context: string, userQuery: string)

  /** The result dict; `verifiedCodes` is None where the dict has no `verified_codes` key. */
  datatype QueryResponse = QueryResponse(
    suggestedCodes: seq<CodeNode>,
    explanation: string,
    source: string,
    verifiedCodes: Option<bool>)

  /** The response together with the generator request made, if any. */
  datatype Exchange = Exchange(response: QueryResponse, request: Option<ChatRequest>)

  /**
   * `process_query` as a case split over the search's outcome (a store
   * failure is an input here) and the generator's answer.
   */
  function Respond(userQuery: string, search: Result<seq<CodeNode>, QueryError>, generate: ChatRequest -> Generation): (out: Exchange)
    ensures out.response.suggestedCodes == [] || (search.Ok? && out.response.suggestedCodes == search.value)
    ensures out.request.Some? <==> search.Ok? && search.value != []
    ensures out.request.Some? ==> out.request.value == ChatRequest(ContextOf(search.value), userQuery)
  {
    match search
    case Err(_) =>
      Exchange(QueryResponse([], ErrorText, "error", Some(false)), None)
    case Ok(results) =>
      if results == [] then
        Exchange(QueryResponse([], NoResultsText, "no results", None), None)
      else
        var request := ChatRequest(ContextOf(results), userQuery);
        match generate(request)
        case Generated(text) =>
          Exchange(QueryResponse(results, text, "database + llm", Some(true)), Some(request))
        case GenerationFailed =>
          Exchange(QueryResponse(results, FallbackText, "database only", Some(true)), Some(request))
  }

  /** An empty search result: no codes, the fixed text, no `verified_codes`, no generator call. */
  lemma RespondNoResults(userQuery: string, generate: ChatRequest -> Generation)
    ensures Respond(userQuery, Ok([]), generate)
         == Exchange(QueryResponse([], NoResultsText, "no results", None), None)
  {
  }

  /** Generated text: the search's codes, the text verbatim, marked verified. */
  lemma RespondGenerated(userQuery: string, results: seq<CodeNode>, generate: ChatRequest -> Generation)
    requires results != []
    requires generate(ChatRequest(ContextOf(results), userQuery)).Generated?
    ensures Respond(userQuery, Ok(results), generate).response
         == QueryResponse(results, generate(ChatRequest(ContextOf(results), userQuery)).text, "database + llm", Some(true))
  {
  }

  /** A failed generation: the search's codes with the fixed fallback text. */
  lemma RespondFallback(userQuery: string, results: seq<CodeNode>, generate: ChatRequest -> Generation)
    requires results != []
    requires generate(ChatRequest(ContextOf(results), userQuery)).GenerationFailed?
    ensures Respond(userQuery, Ok(results), generate).response
         == QueryResponse(results, FallbackText, "database only", Some(true))
  {
  }

  /** A failed search: no codes, the fixed apology, marked not verified. */
  lemma RespondError(userQuery: string, error: QueryError, generate: ChatRequest -> Generation)
    ensures Respond(userQuery, Err(error), generate)
         == Exchange(QueryResponse([], ErrorText, "error", Some(false)), None)
  {
  }

  /** The generator's answer never changes which codes are suggested. */
  lemma GeneratorAddsNoCodes(userQuery: string, search: Result<seq<CodeNode>, QueryError>,
                             generate: ChatRequest -> Generation, other: ChatRequest -> Generation)
    ensures Respond(userQuery, search, generate).response.suggestedCodes
         == Respond(userQuery, search, other).response.suggestedCodes
  {
  }

  class MedicalCodingAssistant {
    const icdService: ICDService

    constructor (service: ICDService)
      ensures icdService == service
    {
      icdService := service;
    }

    /**
     * `process_query`: search with the default limit, then answer from the
     * results and, when there are any, the generator.
     */
    method ProcessQuery(userQuery: string, generate: ChatRequest -> Generation) returns (out: Exchange)
      ensures exists results :: IsSearchResult(icdService.dbClient.Value(), userQuery, DefaultSearchLimit, results)
                                && out == Respond(userQuery, Ok(results), generate)
      ensures |out.response.suggestedCodes| <= DefaultSearchLimit
    {
      var search := icdService.SearchByDescription(userQuery, DefaultSearchLimit);
      var results := search.value;
      assert IsSearchResult(icdService.dbClient.Value(), userQuery, DefaultSearchLimit, results);
      if results == [] {
        return Exchange(QueryResponse([], NoResultsText, "no results", None), None);
      }
      var context := PrepareContext(results);
      var request := ChatRequest(context, userQuery);
      match generate(request) {
        case Generated(text) =>
          out := Exchange(QueryResponse(results, text, "database + llm", Some(true)), Some(request));
        case GenerationFailed =>
          out := Exchange(QueryResponse(results, FallbackText, "database only", Some(true)), Some(request));
      }
    }
  }
}
