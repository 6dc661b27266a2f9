/**
 * The integrations page: the search filter applied to each of the four
 * catalogue lists, the badge variant of a category, and the "no results"
 * condition.
 */
module Integrations {
  import opened Text
  import opened Seqs

  /** A catalogue entry (its icon is presentation only). */
  datatype Integration = Integration(name: string, category: string, description: string)

  datatype BadgeVariant = Default | Secondary | Outline

  /** The four catalogue lists the page shows. */
  datatype Catalogue = Catalogue(
    databases: seq<Integration>,
    fileStorage: seq<Integration>,
    advertising: seq<Integration>,
    mcp: seq<Integration>)

  /** `getBadgeVariant`. */
  function BadgeFor(category: string): (v: BadgeVariant)
    ensures v == Secondary <==> category == "Integration"
    ensures v == Outline <==> category == "MCP"
    ensures v == Default <==> category != "Integration" && category != "MCP"
  {
    match category
    case "Database" => Default
    case "Integration" => Secondary
    case "MCP" => Outline
    case _ => Default
  }

  /** The item's lower-cased name or description contains the lower-cased query. */
  predicate Matches(item: Integration, query: string) {
    Includes(ToLower(item.name), ToLower(query)) || Includes(ToLower(item.description), ToLower(query))
  }

  /** Lower-casing a lower-cased text changes nothing. */
  lemma ToLowerIdempotent(s: string)
    ensures ToLower(ToLower(s)) == ToLower(s)
  {
  }

  /** The search ignores the case of the query: the query and its lower-cased form match the same items. */
  lemma MatchesIgnoresQueryCase(item: Integration, query: string)
    ensures Matches(item, ToLower(query)) == Matches(item, query)
  {
    ToLowerIdempotent(query);
  }

  /** `filterIntegrations`: every item for an empty query, otherwise the matching ones in order. */
  function FilterIntegrations(items: seq<Integration>, query: string): (r: seq<Integration>)
    ensures query == [] ==> r == items
    ensures query != [] ==> forall item :: item in r <==> item in items && Matches(item, query)
    ensures |r| <= |items|
  {
    if query == [] then items
    else Filter(items, (item: Integration) => Matches(item, query))
  }

  /** The filtered list keeps the order of the catalogue. */
  lemma FilterKeepsOrder(items: seq<Integration>, query: string)
    ensures IsSubsequence(FilterIntegrations(items, query), items)
  {
    if query == [] {
      SubsequenceOfSelf(items);
    } else {
      FilterIsSubsequence(items, (item: Integration) => Matches(item, query));
    }
  }

  /** The message shown when all four filtered lists are empty. */
  predicate NoResults(c: Catalogue, query: string) {
    && FilterIntegrations(c.databases, query) == []
    && FilterIntegrations(c.fileStorage, query) == []
    && FilterIntegrations(c.advertising, query) == []
    && FilterIntegrations(c.mcp, query) == []
  }

  /** Every item of the catalogue. */
  function AllItems(c: Catalogue): seq<Integration> {
    c.databases + c.fileStorage + c.advertising + c.mcp
  }

  /**
   * "No results" is shown exactly when no catalogue item matches a non-empty
   * query; for the empty query, exactly when the catalogue is empty.
   */
  lemma NoResultsIff(c: Catalogue, query: string)
    ensures query == [] ==> (NoResults(c, query) <==> AllItems(c) == [])
    ensures query != [] ==> (NoResults(c, query) <==> forall item :: item in AllItems(c) ==> !Matches(item, query))
  {
    if query != [] {
      EmptyFilter(c.databases, query);
      EmptyFilter(c.fileStorage, query);
      EmptyFilter(c.advertising, query);
      EmptyFilter(c.mcp, query);
      assert forall item :: item in AllItems(c) <==>
        item in c.databases || item in c.fileStorage || item in c.advertising || item in c.mcp;
    }
  }

  /** A filtered list is empty exactly when no item matches. */
  lemma EmptyFilter(items: seq<Integration>, query: string)
    requires query != []
    ensures FilterIntegrations(items, query) == [] <==> forall item :: item in items ==> !Matches(item, query)
  {
    var r := FilterIntegrations(items, query);
    if r != [] {
      assert r[0] in r;
    }
  }
}
