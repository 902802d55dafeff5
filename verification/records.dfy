/** The data the scraper moves around: the search API's repository
    descriptor, the summary dictionary the AI step returns, and the record
    that is stored. Python dictionaries with optional keys become datatypes
    whose optional fields are `Option`s (`None` standing for a missing key
    as well as for JSON `null`). */
module Records {
  import opened Wrappers

  /** The two repository kinds the prompt and the heuristic use. */
  const LibraryModule: string := "Library/Module"
  const ApplicationBot: string := "Application/Bot"

  /** The repository kind the AI step reports when no model is configured. */
  const UnknownType: string := "Unknown"

  predicate IsCanonical(repoType: string) {
    repoType == LibraryModule || repoType == ApplicationBot
  }

  /** One entry of the search response's `items`. The `license` field is
      the license object's keys: `None` when the key is missing or `null`. */
  datatype Repo = Repo(
    owner: string,
    name: string,
    description: Option<string>,
    htmlUrl: Option<string>,
    topics: seq<string>,
    language: Option<string>,
    stars: Option<int>,
    forks: Option<int>,
    openIssues: Option<int>,
    updatedAt: Option<string>,
    license: Option<map<string, Option<string>>>)

  /** The dictionary `get_gemini_summary` returns. When it comes from the
      decoded AI reply any of its three keys may be missing. */
  datatype Summary = Summary(
    whatItDoes: Option<string>,
    howToUse: Option<string>,
    repoType: Option<string>)

  /** The stored document, keyed by `fullName`. */
  datatype BotRecord = BotRecord(
    name: string,
    author: string,
    fullName: string,
    description: Option<string>,
    link: Option<string>,
    category: string,
    language: Option<string>,
    stars: Option<int>,
    forks: Option<int>,
    openIssues: Option<int>,
    lastUpdated: Option<string>,
    license: Option<string>,
    repoType: string,
    whatItDoes: Option<string>,
    howToUse: string)
}
