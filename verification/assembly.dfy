/** `process_bot`: fetch the README, ask for a summary, settle the
    repository kind and build the stored record. main.py and scraper.py
    differ only in how the kind is settled; `Variant` names the script. */
module Assembly {
  import opened Wrappers
  import opened Text
  import opened Records
  import opened Heuristic
  import opened AiSummary

  datatype Variant = MainScript | ScraperScript

  /** `get_file_content(owner, repo, path)`: the decoded file, or the empty
      string when the request or the decoding fails. */
  type FileFetcher = (string, string, string) -> string

  /** Everything `process_bot` asks of the outside world. */
  datatype Services = Services(fetch: FileFetcher, ai: AiModel, decode: JsonDecoder)

  const DefaultHowTo: string := "Refer to GitHub for setup instructions."
  const NoLicense: string := "None"
  const TopicSeparator: string := ", "

  /** `README.md` first; `readme.md` only when that came back empty. */
  function FetchReadme(fetch: FileFetcher, owner: string, name: string): (readme: string)
    ensures fetch(owner, name, "README.md") != "" ==> readme == fetch(owner, name, "README.md")
    ensures fetch(owner, name, "README.md") == "" ==> readme == fetch(owner, name, "readme.md")
    ensures readme == "" <==> fetch(owner, name, "README.md") == "" && fetch(owner, name, "readme.md") == ""
  {
    var upper := fetch(owner, name, "README.md");
    if upper != "" then upper else fetch(owner, name, "readme.md")
  }

  /** The identity the store deduplicates on. */
  function FullName(owner: string, name: string): (key: string)
    ensures |key| == |owner| + 1 + |name|
    ensures key[..|owner|] == owner && key[|owner|] == '/' && key[|owner| + 1..] == name
  {
    owner + "/" + name
  }

  /** Owners never contain `/`, so the key determines owner and name. */
  lemma FullNameInjective(owner1: string, name1: string, owner2: string, name2: string)
    requires '/' !in owner1 && '/' !in owner2
    requires FullName(owner1, name1) == FullName(owner2, name2)
    ensures owner1 == owner2 && name1 == name2
  {
    var key := FullName(owner1, name1);
    FirstSlashAfterOwner(owner1, name1);
    FirstSlashAfterOwner(owner2, name2);
    assert key[..|owner1|] == owner1 && key[|owner1| + 1..] == name1;
    assert key[..|owner2|] == owner2 && key[|owner2| + 1..] == name2;
  }

  lemma FirstSlashAfterOwner(owner: string, name: string)
    requires '/' !in owner
    ensures FirstIndexOf(FullName(owner, name), '/') == Some(|owner|)
  {
    var key := FullName(owner, name);
    assert key[|owner|] == '/';
    assert forall k :: 0 <= k < |owner| ==> key[k] == owner[k];
  }

  /** `repo.get("license", {}).get("name") if repo.get("license") else "None"`:
      a missing, null or empty license object gives the text "None"; a
      non-empty one gives its `name`, which may itself be missing (null). */
  function LicenseName(license: Option<map<string, Option<string>>>): (r: Option<string>)
    ensures license.None? || license.value == map[] ==> r == Some(NoLicense)
    ensures license.Some? && license.value != map[] && "name" !in license.value ==> r.None?
    ensures license.Some? && license.value != map[] && "name" in license.value ==> r == license.value["name"]
  {
    match license
    case None => Some(NoLicense)
    case Some(fields) =>
      if fields == map[] then Some(NoLicense)
      else if "name" in fields then fields["name"]
      else None
  }

  /** The AI step's answer for this repository. */
  function Enrichment(svc: Services, repo: Repo): (s: Summary)
    ensures svc.ai.NoModel? ==> s == MissingKeySummary(repo.description.GetOr(""))
    ensures svc.ai.Model? && svc.ai.generate(repo.description.GetOr(""), ReadmeExcerpt(FetchReadme(svc.fetch, repo.owner, repo.name))).None? ==>
      s == FailureSummary(repo.description.GetOr(""))
  {
    Summarize(svc.ai, svc.decode, FetchReadme(svc.fetch, repo.owner, repo.name), repo.description.GetOr(""))
  }

  /** A confident AI answer: present, non-empty and not "Unknown". */
  predicate Confident(repoType: Option<string>) {
    Truthy(repoType) && repoType.value != UnknownType
  }

  /** main.py: the heuristic replaces a missing, empty or "Unknown" kind.
      scraper.py: only a missing or empty kind is replaced, by "Application/Bot". */
  function ResolveRepoType(variant: Variant, ai: Summary, readme: string, repo: Repo): (t: string)
    ensures t != ""
    ensures Confident(ai.repoType) ==> t == ai.repoType.value
    ensures variant == MainScript && !Confident(ai.repoType) ==>
      t == RepoTypeHeuristic(readme, repo.name, repo.description.GetOr(""), repo.language.GetOr(""))
    ensures variant == MainScript ==> IsCanonical(t) || Confident(ai.repoType)
    ensures variant == ScraperScript && !Truthy(ai.repoType) ==> t == ApplicationBot
    ensures variant == ScraperScript && ai.repoType == Some(UnknownType) ==> t == UnknownType
  {
    match variant
    case MainScript =>
      if !Truthy(ai.repoType) || ai.repoType.value == UnknownType then
        RepoTypeHeuristic(readme, repo.name, repo.description.GetOr(""), repo.language.GetOr(""))
      else ai.repoType.value
    case ScraperScript =>
      if Truthy(ai.repoType) then ai.repoType.value else ApplicationBot
  }

  /** `process_bot(repo)`. */
  function ProcessBot(variant: Variant, svc: Services, repo: Repo): (r: BotRecord)
    ensures r.fullName == FullName(repo.owner, repo.name)
    ensures r.name == repo.name && r.author == repo.owner
    ensures r.description == repo.description && r.link == repo.htmlUrl && r.language == repo.language
    ensures r.stars == repo.stars && r.forks == repo.forks && r.openIssues == repo.openIssues
    ensures r.lastUpdated == repo.updatedAt
    ensures r.category == Join(repo.topics, TopicSeparator)
    ensures r.license == LicenseName(repo.license)
    ensures repo.license.None? || repo.license.value == map[] ==> r.license == Some(NoLicense)
    ensures r.repoType == ResolveRepoType(variant, Enrichment(svc, repo), FetchReadme(svc.fetch, repo.owner, repo.name), repo)
    ensures Confident(Enrichment(svc, repo).repoType) ==> r.repoType == Enrichment(svc, repo).repoType.value
    ensures r.repoType != "" && r.howToUse != ""
    ensures r.howToUse == if Truthy(Enrichment(svc, repo).howToUse) then Enrichment(svc, repo).howToUse.value else DefaultHowTo
    ensures Truthy(Enrichment(svc, repo).whatItDoes) ==> r.whatItDoes == Enrichment(svc, repo).whatItDoes
    ensures !Truthy(Enrichment(svc, repo).whatItDoes) ==> r.whatItDoes == repo.description
  {
    var readme := FetchReadme(svc.fetch, repo.owner, repo.name);
    var ai := Summarize(svc.ai, svc.decode, readme, repo.description.GetOr(""));
    BotRecord(
      name := repo.name,
      author := repo.owner,
      fullName := FullName(repo.owner, repo.name),
      description := repo.description,
      link := repo.htmlUrl,
      category := Join(repo.topics, TopicSeparator),
      language := repo.language,
      stars := repo.stars,
      forks := repo.forks,
      openIssues := repo.openIssues,
      lastUpdated := repo.updatedAt,
      license := LicenseName(repo.license),
      repoType := ResolveRepoType(variant, ai, readme, repo),
      whatItDoes := if Truthy(ai.whatItDoes) then ai.whatItDoes else repo.description,
      howToUse := if Truthy(ai.howToUse) then ai.howToUse.value else DefaultHowTo)
  }

  /** Without a model, main.py always stores a canonical kind chosen by
      the heuristic, while scraper.py stores "Unknown"; both keep the
      description as `what_it_does`. */
  lemma NoModelRecord(svc: Services, repo: Repo)
    requires svc.ai.NoModel?
    ensures var readme := FetchReadme(svc.fetch, repo.owner, repo.name);
      ProcessBot(MainScript, svc, repo).repoType
        == RepoTypeHeuristic(readme, repo.name, repo.description.GetOr(""), repo.language.GetOr(""))
    ensures IsCanonical(ProcessBot(MainScript, svc, repo).repoType)
    ensures ProcessBot(ScraperScript, svc, repo).repoType == UnknownType
    ensures ProcessBot(MainScript, svc, repo).whatItDoes == repo.description
    ensures ProcessBot(MainScript, svc, repo).howToUse == MissingKeyHowTo
  {
  }

  /** When the model call fails both scripts store the failure default:
      "Application/Bot", the generic how-to, and the description or the
      "No description available" text. */
  lemma AiFailureRecord(variant: Variant, svc: Services, repo: Repo)
    requires svc.ai.Model?
    requires svc.ai.generate(repo.description.GetOr(""),
                             ReadmeExcerpt(FetchReadme(svc.fetch, repo.owner, repo.name))).None?
    ensures ProcessBot(variant, svc, repo).repoType == ApplicationBot
    ensures ProcessBot(variant, svc, repo).howToUse == FailureHowTo
    ensures ProcessBot(variant, svc, repo).whatItDoes
            == Some(if repo.description.GetOr("") == "" then NoDescription else repo.description.value)
  {
  }

  /** The two scripts build the same record apart from the kind. */
  lemma VariantsDifferOnlyInRepoType(svc: Services, repo: Repo)
    ensures ProcessBot(MainScript, svc, repo).(repoType := "")
         == ProcessBot(ScraperScript, svc, repo).(repoType := "")
    ensures Confident(Enrichment(svc, repo).repoType) ==>
      ProcessBot(MainScript, svc, repo).repoType == ProcessBot(ScraperScript, svc, repo).repoType
  {
  }

  /** The category text gives back the topics, which are non-empty and
      contain no comma. */
  lemma CategoryRecoversTopics(variant: Variant, svc: Services, repo: Repo)
    requires forall i :: 0 <= i < |repo.topics| ==> repo.topics[i] != "" && ',' !in repo.topics[i]
    ensures Split(ProcessBot(variant, svc, repo).category, TopicSeparator) == repo.topics
  {
    SplitJoin(repo.topics, TopicSeparator);
  }

  /** Repositories with different owner or name get different keys. */
  lemma DistinctRepositoriesDistinctKeys(variant: Variant, svc: Services, a: Repo, b: Repo)
    requires '/' !in a.owner && '/' !in b.owner
    requires a.owner != b.owner || a.name != b.name
    ensures ProcessBot(variant, svc, a).fullName != ProcessBot(variant, svc, b).fullName
  {
    if FullName(a.owner, a.name) == FullName(b.owner, b.name) {
      FullNameInjective(a.owner, a.name, b.owner, b.name);
    }
  }

  /** A repository described as "A wrapper for Telegram", with topics
      "telegram" and "sdk", no license, no README and no model. */
  function AcmeRepo(): Repo {
    Repo("acme", "tgbot", Some("A wrapper for Telegram"), None, ["telegram", "sdk"],
         None, Some(42), None, None, None, None)
  }

  function OfflineServices(): Services {
    Services((owner, name, path) => "", NoModel, js => None)
  }

  /** "wrapper" is a library keyword, so the heuristic answers "Library/Module". */
  lemma AcmeHeuristic()
    ensures RepoTypeHeuristic("", "tgbot", "A wrapper for Telegram", "") == LibraryModule
  {
    var raw := "tgbot" + " " + "A wrapper for Telegram" + " " + "";
    assert raw == "tgbot A " + "wrapper" + " for Telegram ";
    OccursBetween("tgbot A ", "wrapper", " for Telegram ");
    LowerKeepsLowerCaseOccurrence(raw, "wrapper", 8);
    assert OccursAt(ClassifierText("", "tgbot", "A wrapper for Telegram"), LibraryKeywords[0], 8);
  }

  /** The end-to-end example: the heuristic sees "wrapper" and main.py
      stores a library record. */
  lemma AcmeExample()
    ensures ProcessBot(MainScript, OfflineServices(), AcmeRepo()).fullName == "acme/tgbot"
    ensures ProcessBot(MainScript, OfflineServices(), AcmeRepo()).repoType == LibraryModule
    ensures ProcessBot(MainScript, OfflineServices(), AcmeRepo()).license == Some("None")
    ensures ProcessBot(MainScript, OfflineServices(), AcmeRepo()).category == "telegram, sdk"
  {
    AcmeKey();
    AcmeKind();
    AcmeCategory();
  }

  lemma AcmeKey()
    ensures FullName(AcmeRepo().owner, AcmeRepo().name) == "acme/tgbot"
  {
    assert "acme" + "/" + "tgbot" == "acme/tgbot";
  }

  lemma AcmeKind()
    ensures ProcessBot(MainScript, OfflineServices(), AcmeRepo()).repoType == LibraryModule
  {
    NoModelRecord(OfflineServices(), AcmeRepo());
    AcmeHeuristic();
  }

  lemma AcmeCategory()
    ensures Join(AcmeRepo().topics, TopicSeparator) == "telegram, sdk"
  {
  }
}
