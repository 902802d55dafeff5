/** The keyword classifier `get_repo_type_heuristic` (main.py), used when
    the AI step gives no usable repository kind. */
module Heuristic {
  import opened Text
  import opened Records

  /** Terms that mark a library; they take precedence. */
  const LibraryKeywords: seq<string> := [
    "wrapper", "library", "api-client", "sdk", "framework",
    "for developers", "binding", "client for", "toolkit"]

  /** Terms that mark a ready-to-run application. */
  const ApplicationKeywords: seq<string> := [
    "bot for", "ready to use", "run with", "deployment",
    "docker-compose", "self-hosted", "personal bot"]

  /** The lower-cased text the keywords are searched in. */
  function ClassifierText(readme: string, name: string, description: string): (text: string)
    ensures |text| == |name| + 1 + |description| + 1 + |readme|
    ensures text == Lower(name) + " " + Lower(description) + " " + Lower(readme)
    ensures forall i :: 0 <= i < |text| ==> !('A' <= text[i] <= 'Z')
  {
    LowerConcat(name + " " + description, " " + readme);
    LowerConcat(name, " " + description);
    LowerConcat(" ", description);
    LowerConcat(" ", readme);
    assert Lower(" ") == " ";
    Lower(name + " " + description + " " + readme)
  }

  /** Some keyword of `keys` occurs in `text`. */
  ghost predicate Mentions(text: string, keys: seq<string>) {
    exists i :: 0 <= i < |keys| && Occurs(text, keys[i])
  }

  /** Python's `any(k in text for k in keys)`. */
  function AnyContains(text: string, keys: seq<string>): (b: bool)
    ensures b <==> Mentions(text, keys)
    decreases |keys|
  {
    if |keys| == 0 then false
    else if Contains(text, keys[0]) then true
    else
      var b := AnyContains(text, keys[1..]);
      assert forall i :: 1 <= i < |keys| ==> keys[i] == keys[1..][i - 1];
      b
  }

  /** The packaging rule: it looks at the README as written, not lower-cased. */
  ghost predicate HasPackagingFile(readme: string) {
    Occurs(readme, "setup.py") || Occurs(readme, "pyproject.toml")
  }

  function RepoTypeHeuristic(readme: string, name: string, description: string, language: string): (t: string)
    ensures IsCanonical(t)
    ensures Mentions(ClassifierText(readme, name, description), LibraryKeywords) ==> t == LibraryModule
    ensures t == LibraryModule <==>
      || Mentions(ClassifierText(readme, name, description), LibraryKeywords)
      || (&& !Mentions(ClassifierText(readme, name, description), ApplicationKeywords)
          && language == "Python"
          && HasPackagingFile(readme))
  {
    var text := ClassifierText(readme, name, description);
    if AnyContains(text, LibraryKeywords) then LibraryModule
    else if AnyContains(text, ApplicationKeywords) then ApplicationBot
    else if language == "Python" && (Contains(readme, "setup.py") || Contains(readme, "pyproject.toml")) then LibraryModule
    else ApplicationBot
  }

  /** A library keyword at any position of the classifier text decides. */
  lemma LibraryKeywordAt(readme: string, name: string, description: string, language: string, k: nat, j: int)
    requires k < |LibraryKeywords| && OccursAt(ClassifierText(readme, name, description), LibraryKeywords[k], j)
    ensures RepoTypeHeuristic(readme, name, description, language) == LibraryModule
  {
  }

  lemma KeywordInName(readme: string, name: string, description: string, kw: string, i: int)
    requires OccursAt(Lower(name), kw, i)
    ensures OccursAt(ClassifierText(readme, name, description), kw, i)
  {
    OccursWithin([], Lower(name), " " + Lower(description) + " " + Lower(readme), kw, i);
    assert [] + Lower(name) + (" " + Lower(description) + " " + Lower(readme))
        == Lower(name) + " " + Lower(description) + " " + Lower(readme);
  }

  lemma KeywordInDescription(readme: string, name: string, description: string, kw: string, i: int)
    requires OccursAt(Lower(description), kw, i)
    ensures OccursAt(ClassifierText(readme, name, description), kw, |name| + 1 + i)
  {
    OccursWithin(Lower(name) + " ", Lower(description), " " + Lower(readme), kw, i);
    assert Lower(name) + " " + Lower(description) + (" " + Lower(readme))
        == Lower(name) + " " + Lower(description) + " " + Lower(readme);
  }

  lemma KeywordInReadme(readme: string, name: string, description: string, kw: string, i: int)
    requires OccursAt(Lower(readme), kw, i)
    ensures OccursAt(ClassifierText(readme, name, description), kw, |name| + 1 + |description| + 1 + i)
  {
    var before := Lower(name) + " " + Lower(description) + " ";
    OccursWithin(before, Lower(readme), [], kw, i);
    assert before + Lower(readme) + [] == before + Lower(readme);
  }

  /** A library keyword in the lower-cased name, description or README,
      wherever it stands, makes the repository a library. */
  lemma LibraryKeywordAnywhere(readme: string, name: string, description: string, language: string, k: nat, i: int)
    requires k < |LibraryKeywords|
    requires || OccursAt(Lower(name), LibraryKeywords[k], i)
             || OccursAt(Lower(description), LibraryKeywords[k], i)
             || OccursAt(Lower(readme), LibraryKeywords[k], i)
    ensures RepoTypeHeuristic(readme, name, description, language) == LibraryModule
  {
    var kw := LibraryKeywords[k];
    if OccursAt(Lower(name), kw, i) {
      KeywordInName(readme, name, description, kw, i);
      LibraryKeywordAt(readme, name, description, language, k, i);
    } else if OccursAt(Lower(description), kw, i) {
      KeywordInDescription(readme, name, description, kw, i);
      LibraryKeywordAt(readme, name, description, language, k, |name| + 1 + i);
    } else {
      KeywordInReadme(readme, name, description, kw, i);
      LibraryKeywordAt(readme, name, description, language, k, |name| + 1 + |description| + 1 + i);
    }
  }
}
