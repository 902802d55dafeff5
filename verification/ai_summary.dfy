/** `get_gemini_summary`: the degraded modes and the clean-up applied to the
    model's reply before it is decoded as JSON. The model call itself and
    `json.loads` are parameters: the model is a function from the prompt's
    two variable parts to a reply (`None` when the call raises), and the
    decoder maps candidate JSON text to a summary (`None` when decoding
    fails). */
module AiSummary {
  import opened Wrappers
  import opened Text
  import opened Records

  /** How many README characters the prompt embeds. */
  const ReadmeBudget: nat := 5000

  const MissingKeyHowTo: string := "API Key missing."
  const FailureHowTo: string := "Refer to the GitHub repository for installation and usage instructions."
  const NoDescription: string := "No description available"

  /** The configured model, if any: given the description and the README
      excerpt it answers with reply text, or `None` when the call fails. */
  datatype AiModel = NoModel | Model(generate: (string, string) -> Option<string>)

  /** `json.loads` followed by reading the three keys. */
  type JsonDecoder = string -> Option<Summary>

  /** `readme[:5000]`. */
  function ReadmeExcerpt(readme: string): (e: string)
    ensures e <= readme
    ensures |e| == if |readme| < ReadmeBudget then |readme| else ReadmeBudget
  {
    if |readme| < ReadmeBudget then readme else readme[..ReadmeBudget]
  }

  /** The answer when no model is configured. */
  function MissingKeySummary(description: string): (s: Summary)
    ensures s.whatItDoes == Some(description)
    ensures Truthy(s.howToUse)
    ensures s.repoType.Some? && !IsCanonical(s.repoType.value)
  {
    Summary(Some(description), Some(MissingKeyHowTo), Some(UnknownType))
  }

  /** The answer when the call, the search for an object or the decoding fails. */
  function FailureSummary(description: string): (s: Summary)
    ensures Truthy(s.whatItDoes) && Truthy(s.howToUse)
    ensures s.repoType == Some(ApplicationBot)
    ensures description != "" ==> s.whatItDoes == Some(description)
  {
    Summary(Some(if description == "" then NoDescription else description),
            Some(FailureHowTo), Some(ApplicationBot))
  }

  /** `re.sub(r'^```(?:json)?\n', '', t)`: the optional `json` tag is tried first. */
  function DropOpeningFence(t: string): (r: string)
    ensures |r| <= |t| && r == t[|t| - |r|..]
    ensures '{' !in t[..|t| - |r|] && '}' !in t[..|t| - |r|]
    ensures StartsWith(t, "```json\n") ==> "```json\n" + r == t
    ensures !StartsWith(t, "```json\n") && StartsWith(t, "```\n") ==> "```\n" + r == t
    ensures !StartsWith(t, "```json\n") && !StartsWith(t, "```\n") ==> r == t
  {
    if StartsWith(t, "```json\n") then t[8..]
    else if StartsWith(t, "```\n") then t[4..]
    else t
  }

  /** `re.sub(r'\n```$', '', t)`: `$` matches at the very end and also just
      before a final newline, which then survives. */
  function DropClosingFence(t: string): (r: string)
    ensures r <= t
    ensures forall c :: c in r ==> c in t
    ensures '{' !in t[|r|..] && '}' !in t[|r|..]
    ensures EndsWith(t, "\n```") ==> r + "\n```" == t
    ensures !EndsWith(t, "\n```") && EndsWith(t, "\n```\n") ==> r + "```\n" == t
    ensures !EndsWith(t, "\n```") && !EndsWith(t, "\n```\n") ==> r == t
  {
    if EndsWith(t, "\n```") then t[..|t| - 4]
    else if EndsWith(t, "\n```\n") then
      assert t[|t| - 1] == '\n';
      t[..|t| - 5] + "\n"
    else t
  }

  /** Fence removal, applied only when the (stripped) reply starts with a fence. */
  function Unfence(t: string): (r: string)
    ensures !StartsWith(t, "```") ==> r == t
    ensures !StartsWith(t, "```json\n") && !StartsWith(t, "```\n") && !EndsWith(t, "\n```") && !EndsWith(t, "\n```\n") ==> r == t
    ensures forall c :: c in r ==> c in t
  {
    if StartsWith(t, "```") then DropClosingFence(DropOpeningFence(t)) else t
  }

  /** Some `{` comes before some `}` in `t`. */
  ghost predicate HasBracePair(t: string) {
    exists i, j :: 0 <= i < j < |t| && t[i] == '{' && t[j] == '}'
  }

  /** `t[i..j + 1]` runs from the first `{` of `t` to its last `}`. */
  ghost predicate GreedySpan(t: string, i: int, j: int) {
    && 0 <= i < j < |t| && t[i] == '{' && t[j] == '}'
    && (forall k :: 0 <= k < i ==> t[k] != '{')
    && (forall k :: j < k < |t| ==> t[k] != '}')
  }

  /** `re.search(r'\{.*\}', t, re.DOTALL)`: the leftmost match starts at the
      first `{` and, `.*` being greedy, ends at the last `}`. */
  function ObjectSpan(t: string): (r: Option<string>)
    ensures r.Some? <==> HasBracePair(t)
    ensures r.Some? ==> |r.value| >= 2 && r.value[0] == '{' && r.value[|r.value| - 1] == '}'
    ensures r.Some? ==> exists i, j :: GreedySpan(t, i, j) && r.value == t[i..j + 1]
  {
    var first := FirstIndexOf(t, '{');
    var last := LastIndexOf(t, '}');
    if first.Some? && last.Some? && first.value < last.value then
      assert GreedySpan(t, first.value, last.value);
      Some(t[first.value..last.value + 1])
    else
      assert !HasBracePair(t) by {
        forall i, j | 0 <= i < j < |t|
          ensures !(t[i] == '{' && t[j] == '}')
        {
          assert t[i] in t && t[j] in t;
        }
      }
      None
  }

  /** The object span of cleaned-up reply text, with every `'` replaced by `"`. */
  function ObjectCandidate(text: string): (r: Option<string>)
    ensures r.Some? ==> |r.value| >= 2 && r.value[0] == '{' && r.value[|r.value| - 1] == '}'
    ensures r.Some? ==> '\'' !in r.value
    ensures r.None? <==> !HasBracePair(text)
    ensures r.Some? ==> exists i, j :: GreedySpan(text, i, j) && r.value == ReplaceChar(text[i..j + 1], '\'', '"')
  {
    match ObjectSpan(text)
    case None => None
    case Some(span) => Some(ReplaceChar(span, '\'', '"'))
  }

  /** The text handed to the decoder: the reply stripped, unfenced, cut to
      its greedy object span, with every `'` replaced by `"`. */
  function CandidateJson(reply: string): (r: Option<string>)
    ensures r.Some? ==> |r.value| >= 2 && r.value[0] == '{' && r.value[|r.value| - 1] == '}'
    ensures r.Some? ==> '\'' !in r.value
    ensures r.Some? <==> HasBracePair(Unfence(Strip(reply)))
    ensures r.Some? ==> exists i, j ::
      && GreedySpan(Unfence(Strip(reply)), i, j)
      && r.value == ReplaceChar(Unfence(Strip(reply))[i..j + 1], '\'', '"')
  {
    ObjectCandidate(Unfence(Strip(reply)))
  }

  /** Text shaped like the object span after quote replacement. */
  predicate ObjectText(js: string) {
    |js| >= 2 && js[0] == '{' && js[|js| - 1] == '}' && '\'' !in js
  }

  /** `get_gemini_summary(readme, description)`. */
  function Summarize(ai: AiModel, decode: JsonDecoder, readme: string, description: string): (s: Summary)
    ensures ai.NoModel? ==> s == MissingKeySummary(description)
    ensures ai.Model? && ai.generate(description, ReadmeExcerpt(readme)).None? ==> s == FailureSummary(description)
    ensures ai.Model? && ai.generate(description, ReadmeExcerpt(readme)).Some? ==>
      var candidate := CandidateJson(ai.generate(description, ReadmeExcerpt(readme)).value);
      && (candidate.None? ==> s == FailureSummary(description))
      && (candidate.Some? && decode(candidate.value).None? ==> s == FailureSummary(description))
      && (candidate.Some? && decode(candidate.value).Some? ==> s == decode(candidate.value).value)
  {
    match ai
    case NoModel => MissingKeySummary(description)
    case Model(generate) =>
      match generate(description, ReadmeExcerpt(readme))
      case None => FailureSummary(description)
      case Some(reply) =>
        match CandidateJson(reply)
        case None => FailureSummary(description)
        case Some(js) =>
          match decode(js)
          case None => FailureSummary(description)
          case Some(parsed) => parsed
  }

  /** With a model configured the summary is either the fixed default or
      what the decoder made of the reply's own candidate, which is
      object-shaped text. */
  lemma SummaryDecodedOrDefault(ai: AiModel, decode: JsonDecoder, readme: string, description: string)
    requires ai.Model?
    ensures var s := Summarize(ai, decode, readme, description);
      var reply := ai.generate(description, ReadmeExcerpt(readme));
      || s == FailureSummary(description)
      || (&& reply.Some? && CandidateJson(reply.value).Some?
          && ObjectText(CandidateJson(reply.value).value)
          && decode(CandidateJson(reply.value).value) == Some(s))
  {
  }

  /** A reply without a `{` or without a `}` always degrades to the default. */
  lemma NoBraceMeansFailure(ai: AiModel, decode: JsonDecoder, readme: string, description: string)
    requires ai.Model?
    requires match ai.generate(description, ReadmeExcerpt(readme))
             case None => true
             case Some(reply) => '{' !in reply || '}' !in reply
    ensures Summarize(ai, decode, readme, description) == FailureSummary(description)
  {
  }

  /** Only the first 5000 README characters can influence the summary. */
  lemma SummaryReadsOnlyExcerpt(ai: AiModel, decode: JsonDecoder, readme1: string, readme2: string, description: string)
    requires ReadmeExcerpt(readme1) == ReadmeExcerpt(readme2)
    ensures Summarize(ai, decode, readme1, description) == Summarize(ai, decode, readme2, description)
  {
  }

  /** There is only one greedy span. */
  lemma GreedySpanUnique(t: string, i: int, j: int, i2: int, j2: int)
    requires GreedySpan(t, i, j) && GreedySpan(t, i2, j2)
    ensures i == i2 && j == j2
  {
  }

  /** Text without braces on either side of `m` adds no brace pair. */
  lemma PaddedPairs(p: string, m: string, q: string)
    requires '{' !in p && '}' !in p && '{' !in q && '}' !in q
    ensures HasBracePair(p + m + q) <==> HasBracePair(m)
  {
    var t := p + m + q;
    if HasBracePair(t) {
      var a, b :| 0 <= a < b < |t| && t[a] == '{' && t[b] == '}';
      assert a >= |p| by {
        assert forall k :: 0 <= k < |p| ==> t[k] == p[k] && p[k] in p;
      }
      assert b < |p| + |m| by {
        assert forall k :: |p| + |m| <= k < |t| ==> t[k] == q[k - |p| - |m|] && q[k - |p| - |m|] in q;
      }
      assert m[a - |p|] == '{' && m[b - |p|] == '}';
    }
    if HasBracePair(m) {
      var a, b :| 0 <= a < b < |m| && m[a] == '{' && m[b] == '}';
      assert t[|p| + a] == '{' && t[|p| + b] == '}';
    }
  }

  /** The greedy span of `m` is still the greedy span with brace-free text
      on either side, shifted past the text before it. */
  lemma PaddedGreedy(p: string, m: string, q: string, i: int, j: int)
    requires '{' !in p && '}' !in p && '{' !in q && '}' !in q
    requires GreedySpan(m, i, j)
    ensures GreedySpan(p + m + q, |p| + i, |p| + j)
    ensures (p + m + q)[|p| + i..|p| + j + 1] == m[i..j + 1]
  {
    var t := p + m + q;
    assert forall k :: 0 <= k < |p| ==> t[k] == p[k] && p[k] in p;
    assert forall k :: |p| <= k < |p| + |m| ==> t[k] == m[k - |p|];
    assert forall k :: |p| + |m| <= k < |t| ==> t[k] == q[k - |p| - |m|] && q[k - |p| - |m|] in q;
  }

  /** The bounds of the object span, when there is one. */
  lemma SpanBounds(t: string) returns (i: int, j: int)
    requires HasBracePair(t)
    ensures GreedySpan(t, i, j) && ObjectSpan(t) == Some(t[i..j + 1])
  {
    var span := ObjectSpan(t);
    i, j :| GreedySpan(t, i, j) && span.value == t[i..j + 1];
  }

  /** Text without braces on either side of `m` leaves its object span alone. */
  lemma {:induction false} ObjectSpanPadded(p: string, m: string, q: string)
    requires '{' !in p && '}' !in p && '{' !in q && '}' !in q
    ensures ObjectSpan(p + m + q) == ObjectSpan(m)
  {
    PaddedPairs(p, m, q);
    if HasBracePair(m) {
      var i, j := SpanBounds(m);
      PaddedGreedy(p, m, q, i, j);
      var i2, j2 := SpanBounds(p + m + q);
      GreedySpanUnique(p + m + q, |p| + i, |p| + j, i2, j2);
      assert (p + m + q)[i2..j2 + 1] == m[i..j + 1];
    } else {
      NoPairNoSpan(m);
      NoPairNoSpan(p + m + q);
    }
  }

  lemma NoPairNoSpan(t: string)
    requires !HasBracePair(t)
    ensures ObjectSpan(t) == None
  {
  }

  /** Fence removal never changes the object span: a fence holds no brace. */
  lemma UnfenceKeepsSpan(t: string)
    ensures ObjectSpan(Unfence(t)) == ObjectSpan(t)
  {
    if StartsWith(t, "```") {
      var rest := DropOpeningFence(t);
      var body := DropClosingFence(rest);
      var before := t[..|t| - |rest|];
      var after := rest[|body|..];
      assert t == before + body + after;
      ObjectSpanPadded(before, body, after);
    }
  }

  /** The candidate is the object span of the stripped reply, fenced or not. */
  lemma FencesNeverMatter(reply: string)
    ensures CandidateJson(reply) == ObjectCandidate(Strip(reply))
  {
    UnfenceKeepsSpan(Strip(reply));
  }

  /** In prose around an object, the span found is exactly the object. */
  lemma {:induction false} EmbeddedObjectSpan(pre: string, obj: string, post: string)
    requires '{' !in pre && '}' !in post
    requires |obj| >= 2 && obj[0] == '{' && obj[|obj| - 1] == '}'
    ensures ObjectSpan(pre + obj + post) == Some(obj)
  {
    var t := pre + obj + post;
    var i := |pre|;
    var j := |pre| + |obj| - 1;
    assert t[i] == '{' && t[j] == '}';
    assert forall k :: 0 <= k < i ==> t[k] == pre[k];
    assert forall k :: j < k < |t| ==> t[k] == post[k - j - 1];
    assert t[i] in t && t[j] in t;
    assert t[i..j + 1] == obj;
  }

  /** A fenced reply with prose around a well-formed object yields that
      object's decoded fields. */
  lemma {:induction false} FencedReplyDecoded(
    ai: AiModel, decode: JsonDecoder, readme: string, description: string,
    tagged: bool, pre: string, obj: string, post: string)
    requires ai.Model?
    requires '{' !in pre && '}' !in post
    requires |obj| >= 2 && obj[0] == '{' && obj[|obj| - 1] == '}' && '\'' !in obj
    requires ai.generate(description, ReadmeExcerpt(readme))
             == Some(OpeningFence(tagged) + (pre + obj + post) + "\n```")
    requires decode(obj).Some?
    ensures Summarize(ai, decode, readme, description) == decode(obj).value
  {
    FencedCandidate(tagged, pre, obj, post);
  }

  /** A bare object as the whole reply is decoded as it is. */
  lemma {:induction false} PlainReplyDecoded(ai: AiModel, decode: JsonDecoder, readme: string, description: string, obj: string)
    requires ai.Model?
    requires |obj| >= 2 && obj[0] == '{' && obj[|obj| - 1] == '}' && '\'' !in obj
    requires ai.generate(description, ReadmeExcerpt(readme)) == Some(obj)
    requires decode(obj).Some?
    ensures Summarize(ai, decode, readme, description) == decode(obj).value
  {
    assert CandidateJson(obj) == Some(obj) by {
      StripPadded([], obj, []);
      assert [] + obj + [] == obj;
      assert !StartsWith(obj, "```");
      EmbeddedCandidate([], obj, []);
    }
  }

  /** The candidate JSON of a fenced reply with prose around an object is
      that object. */
  lemma FencedCandidate(tagged: bool, pre: string, obj: string, post: string)
    requires '{' !in pre && '}' !in post
    requires |obj| >= 2 && obj[0] == '{' && obj[|obj| - 1] == '}' && '\'' !in obj
    ensures CandidateJson(OpeningFence(tagged) + (pre + obj + post) + "\n```") == Some(obj)
  {
    UnfenceWrapped(tagged, pre + obj + post);
    EmbeddedCandidate(pre, obj, post);
  }

  /** The candidate of prose around an object is the object. */
  lemma EmbeddedCandidate(pre: string, obj: string, post: string)
    requires '{' !in pre && '}' !in post
    requires |obj| >= 2 && obj[0] == '{' && obj[|obj| - 1] == '}' && '\'' !in obj
    ensures ObjectCandidate(pre + obj + post) == Some(obj)
  {
    EmbeddedObjectSpan(pre, obj, post);
    ReplaceAbsentChar(obj, '\'', '"');
  }

  /** The opening fence, with or without the `json` tag. */
  function OpeningFence(tagged: bool): string {
    if tagged then "```json\n" else "```\n"
  }

  /** Stripping and unfencing a fenced reply gives back its body. */
  lemma UnfenceWrapped(tagged: bool, body: string)
    ensures Unfence(Strip(OpeningFence(tagged) + body + "\n```")) == body
  {
    var reply := OpeningFence(tagged) + body + "\n```";
    var inner := body + "\n```";
    StripKeepsFencedReply(reply);
    DropOpeningFenceOf(tagged, inner);
    assert reply == OpeningFence(tagged) + inner;
    DropClosingFenceOf(body);
  }

  lemma StripKeepsFencedReply(reply: string)
    requires |reply| > 0 && reply[0] == '`' && reply[|reply| - 1] == '`'
    ensures Strip(reply) == reply
  {
  }

  lemma DropOpeningFenceOf(tagged: bool, inner: string)
    ensures StartsWith(OpeningFence(tagged) + inner, "```")
    ensures DropOpeningFence(OpeningFence(tagged) + inner) == inner
  {
    var t := OpeningFence(tagged) + inner;
    assert t[..3] == "```";
    if tagged {
      assert t[..8] == "```json\n";
      assert t[8..] == inner;
    } else {
      assert t[3] == '\n';
      assert t[..4] == "```\n";
      assert t[4..] == inner;
    }
  }

  lemma DropClosingFenceOf(body: string)
    ensures DropClosingFence(body + "\n```") == body
  {
  }
}
