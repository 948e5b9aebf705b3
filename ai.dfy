/**
 * backend/ai/gemini.js: how each provider adapter turns a provider's answer
 * into a parsed value (text extraction, Markdown fence removal, trim,
 * `JSON.parse`, `null` on any failure) and the two fallback chains that try
 * OpenAI, then Gemini, then DeepSeek and return the first truthy result.
 *
 * The network is an oracle `net` from (provider, prompt) to the reply axios
 * would hand back, and `JSON.parse` is an abstract partial function `parse`.
 */
module Ai {
  import opened Js

  datatype Provider = OpenAI | GeminiApi | DeepSeek

  /** The order both chains try the providers in. */
  const Order: seq<Provider> := [OpenAI, GeminiApi, DeepSeek]

  /**
   * The prompt one chain sends to every provider. The three quiz adapters
   * embed the qualification into one and the same template, and the three
   * suggestion adapters the qualification and the JSON text of the answers.
   */
  datatype Prompt = QuizPrompt(qualification: string) | SuggestionPrompt(qualification: string, answers: Json)

  /** What one POST through axios yields: a rejection (network error or non-2xx status) or the decoded response body. */
  datatype Reply = Rejected | Answered(data: Json)

  // ---------------------------------------------------------------------------
  // Reading the provider's text out of the response body

  datatype Step = Key(name: string) | Index(i: nat)

  /** A property of a parsed object; `JSON.parse` keeps the last of duplicated keys. */
  function LastMember(members: seq<(string, Json)>, key: string): Option<Json>
    decreases |members|
  {
    if members == [] then None
    else if members[|members| - 1].0 == key then Some(members[|members| - 1].1)
    else LastMember(members[..|members| - 1], key)
  }

  /**
   * One property access `v.name` or `v[i]`; `None` stands for `undefined`.
   * `v[i]` reads an array element, the property named by the digits of `i`
   * on an object, and a one-character string on a string. The names on the
   * providers' paths are not properties of any other kind of value.
   */
  function Lookup(v: Json, step: Step): Option<Json> {
    match step
    case Key(name) => if v.JObject? then LastMember(v.members, name) else None
    case Index(i) =>
      match v
      case JArray(items) => if i < |items| then Some(items[i]) else None
      case JObject(members) => LastMember(members, DecimalDigits(i))
      case JString(s) => if i < |s| then Some(JString([s[i]])) else None
      case _ => None
  }

  /** A chain of property accesses; reading through `undefined` throws, which ends the walk with `None`. */
  function Walk(v: Json, steps: seq<Step>): Option<Json>
    decreases |steps|
  {
    if steps == [] then Some(v)
    else
      match Lookup(v, steps[0])
      case None => None
      case Some(w) => Walk(w, steps[1..])
  }

  /** Where each provider puts its text. */
  function TextPath(p: Provider): seq<Step> {
    if p == GeminiApi then [Key("candidates"), Index(0), Key("content"), Key("parts"), Index(0), Key("text")]
    else [Key("choices"), Index(0), Key("message"), Key("content")]
  }

  /**
   * The provider's text, when the body has a string at the provider's path;
   * `None` when the path breaks off or ends in a non-string, in which case
   * the adapter throws (reading through `undefined`, or calling `replace` on
   * a value that has none).
   */
  function ReplyText(p: Provider, data: Json): (t: Option<string>)
    ensures t.Some? <==> exists v :: Walk(data, TextPath(p)) == Some(v) && v.JString?
    ensures t.Some? ==> Walk(data, TextPath(p)) == Some(JString(t.value))
  {
    match Walk(data, TextPath(p))
    case Some(JString(s)) => Some(s)
    case _ => None
  }

  /** `choices[0]` on an object reads its property "0", so such a body yields text too. */
  lemma ObjectIndexedByZero(t: string)
    ensures ReplyText(OpenAI, JObject([("choices", JObject([("0", JObject([("message", JObject([("content", JString(t))]))]))]))]))
            == Some(t)
  {
    var message := JObject([("message", JObject([("content", JString(t))]))]);
    var choices := JObject([("0", message)]);
    var body := JObject([("choices", choices)]);
    var path := TextPath(OpenAI);
    assert DecimalDigits(0) == "0";
    assert Lookup(body, path[0]) == Some(choices);
    assert Lookup(choices, path[1]) == Some(message);
    assert Walk(JString(t), path[4..]) == Some(JString(t));
    assert Walk(body, path) == Walk(message, path[2..]);
  }

  // ---------------------------------------------------------------------------
  // text.replace(/^```json|^```|```$/gim, '').trim()

  const Fence: string := "```"

  /** `^` in multiline mode: the start of the text or just after a line terminator. */
  predicate AtLineStart(s: string, i: nat)
    requires i <= |s|
  {
    i == 0 || IsLineTerminator(s[i - 1])
  }

  /** `$` in multiline mode: the end of the text or just before a line terminator. */
  predicate AtLineEnd(s: string, i: nat)
    requires i <= |s|
  {
    i == |s| || IsLineTerminator(s[i])
  }

  predicate FenceAt(s: string, i: nat) {
    i + 3 <= |s| && s[i..i + 3] == Fence
  }

  /** `json` under the `i` flag, which folds ASCII letters only. */
  predicate JsonTagAt(s: string, i: nat) {
    i + 4 <= |s| && Lower(s[i..i + 4]) == "json"
  }

  /**
   * Length of the match the pattern finds at index `i`, trying its three
   * alternatives from left to right, or 0 where none of them matches.
   */
  function MatchLength(s: string, i: nat): nat
    requires i <= |s|
  {
    if AtLineStart(s, i) && FenceAt(s, i) && JsonTagAt(s, i + 3) then 7
    else if AtLineStart(s, i) && FenceAt(s, i) then 3
    else if FenceAt(s, i) && AtLineEnd(s, i + 3) then 3
    else 0
  }

  /**
   * The global replace applied to `s[i..]`: each match is dropped and the
   * scan resumes right after it, so matches never overlap; the anchors are
   * judged against the whole original text.
   */
  function RemoveFencesFrom(s: string, i: nat): (r: string)
    requires i <= |s|
    decreases |s| - i
  {
    if i == |s| then []
    else if MatchLength(s, i) > 0 then RemoveFencesFrom(s, i + MatchLength(s, i))
    else [s[i]] + RemoveFencesFrom(s, i + 1)
  }

  function RemoveFences(s: string): string {
    RemoveFencesFrom(s, 0)
  }

  /** The text each adapter hands to `JSON.parse`. */
  function StripFences(s: string): (r: string)
    ensures r != [] ==> !IsWhiteSpace(r[0]) && !IsWhiteSpace(r[|r| - 1])
  {
    Trim(RemoveFences(s))
  }

  predicate NoBacktick(s: string) {
    '`' !in s
  }

  /** Text without backticks passes through the replace untouched. */
  lemma {:induction false} RemoveFencesKeepsPlainText(s: string, i: nat, j: nat)
    requires i <= j <= |s| && NoBacktick(s[i..j])
    ensures RemoveFencesFrom(s, i) == s[i..j] + RemoveFencesFrom(s, j)
    decreases j - i
  {
    if i < j {
      assert s[i..j] == [s[i]] + s[i + 1..j];
      assert MatchLength(s, i) == 0 by {
        if i + 3 <= |s| {
          assert s[i..i + 3][0] == s[i];
        }
      }
      RemoveFencesKeepsPlainText(s, i + 1, j);
    }
  }

  /** Text without backticks is only trimmed. */
  lemma StripFencesOfPlainText(p: string)
    requires NoBacktick(p)
    ensures StripFences(p) == Trim(p)
  {
    RemoveFencesKeepsPlainText(p, 0, |p|);
    assert p[0..|p|] == p;
    assert RemoveFencesFrom(p, |p|) == [];
    assert RemoveFences(p) == p;
  }

  /** The Markdown code block a provider may wrap its JSON in: an opening fence with an optional `json` tag in any letter case, whitespace before and after the payload, a closing fence. */
  function Fenced(tag: string, w1: string, payload: string, w2: string): string {
    Fence + tag + w1 + payload + w2 + Fence
  }

  /**
   * Fencing does not change the text handed to `JSON.parse`: for a payload
   * without backticks, stripping the fenced payload gives what stripping the
   * bare payload gives.
   */
  lemma {:induction false} FencedPayloadStripsToPayload(tag: string, w1: string, payload: string, w2: string)
    requires tag == "" || Lower(tag) == "json"
    requires w1 != [] && AllWhiteSpace(w1) && AllWhiteSpace(w2)
    requires NoBacktick(payload)
    ensures StripFences(Fenced(tag, w1, payload, w2)) == StripFences(payload)
  {
    var s := Fenced(tag, w1, payload, w2);
    var open := 3 + |tag|;
    var close := |s| - 3;
    var body := w1 + payload + w2;
    assert s == Fence + tag + body + Fence;
    assert s[..3] == Fence;
    assert s[open..close] == body;
    assert s[close..] == Fence;
    // The opening fence, with its tag, is one match.
    assert MatchLength(s, 0) == open by {
      assert FenceAt(s, 0) by { assert s[0..3] == s[..3]; }
      if tag == "" {
        assert s[3] == w1[0];
        assert !JsonTagAt(s, 3) by {
          if 3 + 4 <= |s| {
            assert Lower(s[3..7])[0] == LowerChar(w1[0]);
          }
        }
      } else {
        assert s[3..7] == tag;
      }
    }
    // The whitespace and the payload are kept as they are.
    assert NoBacktick(body) by {
      assert !IsWhiteSpace('`');
    }
    RemoveFencesKeepsPlainText(s, open, close);
    // The closing fence ends the text, so the third alternative takes it.
    assert MatchLength(s, close) == 3 by {
      assert FenceAt(s, close) by { assert s[close..close + 3] == s[close..]; }
      assert !JsonTagAt(s, close + 3);
    }
    assert RemoveFences(s) == body;
    TrimIgnoresPadding(w1, payload, w2);
    StripFencesOfPlainText(payload);
  }

  // ---------------------------------------------------------------------------
  // The adapters

  /** Fence removal, trim and `JSON.parse` of a provider's text; a parse error is caught and becomes `null`. */
  function Decode(text: string, parse: string -> Option<Json>): (r: Json)
    ensures r != JNull ==> parse(StripFences(text)) == Some(r)
    ensures parse(StripFences(text)).None? ==> r == JNull
    ensures parse(StripFences(text)).Some? ==> r == parse(StripFences(text)).value
  {
    match parse(StripFences(text))
    case None => JNull
    case Some(v) => v
  }

  /** A fenced payload decodes to the same value as the bare payload. */
  lemma DecodeIgnoresFences(tag: string, w1: string, payload: string, w2: string, parse: string -> Option<Json>)
    requires tag == "" || Lower(tag) == "json"
    requires w1 != [] && AllWhiteSpace(w1) && AllWhiteSpace(w2)
    requires NoBacktick(payload)
    ensures Decode(Fenced(tag, w1, payload, w2), parse) == Decode(payload, parse)
  {
    FencedPayloadStripsToPayload(tag, w1, payload, w2);
  }

  /**
   * One adapter (`openAIGenerateQuiz`, `geminiGenerateQuiz`, ...): every
   * failure (rejected request, missing text, parse error) becomes `null`,
   * and nothing is thrown to the caller.
   */
  function Adapter(p: Provider, reply: Reply, parse: string -> Option<Json>): (r: Json)
    ensures reply.Rejected? ==> r == JNull
    ensures reply.Answered? && ReplyText(p, reply.data).None? ==> r == JNull
    ensures r != JNull ==>
      reply.Answered? && ReplyText(p, reply.data).Some?
      && parse(StripFences(ReplyText(p, reply.data).value)) == Some(r)
    ensures reply.Answered? && ReplyText(p, reply.data).Some? ==>
      var parsed := parse(StripFences(ReplyText(p, reply.data).value));
      r == (if parsed.Some? then parsed.value else JNull)
  {
    match reply
    case Rejected => JNull
    case Answered(data) =>
      match ReplyText(p, data)
      case None => JNull
      case Some(text) => Decode(text, parse)
  }

  // ---------------------------------------------------------------------------
  // The fallback chains

  /** What provider `p`'s adapter returns for `prompt` when the network answers as `net` says. */
  function Outcome(p: Provider, prompt: Prompt, net: (Provider, Prompt) -> Reply, parse: string -> Option<Json>): Json {
    Adapter(p, net(p, prompt), parse)
  }

  /**
   * "First truthy result wins": the providers called are a prefix of the
   * fixed order, so each is called at most once; every provider called
   * before the last returned a falsy result; the last one's result is
   * returned unchanged; and the chain stops short of DeepSeek only on a
   * truthy result.
   */
  ghost predicate FallbackOutcome(prompt: Prompt, net: (Provider, Prompt) -> Reply, parse: string -> Option<Json>,
                                  result: Json, calls: seq<Provider>)
  {
    && 1 <= |calls| <= |Order|
    && calls == Order[..|calls|]
    && (forall i :: 0 <= i < |calls| - 1 ==> !Truthy(Outcome(calls[i], prompt, net, parse)))
    && result == Outcome(calls[|calls| - 1], prompt, net, parse)
    && (|calls| < |Order| ==> Truthy(result))
  }

  /** The fallback specification leaves no choice: it determines both the result and the calls made. */
  lemma FallbackOutcomeIsUnique(prompt: Prompt, net: (Provider, Prompt) -> Reply, parse: string -> Option<Json>,
                                r1: Json, calls1: seq<Provider>, r2: Json, calls2: seq<Provider>)
    requires FallbackOutcome(prompt, net, parse, r1, calls1)
    requires FallbackOutcome(prompt, net, parse, r2, calls2)
    ensures r1 == r2 && calls1 == calls2
  {
    FallbackCases(prompt, net, parse, r1, calls1);
    FallbackCases(prompt, net, parse, r2, calls2);
  }

  /** The three cases of the chain, read off the specification. */
  lemma FallbackCases(prompt: Prompt, net: (Provider, Prompt) -> Reply, parse: string -> Option<Json>,
                      result: Json, calls: seq<Provider>)
    requires FallbackOutcome(prompt, net, parse, result, calls)
    ensures var first := Outcome(OpenAI, prompt, net, parse);
            Truthy(first) ==> result == first && calls == [OpenAI]
    ensures var first, second := Outcome(OpenAI, prompt, net, parse), Outcome(GeminiApi, prompt, net, parse);
            !Truthy(first) && Truthy(second) ==> result == second && calls == [OpenAI, GeminiApi]
    ensures var first, second := Outcome(OpenAI, prompt, net, parse), Outcome(GeminiApi, prompt, net, parse);
            !Truthy(first) && !Truthy(second) ==> result == Outcome(DeepSeek, prompt, net, parse) && calls == Order
  {
    assert calls[0] == OpenAI;
    if |calls| >= 2 {
      assert calls[1] == GeminiApi;
    }
  }

  /** Call counts: each provider is called at most once, Gemini only after OpenAI, DeepSeek only after both. */
  lemma CallCounts(prompt: Prompt, net: (Provider, Prompt) -> Reply, parse: string -> Option<Json>,
                   result: Json, calls: seq<Provider>)
    requires FallbackOutcome(prompt, net, parse, result, calls)
    ensures forall p :: multiset(calls)[p] <= 1
    ensures calls[0] == OpenAI
    ensures GeminiApi in calls ==> OpenAI in calls
    ensures DeepSeek in calls ==> OpenAI in calls && GeminiApi in calls
  {
    if |calls| == 1 {
      assert calls == [OpenAI];
    } else if |calls| == 2 {
      assert calls == [OpenAI, GeminiApi];
    } else {
      assert calls == [OpenAI, GeminiApi, DeepSeek];
    }
  }

  /** `generateQuiz`: OpenAI first, then Gemini, then DeepSeek, returning early on a truthy result. */
  method GenerateQuiz(qualification: string, net: (Provider, Prompt) -> Reply, parse: string -> Option<Json>)
    returns (result: Json, calls: seq<Provider>)
    ensures FallbackOutcome(QuizPrompt(qualification), net, parse, result, calls)
  {
    var prompt := QuizPrompt(qualification);
    calls := [OpenAI];
    result := Outcome(OpenAI, prompt, net, parse);
    assert calls == Order[..1];
    if Truthy(result) {
      return;
    }
    calls := calls + [GeminiApi];
    result := Outcome(GeminiApi, prompt, net, parse);
    assert calls == Order[..2] && calls[0] == OpenAI;
    assert !Truthy(Outcome(calls[0], prompt, net, parse));
    if Truthy(result) {
      return;
    }
    calls := calls + [DeepSeek];
    result := Outcome(DeepSeek, prompt, net, parse);
    assert calls == Order && calls[1] == GeminiApi;
    assert !Truthy(Outcome(calls[0], prompt, net, parse)) && !Truthy(Outcome(calls[1], prompt, net, parse));
  }

  /** `careerSuggestion`: the same order and the same rules as `generateQuiz`. */
  method CareerSuggestion(qualification: string, answers: Json, net: (Provider, Prompt) -> Reply, parse: string -> Option<Json>)
    returns (result: Json, calls: seq<Provider>)
    ensures FallbackOutcome(SuggestionPrompt(qualification, answers), net, parse, result, calls)
  {
    var prompt := SuggestionPrompt(qualification, answers);
    calls := [OpenAI];
    result := Outcome(OpenAI, prompt, net, parse);
    assert calls == Order[..1];
    if Truthy(result) {
      return;
    }
    calls := calls + [GeminiApi];
    result := Outcome(GeminiApi, prompt, net, parse);
    assert calls == Order[..2] && calls[0] == OpenAI;
    assert !Truthy(Outcome(calls[0], prompt, net, parse));
    if Truthy(result) {
      return;
    }
    calls := calls + [DeepSeek];
    result := Outcome(DeepSeek, prompt, net, parse);
    assert calls == Order && calls[1] == GeminiApi;
    assert !Truthy(Outcome(calls[0], prompt, net, parse)) && !Truthy(Outcome(calls[1], prompt, net, parse));
  }

  // ---------------------------------------------------------------------------
  // The module's exports

  datatype Export = QuizChain | SuggestionChain

  /** `module.exports`: both names carry a Gemini prefix but are bound to the chains. */
  const Exports: map<string, Export> := map["geminiGenerateQuiz" := QuizChain, "geminiCareerSuggestion" := SuggestionChain]

  /** Only the two chains are exported; `getCareerTitles` and `getCareerDetails` are not. */
  lemma ExportsAreTheChains()
    ensures Exports.Keys == {"geminiGenerateQuiz", "geminiCareerSuggestion"}
    ensures Exports["geminiGenerateQuiz"] == QuizChain && Exports["geminiCareerSuggestion"] == SuggestionChain
    ensures "getCareerTitles" !in Exports && "getCareerDetails" !in Exports
  {
  }
}
