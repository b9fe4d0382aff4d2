/** The rule-based parts of backend/services/ai_chatbot.py: keyword domain
    detection, the domain choice of `process_message`, the fallback answers,
    suggestion and resource extraction, and the chat statistics. The model
    client, the database and the clock are not part of this model; the chat
    history is an input. */
module Chatbot {
  import opened Strings

  // -------------------------------------------------------- domain detection

  /** The keyword lists of `domain_contexts`, in the dictionary's order. */
  const Contexts: seq<(string, seq<string>)> := [
    ("data_science", ["python", "pandas", "numpy", "scikit-learn", "tensorflow", "pytorch",
                      "machine learning", "deep learning", "statistics", "data analysis"]),
    ("app_development", ["react", "javascript", "html", "css", "node.js", "mobile app",
                         "android", "ios", "flutter", "react native"]),
    ("cyber_security", ["security", "encryption", "vulnerability", "penetration testing",
                        "network security", "malware", "firewall"]),
    ("general", [])]

  /** Some keyword occurs in `text`. */
  predicate HasKeyword(text: string, keywords: seq<string>) {
    exists j :: 0 <= j < |keywords| && Contains(text, keywords[j])
  }

  /** The first context from `k` on, other than 'general', with a keyword in `text`. */
  function DomainFrom(text: string, k: nat): (r: string)
    requires k <= |Contexts|
    decreases |Contexts| - k
  {
    if k == |Contexts| then "general"
    else if Contexts[k].0 != "general" && HasKeyword(text, Contexts[k].1) then Contexts[k].0
    else DomainFrom(text, k + 1)
  }

  /** `detect_domain` on the lower-cased message. */
  function DomainOf(message: string): string {
    DomainFrom(PyLower(message), 0)
  }

  /** `detect_domain`: scan the contexts in order, count the keywords that
      occur in the lower-cased message and return the first context with one. */
  method DetectDomain(message: string) returns (domain: string)
    ensures domain == DomainOf(message)
  {
    var lower := PyLower(message);
    for i := 0 to |Contexts|
      invariant DomainFrom(lower, 0) == DomainFrom(lower, i)
    {
      var (name, keywords) := Contexts[i];
      if name == "general" {
        continue;
      }
      var matches := 0;
      for j := 0 to |keywords|
        invariant matches > 0 <==> exists j' :: 0 <= j' < j && Contains(lower, keywords[j'])
      {
        if Contains(lower, keywords[j]) {
          matches := matches + 1;
        }
      }
      if matches >= 1 {
        return name;
      }
    }
    return "general";
  }

  /** The detected domain is the first of data_science, app_development and
      cyber_security with a keyword in the lower-cased message, else general. */
  lemma DomainOfFirstMatch(message: string)
    ensures DomainOf(message) in {"data_science", "app_development", "cyber_security", "general"}
    ensures var t := PyLower(message);
      && (DomainOf(message) == "data_science" <==> HasKeyword(t, Contexts[0].1))
      && (DomainOf(message) == "app_development" <==>
            !HasKeyword(t, Contexts[0].1) && HasKeyword(t, Contexts[1].1))
      && (DomainOf(message) == "cyber_security" <==>
            !HasKeyword(t, Contexts[0].1) && !HasKeyword(t, Contexts[1].1) && HasKeyword(t, Contexts[2].1))
  {
    var t := PyLower(message);
    assert DomainFrom(t, 4) == "general";
    assert DomainFrom(t, 3) == "general";
  }

  /** The domain `process_message` answers in: the requested one, unless it
      is absent, empty or 'auto', in which case it is detected. */
  function ChooseDomain(requested: Option<string>, message: string): (r: string)
    ensures requested.None? || requested.value == "" || requested.value == "auto" ==> r == DomainOf(message)
    ensures requested.Some? && requested.value != "" && requested.value != "auto" ==> r == requested.value
  {
    if requested.None? || requested.value == "" || requested.value == "auto" then DomainOf(message)
    else requested.value
  }

  // ---------------------------------------------------------------- fallback

  datatype Response = Response(text: string, confidence: real, suggestions: seq<string>, resources: seq<string>)

  /** `fallback_responses`: per domain, its patterns in the dictionary's
      order, each an alternation of literal words (so it matches where one of
      them occurs) paired with its answer; none for any other domain. */
  function Patterns(domain: string): seq<(seq<string>, string)> {
    if domain == "data_science" then DataSciencePatterns
    else if domain == "app_development" then AppDevelopmentPatterns
    else if domain == "cyber_security" then CyberSecurityPatterns
    else []
  }

  const DataSciencePatterns: seq<(seq<string>, string)> := [
    (["python", "pandas", "numpy"], "For Python data science, I recommend starting with pandas for data manipulation and numpy for numerical operations. Would you like specific examples?"),
    (["machine learning", "ml"], "Machine Learning involves training algorithms on data to make predictions. Popular libraries include scikit-learn for beginners and TensorFlow/PyTorch for deep learning."),
    (["statistics", "stats"], "Statistics forms the foundation of data science. Key concepts include descriptive statistics, probability distributions, and hypothesis testing.")]

  const AppDevelopmentPatterns: seq<(seq<string>, string)> := [
    (["react", "javascript"], "React is a popular JavaScript library for building user interfaces. Start with components, props, and state management."),
    (["mobile", "android", "ios"], "For mobile development, consider React Native for cross-platform apps or native development with Java/Kotlin (Android) or Swift (iOS)."),
    (["html", "css"], "HTML provides structure and CSS handles styling. Start with semantic HTML and responsive CSS design.")]

  const CyberSecurityPatterns: seq<(seq<string>, string)> := [
    (["security", "vulnerability"], "Cybersecurity involves protecting systems from threats. Key areas include network security, application security, and incident response."),
    (["encryption", "crypto"], "Encryption secures data by converting it into an unreadable format. Common algorithms include AES for symmetric encryption and RSA for asymmetric encryption."),
    (["penetration testing", "pentest"], "Penetration testing involves simulating attacks to find vulnerabilities. It requires knowledge of tools like Nmap, Metasploit, and Burp Suite.")]

  /** The index of the first pattern with an alternative in `text`. */
  function FirstPattern(patterns: seq<(seq<string>, string)>, text: string): (r: Option<nat>)
    ensures r.Some? ==> r.value < |patterns| && HasKeyword(text, patterns[r.value].0)
  {
    if patterns == [] then None
    else if HasKeyword(text, patterns[0].0) then Some(0)
    else
      match FirstPattern(patterns[1..], text)
      case Some(i) => Some(i + 1)
      case None => None
  }

  /** No pattern matches exactly when none is found, and the one found is
      preceded only by patterns that do not match. */
  lemma {:induction false} FirstPatternLeftmost(patterns: seq<(seq<string>, string)>, text: string)
    ensures FirstPattern(patterns, text).None? <==>
      forall i :: 0 <= i < |patterns| ==> !HasKeyword(text, patterns[i].0)
    ensures FirstPattern(patterns, text).Some? ==>
      forall i :: 0 <= i < FirstPattern(patterns, text).value ==> !HasKeyword(text, patterns[i].0)
  {
    if patterns != [] && !HasKeyword(text, patterns[0].0) {
      FirstPatternLeftmost(patterns[1..], text);
      assert forall i :: 1 <= i < |patterns| ==> patterns[i] == patterns[1..][i - 1];
    }
  }

  /** `_generate_fallback_response` with the domain's patterns and generic answer. */
  function FallbackResponse(message: string, domain: string): Response {
    Respond(Patterns(domain), Generic(domain), message, domain)
  }

  /** The fallback answer for `patterns`: the answer of the first pattern found
      in the lower-cased message, with confidence 0.7, or else `generic`. */
  function Respond(patterns: seq<(seq<string>, string)>, generic: Response, message: string, domain: string): (r: Response)
    ensures r != generic ==>
      exists i :: 0 <= i < |patterns| && HasKeyword(PyLower(message), patterns[i].0) && r.text == patterns[i].1
        && (forall j :: 0 <= j < i ==> !HasKeyword(PyLower(message), patterns[j].0))
        && r.confidence == 0.7
        && r.suggestions == ["Learn more about " + domain, "Practice " + domain + " exercises"]
        && r.resources == [domain + " documentation", domain + " tutorials"]
    ensures (exists i :: 0 <= i < |patterns| && HasKeyword(PyLower(message), patterns[i].0)) ==> r.confidence == 0.7
    ensures (forall i :: 0 <= i < |patterns| ==> !HasKeyword(PyLower(message), patterns[i].0)) ==> r == generic
    ensures patterns == [] ==> r == generic
  {
    FirstPatternLeftmost(patterns, PyLower(message));
    match FirstPattern(patterns, PyLower(message))
    case Some(i) =>
      Response(patterns[i].1, 0.7,
        ["Learn more about " + domain, "Practice " + domain + " exercises"],
        [domain + " documentation", domain + " tutorials"])
    case None => generic
  }

  const GenericTail := ". While I don't have a specific answer right now, I'd recommend checking our learning resources or asking a more specific question."

  /** The generic answer: confidence 0.5, three fixed suggestions, no resources. */
  function Generic(domain: string): Response {
    Response("I understand you're asking about " + domain + GenericTail,
      0.5, ["Try being more specific", "Check learning materials", "Ask for examples"], [])
  }

  /** The confidence tells the two outcomes apart: 0.7 exactly when some
      pattern occurs, whenever the generic answer's confidence is not 0.7. */
  lemma RespondConfidence(patterns: seq<(seq<string>, string)>, generic: Response, message: string, domain: string)
    requires generic.confidence != 0.7
    ensures Respond(patterns, generic, message, domain).confidence == 0.7 <==>
      exists i :: 0 <= i < |patterns| && HasKeyword(PyLower(message), patterns[i].0)
  {
  }

  /** Only data_science, app_development and cyber_security have patterns:
      'general' and any unknown domain have none. */
  lemma PatternsOnlyForKnownDomains(domain: string)
    ensures Patterns(domain) != [] <==>
      domain == "data_science" || domain == "app_development" || domain == "cyber_security"
  {
  }

  /** A domain without patterns always gets the generic answer. */
  lemma FallbackWithoutPatterns(message: string, domain: string)
    requires Patterns(domain) == []
    ensures FallbackResponse(message, domain) == Generic(domain)
  {
    var g := Generic(domain);
    var r := Respond(Patterns(domain), g, message, domain);
    assert r == g;
  }

  // ------------------------------------------------------- extraction

  const SuggestionTexts: seq<string> :=
    ["Explore recommended topics", "Try practice exercises", "Look at more examples"]

  /** Which suggestions apply, in order: 'recommend', 'practice', 'example'. */
  function SuggestionFlags(response: string): seq<bool> {
    var lower := PyLower(response);
    [Contains(lower, "recommend"), Contains(lower, "practice"), Contains(lower, "example")]
  }

  /** `_extract_suggestions`. */
  method ExtractSuggestions(response: string) returns (suggestions: seq<string>)
    ensures suggestions == Pick(SuggestionTexts, SuggestionFlags(response))
    ensures |suggestions| <= 3
  {
    var lower := PyLower(response);
    suggestions := [];
    if Contains(lower, "recommend") {
      suggestions := suggestions + [SuggestionTexts[0]];
    }
    if Contains(lower, "practice") {
      suggestions := suggestions + [SuggestionTexts[1]];
    }
    if Contains(lower, "example") {
      suggestions := suggestions + [SuggestionTexts[2]];
    }
    PickThree(SuggestionTexts, SuggestionFlags(response));
    suggestions := suggestions[..Min(|suggestions|, 3)];
  }

  /** Each suggestion is offered exactly when its keyword occurs, ignoring case. */
  lemma SuggestionsByKeyword(response: string)
    ensures var s := Pick(SuggestionTexts, SuggestionFlags(response));
      var lower := PyLower(response);
      && ("Explore recommended topics" in s <==> Contains(lower, "recommend"))
      && ("Try practice exercises" in s <==> Contains(lower, "practice"))
      && ("Look at more examples" in s <==> Contains(lower, "example"))
  {
    var f := SuggestionFlags(response);
    PickMembers(SuggestionTexts, f, 0);
    PickMembers(SuggestionTexts, f, 1);
    PickMembers(SuggestionTexts, f, 2);
  }

  const ResourceMapping: seq<(string, seq<string>)> := [
    ("data_science", ["Python Documentation", "Pandas Tutorials", "Scikit-learn Examples"]),
    ("app_development", ["React Documentation", "MDN Web Docs", "Mobile Development Guides"]),
    ("cyber_security", ["OWASP Guidelines", "Security Best Practices", "Ethical Hacking Resources"]),
    ("general", ["Study Materials", "Online Courses", "Practice Problems"])]

  /** `_extract_resources`: the first two resources of the domain, falling
      back to the general list. */
  function ExtractResources(domain: string): (r: seq<string>)
    ensures |r| == 2
  {
    var list := Lookup(ResourceMapping, domain, ResourceMapping[3].1);
    LookupFrom(ResourceMapping, domain, ResourceMapping[3].1);
    list[..2]
  }

  /** A known domain gets the head of its own list; any other the head of general's. */
  lemma ResourcesByDomain(domain: string)
    ensures domain == "data_science" ==> ExtractResources(domain) == ["Python Documentation", "Pandas Tutorials"]
    ensures domain == "app_development" ==> ExtractResources(domain) == ["React Documentation", "MDN Web Docs"]
    ensures domain == "cyber_security" ==> ExtractResources(domain) == ["OWASP Guidelines", "Security Best Practices"]
    ensures domain !in {"data_science", "app_development", "cyber_security"} ==>
      ExtractResources(domain) == ["Study Materials", "Online Courses"]
  {
    var general := ResourceMapping[3].1;
    if domain !in {"data_science", "app_development", "cyber_security", "general"} {
      LookupMissing(ResourceMapping, domain, general);
    }
  }

  // -------------------------------------------------------------- statistics

  /** A row's `confidence_score`: missing from the row, a stored NULL, or a
      number. */
  datatype Score = Missing | Null | Stored(value: real)

  /** A history row as far as the statistics read it: `domain` may be
      missing. */
  datatype Chat = Chat(domain: Option<string>, confidence: Score)

  function DomainName(chat: Chat): string {
    match chat.domain
    case Some(d) => d
    case None => "general"
  }

  /** `chat.get('confidence_score', 0.8)` as a number. A NULL is `None` in
      Python, which the sum rejects, so its value here is never used. */
  function ConfidenceOf(chat: Chat): real {
    match chat.confidence
    case Stored(c) => c
    case Missing => 0.8
    case Null => 0.0
  }

  /** Some row holds a NULL confidence. */
  predicate HasNull(history: seq<Chat>) {
    exists i :: 0 <= i < |history| && history[i].confidence.Null?
  }

  function Names(history: seq<Chat>): (r: seq<string>)
    ensures |r| == |history|
    ensures forall i :: 0 <= i < |history| ==> r[i] == DomainName(history[i])
  {
    seq(|history|, i requires 0 <= i < |history| => DomainName(history[i]))
  }

  function CountIn(names: seq<string>, d: string): nat {
    if names == [] then 0
    else CountIn(names[..|names| - 1], d) + (if names[|names| - 1] == d then 1 else 0)
  }

  /** The distinct names in order of first occurrence: a dictionary's key order. */
  function FirstOccurrences(names: seq<string>): seq<string> {
    if names == [] then []
    else
      var prefix := FirstOccurrences(names[..|names| - 1]);
      if names[|names| - 1] in prefix then prefix else prefix + [names[|names| - 1]]
  }

  function SumConfidence(history: seq<Chat>): real {
    if history == [] then 0.0 else SumConfidence(history[..|history| - 1]) + ConfidenceOf(history[|history| - 1])
  }

  /** The statistics: per-domain counts keyed in insertion order. */
  datatype Stats = Stats(totalChats: nat, order: seq<string>, counts: map<string, nat>,
                         avgConfidence: real, mostActive: Option<string>)

  /** `get_chat_statistics` over the loaded history. Adding a NULL
      confidence raises `TypeError`, which the handler turns into the same
      zero statistics as an empty history. */
  method GetChatStatistics(history: seq<Chat>) returns (stats: Stats)
    ensures history == [] || HasNull(history) ==> stats == Stats(0, [], map[], 0.0, None)
    ensures history != [] && !HasNull(history) ==>
      && stats.totalChats == |history|
      && stats.order == FirstOccurrences(Names(history))
      && (forall d :: d in stats.counts <==> d in stats.order)
      && (forall d :: d in stats.counts ==> stats.counts[d] == CountIn(Names(history), d))
      && stats.avgConfidence == SumConfidence(history) / |history| as real
      && stats.mostActive == Some(MostActive(stats.order, stats.counts))
  {
    if history == [] {
      return Stats(0, [], map[], 0.0, None);
    }
    var names := Names(history);
    var counts: map<string, nat> := map[];
    var keys: seq<string> := [];
    var totalConfidence := 0.0;
    for i := 0 to |history|
      invariant Tallied(names, i, keys, counts)
      invariant totalConfidence == SumConfidence(history[..i])
      invariant forall j :: 0 <= j < i ==> !history[j].confidence.Null?
    {
      TallyStep(names, i, keys, counts);
      SumConfidenceStep(history, i);
      var domain := DomainName(history[i]);
      assert names[i] == domain;
      var previous := if domain in counts then counts[domain] else 0;
      if domain !in counts {
        keys := keys + [domain];
      }
      counts := counts[domain := previous + 1];
      if history[i].confidence.Null? {
        return Stats(0, [], map[], 0.0, None);
      }
      totalConfidence := totalConfidence + ConfidenceOf(history[i]);
    }
    assert names[..|history|] == names;
    assert history[..|history|] == history;
    var most := MostActive(keys, counts);
    stats := Stats(|history|, keys, counts, totalConfidence / |history| as real, Some(most));
  }

  /** One more name: it counts once more, other names as before. */
  lemma CountStep(names: seq<string>, i: nat, d: string)
    requires i < |names|
    ensures CountIn(names[..i + 1], d) == CountIn(names[..i], d) + (if names[i] == d then 1 else 0)
  {
    assert names[..i + 1][..i] == names[..i];
  }

  /** The counting loop's invariant after the first `i` names: the keys are
      the distinct names in order of first occurrence, each counted. */
  ghost predicate Tallied(names: seq<string>, i: nat, keys: seq<string>, counts: map<string, nat>)
    requires i <= |names|
  {
    && keys == FirstOccurrences(names[..i])
    && (forall d :: d in counts <==> d in keys)
    && (forall d :: d in counts ==> counts[d] == CountIn(names[..i], d))
  }

  /** Counting one more name: it joins the keys when new and its count goes
      up by one; the invariant of the counting loop is kept. */
  lemma TallyStep(names: seq<string>, i: nat, keys: seq<string>, counts: map<string, nat>)
    requires i < |names| && Tallied(names, i, keys, counts)
    ensures var x := names[i];
      Tallied(names, i + 1, if x in counts then keys else keys + [x],
              counts[x := (if x in counts then counts[x] else 0) + 1])
  {
    var x := names[i];
    assert names[..i + 1][..i] == names[..i];
    CountAbsent(names[..i], x, keys);
    var counts' := counts[x := (if x in counts then counts[x] else 0) + 1];
    forall d | d in counts' ensures counts'[d] == CountIn(names[..i + 1], d) {
      CountStep(names, i, d);
    }
  }

  lemma SumConfidenceStep(history: seq<Chat>, i: nat)
    requires i < |history|
    ensures SumConfidence(history[..i + 1]) == SumConfidence(history[..i]) + ConfidenceOf(history[i])
  {
    assert history[..i + 1][..i] == history[..i];
  }

  /** A name missing from the first occurrences does not occur at all. */
  lemma {:induction false} CountAbsent(names: seq<string>, d: string, keys: seq<string>)
    requires keys == FirstOccurrences(names)
    ensures d !in keys ==> CountIn(names, d) == 0
  {
    OccursIffFirst(names);
    if d !in keys {
      CountZero(names, d);
    }
  }

  lemma {:induction false} CountZero(names: seq<string>, d: string)
    requires d !in names
    ensures CountIn(names, d) == 0
  {
    if names != [] {
      assert forall x :: x in names[..|names| - 1] ==> x in names;
      CountZero(names[..|names| - 1], d);
    }
  }

  /** The first occurrences hold exactly the names, each once. */
  lemma {:induction false} OccursIffFirst(names: seq<string>)
    ensures forall d :: d in FirstOccurrences(names) <==> d in names
    ensures forall i, j :: 0 <= i < j < |FirstOccurrences(names)| ==>
      FirstOccurrences(names)[i] != FirstOccurrences(names)[j]
  {
    if names != [] {
      var init := names[..|names| - 1];
      OccursIffFirst(init);
      assert names == init + [names[|names| - 1]];
      assert forall d :: d in names <==> d in init || d == names[|names| - 1];
    }
  }

  /** `max(domain_counts.items(), key=count)[0]`: the first key, in key
      order, with the largest count. */
  function MostActive(keys: seq<string>, counts: map<string, nat>): (r: string)
    requires keys != [] && forall d :: d in keys ==> d in counts
    ensures r in keys
  {
    if |keys| == 1 then keys[0]
    else
      var best := MostActive(keys[..|keys| - 1], counts);
      assert forall d :: d in keys[..|keys| - 1] ==> d in keys;
      if counts[keys[|keys| - 1]] > counts[best] then keys[|keys| - 1] else best
  }

  /** The most active domain has the largest count, and every key before it
      has a smaller one: ties go to the first inserted. */
  lemma {:induction false} MostActiveIsFirstMaximum(keys: seq<string>, counts: map<string, nat>)
    requires keys != [] && forall d :: d in keys ==> d in counts
    ensures forall d :: d in keys ==> counts[d] <= counts[MostActive(keys, counts)]
    ensures forall i :: (0 <= i < |keys| && keys[i] != MostActive(keys, counts) &&
      (forall j :: 0 <= j < i ==> keys[j] != MostActive(keys, counts))) ==>
        counts[keys[i]] < counts[MostActive(keys, counts)]
  {
    if |keys| > 1 {
      var init := keys[..|keys| - 1];
      assert forall d :: d in init ==> d in keys;
      MostActiveIsFirstMaximum(init, counts);
      assert forall d :: d in keys ==> d in init || d == keys[|keys| - 1];
    }
  }

  function SumCounts(keys: seq<string>, names: seq<string>): nat {
    if keys == [] then 0 else CountIn(names, keys[0]) + SumCounts(keys[1..], names)
  }

  /** The per-domain counts add up to the number of chats. */
  lemma {:induction false} CountsSumToTotal(names: seq<string>)
    ensures SumCounts(FirstOccurrences(names), names) == |names|
  {
    if names != [] {
      var init := names[..|names| - 1];
      var x := names[|names| - 1];
      var keys := FirstOccurrences(init);
      assert names == init + [x];
      CountsSumToTotal(init);
      OccursIffFirst(init);
      SumCountsStep(keys, init, x);
      if x !in keys {
        CountZero(init, x);
        SumCountsAppend(keys, x, names);
      }
    }
  }

  /** Adding one name adds one to the sum when it is among the keys, exactly once. */
  lemma {:induction false} SumCountsStep(keys: seq<string>, init: seq<string>, x: string)
    requires forall i, j :: 0 <= i < j < |keys| ==> keys[i] != keys[j]
    ensures SumCounts(keys, init + [x]) == SumCounts(keys, init) + (if x in keys then 1 else 0)
  {
    if keys != [] {
      assert (init + [x])[..|init + [x]| - 1] == init;
      SumCountsStep(keys[1..], init, x);
      assert x in keys <==> x == keys[0] || x in keys[1..];
      assert x == keys[0] ==> x !in keys[1..];
    }
  }

  lemma {:induction false} SumCountsAppend(keys: seq<string>, x: string, names: seq<string>)
    ensures SumCounts(keys + [x], names) == SumCounts(keys, names) + CountIn(names, x)
  {
    if keys != [] {
      assert (keys + [x])[1..] == keys[1..] + [x];
      SumCountsAppend(keys[1..], x, names);
    }
  }
}
