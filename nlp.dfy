/** The text processing of backend/algorithms/nlp_algorithms.py: cleaning,
    tokenising, stop-word removal and n-grams (`TextPreprocessor`), the
    rule-based sentiment scan (`SentimentAnalyzer`) and Jaccard similarity
    (`TextSimilarity`). Scores are kept in halves so that the weights 1.0 and
    1.5 become the integers 2 and 3. */
module Nlp {
  import opened Strings

  // --------------------------------------------------------------- cleaning

  /** What `re.sub(r'[^a-zA-Z\s]', '', text)` keeps. */
  predicate Kept(c: char) { IsAsciiLetter(c) || IsPySpace(c) }

  function KeepLettersAndSpaces(s: string): (r: string)
    ensures |r| <= |s|
  {
    if s == [] then [] else (if Kept(s[0]) then [s[0]] else []) + KeepLettersAndSpaces(s[1..])
  }

  /** The length of the leading run of non-space characters. */
  function WordLength(s: string): (n: nat)
    ensures n <= |s|
    ensures forall j :: 0 <= j < n ==> !IsPySpace(s[j])
    ensures n < |s| ==> IsPySpace(s[n])
  {
    if s == [] || IsPySpace(s[0]) then 0 else 1 + WordLength(s[1..])
  }

  /** `str.split()` with no argument: the maximal runs of non-space characters. */
  function Words(s: string): seq<string>
    decreases |s|
  {
    if s == [] then []
    else if IsPySpace(s[0]) then Words(s[1..])
    else
      var n := WordLength(s);
      [s[..n]] + Words(s[n..])
  }

  /** `clean_text`: lower-case, drop everything but ASCII letters and
      whitespace, and join the words with single spaces. */
  function CleanText(text: string): string {
    Join(Words(KeepLettersAndSpaces(PyLower(text))), " ")
  }

  /** `tokenize`. */
  function Tokenize(text: string): seq<string> {
    Words(CleanText(text))
  }

  /** A token of cleaned text: a non-empty run of lower-case ASCII letters. */
  predicate IsWord(w: string) {
    w != [] && forall j :: 0 <= j < |w| ==> IsLower(w[j])
  }

  predicate AllWords(ws: seq<string>) {
    forall k :: 0 <= k < |ws| ==> IsWord(ws[k])
  }

  /** Lower-case ASCII letters and single spaces, with no space at either end. */
  predicate IsClean(s: string) {
    && (forall i :: 0 <= i < |s| ==> IsLower(s[i]) || s[i] == ' ')
    && (s != [] ==> s[0] != ' ' && s[|s| - 1] != ' ')
    && (forall i :: 0 <= i < |s| - 1 && s[i] == ' ' ==> s[i + 1] != ' ')
  }

  lemma {:induction false} PyLowerNoUpper(s: string)
    ensures forall i :: 0 <= i < |PyLower(s)| ==> !IsUpper(PyLower(s)[i])
  {
    if s != [] {
      PyLowerNoUpper(s[1..]);
      var h := if s[0] == '\U{130}' then "i\U{307}" else if s[0] == '\U{212A}' then "k" else [LowerChar(s[0])];
      assert PyLower(s) == h + PyLower(s[1..]);
      forall i | 0 <= i < |PyLower(s)|
        ensures !IsUpper(PyLower(s)[i])
      {
        if i >= |h| {
          assert PyLower(s)[i] == PyLower(s[1..])[i - |h|];
        }
      }
    }
  }

  lemma {:induction false} KeepLowerOrSpace(s: string)
    requires forall i :: 0 <= i < |s| ==> !IsUpper(s[i])
    ensures forall i :: 0 <= i < |KeepLettersAndSpaces(s)| ==>
      IsLower(KeepLettersAndSpaces(s)[i]) || IsPySpace(KeepLettersAndSpaces(s)[i])
  {
    if s != [] {
      KeepLowerOrSpace(s[1..]);
      var h := if Kept(s[0]) then [s[0]] else [];
      assert KeepLettersAndSpaces(s) == h + KeepLettersAndSpaces(s[1..]);
      forall i | 0 <= i < |KeepLettersAndSpaces(s)|
        ensures IsLower(KeepLettersAndSpaces(s)[i]) || IsPySpace(KeepLettersAndSpaces(s)[i])
      {
        if i >= |h| {
          assert KeepLettersAndSpaces(s)[i] == KeepLettersAndSpaces(s[1..])[i - |h|];
        }
      }
    }
  }

  /** Splitting text made of lower-case letters and spaces gives words. */
  lemma {:induction false} WordsAreWords(s: string)
    requires forall i :: 0 <= i < |s| ==> IsLower(s[i]) || IsPySpace(s[i])
    ensures AllWords(Words(s))
    decreases |s|
  {
    if s != [] {
      if IsPySpace(s[0]) {
        WordsAreWords(s[1..]);
      } else {
        var n := WordLength(s);
        WordsAreWords(s[n..]);
        assert IsWord(s[..n]);
        assert Words(s) == [s[..n]] + Words(s[n..]);
      }
    }
  }

  /** Joining words with single spaces gives clean text. */
  lemma {:induction false} JoinIsClean(ws: seq<string>)
    requires AllWords(ws)
    ensures IsClean(Join(ws, " "))
  {
    if |ws| > 1 {
      JoinIsClean(ws[1..]);
      var rest := Join(ws[1..], " ");
      assert IsWord(ws[0]);
      var s := ws[0] + " " + rest;
      assert rest != [] by { assert IsWord(ws[1..][0]); JoinStartsWith(ws[1..]); }
      forall i | 0 <= i < |s|
        ensures IsLower(s[i]) || s[i] == ' '
      {
        if i > |ws[0]| {
          assert s[i] == rest[i - |ws[0]| - 1];
        }
      }
      forall i | 0 <= i < |s| - 1 && s[i] == ' '
        ensures s[i + 1] != ' '
      {
        if i == |ws[0]| {
          assert s[i + 1] == rest[0];
        } else {
          assert s[i] == rest[i - |ws[0]| - 1] && s[i + 1] == rest[i - |ws[0]|];
        }
      }
      assert s[|s| - 1] == rest[|rest| - 1];
    } else if |ws| == 1 {
      assert IsWord(ws[0]);
    }
  }

  /** Joined words start with the first word. */
  lemma {:induction false} JoinStartsWith(ws: seq<string>)
    requires |ws| >= 1 && IsWord(ws[0])
    ensures |Join(ws, " ")| >= |ws[0]| && Join(ws, " ")[..|ws[0]|] == ws[0]
  {
    if |ws| > 1 {
      assert Join(ws, " ") == ws[0] + (" " + Join(ws[1..], " "));
    }
  }

  /** Splitting words joined by single spaces gives the words back. */
  lemma {:induction false} WordsOfJoin(ws: seq<string>)
    requires AllWords(ws)
    ensures Words(Join(ws, " ")) == ws
  {
    if ws == [] {
    } else {
      var w := ws[0];
      assert IsWord(w);
      var tail: string := if |ws| == 1 then [] else " " + Join(ws[1..], " ");
      assert Join(ws, " ") == w + tail;
      WordsOfWordThen(w, tail);
      if |ws| > 1 {
        WordsOfJoin(ws[1..]);
        assert Words(tail) == Words(Join(ws[1..], " "));
      }
    }
  }

  /** A word followed by nothing or by a space is split off whole. */
  lemma WordsOfWordThen(w: string, tail: string)
    requires IsWord(w) && (tail == [] || tail[0] == ' ')
    ensures Words(w + tail) == [w] + (if tail == [] then [] else Words(tail[1..]))
  {
    var s := w + tail;
    WordLengthOfWord(w, tail);
    assert s[..|w|] == w && s[|w|..] == tail;
    if tail != [] {
      assert Words(tail) == Words(tail[1..]);
    }
  }

  lemma {:induction false} WordLengthOfWord(w: string, tail: string)
    requires IsWord(w) && (tail == [] || tail[0] == ' ')
    ensures WordLength(w + tail) == |w|
  {
    assert (w + tail)[1..] == w[1..] + tail;
    if |w| > 1 {
      WordLengthOfWord(w[1..], tail);
    } else {
      assert w[1..] + tail == tail;
    }
  }

  /** Letters and spaces, once lower-cased, pass the cleaning unchanged. */
  lemma {:induction false} CleanCharsKept(s: string)
    requires forall i :: 0 <= i < |s| ==> IsLower(s[i]) || s[i] == ' '
    ensures PyLower(s) == s && KeepLettersAndSpaces(s) == s
  {
    if s != [] {
      CleanCharsKept(s[1..]);
      assert s == [s[0]] + s[1..];
    }
  }

  /** `clean_text` yields lower-case letters and single spaces, and cleaning
      twice is cleaning once. */
  lemma CleanTextIsClean(text: string)
    ensures IsClean(CleanText(text))
    ensures CleanText(CleanText(text)) == CleanText(text)
  {
    var ws := Words(KeepLettersAndSpaces(PyLower(text)));
    PyLowerNoUpper(text);
    KeepLowerOrSpace(PyLower(text));
    WordsAreWords(KeepLettersAndSpaces(PyLower(text)));
    JoinIsClean(ws);
    var c := CleanText(text);
    CleanCharsKept(c);
    WordsOfJoin(ws);
  }

  /** `tokenize` yields words whose single-space join is `clean_text`. */
  lemma TokenizeJoins(text: string)
    ensures AllWords(Tokenize(text))
    ensures Join(Tokenize(text), " ") == CleanText(text)
  {
    var ws := Words(KeepLettersAndSpaces(PyLower(text)));
    PyLowerNoUpper(text);
    KeepLowerOrSpace(PyLower(text));
    WordsAreWords(KeepLettersAndSpaces(PyLower(text)));
    WordsOfJoin(ws);
  }

  // ------------------------------------------------------------- stop words

  const StopWords: set<string> := {
    "the", "a", "an", "and", "or", "but", "in", "on", "at", "to", "for",
    "of", "with", "by", "is", "are", "was", "were", "be", "been", "being",
    "have", "has", "had", "do", "does", "did", "will", "would", "could",
    "should", "may", "might", "must", "can", "this", "that", "these", "those"}

  /** `remove_stop_words`. */
  function RemoveStopWords(tokens: seq<string>): (r: seq<string>)
    ensures |r| <= |tokens|
  {
    if tokens == [] then []
    else Unstopped(tokens[0]) + RemoveStopWords(tokens[1..])
  }

  /** The token itself, or nothing when it is a stop word. */
  function Unstopped(w: string): (r: seq<string>)
    ensures r == [] || r == [w]
    ensures w in r <==> w !in StopWords
  {
    if w in StopWords then [] else [w]
  }

  /** A token is kept exactly when it occurs and is not a stop word. */
  lemma {:induction false} RemoveStopWordsMembers(tokens: seq<string>)
    ensures forall w :: w in RemoveStopWords(tokens) <==> w in tokens && w !in StopWords
  {
    if tokens != [] {
      RemoveStopWordsMembers(tokens[1..]);
      assert tokens == [tokens[0]] + tokens[1..];
    }
  }

  /** Removal works token by token, so it keeps the order of the input. */
  lemma {:induction false} RemoveStopWordsAppend(a: seq<string>, b: seq<string>)
    ensures RemoveStopWords(a + b) == RemoveStopWords(a) + RemoveStopWords(b)
  {
    if a != [] {
      assert (a + b)[1..] == a[1..] + b;
      RemoveStopWordsAppend(a[1..], b);
    } else {
      assert a + b == b;
    }
  }

  lemma {:induction false} RemoveStopWordsIdempotent(tokens: seq<string>)
    ensures RemoveStopWords(RemoveStopWords(tokens)) == RemoveStopWords(tokens)
  {
    if tokens != [] {
      var h := Unstopped(tokens[0]);
      RemoveStopWordsAppend(h, RemoveStopWords(tokens[1..]));
      RemoveStopWordsIdempotent(tokens[1..]);
      if h != [] {
        assert RemoveStopWords(h) == h by { assert h[1..] == []; }
      }
    }
  }

  // ---------------------------------------------------------------- n-grams

  /** A Python slice bound: negative counts from the end, then clamped. */
  function SliceBound(k: int, len: nat): (r: nat)
    ensures r <= len
    ensures 0 <= k <= len ==> r == k
  {
    if k < 0 then (if k + len < 0 then 0 else k + len) else if k > len then len else k
  }

  /** `s[lo:hi]` in Python. */
  function PySlice<T>(s: seq<T>, lo: int, hi: int): (r: seq<T>)
    ensures 0 <= lo <= hi <= |s| ==> r == s[lo..hi]
  {
    var a := SliceBound(lo, |s|);
    var b := SliceBound(hi, |s|);
    if a < b then s[a..b] else []
  }

  /** `get_n_grams`: no window when there are fewer than `n` tokens,
      otherwise the `len - n + 1` slices `tokens[i:i + n]`, which for a
      positive `n` are the windows of `n` consecutive tokens. */
  method GetNGrams(tokens: seq<string>, n: int) returns (grams: seq<seq<string>>)
    ensures |tokens| < n ==> grams == []
    ensures |tokens| >= n ==> |grams| == |tokens| - n + 1
    ensures |tokens| >= n ==> forall i :: 0 <= i < |grams| ==> grams[i] == PySlice(tokens, i, i + n)
    ensures 1 <= n <= |tokens| ==> forall i :: 0 <= i < |grams| ==> grams[i] == tokens[i..i + n]
  {
    if |tokens| < n {
      return [];
    }
    grams := [];
    var i := 0;
    while i < |tokens| - n + 1
      invariant 0 <= i <= |tokens| - n + 1
      invariant |grams| == i
      invariant forall j :: 0 <= j < i ==> grams[j] == PySlice(tokens, j, j + n)
    {
      grams := grams + [PySlice(tokens, i, i + n)];
      i := i + 1;
    }
  }

  // -------------------------------------------------------------- sentiment

  const PositiveWords: set<string> := {
    "good", "great", "excellent", "amazing", "wonderful", "fantastic",
    "awesome", "brilliant", "outstanding", "superb", "perfect", "love",
    "like", "enjoy", "happy", "pleased", "satisfied", "delighted"}

  const NegativeWords: set<string> := {
    "bad", "terrible", "awful", "horrible", "disgusting", "hate",
    "dislike", "angry", "sad", "disappointed", "frustrated", "annoyed",
    "upset", "worried", "concerned", "poor", "worst", "fail", "wrong"}

  const Intensifiers: set<string> := {"very", "extremely", "really", "quite", "totally"}

  const Negations: set<string> := {"not", "no", "never", "nothing", "nowhere", "neither"}

  predicate IsSentimentWord(token: string) { token in PositiveWords || token in NegativeWords }

  /** The scan's state, scores and boost in halves (boost 2 is 1.0, 3 is 1.5). */
  datatype Scan = Scan(positive: nat, negative: nat, boost: nat, negated: bool)

  const Start := Scan(0, 0, 2, false)

  /** One token of the scan: an intensifier sets the boost, a negation arms
      the flip, a sentiment word scores (flipped when negated) and resets
      both; any other token leaves the state alone. */
  function Step(s: Scan, token: string): Scan {
    if token in Intensifiers then s.(boost := 3)
    else if token in Negations then s.(negated := true)
    else if token in PositiveWords then
      if s.negated then Scan(s.positive, s.negative + s.boost, 2, false)
      else Scan(s.positive + s.boost, s.negative, 2, false)
    else if token in NegativeWords then
      if s.negated then Scan(s.positive + s.boost, s.negative, 2, false)
      else Scan(s.positive, s.negative + s.boost, 2, false)
    else s
  }

  function Run(tokens: seq<string>): Scan {
    if tokens == [] then Start else Step(Run(tokens[..|tokens| - 1]), tokens[|tokens| - 1])
  }

  /** The result dictionary: the sentiment, the confidence, and the two scores
      (reported only when some word scored). */
  datatype Sentiment = Sentiment(sentiment: string, confidence: real, scores: Option<(real, real)>)

  /** The final decision over the scores. */
  function Verdict(s: Scan): (r: Sentiment)
    ensures s.positive + s.negative == 0 <==> r == Sentiment("neutral", 0.0, None)
    ensures r.sentiment == "positive" <==> s.positive > s.negative
    ensures r.sentiment == "negative" <==> 0 < s.positive + s.negative && s.positive <= s.negative
    ensures r.sentiment != "neutral" ==> 0.5 <= r.confidence <= 1.0
  {
    var total := s.positive + s.negative;
    if total == 0 then Sentiment("neutral", 0.0, None)
    else
      var pos := s.positive as real / total as real;
      var neg := s.negative as real / total as real;
      RatioFacts(s.positive, s.negative);
      var scores := Some((s.positive as real / 2.0, s.negative as real / 2.0));
      if pos > neg then Sentiment("positive", pos, scores) else Sentiment("negative", neg, scores)
  }

  lemma RatioFacts(p: nat, n: nat)
    requires p + n > 0
    ensures var t := (p + n) as real;
      && (p as real / t > n as real / t <==> p > n)
      && (p > n ==> 0.5 <= p as real / t <= 1.0)
      && (p <= n ==> 0.5 <= n as real / t <= 1.0)
  {
    var t := (p + n) as real;
    assert p as real / t + n as real / t == 1.0;
    assert p as real / t * t == p as real && n as real / t * t == n as real;
  }

  /** `analyze_sentiment`: the scan over the tokens of `text`, then the verdict. */
  method AnalyzeSentiment(text: string) returns (result: Sentiment)
    ensures result == Verdict(Run(Tokenize(text)))
  {
    var tokens := Tokenize(text);
    var positiveScore, negativeScore, boost, negationActive := 0, 0, 2, false;
    for i := 0 to |tokens|
      invariant Scan(positiveScore, negativeScore, boost, negationActive) == Run(tokens[..i])
    {
      var token := tokens[i];
      assert tokens[..i + 1][..i] == tokens[..i];
      if token in Intensifiers {
        boost := 3;
        continue;
      }
      if token in Negations {
        negationActive := true;
        continue;
      }
      if token in PositiveWords {
        if negationActive {
          negativeScore := negativeScore + boost;
        } else {
          positiveScore := positiveScore + boost;
        }
      } else if token in NegativeWords {
        if negationActive {
          positiveScore := positiveScore + boost;
        } else {
          negativeScore := negativeScore + boost;
        }
      }
      if token in PositiveWords || token in NegativeWords {
        boost := 2;
        negationActive := false;
      }
    }
    assert tokens[..|tokens|] == tokens;
    result := Verdict(Scan(positiveScore, negativeScore, boost, negationActive));
  }

  /** Without a sentiment word nothing scores, so the verdict is neutral. */
  lemma {:induction false} NoSentimentWordsNeutral(tokens: seq<string>)
    requires forall k :: 0 <= k < |tokens| ==> !IsSentimentWord(tokens[k])
    ensures Run(tokens).positive == 0 && Run(tokens).negative == 0
    ensures Verdict(Run(tokens)) == Sentiment("neutral", 0.0, None)
  {
    if tokens != [] {
      NoSentimentWordsNeutral(tokens[..|tokens| - 1]);
    }
  }

  /** A negation flips the next sentiment word, however many negations came
      before it; the boost applies to the flipped score. */
  lemma NegationFlips(s: Scan, negation: string, token: string)
    requires negation in Negations && IsSentimentWord(token)
    ensures Step(s, negation) == Step(Step(s, negation), negation)
    ensures token in PositiveWords ==>
      Step(Step(s, negation), token) == Scan(s.positive, s.negative + s.boost, 2, false)
    ensures token in NegativeWords ==>
      Step(Step(s, negation), token) == Scan(s.positive + s.boost, s.negative, 2, false)
  {
    assert negation !in Intensifiers;
    assert token !in Intensifiers && token !in Negations;
    assert !(token in PositiveWords && token in NegativeWords);
  }

  /** Boost and negation survive neutral words and are reset by a sentiment word. */
  lemma ModifiersPersistAndReset(s: Scan, token: string)
    ensures !IsSentimentWord(token) && token !in Intensifiers && token !in Negations ==> Step(s, token) == s
    ensures IsSentimentWord(token) && token !in Intensifiers && token !in Negations ==>
      Step(s, token).boost == 2 && !Step(s, token).negated
  {
  }

  /** Every sentiment word adds one or one and a half to exactly one side. */
  lemma {:induction false} ScoresCount(tokens: seq<string>)
    ensures Run(tokens).boost == 2 || Run(tokens).boost == 3
    ensures Run(tokens).positive + Run(tokens).negative <= 3 * |tokens|
  {
    if tokens != [] {
      ScoresCount(tokens[..|tokens| - 1]);
    }
  }

  // -------------------------------------------------------------- similarity

  function ToSet(tokens: seq<string>): set<string> {
    set w | w in tokens
  }

  /** The distinct tokens of a text that are not stop words. */
  function Terms(text: string): set<string> {
    ToSet(RemoveStopWords(Tokenize(text)))
  }

  function SetJaccard(a: set<string>, b: set<string>): real {
    if a + b == {} then 0.0 else |a * b| as real / |a + b| as real
  }

  /** `jaccard_similarity`. */
  function JaccardSimilarity(text1: string, text2: string): real {
    SetJaccard(Terms(text1), Terms(text2))
  }

  lemma {:induction false} SubsetCard(a: set<string>, b: set<string>)
    requires a <= b
    ensures |a| <= |b|
    decreases a
  {
    if a != {} {
      var x :| x in a;
      SubsetCard(a - {x}, b - {x});
    }
  }

  lemma SetJaccardProperties(a: set<string>, b: set<string>)
    ensures 0.0 <= SetJaccard(a, b) <= 1.0
    ensures SetJaccard(a, b) == SetJaccard(b, a)
    ensures a == b && a != {} ==> SetJaccard(a, b) == 1.0
  {
    assert a * b == b * a && a + b == b + a;
    if a + b != {} {
      SubsetCard(a * b, a + b);
      FractionBounds(|a * b|, |a + b|);
    }
    if a == b && a != {} {
      assert a * b == a + b;
      var x :| x in a;
      assert x in a + b;
      var n := |a + b| as real;
      assert n > 0.0 && n / n == 1.0;
    }
  }

  lemma FractionBounds(i: nat, u: nat)
    requires 0 < u && i <= u
    ensures 0.0 <= i as real / u as real <= 1.0
  {
    var q := i as real / u as real;
    assert q * u as real == i as real;
    assert (1.0 - q) * u as real == (u - i) as real;
  }

  /** The similarity is a fraction in [0, 1], symmetric, zero when neither
      text has a term and one when both have the same terms. */
  lemma JaccardProperties(text1: string, text2: string)
    ensures 0.0 <= JaccardSimilarity(text1, text2) <= 1.0
    ensures JaccardSimilarity(text1, text2) == JaccardSimilarity(text2, text1)
    ensures Terms(text1) == {} && Terms(text2) == {} ==> JaccardSimilarity(text1, text2) == 0.0
    ensures Terms(text1) == Terms(text2) && Terms(text1) != {} ==> JaccardSimilarity(text1, text2) == 1.0
  {
    SetJaccardProperties(Terms(text1), Terms(text2));
  }
}
