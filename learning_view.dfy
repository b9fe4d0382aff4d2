/** The learning screen of the frontend (frontend/src/components/Learning/Learning.js):
    the parser that turns the assistant's prose into recommendation cards, and
    the colour rules for confidence and domain. */
module LearningView {
  import opened Strings

  datatype RecType = General | Recommendation | Skill | Resource

  datatype Rec = Rec(title: string, description: string, kind: RecType)

  // ------------------------------------------------------------ list numbers

  /** The length of the text the pattern `^\d+\.?\s*` matches: digits, an
      optional dot, then whitespace; 0 when the line does not start with a digit. */
  function ListNumberLength(s: string): (k: nat)
    ensures k <= |s|
  {
    var d := LeadingDigits(s);
    if d == 0 then 0
    else
      var e := if d < |s| && s[d] == '.' then d + 1 else d;
      SpacesFrom(s, e)
  }

  /** `line.replace` with that pattern and an empty replacement. */
  function StripListNumber(s: string): string {
    s[ListNumberLength(s)..]
  }

  predicate NumberChar(c: char) { IsDigit(c) || c == '.' || IsJsSpace(c) }

  /** What is removed is a prefix made of digits, dots and whitespace. */
  lemma ListNumberChars(s: string)
    ensures forall j :: 0 <= j < ListNumberLength(s) ==> NumberChar(s[j])
  {
    var d := LeadingDigits(s);
    if d > 0 {
      var e := if d < |s| && s[d] == '.' then d + 1 else d;
      assert forall j :: 0 <= j < d ==> IsDigit(s[j]);
      assert forall j :: e <= j < SpacesFrom(s, e) ==> IsJsSpace(s[j]);
    }
  }

  // ---------------------------------------------------------------- lines

  /** A line that opens a card. */
  predicate IsHeaderLine(line: string) {
    Contains(line, "recommendation") || Contains(line, "Recommendation")
  }

  /** A line, read as a card header (with its title), a type line, or text. */
  datatype Line = Header(title: string) | SkillLine | ResourceLine | Text(clean: string)

  function Classify(line: string): Line {
    if IsHeaderLine(line) then Header(Trim(StripListNumber(line)))
    else if Contains(line, "skill") || Contains(line, "Skill") then SkillLine
    else if Contains(line, "resource") || Contains(line, "Resource") then ResourceLine
    else Text(Trim(line))
  }

  /** A header's title is the header line without its list number, trimmed; it
      still holds the keyword that made the line a header, so it is not empty. */
  lemma HeaderTitleKeepsKeyword(line: string)
    requires IsHeaderLine(line)
    ensures Contains(Classify(line).title, "recommendation") || Contains(Classify(line).title, "Recommendation")
    ensures Classify(line).title != []
  {
    var k := ListNumberLength(line);
    ListNumberChars(line);
    var kw := if Contains(line, "recommendation") then "recommendation" else "Recommendation";
    assert forall j :: 0 <= j < k ==> line[j] != kw[0];
    ContainsSuffix(line, kw, k);
    ContainsTrim(line[k..], kw);
    assert |kw| <= |Trim(line[k..])|;
  }

  function ClassifyAll(lines: seq<string>): (r: seq<Line>)
    ensures |r| == |lines|
  {
    seq(|lines|, i requires 0 <= i < |lines| => Classify(lines[i]))
  }

  // ---------------------------------------------------------------- parser

  /** The card being filled (`currentRec`) and the cards pushed so far. */
  datatype ParseState = ParseState(pushed: seq<Rec>, current: Rec)

  const Placeholder := Rec("", "", General)

  /** The cards pushed so far plus the current one if it has a title. */
  function Flush(st: ParseState): seq<Rec> {
    if st.current.title != [] then st.pushed + [st.current] else st.pushed
  }

  /** One iteration of the `forEach` over the lines. */
  function Step(st: ParseState, l: Line): ParseState {
    match l
    case Header(title) => ParseState(Flush(st), Rec(title, "", Recommendation))
    case SkillLine => st.(current := st.current.(kind := Skill))
    case ResourceLine => st.(current := st.current.(kind := Resource))
    case Text(clean) =>
      if clean != [] && st.current.title != [] then
        st.(current := st.current.(description := st.current.description + clean + " "))
      else st
  }

  function Run(ls: seq<Line>): ParseState {
    if ls == [] then ParseState([], Placeholder)
    else Step(Run(ls[..|ls| - 1]), ls[|ls| - 1])
  }

  /** One more line: the state so far, stepped by it. */
  lemma RunStep(ls: seq<Line>, i: nat)
    requires i < |ls|
    ensures Run(ls[..i + 1]) == Step(Run(ls[..i]), ls[i])
  {
    assert ls[..i + 1][..i] == ls[..i];
  }

  /** What `parseAIRecommendations` returns: the flushed cards, at most six. */
  function Recommendations(text: string): seq<Rec> {
    var all := Flush(Run(ClassifyAll(NonBlankLines(text))));
    all[..Min(6, |all|)]
  }

  /** `parseAIRecommendations`. Once pushed, a card is never touched again
      (the current card is replaced right after), so cards are values here. */
  method ParseAIRecommendations(aiText: string) returns (r: seq<Rec>)
    ensures r == Recommendations(aiText)
    ensures |r| <= 6
  {
    var lines := NonBlankLines(aiText);
    ghost var ls := ClassifyAll(lines);
    var recommendations: seq<Rec> := [];
    var currentRec := Placeholder;
    for i := 0 to |lines|
      invariant ParseState(recommendations, currentRec) == Run(ls[..i])
    {
      RunStep(ls, i);
      assert ls[i] == Classify(lines[i]);
      recommendations, currentRec := ProcessLine(recommendations, currentRec, lines[i]);
    }
    assert ls[..|lines|] == ls;
    if currentRec.title != [] {
      recommendations := recommendations + [currentRec];
    }
    r := recommendations[..Min(6, |recommendations|)];
  }

  /** The body of the `forEach` callback, for one line. */
  method ProcessLine(recommendations: seq<Rec>, currentRec: Rec, line: string)
    returns (recommendations': seq<Rec>, currentRec': Rec)
    ensures ParseState(recommendations', currentRec')
         == Step(ParseState(recommendations, currentRec), Classify(line))
  {
    recommendations', currentRec' := recommendations, currentRec;
    if Contains(line, "recommendation") || Contains(line, "Recommendation") {
      if currentRec.title != [] {
        recommendations' := recommendations + [currentRec];
      }
      currentRec' := Rec(Trim(StripListNumber(line)), "", Recommendation);
    } else if Contains(line, "skill") || Contains(line, "Skill") {
      currentRec' := currentRec.(kind := Skill);
    } else if Contains(line, "resource") || Contains(line, "Resource") {
      currentRec' := currentRec.(kind := Resource);
    } else if Trim(line) != [] && currentRec.title != [] {
      currentRec' := currentRec.(description := currentRec.description + Trim(line) + " ");
    }
  }

  // ------------------------------------------------------------ properties

  function HeaderTitles(ls: seq<Line>): seq<string> {
    if ls == [] then []
    else HeaderTitles(ls[..|ls| - 1]) + (if ls[|ls| - 1].Header? then [ls[|ls| - 1].title] else [])
  }

  function Titles(cards: seq<Rec>): seq<string> {
    if cards == [] then [] else Titles(cards[..|cards| - 1]) + [cards[|cards| - 1].title]
  }

  lemma TitlesAppend(cards: seq<Rec>, c: Rec)
    ensures Titles(cards + [c]) == Titles(cards) + [c.title]
  {
    assert (cards + [c])[..|cards|] == cards;
  }

  predicate TitledHeaders(ls: seq<Line>) {
    forall i :: 0 <= i < |ls| ==> ls[i].Header? ==> ls[i].title != []
  }

  /** One card per header line, in order, titled by that header. */
  lemma {:induction false} CardsFollowHeaders(ls: seq<Line>)
    requires TitledHeaders(ls)
    ensures Titles(Flush(Run(ls))) == HeaderTitles(ls)
  {
    if ls != [] {
      var n := |ls|;
      var prev := Run(ls[..n - 1]);
      assert TitledHeaders(ls[..n - 1]) by {
        forall i | 0 <= i < n - 1 ensures ls[..n - 1][i] == ls[i] { }
      }
      CardsFollowHeaders(ls[..n - 1]);
      match ls[n - 1]
      case Header(title) =>
        TitlesAppend(Flush(prev), Rec(title, "", Recommendation));
      case SkillLine =>
        if prev.current.title != [] {
          TitlesAppend(prev.pushed, prev.current);
          TitlesAppend(prev.pushed, prev.current.(kind := Skill));
        }
      case ResourceLine =>
        if prev.current.title != [] {
          TitlesAppend(prev.pushed, prev.current);
          TitlesAppend(prev.pushed, prev.current.(kind := Resource));
        }
      case Text(clean) =>
        if clean != [] && prev.current.title != [] {
          var next := Step(prev, ls[n - 1]);
          TitlesAppend(prev.pushed, prev.current);
          TitlesAppend(prev.pushed, next.current);
        }
    }
  }

  /** Applied to a reply: the cards' titles are the titles of the reply's
      header lines, in order. */
  lemma CardsAreHeaders(text: string)
    ensures var lines := NonBlankLines(text);
      && Titles(Flush(Run(ClassifyAll(lines)))) == HeaderTitles(ClassifyAll(lines))
      && forall i :: 0 <= i < |lines| && IsHeaderLine(lines[i]) ==> ClassifyAll(lines)[i].Header?
  {
    var lines := NonBlankLines(text);
    var ls := ClassifyAll(lines);
    assert TitledHeaders(ls) by {
      forall i | 0 <= i < |ls| && ls[i].Header? ensures ls[i].title != [] {
        assert ls[i] == Classify(lines[i]);
        HeaderTitleKeepsKeyword(lines[i]);
      }
    }
    CardsFollowHeaders(ls);
  }

  predicate EmittedKind(k: RecType) { k == Recommendation || k == Skill || k == Resource }

  /** No emitted card keeps the placeholder's 'general' type. */
  lemma {:induction false} EmittedKinds(ls: seq<Line>)
    ensures forall j :: 0 <= j < |Flush(Run(ls))| ==> EmittedKind(Flush(Run(ls))[j].kind)
  {
    KindInvariant(ls);
  }

  lemma {:induction false} KindInvariant(ls: seq<Line>)
    ensures var st := Run(ls);
      && (forall j :: 0 <= j < |st.pushed| ==> EmittedKind(st.pushed[j].kind))
      && (st.current.title != [] ==> EmittedKind(st.current.kind))
  {
    if ls != [] {
      KindInvariant(ls[..|ls| - 1]);
    }
  }

  /** Text lines give `description`: each non-empty one followed by one
      space; type lines add nothing. */
  function Body(ls: seq<Line>): string {
    if ls == [] then ""
    else
      var l := ls[|ls| - 1];
      Body(ls[..|ls| - 1]) + (if l.Text? && l.clean != [] then l.clean + " " else "")
  }

  /** The type set by the last type line, or `k` when there is none. */
  function LastKind(ls: seq<Line>, k: RecType): RecType {
    if ls == [] then k
    else if ls[|ls| - 1].SkillLine? then Skill
    else if ls[|ls| - 1].ResourceLine? then Resource
    else LastKind(ls[..|ls| - 1], k)
  }

  /** After a header line, the lines up to the next header make up the card:
      its description is the text lines, its type the last type line (else
      'recommendation'), and the cards before it are pushed unchanged. */
  lemma {:induction false} HeaderThenBody(before: seq<Line>, title: string, rest: seq<Line>)
    requires title != []
    requires forall i :: 0 <= i < |rest| ==> !rest[i].Header?
    ensures Run(before + [Header(title)] + rest)
         == ParseState(Flush(Run(before)), Rec(title, Body(rest), LastKind(rest, Recommendation)))
  {
    var all := before + [Header(title)] + rest;
    if rest == [] {
      assert all[..|all| - 1] == before;
    } else {
      var n := |rest|;
      var init := rest[..n - 1];
      assert all[..|all| - 1] == before + [Header(title)] + init;
      assert all[|all| - 1] == rest[n - 1];
      assert forall i :: 0 <= i < n - 1 ==> init[i] == rest[i];
      HeaderThenBody(before, title, init);
    }
  }

  /** Lines before the first header are dropped. */
  lemma {:induction false} LeadingLinesDropped(ls: seq<Line>)
    requires forall i :: 0 <= i < |ls| ==> !ls[i].Header?
    ensures Run(ls).pushed == [] && Run(ls).current.title == []
    ensures Flush(Run(ls)) == []
  {
    if ls != [] {
      var n := |ls|;
      assert forall i :: 0 <= i < n - 1 ==> ls[..n - 1][i] == ls[i];
      LeadingLinesDropped(ls[..n - 1]);
    }
  }

  // ---------------------------------------------------------------- colours

  /** `getProgressColor`. */
  function ProgressColor(confidence: real): (r: string)
    ensures confidence >= 0.8 ==> r == "bg-green-500"
    ensures 0.6 <= confidence < 0.8 ==> r == "bg-yellow-500"
    ensures confidence < 0.6 ==> r == "bg-red-500"
  {
    if confidence >= 0.8 then "bg-green-500"
    else if confidence >= 0.6 then "bg-yellow-500"
    else "bg-red-500"
  }

  function ColorRank(color: string): int {
    if color == "bg-green-500" then 2 else if color == "bg-yellow-500" then 1 else 0
  }

  /** A higher confidence never gets a worse colour. */
  lemma ProgressColorMonotone(a: real, b: real)
    requires a <= b
    ensures ColorRank(ProgressColor(a)) <= ColorRank(ProgressColor(b))
  {
  }

  /** The `domains` table: value and colour. */
  const Domains: seq<(string, string)> := [
    ("all", "gray"), ("data_science", "blue"), ("app_development", "green"),
    ("cyber_security", "red"), ("general", "purple")]

  /** `getDomainColor`: the colour of the domain's entry, 'gray' without one. */
  function DomainColor(domain: string): string {
    Lookup(Domains, domain, "gray")
  }

  lemma DomainColors(domain: string)
    ensures domain == "all" ==> DomainColor(domain) == "gray"
    ensures domain == "data_science" ==> DomainColor(domain) == "blue"
    ensures domain == "app_development" ==> DomainColor(domain) == "green"
    ensures domain == "cyber_security" ==> DomainColor(domain) == "red"
    ensures domain == "general" ==> DomainColor(domain) == "purple"
    ensures (forall j :: 0 <= j < |Domains| ==> Domains[j].0 != domain) ==> DomainColor(domain) == "gray"
  {
    if forall j :: 0 <= j < |Domains| ==> Domains[j].0 != domain {
      LookupMissing(Domains, domain, "gray");
    }
  }
}
