/** The recommendation screen of the frontend
    (frontend/src/components/RecommendationSystem/RecommendationSystem.js): the
    interest checklist, the parser that cuts the assistant's numbered reply into
    recommendation records, and the difficulty colours. */
module RecommendationView {
  import opened Strings

  // --------------------------------------------------------------- interests

  /** `xs.filter(y => y !== x)`. */
  function RemoveAll(xs: seq<string>, x: string): (r: seq<string>)
    ensures |r| <= |xs|
  {
    if xs == [] then [] else (if xs[0] == x then [] else [xs[0]]) + RemoveAll(xs[1..], x)
  }

  lemma {:induction false} RemoveAllMembers(xs: seq<string>, x: string)
    ensures forall y :: y in RemoveAll(xs, x) <==> y in xs && y != x
  {
    if xs != [] {
      RemoveAllMembers(xs[1..], x);
      assert xs == [xs[0]] + xs[1..];
    }
  }

  lemma {:induction false} RemoveAllAbsent(xs: seq<string>, x: string)
    requires x !in xs
    ensures RemoveAll(xs, x) == xs
  {
    if xs != [] {
      RemoveAllAbsent(xs[1..], x);
    }
  }

  lemma {:induction false} RemoveAllAppend(xs: seq<string>, x: string)
    ensures RemoveAll(xs + [x], x) == RemoveAll(xs, x)
  {
    if xs == [] {
      assert RemoveAll([x], x) == [] + RemoveAll([], x);
    } else {
      assert (xs + [x])[1..] == xs[1..] + [x];
      RemoveAllAppend(xs[1..], x);
    }
  }

  /** `updateInterests`: a selected id is removed, another one is appended. */
  function UpdateInterests(prev: seq<string>, id: string): seq<string> {
    if id in prev then RemoveAll(prev, id) else prev + [id]
  }

  /** The given id changes membership; every other id keeps it. */
  lemma UpdateInterestsFlips(prev: seq<string>, id: string)
    ensures id in UpdateInterests(prev, id) <==> id !in prev
    ensures forall other :: other != id ==> (other in UpdateInterests(prev, id) <==> other in prev)
  {
    RemoveAllMembers(prev, id);
  }

  /** Selecting an unselected id and unselecting it again restores the list. */
  lemma ToggleAbsentTwice(prev: seq<string>, id: string)
    requires id !in prev
    ensures UpdateInterests(UpdateInterests(prev, id), id) == prev
  {
    RemoveAllAppend(prev, id);
    RemoveAllAbsent(prev, id);
  }

  // ------------------------------------------------------- numbered sections

  /** A match of the pattern `\d+\.` starts at `q`: a run of digits there is
      followed by a dot. */
  predicate MarkerAt(s: string, q: int) {
    0 <= q < |s| && IsDigit(s[q])
    && DigitsFrom(s, q) < |s| && s[DigitsFrom(s, q)] == '.'
  }

  /** The first match at or after `q`, or `|s|` when there is none. */
  function NextMarker(s: string, q: nat): (r: nat)
    requires q <= |s|
    ensures q <= r <= |s|
    ensures r < |s| ==> MarkerAt(s, r)
    ensures forall j :: q <= j < r ==> !MarkerAt(s, j)
    decreases |s| - q
  {
    if q == |s| || MarkerAt(s, q) then q else NextMarker(s, q + 1)
  }

  predicate NoMarker(p: string) {
    forall j :: 0 <= j < |p| ==> !MarkerAt(p, j)
  }

  /** A match inside a slice is a match in the whole string. */
  lemma MarkerInSlice(s: string, k: nat, q: nat, j: nat)
    requires k <= q <= |s| && j < q - k && MarkerAt(s[k..q], j)
    ensures MarkerAt(s, k + j)
  {
    var p := s[k..q];
    var e := DigitsFrom(p, j);
    assert forall i :: j <= i <= e ==> p[i] == s[k + i];
    DigitsFromUnique(s, k + j, k + e);
  }

  lemma SliceNoMarker(s: string, k: nat, q: nat)
    requires k <= q <= |s|
    requires forall j :: k <= j < q ==> !MarkerAt(s, j)
    ensures NoMarker(s[k..q])
  {
    forall j | 0 <= j < q - k ensures !MarkerAt(s[k..q], j) {
      if MarkerAt(s[k..q], j) {
        MarkerInSlice(s, k, q, j);
      }
    }
  }

  /** The position just after the match that starts at `q`. */
  function AfterMarker(s: string, q: nat): (e: nat)
    requires MarkerAt(s, q)
    ensures q < e <= |s|
  {
    DigitsFrom(s, q) + 1
  }

  /** The pieces of `s[k..]` between the matches. */
  function SplitMarkersFrom(s: string, k: nat): (r: seq<string>)
    requires k <= |s|
    ensures |r| >= 1
    decreases |s| - k
  {
    var q := NextMarker(s, k);
    if q == |s| then [s[k..]]
    else [s[k..q]] + SplitMarkersFrom(s, AfterMarker(s, q))
  }

  /** `text.split(/\d+\./)`: the pieces between the matches. */
  function SplitMarkers(s: string): (r: seq<string>)
    ensures |r| >= 1
  {
    SplitMarkersFrom(s, 0)
  }

  /** The matched separators in `s[k..]`, in order. */
  function SeparatorsFrom(s: string, k: nat): seq<string>
    requires k <= |s|
    decreases |s| - k
  {
    var q := NextMarker(s, k);
    if q == |s| then []
    else [s[q..AfterMarker(s, q)]] + SeparatorsFrom(s, AfterMarker(s, q))
  }

  /** The matched separators, in order. */
  function Separators(s: string): seq<string> {
    SeparatorsFrom(s, 0)
  }

  /** A separator: one or more digits and a dot. */
  predicate IsSeparator(m: string) {
    |m| >= 2 && m[|m| - 1] == '.' && forall j :: 0 <= j < |m| - 1 ==> IsDigit(m[j])
  }

  function Interleave(pieces: seq<string>, seps: seq<string>): string
    requires |pieces| == |seps| + 1
  {
    if seps == [] then pieces[0]
    else pieces[0] + seps[0] + Interleave(pieces[1..], seps[1..])
  }

  lemma {:induction false} SplitMarkersFromPieces(s: string, k: nat)
    requires k <= |s|
    ensures forall m :: 0 <= m < |SplitMarkersFrom(s, k)| ==> NoMarker(SplitMarkersFrom(s, k)[m])
    decreases |s| - k
  {
    var q := NextMarker(s, k);
    SliceNoMarker(s, k, q);
    if q == |s| {
      assert s[k..q] == s[k..];
    } else {
      var rest := SplitMarkersFrom(s, AfterMarker(s, q));
      SplitMarkersFromPieces(s, AfterMarker(s, q));
      var r := SplitMarkersFrom(s, k);
      assert r == [s[k..q]] + rest;
      forall m | 1 <= m < |r| ensures NoMarker(r[m]) {
        assert r[m] == rest[m - 1];
      }
    }
  }

  /** No piece holds a match of the separator pattern. */
  lemma SplitMarkersPieces(s: string)
    ensures forall k :: 0 <= k < |SplitMarkers(s)| ==> NoMarker(SplitMarkers(s)[k])
  {
    SplitMarkersFromPieces(s, 0);
  }

  lemma {:induction false} SplitMarkersFromRebuild(s: string, k: nat)
    requires k <= |s|
    ensures |SplitMarkersFrom(s, k)| == |SeparatorsFrom(s, k)| + 1
    ensures Interleave(SplitMarkersFrom(s, k), SeparatorsFrom(s, k)) == s[k..]
    ensures forall m :: 0 <= m < |SeparatorsFrom(s, k)| ==> IsSeparator(SeparatorsFrom(s, k)[m])
    decreases |s| - k
  {
    var q := NextMarker(s, k);
    if q < |s| {
      var e := AfterMarker(s, q);
      SplitMarkersFromRebuild(s, e);
      MarkerSeparator(s, q);
      var pieces := SplitMarkersFrom(s, e);
      var seps := SeparatorsFrom(s, e);
      assert SplitMarkersFrom(s, k) == [s[k..q]] + pieces;
      assert SeparatorsFrom(s, k) == [s[q..e]] + seps;
      InterleaveCons(s[k..q], s[q..e], pieces, seps);
      SliceThree(s, k, q, e);
      forall m | 1 <= m < |seps| + 1 ensures IsSeparator(([s[q..e]] + seps)[m]) {
        assert ([s[q..e]] + seps)[m] == seps[m - 1];
      }
    } else {
      assert s[k..q] == s[k..];
    }
  }

  lemma InterleaveCons(p: string, m: string, pieces: seq<string>, seps: seq<string>)
    requires |pieces| == |seps| + 1
    ensures Interleave([p] + pieces, [m] + seps) == p + m + Interleave(pieces, seps)
  {
    assert ([p] + pieces)[1..] == pieces;
    assert ([m] + seps)[1..] == seps;
  }

  lemma SliceThree(s: string, k: nat, q: nat, e: nat)
    requires k <= q <= e <= |s|
    ensures s[k..] == s[k..q] + s[q..e] + s[e..]
  {
  }

  /** The split loses nothing: the pieces with the separators between them
      give back the text, and every separator is digits followed by a dot. */
  lemma SplitMarkersRebuild(s: string)
    ensures |SplitMarkers(s)| == |Separators(s)| + 1
    ensures Interleave(SplitMarkers(s), Separators(s)) == s
    ensures forall k :: 0 <= k < |Separators(s)| ==> IsSeparator(Separators(s)[k])
  {
    SplitMarkersFromRebuild(s, 0);
    assert s[0..] == s;
  }

  /** A match is a separator: digits, then a dot. */
  lemma MarkerSeparator(s: string, q: nat)
    requires MarkerAt(s, q)
    ensures IsSeparator(s[q..AfterMarker(s, q)])
  {
    var m := s[q..AfterMarker(s, q)];
    assert forall j :: 0 <= j < |m| ==> m[j] == s[q + j];
  }

  /** `aiText.split(/\d+\./).filter(section => section.trim())`. */
  function Sections(text: string): seq<string> {
    NonBlank(SplitMarkers(text))
  }

  // --------------------------------------------------------------- difficulty

  const Levels: seq<string> := ["beginner", "intermediate", "advanced", "expert"]

  /** A case-insensitive (ASCII) occurrence of `word` at `i`. */
  predicate WordAt(s: string, word: string, i: int) {
    0 <= i && i + |word| <= |s| && LowerAscii(s[i..i + |word|]) == word
  }

  /** The alternation `(beginner|intermediate|advanced|expert)` tried at `i`;
      the four words start with different letters, so at most one matches. */
  function LevelWordAt(s: string, i: int): (r: Option<string>)
    ensures r.Some? ==> r.value in Levels && WordAt(s, r.value, i)
  {
    if WordAt(s, "beginner", i) then Some("beginner")
    else if WordAt(s, "intermediate", i) then Some("intermediate")
    else if WordAt(s, "advanced", i) then Some("advanced")
    else if WordAt(s, "expert", i) then Some("expert")
    else None
  }

  predicate LevelAt(s: string, i: int) {
    WordAt(s, "beginner", i) || WordAt(s, "intermediate", i)
    || WordAt(s, "advanced", i) || WordAt(s, "expert", i)
  }

  lemma LevelWordAtSome(s: string, i: int)
    ensures LevelWordAt(s, i).Some? <==> LevelAt(s, i)
  {
  }

  /** The leftmost level word at or after `i`, with its position. */
  function LevelFrom(s: string, i: nat): (r: Option<(nat, string)>)
    ensures r.Some? ==> r.value.1 in Levels
    decreases |s| - i
  {
    if i >= |s| then None
    else match LevelWordAt(s, i)
      case Some(w) => Some((i, w))
      case None => LevelFrom(s, i + 1)
  }

  /** The scan finds the leftmost level word: it occurs where reported and no
      level word starts between `i` and there; without a result, none occurs. */
  lemma {:induction false} LevelFromLeftmost(s: string, i: nat)
    ensures var r := LevelFrom(s, i);
      && (r.Some? ==> i <= r.value.0 && WordAt(s, r.value.1, r.value.0))
      && (r.Some? ==> forall j :: i <= j < r.value.0 ==> !LevelAt(s, j))
      && (r.None? ==> forall j :: i <= j ==> !LevelAt(s, j))
    decreases |s| - i
  {
    if i >= |s| {
      forall j | i <= j ensures !LevelAt(s, j) {
        NoWordPastEnd(s, j);
      }
    } else {
      LevelWordAtSome(s, i);
      if LevelWordAt(s, i).None? {
        LevelFromLeftmost(s, i + 1);
      }
    }
  }

  lemma NoWordPastEnd(s: string, j: int)
    requires j >= |s|
    ensures !LevelAt(s, j)
  {
  }

  /** The difficulty: the first level word in the description, lower-cased,
      else 'intermediate'. */
  function Difficulty(description: string): (r: string)
    ensures r in Levels
  {
    match LevelFrom(description, 0)
    case Some((_, word)) => word
    case None => "intermediate"
  }

  /** The difficulty is the level word that occurs first in the description
      (`found`, at position `i`), or 'intermediate' when none occurs at all. */
  lemma DifficultyFirstLevel(description: string) returns (found: bool, i: int)
    ensures found ==> 0 <= i && WordAt(description, Difficulty(description), i)
    ensures found ==> forall j :: 0 <= j < i ==> !LevelAt(description, j)
    ensures !found ==> Difficulty(description) == "intermediate"
    ensures !found ==> forall j :: 0 <= j ==> !LevelAt(description, j)
  {
    LevelFromLeftmost(description, 0);
    var r := LevelFrom(description, 0);
    found := r.Some?;
    if found {
      i := r.value.0;
      assert Difficulty(description) == r.value.1;
    } else {
      i := 0;
    }
  }

  // ---------------------------------------------------------------- records

  datatype AiRec = AiRec(
    id: int, title: string, description: string, kind: string, difficulty: string,
    estimatedTime: string, topics: seq<string>, reason: string, aiGenerated: bool)

  predicate IsBulletChar(c: char) {
    c == '*' || c == '-' || IsJsSpace(c)
  }

  /** The end of the run of characters of the class `[\*\-\s]` that starts at `k`. */
  function BulletsFrom(s: string, k: nat): (n: nat)
    requires k <= |s|
    ensures k <= n <= |s|
    ensures forall j :: k <= j < n ==> IsBulletChar(s[j])
    ensures n < |s| ==> !IsBulletChar(s[n])
    decreases |s| - k
  {
    if k < |s| && IsBulletChar(s[k]) then BulletsFrom(s, k + 1) else k
  }

  /** The first line with the pattern `^[\*\-\s]*` replaced by nothing, then trimmed. */
  function CardTitle(first: string): string {
    Trim(first[BulletsFrom(first, 0)..])
  }

  /** `description.slice(0, 200) + (description.length > 200 ? '...' : '')`. */
  function Shorten(d: string): (r: string)
  {
    d[..Min(200, |d|)] + (if |d| > 200 then "..." else "")
  }

  lemma ShortenBound(d: string)
    ensures |Shorten(d)| <= 203
    ensures |d| <= 200 ==> Shorten(d) == d
    ensures |d| > 200 ==> Shorten(d) == d[..200] + "..." && |Shorten(d)| == 203
  {
  }

  function FallbackTitle(index: nat): string {
    "Learning Recommendation " + NatToString(index + 1)
  }

  /** The record the `forEach` callback pushes for the section at `index`, or
      nothing when the section has no non-blank line. */
  function SectionRecord(section: string, index: nat,
                         timeMatch: string -> Option<string>,
                         reasonMatch: string -> Option<string>): Option<AiRec>
  {
    var lines := NonBlankLines(Trim(section));
    if |lines| > 0 then Some(BuildRecord(lines, index, timeMatch, reasonMatch)) else None
  }

  /** The record built from a section's non-blank lines. The time and reason
      patterns are taken as given extractors: `timeMatch` returns the first
      capture of the time pattern, `reasonMatch` that of the reason pattern. */
  function BuildRecord(lines: seq<string>, index: nat,
                       timeMatch: string -> Option<string>,
                       reasonMatch: string -> Option<string>): AiRec
    requires |lines| > 0
  {
    var title := CardTitle(lines[0]);
    var description := Trim(Join(lines[1..], " "));
    AiRec(
      index + 1,
      if title != [] then title else FallbackTitle(index),
      Shorten(description),
      "ai_generated",
      Difficulty(description),
      match timeMatch(description) case Some(t) => t case None => "Varies",
      [],
      match reasonMatch(description) case Some(m) => Trim(m) case None => "AI-generated recommendation",
      true)
  }

  /** The `forEach` callback as a value: the record it pushes for the
      section at an index, if any. */
  function SectionBuilder(timeMatch: string -> Option<string>,
                          reasonMatch: string -> Option<string>): (string, nat) -> Option<AiRec>
  {
    (section: string, index: nat) => SectionRecord(section, index, timeMatch, reasonMatch)
  }

  /** What the callback `build` pushes over the sections, in order. */
  function Records(sections: seq<string>, build: (string, nat) -> Option<AiRec>): seq<AiRec>
  {
    if sections == [] then []
    else
      var n := |sections| - 1;
      Records(sections[..n], build) + Pushed(build(sections[n], n))
  }

  /** What `forEach` pushes for one section: the record, if any. */
  function Pushed(o: Option<AiRec>): (r: seq<AiRec>)
    ensures |r| <= 1
  {
    match o case Some(x) => [x] case None => []
  }

  /** One more section: the records so far, then what the callback pushes. */
  lemma RecordsStep(sections: seq<string>, i: nat, build: (string, nat) -> Option<AiRec>)
    requires i < |sections|
    ensures Records(sections[..i + 1], build) == Records(sections[..i], build) + Pushed(build(sections[i], i))
  {
    assert sections[..i + 1][..i] == sections[..i];
  }

  function AiRecommendations(text: string,
                             timeMatch: string -> Option<string>,
                             reasonMatch: string -> Option<string>): seq<AiRec>
  {
    var all := Records(Sections(text), SectionBuilder(timeMatch, reasonMatch));
    all[..Min(6, |all|)]
  }

  /** `parseAIRecommendations`. */
  method ParseAIRecommendations(aiText: string,
                                timeMatch: string -> Option<string>,
                                reasonMatch: string -> Option<string>)
    returns (r: seq<AiRec>)
    ensures r == AiRecommendations(aiText, timeMatch, reasonMatch)
    ensures |r| <= 6
  {
    var sections := Sections(aiText);
    var build := SectionBuilder(timeMatch, reasonMatch);
    var recommendations: seq<AiRec> := [];
    for index := 0 to |sections|
      invariant recommendations == Records(sections[..index], build)
    {
      RecordsStep(sections, index, build);
      var rec := build(sections[index], index);
      if rec.Some? {
        recommendations := recommendations + [rec.value];
      }
    }
    assert sections[..|sections|] == sections;
    r := recommendations[..Min(6, |recommendations|)];
  }

  // ------------------------------------------------------------- properties

  /** A section that is not blank always yields a record, numbered after its
      index. */
  lemma SectionYields(section: string, index: nat,
                      timeMatch: string -> Option<string>,
                      reasonMatch: string -> Option<string>)
    requires !IsBlank(section)
    ensures SectionRecord(section, index, timeMatch, reasonMatch).Some?
    ensures SectionRecord(section, index, timeMatch, reasonMatch).value.id == index + 1
  {
    var t := Trim(section);
    NotBlankAt(t, 0);
    SplitKeepsNonBlank(t, '\n');
    var k :| 0 <= k < |SplitOn(t, '\n')| && !IsBlank(SplitOn(t, '\n')[k]);
    NonBlankEmpty(SplitOn(t, '\n'));
  }

  /** A callback that yields a record numbered `k + 1` for every section `k`
      gives one record per section, numbered 1, 2, ..., n. */
  lemma {:induction false} RecordIdsOf(sections: seq<string>, build: (string, nat) -> Option<AiRec>)
    requires forall k :: 0 <= k < |sections| ==>
      build(sections[k], k).Some? && build(sections[k], k).value.id == k + 1
    ensures |Records(sections, build)| == |sections|
    ensures forall k :: 0 <= k < |sections| ==> Records(sections, build)[k].id == k + 1
  {
    if sections != [] {
      var n := |sections| - 1;
      var prefix := sections[..n];
      assert forall k :: 0 <= k < n ==> prefix[k] == sections[k];
      RecordIdsOf(prefix, build);
      var rec := build(sections[n], n).value;
      var prev := Records(prefix, build);
      assert Records(sections, build) == prev + [rec];
      AppendNextId(prev, rec);
    }
  }

  /** A record numbered `n + 1` after `n` records numbered from 1 keeps the
      numbering. */
  lemma AppendNextId(prev: seq<AiRec>, rec: AiRec)
    requires forall k :: 0 <= k < |prev| ==> prev[k].id == k + 1
    requires rec.id == |prev| + 1
    ensures forall k :: 0 <= k < |prev| + 1 ==> (prev + [rec])[k].id == k + 1
  {
  }

  /** Every non-blank section yields exactly one record, so the ids are
      1, 2, ..., n in section order. */
  lemma RecordIds(sections: seq<string>,
                  timeMatch: string -> Option<string>,
                  reasonMatch: string -> Option<string>)
    requires forall k :: 0 <= k < |sections| ==> !IsBlank(sections[k])
    ensures var rs := Records(sections, SectionBuilder(timeMatch, reasonMatch));
      |rs| == |sections| && forall k :: 0 <= k < |sections| ==> rs[k].id == k + 1
  {
    var build := SectionBuilder(timeMatch, reasonMatch);
    forall k | 0 <= k < |sections|
      ensures build(sections[k], k).Some? && build(sections[k], k).value.id == k + 1
    {
      SectionYields(sections[k], k, timeMatch, reasonMatch);
    }
    RecordIdsOf(sections, build);
  }

  /** Applied to a reply: one record per non-blank section, numbered from 1. */
  lemma ReplyIds(text: string,
                 timeMatch: string -> Option<string>,
                 reasonMatch: string -> Option<string>)
    ensures |Records(Sections(text), SectionBuilder(timeMatch, reasonMatch))| == |Sections(text)|
    ensures forall k :: 0 <= k < |Sections(text)| ==> Records(Sections(text), SectionBuilder(timeMatch, reasonMatch))[k].id == k + 1
  {
    NonBlankKeeps(SplitMarkers(text));
    RecordIds(Sections(text), timeMatch, reasonMatch);
  }

  /** The shape of every record: a non-empty title, falling back to the
      numbered default exactly when the cleaned first line is empty; a
      description of at most 203 characters; one of the four difficulties;
      and the fixed fields. */
  lemma RecordShape(section: string, index: nat,
                    timeMatch: string -> Option<string>,
                    reasonMatch: string -> Option<string>)
    requires SectionRecord(section, index, timeMatch, reasonMatch).Some?
    ensures var r := SectionRecord(section, index, timeMatch, reasonMatch).value;
      var first := NonBlankLines(Trim(section))[0];
      && r.id == index + 1
      && r.title != []
      && (CardTitle(first) == [] ==> r.title == FallbackTitle(index))
      && (CardTitle(first) != [] ==> r.title == CardTitle(first))
      && |r.description| <= 203
      && r.difficulty in Levels
      && r.kind == "ai_generated" && r.topics == [] && r.aiGenerated
  {
    var lines := NonBlankLines(Trim(section));
    ShortenBound(Trim(Join(lines[1..], " ")));
    assert SectionRecord(section, index, timeMatch, reasonMatch).value == BuildRecord(lines, index, timeMatch, reasonMatch);
  }

  // ----------------------------------------------------------------- colours

  /** `getDifficultyColor`. */
  function DifficultyColor(difficulty: string): (r: string)
    ensures difficulty == "beginner" ==> r == "bg-green-100 text-green-800"
    ensures difficulty == "intermediate" ==> r == "bg-yellow-100 text-yellow-800"
    ensures difficulty == "advanced" ==> r == "bg-orange-100 text-orange-800"
    ensures difficulty == "expert" ==> r == "bg-red-100 text-red-800"
    ensures difficulty !in Levels ==> r == "bg-gray-100 text-gray-800"
  {
    if difficulty == "beginner" then "bg-green-100 text-green-800"
    else if difficulty == "intermediate" then "bg-yellow-100 text-yellow-800"
    else if difficulty == "advanced" then "bg-orange-100 text-orange-800"
    else if difficulty == "expert" then "bg-red-100 text-red-800"
    else "bg-gray-100 text-gray-800"
  }

  /** A parsed record's difficulty is never shown in the fallback grey. */
  lemma ParsedDifficultyColored(description: string)
    ensures DifficultyColor(Difficulty(description)) != "bg-gray-100 text-gray-800"
  {
  }
}
