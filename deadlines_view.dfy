/** The deadlines screen of the frontend (frontend/src/components/Deadlines/Deadlines.js):
    list updaters over the deadlines state, the filter and sort pipeline, urgency
    colours, and the parser that turns the assistant's prose into suggestion cards.
    A deadline's date is a day number; `today` is the current day number, so the
    days left are `deadline - today`. */
module DeadlinesView {
  import opened Strings
  import Sorting

  datatype Deadline = Deadline(
    id: int, title: string, description: string, deadline: int,
    priority: string, category: string, isCompleted: bool)

  // ----------------------------------------------------------- list updaters

  /** `toggleComplete`: flips `is_completed` on the items whose id matches. */
  function ToggleComplete(ds: seq<Deadline>, id: int): (r: seq<Deadline>)
    ensures |r| == |ds|
    ensures forall i :: 0 <= i < |ds| ==>
      && r[i].(isCompleted := ds[i].isCompleted) == ds[i]
      && (r[i].isCompleted <==> (ds[i].isCompleted != (ds[i].id == id)))
  {
    if ds == [] then []
    else
      var d := ds[0];
      [if d.id == id then d.(isCompleted := !d.isCompleted) else d] + ToggleComplete(ds[1..], id)
  }

  /** Toggling the same id twice restores the list. */
  lemma {:induction false} ToggleTwice(ds: seq<Deadline>, id: int)
    ensures ToggleComplete(ToggleComplete(ds, id), id) == ds
  {
    var once := ToggleComplete(ds, id);
    var twice := ToggleComplete(once, id);
    forall i | 0 <= i < |ds| ensures twice[i] == ds[i] {
      assert once[i].id == ds[i].id;
    }
  }

  function WithoutId(ds: seq<Deadline>, id: int): (r: seq<Deadline>)
    ensures |r| <= |ds|
  {
    if ds == [] then []
    else (if ds[0].id == id then [] else [ds[0]]) + WithoutId(ds[1..], id)
  }

  /** The items left are exactly those whose id differs. */
  lemma {:induction false} WithoutIdMembers(ds: seq<Deadline>, id: int)
    ensures forall d :: d in WithoutId(ds, id) <==> d in ds && d.id != id
  {
    if ds != [] {
      WithoutIdMembers(ds[1..], id);
      assert ds == [ds[0]] + ds[1..];
    }
  }

  /** `deleteDeadline`: when the user confirms, the items with that id go. */
  function DeleteDeadline(ds: seq<Deadline>, id: int, confirmed: bool): (r: seq<Deadline>)
    ensures !confirmed ==> r == ds
    ensures confirmed ==> forall d :: d in r <==> d in ds && d.id != id
  {
    WithoutIdMembers(ds, id);
    if confirmed then WithoutId(ds, id) else ds
  }

  /** Deletion keeps the remaining items in their order: it distributes over
      concatenation, so each item is kept or dropped where it stands. */
  lemma {:induction false} WithoutIdConcat(a: seq<Deadline>, b: seq<Deadline>, id: int)
    ensures WithoutId(a + b, id) == WithoutId(a, id) + WithoutId(b, id)
  {
    if a == [] {
      assert a + b == b;
    } else {
      var head := if a[0].id == id then [] else [a[0]];
      calc {
        WithoutId(a + b, id);
        { assert (a + b)[0] == a[0]; assert (a + b)[1..] == a[1..] + b; }
        head + WithoutId(a[1..] + b, id);
        { WithoutIdConcat(a[1..], b, id); }
        head + (WithoutId(a[1..], id) + WithoutId(b, id));
        (head + WithoutId(a[1..], id)) + WithoutId(b, id);
      }
    }
  }

  /** An item whose id is not deleted is kept unchanged at its place. */
  lemma {:induction false} WithoutIdKeepsOthers(ds: seq<Deadline>, id: int)
    requires forall i :: 0 <= i < |ds| ==> ds[i].id != id
    ensures WithoutId(ds, id) == ds
  {
    if ds != [] {
      WithoutIdKeepsOthers(ds[1..], id);
    }
  }

  // ----------------------------------------------------------- filter and sort

  predicate Shown(filter: string, d: Deadline, today: int) {
    if filter == "all" then true
    else if filter == "upcoming" then !d.isCompleted && d.deadline - today >= 0
    else if filter == "overdue" then !d.isCompleted && d.deadline - today < 0
    else if filter == "completed" then d.isCompleted
    else true
  }

  function FilterDeadlines(ds: seq<Deadline>, filter: string, today: int): (r: seq<Deadline>)
    ensures |r| <= |ds|
  {
    if ds == [] then []
    else (if Shown(filter, ds[0], today) then [ds[0]] else []) + FilterDeadlines(ds[1..], filter, today)
  }

  /** The filtered list holds exactly the items the filter shows. */
  lemma {:induction false} FilterMembers(ds: seq<Deadline>, filter: string, today: int)
    ensures forall d :: d in FilterDeadlines(ds, filter, today) <==> d in ds && Shown(filter, d, today)
  {
    if ds != [] {
      FilterMembers(ds[1..], filter, today);
      assert ds == [ds[0]] + ds[1..];
    }
  }

  /** Every deadline is shown by exactly one of 'upcoming', 'overdue' and 'completed'. */
  lemma OneOfThreeFilters(d: Deadline, today: int)
    ensures Shown("upcoming", d, today) ==> !Shown("overdue", d, today) && !Shown("completed", d, today)
    ensures Shown("overdue", d, today) ==> !Shown("completed", d, today)
    ensures Shown("upcoming", d, today) || Shown("overdue", d, today) || Shown("completed", d, today)
  {
  }

  /** The three filters partition the list: their sizes add up to its size. */
  lemma {:induction false} FiltersPartition(ds: seq<Deadline>, today: int)
    ensures |FilterDeadlines(ds, "upcoming", today)| + |FilterDeadlines(ds, "overdue", today)|
          + |FilterDeadlines(ds, "completed", today)| == |ds|
  {
    if ds != [] {
      FiltersPartition(ds[1..], today);
      OneOfThreeFilters(ds[0], today);
    }
  }

  /** 'all' and any filter value the screen does not know keep every item. */
  lemma {:induction false} OtherFiltersKeepAll(ds: seq<Deadline>, filter: string, today: int)
    requires filter != "upcoming" && filter != "overdue" && filter != "completed"
    ensures FilterDeadlines(ds, filter, today) == ds
  {
    if ds != [] {
      OtherFiltersKeepAll(ds[1..], filter, today);
    }
  }

  /** `priorityOrder`: high 3, medium 2, low 1. A value outside the table makes
      the comparator return NaN, for which JavaScript leaves the order to the
      engine; the model ranks it 0. */
  function PriorityRank(p: string): int {
    if p == "high" then 3 else if p == "medium" then 2 else if p == "low" then 1 else 0
  }

  function DateKey(d: Deadline): int { d.deadline }

  function PriorityKey(d: Deadline): int { -PriorityRank(d.priority) }

  function SortDeadlines(ds: seq<Deadline>, sortBy: string): seq<Deadline> {
    if sortBy == "deadline" then Sorting.SortByKey(ds, DateKey)
    else if sortBy == "priority" then Sorting.SortByKey(ds, PriorityKey)
    else ds
  }

  /** `filteredAndSortedDeadlines`. */
  function VisibleDeadlines(ds: seq<Deadline>, filter: string, sortBy: string, today: int): seq<Deadline> {
    SortDeadlines(FilterDeadlines(ds, filter, today), sortBy)
  }

  /** Sorting by deadline is ascending, sorting by priority puts high before
      medium before low; either way the result is a permutation of the
      filtered list, and items that compare equal keep their order. */
  lemma VisibleOrder(ds: seq<Deadline>, filter: string, sortBy: string, today: int)
    ensures var f := FilterDeadlines(ds, filter, today);
      var v := VisibleDeadlines(ds, filter, sortBy, today);
      && multiset(v) == multiset(f)
      && (sortBy == "deadline" ==> forall i, j :: 0 <= i < j < |v| ==> v[i].deadline <= v[j].deadline)
      && (sortBy == "priority" ==> forall i, j :: 0 <= i < j < |v| ==>
            PriorityRank(v[i].priority) >= PriorityRank(v[j].priority))
      && (sortBy != "deadline" && sortBy != "priority" ==> v == f)
  {
    var f := FilterDeadlines(ds, filter, today);
    Sorting.SortSortsAndPermutes(f, DateKey);
    Sorting.SortSortsAndPermutes(f, PriorityKey);
  }

  /** Deadlines due the same day keep their list order when sorted by date. */
  lemma SameDayKeepsOrder(ds: seq<Deadline>, day: int)
    ensures Sorting.WithKey(SortDeadlines(ds, "deadline"), DateKey, day) == Sorting.WithKey(ds, DateKey, day)
  {
    Sorting.SortStable(ds, DateKey, day);
  }

  // ---------------------------------------------------------------- urgency

  /** `getUrgencyColor`, given the days left until the deadline. */
  function UrgencyColor(days: int): (r: string)
    ensures days < 0 ==> r == "border-red-500 bg-red-50"
    ensures 0 <= days <= 2 ==> r == "border-orange-500 bg-orange-50"
    ensures 3 <= days <= 7 ==> r == "border-yellow-500 bg-yellow-50"
    ensures days > 7 ==> r == "border-green-500 bg-green-50"
  {
    if days < 0 then "border-red-500 bg-red-50"
    else if days <= 2 then "border-orange-500 bg-orange-50"
    else if days <= 7 then "border-yellow-500 bg-yellow-50"
    else "border-green-500 bg-green-50"
  }

  // --------------------------------------------------- AI suggestion parser

  datatype SuggestionType = General | Priority | Time | Risk | Wellness

  datatype Suggestion = Suggestion(title: string, content: string, kind: SuggestionType)

  /** The keyword groups, tried in order; the first that matches decides the type. */
  function HeaderType(line: string): Option<SuggestionType> {
    if Contains(line, "Priority") || Contains(line, "priority") then Some(Priority)
    else if Contains(line, "Time") || Contains(line, "Schedule") then Some(Time)
    else if Contains(line, "Risk") || Contains(line, "risk") then Some(Risk)
    else if Contains(line, "Stress") || Contains(line, "stress") then Some(Wellness)
    else None
  }

  /** A line that names a keyword group is not empty. */
  lemma HeaderNonEmpty(line: string)
    requires HeaderType(line).Some?
    ensures line != []
  {
  }

  /** A trimmed line, read either as a card header or as text. */
  datatype Line = Header(title: string, kind: SuggestionType) | Text(clean: string)

  function Classify(line: string): (l: Line)
    ensures l.Header? ==> l.title == Trim(line) && l.title != [] && HeaderType(l.title) == Some(l.kind)
    ensures l.Text? ==> l.clean == Trim(line) && HeaderType(l.clean).None?
  {
    var clean := Trim(line);
    match HeaderType(clean)
    case Some(t) => HeaderNonEmpty(clean); Header(clean, t)
    case None => Text(clean)
  }

  function ClassifyAll(lines: seq<string>): (r: seq<Line>)
    ensures |r| == |lines|
  {
    seq(|lines|, i requires 0 <= i < |lines| => Classify(lines[i]))
  }

  /** The card being filled (`currentSuggestion`) and the cards pushed so far. */
  datatype ParseState = ParseState(pushed: seq<Suggestion>, current: Suggestion)

  const Placeholder := Suggestion("", "", General)

  /** The cards pushed so far plus the current one if it has a title. */
  function Flush(st: ParseState): seq<Suggestion> {
    if st.current.title != [] then st.pushed + [st.current] else st.pushed
  }

  /** One iteration of the `forEach` over the lines. */
  function Step(st: ParseState, l: Line): ParseState {
    match l
    case Header(title, t) => ParseState(Flush(st), Suggestion(title, "", t))
    case Text(clean) =>
      if clean != [] && st.current.title != [] then
        st.(current := st.current.(content := st.current.content + clean + " "))
      else st
  }

  function Run(ls: seq<Line>): ParseState {
    if ls == [] then ParseState([], Placeholder)
    else Step(Run(ls[..|ls| - 1]), ls[|ls| - 1])
  }

  /** One more line: the state so far, stepped by it. */
  lemma RunStep(ls: seq<Line>, i: nat)
    requires i < |ls|
    ensures Run(ls[..i + 1]) == Step(Run(ls[..i]), ls[i])
  {
    assert ls[..i + 1][..i] == ls[..i];
  }

  /** What `parseAISuggestions` returns: the flushed cards, at most four. */
  function Suggestions(text: string): seq<Suggestion> {
    var all := Flush(Run(ClassifyAll(NonBlankLines(text))));
    all[..Min(4, |all|)]
  }

  /** `parseAISuggestions`. */
  method ParseAISuggestions(aiText: string) returns (r: seq<Suggestion>)
    ensures r == Suggestions(aiText)
    ensures |r| <= 4
  {
    var lines := NonBlankLines(aiText);
    ghost var ls := ClassifyAll(lines);
    var suggestions: seq<Suggestion> := [];
    var current := Placeholder;
    for i := 0 to |lines|
      invariant ParseState(suggestions, current) == Run(ls[..i])
    {
      RunStep(ls, i);
      assert ls[i] == Classify(lines[i]);
      var cleanLine := Trim(lines[i]);
      var header := HeaderType(cleanLine);
      if header.Some? {
        if current.title != [] {
          suggestions := suggestions + [current];
        }
        current := Suggestion(cleanLine, "", header.value);
      } else if cleanLine != [] && current.title != [] {
        current := current.(content := current.content + cleanLine + " ");
      }
    }
    assert ls[..|lines|] == ls;
    if current.title != [] {
      suggestions := suggestions + [current];
    }
    r := suggestions[..Min(4, |suggestions|)];
  }

  /** The header lines, in order. */
  function Heads(ls: seq<Line>): seq<Line> {
    if ls == [] then []
    else Heads(ls[..|ls| - 1]) + (if ls[|ls| - 1].Header? then [ls[|ls| - 1]] else [])
  }

  /** The header line each card was opened by. */
  function Openers(cards: seq<Suggestion>): seq<Line> {
    if cards == [] then []
    else Openers(cards[..|cards| - 1]) + [Header(cards[|cards| - 1].title, cards[|cards| - 1].kind)]
  }

  lemma OpenersAppend(cards: seq<Suggestion>, c: Suggestion)
    ensures Openers(cards + [c]) == Openers(cards) + [Header(c.title, c.kind)]
  {
    assert (cards + [c])[..|cards|] == cards;
  }

  predicate TitledHeaders(ls: seq<Line>) {
    forall i :: 0 <= i < |ls| ==> ls[i].Header? ==> ls[i].title != []
  }

  /** The cards correspond one to one, in order, to the header lines: each
      card has the title and type of the header line that opened it. */
  lemma {:induction false} CardsFollowHeaders(ls: seq<Line>)
    requires TitledHeaders(ls)
    ensures Openers(Flush(Run(ls))) == Heads(ls)
  {
    if ls != [] {
      var n := |ls|;
      var prev := Run(ls[..n - 1]);
      assert TitledHeaders(ls[..n - 1]) by {
        forall i | 0 <= i < n - 1 ensures ls[..n - 1][i] == ls[i] { }
      }
      CardsFollowHeaders(ls[..n - 1]);
      match ls[n - 1]
      case Header(title, t) =>
        OpenersAppend(Flush(prev), Suggestion(title, "", t));
      case Text(clean) =>
        if clean != [] && prev.current.title != [] {
          var next := Step(prev, ls[n - 1]);
          OpenersAppend(prev.pushed, prev.current);
          OpenersAppend(prev.pushed, next.current);
        }
    }
  }

  /** Applied to a reply: every card's title is a trimmed line of the reply
      that names a keyword group, its type is the first group that line names,
      and the cards come in the order of those lines. */
  lemma CardsAreHeaders(text: string)
    ensures var ls := ClassifyAll(NonBlankLines(text));
      && Openers(Flush(Run(ls))) == Heads(ls)
      && forall i :: 0 <= i < |ls| ==> ls[i] == Classify(NonBlankLines(text)[i])
  {
    var lines := NonBlankLines(text);
    var ls := ClassifyAll(lines);
    assert TitledHeaders(ls) by {
      forall i | 0 <= i < |ls| && ls[i].Header? ensures ls[i].title != [] {
        assert ls[i] == Classify(lines[i]);
      }
    }
    CardsFollowHeaders(ls);
  }

  /** Text lines give `content`: each non-empty one followed by one space. */
  function Body(ls: seq<Line>): string
    requires forall i :: 0 <= i < |ls| ==> ls[i].Text?
  {
    if ls == [] then ""
    else
      var clean := ls[|ls| - 1].clean;
      Body(ls[..|ls| - 1]) + (if clean != [] then clean + " " else "")
  }

  /** Text lines before the first header are dropped. */
  lemma {:induction false} LeadingLinesDropped(ls: seq<Line>)
    requires forall i :: 0 <= i < |ls| ==> ls[i].Text?
    ensures Run(ls) == ParseState([], Placeholder)
  {
    if ls != [] {
      var n := |ls|;
      assert forall i :: 0 <= i < n - 1 ==> ls[..n - 1][i] == ls[i];
      LeadingLinesDropped(ls[..n - 1]);
    }
  }

  /** After a header line, the following text lines make up the card's
      content, and the cards before it are pushed unchanged. */
  lemma {:induction false} HeaderThenBody(before: seq<Line>, title: string, t: SuggestionType, body: seq<Line>)
    requires title != []
    requires forall i :: 0 <= i < |body| ==> body[i].Text?
    ensures Run(before + [Header(title, t)] + body)
         == ParseState(Flush(Run(before)), Suggestion(title, Body(body), t))
  {
    var all := before + [Header(title, t)] + body;
    if body == [] {
      assert all[..|all| - 1] == before;
    } else {
      var n := |body|;
      var rest := body[..n - 1];
      assert all[..|all| - 1] == before + [Header(title, t)] + rest;
      assert all[|all| - 1] == body[n - 1];
      assert forall i :: 0 <= i < n - 1 ==> rest[i] == body[i];
      HeaderThenBody(before, title, t, rest);
    }
  }
}
