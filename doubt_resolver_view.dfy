/** The doubt-resolver screen of the frontend
    (frontend/src/components/DoubtResolver/DoubtResolver.js): the state changes
    of submitting a doubt, the bounded list of recent doubts, and the domain
    colours. The network call is an input: its outcome is a `Reply`. */
module DoubtResolverView {
  import opened Strings

  /** An entry of the recent-doubts list. `id` is the clock reading
      `Date.now()` and `timestamp` its ISO text; both are inputs. */
  datatype RecentDoubt = RecentDoubt(id: int, question: string, domain: string, resolved: bool, timestamp: string)

  datatype Resolution = Resolution(
    question: string, answer: string, domain: string, context: string, timestamp: string,
    confidence: real, suggestions: seq<string>, resources: seq<string>)

  /** What the request ends with: it throws (`Failed`), answers with a
      non-2xx status (`NotOk`), or answers with a body whose optional fields
      are `None` when absent. */
  datatype Reply =
    | Failed
    | NotOk
    | Ok(text: string, confidence: Option<real>, suggestions: Option<seq<string>>, resources: Option<seq<string>>)

  // ------------------------------------------------------------ recent list

  /** The list's update: the new entry, then the first four previous ones. */
  function PushRecent(entry: RecentDoubt, prev: seq<RecentDoubt>): (r: seq<RecentDoubt>)
    ensures |r| == Min(|prev| + 1, 5)
    ensures r[0] == entry
  {
    [entry] + prev[..Min(|prev|, 4)]
  }

  /** The older entries keep their order and are the newest of the previous list. */
  lemma PushRecentKeeps(entry: RecentDoubt, prev: seq<RecentDoubt>)
    ensures PushRecent(entry, prev)[1..] == prev[..|PushRecent(entry, prev)| - 1]
    ensures PushRecent(entry, prev) == ([entry] + prev)[..Min(|prev| + 1, 5)]
  {
    var r := PushRecent(entry, prev);
    assert r[1..] == prev[..Min(|prev|, 4)];
  }

  function Reverse<T>(s: seq<T>): (r: seq<T>)
    ensures |r| == |s|
  {
    if s == [] then [] else Reverse(s[1..]) + [s[0]]
  }

  /** The list after submitting the doubts `entries`, oldest first. */
  function PushAll(prev: seq<RecentDoubt>, entries: seq<RecentDoubt>): seq<RecentDoubt> {
    if entries == [] then prev
    else
      var n := |entries| - 1;
      PushRecent(entries[n], PushAll(prev, entries[..n]))
  }

  /** However many doubts are submitted, the list holds the five newest of
      them and the earlier list, newest first. */
  lemma {:induction false} PushAllNewest(prev: seq<RecentDoubt>, entries: seq<RecentDoubt>)
    requires |prev| <= 5
    ensures PushAll(prev, entries) == (Reverse(entries) + prev)[..Min(|entries| + |prev|, 5)]
  {
    if entries != [] {
      var n := |entries| - 1;
      var e := entries[n];
      var rest := PushAll(prev, entries[..n]);
      PushAllNewest(prev, entries[..n]);
      ReverseSnoc(entries[..n], e);
      assert entries[..n] + [e] == entries;
      var all := Reverse(entries[..n]) + prev;
      assert rest == all[..Min(n + |prev|, 5)];
      PushRecentKeeps(e, rest);
      assert ([e] + rest)[..Min(|rest| + 1, 5)] == ([e] + all)[..Min(|entries| + |prev|, 5)];
      assert [e] + all == Reverse(entries) + prev;
    }
  }

  lemma {:induction false} ReverseSnoc<T>(s: seq<T>, x: T)
    ensures Reverse(s + [x]) == [x] + Reverse(s)
  {
    if s != [] {
      assert (s + [x])[1..] == s[1..] + [x];
      ReverseSnoc(s[1..], x);
    } else {
      assert Reverse([x]) == Reverse([x][1..]) + [x];
    }
  }

  // -------------------------------------------------------------- resolution

  /** `newResolution`: the answer with its defaults. `confidence || 0.9`
      replaces a missing and a zero confidence; an empty list is kept. */
  function MakeResolution(question: string, domain: string, context: string, timestamp: string, reply: Reply): (r: Resolution)
    requires reply.Ok?
    ensures r.question == question && r.domain == domain && r.context == context && r.answer == reply.text
    ensures r.confidence == (if reply.confidence.Some? && reply.confidence.value != 0.0 then reply.confidence.value else 0.9)
    ensures r.suggestions == (if reply.suggestions.Some? then reply.suggestions.value else [])
    ensures r.resources == (if reply.resources.Some? then reply.resources.value else [])
  {
    Resolution(question, reply.text, domain, context, timestamp,
      match reply.confidence
      case Some(c) => if c != 0.0 then c else 0.9
      case None => 0.9,
      match reply.suggestions
      case Some(s) => s
      case None => [],
      match reply.resources
      case Some(s) => s
      case None => [])
  }

  /** Without a usable confidence in the reply the shown confidence is 0.9. */
  lemma DefaultConfidence(question: string, domain: string, context: string, timestamp: string, text: string)
    ensures var r := MakeResolution(question, domain, context, timestamp, Ok(text, None, None, None));
      r.confidence == 0.9 && r.suggestions == [] && r.resources == []
  {
  }

  // -------------------------------------------------------------- component

  /** The component's state: the form fields, the loading flag, the shown
      resolution and the recent doubts. */
  class DoubtForm {
    var doubt: string
    var context: string
    var domain: string
    var loading: bool
    var resolution: Option<Resolution>
    var recentDoubts: seq<RecentDoubt>

    /** The initial state, with the two sample doubts of the mount effect. */
    constructor ()
      ensures doubt == "" && context == "" && domain == "general" && !loading && resolution == None
      ensures recentDoubts == [
        RecentDoubt(1, "How do I implement a binary search algorithm?", "programming", true, "2025-07-29T10:00:00Z"),
        RecentDoubt(2, "What is the difference between supervised and unsupervised learning?", "data_science", true, "2025-07-28T15:30:00Z")]
    {
      doubt, context, domain := "", "", "general";
      loading, resolution := false, None;
      recentDoubts := [
        RecentDoubt(1, "How do I implement a binary search algorithm?", "programming", true, "2025-07-29T10:00:00Z"),
        RecentDoubt(2, "What is the difference between supervised and unsupervised learning?", "data_science", true, "2025-07-28T15:30:00Z")];
    }

    /** `resolveDoubt`: a blank doubt changes nothing; otherwise `reply` is
        the request's outcome, `now` and `stamp` the clock readings. Only an
        ok reply shows a resolution, records the doubt and clears the form. */
    method ResolveDoubt(reply: Reply, now: int, stamp: string)
      modifies this
      ensures IsBlank(old(doubt)) ==> unchanged(this)
      ensures !IsBlank(old(doubt)) ==> !loading && domain == old(domain)
      ensures !IsBlank(old(doubt)) && reply.Ok? ==>
        && resolution == Some(MakeResolution(old(doubt), old(domain), old(context), stamp, reply))
        && recentDoubts == PushRecent(RecentDoubt(now, old(doubt), old(domain), true, stamp), old(recentDoubts))
        && doubt == "" && context == ""
      ensures !reply.Ok? ==> unchanged(this`doubt, this`context, this`resolution, this`recentDoubts)
    {
      if IsBlank(doubt) {
        return;
      }
      loading := true;
      if reply.Ok? {
        resolution := Some(MakeResolution(doubt, domain, context, stamp, reply));
        recentDoubts := PushRecent(RecentDoubt(now, doubt, domain, true, stamp), recentDoubts);
        doubt := "";
        context := "";
      }
      loading := false;
    }
  }

  // ------------------------------------------------------------------ colours

  const Domains: seq<(string, string)> := [
    ("general", "gray"), ("data_science", "blue"), ("app_development", "green"),
    ("cyber_security", "red"), ("mathematics", "purple"), ("programming", "indigo")]

  /** `getDomainColor`: the colour of the domain's entry, 'gray' without one. */
  function DomainColor(domain: string): string {
    Lookup(Domains, domain, "gray")
  }

  lemma DomainColors(domain: string)
    ensures domain == "general" ==> DomainColor(domain) == "gray"
    ensures domain == "data_science" ==> DomainColor(domain) == "blue"
    ensures domain == "app_development" ==> DomainColor(domain) == "green"
    ensures domain == "cyber_security" ==> DomainColor(domain) == "red"
    ensures domain == "mathematics" ==> DomainColor(domain) == "purple"
    ensures domain == "programming" ==> DomainColor(domain) == "indigo"
    ensures (forall j :: 0 <= j < |Domains| ==> Domains[j].0 != domain) ==> DomainColor(domain) == "gray"
  {
    if forall j :: 0 <= j < |Domains| ==> Domains[j].0 != domain {
      LookupMissing(Domains, domain, "gray");
    }
  }
}
