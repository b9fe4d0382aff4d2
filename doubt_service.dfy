/** backend/services/doubt_resolver.py: the rule-based answer to a doubt.
    The answer opens with the question, adds one advice sentence chosen by
    keyword and, when there is a context, a sentence quoting its first 100
    characters. The timestamp is an input. */
module DoubtService {
  import opened Strings

  datatype Answer = Answer(doubt: string, resolution: string, context: string, confidence: real,
                           suggestedResources: seq<string>, resolvedAt: string)

  const DebugAdvice := "For debugging issues, try checking console logs, reviewing your code syntax, and using debugging tools."
  const AlgorithmAdvice := "Algorithms are step-by-step procedures for solving problems. Try breaking down the problem into smaller steps."
  const FunctionAdvice := "Functions are reusable blocks of code. Make sure you understand parameters, return values, and scope."
  const DatabaseAdvice := "Database queries require understanding of relationships between tables. Start with simple SELECT statements."
  const GenericAdvice := "I recommend breaking down your question into smaller parts and checking our learning resources for more detailed explanations."

  const Resources: seq<string> := ["Documentation and tutorials", "Practice exercises", "Community forums"]

  /** Which advice the cascade picks for the lower-cased doubt: 0 for an
      error or bug, 1 algorithm, 2 function, 3 database, 4 none of them. */
  function AdviceIndex(lower: string): nat {
    if Contains(lower, "error") || Contains(lower, "bug") then 0
    else if Contains(lower, "algorithm") then 1
    else if Contains(lower, "function") then 2
    else if Contains(lower, "database") then 3
    else 4
  }

  function Advice(k: nat): string {
    if k == 0 then DebugAdvice
    else if k == 1 then AlgorithmAdvice
    else if k == 2 then FunctionAdvice
    else if k == 3 then DatabaseAdvice
    else GenericAdvice
  }

  const OpeningHead := "Thank you for your question: '"
  const NoteHead := " Given the context: '"
  const Ellipsis := "..."
  const NoteTail := "', you might also want to review related concepts."

  function Opening(doubt: string): string {
    OpeningHead + doubt + "'. "
  }

  /** The context sentence: empty without a context, else quoting at most its
      first 100 characters followed by '...'. */
  function ContextNote(context: string): string {
    if context == [] then ""
    else NoteHead + context[..Min(|context|, 100)] + Ellipsis + NoteTail
  }

  /** `resolve_doubt`. */
  function ResolveDoubt(doubt: string, context: string, resolvedAt: string): (r: Answer)
    ensures r.doubt == doubt && r.context == context && r.confidence == 0.7
    ensures |r.suggestedResources| == 3
    ensures StartsWith(r.resolution, OpeningHead + doubt + "'. ")
  {
    Answer(doubt, Opening(doubt) + Advice(AdviceIndex(PyLower(doubt))) + ContextNote(context),
      context, 0.7, Resources, resolvedAt)
  }

  /** The cascade: the first keyword group that occurs picks the advice. */
  lemma AdviceCascade(lower: string)
    ensures AdviceIndex(lower) == 0 <==> Contains(lower, "error") || Contains(lower, "bug")
    ensures AdviceIndex(lower) == 1 <==>
      !(Contains(lower, "error") || Contains(lower, "bug")) && Contains(lower, "algorithm")
    ensures AdviceIndex(lower) == 2 <==>
      !(Contains(lower, "error") || Contains(lower, "bug")) && !Contains(lower, "algorithm")
      && Contains(lower, "function")
    ensures AdviceIndex(lower) == 3 <==>
      !(Contains(lower, "error") || Contains(lower, "bug")) && !Contains(lower, "algorithm")
      && !Contains(lower, "function") && Contains(lower, "database")
    ensures AdviceIndex(lower) == 4 <==>
      !Contains(lower, "error") && !Contains(lower, "bug") && !Contains(lower, "algorithm")
      && !Contains(lower, "function") && !Contains(lower, "database")
  {
  }

  /** Matching ignores case: a doubt holding "error" or "bug" in any mix of
      cases ("ERROR", "Bug") gets the debugging advice. */
  lemma AdviceIgnoresCase(doubt: string, word: string)
    requires Contains(doubt, word)
    requires PyLower(word) == "error" || PyLower(word) == "bug"
    ensures AdviceIndex(PyLower(doubt)) == 0
    ensures Advice(AdviceIndex(PyLower(doubt))) == DebugAdvice
  {
    ContainsLower(doubt, word);
  }

  /** The resolution splits back into its parts: after the opening comes
      exactly one of the five advice sentences, then the context sentence. */
  lemma ResolutionParts(doubt: string, context: string, resolvedAt: string)
    ensures var res := ResolveDoubt(doubt, context, resolvedAt).resolution;
      var k := AdviceIndex(PyLower(doubt));
      var o := |Opening(doubt)|;
      && k <= 4
      && res[o..o + |Advice(k)|] == Advice(k)
      && res[o + |Advice(k)|..] == ContextNote(context)
  {
    var k := AdviceIndex(PyLower(doubt));
    ConcatParts(Opening(doubt), Advice(k), ContextNote(context));
  }

  /** The context sentence appears exactly when there is a context; it
      quotes the first 100 characters (all of a shorter context) followed by
      '...', so nothing after the 100th character shows. */
  lemma ContextNoteQuotes(context: string)
    ensures ContextNote(context) == "" <==> context == ""
    ensures context != "" ==> Contains(ContextNote(context), context[..Min(|context|, 100)] + Ellipsis)
    ensures |ContextNote(context)| <= |NoteHead| + 100 + |Ellipsis| + |NoteTail|
    ensures |context| > 100 ==> ContextNote(context) == ContextNote(context[..100])
  {
    if context != "" {
      var q := context[..Min(|context|, 100)];
      var note := ContextNote(context);
      assert note == NoteHead + (q + Ellipsis) + NoteTail;
      ConcatParts(NoteHead, q + Ellipsis, NoteTail);
      assert OccursAt(note, q + Ellipsis, |NoteHead|);
      assert |q| <= 100;
      assert |note| == |NoteHead| + |q| + |Ellipsis| + |NoteTail|;
      if |context| > 100 {
        var c := context[..100];
        assert c != [] && |c| == 100;
        assert c[..Min(|c|, 100)] == q;
      }
    }
  }
}
