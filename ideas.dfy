/**
 * The post-LLM part of `generate_business_ideas`: the language model is shown the first thirty
 * records, numbered from 0, and answers with ideas that each cite the number of the record that
 * inspired them; every cited record is looked up and its text, URL and source copied into the idea.
 */
module Ideas {
  import opened Wrappers
  import opened Text
  import opened Records
  import opened Scan

  /** Only the first thirty records are listed in the prompt. */
  const PromptLimit: nat := 30

  /**
   * `int(idea.get('source_id', -1))`: a number (-1 when the key is missing), a `ValueError`
   * (skipped by the inner handler), or any other exception, which the inner handler does not
   * catch and which ends the whole call in the outer one.
   */
  datatype SourceRef = Converted(n: int) | NotANumber | Uncaught

  /** One entry of the model's `ideas` list; a missing `name` or `pitch` raises `KeyError` when read. */
  datatype RawIdea = RawIdea(sourceId: SourceRef, name: Option<string>, pitch: Option<string>)

  /** An idea enriched with the record it cites. */
  datatype Idea = Idea(name: string, pitch: string, sourceText: string, sourceUrl: string, sourceOrigin: string)

  /** What the enrichment loop does with one raw idea, accepting record numbers below `bound`. */
  function IdeaStep(collected: seq<Record>, bound: nat, idea: RawIdea): Step<Idea>
    requires bound <= |collected|
  {
    match idea.sourceId
    case NotANumber => Skip
    case Uncaught => Raise
    case Converted(idx) =>
      if 0 <= idx < bound then
        if idea.name.None? || idea.pitch.None? then Raise
        else Keep(Idea(idea.name.value, idea.pitch.value, collected[idx].text, collected[idx].url, collected[idx].source))
      else Skip
  }

  function IdeaSteps(collected: seq<Record>, bound: nat): RawIdea -> Step<Idea>
    requires bound <= |collected|
  {
    idea => IdeaStep(collected, bound, idea)
  }

  /**
   * The enrichment: `answer` is the parsed `ideas` list (None when the call or the parsing
   * raised); any exception that reaches the outer handler turns the whole result into `[]`.
   */
  function Enrich(collected: seq<Record>, answer: Option<seq<RawIdea>>, bound: nat): seq<Idea>
    requires bound <= |collected|
  {
    if collected == [] then []
    else match answer
      case None => []
      case Some(ideas) =>
        var p := Over(ideas, IdeaSteps(collected, bound));
        if p.raised then [] else p.out
  }

  /** The records listed in the prompt. */
  function Shown(collected: seq<Record>): (shown: seq<Record>)
    ensures shown <= collected && |shown| == if |collected| < PromptLimit then |collected| else PromptLimit
  {
    Take(collected, PromptLimit)
  }

  /** `generate_business_ideas` as written: a cited number is accepted below `len(collected_data)`. */
  function GenerateAsWritten(collected: seq<Record>, llm: seq<Record> -> Option<seq<RawIdea>>): seq<Idea>
  {
    Enrich(collected, llm(Shown(collected)), |collected|)
  }

  /** `generate_business_ideas` accepting only the numbers the prompt listed. */
  function Generate(collected: seq<Record>, llm: seq<Record> -> Option<seq<RawIdea>>): seq<Idea>
  {
    Enrich(collected, llm(Shown(collected)), |Shown(collected)|)
  }

  /** The enrichment loop over the model's answer, accepting only numbers the prompt listed. */
  method GenerateBusinessIdeas(collected: seq<Record>, llm: seq<Record> -> Option<seq<RawIdea>>)
    returns (enhanced: seq<Idea>)
    ensures enhanced == Generate(collected, llm)
  {
    if collected == [] {
      return [];
    }
    var shown := Shown(collected);
    var answer := llm(shown);
    if answer.None? {
      return [];
    }
    var result := answer.value;
    enhanced := [];
    for k := 0 to |result|
      invariant Run(result, IdeaSteps(collected, |shown|), k) == Pass(enhanced, false)
    {
      var idea := result[k];
      if idea.sourceId.NotANumber? {
        continue;
      }
      if idea.sourceId.Uncaught? {
        RaiseEndsWalk(result, IdeaSteps(collected, |shown|), k);
        return [];
      }
      var idx := idea.sourceId.n;
      if 0 <= idx < |shown| {
        if idea.name.None? || idea.pitch.None? {
          RaiseEndsWalk(result, IdeaSteps(collected, |shown|), k);
          return [];
        }
        var original := collected[idx];
        enhanced := enhanced + [Idea(idea.name.value, idea.pitch.value, original.text, original.url, original.source)];
      }
    }
  }

  /**
   * Every idea cites a record listed in the prompt: it carries the name and pitch of a raw idea
   * whose number is below `min(30, |collected|)`, and that record's text, URL and source.
   */
  lemma IdeaProvenance(collected: seq<Record>, llm: seq<Record> -> Option<seq<RawIdea>>, idea: Idea)
    requires idea in Generate(collected, llm)
    ensures var shown := Shown(collected);
      exists k, idx: nat :: && 0 <= k < |llm(shown).value| && idx < |shown|
                            && llm(shown).value[k] == RawIdea(Converted(idx), Some(idea.name), Some(idea.pitch))
                            && idea == Idea(idea.name, idea.pitch, shown[idx].text, shown[idx].url, shown[idx].source)
  {
    var shown := Shown(collected);
    var ideas := llm(shown).value;
    RunProvenance(ideas, IdeaSteps(collected, |shown|), |ideas|, idea);
    var k :| 0 <= k < |ideas| && IdeaStep(collected, |shown|, ideas[k]) == Keep(idea);
    var idx: nat := ideas[k].sourceId.n;
    assert shown[idx] == collected[idx];
    assert ideas[k] == RawIdea(Converted(idx), Some(idea.name), Some(idea.pitch));
  }

  /**
   * When no raw idea escapes to the outer handler, every idea citing a listed record with a
   * name and a pitch is emitted; ideas citing other numbers are dropped silently, not fatally.
   */
  lemma IdeaCompleteness(collected: seq<Record>, llm: seq<Record> -> Option<seq<RawIdea>>, k: nat)
    requires collected != [] && llm(Shown(collected)).Some?
    requires var ideas := llm(Shown(collected)).value; k < |ideas|
    requires var ideas := llm(Shown(collected)).value;
      forall m :: 0 <= m < |ideas| ==> IdeaStep(collected, |Shown(collected)|, ideas[m]) != Raise
    requires var raw := llm(Shown(collected)).value[k];
      raw.sourceId.Converted? && 0 <= raw.sourceId.n < |Shown(collected)|
    ensures var raw := llm(Shown(collected)).value[k]; var r := collected[raw.sourceId.n];
      Idea(raw.name.value, raw.pitch.value, r.text, r.url, r.source) in Generate(collected, llm)
  {
    var ideas := llm(Shown(collected)).value;
    var step := IdeaSteps(collected, |Shown(collected)|);
    RunRaisedIff(ideas, step, |ideas|);
    RunCompleteness(ideas, step, |ideas|, k);
  }

  /** One raw idea that escapes the inner handler (a non-numeric type, a missing name or pitch) empties the result. */
  lemma EscapeEmptiesResult(collected: seq<Record>, answer: seq<RawIdea>, bound: nat, k: nat)
    requires bound <= |collected| && k < |answer| && IdeaStep(collected, bound, answer[k]) == Raise
    ensures Enrich(collected, Some(answer), bound) == []
  {
    RunRaisedIff(answer, IdeaSteps(collected, bound), |answer|);
  }

  /**
   * As written, the bound is `len(collected_data)`, not the thirty records the prompt listed: with
   * thirty-one records, an answer citing number 30 (never shown to the model) is enriched with the
   * thirty-first record; the corrected bound drops it.
   */
  lemma AsWrittenCitesUnshownRecord(collected: seq<Record>, llm: seq<Record> -> Option<seq<RawIdea>>, name: string, pitch: string)
    requires |collected| == PromptLimit + 1
    requires llm(Shown(collected)) == Some([RawIdea(Converted(30), Some(name), Some(pitch))])
    ensures GenerateAsWritten(collected, llm)
            == [Idea(name, pitch, collected[30].text, collected[30].url, collected[30].source)]
    ensures |Shown(collected)| == 30
    ensures Generate(collected, llm) == []
  {
    var answer := [RawIdea(Converted(30), Some(name), Some(pitch))];
    assert Run(answer, IdeaSteps(collected, |collected|), 0) == Pass([], false);
    assert Run(answer, IdeaSteps(collected, |Shown(collected)|), 0) == Pass([], false);
  }
}
