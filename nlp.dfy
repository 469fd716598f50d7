/**
 * The natural-language annotation that the messaging platform attaches to a
 * message: for each entity name, the candidates it found with their confidence.
 */
module Nlp {

  import opened Wrappers

  /** One candidate; only its confidence is ever read. */
  datatype Entity = Entity(confidence: real)

  /** The `nlp` object of a message, whose `entities` field may be missing. */
  datatype Annotation = Annotation(entities: Option<map<string, seq<Entity>>>)

  /** An entity fires only with a confidence strictly above this. */
  const Threshold: real := 0.8

  /** The candidates listed under `name`, or [] when there are none. */
  function Candidates(nlp: Option<Annotation>, name: string): seq<Entity>
  {
    if nlp.Some? && nlp.value.entities.Some? && name in nlp.value.entities.value
    then nlp.value.entities.value[name] else []
  }

  /** `firstEntity(nlp, name)`: the first candidate for `name`, if any. */
  function FirstEntity(nlp: Option<Annotation>, name: string): (e: Option<Entity>)
    ensures e.Some? <==> |Candidates(nlp, name)| > 0
    ensures e.Some? ==> e.value == Candidates(nlp, name)[0]
  {
    if nlp.Some? && nlp.value.entities.Some? && name in nlp.value.entities.value
       && |nlp.value.entities.value[name]| > 0
    then Some(nlp.value.entities.value[name][0])
    else None
  }

  /** `entity && entity.confidence > 0.8` for the first entity named `name`. */
  predicate Fires(nlp: Option<Annotation>, name: string)
  {
    var e := FirstEntity(nlp, name);
    e.Some? && e.value.confidence > Threshold
  }

  /** Only the first candidate decides, and the threshold is strict: two annotations
      that agree on the first candidate under `name` fire alike, whatever follows it. */
  lemma FiresOnFirstCandidateOnly(a: Option<Annotation>, b: Option<Annotation>, name: string)
    requires |Candidates(a, name)| > 0 <==> |Candidates(b, name)| > 0
    requires |Candidates(a, name)| > 0 ==> Candidates(a, name)[0] == Candidates(b, name)[0]
    ensures Fires(a, name) <==> Fires(b, name)
    ensures Fires(a, name) <==> |Candidates(a, name)| > 0 && Candidates(a, name)[0].confidence > 0.8
  {
  }
}
