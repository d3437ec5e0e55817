/**
 * The recommendation page's clean-up of the `type` the model chose: a
 * case-insensitive mapping onto the three labels the cards display, applied
 * to every recommendation with all its other fields kept.
 */
module RecommendationPage {
  import opened Text
  import opened ResponseModel

  datatype TypeLabel = Alumni | Trend | Inspiration

  /** The label as the page displays it. */
  function LabelName(l: TypeLabel): string {
    match l
    case Alumni => "Alumni"
    case Trend => "Trend"
    case Inspiration => "Inspiration"
  }

  /** `normalizeRecommendationType`: a switch on the lower-cased type, `Alumni` for anything unexpected. */
  function NormalizeRecommendationType(kind: string): TypeLabel {
    var lowered := Lower(kind);
    if lowered == "alumni" then Alumni
    else if lowered == "trend" then Trend
    else if lowered == "figure" then Inspiration
    else Alumni
  }

  /**
   * The three expected types map to their labels, whatever their case, and
   * every other string maps to `Alumni`.
   */
  lemma NormalizeCases(kind: string)
    ensures Lower(kind) == "alumni" ==> NormalizeRecommendationType(kind) == Alumni
    ensures Lower(kind) == "trend" ==> NormalizeRecommendationType(kind) == Trend
    ensures Lower(kind) == "figure" ==> NormalizeRecommendationType(kind) == Inspiration
    ensures Lower(kind) !in ["alumni", "trend", "figure"] ==> NormalizeRecommendationType(kind) == Alumni
    ensures NormalizeRecommendationType(kind) == Inspiration <==> Lower(kind) == "figure"
    ensures NormalizeRecommendationType(kind) == Trend <==> Lower(kind) == "trend"
  {
  }

  /** The label depends only on the lower-cased type. */
  lemma NormalizeCaseInsensitive(a: string, b: string)
    ensures Lower(a) == Lower(b) ==> NormalizeRecommendationType(a) == NormalizeRecommendationType(b)
    ensures NormalizeRecommendationType(Lower(a)) == NormalizeRecommendationType(a)
  {
    LowerIdempotent(a);
  }

  /** Upper- and mixed-case spellings are recognised. */
  lemma NormalizeExamples()
    ensures NormalizeRecommendationType("FIGURE") == Inspiration
    ensures NormalizeRecommendationType("Trend") == Trend
    ensures NormalizeRecommendationType("notable figure") == Alumni
  {
    assert Lower("FIGURE") == "figure";
    assert Lower("Trend") == "trend";
    assert Lower("notable figure")[0] == 'n';
  }

  /** `recommendations.map(rec => ({...rec, type: normalizeRecommendationType(rec.type)}))`. */
  function NormalizeAll(recs: seq<Recommendation>): (r: seq<Recommendation>)
    ensures |r| == |recs|
  {
    seq(|recs|, i requires 0 <= i < |recs| => recs[i].(kind := LabelName(NormalizeRecommendationType(recs[i].kind))))
  }

  /**
   * Normalising keeps the number and order of the recommendations and every
   * field but the type, which becomes one of the three labels.
   */
  lemma NormalizeAllFields(recs: seq<Recommendation>)
    ensures |NormalizeAll(recs)| == |recs|
    ensures forall i :: 0 <= i < |recs| ==>
      NormalizeAll(recs)[i].id == recs[i].id &&
      NormalizeAll(recs)[i].quickView == recs[i].quickView &&
      NormalizeAll(recs)[i].detailedView == recs[i].detailedView &&
      NormalizeAll(recs)[i].kind in ["Alumni", "Trend", "Inspiration"]
  {
  }
}
