/**
 * The profile agent: the student form (`StudentInfo`), the rendering of its
 * non-blank answers into the model's context (`format_context`), and the
 * clean-up of the model's summary (`generate_profile_summary`).
 */
module ProfileAgent {
  import opened Wrappers
  import opened Text
  import opened Dicts

  /** The eight required string answers of the student form. */
  datatype StudentInfo = StudentInfo(
    academicInterests: string,
    careerPaths: string,
    coursePreferences: string,
    experience: string,
    skills: string,
    extracurriculars: string,
    decisionFactors: string,
    advisorNotes: string)

  const FieldNames: seq<string> := [
    "academic_interests", "career_paths", "course_preferences", "experience",
    "skills", "extracurriculars", "decision_factors", "advisor_notes"]

  /** `student_info.dict()`: the answers under their field names, in declaration order. */
  function Items(info: StudentInfo): (d: seq<(string, string)>)
    ensures Keys(d) == FieldNames
  {
    [("academic_interests", info.academicInterests), ("career_paths", info.careerPaths),
     ("course_preferences", info.coursePreferences), ("experience", info.experience),
     ("skills", info.skills), ("extracurriculars", info.extracurriculars),
     ("decision_factors", info.decisionFactors), ("advisor_notes", info.advisorNotes)]
  }

  /**
   * The form has exactly eight distinct fields, so `dict()` is a dict that
   * gives every answer back under its own name.
   */
  lemma StudentInfoFields(info: StudentInfo)
    ensures |FieldNames| == 8 && Distinct(FieldNames)
    ensures IsDict(Items(info))
    ensures Values(Items(info)) == [
      info.academicInterests, info.careerPaths, info.coursePreferences, info.experience,
      info.skills, info.extracurriculars, info.decisionFactors, info.advisorNotes]
  {
    // Each name differs from every other in its first letter or its length.
    var initials := "acceseda";
    var lengths := [18, 12, 18, 10, 6, 16, 16, 13];
    assert forall i :: 0 <= i < 8 ==> FieldNames[i][0] == initials[i] && |FieldNames[i]| == lengths[i];
  }

  /** `field.replace('_', ' ').title()`. */
  function FieldLabel(field: string): string {
    Title(Replace(field, "_", " "))
  }

  /** An underscore read as a space. */
  function Spaced(c: char): char {
    if c == '_' then ' ' else c
  }

  /** The character before position `i` of a field name, read with `_` as a space, is cased. */
  predicate AfterCased(field: string, i: nat)
    requires i < |field|
  {
    i > 0 && IsCased(Spaced(field[i - 1]))
  }

  /**
   * Each character of a label is the field name's character, with `_` read
   * as a space, upper-cased when it starts a word and lower-cased inside one.
   */
  lemma FieldLabelChars(field: string)
    ensures |FieldLabel(field)| == |field|
    ensures forall i :: 0 <= i < |field| ==>
      FieldLabel(field)[i] == TitleChar(Spaced(field[i]), AfterCased(field, i))
  {
    ReplaceChar(field, '_', ' ');
    var spaced := MapChar(field, '_', ' ');
    TitleFromChars(spaced, false);
    assert "_" == ['_'] && " " == [' '];
    assert FieldLabel(field) == TitleFrom(spaced, false);
    var titled := FieldLabel(field);
    forall i | 0 <= i < |field|
      ensures titled[i] == TitleChar(Spaced(field[i]), AfterCased(field, i))
    {
      assert spaced[i] == Spaced(field[i]);
      if i > 0 {
        assert spaced[i - 1] == Spaced(field[i - 1]);
      }
    }
  }

  /** The part rendered for a kept field: the label, a colon, the value verbatim on its own lines. */
  function ContextPart(field: string, value: string): string {
    FieldLabel(field) + ":\n" + value + "\n"
  }

  /** `if value and value.strip()`: the answer has a non-whitespace character. */
  predicate Kept(value: string) {
    !IsBlank(value)
  }

  /** `context_parts` after the given items: one part per kept item, in item order. */
  function ContextParts(items: seq<(string, string)>): seq<string>
    decreases |items|
  {
    if items == [] then []
    else
      var n := |items| - 1;
      ContextParts(items[..n]) + (if Kept(items[n].1) then [ContextPart(items[n].0, items[n].1)] else [])
  }

  /** What `format_context(items)` returns. */
  function ContextText(items: seq<(string, string)>): string {
    Join(ContextParts(items), "\n")
  }

  /** `format_context`: the rendered parts of the non-blank answers, joined by newlines. */
  method FormatContext(studentInfo: seq<(string, string)>) returns (context: string)
    ensures context == ContextText(studentInfo)
  {
    var contextParts: seq<string> := [];
    var i := 0;
    while i < |studentInfo|
      invariant i <= |studentInfo|
      invariant contextParts == ContextParts(studentInfo[..i])
    {
      var (field, value) := studentInfo[i];
      if value != "" && Strip(value) != "" {
        StripEmpty(value);
        contextParts := contextParts + [ContextPart(field, value)];
      } else {
        StripEmpty(value);
      }
      assert studentInfo[..i + 1][..i] == studentInfo[..i];
      i := i + 1;
    }
    assert studentInfo[..i] == studentInfo;
    context := Join(contextParts, "\n");
  }

  /** The kept items, in order. */
  function KeptItems(items: seq<(string, string)>): (r: seq<(string, string)>)
    ensures forall i :: 0 <= i < |r| ==> r[i] in items && Kept(r[i].1)
    decreases |items|
  {
    if items == [] then []
    else
      var n := |items| - 1;
      KeptItems(items[..n]) + (if Kept(items[n].1) then [items[n]] else [])
  }

  /** Keeping distributes over concatenation, so kept items stay in input order. */
  lemma {:induction false} KeptItemsAppend(a: seq<(string, string)>, b: seq<(string, string)>)
    ensures KeptItems(a + b) == KeptItems(a) + KeptItems(b)
    decreases |b|
  {
    if b == [] {
      assert a + b == a;
    } else {
      var n := |b| - 1;
      KeptItemsAppend(a, b[..n]);
      assert (a + b)[..|a + b| - 1] == a + b[..n];
    }
  }

  /** Every item with a non-blank answer is kept, and a blank one never is. */
  lemma {:induction false} KeptItemsComplete(items: seq<(string, string)>, i: nat)
    requires i < |items|
    ensures Kept(items[i].1) <==> items[i] in KeptItems(items[..i + 1])
    ensures Kept(items[i].1) ==> items[i] in KeptItems(items)
  {
    assert items[..i + 1][..i] == items[..i];
    var before := KeptItems(items[..i]);
    if !Kept(items[i].1) {
      assert KeptItems(items[..i + 1]) == before;
    }
    assert items == items[..i + 1] + items[i + 1..];
    KeptItemsAppend(items[..i + 1], items[i + 1..]);
  }

  /** The rendered parts of some items, in order. */
  function Parts(items: seq<(string, string)>): (ps: seq<string>)
    ensures |ps| == |items|
    ensures forall i :: 0 <= i < |items| ==> ps[i] == ContextPart(items[i].0, items[i].1)
  {
    seq(|items|, i requires 0 <= i < |items| => ContextPart(items[i].0, items[i].1))
  }

  /** The parts are exactly the rendered kept items, in input order. */
  lemma {:induction false} ContextPartsKept(items: seq<(string, string)>)
    ensures ContextParts(items) == Parts(KeptItems(items))
    decreases |items|
  {
    if items != [] {
      var n := |items| - 1;
      ContextPartsKept(items[..n]);
      var k := KeptItems(items[..n]);
      if Kept(items[n].1) {
        assert Parts(k + [items[n]]) == Parts(k) + [ContextPart(items[n].0, items[n].1)];
      }
    }
  }

  /** The context is empty exactly when every answer is blank. */
  lemma ContextTextEmpty(items: seq<(string, string)>)
    ensures ContextText(items) == "" <==> forall i :: 0 <= i < |items| ==> IsBlank(items[i].1)
  {
    ContextPartsKept(items);
    var kept := KeptItems(items);
    if kept != [] {
      assert Kept(kept[0].1);
      assert kept[0] in items;
      JoinNonEmpty(Parts(kept), "\n");
    } else {
      forall i | 0 <= i < |items| ensures IsBlank(items[i].1) {
        KeptItemsComplete(items, i);
      }
    }
  }

  /** The context `generate_profile_summary` puts into its prompt: `format_context(student_info.dict())`. */
  function ProfileContext(info: StudentInfo): string {
    ContextText(Items(info))
  }

  /** The context sent is empty exactly when every answer of the form is blank. */
  lemma ProfileContextEmpty(info: StudentInfo)
    ensures ProfileContext(info) == "" <==>
      IsBlank(info.academicInterests) && IsBlank(info.careerPaths) &&
      IsBlank(info.coursePreferences) && IsBlank(info.experience) &&
      IsBlank(info.skills) && IsBlank(info.extracurriculars) &&
      IsBlank(info.decisionFactors) && IsBlank(info.advisorNotes)
  {
    var items := Items(info);
    var answers := [
      info.academicInterests, info.careerPaths, info.coursePreferences, info.experience,
      info.skills, info.extracurriculars, info.decisionFactors, info.advisorNotes];
    assert forall i :: 0 <= i < |items| ==> items[i].1 == answers[i];
    ContextTextEmpty(items);
    if forall i :: 0 <= i < |items| ==> IsBlank(items[i].1) {
      assert IsBlank(answers[0]) && IsBlank(answers[1]) && IsBlank(answers[2]) && IsBlank(answers[3]);
      assert IsBlank(answers[4]) && IsBlank(answers[5]) && IsBlank(answers[6]) && IsBlank(answers[7]);
    } else {
      var i :| 0 <= i < |items| && !IsBlank(items[i].1);
      assert !IsBlank(answers[i]);
    }
  }

  /** The prefix of the error a failed summary is re-raised with. */
  const SummaryError := "Error generating profile summary: "

  /**
   * `generate_profile_summary`, given what the completion call came to: its
   * text stripped of surrounding whitespace, or the failure re-raised with
   * the summary prefix.
   */
  function ProfileSummary(completion: Result<string>): (r: Result<string>)
    ensures r.Success? <==> completion.Success?
  {
    match completion
    case Success(text) => Success(Strip(text))
    case Failure(message) => Failure(SummaryError + message)
  }

  /**
   * A summary is a contiguous piece of the completion with no whitespace at
   * either end, so stripping it again changes nothing; a failure keeps the
   * original message after the fixed prefix.
   */
  lemma ProfileSummaryShape(completion: Result<string>)
    ensures var r := ProfileSummary(completion);
      r.Success? ==>
        (exists i, j :: 0 <= i <= j <= |completion.value| && r.value == completion.value[i..j]) &&
        (r.value != "" ==> !IsSpace(r.value[0]) && !IsSpace(r.value[|r.value| - 1])) &&
        Strip(r.value) == r.value
    ensures var r := ProfileSummary(completion);
      r.Failure? ==> r.error[..|SummaryError|] == SummaryError && r.error[|SummaryError|..] == completion.error
  {
    if completion.Success? {
      StripSlice(completion.value);
      StripIdempotent(completion.value);
    }
  }
}
