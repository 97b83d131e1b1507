/**
 * An SDMX `<str:Concept>` element as the generator reads it: its `id` and `urn`
 * attributes, the texts of its `com:Name` and `com:Description` children and its
 * annotations. The ElementTree lookups of src/sdmxglossgen/logic_prepair.py:57-71 and
 * 98-100 become the functions below.
 */
module ConceptXml {
  import opened Wrappers

  /** One `com:Annotation`: its `com:AnnotationType` text and the texts of its `com:AnnotationText` children, in order. */
  datatype Annotation = Annotation(kind: string, texts: seq<string>)

  /**
   * A concept element. `name` and `description` are the texts of the child elements,
   * `None` when the child is absent; attributes that are absent are `None` as well.
   */
  datatype Concept = Concept(
    id: Option<string>,
    urn: Option<string>,
    name: Option<string>,
    description: Option<string>,
    annotations: seq<Annotation>)

  /** Python's truthiness of an optional text: present and not empty. */
  predicate NonEmpty(t: Option<string>)
  {
    t.Some? && t.value != ""
  }

  /** An optional attribute inside an f-string: its value, or "None" when absent. */
  function IdText(id: Option<string>): (r: string)
    ensures id.Some? ==> r == id.value
  {
    match id
    case Some(v) => v
    case None => "None"
  }

  /** The annotation at `i` is of type `kind` and has a text, and no earlier one does. */
  predicate FirstWithText(anns: seq<Annotation>, kind: string, i: int)
  {
    && 0 <= i < |anns| && anns[i].kind == kind && anns[i].texts != []
    && forall j :: 0 <= j < i ==> !(anns[j].kind == kind && anns[j].texts != [])
  }

  /**
   * `concept.find(".//com:Annotation[com:AnnotationType='K']/com:AnnotationText")`: the first
   * text child of the first annotation of type `kind` that has one.
   */
  function FirstAnnotationText(anns: seq<Annotation>, kind: string): (r: Option<string>)
    ensures r.Some? <==> exists i :: 0 <= i < |anns| && anns[i].kind == kind && anns[i].texts != []
    ensures r.Some? ==> exists i :: FirstWithText(anns, kind, i) && anns[i].texts[0] == r.value
  {
    if anns == [] then None
    else if anns[0].kind == kind && anns[0].texts != [] then
      assert FirstWithText(anns, kind, 0);
      Some(anns[0].texts[0])
    else
      var r := FirstAnnotationText(anns[1..], kind);
      assert forall i :: 0 < i < |anns| ==> anns[i] == anns[1..][i - 1];
      assert r.Some? ==> exists i :: FirstWithText(anns, kind, i) && anns[i].texts[0] == r.value by {
        if r.Some? {
          var i :| FirstWithText(anns[1..], kind, i) && anns[1..][i].texts[0] == r.value;
          assert anns[i + 1] == anns[1..][i];
          assert FirstWithText(anns, kind, i + 1);
        }
      }
      r
  }

  /** `concept.findall(".//com:Annotation[com:AnnotationType='K']/com:AnnotationText")`: all text children of annotations of type `kind`, in document order. */
  function AnnotationTexts(anns: seq<Annotation>, kind: string): seq<string>
  {
    if anns == [] then []
    else (if anns[0].kind == kind then anns[0].texts else []) + AnnotationTexts(anns[1..], kind)
  }

  /** The texts found are the texts of annotations of that type, and every one of them is found. */
  lemma {:induction false} AnnotationTextsMembers(anns: seq<Annotation>, kind: string, t: string)
    ensures t in AnnotationTexts(anns, kind) <==> exists i :: 0 <= i < |anns| && anns[i].kind == kind && t in anns[i].texts
    decreases |anns|
  {
    if anns != [] {
      AnnotationTextsMembers(anns[1..], kind, t);
      assert forall i :: 0 < i < |anns| ==> anns[i] == anns[1..][i - 1];
      if exists i :: 0 <= i < |anns| && anns[i].kind == kind && t in anns[i].texts {
        var i :| 0 <= i < |anns| && anns[i].kind == kind && t in anns[i].texts;
        if i > 0 {
          assert anns[1..][i - 1] == anns[i];
        }
      }
    }
  }

  /** `findall` over annotations concatenated is the concatenation of the two `findall`s. */
  lemma {:induction false} AnnotationTextsConcat(a: seq<Annotation>, b: seq<Annotation>, kind: string)
    ensures AnnotationTexts(a + b, kind) == AnnotationTexts(a, kind) + AnnotationTexts(b, kind)
    decreases |a|
  {
    if a != [] {
      assert (a + b)[1..] == a[1..] + b;
      AnnotationTextsConcat(a[1..], b, kind);
    } else {
      assert a + b == b;
    }
  }
}
