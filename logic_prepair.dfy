/**
 * `prepair_concepts` (src/sdmxglossgen/logic_prepair.py): the intrinsic Turtle lines of one
 * concept (type, label, definition, notation, scheme, notes, context comment), the text
 * lines kept for the glossary, and the concept-to-codelist links it records on the side.
 */
module LogicPrepair {
  import opened Wrappers
  import opened StrBuiltins
  import opened ConceptXml
  import opened LogicFunction

  /** NEW_PREF (src/sdmxglossgen/gen_template.py:7). */
  const NewPref: string := "sip"

  /** The CURIE of a concept of the new scheme. */
  function ConceptUri(id: string): string
  {
    NewPref + "-concept:" + id
  }

  /** Distinct ids give distinct CURIEs. */
  lemma ConceptUriInjective(a: string, b: string)
    ensures ConceptUri(a) == ConceptUri(b) <==> a == b
  {
    if ConceptUri(a) == ConceptUri(b) {
      assert a == ConceptUri(a)[12..];
    }
  }

  /** The caller's `codelist_associations` list: (codelist id, concept id) pairs, appended to in place. */
  class CodelistAssociations {
    var pairs: seq<(string, Option<string>)>

    constructor ()
      ensures pairs == []
    {
      pairs := [];
    }

    /** `codelist_associations.append(p)` */
    method Append(p: (string, Option<string>))
      modifies this
      ensures pairs == old(pairs) + [p]
    {
      pairs := pairs + [p];
    }
  }

  function TypeLine(c: Concept): string
  {
    ConceptUri(IdText(c.id)) + " a skos:Concept"
  }

  function LabelLines(c: Concept): seq<string>
  {
    if NonEmpty(c.name) then [FormatLiteral(c.name.value, "rdfs:label")] else []
  }

  function DefinitionLines(c: Concept): seq<string>
  {
    if NonEmpty(c.description) then [FormatLiteral(c.description.value, "skos:definition")] else []
  }

  function NotationLine(c: Concept): string
  {
    "    skos:notation \"" + IdText(c.urn) + "\""
  }

  function InSchemeLine(): string
  {
    "    skos:inScheme " + ConceptUri("cog")
  }

  function RepresentationLines(c: Concept): seq<string>
  {
    var t := FirstAnnotationText(c.annotations, "RECOMMENDED_REPRESENTATION");
    if NonEmpty(t) then [FormatLiteral("Recommended representation: " + t.value, "skos:note")] else []
  }

  function CodelistLines(c: Concept): seq<string>
  {
    var t := FirstAnnotationText(c.annotations, "CODELIST_ID");
    if NonEmpty(t) then [FormatLiteral("Codelist ID: " + t.value, "skos:note")] else []
  }

  /** The CONTEXT annotation text is looked up only when context is wanted. */
  function ContextText(c: Concept, includeContext: bool): Option<string>
  {
    if includeContext then FirstAnnotationText(c.annotations, "CONTEXT") else None
  }

  function ContextLines(c: Concept, includeContext: bool): seq<string>
  {
    var t := ContextText(c, includeContext);
    if NonEmpty(t) then [FormatLiteral(t.value, "rdfs:comment")] else []
  }

  /** The pair recorded for the concept's codelist: the stripped CODELIST_ID text and the id. */
  function CodelistPairs(c: Concept): seq<(string, Option<string>)>
  {
    var t := FirstAnnotationText(c.annotations, "CODELIST_ID");
    if NonEmpty(t) then [(Strip(t.value), c.id)] else []
  }

  /** The `triples` list `prepair_concepts` returns. */
  function IntrinsicTriples(c: Concept, includeContext: bool): seq<string>
  {
    [TypeLine(c)] + LabelLines(c) + DefinitionLines(c) + [NotationLine(c), InSchemeLine()]
      + RepresentationLines(c) + CodelistLines(c) + ContextLines(c, includeContext)
  }

  /** The `texts` list `prepair_concepts` returns. */
  function IntrinsicTexts(c: Concept, includeContext: bool): seq<string>
  {
    [IdText(c.id)] + LabelLines(c) + DefinitionLines(c) + ContextLines(c, includeContext)
  }

  /** The RELATED_TERMS annotation texts, in document order. */
  function RelatedTermTexts(c: Concept): seq<string>
  {
    AnnotationTexts(c.annotations, "RELATED_TERMS")
  }

  /**
   * `prepair_concepts(concept, ns, include_context, codelist_associations)`: builds the two
   * line lists step by step and appends the codelist link, if any, to the caller's list.
   */
  method PrepairConcepts(c: Concept, includeContext: bool, acc: CodelistAssociations)
    returns (triples: seq<string>, texts: seq<string>, relatedTerms: seq<string>)
    modifies acc
    ensures triples == IntrinsicTriples(c, includeContext)
    ensures texts == IntrinsicTexts(c, includeContext)
    ensures relatedTerms == RelatedTermTexts(c)
    ensures acc.pairs == old(acc.pairs) + CodelistPairs(c)
  {
    var contextAnnotation := ContextText(c, includeContext);
    var recommended := FirstAnnotationText(c.annotations, "RECOMMENDED_REPRESENTATION");
    var codelistId := FirstAnnotationText(c.annotations, "CODELIST_ID");

    triples, texts := DescribedLines(c);
    triples := triples + [NotationLine(c)];
    triples := triples + [InSchemeLine()];
    AppendTwo([TypeLine(c)] + LabelLines(c) + DefinitionLines(c), NotationLine(c), InSchemeLine());
    if NonEmpty(recommended) {
      triples := triples + [FormatLiteral("Recommended representation: " + recommended.value, "skos:note")];
    } else {
      AppendNil(triples);
    }
    if NonEmpty(codelistId) {
      triples := triples + [FormatLiteral("Codelist ID: " + codelistId.value, "skos:note")];
      acc.Append((Strip(codelistId.value), c.id));
    } else {
      AppendNil(triples);
    }
    if NonEmpty(contextAnnotation) {
      var line := FormatLiteral(contextAnnotation.value, "rdfs:comment");
      triples := triples + [line];
      texts := texts + [line];
    } else {
      AppendNil(triples);
      AppendNil(texts);
    }
    relatedTerms := AnnotationTexts(c.annotations, "RELATED_TERMS");
  }

  /** The first steps of `prepair_concepts`: the type line, and the label and definition lines that go into both lists. */
  method DescribedLines(c: Concept) returns (triples: seq<string>, texts: seq<string>)
    ensures triples == [TypeLine(c)] + LabelLines(c) + DefinitionLines(c)
    ensures texts == [IdText(c.id)] + LabelLines(c) + DefinitionLines(c)
  {
    triples := [TypeLine(c)];
    texts := [IdText(c.id)];
    if NonEmpty(c.name) {
      var line := FormatLiteral(c.name.value, "rdfs:label");
      triples := triples + [line];
      texts := texts + [line];
    } else {
      AppendNil(triples);
      AppendNil(texts);
    }
    if NonEmpty(c.description) {
      var line := FormatLiteral(c.description.value, "skos:definition");
      triples := triples + [line];
      texts := texts + [line];
    } else {
      AppendNil(triples);
      AppendNil(texts);
    }
  }

  lemma AppendNil(s: seq<string>)
    ensures s + [] == s
  {
  }

  lemma AppendTwo(s: seq<string>, a: string, b: string)
    ensures s + [a] + [b] == s + [a, b]
  {
  }

  // ----- which predicate a line carries -----

  /**
   * The predicates of the lines the generator writes: the intrinsic ones of
   * `prepair_concepts` and the relation ones `process_concepts` appends after them.
   */
  datatype Pred =
    | Label | Definition | Notation | InScheme | Note | Comment
    | Broader | Narrower | Related | ExactMatch | CloseMatch

  function PredName(p: Pred): string
  {
    match p
    case Label => "rdfs:label"
    case Definition => "skos:definition"
    case Notation => "skos:notation"
    case InScheme => "skos:inScheme"
    case Note => "skos:note"
    case Comment => "rdfs:comment"
    case Broader => "skos:broader"
    case Narrower => "skos:narrower"
    case Related => "skos:related"
    case ExactMatch => "skos:exactMatch"
    case CloseMatch => "skos:closeMatch"
  }

  lemma PredNameLengths()
    ensures |PredName(Label)| == 10 && |PredName(Note)| == 9
    ensures |PredName(Comment)| == 12 && |PredName(Broader)| == 12 && |PredName(Related)| == 12
    ensures |PredName(Notation)| == 13 && |PredName(InScheme)| == 13 && |PredName(Narrower)| == 13
    ensures |PredName(Definition)| == 15 && |PredName(ExactMatch)| == 15 && |PredName(CloseMatch)| == 15
  {
  }

  /** Names of twelve characters differ at index 0 or 5. */
  lemma TwelveDiffer()
    ensures PredName(Comment)[0] == 'r' && PredName(Broader)[0] == 's' && PredName(Related)[0] == 's'
    ensures PredName(Broader)[5] == 'b' && PredName(Related)[5] == 'r'
  {
  }

  /** Names of thirteen characters differ at index 5 or 6. */
  lemma ThirteenDiffer()
    ensures PredName(Notation)[5] == 'n' && PredName(InScheme)[5] == 'i' && PredName(Narrower)[5] == 'n'
    ensures PredName(Notation)[6] == 'o' && PredName(Narrower)[6] == 'a'
  {
  }

  /** Names of fifteen characters differ at index 5. */
  lemma FifteenDiffer()
    ensures PredName(Definition)[5] == 'd' && PredName(ExactMatch)[5] == 'e' && PredName(CloseMatch)[5] == 'c'
  {
  }

  /** Distinct predicates have distinct names. */
  lemma PredNameInjective(p: Pred, q: Pred)
    ensures PredName(p) == PredName(q) <==> p == q
  {
    PredNameLengths();
    TwelveDiffer();
    ThirteenDiffer();
    FifteenDiffer();
  }

  lemma PredNameHasNoSpace(p: Pred)
    ensures ' ' !in PredName(p)
  {
  }

  /** The line is a predicate-object line of `p`: it starts with four spaces, the name of `p` and a space. */
  predicate HasPredicate(line: string, p: Pred)
  {
    LiteralHead(PredName(p)) <= line
  }

  /** Predicate names hold no spaces, so a line starting with one head carries no other. */
  lemma HeadsDiffer(p: string, q: string, rest: string)
    requires ' ' !in p && ' ' !in q
    ensures p != q ==> !(LiteralHead(q) <= LiteralHead(p) + rest)
  {
    var line := LiteralHead(p) + rest;
    var hq := LiteralHead(q);
    if p != q && |hq| <= |line| {
      if |q| < |p| {
        assert p[|q|] in p;
        assert hq[4 + |q|] != line[4 + |q|];
      } else if |q| > |p| {
        assert q[|p|] in q;
        assert hq[4 + |p|] != line[4 + |p|];
      } else {
        var i :| 0 <= i < |p| && p[i] != q[i];
        assert hq[4 + i] != line[4 + i];
      }
    }
  }

  /** A line that starts with the head of `p` carries `p` and no other predicate. */
  lemma HeadPredicate(p: Pred, q: Pred, rest: string)
    ensures HasPredicate(LiteralHead(PredName(p)) + rest, q) <==> p == q
  {
    PredNameHasNoSpace(p);
    PredNameHasNoSpace(q);
    PredNameInjective(p, q);
    HeadsDiffer(PredName(p), PredName(q), rest);
  }

  /** A formatted literal carries exactly its own predicate. */
  lemma LiteralPredicate(v: string, p: Pred, q: Pred)
    ensures HasPredicate(FormatLiteral(v, PredName(p)), q) <==> p == q
  {
    var r := FormatLiteral(v, PredName(p));
    var h := LiteralHead(PredName(p));
    assert r == h + r[|h|..] by {
      assert r[..|h|] == h;
    }
    HeadPredicate(p, q, r[|h|..]);
  }

  /** Number of lines that carry predicate `p`. */
  function CountPredicate(lines: seq<string>, p: Pred): nat
  {
    if lines == [] then 0 else (if HasPredicate(lines[0], p) then 1 else 0) + CountPredicate(lines[1..], p)
  }

  lemma {:induction false} CountPredicateConcat(a: seq<string>, b: seq<string>, p: Pred)
    ensures CountPredicate(a + b, p) == CountPredicate(a, p) + CountPredicate(b, p)
    decreases |a|
  {
    if a != [] {
      assert (a + b)[1..] == a[1..] + b;
      CountPredicateConcat(a[1..], b, p);
    } else {
      assert a + b == b;
    }
  }

  lemma CountOne(line: string, p: Pred)
    ensures CountPredicate([line], p) == if HasPredicate(line, p) then 1 else 0
  {
    assert [line][1..] == [];
  }

  /** The type line starts with the scheme prefix, not with a space, so it carries no predicate. */
  lemma TypeLinePredicate(c: Concept, p: Pred)
    ensures !HasPredicate(TypeLine(c), p)
  {
    assert TypeLine(c)[0] == 's';
    assert LiteralHead(PredName(p))[0] == ' ';
  }

  lemma NotationLinePredicate(c: Concept, p: Pred)
    ensures HasPredicate(NotationLine(c), p) <==> p == Notation
  {
    assert NotationLine(c) == LiteralHead(PredName(Notation)) + ("\"" + IdText(c.urn) + "\"");
    HeadPredicate(Notation, p, "\"" + IdText(c.urn) + "\"");
  }

  lemma InSchemeLinePredicate(p: Pred)
    ensures HasPredicate(InSchemeLine(), p) <==> p == InScheme
  {
    assert InSchemeLine() == LiteralHead(PredName(InScheme)) + ConceptUri("cog");
    HeadPredicate(InScheme, p, ConceptUri("cog"));
  }

  /** The type line carries no predicate; the notation and scheme lines carry their own. */
  lemma FixedLinePredicates(c: Concept, p: Pred)
    ensures !HasPredicate(TypeLine(c), p)
    ensures HasPredicate(NotationLine(c), p) <==> p == Notation
    ensures HasPredicate(InSchemeLine(), p) <==> p == InScheme
  {
    TypeLinePredicate(c, p);
    NotationLinePredicate(c, p);
    InSchemeLinePredicate(p);
  }

  /** Lines of an optional one-line segment that carry `q`: one exactly when the segment is there and of predicate `q`. */
  lemma CountOptional(present: bool, v: string, p: Pred, q: Pred)
    ensures CountPredicate(if present then [FormatLiteral(v, PredName(p))] else [], q)
      == if present && p == q then 1 else 0
  {
    if present {
      LiteralPredicate(v, p, q);
      CountOne(FormatLiteral(v, PredName(p)), q);
    }
  }

  lemma CountFixed(c: Concept, p: Pred)
    ensures CountPredicate([TypeLine(c)], p) == 0
    ensures CountPredicate([NotationLine(c), InSchemeLine()], p) == (if p == Notation then 1 else 0) + (if p == InScheme then 1 else 0)
  {
    FixedLinePredicates(c, p);
    CountOne(TypeLine(c), p);
    CountOne(InSchemeLine(), p);
    assert [NotationLine(c), InSchemeLine()][1..] == [InSchemeLine()];
  }

  lemma CountSeven(s1: seq<string>, s2: seq<string>, s3: seq<string>, s4: seq<string>,
                   s5: seq<string>, s6: seq<string>, s7: seq<string>, p: Pred)
    ensures CountPredicate(s1 + s2 + s3 + s4 + s5 + s6 + s7, p)
      == CountPredicate(s1, p) + CountPredicate(s2, p) + CountPredicate(s3, p) + CountPredicate(s4, p)
       + CountPredicate(s5, p) + CountPredicate(s6, p) + CountPredicate(s7, p)
  {
    CountPredicateConcat(s1, s2, p);
    CountPredicateConcat(s1 + s2, s3, p);
    CountPredicateConcat(s1 + s2 + s3, s4, p);
    CountPredicateConcat(s1 + s2 + s3 + s4, s5, p);
    CountPredicateConcat(s1 + s2 + s3 + s4 + s5, s6, p);
    CountPredicateConcat(s1 + s2 + s3 + s4 + s5 + s6, s7, p);
  }

  lemma CountLabel(c: Concept, p: Pred)
    ensures CountPredicate(LabelLines(c), p) == if p == Label && NonEmpty(c.name) then 1 else 0
  {
    CountOptional(NonEmpty(c.name), c.name.GetOr(""), Label, p);
  }

  lemma CountDefinition(c: Concept, p: Pred)
    ensures CountPredicate(DefinitionLines(c), p) == if p == Definition && NonEmpty(c.description) then 1 else 0
  {
    CountOptional(NonEmpty(c.description), c.description.GetOr(""), Definition, p);
  }

  lemma CountRepresentation(c: Concept, p: Pred)
    ensures CountPredicate(RepresentationLines(c), p)
      == if p == Note && NonEmpty(FirstAnnotationText(c.annotations, "RECOMMENDED_REPRESENTATION")) then 1 else 0
  {
    var rr := FirstAnnotationText(c.annotations, "RECOMMENDED_REPRESENTATION");
    CountOptional(NonEmpty(rr), "Recommended representation: " + rr.GetOr(""), Note, p);
  }

  lemma CountCodelist(c: Concept, p: Pred)
    ensures CountPredicate(CodelistLines(c), p)
      == if p == Note && NonEmpty(FirstAnnotationText(c.annotations, "CODELIST_ID")) then 1 else 0
  {
    var cl := FirstAnnotationText(c.annotations, "CODELIST_ID");
    CountOptional(NonEmpty(cl), "Codelist ID: " + cl.GetOr(""), Note, p);
  }

  lemma CountContext(c: Concept, includeContext: bool, p: Pred)
    ensures CountPredicate(ContextLines(c, includeContext), p)
      == if p == Comment && NonEmpty(ContextText(c, includeContext)) then 1 else 0
  {
    var cx := ContextText(c, includeContext);
    CountOptional(NonEmpty(cx), cx.GetOr(""), Comment, p);
  }

  /**
   * How many lines of `triples` carry each predicate: label, definition, representation
   * note, codelist note and context comment one each exactly when their text is there;
   * notation and scheme always one.
   */
  lemma CountFor(c: Concept, includeContext: bool, p: Pred)
    ensures CountPredicate(IntrinsicTriples(c, includeContext), p)
      == (if p == Label && NonEmpty(c.name) then 1 else 0)
       + (if p == Definition && NonEmpty(c.description) then 1 else 0)
       + (if p == Notation then 1 else 0)
       + (if p == InScheme then 1 else 0)
       + (if p == Note && NonEmpty(FirstAnnotationText(c.annotations, "RECOMMENDED_REPRESENTATION")) then 1 else 0)
       + (if p == Note && NonEmpty(FirstAnnotationText(c.annotations, "CODELIST_ID")) then 1 else 0)
       + (if p == Comment && NonEmpty(ContextText(c, includeContext)) then 1 else 0)
  {
    CountSeven([TypeLine(c)], LabelLines(c), DefinitionLines(c), [NotationLine(c), InSchemeLine()],
      RepresentationLines(c), CodelistLines(c), ContextLines(c, includeContext), p);
    CountFixed(c, p);
    CountLabel(c, p);
    CountDefinition(c, p);
    CountRepresentation(c, p);
    CountCodelist(c, p);
    CountContext(c, includeContext, p);
  }

  /**
   * One `rdfs:label` line exactly when the Name has text, one `skos:definition` line exactly
   * when the Description has text, one `rdfs:comment` line exactly when context is wanted
   * and the CONTEXT annotation has text, and always one `skos:notation` and one
   * `skos:inScheme` line.
   */
  lemma PrepairPredicateCounts(c: Concept, includeContext: bool)
    ensures CountPredicate(IntrinsicTriples(c, includeContext), Label) == if NonEmpty(c.name) then 1 else 0
    ensures CountPredicate(IntrinsicTriples(c, includeContext), Definition) == if NonEmpty(c.description) then 1 else 0
    ensures CountPredicate(IntrinsicTriples(c, includeContext), Comment)
      == if includeContext && NonEmpty(FirstAnnotationText(c.annotations, "CONTEXT")) then 1 else 0
    ensures CountPredicate(IntrinsicTriples(c, includeContext), Notation) == 1
    ensures CountPredicate(IntrinsicTriples(c, includeContext), InScheme) == 1
  {
    CountFor(c, includeContext, Label);
    CountFor(c, includeContext, Definition);
    CountFor(c, includeContext, Comment);
    CountFor(c, includeContext, Notation);
    CountFor(c, includeContext, InScheme);
  }

  // ----- texts versus triples -----

  /** The lines that also go into `texts`: label, definition and context comment. */
  predicate IsTextLine(line: string)
  {
    HasPredicate(line, Label) || HasPredicate(line, Definition) || HasPredicate(line, Comment)
  }

  function TextLines(lines: seq<string>): seq<string>
  {
    if lines == [] then [] else (if IsTextLine(lines[0]) then [lines[0]] else []) + TextLines(lines[1..])
  }

  lemma {:induction false} TextLinesConcat(a: seq<string>, b: seq<string>)
    ensures TextLines(a + b) == TextLines(a) + TextLines(b)
    decreases |a|
  {
    if a != [] {
      assert (a + b)[1..] == a[1..] + b;
      TextLinesConcat(a[1..], b);
    } else {
      assert a + b == b;
    }
  }

  lemma TextLinesOne(line: string)
    ensures TextLines([line]) == if IsTextLine(line) then [line] else []
  {
    assert [line][1..] == [];
  }

  /** An optional literal segment is kept whole when its predicate is a text predicate, and dropped otherwise. */
  lemma TextLinesOptional(present: bool, v: string, p: Pred)
    ensures TextLines(if present then [FormatLiteral(v, PredName(p))] else [])
      == if present && p in {Label, Definition, Comment} then [FormatLiteral(v, PredName(p))] else []
  {
    if present {
      LiteralPredicate(v, p, Label);
      LiteralPredicate(v, p, Definition);
      LiteralPredicate(v, p, Comment);
      TextLinesOne(FormatLiteral(v, PredName(p)));
    }
  }

  lemma TextLinesOfFixed(c: Concept)
    ensures TextLines([NotationLine(c), InSchemeLine()]) == []
  {
    NotationLinePredicate(c, Label);
    NotationLinePredicate(c, Definition);
    NotationLinePredicate(c, Comment);
    InSchemeLinePredicate(Label);
    InSchemeLinePredicate(Definition);
    InSchemeLinePredicate(Comment);
    assert [NotationLine(c), InSchemeLine()][1..] == [InSchemeLine()];
    TextLinesOne(InSchemeLine());
  }

  lemma TextLinesSix(s1: seq<string>, s2: seq<string>, s3: seq<string>,
                     s4: seq<string>, s5: seq<string>, s6: seq<string>)
    requires TextLines(s1) == s1 && TextLines(s2) == s2 && TextLines(s6) == s6
    requires TextLines(s3) == [] && TextLines(s4) == [] && TextLines(s5) == []
    ensures TextLines(s1 + s2 + s3 + s4 + s5 + s6) == s1 + s2 + s6
  {
    var a2 := s1 + s2;
    var a3 := a2 + s3;
    var a4 := a3 + s4;
    var a5 := a4 + s5;
    TextLinesConcat(s1, s2);
    TextLinesConcat(a2, s3);
    assert TextLines(a3) == a2 by { AppendNil(a2); }
    TextLinesConcat(a3, s4);
    assert TextLines(a4) == a2 by { AppendNil(a2); }
    TextLinesConcat(a4, s5);
    assert TextLines(a5) == a2 by { AppendNil(a2); }
    TextLinesConcat(a5, s6);
  }

  lemma TextLinesOfSegments(c: Concept, includeContext: bool)
    ensures TextLines(LabelLines(c)) == LabelLines(c)
    ensures TextLines(DefinitionLines(c)) == DefinitionLines(c)
    ensures TextLines(RepresentationLines(c)) == []
    ensures TextLines(CodelistLines(c)) == []
    ensures TextLines(ContextLines(c, includeContext)) == ContextLines(c, includeContext)
  {
    var rr := FirstAnnotationText(c.annotations, "RECOMMENDED_REPRESENTATION");
    var cl := FirstAnnotationText(c.annotations, "CODELIST_ID");
    var cx := ContextText(c, includeContext);
    TextLinesOptional(NonEmpty(c.name), c.name.GetOr(""), Label);
    TextLinesOptional(NonEmpty(c.description), c.description.GetOr(""), Definition);
    TextLinesOptional(NonEmpty(rr), "Recommended representation: " + rr.GetOr(""), Note);
    TextLinesOptional(NonEmpty(cl), "Codelist ID: " + cl.GetOr(""), Note);
    TextLinesOptional(NonEmpty(cx), cx.GetOr(""), Comment);
  }

  /** Regrouping a seven-part concatenation. */
  lemma Regroup(s1: seq<string>, s2: seq<string>, s3: seq<string>, s4: seq<string>,
                s5: seq<string>, s6: seq<string>, s7: seq<string>)
    ensures s1 + s2 + s3 + s4 + s5 + s6 + s7 == s1 + (s2 + s3 + s4 + s5 + s6 + s7)
    ensures s1 + s2 + s3 + s4 + s5 + s6 + s7 == (s1 + s2 + s3) + s4 + (s5 + s6 + s7)
  {
  }

  lemma TailOfCons(x: string, t: seq<string>)
    ensures ([x] + t)[1..] == t
  {
  }

  lemma IntrinsicTail(c: Concept, includeContext: bool)
    ensures IntrinsicTriples(c, includeContext)[1..]
      == LabelLines(c) + DefinitionLines(c) + [NotationLine(c), InSchemeLine()]
       + RepresentationLines(c) + CodelistLines(c) + ContextLines(c, includeContext)
  {
    Regroup([TypeLine(c)], LabelLines(c), DefinitionLines(c), [NotationLine(c), InSchemeLine()],
      RepresentationLines(c), CodelistLines(c), ContextLines(c, includeContext));
    TailOfCons(TypeLine(c), LabelLines(c) + DefinitionLines(c) + [NotationLine(c), InSchemeLine()]
       + RepresentationLines(c) + CodelistLines(c) + ContextLines(c, includeContext));
  }

  /**
   * `texts` is the id followed by exactly the label, definition and context lines of
   * `triples`, in the same order: notation, scheme and note lines stay out of it.
   */
  lemma PrepairTextsAreTextLines(c: Concept, includeContext: bool)
    ensures IntrinsicTexts(c, includeContext)[0] == IdText(c.id)
    ensures IntrinsicTexts(c, includeContext)[1..] == TextLines(IntrinsicTriples(c, includeContext)[1..])
  {
    IntrinsicTail(c, includeContext);
    TextLinesOfFixed(c);
    TextLinesOfSegments(c, includeContext);
    TextLinesSix(LabelLines(c), DefinitionLines(c), [NotationLine(c), InSchemeLine()],
      RepresentationLines(c), CodelistLines(c), ContextLines(c, includeContext));
    var rest := LabelLines(c) + DefinitionLines(c) + ContextLines(c, includeContext);
    assert IntrinsicTexts(c, includeContext) == [IdText(c.id)] + rest;
  }

  /**
   * The order of `triples`: the type line first, then the label and definition lines if
   * any, then notation and scheme, then the notes and the context comment.
   */
  lemma PrepairLayout(c: Concept, includeContext: bool)
    ensures var t := IntrinsicTriples(c, includeContext);
      var k := |LabelLines(c)| + |DefinitionLines(c)|;
      && t[0] == TypeLine(c)
      && k <= 2 && |t| >= 3 + k
      && t[1 + k] == NotationLine(c)
      && t[2 + k] == InSchemeLine()
      && t[1..1 + k] == LabelLines(c) + DefinitionLines(c)
      && t[3 + k..] == RepresentationLines(c) + CodelistLines(c) + ContextLines(c, includeContext)
  {
    LayoutAround(TypeLine(c), LabelLines(c), DefinitionLines(c), NotationLine(c), InSchemeLine(),
      RepresentationLines(c), CodelistLines(c), ContextLines(c, includeContext));
  }

  /** Where the parts of a list made of a head, two segments, two fixed lines and three segments sit. */
  lemma LayoutAround<T>(h: T, l: seq<T>, d: seq<T>, n: T, s: T, r: seq<T>, cl: seq<T>, x: seq<T>)
    ensures var t := [h] + l + d + [n, s] + r + cl + x;
      var k := |l| + |d|;
      && t[0] == h && |t| >= 3 + k
      && t[1 + k] == n && t[2 + k] == s
      && t[1..1 + k] == l + d
      && t[3 + k..] == r + cl + x
  {
    var t := [h] + l + d + [n, s] + r + cl + x;
    var k := |l| + |d|;
    var pre := [h] + l + d;
    var post := r + cl + x;
    assert t == pre + [n, s] + post;
    assert t[1..1 + k] == pre[1..];
    assert pre[1..] == l + d;
    assert t[3 + k..] == post;
  }

  /** The codelist list gains the stripped CODELIST_ID text and the id exactly when that text is non-empty. */
  lemma CodelistPairsIff(c: Concept)
    ensures |CodelistPairs(c)| <= 1
    ensures CodelistPairs(c) != [] <==> NonEmpty(FirstAnnotationText(c.annotations, "CODELIST_ID"))
    ensures CodelistPairs(c) != [] ==> CodelistPairs(c)[0].1 == c.id
    ensures CodelistPairs(c) != [] ==> CodelistPairs(c)[0].0 == Strip(FirstAnnotationText(c.annotations, "CODELIST_ID").value)
  {
  }
}
