/**
 * `process_concepts` (src/sdmxglossgen/logic_triplets.py): after the intrinsic lines of
 * `prepair_concepts`, one relation line per resolved RELATED_TERMS token (broader,
 * narrower or related, decided from the override table, the "X - y" label rule and the
 * descriptions), then exactMatch/closeMatch lines against the concepts of the old model.
 */
module LogicTriplets {
  import opened Wrappers
  import opened StrBuiltins
  import opened OrderedDict
  import opened ConceptXml
  import opened LogicTemplates
  import opened LogicFunction
  import opened XmlExtractor
  import opened LogicPrepair

  // ----- relations and their lines -----

  /** A relation line to be written: its predicate and the id of its target. */
  datatype Relation = Relation(kind: Pred, target: string)

  /** The object of a relation line: a concept of the new scheme, or one of the old SDMX model for the two match predicates. */
  function TargetUri(r: Relation): string
  {
    if r.kind == ExactMatch || r.kind == CloseMatch then "sdmx-concept:" + r.target else ConceptUri(r.target)
  }

  /** `f"    skos:broader {related_concept_uri}"` and its siblings. */
  function RenderRelation(r: Relation): string
  {
    LiteralHead(PredName(r.kind)) + TargetUri(r)
  }

  function RenderAll(rs: seq<Relation>): (lines: seq<string>)
    ensures |lines| == |rs|
  {
    if rs == [] then [] else [RenderRelation(rs[0])] + RenderAll(rs[1..])
  }

  lemma {:induction false} RenderAllConcat(a: seq<Relation>, b: seq<Relation>)
    ensures RenderAll(a + b) == RenderAll(a) + RenderAll(b)
    decreases |a|
  {
    if a != [] {
      assert (a + b)[1..] == a[1..] + b;
      RenderAllConcat(a[1..], b);
    } else {
      assert a + b == b;
    }
  }

  /** Number of relations of predicate `k`. */
  function CountKind(rs: seq<Relation>, k: Pred): nat
  {
    if rs == [] then 0 else (if rs[0].kind == k then 1 else 0) + CountKind(rs[1..], k)
  }

  lemma {:induction false} CountKindConcat(a: seq<Relation>, b: seq<Relation>, k: Pred)
    ensures CountKind(a + b, k) == CountKind(a, k) + CountKind(b, k)
    decreases |a|
  {
    if a != [] {
      assert (a + b)[1..] == a[1..] + b;
      CountKindConcat(a[1..], b, k);
    } else {
      assert a + b == b;
    }
  }

  /** The rendered lines carrying predicate `k` are exactly the relations of predicate `k`. */
  lemma {:induction false} RenderAllCount(rs: seq<Relation>, k: Pred)
    ensures CountPredicate(RenderAll(rs), k) == CountKind(rs, k)
    decreases |rs|
  {
    if rs != [] {
      HeadPredicate(rs[0].kind, k, TargetUri(rs[0]));
      RenderAllCount(rs[1..], k);
      assert RenderAll(rs)[1..] == RenderAll(rs[1..]);
    }
  }

  // ----- the two indexes built from all concepts -----

  /** `label.strip().lower()`: the key a stored label is looked up under. */
  function LabelKey(name: string): string
  {
    Lower(Strip(name))
  }

  /** The assignments of the `concept_labels` comprehension, in iteration order. */
  function LabelPairs(concepts: seq<(string, ConceptInfo)>): (ps: seq<(string, string)>)
    ensures |ps| == |concepts|
    ensures forall i :: 0 <= i < |concepts| ==> ps[i] == (LabelKey(concepts[i].1.name), concepts[i].0)
  {
    seq(|concepts|, i requires 0 <= i < |concepts| => (LabelKey(concepts[i].1.name), concepts[i].0))
  }

  /** `concept_labels`: stripped, lowercased label to concept id. */
  function LabelIndex(concepts: seq<(string, ConceptInfo)>): seq<(string, string)>
  {
    FromPairs(LabelPairs(concepts))
  }

  /** The concept at `i` has the label key `key` and no later concept has it. */
  predicate LastWithLabel(concepts: seq<(string, ConceptInfo)>, key: string, id: string, i: int)
  {
    0 <= i < |concepts| && LabelKey(concepts[i].1.name) == key && concepts[i].0 == id
    && forall j :: i < j < |concepts| ==> LabelKey(concepts[j].1.name) != key
  }

  /** A label key resolves to the id of the last concept carrying that label: later concepts win. */
  lemma LabelIndexGet(concepts: seq<(string, ConceptInfo)>, key: string, id: string)
    ensures Get(LabelIndex(concepts), key) == Some(id) <==> exists i :: LastWithLabel(concepts, key, id, i)
  {
    var ps := LabelPairs(concepts);
    FromPairsGet(ps, key);
    LastValueIff(ps, key, id);
    forall i ensures LastAssignment(ps, key, id, i) <==> LastWithLabel(concepts, key, id, i) {
      LabelAssignmentAt(concepts, key, id, i);
    }
  }

  lemma LabelAssignmentAt(concepts: seq<(string, ConceptInfo)>, key: string, id: string, i: int)
    ensures LastAssignment(LabelPairs(concepts), key, id, i) <==> LastWithLabel(concepts, key, id, i)
  {
    var ps := LabelPairs(concepts);
    if 0 <= i < |concepts| {
      assert ps[i] == (LabelKey(concepts[i].1.name), concepts[i].0);
      if LastAssignment(ps, key, id, i) {
        forall j | i < j < |concepts| ensures LabelKey(concepts[j].1.name) != key {
          assert ps[j].0 == LabelKey(concepts[j].1.name);
        }
      }
      if LastWithLabel(concepts, key, id, i) {
        forall j | i < j < |ps| ensures ps[j].0 != key {
          assert ps[j].0 == LabelKey(concepts[j].1.name);
        }
      }
    }
  }

  /** The assignments of the `concept_descriptions` comprehension: concepts with a non-empty description. */
  function DescriptionPairs(concepts: seq<(string, ConceptInfo)>): seq<(string, string)>
  {
    if concepts == [] then []
    else
      var e := concepts[|concepts| - 1];
      DescriptionPairs(concepts[..|concepts| - 1]) + (if e.1.description != "" then [(e.0, e.1.description)] else [])
  }

  /** `concept_descriptions.get(related_concept_id, "")` */
  function RelatedDescription(concepts: seq<(string, ConceptInfo)>, rid: string): string
  {
    Get(FromPairs(DescriptionPairs(concepts)), rid).GetOr("")
  }

  lemma {:induction false} DescriptionPairsAbsent(concepts: seq<(string, ConceptInfo)>, rid: string)
    requires forall i :: 0 <= i < |concepts| ==> concepts[i].0 != rid
    ensures LastValue(DescriptionPairs(concepts), rid) == None
    decreases |concepts|
  {
    if concepts != [] {
      var n := |concepts| - 1;
      var e := concepts[n];
      assert forall i :: 0 <= i < n ==> concepts[..n][i] == concepts[i];
      DescriptionPairsAbsent(concepts[..n], rid);
      if e.1.description != "" {
        assert DescriptionPairs(concepts) == DescriptionPairs(concepts[..n]) + [(e.0, e.1.description)];
        LastValueSnoc(DescriptionPairs(concepts[..n]), (e.0, e.1.description), rid);
      } else {
        assert DescriptionPairs(concepts) == DescriptionPairs(concepts[..n]) + [] == DescriptionPairs(concepts[..n]);
      }
    }
  }

  lemma {:induction false} DescriptionPairsLast(concepts: seq<(string, ConceptInfo)>, rid: string)
    requires DistinctKeys(concepts)
    ensures LastValue(DescriptionPairs(concepts), rid).GetOr("")
      == match LastValue(concepts, rid) case Some(info) => info.description case None => ""
    decreases |concepts|
  {
    if concepts != [] {
      var n := |concepts| - 1;
      var init := concepts[..n];
      var e := concepts[n];
      assert concepts == init + [e];
      LastValueSnoc(init, e, rid);
      assert DistinctKeys(init);
      if e.1.description != "" {
        assert DescriptionPairs(concepts) == DescriptionPairs(init) + [(e.0, e.1.description)];
        LastValueSnoc(DescriptionPairs(init), (e.0, e.1.description), rid);
      } else {
        assert DescriptionPairs(concepts) == DescriptionPairs(init) + [] == DescriptionPairs(init);
      }
      if e.0 == rid {
        if e.1.description == "" {
          forall i | 0 <= i < n ensures init[i].0 != rid {
            assert init[i] == concepts[i];
          }
          DescriptionPairsAbsent(init, rid);
        }
      } else {
        DescriptionPairsLast(init, rid);
      }
    }
  }

  /**
   * Over a dict with distinct keys (what `extract_xml_content` builds), the related
   * description is the target's stored description, and "" when the target is unknown.
   */
  lemma RelatedDescriptionOf(concepts: seq<(string, ConceptInfo)>, rid: string)
    requires DistinctKeys(concepts)
    ensures RelatedDescription(concepts, rid) == match Get(concepts, rid) case Some(info) => info.description case None => ""
  {
    FromPairsGet(DescriptionPairs(concepts), rid);
    DescriptionPairsLast(concepts, rid);
    LastValueIsGet(concepts, rid);
  }

  // ----- the override table scan -----

  /**
   * The scan over `broader_corrections.items()` reaches position `i` (every earlier value
   * is non-empty, so no `break` on an empty value came first) and finds `(cid, rid)` there.
   */
  predicate OverrideAt(table: seq<(string, string)>, cid: string, rid: string, i: int)
  {
    0 <= i < |table| && table[i] == (cid, rid) && rid != "" && forall j :: 0 <= j < i ==> table[j].1 != ""
  }

  predicate OverrideFound(table: seq<(string, string)>, cid: string, rid: string)
  {
    exists i :: 0 <= i < |table| && OverrideAt(table, cid, rid, i)
  }

  /** The loop at lines 124-129: stop at the first empty value, succeed at the pair `(cid, rid)`. */
  method ScanOverrides(table: seq<(string, string)>, cid: string, rid: string) returns (found: bool)
    ensures found <==> OverrideFound(table, cid, rid)
  {
    found := false;
    var i := 0;
    while i < |table|
      invariant 0 <= i <= |table|
      invariant forall j :: 0 <= j < i ==> table[j].1 != "" && table[j] != (cid, rid)
    {
      var (key, value) := table[i];
      if value == "" {
        break;
      }
      if key == cid && value == rid {
        assert OverrideAt(table, cid, rid, i);
        found := true;
        break;
      }
      i := i + 1;
    }
  }

  /** Every empty value comes after every non-empty one. */
  predicate EmptiesLast(table: seq<(string, string)>)
  {
    forall i, j :: 0 <= i < j < |table| && table[i].1 == "" ==> table[j].1 == ""
  }

  /** On a table with distinct keys and the empty values last, the scan is a plain lookup of a non-empty value. */
  lemma OverrideFoundIsLookup(table: seq<(string, string)>, cid: string, rid: string)
    requires DistinctKeys(table) && EmptiesLast(table)
    ensures OverrideFound(table, cid, rid) <==> Get(table, cid) == Some(rid) && rid != ""
  {
    if OverrideFound(table, cid, rid) {
      var i :| 0 <= i < |table| && OverrideAt(table, cid, rid, i);
      GetAt(table, i);
    }
    if Get(table, cid) == Some(rid) && rid != "" {
      var i :| 0 <= i < |table| && table[i] == (cid, rid);
      assert OverrideAt(table, cid, rid, i);
    }
  }

  /** The shipped BROADER_FIXES table satisfies both conditions, so its scan is a lookup. */
  lemma BroaderFixesScanIsLookup(cid: string, rid: string)
    ensures OverrideFound(GetBroaderFixes(), cid, rid) <==> Get(GetBroaderFixes(), cid) == Some(rid) && rid != ""
  {
    BroaderFixesDistinctKeys();
    BroaderFixesEmptiesLast();
    OverrideFoundIsLookup(BroaderFixes, cid, rid);
  }

  // ----- the "Accuracy - overall" rule -----

  /** A stored concept whose stripped, lowercased label is `normLabel` and whose CURIE is the target's. */
  predicate EntryMatches(entry: (string, ConceptInfo), normLabel: string, rid: string)
  {
    normLabel == LabelKey(entry.1.name) && ConceptUri(entry.0) == ConceptUri(rid)
  }

  /** The name has `" - "` after position 0, and its normalized left part is the label of the target. */
  predicate SplitMatch(concepts: seq<(string, ConceptInfo)>, name: string, rid: string)
  {
    var (n, left, _) := SplitBySeparator(name);
    n > 0 && exists i :: 0 <= i < |concepts| && EntryMatches(concepts[i], NormalizeText(left), rid)
  }

  /** The loop at lines 133-140, leaving the loop as soon as an entry matches. */
  method SplitMatchScan(concepts: seq<(string, ConceptInfo)>, name: string, rid: string) returns (cond: bool)
    ensures cond <==> SplitMatch(concepts, name, rid)
  {
    cond := false;
    var (numbSep, label1, _) := SplitBySeparator(name);
    if numbSep > 0 {
      var normLabel := NormalizeText(label1);
      var i := 0;
      while i < |concepts|
        invariant 0 <= i <= |concepts|
        invariant !cond
        invariant forall j :: 0 <= j < i ==> !EntryMatches(concepts[j], normLabel, rid)
      {
        cond := normLabel == LabelKey(concepts[i].1.name) && ConceptUri(concepts[i].0) == ConceptUri(rid);
        if cond {
          break;
        }
        i := i + 1;
      }
    }
  }

  /** Over distinct ids, the rule compares the normalized left part with the target's own stored label. */
  lemma SplitMatchTarget(concepts: seq<(string, ConceptInfo)>, name: string, rid: string)
    requires DistinctKeys(concepts)
    ensures SplitMatch(concepts, name, rid) <==>
      (SplitBySeparator(name).0 > 0 && Get(concepts, rid).Some?
       && NormalizeText(SplitBySeparator(name).1) == LabelKey(Get(concepts, rid).value.name))
  {
    var normLabel := NormalizeText(SplitBySeparator(name).1);
    forall i | 0 <= i < |concepts| ensures EntryMatches(concepts[i], normLabel, rid) <==> concepts[i].0 == rid && normLabel == LabelKey(concepts[i].1.name) {
      ConceptUriInjective(concepts[i].0, rid);
    }
    if Get(concepts, rid).Some? {
      var i :| 0 <= i < |concepts| && concepts[i] == (rid, Get(concepts, rid).value);
      forall j | 0 <= j < |concepts| && concepts[j].0 == rid ensures j == i {
      }
    }
  }

  // ----- one token -----

  /** `normalized_concept_label` */
  function NormalizedName(c: Concept): string
  {
    if c.name.Some? then NormalizeText(c.name.value) else ""
  }

  /** `normalized_concept_description` */
  function NormalizedDescription(c: Concept): string
  {
    if c.description.Some? then NormalizeText(c.description.value) else ""
  }

  /** `normalized_related_description`: "" when the concept itself has no Description element. */
  function NormalizedRelatedDescription(c: Concept, concepts: seq<(string, ConceptInfo)>, rid: string): string
  {
    if c.description.Some? then NormalizeText(RelatedDescription(concepts, rid)) else ""
  }

  /** `concept_id in broader_corrections` */
  predicate HasOverride(c: Concept)
  {
    c.id.Some? && c.id.value in Keys(GetBroaderFixes())
  }

  /** `broader_condition` once lines 115-144 have run. */
  predicate BroaderCondition(c: Concept, concepts: seq<(string, ConceptInfo)>, token: string, rid: string)
  {
    if HasOverride(c) then OverrideFound(GetBroaderFixes(), c.id.value, rid)
    else (c.name.Some? && SplitMatch(concepts, c.name.value, rid)) || IsInfix(NormalizeText(token), NormalizedDescription(c))
  }

  /** `narrower_condition` (line 145). */
  predicate NarrowerCondition(c: Concept, concepts: seq<(string, ConceptInfo)>, rid: string)
  {
    IsInfix(NormalizedName(c), NormalizedRelatedDescription(c, concepts, rid))
  }

  /** The relations lines 148-161 append for the target `rid`. */
  function Outcome(broader: bool, narrower: bool, narrowInclude: bool, rid: string): seq<Relation>
  {
    if broader && narrower then [Relation(Broader, rid)] + (if narrowInclude then [Relation(Narrower, rid)] else [])
    else if broader then [Relation(Broader, rid)]
    else if narrower && narrowInclude then [Relation(Narrower, rid)]
    else [Relation(Related, rid)]
  }

  /** The id a token resolves to through the label index, unless it is unknown or the concept itself. */
  function ResolvedTarget(c: Concept, concepts: seq<(string, ConceptInfo)>, token: string): Option<string>
  {
    match Get(LabelIndex(concepts), token)
    case None => None
    case Some(rid) => if c.id == Some(rid) then None else Some(rid)
  }

  /** The relations appended for one normalized related label. */
  function TokenRelations(c: Concept, concepts: seq<(string, ConceptInfo)>, token: string, narrowInclude: bool): seq<Relation>
  {
    match ResolvedTarget(c, concepts, token)
    case None => []
    case Some(rid) => Outcome(BroaderCondition(c, concepts, token, rid), NarrowerCondition(c, concepts, rid), narrowInclude, rid)
  }

  /** The relations of a sequence of tokens, in order. */
  function TokensRelations(c: Concept, concepts: seq<(string, ConceptInfo)>, tokens: seq<string>, narrowInclude: bool): seq<Relation>
  {
    if tokens == [] then []
    else
      TokensRelations(c, concepts, tokens[..|tokens| - 1], narrowInclude)
      + TokenRelations(c, concepts, tokens[|tokens| - 1], narrowInclude)
  }

  /** `[normalize_label(term.strip()) for term in related_term.text.split(";")]` */
  function RelatedLabels(text: string): (labels: seq<string>)
    ensures |labels| == |SplitOn(text, ';')|
  {
    var pieces := SplitOn(text, ';');
    seq(|pieces|, i requires 0 <= i < |pieces| => NormalizeLabel(Strip(pieces[i])))
  }

  /**
   * Label `i` is the `i`-th `;`-piece, stripped and normalized; every label looked up is
   * lowercase, trimmed and already corrected: no LABEL_FIXES key is ever looked up.
   */
  lemma RelatedLabelsCanonical(text: string)
    ensures forall i :: 0 <= i < |RelatedLabels(text)| ==>
      && RelatedLabels(text)[i] == NormalizeLabel(Strip(SplitOn(text, ';')[i]))
      && IsCanonicalLabel(RelatedLabels(text)[i]) && RelatedLabels(text)[i] !in LabelFixes
  {
    var pieces := SplitOn(text, ';');
    forall i | 0 <= i < |pieces| ensures RelatedLabels(text)[i] !in LabelFixes {
      NormalizeLabelNotFixKey(Strip(pieces[i]));
    }
  }

  /** The relations of all RELATED_TERMS texts, in order. */
  function ClassifyAll(c: Concept, concepts: seq<(string, ConceptInfo)>, terms: seq<string>, narrowInclude: bool): seq<Relation>
  {
    if terms == [] then []
    else
      ClassifyAll(c, concepts, terms[..|terms| - 1], narrowInclude)
      + TokensRelations(c, concepts, RelatedLabels(terms[|terms| - 1]), narrowInclude)
  }

  // ----- what one token contributes -----

  /** Unknown or self-referencing tokens add nothing; any other token adds one line, or two when both conditions hold and narrower lines are wanted. */
  lemma TokenRelationsCount(c: Concept, concepts: seq<(string, ConceptInfo)>, token: string, narrowInclude: bool)
    ensures var rs := TokenRelations(c, concepts, token, narrowInclude);
      && (rs == [] <==> ResolvedTarget(c, concepts, token).None?)
      && (|rs| == 2 <==>
            (ResolvedTarget(c, concepts, token).Some? && narrowInclude
             && BroaderCondition(c, concepts, token, ResolvedTarget(c, concepts, token).value)
             && NarrowerCondition(c, concepts, ResolvedTarget(c, concepts, token).value)))
      && |rs| <= 2
  {
  }

  /** When both lines are written, broader comes first and narrower second, to the same target. */
  lemma TokenRelationsPair(c: Concept, concepts: seq<(string, ConceptInfo)>, token: string, narrowInclude: bool)
    requires |TokenRelations(c, concepts, token, narrowInclude)| == 2
    ensures var rs := TokenRelations(c, concepts, token, narrowInclude);
      rs[0].kind == Broader && rs[1].kind == Narrower && rs[0].target == rs[1].target
  {
  }

  /** The target of a line is the resolved id: a stored concept other than the concept itself. */
  lemma TokenRelationsTargets(c: Concept, concepts: seq<(string, ConceptInfo)>, token: string, narrowInclude: bool)
    ensures forall r :: r in TokenRelations(c, concepts, token, narrowInclude) ==>
      && r.kind in {Broader, Narrower, Related}
      && c.id != Some(r.target)
      && Get(LabelIndex(concepts), token) == Some(r.target)
  {
    match ResolvedTarget(c, concepts, token)
    case None =>
    case Some(rid) =>
      OutcomeTargets(BroaderCondition(c, concepts, token, rid), NarrowerCondition(c, concepts, rid), narrowInclude, rid);
  }

  lemma OutcomeTargets(broader: bool, narrower: bool, narrowInclude: bool, rid: string)
    ensures forall r :: r in Outcome(broader, narrower, narrowInclude, rid) ==>
      r.kind in {Broader, Narrower, Related} && r.target == rid
  {
  }

  /** Without `narrow_include` no narrower line is written: the narrower-only case falls through to related. */
  lemma TokenNoNarrower(c: Concept, concepts: seq<(string, ConceptInfo)>, token: string)
    ensures forall r :: r in TokenRelations(c, concepts, token, false) ==> r.kind != Narrower
    ensures ResolvedTarget(c, concepts, token).Some?
      && !BroaderCondition(c, concepts, token, ResolvedTarget(c, concepts, token).value)
      ==> TokenRelations(c, concepts, token, false) == [Relation(Related, ResolvedTarget(c, concepts, token).value)]
  {
  }

  // ----- all tokens -----

  lemma {:induction false} TokensRelationsProps(c: Concept, concepts: seq<(string, ConceptInfo)>, tokens: seq<string>, narrowInclude: bool)
    ensures forall r :: r in TokensRelations(c, concepts, tokens, narrowInclude) ==>
      r.kind in {Broader, Narrower, Related} && c.id != Some(r.target) && (narrowInclude || r.kind != Narrower)
    decreases |tokens|
  {
    if tokens != [] {
      var n := |tokens| - 1;
      TokensRelationsProps(c, concepts, tokens[..n], narrowInclude);
      TokenRelationsTargets(c, concepts, tokens[n], narrowInclude);
      TokenNoNarrower(c, concepts, tokens[n]);
    }
  }

  /**
   * No relation line of the classification targets the concept itself, every one is a
   * broader, narrower or related line, and without `narrow_include` none is narrower.
   */
  lemma {:induction false} ClassifyAllProps(c: Concept, concepts: seq<(string, ConceptInfo)>, terms: seq<string>, narrowInclude: bool)
    ensures forall r :: r in ClassifyAll(c, concepts, terms, narrowInclude) ==>
      r.kind in {Broader, Narrower, Related} && c.id != Some(r.target) && (narrowInclude || r.kind != Narrower)
    decreases |terms|
  {
    if terms != [] {
      var n := |terms| - 1;
      ClassifyAllProps(c, concepts, terms[..n], narrowInclude);
      TokensRelationsProps(c, concepts, RelatedLabels(terms[n]), narrowInclude);
    }
  }

  // ----- the override rules -----

  /** `DSD` referencing `DATA_SET` is broader, whatever the labels and descriptions say. */
  lemma DsdDataSetIsBroader(c: Concept, concepts: seq<(string, ConceptInfo)>, token: string)
    requires c.id == Some("DSD")
    ensures BroaderCondition(c, concepts, token, "DATA_SET")
  {
    BroaderFixesScanIsLookup("DSD", "DATA_SET");
  }

  /** `DSD` referencing any other target is never broader. */
  lemma DsdOtherNotBroader(c: Concept, concepts: seq<(string, ConceptInfo)>, token: string, rid: string)
    requires c.id == Some("DSD") && rid != "DATA_SET"
    ensures !BroaderCondition(c, concepts, token, rid)
  {
    BroaderFixesScanIsLookup("DSD", rid);
  }

  /** A concept whose override value is empty is never broader of anything. */
  lemma EmptyOverrideNotBroader(c: Concept, concepts: seq<(string, ConceptInfo)>, token: string, rid: string)
    requires c.id.Some? && Get(GetBroaderFixes(), c.id.value) == Some("")
    ensures !BroaderCondition(c, concepts, token, rid)
  {
    BroaderFixesScanIsLookup(c.id.value, rid);
  }

  /** `DATAFLOW` is such a concept. */
  lemma DataflowOverrideIsEmpty()
    ensures Get(GetBroaderFixes(), "DATAFLOW") == Some("")
  {
    BroaderFixesDistinctKeys();
    assert BroaderFixes[20] == ("DATAFLOW", "");
    GetAt(BroaderFixes, 20);
  }

  /** Without an override, broader is the split rule or the token found in the concept's own normalized description. */
  lemma NoOverrideBroader(c: Concept, concepts: seq<(string, ConceptInfo)>, token: string, rid: string)
    requires DistinctKeys(concepts) && !HasOverride(c)
    ensures BroaderCondition(c, concepts, token, rid) <==>
      || (c.name.Some? && SplitBySeparator(c.name.value).0 > 0 && Get(concepts, rid).Some?
          && NormalizeText(SplitBySeparator(c.name.value).1) == LabelKey(Get(concepts, rid).value.name))
      || IsInfix(NormalizeText(token), NormalizedDescription(c))
  {
    if c.name.Some? {
      SplitMatchTarget(concepts, c.name.value, rid);
    }
  }
  // ----- the classification loop -----

  lemma RenderOne(r: Relation)
    ensures RenderAll([r]) == [RenderRelation(r)]
  {
    assert [r][1..] == [];
  }

  lemma RenderTwo(r: Relation, q: Relation)
    ensures RenderAll([r] + [q]) == [RenderRelation(r), RenderRelation(q)]
  {
    assert ([r] + [q])[1..] == [q];
    RenderOne(q);
  }

  /** `broader_condition` as lines 111-144 compute it: the override table, then the split rule, then the description test. */
  method DecideBroader(c: Concept, concepts: seq<(string, ConceptInfo)>, token: string,
                       normalizedConceptDescription: string, rid: string)
    returns (broaderCondition: bool)
    requires normalizedConceptDescription == NormalizedDescription(c)
    ensures broaderCondition == BroaderCondition(c, concepts, token, rid)
  {
    var normalizedRelatedLabel := NormalizeText(token);
    broaderCondition := false;
    var broaderException := false;
    var corrections := GetBroaderFixes();
    if c.id.Some? && c.id.value in Keys(corrections) {
      broaderException := true;
      broaderCondition := ScanOverrides(corrections, c.id.value, rid);
    }
    if c.name.Some? && !broaderCondition && !broaderException {
      broaderCondition := SplitMatchScan(concepts, c.name.value, rid);
    }
    if !broaderCondition && !broaderException {
      broaderCondition := IsInfix(normalizedRelatedLabel, normalizedConceptDescription);
    }
  }

  /** Lines 147-161: the lines appended for the target `rid` and how many of them are broader lines. */
  method AppendOutcome(broaderCondition: bool, narrowerCondition: bool, narrowInclude: bool, rid: string)
    returns (lines: seq<string>, numBroader: nat)
    ensures lines == RenderAll(Outcome(broaderCondition, narrowerCondition, narrowInclude, rid))
    ensures numBroader == CountKind(Outcome(broaderCondition, narrowerCondition, narrowInclude, rid), Broader)
  {
    if broaderCondition && narrowerCondition {
      lines := [RenderRelation(Relation(Broader, rid))];
      numBroader := 1;
      if narrowInclude {
        lines := lines + [RenderRelation(Relation(Narrower, rid))];
        RenderTwo(Relation(Broader, rid), Relation(Narrower, rid));
        assert ([Relation(Broader, rid)] + [Relation(Narrower, rid)])[1..] == [Relation(Narrower, rid)];
      } else {
        assert [Relation(Broader, rid)] + [] == [Relation(Broader, rid)];
        RenderOne(Relation(Broader, rid));
      }
    } else if broaderCondition {
      lines := [RenderRelation(Relation(Broader, rid))];
      numBroader := 1;
      RenderOne(Relation(Broader, rid));
    } else if narrowerCondition && narrowInclude {
      lines := [RenderRelation(Relation(Narrower, rid))];
      numBroader := 0;
      RenderOne(Relation(Narrower, rid));
    } else {
      lines := [RenderRelation(Relation(Related, rid))];
      numBroader := 0;
      RenderOne(Relation(Related, rid));
    }
  }

  /**
   * The body of the inner loop (lines 100-163) for one normalized related label: look the
   * label up, skip unknown and self-referencing targets, decide the conditions and produce
   * the lines.
   */
  method ClassifyToken(c: Concept, concepts: seq<(string, ConceptInfo)>,
                       labelIndex: seq<(string, string)>, descriptions: seq<(string, string)>,
                       normalizedConceptLabel: string, normalizedConceptDescription: string,
                       token: string, narrowInclude: bool)
    returns (lines: seq<string>, numBroader: nat)
    requires labelIndex == LabelIndex(concepts) && descriptions == FromPairs(DescriptionPairs(concepts))
    requires normalizedConceptLabel == NormalizedName(c) && normalizedConceptDescription == NormalizedDescription(c)
    ensures lines == RenderAll(TokenRelations(c, concepts, token, narrowInclude))
    ensures numBroader == CountKind(TokenRelations(c, concepts, token, narrowInclude), Broader)
  {
    var found := Get(labelIndex, token);
    if found.None? || c.id == found {
      return [], 0;
    }
    var rid := found.value;
    var normalizedRelatedDescription := if c.description.Some? then NormalizeText(Get(descriptions, rid).GetOr("")) else "";
    var broaderCondition := DecideBroader(c, concepts, token, normalizedConceptDescription, rid);
    var narrowerCondition := IsInfix(normalizedConceptLabel, normalizedRelatedDescription);
    assert narrowerCondition == NarrowerCondition(c, concepts, rid);
    lines, numBroader := AppendOutcome(broaderCondition, narrowerCondition, narrowInclude, rid);
  }

  lemma TokensStep(c: Concept, concepts: seq<(string, ConceptInfo)>, tokens: seq<string>, j: nat, narrowInclude: bool)
    requires j < |tokens|
    ensures TokensRelations(c, concepts, tokens[..j + 1], narrowInclude)
      == TokensRelations(c, concepts, tokens[..j], narrowInclude) + TokenRelations(c, concepts, tokens[j], narrowInclude)
  {
    assert tokens[..j + 1][..j] == tokens[..j];
  }

  lemma ClassifyStep(c: Concept, concepts: seq<(string, ConceptInfo)>, terms: seq<string>, i: nat, narrowInclude: bool)
    requires i < |terms|
    ensures ClassifyAll(c, concepts, terms[..i + 1], narrowInclude)
      == ClassifyAll(c, concepts, terms[..i], narrowInclude) + TokensRelations(c, concepts, RelatedLabels(terms[i]), narrowInclude)
  {
    assert terms[..i + 1][..i] == terms[..i];
  }

  /** The lines and the count of one more label extend those of the labels before it. */
  lemma TokensAccumulate(c: Concept, concepts: seq<(string, ConceptInfo)>, tokens: seq<string>, j: nat, narrowInclude: bool,
                         lines: seq<string>, more: seq<string>, k: nat, n: nat)
    requires j < |tokens|
    requires lines == RenderAll(TokensRelations(c, concepts, tokens[..j], narrowInclude))
    requires k == CountKind(TokensRelations(c, concepts, tokens[..j], narrowInclude), Broader)
    requires more == RenderAll(TokenRelations(c, concepts, tokens[j], narrowInclude))
    requires n == CountKind(TokenRelations(c, concepts, tokens[j], narrowInclude), Broader)
    ensures lines + more == RenderAll(TokensRelations(c, concepts, tokens[..j + 1], narrowInclude))
    ensures k + n == CountKind(TokensRelations(c, concepts, tokens[..j + 1], narrowInclude), Broader)
  {
    var done := TokensRelations(c, concepts, tokens[..j], narrowInclude);
    var next := TokenRelations(c, concepts, tokens[j], narrowInclude);
    TokensStep(c, concepts, tokens, j, narrowInclude);
    RenderAllConcat(done, next);
    CountKindConcat(done, next, Broader);
  }

  /** The lines and the count of one more RELATED_TERMS text extend those of the texts before it. */
  lemma ClassifyAccumulate(c: Concept, concepts: seq<(string, ConceptInfo)>, terms: seq<string>, i: nat, narrowInclude: bool,
                           lines: seq<string>, more: seq<string>, k: nat, n: nat)
    requires i < |terms|
    requires lines == RenderAll(ClassifyAll(c, concepts, terms[..i], narrowInclude))
    requires k == CountKind(ClassifyAll(c, concepts, terms[..i], narrowInclude), Broader)
    requires more == RenderAll(TokensRelations(c, concepts, RelatedLabels(terms[i]), narrowInclude))
    requires n == CountKind(TokensRelations(c, concepts, RelatedLabels(terms[i]), narrowInclude), Broader)
    ensures lines + more == RenderAll(ClassifyAll(c, concepts, terms[..i + 1], narrowInclude))
    ensures k + n == CountKind(ClassifyAll(c, concepts, terms[..i + 1], narrowInclude), Broader)
  {
    var before := ClassifyAll(c, concepts, terms[..i], narrowInclude);
    var added := TokensRelations(c, concepts, RelatedLabels(terms[i]), narrowInclude);
    ClassifyStep(c, concepts, terms, i, narrowInclude);
    RenderAllConcat(before, added);
    CountKindConcat(before, added, Broader);
  }

  /** The inner loop at lines 99-163 over the normalized labels of one RELATED_TERMS text. */
  method ClassifyLabels(c: Concept, concepts: seq<(string, ConceptInfo)>,
                        labelIndex: seq<(string, string)>, descriptions: seq<(string, string)>,
                        normalizedConceptLabel: string, normalizedConceptDescription: string,
                        relatedLabels: seq<string>, narrowInclude: bool)
    returns (lines: seq<string>, numBroader: nat)
    requires labelIndex == LabelIndex(concepts) && descriptions == FromPairs(DescriptionPairs(concepts))
    requires normalizedConceptLabel == NormalizedName(c) && normalizedConceptDescription == NormalizedDescription(c)
    ensures lines == RenderAll(TokensRelations(c, concepts, relatedLabels, narrowInclude))
    ensures numBroader == CountKind(TokensRelations(c, concepts, relatedLabels, narrowInclude), Broader)
  {
    lines := [];
    numBroader := 0;
    assert relatedLabels[..0] == [];
    for j := 0 to |relatedLabels|
      invariant lines == RenderAll(TokensRelations(c, concepts, relatedLabels[..j], narrowInclude))
      invariant numBroader == CountKind(TokensRelations(c, concepts, relatedLabels[..j], narrowInclude), Broader)
    {
      var more, n := ClassifyToken(c, concepts, labelIndex, descriptions, normalizedConceptLabel,
                                   normalizedConceptDescription, relatedLabels[j], narrowInclude);
      TokensAccumulate(c, concepts, relatedLabels, j, narrowInclude, lines, more, numBroader, n);
      lines := lines + more;
      numBroader := numBroader + n;
    }
    assert relatedLabels[..|relatedLabels|] == relatedLabels;
  }

  /**
   * The loops at lines 96-163 over the RELATED_TERMS texts and their `;`-separated labels:
   * the lines appended and the number of broader lines among them.
   */
  method ClassifyRelatedTerms(c: Concept, concepts: seq<(string, ConceptInfo)>, relatedTerms: seq<string>, narrowInclude: bool)
    returns (lines: seq<string>, numBroader: nat)
    ensures lines == RenderAll(ClassifyAll(c, concepts, relatedTerms, narrowInclude))
    ensures numBroader == CountKind(ClassifyAll(c, concepts, relatedTerms, narrowInclude), Broader)
  {
    var normalizedConceptLabel := NormalizedName(c);
    var normalizedConceptDescription := NormalizedDescription(c);
    var labelIndex := LabelIndex(concepts);
    var descriptions := FromPairs(DescriptionPairs(concepts));
    lines, numBroader := ClassifyTerms(c, concepts, labelIndex, descriptions, normalizedConceptLabel,
                                       normalizedConceptDescription, relatedTerms, narrowInclude);
  }

  /** The outer loop at lines 96-163, given the indexes and the normalized label and description of the concept. */
  method ClassifyTerms(c: Concept, concepts: seq<(string, ConceptInfo)>,
                       labelIndex: seq<(string, string)>, descriptions: seq<(string, string)>,
                       normalizedConceptLabel: string, normalizedConceptDescription: string,
                       relatedTerms: seq<string>, narrowInclude: bool)
    returns (lines: seq<string>, numBroader: nat)
    requires labelIndex == LabelIndex(concepts) && descriptions == FromPairs(DescriptionPairs(concepts))
    requires normalizedConceptLabel == NormalizedName(c) && normalizedConceptDescription == NormalizedDescription(c)
    ensures lines == RenderAll(ClassifyAll(c, concepts, relatedTerms, narrowInclude))
    ensures numBroader == CountKind(ClassifyAll(c, concepts, relatedTerms, narrowInclude), Broader)
  {
    lines := [];
    numBroader := 0;
    for i := 0 to |relatedTerms|
      invariant lines == RenderAll(ClassifyAll(c, concepts, relatedTerms[..i], narrowInclude))
      invariant numBroader == CountKind(ClassifyAll(c, concepts, relatedTerms[..i], narrowInclude), Broader)
    {
      var more, n := ClassifyLabels(c, concepts, labelIndex, descriptions, normalizedConceptLabel,
                                    normalizedConceptDescription, RelatedLabels(relatedTerms[i]), narrowInclude);
      ClassifyAccumulate(c, concepts, relatedTerms, i, narrowInclude, lines, more, numBroader, n);
      lines := lines + more;
      numBroader := numBroader + n;
    }
    assert relatedTerms[..|relatedTerms|] == relatedTerms;
  }

  // ----- alignment with the old model -----

  /** A `skos:Concept` of the old graph: its URI, and its `rdfs:label` and `rdfs:comment` if any. */
  datatype OldConcept = OldConcept(uri: string, labelText: Option<string>, commentText: Option<string>)

  /** `old_concept.split("#")[-1]` */
  function OldConceptId(uri: string): (id: string)
    ensures '#' !in id
  {
    var parts := SplitOn(uri, '#');
    parts[|parts| - 1]
  }

  /** A URI without `#` is its own id. */
  lemma OldConceptIdPlain(uri: string)
    requires '#' !in uri
    ensures OldConceptId(uri) == uri
  {
    SplitOnFree(uri, '#');
  }

  /** `labels_match` (line 173), once the label and the name are known to be there. */
  predicate LabelsMatch(c: Concept, o: OldConcept)
  {
    NormalizeLabel(o.labelText.GetOr("")) == NormalizeLabel(c.name.GetOr(""))
  }

  /** `definitions_match` (line 174) */
  predicate DefinitionsMatch(c: Concept, o: OldConcept)
  {
    NonEmpty(o.commentText) && c.description.Some?
    && NormalizeLabel(o.commentText.value) == NormalizeLabel(c.description.value)
  }

  /** `concept_id_match` (line 175) */
  predicate IdMatches(c: Concept, o: OldConcept)
  {
    c.id == Some(TransformConceptId(OldConceptId(o.uri)))
  }

  /** The substring test of line 187 without its truthiness guard on the Description. */
  predicate DescriptionWithin(c: Concept, o: OldConcept)
  {
    NonEmpty(o.commentText) && IsInfix(Lower(c.description.GetOr("")), Lower(o.commentText.value))
  }

  /**
   * Lines 172-188 for one old concept, given the value Python's `bool(concept_description)`
   * takes in the close-match test of line 187: no relation, or one.
   */
  function AlignDecision(c: Concept, o: OldConcept, descriptionTruthy: bool): seq<Relation>
  {
    if NonEmpty(o.labelText) && c.name.Some? then
      AlignChoice(OldConceptId(o.uri), IdMatches(c, o), LabelsMatch(c, o), DefinitionsMatch(c, o),
                  descriptionTruthy && DescriptionWithin(c, o))
    else []
  }

  /** The branch of lines 185-188 the four tests select: an exact match, a close match or nothing. */
  function AlignChoice(oldId: string, idMatch: bool, labelsMatch: bool, definitionsMatch: bool, descriptionWithin: bool): seq<Relation>
  {
    if (idMatch && labelsMatch) || (idMatch && definitionsMatch) then [Relation(ExactMatch, oldId)]
    else if labelsMatch || descriptionWithin then [Relation(CloseMatch, oldId)]
    else []
  }

  /**
   * The code as written: `concept_description` is an XML element, and an element is true
   * only when it has child elements, whatever its text.
   */
  function AlignRelationsAsWritten(c: Concept, o: OldConcept, descriptionChildren: nat): seq<Relation>
  {
    AlignDecision(c, o, c.description.Some? && descriptionChildren > 0)
  }

  /** The evident intent of line 187: the test applies when the Description has text. */
  function AlignRelations(c: Concept, o: OldConcept): seq<Relation>
  {
    AlignDecision(c, o, NonEmpty(c.description))
  }

  /** The relations of lines 166-188, one old concept after the other, with no deduplication or early exit. */
  function AlignAll(c: Concept, olds: seq<OldConcept>): seq<Relation>
  {
    if olds == [] then []
    else
      AlignAll(c, olds[..|olds| - 1])
      + AlignRelations(c, olds[|olds| - 1])
  }

  /** The branch selection gives at most one match line to the old id; an exact match needs the ids to correspond. */
  lemma AlignChoiceShape(oldId: string, idMatch: bool, labelsMatch: bool, definitionsMatch: bool, descriptionWithin: bool)
    ensures var rs := AlignChoice(oldId, idMatch, labelsMatch, definitionsMatch, descriptionWithin);
      && |rs| <= 1
      && (rs != [] ==> rs[0].target == oldId && rs[0].kind in {ExactMatch, CloseMatch})
      && (rs != [] && rs[0].kind == ExactMatch <==> idMatch && (labelsMatch || definitionsMatch))
      && (rs == [] <==> !labelsMatch && !descriptionWithin && !(idMatch && definitionsMatch))
  {
  }

  /** Only a labelled old concept and a named concept are compared; an exact match needs matching ids and a close match does not. */
  lemma AlignRelationsShape(c: Concept, o: OldConcept)
    ensures var rs := AlignRelations(c, o);
      && |rs| <= 1
      && (rs != [] ==> NonEmpty(o.labelText) && c.name.Some?)
      && (rs != [] ==> rs[0].target == OldConceptId(o.uri) && rs[0].kind in {ExactMatch, CloseMatch})
      && (rs != [] && rs[0].kind == ExactMatch
          <==> NonEmpty(o.labelText) && c.name.Some? && IdMatches(c, o) && (LabelsMatch(c, o) || DefinitionsMatch(c, o)))
  {
  }

  /** Matching labels always give a line: exact when the ids correspond, close otherwise. */
  lemma AlignLabelsMatch(c: Concept, o: OldConcept)
    requires NonEmpty(o.labelText) && c.name.Some? && LabelsMatch(c, o)
    ensures AlignRelations(c, o) == [Relation(if IdMatches(c, o) then ExactMatch else CloseMatch, OldConceptId(o.uri))]
  {
  }

  /** A description found in the old definition gives a close match when the ids do not correspond. */
  lemma AlignDescriptionWithin(c: Concept, o: OldConcept)
    requires NonEmpty(o.labelText) && c.name.Some? && NonEmpty(c.description) && DescriptionWithin(c, o)
    requires !IdMatches(c, o)
    ensures AlignRelations(c, o) == [Relation(CloseMatch, OldConceptId(o.uri))]
  {
  }

  /** As written, a Description element without child elements never lets the description test fire: a close match then needs matching labels. */
  lemma AsWrittenDescriptionTestDead(c: Concept, o: OldConcept)
    ensures AlignRelationsAsWritten(c, o, 0) == [Relation(CloseMatch, OldConceptId(o.uri))] ==> LabelsMatch(c, o)
  {
    if NonEmpty(o.labelText) && c.name.Some? && !LabelsMatch(c, o) {
      assert AlignRelationsAsWritten(c, o, 0)
        == AlignChoice(OldConceptId(o.uri), IdMatches(c, o), false, DefinitionsMatch(c, o), false);
    }
  }

  /**
   * How the code as written and the intended test differ. With child elements under a
   * Description that has text they agree. Without child elements they differ only where
   * the description test alone would give a close match, which the code as written drops.
   */
  lemma AsWrittenAgrees(c: Concept, o: OldConcept, descriptionChildren: nat)
    ensures descriptionChildren > 0 && NonEmpty(c.description)
      ==> AlignRelationsAsWritten(c, o, descriptionChildren) == AlignRelations(c, o)
    ensures AlignRelationsAsWritten(c, o, 0) != [] ==> AlignRelationsAsWritten(c, o, 0) == AlignRelations(c, o)
    ensures AlignRelationsAsWritten(c, o, 0) != AlignRelations(c, o)
      ==> && AlignRelationsAsWritten(c, o, 0) == []
          && AlignRelations(c, o) == [Relation(CloseMatch, OldConceptId(o.uri))]
          && NonEmpty(c.description) && DescriptionWithin(c, o) && !LabelsMatch(c, o)
  {
  }

  /** Old concepts are processed independently: the relations of a concatenation are the concatenated relations. */
  lemma {:induction false} AlignAllConcat(c: Concept, a: seq<OldConcept>, b: seq<OldConcept>)
    ensures AlignAll(c, a + b) == AlignAll(c, a) + AlignAll(c, b)
    decreases |b|
  {
    if b != [] {
      var n := |b| - 1;
      var ab := a + b;
      assert ab[..|ab| - 1] == a + b[..n];
      assert ab[|ab| - 1] == b[n];
      AlignAllConcat(c, a, b[..n]);
      ConcatAssoc(AlignAll(c, a), AlignAll(c, b[..n]), AlignRelations(c, b[n]));
    } else {
      assert a + b == a;
    }
  }

  /** At most one line per old concept, each an exact or close match. */
  lemma {:induction false} AlignAllShape(c: Concept, olds: seq<OldConcept>)
    ensures |AlignAll(c, olds)| <= |olds|
    ensures forall r :: r in AlignAll(c, olds) ==> r.kind in {ExactMatch, CloseMatch}
    decreases |olds|
  {
    if olds != [] {
      AlignAllShape(c, olds[..|olds| - 1]);
      AlignRelationsShape(c, olds[|olds| - 1]);
    }
  }

  lemma AlignStep(c: Concept, olds: seq<OldConcept>, i: nat)
    requires i < |olds|
    ensures AlignAll(c, olds[..i + 1])
      == AlignAll(c, olds[..i]) + AlignRelations(c, olds[i])
  {
    assert olds[..i + 1][..i] == olds[..i];
  }

  /** The body of the loop at lines 166-188 for one old concept. */
  method AlignOne(c: Concept, o: OldConcept) returns (lines: seq<string>)
    ensures lines == RenderAll(AlignRelations(c, o))
  {
    var oldConceptId := OldConceptId(o.uri);
    var oldConceptIdUp := TransformConceptId(oldConceptId);
    if !(NonEmpty(o.labelText) && c.name.Some?) {
      assert AlignRelations(c, o) == [];
      return [];
    }
    var labelsMatch := LabelsMatch(c, o);
    var definitionsMatch := DefinitionsMatch(c, o);
    var conceptIdMatch := c.id == Some(oldConceptIdUp);
    var descriptionWithin := NonEmpty(c.description) && DescriptionWithin(c, o);
    assert AlignRelations(c, o) == AlignChoice(oldConceptId, conceptIdMatch, labelsMatch, definitionsMatch, descriptionWithin);
    lines := AlignLines(oldConceptId, conceptIdMatch, labelsMatch, definitionsMatch, descriptionWithin);
  }

  /** Lines 185-188, once the four tests are decided. */
  method AlignLines(oldConceptId: string, conceptIdMatch: bool, labelsMatch: bool, definitionsMatch: bool, descriptionWithin: bool)
    returns (lines: seq<string>)
    ensures lines == RenderAll(AlignChoice(oldConceptId, conceptIdMatch, labelsMatch, definitionsMatch, descriptionWithin))
  {
    if (conceptIdMatch && labelsMatch) || (conceptIdMatch && definitionsMatch) {
      lines := [RenderRelation(Relation(ExactMatch, oldConceptId))];
      RenderOne(Relation(ExactMatch, oldConceptId));
    } else if labelsMatch || descriptionWithin {
      lines := [RenderRelation(Relation(CloseMatch, oldConceptId))];
      RenderOne(Relation(CloseMatch, oldConceptId));
    } else {
      lines := [];
    }
  }

  /** The loop at lines 166-188 over the concepts of the old graph. */
  method AlignWithOldModel(c: Concept, olds: seq<OldConcept>) returns (lines: seq<string>)
    ensures lines == RenderAll(AlignAll(c, olds))
  {
    lines := [];
    for i := 0 to |olds|
      invariant lines == RenderAll(AlignAll(c, olds[..i]))
    {
      var more := AlignOne(c, olds[i]);
      AlignStep(c, olds, i);
      RenderAllConcat(AlignAll(c, olds[..i]), AlignRelations(c, olds[i]));
      lines := lines + more;
    }
    assert olds[..|olds|] == olds;
  }

  // ----- the whole procedure -----

  /** The `triples` list `process_concepts` returns. */
  function ProcessedTriples(c: Concept, includeContext: bool, concepts: seq<(string, ConceptInfo)>,
                            olds: seq<OldConcept>, narrowInclude: bool): seq<string>
  {
    IntrinsicTriples(c, includeContext)
      + RenderAll(ClassifyAll(c, concepts, RelatedTermTexts(c), narrowInclude))
      + RenderAll(AlignAll(c, olds))
  }

  /**
   * `process_concepts(concept, ns, include_context, concepts, codelist_associations,
   * old_graph, narrow_include)`: the intrinsic lines, then the classification lines, then
   * the alignment lines; the texts and the codelist links of `prepair_concepts`; and the
   * number of broader lines.
   */
  method ProcessConcepts(c: Concept, includeContext: bool, concepts: seq<(string, ConceptInfo)>,
                         acc: CodelistAssociations, olds: seq<OldConcept>, narrowInclude: bool)
    returns (triples: seq<string>, texts: seq<string>, numBroader: nat)
    modifies acc
    ensures triples == ProcessedTriples(c, includeContext, concepts, olds, narrowInclude)
    ensures texts == IntrinsicTexts(c, includeContext)
    ensures numBroader == CountKind(ClassifyAll(c, concepts, RelatedTermTexts(c), narrowInclude), Broader)
    ensures acc.pairs == old(acc.pairs) + CodelistPairs(c)
  {
    var relatedTerms;
    triples, texts, relatedTerms := PrepairConcepts(c, includeContext, acc);
    var relationLines;
    relationLines, numBroader := ClassifyRelatedTerms(c, concepts, relatedTerms, narrowInclude);
    triples := triples + relationLines;
    var matchLines := AlignWithOldModel(c, olds);
    triples := triples + matchLines;
  }

  lemma {:induction false} CountKindNone(rs: seq<Relation>, k: Pred)
    requires forall r :: r in rs ==> r.kind != k
    ensures CountKind(rs, k) == 0
    decreases |rs|
  {
    if rs != [] {
      assert rs[0] in rs;
      assert forall r :: r in rs[1..] ==> r in rs;
      CountKindNone(rs[1..], k);
    }
  }

  /** The returned list starts with exactly the lines of `prepair_concepts`. */
  lemma ProcessedStartsWithIntrinsic(c: Concept, includeContext: bool, concepts: seq<(string, ConceptInfo)>,
                                     olds: seq<OldConcept>, narrowInclude: bool)
    ensures var t := ProcessedTriples(c, includeContext, concepts, olds, narrowInclude);
      |t| >= |IntrinsicTriples(c, includeContext)|
      && t[..|IntrinsicTriples(c, includeContext)|] == IntrinsicTriples(c, includeContext)
  {
    PrefixOfConcat(IntrinsicTriples(c, includeContext),
                   RenderAll(ClassifyAll(c, concepts, RelatedTermTexts(c), narrowInclude)),
                   RenderAll(AlignAll(c, olds)));
  }

  lemma PrefixOfConcat<T>(a: seq<T>, b: seq<T>, d: seq<T>)
    ensures |a + b + d| >= |a| && (a + b + d)[..|a|] == a
  {
    assert a + b + d == a + (b + d);
  }

  /** The per-predicate line count of the whole output: intrinsic, classification and alignment lines added up. */
  lemma ProcessedCount(c: Concept, includeContext: bool, concepts: seq<(string, ConceptInfo)>,
                       olds: seq<OldConcept>, narrowInclude: bool, p: Pred)
    ensures CountPredicate(ProcessedTriples(c, includeContext, concepts, olds, narrowInclude), p)
      == CountPredicate(IntrinsicTriples(c, includeContext), p)
       + CountKind(ClassifyAll(c, concepts, RelatedTermTexts(c), narrowInclude), p)
       + CountKind(AlignAll(c, olds), p)
  {
    var a := IntrinsicTriples(c, includeContext);
    var rs := ClassifyAll(c, concepts, RelatedTermTexts(c), narrowInclude);
    var ms := AlignAll(c, olds);
    CountPredicateConcat(a, RenderAll(rs), p);
    CountPredicateConcat(a + RenderAll(rs), RenderAll(ms), p);
    RenderAllCount(rs, p);
    RenderAllCount(ms, p);
  }

  /** `num_broader` is the number of `skos:broader` lines in the returned triples. */
  lemma ProcessedBroaderCount(c: Concept, includeContext: bool, concepts: seq<(string, ConceptInfo)>,
                              olds: seq<OldConcept>, narrowInclude: bool)
    ensures CountPredicate(ProcessedTriples(c, includeContext, concepts, olds, narrowInclude), Broader)
      == CountKind(ClassifyAll(c, concepts, RelatedTermTexts(c), narrowInclude), Broader)
  {
    ProcessedCount(c, includeContext, concepts, olds, narrowInclude, Broader);
    CountFor(c, includeContext, Broader);
    AlignAllShape(c, olds);
    CountKindNone(AlignAll(c, olds), Broader);
  }

  /** With `narrow_include` false the returned triples hold no `skos:narrower` line. */
  lemma ProcessedNoNarrower(c: Concept, includeContext: bool, concepts: seq<(string, ConceptInfo)>, olds: seq<OldConcept>)
    ensures CountPredicate(ProcessedTriples(c, includeContext, concepts, olds, false), Narrower) == 0
  {
    ProcessedCount(c, includeContext, concepts, olds, false, Narrower);
    CountFor(c, includeContext, Narrower);
    AlignAllShape(c, olds);
    CountKindNone(AlignAll(c, olds), Narrower);
    ClassifyAllProps(c, concepts, RelatedTermTexts(c), false);
    CountKindNone(ClassifyAll(c, concepts, RelatedTermTexts(c), false), Narrower);
  }
  // ----- the description test of line 187 as written -----

  /** A concept named "b" with the Description "b", and an old concept labelled "a" whose definition is "ab". */
  const FindingConcept: Concept := Concept(None, None, Some("b"), Some("b"), [])
  const FindingOld: OldConcept := OldConcept("x", Some("a"), Some("ab"))

  lemma FindingLabelsDiffer()
    ensures !LabelsMatch(FindingConcept, FindingOld)
  {
    ShortLabelLowers("a");
    ShortLabelLowers("b");
    LowerOfNoUpper("a");
    LowerOfNoUpper("b");
  }

  lemma FindingDescriptionWithin()
    ensures DescriptionWithin(FindingConcept, FindingOld)
  {
    LowerOfNoUpper("b");
    LowerOfNoUpper("ab");
    assert "ab"[1..] == "b";
  }

  /**
   * The description test of line 187: the intended reading finds the Description "b"
   * inside the old definition "ab" and gives a close match; as written, the Description
   * element (text and no child elements) is false and no line is produced.
   */
  lemma AsWrittenMissesDescriptionMatch()
    ensures AlignRelationsAsWritten(FindingConcept, FindingOld, 0) == []
    ensures AlignRelations(FindingConcept, FindingOld) == [Relation(CloseMatch, "x")]
  {
    FindingAsWritten();
    FindingIntended();
  }

  lemma FindingAsWritten()
    ensures AlignRelationsAsWritten(FindingConcept, FindingOld, 0) == []
  {
    FindingLabelsDiffer();
    OnlyDescriptionTest(FindingConcept, FindingOld, false);
  }

  lemma FindingIntended()
    ensures AlignRelations(FindingConcept, FindingOld) == [Relation(CloseMatch, "x")]
  {
    FindingDescriptionWithin();
    OldConceptIdPlain("x");
    AlignDescriptionWithin(FindingConcept, FindingOld);
  }

  /** Without matching ids or labels, only the description test of line 187 can give a line. */
  lemma OnlyDescriptionTest(c: Concept, o: OldConcept, descriptionTruthy: bool)
    requires NonEmpty(o.labelText) && c.name.Some? && !IdMatches(c, o) && !LabelsMatch(c, o)
    ensures AlignDecision(c, o, descriptionTruthy)
      == if descriptionTruthy && DescriptionWithin(c, o) then [Relation(CloseMatch, OldConceptId(o.uri))] else []
  {
  }

  // ----- the "Accuracy - overall" example -----

  const AccuracyConcepts: seq<(string, ConceptInfo)> :=
    [("ACCURACY", ConceptInfo("Accuracy", "")), ("ACCURACY_OVERALL", ConceptInfo("Accuracy - overall", ""))]

  const AccuracyOverall: Concept := Concept(Some("ACCURACY_OVERALL"), None, Some("Accuracy - overall"), None, [])

  lemma LowerAccuracy()
    ensures Lower("Accuracy") == "accuracy"
  {
  }

  lemma AccuracyKeys()
    ensures LabelKey("Accuracy") == "accuracy"
    ensures LabelKey("Accuracy - overall") != "accuracy"
  {
    AccuracyKey("Accuracy");
    OverallKeyLength("Accuracy - overall");
  }

  lemma AccuracyKey(s: string)
    requires s == "Accuracy"
    ensures LabelKey(s) == "accuracy"
  {
    var t := Strip(s);
    assert t == s by {
      assert IsTrimmed(s);
    }
    assert Lower(t) == "accuracy" by {
      LowerAccuracy();
    }
  }

  /** A trimmed name keeps its length under `LabelKey`: "Accuracy - overall" has 18 characters, so it is not "accuracy". */
  lemma OverallKeyLength(s: string)
    requires s == "Accuracy - overall"
    ensures |LabelKey(s)| == 18
  {
    assert IsTrimmed(s);
  }

  /** Of two stored concepts, the first is found under its label key when the second has another key. */
  lemma FirstOfTwoResolves(concepts: seq<(string, ConceptInfo)>, key: string)
    requires |concepts| == 2 && LabelKey(concepts[0].1.name) == key && LabelKey(concepts[1].1.name) != key
    ensures Get(LabelIndex(concepts), key) == Some(concepts[0].0)
  {
    var id := concepts[0].0;
    assert LastWithLabel(concepts, key, id, 0) by {
      forall j | 0 < j < |concepts| ensures LabelKey(concepts[j].1.name) != key {
        assert j == 1;
      }
    }
    LabelIndexGet(concepts, key, id);
  }

  lemma AccuracyResolves()
    ensures Get(LabelIndex(AccuracyConcepts), "accuracy") == Some("ACCURACY")
  {
    AccuracyKeys();
    FirstOfTwoResolves(AccuracyConcepts, "accuracy");
  }

  lemma AccuracyOverallNoOverride()
    ensures !HasOverride(AccuracyOverall)
  {
    BroaderFixKeysNotSixteen();
    assert |"ACCURACY_OVERALL"| == 16;
  }

  lemma AccuracyOverallSplit()
    ensures SplitBySeparator("Accuracy - overall") == (8, "Accuracy", "overall")
  {
    AccuracyOverallSeparator("Accuracy - overall");
    SplitAtFirst("Accuracy - overall", 8);
    AccuracyOverallPieces("Accuracy - overall");
  }

  /** The separator first occurs after "Accuracy". */
  lemma AccuracyOverallSeparator(s: string)
    requires s == "Accuracy - overall"
    ensures OccursAt(Separator, s, 8)
    ensures forall j :: 0 <= j < 8 ==> !OccursAt(Separator, s, j)
  {
    assert s[8..11] == Separator;
    forall j | 0 <= j < 8 ensures !OccursAt(Separator, s, j) {
      assert s[j] != ' ';
      assert s[j..j + 3][0] == s[j];
    }
  }

  lemma AccuracyOverallPieces(s: string)
    requires s == "Accuracy - overall"
    ensures s[..8] == "Accuracy" && s[11..] == "overall"
  {
  }

  lemma NormalizeAccuracy()
    ensures NormalizeText("Accuracy") == "accuracy"
  {
    NormalizeWord("Accuracy");
    LowerAccuracy();
  }

  lemma AccuracyOverallSplitMatch()
    ensures SplitMatch(AccuracyConcepts, "Accuracy - overall", "ACCURACY")
  {
    AccuracyOverallSplit();
    NormalizeAccuracy();
    AccuracyKeys();
    assert EntryMatches(AccuracyConcepts[0], "accuracy", "ACCURACY");
  }

  lemma BroaderWins(narrower: bool, rid: string)
    ensures Outcome(true, narrower, false, rid) == [Relation(Broader, rid)]
  {
    assert [Relation(Broader, rid)] + [] == [Relation(Broader, rid)];
  }

  lemma AccuracyOverallBroaderCondition()
    ensures BroaderCondition(AccuracyOverall, AccuracyConcepts, "accuracy", "ACCURACY")
  {
    AccuracyOverallNoOverride();
    AccuracyOverallSplitMatch();
  }

  /** The related label "accuracy" of the concept "Accuracy - overall" resolves to ACCURACY, which becomes its broader concept. */
  lemma AccuracyOverallToken()
    ensures TokenRelations(AccuracyOverall, AccuracyConcepts, "accuracy", false) == [Relation(Broader, "ACCURACY")]
  {
    AccuracyResolves();
    AccuracyOverallBroaderCondition();
    BroaderWins(NarrowerCondition(AccuracyOverall, AccuracyConcepts, "ACCURACY"), "ACCURACY");
  }

  /** A trimmed label shorter than every LABEL_FIXES key normalizes to its lowercase form. */
  lemma ShortLabelLowers(text: string)
    requires IsTrimmed(text) && |text| < 9
    ensures NormalizeLabel(text) == Lower(text)
  {
    LowerKeepsTrimmed(text);
    LabelFixKeysLong();
    NormalizeLabelKeeps(text);
  }

  lemma PlainTextOneLabel(text: string)
    requires ';' !in text
    ensures |RelatedLabels(text)| == 1
  {
    SplitOnFree(text, ';');
  }

  lemma PlainTextLabel(text: string)
    requires ';' !in text
    ensures RelatedLabels(text)[0] == NormalizeLabel(Strip(text))
  {
    SplitOnFree(text, ';');
  }

  /** A trimmed RELATED_TERMS text without `;` and shorter than every LABEL_FIXES key is one label, lowercased. */
  lemma SingleRelatedLabel(text: string)
    requires ';' !in text && IsTrimmed(text) && |text| < 9
    ensures RelatedLabels(text) == [Lower(text)]
  {
    PlainTextOneLabel(text);
    PlainTextLabel(text);
    ShortTrimmedLabel(text);
    Singleton(RelatedLabels(text), Lower(text));
  }

  lemma ShortTrimmedLabel(text: string)
    requires IsTrimmed(text) && |text| < 9
    ensures NormalizeLabel(Strip(text)) == Lower(text)
  {
    assert Strip(text) == text;
    ShortLabelLowers(text);
  }

  lemma Singleton<T>(s: seq<T>, x: T)
    requires |s| == 1 && s[0] == x
    ensures s == [x]
  {
  }

  lemma AccuracyRelatedLabels()
    ensures RelatedLabels("Accuracy") == ["accuracy"]
  {
    assert IsTrimmed("Accuracy");
    SingleRelatedLabel("Accuracy");
    LowerAccuracy();
  }

  /** The RELATED_TERMS text "Accuracy" of "Accuracy - overall" gives exactly one `skos:broader` relation, to ACCURACY. */
  lemma AccuracyOverallIsBroader()
    ensures ClassifyAll(AccuracyOverall, AccuracyConcepts, ["Accuracy"], false) == [Relation(Broader, "ACCURACY")]
  {
    AccuracyRelatedLabels();
    AccuracyOverallToken();
    OneTermOneLabel(AccuracyOverall, AccuracyConcepts, "Accuracy", "accuracy", false);
  }

  /** A single RELATED_TERMS text with a single label contributes what that label does. */
  lemma OneTermOneLabel(c: Concept, concepts: seq<(string, ConceptInfo)>, term: string, token: string, narrowInclude: bool)
    requires RelatedLabels(term) == [token]
    ensures ClassifyAll(c, concepts, [term], narrowInclude) == TokenRelations(c, concepts, token, narrowInclude)
  {
    assert [term][..0] == [];
    assert [token][..0] == [];
    var rs := TokenRelations(c, concepts, token, narrowInclude);
    assert TokensRelations(c, concepts, [token], narrowInclude) == [] + rs;
    assert ClassifyAll(c, concepts, [term], narrowInclude) == [] + TokensRelations(c, concepts, [token], narrowInclude);
  }
}
