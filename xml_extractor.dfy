/**
 * `extract_xml_content` (src/sdmxglossgen/xml_extractor.py): the index from concept id to
 * (label, description) over all concept elements of a concept scheme, as an ordered dict.
 */
module XmlExtractor {
  import opened Wrappers
  import opened StrBuiltins
  import opened OrderedDict
  import opened ConceptXml

  /** The value stored for one concept: its Name text and its lowered, stripped Description text. */
  datatype ConceptInfo = ConceptInfo(name: string, description: string)

  /**
   * The pair stored for a concept element: the Name text unchanged, or "" without a Name;
   * the Description text stripped and lowercased, or "" without a Description.
   */
  function InfoOf(c: Concept): ConceptInfo
  {
    ConceptInfo(c.name.GetOr(""), if c.description.Some? then Lower(Strip(c.description.value)) else "")
  }

  /** The stored label is the Name text or ""; the stored description is always trimmed and lowercase, and "" without a Description. */
  lemma InfoOfFields(c: Concept)
    ensures c.name.Some? ==> InfoOf(c).name == c.name.value
    ensures c.name.None? ==> InfoOf(c).name == ""
    ensures c.description.None? ==> InfoOf(c).description == ""
    ensures IsTrimmed(InfoOf(c).description) && NoUpper(InfoOf(c).description)
  {
    if c.description.Some? {
      LowerKeepsTrimmed(Strip(c.description.value));
    }
  }

  lemma LowerKeepsTrimmed(s: string)
    requires IsTrimmed(s)
    ensures IsTrimmed(Lower(s))
  {
  }

  /** The assignments the loop performs, in order: one per concept that has an id. */
  function IdPairs(cs: seq<Concept>): seq<(string, ConceptInfo)>
  {
    if cs == [] then []
    else
      var c := cs[|cs| - 1];
      IdPairs(cs[..|cs| - 1]) + (if c.id.Some? then [(c.id.value, InfoOf(c))] else [])
  }

  /** The concept at `i` has id `k` and info `v`, and no later concept has id `k`. */
  predicate LastConceptWith(cs: seq<Concept>, k: string, v: ConceptInfo, i: int)
  {
    0 <= i < |cs| && cs[i].id == Some(k) && InfoOf(cs[i]) == v && forall j :: i < j < |cs| ==> cs[j].id != Some(k)
  }

  /**
   * `extract_xml_content(root)`: concepts without an id are skipped; every other concept
   * assigns its info under its id, so a repeated id keeps the values of its last occurrence.
   */
  method ExtractXmlContent(cs: seq<Concept>) returns (index: seq<(string, ConceptInfo)>)
    ensures index == FromPairs(IdPairs(cs))
  {
    index := [];
    for i := 0 to |cs|
      invariant index == FromPairs(IdPairs(cs[..i]))
    {
      IdPairsStep(cs, i);
      var c := cs[i];
      if c.id.None? {
        assert IdPairs(cs[..i]) + [] == IdPairs(cs[..i]);
        continue;
      }
      FromPairsSnoc(IdPairs(cs[..i]), c.id.value, InfoOf(c));
      index := Put(index, c.id.value, InfoOf(c));
    }
    assert cs[..|cs|] == cs;
  }

  /**
   * The index `extract_xml_content` returns has distinct keys, exactly the ids that occur,
   * and under each id the info of the last concept carrying it.
   */
  lemma ExtractedIndex(cs: seq<Concept>)
    ensures DistinctKeys(FromPairs(IdPairs(cs)))
    ensures forall k :: k in Keys(FromPairs(IdPairs(cs))) <==> exists i :: 0 <= i < |cs| && cs[i].id == Some(k)
    ensures forall k, v :: Get(FromPairs(IdPairs(cs)), k) == Some(v) <==> exists i :: LastConceptWith(cs, k, v, i)
  {
    var index := FromPairs(IdPairs(cs));
    forall k ensures k in Keys(index) <==> exists i :: 0 <= i < |cs| && cs[i].id == Some(k) {
      FromPairsGet(IdPairs(cs), k);
      IdPairsHasKey(cs, k);
    }
    forall k, v ensures Get(index, k) == Some(v) <==> exists i :: LastConceptWith(cs, k, v, i) {
      FromPairsGet(IdPairs(cs), k);
      IdPairsLast(cs, k, v);
    }
  }

  lemma IdPairsStep(cs: seq<Concept>, i: nat)
    requires i < |cs|
    ensures IdPairs(cs[..i + 1]) == IdPairs(cs[..i]) + (if cs[i].id.Some? then [(cs[i].id.value, InfoOf(cs[i]))] else [])
  {
    assert cs[..i + 1][..i] == cs[..i];
  }

  lemma {:induction false} IdPairsHasKey(cs: seq<Concept>, k: string)
    ensures LastValue(IdPairs(cs), k).Some? <==> exists i :: 0 <= i < |cs| && cs[i].id == Some(k)
    decreases |cs|
  {
    if cs != [] {
      var n := |cs| - 1;
      var init := cs[..n];
      IdPairsHasKey(init, k);
      LastValueStep(cs, k);
      if exists i :: 0 <= i < n && init[i].id == Some(k) {
        var i :| 0 <= i < n && init[i].id == Some(k);
        assert cs[i] == init[i];
      }
      if exists i :: 0 <= i < n && cs[i].id == Some(k) {
        var i :| 0 <= i < n && cs[i].id == Some(k);
        assert init[i] == cs[i];
      }
    }
  }

  /** The last concept decides when it has the id; otherwise the earlier ones do. */
  lemma LastValueStep(cs: seq<Concept>, k: string)
    requires cs != []
    ensures LastValue(IdPairs(cs), k)
      == if cs[|cs| - 1].id == Some(k) then Some(InfoOf(cs[|cs| - 1])) else LastValue(IdPairs(cs[..|cs| - 1]), k)
  {
    var n := |cs| - 1;
    var init := IdPairs(cs[..n]);
    if cs[n].id.Some? {
      var ps := init + [(cs[n].id.value, InfoOf(cs[n]))];
      assert ps[..|ps| - 1] == init;
    } else {
      assert IdPairs(cs) == init + [] == init;
    }
  }

  lemma IdPairsLast(cs: seq<Concept>, k: string, v: ConceptInfo)
    ensures LastValue(IdPairs(cs), k) == Some(v) <==> exists i :: LastConceptWith(cs, k, v, i)
  {
    if LastValue(IdPairs(cs), k) == Some(v) {
      var i := IdPairsLastFound(cs, k, v);
    }
    forall i | LastConceptWith(cs, k, v, i) ensures LastValue(IdPairs(cs), k) == Some(v) {
      IdPairsLastAt(cs, k, v, i);
    }
  }

  lemma {:induction false} IdPairsLastFound(cs: seq<Concept>, k: string, v: ConceptInfo) returns (i: int)
    requires LastValue(IdPairs(cs), k) == Some(v)
    ensures LastConceptWith(cs, k, v, i)
    decreases |cs|
  {
    var n := |cs| - 1;
    var init := cs[..n];
    LastValueStep(cs, k);
    if cs[n].id == Some(k) {
      i := n;
    } else {
      i := IdPairsLastFound(init, k, v);
      assert forall j :: 0 <= j < n ==> init[j] == cs[j];
    }
  }

  lemma {:induction false} IdPairsLastAt(cs: seq<Concept>, k: string, v: ConceptInfo, i: int)
    requires LastConceptWith(cs, k, v, i)
    ensures LastValue(IdPairs(cs), k) == Some(v)
    decreases |cs|
  {
    var n := |cs| - 1;
    var init := cs[..n];
    LastValueStep(cs, k);
    if i < n {
      assert forall j :: 0 <= j < n ==> init[j] == cs[j];
      assert LastConceptWith(init, k, v, i);
      IdPairsLastAt(init, k, v, i);
    }
  }

  lemma LowerFirstWord() ensures Lower("First") == "first" {}
  lemma NoUpperRestDescription() ensures NoUpper(" concept description.") {}
  lemma LowerRestDescription() ensures Lower(" concept description.") == " concept description." {
    NoUpperRestDescription();
    LowerOfNoUpper(" concept description.");
  }

  lemma FirstDescriptionPieces()
    ensures "First concept description." == "First" + " concept description."
    ensures "first concept description." == "first" + " concept description."
  {
  }

  lemma LowerFirstDescription()
    ensures Lower("First concept description.") == "first concept description."
  {
    FirstDescriptionPieces();
    LowerConcat("First", " concept description.");
    LowerFirstWord();
    LowerRestDescription();
  }

  lemma TrimmedFirstDescription()
    ensures IsTrimmed("First concept description.")
  {
  }

  /**
   * The example of the function's documentation: one concept `C1` named "Concept One" with
   * description "First concept description." gives `{'C1': ('Concept One', 'first concept description.')}`.
   */
  method ExtractExample() returns (index: seq<(string, ConceptInfo)>)
    ensures index == [("C1", ConceptInfo("Concept One", "first concept description."))]
  {
    var c := Concept(Some("C1"), None, Some("Concept One"), Some("First concept description."), []);
    ExampleInfo(c);
    OnePair(c);
    index := ExtractXmlContent([c]);
  }

  lemma ExampleInfo(c: Concept)
    requires c == Concept(Some("C1"), None, Some("Concept One"), Some("First concept description."), [])
    ensures InfoOf(c) == ConceptInfo("Concept One", "first concept description.")
  {
    TrimmedFirstDescription();
    LowerFirstDescription();
  }

  /** A single concept with an id gives the one-entry dict of its id and info. */
  lemma OnePair(c: Concept)
    requires c.id.Some?
    ensures FromPairs(IdPairs([c])) == [(c.id.value, InfoOf(c))]
  {
    assert [c][..0] == [];
    assert IdPairs([c]) == [(c.id.value, InfoOf(c))];
    assert [(c.id.value, InfoOf(c))][..0] == [];
  }
}
