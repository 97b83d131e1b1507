# SDMX Glossary Generator: a verified model of the concept-to-Turtle core

The SDMX Glossary Generator reads the SDMX content-oriented guidelines concept scheme
(an SDMX-ML structure file) and writes the concepts as a SKOS vocabulary in Turtle. This
project models, in Dafny, the part that decides what is written for one concept:

- `extract_xml_content` builds an index from concept id to (label, description) over all
  concepts (`xml_extractor.dfy`);
- `prepair_concepts` produces the intrinsic lines of a concept: type, `rdfs:label`,
  `skos:definition`, notation, scheme, the two `skos:note` annotations and the
  `rdfs:comment` context. It also produces the text lines kept for the glossary, and it
  appends (codelist id, concept id) links to the caller's list (`logic_prepair.dfy`);
- `process_concepts` takes each `;`-separated entry of the RELATED_TERMS annotations and
  resolves it to a concept through the label index. It then writes a `skos:broader`,
  `skos:narrower` or `skos:related` line, deciding from:
  - the BROADER_FIXES override table,
  - the "Accuracy - overall" label rule,
  - the descriptions.

  It also counts the broader lines. Last, it aligns the concept with every concept of the
  old SDMX model graph: a `skos:exactMatch` line, a `skos:closeMatch` line or nothing
  (`logic_triplets.dfy`);
- the text helpers `format_literal`, `split_by_separator`, `find_first_difference`,
  `normalize_text`, `normalize_label` and `transform_concept_id` (`logic_function.dfy`);
- the two correction tables LABEL_FIXES and BROADER_FIXES (`logic_templates.dfy`).

Supporting modules:
- `str_builtins.dfy` models the Python string operations the code relies on: `lower`,
  `upper`, `strip`, `find`, `in`, `split(";")`, `split()` and `" ".join`;
- `ordered_dict.dfy` models a Python `dict` as its items in insertion order. This matters
  here: the override scan stops early, and the label index is built last-writer-wins in
  iteration order;
- `concept_xml.dfy` models the concept element as a value: id, urn, the Name and
  Description texts, and annotations (type and texts). The ElementTree lookups become
  functions on it;
- `wrappers.dfy` holds `Option`.

Each imperative loop of the source is a Dafny `method` with a loop, proved against a
specification function:
- `ExtractXmlContent`;
- the override scan `ScanOverrides`;
- the "X - y" scan `SplitMatchScan`;
- the nested classification loops `ClassifyTerms` and `ClassifyLabels`;
- the old-model loop `AlignWithOldModel`;
- `FindFirstDifference`.

The caller's `codelist_associations` list, which `prepair_concepts` extends in place, is
the class `CodelistAssociations`. The lemmas then state what the source promises of those
functions. Examples:
- the dict lookups find the last assignment;
- the override scan is a table lookup;
- no line targets the concept itself;
- with `narrow_include` false no narrower line appears;
- `num_broader` counts the broader lines of the output;
- normalization is idempotent;
- `format_literal` can be read back.

Where a docstring example and the code disagree, the model follows the code:
- `normalize_text("Hello, World! 123")` is `"hello world 123"`: digits are word
  characters;
- `transform_concept_id("ConceptID")` is `"CONCEPT_I_D"`: every capital after the first
  character gets an underscore;
- `find_first_difference("quality", "quantity")` is `(3, "l", "n")`;
- `extract_xml_content`'s example gives `{'C1': ('Concept One', 'first concept description.')}`,
  as documented.

## Model

| member | source | states |
|---|---|---|
| StrBuiltins.Lower | src/sdmxglossgen/logic_function.py:122 | `str.lower` on ASCII: same length, each character lowered, no capital left, word and space characters keep their class |
| StrBuiltins.Upper | src/sdmxglossgen/logic_function.py:166 | `str.upper` on ASCII: same length, each character raised, `_` stays `_` |
| StrBuiltins.LowerConcat | src/sdmxglossgen/logic_function.py:144 | lowering distributes over concatenation |
| StrBuiltins.LowerOfNoUpper | src/sdmxglossgen/logic_function.py:144 | a string without capitals is its own lowercase |
| StrBuiltins.TrimLeft | src/sdmxglossgen/logic_function.py:32 | the result is a suffix, only whitespace was removed, and it does not start with whitespace |
| StrBuiltins.TrimRight | src/sdmxglossgen/logic_function.py:32 | the result is a prefix, only whitespace was removed, and it does not end with whitespace |
| StrBuiltins.Strip | src/sdmxglossgen/logic_function.py:32 | `str.strip`: the result is trimmed, a trimmed string is unchanged, and the result is a contiguous slice of the input with only whitespace cut at either end |
| StrBuiltins.NoUpperOfStrip | src/sdmxglossgen/logic_function.py:144 | stripping a string without capitals leaves none |
| StrBuiltins.IsInfixIff | src/sdmxglossgen/logic_triplets.py:144-145 | Python's substring `in` holds exactly when the needle occurs at some position |
| StrBuiltins.EmptyIsInfix | src/sdmxglossgen/logic_triplets.py:145 | `"" in s` is always true |
| StrBuiltins.FindFrom | src/sdmxglossgen/logic_function.py:62 | `str.find`: -1 exactly when there is no occurrence from `i` on; otherwise the first occurrence |
| StrBuiltins.SplitOn | src/sdmxglossgen/logic_triplets.py:97 | `str.split(d)` gives at least one piece, and no piece contains `d` |
| StrBuiltins.JoinSplitOn | src/sdmxglossgen/logic_triplets.py:97 | joining the pieces of `split(d)` with `d` gives back the input |
| StrBuiltins.SplitOnJoin | src/sdmxglossgen/logic_triplets.py:97 | splitting a `d`-join of `d`-free pieces gives back the pieces |
| StrBuiltins.SplitOnFree | src/sdmxglossgen/logic_triplets.py:169 | a string without `d` splits into itself alone |
| StrBuiltins.WordLen | src/sdmxglossgen/logic_function.py:123 | the length of the leading run of non-whitespace |
| StrBuiltins.Words | src/sdmxglossgen/logic_function.py:123 | `str.split()` never yields an empty word |
| StrBuiltins.WordsChars | src/sdmxglossgen/logic_function.py:123 | the words of `split()` hold no whitespace, and only characters of the input |
| StrBuiltins.WordLenOfWord | src/sdmxglossgen/logic_function.py:123 | a word followed by nothing or by whitespace is one leading run |
| StrBuiltins.WordsOfJoin | src/sdmxglossgen/logic_function.py:123 | `" ".join` of non-empty, space-free words splits back into the same words |
| OrderedDict.Get | src/sdmxglossgen/logic_triplets.py:99-100 | `d.get(k)` finds a value exactly when `k` is a key, and that value is stored under `k` |
| OrderedDict.GetAt | src/sdmxglossgen/logic_triplets.py:112 | with distinct keys, the lookup of the key at a position gives the value at that position |
| OrderedDict.Put | src/sdmxglossgen/xml_extractor.py:59 | `d[k] = v`: an existing key keeps its position and takes the new value, and everything else is unchanged; a new key is appended at the end |
| OrderedDict.PutKeys | src/sdmxglossgen/xml_extractor.py:59 | assignment keeps the keys distinct and adds `k` to the key set |
| OrderedDict.PutGet | src/sdmxglossgen/xml_extractor.py:59 | after `d[k] = v`, `d[k]` is `v`, and every other lookup is unchanged |
| OrderedDict.FromPairs | src/sdmxglossgen/logic_triplets.py:91-92 | the dict built by a sequence of assignments (a dict comprehension) has distinct keys |
| OrderedDict.FromPairsSnoc | src/sdmxglossgen/xml_extractor.py:59 | one more assignment is one more `d[k] = v` |
| OrderedDict.FromPairsGet | src/sdmxglossgen/logic_triplets.py:91 | a lookup in the built dict finds the value assigned last to that key |
| OrderedDict.LastValueIff | src/sdmxglossgen/logic_triplets.py:91 | the last value of `k` is `v` exactly when `(k, v)` is assigned at some position and `k` is not assigned again after it |
| OrderedDict.FromPairsKeys | src/sdmxglossgen/xml_extractor.py:59 | the keys of the built dict are exactly the keys assigned |
| OrderedDict.KeysSnoc | src/sdmxglossgen/xml_extractor.py:59 | one more pair adds exactly its key |
| OrderedDict.LastValueSnoc | src/sdmxglossgen/logic_triplets.py:92 | one more assignment decides the last value of its own key and leaves the other keys alone |
| OrderedDict.LastValueAbsent | src/sdmxglossgen/logic_triplets.py:112 | a key never assigned has no value |
| OrderedDict.LastValueIsGet | src/sdmxglossgen/logic_triplets.py:92 | with distinct keys, the last assignment of a key is what a lookup finds |
| ConceptXml.IdText | src/sdmxglossgen/logic_prepair.py:73-74 | a present attribute is written as its own value in the f-strings |
| ConceptXml.FirstAnnotationText | src/sdmxglossgen/logic_prepair.py:62-71 | `find` on the annotation path yields a text exactly when some annotation of that type has a text child, and the text is the first text of the first such annotation in document order |
| ConceptXml.AnnotationTextsMembers | src/sdmxglossgen/logic_prepair.py:98-100 | a text is among the `findall` results exactly when it is a text of an annotation of that type |
| ConceptXml.AnnotationTextsConcat | src/sdmxglossgen/logic_prepair.py:98-100 | `findall` keeps document order: concatenated annotations give concatenated results |
| LogicTemplates.GetLabelFixes | src/sdmxglossgen/logic_templates.py:57-77 | the returned table maps "timelinesst" to "timeliness", the docstring's example |
| LogicTemplates.GetBroaderFixes | src/sdmxglossgen/logic_templates.py:79-99 | the returned table has 24 entries, and "DSD" maps to "DATA_SET" |
| LogicTemplates.CanonicalConcat | src/sdmxglossgen/logic_templates.py:8-25 | two lowercase pieces, the first starting and the second ending in a non-space, make a stripped lowercase label |
| LogicTemplates.LabelFixKeysCanonical | src/sdmxglossgen/logic_templates.py:8-25 | every LABEL_FIXES key is stripped and lowercase, so `normalize_label` can reach it |
| LogicTemplates.LabelFixValuesCanonical | src/sdmxglossgen/logic_templates.py:8-25 | every LABEL_FIXES value is stripped and lowercase |
| LogicTemplates.LabelFixValuesNotKeys | src/sdmxglossgen/logic_templates.py:8-25 | no corrected label is itself corrected again: no value is a key |
| LogicTemplates.BroaderFixesDistinctKeys | src/sdmxglossgen/logic_templates.py:28-55 | the 24 keys of BROADER_FIXES are pairwise distinct, so the literal loses no entry |
| LogicTemplates.BroaderFixesNoSelfParent | src/sdmxglossgen/logic_templates.py:28-55 | no concept is declared broader than itself |
| LogicTemplates.BroaderFixesEmptiesLast | src/sdmxglossgen/logic_templates.py:28-55 | every empty value comes after every non-empty one, so the early `break` of the scan skips no pair |
| LogicFunction.RenderShape | src/sdmxglossgen/logic_function.py:33-35 | a rendered literal starts with the indented predicate and ends with `@en`, and it opens with triple quotes exactly when the value holds a `"` |
| LogicFunction.FormatLiteral | src/sdmxglossgen/logic_function.py:32-35 | `format_literal`: the four-space-indented predicate comes first, `@en` ends the line, and triple quotes are used exactly when the stripped value contains `"` |
| LogicFunction.ReadBackRender | src/sdmxglossgen/logic_function.py:33-35 | the value can be read back from both the single- and the triple-quoted form |
| LogicFunction.FormatLiteralRoundTrip | src/sdmxglossgen/logic_function.py:32-35 | reading the literal back gives the stripped value |
| LogicFunction.SplitBySeparator | src/sdmxglossgen/logic_function.py:61-66 | position -1 with two empty parts exactly when " - " does not occur; otherwise the first occurrence, with its left part before it and both parts joined by " - " giving the input |
| LogicFunction.SplitAtFirst | src/sdmxglossgen/logic_function.py:62-65 | at a first occurrence `p` the result is `(p, s[:p], s[p+3:])` |
| LogicFunction.SplitBySeparatorExample | src/sdmxglossgen/logic_function.py:55-56 | "concept - definition" gives (7, "concept", "definition") |
| LogicFunction.SplitWithoutDash | src/sdmxglossgen/logic_function.py:66 | a string without `-` gives (-1, "", "") |
| LogicFunction.SplitBySeparatorNoneExample | src/sdmxglossgen/logic_function.py:58-59 | "no separator here" gives (-1, "", "") |
| LogicFunction.FindFirstDifference | src/sdmxglossgen/logic_function.py:94-100 | -1 and two empty strings exactly when the strings are equal; otherwise the strings agree before the index. Inside both strings the two differing characters are returned; at the end of the shorter string the lengths differ and the two remainders are returned |
| LogicFunction.QualityQuantityDifference | src/sdmxglossgen/logic_function.py:88-89 | "quality" and "quantity" first differ at index 3, with "l" and "n" |
| LogicFunction.SameDifference | src/sdmxglossgen/logic_function.py:91-92 | equal strings give (-1, "", "") |
| LogicFunction.DropPunctuation | src/sdmxglossgen/logic_function.py:121 | `re.sub(r'[^\w\s]', '')`: only word and whitespace characters remain, and a string made only of them is unchanged |
| LogicFunction.DropPunctuationConcat | src/sdmxglossgen/logic_function.py:121 | the substitution works character by character: it distributes over concatenation |
| LogicFunction.NormalizeText | src/sdmxglossgen/logic_function.py:121-123 | the result is normal text: lowercase word characters and single spaces, no leading or trailing space |
| LogicFunction.NormalJoin | src/sdmxglossgen/logic_function.py:123 | joining non-empty lowercase words with single spaces gives normal text |
| LogicFunction.JoinWordsOfNormal | src/sdmxglossgen/logic_function.py:123 | normal text is its own `" ".join(s.split())` |
| LogicFunction.NormalTextFixed | src/sdmxglossgen/logic_function.py:121-123 | `normalize_text` leaves normal text unchanged |
| LogicFunction.NormalizeTextIdempotent | src/sdmxglossgen/logic_function.py:121-123 | normalizing twice is normalizing once |
| LogicFunction.NormalizeWord | src/sdmxglossgen/logic_function.py:121-123 | a single alphanumeric word normalizes to its lowercase |
| LogicFunction.NormalizeTextExample | src/sdmxglossgen/logic_function.py:118-119 | "Hello, World! 123" gives "hello world 123" (the docstring shows "hello world") |
| LogicFunction.NormalizeLabel | src/sdmxglossgen/logic_function.py:144-145 | the result is stripped and lowercase |
| LogicFunction.NormalizeLabelNotFixKey | src/sdmxglossgen/logic_function.py:144-145 | the result is never a key of LABEL_FIXES: a fixed label is final |
| LogicFunction.NormalizeLabelFixes | src/sdmxglossgen/logic_function.py:145 | a lowered, stripped label found in LABEL_FIXES becomes its correction |
| LogicFunction.NormalizeLabelKeeps | src/sdmxglossgen/logic_function.py:145 | a label whose lowered, stripped form is no LABEL_FIXES key normalizes to that form |
| LogicFunction.NormalizeLabelIdempotent | src/sdmxglossgen/logic_function.py:144-145 | normalizing a label twice is normalizing it once |
| LogicFunction.NormalizeLabelExample | src/sdmxglossgen/logic_function.py:141-142 | "timelinesst" gives "timeliness" |
| LogicFunction.MarkCapitals | src/sdmxglossgen/logic_function.py:166 | the substitution adds one underscore per capital, not counting the first character |
| LogicFunction.TransformConceptId | src/sdmxglossgen/logic_function.py:166-167 | the length grows by the number of capitals after the first character, no lowercase letter remains, and the first character is the input's, upper-cased |
| LogicFunction.MarkCapitalsPositions | src/sdmxglossgen/logic_function.py:166 | every character keeps its order in the marked string, and exactly the capitals are preceded by `_` |
| LogicFunction.TransformPlainId | src/sdmxglossgen/logic_function.py:166-167 | an id without capitals after its first character is simply upper-cased |
| LogicFunction.PlainMarks | src/sdmxglossgen/logic_function.py:166 | a string without capitals gains no underscore |
| LogicFunction.MarkCapitalsConcat | src/sdmxglossgen/logic_function.py:166 | away from the start of the string, the substitution distributes over concatenation |
| LogicFunction.MarkCapitalsFirst | src/sdmxglossgen/logic_function.py:166 | the lookbehind `(?<!^)` leaves the first character unmarked |
| LogicFunction.TransformConceptIdExample | src/sdmxglossgen/logic_function.py:163-164 | "ConceptID" gives "CONCEPT_I_D" (the docstring shows "CONCEPT_ID") |
| XmlExtractor.InfoOfFields | src/sdmxglossgen/xml_extractor.py:53-57 | the stored label is the Name text, or "" without a Name; the stored description is stripped and lowercase, and "" without a Description |
| XmlExtractor.InfoOf | src/sdmxglossgen/xml_extractor.py:53-59 | the pair stored for one concept element: the Name text or "" without a Name, and the Description text stripped and lowercased, or "" without a Description |
| XmlExtractor.IdPairs | src/sdmxglossgen/xml_extractor.py:48-59 | the assignments `concepts[concept_id] = …` in document order, one per concept element that has an id; elements without an id are skipped |
| XmlExtractor.LowerKeepsTrimmed | src/sdmxglossgen/xml_extractor.py:57 | lowering a stripped string keeps it stripped |
| XmlExtractor.ExtractXmlContent | src/sdmxglossgen/xml_extractor.py:47-61 | the loop returns the dict built by assigning, in document order, each concept's info under its id, skipping concepts without an id |
| XmlExtractor.ExtractedIndex | src/sdmxglossgen/xml_extractor.py:47-61 | that dict has distinct keys; its keys are exactly the ids that occur; each id maps to the info of its last occurrence, and conversely |
| XmlExtractor.IdPairsHasKey | src/sdmxglossgen/xml_extractor.py:49-51 | a key is assigned exactly when some concept carries that id: concepts without an id are skipped |
| XmlExtractor.IdPairsLast | src/sdmxglossgen/xml_extractor.py:59 | the last value assigned to an id is the info of the last concept with that id, and conversely |
| XmlExtractor.ExtractExample | src/sdmxglossgen/xml_extractor.py:31-45 | the docstring example gives `{'C1': ('Concept One', 'first concept description.')}` |
| XmlExtractor.OnePair | src/sdmxglossgen/xml_extractor.py:47-61 | one concept with an id gives the one-entry dict of its id and info |
| LogicPrepair.ConceptUriInjective | src/sdmxglossgen/logic_triplets.py:101 | two concept CURIEs are equal exactly when the ids are |
| LogicPrepair.CodelistAssociations.constructor | src/sdmxglossgen/logic_prepair.py:92 | a new association list is empty |
| LogicPrepair.CodelistAssociations.Append | src/sdmxglossgen/logic_prepair.py:92 | `append` adds the pair at the end, and nothing else changes |
| LogicPrepair.PrepairConcepts | src/sdmxglossgen/logic_prepair.py:57-102 | the intrinsic triples in order, the text lines, the RELATED_TERMS texts, and the caller's list extended by exactly the codelist link, if any |
| LogicPrepair.IntrinsicTriples | src/sdmxglossgen/logic_prepair.py:73-96 | the `triples` list: the type line, the label and definition lines when the texts are non-empty, the notation and scheme lines, then the representation, codelist and context notes when their texts are non-empty |
| LogicPrepair.IntrinsicTexts | src/sdmxglossgen/logic_prepair.py:74-96 | the `texts` list: the id as text, then the label, definition and context lines, each under the same test as in `triples` |
| LogicPrepair.DescribedLines | src/sdmxglossgen/logic_prepair.py:73-82 | the type line, then the label and definition lines if their texts are non-empty; the texts start with the id |
| LogicPrepair.PredNameInjective | src/sdmxglossgen/logic_prepair.py:73-96 | distinct predicates have distinct names, so a line's predicate is unambiguous |
| LogicPrepair.PredNameHasNoSpace | src/sdmxglossgen/logic_prepair.py:73-96 | no predicate name contains a space |
| LogicPrepair.HeadPredicate | src/sdmxglossgen/logic_triplets.py:149-161 | a line made of one predicate's head carries that predicate and no other |
| LogicPrepair.LiteralPredicate | src/sdmxglossgen/logic_prepair.py:77-95 | a `format_literal` line carries its own predicate and no other |
| LogicPrepair.CountPredicateConcat | src/sdmxglossgen/logic_prepair.py:73-96 | line counts per predicate add up over concatenation |
| LogicPrepair.FixedLinePredicates | src/sdmxglossgen/logic_prepair.py:73-85 | the type line carries no predicate; the notation and scheme lines carry theirs |
| LogicPrepair.CountFor | src/sdmxglossgen/logic_prepair.py:73-96 | the number of lines of each predicate in the triples: one label and one definition line when those texts are non-empty; one notation and one scheme line; a note per non-empty representation or codelist annotation; a comment for a non-empty context when context is wanted |
| LogicPrepair.PrepairPredicateCounts | src/sdmxglossgen/logic_prepair.py:73-96 | at most one label, one definition and one comment line, and exactly one notation and one scheme line |
| LogicPrepair.TextLinesConcat | src/sdmxglossgen/logic_prepair.py:74-96 | selecting text lines distributes over concatenation |
| LogicPrepair.TextLinesOptional | src/sdmxglossgen/logic_prepair.py:77-95 | an optional literal line is a text line exactly when it is a label, definition or comment |
| LogicPrepair.PrepairTextsAreTextLines | src/sdmxglossgen/logic_prepair.py:74-96 | the texts are the id, then exactly the label, definition and comment lines of the triples, in the same order |
| LogicPrepair.PrepairLayout | src/sdmxglossgen/logic_prepair.py:73-96 | the position of each line: type first, then label and definition, then notation and scheme, then the notes and the comment |
| LogicPrepair.CodelistPairsIff | src/sdmxglossgen/logic_prepair.py:90-92 | at most one link; a link is recorded exactly when the first CODELIST_ID text is non-empty, and then it is that text stripped, paired with the concept id |
| LogicTriplets.RenderAll | src/sdmxglossgen/logic_triplets.py:148-161 | one line per relation |
| LogicTriplets.RenderAllConcat | src/sdmxglossgen/logic_triplets.py:148-161 | rendering distributes over concatenation |
| LogicTriplets.CountKindConcat | src/sdmxglossgen/logic_triplets.py:150-157 | relation counts add up over concatenation |
| LogicTriplets.RenderAllCount | src/sdmxglossgen/logic_triplets.py:148-161 | the rendered lines carrying a predicate are as many as the relations of that kind |
| LogicTriplets.LabelPairs | src/sdmxglossgen/logic_triplets.py:91 | one assignment per stored concept: its stripped, lowered label to its id |
| LogicTriplets.LabelIndex | src/sdmxglossgen/logic_triplets.py:91 | `concept_labels`: the dictionary comprehension over `concepts`, keyed by the stripped and lowercased label, later entries overwriting earlier ones |
| LogicTriplets.LabelIndexGet | src/sdmxglossgen/logic_triplets.py:91 | a label key resolves to an id exactly when that id is the last concept carrying the key: later concepts win |
| LogicTriplets.LabelAssignmentAt | src/sdmxglossgen/logic_triplets.py:91 | a last assignment in the comprehension is a last concept with that label, and conversely |
| LogicTriplets.DescriptionPairsAbsent | src/sdmxglossgen/logic_triplets.py:92 | an id not stored has no description |
| LogicTriplets.DescriptionPairsLast | src/sdmxglossgen/logic_triplets.py:92 | over distinct ids, the description found is the stored one, with an empty description counting as absent |
| LogicTriplets.RelatedDescriptionOf | src/sdmxglossgen/logic_triplets.py:111-112 | `concept_descriptions.get(id, "")` is the target's stored description, or "" for an unknown target |
| LogicTriplets.ScanOverrides | src/sdmxglossgen/logic_triplets.py:122-129 | the scan succeeds exactly when the pair `(id, target)` occurs before any empty value |
| LogicTriplets.OverrideFoundIsLookup | src/sdmxglossgen/logic_triplets.py:124-129 | over distinct keys with the empty values last, the scan is exactly a lookup of a non-empty value |
| LogicTriplets.BroaderFixesScanIsLookup | src/sdmxglossgen/logic_triplets.py:120-129 | for the shipped table, the scan is exactly `get_broader_fixes().get(id) == target` with a non-empty target |
| LogicTriplets.SplitMatchScan | src/sdmxglossgen/logic_triplets.py:132-140 | the scan succeeds exactly when the name has " - " after position 0 and some stored concept has the normalized left part as its label and the target's CURIE |
| LogicTriplets.SplitMatchTarget | src/sdmxglossgen/logic_triplets.py:133-140 | over distinct ids, the rule compares the normalized left part with the target's own stored label |
| LogicTriplets.OverrideFound | src/sdmxglossgen/logic_triplets.py:124-129 | the BROADER_FIXES scan succeeds: the pair (concept id, related id) occurs with a non-empty value before the first empty value |
| LogicTriplets.NormalizedRelatedDescription | src/sdmxglossgen/logic_triplets.py:111-112 | `normalized_related_description`: the normalized stored description of the related concept, or "" when the concept itself has no Description element |
| LogicTriplets.BroaderCondition | src/sdmxglossgen/logic_triplets.py:115-144 | `broader_condition` after lines 115-144: with a BROADER_FIXES entry for the concept, only the scan decides; otherwise the separator-label match or the normalized label inside the normalized description |
| LogicTriplets.NarrowerCondition | src/sdmxglossgen/logic_triplets.py:145 | `narrower_condition`: the normalized concept label occurs inside the normalized related description |
| LogicTriplets.Outcome | src/sdmxglossgen/logic_triplets.py:148-161 | the lines appended for one resolved label: broader (then narrower as well when both hold and narrower lines are wanted), else narrower when wanted, else related |
| LogicTriplets.TokenRelations | src/sdmxglossgen/logic_triplets.py:99-163 | one related label: nothing when it is unknown or names the concept itself, otherwise the outcome of the two conditions |
| LogicTriplets.TokensRelations | src/sdmxglossgen/logic_triplets.py:98-163 | the inner loop over the labels of one RELATED_TERMS text, in order |
| LogicTriplets.ClassifyAll | src/sdmxglossgen/logic_triplets.py:96-163 | the outer loop over the RELATED_TERMS texts, in order |
| LogicTriplets.RelatedLabels | src/sdmxglossgen/logic_triplets.py:97 | one label per `;`-separated piece |
| LogicTriplets.RelatedLabelsCanonical | src/sdmxglossgen/logic_triplets.py:97 | label `i` is `normalize_label` of the stripped `i`-th `;`-piece; each label is stripped and lowercase, and never a LABEL_FIXES key |
| LogicTriplets.TokenRelationsCount | src/sdmxglossgen/logic_triplets.py:99-163 | unknown or self-referencing labels add no line. A label adds two lines exactly when both conditions hold and narrower lines are wanted; never more than two |
| LogicTriplets.TokenRelationsPair | src/sdmxglossgen/logic_triplets.py:148-152 | when two lines are written, broader comes first and narrower second, to the same target |
| LogicTriplets.TokenRelationsTargets | src/sdmxglossgen/logic_triplets.py:99-106 | every line is broader, narrower or related, and targets the concept the label resolves to, which is never the concept itself |
| LogicTriplets.OutcomeTargets | src/sdmxglossgen/logic_triplets.py:148-161 | the appended relations are all to the resolved target |
| LogicTriplets.TokenNoNarrower | src/sdmxglossgen/logic_triplets.py:151-161 | without `narrow_include` no narrower line is written; without the broader condition the line is `skos:related` |
| LogicTriplets.TokensRelationsProps | src/sdmxglossgen/logic_triplets.py:98-163 | over all labels of a text: no self reference, only the three hierarchy predicates, no narrower without `narrow_include` |
| LogicTriplets.ClassifyAllProps | src/sdmxglossgen/logic_triplets.py:96-163 | the same over all RELATED_TERMS texts |
| LogicTriplets.DsdDataSetIsBroader | src/sdmxglossgen/logic_triplets.py:122-129 | the concept DSD is broader than DATA_SET, whatever the labels and descriptions say |
| LogicTriplets.DsdOtherNotBroader | src/sdmxglossgen/logic_triplets.py:122-144 | DSD is broader than no other target: the override disables the other two rules |
| LogicTriplets.EmptyOverrideNotBroader | src/sdmxglossgen/logic_triplets.py:122-129 | a concept whose override value is empty is broader than nothing |
| LogicTriplets.DataflowOverrideIsEmpty | src/sdmxglossgen/logic_templates.py:28-55 | DATAFLOW is such a concept |
| LogicTriplets.NoOverrideBroader | src/sdmxglossgen/logic_triplets.py:132-144 | without an override, broader holds exactly when the split rule matches the target's label or the label occurs in the concept's normalized description |
| LogicTriplets.DecideBroader | src/sdmxglossgen/logic_triplets.py:110-144 | the flags computed step by step give the broader condition |
| LogicTriplets.AppendOutcome | src/sdmxglossgen/logic_triplets.py:147-161 | the lines appended for a target and how many of them are broader |
| LogicTriplets.ClassifyToken | src/sdmxglossgen/logic_triplets.py:99-163 | the lines and the broader count of one label |
| LogicTriplets.TokensAccumulate | src/sdmxglossgen/logic_triplets.py:98-163 | the lines and the count of one more label extend those before it |
| LogicTriplets.ClassifyAccumulate | src/sdmxglossgen/logic_triplets.py:96-163 | the lines and the count of one more RELATED_TERMS text extend those before it |
| LogicTriplets.ClassifyLabels | src/sdmxglossgen/logic_triplets.py:98-163 | the inner loop's lines and broader count are those of the labels in order |
| LogicTriplets.ClassifyTerms | src/sdmxglossgen/logic_triplets.py:96-163 | the outer loop's lines and broader count are those of the texts in order |
| LogicTriplets.ClassifyRelatedTerms | src/sdmxglossgen/logic_triplets.py:86-163 | with the indexes and normalized texts built first, the lines and `num_broader` of the classification |
| LogicTriplets.OldConceptId | src/sdmxglossgen/logic_triplets.py:169 | `split("#")[-1]` contains no `#` |
| LogicTriplets.OldConceptIdPlain | src/sdmxglossgen/logic_triplets.py:169 | a URI without `#` is its own id |
| LogicTriplets.LabelsMatch | src/sdmxglossgen/logic_triplets.py:173 | `labels_match`: the normalized old label equals the normalized Name text |
| LogicTriplets.DefinitionsMatch | src/sdmxglossgen/logic_triplets.py:174 | `definitions_match`: a non-empty old definition, a Description element, and equal normalized texts |
| LogicTriplets.IdMatches | src/sdmxglossgen/logic_triplets.py:170-175 | `concept_id_match`: the transformed old id equals the concept id |
| LogicTriplets.DescriptionWithin | src/sdmxglossgen/logic_triplets.py:187 | the substring test of line 187 without its truthiness guard: the lowered Description text occurs in the lowered non-empty old definition |
| LogicTriplets.AlignDecision | src/sdmxglossgen/logic_triplets.py:172-188 | the decision for one old concept, given the truth value of `concept_description` in line 187: nothing unless the old label is non-empty and the Name is there, then the branch of lines 185-188 |
| LogicTriplets.AlignRelationsAsWritten | src/sdmxglossgen/logic_triplets.py:172-188 | the decision as written: `concept_description` is true only for a Description element with child elements |
| LogicTriplets.AlignRelations | src/sdmxglossgen/logic_triplets.py:172-188 | the decision with the intended test: the description test applies when the Description text is non-empty |
| LogicTriplets.AsWrittenAgrees | src/sdmxglossgen/logic_triplets.py:187 | the two decisions agree for a Description with text and child elements; without child elements they differ only where the description test alone gives a close match, which the code as written drops |
| LogicTriplets.AlignAll | src/sdmxglossgen/logic_triplets.py:166-188 | the loop over the old concepts, in the given order, using the intended test |
| LogicTriplets.AlignChoiceShape | src/sdmxglossgen/logic_triplets.py:185-188 | at most one line, to the old id; an exact match exactly when the ids match and the labels or the definitions match; no line exactly when the labels do not match, the description test fails, and ids-with-definitions does not hold |
| LogicTriplets.AlignRelationsShape | src/sdmxglossgen/logic_triplets.py:172-188 | only a labelled old concept and a named concept give a line; at most one line, an exact or close match to the old id; an exact match exactly when, for such a pair, the ids correspond and the labels or the definitions match |
| LogicTriplets.AlignLabelsMatch | src/sdmxglossgen/logic_triplets.py:185-188 | matching labels always give a line: exact when the ids correspond, close otherwise |
| LogicTriplets.AlignDescriptionWithin | src/sdmxglossgen/logic_triplets.py:187-188 | a description found in the old definition gives a close match when the ids differ |
| LogicTriplets.AsWrittenDescriptionTestDead | src/sdmxglossgen/logic_triplets.py:187 | as written, a Description element without children never fires the description test: a close match needs matching labels |
| LogicTriplets.AlignAllConcat | src/sdmxglossgen/logic_triplets.py:166-188 | old concepts are processed independently: the relations of a concatenation are the concatenated relations |
| LogicTriplets.AlignAllShape | src/sdmxglossgen/logic_triplets.py:166-188 | at most one line per old concept, each an exact or close match |
| LogicTriplets.AlignOne | src/sdmxglossgen/logic_triplets.py:167-188 | the lines of one old concept, rendered from the decision with the intended test of line 187 |
| LogicTriplets.AlignLines | src/sdmxglossgen/logic_triplets.py:185-188 | the branch taken once the four tests are decided |
| LogicTriplets.AlignWithOldModel | src/sdmxglossgen/logic_triplets.py:166-188 | the loop's lines are those of the old concepts in order, each decided with the intended test of line 187 |
| LogicTriplets.ProcessedTriples | src/sdmxglossgen/logic_triplets.py:83-190 | the triples `process_concepts` returns: the `prepair_concepts` lines, the classification lines, then the alignment lines |
| LogicTriplets.ProcessConcepts | src/sdmxglossgen/logic_triplets.py:83-190 | the returned triples are the intrinsic lines, then the classification, then the alignment with the intended test of line 187. The texts are those of `prepair_concepts`; the caller's list gains exactly the codelist link; `num_broader` counts the broader relations |
| LogicTriplets.CountKindNone | src/sdmxglossgen/logic_triplets.py:150-157 | relations none of which has a kind count zero of it |
| LogicTriplets.ProcessedStartsWithIntrinsic | src/sdmxglossgen/logic_triplets.py:83 | the returned list starts with exactly the lines of `prepair_concepts` |
| LogicTriplets.ProcessedCount | src/sdmxglossgen/logic_triplets.py:83-190 | the per-predicate count of the whole output is the sum of the intrinsic, classification and alignment counts |
| LogicTriplets.ProcessedBroaderCount | src/sdmxglossgen/logic_triplets.py:94-190 | `num_broader` equals the number of `skos:broader` lines in the returned triples |
| LogicTriplets.ProcessedNoNarrower | src/sdmxglossgen/logic_triplets.py:151-161 | with `narrow_include` false the returned triples hold no `skos:narrower` line |
| LogicTriplets.FindingLabelsDiffer | src/sdmxglossgen/logic_triplets.py:173 | the labels "a" and "b" do not match |
| LogicTriplets.FindingDescriptionWithin | src/sdmxglossgen/logic_triplets.py:187 | "b" occurs in "ab" |
| LogicTriplets.AsWrittenMissesDescriptionMatch | src/sdmxglossgen/logic_triplets.py:187 | for the concept "b"/"b" and the old concept "a"/"ab": no line as written, and a close match as intended |
| LogicTriplets.OnlyDescriptionTest | src/sdmxglossgen/logic_triplets.py:185-188 | without matching ids or labels, only the description test can give a line, a close match |
| LogicTriplets.FirstOfTwoResolves | src/sdmxglossgen/logic_triplets.py:91 | of two stored concepts with different label keys, the first is found under its own key |
| LogicTriplets.AccuracyResolves | src/sdmxglossgen/logic_triplets.py:99-100 | "accuracy" resolves to ACCURACY |
| LogicTriplets.AccuracyOverallNoOverride | src/sdmxglossgen/logic_triplets.py:122 | ACCURACY_OVERALL has no override |
| LogicTriplets.AccuracyOverallSplit | src/sdmxglossgen/logic_triplets.py:133 | "Accuracy - overall" splits into (8, "Accuracy", "overall") |
| LogicTriplets.AccuracyOverallSplitMatch | src/sdmxglossgen/logic_triplets.py:132-140 | the split rule matches ACCURACY |
| LogicTriplets.AccuracyOverallToken | src/sdmxglossgen/logic_triplets.py:99-161 | the label "accuracy" of "Accuracy - overall" gives one broader line to ACCURACY |
| LogicTriplets.ShortLabelLowers | src/sdmxglossgen/logic_function.py:144-145 | a stripped label shorter than every key normalizes to its lowercase |
| LogicTriplets.PlainTextOneLabel | src/sdmxglossgen/logic_triplets.py:97 | a text without `;` gives one label |
| LogicTriplets.PlainTextLabel | src/sdmxglossgen/logic_triplets.py:97 | and it is the normalized stripped text |
| LogicTriplets.AccuracyRelatedLabels | src/sdmxglossgen/logic_triplets.py:97 | the RELATED_TERMS text "Accuracy" gives the one label "accuracy" |
| LogicTriplets.OneTermOneLabel | src/sdmxglossgen/logic_triplets.py:96-163 | a single text with a single label gives that label's relations |
| LogicTriplets.AccuracyOverallIsBroader | src/sdmxglossgen/logic_triplets.py:96-163 | the concept "Accuracy - overall" with RELATED_TERMS "Accuracy" gets `skos:broader` ACCURACY and nothing else |

## Left out

- Reading and writing files, the command line, rdflib graph parsing and the HTTP download
  are not modelled. The old graph is the list of its `skos:Concept` subjects with their
  label and comment, in the order rdflib might yield them. No particular order is assumed
  beyond "the given sequence".
- The `print` diagnostics are not modelled: the warnings at lines 105 and 163, the
  both-relations diagnostic at lines 153-154, and the debugging block for the id
  `ID_FOR_DEBUG` at lines 179-183, which prints `find_first_difference` and changes
  nothing.
- The `namespaces` parameter is not modelled. An element is found by its local name, and
  the namespace prefixes are taken as given.
- Character classes are ASCII: Python's Unicode-aware `\w`, `\s`, `lower`, `upper` and
  `strip` are modelled on ASCII letters, digits and `_`. Whitespace is space, `\t`
  through `\r`, and `\x1c` through `\x1f`, the ASCII whitespace of `str.isspace`.
- A Name or Description element that is present but has no text (`.text is None`) is
  modelled as absent (`None`). Where the source would then raise (`None.strip()`,
  `None.lower()`), the model takes no text.
- An AnnotationText element without text is modelled as the text "" in the annotation's
  texts. The `.text` truth tests of logic_prepair.py lines 87, 90 and 94 treat "" as the
  source treats `None`. For a RELATED_TERMS text the source would raise at
  logic_triplets.py line 97 (`None.split`); the model splits "" instead.
- The id and urn attributes are kept as optional values and written as "None" when
  absent, as Python's f-string does.
- A Name element without text is stored by `extract_xml_content` as `None`. Line 91 then
  skips it, and line 138 would raise on it. The model stores "" instead, so such a concept
  is indexed under the label key "".
- In `process_concepts` the old-concept description test calls `.lower()` on the
  Description text. For a Description with no text the source would raise; the model
  uses "".
- LogicTriplets.AlignAll uses the intended close-match test of logic_triplets.py line 187
  (see Findings), not the code as written. For a Description element without child
  elements the source drops a close match that the description test alone would give;
  LogicTriplets.AsWrittenAgrees states that this is the only difference.
- LogicTriplets.AlignOne renders the intended decision, with the same difference from the
  code as written as LogicTriplets.AlignAll.
- LogicTriplets.AlignWithOldModel returns the lines of LogicTriplets.AlignAll, with the
  same difference from the code as written.
- LogicTriplets.ProcessedTriples ends with the lines of LogicTriplets.AlignAll, with the
  same difference from the code as written.
- LogicTriplets.ProcessConcepts returns LogicTriplets.ProcessedTriples, with the same
  difference from the code as written.
- XmlExtractor.InfoOf has no contract of its own; XmlExtractor.InfoOfFields states it.
- LogicTriplets.RelatedLabels ensures only the number of labels;
  LogicTriplets.RelatedLabelsCanonical states what each label is.
- LogicFunction.NormalizeLabel ensures only that the result is canonical. Its value is
  stated case by case: LogicFunction.NormalizeLabelFixes for a lowered, stripped label
  that is a LABEL_FIXES key, LogicFunction.NormalizeLabelKeeps for one that is not.
- The rest of the repository (the glossary writer, the loaders, the codelist writer,
  tuning, the entry point) is not part of this model.

## Findings

| source | as written | input that shows it | evidently intended | confidence | as-written member | corrected member |
|---|---|---|---|---|---|---|
| src/sdmxglossgen/logic_triplets.py:187 | the close-match test requires `concept_description` to be true. It is an ElementTree element, and an element is false when it has no child elements, whatever its text. A plain `<com:Description>` never passes, so the description-within-definition test can never fire | a concept named "b" with the Description text "b" and no child elements; an old concept labelled "a" whose comment is "ab"; ids that do not correspond | a close match to the old concept, because the Description text occurs in the old definition (the same test as `concept_description is not None` on line 174, with text) | not executed | LogicTriplets.AsWrittenMissesDescriptionMatch | LogicTriplets.AlignRelations |
