/**
 * The static correction tables: label fixes (typos and renamings between the old and the
 * new model) and forced `skos:broader` parents. The broader table is kept as an ordered
 * sequence of items, since the classifier scans it in order and stops at the first
 * empty value (src/sdmxglossgen/logic_triplets.py:124-129).
 */
module LogicTemplates {
  import opened Wrappers
  import opened StrBuiltins
  import opened OrderedDict

  /** LABEL_FIXES: lowercase misspelled or renamed label to the label used instead. */
  const LabelFixes: map<string, string> := map[
    "timelinesst" := "timeliness",
    "coherence - cross-domain" := "coherence - cross domain",
    "relevance - user satisifaction" := "relevance - user satisfaction",
    "asymmetry for mirror flow statistics" := "asymmetry for mirror " + "flows statistics - coefficient",
    "contact mail" := "contact mail address",
    "sdmx registry interface" := "sdmx registry interface " + "(in the context of registry)",
    "contact organization unit" := "contact organisation unit",
    "observation" := "observation value",
    "data presentation" := "data presentation - detailed description",
    "frequency" := "frequency of observation",
    "contact person job title" := "contact person function",
    "accuracy - sampling error" := "sampling error",
    "quality management - assessment" := "quality management - quality assessment",
    "coverage- time" := "time coverage"
  ]

  /** BROADER_FIXES, in declaration order: concept id to its forced parent, or "" for "keep skos:related". */
  const BroaderFixes: seq<(string, string)> := [
    ("DSD", "DATA_SET"),
    ("ATTRIBUTE", "DSD"),
    ("DIMENSION", "DSD"),
    ("MEASURE", "DSD"),
    ("CODING_FORMAT", "CODE"),
    ("CONSTRAINT", "CODELIST"),
    ("ORGANISATION_UNIT", "CONTACT"),
    ("CDC", "COG"),
    ("CDCL", "COG"),
    ("STAT_SUBJECT_MATTER", "COG"),
    ("LEVEL", "HIERARCHY"),
    ("MEMBER_SEL", "CONSTRAINT"),
    ("MSD", "META_SET"),
    ("REP_CATEGORY", "REPRESENT"),
    ("REP_TAXO", "REP_CATEGORY"),
    ("SDMX_REG_INTERFACE", "SDMX_REG"),
    ("SERIES_KEY", "SIBLING_GR"),
    ("STRUCT_VALIDATION", "STRUCT_META"),
    ("TIMELAG_FINAL", "TIMELINESS"),
    ("TIMELAG_FIRST", "TIMELINESS"),
    ("DATAFLOW", ""),
    ("DATA_VALIDATION", ""),
    ("HIERARCHY", ""),
    ("DATA_SET", "")
  ]

  /** get_label_fixes() */
  function GetLabelFixes(): (m: map<string, string>)
    ensures "timelinesst" in m && m["timelinesst"] == "timeliness"
  {
    LabelFixes
  }

  /** get_broader_fixes() */
  function GetBroaderFixes(): (t: seq<(string, string)>)
    ensures Get(t, "DSD") == Some("DATA_SET")
    ensures |t| == 24
  {
    BroaderFixes
  }

  /** A label as `normalize_label` produces it: lowercase and trimmed. */
  predicate IsCanonicalLabel(s: string)
  {
    IsTrimmed(s) && NoUpper(s)
  }

  lemma CanonicalConcat(a: string, b: string)
    requires NoUpper(a) && NoUpper(b) && a != [] && b != []
    requires !IsSpace(a[0]) && !IsSpace(b[|b| - 1])
    ensures IsCanonicalLabel(a + b)
  {
  }

  lemma KeysCanonical1a() ensures IsCanonicalLabel("timelinesst") {}
  lemma KeysCanonical1b() ensures IsCanonicalLabel("coherence - cross-domain") {}

  lemma KeysCanonical2a() ensures IsCanonicalLabel("relevance - user satisifaction") {}
  lemma KeysCanonical2b() ensures IsCanonicalLabel("asymmetry for mirror flow statistics") {}

  lemma KeysCanonical3a() ensures IsCanonicalLabel("contact mail") {}
  lemma KeysCanonical3b() ensures IsCanonicalLabel("sdmx registry interface") {}

  lemma KeysCanonical4a() ensures IsCanonicalLabel("contact organization unit") {}
  lemma KeysCanonical4b() ensures IsCanonicalLabel("observation") {}

  lemma KeysCanonical5a() ensures IsCanonicalLabel("data presentation") {}
  lemma KeysCanonical5b() ensures IsCanonicalLabel("frequency") {}

  lemma KeysCanonical6a() ensures IsCanonicalLabel("contact person job title") {}
  lemma KeysCanonical6b() ensures IsCanonicalLabel("accuracy - sampling error") {}

  lemma KeysCanonical7a() ensures IsCanonicalLabel("quality management - assessment") {}
  lemma KeysCanonical7b() ensures IsCanonicalLabel("coverage- time") {}

  lemma ValuesCanonical1a() ensures IsCanonicalLabel("timeliness") {}
  lemma ValuesCanonical1b() ensures IsCanonicalLabel("coherence - cross domain") {}

  lemma ValuesCanonical2a() ensures IsCanonicalLabel("relevance - user satisfaction") {}
  lemma ValuesCanonical2b() ensures IsCanonicalLabel("contact mail address") {}

  lemma ValuesCanonical3a() ensures IsCanonicalLabel("contact organisation unit") {}
  lemma ValuesCanonical3b() ensures IsCanonicalLabel("observation value") {}

  lemma ValuesCanonical4a() ensures IsCanonicalLabel("frequency of observation") {}
  lemma ValuesCanonical4b() ensures IsCanonicalLabel("contact person function") {}

  lemma ValuesCanonical5a() ensures IsCanonicalLabel("sampling error") {}
  lemma ValuesCanonical5b() ensures IsCanonicalLabel("time coverage") {}

  lemma ValuesCanonical6a() ensures IsCanonicalLabel("data presentation - detailed description") {}
  lemma ValuesCanonical6b() ensures IsCanonicalLabel("quality management - quality assessment") {}

  lemma MirrorHead() ensures NoUpper("asymmetry for mirror ") {}
  lemma MirrorTail() ensures NoUpper("flows statistics - coefficient") {}
  lemma RegistryHead() ensures NoUpper("sdmx registry interface ") {}
  lemma RegistryTail() ensures NoUpper("(in the context of registry)") {}

  lemma ValuesCanonicalMirror()
    ensures IsCanonicalLabel("asymmetry for mirror " + "flows statistics - coefficient")
  {
    MirrorHead();
    MirrorTail();
    CanonicalConcat("asymmetry for mirror ", "flows statistics - coefficient");
  }

  lemma ValuesCanonicalRegistry()
    ensures IsCanonicalLabel("sdmx registry interface " + "(in the context of registry)")
  {
    RegistryHead();
    RegistryTail();
    CanonicalConcat("sdmx registry interface ", "(in the context of registry)");
  }

  /** Every LABEL_FIXES key is lowercase and trimmed, so normalized input can reach it. */
  lemma LabelFixKeysCanonical()
    ensures forall k :: k in LabelFixes ==> IsCanonicalLabel(k)
  {
    KeysCanonical1a();
    KeysCanonical1b();
    KeysCanonical2a();
    KeysCanonical2b();
    KeysCanonical3a();
    KeysCanonical3b();
    KeysCanonical4a();
    KeysCanonical4b();
    KeysCanonical5a();
    KeysCanonical5b();
    KeysCanonical6a();
    KeysCanonical6b();
    KeysCanonical7a();
    KeysCanonical7b();
  }

  /** Every LABEL_FIXES value is lowercase and trimmed as well. */
  lemma LabelFixValuesCanonical()
    ensures forall k :: k in LabelFixes ==> IsCanonicalLabel(LabelFixes[k])
  {
    ValuesCanonical1a();
    ValuesCanonical1b();
    ValuesCanonical2a();
    ValuesCanonical2b();
    ValuesCanonical3a();
    ValuesCanonical3b();
    ValuesCanonical4a();
    ValuesCanonical4b();
    ValuesCanonical5a();
    ValuesCanonical5b();
    ValuesCanonical6a();
    ValuesCanonical6b();
    ValuesCanonicalMirror();
    ValuesCanonicalRegistry();
  }

  /** No LABEL_FIXES value is itself a key, so a fixed label is never fixed again. */
  lemma LabelFixValuesNotKeys()
    ensures forall k :: k in LabelFixes ==> LabelFixes[k] !in LabelFixes
  {
    ValuesNotKeysA();
    ValuesNotKeysB();
    ValuesNotKeysC();
  }

  lemma ValuesNotKeysA()
    ensures "timeliness" !in LabelFixes && "coherence - cross domain" !in LabelFixes
    ensures "relevance - user satisfaction" !in LabelFixes && "contact mail address" !in LabelFixes
    ensures "contact organisation unit" !in LabelFixes
  {
  }

  lemma ValuesNotKeysB()
    ensures "observation value" !in LabelFixes && "frequency of observation" !in LabelFixes
    ensures "contact person function" !in LabelFixes && "sampling error" !in LabelFixes
    ensures "time coverage" !in LabelFixes
  {
  }

  lemma ValuesNotKeysC()
    ensures "data presentation - detailed description" !in LabelFixes
    ensures "quality management - quality assessment" !in LabelFixes
    ensures "asymmetry for mirror " + "flows statistics - coefficient" !in LabelFixes
    ensures "sdmx registry interface " + "(in the context of registry)" !in LabelFixes
  {
  }

  /** Entries `lo1..hi1` and `lo2..hi2` of BROADER_FIXES have different keys, wherever the first comes earlier. */
  predicate KeysDifferBetween(lo1: nat, hi1: nat, lo2: nat, hi2: nat)
  {
    hi1 <= |BroaderFixes| && hi2 <= |BroaderFixes|
    && forall i, j :: lo1 <= i < hi1 && lo2 <= j < hi2 && i < j ==> BroaderFixes[i].0 != BroaderFixes[j].0
  }

  lemma KeysDiffer00() ensures KeysDifferBetween(0, 8, 0, 8) {}
  lemma KeysDiffer01() ensures KeysDifferBetween(0, 8, 8, 16) {}
  lemma KeysDiffer02() ensures KeysDifferBetween(0, 8, 16, 24) {}
  lemma KeysDiffer11() ensures KeysDifferBetween(8, 16, 8, 16) {}
  lemma KeysDiffer12() ensures KeysDifferBetween(8, 16, 16, 24) {}
  lemma KeysDiffer22() ensures KeysDifferBetween(16, 24, 16, 24) {}

  /** BROADER_FIXES is a dict: its keys are distinct. */
  lemma BroaderFixesDistinctKeys()
    ensures DistinctKeys(BroaderFixes)
  {
    KeysDiffer00();
    KeysDiffer01();
    KeysDiffer02();
    KeysDiffer11();
    KeysDiffer12();
    KeysDiffer22();
  }

  /** No BROADER_FIXES entry names a concept as its own parent. */
  lemma BroaderFixesNoSelfParent()
    ensures forall i :: 0 <= i < |BroaderFixes| ==> BroaderFixes[i].0 != BroaderFixes[i].1
  {
  }

  /** Every empty-valued entry comes after every non-empty one. */
  lemma BroaderFixesEmptiesLast()
    ensures forall i, j :: 0 <= i < j < |BroaderFixes| && BroaderFixes[i].1 == "" ==> BroaderFixes[j].1 == ""
  {
  }

  /** Every LABEL_FIXES key has at least nine characters, so shorter labels are never fixed. */
  lemma LabelFixKeysLong()
    ensures forall k :: k in LabelFixes ==> |k| >= 9
  {
  }

  /** No BROADER_FIXES key has sixteen characters. */
  lemma BroaderFixKeysNotSixteen()
    ensures forall i :: 0 <= i < |BroaderFixes| ==> |BroaderFixes[i].0| != 16
  {
  }
}
