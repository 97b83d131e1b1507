/**
 * The text helpers of the generator: Turtle literal formatting, the " - " split used to
 * detect "Parent - detail" labels, string comparison, text and label normalization and
 * the concept-id transformation (src/sdmxglossgen/logic_function.py).
 */
module LogicFunction {
  import opened Wrappers
  import opened StrBuiltins
  import opened LogicTemplates

  // ----- format_literal -----

  /** What precedes the quoted value: four spaces, the predicate and one space. */
  function LiteralHead(pred: string): string
  {
    "    " + pred + " "
  }

  /** Triple quotes when the value holds a double quote, plain quotes otherwise. */
  function Quote(value: string): string
  {
    if '"' in value then "\"\"\"" else "\""
  }

  /** An RDF literal line: head, the value between quotes, then the language tag. */
  function Render(h: string, v: string): string
  {
    h + Quote(v) + v + Quote(v) + "@en"
  }

  lemma RenderShape(h: string, v: string)
    ensures h <= Render(h, v)
    ensures |Render(h, v)| >= |h| + 5 && Render(h, v)[|Render(h, v)| - 3..] == "@en"
    ensures ('"' in v) <==> Render(h, v)[|h|..|h| + 3] == "\"\"\""
  {
    var r := Render(h, v);
    assert r[..|h|] == h;
    if '"' in v {
      assert r[|h|..|h| + 3] == Quote(v);
    } else {
      assert r[|h|] == '"';
      if v == [] {
        assert r[|h| + 2] == '@';
      } else {
        assert r[|h| + 1] == v[0];
      }
    }
  }

  /**
   * `format_literal(value, predicate)`: an indented `predicate "value"@en` line with the
   * value stripped; the value is wrapped in triple quotes exactly when it contains `"`.
   */
  function FormatLiteral(value: string, pred: string): (r: string)
    ensures LiteralHead(pred) <= r
    ensures |r| >= |LiteralHead(pred)| + 5 && r[|r| - 3..] == "@en"
    ensures ('"' in Strip(value)) <==> r[|LiteralHead(pred)|..|LiteralHead(pred)| + 3] == "\"\"\""
  {
    var v := Strip(value);
    RenderShape(LiteralHead(pred), v);
    Render(LiteralHead(pred), v)
  }

  /**
   * Reads a line produced by `FormatLiteral` back: the predicate must match, and the value
   * is what lies between the opening and the closing quotes before `@en`.
   */
  function LiteralValue(line: string, pred: string): Option<string>
  {
    var h := LiteralHead(pred);
    if !(h <= line) || |line| < |h| + 5 || line[|line| - 3..] != "@en" then None
    else
      var t := line[|h|..|line| - 3];
      if |t| >= 6 && t[..3] == "\"\"\"" && t[|t| - 3..] == "\"\"\"" && '"' in t[3..|t| - 3] then Some(t[3..|t| - 3])
      else if |t| >= 2 && t[0] == '"' && t[|t| - 1] == '"' && '"' !in t[1..|t| - 1] then Some(t[1..|t| - 1])
      else None
  }

  lemma ReadBackRender(pred: string, v: string)
    ensures LiteralValue(Render(LiteralHead(pred), v), pred) == Some(v)
  {
    var h := LiteralHead(pred);
    var q := Quote(v);
    var r := Render(h, v);
    RenderShape(h, v);
    assert r == h + (q + v + q) + "@en";
    assert r[|h|..|r| - 3] == q + v + q;
    var t := q + v + q;
    if '"' in v {
      assert t[..3] == q && t[|t| - 3..] == q && t[3..|t| - 3] == v;
    } else {
      assert t[0] == '"' && t[|t| - 1] == '"' && t[1..|t| - 1] == v;
    }
  }

  /** The formatted literal always reads back as the stripped value under the same predicate. */
  lemma FormatLiteralRoundTrip(value: string, pred: string)
    ensures LiteralValue(FormatLiteral(value, pred), pred) == Some(Strip(value))
  {
    ReadBackRender(pred, Strip(value));
  }

  // ----- split_by_separator -----

  const Separator: string := " - "

  /**
   * `split_by_separator(s)`: the position of the first " - " and the text before and after
   * it, or `(-1, "", "")` when `s` has none.
   */
  function SplitBySeparator(s: string): (r: (int, string, string))
    ensures r.0 == -1 <==> forall j :: !OccursAt(Separator, s, j)
    ensures r.0 == -1 ==> r.1 == "" && r.2 == ""
    ensures r.0 != -1 ==> OccursAt(Separator, s, r.0) && forall j :: 0 <= j < r.0 ==> !OccursAt(Separator, s, j)
    ensures r.0 != -1 ==> r.1 == s[..r.0] && r.1 + Separator + r.2 == s
  {
    var pos := Find(s, Separator);
    if pos != -1 then
      assert s == s[..pos] + Separator + s[pos + |Separator|..] by {
        assert s[pos..pos + |Separator|] == Separator;
        assert s == s[..pos] + s[pos..pos + |Separator|] + s[pos + |Separator|..];
      }
      (pos, s[..pos], s[pos + |Separator|..])
    else (-1, "", "")
  }

  /** The result of `SplitBySeparator` is determined by the first occurrence it reports. */
  lemma SplitAtFirst(s: string, p: nat)
    requires OccursAt(Separator, s, p)
    requires forall j :: 0 <= j < p ==> !OccursAt(Separator, s, j)
    ensures SplitBySeparator(s) == (p, s[..p], s[p + 3..])
  {
    var r := SplitBySeparator(s);
    assert r.0 != -1;
    assert r.0 == p;
    assert (r.1 + Separator + r.2)[p + 3..] == r.2;
  }

  /** `split_by_separator("concept - definition") == (7, "concept", "definition")` */
  lemma SplitBySeparatorExample()
    ensures SplitBySeparator("concept - definition") == (7, "concept", "definition")
  {
    var s := "concept - definition";
    assert s[7..10] == Separator;
    forall j | 0 <= j < 7 ensures !OccursAt(Separator, s, j) {
      assert s[j..j + 3][1] == s[j + 1];
    }
    SplitAtFirst(s, 7);
    assert s[..7] == "concept";
    assert s[10..] == "definition";
  }

  /** A string without a dash has no separator. */
  lemma SplitWithoutDash(s: string)
    requires '-' !in s
    ensures SplitBySeparator(s) == (-1, "", "")
  {
    forall j ensures !OccursAt(Separator, s, j) {
      if 0 <= j && j + 3 <= |s| {
        assert s[j..j + 3][1] == s[j + 1];
        assert s[j + 1] in s;
      }
    }
  }

  /** `split_by_separator("no separator here") == (-1, "", "")` */
  lemma SplitBySeparatorNoneExample()
    ensures SplitBySeparator("no separator here") == (-1, "", "")
  {
    SplitWithoutDash("no separator here");
  }

  // ----- find_first_difference -----

  /**
   * `find_first_difference(a, b)`: -1 and two empty strings for equal strings; otherwise
   * the first index where they differ with the two differing characters, or, when one is
   * a proper prefix of the other, its length with the remainders after it.
   */
  method FindFirstDifference(a: string, b: string) returns (i: int, tailA: string, tailB: string)
    ensures i == -1 <==> a == b
    ensures i == -1 ==> tailA == "" && tailB == ""
    ensures i != -1 ==> 0 <= i <= |a| && i <= |b| && a[..i] == b[..i]
    ensures 0 <= i < |a| && i < |b| ==> a[i] != b[i] && tailA == [a[i]] && tailB == [b[i]]
    ensures i != -1 && (i == |a| || i == |b|) ==> |a| != |b| && tailA == a[i..] && tailB == b[i..]
  {
    var m := if |a| < |b| then |a| else |b|;
    for k := 0 to m
      invariant a[..k] == b[..k]
    {
      if a[k] != b[k] {
        return k, [a[k]], [b[k]];
      }
      assert a[..k + 1] == a[..k] + [a[k]];
      assert b[..k + 1] == b[..k] + [b[k]];
    }
    if |a| != |b| {
      i := m;
      tailA := if |a| > |b| then a[m..] else "";
      tailB := if |b| > |a| then b[m..] else "";
      return;
    }
    assert a == a[..m] && b == b[..m];
    return -1, "", "";
  }

  /** `find_first_difference("quality", "quantity")`: the words first differ at index 3. */
  method QualityQuantityDifference() returns (i: int, tailA: string, tailB: string)
    ensures i == 3 && tailA == "l" && tailB == "n"
  {
    var a, b := "quality", "quantity";
    i, tailA, tailB := FindFirstDifference(a, b);
    assert a[3] != b[3];
    assert a[0] == b[0] && a[1] == b[1] && a[2] == b[2];
  }

  /** `find_first_difference("same", "same") == (-1, "", "")` */
  method SameDifference() returns (i: int, tailA: string, tailB: string)
    ensures i == -1 && tailA == "" && tailB == ""
  {
    i, tailA, tailB := FindFirstDifference("same", "same");
  }

  // ----- normalize_text -----

  /** `re.sub(r'[^\w\s]', '', s)`: every character that is neither a word character nor whitespace is dropped. */
  function DropPunctuation(s: string): (r: string)
    ensures forall i :: 0 <= i < |r| ==> IsWordChar(r[i]) || IsSpace(r[i])
    ensures (forall i :: 0 <= i < |s| ==> IsWordChar(s[i]) || IsSpace(s[i])) ==> r == s
  {
    if s == [] then []
    else if IsWordChar(s[0]) || IsSpace(s[0]) then [s[0]] + DropPunctuation(s[1..])
    else DropPunctuation(s[1..])
  }

  lemma {:induction false} DropPunctuationConcat(a: string, b: string)
    ensures DropPunctuation(a + b) == DropPunctuation(a) + DropPunctuation(b)
    decreases |a|
  {
    if a != [] {
      var ab := a + b;
      assert ab[0] == a[0] && ab[1..] == a[1..] + b;
      DropPunctuationConcat(a[1..], b);
      var head := if IsWordChar(a[0]) || IsSpace(a[0]) then [a[0]] else [];
      assert DropPunctuation(ab) == head + DropPunctuation(a[1..] + b);
      assert DropPunctuation(a) == head + DropPunctuation(a[1..]);
      ConcatAssoc(head, DropPunctuation(a[1..]), DropPunctuation(b));
    } else {
      assert a + b == b;
    }
  }

  /** The form `normalize_text` produces: lowercase words of `\w` characters separated by single spaces. */
  predicate IsNormalText(s: string)
  {
    && (forall i :: 0 <= i < |s| ==> s[i] == ' ' || (IsWordChar(s[i]) && !IsUpper(s[i])))
    && (s != [] ==> s[0] != ' ' && s[|s| - 1] != ' ')
    && (forall i :: 0 <= i < |s| ==> SingleSpaceAt(s, i))
  }

  /** A space at `i` is not followed by another one. */
  predicate SingleSpaceAt(s: string, i: nat)
    requires i < |s|
  {
    s[i] == ' ' && i + 1 < |s| ==> s[i + 1] != ' '
  }

  /**
   * `normalize_text(text)`: punctuation removed, lowered, and whitespace runs collapsed to
   * single spaces with none at either end.
   */
  function NormalizeText(text: string): (r: string)
    ensures IsNormalText(r)
  {
    var t := Lower(DropPunctuation(text));
    var ws := Words(t);
    CleanWordsJoin(t, ws);
    JoinWith(ws, " ")
  }

  /** Every word of `t` consists of lowercase word characters. */
  predicate CleanWords(ws: seq<string>)
  {
    forall k, i :: 0 <= k < |ws| && 0 <= i < |ws[k]| ==> ws[k] != [] && IsWordChar(ws[k][i]) && !IsUpper(ws[k][i])
  }

  lemma CleanWordsJoin(t: string, ws: seq<string>)
    requires forall i :: 0 <= i < |t| ==> (IsWordChar(t[i]) || IsSpace(t[i])) && !IsUpper(t[i])
    requires ws == Words(t)
    ensures IsNormalText(JoinWith(ws, " "))
  {
    WordsChars(t);
    forall k, i | 0 <= k < |ws| && 0 <= i < |ws[k]| ensures ws[k] != [] && IsWordChar(ws[k][i]) && !IsUpper(ws[k][i]) {
      var c := ws[k][i];
      assert c in t;
      assert !IsSpace(c);
    }
    NormalJoin(ws);
  }

  lemma {:induction false} NormalJoin(ws: seq<string>)
    requires CleanWords(ws)
    requires forall k :: 0 <= k < |ws| ==> ws[k] != []
    ensures IsNormalText(JoinWith(ws, " "))
    decreases |ws|
  {
    if |ws| > 1 {
      NormalJoin(ws[1..]);
      var w := ws[0];
      var rest := JoinWith(ws[1..], " ");
      var s := w + " " + rest;
      assert JoinWith(ws, " ") == s;
      assert ws[1..][0] == ws[1];
      assert rest != [] by { NonEmptyJoin(ws[1..]); }
      forall i | 0 <= i < |s| ensures s[i] == ' ' || (IsWordChar(s[i]) && !IsUpper(s[i])) {
        if i < |w| {
          assert s[i] == ws[0][i];
        } else if i > |w| {
          assert s[i] == rest[i - |w| - 1];
        }
      }
      forall i | 0 <= i < |s| ensures SingleSpaceAt(s, i) {
        if i < |w| {
          assert s[i] == ws[0][i];
        } else if i == |w| {
          assert s[i + 1] == rest[0];
        } else {
          assert s[i] == rest[i - |w| - 1];
          if i + 1 < |s| {
            assert s[i + 1] == rest[i - |w|];
            assert SingleSpaceAt(rest, i - |w| - 1);
          }
        }
      }
      assert s[|s| - 1] == rest[|rest| - 1];
      assert s[0] == ws[0][0];
    } else if |ws| == 1 {
      assert JoinWith(ws, " ") == ws[0];
      assert ws[0][0] == ws[0][0];
    }
  }

  lemma {:induction false} NonEmptyJoin(ws: seq<string>)
    requires ws != [] && ws[0] != []
    ensures JoinWith(ws, " ") != []
  {
    if |ws| > 1 {
      assert |JoinWith(ws, " ")| >= |ws[0]|;
    }
  }

  /** What follows a space inside a normal text is a normal text again. */
  lemma NormalSuffix(s: string, k: nat)
    requires IsNormalText(s) && 0 < k < |s| && s[k - 1] == ' '
    ensures IsNormalText(s[k..])
  {
    var u := s[k..];
    assert forall i :: 0 <= i < |u| ==> u[i] == s[k + i];
    assert SingleSpaceAt(s, k - 1);
    forall i | 0 <= i < |u| ensures SingleSpaceAt(u, i) {
      assert SingleSpaceAt(s, k + i);
    }
    assert u[|u| - 1] == s[|s| - 1];
  }

  /** A word followed by one space: `Words` takes the word and continues after the space. */
  lemma WordsStep(s: string, n: nat)
    requires s != [] && !IsSpace(s[0]) && n == WordLen(s) && n + 1 < |s| && !IsSpace(s[n + 1])
    ensures Words(s) == [s[..n]] + Words(s[n + 1..])
  {
    assert Words(s) == [s[..n]] + Words(s[n..]);
    assert IsSpace(s[n]);
    assert s[n..][1..] == s[n + 1..];
  }

  lemma WordsNonEmpty(u: string)
    requires u != [] && !IsSpace(u[0])
    ensures Words(u) != [] && Words(u)[0] == u[..WordLen(u)]
  {
  }

  /** A normal text is the space-join of its own words. */
  lemma {:induction false} JoinWordsOfNormal(s: string)
    requires IsNormalText(s)
    ensures JoinWith(Words(s), " ") == s
    decreases |s|
  {
    if s != [] {
      var n := WordLen(s);
      assert !IsSpace(s[0]);
      if n == |s| {
        assert Words(s) == [s[..n]] + Words(s[n..]);
        assert s[n..] == [];
        assert s[..n] == s;
      } else {
        assert s[n] == ' ' && n + 1 < |s| by {
          assert IsSpace(s[n]);
        }
        NormalSuffix(s, n + 1);
        JoinWordsOfNormal(s[n + 1..]);
        JoinWordsCons(s, n);
      }
    }
  }

  lemma JoinWordsCons(s: string, n: nat)
    requires s != [] && !IsSpace(s[0]) && n == WordLen(s)
    requires n + 1 < |s| && s[n] == ' ' && !IsSpace(s[n + 1])
    requires JoinWith(Words(s[n + 1..]), " ") == s[n + 1..]
    ensures JoinWith(Words(s), " ") == s
  {
    var u := s[n + 1..];
    WordsStep(s, n);
    WordsNonEmpty(u);
    JoinCons(s[..n], Words(u), " ");
    SplitAround(s, n);
  }

  lemma JoinCons(w: string, ws: seq<string>, sep: string)
    requires ws != []
    ensures JoinWith([w] + ws, sep) == w + sep + JoinWith(ws, sep)
  {
    assert ([w] + ws)[1..] == ws;
  }

  lemma SplitAround(s: string, n: nat)
    requires n < |s|
    ensures s == s[..n] + [s[n]] + s[n + 1..]
  {
  }

  /** Dropping punctuation, lowering and splitting leave a normal text unchanged. */
  lemma NormalTextFixed(s: string)
    requires IsNormalText(s)
    ensures NormalizeText(s) == s
  {
    assert DropPunctuation(s) == s;
    assert Lower(s) == s;
    JoinWordsOfNormal(s);
  }

  /** `normalize_text` is idempotent. */
  lemma NormalizeTextIdempotent(text: string)
    ensures NormalizeText(NormalizeText(text)) == NormalizeText(text)
  {
    NormalTextFixed(NormalizeText(text));
  }

  /** A single word of letters and digits normalizes to its lowercase form. */
  lemma NormalizeWord(w: string)
    requires w != []
    requires forall i :: 0 <= i < |w| ==> IsUpper(w[i]) || IsLower(w[i]) || IsDigit(w[i])
    ensures NormalizeText(w) == Lower(w)
  {
    assert DropPunctuation(w) == w;
    LowerWordNormal(w);
    JoinWordsOfNormal(Lower(w));
  }

  lemma LowerWordNormal(w: string)
    requires forall i :: 0 <= i < |w| ==> IsUpper(w[i]) || IsLower(w[i]) || IsDigit(w[i])
    ensures IsNormalText(Lower(w))
  {
    var l := Lower(w);
    assert forall i :: 0 <= i < |l| ==> IsWordChar(l[i]) && l[i] != ' ';
    assert forall i :: 0 <= i < |l| ==> SingleSpaceAt(l, i);
  }


  // Steps of the `normalize_text` example, one fact each.

  lemma DropComma() ensures DropPunctuation(",") == "" {}
  lemma DropBang() ensures DropPunctuation("!") == "" {}
  lemma KeepHello() ensures DropPunctuation("Hello") == "Hello" {}
  lemma KeepWorld() ensures DropPunctuation(" World") == " World" {}
  lemma KeepDigits() ensures DropPunctuation(" 123") == " 123" {}
  lemma LowerHelloWord() ensures Lower("Hello") == "hello" {}
  lemma LowerWorldWord() ensures Lower(" World") == " world" {}
  lemma LowerDigits() ensures Lower(" 123") == " 123" {}

  lemma HelloPieces()
    ensures "Hello, World! 123" == "Hello" + "," + " World" + "!" + " 123"
    ensures "Hello" + " World" + " 123" == "Hello World 123"
    ensures "Hello" + "" + " World" + "" + " 123" == "Hello World 123"
    ensures "hello" + " world" + " 123" == "hello world 123"
  {
  }

  lemma DropPunctuationFive(a: string, b: string, c: string, d: string, e: string)
    ensures DropPunctuation(a + b + c + d + e)
      == DropPunctuation(a) + DropPunctuation(b) + DropPunctuation(c) + DropPunctuation(d) + DropPunctuation(e)
  {
    DropPunctuationConcat(a + b + c + d, e);
    DropPunctuationConcat(a + b + c, d);
    DropPunctuationConcat(a + b, c);
    DropPunctuationConcat(a, b);
  }

  lemma DropPunctuationHello()
    ensures DropPunctuation("Hello, World! 123") == "Hello World 123"
  {
    HelloPieces();
    DropPunctuationFive("Hello", ",", " World", "!", " 123");
    DropComma();
    DropBang();
    KeepHello();
    KeepWorld();
    KeepDigits();
  }

  lemma LowerHello()
    ensures Lower("Hello World 123") == "hello world 123"
  {
    HelloPieces();
    LowerConcat("Hello" + " World", " 123");
    LowerConcat("Hello", " World");
    LowerHelloWord();
    LowerWorldWord();
    LowerDigits();
  }

  lemma NormalHello()
    ensures IsNormalText("hello world 123")
  {
    var l := "hello world 123";
    assert forall i :: 0 <= i < |l| ==> l[i] == ' ' || (IsWordChar(l[i]) && !IsUpper(l[i]));
    assert forall i :: 0 <= i < |l| ==> SingleSpaceAt(l, i);
  }

  /** `NormalizeText` written out as its three steps. */
  lemma NormalizeTextSteps(text: string)
    ensures NormalizeText(text) == JoinWith(Words(Lower(DropPunctuation(text))), " ")
  {
  }

  /**
   * `normalize_text("Hello, World! 123")` keeps the digits: the result is "hello world 123"
   * although the function's own documentation shows "hello world".
   */
  lemma NormalizeTextExample()
    ensures NormalizeText("Hello, World! 123") == "hello world 123"
  {
    NormalizeTextSteps("Hello, World! 123");
    DropPunctuationHello();
    LowerHello();
    NormalHello();
    JoinWordsOfNormal("hello world 123");
  }

  // ----- normalize_label -----

  /**
   * `normalize_label(label)`: lowered and stripped, then replaced through LABEL_FIXES. The
   * result is always a canonical label and never a LABEL_FIXES key.
   */
  function NormalizeLabel(name: string): (r: string)
    ensures IsCanonicalLabel(r)
  {
    var k := Strip(Lower(name));
    NoUpperOfStrip(Lower(name));
    LabelFixValuesCanonical();
    LabelFixValuesNotKeys();
    var fixes := GetLabelFixes();
    if k in fixes then fixes[k] else k
  }

  /** A normalized label is never a LABEL_FIXES key, so the fixes are applied once and for all. */
  lemma NormalizeLabelNotFixKey(name: string)
    ensures NormalizeLabel(name) !in LabelFixes
  {
    LabelFixValuesNotKeys();
  }

  /** A LABEL_FIXES key in any case and with any surrounding whitespace is mapped to its fix. */
  lemma NormalizeLabelFixes(name: string)
    requires Strip(Lower(name)) in LabelFixes
    ensures NormalizeLabel(name) == LabelFixes[Strip(Lower(name))]
  {
  }

  /** A label whose lowered and stripped form is not a LABEL_FIXES key normalizes to that form. */
  lemma NormalizeLabelKeeps(name: string)
    requires Strip(Lower(name)) !in LabelFixes
    ensures NormalizeLabel(name) == Strip(Lower(name))
  {
  }

  /** `normalize_label` is idempotent. */
  lemma NormalizeLabelIdempotent(name: string)
    ensures NormalizeLabel(NormalizeLabel(name)) == NormalizeLabel(name)
  {
    var r := NormalizeLabel(name);
    NormalizeLabelNotFixKey(name);
    LowerOfNoUpper(r);
    NormalizeLabelKeeps(r);
  }

  /** `normalize_label("timelinesst") == "timeliness"` */
  lemma NormalizeLabelExample()
    ensures NormalizeLabel("timelinesst") == "timeliness"
  {
    KeysCanonical1a();
    LowerOfNoUpper("timelinesst");
    NormalizeLabelFixes("timelinesst");
  }

  // ----- transform_concept_id -----

  /** Number of letters A-Z in `s`. */
  function CountUpper(s: string): nat
  {
    if s == [] then 0 else (if IsUpper(s[0]) then 1 else 0) + CountUpper(s[1..])
  }

  /** `re.sub(r'(?<!^)([A-Z])', r'_\1', s)`: an underscore before every A-Z except one at the very start. */
  function MarkCapitals(s: string, atStart: bool): (r: string)
    ensures |r| == |s| + (if atStart && s != [] then CountUpper(s[1..]) else CountUpper(s))
  {
    if s == [] then []
    else (if !atStart && IsUpper(s[0]) then "_" + [s[0]] else [s[0]]) + MarkCapitals(s[1..], false)
  }

  /**
   * `transform_concept_id(id)`: upper case, with one underscore inserted before every capital
   * letter after the first character. The result has no lowercase letters and keeps the
   * first character (upper-cased) in front.
   */
  function TransformConceptId(id: string): (r: string)
    ensures |r| == |id| + (if id == [] then 0 else CountUpper(id[1..]))
    ensures forall i :: 0 <= i < |r| ==> !IsLower(r[i])
    ensures id != [] ==> r[0] == UpperChar(id[0])
  {
    Upper(MarkCapitals(id, true))
  }

  /** Where character `i` of `s` lands in `MarkCapitals(s, false)`: after `i` characters and one underscore per capital up to it. */
  function MarkedPos(s: string, i: nat): nat
    requires i < |s|
  {
    i + CountUpper(s[..i + 1])
  }

  lemma CountUpperStep(s: string, i: nat)
    requires 0 < i < |s|
    ensures CountUpper(s[..i + 1]) == (if IsUpper(s[0]) then 1 else 0) + CountUpper(s[1..][..i])
  {
    assert s[..i + 1][1..] == s[1..][..i];
  }

  /**
   * Every character of `s` appears in `MarkCapitals(s, false)` at `MarkedPos(s, i)`, and an
   * underscore right before it exactly when it is a capital.
   */
  lemma {:induction false} MarkCapitalsPositions(s: string)
    ensures forall i :: 0 <= i < |s| ==>
      MarkedPos(s, i) < |MarkCapitals(s, false)| && MarkCapitals(s, false)[MarkedPos(s, i)] == s[i]
    ensures forall i :: 0 <= i < |s| && IsUpper(s[i]) ==>
      0 < MarkedPos(s, i) && MarkCapitals(s, false)[MarkedPos(s, i) - 1] == '_'
    decreases |s|
  {
    if s != [] {
      var head := if IsUpper(s[0]) then "_" + [s[0]] else [s[0]];
      var rest := MarkCapitals(s[1..], false);
      var r := MarkCapitals(s, false);
      assert r == head + rest;
      MarkCapitalsPositions(s[1..]);
      assert CountUpper(s[..1]) == (if IsUpper(s[0]) then 1 else 0) by {
        assert s[..1][1..] == [];
      }
      forall i | 0 < i < |s|
        ensures MarkedPos(s, i) == |head| + MarkedPos(s[1..], i - 1)
      {
        CountUpperStep(s, i);
      }
      forall i | 0 < i < |s|
        ensures MarkedPos(s, i) < |r| && r[MarkedPos(s, i)] == s[i]
        ensures IsUpper(s[i]) ==> 0 < MarkedPos(s, i) && r[MarkedPos(s, i) - 1] == '_'
      {
        assert s[1..][i - 1] == s[i];
        assert r[MarkedPos(s, i)] == rest[MarkedPos(s[1..], i - 1)];
        if IsUpper(s[i]) {
          assert r[MarkedPos(s, i) - 1] == rest[MarkedPos(s[1..], i - 1) - 1];
        }
      }
    }
  }

  /** An id without capitals after its first character is simply upper-cased (so "observation" gives "OBSERVATION"). */
  lemma TransformPlainId(id: string)
    requires forall i :: 1 <= i < |id| ==> !IsUpper(id[i])
    ensures TransformConceptId(id) == Upper(id)
  {
    if id != [] {
      PlainMarks(id[1..]);
      assert MarkCapitals(id, true) == [id[0]] + id[1..];
      assert [id[0]] + id[1..] == id;
    }
  }

  lemma {:induction false} PlainMarks(s: string)
    requires forall i :: 0 <= i < |s| ==> !IsUpper(s[i])
    ensures MarkCapitals(s, false) == s
    decreases |s|
  {
    if s != [] {
      PlainMarks(s[1..]);
      assert [s[0]] + s[1..] == s;
    }
  }

  lemma {:induction false} MarkCapitalsConcat(a: string, b: string)
    ensures MarkCapitals(a + b, false) == MarkCapitals(a, false) + MarkCapitals(b, false)
    decreases |a|
  {
    if a != [] {
      assert (a + b)[1..] == a[1..] + b;
      MarkCapitalsConcat(a[1..], b);
    } else {
      assert a + b == b;
    }
  }


  /**
   * `transform_concept_id("ConceptID")` marks both capitals of "ID": the result is
   * "CONCEPT_I_D", not "CONCEPT_ID" as the function's own documentation shows.
   */
  lemma MarkI() ensures MarkCapitals("I", false) == "_I" {}
  lemma MarkD() ensures MarkCapitals("D", false) == "_D" {}
  lemma UpperOncept() ensures Upper("oncept") == "ONCEPT" {}
  lemma UpperMarkI() ensures Upper("_I") == "_I" {}
  lemma UpperMarkD() ensures Upper("_D") == "_D" {}
  lemma UpperC() ensures Upper("C") == "C" {}

  lemma ConceptIdTail()
    ensures "ConceptID"[0] == 'C' && "ConceptID"[1..] == "oncept" + "I" + "D"
  {
  }

  lemma MarkedRegroup()
    ensures "C" + ("oncept" + "_I" + "_D") == "C" + "oncept" + "_I" + "_D"
  {
  }

  lemma UpperPiecesJoined()
    ensures "C" + "ONCEPT" + "_I" + "_D" == "CONCEPT_I_D"
  {
  }

  lemma MarkCapitalsThree(a: string, b: string, c: string)
    ensures MarkCapitals(a + b + c, false) == MarkCapitals(a, false) + MarkCapitals(b, false) + MarkCapitals(c, false)
  {
    MarkCapitalsConcat(a + b, c);
    MarkCapitalsConcat(a, b);
  }

  lemma UpperFour(a: string, b: string, c: string, d: string)
    ensures Upper(a + b + c + d) == Upper(a) + Upper(b) + Upper(c) + Upper(d)
  {
    UpperConcat(a + b + c, d);
    UpperConcat(a + b, c);
    UpperConcat(a, b);
  }

  /** The first character is kept as it is; the rest is marked from its first character on. */
  lemma MarkCapitalsFirst(s: string)
    requires s != []
    ensures MarkCapitals(s, true) == [s[0]] + MarkCapitals(s[1..], false)
  {
  }

  /**
   * `transform_concept_id("ConceptID")` marks both capitals of "ID": the result is
   * "CONCEPT_I_D", not "CONCEPT_ID" as the function's own documentation shows.
   */
  lemma TransformConceptIdExample()
    ensures TransformConceptId("ConceptID") == "CONCEPT_I_D"
  {
    TransformConceptIdOf("ConceptID");
  }

  lemma TransformConceptIdOf(id: string)
    requires id == "ConceptID"
    ensures TransformConceptId(id) == "CONCEPT_I_D"
  {
    MarkedConceptId(id);
    UpperMarkedConceptId("C" + ("oncept" + "_I" + "_D"));
  }

  /** Marking an id whose tail is `a + b + c` marks the three pieces one after the other. */
  lemma MarkPieces(s: string, a: string, b: string, c: string)
    requires s != [] && s[1..] == a + b + c
    ensures MarkCapitals(s, true) == [s[0]] + (MarkCapitals(a, false) + MarkCapitals(b, false) + MarkCapitals(c, false))
  {
    MarkCapitalsFirst(s);
    MarkCapitalsThree(a, b, c);
  }

  lemma MarkedConceptId(id: string)
    requires id == "ConceptID"
    ensures MarkCapitals(id, true) == "C" + ("oncept" + "_I" + "_D")
  {
    ConceptIdTail();
    MarkPieces(id, "oncept", "I", "D");
    OnceptPlain();
    MarkI();
    MarkD();
  }

  lemma OnceptPlain() ensures MarkCapitals("oncept", false) == "oncept"
  {
    PlainMarks("oncept");
  }

  lemma UpperMarkedConceptId(marked: string)
    requires marked == "C" + ("oncept" + "_I" + "_D")
    ensures Upper(marked) == "CONCEPT_I_D"
  {
    MarkedRegroup();
    UpperPiecesJoined();
    UpperFour("C", "oncept", "_I", "_D");
    UpperOncept();
    UpperMarkI();
    UpperMarkD();
    UpperC();
  }
}
