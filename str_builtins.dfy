/**
 * The Python `str` built-ins the glossary generator relies on: `lower`, `upper`, `strip`,
 * `find`, `split`, `join` and the `in` operator, together with the character classes
 * `\w` and `\s` of its regular expressions. Character classes are read over ASCII.
 */
module StrBuiltins {

  /** Whitespace as `str.isspace`, `str.strip()`, `str.split()` and the regex class `\s` see it (ASCII part). */
  predicate IsSpace(c: char)
  {
    c == ' ' || ('\t' <= c <= '\r') || ('\U{1C}' <= c <= '\U{1F}')
  }

  predicate IsUpper(c: char) { 'A' <= c <= 'Z' }

  predicate IsLower(c: char) { 'a' <= c <= 'z' }

  predicate IsDigit(c: char) { '0' <= c <= '9' }

  /** The regex class `\w`: letters, digits and the underscore. */
  predicate IsWordChar(c: char)
  {
    IsUpper(c) || IsLower(c) || IsDigit(c) || c == '_'
  }

  /** `c.lower()` */
  function LowerChar(c: char): (r: char)
    ensures !IsUpper(r)
    ensures IsWordChar(r) <==> IsWordChar(c)
    ensures IsSpace(r) <==> IsSpace(c)
    ensures !IsUpper(c) ==> r == c
  {
    if IsUpper(c) then (c as int + 32) as char else c
  }

  /** `c.upper()` */
  function UpperChar(c: char): (r: char)
    ensures !IsLower(r)
    ensures (r == '_') <==> (c == '_')
    ensures !IsLower(c) ==> r == c
  {
    if IsLower(c) then (c as int - 32) as char else c
  }

  /** `s.lower()`: every character lowered, nothing else changed. */
  function Lower(s: string): (r: string)
    ensures |r| == |s|
    ensures forall i :: 0 <= i < |s| ==> r[i] == LowerChar(s[i])
  {
    if s == [] then [] else [LowerChar(s[0])] + Lower(s[1..])
  }

  /** `s.upper()` */
  function Upper(s: string): (r: string)
    ensures |r| == |s|
    ensures forall i :: 0 <= i < |s| ==> r[i] == UpperChar(s[i])
  {
    if s == [] then [] else [UpperChar(s[0])] + Upper(s[1..])
  }

  predicate NoUpper(s: string)
  {
    forall i :: 0 <= i < |s| ==> !IsUpper(s[i])
  }

  lemma LowerOfNoUpper(s: string)
    requires NoUpper(s)
    ensures Lower(s) == s
  {
  }

  /** Lowering works character by character, so it distributes over concatenation. */
  lemma {:induction false} LowerConcat(a: string, b: string)
    ensures Lower(a + b) == Lower(a) + Lower(b)
    decreases |a|
  {
    if a != [] {
      assert (a + b)[1..] == a[1..] + b;
      LowerConcat(a[1..], b);
    } else {
      assert a + b == b;
    }
  }

  /** Upper-casing distributes over concatenation. */
  lemma {:induction false} UpperConcat(a: string, b: string)
    ensures Upper(a + b) == Upper(a) + Upper(b)
    decreases |a|
  {
    if a != [] {
      assert (a + b)[1..] == a[1..] + b;
      UpperConcat(a[1..], b);
    } else {
      assert a + b == b;
    }
  }

  /** `s.lstrip()` */
  function TrimLeft(s: string): (r: string)
    ensures |r| <= |s| && r == s[|s| - |r|..]
    ensures forall i :: 0 <= i < |s| - |r| ==> IsSpace(s[i])
    ensures r == [] || !IsSpace(r[0])
  {
    if s != [] && IsSpace(s[0]) then TrimLeft(s[1..]) else s
  }

  /** `s.rstrip()` */
  function TrimRight(s: string): (r: string)
    ensures |r| <= |s| && r == s[..|r|]
    ensures forall i :: |r| <= i < |s| ==> IsSpace(s[i])
    ensures r == [] || !IsSpace(r[|r| - 1])
  {
    if s != [] && IsSpace(s[|s| - 1]) then TrimRight(s[..|s| - 1]) else s
  }

  /** No whitespace at either end. */
  predicate IsTrimmed(s: string)
  {
    s == [] || (!IsSpace(s[0]) && !IsSpace(s[|s| - 1]))
  }

  /**
   * `s.strip()`: the result is `s` with its whitespace borders cut off, so it is trimmed,
   * and an already trimmed string is left as it is.
   */
  function Strip(s: string): (r: string)
    ensures IsTrimmed(r)
    ensures IsTrimmed(s) ==> r == s
    ensures exists a :: StrippedAt(s, r, a)
  {
    var t := TrimLeft(s);
    var r := TrimRight(t);
    assert r == s[|s| - |t|..][..|r|];
    assert StrippedAt(s, r, |s| - |t|);
    r
  }

  /** `r` is `s` without the whitespace before position `a` and after `a + |r|`. */
  predicate StrippedAt(s: string, r: string, a: int)
  {
    && 0 <= a <= |s| - |r|
    && r == s[a..a + |r|]
    && (forall i :: 0 <= i < a ==> IsSpace(s[i]))
    && (forall i :: a + |r| <= i < |s| ==> IsSpace(s[i]))
  }

  lemma NoUpperOfStrip(s: string)
    requires NoUpper(s)
    ensures NoUpper(Strip(s))
  {
    var r := Strip(s);
    var a :| StrippedAt(s, r, a);
    assert forall i :: 0 <= i < |r| ==> r[i] == s[a + i];
  }

  /** `sub` occurs in `s` starting at index `j`. */
  predicate OccursAt(sub: string, s: string, j: int)
  {
    0 <= j && j + |sub| <= |s| && s[j..j + |sub|] == sub
  }

  /** Python's `a in b` on strings: `a` occurs in `b` as a contiguous block. */
  function IsInfix(a: string, b: string): bool
    decreases |b|
  {
    if a <= b then true else if |b| == 0 then false else IsInfix(a, b[1..])
  }

  /** `IsInfix` holds exactly when some window of `b` equals `a`. */
  lemma {:induction false} IsInfixIff(a: string, b: string)
    ensures IsInfix(a, b) <==> exists i :: OccursAt(a, b, i)
    decreases |b|
  {
    if a <= b {
      assert OccursAt(a, b, 0);
    } else if |b| > 0 {
      IsInfixIff(a, b[1..]);
      if IsInfix(a, b[1..]) {
        var i :| OccursAt(a, b[1..], i);
        assert b[1..][i..i + |a|] == b[i + 1..i + 1 + |a|];
        assert OccursAt(a, b, i + 1);
      } else {
        forall i ensures !OccursAt(a, b, i) {
          if i == 0 && |a| <= |b| {
            assert b[0..|a|] == b[..|a|];
          } else if 0 < i && i + |a| <= |b| {
            assert b[1..][i - 1..i - 1 + |a|] == b[i..i + |a|];
            assert !OccursAt(a, b[1..], i - 1);
          }
        }
      }
    }
  }

  /** Every string contains the empty string (so `"" in s` is always true). */
  lemma EmptyIsInfix(b: string)
    ensures IsInfix("", b)
  {
  }

  /** `s.find(sub, i)`: the lowest index at or after `i` where `sub` occurs, or -1. */
  function FindFrom(s: string, sub: string, i: nat): (r: int)
    ensures r == -1 ==> forall j :: i <= j ==> !OccursAt(sub, s, j)
    ensures r != -1 ==> i <= r && OccursAt(sub, s, r)
    ensures r != -1 ==> forall j :: i <= j < r ==> !OccursAt(sub, s, j)
    decreases |s| - i
  {
    if i + |sub| > |s| then -1
    else if s[i..i + |sub|] == sub then i
    else FindFrom(s, sub, i + 1)
  }

  /** `s.find(sub)` */
  function Find(s: string, sub: string): int
  {
    FindFrom(s, sub, 0)
  }

  /** `sep.join(ws)` */
  function JoinWith(ws: seq<string>, sep: string): string
  {
    if ws == [] then "" else if |ws| == 1 then ws[0] else ws[0] + sep + JoinWith(ws[1..], sep)
  }

  /** `s.split(d)` for a one-character separator: the pieces between separators, empty ones kept. */
  function SplitOn(s: string, d: char): (r: seq<string>)
    ensures |r| >= 1
    ensures forall k :: 0 <= k < |r| ==> d !in r[k]
    decreases |s|
  {
    if s == [] then [""]
    else
      var rest := SplitOn(s[1..], d);
      if s[0] == d then [""] + rest else [[s[0]] + rest[0]] + rest[1..]
  }

  /** Joining the pieces of `s.split(d)` with `d` gives `s` back. */
  lemma {:induction false} JoinSplitOn(s: string, d: char)
    ensures JoinWith(SplitOn(s, d), [d]) == s
    decreases |s|
  {
    if s != [] {
      JoinSplitOn(s[1..], d);
      var rest := SplitOn(s[1..], d);
      if s[0] == d {
        assert s == [d] + s[1..];
      } else if |rest| == 1 {
        assert s == [s[0]] + rest[0];
      } else {
        var r := SplitOn(s, d);
        assert r[1..] == rest[1..];
        calc {
          JoinWith(r, [d]);
          r[0] + [d] + JoinWith(rest[1..], [d]);
          [s[0]] + (rest[0] + [d] + JoinWith(rest[1..], [d]));
          [s[0]] + JoinWith(rest, [d]);
          s;
        }
      }
    }
  }

  /** Splitting a join of separator-free pieces gives the pieces back. */
  lemma {:induction false} SplitOnJoin(ps: seq<string>, d: char)
    requires |ps| >= 1
    requires forall k :: 0 <= k < |ps| ==> d !in ps[k]
    ensures SplitOn(JoinWith(ps, [d]), d) == ps
    decreases |ps|, |ps[0]|
  {
    var p := ps[0];
    if |ps| == 1 {
      SplitOnFree(p, d);
    } else if p == [] {
      var s := JoinWith(ps, [d]);
      assert s == [d] + JoinWith(ps[1..], [d]);
      assert s[1..] == JoinWith(ps[1..], [d]);
      SplitOnJoin(ps[1..], d);
    } else {
      var ps' := [p[1..]] + ps[1..];
      assert ps'[1..] == ps[1..];
      var s := JoinWith(ps, [d]);
      assert s == [p[0]] + JoinWith(ps', [d]) by {
        assert p == [p[0]] + p[1..];
      }
      assert s[1..] == JoinWith(ps', [d]);
      assert p[0] in p;
      assert forall k :: 0 <= k < |ps'| ==> d !in ps'[k] by {
        forall k | 0 <= k < |ps'| ensures d !in ps'[k] {
          if k == 0 {
            assert forall x :: x in p[1..] ==> x in p;
          } else {
            assert ps'[k] == ps[k];
          }
        }
      }
      SplitOnJoin(ps', d);
      assert p == [p[0]] + p[1..];
    }
  }

  /** A separator-free string splits into itself alone. */
  lemma {:induction false} SplitOnFree(p: string, d: char)
    requires d !in p
    ensures SplitOn(p, d) == [p]
    decreases |p|
  {
    if p != [] {
      assert p[0] in p;
      assert forall x :: x in p[1..] ==> x in p;
      SplitOnFree(p[1..], d);
      assert p == [p[0]] + p[1..];
    }
  }

  /** Length of the leading run of non-whitespace characters. */
  function WordLen(s: string): (n: nat)
    ensures n <= |s|
    ensures forall i :: 0 <= i < n ==> !IsSpace(s[i])
    ensures n == |s| || IsSpace(s[n])
  {
    if s == [] || IsSpace(s[0]) then 0 else 1 + WordLen(s[1..])
  }

  /** `s.split()`: the maximal runs of non-whitespace characters of `s`, in order. */
  function Words(s: string): (ws: seq<string>)
    ensures forall k :: 0 <= k < |ws| ==> ws[k] != []
    decreases |s|
  {
    if s == [] then []
    else if IsSpace(s[0]) then Words(s[1..])
    else
      var n := WordLen(s);
      [s[..n]] + Words(s[n..])
  }

  /** The words of `s` are made of characters of `s` that are not whitespace. */
  lemma {:induction false} WordsChars(s: string)
    ensures forall k, i :: 0 <= k < |Words(s)| && 0 <= i < |Words(s)[k]| ==> !IsSpace(Words(s)[k][i]) && Words(s)[k][i] in s
    decreases |s|
  {
    if s != [] {
      if IsSpace(s[0]) {
        WordsChars(s[1..]);
        assert forall x :: x in s[1..] ==> x in s;
      } else {
        var n := WordLen(s);
        WordsChars(s[n..]);
        assert forall x :: x in s[n..] ==> x in s;
        assert forall x :: x in s[..n] ==> x in s;
        var ws := Words(s);
        assert ws[0] == s[..n];
        assert forall k :: 1 <= k < |ws| ==> ws[k] == Words(s[n..])[k - 1];
      }
    }
  }

  /** A word list: non-empty pieces without whitespace. */
  predicate IsWordList(ws: seq<string>)
  {
    forall k, i :: 0 <= k < |ws| && 0 <= i < |ws[k]| ==> ws[k] != [] && !IsSpace(ws[k][i])
  }

  lemma {:induction false} WordLenOfWord(w: string, t: string)
    requires forall i :: 0 <= i < |w| ==> !IsSpace(w[i])
    requires t == [] || IsSpace(t[0])
    ensures WordLen(w + t) == |w|
    decreases |w|
  {
    if w != [] {
      assert (w + t)[1..] == w[1..] + t;
      WordLenOfWord(w[1..], t);
    } else {
      assert w + t == t;
    }
  }

  /** `' '.join(ws).split() == ws` for a word list `ws`. */
  lemma {:induction false} WordsOfJoin(ws: seq<string>)
    requires IsWordList(ws)
    requires forall k :: 0 <= k < |ws| ==> ws[k] != []
    ensures Words(JoinWith(ws, " ")) == ws
    decreases |ws|
  {
    if ws != [] {
      var w := ws[0];
      var s := JoinWith(ws, " ");
      if |ws| == 1 {
        WordLenOfWord(w, []);
        assert w + [] == w;
        assert s[|w|..] == [];
        assert s[..|w|] == w;
      } else {
        var rest := JoinWith(ws[1..], " ");
        assert s == w + (" " + rest);
        WordLenOfWord(w, " " + rest);
        assert s[..|w|] == w;
        assert s[|w|..] == " " + rest;
        assert (" " + rest)[1..] == rest;
        WordsOfJoin(ws[1..]);
        assert [w] + ws[1..] == ws;
      }
    }
  }

  /** Concatenation is associative. */
  lemma ConcatAssoc<T>(x: seq<T>, y: seq<T>, z: seq<T>)
    ensures (x + y) + z == x + (y + z)
  {
  }
}
