// The string operations of Python that the extractor relies on, over `seq<char>`.
// Character classes follow Python's Unicode tables exactly for ASCII and Latin-1;
// above U+00FF they are approximated (see README).

module Strings {
  import opened Common

  // ---------------------------------------------------------------- character classes

  predicate IsDigit(c: char) { '0' <= c <= '9' }

  /** Upper-case letters (`str.isupper` on one character). */
  predicate IsUpperChar(c: char)
  {
    'A' <= c <= 'Z' || ('\U{00C0}' <= c <= '\U{00DE}' && c != '\U{00D7}')
  }

  /** Lower-case letters (`str.islower` on one character). */
  predicate IsLowerChar(c: char)
  {
    'a' <= c <= 'z' || c == '\U{00AA}' || c == '\U{00B5}' || c == '\U{00BA}'
    || ('\U{00DF}' <= c <= '\U{00FF}' && c != '\U{00F7}')
  }

  /** Python's `str.isspace` on one character (the class `\s` in patterns). */
  predicate IsSpace(c: char)
  {
    c == ' ' || ('\t' <= c <= '\r') || ('\U{001C}' <= c <= '\U{001F}')
    || c == '\U{0085}' || c == '\U{00A0}' || c == '\U{1680}'
    || ('\U{2000}' <= c <= '\U{200A}') || c == '\U{2028}' || c == '\U{2029}'
    || c == '\U{202F}' || c == '\U{205F}' || c == '\U{3000}'
  }

  /** The pattern class `\w`: letters, digits and the underscore. */
  predicate IsWordChar(c: char)
  {
    IsDigit(c) || c == '_' || IsUpperChar(c) || IsLowerChar(c)
    || ('\U{0100}' <= c && !IsSpace(c) && !('\U{2000}' <= c <= '\U{2BFF}') && !('\U{3000}' <= c <= '\U{303F}'))
  }

  predicate IsNonWordChar(c: char) { !IsWordChar(c) }

  function ToLowerChar(c: char): (r: char)
    ensures IsUpperChar(c) ==> IsLowerChar(r)
    ensures !IsUpperChar(c) ==> r == c
  {
    if IsUpperChar(c) then (c as int + 32) as char else c
  }

  /** `str.lower()`. */
  function Lower(s: string): (r: string)
    ensures |r| == |s|
    ensures forall i :: 0 <= i < |s| ==> r[i] == ToLowerChar(s[i])
  {
    seq(|s|, i requires 0 <= i < |s| => ToLowerChar(s[i]))
  }

  /** Every occurrence of the character `a` replaced by `b` (`str.replace` with one-character arguments). */
  function ReplaceChar(s: string, a: char, b: char): (r: string)
    ensures |r| == |s|
    ensures forall i :: 0 <= i < |s| ==> r[i] == if s[i] == a then b else s[i]
  {
    seq(|s|, i requires 0 <= i < |s| => if s[i] == a then b else s[i])
  }

  predicate HasUpperChar(s: string) { |s| > 0 && (IsUpperChar(s[0]) || HasUpperChar(s[1..])) }
  predicate HasLowerChar(s: string) { |s| > 0 && (IsLowerChar(s[0]) || HasLowerChar(s[1..])) }

  /** `str.isupper()`: at least one cased character and no lower-case one. */
  predicate IsUpper(s: string) { HasUpperChar(s) && !HasLowerChar(s) }

  /** True iff some character of `s` is a word character that is not a digit (a letter or `_`). */
  predicate HasLetter(s: string)
  {
    |s| > 0 && ((IsWordChar(s[0]) && !IsDigit(s[0])) || HasLetter(s[1..]))
  }

  predicate NoSpace(s: string) { forall i :: 0 <= i < |s| ==> !IsSpace(s[i]) }

  /** Concatenation regroups. */
  lemma AppendAssoc(s: string, t: string, u: string)
    ensures s + (t + u) == (s + t) + u
  {
  }

  lemma {:induction false} HasUpperCharAt(s: string)
    ensures HasUpperChar(s) <==> exists i :: 0 <= i < |s| && IsUpperChar(s[i])
  {
    if |s| > 0 {
      HasUpperCharAt(s[1..]);
      if IsUpperChar(s[0]) {
      } else if HasUpperChar(s[1..]) {
        var i :| 0 <= i < |s| - 1 && IsUpperChar(s[1..][i]);
        assert IsUpperChar(s[i + 1]);
      } else {
        forall i | 0 < i < |s| ensures !IsUpperChar(s[i]) { assert s[i] == s[1..][i - 1]; }
      }
    }
  }

  lemma {:induction false} HasLowerCharAt(s: string)
    ensures HasLowerChar(s) <==> exists i :: 0 <= i < |s| && IsLowerChar(s[i])
  {
    if |s| > 0 {
      HasLowerCharAt(s[1..]);
      if IsLowerChar(s[0]) {
      } else if HasLowerChar(s[1..]) {
        var i :| 0 <= i < |s| - 1 && IsLowerChar(s[1..][i]);
        assert IsLowerChar(s[i + 1]);
      } else {
        forall i | 0 < i < |s| ensures !IsLowerChar(s[i]) { assert s[i] == s[1..][i - 1]; }
      }
    }
  }
  /** A non-empty run of ASCII capitals is upper case and made of word characters. */
  lemma AsciiCapitals(w: string)
    requires |w| > 0 && forall k :: 0 <= k < |w| ==> 'A' <= w[k] <= 'Z'
    ensures IsUpper(w) && forall k :: 0 <= k < |w| ==> IsWordChar(w[k])
  {
    HasUpperCharAt(w);
    HasLowerCharAt(w);
  }


  // ---------------------------------------------------------------- strip

  function LStrip(s: string): (r: string)
    ensures |r| <= |s| && r == s[|s| - |r|..]
    ensures |r| > 0 ==> !IsSpace(r[0])
    ensures forall i :: 0 <= i < |s| - |r| ==> IsSpace(s[i])
  {
    if |s| > 0 && IsSpace(s[0]) then LStrip(s[1..]) else s
  }

  function RStrip(s: string): (r: string)
    ensures |r| <= |s| && r == s[..|r|]
    ensures |r| > 0 ==> !IsSpace(r[|r| - 1])
    ensures forall i :: |r| <= i < |s| ==> IsSpace(s[i])
  {
    if |s| > 0 && IsSpace(s[|s| - 1]) then RStrip(s[..|s| - 1]) else s
  }

  /** `str.strip()`: leading and trailing whitespace removed. */
  function Strip(s: string): string { RStrip(LStrip(s)) }

  /** `str.strip(chars)`. */
  function StripChars(s: string, cs: set<char>): (r: string)
    ensures |r| <= |s|
    ensures |r| > 0 ==> r[0] !in cs && r[|r| - 1] !in cs
    decreases |s|
  {
    if |s| > 0 && s[0] in cs then StripChars(s[1..], cs)
    else if |s| > 0 && s[|s| - 1] in cs then StripChars(s[..|s| - 1], cs)
    else s
  }

  lemma {:induction false} StripNoSpace(s: string)
    requires NoSpace(s)
    ensures Strip(s) == s
  {
    assert LStrip(s) == s by {
      if |s| > 0 { assert !IsSpace(s[0]); }
    }
    if |s| > 0 { assert !IsSpace(s[|s| - 1]); }
  }

  /** Stripping leaves nothing exactly when every character is whitespace. */
  lemma StripEmpty(s: string)
    ensures Strip(s) == "" <==> forall i :: 0 <= i < |s| ==> IsSpace(s[i])
  {
    var l := LStrip(s);
    if |l| > 0 { assert l[0] == s[|s| - |l|]; }
    forall i | |s| - |l| <= i < |s| ensures s[i] == l[i - (|s| - |l|)] { }
  }

  /** Stripped text neither starts nor ends with whitespace. */
  lemma {:induction false} StripEdges(s: string)
    ensures |Strip(s)| > 0 ==> !IsSpace(Strip(s)[0]) && !IsSpace(Strip(s)[|Strip(s)| - 1])
  {
    var l := LStrip(s);
    var r := RStrip(l);
    assert Strip(s) == r;
    if |r| > 0 {
      assert |l| > 0 && !IsSpace(l[0]);
      assert r[0] == l[..|r|][0] == l[0];
      assert !IsSpace(r[|r| - 1]);
    }
  }

  /** A text without whitespace at either end is its own strip, also behind one leading space. */
  lemma StripTrimmed(x: string)
    requires |x| > 0 && !IsSpace(x[0]) && !IsSpace(x[|x| - 1])
    ensures Strip(x) == x && Strip(" " + x) == x
  {
    assert (" " + x)[1..] == x;
    assert LStrip(" " + x) == LStrip(x) == x;
  }

  // ---------------------------------------------------------------- lower-casing

  /** Lower-casing a character is idempotent and keeps its class. */
  lemma ToLowerCharClasses(c: char)
    ensures ToLowerChar(ToLowerChar(c)) == ToLowerChar(c)
    ensures IsSpace(ToLowerChar(c)) == IsSpace(c)
    ensures IsNonWordChar(ToLowerChar(c)) == IsNonWordChar(c)
  {
  }

  /** `s.lower().lower() == s.lower()`. */
  lemma LowerIdempotent(s: string)
    ensures Lower(Lower(s)) == Lower(s)
  {
    forall i | 0 <= i < |s| ensures Lower(Lower(s))[i] == Lower(s)[i] { ToLowerCharClasses(s[i]); }
  }

  lemma LowerConcat(a: string, b: string)
    ensures Lower(a + b) == Lower(a) + Lower(b)
  {
  }

  lemma LowerSlices(s: string, i: nat)
    requires i <= |s|
    ensures Lower(s)[i..] == Lower(s[i..]) && Lower(s)[..i] == Lower(s[..i])
  {
  }

  /** A character class that lower-casing keeps. */
  predicate CaseBlind(p: char -> bool) { forall c {:trigger ToLowerChar(c)} :: p(ToLowerChar(c)) == p(c) }

  lemma {:induction false} DropWhileLower(s: string, p: char -> bool)
    requires CaseBlind(p)
    ensures DropWhile(Lower(s), p) == Lower(DropWhile(s, p))
    decreases |s|
  {
    if |s| > 0 {
      assert p(Lower(s)[0]) == p(s[0]);
      LowerSlices(s, 1);
      DropWhileLower(s[1..], p);
    }
  }

  /** Lower-casing commutes with `re.sub(P+, ' ', s)` when P ignores case. */
  lemma {:induction false} CollapseRunsLower(s: string, p: char -> bool)
    requires CaseBlind(p)
    ensures CollapseRuns(Lower(s), p) == Lower(CollapseRuns(s, p))
    decreases |s|
  {
    if |s| > 0 {
      if p(s[0]) {
        CollapseRunsLower(DropWhile(s, p), p);
        CollapseLowerRun(s, p);
      } else {
        CollapseRunsLower(s[1..], p);
        CollapseLowerKept(s, p);
      }
    }
  }

  lemma LowerCons(c: char, t: string)
    ensures Lower([c] + t) == [ToLowerChar(c)] + Lower(t)
  {
    LowerConcat([c], t);
  }

  /** The step of `CollapseRunsLower` at a run. */
  lemma CollapseLowerRun(s: string, p: char -> bool)
    requires CaseBlind(p) && |s| > 0 && p(s[0])
    requires CollapseRuns(Lower(DropWhile(s, p)), p) == Lower(CollapseRuns(DropWhile(s, p), p))
    ensures CollapseRuns(Lower(s), p) == Lower(CollapseRuns(s, p))
  {
    var l := Lower(s);
    var d := DropWhile(s, p);
    var c := CollapseRuns(d, p);
    assert p(l[0]) by { assert l[0] == ToLowerChar(s[0]); }
    DropWhileLower(s, p);
    assert CollapseRuns(l, p) == " " + CollapseRuns(DropWhile(l, p), p);
    assert CollapseRuns(s, p) == " " + c;
    LowerCons(' ', c);
    assert ToLowerChar(' ') == ' ';
  }

  /** The step of `CollapseRunsLower` at a character outside the class. */
  lemma CollapseLowerKept(s: string, p: char -> bool)
    requires CaseBlind(p) && |s| > 0 && !p(s[0])
    requires CollapseRuns(Lower(s[1..]), p) == Lower(CollapseRuns(s[1..], p))
    ensures CollapseRuns(Lower(s), p) == Lower(CollapseRuns(s, p))
  {
    var l := Lower(s);
    assert l[0] == ToLowerChar(s[0]);
    assert !p(l[0]);
    LowerSlices(s, 1);
    var c := CollapseRuns(s[1..], p);
    assert CollapseRuns(l, p) == [l[0]] + CollapseRuns(Lower(s[1..]), p);
    assert CollapseRuns(s, p) == [s[0]] + c;
    LowerCons(s[0], c);
  }

  lemma {:induction false} LStripLower(s: string)
    ensures LStrip(Lower(s)) == Lower(LStrip(s))
    decreases |s|
  {
    if |s| > 0 {
      ToLowerCharClasses(s[0]);
      LowerSlices(s, 1);
      LStripLower(s[1..]);
    }
  }

  lemma {:induction false} RStripLower(s: string)
    ensures RStrip(Lower(s)) == Lower(RStrip(s))
    decreases |s|
  {
    if |s| > 0 {
      ToLowerCharClasses(s[|s| - 1]);
      LowerSlices(s, |s| - 1);
      RStripLower(s[..|s| - 1]);
    }
  }

  /** `s.lower().strip() == s.strip().lower()`. */
  lemma StripLower(s: string)
    ensures Strip(Lower(s)) == Lower(Strip(s))
  {
    LStripLower(s);
    RStripLower(LStrip(s));
  }

  // ---------------------------------------------------------------- split and join

  /** `str.split()` with no argument: the maximal runs of non-whitespace characters. */
  function SplitWs(s: string): seq<string> { SplitWsFrom(s, "") }

  function SplitWsFrom(s: string, cur: string): (r: seq<string>)
    decreases |s|
  {
    if |s| == 0 then (if cur == "" then [] else [cur])
    else if IsSpace(s[0]) then (if cur == "" then SplitWsFrom(s[1..], "") else [cur] + SplitWsFrom(s[1..], ""))
    else SplitWsFrom(s[1..], cur + [s[0]])
  }

  lemma {:induction false} SplitWsFromTokens(s: string, cur: string)
    requires NoSpace(cur)
    ensures forall t :: t in SplitWsFrom(s, cur) ==> |t| > 0 && NoSpace(t)
    decreases |s|
  {
    if |s| == 0 {
    } else if IsSpace(s[0]) {
      SplitWsFromTokens(s[1..], "");
    } else {
      SplitWsFromTokens(s[1..], cur + [s[0]]);
    }
  }

  /** Every token of `str.split()` is non-empty and holds no whitespace. */
  lemma SplitWsTokens(s: string)
    ensures forall t :: t in SplitWs(s) ==> |t| > 0 && NoSpace(t)
  {
    SplitWsFromTokens(s, "");
  }

  lemma {:induction false} SplitWsFromSkip(t: string, rest: string, cur: string)
    requires NoSpace(t)
    ensures SplitWsFrom(t + rest, cur) == SplitWsFrom(rest, cur + t)
    decreases |t|
  {
    if |t| > 0 {
      assert (t + rest)[0] == t[0];
      assert (t + rest)[1..] == t[1..] + rest;
      SplitWsFromSkip(t[1..], rest, cur + [t[0]]);
      assert cur + [t[0]] + t[1..] == cur + t;
    } else {
      assert t + rest == rest;
      assert cur + t == cur;
    }
  }

  /** Two whitespace-free words around one whitespace character split back into those words. */
  lemma SplitWsPair(a: string, sep: char, b: string)
    requires |a| > 0 && |b| > 0 && NoSpace(a) && NoSpace(b) && IsSpace(sep)
    ensures SplitWs(a + [sep] + b) == [a, b]
  {
    SplitWsFromSkip(a, [sep] + b, "");
    assert a + [sep] + b == a + ([sep] + b);
    assert "" + a == a;
    assert ([sep] + b)[1..] == b;
    SplitWsFromSkip(b, "", "");
    assert b + "" == b;
    assert "" + b == b;
  }

  /** A text of whitespace alone has no words. */
  lemma {:induction false} SplitWsBlank(s: string)
    requires forall i :: 0 <= i < |s| ==> IsSpace(s[i])
    ensures SplitWs(s) == []
  {
    if |s| > 0 {
      SplitWsBlank(s[1..]);
    }
  }

  /** Non-empty words free of whitespace, joined by single spaces, split back into the words. */
  lemma {:induction false} SplitWsJoin(ts: seq<string>)
    requires forall i :: 0 <= i < |ts| ==> |ts[i]| > 0 && NoSpace(ts[i])
    ensures SplitWs(Join(" ", ts)) == ts
  {
    if |ts| == 1 {
      SplitWsFromSkip(ts[0], "", "");
      assert ts[0] + "" == ts[0] && "" + ts[0] == ts[0];
    } else if |ts| > 1 {
      var rest := Join(" ", ts[1..]);
      SplitWsJoin(ts[1..]);
      SplitWsFromSkip(ts[0], " " + rest, "");
      assert ts[0] + " " + rest == ts[0] + (" " + rest);
      assert "" + ts[0] == ts[0];
      assert (" " + rest)[0] == ' ' && (" " + rest)[1..] == rest;
      assert ts == [ts[0]] + ts[1..];
    }
  }

  /** `sep.join(parts)`. */
  function Join(sep: string, parts: seq<string>): string
  {
    if |parts| == 0 then "" else if |parts| == 1 then parts[0] else parts[0] + sep + Join(sep, parts[1..])
  }

  lemma {:induction false} JoinSnoc(sep: string, parts: seq<string>, x: string)
    ensures Join(sep, parts + [x]) == if |parts| == 0 then x else Join(sep, parts) + sep + x
    decreases |parts|
  {
    if |parts| == 0 {
      assert parts + [x] == [x];
    } else if |parts| == 1 {
      assert parts + [x] == [parts[0], x];
      assert [parts[0], x][1..] == [x];
    } else {
      assert (parts + [x])[1..] == parts[1..] + [x];
      JoinSnoc(sep, parts[1..], x);
    }
  }

  /** `s.split(c)` for a one-character separator, and `re.split` on a character class: the
      pieces between separators, empty pieces included. */
  function SplitWhere(s: string, isSep: char -> bool): seq<string>
  {
    SplitWhereFrom(s, isSep, "")
  }

  function SplitWhereFrom(s: string, isSep: char -> bool, cur: string): (r: seq<string>)
    ensures |r| > 0
    decreases |s|
  {
    if |s| == 0 then [cur]
    else if isSep(s[0]) then [cur] + SplitWhereFrom(s[1..], isSep, "")
    else SplitWhereFrom(s[1..], isSep, cur + [s[0]])
  }

  lemma {:induction false} SplitWhereFromPieces(s: string, isSep: char -> bool, cur: string)
    requires forall i :: 0 <= i < |cur| ==> !isSep(cur[i])
    ensures forall t :: t in SplitWhereFrom(s, isSep, cur) ==> forall i :: 0 <= i < |t| ==> !isSep(t[i])
    decreases |s|
  {
    if |s| == 0 {
    } else if isSep(s[0]) {
      SplitWhereFromPieces(s[1..], isSep, "");
    } else {
      var c := cur + [s[0]];
      assert forall i :: 0 <= i < |c| ==> !isSep(c[i]) by {
        forall i | 0 <= i < |c| ensures !isSep(c[i]) { if i < |cur| { assert c[i] == cur[i]; } }
      }
      SplitWhereFromPieces(s[1..], isSep, c);
    }
  }

  /** No piece returned by `SplitWhere` contains a separator. */
  lemma SplitWherePieces(s: string, isSep: char -> bool)
    ensures forall t :: t in SplitWhere(s, isSep) ==> forall i :: 0 <= i < |t| ==> !isSep(t[i])
  {
    SplitWhereFromPieces(s, isSep, "");
  }

  // ---------------------------------------------------------------- search and replace

  predicate IsPrefix(p: string, s: string) { |p| <= |s| && s[..|p|] == p }

  /** `sub in s`. */
  predicate Contains(s: string, sub: string)
    decreases |s|
  {
    IsPrefix(sub, s) || (|s| > 0 && Contains(s[1..], sub))
  }

  predicate OccursAt(s: string, sub: string, i: int)
  {
    0 <= i && i + |sub| <= |s| && s[i..i + |sub|] == sub
  }

  lemma {:induction false} ContainsAt(s: string, sub: string)
    ensures Contains(s, sub) <==> exists i :: OccursAt(s, sub, i)
    decreases |s|
  {
    assert OccursAt(s, sub, 0) ==> IsPrefix(sub, s);
    if IsPrefix(sub, s) {
      assert OccursAt(s, sub, 0);
    } else if |s| > 0 {
      ContainsAt(s[1..], sub);
      forall i | OccursAt(s[1..], sub, i) ensures OccursAt(s, sub, i + 1) {
        assert s[i + 1..i + 1 + |sub|] == s[1..][i..i + |sub|];
      }
      forall i | OccursAt(s, sub, i) ensures OccursAt(s[1..], sub, i - 1) {
        assert s[i..i + |sub|] == s[1..][i - 1..i - 1 + |sub|];
      }
    }
  }

  /** `s.find(sub, start)`: the first index at or after `start` where `sub` occurs, else -1. */
  function FindFrom(s: string, sub: string, start: nat): (r: int)
    ensures r == -1 || (start <= r && OccursAt(s, sub, r))
    ensures r == -1 ==> forall j :: start <= j ==> !OccursAt(s, sub, j)
    ensures r != -1 ==> forall j :: start <= j < r ==> !OccursAt(s, sub, j)
    decreases |s| - start
  {
    if start + |sub| > |s| then -1
    else if s[start..start + |sub|] == sub then start
    else FindFrom(s, sub, start + 1)
  }

  /** `s.find(sub)`. */
  function Find(s: string, sub: string): int { FindFrom(s, sub, 0) }

  /** `s.replace(old, new)`: every non-overlapping occurrence, scanning from the left. */
  function Replace(s: string, target: string, repl: string): string
    decreases |s|
  {
    if |target| == 0 then (if |s| == 0 then repl else repl + [s[0]] + Replace(s[1..], target, repl))
    else if IsPrefix(target, s) then repl + Replace(s[|target|..], target, repl)
    else if |s| == 0 then s
    else [s[0]] + Replace(s[1..], target, repl)
  }

  /** The pattern substitution `re.sub(P+, ' ', s)`, where `inRun` decides the class P. */
  function CollapseRuns(s: string, inRun: char -> bool): (r: string)
    ensures |r| <= |s|
    decreases |s|
  {
    if |s| == 0 then ""
    else if inRun(s[0]) then " " + CollapseRuns(DropWhile(s, inRun), inRun)
    else [s[0]] + CollapseRuns(s[1..], inRun)
  }

  function DropWhile(s: string, p: char -> bool): (r: string)
    ensures |r| <= |s| && r == s[|s| - |r|..]
    ensures |s| > 0 && p(s[0]) ==> |r| < |s|
    ensures |r| > 0 ==> !p(r[0])
    decreases |s|
  {
    if |s| > 0 && p(s[0]) then DropWhile(s[1..], p) else s
  }

  /** The prefix `s[:k]` and suffix `s[k:]` with Python's clamping of out-of-range bounds. */
  function Take(s: string, k: int): (r: string)
    ensures |r| <= |s|
  {
    if k <= 0 then "" else if k >= |s| then s else s[..k]
  }

  function Drop(s: string, k: int): (r: string)
    ensures |r| <= |s|
  {
    if k <= 0 then s else if k >= |s| then "" else s[k..]
  }

  /** `s[-n:]` for n > 0. */
  function LastN(s: string, n: nat): (r: string)
    ensures |r| == if n < |s| then n else |s|
  {
    if n >= |s| then s else s[|s| - n..]
  }

  // ---------------------------------------------------------------- integers

  function DigitChar(d: nat): (c: char)
    requires d < 10
    ensures IsDigit(c) && c as int - '0' as int == d
  {
    ('0' as int + d) as char
  }

  predicate AllDigits(s: string) { forall i :: 0 <= i < |s| ==> IsDigit(s[i]) }

  /** The decimal digits of `n`, most significant first (`%d`, `str()`). */
  function NatToString(n: nat): (r: string)
    ensures |r| > 0 && AllDigits(r)
    decreases n
  {
    if n < 10 then [DigitChar(n)] else NatToString(n / 10) + [DigitChar(n % 10)]
  }

  function IntToString(n: int): (r: string)
    ensures |r| > 0 && (r[0] == '-' || IsDigit(r[0])) && AllDigits(r[1..])
    ensures NoSpace(r)
  {
    if n < 0 then "-" + NatToString(-n) else NatToString(n)
  }

  function DigitsValue(s: string): nat
    requires AllDigits(s)
  {
    if |s| == 0 then 0 else DigitsValue(s[..|s| - 1]) * 10 + (s[|s| - 1] as int - '0' as int)
  }

  /** `int(s)` on text: optional surrounding whitespace, an optional sign, then ASCII digits. */
  function ParseInt(s: string): Option<int>
  {
    var t := Strip(s);
    if |t| > 1 && (t[0] == '-' || t[0] == '+') && AllDigits(t[1..]) then
      Some(if t[0] == '-' then -(DigitsValue(t[1..]) as int) else DigitsValue(t[1..]))
    else if |t| > 0 && AllDigits(t) then Some(DigitsValue(t))
    else None
  }

  lemma {:induction false} DigitsOfNat(n: nat)
    ensures DigitsValue(NatToString(n)) == n
    decreases n
  {
    if n >= 10 {
      var r := NatToString(n);
      assert r[..|r| - 1] == NatToString(n / 10);
      DigitsOfNat(n / 10);
    }
  }

  /** Text written by `%d` or `str()` of an integer reads back as that integer. */
  lemma ParseIntToString(n: int)
    ensures ParseInt(IntToString(n)) == Some(n)
  {
    var r := IntToString(n);
    StripNoSpace(r);
    if n < 0 {
      assert r[1..] == NatToString(-n);
      DigitsOfNat(-n);
    } else {
      DigitsOfNat(n);
    }
  }
}
