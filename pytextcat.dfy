// The n-gram language guesser of language/pytextcat.py, after Cavnar and Trenkle's "N-Gram-Based
// Text Categorization": counting character and word n-grams, ranking the most frequent ones into
// a model, the out-of-place distance between two models, the model file format, and the
// character-model part of the classifier.

module TextCat {
  import opened Common
  import opened Strings
  import opened Dicts
  import opened Lists
  import opened Sorting
  import opened LangUtil

  /** `NGramModel.NB_NGRAMS`: the number of grams a character model keeps. */
  const NB_NGRAMS: nat := 400
  /** `WordModel.NB_NGRAMS`. */
  const WORD_NB_NGRAMS: nat := 30000
  /** The distance charged for a gram of the unknown text that the model lacks. */
  const MISSING_VALUE: nat := 400

  // ---------------------------------------------------------------- tokenise

  /** The character class `SPLITCHARS`. */
  predicate IsSplitChar(c: char)
  {
    c in "][}{)(>< \n\t:;!.?_,\U{00B6}\U{00A7}%&\U{00A3}\U{20AC}$\U{00B9}\U{00B0}\U{00BD}\U{00BC}\U{00BE}\U{00A9}"
    || c in "\U{2190}\U{2192}\U{25AA}\U{27A2}\U{221A}|#\U{2013}\U{2012}\U{2026}\U{00B7}\U{2022}@~\\/\U{201D}\U{201C}\U{00AB}\U{00BB}\""
    || IsDigit(c) || c in "=*+\U{2011}-"
  }

  /** A token character: neither whitespace nor a split character. */
  predicate IsTokenChar(c: char) { !IsSpace(c) && !IsSplitChar(c) }

  /** The pieces of every word, in order. */
  function Pieces(words: seq<string>): seq<string>
  {
    if |words| == 0 then [] else Pieces(words[..|words| - 1]) + SplitWhere(words[|words| - 1], IsSplitChar)
  }

  /** `tokenise(text)`: `text.split()`, then every word split again at each split character. */
  function Tokenise(text: string): seq<string>
  {
    Pieces(SplitWs(text))
  }

  /** The pieces of a split hold only characters of the text split. */
  lemma {:induction false} SplitWhereChars(s: string, isSep: char -> bool, cur: string)
    requires NoSpace(cur) && NoSpace(s)
    ensures forall t :: t in SplitWhereFrom(s, isSep, cur) ==> NoSpace(t)
    decreases |s|
  {
    if |s| > 0 {
      if isSep(s[0]) {
        SplitWhereChars(s[1..], isSep, "");
      } else {
        SplitWhereChars(s[1..], isSep, cur + [s[0]]);
      }
    }
  }

  lemma {:induction false} PiecesClean(words: seq<string>)
    requires forall i :: 0 <= i < |words| ==> NoSpace(words[i])
    ensures forall t :: t in Pieces(words) ==> forall i :: 0 <= i < |t| ==> IsTokenChar(t[i])
  {
    if |words| > 0 {
      var w := words[|words| - 1];
      PiecesClean(words[..|words| - 1]);
      SplitWhereChars(w, IsSplitChar, "");
      SplitWherePieces(w, IsSplitChar);
    }
  }

  /** No token holds whitespace or a split character. */
  lemma TokensClean(text: string)
    ensures forall t :: t in Tokenise(text) ==> forall i :: 0 <= i < |t| ==> IsTokenChar(t[i])
  {
    var words := SplitWs(text);
    SplitWsTokens(text);
    assert forall i :: 0 <= i < |words| ==> words[i] in words;
    PiecesClean(words);
  }

  // ---------------------------------------------------------------- counting

  /** The table after counting each gram of `gs`, in order. */
  function CountAll(freq: Dict<string, int>, gs: seq<string>): Dict<string, int>
  {
    if |gs| == 0 then freq else Bump(CountAll(freq, gs[..|gs| - 1]), gs[|gs| - 1])
  }

  /** The count of every gram goes up by the number of times it is counted, so no count
      decreases. */
  lemma {:induction false} CountAllGet(freq: Dict<string, int>, gs: seq<string>, g: string)
    ensures Get(CountAll(freq, gs), g).GetOr(0) == Get(freq, g).GetOr(0) + multiset(gs)[g]
  {
    if |gs| > 0 {
      var init := gs[..|gs| - 1];
      var last := gs[|gs| - 1];
      CountAllGet(freq, init, g);
      BumpGet(CountAll(freq, init), last, g);
      MultisetLast(gs, g);
    }
  }

  lemma MultisetLast(gs: seq<string>, g: string)
    requires |gs| > 0
    ensures multiset(gs)[g] == multiset(gs[..|gs| - 1])[g] + (if gs[|gs| - 1] == g then 1 else 0)
  {
    assert gs == gs[..|gs| - 1] + [gs[|gs| - 1]];
  }

  /** Counting a gram adds one to its count and leaves every other count alone. */
  lemma BumpGet(d: Dict<string, int>, g: string, g': string)
    ensures Get(Bump(d, g), g').GetOr(0) == Get(d, g').GetOr(0) + (if g == g' then 1 else 0)
  {
    if g != g' {
      PutOther(d, g, Get(d, g).GetOr(0) + 1, g');
    }
  }

  lemma CountAllSnoc(freq: Dict<string, int>, gs: seq<string>, g: string)
    ensures CountAll(freq, gs + [g]) == Bump(CountAll(freq, gs), g)
  {
    assert (gs + [g])[..|gs|] == gs;
  }

  /** Counting one more gram of a sequence extends the count of its prefix. */
  lemma CountAllPrefix(freq: Dict<string, int>, gs: seq<string>, i: nat)
    requires i < |gs|
    ensures CountAll(freq, gs[..i + 1]) == Bump(CountAll(freq, gs[..i]), gs[i])
  {
    assert gs[..i + 1][..i] == gs[..i];
  }

  /** `freq` is `freq0` with the grams of `done` counted. */
  predicate Counted(freq: Dict<string, int>, freq0: Dict<string, int>, done: seq<string>)
  {
    freq == CountAll(freq0, done)
  }

  lemma CountedStep(freq: Dict<string, int>, freq0: Dict<string, int>, done: seq<string>, g: string)
    requires Counted(freq, freq0, done)
    ensures Counted(Bump(freq, g), freq0, done + [g])
  {
    CountAllSnoc(freq0, done, g);
  }

  lemma CountedConcat(freq: Dict<string, int>, freq0: Dict<string, int>, done: seq<string>, more: seq<string>)
    requires Counted(freq, freq0, done)
    ensures Counted(CountAll(freq, more), freq0, done + more)
  {
    CountAllConcat(freq0, done, more);
  }

  /** Counting one list of grams after another is counting their concatenation. */
  lemma {:induction false} CountAllConcat(freq: Dict<string, int>, a: seq<string>, b: seq<string>)
    ensures CountAll(freq, a + b) == CountAll(CountAll(freq, a), b)
    decreases |b|
  {
    if |b| == 0 {
      assert a + b == a;
    } else {
      assert (a + b)[..|a + b| - 1] == a + b[..|b| - 1];
      CountAllConcat(freq, a, b[..|b| - 1]);
    }
  }

  /** Counting keeps a table's keys distinct. */
  lemma {:induction false} CountAllDistinct(freq: Dict<string, int>, gs: seq<string>)
    requires DistinctKeys(freq)
    ensures DistinctKeys(CountAll(freq, gs))
  {
    if |gs| > 0 {
      var before := CountAll(freq, gs[..|gs| - 1]);
      var g := gs[|gs| - 1];
      CountAllDistinct(freq, gs[..|gs| - 1]);
      BumpDistinct(before, g);
    }
  }

  // ---------------------------------------------------------------- character grams

  function Min(a: int, b: int): int { if a <= b then a else b }

  /** The grams of lengths 1 to `n` starting at position `i` of `p`. */
  function GramsUpTo(p: string, i: nat, n: nat): (r: seq<string>)
    requires i + n <= |p|
    ensures |r| == n
  {
    if n == 0 then [] else GramsUpTo(p, i, n - 1) + [p[i..i + n]]
  }

  /** The grams starting at position `i` of `p`: lengths 1 to 4, as far as `p` reaches. */
  function StartGrams(p: string, i: nat): seq<string>
    requires i < |p|
  {
    GramsUpTo(p, i, Min(4, |p| - i))
  }

  /** The grams of all starts before `n`, in counting order. */
  function GramsBefore(p: string, n: nat): seq<string>
    requires n <= |p|
  {
    if n == 0 then [] else GramsBefore(p, n - 1) + StartGrams(p, n - 1)
  }

  /** The grams `CharModel.freq_of_text` counts for one token `w`: those of `_w_`. */
  function CharGrams(w: string): seq<string>
  {
    var p := "_" + w + "_";
    GramsBefore(p, |p|)
  }

  /** The grams of a list of tokens, token by token. */
  function AllCharGrams(words: seq<string>): seq<string>
  {
    if |words| == 0 then [] else AllCharGrams(words[..|words| - 1]) + CharGrams(words[|words| - 1])
  }

  lemma AllCharGramsStep(words: seq<string>, i: nat)
    requires i < |words|
    ensures AllCharGrams(words[..i + 1]) == AllCharGrams(words[..i]) + CharGrams(words[i])
  {
    assert words[..i + 1][..i] == words[..i];
  }

  /** `g` is `p[i:i+s]` for a length `s` from 1 to 4 that fits in `p`. */
  predicate GramAt(p: string, g: string, i: int, s: int)
  {
    0 <= i && 1 <= s <= 4 && i + s <= |p| && g == p[i..i + s]
  }

  /** The grams counted from the starts before `n` are exactly the substrings of length 1 to 4
      that start there. */
  lemma {:induction false} GramsBeforeMembers(p: string, n: nat, g: string)
    requires n <= |p|
    ensures g in GramsBefore(p, n) <==> exists i, s :: 0 <= i < n && GramAt(p, g, i, s)
  {
    if n > 0 {
      GramsBeforeMembers(p, n - 1, g);
      StartGramsMembers(p, n - 1, Min(4, |p| - (n - 1)), g);
      assert GramsBefore(p, n) == GramsBefore(p, n - 1) + StartGrams(p, n - 1);
    }
  }

  lemma {:induction false} StartGramsMembers(p: string, i: nat, n: nat, g: string)
    requires i + n <= |p| && n <= 4
    ensures g in GramsUpTo(p, i, n) <==> exists s :: 1 <= s <= n && GramAt(p, g, i, s)
  {
    if n > 0 {
      StartGramsMembers(p, i, n - 1, g);
      assert GramAt(p, p[i..i + n], i, n);
    }
  }

  /** A gram is counted for token `w` exactly when it is `_w_[i:i+s]` with `1 <= s <= 4` and
      `i + s <= len(_w_)`. */
  lemma CharGramsMembers(w: string, g: string)
    ensures g in CharGrams(w) <==> exists i, s :: 0 <= i < |"_" + w + "_"| && GramAt("_" + w + "_", g, i, s)
  {
    GramsBeforeMembers("_" + w + "_", |"_" + w + "_"|, g);
  }

  /** The inner loop of `CharModel.freq_of_text`: the grams of lengths 1 to 4 at start `i`,
      leaving the loop once a gram reaches the end of `p`. */
  method CountStart(p: string, i: nat, freq0: Dict<string, int>) returns (freq: Dict<string, int>)
    requires i < |p|
    ensures freq == CountAll(freq0, StartGrams(p, i))
  {
    var size := |p|;
    ghost var n := Min(4, size - i);
    ghost var done: seq<string> := [];
    freq := freq0;
    var s := 1;
    var stop := false;
    while s <= 4 && !stop
      invariant 1 <= s <= 5 && s - 1 <= n
      invariant stop <==> s - 1 == size - i
      invariant done == GramsUpTo(p, i, s - 1)
      invariant Counted(freq, freq0, done)
    {
      var sub := p[i..i + s];
      CountedStep(freq, freq0, done, sub);
      freq := Bump(freq, sub);
      done := done + [sub];
      if i + s >= size {
        stop := true;
      }
      s := s + 1;
    }
    assert s - 1 == n;
  }

  /** `CharModel.freq_of_text` for one token `w`: the loop over the starts of `_w_`. */
  method CountCharGrams(word: string, freq0: Dict<string, int>) returns (freq: Dict<string, int>)
    ensures freq == CountAll(freq0, CharGrams(word))
  {
    var p := "_" + word + "_";
    var size := |p|;
    freq := freq0;
    var i := 0;
    while i < size
      invariant 0 <= i <= size
      invariant Counted(freq, freq0, GramsBefore(p, i))
    {
      ghost var before := freq;
      freq := CountStart(p, i, freq);
      CountedConcat(before, freq0, GramsBefore(p, i), StartGrams(p, i));
      i := i + 1;
    }
  }

  /** The counts of `CharModel.freq_of_text(text, freq0)`. */
  function CharFreq(text: string, freq0: Dict<string, int>): Dict<string, int>
  {
    CountAll(freq0, AllCharGrams(Tokenise(text)))
  }

  /** `CharModel.freq_of_text(text, freq)`: every gram of every token counted into the table. */
  method CharFreqOfText(text: string, freq0: Dict<string, int>) returns (freq: Dict<string, int>)
    ensures freq == CharFreq(text, freq0)
  {
    var words := Tokenise(text);
    freq := freq0;
    var i := 0;
    while i < |words|
      invariant 0 <= i <= |words|
      invariant Counted(freq, freq0, AllCharGrams(words[..i]))
    {
      ghost var before := freq;
      freq := CountCharGrams(words[i], freq);
      CountedConcat(before, freq0, AllCharGrams(words[..i]), CharGrams(words[i]));
      AllCharGramsStep(words, i);
      i := i + 1;
    }
    assert words[..|words|] == words;
  }

  /** The count of a gram after `freq_of_text` is its count before plus the number of times it
      occurs among the tokens' grams; in particular counts never decrease. */
  lemma CharFreqGet(text: string, freq0: Dict<string, int>, g: string)
    ensures Get(CharFreq(text, freq0), g).GetOr(0) == Get(freq0, g).GetOr(0) + multiset(AllCharGrams(Tokenise(text)))[g]
    ensures Get(CharFreq(text, freq0), g).GetOr(0) >= Get(freq0, g).GetOr(0)
  {
    CountAllGet(freq0, AllCharGrams(Tokenise(text)), g);
  }

  /** The counts of `WordModel.freq_of_text(text, freq0)`. */
  function WordFreq(text: string, freq0: Dict<string, int>): Dict<string, int>
  {
    CountAll(freq0, Tokenise(text))
  }

  /** `WordModel.freq_of_text(text, freq)`: every token counted into the table. */
  method WordFreqOfText(text: string, freq0: Dict<string, int>) returns (freq: Dict<string, int>)
    ensures freq == WordFreq(text, freq0)
  {
    var words := Tokenise(text);
    freq := freq0;
    var i := 0;
    while i < |words|
      invariant 0 <= i <= |words|
      invariant freq == CountAll(freq0, words[..i])
    {
      CountAllPrefix(freq0, words, i);
      freq := Bump(freq, words[i]);
      i := i + 1;
    }
    assert words[..|words|] == words;
  }

  /** A word's count goes up by its number of occurrences among the tokens. */
  lemma WordFreqGet(text: string, freq0: Dict<string, int>, g: string)
    ensures Get(WordFreq(text, freq0), g).GetOr(0) == Get(freq0, g).GetOr(0) + multiset(Tokenise(text))[g]
  {
    CountAllGet(freq0, Tokenise(text), g);
  }

  // ---------------------------------------------------------------- finish

  /** A finished model: the rank of each kept gram (0 for the most frequent) and its
      frequency, both in rank order. */
  datatype NGramModel = NGramModel(ngrams: Dict<string, int>, freq: Dict<string, int>)

  /** `sort_by_value(freq, reverse=True)[:nb]`: the `nb` most frequent items. */
  function Top(freq: Dict<string, int>, nb: nat): (r: seq<(string, int)>)
    ensures |r| <= nb && |r| <= |freq|
    ensures multiset(r) <= multiset(freq)
    ensures Ordered(r, Value, true)
  {
    var sorted := SortByValue(freq, true);
    if nb < |sorted| then
      assert sorted == sorted[..nb] + sorted[nb..];
      sorted[..nb]
    else sorted
  }

  /** The items of `top` whose gram is not empty, each paired with its position in `top`:
      `{gram: rank for rank, (gram, f) in enumerate(top) if gram != ""}`. */
  function Ranked(top: seq<(string, int)>): (r: Dict<string, int>)
    ensures |r| <= |top|
    ensures forall i :: 0 <= i < |r| ==> r[i].0 != "" && 0 <= r[i].1 < |top| && top[r[i].1].0 == r[i].0
    ensures forall i, j :: 0 <= i < j < |r| ==> r[i].1 < r[j].1
    ensures forall k :: 0 <= k < |top| && top[k].0 != "" ==> (top[k].0, k) in r
  {
    if |top| == 0 then []
    else
      var n := |top| - 1;
      var rest := Ranked(top[..n]);
      assert forall k :: 0 <= k < n ==> top[..n][k] == top[k];
      rest + (if top[n].0 != "" then [(top[n].0, n)] else [])
  }

  /** `finish(freq)` with `nb` grams kept: the non-empty grams among the `nb` most frequent
      items, ranked by their position in that list, and `freq` restricted to them. */
  function Finish(freq: Dict<string, int>, nb: nat): (m: NGramModel)
    ensures |m.ngrams| <= nb && |m.freq| == |m.ngrams|
    ensures forall i :: 0 <= i < |m.ngrams| ==> m.ngrams[i].0 != "" && 0 <= m.ngrams[i].1 < |Top(freq, nb)| <= nb
    ensures forall i :: 0 <= i < |m.ngrams| ==> Top(freq, nb)[m.ngrams[i].1].0 == m.ngrams[i].0
    ensures forall k :: 0 <= k < |Top(freq, nb)| && Top(freq, nb)[k].0 != "" ==> (Top(freq, nb)[k].0, k) in m.ngrams
    ensures forall i :: 0 <= i < |m.freq| ==> m.freq[i].0 == m.ngrams[i].0 && Get(freq, m.freq[i].0) == Some(m.freq[i].1)
  {
    var top := Top(freq, nb);
    var ngrams := Ranked(top);
    TopKeys(freq, nb);
    NGramModel(ngrams, Restrict(freq, ngrams))
  }

  /** `{gram: freq[gram] for gram in ngrams}`. */
  function Restrict(freq: Dict<string, int>, ngrams: Dict<string, int>): (r: Dict<string, int>)
    ensures |r| == |ngrams|
    ensures forall i :: 0 <= i < |r| ==> r[i].0 == ngrams[i].0
    ensures forall i :: 0 <= i < |r| && Get(freq, r[i].0).Some? ==> Get(freq, r[i].0) == Some(r[i].1)
  {
    seq(|ngrams|, i requires 0 <= i < |ngrams| => (ngrams[i].0, Get(freq, ngrams[i].0).GetOr(0)))
  }

  /** Every gram of the top list is a key of the table. */
  lemma TopKeys(freq: Dict<string, int>, nb: nat)
    ensures forall k :: 0 <= k < |Top(freq, nb)| ==> Get(freq, Top(freq, nb)[k].0).Some?
  {
    var top := Top(freq, nb);
    forall k | 0 <= k < |top| ensures Get(freq, top[k].0).Some? {
      assert top[k] in multiset(freq);
      var t :| 0 <= t < |freq| && freq[t] == top[k];
      assert Keys(freq)[t] == top[k].0;
    }
  }

  /** With distinct keys, a table's value for a gram of the top list is that item's value. */
  lemma TopValue(freq: Dict<string, int>, nb: nat, k: nat)
    requires DistinctKeys(freq) && k < |Top(freq, nb)|
    ensures Get(freq, Top(freq, nb)[k].0) == Some(Top(freq, nb)[k].1)
  {
    var top := Top(freq, nb);
    assert top[k] in multiset(freq);
    var t :| 0 <= t < |freq| && freq[t] == top[k];
    GetDistinct(freq, t);
  }

  /** A lower rank never carries a lower frequency. */
  lemma FinishOrder(freq: Dict<string, int>, nb: nat, i: nat, j: nat)
    requires DistinctKeys(freq)
    requires i < j < |Finish(freq, nb).ngrams|
    ensures Finish(freq, nb).ngrams[i].1 < Finish(freq, nb).ngrams[j].1
    ensures Finish(freq, nb).freq[i].1 >= Finish(freq, nb).freq[j].1
  {
    var m := Finish(freq, nb);
    var top := Top(freq, nb);
    var ri := m.ngrams[i].1;
    var rj := m.ngrams[j].1;
    assert ri < rj by {
      assert Ranked(top) == m.ngrams;
    }
    TopValue(freq, nb, ri);
    TopValue(freq, nb, rj);
    assert !Before(Value, true, top[rj], top[ri]);
  }

  /** A table with distinct keys gives a model with distinct grams. */
  lemma FinishDistinct(freq: Dict<string, int>, nb: nat)
    requires DistinctKeys(freq)
    ensures DistinctKeys(Finish(freq, nb).ngrams) && DistinctKeys(Finish(freq, nb).freq)
  {
    var m := Finish(freq, nb);
    var top := Top(freq, nb);
    TopDistinct(freq, nb);
    assert Ranked(top) == m.ngrams;
    forall a, b | 0 <= a < b < |m.ngrams| ensures m.ngrams[a].0 != m.ngrams[b].0 {
      assert top[m.ngrams[a].1].0 != top[m.ngrams[b].1].0;
    }
  }

  lemma TopDistinct(freq: Dict<string, int>, nb: nat)
    requires DistinctKeys(freq)
    ensures DistinctKeys(Top(freq, nb))
  {
    SortByValueDistinct(freq, true);
    var sorted := SortByValue(freq, true);
    var top := Top(freq, nb);
    forall a, b | 0 <= a < b < |top| ensures top[a].0 != top[b].0 {
      assert top[a] == sorted[a] && top[b] == sorted[b];
    }
  }

  // ---------------------------------------------------------------- compare

  function Abs(x: int): nat { if x >= 0 then x else -x }

  /** `set(d.keys())`. */
  function KeySet<V>(d: Dict<string, V>): set<string> { set k | k in Keys(d) }

  /** The summed rank differences of the grams of `items` that `model` ranks. */
  function Found(model: Dict<string, int>, items: Dict<string, int>): nat
  {
    if |items| == 0 then 0
    else
      var last := items[|items| - 1];
      Found(model, items[..|items| - 1]) + match Get(model, last.0) { case None => 0 case Some(r) => Abs(last.1 - r) }
  }

  /** `model.compare(unknown)`: the out-of-place distance, `MISSING_VALUE` per gram of the
      unknown text that the model lacks plus the rank differences of the shared grams. */
  function Compare(model: NGramModel, unknown: NGramModel): (d: int)
    ensures d >= MISSING_VALUE * |KeySet(unknown.ngrams) - KeySet(model.ngrams)|
    ensures d >= 0
  {
    MISSING_VALUE * |KeySet(unknown.ngrams) - KeySet(model.ngrams)| + Found(model.ngrams, unknown.ngrams)
  }

  /** No rank difference adds up to zero exactly when every gram the model has sits at the
      same rank in both. */
  lemma {:induction false} FoundZero(model: Dict<string, int>, items: Dict<string, int>)
    ensures Found(model, items) == 0 <==> SameRanks(model, items)
  {
    if |items| > 0 {
      var n := |items| - 1;
      FoundZero(model, items[..n]);
      SameRanksSnoc(model, items, n);
    }
  }

  /** A gram the model ranks has the same rank there as in the item. */
  predicate Agrees(model: Dict<string, int>, item: (string, int))
  {
    Get(model, item.0).Some? ==> Get(model, item.0) == Some(item.1)
  }

  /** Every gram of `items` that the model ranks has the same rank in both. */
  predicate SameRanks(model: Dict<string, int>, items: Dict<string, int>)
  {
    forall i :: 0 <= i < |items| ==> Agrees(model, items[i])
  }

  /** The ranks agree on all of `items` when they agree on all but the last item and on it. */
  lemma SameRanksSnoc(model: Dict<string, int>, items: Dict<string, int>, n: nat)
    requires n == |items| - 1
    ensures SameRanks(model, items) <==> SameRanks(model, items[..n]) && Agrees(model, items[n])
  {
    assert forall i :: 0 <= i < n ==> items[..n][i] == items[i];
  }

  /** The distance is zero exactly when every gram of the unknown model is in the model with
      the same rank. */
  lemma CompareZero(model: NGramModel, unknown: NGramModel)
    ensures Compare(model, unknown) == 0 <==>
            forall i :: 0 <= i < |unknown.ngrams| ==> Get(model.ngrams, unknown.ngrams[i].0) == Some(unknown.ngrams[i].1)
  {
    var u := unknown.ngrams;
    FoundZero(model.ngrams, u);
    var missing := KeySet(u) - KeySet(model.ngrams);
    if forall i :: 0 <= i < |u| ==> Get(model.ngrams, u[i].0) == Some(u[i].1) {
      forall g | g in KeySet(u) ensures g in KeySet(model.ngrams) {
        var i :| 0 <= i < |u| && Keys(u)[i] == g;
        assert Get(model.ngrams, u[i].0).Some?;
      }
      assert missing == {};
    }
    if Compare(model, unknown) == 0 {
      assert |missing| == 0;
      forall i | 0 <= i < |u| ensures Get(model.ngrams, u[i].0).Some? {
        assert Keys(u)[i] == u[i].0;
        assert u[i].0 !in missing;
      }
    }
  }

  /** A model is at distance zero from itself. */
  lemma CompareSelf(m: NGramModel)
    requires DistinctKeys(m.ngrams)
    ensures Compare(m, m) == 0
  {
    forall i | 0 <= i < |m.ngrams| ensures Get(m.ngrams, m.ngrams[i].0) == Some(m.ngrams[i].1) {
      GetDistinct(m.ngrams, i);
    }
    CompareZero(m, m);
  }

  /** Against a model sharing no gram, every distinct gram of the unknown text costs
      `MISSING_VALUE`. */
  lemma CompareDisjoint(model: NGramModel, unknown: NGramModel)
    requires KeySet(model.ngrams) !! KeySet(unknown.ngrams)
    ensures Compare(model, unknown) == MISSING_VALUE * |KeySet(unknown.ngrams)|
  {
    var u := unknown.ngrams;
    FoundZero(model.ngrams, u);
    forall i | 0 <= i < |u| ensures Get(model.ngrams, u[i].0).None? {
      var g := u[i].0;
      assert Keys(u)[i] == g;
      assert g in KeySet(u);
      assert g !in KeySet(model.ngrams);
      assert g !in Keys(model.ngrams);
    }
    assert KeySet(u) - KeySet(model.ngrams) == KeySet(u);
  }

  // ---------------------------------------------------------------- model files

  /** `fil.readlines()`: the lines of a text, each keeping its '\n'; a last line without one is
      kept as it is. */
  function ReadLines(text: string): seq<string> { LinesFrom(text, "") }

  function LinesFrom(text: string, cur: string): seq<string>
    decreases |text|
  {
    if |text| == 0 then (if cur == "" then [] else [cur])
    else if text[0] == '\n' then [cur + "\n"] + LinesFrom(text[1..], "")
    else LinesFrom(text[1..], cur + [text[0]])
  }

  predicate NoNewline(s: string) { forall i :: 0 <= i < |s| ==> s[i] != '\n' }

  lemma {:induction false} LinesFromLine(body: string, rest: string, cur: string)
    requires NoNewline(body)
    ensures LinesFrom(body + "\n" + rest, cur) == [cur + body + "\n"] + LinesFrom(rest, "")
    decreases |body|
  {
    var t := body + "\n" + rest;
    if |body| == 0 {
      assert t[0] == '\n' && t[1..] == rest;
      assert cur + body == cur;
    } else {
      assert t[0] == body[0] && t[1..] == body[1..] + "\n" + rest;
      LinesFromLine(body[1..], rest, cur + [body[0]]);
      assert cur + [body[0]] + body[1..] == cur + body;
    }
  }

  /** `"".join(lines)`. */
  function Concat(ls: seq<string>): string
  {
    if |ls| == 0 then "" else ls[0] + Concat(ls[1..])
  }

  /** A line that ends in its only '\n'. */
  predicate IsLine(l: string) { |l| > 0 && l[|l| - 1] == '\n' && NoNewline(l[..|l| - 1]) }

  /** `readlines` gives back the lines that were joined. */
  lemma {:induction false} ReadLinesConcat(ls: seq<string>)
    requires forall i :: 0 <= i < |ls| ==> IsLine(ls[i])
    ensures ReadLines(Concat(ls)) == ls
  {
    if |ls| > 0 {
      var body := ls[0][..|ls[0]| - 1];
      assert ls[0] == body + "\n";
      assert forall i :: 0 <= i < |ls[1..]| ==> ls[1..][i] == ls[i + 1];
      ReadLinesConcat(ls[1..]);
      LinesFromLine(body, Concat(ls[1..]), "");
      assert "" + body + "\n" == ls[0];
      assert [ls[0]] + ls[1..] == ls;
    }
  }

  /** One line of a model file read with `gram_column=0, freq_column=1` (`gramFirst`, the
      character models) or `gram_column=1, freq_column=0` (the word models): a blank line is
      skipped; any other must split into two fields, the frequency field an integer. */
  function ParseLine(line: string, gramFirst: bool): (r: Result<Option<(string, int)>>)
    ensures r == Ok(None) <==> Strip(line) == ""
    ensures r.Ok? && r.value.Some? ==> r.value.value.0 != "" && NoSpace(r.value.value.0)
  {
    var l := Strip(line);
    if l == "" then Ok(None)
    else
      var parts := SplitWs(l);
      SplitWsTokens(l);
      if |parts| != 2 then Err("ValueError")
      else
        var g := if gramFirst then parts[0] else parts[1];
        assert g in parts;
        match ParseInt(if gramFirst then parts[1] else parts[0])
        case None => Err("ValueError")
        case Some(f) => Ok(Some((g, f)))
  }

  /** The line parser of one column order, as a function value. */
  function LineParser(gramFirst: bool): string -> Result<Option<(string, int)>>
  {
    line => ParseLine(line, gramFirst)
  }

  /** The lines parsed in order into a dict, a later line for a gram overwriting an earlier
      one; the first line that fails to parse raises. */
  function ParsedLines(lines: seq<string>, parse: string -> Result<Option<(string, int)>>): Result<Dict<string, int>>
  {
    if |lines| == 0 then Ok([])
    else
      match ParsedLines(lines[..|lines| - 1], parse)
      case Err(e) => Err(e)
      case Ok(freq) =>
        match parse(lines[|lines| - 1])
        case Err(e) => Err(e)
        case Ok(None) => Ok(freq)
        case Ok(Some(item)) => Ok(Put(freq, item.0, item.1))
  }

  /** `freq_of_model_file(fil, ...)` on the lines of `fil`. */
  function ModelFileFreq(lines: seq<string>, gramFirst: bool): Result<Dict<string, int>>
  {
    ParsedLines(lines, LineParser(gramFirst))
  }

  /** Once a line has raised, the lines after it change nothing. */
  lemma {:induction false} ErrSticks(lines: seq<string>, k: nat, parse: string -> Result<Option<(string, int)>>)
    requires k <= |lines| && ParsedLines(lines[..k], parse).Err?
    ensures ParsedLines(lines, parse) == ParsedLines(lines[..k], parse)
  {
    if k < |lines| {
      var n := |lines| - 1;
      assert lines[..n][..k] == lines[..k];
      ErrSticks(lines[..n], k, parse);
    } else {
      assert lines[..k] == lines;
    }
  }

  /** The value of a gram is the one on the last line that names it. */
  lemma ModelFileLast(lines: seq<string>, line: string, gramFirst: bool)
    requires ModelFileFreq(lines + [line], gramFirst).Ok?
    requires ParseLine(line, gramFirst).Ok? && ParseLine(line, gramFirst).value.Some?
    ensures var item := ParseLine(line, gramFirst).value.value;
            Get(ModelFileFreq(lines + [line], gramFirst).value, item.0) == Some(item.1)
  {
    assert (lines + [line])[..|lines|] == lines;
  }

  /** Parsing lines whose grams are non-empty and free of whitespace gives a dict of such
      grams, each once. */
  lemma {:induction false} ParsedGrams(lines: seq<string>, parse: string -> Result<Option<(string, int)>>)
    requires forall l :: parse(l).Ok? && parse(l).value.Some? ==> parse(l).value.value.0 != "" && NoSpace(parse(l).value.value.0)
    requires ParsedLines(lines, parse).Ok?
    ensures var freq := ParsedLines(lines, parse).value;
            DistinctKeys(freq) && forall k :: k in Keys(freq) ==> k != "" && NoSpace(k)
  {
    if |lines| > 0 {
      var n := |lines| - 1;
      ParsedGrams(lines[..n], parse);
      var before := ParsedLines(lines[..n], parse).value;
      var p := parse(lines[n]);
      if p.value.Some? {
        DistinctPut(before, p.value.value.0, p.value.value.1);
        PutKeys(before, p.value.value.0, p.value.value.1);
      }
    }
  }

  /** Every gram read from a model file is non-empty and free of whitespace, and each is read
      once. */
  lemma ModelFileGrams(lines: seq<string>, gramFirst: bool)
    requires ModelFileFreq(lines, gramFirst).Ok?
    ensures var freq := ModelFileFreq(lines, gramFirst).value;
            DistinctKeys(freq) && forall k :: k in Keys(freq) ==> k != "" && NoSpace(k)
  {
    ParsedGrams(lines, LineParser(gramFirst));
  }

  /** `freq_of_model_file(fil, fname, gram_column, freq_column)`, line by line. */
  method FreqOfModelFile(lines: seq<string>, gramFirst: bool) returns (r: Result<Dict<string, int>>)
    ensures r == ModelFileFreq(lines, gramFirst)
  {
    var freq: Dict<string, int> := [];
    var nl := 0;
    while nl < |lines|
      invariant 0 <= nl <= |lines|
      invariant ModelFileFreq(lines[..nl], gramFirst) == Ok(freq)
    {
      assert lines[..nl + 1][..nl] == lines[..nl];
      var line := Strip(lines[nl]);
      if line != "" {
        var parts := SplitWs(line);
        if |parts| != 2 {
          ErrSticks(lines, nl + 1, LineParser(gramFirst));
          return Err("ValueError");
        }
        var g := if gramFirst then parts[0] else parts[1];
        var f := ParseInt(if gramFirst then parts[1] else parts[0]);
        if f.None? {
          ErrSticks(lines, nl + 1, LineParser(gramFirst));
          return Err("ValueError");
        }
        freq := Put(freq, g, f.value);
      }
      nl := nl + 1;
    }
    assert lines[..nl] == lines;
    return Ok(freq);
  }

  /** One line of a model file: `"%s\t%d\n" % (g, f)` for a character model,
      `"%d\t%s\n" % (f, g)` for a word model. */
  function ModelLine(item: (string, int), gramFirst: bool): string
  {
    if gramFirst then item.0 + "\t" + IntToString(item.1) + "\n" else IntToString(item.1) + "\t" + item.0 + "\n"
  }

  predicate NonEmptyGram(item: (string, int)) { item.0 != "" }

  /** The items `to_model_file` writes: by decreasing frequency, the empty gram left out. */
  function Written(freq: Dict<string, int>): seq<(string, int)>
  {
    Filter(SortByValue(freq, true), NonEmptyGram)
  }

  function ModelLines(items: seq<(string, int)>, gramFirst: bool): (r: seq<string>)
    ensures |r| == |items| && forall i :: 0 <= i < |items| ==> r[i] == ModelLine(items[i], gramFirst)
  {
    seq(|items|, i requires 0 <= i < |items| => ModelLine(items[i], gramFirst))
  }

  /** The text `CharModel.to_model_file` (`gramFirst`) or `WordModel.to_model_file` writes. */
  function ToModelFile(freq: Dict<string, int>, gramFirst: bool): string
  {
    Concat(ModelLines(Written(freq), gramFirst))
  }

  /** A line with no whitespace at either end, followed by '\n', strips to itself. */
  lemma StripLine(x: string)
    requires |x| > 0 && !IsSpace(x[0]) && !IsSpace(x[|x| - 1])
    ensures Strip(x + "\n") == x
  {
    var t := x + "\n";
    assert t[0] == x[0];
    assert LStrip(t) == t;
    assert t[..|t| - 1] == x;
    assert RStrip(t) == RStrip(x);
    StripTrimmed(x);
    assert LStrip(x) == x;
  }

  /** Each written line reads back as the item it was written from. */
  lemma ParseModelLine(item: (string, int), gramFirst: bool)
    requires item.0 != "" && NoSpace(item.0)
    ensures ParseLine(ModelLine(item, gramFirst), gramFirst) == Ok(Some(item))
  {
    var n := IntToString(item.1);
    var a := if gramFirst then item.0 else n;
    var b := if gramFirst then n else item.0;
    var x := a + "\t" + b;
    assert ModelLine(item, gramFirst) == x + "\n";
    assert x[0] == a[0] && x[|x| - 1] == b[|b| - 1];
    StripLine(x);
    SplitWsPair(a, '\t', b);
    assert a + ['\t'] + b == x;
    ParseIntToString(item.1);
  }

  lemma ModelLineIsLine(item: (string, int), gramFirst: bool)
    requires NoSpace(item.0)
    ensures IsLine(ModelLine(item, gramFirst))
  {
    var l := ModelLine(item, gramFirst);
    var n := IntToString(item.1);
    var body := if gramFirst then item.0 + "\t" + n else n + "\t" + item.0;
    assert l == body + "\n" && l[..|l| - 1] == body;
    forall i | 0 <= i < |body| ensures body[i] != '\n' {
      assert IsSpace('\n');
      if gramFirst {
        if i < |item.0| { assert body[i] == item.0[i]; } else if i > |item.0| { assert body[i] == n[i - |item.0| - 1]; }
      } else {
        if i < |n| { assert body[i] == n[i]; } else if i > |n| { assert body[i] == item.0[i - |n| - 1]; }
      }
    }
  }

  /** Lines written from items with distinct, non-empty, whitespace-free grams parse back
      into exactly those items, in order. */
  lemma {:induction false} ModelFileOfItems(items: seq<(string, int)>, gramFirst: bool)
    requires DistinctKeys(items)
    requires forall i :: 0 <= i < |items| ==> items[i].0 != "" && NoSpace(items[i].0)
    ensures ModelFileFreq(ModelLines(items, gramFirst), gramFirst) == Ok(items)
  {
    if |items| > 0 {
      var n := |items| - 1;
      ModelLinesPrefix(items, gramFirst);
      ModelFileOfItems(items[..n], gramFirst);
      ParseModelLine(items[n], gramFirst);
      LastKeyNew(items);
      PutNew(items[..n], items[n].0, items[n].1);
      SnocLast(items);
    }
  }

  lemma ModelLinesPrefix(items: seq<(string, int)>, gramFirst: bool)
    requires |items| > 0
    ensures ModelLines(items, gramFirst)[..|items| - 1] == ModelLines(items[..|items| - 1], gramFirst)
  {
  }

  lemma SnocLast(items: seq<(string, int)>)
    requires |items| > 0
    ensures items[..|items| - 1] + [(items[|items| - 1].0, items[|items| - 1].1)] == items
  {
  }

  /** In a dict with distinct keys the last key is not among the earlier ones. */
  lemma LastKeyNew(items: seq<(string, int)>)
    requires |items| > 0 && DistinctKeys(items)
    ensures items[|items| - 1].0 !in Keys(items[..|items| - 1])
  {
    var n := |items| - 1;
    forall j | 0 <= j < n ensures Keys(items[..n])[j] != items[n].0 {
      assert items[..n][j] == items[j];
    }
  }

  /** The written items keep the table's keys distinct and carry only the table's grams. */
  lemma WrittenItems(freq: Dict<string, int>)
    requires DistinctKeys(freq)
    ensures DistinctKeys(Written(freq))
    ensures forall x :: x in Written(freq) <==> x in freq && x.0 != ""
  {
    var sorted := SortByValue(freq, true);
    SortByValueDistinct(freq, true);
    FilterMembers(sorted, NonEmptyGram);
    FilterDistinct(sorted, NonEmptyGram);
    assert forall x :: x in sorted <==> x in multiset(freq);
  }

  /** Keeping some items of a dict keeps its keys distinct. */
  lemma {:induction false} FilterDistinct(s: seq<(string, int)>, p: ((string, int)) -> bool)
    requires DistinctKeys(s)
    ensures DistinctKeys(Filter(s, p))
  {
    if |s| > 0 {
      var n := |s| - 1;
      assert DistinctKeys(s[..n]);
      FilterDistinct(s[..n], p);
      FilterMembers(s[..n], p);
      var r := Filter(s, p);
      assert r == Filter(s[..n], p) + (if p(s[n]) then [s[n]] else []);
      var front := Filter(s[..n], p);
      forall i, j | 0 <= i < j < |r| ensures r[i].0 != r[j].0 {
        if j < |front| {
          assert r[i] == front[i] && r[j] == front[j];
        } else {
          assert r[i] == front[i] && front[i] in front;
          assert r[j] == s[n] && r[i] in s[..n];
          var k :| 0 <= k < n && s[..n][k] == r[i];
          assert s[k] == r[i];
        }
      }
    }
  }

  /** `freq_of_model_file` reads back exactly the items `to_model_file` wrote, for either
      column order, when grams hold no whitespace. */
  lemma ModelFileRoundTrip(freq: Dict<string, int>, gramFirst: bool)
    requires DistinctKeys(freq)
    requires forall i :: 0 <= i < |freq| ==> NoSpace(freq[i].0)
    ensures ModelFileFreq(ReadLines(ToModelFile(freq, gramFirst)), gramFirst) == Ok(Written(freq))
  {
    var items := Written(freq);
    WrittenItems(freq);
    forall i | 0 <= i < |items| ensures items[i].0 != "" && NoSpace(items[i].0) {
      assert items[i] in items;
      var t :| 0 <= t < |freq| && freq[t] == items[i];
    }
    var ls := ModelLines(items, gramFirst);
    forall i | 0 <= i < |ls| ensures IsLine(ls[i]) {
      ModelLineIsLine(items[i], gramFirst);
    }
    ReadLinesConcat(ls);
    ModelFileOfItems(items, gramFirst);
  }

  /** Both tables hold each key once and the same items, so they agree on every key. */
  lemma PermutedGet(a: Dict<string, int>, b: Dict<string, int>)
    requires DistinctKeys(a) && DistinctKeys(b) && multiset(a) == multiset(b)
    ensures forall k :: Get(a, k) == Get(b, k)
  {
    forall k ensures Get(a, k) == Get(b, k) {
      KeysPermuted(a, b, k);
      if Get(a, k).Some? {
        assert (k, Get(a, k).value) in multiset(b);
        var t :| 0 <= t < |b| && b[t] == (k, Get(a, k).value);
        GetDistinct(b, t);
      }
    }
  }

  lemma KeysPermuted(a: Dict<string, int>, b: Dict<string, int>, k: string)
    requires multiset(a) == multiset(b)
    ensures k in Keys(a) <==> k in Keys(b)
  {
    if k in Keys(a) {
      var i :| 0 <= i < |a| && Keys(a)[i] == k;
      assert a[i] in multiset(b);
      var j :| 0 <= j < |b| && b[j] == a[i];
      assert Keys(b)[j] == k;
    }
    if k in Keys(b) {
      var j :| 0 <= j < |b| && Keys(b)[j] == k;
      assert b[j] in multiset(a);
      var i :| 0 <= i < |a| && a[i] == b[j];
      assert Keys(a)[i] == k;
    }
  }

  /** A model's frequency table survives the round trip through its model file: reading the
      file back gives the same dict. */
  lemma ModelFileRoundTripSame(freq: Dict<string, int>, gramFirst: bool)
    requires DistinctKeys(freq)
    requires forall i :: 0 <= i < |freq| ==> freq[i].0 != "" && NoSpace(freq[i].0)
    ensures var r := ModelFileFreq(ReadLines(ToModelFile(freq, gramFirst)), gramFirst);
            r.Ok? && forall k :: Get(r.value, k) == Get(freq, k)
  {
    ModelFileRoundTrip(freq, gramFirst);
    var sorted := SortByValue(freq, true);
    forall i | 0 <= i < |sorted| ensures NonEmptyGram(sorted[i]) {
      assert sorted[i] in multiset(freq);
      var t :| 0 <= t < |freq| && freq[t] == sorted[i];
    }
    FilterAll(sorted, NonEmptyGram);
    SortByValueDistinct(freq, true);
    PermutedGet(sorted, freq);
  }

  // ---------------------------------------------------------------- trained models

  /** Counting adds only the counted grams as keys. */
  lemma {:induction false} CountAllKeys(freq: Dict<string, int>, gs: seq<string>, k: string)
    requires k in Keys(CountAll(freq, gs))
    ensures k in Keys(freq) || k in gs
  {
    if |gs| > 0 {
      var n := |gs| - 1;
      var before := CountAll(freq, gs[..n]);
      BumpKeys(before, gs[n], k);
      if k != gs[n] {
        CountAllKeys(freq, gs[..n], k);
      }
    }
  }

  /** A gram free of whitespace: what a model file line can carry. */
  predicate CleanGram(g: string) { g != "" && NoSpace(g) }

  /** The grams of a token hold no whitespace. */
  lemma CharGramsClean(w: string, g: string)
    requires forall i :: 0 <= i < |w| ==> IsTokenChar(w[i])
    requires g in CharGrams(w)
    ensures CleanGram(g)
  {
    var p := "_" + w + "_";
    CharGramsMembers(w, g);
    var i, s :| 0 <= i < |p| && GramAt(p, g, i, s);
    forall j | 0 <= j < |g| ensures !IsSpace(g[j]) {
      assert g[j] == p[i + j];
      if 0 < i + j < |p| - 1 {
        assert p[i + j] == w[i + j - 1];
      }
    }
  }

  lemma {:induction false} AllCharGramsClean(words: seq<string>, g: string)
    requires forall t :: t in words ==> forall i :: 0 <= i < |t| ==> IsTokenChar(t[i])
    requires g in AllCharGrams(words)
    ensures CleanGram(g)
  {
    var n := |words| - 1;
    if g in CharGrams(words[n]) {
      CharGramsClean(words[n], g);
    } else {
      AllCharGramsClean(words[..n], g);
    }
  }

  /** The keys of a finished model's table come from the counted table. */
  lemma FinishKeys(freq: Dict<string, int>, nb: nat, i: nat)
    requires i < |Finish(freq, nb).freq|
    ensures Finish(freq, nb).freq[i].0 in Keys(freq)
  {
  }

  /** A table counted from grams free of whitespace gives a model whose table has distinct,
      clean grams (the empty gram is never kept). */
  lemma FinishClean(gs: seq<string>, nb: nat)
    requires forall g :: g in gs ==> NoSpace(g)
    ensures var m := Finish(CountAll([], gs), nb);
            DistinctKeys(m.freq) && forall i :: 0 <= i < |m.freq| ==> CleanGram(m.freq[i].0)
  {
    var freq := CountAll([], gs);
    var m := Finish(freq, nb);
    CountAllDistinct([], gs);
    FinishDistinct(freq, nb);
    forall i | 0 <= i < |m.freq| ensures CleanGram(m.freq[i].0) {
      FinishKeys(freq, nb, i);
      CountAllKeys([], gs, m.freq[i].0);
    }
  }

  /** A character model trained on a text survives the round trip through its model file:
      `of_model_file(to_model_file(m))` reads back the model's table. */
  lemma CharModelRoundTrip(text: string)
    ensures var m := Finish(CharFreq(text, []), NB_NGRAMS);
            var r := ModelFileFreq(ReadLines(ToModelFile(m.freq, true)), true);
            r.Ok? && forall k :: Get(r.value, k) == Get(m.freq, k)
  {
    var gs := AllCharGrams(Tokenise(text));
    TokensClean(text);
    forall g | g in gs ensures CleanGram(g) {
      AllCharGramsClean(Tokenise(text), g);
    }
    FinishClean(gs, NB_NGRAMS);
    ModelFileRoundTripSame(Finish(CharFreq(text, []), NB_NGRAMS).freq, true);
  }

  /** Likewise for a word model, whose file puts the frequency first. */
  lemma WordModelRoundTrip(text: string)
    ensures var m := Finish(WordFreq(text, []), WORD_NB_NGRAMS);
            var r := ModelFileFreq(ReadLines(ToModelFile(m.freq, false)), false);
            r.Ok? && forall k :: Get(r.value, k) == Get(m.freq, k)
  {
    var ts := Tokenise(text);
    TokensClean(text);
    FinishClean(ts, WORD_NB_NGRAMS);
    ModelFileRoundTripSame(Finish(WordFreq(text, []), WORD_NB_NGRAMS).freq, false);
  }

  // ---------------------------------------------------------------- classifier

  /** `set(s)`. */
  function Elems(s: seq<string>): set<string> { set x | x in s }

  /** `{lang: model.compare(ingram) for lang, model in cmodels.items() if lang in active}`. */
  function Scores(cmodels: Dict<string, NGramModel>, active: set<string>, ingram: NGramModel): (r: Dict<string, int>)
    ensures forall i :: 0 <= i < |r| ==> r[i].0 in active && r[i].1 >= 0
    ensures |r| == 0 <==> forall j :: 0 <= j < |cmodels| ==> cmodels[j].0 !in active
  {
    if |cmodels| == 0 then []
    else
      var n := |cmodels| - 1;
      var rest := Scores(cmodels[..n], active, ingram);
      PrefixInactive(cmodels, active, n);
      rest + ScoreOf(cmodels[n], active, ingram)
  }

  /** The score of one model: its distance when its language is active, else nothing. */
  function ScoreOf(model: (string, NGramModel), active: set<string>, ingram: NGramModel): (r: Dict<string, int>)
    ensures |r| <= 1 && (|r| == 0 <==> model.0 !in active)
    ensures forall i :: 0 <= i < |r| ==> r[i].0 in active && r[i].1 >= 0
  {
    if model.0 in active then [(model.0, Compare(model.1, ingram))] else []
  }

  /** No model of `cmodels` is active exactly when none before `n` is and the one at `n` is not. */
  lemma PrefixInactive(cmodels: Dict<string, NGramModel>, active: set<string>, n: nat)
    requires n == |cmodels| - 1
    ensures (forall j :: 0 <= j < |cmodels| ==> cmodels[j].0 !in active)
            <==> (forall j :: 0 <= j < n ==> cmodels[..n][j].0 !in active) && cmodels[n].0 !in active
  {
    assert forall j :: 0 <= j < n ==> cmodels[..n][j] == cmodels[j];
  }

  /** `score <= best * DROP_RATIO` with `DROP_RATIO = 1.10`, in exact arithmetic. */
  function WithinDropRatio(best: int): ((string, int)) -> bool
  {
    (item: (string, int)) => 10 * item.1 <= 11 * best
  }

  /** The character-model part of `classify_full`: the languages ranked by increasing
      distance, and those within the drop ratio of the best. A single survivor (or none) is the
      answer; `None` stands for the word-model reweighting of several survivors. */
  function CharVerdict(cscored: Dict<string, int>): (r: Result<Option<Dict<string, int>>>)
    ensures r.Err? <==> |cscored| == 0
  {
    var cranked := SortByValue(cscored, false);
    if |cranked| == 0 then Err("IndexError")
    else
      var cfiltered := Filter(cranked, WithinDropRatio(cranked[0].1));
      if |cfiltered| <= 1 then Ok(Some(cfiltered)) else Ok(None)
  }

  /** With non-negative scores the filter keeps the best language, so a verdict names exactly
      one language, one with the smallest distance; every survivor is within the drop ratio. */
  lemma CharVerdictBest(cscored: Dict<string, int>)
    requires |cscored| > 0
    requires forall i :: 0 <= i < |cscored| ==> cscored[i].1 >= 0
    ensures var cranked := SortByValue(cscored, false);
            && cranked[0] in Filter(cranked, WithinDropRatio(cranked[0].1))
            && (forall i :: 0 <= i < |cscored| ==> cranked[0].1 <= cscored[i].1)
            && (forall x :: x in Filter(cranked, WithinDropRatio(cranked[0].1)) ==>
                  x in cscored && 10 * x.1 <= 11 * cranked[0].1)
            && (CharVerdict(cscored).value.Some? ==> CharVerdict(cscored).value.value == [cranked[0]])
  {
    var cranked := SortByValue(cscored, false);
    var kept := Filter(cranked, WithinDropRatio(cranked[0].1));
    RankedFirstIsLeast(cscored);
    RankedKept(cscored);
    if |kept| <= 1 {
      assert kept == [kept[0]];
    }
  }

  /** The first of the ranking has the smallest distance. */
  lemma RankedFirstIsLeast(cscored: Dict<string, int>)
    requires |cscored| > 0
    ensures forall i :: 0 <= i < |cscored| ==> SortByValue(cscored, false)[0].1 <= cscored[i].1
  {
    var cranked := SortByValue(cscored, false);
    forall i | 0 <= i < |cscored| ensures cranked[0].1 <= cscored[i].1 {
      assert cscored[i] in multiset(cranked);
      var t :| 0 <= t < |cranked| && cranked[t] == cscored[i];
      if t > 0 {
        assert !Before(Value, false, cranked[t], cranked[0]);
      }
    }
  }

  /** The filter keeps the first of the ranking when its score is not negative, and keeps only
      scored languages within the drop ratio. */
  lemma RankedKept(cscored: Dict<string, int>)
    requires |cscored| > 0
    requires forall i :: 0 <= i < |cscored| ==> cscored[i].1 >= 0
    ensures var cranked := SortByValue(cscored, false);
            && cranked[0] in Filter(cranked, WithinDropRatio(cranked[0].1))
            && (forall x :: x in Filter(cranked, WithinDropRatio(cranked[0].1)) ==>
                  x in cscored && 10 * x.1 <= 11 * cranked[0].1)
  {
    var cranked := SortByValue(cscored, false);
    var kept := Filter(cranked, WithinDropRatio(cranked[0].1));
    FilterMembers(cranked, WithinDropRatio(cranked[0].1));
    assert cranked[0] in multiset(cscored);
    assert cranked[0].1 >= 0;
    forall x | x in kept ensures x in cscored {
      assert x in multiset(cranked);
    }
  }

  /** A loaded classifier: one character model per language. */
  class Classifier {
    /** `cmodels`: each language's character model, in loading order. */
    const cmodels: Dict<string, NGramModel>
    /** `langs`: the languages that have a model. */
    const langs: set<string>
    /** `langs_warned`: the requested languages without a model reported so far. */
    var langsWarned: set<string>

    constructor (cmodels: Dict<string, NGramModel>)
      ensures this.cmodels == cmodels && langs == KeySet(cmodels) && langsWarned == {}
    {
      this.cmodels := cmodels;
      this.langs := KeySet(cmodels);
      this.langsWarned := {};
    }

    /** The languages `get_langs(wanted)` returns: all of them for an empty request,
        otherwise those requested that have a model. */
    function Active(wanted: seq<string>): (r: set<string>)
      ensures forall g :: g in r <==> g in langs && (wanted == [] || g in wanted)
    {
      if wanted == [] then langs else langs * Elems(wanted)
    }

    /** `get_langs(langs)`: the languages to consider; requested languages without a model
        are added to `langs_warned`, each once. */
    method GetLangs(wanted: seq<string>) returns (active: set<string>)
      modifies this
      ensures active == Active(wanted)
      ensures langsWarned == old(langsWarned) + (Elems(wanted) - langs)
    {
      if wanted == [] {
        active := langs;
      } else {
        var ws := Elems(wanted);
        active := langs * ws;
        if |ws| != |active| {
          var missing := ws - active - langsWarned;
          if missing != {} {
            langsWarned := langsWarned + missing;
          }
        } else {
          SubsetSameSize(active, ws);
        }
      }
    }

    /** `classify_full(text, langs)` up to the word-model reweighting: the input's character
        model scored against every active language. */
    method ClassifyFull(text: string, wanted: seq<string>) returns (r: Result<Option<Dict<string, int>>>)
      modifies this
      ensures langsWarned == old(langsWarned) + (Elems(wanted) - langs)
      ensures r == CharVerdict(Scores(cmodels, Active(wanted), Finish(CharFreq(text, []), NB_NGRAMS)))
    {
      var active := GetLangs(wanted);
      var freq := CharFreqOfText(text, []);
      var ingram := Finish(freq, NB_NGRAMS);
      var cscored := Scores(cmodels, active, ingram);
      r := CharVerdict(cscored);
    }
  }

  /** A subset as large as its superset is the whole of it. */
  lemma SubsetSameSize(a: set<string>, b: set<string>)
    requires a <= b && |a| == |b|
    ensures a == b
  {
    assert |b - a| == |b| - |a|;
  }

  /** `Classifier(...)` over the loaded models: no models raises. */
  method NewClassifier(cmodels: Dict<string, NGramModel>) returns (r: Result<Classifier>)
    ensures r.Err? <==> |cmodels| == 0
    ensures r.Ok? ==> fresh(r.value) && r.value.cmodels == cmodels && r.value.langs == KeySet(cmodels)
                      && r.value.langsWarned == {}
  {
    if |cmodels| == 0 {
      return Err("ValueError");
    }
    var c := new Classifier(cmodels);
    return Ok(c);
  }
}
