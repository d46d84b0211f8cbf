// The language-keyed resource tables read by metadata_extract/resource_loader.py and
// metadata_extract/init_files.py, and the merged views both build from them: concatenated
// keyword lists, '|'-joined labels and the document-type mapping.

module ResourceTables {
  import opened Common
  import opened Strings
  import opened Dicts

  /** A JSON object of word lists per language (`info_page_keywords.json`, `stopwords.json`). */
  type LangLists = Dict<string, seq<string>>
  /** One language's labels: the alternative spellings of each label key. */
  type LabelTable = Dict<string, seq<string>>
  /** `labels.json`: a label table per language. */
  type LangLabels = Dict<string, LabelTable>
  /** `doc_type_mapping.json`: a mapping of document-type words per language. */
  type LangDocTypes = Dict<string, Dict<string, string>>

  // ---------------------------------------------------------------- keyword and stopword lists

  /** `selected_languages is None or lang in selected_languages`. */
  predicate Chosen(sel: Option<seq<string>>, lang: string) { sel.None? || lang in sel.value }

  /** The lists of the chosen languages, one after the other in the table's order. */
  function Selected(data: LangLists, sel: Option<seq<string>>): seq<string>
  {
    if |data| == 0 then []
    else Selected(data[..|data| - 1], sel) + (if Chosen(sel, data[|data| - 1].0) then data[|data| - 1].1 else [])
  }

  /** A word is selected exactly when some chosen language lists it. */
  lemma {:induction false} SelectedMembers(data: LangLists, sel: Option<seq<string>>, x: string)
    ensures x in Selected(data, sel) <==> exists i :: 0 <= i < |data| && Chosen(sel, data[i].0) && x in data[i].1
  {
    if |data| > 0 {
      var n := |data| - 1;
      var front := data[..n];
      SelectedMembers(front, sel, x);
      if x in Selected(data, sel) {
        if x in Selected(front, sel) {
          var i :| 0 <= i < |front| && Chosen(sel, front[i].0) && x in front[i].1;
          assert data[i] == front[i];
        } else {
          assert Chosen(sel, data[n].0) && x in data[n].1;
        }
      }
      if exists i :: 0 <= i < |data| && Chosen(sel, data[i].0) && x in data[i].1 {
        var i :| 0 <= i < |data| && Chosen(sel, data[i].0) && x in data[i].1;
        if i < n {
          assert front[i] == data[i];
        }
      }
    }
  }

  // ---------------------------------------------------------------- labels

  /** `"|" + "|".join(alternatives)`. */
  function Piece(alts: seq<string>): string { "|" + Join("|", alts) }

  /** `labels[key] += "|" + "|".join(alternatives)` for every key of one language, a missing key
      first starting out as "". */
  function AddLang(labels: Dict<string, string>, table: LabelTable): Dict<string, string>
  {
    if |table| == 0 then labels
    else
      var acc := AddLang(labels, table[..|table| - 1]);
      var key := table[|table| - 1].0;
      Put(acc, key, Get(acc, key).GetOr("") + Piece(table[|table| - 1].1))
  }

  /** The labels accumulated over every language in order, before the outer '|' are stripped. */
  function RawLabels(ll: LangLabels): Dict<string, string>
  {
    if |ll| == 0 then [] else AddLang(RawLabels(ll[..|ll| - 1]), ll[|ll| - 1].1)
  }

  /** `labels[key] = labels[key].lstrip("|").rstrip("|")` for every key. */
  function StripLabels(labels: Dict<string, string>): Dict<string, string>
  {
    seq(|labels|, i requires 0 <= i < |labels| => (labels[i].0, StripChars(labels[i].1, {'|'})))
  }

  /** What one language contributes to `key`: a piece per entry of the key. */
  function TablePiece(table: LabelTable, key: string): string
  {
    if |table| == 0 then ""
    else TablePiece(table[..|table| - 1], key) + (if table[|table| - 1].0 == key then Piece(table[|table| - 1].1) else "")
  }

  /** What all languages contribute to `key`, in the languages' order. */
  function Gathered(ll: LangLabels, key: string): string
  {
    if |ll| == 0 then "" else Gathered(ll[..|ll| - 1], key) + TablePiece(ll[|ll| - 1].1, key)
  }

  /** A stored value after a contribution: unchanged by nothing, else the old text (or "")
      followed by the contribution. */
  function Extend(o: Option<string>, piece: string): Option<string>
  {
    if piece == "" then o else Some(o.GetOr("") + piece)
  }

  lemma ExtendTwice(o: Option<string>, p: string, q: string)
    ensures Extend(Extend(o, p), q) == Extend(o, p + q)
  {
    if q == "" {
      assert p + q == p;
    } else {
      assert |p + q| > 0;
      assert Extend(o, p).GetOr("") == o.GetOr("") + p;
      assert o.GetOr("") + p + q == o.GetOr("") + (p + q);
    }
  }

  lemma ExtendNone(p: string)
    ensures Extend(None, p) == if p == "" then None else Some(p)
  {
    assert "" + p == p;
  }

  /** The step of `AddLang` for an entry of `key` itself. */
  lemma AddEntrySame(acc: Dict<string, string>, before: Option<string>, tp: string, key: string, alts: seq<string>)
    requires Get(acc, key) == Extend(before, tp)
    ensures Get(Put(acc, key, Get(acc, key).GetOr("") + Piece(alts)), key) == Extend(before, tp + Piece(alts))
  {
    assert Piece(alts)[0] == '|';
    ExtendTwice(before, tp, Piece(alts));
  }

  /** One language adds its pieces for `key` after what `key` held before. */
  lemma {:induction false} AddLangGet(labels: Dict<string, string>, table: LabelTable, key: string)
    ensures Get(AddLang(labels, table), key) == Extend(Get(labels, key), TablePiece(table, key))
  {
    if |table| > 0 {
      var n := |table| - 1;
      var acc := AddLang(labels, table[..n]);
      var tp := TablePiece(table[..n], key);
      AddLangGet(labels, table[..n], key);
      if table[n].0 == key {
        AddEntrySame(acc, Get(labels, key), tp, key, table[n].1);
        assert TablePiece(table, key) == tp + Piece(table[n].1);
      } else {
        PutOther(acc, table[n].0, Get(acc, table[n].0).GetOr("") + Piece(table[n].1), key);
        assert TablePiece(table, key) == tp + "" == tp;
      }
    }
  }

  /** A key's accumulated label is everything the languages contribute to it, and a key no
      language lists is absent. */
  lemma {:induction false} RawLabelsGet(ll: LangLabels, key: string)
    ensures Get(RawLabels(ll), key) == if Gathered(ll, key) == "" then None else Some(Gathered(ll, key))
  {
    if |ll| > 0 {
      var n := |ll| - 1;
      RawLabelsGet(ll[..n], key);
      AddLangGet(RawLabels(ll[..n]), ll[n].1, key);
      ExtendNone(Gathered(ll[..n], key));
      ExtendTwice(None, Gathered(ll[..n], key), TablePiece(ll[n].1, key));
      ExtendNone(Gathered(ll, key));
    }
  }

  /** Stripping rewrites each value where it stands. */
  lemma {:induction false} StripLabelsGet(labels: Dict<string, string>, key: string)
    ensures Get(StripLabels(labels), key) == if Get(labels, key).None? then None
                                             else Some(StripChars(Get(labels, key).value, {'|'}))
  {
    if |labels| > 0 {
      assert StripLabels(labels)[1..] == StripLabels(labels[1..]);
      StripLabelsGet(labels[1..], key);
    }
  }

  /** The accumulated labels hold each key once. */
  lemma {:induction false} AddLangDistinct(labels: Dict<string, string>, table: LabelTable)
    requires DistinctKeys(labels)
    ensures DistinctKeys(AddLang(labels, table))
  {
    if |table| > 0 {
      var n := |table| - 1;
      AddLangDistinct(labels, table[..n]);
      var acc := AddLang(labels, table[..n]);
      DistinctPut(acc, table[n].0, Get(acc, table[n].0).GetOr("") + Piece(table[n].1));
    }
  }

  lemma {:induction false} RawLabelsDistinct(ll: LangLabels)
    ensures DistinctKeys(RawLabels(ll))
  {
    if |ll| > 0 {
      RawLabelsDistinct(ll[..|ll| - 1]);
      AddLangDistinct(RawLabels(ll[..|ll| - 1]), ll[|ll| - 1].1);
    }
  }

  // ---------------------------------------------------------------- labels joined cleanly

  /** The alternatives one language lists for `key`, in order. */
  function TableAlternatives(table: LabelTable, key: string): seq<string>
  {
    if |table| == 0 then []
    else TableAlternatives(table[..|table| - 1], key) + (if table[|table| - 1].0 == key then table[|table| - 1].1 else [])
  }

  /** The alternatives all languages list for `key`, in the languages' order. */
  function Alternatives(ll: LangLabels, key: string): seq<string>
  {
    if |ll| == 0 then [] else Alternatives(ll[..|ll| - 1], key) + TableAlternatives(ll[|ll| - 1].1, key)
  }

  /** An alternative with text that neither starts nor ends with '|'. */
  predicate CleanAlternative(a: string) { |a| > 0 && a[0] != '|' && a[|a| - 1] != '|' }

  predicate AllClean(alts: seq<string>) { forall i :: 0 <= i < |alts| ==> CleanAlternative(alts[i]) }

  /** Every entry of `key` lists at least one alternative, and each is clean. */
  predicate CleanEntries(table: LabelTable, key: string)
  {
    forall j :: 0 <= j < |table| && table[j].0 == key ==> |table[j].1| > 0 && AllClean(table[j].1)
  }

  predicate CleanLabels(ll: LangLabels, key: string)
  {
    forall i :: 0 <= i < |ll| ==> CleanEntries(ll[i].1, key)
  }

  /** The '|'-joined alternatives behind a leading '|', or "" for none. */
  function Joined(alts: seq<string>): string { if alts == [] then "" else Piece(alts) }

  lemma {:induction false} JoinConcat(sep: string, a: seq<string>, b: seq<string>)
    requires |a| > 0 && |b| > 0
    ensures Join(sep, a + b) == Join(sep, a) + sep + Join(sep, b)
    decreases |a|
  {
    assert (a + b)[0] == a[0];
    assert (a + b)[1..] == a[1..] + b;
    if |a| > 1 {
      JoinConcat(sep, a[1..], b);
    }
  }

  lemma JoinedConcat(a: seq<string>, b: seq<string>)
    ensures Joined(a + b) == Joined(a) + Joined(b)
  {
    if a == [] {
      assert a + b == b;
    } else if b == [] {
      assert a + b == a;
    } else {
      JoinConcat("|", a, b);
      var ja, jb := Join("|", a), Join("|", b);
      assert a + b != [];
      assert Joined(a + b) == "|" + (ja + "|" + jb);
      assert "|" + (ja + "|" + jb) == ("|" + ja) + ("|" + jb);
    }
  }

  lemma AllCleanConcat(a: seq<string>, b: seq<string>)
    requires AllClean(a) && AllClean(b)
    ensures AllClean(a + b)
  {
    forall i | 0 <= i < |a + b| ensures CleanAlternative((a + b)[i]) {
      if i >= |a| {
        assert (a + b)[i] == b[i - |a|];
      }
    }
  }

  lemma {:induction false} TablePieceJoined(table: LabelTable, key: string)
    requires CleanEntries(table, key)
    ensures TablePiece(table, key) == Joined(TableAlternatives(table, key))
    ensures AllClean(TableAlternatives(table, key))
  {
    if |table| > 0 {
      var n := |table| - 1;
      assert CleanEntries(table[..n], key) by {
        forall j | 0 <= j < n && table[..n][j].0 == key
          ensures |table[..n][j].1| > 0 && AllClean(table[..n][j].1)
        {
          assert table[..n][j] == table[j];
        }
      }
      TablePieceJoined(table[..n], key);
      var last := if table[n].0 == key then table[n].1 else [];
      JoinedConcat(TableAlternatives(table[..n], key), last);
      AllCleanConcat(TableAlternatives(table[..n], key), last);
    }
  }

  lemma {:induction false} GatheredJoined(ll: LangLabels, key: string)
    requires CleanLabels(ll, key)
    ensures Gathered(ll, key) == Joined(Alternatives(ll, key))
    ensures AllClean(Alternatives(ll, key))
  {
    if |ll| > 0 {
      var n := |ll| - 1;
      assert CleanLabels(ll[..n], key) by {
        forall i | 0 <= i < n ensures CleanEntries(ll[..n][i].1, key) {
          assert ll[..n][i] == ll[i];
        }
      }
      GatheredJoined(ll[..n], key);
      TablePieceJoined(ll[n].1, key);
      JoinedConcat(Alternatives(ll[..n], key), TableAlternatives(ll[n].1, key));
      AllCleanConcat(Alternatives(ll[..n], key), TableAlternatives(ll[n].1, key));
    }
  }

  /** A join of clean alternatives starts with the first one's first character and ends with
      the last one's last character. */
  lemma {:induction false} JoinEnds(parts: seq<string>)
    requires |parts| > 0 && AllClean(parts)
    ensures var j := Join("|", parts);
            |j| > 0 && j[0] == parts[0][0] && j[|j| - 1] == parts[|parts| - 1][|parts[|parts| - 1]| - 1]
  {
    if |parts| > 1 {
      assert AllClean(parts[1..]) by {
        forall i | 0 <= i < |parts[1..]| ensures CleanAlternative(parts[1..][i]) {
          assert parts[1..][i] == parts[i + 1];
        }
      }
      JoinEnds(parts[1..]);
      assert CleanAlternative(parts[0]);
      var head, rest := parts[0] + "|", Join("|", parts[1..]);
      assert Join("|", parts) == head + rest;
      assert (head + rest)[0] == head[0] == parts[0][0];
      assert (head + rest)[|head + rest| - 1] == rest[|rest| - 1];
      assert parts[1..][|parts[1..]| - 1] == parts[|parts| - 1];
    } else {
      assert CleanAlternative(parts[0]);
    }
  }

  /** Stripping the outer '|' of clean alternatives leaves exactly their '|'-join. */
  lemma StripJoined(alts: seq<string>)
    requires |alts| > 0 && AllClean(alts)
    ensures StripChars(Joined(alts), {'|'}) == Join("|", alts)
  {
    var j := Join("|", alts);
    JoinEnds(alts);
    assert CleanAlternative(alts[0]) && CleanAlternative(alts[|alts| - 1]);
    assert Joined(alts)[1..] == j;
  }

  /** The stored label of a key whose alternatives are all clean is those alternatives from
      every language, in order, joined by '|'; a key no language lists has no label. */
  lemma LabelOfKey(ll: LangLabels, key: string)
    requires CleanLabels(ll, key)
    ensures Get(StripLabels(RawLabels(ll)), key)
            == if Alternatives(ll, key) == [] then None else Some(Join("|", Alternatives(ll, key)))
  {
    GatheredJoined(ll, key);
    RawLabelsGet(ll, key);
    StripLabelsGet(RawLabels(ll), key);
    var alts := Alternatives(ll, key);
    if alts != [] {
      assert Joined(alts)[0] == '|';
      StripJoined(alts);
    }
  }

  /** Whatever the alternatives, a stored label neither starts nor ends with '|'. */
  lemma LabelEdges(ll: LangLabels, key: string)
    requires Get(StripLabels(RawLabels(ll)), key).Some?
    ensures var v := Get(StripLabels(RawLabels(ll)), key).value;
            |v| > 0 ==> v[0] != '|' && v[|v| - 1] != '|'
  {
    StripLabelsGet(RawLabels(ll), key);
  }

  // ---------------------------------------------------------------- selecting languages

  /** The first position of `x` in `s`. */
  function Pos(s: seq<string>, x: string): (i: nat)
    requires x in s
    ensures i < |s| && s[i] == x && x !in s[..i]
  {
    if s[0] == x then 0
    else
      var i := 1 + Pos(s[1..], x);
      assert s[..i] == [s[0]] + s[1..][..i - 1];
      i
  }

  lemma {:induction false} PosUnique(s: seq<string>, x: string, i: nat)
    requires i < |s| && s[i] == x && x !in s[..i]
    ensures Pos(s, x) == i
  {
    if i > 0 {
      assert s[0] == s[..i][0];
      assert s[1..][i - 1] == x;
      assert s[1..][..i - 1] == s[..i][1..];
      PosUnique(s[1..], x, i - 1);
    }
  }

  lemma PosPrefix(s: seq<string>, n: nat, x: string)
    requires n <= |s| && x in s[..n]
    ensures Pos(s, x) == Pos(s[..n], x) < n
  {
    var p := Pos(s[..n], x);
    assert s[..n][..p] == s[..p];
    assert s[p] == s[..n][p];
    PosUnique(s, x, p);
  }

  /** `{lang: data[lang] for lang in selected if lang in data}`, filled in the selection's order
      (a repeated language keeps its first place). */
  function Pick<V>(data: Dict<string, V>, sel: seq<string>): Dict<string, V>
  {
    if |sel| == 0 then []
    else
      var acc := Pick(data, sel[..|sel| - 1]);
      match Get(data, sel[|sel| - 1])
      case None => acc
      case Some(v) => Put(acc, sel[|sel| - 1], v)
  }

  /** A language is picked, with its table, exactly when it is both selected and in the data. */
  lemma {:induction false} PickGet<V>(data: Dict<string, V>, sel: seq<string>, lang: string)
    ensures Get(Pick(data, sel), lang) == if lang in sel then Get(data, lang) else None
  {
    if |sel| > 0 {
      var n := |sel| - 1;
      PickGet(data, sel[..n], lang);
      assert sel == sel[..n] + [sel[n]];
      match Get(data, sel[n])
      case None =>
      case Some(v) =>
        if sel[n] != lang {
          PutOther(Pick(data, sel[..n]), sel[n], v, lang);
        }
    }
  }

  /** The keys a pick holds are selected ones, in the order of their first selection. */
  ghost predicate SelectionOrdered<V>(r: Dict<string, V>, sel: seq<string>)
  {
    && (forall i :: 0 <= i < |r| ==> r[i].0 in sel)
    && (forall i, j :: 0 <= i < j < |r| ==> Pos(sel, r[i].0) < Pos(sel, r[j].0))
  }

  /** Writing an already present key keeps the key order. */
  lemma PutPresentKeys<V>(acc: Dict<string, V>, k: string, v: V)
    requires k in Keys(acc)
    ensures |Put(acc, k, v)| == |acc|
    ensures forall i :: 0 <= i < |acc| ==> Put(acc, k, v)[i].0 == acc[i].0
  {
    PutKeys(acc, k, v);
    var ka := Keys(acc);
    var kr := Keys(Put(acc, k, v));
    forall i | 0 <= i < |acc| ensures Put(acc, k, v)[i].0 == acc[i].0 {
      assert kr[i] == ka[i];
    }
  }

  /** A selection ordered against a prefix of `sel` stays ordered against `sel`. */
  lemma OrderedPrefix<V>(acc: Dict<string, V>, sel: seq<string>, n: nat)
    requires n <= |sel| && SelectionOrdered(acc, sel[..n])
    ensures SelectionOrdered(acc, sel)
    ensures forall i :: 0 <= i < |acc| ==> Pos(sel, acc[i].0) < n
  {
    forall i | 0 <= i < |acc| ensures acc[i].0 in sel && Pos(sel, acc[i].0) == Pos(sel[..n], acc[i].0) < n {
      PosPrefix(sel, n, acc[i].0);
    }
  }

  /** Writing a present key keeps the order. */
  lemma OrderedPutPresent<V>(acc: Dict<string, V>, sel: seq<string>, k: string, v: V)
    requires SelectionOrdered(acc, sel) && k in Keys(acc)
    ensures SelectionOrdered(Put(acc, k, v), sel)
  {
    PutPresentKeys(acc, k, v);
    var r := Put(acc, k, v);
    forall i, j | 0 <= i < j < |r| ensures Pos(sel, r[i].0) < Pos(sel, r[j].0) {
      assert r[i].0 == acc[i].0 && r[j].0 == acc[j].0;
    }
  }

  /** Appending a key selected after all present ones keeps the order. */
  lemma OrderedAppend<V>(acc: Dict<string, V>, sel: seq<string>, n: nat, v: V)
    requires n < |sel| && sel[n] !in sel[..n]
    requires SelectionOrdered(acc, sel) && forall i :: 0 <= i < |acc| ==> Pos(sel, acc[i].0) < n
    ensures SelectionOrdered(acc + [(sel[n], v)], sel)
  {
    PosUnique(sel, sel[n], n);
    var r := acc + [(sel[n], v)];
    assert forall i :: 0 <= i < |acc| ==> r[i] == acc[i];
    assert r[|acc|].0 == sel[n];
  }

  /** The picked languages come in the order of their first selection. */
  lemma {:induction false} PickOrder<V>(data: Dict<string, V>, sel: seq<string>)
    ensures SelectionOrdered(Pick(data, sel), sel)
  {
    if |sel| > 0 {
      var n := |sel| - 1;
      var acc := Pick(data, sel[..n]);
      PickOrder(data, sel[..n]);
      OrderedPrefix(acc, sel, n);
      var g := Get(data, sel[n]);
      if g.Some? {
        PickGet(data, sel[..n], sel[n]);
        if sel[n] in Keys(acc) {
          OrderedPutPresent(acc, sel, sel[n], g.value);
        } else {
          PutNew(acc, sel[n], g.value);
          OrderedAppend(acc, sel, n, g.value);
        }
        assert Pick(data, sel) == Put(acc, sel[n], g.value);
      } else {
        assert Pick(data, sel) == acc;
      }
    }
  }

  /** The concatenation of the selected languages in the selection's own order, repeats and
      all, skipping languages absent from the data: what `init_files` builds. */
  function InOrder<V>(data: Dict<string, V>, sel: seq<string>): Dict<string, V>
  {
    if |sel| == 0 then []
    else InOrder(data, sel[..|sel| - 1]) + match Get(data, sel[|sel| - 1])
                                          case None => []
                                          case Some(v) => [(sel[|sel| - 1], v)]
  }

  /** Each picked entry is a selected language with its own table. */
  lemma {:induction false} InOrderMembers<V>(data: Dict<string, V>, sel: seq<string>)
    ensures forall i :: 0 <= i < |InOrder(data, sel)| ==>
              InOrder(data, sel)[i].0 in sel && Get(data, InOrder(data, sel)[i].0) == Some(InOrder(data, sel)[i].1)
  {
    if |sel| > 0 {
      var n := |sel| - 1;
      InOrderMembers(data, sel[..n]);
      var front := InOrder(data, sel[..n]);
      forall i | 0 <= i < |InOrder(data, sel)|
        ensures InOrder(data, sel)[i].0 in sel && Get(data, InOrder(data, sel)[i].0) == Some(InOrder(data, sel)[i].1)
      {
        if i < |front| {
          assert InOrder(data, sel)[i] == front[i];
          assert front[i].0 in sel[..n];
        }
      }
    }
  }

  /** Selecting one list of languages after another is concatenating their picks. */
  lemma {:induction false} InOrderConcat<V>(data: Dict<string, V>, a: seq<string>, b: seq<string>)
    ensures InOrder(data, a + b) == InOrder(data, a) + InOrder(data, b)
    decreases |b|
  {
    if |b| == 0 {
      assert a + b == a;
    } else {
      var n := |b| - 1;
      assert (a + b)[..|a + b| - 1] == a + b[..n];
      InOrderConcat(data, a, b[..n]);
    }
  }

  /** The word lists of `InOrder`, one after the other. */
  function Flatten(tables: LangLists): seq<string>
  {
    if |tables| == 0 then [] else Flatten(tables[..|tables| - 1]) + tables[|tables| - 1].1
  }

  lemma {:induction false} FlattenConcat(a: LangLists, b: LangLists)
    ensures Flatten(a + b) == Flatten(a) + Flatten(b)
    decreases |b|
  {
    if |b| == 0 {
      assert a + b == a;
    } else {
      var n := |b| - 1;
      assert (a + b)[..|a + b| - 1] == a + b[..n];
      FlattenConcat(a, b[..n]);
    }
  }

  // ---------------------------------------------------------------- document types

  /** `d.update(e)`: each of `e`'s entries written in turn. */
  function Update(d: Dict<string, string>, e: Dict<string, string>): Dict<string, string>
  {
    if |e| == 0 then d else Put(Update(d, e[..|e| - 1]), e[|e| - 1].0, e[|e| - 1].1)
  }

  /** The value of the last entry of `k`. */
  function LastGet(e: Dict<string, string>, k: string): Option<string>
  {
    if |e| == 0 then None else if e[|e| - 1].0 == k then Some(e[|e| - 1].1) else LastGet(e[..|e| - 1], k)
  }

  /** In a dict, the last entry of a key is its only one. */
  lemma {:induction false} LastGetDistinct(e: Dict<string, string>, k: string)
    requires DistinctKeys(e)
    ensures LastGet(e, k) == Get(e, k)
  {
    if |e| > 0 {
      var n := |e| - 1;
      LastGetDistinct(e[..n], k);
      if e[n].0 == k {
        GetDistinct(e, n);
      } else {
        GetPrefix(e, k);
      }
    }
  }

  lemma {:induction false} GetPrefix(e: Dict<string, string>, k: string)
    requires |e| > 0 && e[|e| - 1].0 != k
    ensures Get(e, k) == Get(e[..|e| - 1], k)
  {
    if |e| > 1 && e[0].0 != k {
      assert e[1..][..|e[1..]| - 1] == e[..|e| - 1][1..];
      GetPrefix(e[1..], k);
    }
  }

  /** After an update a key holds `e`'s value when `e` has it, and its old value otherwise. */
  lemma {:induction false} UpdateGet(d: Dict<string, string>, e: Dict<string, string>, k: string)
    ensures Get(Update(d, e), k) == if LastGet(e, k).Some? then LastGet(e, k) else Get(d, k)
  {
    if |e| > 0 {
      var n := |e| - 1;
      UpdateGet(d, e[..n], k);
      if e[n].0 != k {
        PutOther(Update(d, e[..n]), e[n].0, e[n].1, k);
      }
    }
  }

  /** The mappings of the selected languages in data merged in the selection's order, each
      overriding the ones before it. */
  function MergeDocTypes(table: LangDocTypes, sel: seq<string>): Dict<string, string>
  {
    if |sel| == 0 then []
    else
      var acc := MergeDocTypes(table, sel[..|sel| - 1]);
      match Get(table, sel[|sel| - 1])
      case None => acc
      case Some(m) => Update(acc, m)
  }

  /** The value that the last selected language mapping `k` gives it. */
  function Defined(table: LangDocTypes, sel: seq<string>, k: string): Option<string>
  {
    if |sel| == 0 then None
    else
      var m := Get(table, sel[|sel| - 1]);
      if m.Some? && LastGet(m.value, k).Some? then LastGet(m.value, k) else Defined(table, sel[..|sel| - 1], k)
  }

  /** A merged word maps to what the last selected language that maps it says. */
  lemma {:induction false} MergeGet(table: LangDocTypes, sel: seq<string>, k: string)
    ensures Get(MergeDocTypes(table, sel), k) == Defined(table, sel, k)
  {
    if |sel| > 0 {
      var n := |sel| - 1;
      MergeGet(table, sel[..n], k);
      match Get(table, sel[n])
      case None =>
      case Some(m) =>
        UpdateGet(MergeDocTypes(table, sel[..n]), m, k);
    }
  }

  /** A later language overrides earlier ones. */
  lemma LaterOverrides(table: LangDocTypes, sel: seq<string>, lang: string, k: string, v: string)
    requires Get(table, lang).Some? && DistinctKeys(Get(table, lang).value)
    requires Get(Get(table, lang).value, k) == Some(v)
    ensures Get(MergeDocTypes(table, sel + [lang]), k) == Some(v)
  {
    MergeGet(table, sel + [lang], k);
    LastGetDistinct(Get(table, lang).value, k);
    assert (sel + [lang])[|sel|] == lang;
  }
}
