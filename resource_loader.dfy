// metadata_extract/resource_loader.py: the class-level store of keywords, stopwords, labels and
// document-type mappings, filled once from the language-keyed JSON tables. The JSON files are
// given to the constructor as `ResourceData`; the class attributes of the source are the fields
// of one `ResourceLoader` object.

module Resources {
  import opened Common
  import opened Strings
  import opened Dicts
  import opened ResourceTables

  /** The four JSON files, as read. */
  datatype ResourceData = ResourceData(keywords: LangLists, stopwords: LangLists, labels: LangLabels,
                                       docTypes: LangDocTypes)

  /** `__doc_type_mapping`: merged over a selection, or without one the whole table as read,
      still keyed by language. */
  datatype DocTypes = Merged(mapping: Dict<string, string>) | ByLanguage(table: LangDocTypes)

  /** The class attributes; `labels` and `docTypes` are `None` while never assigned. */
  datatype LoaderState = LoaderState(keywords: seq<string>, stopwords: seq<string>,
                                     labels: Option<Dict<string, string>>, docTypes: Option<DocTypes>,
                                     langLabels: LangLabels, langDocTypes: LangDocTypes)

  const Unloaded := LoaderState([], [], None, None, [], [])

  /** `if selected_languages:` — neither `None` nor empty. */
  predicate Truthy(sel: Option<seq<string>>) { sel.Some? && |sel.value| > 0 }

  // ---------------------------------------------------------------- the loading steps

  /** `__load_info_page_keywords`: nothing once the list is non-empty, else the selected lists. */
  function KeywordsStep(s: LoaderState, d: ResourceData, sel: Option<seq<string>>): LoaderState
  {
    if |s.keywords| > 0 then s else s.(keywords := s.keywords + Selected(d.keywords, sel))
  }

  /** `__load_stopwords`, the same for stopwords. */
  function StopwordsStep(s: LoaderState, d: ResourceData, sel: Option<seq<string>>): LoaderState
  {
    if |s.stopwords| > 0 then s else s.(stopwords := s.stopwords + Selected(d.stopwords, sel))
  }

  /** The languages whose labels are used: the selected ones present, or all of them. */
  function LabelLangs(d: ResourceData, sel: Option<seq<string>>): LangLabels
  {
    if Truthy(sel) then Pick(d.labels, sel.value) else d.labels
  }

  /** The stored labels of a set of languages. */
  function LabelsOf(ll: LangLabels): Dict<string, string> { StripLabels(RawLabels(ll)) }

  /** `__load_labels`: nothing once the language labels are non-empty. */
  function LabelsStep(s: LoaderState, d: ResourceData, sel: Option<seq<string>>): LoaderState
  {
    if |s.langLabels| > 0 then s
    else s.(langLabels := LabelLangs(d, sel), labels := Some(LabelsOf(LabelLangs(d, sel))))
  }

  function DocTypesOf(d: ResourceData, sel: Option<seq<string>>): DocTypes
  {
    if Truthy(sel) then Merged(MergeDocTypes(d.docTypes, sel.value)) else ByLanguage(d.docTypes)
  }

  /** `__load_doc_type_mapping`: nothing once the table as read is non-empty. */
  function DocTypesStep(s: LoaderState, d: ResourceData, sel: Option<seq<string>>): LoaderState
  {
    if |s.langDocTypes| > 0 then s
    else s.(langDocTypes := d.docTypes, docTypes := Some(DocTypesOf(d, sel)))
  }

  /** `load(selected_languages)`: the four steps in order. */
  function LoadStep(s: LoaderState, d: ResourceData, sel: Option<seq<string>>): LoaderState
  {
    DocTypesStep(LabelsStep(StopwordsStep(KeywordsStep(s, d, sel), d, sel), d, sel), d, sel)
  }

  /** Every store holds something, so that each load-once guard is closed. */
  predicate Populated(s: LoaderState)
  {
    |s.keywords| > 0 && |s.stopwords| > 0 && |s.langLabels| > 0 && |s.langDocTypes| > 0
  }

  // ---------------------------------------------------------------- properties of loading

  /** Loading twice with the same selection is loading once. */
  lemma LoadIdempotent(s: LoaderState, d: ResourceData, sel: Option<seq<string>>)
    ensures LoadStep(LoadStep(s, d, sel), d, sel) == LoadStep(s, d, sel)
  {
    var k := KeywordsStep(s, d, sel);
    var w := StopwordsStep(k, d, sel);
    var l := LabelsStep(w, d, sel);
    var t := DocTypesStep(l, d, sel);
    assert KeywordsStep(t, d, sel).keywords == k.keywords by {
      if |k.keywords| == 0 {
        assert s.keywords == [];
      }
    }
    assert StopwordsStep(KeywordsStep(t, d, sel), d, sel).stopwords == w.stopwords by {
      if |w.stopwords| == 0 {
        assert k.stopwords == [];
      }
    }
  }

  /** Once every store holds something, a later load changes nothing whatever it selects. */
  lemma LoadOnce(s: LoaderState, d: ResourceData, sel1: Option<seq<string>>, sel2: Option<seq<string>>)
    requires Populated(LoadStep(s, d, sel1))
    ensures LoadStep(LoadStep(s, d, sel1), d, sel2) == LoadStep(s, d, sel1)
  {
  }

  /** The guard tests for a non-empty list: a selection that finds no keywords leaves the
      store open, and the next load fills it from its own selection. */
  lemma EmptySelectionReloads(d: ResourceData, sel1: Option<seq<string>>, sel2: Option<seq<string>>)
    requires Selected(d.keywords, sel1) == []
    ensures LoadStep(LoadStep(Unloaded, d, sel1), d, sel2).keywords == Selected(d.keywords, sel2)
  {
    assert [] + Selected(d.keywords, sel2) == Selected(d.keywords, sel2);
  }

  /** A first load keeps a keyword exactly when a chosen language lists it; `None` chooses
      every language. */
  lemma LoadedKeywords(d: ResourceData, sel: Option<seq<string>>, x: string)
    ensures x in LoadStep(Unloaded, d, sel).keywords
            <==> exists i :: 0 <= i < |d.keywords| && Chosen(sel, d.keywords[i].0) && x in d.keywords[i].1
    ensures x in LoadStep(Unloaded, d, sel).stopwords
            <==> exists i :: 0 <= i < |d.stopwords| && Chosen(sel, d.stopwords[i].0) && x in d.stopwords[i].1
  {
    SelectedMembers(d.keywords, sel, x);
    SelectedMembers(d.stopwords, sel, x);
    assert [] + Selected(d.keywords, sel) == Selected(d.keywords, sel);
    assert [] + Selected(d.stopwords, sel) == Selected(d.stopwords, sel);
  }

  /** An empty selection is not `None` for lists, but means "every language" for labels and
      document types. */
  lemma EmptySelection(d: ResourceData)
    ensures LoadStep(Unloaded, d, Some([])).keywords == []
    ensures LoadStep(Unloaded, d, Some([])).langLabels == d.labels
    ensures LoadStep(Unloaded, d, Some([])).docTypes == Some(ByLanguage(d.docTypes))
  {
    assert Selected(d.keywords, Some([])) == [] by {
      NothingChosen(d.keywords);
    }
  }

  lemma {:induction false} NothingChosen(data: LangLists)
    ensures Selected(data, Some([])) == []
  {
    if |data| > 0 {
      NothingChosen(data[..|data| - 1]);
    }
  }

  /** With a selection, the first load's label languages are the selected languages present in
      the data, each with its own table, in the order first selected. */
  lemma LoadedLabelLangs(d: ResourceData, sel: seq<string>, lang: string)
    requires |sel| > 0
    ensures Get(LoadStep(Unloaded, d, Some(sel)).langLabels, lang) == if lang in sel then Get(d.labels, lang) else None
    ensures SelectionOrdered(LoadStep(Unloaded, d, Some(sel)).langLabels, sel)
  {
    PickGet(d.labels, sel, lang);
    PickOrder(d.labels, sel);
  }

  /** After a first load, a label key whose alternatives are clean maps to all of them, from
      each used language in turn, joined by '|'. */
  lemma LoadedLabels(d: ResourceData, sel: Option<seq<string>>, key: string)
    requires CleanLabels(LabelLangs(d, sel), key)
    ensures var t := LoadStep(Unloaded, d, sel);
            var alts := Alternatives(LabelLangs(d, sel), key);
            t.labels.Some? && Get(t.labels.value, key) == if alts == [] then None else Some(Join("|", alts))
  {
    LabelOfKey(LabelLangs(d, sel), key);
  }

  /** After a first load with a selection, a document-type word maps to what the last selected
      language that maps it says; without one the mapping is the table as read. */
  lemma LoadedDocTypes(d: ResourceData, sel: Option<seq<string>>, k: string)
    ensures var t := LoadStep(Unloaded, d, sel);
            && (Truthy(sel) ==> t.docTypes.Some? && t.docTypes.value.Merged?
                                && Get(t.docTypes.value.mapping, k) == Defined(d.docTypes, sel.value, k))
            && (!Truthy(sel) ==> t.docTypes == Some(ByLanguage(d.docTypes)))
  {
    if Truthy(sel) {
      MergeGet(d.docTypes, sel.value, k);
    }
  }

  // ---------------------------------------------------------------- the loops

  /** `for lang in data: if selected: acc.extend(data[lang])`. */
  method ExtendSelected(acc: seq<string>, data: LangLists, sel: Option<seq<string>>) returns (r: seq<string>)
    ensures r == acc + Selected(data, sel)
  {
    r := acc;
    var i := 0;
    while i < |data|
      invariant 0 <= i <= |data|
      invariant r == acc + Selected(data[..i], sel)
    {
      assert data[..i + 1][..i] == data[..i];
      if Chosen(sel, data[i].0) {
        r := r + data[i].1;
      }
      i := i + 1;
    }
    assert data[..|data|] == data;
  }

  /** `for lang in filter(lambda x: x in data, selected): picked[lang] = data[lang]`. */
  method PickLanguages<V>(data: Dict<string, V>, sel: seq<string>) returns (r: Dict<string, V>)
    ensures r == Pick(data, sel)
  {
    r := [];
    var i := 0;
    while i < |sel|
      invariant 0 <= i <= |sel|
      invariant r == Pick(data, sel[..i])
    {
      assert sel[..i + 1][..i] == sel[..i];
      var found := Get(data, sel[i]);
      if found.Some? {
        r := Put(r, sel[i], found.value);
      }
      i := i + 1;
    }
    assert sel[..|sel|] == sel;
  }

  /** Writing a key twice leaves the second value in the first one's place. */
  lemma {:induction false} PutPut<V>(d: Dict<string, V>, k: string, v: V, w: V)
    ensures Put(Put(d, k, v), k, w) == Put(d, k, w)
  {
    if |d| > 0 && d[0].0 != k {
      PutPut(d[1..], k, v, w);
    }
  }

  /** Setting a missing key to "" and then appending to it is writing the old value (or "")
      followed by the piece. */
  lemma DefaultThenAppend(d: Dict<string, string>, k: string, p: string)
    ensures var d1 := if k in Keys(d) then d else Put(d, k, "");
            Get(d1, k).Some? && Put(d1, k, Get(d1, k).value + p) == Put(d, k, Get(d, k).GetOr("") + p)
  {
    if k !in Keys(d) {
      PutPut(d, k, "", "" + p);
      assert "" + p == p;
    }
  }

  lemma AddLangPrefix(labels: Dict<string, string>, table: LabelTable, i: nat)
    requires i < |table|
    ensures var acc := AddLang(labels, table[..i]);
            AddLang(labels, table[..i + 1]) == Put(acc, table[i].0, Get(acc, table[i].0).GetOr("") + Piece(table[i].1))
  {
    assert table[..i + 1][..i] == table[..i];
  }

  /** The inner loop of `__load_labels`: for each key of one language, a missing key is first
      set to "", then the language's piece is appended. */
  method AddLanguage(labels: Dict<string, string>, table: LabelTable) returns (r: Dict<string, string>)
    ensures r == AddLang(labels, table)
  {
    r := labels;
    var i := 0;
    while i < |table|
      invariant 0 <= i <= |table|
      invariant r == AddLang(labels, table[..i])
    {
      var key := table[i].0;
      DefaultThenAppend(r, key, Piece(table[i].1));
      AddLangPrefix(labels, table, i);
      if key !in Keys(r) {
        r := Put(r, key, "");
      }
      r := Put(r, key, Get(r, key).value + Piece(table[i].1));
      i := i + 1;
    }
    assert table[..|table|] == table;
  }

  /** The outer loop of `__load_labels`, over the used languages. */
  method GatherLabels(ll: LangLabels) returns (r: Dict<string, string>)
    ensures r == RawLabels(ll)
  {
    r := [];
    var i := 0;
    while i < |ll|
      invariant 0 <= i <= |ll|
      invariant r == RawLabels(ll[..i])
    {
      assert ll[..i + 1][..i] == ll[..i];
      r := AddLanguage(r, ll[i].1);
      i := i + 1;
    }
    assert ll[..|ll|] == ll;
  }

  /** `for key in labels: labels[key] = labels[key].lstrip("|").rstrip("|")`. */
  method StripLabelValues(labels: Dict<string, string>) returns (r: Dict<string, string>)
    ensures r == StripLabels(labels)
  {
    r := labels;
    var i := 0;
    while i < |r|
      invariant 0 <= i <= |labels| && |r| == |labels|
      invariant forall j :: 0 <= j < i ==> r[j] == StripLabels(labels)[j]
      invariant forall j :: i <= j < |r| ==> r[j] == labels[j]
    {
      r := r[i := (r[i].0, StripChars(r[i].1, {'|'}))];
      i := i + 1;
    }
  }

  /** `for lang in filter(...): doc_type_mapping.update(data[lang])`. */
  method MergeSelected(table: LangDocTypes, sel: seq<string>) returns (r: Dict<string, string>)
    ensures r == MergeDocTypes(table, sel)
  {
    r := [];
    var i := 0;
    while i < |sel|
      invariant 0 <= i <= |sel|
      invariant r == MergeDocTypes(table, sel[..i])
    {
      assert sel[..i + 1][..i] == sel[..i];
      var m := Get(table, sel[i]);
      if m.Some? {
        r := Update(r, m.value);
      }
      i := i + 1;
    }
    assert sel[..|sel|] == sel;
  }

  // ---------------------------------------------------------------- the store

  class ResourceLoader {
    /** The JSON files the loads read. */
    const data: ResourceData
    var infoPageKeywords: seq<string>
    var stopwords: seq<string>
    var labels: Option<Dict<string, string>>
    var docTypeMapping: Option<DocTypes>
    var langLabels: LangLabels
    var langDocTypeMapping: LangDocTypes

    function State(): LoaderState
      reads this
    {
      LoaderState(infoPageKeywords, stopwords, labels, docTypeMapping, langLabels, langDocTypeMapping)
    }

    /** The class as defined: empty lists and tables, `labels` and the mapping never assigned. */
    constructor(data: ResourceData)
      ensures this.data == data && State() == Unloaded
    {
      this.data := data;
      infoPageKeywords := [];
      stopwords := [];
      labels := None;
      docTypeMapping := None;
      langLabels := [];
      langDocTypeMapping := [];
    }

    /** `load(selected_languages)`. */
    method Load(sel: Option<seq<string>>)
      modifies this
      ensures State() == LoadStep(old(State()), data, sel)
    {
      LoadInfoPageKeywords(sel);
      LoadStopwords(sel);
      LoadLabels(sel);
      LoadDocTypeMapping(sel);
    }

    method LoadInfoPageKeywords(sel: Option<seq<string>>)
      modifies this
      ensures State() == KeywordsStep(old(State()), data, sel)
    {
      if |infoPageKeywords| > 0 {
        return;
      }
      infoPageKeywords := ExtendSelected(infoPageKeywords, data.keywords, sel);
    }

    method LoadStopwords(sel: Option<seq<string>>)
      modifies this
      ensures State() == StopwordsStep(old(State()), data, sel)
    {
      if |stopwords| > 0 {
        return;
      }
      stopwords := ExtendSelected(stopwords, data.stopwords, sel);
    }

    method LoadLabels(sel: Option<seq<string>>)
      modifies this
      ensures State() == LabelsStep(old(State()), data, sel)
    {
      if |langLabels| > 0 {
        return;
      }
      if Truthy(sel) {
        langLabels := PickLanguages(data.labels, sel.value);
      } else {
        langLabels := data.labels;
      }
      var raw := GatherLabels(langLabels);
      var stripped := StripLabelValues(raw);
      labels := Some(stripped);
    }

    method LoadDocTypeMapping(sel: Option<seq<string>>)
      modifies this
      ensures State() == DocTypesStep(old(State()), data, sel)
    {
      if |langDocTypeMapping| > 0 {
        return;
      }
      langDocTypeMapping := data.docTypes;
      if Truthy(sel) {
        var merged := MergeSelected(langDocTypeMapping, sel.value);
        docTypeMapping := Some(Merged(merged));
      } else {
        docTypeMapping := Some(ByLanguage(langDocTypeMapping));
      }
    }

    /** `get_info_page_keywords()`: the stored list; reading it changes nothing. */
    function GetInfoPageKeywords(): (r: seq<string>)
      reads this
      ensures r == State().keywords
    {
      infoPageKeywords
    }

    function GetStopwords(): (r: seq<string>)
      reads this
      ensures r == State().stopwords
    {
      stopwords
    }

    /** `get_labels()`: an `AttributeError` before any load has assigned the labels. */
    function GetLabels(): (r: Result<Dict<string, string>>)
      reads this
      ensures r.Err? <==> State().labels.None?
      ensures r.Ok? ==> State().labels == Some(r.value)
    {
      if labels.None? then Err("AttributeError") else Ok(labels.value)
    }

    /** `get_doc_type_mapping()`, likewise. */
    function GetDocTypeMapping(): (r: Result<DocTypes>)
      reads this
      ensures r.Err? <==> State().docTypes.None?
      ensures r.Ok? ==> State().docTypes == Some(r.value)
    {
      if docTypeMapping.None? then Err("AttributeError") else Ok(docTypeMapping.value)
    }
  }

  /** A freshly defined class answers `get_labels()` with an `AttributeError`, and a load makes
      the labels and the mapping readable. */
  method LoadThenGet(data: ResourceData, sel: Option<seq<string>>) returns (before: Result<Dict<string, string>>,
                                                                           after: Result<Dict<string, string>>)
    ensures before == Err("AttributeError")
    ensures after == Ok(LabelsOf(LabelLangs(data, sel)))
  {
    var loader := new ResourceLoader(data);
    before := loader.GetLabels();
    loader.Load(sel);
    after := loader.GetLabels();
  }
}
