// metadata_extract/init_files.py: a singleton that reads the resource tables once, for the
// languages of the `LANGUAGES` setting in their configured order. The setting's text and the
// JSON files are given to the class object's constructor.

module InitFiles {
  import opened Common
  import opened Strings
  import opened Dicts
  import opened ResourceTables
  import Resources

  /** The JSON files `init_files` reads; its document-type file is one flat mapping. */
  datatype InitData = InitData(keywords: LangLists, stopwords: LangLists, labels: LangLabels,
                               docTypes: Dict<string, string>)

  predicate IsComma(c: char) { c == ',' }

  /** `LANGUAGES.split(',')`. */
  function Languages(setting: string): seq<string> { SplitWhere(setting, IsComma) }

  /** The lists of the configured languages present in the data, in the configured order. */
  function ConfiguredLists(data: LangLists, langs: seq<string>): seq<string> { Flatten(InOrder(data, langs)) }

  /** The labels of the configured languages present in the data, each added in the configured
      order (a language configured twice is added twice), with the outer '|' stripped. */
  function ConfiguredLabels(data: LangLabels, langs: seq<string>): Dict<string, string>
  {
    StripLabels(RawLabels(InOrder(data, langs)))
  }

  // ---------------------------------------------------------------- properties

  /** A word is kept exactly when some configured language present in the data lists it. */
  lemma {:induction false} ConfiguredListsMembers(data: LangLists, langs: seq<string>, x: string)
    ensures x in ConfiguredLists(data, langs)
            <==> exists i :: 0 <= i < |langs| && Get(data, langs[i]).Some? && x in Get(data, langs[i]).value
  {
    if |langs| > 0 {
      var n := |langs| - 1;
      var front := langs[..n];
      ConfiguredListsMembers(data, front, x);
      var last := match Get(data, langs[n]) case None => [] case Some(v) => [(langs[n], v)];
      FlattenConcat(InOrder(data, front), last);
      assert Flatten(last) == if Get(data, langs[n]).Some? then Get(data, langs[n]).value else [] by {
        if |last| == 1 {
          assert last[..0] == [];
        }
      }
      if exists i :: 0 <= i < |langs| && Get(data, langs[i]).Some? && x in Get(data, langs[i]).value {
        var i :| 0 <= i < |langs| && Get(data, langs[i]).Some? && x in Get(data, langs[i]).value;
        if i < n {
          assert front[i] == langs[i];
        }
      }
      if x in ConfiguredLists(data, front) {
        var i :| 0 <= i < |front| && Get(data, front[i]).Some? && x in Get(data, front[i]).value;
        assert langs[i] == front[i];
      }
    }
  }

  /** Configured languages contribute in their order. */
  lemma ConfiguredOrder(data: LangLists, a: seq<string>, b: seq<string>)
    ensures ConfiguredLists(data, a + b) == ConfiguredLists(data, a) + ConfiguredLists(data, b)
  {
    InOrderConcat(data, a, b);
    FlattenConcat(InOrder(data, a), InOrder(data, b));
  }

  /** A configured language absent from the data contributes nothing. */
  lemma ConfiguredAbsent(data: LangLists, lang: string)
    requires lang !in Keys(data)
    ensures ConfiguredLists(data, [lang]) == []
  {
    assert [lang][..0] == [];
    assert InOrder(data, [lang]) == [];
  }

  /** A label key whose alternatives are clean maps to the alternatives of every configured
      language in order, joined by '|'. */
  lemma ConfiguredLabelOfKey(data: LangLabels, langs: seq<string>, key: string)
    requires CleanLabels(InOrder(data, langs), key)
    ensures Get(ConfiguredLabels(data, langs), key)
            == if Alternatives(InOrder(data, langs), key) == [] then None
               else Some(Join("|", Alternatives(InOrder(data, langs), key)))
  {
    LabelOfKey(InOrder(data, langs), key);
  }

  /** Unlike `ResourceLoader`, which keys its languages, a language configured twice adds its
      alternatives twice. */
  lemma RepeatedLanguage(data: LangLabels, lang: string, key: string)
    requires Get(data, lang).Some?
    ensures Alternatives(InOrder(data, [lang, lang]), key)
            == TableAlternatives(Get(data, lang).value, key) + TableAlternatives(Get(data, lang).value, key)
  {
    var t := Get(data, lang).value;
    var a := TableAlternatives(t, key);
    var one := InOrder(data, [lang]);
    assert one == [(lang, t)] by {
      assert [lang][..0] == [];
      assert InOrder(data, [lang][..0]) == [];
      assert [lang][|[lang]| - 1] == lang;
    }
    var io := InOrder(data, [lang, lang]);
    assert io == one + [(lang, t)] by {
      assert [lang, lang][..1] == [lang];
    }
    assert io[..1] == one && one[..0] == [];
    assert Alternatives(one, key) == [] + a;
    assert Alternatives(io, key) == Alternatives(one, key) + a;
  }

  // ---------------------------------------------------------------- the loops

  /** `[acc.extend(data[lang]) for lang in self.languages if lang in data]`. */
  method InitLists(data: LangLists, langs: seq<string>) returns (r: seq<string>)
    ensures r == ConfiguredLists(data, langs)
  {
    r := [];
    var i := 0;
    while i < |langs|
      invariant 0 <= i <= |langs|
      invariant r == Flatten(InOrder(data, langs[..i]))
    {
      assert langs[..i + 1][..i] == langs[..i];
      var found := Get(data, langs[i]);
      if found.Some? {
        FlattenConcat(InOrder(data, langs[..i]), [(langs[i], found.value)]);
        assert [(langs[i], found.value)][..0] == [];
        r := r + found.value;
      } else {
        assert InOrder(data, langs[..i]) + [] == InOrder(data, langs[..i]);
      }
      i := i + 1;
    }
    assert langs[..|langs|] == langs;
  }

  /** `__init_labels`: `__get_labels_from_lang` for each configured language present, then the
      outer '|' stripped. */
  method InitLabels(data: LangLabels, langs: seq<string>) returns (r: Dict<string, string>)
    ensures r == ConfiguredLabels(data, langs)
  {
    r := [];
    var i := 0;
    while i < |langs|
      invariant 0 <= i <= |langs|
      invariant r == RawLabels(InOrder(data, langs[..i]))
    {
      assert langs[..i + 1][..i] == langs[..i];
      var found := Get(data, langs[i]);
      if found.Some? {
        var io := InOrder(data, langs[..i + 1]);
        assert io == InOrder(data, langs[..i]) + [(langs[i], found.value)];
        assert io[..|io| - 1] == InOrder(data, langs[..i]);
        r := Resources.AddLanguage(r, found.value);
      } else {
        assert InOrder(data, langs[..i + 1]) == InOrder(data, langs[..i]);
      }
      i := i + 1;
    }
    assert langs[..|langs|] == langs;
    r := Resources.StripLabelValues(r);
  }

  // ---------------------------------------------------------------- the singleton

  /** The attributes of the one `InitFiles` instance. */
  class Tables {
    var languages: seq<string>
    var infoPageKeywords: seq<string>
    var stopwords: seq<string>
    var labels: Dict<string, string>
    var docTypeMapping: Dict<string, string>

    /** `super().__new__(cls)`: an instance before `__init__` has set anything. */
    constructor()
      ensures languages == [] && infoPageKeywords == [] && stopwords == [] && labels == [] && docTypeMapping == []
    {
      languages := [];
      infoPageKeywords := [];
      stopwords := [];
      labels := [];
      docTypeMapping := [];
    }
  }

  /** The class object: `_instance`, `_initialized`, and what `__init__` reads. */
  class Singleton {
    const setting: string
    const data: InitData
    var instance: Tables?
    var initialized: bool

    constructor(setting: string, data: InitData)
      ensures this.setting == setting && this.data == data
      ensures instance == null && !initialized
      ensures Valid()
    {
      this.setting := setting;
      this.data := data;
      instance := null;
      initialized := false;
    }

    /** The attributes `__init__` gives an instance. */
    ghost predicate Ready(t: Tables)
      reads t
    {
      && t.languages == Languages(setting)
      && t.infoPageKeywords == ConfiguredLists(data.keywords, t.languages)
      && t.stopwords == ConfiguredLists(data.stopwords, t.languages)
      && t.labels == ConfiguredLabels(data.labels, t.languages)
      && t.docTypeMapping == data.docTypes
    }

    /** `_initialized` is only set once the instance holds its tables. */
    ghost predicate Valid()
      reads this, instance
    {
      initialized ==> instance != null && Ready(instance)
    }

    /** `__new__`: the first call creates the instance, every later one returns it. */
    method New() returns (t: Tables)
      requires Valid()
      modifies this
      ensures Valid()
      ensures old(instance) != null ==> t == old(instance)
      ensures old(instance) == null ==> fresh(t)
      ensures instance == t && initialized == old(initialized)
    {
      if instance == null {
        t := new Tables();
        instance := t;
      } else {
        t := instance;
      }
    }

    /** `__init__`: a no-op once initialised, else the tables read and the flag set. */
    method Init(t: Tables)
      requires Valid() && t == instance
      modifies this, t
      ensures Valid() && initialized && instance == t
      ensures old(initialized) ==> unchanged(t)
      ensures Ready(t)
    {
      if initialized {
        return;
      }
      t.languages := Languages(setting);
      t.infoPageKeywords := InitLists(data.keywords, t.languages);
      t.stopwords := InitLists(data.stopwords, t.languages);
      t.labels := InitLabels(data.labels, t.languages);
      t.docTypeMapping := data.docTypes;
      initialized := true;
    }

    /** `InitFiles()`: `__new__` followed by `__init__`. */
    method Call() returns (t: Tables)
      requires Valid()
      modifies this, instance
      ensures Valid() && initialized && instance == t
      ensures old(instance) != null ==> t == old(instance)
      ensures old(instance) == null ==> fresh(t)
      ensures Ready(t)
    {
      t := New();
      Init(t);
    }

    /** `get_info_page_keywords()`. */
    method GetInfoPageKeywords() returns (r: seq<string>)
      requires Valid()
      modifies this, instance
      ensures Valid() && initialized
      ensures r == ConfiguredLists(data.keywords, Languages(setting))
    {
      var t := Call();
      r := t.infoPageKeywords;
    }

    /** `get_stopwords()`. */
    method GetStopwords() returns (r: seq<string>)
      requires Valid()
      modifies this, instance
      ensures Valid() && initialized
      ensures r == ConfiguredLists(data.stopwords, Languages(setting))
    {
      var t := Call();
      r := t.stopwords;
    }

    /** `get_labels()`. */
    method GetLabels() returns (r: Dict<string, string>)
      requires Valid()
      modifies this, instance
      ensures Valid() && initialized
      ensures r == ConfiguredLabels(data.labels, Languages(setting))
    {
      var t := Call();
      r := t.labels;
    }

    /** `get_doc_type_mapping()`: the file's mapping as read. */
    method GetDocTypeMapping() returns (r: Dict<string, string>)
      requires Valid()
      modifies this, instance
      ensures Valid() && initialized
      ensures r == data.docTypes
    {
      var t := Call();
      r := t.docTypeMapping;
    }
  }

  /** Two constructions give the same instance, and the second leaves its tables as they were. */
  method SameInstance(setting: string, data: InitData) returns (a: Tables, b: Tables)
    ensures a == b
    ensures b.languages == Languages(setting)
  {
    var cls := new Singleton(setting, data);
    a := cls.Call();
    b := cls.Call();
  }
}
