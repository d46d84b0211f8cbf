// Candidate storage and the choice of one value per output field (metadata_extract/metadata.py).

module Arbitration {
  import opened Common
  import opened Strings
  import opened Dicts
  import opened Sorting
  import opened Unique
  import opened Candidates
  import opened Text

  /** Meteor's output record. */
  datatype Results = Results(
    year: Option<CandidateDict>,
    language: Option<CandidateDict>,
    title: Option<CandidateDict>,
    publisher: Option<CandidateDict>,
    publicationType: Option<CandidateDict>,
    authors: seq<CandidateDict>,
    isbn: Option<CandidateDict>,
    issn: Option<CandidateDict>)

  /** `new_results`: every field empty. */
  function NewResults(): Results
  {
    Results(None, None, None, None, None, [], None, None)
  }

  /** The candidates found so far, by field name. */
  type Fields = map<string, seq<Candidate>>

  /** A field's list exists only once a candidate has been added to it. */
  predicate NonEmptyLists(m: Fields)
  {
    forall f :: f in m ==> |m[f]| > 0
  }

  function ToDictOpt(c: Option<Candidate>): Option<CandidateDict>
  {
    if c.None? then None else Some(ToDict(c.value))
  }

  // ---------------------------------------------------------------- publisher

  function ValuesOf(cs: seq<Candidate>): seq<Value>
  {
    seq(|cs|, i requires 0 <= i < |cs| => cs[i].value)
  }

  /** `has_publisher`: the name is the value of some publisher candidate. */
  function HasPublisher(m: Fields, name: string): (r: bool)
    ensures r <==> "publisher" in m && exists i :: 0 <= i < |m["publisher"]| && m["publisher"][i].value == Text(name)
  {
    "publisher" in m
    && var vs := ValuesOf(m["publisher"]);
       assert forall i :: 0 <= i < |vs| ==> vs[i] == m["publisher"][i].value;
       Text(name) in vs
  }

  /** `choose_publishers` on a non-empty list: the first candidate backed by the registry, else
      the first candidate. */
  function PublisherChoice(cs: seq<Candidate>): (r: Candidate)
    requires |cs| > 0
    ensures (exists i :: 0 <= i < |cs| && |cs[i].regEntries| > 0) ==>
              exists i :: 0 <= i < |cs| && r == cs[i] && |cs[i].regEntries| > 0
                          && forall j :: 0 <= j < i ==> |cs[j].regEntries| == 0
    ensures (forall i :: 0 <= i < |cs| ==> |cs[i].regEntries| == 0) ==> r == cs[0]
  {
    match FirstIndex(cs, (c: Candidate) => |c.regEntries| > 0)
    case Some(i) => cs[i]
    case None => cs[0]
  }

  // ---------------------------------------------------------------- year

  /** `year_ranking`. */
  function YearRank(c: Candidate): real
  {
    if c.origin == COPYRIGHT then 2.0 else if c.origin == PDFINFO then 1.0 else 0.0
  }

  /** `rank_years` on a non-empty list: the head of the list sorted by rank, highest first. */
  function BestYear(cs: seq<Candidate>): Candidate
    requires |cs| > 0
  {
    Sort(cs, YearRank, true)[0]
  }

  /** `i` is the first position of a candidate with origin `o`. */
  predicate FirstOfOrigin(cs: seq<Candidate>, i: int, o: Origin)
  {
    0 <= i < |cs| && cs[i].origin == o && forall j :: 0 <= j < i ==> cs[j].origin != o
  }

  /** `rank_years` picks the first COPYRIGHT candidate, else the first PDFINFO one, else the
      first candidate: the sort is stable, so ties keep the order in which they were added. */
  lemma BestYearChoice(cs: seq<Candidate>)
    requires |cs| > 0
    ensures (exists i :: 0 <= i < |cs| && cs[i].origin == COPYRIGHT) ==>
              exists i :: FirstOfOrigin(cs, i, COPYRIGHT) && BestYear(cs) == cs[i]
    ensures (forall i :: 0 <= i < |cs| ==> cs[i].origin != COPYRIGHT)
            && (exists i :: 0 <= i < |cs| && cs[i].origin == PDFINFO) ==>
              exists i :: FirstOfOrigin(cs, i, PDFINFO) && BestYear(cs) == cs[i]
    ensures (forall i :: 0 <= i < |cs| ==> cs[i].origin != COPYRIGHT && cs[i].origin != PDFINFO) ==>
              BestYear(cs) == cs[0]
  {
    SortHead(cs, YearRank, true);
    var c := FirstIndex(cs, (c: Candidate) => c.origin == COPYRIGHT);
    var p := FirstIndex(cs, (c: Candidate) => c.origin == PDFINFO);
    if c.Some? {
      assert IsFirstBest(cs, YearRank, true, c.value);
      FirstBestIsBestIndex(cs, YearRank, true, c.value);
      assert FirstOfOrigin(cs, c.value, COPYRIGHT);
    } else if p.Some? {
      assert IsFirstBest(cs, YearRank, true, p.value);
      FirstBestIsBestIndex(cs, YearRank, true, p.value);
      assert FirstOfOrigin(cs, p.value, PDFINFO);
    } else {
      assert IsFirstBest(cs, YearRank, true, 0);
      FirstBestIsBestIndex(cs, YearRank, true, 0);
    }
  }

  // ---------------------------------------------------------------- title

  /** A title `choose_title` accepts from origin `o`: a string that has letters. */
  predicate AcceptableTitle(c: Candidate, o: Origin)
  {
    c.origin == o && c.value.Text? && !HasNoLetters(c.value.s)
  }

  function FirstTitle(cs: seq<Candidate>, o: Origin): (r: Option<nat>)
    ensures r.Some? ==> r.value < |cs| && AcceptableTitle(cs[r.value], o)
                        && forall j :: 0 <= j < r.value ==> !AcceptableTitle(cs[j], o)
    ensures r.None? ==> forall j :: 0 <= j < |cs| ==> !AcceptableTitle(cs[j], o)
  {
    FirstIndex(cs, (c: Candidate) => AcceptableTitle(c, o))
  }

  /** `choose_title`: the first acceptable PDFINFO title, else FRONT_PAGE, else LLM. */
  function TitleChoice(cs: seq<Candidate>): (r: Option<Candidate>)
    ensures r.Some? ==> r.value.origin in {PDFINFO, FRONT_PAGE, LLM} && AcceptableTitle(r.value, r.value.origin)
    ensures r.Some? ==> exists i :: 0 <= i < |cs| && cs[i] == r.value
                                    && forall j :: 0 <= j < i ==> !AcceptableTitle(cs[j], r.value.origin)
    ensures r.Some? && r.value.origin != PDFINFO ==> forall j :: 0 <= j < |cs| ==> !AcceptableTitle(cs[j], PDFINFO)
    ensures r.Some? && r.value.origin == LLM ==> forall j :: 0 <= j < |cs| ==> !AcceptableTitle(cs[j], FRONT_PAGE)
    ensures r.None? <==> forall j :: 0 <= j < |cs| ==>
              !AcceptableTitle(cs[j], PDFINFO) && !AcceptableTitle(cs[j], FRONT_PAGE) && !AcceptableTitle(cs[j], LLM)
  {
    match FirstTitle(cs, PDFINFO)
    case Some(i) => Some(cs[i])
    case None =>
      match FirstTitle(cs, FRONT_PAGE)
      case Some(i) => Some(cs[i])
      case None =>
        match FirstTitle(cs, LLM)
        case Some(i) => Some(cs[i])
        case None => None
  }

  // ---------------------------------------------------------------- ISBN and ISSN

  function CandidateValue(c: Candidate): Value { c.value }

  function IsxnScore(pats: Patterns, c: Candidate): int { ScoreIsxnContext(pats, c.context) }

  /** The distinct values in the order first seen, each as its first candidate. */
  function DistinctValues(cs: seq<Candidate>): seq<Candidate>
  {
    FirstOccurrences(cs, CandidateValue)
  }

  /** The value table of `choose_isxn`: each distinct value scored by its first candidate. */
  function IsxnTable(cs: seq<Candidate>, pats: Patterns): Dict<Value, int>
  {
    var f := DistinctValues(cs);
    seq(|f|, i requires 0 <= i < |f| => (f[i].value, IsxnScore(pats, f[i])))
  }

  /** The sort key `-score`. */
  function NegScore(x: (Value, int)): real { -(x.1 as real) }

  /** The nested loop of `choose_isxn`: for each value in order, the first candidate holding it. */
  function IsxnPick(cs: seq<Candidate>, order: seq<(Value, int)>): Option<Candidate>
  {
    if |order| == 0 then None
    else match FirstIndex(cs, (c: Candidate) => c.value == order[0].0)
      case Some(i) => Some(cs[i])
      case None => IsxnPick(cs, order[1..])
  }

  function IsxnChoice(cs: seq<Candidate>, pats: Patterns): Option<Candidate>
  {
    IsxnPick(cs, Sort(IsxnTable(cs, pats), NegScore, false))
  }

  lemma IsxnTableKeys(cs: seq<Candidate>, pats: Patterns, v: Value)
    ensures v in Keys(IsxnTable(cs, pats)) <==> SeenBefore(cs, CandidateValue, |cs|, v)
  {
    var f := DistinctValues(cs);
    var t := IsxnTable(cs, pats);
    FirstOccurrencesKeys(cs, CandidateValue);
    SeenBeforeKeySet(cs, CandidateValue, v);
    if v in Keys(t) {
      var m :| 0 <= m < |t| && Keys(t)[m] == v;
      assert CandidateValue(f[m]) == v;
    }
    if v in KeySet(f, CandidateValue) {
      var m :| 0 <= m < |f| && CandidateValue(f[m]) == v;
      assert Keys(t)[m] == v;
    }
  }

  lemma IsxnTableSnoc(cs: seq<Candidate>, pats: Patterns, x: Candidate)
    ensures IsxnTable(cs + [x], pats)
         == IsxnTable(cs, pats) + (if SeenBefore(cs, CandidateValue, |cs|, x.value) then [] else [(x.value, IsxnScore(pats, x))])
  {
    FirstOccurrencesSnoc(cs, CandidateValue, x);
  }

  /** `choose_isxn` returns a candidate exactly when there is one.  The winner is the first
      candidate of its value; no distinct value scores higher, and every value seen before it
      scores strictly lower. */
  lemma IsxnWinner(cs: seq<Candidate>, pats: Patterns)
    ensures IsxnChoice(cs, pats).None? <==> |cs| == 0
    ensures |cs| > 0 ==>
              exists b :: 0 <= b < |DistinctValues(cs)| && IsxnChoice(cs, pats) == Some(DistinctValues(cs)[b])
                && (forall m :: 0 <= m < |DistinctValues(cs)| ==>
                      IsxnScore(pats, DistinctValues(cs)[m]) <= IsxnScore(pats, DistinctValues(cs)[b]))
                && (forall m :: 0 <= m < b ==>
                      IsxnScore(pats, DistinctValues(cs)[m]) < IsxnScore(pats, DistinctValues(cs)[b]))
  {
    var f := DistinctValues(cs);
    var t := IsxnTable(cs, pats);
    var sorted := Sort(t, NegScore, false);
    if |cs| > 0 {
      IsxnTableKeys(cs, pats, cs[0].value);
      assert SeenBefore(cs, CandidateValue, |cs|, cs[0].value);
      assert |t| > 0;
      SortHead(t, NegScore, false);
      BestIndexIsFirstBest(t, NegScore, false);
      var b := BestIndex(t, NegScore, false);
      assert sorted[0] == t[b];
      FirstOccurrencesOrder(cs, CandidateValue);
      var v := f[b].value;
      var k := FirstPos(cs, CandidateValue, v);
      assert f[b] == cs[k];
      var fi := FirstIndex(cs, (c: Candidate) => c.value == sorted[0].0);
      assert cs[k].value == sorted[0].0;
      assert fi.Some?;
      assert !SeenBefore(cs, CandidateValue, fi.value, v);
      FirstPosUnique(cs, CandidateValue, fi.value);
      assert IsxnChoice(cs, pats) == Some(f[b]);
      forall m | 0 <= m < |f| ensures IsxnScore(pats, f[m]) <= IsxnScore(pats, f[b]) {
        assert t[m].1 == IsxnScore(pats, f[m]);
        if m < b {
          assert Before(NegScore, false, t[b], t[m]);
        } else if m > b {
          assert !Before(NegScore, false, t[m], t[b]);
        }
      }
      forall m | 0 <= m < b ensures IsxnScore(pats, f[m]) < IsxnScore(pats, f[b]) {
        assert Before(NegScore, false, t[b], t[m]);
      }
    } else {
      assert |t| == 0;
    }
  }

  // ---------------------------------------------------------------- authors

  /** The pair `choose_authors` compares. */
  function NameKey(d: CandidateDict): (Option<string>, Option<string>)
  {
    (d.firstname, d.lastname)
  }

  predicate HasNameKeys(d: CandidateDict) { d.firstname.Some? && d.lastname.Some? }

  /** The `any(...)` of `choose_authors`, evaluated lazily: comparing with an entry that has no
      name keys raises KeyError. */
  function AnySameName(authors: seq<CandidateDict>, entry: CandidateDict): Result<bool>
  {
    if |authors| == 0 then Ok(false)
    else if !HasNameKeys(authors[0]) || !HasNameKeys(entry) then Err("KeyError")
    else if NameKey(authors[0]) == NameKey(entry) then Ok(true)
    else AnySameName(authors[1..], entry)
  }

  /** The loop of `choose_authors` over the first `|entries|` entries. */
  function AuthorsFold(entries: seq<CandidateDict>): Result<seq<CandidateDict>>
  {
    if |entries| == 0 then Ok([])
    else
      var last := entries[|entries| - 1];
      match AuthorsFold(entries[..|entries| - 1])
      case Err(e) => Err(e)
      case Ok(acc) =>
        match AnySameName(acc, last)
        case Err(e) => Err(e)
        case Ok(seen) => Ok(if seen then acc else acc + [last])
  }

  function AuthorEntries(cs: seq<Candidate>): seq<CandidateDict>
  {
    seq(|cs|, i requires 0 <= i < |cs| => ToDict(cs[i]))
  }

  /** `choose_authors`. */
  function AuthorsChoice(m: Fields): Result<seq<CandidateDict>>
  {
    if "author" in m then AuthorsFold(AuthorEntries(m["author"])) else Ok([])
  }

  lemma {:induction false} AnySameNameFound(authors: seq<CandidateDict>, entry: CandidateDict)
    requires HasNameKeys(entry) && forall i :: 0 <= i < |authors| ==> HasNameKeys(authors[i])
    ensures AnySameName(authors, entry) == Ok(NameKey(entry) in KeySet(authors, NameKey))
  {
    if |authors| > 0 {
      AnySameNameFound(authors[1..], entry);
      assert authors == [authors[0]] + authors[1..];
      KeySetCons(authors[0], authors[1..], NameKey);
    }
  }

  lemma KeySetCons<T, K>(x: T, s: seq<T>, key: T -> K)
    ensures KeySet([x] + s, key) == {key(x)} + KeySet(s, key)
  {
    var t := [x] + s;
    forall k | k in KeySet(t, key) ensures k in {key(x)} + KeySet(s, key) {
      var i :| 0 <= i < |t| && key(t[i]) == k;
      if i > 0 { assert t[i] == s[i - 1]; }
    }
    forall k | k in KeySet(s, key) ensures k in KeySet(t, key) {
      var i :| 0 <= i < |s| && key(s[i]) == k;
      assert t[i + 1] == s[i];
    }
    assert t[0] == x;
  }

  /** When every entry carries a name, `choose_authors` keeps the first entry of each
      (firstname, lastname) pair, in order. */
  lemma {:induction false} AuthorsFoldDedup(entries: seq<CandidateDict>)
    requires forall i :: 0 <= i < |entries| ==> HasNameKeys(entries[i])
    ensures AuthorsFold(entries) == Ok(FirstOccurrences(entries, NameKey))
  {
    if |entries| > 0 {
      var p := entries[..|entries| - 1];
      var last := entries[|entries| - 1];
      AuthorsFoldDedup(p);
      var acc := FirstOccurrences(p, NameKey);
      forall i | 0 <= i < |acc| ensures HasNameKeys(acc[i]) {
        assert acc[i] in p;
        var j :| 0 <= j < |p| && p[j] == acc[i];
        assert p[j] == entries[j];
      }
      AnySameNameFound(acc, last);
      FirstOccurrencesKeys(p, NameKey);
      SeenBeforeKeySet(p, NameKey, NameKey(last));
      SeenBeforePrefix(entries, NameKey, |entries| - 1, NameKey(last));
      assert |p| == |entries| - 1;
      var seen := SeenBefore(entries, NameKey, |entries| - 1, NameKey(last));
      assert AnySameName(acc, last) == Ok(seen);
      assert FirstOccurrences(entries, NameKey) == acc + (if seen then [] else [last]);
      assert AuthorsFold(p) == Ok(acc);
      assert AuthorsFold(entries) == Ok(if seen then acc else acc + [last]);
      assert acc + [] == acc;
    }
  }

  /** Candidates whose values are people produce entries with both name keys. */
  lemma PersonEntries(cs: seq<Candidate>)
    requires forall i :: 0 <= i < |cs| ==> cs[i].value.Person?
    ensures forall i :: 0 <= i < |AuthorEntries(cs)| ==> HasNameKeys(AuthorEntries(cs)[i])
  {
  }

  lemma {:induction false} AuthorsFoldHead(entries: seq<CandidateDict>)
    requires |entries| > 0 && AuthorsFold(entries).Ok?
    ensures |AuthorsFold(entries).value| > 0 && AuthorsFold(entries).value[0] == entries[0]
  {
    var p := entries[..|entries| - 1];
    if |p| > 0 {
      AuthorsFoldHead(p);
      assert p[0] == entries[0];
    }
  }

  /** KeyError is raised exactly when there are at least two author candidates and one of them
      is not a person: the first entry is appended without any comparison. */
  lemma {:induction false} AuthorsFoldError(entries: seq<CandidateDict>)
    ensures AuthorsFold(entries).Err? <==> |entries| >= 2 && exists i :: 0 <= i < |entries| && !HasNameKeys(entries[i])
  {
    if |entries| > 0 {
      var p := entries[..|entries| - 1];
      var last := entries[|entries| - 1];
      AuthorsFoldError(p);
      assert forall i :: 0 <= i < |p| ==> p[i] == entries[i];
      if AuthorsFold(p).Ok? && |p| > 0 {
        AuthorsFoldHead(p);
        var acc := AuthorsFold(p).value;
        if !HasNameKeys(last) || !HasNameKeys(entries[0]) {
          assert AnySameName(acc, last).Err?;
        } else {
          forall i | 0 <= i < |entries| ensures HasNameKeys(entries[i]) {
            if 0 < i < |p| {
              assert p[i] == entries[i];
            }
          }
          AuthorsFoldDedup(entries);
        }
      }
      if |p| == 0 {
        assert !(|entries| >= 2);
      }
    }
  }

  lemma {:induction false} AuthorsFoldPrefixErr(entries: seq<CandidateDict>, n: nat)
    requires n <= |entries| && AuthorsFold(entries[..n]).Err?
    ensures AuthorsFold(entries) == AuthorsFold(entries[..n])
  {
    if n < |entries| {
      var p := entries[..|entries| - 1];
      assert p[..n] == entries[..n];
      AuthorsFoldPrefixErr(p, n);
    } else {
      assert entries[..n] == entries;
    }
  }

  // ---------------------------------------------------------------- choose_best

  /** `rank_years`, `choose_language`, `choose_doc_type`, `choose_publishers`, `choose_title`
      and `choose_isxn` on the stored candidates. */
  function RankYears(m: Fields): Option<CandidateDict>
    requires NonEmptyLists(m)
  {
    if "year" in m then Some(ToDict(BestYear(m["year"]))) else None
  }

  function FirstOfField(m: Fields, field: string): Option<CandidateDict>
    requires NonEmptyLists(m)
  {
    if field in m then Some(ToDict(m[field][0])) else None
  }

  function ChoosePublishers(m: Fields): Option<CandidateDict>
    requires NonEmptyLists(m)
  {
    if "publisher" in m then Some(ToDict(PublisherChoice(m["publisher"]))) else None
  }

  function ChooseTitle(m: Fields): Option<CandidateDict>
  {
    if "title" in m then ToDictOpt(TitleChoice(m["title"])) else None
  }

  function IsxnResult(m: Fields, id: Identifier, pats: Patterns): Option<CandidateDict>
  {
    var name := IdentifierName(id);
    if name in m then ToDictOpt(IsxnChoice(m[name], pats)) else None
  }

  /** The results after `choose_best`: the fields before `authors` are written first, so a
      KeyError from `choose_authors` leaves `authors`, `isbn` and `issn` as they were. */
  function BestResults(m: Fields, pats: Patterns, prev: Results): Results
    requires NonEmptyLists(m)
  {
    var partial := prev.(
      year := RankYears(m),
      language := FirstOfField(m, "language"),
      title := ChooseTitle(m),
      publisher := ChoosePublishers(m),
      publicationType := FirstOfField(m, "document_type"));
    match AuthorsChoice(m)
    case Err(_) => partial
    case Ok(a) => partial.(authors := a, isbn := IsxnResult(m, ISBN, pats), issn := IsxnResult(m, ISSN, pats))
  }

  // ---------------------------------------------------------------- the Metadata object

  /** The first loop of `choose_isxn`: each value not yet in the table is scored by its
      candidate's context. */
  method BuildIsxnTable(cs: seq<Candidate>, pats: Patterns) returns (values: Dict<Value, int>)
    ensures values == IsxnTable(cs, pats)
  {
    values := [];
    var i := 0;
    while i < |cs|
      invariant 0 <= i <= |cs|
      invariant values == IsxnTable(cs[..i], pats)
    {
      values := IsxnTableStep(cs, i, pats, values);
      i := i + 1;
    }
    assert cs[..|cs|] == cs;
  }

  /** One turn of that loop, for the candidate at `i`. */
  method IsxnTableStep(cs: seq<Candidate>, i: nat, pats: Patterns, values: Dict<Value, int>)
    returns (values': Dict<Value, int>)
    requires i < |cs| && values == IsxnTable(cs[..i], pats)
    ensures values' == IsxnTable(cs[..i + 1], pats)
  {
    assert cs[..i + 1] == cs[..i] + [cs[i]];
    IsxnTableSnoc(cs[..i], pats, cs[i]);
    IsxnTableKeys(cs[..i], pats, cs[i].value);
    values' := values;
    if Get(values, cs[i].value).None? {
      PutNew(values, cs[i].value, IsxnScore(pats, cs[i]));
      values' := Put(values, cs[i].value, ScoreIsxnContext(pats, cs[i].context));
    }
  }

  /** The nested loop of `choose_isxn`: the values in order, each searched for among the
      candidates. */
  method PickIsxn(cs: seq<Candidate>, sorted: seq<(Value, int)>) returns (r: Option<Candidate>)
    ensures r == IsxnPick(cs, sorted)
  {
    var j := 0;
    while j < |sorted|
      invariant 0 <= j <= |sorted|
      invariant IsxnPick(cs, sorted) == IsxnPick(cs, sorted[j..])
    {
      var k := FindValue(cs, sorted[j].0);
      assert sorted[j..][0] == sorted[j] && sorted[j..][1..] == sorted[j + 1..];
      if k.Some? {
        return Some(cs[k.value]);
      }
      j := j + 1;
    }
    return None;
  }

  /** The inner loop: the first candidate holding value `v`. */
  method FindValue(cs: seq<Candidate>, v: Value) returns (r: Option<nat>)
    ensures r == FirstIndex(cs, (c: Candidate) => c.value == v)
  {
    var k := 0;
    while k < |cs|
      invariant 0 <= k <= |cs|
      invariant forall l :: 0 <= l < k ==> cs[l].value != v
    {
      if cs[k].value == v {
        return Some(k);
      }
      k := k + 1;
    }
    return None;
  }

  /** The store after `add_candidate(field, c)`: `c` goes last in the field's list, which is
      created when absent; no other field changes. */
  function Added(m: Fields, field: string, c: Candidate): (r: Fields)
    ensures field in r && r[field] == (if field in m then m[field] else []) + [c]
    ensures forall f :: f != field ==> (f in r <==> f in m) && (f in m ==> r[f] == m[f])
    ensures NonEmptyLists(m) ==> NonEmptyLists(r)
  {
    m[field := (if field in m then m[field] else []) + [c]]
  }

  /** Some publisher candidate was read on the info page (`has_publisher_from_infopage`). */
  predicate HasInfoPagePublisher(m: Fields)
  {
    "publisher" in m && exists i :: 0 <= i < |m["publisher"]| && m["publisher"][i].origin == INFO_PAGE
  }

  class Metadata {
    var candidates: Fields
    var results: Results

    ghost predicate Valid()
      reads this
    {
      NonEmptyLists(candidates)
    }

    constructor ()
      ensures candidates == map[] && results == NewResults()
      ensures Valid()
    {
      candidates := map[];
      results := NewResults();
    }

    /** `add_candidate`: appended to the field's list, which is created when absent. */
    method AddCandidate(field: string, c: Candidate)
      requires Valid()
      modifies this
      ensures Valid()
      ensures candidates == Added(old(candidates), field, c)
      ensures results == old(results)
    {
      if field !in candidates {
        candidates := candidates[field := []];
      }
      candidates := candidates[field := candidates[field] + [c]];
    }

    /** `has_publisher_from_infopage`. */
    method HasPublisherFromInfopage() returns (r: bool)
      ensures r <==> HasInfoPagePublisher(candidates)
    {
      if "publisher" !in candidates {
        return false;
      }
      var cs := candidates["publisher"];
      var i := 0;
      while i < |cs|
        invariant 0 <= i <= |cs|
        invariant forall j :: 0 <= j < i ==> cs[j].origin != INFO_PAGE
      {
        if cs[i].origin == INFO_PAGE {
          return true;
        }
        i := i + 1;
      }
      return false;
    }

    /** `choose_isxn`: the value table is built in one pass, sorted by descending score, and the
        first candidate of the first value is returned. */
    method ChooseIsxn(id: Identifier, pats: Patterns) returns (r: Option<CandidateDict>)
      ensures r == IsxnResult(candidates, id, pats)
    {
      var name := IdentifierName(id);
      if name !in candidates {
        return None;
      }
      var cs := candidates[name];
      var values := BuildIsxnTable(cs, pats);
      var sorted := Sort(values, NegScore, false);
      var c := PickIsxn(cs, sorted);
      r := if c.Some? then Some(ToDict(c.value)) else None;
    }

    /** `choose_authors`: each entry is compared with the kept ones and appended when no kept
        entry has its (firstname, lastname). */
    method ChooseAuthors() returns (r: Result<seq<CandidateDict>>)
      ensures r == AuthorsChoice(candidates)
    {
      if "author" !in candidates {
        return Ok([]);
      }
      var entries := AuthorEntries(candidates["author"]);
      var authors: seq<CandidateDict> := [];
      var i := 0;
      while i < |entries|
        invariant 0 <= i <= |entries|
        invariant AuthorsFold(entries[..i]) == Ok(authors)
      {
        var entry := entries[i];
        assert entries[..i + 1][..i] == entries[..i];
        var found := false;
        var j := 0;
        while j < |authors| && !found
          invariant 0 <= j <= |authors|
          invariant AnySameName(authors, entry) == if found then Ok(true) else AnySameName(authors[j..], entry)
        {
          var a := authors[j];
          if !HasNameKeys(a) || !HasNameKeys(entry) {
            assert authors[j..][0] == a;
            assert entries[..i + 1][i] == entry;
            assert AuthorsFold(entries[..i + 1]) == Err("KeyError");
            AuthorsFoldPrefixErr(entries, i + 1);
            assert entries == AuthorEntries(candidates["author"]);
            return Err("KeyError");
          }
          assert authors[j..][1..] == authors[j + 1..];
          found := NameKey(a) == NameKey(entry);
          j := j + 1;
        }
        if !found {
          authors := authors + [entry];
        }
        i := i + 1;
      }
      assert entries[..|entries|] == entries;
      return Ok(authors);
    }

    /** `choose_best`: only `results` changes, and it is a function of the candidates alone
        whenever `choose_authors` succeeds, so a second call writes the same results. */
    method ChooseBest(pats: Patterns) returns (o: Outcome)
      requires Valid()
      modifies this
      ensures candidates == old(candidates)
      ensures results == BestResults(candidates, pats, old(results))
      ensures o.Pass? <==> AuthorsChoice(candidates).Ok?
    {
      results := results.(
        year := RankYears(candidates),
        language := FirstOfField(candidates, "language"),
        title := ChooseTitle(candidates),
        publisher := ChoosePublishers(candidates),
        publicationType := FirstOfField(candidates, "document_type"));
      var authors := ChooseAuthors();
      if authors.Err? {
        return Fail(authors.error);
      }
      var isbn := ChooseIsxn(ISBN, pats);
      var issn := ChooseIsxn(ISSN, pats);
      results := results.(authors := authors.value, isbn := isbn, issn := issn);
      return Pass;
    }
  }

  /** Once `choose_authors` succeeds the results do not depend on the previous ones: running
      `choose_best` again gives the same record. */
  lemma ChooseBestTwice(m: Fields, pats: Patterns, prev: Results)
    requires NonEmptyLists(m) && AuthorsChoice(m).Ok?
    ensures BestResults(m, pats, BestResults(m, pats, prev)) == BestResults(m, pats, prev)
    ensures BestResults(m, pats, prev) == BestResults(m, pats, NewResults())
  {
  }
}
