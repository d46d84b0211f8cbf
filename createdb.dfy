// registry/createdb.py: turning MARC authority records of organisations into entries of the
// publisher registry — the expiry test on the date notes, names formatted from fields 110 and
// 410 by their first indicator, and the variant names without repeats in first-seen order. The
// parsed XML is given as `Record` values.

module CreateDb {
  import opened Common
  import opened Strings
  import opened Lists
  import opened Unique

  datatype Subfield = Subfield(code: string, text: string)
  datatype DataField = DataField(tag: string, ind1: string, subfields: seq<Subfield>)
  datatype Record = Record(controlFields: seq<(string, string)>, dataFields: seq<DataField>)

  /** The dict `process_record` returns. */
  datatype Entry = Entry(id: string, name: string, variants: seq<string>, category: char, outdated: int)

  // ---------------------------------------------------------------- finding fields

  /** `record.find('marc:datafield', {'tag': tag})`. */
  function FirstField(fields: seq<DataField>, tag: string): (r: Option<DataField>)
    ensures r.Some? ==> r.value in fields && r.value.tag == tag
    ensures r.None? ==> forall i :: 0 <= i < |fields| ==> fields[i].tag != tag
  {
    if |fields| == 0 then None else if fields[0].tag == tag then Some(fields[0]) else FirstField(fields[1..], tag)
  }

  /** `record.find_all('marc:datafield', {'tag': tag})`. */
  function FieldsWith(fields: seq<DataField>, tag: string): seq<DataField>
  {
    if |fields| == 0 then []
    else FieldsWith(fields[..|fields| - 1], tag) + (if fields[|fields| - 1].tag == tag then [fields[|fields| - 1]] else [])
  }

  /** The texts of `field.find_all('marc:subfield', {'code': code})`, in order. */
  function Texts(subs: seq<Subfield>, code: string): (r: seq<string>)
    ensures |r| <= |subs|
  {
    if |subs| == 0 then []
    else Texts(subs[..|subs| - 1], code) + (if subs[|subs| - 1].code == code then [subs[|subs| - 1].text] else [])
  }

  /** The text of the first control field with the tag. */
  function ControlText(cfs: seq<(string, string)>, tag: string): (r: Option<string>)
    ensures r.Some? ==> (tag, r.value) in cfs
  {
    if |cfs| == 0 then None else if cfs[0].0 == tag then Some(cfs[0].1) else ControlText(cfs[1..], tag)
  }

  // ---------------------------------------------------------------- text_outdated

  /** `re.sub(r'\d', 'Y', text)`. */
  function MaskDigits(s: string): string
  {
    seq(|s|, i requires 0 <= i < |s| => if IsDigit(s[i]) then 'Y' else s[i])
  }

  /** The expiry markers, in the order they are tried. */
  const MARKERS: seq<string> := ["til", "t.o.m", "perioden", "YYYY-YYYY"]

  /** The verdict of the first marker in `markers` that occurs: outdated unless 'fra' is found
      from the marker's position on with a positive index. */
  function OutdatedBy(pattern: string, markers: seq<string>): bool
  {
    if |markers| == 0 then false
    else
      var pos := Find(pattern, markers[0]);
      if pos == -1 then OutdatedBy(pattern, markers[1..]) else !(FindFrom(pattern, "fra", pos) > 0)
  }

  function Outdated(dateField: string): bool { OutdatedBy(MaskDigits(dateField), MARKERS) }

  /** `text_outdated(date_field)`. */
  method TextOutdated(dateField: string) returns (r: bool)
    ensures r == Outdated(dateField)
  {
    var pattern := MaskDigits(dateField);
    var k := 0;
    while k < |MARKERS|
      invariant 0 <= k <= |MARKERS|
      invariant OutdatedBy(pattern, MARKERS[k..]) == Outdated(dateField)
    {
      assert MARKERS[k..][0] == MARKERS[k] && MARKERS[k..][1..] == MARKERS[k + 1..];
      var pos := Find(pattern, MARKERS[k]);
      if pos == -1 {
        k := k + 1;
        continue;
      }
      var posFra := FindFrom(pattern, "fra", pos);
      if posFra > 0 {
        return false;
      }
      return true;
    }
    return false;
  }

  /** 'fra' occurs at or after position `pos`. */
  predicate FraFrom(pattern: string, pos: int) { exists j :: pos <= j <= |pattern| && OccursAt(pattern, "fra", j) }

  /** The test `pos_fra > 0` is "'fra' occurs from `pos` on": 'fra' could only be found at 0 if a
      marker not starting with 'f' also started there. */
  lemma FraTest(pattern: string, m: string, pos: nat)
    requires |m| > 0 && m[0] != 'f' && OccursAt(pattern, m, pos)
    ensures FindFrom(pattern, "fra", pos) > 0 <==> FraFrom(pattern, pos)
  {
    var f := FindFrom(pattern, "fra", pos);
    assert pattern[pos] == m[0] by { assert pattern[pos..pos + |m|][0] == pattern[pos]; }
    if f != -1 {
      assert pattern[f] == 'f' by { assert pattern[f..f + 3][0] == pattern[f]; }
    }
  }

  /** The first marker that occurs decides. */
  predicate FirstMarker(pattern: string, markers: seq<string>, k: int)
  {
    0 <= k < |markers| && Find(pattern, markers[k]) != -1 && forall j :: 0 <= j < k ==> Find(pattern, markers[j]) == -1
  }

  lemma {:induction false} OutdatedByMeaning(pattern: string, markers: seq<string>)
    requires forall k :: 0 <= k < |markers| ==> |markers[k]| > 0 && markers[k][0] != 'f'
    ensures OutdatedBy(pattern, markers)
            <==> exists k :: FirstMarker(pattern, markers, k) && !FraFrom(pattern, Find(pattern, markers[k]))
  {
    if |markers| > 0 {
      var pos := Find(pattern, markers[0]);
      if pos == -1 {
        var rest := markers[1..];
        OutdatedByMeaning(pattern, rest);
        assert forall k :: 0 <= k < |rest| ==> rest[k] == markers[k + 1];
        if OutdatedBy(pattern, markers) {
          var k :| FirstMarker(pattern, rest, k) && !FraFrom(pattern, Find(pattern, rest[k]));
          assert FirstMarker(pattern, markers, k + 1);
        }
        forall k | FirstMarker(pattern, markers, k) ensures k > 0 && FirstMarker(pattern, rest, k - 1) { }
      } else {
        FraTest(pattern, markers[0], pos);
        assert FirstMarker(pattern, markers, 0);
        forall k | FirstMarker(pattern, markers, k) ensures k == 0 { }
      }
    }
  }

  /** `text_outdated` is true exactly when some marker occurs in the digit-masked text, no
      earlier marker does, and 'fra' does not occur from that marker on; without any marker it
      is false. */
  lemma OutdatedMeaning(dateField: string)
    ensures var p := MaskDigits(dateField);
            Outdated(dateField) <==> exists k :: FirstMarker(p, MARKERS, k) && !FraFrom(p, Find(p, MARKERS[k]))
  {
    OutdatedByMeaning(MaskDigits(dateField), MARKERS);
  }

  // ---------------------------------------------------------------- record_is_outdated

  /** The first field with the tag exists and its first `$a` is outdated. */
  predicate NoteOutdated(record: Record, tag: string)
  {
    var f := FirstField(record.dataFields, tag);
    f.Some? && |Texts(f.value.subfields, "a")| > 0 && Outdated(Texts(f.value.subfields, "a")[0])
  }

  /** `record_is_outdated(record)`: 1 when the note of field 678 or else 680 is outdated. */
  function RecordIsOutdated(record: Record): (r: int)
    ensures r == 0 || r == 1
    ensures r == 1 <==> NoteOutdated(record, "678") || NoteOutdated(record, "680")
  {
    if NoteOutdated(record, "678") then 1 else if NoteOutdated(record, "680") then 1 else 0
  }

  // ---------------------------------------------------------------- formatName

  /** `formatName(nametag, ...)`: `int(ind1)` raises on text that is not a number. */
  function FormatName(field: DataField): (r: Result<Option<string>>)
    ensures r.Err? <==> ParseInt(field.ind1).None?
    ensures r.Ok? && r.value.Some? ==> |Texts(field.subfields, "a")| == 1
  {
    match ParseInt(field.ind1)
    case None => Err("ValueError")
    case Some(ind1) =>
      if ind1 == 0 then Ok(None)
      else
        var subA := Texts(field.subfields, "a");
        if |subA| != 1 then Ok(None)
        else
          var subB := Texts(field.subfields, "b");
          var nameB := if |subB| > 0 then Some(Join(". ", subB)) else None;
          if ind1 == 1 then Ok(nameB)
          else if ind1 == 2 then Ok(Some(if nameB.Some? && nameB.value != "" then subA[0] + ". " + nameB.value else subA[0]))
          else Ok(None)
  }

  /** No name comes out for indicator 0, for other than exactly one `$a`, for indicator 1
      without a `$b`, and for indicators other than 1 and 2. */
  lemma FormatNameNone(field: DataField)
    requires ParseInt(field.ind1).Some?
    ensures var ind1 := ParseInt(field.ind1).value;
            FormatName(field) == Ok(None)
            <==> (|| ind1 == 0 || |Texts(field.subfields, "a")| != 1 || (ind1 == 1 && |Texts(field.subfields, "b")| == 0)
                  || (ind1 != 1 && ind1 != 2))
  {
  }

  /** Indicator 1 names the `$b` parts joined by ". "; indicator 2 puts the `$a` before them,
      or gives the `$a` alone when they join to nothing. */
  lemma FormatNameShapes(field: DataField)
    requires ParseInt(field.ind1).Some? && |Texts(field.subfields, "a")| == 1
    ensures var ind1 := ParseInt(field.ind1).value;
            var a := Texts(field.subfields, "a")[0];
            var bs := Texts(field.subfields, "b");
            && (ind1 == 1 && |bs| > 0 ==> FormatName(field) == Ok(Some(Join(". ", bs))))
            && (ind1 == 2 && Join(". ", bs) != "" ==> FormatName(field) == Ok(Some(a + ". " + Join(". ", bs))))
            && (ind1 == 2 && Join(". ", bs) == "" ==> FormatName(field) == Ok(Some(a)))
  {
    var bs := Texts(field.subfields, "b");
    if |bs| == 0 {
      assert Join(". ", bs) == "";
    }
  }

  // ---------------------------------------------------------------- raising loops

  /** The values of `f` on the items in order, or the first error: a loop over the items that
      stops when the processing of one raises. */
  function Results<T, U>(s: seq<T>, f: T -> Result<U>): (r: Result<seq<U>>)
    ensures r.Ok? ==> |r.value| == |s|
  {
    if |s| == 0 then Ok([])
    else
      var front := Results(s[..|s| - 1], f);
      var last := f(s[|s| - 1]);
      if front.Err? then front else if last.Err? then Err(last.error) else Ok(front.value + [last.value])
  }

  /** One more item: the step of the loop. */
  lemma ResultsStep<T, U>(s: seq<T>, f: T -> Result<U>, i: nat)
    requires i < |s|
    ensures Results(s[..i + 1], f)
            == if Results(s[..i], f).Err? then Results(s[..i], f)
               else if f(s[i]).Err? then Err(f(s[i]).error)
               else Ok(Results(s[..i], f).value + [f(s[i]).value])
  {
    assert s[..i + 1][..i] == s[..i];
  }

  /** Once an item has raised, the later items change nothing. */
  lemma {:induction false} ResultsSticks<T, U>(s: seq<T>, f: T -> Result<U>, i: nat)
    requires i <= |s| && Results(s[..i], f).Err?
    ensures Results(s, f) == Results(s[..i], f)
    decreases |s| - i
  {
    if i < |s| {
      var n := |s| - 1;
      assert s[..n][..i] == s[..i];
      ResultsSticks(s[..n], f, i);
      assert s[..|s|] == s;
    } else {
      assert s[..i] == s;
    }
  }

  /** A run succeeds exactly when no item raises, and then holds the value of every item; a run
      that fails carries the error of the first item that raises. */
  lemma {:induction false} ResultsMeaning<T, U>(s: seq<T>, f: T -> Result<U>)
    ensures Results(s, f).Ok? <==> forall i :: 0 <= i < |s| ==> f(s[i]).Ok?
    ensures Results(s, f).Ok? ==> forall i :: 0 <= i < |s| ==> f(s[i]) == Ok(Results(s, f).value[i])
    ensures Results(s, f).Err? ==>
              exists k :: 0 <= k < |s| && f(s[k]).Err? && Results(s, f) == Err(f(s[k]).error)
                          && forall j :: 0 <= j < k ==> f(s[j]).Ok?
  {
    if |s| > 0 {
      var n := |s| - 1;
      var p := s[..n];
      ResultsMeaning(p, f);
      assert forall i :: 0 <= i < n ==> p[i] == s[i];
      if Results(p, f).Err? {
        var k :| 0 <= k < |p| && f(p[k]).Err? && Results(p, f) == Err(f(p[k]).error)
                 && forall j :: 0 <= j < k ==> f(p[j]).Ok?;
        assert f(s[k]).Err? && forall j :: 0 <= j < k ==> f(s[j]).Ok?;
      } else if f(s[n]).Err? {
        assert forall j :: 0 <= j < n ==> f(s[j]).Ok?;
      } else {
        var r := Results(s, f).value;
        assert r == Results(p, f).value + [f(s[n]).value];
        assert forall i :: 0 <= i < n ==> r[i] == Results(p, f).value[i];
      }
    }
  }

  // ---------------------------------------------------------------- variants

  /** A formatted name, "" standing for `None` (both are skipped as falsy). */
  function NameText(o: Option<string>): string { if o.Some? then o.value else "" }

  function FormatText(field: DataField): Result<string>
  {
    match FormatName(field)
    case Err(e) => Err(e)
    case Ok(n) => Ok(NameText(n))
  }

  function Id(s: string): string { s }

  /** A name worth listing as a variant of `name`. */
  function Wanted(name: string): string -> bool { (x: string) => x != "" && x != name }

  /** The variants among formatted names: the wanted ones, each at its first occurrence. */
  function VariantsOf(names: seq<string>, name: string): seq<string>
  {
    FirstOccurrences(Filter(names, Wanted(name)), Id)
  }

  /** The variant list of the 410 fields, or the error formatting one of them raises. */
  function Variants(fields: seq<DataField>, name: string): Result<seq<string>>
  {
    match Results(fields, FormatText)
    case Err(e) => Err(e)
    case Ok(names) => Ok(VariantsOf(names, name))
  }

  /** `x in variants` for a list of first occurrences. */
  lemma InFirstOccurrences(s: seq<string>, x: string)
    ensures x in FirstOccurrences(s, Id) <==> SeenBefore(s, Id, |s|, x)
  {
    FirstOccurrencesKeys(s, Id);
    SeenBeforeKeySet(s, Id, x);
    var r := FirstOccurrences(s, Id);
    if x in r {
      var i :| 0 <= i < |r| && r[i] == x;
      assert Id(r[i]) in KeySet(r, Id);
    }
    if x in KeySet(r, Id) {
      var i :| 0 <= i < |r| && Id(r[i]) == x;
      assert r[i] in r;
    }
  }

  /** One more formatted name is appended exactly when it is not falsy, not the main name and
      not listed yet. */
  lemma VariantStep(names: seq<string>, name: string, x: string)
    ensures VariantsOf(names + [x], name)
            == if x == "" || x == name || x in VariantsOf(names, name) then VariantsOf(names, name)
               else VariantsOf(names, name) + [x]
  {
    var kept := Filter(names, Wanted(name));
    FilterSnoc(names, Wanted(name), x);
    assert Wanted(name)(x) == (x != "" && x != name);
    if x != "" && x != name {
      InFirstOccurrences(kept, x);
      FirstOccurrencesSnoc(kept, Id, x);
      assert Id(x) == x;
    } else {
      assert Filter(names + [x], Wanted(name)) == kept;
    }
  }

  /** The 410 loop's next turn, on the list built from the fields before `i`: a falsy name, the
      main name or a name already listed is skipped, any other is appended. */
  lemma VariantsNext(fields: seq<DataField>, name: string, i: nat)
    requires i < |fields| && Variants(fields[..i], name).Ok? && FormatText(fields[i]).Ok?
    ensures var vs, x := Variants(fields[..i], name).value, FormatText(fields[i]).value;
            Variants(fields[..i + 1], name)
            == Ok(if x == "" || x == name || x in vs then vs else vs + [x])
  {
    ResultsStep(fields, FormatText, i);
    VariantStep(Results(fields[..i], FormatText).value, name, FormatText(fields[i]).value);
  }

  /** A field that fails to format makes the whole list fail with its error. */
  lemma VariantsErr(fields: seq<DataField>, name: string, i: nat)
    requires i < |fields| && Variants(fields[..i], name).Ok? && FormatText(fields[i]).Err?
    ensures Variants(fields, name) == Err(FormatText(fields[i]).error)
  {
    ResultsStep(fields, FormatText, i);
    ResultsSticks(fields, FormatText, i + 1);
  }

  /** The loop of `process_record` over the 410 fields: falsy names, the main name and names
      already listed are skipped, the rest appended; an error in a field is raised. */
  method CollectVariants(fields: seq<DataField>, name: string) returns (r: Result<seq<string>>)
    ensures r == Variants(fields, name)
  {
    var variants: seq<string> := [];
    var i := 0;
    assert fields[..0] == [];
    while i < |fields|
      invariant 0 <= i <= |fields|
      invariant Variants(fields[..i], name) == Ok(variants)
    {
      var formatted := FormatName(fields[i]);
      if formatted.Err? {
        VariantsErr(fields, name, i);
        return Err(formatted.error);
      }
      var x := NameText(formatted.value);
      VariantsNext(fields, name, i);
      i := i + 1;
      if x == "" {
        continue;
      }
      if x == name || x in variants {
        continue;
      }
      variants := variants + [x];
    }
    assert fields[..|fields|] == fields;
    return Ok(variants);
  }

  /** The variants are the formatted names that are neither falsy nor the main name. */
  lemma VariantsMembers(names: seq<string>, name: string, x: string)
    ensures x in VariantsOf(names, name) <==> x in names && x != "" && x != name
  {
    var kept := Filter(names, Wanted(name));
    InFirstOccurrences(kept, x);
    SeenBeforeKeySet(kept, Id, x);
    FilterMembers(names, Wanted(name));
    if x in kept {
      var i :| 0 <= i < |kept| && kept[i] == x;
      assert Id(kept[i]) in KeySet(kept, Id);
    }
    if x in KeySet(kept, Id) {
      var i :| 0 <= i < |kept| && Id(kept[i]) == x;
      assert kept[i] in kept;
    }
  }

  /** No variant is listed twice. */
  lemma VariantsDistinct(names: seq<string>, name: string)
    ensures var vs := VariantsOf(names, name);
            forall i, j :: 0 <= i < j < |vs| ==> vs[i] != vs[j]
  {
    FirstOccurrencesDistinct(Filter(names, Wanted(name)), Id);
  }

  /** The variants of the first `n` names begin the variants of all of them: a name is listed
      when it is first seen, and the list only grows at its end. */
  lemma {:induction false} VariantsPrefix(names: seq<string>, name: string, n: nat)
    requires n <= |names|
    ensures VariantsOf(names[..n], name) <= VariantsOf(names, name)
    decreases |names| - n
  {
    if n < |names| {
      var m := |names| - 1;
      assert names[..m][..n] == names[..n];
      VariantsPrefix(names[..m], name, n);
      VariantStep(names[..m], name, names[m]);
      assert names[..m] + [names[m]] == names;
    } else {
      assert names[..n] == names;
    }
  }

  // ---------------------------------------------------------------- process_record

  /** The `$a` of the first 901 field: `category.find(...).next` raises when either is missing. */
  function CategoryCode(record: Record): Result<string>
  {
    match FirstField(record.dataFields, "901")
    case None => Err("AttributeError")
    case Some(cat) =>
      var a := Texts(cat.subfields, "a");
      if |a| == 0 then Err("AttributeError") else Ok(a[0])
  }

  /** `process_record(marcrecord, ...)`, the variant loop as its specification `Variants`. */
  function ProcessedRecord(record: Record): Result<Option<Entry>>
  {
    match ControlText(record.controlFields, "001")
    case None => Err("AttributeError")
    case Some(id) =>
      match CategoryCode(record)
      case Err(e) => Err(e)
      case Ok(kat) =>
        if kat != "kat2" && kat != "kat3" then Ok(None)
        else
          match FirstField(record.dataFields, "110")
          case None => Err("TypeError")
          case Some(nametag) =>
            match FormatName(nametag)
            case Err(e) => Err(e)
            case Ok(name) =>
              if NameText(name) == "" then Ok(None)
              else
                match Variants(FieldsWith(record.dataFields, "410"), name.value)
                case Err(e) => Err(e)
                case Ok(vs) => Ok(Some(Entry(id, name.value, vs, kat[|kat| - 1], RecordIsOutdated(record))))
  }

  /** `process_record`. */
  method ProcessRecord(record: Record) returns (r: Result<Option<Entry>>)
    ensures r == ProcessedRecord(record)
  {
    var id := ControlText(record.controlFields, "001");
    if id.None? {
      return Err("AttributeError");
    }
    var kat := CategoryCode(record);
    if kat.Err? {
      return Err(kat.error);
    }
    if kat.value != "kat2" && kat.value != "kat3" {
      return Ok(None);
    }
    var nametag := FirstField(record.dataFields, "110");
    if nametag.None? {
      return Err("TypeError");
    }
    var name := FormatName(nametag.value);
    if name.Err? {
      return Err(name.error);
    }
    if NameText(name.value) == "" {
      return Ok(None);
    }
    var variants := CollectVariants(FieldsWith(record.dataFields, "410"), name.value.value);
    if variants.Err? {
      return Err(variants.error);
    }
    var outdated := RecordIsOutdated(record);
    return Ok(Some(Entry(id.value, name.value.value, variants.value, kat.value[|kat.value| - 1], outdated)));
  }

  /** An entry comes only from a 'kat2' or 'kat3' record whose field 110 formats to a non-empty
      name; its category is the code's last character, '2' or '3'. */
  lemma EntryShape(record: Record)
    requires ProcessedRecord(record).Ok? && ProcessedRecord(record).value.Some?
    ensures var e := ProcessedRecord(record).value.value;
            && CategoryCode(record) in {Ok("kat2"), Ok("kat3")}
            && FirstField(record.dataFields, "110").Some?
            && FormatName(FirstField(record.dataFields, "110").value) == Ok(Some(e.name)) && e.name != ""
            && e.category in {'2', '3'}
            && Variants(FieldsWith(record.dataFields, "410"), e.name) == Ok(e.variants)
            && e.name !in e.variants
            && ControlText(record.controlFields, "001") == Some(e.id)
  {
    var e := ProcessedRecord(record).value.value;
    var id := ControlText(record.controlFields, "001").value;
    var kat := CategoryCode(record).value;
    assert kat == "kat2" || kat == "kat3";
    var nametag := FirstField(record.dataFields, "110").value;
    var name := FormatName(nametag).value;
    assert NameText(name) != "";
    var vs := Variants(FieldsWith(record.dataFields, "410"), name.value).value;
    assert e == Entry(id, name.value, vs, kat[|kat| - 1], RecordIsOutdated(record));
    var names := Results(FieldsWith(record.dataFields, "410"), FormatText).value;
    VariantsMembers(names, e.name, e.name);
  }

  /** A record of another category gives no entry, whatever its names. */
  lemma OtherCategory(record: Record)
    requires ControlText(record.controlFields, "001").Some?
    requires CategoryCode(record).Ok? && CategoryCode(record).value !in {"kat2", "kat3"}
    ensures ProcessedRecord(record) == Ok(None)
  {
  }

  // ---------------------------------------------------------------- process_file

  /** The items present, in order. */
  function Present<T>(s: seq<Option<T>>): (r: seq<T>)
    ensures |r| <= |s|
  {
    if |s| == 0 then [] else Present(s[..|s| - 1]) + (if s[|s| - 1].Some? then [s[|s| - 1].value] else [])
  }

  /** An item is kept exactly when it is present somewhere. */
  lemma {:induction false} PresentMembers<T>(s: seq<Option<T>>, x: T)
    ensures x in Present(s) <==> Some(x) in s
  {
    if |s| > 0 {
      PresentMembers(s[..|s| - 1], x);
      assert s == s[..|s| - 1] + [s[|s| - 1]];
    }
  }

  /** `process_file` after parsing: the entries of the records that give one, in order, or
      the first error a record raises. */
  function Entries(records: seq<Record>): Result<seq<Entry>>
  {
    match Results(records, ProcessedRecord)
    case Err(e) => Err(e)
    case Ok(outs) => Ok(Present(outs))
  }

  /** The loop of `process_file` over the parsed records. */
  method ProcessFile(records: seq<Record>) returns (r: Result<seq<Entry>>)
    ensures r == Entries(records)
  {
    var entries: seq<Entry> := [];
    ghost var outs: seq<Option<Entry>> := [];
    var i := 0;
    while i < |records|
      invariant 0 <= i <= |records|
      invariant Results(records[..i], ProcessedRecord) == Ok(outs)
      invariant entries == Present(outs)
    {
      ResultsStep(records, ProcessedRecord, i);
      var entry := ProcessRecord(records[i]);
      if entry.Err? {
        ResultsSticks(records, ProcessedRecord, i + 1);
        return Err(entry.error);
      }
      assert (outs + [entry.value])[..|outs|] == outs;
      outs := outs + [entry.value];
      if entry.value.Some? {
        entries := entries + [entry.value.value];
      }
      i := i + 1;
    }
    assert records[..|records|] == records;
    return Ok(entries);
  }

  /** A file gives its entries exactly when no record raises; each entry is the entry of one
      of its records, and every entry a record gives is listed. */
  lemma EntriesMeaning(records: seq<Record>, x: Entry)
    ensures Entries(records).Ok? <==> forall i :: 0 <= i < |records| ==> ProcessedRecord(records[i]).Ok?
    ensures Entries(records).Ok? ==>
              (x in Entries(records).value <==> exists i :: 0 <= i < |records| && ProcessedRecord(records[i]) == Ok(Some(x)))
  {
    ResultsMeaning(records, ProcessedRecord);
    if Entries(records).Ok? {
      var outs := Results(records, ProcessedRecord).value;
      PresentMembers(outs, x);
      if Some(x) in outs {
        var i :| 0 <= i < |outs| && outs[i] == Some(x);
        assert ProcessedRecord(records[i]) == Ok(Some(x));
      }
      if exists i :: 0 <= i < |records| && ProcessedRecord(records[i]) == Ok(Some(x)) {
        var i :| 0 <= i < |records| && ProcessedRecord(records[i]) == Ok(Some(x));
        assert outs[i] == Some(x);
      }
    }
  }
}
