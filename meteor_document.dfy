// The document Meteor reads (metadata_extract/meteor_document.py): a PDF file, or a directory of
// ALTO files, of which only the first and last pages are read as text, and a cache of the page
// objects built on demand.

module MeteorDocuments {
  import opened Common
  import opened Strings
  import opened Dicts
  import opened Pages
  import opened AltoUtils

  /** The default numbers of leading and trailing pages read. */
  const DEFAULT_START: nat := 5
  const DEFAULT_END: nat := 5

  /** An entry of a PDF page's `get_text("blocks")` list: its text and its block type (1 for an
      image). */
  datatype BlockTuple = BlockTuple(text: string, kind: int)

  /** What the PDF library gives for one page: its plain text, its text dictionary, and its
      list of blocks. */
  datatype PdfPage = PdfPage(text: string, blocks: seq<RawBlock>, tuples: seq<BlockTuple>)

  /** An open PDF: its metadata dictionary and its pages; only closing it changes it. */
  class PdfDoc {
    const metadata: map<string, string>
    const pages: seq<PdfPage>
    var closed: bool

    constructor (metadata: map<string, string>, pages: seq<PdfPage>)
      ensures this.metadata == metadata && this.pages == pages && !closed
    {
      this.metadata := metadata;
      this.pages := pages;
      closed := false;
    }

    method Close()
      modifies this
      ensures closed
    {
      closed := true;
    }
  }

  /** One `*.xml` file of an ALTO directory: its name and the parts of its XML tree that
      `AltoFile` reads. */
  datatype AltoSource = AltoSource(name: string, styles: Option<seq<Attrs>>, blocks: seq<XTextBlock>)

  /** What the path names: a directory (with its `*.xml` files in sorted order), a PDF file (as
      opened by the PDF library), or nothing. */
  datatype PathKind = Directory(altoFiles: seq<AltoSource>) | PdfFile(pdf: PdfDoc) | Neither

  // ---------------------------------------------------------------- the page window

  /** The integers `lo`, ..., `hi - 1`. */
  function Range(lo: nat, hi: nat): (r: seq<nat>)
    ensures |r| == if lo <= hi then hi - lo else 0
    ensures forall i :: 0 <= i < |r| ==> r[i] == lo + i
  {
    if lo >= hi then [] else seq(hi - lo, i requires 0 <= i < hi - lo => lo + i)
  }

  /** The 0-based pages `__read_pdf_pages` reads: all of them when there are fewer than
      `start + end`, else the first `start` and the last `end`. */
  function PdfWindow(count: nat, start: nat, end: nat): (r: seq<nat>)
    ensures forall i :: 0 <= i < |r| ==> r[i] < count
  {
    if count < start + end then Range(0, count) else Range(0, start) + Range(count - end, count)
  }

  /** The page-number-to-text items of the pages `lo`, ..., `hi - 1`, 1-based, in order. */
  function PageItems(ps: seq<PdfPage>, lo: nat, hi: nat): (r: Dict<int, string>)
    requires lo <= hi <= |ps|
    ensures |r| == hi - lo
  {
    seq(hi - lo, i requires 0 <= i < hi - lo => (lo + i + 1, ps[lo + i].text))
  }

  /** The `pages` dictionary of a PDF document: the first `start` and the last `end` pages, or
      all of them when there are fewer than `start + end`. */
  function PdfPagesOf(ps: seq<PdfPage>, start: nat, end: nat): Dict<int, string>
  {
    if |ps| < start + end then PageItems(ps, 0, |ps|)
    else PageItems(ps, 0, start) + PageItems(ps, |ps| - end, |ps|)
  }

  /** The window holds `min(page_count, start + end)` pages in increasing order: all of them,
      or those before `start` and those from `page_count - end` on. */
  lemma PdfWindowShape(count: nat, start: nat, end: nat)
    ensures var w := PdfWindow(count, start, end);
      && |w| == (if count < start + end then count else start + end)
      && (forall i, j :: 0 <= i < j < |w| ==> w[i] < w[j])
      && (forall k :: k in w <==> 0 <= k < count && (count < start + end || k < start || k >= count - end))
  {
    var w := PdfWindow(count, start, end);
    forall k | 0 <= k < count && (count < start + end || k < start || k >= count - end)
      ensures k in w
    {
      if count < start + end {
        assert w[k] == k;
      } else {
        var a, b := Range(0, start), Range(count - end, count);
        assert w == a + b;
        if k < start {
          assert w[k] == a[k] == k;
        } else {
          var i := k - (count - end);
          assert w[start + i] == b[i] == k;
        }
      }
    }
  }

  /** The items of a PDF's pages are the window's pages, 1-based, with their texts. */
  lemma PdfPagesAt(ps: seq<PdfPage>, start: nat, end: nat)
    ensures var w := PdfWindow(|ps|, start, end); var r := PdfPagesOf(ps, start, end);
      |r| == |w| && forall i :: 0 <= i < |r| ==> r[i] == (w[i] + 1, ps[w[i]].text)
  {
    var w := PdfWindow(|ps|, start, end);
    var r := PdfPagesOf(ps, start, end);
    assert |w| == |r|;
    forall i | 0 <= i < |r| ensures r[i] == (w[i] + 1, ps[w[i]].text) {
      if |ps| >= start + end && i >= start {
        assert r[i] == PageItems(ps, |ps| - end, |ps|)[i - start];
      }
    }
  }

  /** The `pages` of a PDF hold `min(page_count, start + end)` pages, each once, under their
      1-based numbers: all of them, or those up to `start` and those after `page_count - end`. */
  lemma PdfPagesWindow(ps: seq<PdfPage>, start: nat, end: nat)
    ensures var r := PdfPagesOf(ps, start, end);
      && |r| == (if |ps| < start + end then |ps| else start + end)
      && DistinctKeys(r)
      && (forall k :: k in Keys(r) <==> 1 <= k <= |ps| && (|ps| < start + end || k <= start || k > |ps| - end))
      && (forall i :: 0 <= i < |r| ==> 1 <= r[i].0 <= |ps| && r[i].1 == ps[r[i].0 - 1].text)
  {
    var r := PdfPagesOf(ps, start, end);
    PdfWindowShape(|ps|, start, end);
    PdfPagesAt(ps, start, end);
    PdfPagesKeys(ps, start, end);
  }

  /** The keys of a PDF's pages are the 1-based numbers of the window's pages. */
  lemma PdfPagesKeys(ps: seq<PdfPage>, start: nat, end: nat)
    ensures var r := PdfPagesOf(ps, start, end);
      forall k :: k in Keys(r) <==> 1 <= k <= |ps| && (|ps| < start + end || k <= start || k > |ps| - end)
  {
    var r := PdfPagesOf(ps, start, end);
    var w := PdfWindow(|ps|, start, end);
    PdfWindowShape(|ps|, start, end);
    PdfPagesAt(ps, start, end);
    forall k | k in Keys(r)
      ensures 1 <= k <= |ps| && (|ps| < start + end || k <= start || k > |ps| - end)
    {
      var i :| 0 <= i < |r| && Keys(r)[i] == k;
      assert w[i] in w;
    }
    forall k | 1 <= k <= |ps| && (|ps| < start + end || k <= start || k > |ps| - end)
      ensures k in Keys(r)
    {
      assert k - 1 in w;
      var i :| 0 <= i < |w| && w[i] == k - 1;
      assert Keys(r)[i] == k;
    }
  }

  lemma PageItemsSnoc(ps: seq<PdfPage>, lo: nat, p: nat)
    requires lo <= p < |ps|
    ensures PageItems(ps, lo, p + 1) == PageItems(ps, lo, p) + [(p + 1, ps[p].text)]
  {
  }

  lemma PageItemsBelow(ps: seq<PdfPage>, pre: Dict<int, string>, lo: nat, p: nat)
    requires lo <= p < |ps| && forall i :: 0 <= i < |pre| ==> pre[i].0 <= lo
    ensures p + 1 !in Keys(pre + PageItems(ps, lo, p))
  {
    var d := pre + PageItems(ps, lo, p);
    assert forall i :: 0 <= i < |d| ==> Keys(d)[i] <= p;
  }

  /** Writing the next page after pages with smaller numbers appends it. */
  lemma PageItemsStep(ps: seq<PdfPage>, pre: Dict<int, string>, lo: nat, p: nat)
    requires lo <= p < |ps| && forall i :: 0 <= i < |pre| ==> pre[i].0 <= lo
    ensures Put(pre + PageItems(ps, lo, p), p + 1, ps[p].text) == pre + PageItems(ps, lo, p + 1)
  {
    PageItemsBelow(ps, pre, lo, p);
    PutNew(pre + PageItems(ps, lo, p), p + 1, ps[p].text);
    PageItemsSnoc(ps, lo, p);
  }

  /** The pages `lo`, ..., `hi - 1` written after pages numbered at most `lo`. */
  method PutPages(ps: seq<PdfPage>, pages: Dict<int, string>, lo: nat, hi: nat)
    returns (pages': Dict<int, string>)
    requires lo <= hi <= |ps| && forall i :: 0 <= i < |pages| ==> pages[i].0 <= lo
    ensures pages' == pages + PageItems(ps, lo, hi)
  {
    pages' := pages;
    var page := lo;
    assert pages + PageItems(ps, lo, lo) == pages;
    while page < hi
      invariant lo <= page <= hi
      invariant pages' == pages + PageItems(ps, lo, page)
    {
      PageItemsStep(ps, pages, lo, page);
      pages' := Put(pages', page + 1, ps[page].text);
      page := page + 1;
    }
  }

  /** `__read_pdf_pages`: the text of each page of the window, in page order. */
  method ReadPdfPages(pdf: PdfDoc, start: nat, end: nat) returns (pages: Dict<int, string>)
    ensures pages == PdfPagesOf(pdf.pages, start, end)
  {
    var ps := pdf.pages;
    var count := |ps|;
    pages := [];
    if count < start + end {
      pages := PutPages(ps, pages, 0, count);
    } else {
      pages := PutPages(ps, pages, 0, start);
      pages := PutPages(ps, pages, count - end, count);
    }
  }

  /** The ALTO files `__read_alto_pages` is meant to read: the same window as for a PDF. */
  function FilesToRead<T>(files: seq<T>, start: nat, end: nat): (r: seq<T>)
    ensures |r| == if |files| < start + end then |files| else start + end
  {
    if |files| < start + end then files else files[..start] + files[|files| - end..]
  }

  /** `alto_files[:start] + alto_files[-end:]` as written, where `-0` is `0`, so that the slice
      for `end == 0` is the whole list. */
  function FilesToReadAsWritten<T>(files: seq<T>, start: nat, end: nat): seq<T>
  {
    if |files| < start + end then files
    else files[..start] + (if end == 0 then files else files[|files| - end..])
  }

  /** With no trailing pages asked for, the file list as written holds the first `start` files
      and then every file again. */
  lemma FilesToReadAsWrittenNoEnd<T>(files: seq<T>, start: nat)
    requires 0 < start <= |files|
    ensures FilesToReadAsWritten(files, start, 0) == files[..start] + files
    ensures |FilesToReadAsWritten(files, start, 0)| > |PdfWindow(|files|, start, 0)|
  {
  }

  /** Otherwise the two lists agree. */
  lemma FilesToReadAsWrittenAgrees<T>(files: seq<T>, start: nat, end: nat)
    requires end > 0 || |files| < start
    ensures FilesToReadAsWritten(files, start, end) == FilesToRead(files, start, end)
  {
  }

  /** The ALTO window is the PDF window over the sorted files. */
  lemma FilesToReadWindow<T>(files: seq<T>, start: nat, end: nat)
    ensures var w := PdfWindow(|files|, start, end);
      FilesToRead(files, start, end) == seq(|w|, i requires 0 <= i < |w| => files[w[i]])
  {
    var w := PdfWindow(|files|, start, end);
    var r := FilesToRead(files, start, end);
    assert |r| == |w|;
    forall i | 0 <= i < |w| ensures r[i] == files[w[i]] {
      if |files| >= start + end && i >= start {
        assert r[i] == files[|files| - end + (i - start)];
      }
    }
  }

  predicate IsDot(c: char) { c == '.' }

  /** `int(name.split('.')[0][-4:])`: the number in the last four characters of the name before
      its first dot. */
  function PageNumberOfName(name: string): Option<int>
  {
    ParseInt(LastN(SplitWhere(name, IsDot)[0], 4))
  }

  /** A name whose part before its first dot ends in four digits is numbered by them. */
  lemma PageNumberOfDigits(stem: string, digits: string, ext: string)
    requires forall i :: 0 <= i < |stem| ==> stem[i] != '.'
    requires |digits| == 4 && AllDigits(digits)
    ensures PageNumberOfName(stem + digits + "." + ext) == Some(DigitsValue(digits))
  {
    var base := stem + digits;
    assert forall i :: 0 <= i < |base| ==> base[i] != '.' by {
      forall i | 0 <= i < |base| ensures base[i] != '.' {
        if i >= |stem| { assert base[i] == digits[i - |stem|]; }
      }
    }
    SplitWhereFirst(base, ext);
    assert LastN(base, 4) == digits;
    ParseIntDigits(digits);
  }

  /** Digits alone read as their value. */
  lemma ParseIntDigits(t: string)
    requires |t| > 0 && AllDigits(t)
    ensures ParseInt(t) == Some(DigitsValue(t))
  {
    assert NoSpace(t) by {
      forall i | 0 <= i < |t| ensures !IsSpace(t[i]) { assert IsDigit(t[i]); }
    }
    StripNoSpace(t);
  }

  /** The first piece of `base + "." + rest` split at dots is `base` when it has no dot. */
  lemma {:induction false} SplitWhereFirst(base: string, rest: string)
    requires forall i :: 0 <= i < |base| ==> base[i] != '.'
    ensures SplitWhere(base + "." + rest, IsDot)[0] == base
  {
    SplitWhereFromFirst(base, rest, "");
  }

  lemma {:induction false} SplitWhereFromFirst(base: string, rest: string, cur: string)
    requires forall i :: 0 <= i < |base| ==> base[i] != '.'
    ensures SplitWhereFrom(base + "." + rest, IsDot, cur)[0] == cur + base
    decreases |base|
  {
    var s := base + "." + rest;
    if |base| == 0 {
      assert s[0] == '.' && s[1..] == rest;
    } else {
      assert s[0] == base[0] && s[1..] == base[1..] + "." + rest;
      SplitWhereFromFirst(base[1..], rest, cur + [base[0]]);
      assert cur + [base[0]] + base[1..] == cur + base;
    }
  }

  /** The text of an ALTO file: its TextLines' contents, one per line. */
  function AltoText(src: AltoSource): string
  {
    Join("\n", ContentLines(src.blocks))
  }

  /** The page number of an ALTO file, from its name. */
  function FileNumber(f: AltoSource): Option<int> { PageNumberOfName(f.name) }

  /** The `pages_txt` dictionary built from `files`, for any numbering `num` and reading `text`
      of a file: each file's text under its number, a later file with the same number
      overwriting the earlier one in its place; a file without a number raises ValueError. */
  function NumberedTexts<T>(files: seq<T>, num: T -> Option<int>, text: T -> string): Result<Dict<int, string>>
  {
    if |files| == 0 then Ok([])
    else
      match NumberedTexts(files[..|files| - 1], num, text)
      case Err(e) => Err(e)
      case Ok(d) =>
        var f := files[|files| - 1];
        match num(f)
        case None => Err("ValueError")
        case Some(n) => Ok(Put(d, n, text(f)))
  }

  /** The `pages_txt` dictionary of the ALTO files read. */
  function AltoTexts(files: seq<AltoSource>): Result<Dict<int, string>>
  {
    NumberedTexts(files, FileNumber, AltoText)
  }

  /** One more file read extends the prefix's dictionary by that file's text. */
  lemma NumberedTextsStep<T>(files: seq<T>, num: T -> Option<int>, text: T -> string, i: nat, d: Dict<int, string>, n: int)
    requires i < |files| && NumberedTexts(files[..i], num, text) == Ok(d) && num(files[i]) == Some(n)
    ensures NumberedTexts(files[..i + 1], num, text) == Ok(Put(d, n, text(files[i])))
  {
    assert files[..i + 1][..i] == files[..i];
  }

  /** Each number of the result holds the text of the last file read with that number. */
  lemma {:induction false} NumberedTextsLast<T>(files: seq<T>, num: T -> Option<int>, text: T -> string, i: nat)
    requires NumberedTexts(files, num, text).Ok? && i < |files|
    requires forall j :: i < j < |files| ==> num(files[j]) != num(files[i])
    ensures num(files[i]).Some?
    ensures Get(NumberedTexts(files, num, text).value, num(files[i]).value) == Some(text(files[i]))
  {
    var init := files[..|files| - 1];
    var f := files[|files| - 1];
    var d := NumberedTexts(init, num, text).value;
    if i < |files| - 1 {
      assert forall j :: i < j < |init| ==> init[j] == files[j];
      NumberedTextsLast(init, num, text, i);
      assert init[i] == files[i];
      PutOther(d, num(f).value, text(f), num(files[i]).value);
    }
  }

  /** Each page number of `pages_txt` holds the text of the last ALTO file read with it. */
  lemma AltoTextsLast(files: seq<AltoSource>, i: nat)
    requires AltoTexts(files).Ok? && i < |files|
    requires forall j :: i < j < |files| ==> FileNumber(files[j]) != FileNumber(files[i])
    ensures FileNumber(files[i]).Some?
    ensures Get(AltoTexts(files).value, FileNumber(files[i]).value) == Some(AltoText(files[i]))
  {
    NumberedTextsLast(files, FileNumber, AltoText, i);
  }

  /** Reading one ALTO file, on values: its page number from its name, then what `AltoFile`
      reads from it, its full text and its spans.  A name without a page number raises
      ValueError before the file is opened; a file `AltoFile` cannot read raises its error. */
  function AltoRead(f: AltoSource, float: FloatParser): Result<(int, string, seq<Span>)>
  {
    if FileNumber(f).None? then Err("ValueError")
    else if GetStylesOf(f.styles).Err? then Err(GetStylesOf(f.styles).error)
    else
      var parsed := BlocksOf(GetStylesOf(f.styles).value, float, f.blocks);
      if parsed.Err? then Err(parsed.error)
      else Ok((FileNumber(f).value, AltoText(f), parsed.value.0))
  }

  /** What reading one file yields: its page number, its text and its spans, or an error. */
  type FileReader<!T> = T -> Result<(int, string, seq<Span>)>

  /** The loop of `__read_alto_pages` on values, for any reading `read` of one file: the texts
      and the spans of the files by page number, a later file with a number overwriting an
      earlier one in its place; the first file that cannot be read raises its error. */
  function ReadEach<T>(files: seq<T>, read: FileReader<T>): Result<(Dict<int, string>, Dict<int, seq<Span>>)>
  {
    if |files| == 0 then Ok(([], []))
    else
      var prev := ReadEach(files[..|files| - 1], read);
      var x := read(files[|files| - 1]);
      if prev.Err? then prev
      else if x.Err? then Err(x.error)
      else Ok((Put(prev.value.0, x.value.0, x.value.1), Put(prev.value.1, x.value.0, x.value.2)))
  }

  /** `__read_alto_pages` on values, over the ALTO files read. */
  function ReadAlto(files: seq<AltoSource>, float: FloatParser): Result<(Dict<int, string>, Dict<int, seq<Span>>)>
  {
    ReadEach(files, f => AltoRead(f, float))
  }

  /** One more file read: its error, or its text and spans written under its number. */
  lemma ReadEachSnoc<T>(files: seq<T>, read: FileReader<T>, i: nat)
    requires i < |files| && ReadEach(files[..i], read).Ok?
    ensures read(files[i]).Err? ==> ReadEach(files[..i + 1], read) == Err(read(files[i]).error)
    ensures read(files[i]).Ok? ==>
              var d, x := ReadEach(files[..i], read).value, read(files[i]).value;
              ReadEach(files[..i + 1], read) == Ok((Put(d.0, x.0, x.1), Put(d.1, x.0, x.2)))
  {
    assert files[..i + 1][..i] == files[..i];
  }

  /** Once a file raises, the files after it are not read. */
  lemma {:induction false} ReadEachErr<T>(files: seq<T>, read: FileReader<T>, n: nat)
    requires n <= |files| && ReadEach(files[..n], read).Err?
    ensures ReadEach(files, read) == ReadEach(files[..n], read)
    decreases |files| - n
  {
    if n < |files| {
      assert files[..n + 1][..n] == files[..n];
      ReadEachErr(files, read, n + 1);
    } else {
      assert files[..n] == files;
    }
  }

  /** Every file can be read. */
  predicate AllRead<T>(files: seq<T>, read: FileReader<T>)
  {
    forall i :: 0 <= i < |files| ==> read(files[i]).Ok?
  }

  /** Reading succeeds exactly when every file can be read. */
  lemma {:induction false} ReadEachMeaning<T>(files: seq<T>, read: FileReader<T>)
    ensures ReadEach(files, read).Ok? <==> AllRead(files, read)
  {
    if |files| > 0 {
      ReadEachMeaning(files[..|files| - 1], read);
      AllReadSnoc(files, read);
    }
  }

  /** All files can be read iff all but the last can and the last can. */
  lemma AllReadSnoc<T>(files: seq<T>, read: FileReader<T>)
    requires |files| > 0
    ensures AllRead(files, read) <==> AllRead(files[..|files| - 1], read) && read(files[|files| - 1]).Ok?
  {
    var init := files[..|files| - 1];
    assert forall i :: 0 <= i < |init| ==> init[i] == files[i];
  }

  /** The error raised is that of the first file that cannot be read. */
  lemma ReadEachFirstError<T>(files: seq<T>, read: FileReader<T>, i: nat)
    requires i < |files| && read(files[i]).Err?
    requires forall j :: 0 <= j < i ==> read(files[j]).Ok?
    ensures ReadEach(files, read) == Err(read(files[i]).error)
  {
    assert AllRead(files[..i], read) by {
      assert forall j :: 0 <= j < i ==> files[..i][j] == files[j];
    }
    ReadEachMeaning(files[..i], read);
    ReadEachSnoc(files, read, i);
    ReadEachErr(files, read, i + 1);
  }

  /** A successful read's texts are the dict `NumberedTexts` builds with the same numbering and
      texts, and its spans have the same page numbers in the same order. */
  lemma {:induction false} ReadEachTexts<T>(files: seq<T>, read: FileReader<T>, num: T -> Option<int>, text: T -> string)
    requires ReadEach(files, read).Ok?
    requires forall f :: read(f).Ok? ==> num(f) == Some(read(f).value.0) && text(f) == read(f).value.1
    ensures Ok(ReadEach(files, read).value.0) == NumberedTexts(files, num, text)
    ensures Keys(ReadEach(files, read).value.0) == Keys(ReadEach(files, read).value.1)
  {
    if |files| > 0 {
      var init := files[..|files| - 1];
      ReadEachTexts(init, read, num, text);
      var d := ReadEach(init, read).value;
      var x := read(files[|files| - 1]).value;
      PutKeys(d.0, x.0, x.1);
      PutKeys(d.1, x.0, x.2);
    }
  }

  /** Each page number holds the spans of the last file read with that number. */
  lemma {:induction false} ReadEachLast<T>(files: seq<T>, read: FileReader<T>, num: T -> Option<int>, i: nat)
    requires ReadEach(files, read).Ok? && i < |files|
    requires forall f :: read(f).Ok? ==> num(f) == Some(read(f).value.0)
    requires forall j :: i < j < |files| ==> num(files[j]) != num(files[i])
    ensures read(files[i]).Ok?
    ensures Get(ReadEach(files, read).value.1, read(files[i]).value.0) == Some(read(files[i]).value.2)
  {
    var init := files[..|files| - 1];
    var d := ReadEach(init, read).value;
    var x := read(files[|files| - 1]).value;
    if i < |files| - 1 {
      assert forall j :: i < j < |init| ==> init[j] == files[j];
      assert init[i] == files[i];
      ReadEachLast(init, read, num, i);
      PutOther(d.1, x.0, x.2, read(files[i]).value.0);
    }
  }

  /** A file read gives the number and text `pages_txt` records for it. */
  lemma AltoReadNumbered(float: FloatParser)
    ensures forall f :: AltoRead(f, float).Ok? ==>
              FileNumber(f) == Some(AltoRead(f, float).value.0) && AltoText(f) == AltoRead(f, float).value.1
  {
  }

  /** Reading the ALTO files succeeds exactly when every file has a page number and opens, and
      the error is that of the first file that does not. */
  lemma ReadAltoMeaning(files: seq<AltoSource>, float: FloatParser)
    ensures ReadAlto(files, float).Ok? <==> forall i :: 0 <= i < |files| ==> AltoRead(files[i], float).Ok?
    ensures forall i :: 0 <= i < |files| && AltoRead(files[i], float).Err?
                        && (forall j :: 0 <= j < i ==> AltoRead(files[j], float).Ok?) ==>
              ReadAlto(files, float) == Err(AltoRead(files[i], float).error)
  {
    var read := f => AltoRead(f, float);
    ReadEachMeaning(files, read);
    forall i | 0 <= i < |files| && AltoRead(files[i], float).Err? && (forall j :: 0 <= j < i ==> AltoRead(files[j], float).Ok?)
      ensures ReadAlto(files, float) == Err(AltoRead(files[i], float).error)
    {
      ReadEachFirstError(files, read, i);
    }
  }

  /** A successful read's texts are `pages_txt` as `AltoTexts` gives it, and its spans have the
      same page numbers in the same order. */
  lemma ReadAltoTexts(files: seq<AltoSource>, float: FloatParser)
    requires ReadAlto(files, float).Ok?
    ensures Ok(ReadAlto(files, float).value.0) == AltoTexts(files)
    ensures Keys(ReadAlto(files, float).value.0) == Keys(ReadAlto(files, float).value.1)
  {
    AltoReadNumbered(float);
    ReadEachTexts(files, f => AltoRead(f, float), FileNumber, AltoText);
  }

  /** Each page number holds the spans of the last ALTO file read with that number. */
  lemma ReadAltoLast(files: seq<AltoSource>, float: FloatParser, i: nat)
    requires ReadAlto(files, float).Ok? && i < |files|
    requires forall j :: i < j < |files| ==> FileNumber(files[j]) != FileNumber(files[i])
    ensures FileNumber(files[i]).Some? && AltoRead(files[i], float).Ok?
    ensures Get(ReadAlto(files, float).value.1, FileNumber(files[i]).value) == Some(AltoRead(files[i], float).value.2)
  {
    AltoReadNumbered(float);
    ReadEachLast(files, f => AltoRead(f, float), FileNumber, i);
  }

  /** A page performs as `Page(alto_file=...)` builds it: all of the file's spans as one line. */
  function AltoPageBlocks(spans: seq<Span>): seq<RawBlock>
  {
    [RawBlock(Some([Line(spans)]))]
  }

  /** The body of the loop of `__read_alto_pages` for one file: its page number, then its
      `AltoFile`, whose full text and page object are kept. */
  method ReadAltoFile(f: AltoSource, float: FloatParser) returns (r: Result<(int, string, Page)>)
    ensures r.Ok? <==> AltoRead(f, float).Ok?
    ensures r.Err? ==> r.error == AltoRead(f, float).error
    ensures FileNumber(f).None? ==> r == Err("ValueError")
    ensures r.Ok? ==> && FileNumber(f) == Some(r.value.0) && r.value.1 == AltoText(f)
                      && (r.value.0, r.value.1) == (AltoRead(f, float).value.0, AltoRead(f, float).value.1)
                      && fresh(r.value.2) && PageFrom(r.value.2, AltoPageBlocks(AltoRead(f, float).value.2))
  {
    var pageNr := PageNumberOfName(f.name);
    if pageNr.None? {
      return Err("ValueError");
    }
    var alto := OpenAlto(f.styles, f.blocks, float);
    if alto.Err? {
      return Err(alto.error);
    }
    var page := new Page(AltoPageBlocks(alto.value.spans));
    r := Ok((pageNr.value, alto.value.fullText, page));
  }

  /** The page objects of `pagesObjects` are those of the page numbers of `pagesTxt`, all in
      `made`. */
  ghost predicate PagesFor(pagesTxt: Dict<int, string>, pagesObjects: map<int, Page>, made: set<Page>)
  {
    (forall k :: k in pagesObjects <==> k in Keys(pagesTxt))
    && forall k :: k in pagesObjects ==> pagesObjects[k] in made
  }

  /** Writing page `n` into both dicts keeps them in step. */
  lemma PagesForPut(pagesTxt: Dict<int, string>, pagesObjects: map<int, Page>, made: set<Page>,
                    n: int, text: string, page: Page)
    requires PagesFor(pagesTxt, pagesObjects, made)
    ensures PagesFor(Put(pagesTxt, n, text), pagesObjects[n := page], made + {page})
  {
    PutKeys(pagesTxt, n, text);
  }

  /** `p` holds one block per kept span of `raw`, in order, with that span's text, font, size
      and box; these never change once a block is built. */
  predicate PageOf(p: Page, raw: seq<RawBlock>)
  {
    |p.textBlocks| == |KeptSpans(raw)|
    && forall i :: 0 <= i < |p.textBlocks| ==>
         var b, s := p.textBlocks[i], KeptSpans(raw)[i];
         b.text == BlockText(s.text) && b.font == s.font && b.fontsize == s.size && b.bbox == s.bbox
  }

  /** Each page object is the page built from the spans stored under its number. */
  predicate PagesBuilt(pagesObjects: map<int, Page>, spans: Dict<int, seq<Span>>)
  {
    forall k :: k in pagesObjects ==>
      Get(spans, k).Some? && PageOf(pagesObjects[k], AltoPageBlocks(Get(spans, k).value))
  }

  /** Storing the page built from `s` under `n` keeps every page object the page of its own spans. */
  lemma PagesBuiltPut(pagesObjects: map<int, Page>, spans: Dict<int, seq<Span>>, n: int, s: seq<Span>, page: Page)
    requires PagesBuilt(pagesObjects, spans) && PageOf(page, AltoPageBlocks(s))
    ensures PagesBuilt(pagesObjects[n := page], Put(spans, n, s))
  {
    var objects, spans' := pagesObjects[n := page], Put(spans, n, s);
    forall k | k in objects
      ensures Get(spans', k).Some? && PageOf(objects[k], AltoPageBlocks(Get(spans', k).value))
    {
      if k != n {
        PutOther(spans, n, s, k);
      }
    }
  }

  /** The loop of `__read_alto_pages` after its first `i` files: the dicts so far, and the spans
      each page object was built from. */
  ghost predicate ReadSoFar(toRead: seq<AltoSource>, float: FloatParser, i: nat, pagesTxt: Dict<int, string>,
                            spans: Dict<int, seq<Span>>, pagesObjects: map<int, Page>, made: set<Page>)
  {
    i <= |toRead| && ReadAlto(toRead[..i], float) == Ok((pagesTxt, spans))
    && PagesFor(pagesTxt, pagesObjects, made) && PagesBuilt(pagesObjects, spans)
  }

  /** A file that cannot be read ends the loop with its error. */
  lemma ReadSoFarErr(toRead: seq<AltoSource>, float: FloatParser, i: nat, pagesTxt: Dict<int, string>,
                     spans: Dict<int, seq<Span>>, pagesObjects: map<int, Page>, made: set<Page>)
    requires i < |toRead| && ReadSoFar(toRead, float, i, pagesTxt, spans, pagesObjects, made)
    requires AltoRead(toRead[i], float).Err?
    ensures ReadAlto(toRead, float) == Err(AltoRead(toRead[i], float).error)
  {
    ReadEachSnoc(toRead, f => AltoRead(f, float), i);
    ReadEachErr(toRead, f => AltoRead(f, float), i + 1);
  }

  /** A file read into both dicts takes the loop one file further. */
  lemma ReadSoFarNext(toRead: seq<AltoSource>, float: FloatParser, i: nat, pagesTxt: Dict<int, string>,
                      spans: Dict<int, seq<Span>>, pagesObjects: map<int, Page>, made: set<Page>,
                      pagesTxt': Dict<int, string>, pagesObjects': map<int, Page>, made': set<Page>)
    requires i < |toRead| && ReadSoFar(toRead, float, i, pagesTxt, spans, pagesObjects, made)
    requires AltoRead(toRead[i], float).Ok?
    requires var x := AltoRead(toRead[i], float).value;
             && pagesTxt' == Put(pagesTxt, x.0, x.1)
             && PagesFor(pagesTxt', pagesObjects', made') && PagesBuilt(pagesObjects', Put(spans, x.0, x.2))
    ensures var x := AltoRead(toRead[i], float).value;
            ReadSoFar(toRead, float, i + 1, pagesTxt', Put(spans, x.0, x.2), pagesObjects', made')
  {
    ReadEachSnoc(toRead, f => AltoRead(f, float), i);
  }

  /** One turn of the loop of `__read_alto_pages`: file `f` read into both dicts. */
  method ReadAltoStep(f: AltoSource, pagesTxt: Dict<int, string>, pagesObjects: map<int, Page>,
                      ghost spans: Dict<int, seq<Span>>, ghost made: set<Page>, float: FloatParser)
    returns (r: Result<(Dict<int, string>, map<int, Page>)>, ghost made': set<Page>)
    requires PagesFor(pagesTxt, pagesObjects, made) && PagesBuilt(pagesObjects, spans)
    ensures r.Ok? <==> AltoRead(f, float).Ok?
    ensures r.Err? ==> r.error == AltoRead(f, float).error
    ensures FileNumber(f).None? ==> r == Err("ValueError")
    ensures r.Ok? ==> && FileNumber(f).Some?
                      && r.value.0 == Put(pagesTxt, FileNumber(f).value, AltoText(f))
                      && r.value.0 == Put(pagesTxt, AltoRead(f, float).value.0, AltoRead(f, float).value.1)
                      && PagesFor(r.value.0, r.value.1, made')
                      && PagesBuilt(r.value.1, Put(spans, AltoRead(f, float).value.0, AltoRead(f, float).value.2))
    ensures forall p :: p in made' ==> p in made || fresh(p)
  {
    made' := made;
    var read := ReadAltoFile(f, float);
    if read.Err? {
      return Err(read.error), made';
    }
    var (pageNr, text, page) := read.value;
    PagesForPut(pagesTxt, pagesObjects, made, pageNr, text, page);
    PagesBuiltPut(pagesObjects, spans, pageNr, AltoRead(f, float).value.2, page);
    made' := made + {page};
    r := Ok((Put(pagesTxt, pageNr, text), pagesObjects[pageNr := page]));
  }

  /** `__read_alto_pages` over the files of the window: it succeeds exactly when `ReadAlto`
      does, with its texts, and each page number's object built from the spans of the last
      file read with that number. */
  method ReadAltoPages(files: seq<AltoSource>, start: nat, end: nat, float: FloatParser)
    returns (r: Result<(Dict<int, string>, map<int, Page>)>)
    ensures r.Ok? <==> ReadAlto(FilesToRead(files, start, end), float).Ok?
    ensures r.Err? ==> r.error == ReadAlto(FilesToRead(files, start, end), float).error
    ensures r.Ok? ==> r.value.0 == ReadAlto(FilesToRead(files, start, end), float).value.0
    ensures r.Ok? ==> PagesBuilt(r.value.1, ReadAlto(FilesToRead(files, start, end), float).value.1)
    ensures AltoTexts(FilesToRead(files, start, end)).Err? ==> r.Err?
    ensures r.Ok? ==> Ok(r.value.0) == AltoTexts(FilesToRead(files, start, end))
    ensures r.Ok? ==> forall k :: k in r.value.1 <==> k in Keys(r.value.0)
    ensures r.Ok? ==> forall k :: k in r.value.1 ==> fresh(r.value.1[k])
  {
    var toRead := FilesToRead(files, start, end);
    var pagesTxt: Dict<int, string> := [];
    var pagesObjects: map<int, Page> := map[];
    ghost var spans: Dict<int, seq<Span>> := [];
    ghost var made: set<Page> := {};
    var i := 0;
    while i < |toRead|
      invariant ReadSoFar(toRead, float, i, pagesTxt, spans, pagesObjects, made) && fresh(made)
    {
      var step;
      ghost var made';
      step, made' := ReadAltoStep(toRead[i], pagesTxt, pagesObjects, spans, made, float);
      if step.Err? {
        ReadSoFarErr(toRead, float, i, pagesTxt, spans, pagesObjects, made);
        return Err(step.error);
      }
      ReadSoFarNext(toRead, float, i, pagesTxt, spans, pagesObjects, made, step.value.0, step.value.1, made');
      pagesTxt, pagesObjects, made := step.value.0, step.value.1, made';
      spans := Put(spans, AltoRead(toRead[i], float).value.0, AltoRead(toRead[i], float).value.2);
      i := i + 1;
    }
    assert toRead[..i] == toRead;
    ReadAltoTexts(toRead, float);
    r := Ok((pagesTxt, pagesObjects));
  }

  // ---------------------------------------------------------------- the document

  /** A page object as `Page(pdf_page=...)` builds it from a page's text dictionary. */
  ghost predicate PageFrom(p: Page, raw: seq<RawBlock>)
    reads p, p.textBlocks
  {
    |p.textBlocks| == |KeptSpans(raw)|
    && forall i :: 0 <= i < |p.textBlocks| ==> MadeFrom(p.textBlocks[i], KeptSpans(raw)[i])
  }

  /** The page cache `big` keeps every entry of `small`. */
  predicate Extends(small: map<int, Page>, big: map<int, Page>)
  {
    forall k :: k in small ==> k in big && big[k] == small[k]
  }

  class MeteorDocument {
    const pdfinfo: Option<map<string, string>>
    const pdfdoc: Option<PdfDoc>
    const pages: Dict<int, string>
    var pageObjects: map<int, Page>

    constructor (pdfinfo: Option<map<string, string>>, pdfdoc: Option<PdfDoc>, pages: Dict<int, string>,
                 pageObjects: map<int, Page>)
      ensures this.pdfinfo == pdfinfo && this.pdfdoc == pdfdoc && this.pages == pages
      ensures this.pageObjects == pageObjects
    {
      this.pdfinfo := pdfinfo;
      this.pdfdoc := pdfdoc;
      this.pages := pages;
      this.pageObjects := pageObjects;
    }

    /** `get_page_object`: a cached page is returned as it is; otherwise the page is built from
        the PDF and cached, and without a PDF, or for a page the PDF does not have, ValueError. */
    method GetPageObject(pageNumber: int) returns (r: Result<Page>)
      modifies this
      ensures Extends(old(pageObjects), pageObjects)
      ensures pageNumber in old(pageObjects) ==> r == Ok(old(pageObjects)[pageNumber]) && pageObjects == old(pageObjects)
      ensures pageNumber !in old(pageObjects) && (pdfdoc.None? || !(1 <= pageNumber <= |pdfdoc.value.pages|)) ==>
                r == Err("ValueError") && pageObjects == old(pageObjects)
      ensures pageNumber !in old(pageObjects) && pdfdoc.Some? && 1 <= pageNumber <= |pdfdoc.value.pages| ==>
                && r.Ok? && fresh(r.value) && pageObjects == old(pageObjects)[pageNumber := r.value]
                && PageFrom(r.value, pdfdoc.value.pages[pageNumber - 1].blocks)
                && forall j :: 0 <= j < |r.value.textBlocks| ==> fresh(r.value.textBlocks[j])
    {
      if pageNumber !in pageObjects {
        if pdfdoc.None? {
          return Err("ValueError");
        }
        if !(1 <= pageNumber <= |pdfdoc.value.pages|) {
          return Err("ValueError");
        }
        var page := new Page(pdfdoc.value.pages[pageNumber - 1].blocks);
        pageObjects := pageObjects[pageNumber := page];
      }
      return Ok(pageObjects[pageNumber]);
    }

    /** `close`: the PDF is closed when there is one. */
    method Close()
      modifies if pdfdoc.Some? then {pdfdoc.value} else {}
      ensures pdfdoc.Some? ==> pdfdoc.value.closed
    {
      if pdfdoc.Some? {
        pdfdoc.value.Close();
      }
    }

    /** `__exit__`: leaving a `with` block closes the document. */
    method Exit()
      modifies if pdfdoc.Some? then {pdfdoc.value} else {}
      ensures pdfdoc.Some? ==> pdfdoc.value.closed
    {
      Close();
    }
  }

  /** `MeteorDocument(file_path, start, end)`: a directory is read as ALTO files, with no PDF
      and no PDF info; a file is opened as a PDF, with its metadata and an empty page cache; any
      other path raises ValueError. */
  method Open(path: PathKind, start: nat, end: nat, float: FloatParser) returns (r: Result<MeteorDocument>)
    ensures path.Neither? ==> r == Err("ValueError")
    ensures path.PdfFile? ==> && r.Ok? && r.value.pdfdoc == Some(path.pdf)
                              && r.value.pdfinfo == Some(path.pdf.metadata)
                              && r.value.pages == PdfPagesOf(path.pdf.pages, start, end)
                              && r.value.pageObjects == map[]
    ensures path.Directory? ==> (r.Ok? <==> ReadAlto(FilesToRead(path.altoFiles, start, end), float).Ok?)
    ensures path.Directory? && r.Err? ==> r.error == ReadAlto(FilesToRead(path.altoFiles, start, end), float).error
    ensures path.Directory? && r.Ok? ==>
              && r.value.pages == ReadAlto(FilesToRead(path.altoFiles, start, end), float).value.0
              && PagesBuilt(r.value.pageObjects, ReadAlto(FilesToRead(path.altoFiles, start, end), float).value.1)
    ensures path.Directory? ==> (AltoTexts(FilesToRead(path.altoFiles, start, end)).Err? ==> r.Err?)
    ensures path.Directory? && r.Ok? ==>
              && r.value.pdfdoc == None && r.value.pdfinfo == None
              && Ok(r.value.pages) == AltoTexts(FilesToRead(path.altoFiles, start, end))
              && forall k :: k in r.value.pageObjects <==> k in Keys(r.value.pages)
    ensures r.Ok? ==> fresh(r.value)
  {
    match path
    case Directory(files) =>
      var read := ReadAltoPages(files, start, end, float);
      if read.Err? {
        return Err(read.error);
      }
      var doc := new MeteorDocument(None, None, read.value.0, read.value.1);
      r := Ok(doc);
    case PdfFile(pdf) =>
      var pages := ReadPdfPages(pdf, start, end);
      var doc := new MeteorDocument(Some(pdf.metadata), Some(pdf), pages, map[]);
      r := Ok(doc);
    case Neither =>
      r := Err("ValueError");
  }
}
