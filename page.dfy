// Pages as lists of text elements (metadata_extract/page.py): the text blocks built from the
// spans of a PDF page, the blocks aligned with a given block, and the lookups that read a value
// from a block or from its nearest neighbour.

module Pages {
  import opened Common
  import opened Strings
  import opened Lists
  import opened Unique
  import opened Text

  /** A bounding box `(x0, y0, x1, y1)`: left, top, right, bottom. */
  datatype BBox = BBox(x0: real, y0: real, x1: real, y1: real)

  /** A span of the PDF library's text dictionary. */
  datatype Span = Span(text: string, font: string, size: real, bbox: BBox)

  /** A line of the text dictionary, and a block, which may have no `lines` entry (an image). */
  datatype Line = Line(spans: seq<Span>)
  datatype RawBlock = RawBlock(lines: Option<seq<Line>>)

  /** The text a block keeps of its span: no-break spaces made spaces, then stripped. */
  function BlockText(t: string): string
  {
    Strip(ReplaceChar(t, '\U{00A0}', ' '))
  }

  /** A single text element: its text, font, size and position never change once built; only
      the classification `flags` of an info page are set later. */
  class TextBlock {
    const text: string
    const font: string
    const fontsize: real
    const bbox: BBox
    var flags: bv8

    constructor (span: Span)
      ensures text == BlockText(span.text)
      ensures font == span.font && fontsize == span.size && bbox == span.bbox
      ensures flags == 0
    {
      text := BlockText(span.text);
      font := span.font;
      fontsize := span.size;
      bbox := span.bbox;
      flags := 0;
    }
  }

  // ---------------------------------------------------------------- building a page

  function LineSpans(lines: seq<Line>): seq<Span>
  {
    if |lines| == 0 then [] else LineSpans(lines[..|lines| - 1]) + lines[|lines| - 1].spans
  }

  function BlockSpans(b: RawBlock): seq<Span>
  {
    if b.lines.Some? then LineSpans(b.lines.value) else []
  }

  /** Every span of the page, block by block and line by line. */
  function PageSpans(blocks: seq<RawBlock>): seq<Span>
  {
    if |blocks| == 0 then [] else PageSpans(blocks[..|blocks| - 1]) + BlockSpans(blocks[|blocks| - 1])
  }

  /** `not t.strip()`: the text is whitespace only. */
  predicate Blank(t: string) { |t| == 0 || (IsSpace(t[0]) && Blank(t[1..])) }

  lemma {:induction false} BlankAllSpace(t: string)
    ensures Blank(t) <==> forall i :: 0 <= i < |t| ==> IsSpace(t[i])
  {
    if |t| > 0 {
      BlankAllSpace(t[1..]);
      assert forall i :: 0 < i < |t| ==> t[i] == t[1..][i - 1];
    }
  }

  /** Blank is the test the source writes as `not t.strip()`. */
  lemma BlankIsStripEmpty(t: string)
    ensures Blank(t) <==> Strip(t) == ""
  {
    BlankAllSpace(t);
    StripEmpty(t);
  }

  /** A span is kept unless its text is whitespace only. */
  predicate Kept(s: Span) { !Blank(s.text) }

  function KeptSpans(blocks: seq<RawBlock>): seq<Span> { Filter(PageSpans(blocks), Kept) }

  /** `b` is the block built from `s` and its flags are still clear. */
  ghost predicate MadeFrom(b: TextBlock, s: Span)
    reads b
  {
    b.text == BlockText(s.text) && b.font == s.font && b.fontsize == s.size && b.bbox == s.bbox
    && b.flags == 0
  }

  predicate Distinct(bs: seq<TextBlock>)
  {
    forall i, j :: 0 <= i < j < |bs| ==> bs[i] != bs[j]
  }

  /** A kept span never gives an empty block: the no-break space is whitespace too. */
  lemma KeptBlockText(s: Span)
    requires Kept(s)
    ensures BlockText(s.text) != ""
  {
    var t := ReplaceChar(s.text, '\U{00A0}', ' ');
    BlankAllSpace(s.text);
    StripEmpty(t);
    var i :| 0 <= i < |s.text| && !IsSpace(s.text[i]);
    assert t[i] == s.text[i];
  }

  predicate Abs(x: real, bound: real) { -bound < x < bound }

  /** `bs` are the blocks built from `kept`, one each, in order. */
  ghost predicate Made(bs: seq<TextBlock>, kept: seq<Span>)
    reads bs
  {
    |bs| == |kept| && Distinct(bs) && forall m :: 0 <= m < |bs| ==> MadeFrom(bs[m], kept[m])
  }

  /** The blocks of the kept spans among `spans`, in order. */
  ghost predicate BuiltFrom(bs: seq<TextBlock>, spans: seq<Span>)
    reads bs
  {
    Made(bs, Filter(spans, Kept))
  }

  /** One more block, built from `s`, at the end; `made` collects the blocks built so far. */
  method AppendBlock(bs: seq<TextBlock>, ghost kept: seq<Span>, s: Span, ghost made: set<TextBlock>)
    returns (bs': seq<TextBlock>, ghost made': set<TextBlock>)
    requires Made(bs, kept) && forall m :: 0 <= m < |bs| ==> bs[m] in made
    ensures Made(bs', kept + [s])
    ensures |bs'| == |bs| + 1 && fresh(bs'[|bs|]) && made' == made + {bs'[|bs|]}
    ensures forall m :: 0 <= m < |bs'| ==> bs'[m] in made'
  {
    var b := new TextBlock(s);
    assert b !in bs;
    MadeSnoc(bs, kept, b, s);
    bs' := bs + [b];
    made' := made + {b};
  }

  /** A new block built from `s`, not among `bs`, extends the blocks built from `kept`. */
  lemma MadeSnoc(bs: seq<TextBlock>, kept: seq<Span>, b: TextBlock, s: Span)
    requires Made(bs, kept) && MadeFrom(b, s) && b !in bs
    ensures Made(bs + [b], kept + [s])
  {
    var r := bs + [b];
    forall i, j | 0 <= i < j < |r| ensures r[i] != r[j] {
      if j == |bs| {
        assert r[i] == bs[i];
      } else {
        assert r[i] == bs[i] && r[j] == bs[j];
      }
    }
    forall m | 0 <= m < |r| ensures MadeFrom(r[m], (kept + [s])[m]) {
      if m < |bs| {
        assert r[m] == bs[m] && (kept + [s])[m] == kept[m];
      }
    }
  }

  /** The innermost loop of `Page.__init__`: the spans of one line. */
  method SpanBlocks(spans: seq<Span>) returns (bs: seq<TextBlock>)
    ensures BuiltFrom(bs, spans)
    ensures forall m :: 0 <= m < |bs| ==> fresh(bs[m])
  {
    bs := [];
    ghost var made: set<TextBlock> := {};
    var k := 0;
    while k < |spans|
      invariant 0 <= k <= |spans|
      invariant BuiltFrom(bs, spans[..k])
      invariant fresh(made) && forall m :: 0 <= m < |bs| ==> bs[m] in made
    {
      bs, made := SpanStep(bs, spans, k, made);
      k := k + 1;
    }
    assert spans[..k] == spans;
  }

  /** One turn of the innermost loop: the span at `k` gives a block when it is kept. */
  method SpanStep(bs: seq<TextBlock>, spans: seq<Span>, k: nat, ghost made: set<TextBlock>)
    returns (bs': seq<TextBlock>, ghost made': set<TextBlock>)
    requires k < |spans| && BuiltFrom(bs, spans[..k]) && forall m :: 0 <= m < |bs| ==> bs[m] in made
    ensures BuiltFrom(bs', spans[..k + 1])
    ensures forall m :: 0 <= m < |bs'| ==> bs'[m] in made'
    ensures forall b :: b in made' ==> b in made || fresh(b)
  {
    FilterStep(spans, Kept, k);
    if Kept(spans[k]) {
      bs', made' := AppendBlock(bs, Filter(spans[..k], Kept), spans[k], made);
    } else {
      bs', made' := bs, made;
    }
  }

  /** Blocks built for `a` followed by blocks built for `b` are the blocks built for `a + b`. */
  lemma BuiltFromConcat(xs: seq<TextBlock>, a: seq<Span>, ys: seq<TextBlock>, b: seq<Span>)
    requires BuiltFrom(xs, a) && BuiltFrom(ys, b)
    requires forall i, j :: 0 <= i < |xs| && 0 <= j < |ys| ==> xs[i] != ys[j]
    ensures BuiltFrom(xs + ys, a + b)
  {
    FilterConcat(a, b, Kept);
    var r := xs + ys;
    forall m | 0 <= m < |r| ensures MadeFrom(r[m], Filter(a + b, Kept)[m]) {
      if m < |xs| { assert r[m] == xs[m]; } else { assert r[m] == ys[m - |xs|]; }
    }
  }

  /** The middle loop: the lines of one block. */
  method LineBlocks(lines: seq<Line>) returns (bs: seq<TextBlock>)
    ensures BuiltFrom(bs, LineSpans(lines))
    ensures forall m :: 0 <= m < |bs| ==> fresh(bs[m])
  {
    bs := [];
    var j := 0;
    while j < |lines|
      invariant 0 <= j <= |lines|
      invariant BuiltFrom(bs, LineSpans(lines[..j]))
      invariant forall m :: 0 <= m < |bs| ==> fresh(bs[m])
    {
      assert lines[..j + 1][..j] == lines[..j];
      var more := SpanBlocks(lines[j].spans);
      BuiltFromConcat(bs, LineSpans(lines[..j]), more, lines[j].spans);
      bs := bs + more;
      j := j + 1;
    }
    assert lines[..j] == lines;
  }

  /** One block of the text dictionary: its lines, or nothing when it has none. */
  method BlockBlocks(b: RawBlock) returns (bs: seq<TextBlock>)
    ensures BuiltFrom(bs, BlockSpans(b))
    ensures forall m :: 0 <= m < |bs| ==> fresh(bs[m])
  {
    if b.lines.Some? {
      bs := LineBlocks(b.lines.value);
    } else {
      bs := [];
    }
  }

  /** The outer loop: every block of the page. */
  method PageBlocks(blocks: seq<RawBlock>) returns (bs: seq<TextBlock>)
    ensures BuiltFrom(bs, PageSpans(blocks))
    ensures forall m :: 0 <= m < |bs| ==> fresh(bs[m])
  {
    bs := [];
    var i := 0;
    while i < |blocks|
      invariant 0 <= i <= |blocks|
      invariant BuiltFrom(bs, PageSpans(blocks[..i]))
      invariant forall m :: 0 <= m < |bs| ==> fresh(bs[m])
    {
      assert blocks[..i + 1][..i] == blocks[..i];
      var more := BlockBlocks(blocks[i]);
      BuiltFromConcat(bs, PageSpans(blocks[..i]), more, BlockSpans(blocks[i]));
      bs := bs + more;
      i := i + 1;
    }
    assert blocks[..i] == blocks;
  }

  /** The values a lookup finds for the blocks `bs`, in block order, each context extended by
      the lower-cased text of its block. */
  function Tagged(found: TextBlock -> Option<(string, string)>, bs: seq<TextBlock>): (r: seq<(string, string)>)
    ensures |r| <= |bs|
  {
    if |bs| == 0 then []
    else
      var last := bs[|bs| - 1];
      Tagged(found, bs[..|bs| - 1])
      + match found(last) case None => [] case Some(v) => [(v.0, v.1 + Lower(last.text))]
  }

  /** `v` is the value found for one of the blocks `bs`, with that block's lower-cased text at
      the end of its context. */
  predicate FoundFor(found: TextBlock -> Option<(string, string)>, bs: seq<TextBlock>, v: (string, string))
  {
    exists j :: 0 <= j < |bs| && found(bs[j]).Some?
      && v == (found(bs[j]).value.0, found(bs[j]).value.1 + Lower(bs[j].text))
  }

  /** At most one value per block, and each value comes from one of the blocks. */
  lemma {:induction false} TaggedFrom(found: TextBlock -> Option<(string, string)>, bs: seq<TextBlock>)
    ensures forall i :: 0 <= i < |Tagged(found, bs)| ==> FoundFor(found, bs, Tagged(found, bs)[i])
  {
    if |bs| > 0 {
      var p := bs[..|bs| - 1];
      TaggedFrom(found, p);
      var r := Tagged(found, bs);
      var rest := Tagged(found, p);
      forall i | 0 <= i < |r| ensures FoundFor(found, bs, r[i]) {
        if i < |rest| {
          assert r[i] == rest[i];
          assert FoundFor(found, p, rest[i]);
          var j :| 0 <= j < |p| && found(p[j]).Some?
                  && rest[i] == (found(p[j]).value.0, found(p[j]).value.1 + Lower(p[j].text));
          assert p[j] == bs[j];
        } else {
          var j := |bs| - 1;
          assert found(bs[j]).Some?;
          assert r[i] == (found(bs[j]).value.0, found(bs[j]).value.1 + Lower(bs[j].text));
        }
      }
    }
  }

  /** The values found for one more block follow those found before. */
  lemma TaggedSnoc(found: TextBlock -> Option<(string, string)>, bs: seq<TextBlock>, b: TextBlock)
    ensures Tagged(found, bs + [b]) == Tagged(found, bs) + Tagged(found, [b])
  {
    assert (bs + [b])[..|bs|] == bs;
    assert [b][..0] == [];
  }

  /** `x` is null when nothing is found for one block, and otherwise carries the one value found. */
  ghost predicate Carries(x: ValueAndContext?, t: seq<(string, string)>)
    reads x
  {
    if x == null then t == [] else |t| == 1 && x.value == t[0].0 && x.context == Some(t[0].1)
  }

  /** Each value carries the matching pair of `t`. */
  ghost predicate AllCarry(vs: seq<ValueAndContext>, t: seq<(string, string)>)
    reads vs
  {
    |vs| == |t| && forall i :: 0 <= i < |vs| ==> vs[i].value == t[i].0 && vs[i].context == Some(t[i].1)
  }

  lemma CarrySnoc(vs: seq<ValueAndContext>, t: seq<(string, string)>, x: ValueAndContext?, u: seq<(string, string)>)
    requires AllCarry(vs, t) && Carries(x, u)
    ensures AllCarry(if x == null then vs else vs + [x], t + u)
  {
    if x == null {
      assert t + u == t;
    }
  }

  /** A text as the value `find_neighbour` hands back unchanged. */
  function AsText(t: string): Option<string> { Some(t) }

  /** A page: its text blocks, in the order of the PDF's blocks, lines and spans. */
  /** A block at `box` with text `t` is on the line of the block at `ref`: nearly the same top,
      and further right. */
  predicate OnLineOf(ref: BBox, box: BBox, t: string, slackY: real, requireLetters: bool)
  {
    Abs(box.y0 - ref.y0, slackY) && box.x0 > ref.x0 && (!requireLetters || !HasNoLetters(t))
  }

  /** A block at `box` with text `t` is in the column of the block at `ref`: nearly the same
      left edge, and further down. */
  predicate OnColumnOf(ref: BBox, box: BBox, t: string, slackX: real, requireLetters: bool)
  {
    Abs(box.x0 - ref.x0, slackX) && box.y0 > ref.y0 && (!requireLetters || !HasNoLetters(t))
  }

  /** The tests of `get_line_and_column` for the block at `ref`, as function values. */
  function LineTest(ref: BBox, slackY: real, requireLetters: bool): TextBlock -> bool
  {
    (b: TextBlock) => OnLineOf(ref, b.bbox, b.text, slackY, requireLetters)
  }

  function ColumnTest(ref: BBox, slackX: real, requireLetters: bool): TextBlock -> bool
  {
    (b: TextBlock) => OnColumnOf(ref, b.bbox, b.text, slackX, requireLetters)
  }

  /** The text starts with the publisher label. */
  predicate IsPublisherLabel(pats: Patterns, t: string) { pats.publisherLabelMatch(Lower(t)).Some? }

  class Page {
    const textBlocks: seq<TextBlock>

    /** `Page.__init__` on the text dictionary of the page: one fresh block per span that is not
        whitespace only, with its flags clear. */
    constructor (blocks: seq<RawBlock>)
      ensures |textBlocks| == |KeptSpans(blocks)| && Distinct(textBlocks)
      ensures forall i :: 0 <= i < |textBlocks| ==> MadeFrom(textBlocks[i], KeptSpans(blocks)[i])
      ensures forall i :: 0 <= i < |textBlocks| ==> fresh(textBlocks[i])
      ensures forall i :: 0 <= i < |textBlocks| ==> textBlocks[i].text != ""
    {
      var bs := PageBlocks(blocks);
      textBlocks := bs;
      forall i | 0 <= i < |bs| ensures bs[i].text != "" {
        KeptBlockText(KeptSpans(blocks)[i]);
      }
    }

    // -------------------------------------------------------------- neighbours

    /** `b` is on the line of `ref`. */
    predicate OnLine(ref: TextBlock, b: TextBlock, slackY: real, requireLetters: bool)
    {
      OnLineOf(ref.bbox, b.bbox, b.text, slackY, requireLetters)
    }

    /** `b` is in the column of `ref`. */
    predicate OnColumn(ref: TextBlock, b: TextBlock, slackX: real, requireLetters: bool)
    {
      OnColumnOf(ref.bbox, b.bbox, b.text, slackX, requireLetters)
    }

    /** `get_line_and_column`: the blocks on the line of `block` and those in its column, each
        in page order.  The block itself is in neither, since neither test holds of it. */
    function LineAndColumn(block: TextBlock, slackX: real, slackY: real, requireLetters: bool)
      : (r: (seq<TextBlock>, seq<TextBlock>))
      ensures forall i :: 0 <= i < |r.0| ==> OnLine(block, r.0[i], slackY, requireLetters)
      ensures forall i :: 0 <= i < |r.1| ==> OnColumn(block, r.1[i], slackX, requireLetters)
      ensures block !in r.0 && block !in r.1
      ensures |r.0| <= |textBlocks| && |r.1| <= |textBlocks|
    {
      var line := Filter(textBlocks, LineTest(block.bbox, slackY, requireLetters));
      var column := Filter(textBlocks, ColumnTest(block.bbox, slackX, requireLetters));
      assert !OnLine(block, block, slackY, requireLetters) && !OnColumn(block, block, slackX, requireLetters);
      (line, column)
    }

    /** The neighbour lists hold exactly the blocks of the page passing their test, in page
        order: a block before another on the page comes before it in the list. */
    lemma LineAndColumnMembers(block: TextBlock, slackX: real, slackY: real, requireLetters: bool)
      ensures forall b :: b in LineAndColumn(block, slackX, slackY, requireLetters).0
                <==> b in textBlocks && OnLine(block, b, slackY, requireLetters)
      ensures forall b :: b in LineAndColumn(block, slackX, slackY, requireLetters).1
                <==> b in textBlocks && OnColumn(block, b, slackX, requireLetters)
    {
      FilterMembers(textBlocks, LineTest(block.bbox, slackY, requireLetters));
      FilterMembers(textBlocks, ColumnTest(block.bbox, slackX, requireLetters));
    }

    /** `find_neighbour` with the default slack of 5: `transform` is tried on the first block of
        the line, then on the first block of the column, and the first answer wins. */
    function FindNeighbour<V>(block: TextBlock, transform: string -> Option<V>): (r: Option<V>)
      ensures var (line, column) := LineAndColumn(block, 5.0, 5.0, false);
        && (|line| > 0 && transform(line[0].text).Some? ==> r == transform(line[0].text))
        && (!(|line| > 0 && transform(line[0].text).Some?) ==>
              r == if |column| > 0 then transform(column[0].text) else None)
    {
      var (line, column) := LineAndColumn(block, 5.0, 5.0, false);
      if |line| > 0 && transform(line[0].text).Some? then transform(line[0].text)
      else if |column| > 0 && transform(column[0].text).Some? then transform(column[0].text)
      else None
    }

    // -------------------------------------------------------------- ISXN

    /** The value and context read for a block that mentions the identifier: from the block's
        own text, else from its neighbour. */
    function IsxnFound(id: Identifier, b: TextBlock): Option<(string, string)>
    {
      if IsxnOf(id, b.text).Some? then IsxnOf(id, b.text)
      else FindNeighbour(b, (t: string) => IsxnOf(id, t))
    }

    /** The lookup of `IsxnFound` for one identifier, as a function value. */
    function IsxnLookup(id: Identifier): TextBlock -> Option<(string, string)>
    {
      (b: TextBlock) => IsxnFound(id, b)
    }

    /** The `(value, context)` pairs `find_isxn` returns for the blocks `bs`, in block order. */
    function IsxnValues(id: Identifier, bs: seq<TextBlock>): (r: seq<(string, string)>)
      ensures |r| <= |bs|
    {
      Tagged(IsxnLookup(id), bs)
    }

    /** The blocks whose text mentions the identifier's name. */
    function IsxnBlocks(id: Identifier): seq<TextBlock>
    {
      Filter(textBlocks, (b: TextBlock) => Contains(b.text, IdentifierName(id)))
    }

    /** The body of the loop of `find_isxn` for one block: a fresh value, or null. */
    method BlockIsxn(id: Identifier, b: TextBlock) returns (isxn: ValueAndContext?)
      ensures isxn != null ==> fresh(isxn)
      ensures Carries(isxn, Tagged(IsxnLookup(id), [b]))
    {
      assert [b][..0] == [];
      isxn := FindIsxn(id, b.text);
      if isxn == null {
        var near := FindNeighbour(b, (t: string) => IsxnOf(id, t));
        if near.Some? {
          isxn := new ValueAndContext(near.value.0, Some(near.value.1));
        }
      }
      if isxn != null {
        isxn.AppendToContext(Lower(b.text));
      }
    }

    /** The values collected by the loop of `find_isxn` after its first `n` blocks. */
    ghost predicate Collected(id: Identifier, blocks: seq<TextBlock>, n: nat, values: seq<ValueAndContext>)
      reads values
    {
      n <= |blocks| && AllCarry(values, IsxnValues(id, blocks[..n]))
    }

    /** One turn of the loop of `find_isxn`, over the block after the first `n`: its value, if
        one is found, is appended. */
    method AppendIsxn(id: Identifier, blocks: seq<TextBlock>, n: nat, values: seq<ValueAndContext>)
      returns (values': seq<ValueAndContext>)
      requires n < |blocks| && Collected(id, blocks, n, values)
      ensures Collected(id, blocks, n + 1, values')
    {
      TakeSnoc(blocks, n);
      TaggedSnoc(IsxnLookup(id), blocks[..n], blocks[n]);
      var isxn := BlockIsxn(id, blocks[n]);
      if isxn != null {
        values' := values + [isxn];
      } else {
        values' := values;
      }
      CarrySnoc(values, IsxnValues(id, blocks[..n]), isxn, Tagged(IsxnLookup(id), [blocks[n]]));
    }

    /** `Page.find_isxn`: a fresh value for each block mentioning the identifier where one is
        found, its context extended by that block's lower-cased text. */
    method FindIsxnValues(id: Identifier) returns (values: seq<ValueAndContext>)
      ensures AllCarry(values, IsxnValues(id, IsxnBlocks(id)))
    {
      var blocks := IsxnBlocks(id);
      values := [];
      assert blocks[..0] == [];
      var n := 0;
      while n < |blocks|
        invariant Collected(id, blocks, n, values)
      {
        values := AppendIsxn(id, blocks, n, values);
        n := n + 1;
      }
      assert blocks[..n] == blocks;
    }

    // -------------------------------------------------------------- publisher

    /** The lower-cased text starts with the publisher label. */
    /** The position of the first block that starts with the publisher label. */
    function PublisherBlockIndex(pats: Patterns): (r: Option<nat>)
      ensures r.Some? ==> r.value < |textBlocks| && IsPublisherLabel(pats, textBlocks[r.value].text)
      ensures r.Some? ==> forall j :: 0 <= j < r.value ==> !IsPublisherLabel(pats, textBlocks[j].text)
      ensures r.None? ==> forall j :: 0 <= j < |textBlocks| ==> !IsPublisherLabel(pats, textBlocks[j].text)
    {
      FirstIndex(textBlocks, (b: TextBlock) => IsPublisherLabel(pats, b.text))
    }

    /** `find_publisher_block`: the first block starting with the publisher label, or null. */
    method FindPublisherBlock(pats: Patterns) returns (r: TextBlock?)
      ensures r == match PublisherBlockIndex(pats) case None => null case Some(i) => textBlocks[i]
    {
      r := null;
      var i := 0;
      while i < |textBlocks|
        invariant 0 <= i <= |textBlocks|
        invariant forall j :: 0 <= j < i ==> !IsPublisherLabel(pats, textBlocks[j].text)
      {
        if IsPublisherLabel(pats, textBlocks[i].text) {
          r := textBlocks[i];
          break;
        }
        i := i + 1;
      }
    }

    /** What `Page.find_publisher` returns: the text next to the publisher label.  Wrapping a
        text in a value always gives a true value, so the first block of the line, else of the
        column, is used. */
    function PublisherOf(pats: Patterns): Option<string>
    {
      match PublisherBlockIndex(pats)
      case None => None
      case Some(i) => FindNeighbour(textBlocks[i], AsText)
    }

    /** `Page.find_publisher`. */
    method FindPublisher(pats: Patterns) returns (r: Option<string>)
      ensures r == PublisherOf(pats)
    {
      var block := FindPublisherBlock(pats);
      if block == null {
        return None;
      }
      r := FindNeighbour(block, AsText);
    }

    /** The publisher is the text of the nearest block after the label: on its line if there is
        one, else in its column. */
    lemma PublisherNeighbour(pats: Patterns, i: nat)
      requires PublisherBlockIndex(pats) == Some(i)
      ensures var (line, column) := LineAndColumn(textBlocks[i], 5.0, 5.0, false);
        PublisherOf(pats)
          == if |line| > 0 then Some(line[0].text) else if |column| > 0 then Some(column[0].text) else None
    {
    }
  }
}
