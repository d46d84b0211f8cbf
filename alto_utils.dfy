// ALTO text extraction (metadata_extract/alto_utils.py): the words of each TextLine become word
// blocks, neighbouring words are merged into phrases when the gap between them is small, and
// the phrases become spans carrying the font and size of their style.  The XML library's tree is
// given: a TextLine as the attribute maps of its String elements, a TextBlock as its attributes
// and lines, the Styles element as the attribute maps of its TextStyle children.

module AltoUtils {
  import opened Common
  import opened Strings
  import opened Pages

  /** Words closer than this are merged. */
  const MAX_SPACING: real := 80.0

  type Attrs = map<string, string>

  datatype XTextLine = XTextLine(strings: seq<Attrs>)
  datatype XTextBlock = XTextBlock(attrib: Attrs, lines: seq<XTextLine>)

  /** A text style: its font family and its size, as written in the file. */
  datatype Style = Style(font: string, fontsize: string)

  const DEFAULT_STYLE: Style := Style("default", "1")

  /** Python's `float(s)` on a string: None where it raises ValueError. */
  type FloatParser = string -> Option<real>

  // ---------------------------------------------------------------- get_styles

  /** A TextStyle with the attributes `get_styles` reads. */
  predicate StyleAttrs(att: Attrs) { "FONTFAMILY" in att && "FONTSIZE" in att && "ID" in att }

  /** The style table after the given TextStyle elements, in document order: each one, keyed by
      its ID, replaces what was there.  A missing attribute raises KeyError. */
  function StylesOf(textStyles: seq<Attrs>): (r: Result<map<string, Style>>)
    ensures r.Ok? ==> "default" in r.value
    ensures r.Ok? ==> forall i :: 0 <= i < |textStyles| ==> StyleAttrs(textStyles[i]) && textStyles[i]["ID"] in r.value
  {
    if |textStyles| == 0 then Ok(map["default" := DEFAULT_STYLE])
    else
      var init := textStyles[..|textStyles| - 1];
      var att := textStyles[|textStyles| - 1];
      assert forall i :: 0 <= i < |init| ==> init[i] == textStyles[i];
      match StylesOf(init)
      case Err(e) => Err(e)
      case Ok(m) =>
        if StyleAttrs(att)
        then Ok(m[att["ID"] := Style(att["FONTFAMILY"], att["FONTSIZE"])])
        else Err("KeyError")
  }

  /** `get_styles`: an absent Styles element, or one holding no element, leaves the default
      style alone. */
  function GetStylesOf(stylesElement: Option<seq<Attrs>>): Result<map<string, Style>>
  {
    if stylesElement.None? || |stylesElement.value| == 0 then Ok(map["default" := DEFAULT_STYLE])
    else StylesOf(stylesElement.value)
  }

  /** `AltoFile.get_styles`: the default style, then each TextStyle in turn. */
  method GetStyles(stylesElement: Option<seq<Attrs>>) returns (r: Result<map<string, Style>>)
    ensures r == GetStylesOf(stylesElement)
  {
    var docStyles := map["default" := DEFAULT_STYLE];
    if stylesElement.None? || |stylesElement.value| == 0 {
      return Ok(docStyles);
    }
    var ts := stylesElement.value;
    var i := 0;
    while i < |ts|
      invariant 0 <= i <= |ts|
      invariant StylesOf(ts[..i]) == Ok(docStyles)
    {
      assert ts[..i + 1][..i] == ts[..i];
      var att := ts[i];
      if !StyleAttrs(att) {
        StylesOfErr(ts, i + 1);
        return Err("KeyError");
      }
      docStyles := docStyles[att["ID"] := Style(att["FONTFAMILY"], att["FONTSIZE"])];
      i := i + 1;
    }
    assert ts[..i] == ts;
    r := Ok(docStyles);
  }

  /** A bad TextStyle among the first `n` spoils the table. */
  lemma {:induction false} StylesOfErr(ts: seq<Attrs>, n: nat)
    requires n <= |ts| && StylesOf(ts[..n]) == Err("KeyError")
    ensures StylesOf(ts) == Err("KeyError")
    decreases |ts| - n
  {
    if n < |ts| {
      assert ts[..n + 1][..n] == ts[..n];
      StylesOfErr(ts, n + 1);
    } else {
      assert ts[..n] == ts;
    }
  }

  /** No TextStyle carries the ID `id`. */
  predicate NoStyleWithId(textStyles: seq<Attrs>, id: string)
  {
    forall i :: 0 <= i < |textStyles| ==> !("ID" in textStyles[i] && textStyles[i]["ID"] == id)
  }

  /** A style looked up by ID is the last TextStyle with that ID; the default style is there
      whatever the file says, and unchanged unless a TextStyle redefines it. */
  lemma {:induction false} StylesOfLast(textStyles: seq<Attrs>, j: nat)
    requires StylesOf(textStyles).Ok? && j < |textStyles|
    requires NoStyleWithId(textStyles[j + 1..], textStyles[j]["ID"])
    ensures StylesOf(textStyles).value[textStyles[j]["ID"]]
            == Style(textStyles[j]["FONTFAMILY"], textStyles[j]["FONTSIZE"])
  {
    var n := |textStyles|;
    var init := textStyles[..n - 1];
    if j < n - 1 {
      assert init[j + 1..] == textStyles[j + 1..n - 1];
      var t := init[j + 1..];
      assert NoStyleWithId(t, init[j]["ID"]) by {
        forall i | 0 <= i < |t| ensures !("ID" in t[i] && t[i]["ID"] == init[j]["ID"]) {
          assert t[i] == textStyles[j + 1..][i];
        }
      }
      StylesOfLast(init, j);
      assert textStyles[j + 1..][n - 2 - j] == textStyles[n - 1];
    }
  }

  lemma {:induction false} StylesOfDefault(textStyles: seq<Attrs>)
    requires StylesOf(textStyles).Ok? && NoStyleWithId(textStyles, "default")
    ensures StylesOf(textStyles).value["default"] == DEFAULT_STYLE
  {
    var n := |textStyles|;
    if n > 0 {
      var init := textStyles[..n - 1];
      assert NoStyleWithId(init, "default") by {
        forall i | 0 <= i < |init| ensures !("ID" in init[i] && init[i]["ID"] == "default") {
          assert init[i] == textStyles[i];
        }
      }
      StylesOfDefault(init);
      assert textStyles[n - 1] == textStyles[n - 1];
    }
  }

  // ---------------------------------------------------------------- get_position

  /** `get_position`: the box `[HPOS, VPOS, HPOS + WIDTH, VPOS + HEIGHT]`.  The first missing
      attribute raises ValueError naming it; a value `float` refuses raises ValueError too. */
  function GetPosition(attrib: Attrs, float: FloatParser): (r: Result<BBox>)
    ensures r.Ok? <==> "HPOS" in attrib && "VPOS" in attrib && "WIDTH" in attrib && "HEIGHT" in attrib
                       && float(attrib["HPOS"]).Some? && float(attrib["VPOS"]).Some?
                       && float(attrib["WIDTH"]).Some? && float(attrib["HEIGHT"]).Some?
    ensures r.Ok? ==> r.value.x0 == float(attrib["HPOS"]).value && r.value.y0 == float(attrib["VPOS"]).value
    ensures r.Ok? ==> (r.value.x1 - r.value.x0 == float(attrib["WIDTH"]).value
                       && r.value.y1 - r.value.y0 == float(attrib["HEIGHT"]).value)
    ensures "HPOS" !in attrib ==> r == Err("ValueError: Attribute HPOS missing, cannot make bbox")
  {
    if "HPOS" !in attrib then Err("ValueError: Attribute HPOS missing, cannot make bbox")
    else if "VPOS" !in attrib then Err("ValueError: Attribute VPOS missing, cannot make bbox")
    else if "WIDTH" !in attrib then Err("ValueError: Attribute WIDTH missing, cannot make bbox")
    else if "HEIGHT" !in attrib then Err("ValueError: Attribute HEIGHT missing, cannot make bbox")
    else
      var h, v, w, ht := float(attrib["HPOS"]), float(attrib["VPOS"]), float(attrib["WIDTH"]), float(attrib["HEIGHT"]);
      if h.None? || v.None? || w.None? || ht.None? then Err("ValueError")
      else Ok(BBox(h.value, v.value, h.value + w.value, v.value + ht.value))
  }

  // ---------------------------------------------------------------- words and merging

  /** A word block of the source: its text, box and optional style reference. */
  datatype Word = Word(text: string, bbox: BBox, style: Option<string>)

  /** The word block of one String element; a missing CONTENT raises KeyError. */
  function WordOf(attrib: Attrs, float: FloatParser): (r: Result<Word>)
    ensures r.Ok? ==> "CONTENT" in attrib && r.value.text == attrib["CONTENT"]
    ensures r.Ok? <==> "CONTENT" in attrib && GetPosition(attrib, float).Ok?
  {
    if "CONTENT" !in attrib then Err("KeyError")
    else match GetPosition(attrib, float)
      case Err(e) => Err(e)
      case Ok(box) => Ok(Word(attrib["CONTENT"], box, if "STYLEREFS" in attrib then Some(attrib["STYLEREFS"]) else None))
  }

  /** The word blocks of a TextLine, or the error of its first bad String. */
  function LineWords(strs: seq<Attrs>, float: FloatParser): (r: Result<seq<Word>>)
    ensures r.Ok? ==> |r.value| == |strs|
  {
    if |strs| == 0 then Ok([])
    else
      match LineWords(strs[..|strs| - 1], float)
      case Err(e) => Err(e)
      case Ok(ws) =>
        match WordOf(strs[|strs| - 1], float)
        case Err(e) => Err(e)
        case Ok(w) => Ok(ws + [w])
  }

  /** A line parses exactly when each of its Strings does, and its words are theirs. */
  lemma {:induction false} LineWordsEach(strs: seq<Attrs>, float: FloatParser)
    ensures LineWords(strs, float).Ok? <==> forall i :: 0 <= i < |strs| ==> WordOf(strs[i], float).Ok?
    ensures LineWords(strs, float).Ok? ==>
              forall i :: 0 <= i < |strs| ==> WordOf(strs[i], float) == Ok(LineWords(strs, float).value[i])
  {
    if |strs| > 0 {
      var init := strs[..|strs| - 1];
      LineWordsEach(init, float);
      assert forall i :: 0 <= i < |init| ==> strs[i] == init[i];
    }
  }

  function TextOf(w: Word): string { w.text }

  function Texts(ws: seq<Word>): (r: seq<string>)
    ensures |r| == |ws| && forall i :: 0 <= i < |ws| ==> r[i] == ws[i].text
  {
    if |ws| == 0 then [] else Texts(ws[..|ws| - 1]) + [ws[|ws| - 1].text]
  }

  lemma TextsSnoc(ws: seq<Word>, w: Word)
    ensures Texts(ws + [w]) == Texts(ws) + [w.text]
  {
    assert (ws + [w])[..|ws|] == ws;
  }

  function Min(a: real, b: real): real { if a <= b then a else b }
  function Max(a: real, b: real): real { if a >= b then a else b }

  /** The gap between a word and the block before it is small enough to merge them. */
  predicate Close(last: Word, w: Word) { w.bbox.x0 - last.bbox.x1 < MAX_SPACING }

  /** The last block with the next word merged in: same left edge and style, the higher top,
      the word's right edge, the lower bottom, and the texts joined by a space. */
  function Merged(last: Word, w: Word): Word
  {
    Word(last.text + " " + w.text,
         BBox(last.bbox.x0, Min(w.bbox.y0, last.bbox.y0), w.bbox.x1, Max(w.bbox.y1, last.bbox.y1)),
         last.style)
  }

  /** `merge` on values: a close word is merged into the last block, any other word starts a
      new block.  The texts, joined by spaces, only ever grow by the word's own text. */
  function MergeWord(acc: seq<Word>, w: Word): seq<Word>
  {
    if |acc| == 0 then [w]
    else if Close(acc[|acc| - 1], w) then acc[..|acc| - 1] + [Merged(acc[|acc| - 1], w)]
    else acc + [w]
  }

  /** `merge([], w)` is `[w]`; a close word changes only the last block, to the merged block; any
      other word is appended.  The texts, joined by spaces, grow by the word's text alone. */
  lemma MergeWordSpec(acc: seq<Word>, w: Word)
    ensures |acc| == 0 ==> MergeWord(acc, w) == [w]
    ensures |acc| > 0 && Close(acc[|acc| - 1], w) ==>
              var r := MergeWord(acc, w);
              |r| == |acc| && r[..|acc| - 1] == acc[..|acc| - 1] && r[|acc| - 1] == Merged(acc[|acc| - 1], w)
    ensures |acc| > 0 && !Close(acc[|acc| - 1], w) ==> MergeWord(acc, w) == acc + [w]
    ensures Join(" ", Texts(MergeWord(acc, w))) == if |acc| == 0 then w.text else Join(" ", Texts(acc)) + " " + w.text
  {
    if |acc| > 0 {
      var n := |acc|;
      var last := acc[n - 1];
      if Close(last, w) {
        var p := acc[..n - 1];
        assert acc == p + [last];
        MergedJoin(p, last, w);
        assert (p + [Merged(last, w)])[..n - 1] == p;
      } else {
        TextsSnoc(acc, w);
        JoinSnoc(" ", Texts(acc), w.text);
      }
    }
  }

  /** Merging a word into the last block adds its text to the joined texts after a space. */
  lemma MergedJoin(p: seq<Word>, last: Word, w: Word)
    ensures Join(" ", Texts(p + [Merged(last, w)])) == Join(" ", Texts(p + [last])) + " " + w.text
  {
    TextsSnoc(p, Merged(last, w));
    TextsSnoc(p, last);
    JoinSnoc(" ", Texts(p), Merged(last, w).text);
    JoinSnoc(" ", Texts(p), last.text);
    if |p| > 0 {
      var j := Join(" ", Texts(p));
      assert j + " " + (last.text + " " + w.text) == (j + " " + last.text) + " " + w.text;
    }
  }

  /** `reduce(merge, words, [])`. */
  function Group(ws: seq<Word>): (r: seq<Word>)
  {
    if |ws| == 0 then [] else MergeWord(Group(ws[..|ws| - 1]), ws[|ws| - 1])
  }

  /** Merging keeps every word's text, in order: the space-joined texts of the groups are the
      space-joined texts of the words.  There is a group whenever there is a word, and never
      more groups than words. */
  lemma {:induction false} GroupTexts(ws: seq<Word>)
    ensures Join(" ", Texts(Group(ws))) == Join(" ", Texts(ws))
    ensures |ws| == 0 <==> |Group(ws)| == 0
    ensures |Group(ws)| <= |ws|
  {
    if |ws| > 0 {
      var init := ws[..|ws| - 1];
      var w := ws[|ws| - 1];
      GroupTexts(init);
      GroupStep(init, w, ws);
    }
  }

  lemma GroupStep(init: seq<Word>, w: Word, ws: seq<Word>)
    requires ws == init + [w]
    requires Join(" ", Texts(Group(init))) == Join(" ", Texts(init))
    requires |init| == 0 <==> |Group(init)| == 0
    requires |Group(init)| <= |init|
    ensures Join(" ", Texts(Group(ws))) == Join(" ", Texts(ws))
    ensures |Group(ws)| != 0 && |Group(ws)| <= |ws|
  {
    var g := Group(init);
    assert ws[..|ws| - 1] == init;
    assert Group(ws) == MergeWord(g, w);
    MergeWordSpec(g, w);
    TextsSnoc(init, w);
    JoinSnoc(" ", Texts(init), w.text);
  }

  /** A word block as the source holds it: a dict whose box and text `merge` updates. */
  class AltoBlock {
    var text: string
    var bbox: BBox
    const style: Option<string>

    constructor (w: Word)
      ensures Value() == w
    {
      text := w.text;
      bbox := w.bbox;
      style := w.style;
    }

    function Value(): Word
      reads this
    {
      Word(text, bbox, style)
    }
  }

  function Values(bs: seq<AltoBlock>): (r: seq<Word>)
    reads bs
    ensures |r| == |bs| && forall i :: 0 <= i < |bs| ==> r[i] == bs[i].Value()
  {
    if |bs| == 0 then [] else Values(bs[..|bs| - 1]) + [bs[|bs| - 1].Value()]
  }

  predicate DistinctBlocks(bs: seq<AltoBlock>)
  {
    forall i, j :: 0 <= i < j < |bs| ==> bs[i] != bs[j]
  }

  /** A new word block at the end of `bs`. */
  method PushBlock(bs: seq<AltoBlock>, ghost made: set<AltoBlock>, w: Word)
    returns (bs': seq<AltoBlock>, ghost made': set<AltoBlock>)
    requires DistinctBlocks(bs) && forall k :: 0 <= k < |bs| ==> bs[k] in made
    ensures Values(bs') == old(Values(bs)) + [w] && DistinctBlocks(bs')
    ensures |bs'| == |bs| + 1 && fresh(bs'[|bs|]) && made' == made + {bs'[|bs|]}
    ensures forall k :: 0 <= k < |bs'| ==> bs'[k] in made'
  {
    var b := new AltoBlock(w);
    bs' := bs + [b];
    made' := made + {b};
    assert bs'[..|bs|] == bs;
  }

  /** `AltoFile.merge`: the last block of `acc` is updated in place, or `word` is appended. */
  method Merge(acc: seq<AltoBlock>, word: AltoBlock) returns (r: seq<AltoBlock>)
    requires DistinctBlocks(acc) && word !in acc
    modifies if |acc| == 0 then {} else {acc[|acc| - 1]}
    ensures Values(r) == MergeWord(old(Values(acc)), old(word.Value()))
    ensures r == if |acc| > 0 && old(Close(acc[|acc| - 1].Value(), word.Value())) then acc else acc + [word]
    ensures DistinctBlocks(r)
  {
    if |acc| == 0 {
      return [word];
    }
    var current := acc[|acc| - 1];
    ghost var before := Values(acc);
    if word.bbox.x0 - current.bbox.x1 < MAX_SPACING {
      ghost var m := Merged(current.Value(), word.Value());
      current.bbox := BBox(current.bbox.x0, Min(word.bbox.y0, current.bbox.y0), word.bbox.x1,
                           Max(word.bbox.y1, current.bbox.y1));
      current.text := current.text + " " + word.text;
      assert current.Value() == m;
      r := acc;
      assert forall i :: 0 <= i < |acc| - 1 ==> acc[i] != current;
      assert Values(r)[..|acc| - 1] == before[..|acc| - 1];
    } else {
      r := acc + [word];
      assert forall i :: 0 <= i < |acc| ==> acc[i] != word;
    }
  }

  /** The fold after `j` words: `acc` holds the groups of the first `j` words, its blocks are
      among `held`, and the later word blocks are outside `held` and untouched. */
  ghost predicate FoldState(elems: seq<AltoBlock>, ws: seq<Word>, acc: seq<AltoBlock>, held: set<AltoBlock>, j: int)
    reads elems, acc
  {
    0 <= j <= |elems| == |ws|
    && Values(acc) == Group(ws[..j])
    && DistinctBlocks(acc)
    && (forall b :: b in held ==> b in elems)
    && (forall t :: 0 <= t < |acc| ==> acc[t] in held)
    && (forall k :: j <= k < |elems| ==> elems[k] !in held && elems[k].Value() == ws[k])
  }

  /** One application of `merge` in the fold. */
  method FoldStep(elems: seq<AltoBlock>, ghost ws: seq<Word>, acc: seq<AltoBlock>, ghost held: set<AltoBlock>, j: int)
    returns (acc': seq<AltoBlock>, ghost held': set<AltoBlock>)
    requires DistinctBlocks(elems) && FoldState(elems, ws, acc, held, j) && j < |elems|
    modifies elems
    ensures FoldState(elems, ws, acc', held', j + 1)
  {
    var word := elems[j];
    assert word !in acc;
    assert ws[..j + 1][..j] == ws[..j];
    ghost var v0 := Values(acc);
    assert word.Value() == ws[j];
    assert Group(ws[..j + 1]) == MergeWord(Group(ws[..j]), ws[j]);
    forall k | j + 1 <= k < |elems|
      ensures elems[k] !in acc && elems[k] != word
    {
    }
    acc' := Merge(acc, word);
    assert Values(acc') == Group(ws[..j + 1]);
    held' := held + {word};
  }

  /** `reduce(AltoFile.merge, word_elements, [])` on word blocks the fold may update. */
  method GroupBlocks(elems: seq<AltoBlock>) returns (acc: seq<AltoBlock>)
    requires DistinctBlocks(elems)
    modifies elems
    ensures Values(acc) == Group(old(Values(elems)))
  {
    ghost var ws := Values(elems);
    ghost var held: set<AltoBlock> := {};
    acc := [];
    var j := 0;
    while j < |elems|
      invariant FoldState(elems, ws, acc, held, j)
    {
      acc, held := FoldStep(elems, ws, acc, held, j);
      j := j + 1;
    }
    assert ws[..j] == ws;
  }

  // ---------------------------------------------------------------- the file

  /** A word's style reference, else its block's, decides the span's style: the first word of the
      reference names it.  An empty reference raises IndexError, an unknown style KeyError, and a
      size `float` refuses ValueError. */
  function SpanOf(styles: map<string, Style>, float: FloatParser, w: Word, blockStyleRef: string): (r: Result<Span>)
    ensures r.Ok? ==> r.value.text == w.text && r.value.bbox == w.bbox
    ensures r.Ok? ==> var ref := if w.style.Some? && w.style.value != "" then w.style.value else blockStyleRef;
              |SplitWs(ref)| > 0 && SplitWs(ref)[0] in styles && r.value.font == styles[SplitWs(ref)[0]].font
  {
    var ref := if w.style.Some? && w.style.value != "" then w.style.value else blockStyleRef;
    var toks := SplitWs(ref);
    if |toks| == 0 then Err("IndexError")
    else if toks[0] !in styles then Err("KeyError")
    else
      var style := styles[toks[0]];
      match float(style.fontsize)
      case None => Err("ValueError")
      case Some(size) => Ok(Span(w.text, style.font, size, w.bbox))
  }

  /** The spans of some word blocks, or the error of the first one that fails. */
  function SpansOf(styles: map<string, Style>, float: FloatParser, ws: seq<Word>, blockStyleRef: string): (r: Result<seq<Span>>)
    ensures r.Ok? ==> |r.value| == |ws|
    ensures r.Ok? ==> forall i :: 0 <= i < |ws| ==> SpanOf(styles, float, ws[i], blockStyleRef) == Ok(r.value[i])
  {
    if |ws| == 0 then Ok([])
    else
      var init := ws[..|ws| - 1];
      match SpansOf(styles, float, init, blockStyleRef)
      case Err(e) => Err(e)
      case Ok(sp) =>
        match SpanOf(styles, float, ws[|ws| - 1], blockStyleRef)
        case Err(e) => Err(e)
        case Ok(s) =>
          assert forall i :: 0 <= i < |init| ==> ws[i] == init[i];
          Ok(sp + [s])
  }

  /** `block.attrib.get('STYLEREFS', 'default')`. */
  function BlockStyleRef(b: XTextBlock): string
  {
    if "STYLEREFS" in b.attrib then b.attrib["STYLEREFS"] else "default"
  }

  /** A TextLine's content: the CONTENT of its words joined by spaces. */
  function ContentLine(strs: seq<Attrs>): string
  {
    Join(" ", ContentsOf(strs))
  }

  function ContentsOf(strs: seq<Attrs>): (r: seq<string>)
    ensures |r| == |strs|
    ensures forall i :: 0 <= i < |strs| ==> r[i] == if "CONTENT" in strs[i] then strs[i]["CONTENT"] else ""
  {
    if |strs| == 0 then [] else ContentsOf(strs[..|strs| - 1]) + [var a := strs[|strs| - 1]; if "CONTENT" in a then a["CONTENT"] else ""]
  }

  /** The words of a parsed line carry the CONTENT of its Strings. */
  lemma LineWordsTexts(strs: seq<Attrs>, float: FloatParser)
    requires LineWords(strs, float).Ok?
    ensures Texts(LineWords(strs, float).value) == ContentsOf(strs)
  {
    var ws := LineWords(strs, float).value;
    LineWordsEach(strs, float);
    forall i | 0 <= i < |strs| ensures Texts(ws)[i] == ContentsOf(strs)[i] {
      assert WordOf(strs[i], float) == Ok(ws[i]);
    }
  }

  /** The TextLines' contents, in block then line order. */
  function ContentLines(bs: seq<XTextBlock>): seq<string>
  {
    if |bs| == 0 then [] else ContentLines(bs[..|bs| - 1]) + LineContents(bs[|bs| - 1].lines)
  }

  function LineContents(lines: seq<XTextLine>): seq<string>
  {
    if |lines| == 0 then [] else LineContents(lines[..|lines| - 1]) + [ContentLine(lines[|lines| - 1].strings)]
  }

  /** An ALTO file: its style table, its text blocks in layout order, and the spans and full text
      `parse_blocks` draws from them.  `float` stands for Python's string-to-float conversion. */
  /** What `parse_line` returns: the merged word blocks and their texts joined by spaces. */
  function LineOf(styles: map<string, Style>, float: FloatParser, line: XTextLine): Result<(seq<Word>, string)>
  {
    match LineWords(line.strings, float)
    case Err(e) => Err(e)
    case Ok(ws) => Ok((Group(ws), Join(" ", Texts(Group(ws)))))
  }

  /** What the lines of one block give: their spans, then their strings, or the first error. */
  function LinesOf(styles: map<string, Style>, float: FloatParser, lines: seq<XTextLine>, blockStyleRef: string): Result<(seq<Span>, seq<string>)>
  {
    if |lines| == 0 then Ok(([], []))
    else
      match LinesOf(styles, float, lines[..|lines| - 1], blockStyleRef)
      case Err(e) => Err(e)
      case Ok((sp, ls)) =>
        match LineOf(styles, float, lines[|lines| - 1])
        case Err(e) => Err(e)
        case Ok((groups, s)) =>
          match SpansOf(styles, float, groups, blockStyleRef)
          case Err(e) => Err(e)
          case Ok(more) => Ok((sp + more, ls + [s]))
  }

  /** What the blocks give, in layout order. */
  function BlocksOf(styles: map<string, Style>, float: FloatParser, bs: seq<XTextBlock>): Result<(seq<Span>, seq<string>)>
  {
    if |bs| == 0 then Ok(([], []))
    else
      match BlocksOf(styles, float, bs[..|bs| - 1])
      case Err(e) => Err(e)
      case Ok((sp, ls)) =>
        var b := bs[|bs| - 1];
        match LinesOf(styles, float, b.lines, BlockStyleRef(b))
        case Err(e) => Err(e)
        case Ok((more, mls)) => Ok((sp + more, ls + mls))
  }

  class AltoFile {
    const styles: map<string, Style>
    const blocks: seq<XTextBlock>
    const float: FloatParser
    var spans: seq<Span>
    var fullText: string

    constructor (styles: map<string, Style>, blocks: seq<XTextBlock>, float: FloatParser)
      ensures this.styles == styles && this.blocks == blocks && this.float == float
      ensures spans == [] && fullText == ""
    {
      this.styles := styles;
      this.blocks := blocks;
      this.float := float;
      spans := [];
      fullText := "";
    }

    /** `parse_line`: a block per String, then the left fold of `merge` over them.  The line's
        string is the CONTENTs of its words joined by spaces, and there are at most as many
        blocks as words, and at least one when there is a word. */
    method ParseLine(line: XTextLine) returns (r: Result<(seq<AltoBlock>, string)>)
      ensures r.Err? <==> LineOf(styles, float, line).Err?
      ensures r.Err? ==> r == Err(LineOf(styles, float, line).error)
      ensures r.Ok? ==> Values(r.value.0) == LineOf(styles, float, line).value.0 && r.value.1 == LineOf(styles, float, line).value.1
      ensures r.Ok? ==> r.value.1 == ContentLine(line.strings)
      ensures r.Ok? ==> |r.value.0| <= |line.strings| && (|r.value.0| == 0 <==> |line.strings| == 0)
    {
      var strs := line.strings;
      var wordElements := WordElements(strs);
      if wordElements.Err? {
        return Err(wordElements.error);
      }
      ghost var ws := Values(wordElements.value);
      var grouped := GroupBlocks(wordElements.value);
      GroupTexts(ws);
      LineWordsTexts(strs, float);
      r := Ok((grouped, Join(" ", Texts(Values(grouped)))));
    }

    /** The word blocks of a TextLine's Strings, each a new dict. */
    method WordElements(strs: seq<Attrs>) returns (r: Result<seq<AltoBlock>>)
      ensures r.Err? ==> LineWords(strs, float).Err? && r == Err(LineWords(strs, float).error)
      ensures r.Ok? ==> LineWords(strs, float) == Ok(Values(r.value))
      ensures r.Ok? ==> DistinctBlocks(r.value) && forall k :: 0 <= k < |r.value| ==> fresh(r.value[k])
    {
      var wordElements: seq<AltoBlock> := [];
      ghost var made: set<AltoBlock> := {};
      var i := 0;
      while i < |strs|
        invariant 0 <= i <= |strs|
        invariant LineWords(strs[..i], float) == Ok(Values(wordElements))
        invariant DistinctBlocks(wordElements)
        invariant fresh(made) && forall k :: 0 <= k < |wordElements| ==> wordElements[k] in made
      {
        ghost var done := Values(wordElements);
        var w := WordOf(strs[i], float);
        LineWordsStep(strs, float, i);
        if w.Err? {
          LineWordsErr(strs, float, i + 1);
          return Err(w.error);
        }
        wordElements, made := PushBlock(wordElements, made, w.value);
        assert Values(wordElements) == done + [w.value];
        i := i + 1;
      }
      assert strs[..i] == strs;
      r := Ok(wordElements);
    }

    /** The lines' strings are their contents. */
    lemma {:induction false} LinesOfContents(lines: seq<XTextLine>, blockStyleRef: string)
      requires LinesOf(styles, float, lines, blockStyleRef).Ok?
      ensures LinesOf(styles, float, lines, blockStyleRef).value.1 == LineContents(lines)
    {
      if |lines| > 0 {
        var line := lines[|lines| - 1];
        LinesOfContents(lines[..|lines| - 1], blockStyleRef);
        var ws := LineWords(line.strings, float).value;
        GroupTexts(ws);
        LineWordsTexts(line.strings, float);
      }
    }

    /** The full text of parsed blocks is the TextLines' contents, one per line. */
    lemma {:induction false} BlocksOfContents(bs: seq<XTextBlock>)
      requires BlocksOf(styles, float, bs).Ok?
      ensures BlocksOf(styles, float, bs).value.1 == ContentLines(bs)
    {
      if |bs| > 0 {
        var b := bs[|bs| - 1];
        BlocksOfContents(bs[..|bs| - 1]);
        LinesOfContents(b.lines, BlockStyleRef(b));
      }
    }

    /** The spans of a line's word blocks, with the block's style reference as fallback. */
    method ElementSpans(elements: seq<AltoBlock>, blockStyleRef: string) returns (r: Result<seq<Span>>)
      ensures r == SpansOf(styles, float, Values(elements), blockStyleRef)
    {
      ghost var groups := Values(elements);
      var spans: seq<Span> := [];
      var k := 0;
      while k < |elements|
        invariant 0 <= k <= |elements|
        invariant SpansOf(styles, float, groups[..k], blockStyleRef) == Ok(spans)
      {
        assert groups[..k + 1][..k] == groups[..k];
        var span := SpanOf(styles, float, elements[k].Value(), blockStyleRef);
        if span.Err? {
          assert SpansOf(styles, float, groups[..k + 1], blockStyleRef) == Err(span.error);
          SpansOfErr(groups, blockStyleRef, k + 1);
          return Err(span.error);
        }
        spans := spans + [span.value];
        k := k + 1;
      }
      assert groups[..k] == groups;
      r := Ok(spans);
    }

    /** The lines of one block: the spans of each line, and each line's string. */
    method BlockLines(lines: seq<XTextLine>, blockStyleRef: string) returns (r: Result<(seq<Span>, seq<string>)>)
      ensures r == LinesOf(styles, float, lines, blockStyleRef)
    {
      var spans: seq<Span> := [];
      var linesStr: seq<string> := [];
      var j := 0;
      while j < |lines|
        invariant 0 <= j <= |lines|
        invariant LinesOf(styles, float, lines[..j], blockStyleRef) == Ok((spans, linesStr))
      {
        var step := LineStep(lines, j, blockStyleRef, spans, linesStr);
        if step.Err? {
          LinesOfErr(lines, blockStyleRef, j + 1);
          return Err(step.error);
        }
        spans, linesStr := step.value.0, step.value.1;
        j := j + 1;
      }
      assert lines[..j] == lines;
      r := Ok((spans, linesStr));
    }

    /** One line of a block: its spans and its string added to those of the lines before it. */
    method LineStep(lines: seq<XTextLine>, j: nat, blockStyleRef: string, spans: seq<Span>, linesStr: seq<string>)
      returns (r: Result<(seq<Span>, seq<string>)>)
      requires j < |lines| && LinesOf(styles, float, lines[..j], blockStyleRef) == Ok((spans, linesStr))
      ensures r == LinesOf(styles, float, lines[..j + 1], blockStyleRef)
    {
      assert lines[..j + 1][..j] == lines[..j];
      var parsed := ParseLine(lines[j]);
      if parsed.Err? {
        return Err(parsed.error);
      }
      var more := ElementSpans(parsed.value.0, blockStyleRef);
      if more.Err? {
        return Err(more.error);
      }
      r := Ok((spans + more.value, linesStr + [parsed.value.1]));
    }

    /** `parse_blocks`: the spans of every line's word blocks, with the block's style reference
        as fallback, and the lines' strings joined by newlines. */
    method ParseBlocks() returns (r: Result<(seq<Span>, string)>)
      ensures r.Err? <==> BlocksOf(styles, float, blocks).Err?
      ensures r.Err? ==> r.error == BlocksOf(styles, float, blocks).error
      ensures r.Ok? ==> r.value.0 == BlocksOf(styles, float, blocks).value.0
      ensures r.Ok? ==> r.value.1 == Join("\n", ContentLines(blocks))
    {
      var linesStr: seq<string> := [];
      var spans: seq<Span> := [];
      var i := 0;
      while i < |blocks|
        invariant 0 <= i <= |blocks|
        invariant BlocksOf(styles, float, blocks[..i]) == Ok((spans, linesStr))
      {
        assert blocks[..i + 1][..i] == blocks[..i];
        var block := blocks[i];
        var blockStyleRef := if "STYLEREFS" in block.attrib then block.attrib["STYLEREFS"] else "default";
        var parsed := BlockLines(block.lines, blockStyleRef);
        if parsed.Err? {
          BlocksOfErr(blocks, i + 1);
          return Err(parsed.error);
        }
        spans := spans + parsed.value.0;
        linesStr := linesStr + parsed.value.1;
        i := i + 1;
      }
      assert blocks[..i] == blocks;
      BlocksOfContents(blocks);
      r := Ok((spans, Join("\n", linesStr)));
    }

    /** An error in the first `n` lines is the block's error. */
    lemma LinesOfErr(lines: seq<XTextLine>, blockStyleRef: string, n: nat)
      requires n <= |lines| && LinesOf(styles, float, lines[..n], blockStyleRef).Err?
      ensures LinesOf(styles, float, lines, blockStyleRef) == LinesOf(styles, float, lines[..n], blockStyleRef)
    {
      Trail(lines, n, blockStyleRef);
    }

    lemma {:induction false} Trail(lines: seq<XTextLine>, n: nat, blockStyleRef: string)
      requires n <= |lines| && LinesOf(styles, float, lines[..n], blockStyleRef).Err?
      ensures LinesOf(styles, float, lines, blockStyleRef) == LinesOf(styles, float, lines[..n], blockStyleRef)
      decreases |lines| - n
    {
      if n < |lines| {
        assert lines[..n + 1][..n] == lines[..n];
        Trail(lines, n + 1, blockStyleRef);
      } else {
        assert lines[..n] == lines;
      }
    }

    /** An error in the first `n` blocks is the file's error. */
    lemma {:induction false} BlocksOfErr(bs: seq<XTextBlock>, n: nat)
      requires n <= |bs| && BlocksOf(styles, float, bs[..n]).Err?
      ensures BlocksOf(styles, float, bs) == BlocksOf(styles, float, bs[..n])
      decreases |bs| - n
    {
      if n < |bs| {
        assert bs[..n + 1][..n] == bs[..n];
        BlocksOfErr(bs, n + 1);
      } else {
        assert bs[..n] == bs;
      }
    }

    /** An error in the first `n` word blocks is the line's error. */
    lemma {:induction false} SpansOfErr(ws: seq<Word>, blockStyleRef: string, n: nat)
      requires n <= |ws| && SpansOf(styles, float, ws[..n], blockStyleRef).Err?
      ensures SpansOf(styles, float, ws, blockStyleRef) == SpansOf(styles, float, ws[..n], blockStyleRef)
      decreases |ws| - n
    {
      if n < |ws| {
        assert ws[..n + 1][..n] == ws[..n];
        SpansOfErr(ws, blockStyleRef, n + 1);
      } else {
        assert ws[..n] == ws;
      }
    }
  }

  /** An error in the first `n` Strings is the line's error. */
  /** One more String read: its word is appended, or its error is the line's. */
  lemma LineWordsStep(strs: seq<Attrs>, float: FloatParser, i: nat)
    requires i < |strs| && LineWords(strs[..i], float).Ok?
    ensures WordOf(strs[i], float).Err? ==> LineWords(strs[..i + 1], float) == Err(WordOf(strs[i], float).error)
    ensures WordOf(strs[i], float).Ok? ==>
              LineWords(strs[..i + 1], float) == Ok(LineWords(strs[..i], float).value + [WordOf(strs[i], float).value])
  {
    assert strs[..i + 1][..i] == strs[..i];
  }

  lemma {:induction false} LineWordsErr(strs: seq<Attrs>, float: FloatParser, n: nat)
    requires n <= |strs| && LineWords(strs[..n], float).Err?
    ensures LineWords(strs, float).Err?
    ensures LineWords(strs, float).error == LineWords(strs[..n], float).error
    decreases |strs| - n
  {
    if n < |strs| {
      assert strs[..n + 1][..n] == strs[..n];
      LineWordsErr(strs, float, n + 1);
    } else {
      assert strs[..n] == strs;
    }
  }

  /** `AltoFile(path)` on the parsed tree: the style table, then the spans and the full text.  A
      bad TextStyle, String or style reference raises. */
  method OpenAlto(stylesElement: Option<seq<Attrs>>, blocks: seq<XTextBlock>, float: FloatParser)
    returns (r: Result<AltoFile>)
    ensures GetStylesOf(stylesElement).Err? ==> r.Err?
    ensures r.Ok? ==> GetStylesOf(stylesElement).Ok? && r.value.styles == GetStylesOf(stylesElement).value
    ensures r.Ok? <==> GetStylesOf(stylesElement).Ok? && BlocksOf(GetStylesOf(stylesElement).value, float, blocks).Ok?
    ensures r.Err? ==> r.error == if GetStylesOf(stylesElement).Err? then GetStylesOf(stylesElement).error
                                 else BlocksOf(GetStylesOf(stylesElement).value, float, blocks).error
    ensures r.Ok? ==> r.value.blocks == blocks && r.value.float == float
    ensures r.Ok? ==> r.value.spans == BlocksOf(GetStylesOf(stylesElement).value, float, blocks).value.0
    ensures r.Ok? ==> r.value.fullText == Join("\n", ContentLines(blocks))
  {
    var styles := GetStyles(stylesElement);
    if styles.Err? {
      return Err(styles.error);
    }
    var f := new AltoFile(styles.value, blocks, float);
    var parsed := f.ParseBlocks();
    if parsed.Err? {
      return Err(parsed.error);
    }
    f.spans := parsed.value.0;
    f.fullText := parsed.value.1;
    r := Ok(f);
  }
}
