/** Page merging and chunk-record construction of `extract_and_save` (ingest.py).
    The PDF loader, the OCR engine and the text splitter are outside the model:
    the digital and OCR page lists arrive as inputs and the splitter is a function
    parameter. */
module Ingest {
  import opened Text
  import opened Chunks
  import opened Batching

  /** Digital text shorter than this (after stripping) is replaced by the OCR text. */
  const MIN_DIGITAL_LENGTH: nat := 20

  /** An entry of `merged_pages`: the 1-based page number and the chosen text. */
  datatype Page = Page(number: nat, text: string)

  /** `doc.page_content or ""`: a missing page content reads as the empty string. */
  function PageContent(content: Option<string>): string {
    match content
    case None => ""
    case Some(t) => t
  }

  /** The text kept for one page. */
  function ChooseText(digital: string, ocr: string): string {
    if |Strip(digital)| < MIN_DIGITAL_LENGTH then ocr else digital
  }

  /** A page with only whitespace as digital text, or with none, falls back to OCR. */
  lemma BlankDigitalUsesOcr(content: Option<string>, ocr: string)
    requires content.None? || AllWhitespace(content.value)
    ensures ChooseText(PageContent(content), ocr) == ocr
  {
    if content.Some? {
      StripSlice(content.value);
    }
  }

  /** `merged_pages` as the loop over `enumerate(zip(digital, ocr), 1)` builds it. */
  function Merged(digital: seq<Option<string>>, ocr: seq<string>): seq<Page> {
    seq(Min(|digital|, |ocr|), i requires 0 <= i < Min(|digital|, |ocr|) =>
      Page(i + 1, ChooseText(PageContent(digital[i]), ocr[i])))
  }

  /** The page-merge loop: as many pages as the shorter list (zip), numbered from 1,
      each with its OCR text exactly when its stripped digital text is too short. */
  method MergePages(digital: seq<Option<string>>, ocr: seq<string>) returns (merged: seq<Page>)
    ensures |merged| == Min(|digital|, |ocr|)
    ensures forall i :: 0 <= i < |merged| ==> merged[i].number == i + 1
    ensures forall i :: 0 <= i < |merged| ==>
              merged[i].text == ChooseText(PageContent(digital[i]), ocr[i])
    ensures merged == Merged(digital, ocr)
  {
    merged := [];
    var i := 0;
    while i < |digital| && i < |ocr|
      invariant 0 <= i <= Min(|digital|, |ocr|) && |merged| == i
      invariant forall j :: 0 <= j < i ==>
                  merged[j] == Page(j + 1, ChooseText(PageContent(digital[j]), ocr[j]))
    {
      var d := PageContent(digital[i]);
      var o := ocr[i];
      if |Strip(d)| < MIN_DIGITAL_LENGTH {
        merged := merged + [Page(i + 1, o)];
      } else {
        merged := merged + [Page(i + 1, d)];
      }
      assert merged[i] == Page(i + 1, ChooseText(d, o));
      i := i + 1;
    }
    assert |merged| == |Merged(digital, ocr)|;
  }

  function PageTexts(pages: seq<Page>): seq<string> {
    seq(|pages|, i requires 0 <= i < |pages| => pages[i].text)
  }

  /** The saved full text: the page texts joined by newlines, in page order. */
  function FullText(pages: seq<Page>): (r: string)
    ensures |r| == TotalLength(PageTexts(pages)) + (if pages == [] then 0 else |pages| - 1)
    ensures pages == [] ==> r == ""
    ensures |pages| == 1 ==> r == pages[0].text
  {
    JoinLength(PageTexts(pages), "\n");
    Join(PageTexts(pages), "\n")
  }

  /** Appending a page appends a newline and its text. */
  lemma FullTextSnoc(pages: seq<Page>, p: Page)
    requires pages != []
    ensures FullText(pages + [p]) == FullText(pages) + "\n" + p.text
  {
    assert PageTexts(pages + [p]) == PageTexts(pages) + [p.text];
    JoinSnoc(PageTexts(pages), p.text, "\n");
  }

  /** The index of the last '.' in `s`, or -1. */
  function LastDot(s: string): (r: int)
    ensures -1 <= r < |s|
    ensures r >= 0 ==> s[r] == '.'
    ensures forall j :: r < j < |s| ==> s[j] != '.'
  {
    if s == [] then -1
    else if s[|s| - 1] == '.' then |s| - 1
    else LastDot(s[..|s| - 1])
  }

  /** `Path(name).stem`: the name without its last suffix; a leading dot or a
      trailing dot does not start a suffix. */
  function Stem(name: string): (r: string)
    ensures r <= name
  {
    var i := LastDot(name);
    if 0 < i < |name| - 1 then name[..i] else name
  }

  /** The stem of a non-empty base name with the `.pdf` suffix is that base name. */
  lemma StemOfPdf(base: string)
    requires base != []
    ensures Stem(base + ".pdf") == base
  {
    var name := base + ".pdf";
    assert name[|base|] == '.';
    var i := LastDot(name);
    assert i >= |base|;
    assert name[|base| + 1..] == "pdf";
    assert i == |base|;
    assert name[..i] == base;
  }

  /** The id `f"{stem}_p{page}_c{idx}"`. */
  function ChunkId(stem: string, page: nat, idx: nat): string {
    stem + "_p" + Decimal(page) + "_c" + Decimal(idx)
  }

  /** The id starts with the stem and ends with the index's digits, and nothing before
      those digits is a digit. */
  lemma ChunkIdParts(stem: string, page: nat, idx: nat)
    ensures var r := ChunkId(stem, page, idx);
      |r| >= |stem| + 6 && r[..|stem|] == stem &&
      TrailingDigits(r) == |Decimal(idx)| && r[|r| - |Decimal(idx)|..] == Decimal(idx)
  {
    var head := stem + "_p" + Decimal(page) + "_c";
    TrailingDigitsOf(head, Decimal(idx));
    assert ChunkId(stem, page, idx) == head + Decimal(idx);
  }

  /** The id can be read back from its end: it determines the stem, the page and the
      index within the page, so ids never collide, within a document or across
      documents with different stems. */
  lemma ChunkIdInjective(s1: string, p1: nat, i1: nat, s2: string, p2: nat, i2: nat)
    requires ChunkId(s1, p1, i1) == ChunkId(s2, p2, i2)
    ensures s1 == s2 && p1 == p2 && i1 == i2
  {
    var a1, a2 := s1 + "_p", s2 + "_p";
    assert ChunkId(s1, p1, i1) == (a1 + Decimal(p1) + "_c") + Decimal(i1);
    assert ChunkId(s2, p2, i2) == (a2 + Decimal(p2) + "_c") + Decimal(i2);
    DigitSuffixCut(a1 + Decimal(p1) + "_c", Decimal(i1), a2 + Decimal(p2) + "_c", Decimal(i2));
    var b1 := a1 + Decimal(p1) + "_c";
    assert a1 + Decimal(p1) == b1[..|b1| - 2];
    assert a2 + Decimal(p2) == b1[..|b1| - 2];
    DigitSuffixCut(a1, Decimal(p1), a2, Decimal(p2));
    assert s1 == a1[..|s1|];
    DecimalInjective(p1, p2);
    DecimalInjective(i1, i2);
  }

  /** The record for the `idx`-th piece of a page. */
  function Record(name: string, page: Page, piece: string, idx: nat): Chunk {
    Chunk(piece, Metadata(name, page.number, ChunkId(Stem(name), page.number, idx)), None)
  }

  /** The records of one page, numbered from 0. */
  function PageRecords(name: string, page: Page, pieces: seq<string>): seq<Chunk> {
    seq(|pieces|, j requires 0 <= j < |pieces| => Record(name, page, pieces[j], j))
  }

  /** `chunks_data`: the records of every page, in page order, then split order. */
  function RecordsOf(name: string, pages: seq<Page>, split: string -> seq<string>): seq<Chunk> {
    if pages == [] then []
    else
      var last := pages[|pages| - 1];
      RecordsOf(name, pages[..|pages| - 1], split) + PageRecords(name, last, split(last.text))
  }

  function PieceCount(pages: seq<Page>, split: string -> seq<string>): nat {
    if pages == [] then 0
    else PieceCount(pages[..|pages| - 1], split) + |split(pages[|pages| - 1].text)|
  }

  /** The chunk-record loop of `extract_and_save`. */
  method BuildChunkRecords(name: string, pages: seq<Page>, split: string -> seq<string>)
    returns (records: seq<Chunk>)
    ensures records == RecordsOf(name, pages, split)
  {
    records := [];
    var p := 0;
    while p < |pages|
      invariant 0 <= p <= |pages|
      invariant records == RecordsOf(name, pages[..p], split)
    {
      var page := pages[p];
      var pieces := split(page.text);
      ghost var before := records;
      var idx := 0;
      while idx < |pieces|
        invariant 0 <= idx <= |pieces|
        invariant records == before + PageRecords(name, page, pieces[..idx])
      {
        assert PageRecords(name, page, pieces[..idx + 1])
            == PageRecords(name, page, pieces[..idx]) + [Record(name, page, pieces[idx], idx)];
        records := records + [Record(name, page, pieces[idx], idx)];
        idx := idx + 1;
      }
      assert pieces[..idx] == pieces;
      assert pages[..p + 1][..p] == pages[..p];
      p := p + 1;
    }
    assert pages[..p] == pages;
  }

  /** One record per piece the splitter returns; a page with no pieces adds none. */
  lemma {:induction false} RecordCount(name: string, pages: seq<Page>, split: string -> seq<string>)
    ensures |RecordsOf(name, pages, split)| == PieceCount(pages, split)
    decreases |pages|
  {
    if pages != [] {
      RecordCount(name, pages[..|pages| - 1], split);
    }
  }

  /** Every record is the `j`-th piece of some page, carrying that page's number,
      the file name as `source` and the id built from the stem, the page and `j`. */
  lemma {:induction false} RecordsProvenance(name: string, pages: seq<Page>, split: string -> seq<string>)
    ensures forall r :: r in RecordsOf(name, pages, split) ==>
              exists k, j :: 0 <= k < |pages| && 0 <= j < |split(pages[k].text)| &&
                             r == Record(name, pages[k], split(pages[k].text)[j], j)
    decreases |pages|
  {
    if pages != [] {
      var init := pages[..|pages| - 1];
      var k := |pages| - 1;
      var pieces := split(pages[k].text);
      RecordsProvenance(name, init, split);
      assert RecordsOf(name, pages, split) == RecordsOf(name, init, split) + PageRecords(name, pages[k], pieces);
      forall r | r in RecordsOf(name, pages, split)
        ensures exists k, j :: 0 <= k < |pages| && 0 <= j < |split(pages[k].text)| &&
                               r == Record(name, pages[k], split(pages[k].text)[j], j)
      {
        if r in RecordsOf(name, init, split) {
          var k', j :| 0 <= k' < |init| && 0 <= j < |split(init[k'].text)| &&
                       r == Record(name, init[k'], split(init[k'].text)[j], j);
          assert init[k'] == pages[k'];
        } else {
          assert r in PageRecords(name, pages[k], pieces);
          var j :| 0 <= j < |pieces| && r == PageRecords(name, pages[k], pieces)[j];
          assert r == Record(name, pages[k], pieces[j], j);
        }
      }
    }
  }

  /** Conversely, every piece of every page has its record. */
  lemma {:induction false} RecordsComplete(name: string, pages: seq<Page>, split: string -> seq<string>, k: nat, j: nat)
    requires k < |pages| && j < |split(pages[k].text)|
    ensures Record(name, pages[k], split(pages[k].text)[j], j) in RecordsOf(name, pages, split)
    decreases |pages|
  {
    var last := |pages| - 1;
    if k < last {
      RecordsComplete(name, pages[..last], split, k, j);
    } else {
      var pieces := split(pages[k].text);
      assert PageRecords(name, pages[k], pieces)[j] == Record(name, pages[k], pieces[j], j);
    }
  }

  predicate DistinctPageNumbers(pages: seq<Page>) {
    forall a, b :: 0 <= a < b < |pages| ==> pages[a].number != pages[b].number
  }

  predicate DistinctIds(rs: seq<Chunk>) {
    forall a, b :: 0 <= a < b < |rs| ==> rs[a].metadata.chunkId != rs[b].metadata.chunkId
  }

  /** Pages with distinct numbers give records with pairwise distinct `chunk_id`s. */
  lemma {:induction false} ChunkIdsDistinct(name: string, pages: seq<Page>, split: string -> seq<string>)
    requires DistinctPageNumbers(pages)
    ensures DistinctIds(RecordsOf(name, pages, split))
    decreases |pages|
  {
    if pages != [] {
      var init := pages[..|pages| - 1];
      var last := pages[|pages| - 1];
      var pieces := split(last.text);
      var front := RecordsOf(name, init, split);
      var back := PageRecords(name, last, pieces);
      var rs := front + back;
      var stem := Stem(name);
      ChunkIdsDistinct(name, init, split);
      RecordsProvenance(name, init, split);
      forall a, b | 0 <= a < b < |rs|
        ensures rs[a].metadata.chunkId != rs[b].metadata.chunkId
      {
        if b >= |front| {
          var jb := b - |front|;
          assert rs[b] == Record(name, last, pieces[jb], jb);
          if a >= |front| {
            var ja := a - |front|;
            assert rs[a] == Record(name, last, pieces[ja], ja);
            if rs[a].metadata.chunkId == rs[b].metadata.chunkId {
              ChunkIdInjective(stem, last.number, ja, stem, last.number, jb);
            }
          } else {
            assert rs[a] in front;
            var k, j :| 0 <= k < |init| && 0 <= j < |split(init[k].text)| &&
                        rs[a] == Record(name, init[k], split(init[k].text)[j], j);
            assert init[k].number != last.number;
            if rs[a].metadata.chunkId == rs[b].metadata.chunkId {
              ChunkIdInjective(stem, init[k].number, j, stem, last.number, jb);
            }
          }
        } else {
          assert rs[a] == front[a] && rs[b] == front[b];
          assert front[a].metadata.chunkId != front[b].metadata.chunkId;
        }
      }
    }
  }

  /** A file named `.pdf` has no suffix, so its stem is the whole name, the same stem
      as `.pdf.pdf`: the records of those two files get the same ids. */
  lemma DotPdfCollision(page: Page, piece: string, idx: nat)
    ensures Stem(".pdf") == ".pdf" && Stem(".pdf.pdf") == ".pdf"
    ensures Record(".pdf", page, piece, idx).metadata.chunkId ==
            Record(".pdf.pdf", page, piece, idx).metadata.chunkId
  {
    var s := ".pdf";
    assert s[0] == '.' && s[1] != '.' && s[2] != '.' && s[3] != '.';
    assert LastDot(s) == 0;
    StemOfPdf(".pdf");
  }

  /** Two documents `base1.pdf` and `base2.pdf` with different, non-empty base names
      never share a `chunk_id`, so the ids stay unique once those documents are indexed
      together. */
  lemma ChunkIdsDistinctAcrossDocuments(base1: string, pages1: seq<Page>, base2: string, pages2: seq<Page>,
                                        split: string -> seq<string>)
    requires base1 != [] && base2 != [] && base1 != base2
    ensures forall r1, r2 :: r1 in RecordsOf(base1 + ".pdf", pages1, split) &&
                             r2 in RecordsOf(base2 + ".pdf", pages2, split) ==>
                             r1.metadata.chunkId != r2.metadata.chunkId
  {
    var name1, name2 := base1 + ".pdf", base2 + ".pdf";
    RecordsProvenance(name1, pages1, split);
    RecordsProvenance(name2, pages2, split);
    StemOfPdf(base1);
    StemOfPdf(base2);
    forall r1, r2 | r1 in RecordsOf(name1, pages1, split) && r2 in RecordsOf(name2, pages2, split)
      ensures r1.metadata.chunkId != r2.metadata.chunkId
    {
      var k1, j1 :| 0 <= k1 < |pages1| && 0 <= j1 < |split(pages1[k1].text)| &&
                    r1 == Record(name1, pages1[k1], split(pages1[k1].text)[j1], j1);
      var k2, j2 :| 0 <= k2 < |pages2| && 0 <= j2 < |split(pages2[k2].text)| &&
                    r2 == Record(name2, pages2[k2], split(pages2[k2].text)[j2], j2);
      if r1.metadata.chunkId == r2.metadata.chunkId {
        ChunkIdInjective(base1, pages1[k1].number, j1, base2, pages2[k2].number, j2);
      }
    }
  }

  /** One document through `extract_and_save`: the merged pages, the saved full text
      and the chunk records, whose ids are pairwise distinct. */
  method ExtractDocument(name: string, digital: seq<Option<string>>, ocr: seq<string>,
                         split: string -> seq<string>)
    returns (fullText: string, records: seq<Chunk>)
    ensures fullText == FullText(Merged(digital, ocr))
    ensures records == RecordsOf(name, Merged(digital, ocr), split)
    ensures DistinctIds(records)
  {
    var merged := MergePages(digital, ocr);
    fullText := FullText(merged);
    records := BuildChunkRecords(name, merged, split);
    ChunkIdsDistinct(name, merged, split);
  }
}
