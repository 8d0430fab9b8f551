/** Selection and budgeted extraction of previous-year papers
    (`generateMcqQuestions` lines 61-72 and `extractContentFromPreviousPapers`
    in service/McqGenerationService.java). Reading a PDF or text file is the
    abstract `Extractor`: None stands for an extraction that threw. */
module ReferenceContext {
  import opened Wrappers
  import opened JavaString
  import opened Entities
  import Streams

  const PAPER_PREFIX := "previous-year-paper"
  const PER_DOCUMENT_LIMIT := 2000
  const TRUNCATED_MARKER := "... (truncated)"
  const MAX_CONTENT_LENGTH := 10000
  const OMITTED_MARKER := "... (additional papers truncated due to length)"
  /** The longest text one document can contribute: 2000 + 15. */
  const MAX_CLIPPED := PER_DOCUMENT_LIMIT + |TRUNCATED_MARKER|

  datatype FileKind = Pdf | Txt

  /** Text extraction from the file at a path, by kind; None when it throws. */
  type Extractor = (string, FileKind) -> Option<string>

  predicate IsPreviousYearPaper(m: StudyMaterial) {
    m.fileName.Some? && StartsWith(m.fileName.value, PAPER_PREFIX)
  }

  /** The course's materials whose file name carries the paper prefix, in
      listing order. */
  function PreviousYearPapers(materials: seq<StudyMaterial>): (r: seq<StudyMaterial>)
    ensures forall i :: 0 <= i < |r| ==> r[i] in materials && IsPreviousYearPaper(r[i])
    ensures forall i :: 0 <= i < |materials| && IsPreviousYearPaper(materials[i]) ==> materials[i] in r
  {
    Streams.Filter(materials, IsPreviousYearPaper)
  }

  /** The selection keeps listing order: it distributes over concatenation. */
  lemma PapersKeepListingOrder(a: seq<StudyMaterial>, b: seq<StudyMaterial>)
    ensures PreviousYearPapers(a + b) == PreviousYearPapers(a) + PreviousYearPapers(b)
  {
    Streams.FilterAppend(a, b, IsPreviousYearPaper);
  }

  /** The extractor a declared file type selects after lowercasing; a null
      type (whose `toLowerCase` throws inside the loop's try block), "docx"
      and every other type select none. */
  function FileKindOf(fileType: Option<string>): (r: Option<FileKind>)
    ensures r == Some(Pdf) <==> fileType.Some? && ToLower(fileType.value) == "pdf"
    ensures r == Some(Txt) <==> fileType.Some? && ToLower(fileType.value) == "txt"
  {
    if fileType.None? then None
    else
      var t := ToLower(fileType.value);
      if t == "pdf" then Some(Pdf)
      else if t == "txt" then Some(Txt)
      else if t == "docx" then None
      else None
  }

  /** The per-document budget: more than 2000 characters keep their first
      2000 plus the truncation marker. */
  function Clip(text: string): (r: string)
    ensures |r| <= MAX_CLIPPED
    ensures |text| <= PER_DOCUMENT_LIMIT ==> r == text
    ensures |text| > PER_DOCUMENT_LIMIT ==>
      |r| == MAX_CLIPPED && StartsWith(r, text[..PER_DOCUMENT_LIMIT]) && EndsWith(r, TRUNCATED_MARKER)
  {
    if |text| > PER_DOCUMENT_LIMIT then
      var r := text[..PER_DOCUMENT_LIMIT] + TRUNCATED_MARKER;
      assert r[..PER_DOCUMENT_LIMIT] == text[..PER_DOCUMENT_LIMIT];
      r
    else text
  }

  /** A document that made it into the context: its file name and its
      clipped text. */
  datatype Piece = Piece(name: Option<string>, text: string)

  /** What one document contributes to the context, or None when it is
      skipped (an unsupported or null type, or an extraction that threw). */
  function Contribution(m: StudyMaterial, extract: Extractor): (r: Option<Piece>)
    ensures r.None? <==> FileKindOf(m.fileType).None? || extract(m.filePath, FileKindOf(m.fileType).value).None?
    ensures r.Some? ==> (r.value.name == m.fileName
      && r.value.text == Clip(extract(m.filePath, FileKindOf(m.fileType).value).value))
  {
    match FileKindOf(m.fileType)
    case None => None
    case Some(kind) =>
      match extract(m.filePath, kind)
      case None => None
      case Some(text) => Some(Piece(m.fileName, Clip(text)))
  }

  /** The loop body of `extractContentFromPreviousPapers` applied to every
      document, before the global budget is looked at. */
  function Contributions(ms: seq<StudyMaterial>, extract: Extractor): (r: seq<Option<Piece>>)
    ensures |r| == |ms|
    ensures forall i :: 0 <= i < |ms| ==> r[i] == Contribution(ms[i], extract)
  {
    seq(|ms|, i requires 0 <= i < |ms| => Contribution(ms[i], extract))
  }

  /** The labelled block a contributing document appends. */
  function Block(p: Piece): string {
    "=== " + StringOf(p.name) + " ===\n" + p.text + "\n\n"
  }

  /** The blocks of every contributing document, with no global budget. */
  function Blocks(ps: seq<Option<Piece>>): string {
    if |ps| == 0 then ""
    else if ps[0].None? then Blocks(ps[1..])
    else Block(ps[0].value) + Blocks(ps[1..])
  }

  /** The characters of document text (headers excluded) counted against the
      global budget, with no global budget applied. */
  function Counted(ps: seq<Option<Piece>>): nat {
    if |ps| == 0 then 0
    else if ps[0].None? then Counted(ps[1..])
    else |ps[0].value.text| + Counted(ps[1..])
  }

  /** The aggregation's state: the text built so far and the running total. */
  datatype Context = Context(content: string, total: nat)

  lemma EndsWithAfterPrefix(a: string, b: string, p: string)
    requires EndsWith(b, p)
    ensures EndsWith(a + b, p)
  {
    assert (a + b)[|a + b| - |p|..] == b[|b| - |p|..];
  }

  /** Text ending in a newline cannot end with the omission marker. */
  lemma NewlineEndIsNotMarker(s: string)
    requires |s| > 0 && s[|s| - 1] == '\n'
    ensures !EndsWith(s, OMITTED_MARKER)
  {
    assert OMITTED_MARKER[|OMITTED_MARKER| - 1] == ')';
    if |OMITTED_MARKER| <= |s| {
      assert s[|s| - |OMITTED_MARKER|..][|OMITTED_MARKER| - 1] == '\n';
    }
  }

  /** The loop of `extractContentFromPreviousPapers` from a running total
      below the global budget: processing stops right after the document
      that brings the total to 10000 or more, and only then is the omission
      marker appended. */
  function AggregateFrom(ps: seq<Option<Piece>>, total: nat): (r: Context)
    requires total < MAX_CONTENT_LENGTH
    ensures total <= r.total
  {
    if |ps| == 0 then Context("", total)
    else if ps[0].None? then AggregateFrom(ps[1..], total)
    else
      var block := Block(ps[0].value);
      var newTotal := total + |ps[0].value.text|;
      if newTotal >= MAX_CONTENT_LENGTH then Context(block + OMITTED_MARKER, newTotal)
      else
        var rest := AggregateFrom(ps[1..], newTotal);
        Context(block + rest.content, rest.total)
  }

  /** The pieces documents can contribute: clipped texts. */
  predicate Clipped(ps: seq<Option<Piece>>) {
    forall i :: 0 <= i < |ps| && ps[i].Some? ==> |ps[i].value.text| <= MAX_CLIPPED
  }

  /** Stopping right after the document that reaches the budget keeps the
      total below 10000 + 2015. */
  lemma {:induction false} AggregateTotalBound(ps: seq<Option<Piece>>, total: nat)
    requires total < MAX_CONTENT_LENGTH && Clipped(ps)
    ensures AggregateFrom(ps, total).total < MAX_CONTENT_LENGTH + MAX_CLIPPED
  {
    if |ps| > 0 {
      assert Clipped(ps[1..]);
      if ps[0].None? {
        AggregateTotalBound(ps[1..], total);
      } else if total + |ps[0].value.text| < MAX_CONTENT_LENGTH {
        AggregateTotalBound(ps[1..], total + |ps[0].value.text|);
      }
    }
  }

  /** `extractContentFromPreviousPapers`. */
  function ExtractContentFromPreviousPapers(papers: seq<StudyMaterial>, extract: Extractor): string {
    AggregateFrom(Contributions(papers, extract), 0).content
  }

  /** A block always ends with a newline. */
  lemma BlockEndsWithNewline(p: Piece)
    ensures var b := Block(p); |b| > 0 && b[|b| - 1] == '\n'
  {
  }

  /** Putting a newline-terminated block in front of aggregated content
      keeps whether it ends with the omission marker, and otherwise keeps a
      newline at the end. */
  lemma PrefixKeepsEnding(block: string, content: string, over: bool)
    requires |block| > 0 && block[|block| - 1] == '\n'
    requires over <==> EndsWith(content, OMITTED_MARKER)
    requires !over ==> (content == "" || (|content| > 0 && content[|content| - 1] == '\n'))
    ensures over <==> EndsWith(block + content, OMITTED_MARKER)
    ensures !over ==> |block + content| > 0 && (block + content)[|block + content| - 1] == '\n'
  {
    var joined := block + content;
    if over {
      EndsWithAfterPrefix(block, content, OMITTED_MARKER);
    } else {
      assert joined[|joined| - 1] == '\n';
      NewlineEndIsNotMarker(joined);
    }
  }

  /** The omission marker ends the content exactly when the budget was
      reached; otherwise the content is empty or ends with a block's
      newline. */
  lemma {:induction false} AggregateMarksOmission(ps: seq<Option<Piece>>, total: nat)
    requires total < MAX_CONTENT_LENGTH
    ensures var r := AggregateFrom(ps, total);
      r.total >= MAX_CONTENT_LENGTH <==> EndsWith(r.content, OMITTED_MARKER)
    ensures var r := AggregateFrom(ps, total);
      r.total < MAX_CONTENT_LENGTH ==> (r.content == "" || (|r.content| > 0 && r.content[|r.content| - 1] == '\n'))
  {
    if |ps| > 0 {
      if ps[0].None? {
        AggregateMarksOmission(ps[1..], total);
      } else {
        var block := Block(ps[0].value);
        var newTotal := total + |ps[0].value.text|;
        if newTotal >= MAX_CONTENT_LENGTH {
          EndsWithAfterPrefix(block, OMITTED_MARKER, OMITTED_MARKER);
        } else {
          AggregateMarksOmission(ps[1..], newTotal);
          var rest := AggregateFrom(ps[1..], newTotal);
          BlockEndsWithNewline(ps[0].value);
          PrefixKeepsEnding(block, rest.content, rest.total >= MAX_CONTENT_LENGTH);
        }
      }
    }
  }

  /** Under the global budget every contributing document's block is kept,
      in order, and nothing else is added. */
  lemma {:induction false} AggregateWithinBudget(ps: seq<Option<Piece>>, total: nat)
    requires total + Counted(ps) < MAX_CONTENT_LENGTH
    ensures AggregateFrom(ps, total).content == Blocks(ps)
    ensures AggregateFrom(ps, total).total == total + Counted(ps)
  {
    if |ps| > 0 {
      if ps[0].None? {
        AggregateWithinBudget(ps[1..], total);
      } else {
        AggregateWithinBudget(ps[1..], total + |ps[0].value.text|);
      }
    }
  }

  /** The blocks and the count of a non-empty prefix, split at its first
      element. */
  lemma PrefixStep(ps: seq<Option<Piece>>, k: nat)
    requires 1 <= k <= |ps|
    ensures ps[0].None? ==> Blocks(ps[..k]) == Blocks(ps[1..][..k - 1]) && Counted(ps[..k]) == Counted(ps[1..][..k - 1])
    ensures ps[0].Some? ==> Blocks(ps[..k]) == Block(ps[0].value) + Blocks(ps[1..][..k - 1])
    ensures ps[0].Some? ==> Counted(ps[..k]) == |ps[0].value.text| + Counted(ps[1..][..k - 1])
  {
    var head := ps[..k];
    assert head[0] == ps[0];
    assert head[1..] == ps[1..][..k - 1];
  }

  lemma PrependBlock(block: string, rest: string, before: string, marker: string)
    requires rest == before + marker
    ensures block + rest == (block + before) + marker
  {
  }

  /** The first document alone reaches the budget. */
  lemma StopsAtFirst(ps: seq<Option<Piece>>, total: nat)
    requires 1 <= |ps| && total < MAX_CONTENT_LENGTH
    requires total + Counted(ps[..1]) >= MAX_CONTENT_LENGTH
    ensures AggregateFrom(ps, total).content == Blocks(ps[..1]) + OMITTED_MARKER
    ensures AggregateFrom(ps, total).total == total + Counted(ps[..1])
  {
    PrefixStep(ps, 1);
    assert ps[1..][..0] == [];
    assert Blocks(ps[..1]) == Block(ps[0].value) + "";
  }

  /** When the k-th document is the first to bring the total to the budget,
      the running total is the count of the first k documents. */
  lemma {:induction false} AggregateTotalAtBudget(ps: seq<Option<Piece>>, total: nat, k: nat)
    requires 1 <= k <= |ps|
    requires total + Counted(ps[..k - 1]) < MAX_CONTENT_LENGTH
    requires total + Counted(ps[..k]) >= MAX_CONTENT_LENGTH
    ensures AggregateFrom(ps, total).total == total + Counted(ps[..k])
  {
    if k == 1 {
      assert ps[..0] == [];
      StopsAtFirst(ps, total);
    } else {
      PrefixStep(ps, k);
      PrefixStep(ps, k - 1);
      var next := if ps[0].None? then total else total + |ps[0].value.text|;
      AggregateTotalAtBudget(ps[1..], next, k - 1);
    }
  }

  /** When the k-th document is the first to bring the total to the budget,
      the content is the blocks of the first k documents followed by exactly
      one omission marker, and the running total is their count. */
  lemma {:induction false} AggregateStopsAtBudget(ps: seq<Option<Piece>>, total: nat, k: nat)
    requires 1 <= k <= |ps|
    requires total + Counted(ps[..k - 1]) < MAX_CONTENT_LENGTH
    requires total + Counted(ps[..k]) >= MAX_CONTENT_LENGTH
    ensures AggregateFrom(ps, total).content == Blocks(ps[..k]) + OMITTED_MARKER
    ensures AggregateFrom(ps, total).total == total + Counted(ps[..k])
  {
    AggregateTotalAtBudget(ps, total, k);
    if k == 1 {
      assert ps[..0] == [];
      StopsAtFirst(ps, total);
    } else {
      PrefixStep(ps, k);
      PrefixStep(ps, k - 1);
      var next := if ps[0].None? then total else total + |ps[0].value.text|;
      AggregateStopsAtBudget(ps[1..], next, k - 1);
      if ps[0].Some? {
        var rest := AggregateFrom(ps[1..], next);
        PrependBlock(Block(ps[0].value), rest.content, Blocks(ps[1..][..k - 1]), OMITTED_MARKER);
      }
    }
  }

  /** Every document's contribution is clipped. */
  lemma ContributionsClipped(ms: seq<StudyMaterial>, extract: Extractor)
    ensures Clipped(Contributions(ms, extract))
  {
  }

  /** A skipped document (unsupported or null type, failed extraction) adds
      nothing at all. */
  lemma SkippedDocumentAddsNothing(m: StudyMaterial, rest: seq<StudyMaterial>, extract: Extractor)
    requires Contribution(m, extract).None?
    ensures ExtractContentFromPreviousPapers([m] + rest, extract) == ExtractContentFromPreviousPapers(rest, extract)
  {
    assert Contributions([m] + rest, extract)[1..] == Contributions(rest, extract);
  }

  /** A supported document whose extracted text is empty still adds its
      header and separator. */
  lemma EmptyTextKeepsHeader(m: StudyMaterial, extract: Extractor)
    requires FileKindOf(m.fileType).Some?
    requires extract(m.filePath, FileKindOf(m.fileType).value) == Some("")
    ensures ExtractContentFromPreviousPapers([m], extract) == "=== " + StringOf(m.fileName) + " ===\n\n\n"
  {
    var ps := Contributions([m], extract);
    assert ps == [Some(Piece(m.fileName, ""))];
    assert ps[1..] == [];
    assert AggregateFrom(ps[1..], 0) == Context("", 0);
    assert AggregateFrom(ps, 0).content == Block(Piece(m.fileName, "")) + "";
    var n := StringOf(m.fileName);
    assert Block(Piece(m.fileName, "")) == "=== " + n + " ===\n" + "" + "\n\n";
    assert "=== " + n + " ===\n" + "" + "\n\n" == "=== " + n + " ===\n\n\n";
  }
}
