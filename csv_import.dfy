/** The row mapping and batch validation of the CSV question upload
    (routes/teacherRoutes.js, handler of POST /questions/upload-csv): every parsed
    row becomes one question draft, and the batch is refused as a whole when any
    draft has no question text. */
module CsvImport {
  import opened Common
  import opened JsText

  /** One parsed CSV line: header name to cell text. A header the file lacks is
      absent from the map. */
  type Row = map<string, string>

  /** `row[name]`, which is `undefined` for a missing column. */
  function Cell(row: Row, name: string): Option<string>
  {
    if name in row then Some(row[name]) else None
  }

  /** The header of the i-th option column, "Option 1" to "Option 5". */
  function OptionHeader(i: nat): string
    requires 1 <= i <= 5
  {
    "Option " + [DigitChar(i)]
  }

  /** The question object the upload builds from one row (before it is inserted). */
  datatype QuestionDraft = QuestionDraft(
    questionText: string,
    questionType: string,
    options: seq<string>,
    correctAnswer: Option<string>,
    subject: Option<string>,
    isActive: bool,
    timeLimit: int,
    imageLink: string,
    answerExplanation: string,
    createdBy: Id)

  datatype ImportError = MissingQuestionText  // 400 'CSV contains questions with missing Question Text.'

  // ------------------------------------------------------------ options

  /** The trimmed text of option column i, when the column is present and not blank. */
  function OptionCell(row: Row, i: nat): Option<string>
    requires 1 <= i <= 5
  {
    var c := Cell(row, OptionHeader(i));
    if c.Some? && Trim(c.value) != "" then Some(Trim(c.value)) else None
  }

  /** The options found in columns 1 to n, in column order, blanks skipped. */
  function OptionsUpTo(row: Row, n: nat): seq<string>
    requires n <= 5
  {
    if n == 0 then []
    else OptionsUpTo(row, n - 1) + (if OptionCell(row, n).Some? then [OptionCell(row, n).value] else [])
  }

  /** The loop over the five option columns. */
  method CompactOptions(row: Row) returns (options: seq<string>)
    ensures options == OptionsUpTo(row, 5)
  {
    options := [];
    var i := 1;
    while i <= 5
      invariant 1 <= i <= 6
      invariant options == OptionsUpTo(row, i - 1)
    {
      var c := Cell(row, OptionHeader(i));
      if c.Some? && Trim(c.value) != "" {
        options := options + [Trim(c.value)];
      }
      i := i + 1;
    }
  }

  /** At most one option per column; none is empty or has surrounding white
      space; each is the trimmed text of one of the option columns. */
  lemma {:induction false} OptionsAreCompacted(row: Row, n: nat)
    requires n <= 5
    ensures |OptionsUpTo(row, n)| <= n
    ensures forall o :: o in OptionsUpTo(row, n) ==> o != "" && Trim(o) == o
    ensures forall o :: o in OptionsUpTo(row, n) ==> exists i :: 1 <= i <= n && OptionCell(row, i) == Some(o)
    ensures forall i :: 1 <= i <= n && OptionCell(row, i).Some? ==> OptionCell(row, i).value in OptionsUpTo(row, n)
  {
    ColumnsAreKept(row, n);
    if n > 0 {
      OptionsAreCompacted(row, n - 1);
      var c := OptionCell(row, n);
      if c.Some? {
        TrimIdempotent(Cell(row, OptionHeader(n)).value);
      }
    }
  }

  /** Every non-blank option column among the first n is kept. */
  lemma {:induction false} ColumnsAreKept(row: Row, n: nat)
    requires n <= 5
    ensures forall i :: 1 <= i <= n && OptionCell(row, i).Some? ==> OptionCell(row, i).value in OptionsUpTo(row, n)
  {
    if n > 0 {
      ColumnsAreKept(row, n - 1);
      var before := OptionsUpTo(row, n - 1);
      var tail := if OptionCell(row, n).Some? then [OptionCell(row, n).value] else [];
      assert OptionsUpTo(row, n) == before + tail;
      forall i | 1 <= i < n && OptionCell(row, i).Some?
        ensures OptionCell(row, i).value in OptionsUpTo(row, n)
      {
        assert OptionCell(row, i).value in before;
      }
    }
  }

  /** With every option column filled, option k is the trimmed column k + 1. */
  lemma {:induction false} FullRowKeepsColumns(row: Row, n: nat)
    requires n <= 5
    requires forall i :: 1 <= i <= n ==> OptionCell(row, i).Some?
    ensures |OptionsUpTo(row, n)| == n
    ensures forall k :: 0 <= k < n ==> OptionsUpTo(row, n)[k] == OptionCell(row, k + 1).value
  {
    if n > 0 {
      FullRowKeepsColumns(row, n - 1);
    }
  }

  // ------------------------------------------------------------ other fields

  /** "Correct Answer" is a 1-based position in the compacted option list. */
  function CorrectAnswer(cell: Option<string>, options: seq<string>): (r: Option<string>)
    ensures r.Some? ==> r.value in options
    ensures r.Some? <==> Truthy(cell) && ParseInt(cell.value).Some? && 1 <= ParseInt(cell.value).value <= |options|
    ensures r.Some? ==> r.value == options[ParseInt(cell.value).value - 1]
  {
    if Truthy(cell) && ParseInt(cell.value).Some? then
      var k := ParseInt(cell.value).value - 1;
      if 0 <= k < |options| then Some(options[k]) else None
    else None
  }

  /** "Is Active": yes unless the cell, trimmed and lower-cased, says something
      other than "yes" or "true"; a missing or empty cell means yes. */
  function ParseIsActive(cell: Option<string>): (b: bool)
    ensures !Truthy(cell) ==> b
    ensures Truthy(cell) && AllWhite(cell.value) ==> !b
    ensures Truthy(cell) ==> (b <==> YesOrTrue(Trim(cell.value)))
  {
    if Truthy(cell) then
      TrimEmptyIffAllWhite(cell.value);
      LowerIsYesOrTrue(Trim(cell.value));
      var v := ToLower(Trim(cell.value));
      v == "yes" || v == "true"
    else true
  }

  /** "Time in seconds": the integer the cell starts with, or 30. */
  function ParseTimeLimit(cell: Option<string>): (n: int)
    ensures !Truthy(cell) || ParseInt(cell.value).None? ==> n == 30
    ensures Truthy(cell) && ParseInt(cell.value).Some? ==> n == ParseInt(cell.value).value
    ensures n != 30 ==> Truthy(cell) && ParseInt(cell.value) == Some(n)
  {
    if Truthy(cell) && ParseInt(cell.value).Some? then ParseInt(cell.value).value else 30
  }

  /** A text column: trimmed when present and not empty, the default otherwise. */
  function TextCell(cell: Option<string>, default: string): string
  {
    if Truthy(cell) then Trim(cell.value) else default
  }

  /** The draft built from one row. */
  function RowToDraft(row: Row, uploader: Id): (q: QuestionDraft)
    ensures q.createdBy == uploader
    ensures q.options == OptionsUpTo(row, 5)
    ensures Truthy(Cell(row, "Question Text")) ==> q.questionText == Trim(row["Question Text"])
    ensures q.correctAnswer == CorrectAnswer(Cell(row, "Correct Answer"), q.options)
    ensures q.correctAnswer.Some? ==> q.correctAnswer.value in q.options
    ensures q.isActive == ParseIsActive(Cell(row, "Is Active"))
    ensures q.timeLimit == ParseTimeLimit(Cell(row, "Time in seconds"))
  {
    var options := OptionsUpTo(row, 5);
    var subject := Cell(row, "Subject");
    QuestionDraft(
      TextCell(Cell(row, "Question Text"), ""),
      TextCell(Cell(row, "Question Type"), "Multiple Choice"),
      options,
      CorrectAnswer(Cell(row, "Correct Answer"), options),
      if Truthy(subject) then Some(Trim(subject.value)) else None,
      ParseIsActive(Cell(row, "Is Active")),
      ParseTimeLimit(Cell(row, "Time in seconds")),
      TextCell(Cell(row, "Image Link"), ""),
      TextCell(Cell(row, "Answer explanation"), ""),
      uploader)
  }

  /** The per-row callback of `results.map`. */
  method BuildQuestion(row: Row, uploader: Id) returns (q: QuestionDraft)
    ensures q == RowToDraft(row, uploader)
  {
    var options := CompactOptions(row);
    var subject := Cell(row, "Subject");
    q := QuestionDraft(
      TextCell(Cell(row, "Question Text"), ""),
      TextCell(Cell(row, "Question Type"), "Multiple Choice"),
      options,
      CorrectAnswer(Cell(row, "Correct Answer"), options),
      if Truthy(subject) then Some(Trim(subject.value)) else None,
      ParseIsActive(Cell(row, "Is Active")),
      ParseTimeLimit(Cell(row, "Time in seconds")),
      TextCell(Cell(row, "Image Link"), ""),
      TextCell(Cell(row, "Answer explanation"), ""),
      uploader);
  }

  // ------------------------------------------------------------ properties of a draft

  /** The fields of a draft, as the upload promises them. */
  lemma DraftFields(row: Row, uploader: Id)
    ensures var q := RowToDraft(row, uploader);
      && q.createdBy == uploader
      && |q.options| <= 5
      && (forall o :: o in q.options ==> o != "" && Trim(o) == o)
      && (q.correctAnswer.Some? ==> q.correctAnswer.value in q.options)
      && Trim(q.questionText) == q.questionText
      && ("Question Text" in row && row["Question Text"] != "" ==> q.questionText == Trim(row["Question Text"]))
      && ("Question Type" !in row || row["Question Type"] == "" ==> q.questionType == "Multiple Choice")
      && ("Question Type" in row && row["Question Type"] != "" ==> q.questionType == Trim(row["Question Type"]))
      && (q.subject.Some? <==> "Subject" in row && row["Subject"] != "")
      && (q.subject.Some? ==> q.subject.value == Trim(row["Subject"]))
      && ("Image Link" in row && row["Image Link"] != "" ==> q.imageLink == Trim(row["Image Link"]))
      && ("Image Link" !in row || row["Image Link"] == "" ==> q.imageLink == "")
      && ("Answer explanation" in row && row["Answer explanation"] != "" ==> q.answerExplanation == Trim(row["Answer explanation"]))
      && ("Answer explanation" !in row || row["Answer explanation"] == "" ==> q.answerExplanation == "")
  {
    OptionsAreCompacted(row, 5);
    var c := Cell(row, "Question Text");
    if Truthy(c) {
      TrimIdempotent(c.value);
    }
  }

  /** A row is refused exactly when its question text is missing or blank. */
  lemma TextMissingIffBlank(row: Row, uploader: Id)
    ensures RowToDraft(row, uploader).questionText == ""
            <==> "Question Text" !in row || AllWhite(row["Question Text"])
  {
    if "Question Text" in row {
      TrimEmptyIffAllWhite(row["Question Text"]);
    }
  }

  /** A missing or empty "Is Active" means active; otherwise the trimmed,
      lower-cased text decides, so " TRUE " counts as active and "no" or a blank
      cell does not. */
  lemma IsActiveDefaults()
    ensures ParseIsActive(None) && ParseIsActive(Some(""))
    ensures ParseIsActive(Some(" TRUE "))
    ensures !ParseIsActive(Some("no")) && !ParseIsActive(Some("  "))
  {
    TrimPaddedTrue();
    assert ToLower("TRUE") == "true";
    assert Trim("no") == "no" by { TrimmedIsFixed("no"); }
    assert ToLower("no") != "yes" by { assert |ToLower("no")| == 2; }
    assert Trim("  ") == "" by { TrimEmptyIffAllWhite("  "); }
  }

  lemma TrimPaddedTrue()
    ensures Trim(" TRUE ") == "TRUE"
  {
    assert " TRUE "[1..] == "TRUE ";
    assert TrimStart("TRUE ") == "TRUE ";
    assert "TRUE "[..4] == "TRUE";
    assert TrimEnd("TRUE") == "TRUE";
  }

  /** A time limit written in decimal is read back; anything without a leading
      number falls back to 30 seconds. */
  lemma TimeLimitReadsDecimal(n: int)
    ensures ParseTimeLimit(Some(IntString(n))) == n
    ensures ParseTimeLimit(None) == 30 && ParseTimeLimit(Some("")) == 30
  {
    ParseIntReadsDecimal("", n, "");
    assert "" + IntString(n) + "" == IntString(n);
    assert IntString(n) != "";
  }

  /** The answer position counts in the compacted list: with "Option 1" blank,
      "Correct Answer" 1 names the text of "Option 2". */
  lemma CorrectAnswerSkipsBlankColumns()
    ensures var row := map["Option 1" := " ", "Option 2" := "B", "Correct Answer" := "1"];
            RowToDraft(row, 0).correctAnswer == Some("B")
  {
    var row := map["Option 1" := " ", "Option 2" := "B", "Correct Answer" := "1"];
    BlankFirstColumnIsSkipped(row);
    ParseIntReadsDecimal("", 1, "");
    assert "" + IntString(1) + "" == "1";
    assert CorrectAnswer(Cell(row, "Correct Answer"), ["B"]) == Some("B");
  }

  lemma BlankFirstColumnIsSkipped(row: Row)
    requires row == map["Option 1" := " ", "Option 2" := "B", "Correct Answer" := "1"]
    ensures OptionsUpTo(row, 5) == ["B"]
  {
    assert OptionHeader(1) == "Option 1" && OptionHeader(2) == "Option 2";
    assert OptionHeader(3) == "Option 3" && OptionHeader(4) == "Option 4" && OptionHeader(5) == "Option 5";
    assert Trim(" ") == "" by { TrimEmptyIffAllWhite(" "); }
    assert Trim("B") == "B" by { TrimmedIsFixed("B"); }
    assert OptionsUpTo(row, 1) == [];
    assert OptionsUpTo(row, 2) == ["B"];
    assert "Option 3" !in row && "Option 4" !in row && "Option 5" !in row;
    assert OptionsUpTo(row, 3) == ["B"];
    assert OptionsUpTo(row, 4) == ["B"];
  }

  // ------------------------------------------------------------ the batch

  /** The drafts of `rows`, one per row, in row order. */
  function Drafts(rows: seq<Row>, uploader: Id): (r: seq<QuestionDraft>)
    ensures |r| == |rows|
  {
    if rows == [] then [] else Drafts(rows[..|rows| - 1], uploader) + [RowToDraft(rows[|rows| - 1], uploader)]
  }

  lemma {:induction false} DraftsAreRowwise(rows: seq<Row>, uploader: Id)
    ensures forall k :: 0 <= k < |rows| ==> Drafts(rows, uploader)[k] == RowToDraft(rows[k], uploader)
  {
    if rows != [] {
      var init := rows[..|rows| - 1];
      DraftsAreRowwise(init, uploader);
      forall k | 0 <= k < |rows| ensures Drafts(rows, uploader)[k] == RowToDraft(rows[k], uploader) {
        if k < |init| {
          assert init[k] == rows[k];
        }
      }
    }
  }

  /** `results.map(row => ...)`: one draft per row, in row order. */
  method BuildQuestions(rows: seq<Row>, uploader: Id) returns (drafts: seq<QuestionDraft>)
    ensures drafts == Drafts(rows, uploader)
  {
    drafts := [];
    for i := 0 to |rows|
      invariant drafts == Drafts(rows[..i], uploader)
    {
      var q := BuildQuestion(rows[i], uploader);
      assert rows[..i + 1][..i] == rows[..i];
      drafts := drafts + [q];
    }
    assert rows[..|rows|] == rows;
  }

  /** The whole upload: one draft per row in row order, or a refusal of the whole
      batch when any draft lacks its question text. */
  method ImportRows(rows: seq<Row>, uploader: Id) returns (r: Result<seq<QuestionDraft>, ImportError>)
    ensures r.Ok? <==> forall i :: 0 <= i < |rows| ==> RowToDraft(rows[i], uploader).questionText != ""
    ensures r.Ok? ==> |r.value| == |rows| && forall i :: 0 <= i < |rows| ==> r.value[i] == RowToDraft(rows[i], uploader)
    ensures r.Err? ==> r.error == MissingQuestionText
  {
    var drafts := BuildQuestions(rows, uploader);
    DraftsAreRowwise(rows, uploader);
    if exists k :: 0 <= k < |drafts| && drafts[k].questionText == "" {
      return Err(MissingQuestionText);
    }
    r := Ok(drafts);
  }
}
