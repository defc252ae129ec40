/** The import dialog: page navigation, the two-phase save (first the
    question grid, then the answer grid), the deck lookup and the grid-size
    spinboxes. The widgets are reduced to the values and enabled flags the
    dialog sets on them. */
module Dialog {
  import opened Wrappers
  import opened Geometry
  import opened RectItem
  import opened Worker

  /** An entry of the collection's deck list. */
  datatype Deck = Deck(name: string, id: int)

  /** A captured grid: the page it was drawn on and its sections. */
  datatype Selection = Selection(page: int, sections: seq<seq<Rect>>)

  /** What a completed save hands to the card writer: the question grid,
      the answer grid and the chosen deck (None when no deck matched). */
  datatype SaveJob = SaveJob(questions: Selection, answers: Selection, deck: Option<Deck>)

  const ChooseQuestions: string := "Choose Questions"
  const ChooseAnswers: string := "Choose Answers for selected Questions"

  /** The page scene: 870 x 1100 at the origin. */
  const SceneRect: Rect := Rect(0.0, 0.0, 870.0, 1100.0)

  // ---------------------------------------------------------------------
  // Deck lookup
  // ---------------------------------------------------------------------

  /** The first deck called name, or None. */
  function FindDeck(decks: seq<Deck>, name: string): Option<Deck> {
    if |decks| == 0 then None
    else if decks[0].name == name then Some(decks[0])
    else FindDeck(decks[1..], name)
  }

  /** The lookup finds the first deck whose name matches, and finds none
      exactly when no deck has that name. */
  lemma {:induction false} FindDeckIsFirstMatch(decks: seq<Deck>, name: string)
    ensures FindDeck(decks, name).Some? ==>
      exists k :: 0 <= k < |decks| && decks[k] == FindDeck(decks, name).value &&
        decks[k].name == name && forall k' :: 0 <= k' < k ==> decks[k'].name != name
    ensures FindDeck(decks, name).None? <==> forall k :: 0 <= k < |decks| ==> decks[k].name != name
    decreases |decks|
  {
    if |decks| > 0 && decks[0].name != name {
      var rest := decks[1..];
      FindDeckIsFirstMatch(rest, name);
      if FindDeck(rest, name).Some? {
        var k :| 0 <= k < |rest| && rest[k] == FindDeck(rest, name).value &&
          rest[k].name == name && forall k' :: 0 <= k' < k ==> rest[k'].name != name;
        assert decks[k + 1] == rest[k];
        assert forall k' :: 0 <= k' < k + 1 ==> decks[k'].name != name by {
          forall k' | 0 <= k' < k + 1 ensures decks[k'].name != name {
            if k' > 0 {
              assert decks[k'] == rest[k' - 1];
            }
          }
        }
      } else {
        forall k | 0 <= k < |decks| ensures decks[k].name != name {
          if k > 0 {
            assert decks[k] == rest[k - 1];
          }
        }
      }
    }
  }

  // ---------------------------------------------------------------------
  // Page wrap
  // ---------------------------------------------------------------------

  /** The page pagechange settles on for a request i among n pages. */
  function WrappedPage(i: int, n: nat): int {
    if i < 0 then n - 1 else if i >= n then 0 else i
  }

  /** With at least one page the result is a page index, and a request
      that already is one is kept. */
  lemma WrappedPageInRange(i: int, n: nat)
    requires n > 0
    ensures 0 <= WrappedPage(i, n) < n
    ensures 0 <= i < n ==> WrappedPage(i, n) == i
  {
  }

  /** The next and previous buttons step through the pages cyclically:
      from page p they reach p + 1 and p - 1 modulo the page count. */
  lemma NextPrevAreCyclic(p: int, n: nat)
    requires 0 <= p < n
    ensures WrappedPage(p + 1, n) == (p + 1) % n
    ensures WrappedPage(p - 1, n) == (p - 1) % n
  {
    if p + 1 == n {
      assert (p + 1) % n == 0;
    }
    if p == 0 {
      assert (p - 1) % n == n - 1;
    }
  }

  /** Wrapping a wrapped page changes nothing. */
  lemma WrappedPageIdempotent(i: int, n: nat)
    requires n > 0
    ensures WrappedPage(WrappedPage(i, n), n) == WrappedPage(i, n)
  {
  }

  /** Without pages, a backward request gives -1 and any other 0. */
  lemma WrappedPageEmpty(i: int)
    ensures WrappedPage(i, 0) == if i < 0 then -1 else 0
  {
  }

  /** Both grids have rows rows of columns cells. */
  predicate GridShape(s: seq<seq<Rect>>, rows: int, columns: int) {
    |s| == rows && forall j :: 0 <= j < |s| ==> |s[j]| == columns
  }

  /** The boxes cut from a job's two grids can be paired card by card: the
      question and answer grids of a job have the same shape, so the crops
      have too, and there is one card per question cell. */
  lemma JobBoxesPairable(job: SaveJob, rows: int, columns: int,
                         qImage: PageImage, aImage: PageImage, qBoxes: seq<seq<Rect>>, aBoxes: seq<seq<Rect>>)
    requires GridShape(job.questions.sections, rows, columns) && GridShape(job.answers.sections, rows, columns)
    requires IsBoxes(qBoxes, qImage, job.questions.sections) && IsBoxes(aBoxes, aImage, job.answers.sections)
    ensures Pairable(qBoxes, aBoxes)
    ensures |Cards(qBoxes, aBoxes)| == rows * columns
  {
    CardsAreRowMajor(qBoxes, aBoxes);
    GridCellCount(qBoxes, rows, columns);
  }

  /** The dialog state. The deck list, the page count and the grid item
      are fixed once the dialog is set up; the rest changes with the
      dialog's slots. */
  class ImportWindow {
    const decks: seq<Deck>
    const pageCount: nat
    const rect: GraphicsRectItem
    var currentPage: int
    var pageSpin: int
    var shownPage: Option<int>
    var questions: Option<Selection>
    var info: string
    var rowSpinEnabled: bool
    var columnSpinEnabled: bool
    var deckBoxEnabled: bool
    var saveEnabled: bool
    var undoEnabled: bool

    /** The grid item is consistent and sits in the page scene; in the
        question phase the grid controls are enabled, and in the answer
        phase they are disabled, undo is available and the captured
        question grid has the item's current grid size. */
    ghost predicate Valid()
      reads this, rect
    {
      rect.Valid() && rect.scene == SceneRect &&
      (questions.None? ==>
        info == ChooseQuestions && rowSpinEnabled && columnSpinEnabled && deckBoxEnabled) &&
      (questions.Some? ==>
        info == ChooseAnswers && !rowSpinEnabled && !columnSpinEnabled && !deckBoxEnabled && undoEnabled &&
        GridShape(questions.value.sections, rect.rows, rect.columns))
    }

    /** A fresh dialog over the given deck list and pages: a 4 x 2 grid at
        (87, 110) of size 696 x 880 with handles of size 50, on page 0, in
        the question phase, save disabled until the pages are converted. */
    constructor (decks: seq<Deck>, pageCount: nat)
      ensures Valid() && fresh(rect)
      ensures this.decks == decks && this.pageCount == pageCount
      ensures rect.rect == Rect(87.0, 110.0, 783.0, 990.0) && rect.pos == Point(0.0, 0.0)
      ensures rect.rows == 4 && rect.columns == 2 && rect.handleSize == 50.0
      ensures currentPage == 0 && pageSpin == 1 && shownPage.None? && questions.None?
      ensures !saveEnabled && undoEnabled
    {
      this.decks := decks;
      this.pageCount := pageCount;
      currentPage := 0;
      questions := None;
      rect := new GraphicsRectItem(87.0, 110.0, 696.0, 880.0, SceneRect, handleSize := 50.0, rows := 4, columns := 2);
      pageSpin := 1;
      shownPage := None;
      saveEnabled := false;
      undoEnabled := true;
      info := ChooseQuestions;
      rowSpinEnabled := true;
      columnSpinEnabled := true;
      deckBoxEnabled := true;
    }

    /** valuechange: both spinbox values go to the grid item. The spinboxes
        are limited to 1 .. 10 and only emit while they can be edited. */
    method ValueChange(rowValue: int, columnValue: int)
      requires Valid() && rowSpinEnabled && columnSpinEnabled
      requires 1 <= rowValue <= 10 && 1 <= columnValue <= 10
      modifies rect`rows, rect`columns, rect`lines, rect`handles
      ensures Valid()
      ensures rect.rows == rowValue && rect.columns == columnValue
      ensures rect.lines == GridLines(rect.rect, rowValue, columnValue)
    {
      rect.SetRows(rowValue);
      rect.SetColumns(columnValue);
    }

    /** pagechange: the request is wrapped into the page list, the page
        spinbox shows the page number counted from 1, and the page is shown
        when it exists. */
    method PageChange(i: int)
      modifies this`currentPage, this`pageSpin, this`shownPage
      ensures currentPage == WrappedPage(i, pageCount)
      ensures pageSpin == currentPage + 1
      ensures shownPage == if 0 <= currentPage < pageCount then Some(currentPage) else old(shownPage)
    {
      var page := i;
      if page < 0 {
        page := pageCount - 1;
      } else if page >= pageCount {
        page := 0;
      }
      currentPage := page;
      pageSpin := page + 1;
      if 0 <= page < pageCount {
        shownPage := Some(page);
      }
    }

    /** save: the grid is captured with the current page, then the dialog
        moves to the next page. The first save keeps the capture as the
        question grid and enters the answer phase; the second hands both
        grids and the deck named deckName to the card writer (the returned
        job), disables save and returns to the question phase. */
    method Save(deckName: string) returns (job: Option<SaveJob>)
      requires Valid()
      modifies this`currentPage, this`pageSpin, this`shownPage, this`questions, this`info,
        this`rowSpinEnabled, this`columnSpinEnabled, this`deckBoxEnabled, this`saveEnabled, this`undoEnabled
      ensures Valid()
      ensures currentPage == WrappedPage(old(currentPage) + 1, pageCount) && pageSpin == currentPage + 1
      ensures shownPage == if 0 <= currentPage < pageCount then Some(currentPage) else old(shownPage)
      ensures old(questions).None? ==>
        job.None? && questions.Some? && questions.value.page == old(currentPage) &&
        IsSections(questions.value.sections, Translated(rect.rect, rect.pos), rect.rows, rect.columns, 870.0, 1100.0) &&
        !rowSpinEnabled && !columnSpinEnabled && !deckBoxEnabled && undoEnabled &&
        saveEnabled == old(saveEnabled)
      ensures old(questions).Some? ==>
        job.Some? && job.value.questions == old(questions).value &&
        job.value.answers.page == old(currentPage) &&
        IsSections(job.value.answers.sections, Translated(rect.rect, rect.pos), rect.rows, rect.columns, 870.0, 1100.0) &&
        job.value.deck == FindDeck(decks, deckName) &&
        GridShape(job.value.questions.sections, rect.rows, rect.columns) &&
        GridShape(job.value.answers.sections, rect.rows, rect.columns) &&
        questions.None? && !saveEnabled && rowSpinEnabled && columnSpinEnabled && deckBoxEnabled && !undoEnabled
    {
      var sections := rect.GetSections();
      var data := Selection(currentPage, sections);
      PageChange(currentPage + 1);
      var deck := FindDeck(decks, deckName);
      if questions.None? {
        questions := Some(data);
        info := ChooseAnswers;
        rowSpinEnabled := false;
        columnSpinEnabled := false;
        deckBoxEnabled := false;
        undoEnabled := true;
        job := None;
      } else {
        saveEnabled := false;
        job := Some(SaveJob(questions.value, data, deck));
        questions := None;
        info := ChooseQuestions;
        rowSpinEnabled := true;
        columnSpinEnabled := true;
        deckBoxEnabled := true;
        undoEnabled := false;
      }
    }

    /** undo: back to the question phase, with the controls set as after a
        completed save; the page and the save button are kept. */
    method Undo()
      requires Valid()
      modifies this`questions, this`info, this`rowSpinEnabled, this`columnSpinEnabled,
        this`deckBoxEnabled, this`undoEnabled
      ensures Valid()
      ensures questions.None? && info == ChooseQuestions
      ensures rowSpinEnabled && columnSpinEnabled && deckBoxEnabled && !undoEnabled
    {
      questions := None;
      info := ChooseQuestions;
      rowSpinEnabled := true;
      columnSpinEnabled := true;
      deckBoxEnabled := true;
      undoEnabled := false;
    }
  }
}
