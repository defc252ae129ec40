/** The two pure steps of the card writer: pairing question cells with
    answer cells (sort_pictures) and turning fractional sections into pixel
    boxes for the image crop (crop). */
module Worker {
  import opened Geometry
  import opened RectItem

  // ---------------------------------------------------------------------
  // sort_pictures
  // ---------------------------------------------------------------------

  /** s back to front. */
  function Reversed<T>(s: seq<T>): seq<T> {
    seq(|s|, k requires 0 <= k < |s| => s[|s| - 1 - k])
  }

  /** Reversing twice gives the sequence back. */
  lemma ReversedTwice<T>(s: seq<T>)
    ensures Reversed(Reversed(s)) == s
  {
  }

  /** Every question row has an answer row at the same index that is at
      least as long: the indexing in sort_pictures stays in bounds. */
  predicate Pairable<T>(questions: seq<seq<T>>, rows: seq<seq<T>>) {
    |questions| <= |rows| && forall i :: 0 <= i < |questions| ==> |questions[i]| <= |rows[i]|
  }

  /** The cards of one row: question j with entry j of the answer row. */
  function RowCards<T>(q: seq<T>, a: seq<T>): (cs: seq<(T, T)>)
    requires |q| <= |a|
  {
    seq(|q|, j requires 0 <= j < |q| => (q[j], a[j]))
  }

  /** The card list sort_pictures returns for answer rows whose contents
      before the call were rows: row by row, each question row paired with
      its answer row reversed. */
  function Cards<T>(questions: seq<seq<T>>, rows: seq<seq<T>>): seq<(T, T)>
    requires Pairable(questions, rows)
  {
    if |questions| == 0 then []
    else
      var n := |questions| - 1;
      Cards(questions[..n], rows) + RowCards(questions[n], Reversed(rows[n]))
  }

  /** The number of cells in the rows of s. */
  function CellCount<T>(s: seq<seq<T>>): nat {
    if |s| == 0 then 0 else CellCount(s[..|s| - 1]) + |s[|s| - 1]|
  }

  /** Where the card of question (i, j) sits in a row-major list: after
      the cells of rows 0 .. i-1. */
  function CardIndex<T>(questions: seq<seq<T>>, i: int, j: int): int
    requires 0 <= i <= |questions|
  {
    CellCount(questions[..i]) + j
  }

  /** One card per question cell, in row-major order: the card of question
      (i, j) sits after the cells of the rows before i, and pairs question
      (i, j) with the answer that was j-th from the end of row i. */
  lemma {:induction false} CardsAreRowMajor<T>(questions: seq<seq<T>>, rows: seq<seq<T>>)
    requires Pairable(questions, rows)
    ensures |Cards(questions, rows)| == CellCount(questions)
    ensures forall i, j :: 0 <= i < |questions| && 0 <= j < |questions[i]| ==>
      CardIndex(questions, i, j) < |Cards(questions, rows)| &&
      Cards(questions, rows)[CardIndex(questions, i, j)] ==
        (questions[i][j], rows[i][|rows[i]| - 1 - j])
    decreases |questions|
  {
    if |questions| > 0 {
      var n := |questions| - 1;
      var front := questions[..n];
      CardsAreRowMajor(front, rows);
      assert questions[..n] == front;
      forall i, j | 0 <= i < |questions| && 0 <= j < |questions[i]|
        ensures CardIndex(questions, i, j) < |Cards(questions, rows)| &&
          Cards(questions, rows)[CardIndex(questions, i, j)] ==
          (questions[i][j], rows[i][|rows[i]| - 1 - j])
      {
        var cs := Cards(questions, rows);
        assert cs == Cards(front, rows) + RowCards(questions[n], Reversed(rows[n]));
        if i < n {
          assert front[..i] == questions[..i];
          assert front[i] == questions[i];
          CellCountPrefix(front, i);
          assert cs[CardIndex(front, i, j)] == Cards(front, rows)[CardIndex(front, i, j)];
        } else {
          assert questions[..i] == front;
          assert cs[CellCount(front) + j] == RowCards(questions[n], Reversed(rows[n]))[j];
        }
      }
    }
  }

  /** The cells before row i of s fit in s. */
  lemma {:induction false} CellCountPrefix<T>(s: seq<seq<T>>, i: nat)
    requires i < |s|
    ensures CellCount(s[..i]) + |s[i]| <= CellCount(s)
    decreases |s|
  {
    var n := |s| - 1;
    assert s[..|s|][..n] == s[..n];
    if i < n {
      CellCountPrefix(s[..n], i);
      assert s[..n][..i] == s[..i];
    } else {
      assert s[..i] == s[..n];
    }
  }

  /** The contents of the answer rows. */
  function Rows<T>(answers: seq<array<T>>): (rs: seq<seq<T>>)
    reads set i | 0 <= i < |answers| :: answers[i]
    ensures |rs| == |answers|
    ensures forall i :: 0 <= i < |answers| ==> rs[i] == answers[i][..]
  {
    if |answers| == 0 then []
    else Rows(answers[..|answers| - 1]) + [answers[|answers| - 1][..]]
  }

  /** list.reverse(): swaps the ends towards the middle. */
  method Reverse<T>(a: array<T>)
    modifies a
    ensures a[..] == Reversed(old(a[..]))
  {
    var lo, hi := 0, a.Length - 1;
    while lo < hi
      invariant 0 <= lo && hi == a.Length - 1 - lo && lo <= a.Length - lo
      invariant forall k :: 0 <= k < lo ==> a[k] == old(a[a.Length - 1 - k])
      invariant forall k :: hi < k < a.Length ==> a[k] == old(a[a.Length - 1 - k])
      invariant forall k :: lo <= k <= hi ==> a[k] == old(a[k])
    {
      a[lo], a[hi] := a[hi], a[lo];
      lo, hi := lo + 1, hi - 1;
    }
  }

  /** The inner loop of sort_pictures: question j of the row is paired
      with entry j of the (already reversed) answer row. */
  method AppendRowCards<T>(cards: seq<(T, T)>, q: seq<T>, a: array<T>) returns (r: seq<(T, T)>)
    requires |q| <= a.Length
    ensures r == cards + RowCards(q, a[..])
  {
    r := cards;
    for j := 0 to |q|
      invariant r == cards + RowCards(q[..j], a[..])
    {
      r := r + [(q[j], a[j])];
    }
    assert q[..|q|] == q;
  }

  /** sort_pictures: answer rows 0 .. |questions|-1 are reversed in place,
      and the cards pair each question cell with the entry at the same
      index of the reversed answer row. The answer rows are distinct lists,
      as crop builds them. */
  method SortPictures<T>(questions: seq<seq<T>>, answers: seq<array<T>>) returns (cards: seq<(T, T)>)
    requires Pairable(questions, Rows(answers))
    requires forall i, k :: 0 <= i < k < |answers| ==> answers[i] != answers[k]
    modifies set i | 0 <= i < |questions| :: answers[i]
    ensures forall i :: 0 <= i < |questions| ==> answers[i][..] == Reversed(old(answers[i][..]))
    ensures forall k :: |questions| <= k < |answers| ==> answers[k][..] == old(answers[k][..])
    ensures cards == Cards(questions, old(Rows(answers)))
  {
    ghost var rows := Rows(answers);
    cards := [];
    for i := 0 to |questions|
      invariant forall k :: 0 <= k < i ==> answers[k][..] == Reversed(rows[k])
      invariant forall k :: i <= k < |answers| ==> answers[k][..] == rows[k]
      invariant cards == Cards(questions[..i], rows)
    {
      Reverse(answers[i]);
      cards := AppendRowCards(cards, questions[i], answers[i]);
      assert questions[..i + 1][..i] == questions[..i];
    }
    assert questions[..|questions|] == questions;
  }

  // ---------------------------------------------------------------------
  // crop
  // ---------------------------------------------------------------------

  /** The page image a crop works on: only its size matters here. */
  datatype PageImage = PageImage(width: nat, height: nat)

  /** The pixel box of a fractional section: the x coordinates scaled by the
      image width, the y coordinates by its height. */
  function ScaleBox(section: Rect, image: PageImage): Rect {
    Rect(Scale(section.left, image.width), Scale(section.top, image.height),
         Scale(section.right, image.width), Scale(section.bottom, image.height))
  }

  /** A fractional coordinate times an image size. */
  function Scale(a: real, size: nat): real {
    a * (size as real)
  }

  /** An ordered section within the unit square gives an ordered box within
      the image. */
  lemma BoxInImage(section: Rect, image: PageImage)
    requires IsNormal(section) && Inside(section, Rect(0.0, 0.0, 1.0, 1.0))
    ensures IsNormal(ScaleBox(section, image))
    ensures Inside(ScaleBox(section, image), Rect(0.0, 0.0, image.width as real, image.height as real))
  {
    ScaleUnitInterval(section.left, section.right, image.width);
    ScaleUnitInterval(section.top, section.bottom, image.height);
  }

  /** Scaling 0 <= a <= b <= 1 by an image size keeps the order and stays
      within [0, size]. */
  lemma ScaleUnitInterval(a: real, b: real, size: nat)
    requires 0.0 <= a <= b <= 1.0
    ensures 0.0 <= Scale(a, size) <= Scale(b, size) <= size as real
  {
    var w := size as real;
    ProductNonneg(a, w);
    ProductNonneg(b - a, w);
    ProductNonneg(1.0 - b, w);
    assert (b - a) * w == b * w - a * w;
    assert (1.0 - b) * w == w - b * w;
  }

  /** The product of two non-negative reals is non-negative. */
  lemma ProductNonneg(x: real, y: real)
    requires 0.0 <= x && 0.0 <= y
    ensures 0.0 <= x * y
  {
  }

  /** The boxes crop cuts for sections: same rows, same cells per row, in
      the same order. */
  predicate IsBoxes(boxes: seq<seq<Rect>>, image: PageImage, sections: seq<seq<Rect>>) {
    |boxes| == |sections| &&
    (forall j :: 0 <= j < |sections| ==> |boxes[j]| == |sections[j]|) &&
    (forall j, i :: 0 <= j < |sections| && 0 <= i < |sections[j]| ==>
      boxes[j][i] == ScaleBox(sections[j][i], image))
  }

  /** crop, up to the image cut itself: one box per section, row by row. */
  method Crop(image: PageImage, sections: seq<seq<Rect>>) returns (boxes: seq<seq<Rect>>)
    ensures IsBoxes(boxes, image, sections)
  {
    boxes := [];
    for j := 0 to |sections|
      invariant IsBoxes(boxes, image, sections[..j])
    {
      var row: seq<Rect> := [];
      for i := 0 to |sections[j]|
        invariant |row| == i
        invariant forall ii :: 0 <= ii < i ==> row[ii] == ScaleBox(sections[j][ii], image)
      {
        var section := sections[j][i];
        var coords := ScaleBox(section, image);
        row := row + [coords];
      }
      boxes := boxes + [row];
    }
    assert sections[..|sections|] == sections;
  }

  /** A list of n rows of columns cells each has n * columns cells. */
  lemma {:induction false} GridCellCount<T>(s: seq<seq<T>>, n: int, columns: int)
    requires |s| == n && forall j :: 0 <= j < |s| ==> |s[j]| == columns
    ensures CellCount(s) == n * columns
    decreases |s|
  {
    if |s| > 0 {
      GridCellCount(s[..|s| - 1], n - 1, columns);
    }
  }

  /** The sections of an ordered rectangle inside a scene at the origin
      are ordered and lie in the unit square. */
  lemma CellInUnitSquare(b: Rect, rows: int, columns: int, sw: real, sh: real, j: int, i: int)
    requires rows >= 1 && columns >= 1 && 0.0 < sw && 0.0 < sh
    requires IsNormal(b) && Inside(b, Rect(0.0, 0.0, sw, sh))
    requires 0 <= j < rows && 0 <= i < columns
    ensures IsNormal(Cell(b, rows, columns, sw, sh, j, i))
    ensures Inside(Cell(b, rows, columns, sw, sh, j, i), Rect(0.0, 0.0, 1.0, 1.0))
  {
    CellsOrdered(b, rows, columns, sw, sh, j, i, j, i);
    UnitFraction(b.left, b.right, sw);
    UnitFraction(b.top, b.bottom, sh);
  }

  /** 0 <= lo and hi <= d give 0 <= lo/d and hi/d <= 1. */
  lemma UnitFraction(lo: real, hi: real, d: real)
    requires 0.0 < d && 0.0 <= lo && hi <= d
    ensures 0.0 <= lo / d && hi / d <= 1.0
  {
    assert d / d == 1.0;
    assert d / d - hi / d == (d - hi) / d;
  }

  /** Hence every box crop cuts from those sections lies within the page
      image. */
  lemma SectionBoxesInImage(b: Rect, rows: int, columns: int, sw: real, sh: real,
                            image: PageImage, j: int, i: int)
    requires rows >= 1 && columns >= 1 && 0.0 < sw && 0.0 < sh
    requires IsNormal(b) && Inside(b, Rect(0.0, 0.0, sw, sh))
    requires 0 <= j < rows && 0 <= i < columns
    ensures Inside(ScaleBox(Cell(b, rows, columns, sw, sh, j, i), image),
                   Rect(0.0, 0.0, image.width as real, image.height as real))
  {
    CellInUnitSquare(b, rows, columns, sw, sh, j, i);
    BoxInImage(Cell(b, rows, columns, sw, sh, j, i), image);
  }
}
