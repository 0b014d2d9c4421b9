/**
 * The sheet that shows a group's class equation with one visualizer per
 * conjugacy class (js/ClassEquationInfo.js, showAsSheet): the columns it
 * lays out, its abbreviation of long abelian equations, and its signs.
 */
module ClassEquationSheet {
  import opened Wrappers
  import opened Decimal
  import opened ClassEquation

  /** The element records handed to the sheet builder. */
  datatype SheetElement =
    | TextElement(x: int, y: int, w: int, h: int, text: string, fontSize: Option<string>, alignment: string)
    | VisualizerElement(className: string, groupURL: string, x: int, y: int, w: int, h: int,
                        background: Option<seq<Colour>>)

  /** The number of columns drawn: 5 for an abelian group of order above 5. */
  function FakeN(g: Group): nat {
    if g.isAbelian && g.order > 5 then 5 else |g.classes|
  }

  /**
   * The sheet is defined when every column's class exists: an abbreviated
   * sheet reads classes 0, 1 and 2, so it needs at least three classes.
   */
  predicate SheetDefined(g: Group) {
    FakeN(g) == |g.classes| || |g.classes| >= 3
  }

  /** The class shown in column i, or -1 for the ellipsis column. */
  function FakeIndex(g: Group, i: nat): (r: int)
    requires SheetDefined(g) && i < FakeN(g)
    ensures r == -1 || 0 <= r < |g.classes|
  {
    if FakeN(g) == |g.classes| then i
    else if i < 3 then i
    else if i == 3 then -1
    else |g.classes| - 1
  }

  function SignText(g: Group, i: nat): string
    requires SheetDefined(g) && i < FakeN(g)
  {
    if FakeIndex(g, i) < |g.classes| - 1 then "+" else "="
  }

  function Text(x: int, y: int, w: int, h: int, text: string): SheetElement {
    TextElement(x, y, w, h, text, None, "center")
  }

  function Title(g: Group): SheetElement {
    TextElement(50, 50, 150 * FakeN(g) + 100, 50, "Class Equation for the Group " + g.name, Some("20pt"), "center")
  }

  /** The four elements of column i: two cells (or two ellipses), then two signs. */
  function Column(g: Group, visualizer: string, i: nat): (r: seq<SheetElement>)
    requires SheetDefined(g) && i < FakeN(g)
    ensures |r| == 4
  {
    var fi := FakeIndex(g, i);
    var sign := SignText(g, i);
    (if fi == -1 then
       [Text(50 + 150 * i, 100, 100, 50, "..."), Text(50 + 150 * i, 187, 100, 50, "...")]
     else
       [Text(50 + 150 * i, 100, 100, 50, Str(|g.classes[fi]|)),
        VisualizerElement(visualizer, g.url, 50 + 150 * i, 150, 100, 100, Some(AddHighlights(g, fi, None)))])
    + [Text(150 + 150 * i, 100, 50, 50, sign), Text(150 + 150 * i, 187, 50, 50, sign)]
  }

  /** `head`, then each of `blocks` in order. */
  function Blocks<T>(head: seq<T>, blocks: seq<seq<T>>): seq<T>
  {
    if blocks == [] then head else Blocks(head, blocks[..|blocks| - 1]) + blocks[|blocks| - 1]
  }

  predicate FourWide<T>(blocks: seq<seq<T>>) {
    forall b :: 0 <= b < |blocks| ==> |blocks[b]| == 4
  }

  lemma {:induction false} BlocksLength<T>(head: seq<T>, blocks: seq<seq<T>>)
    requires FourWide(blocks)
    ensures |Blocks(head, blocks)| == |head| + 4 * |blocks|
  {
    if blocks != [] {
      BlocksLength(head, blocks[..|blocks| - 1]);
    }
  }

  /** Element r of block i sits at |head| + 4 * i + r. */
  lemma {:induction false} BlocksAt<T>(head: seq<T>, blocks: seq<seq<T>>, i: nat, r: nat)
    requires FourWide(blocks) && i < |blocks| && r < 4
    ensures |head| + 4 * i + r < |Blocks(head, blocks)|
    ensures Blocks(head, blocks)[|head| + 4 * i + r] == blocks[i][r]
  {
    var front := blocks[..|blocks| - 1];
    BlocksLength(head, front);
    BlocksLength(head, blocks);
    if i < |front| {
      BlocksAt(head, front, i, r);
    }
  }

  /** The head stays in front. */
  lemma {:induction false} BlocksHead<T>(head: seq<T>, blocks: seq<seq<T>>, j: nat)
    requires j < |head|
    ensures j < |Blocks(head, blocks)| && Blocks(head, blocks)[j] == head[j]
  {
    if blocks != [] {
      BlocksHead(head, blocks[..|blocks| - 1], j);
    }
  }

  /** One more block goes at the end. */
  lemma BlocksSnoc<T>(head: seq<T>, blocks: seq<seq<T>>, b: seq<T>)
    ensures Blocks(head, blocks + [b]) == Blocks(head, blocks) + b
  {
    assert (blocks + [b])[..|blocks|] == blocks;
  }

  /** Columns 0..k-1. */
  function Columns(g: Group, visualizer: string, k: nat): seq<seq<SheetElement>>
    requires SheetDefined(g) && k <= FakeN(g)
  {
    seq(k, i requires 0 <= i < k => Column(g, visualizer, i))
  }

  lemma ColumnsFourWide(g: Group, visualizer: string, k: nat)
    requires SheetDefined(g) && k <= FakeN(g)
    ensures FourWide(Columns(g, visualizer, k))
  {
  }

  lemma ColumnsSnoc(g: Group, visualizer: string, k: nat)
    requires SheetDefined(g) && k < FakeN(g)
    ensures Columns(g, visualizer, k + 1) == Columns(g, visualizer, k) + [Column(g, visualizer, k)]
  {
  }

  /** The title, then columns 0..k-1 in order. */
  function TitleAndColumns(g: Group, visualizer: string, k: nat): seq<SheetElement>
    requires SheetDefined(g) && k <= FakeN(g)
  {
    Blocks([Title(g)], Columns(g, visualizer, k))
  }

  /** The whole element list: title, columns, the order, the whole group in rainbow colours. */
  function Sheet(g: Group, visualizer: string): (r: seq<SheetElement>)
    requires SheetDefined(g)
    ensures |r| == 4 * FakeN(g) + 3
  {
    var fakeN := FakeN(g);
    ColumnsFourWide(g, visualizer, fakeN);
    BlocksLength([Title(g)], Columns(g, visualizer, fakeN));
    TitleAndColumns(g, visualizer, fakeN)
    + [Text(50 + 150 * fakeN, 100, 100, 50, Str(g.order))]
    + [VisualizerElement(visualizer, g.url, 50 + 150 * fakeN, 150, 100, 100, RainbowBackground(g))]
  }

  /** One pass of showAsSheet's first loop: pushes the four elements of column i. */
  method PushColumn(g: Group, visualizer: string, i: nat, elements: seq<SheetElement>)
    returns (pushed: seq<SheetElement>)
    requires SheetDefined(g) && i < FakeN(g)
    ensures pushed == elements + Column(g, visualizer, i)
  {
    var n := |g.classes|;
    var fakeN := if g.isAbelian && g.order > 5 then 5 else n;
    var fakeIndex := if fakeN == n then i else if i < 3 then i else if i == 3 then -1 else n - 1;
    pushed := elements;
    if fakeIndex == -1 {
      // the ellipses
      pushed := pushed + [Text(50 + 150 * i, 100, 100, 50, "...")];
      pushed := pushed + [Text(50 + 150 * i, 187, 100, 50, "...")];
    } else {
      // the size of the class, then the class highlighted in a visualizer
      pushed := pushed + [Text(50 + 150 * i, 100, 100, 50, Str(|g.classes[fakeIndex]|))];
      pushed := pushed + [VisualizerElement(visualizer, g.url, 50 + 150 * i, 150, 100, 100,
                                            Some(AddHighlights(g, fakeIndex, None)))];
    }
    // a "+" in both rows, or an "=" after the last class
    var sign := if fakeIndex < n - 1 then "+" else "=";
    pushed := pushed + [Text(150 + 150 * i, 100, 50, 50, sign)];
    pushed := pushed + [Text(150 + 150 * i, 187, 50, 50, sign)];
  }

  /** showAsSheet: builds the element list that is handed to the sheet builder. */
  method ShowAsSheet(g: Group, visualizer: string) returns (elements: seq<SheetElement>)
    requires SheetDefined(g)
    ensures elements == Sheet(g, visualizer)
  {
    var n := |g.classes|;
    var fakeN := if g.isAbelian && g.order > 5 then 5 else n;
    assert fakeN == FakeN(g);
    elements := [Title(g)];
    assert Columns(g, visualizer, 0) == [];
    var i := 0;
    while i < fakeN
      invariant 0 <= i <= fakeN
      invariant elements == TitleAndColumns(g, visualizer, i)
    {
      ColumnsSnoc(g, visualizer, i);
      BlocksSnoc([Title(g)], Columns(g, visualizer, i), Column(g, visualizer, i));
      elements := PushColumn(g, visualizer, i, elements);
      i := i + 1;
    }
    elements := elements + [Text(50 + 150 * fakeN, 100, 100, 50, Str(g.order))];
    var highlights := RainbowHighlights(g);
    elements := elements + [VisualizerElement(visualizer, g.url, 50 + 150 * fakeN, 150, 100, 100, highlights)];
  }

  // ---------------------------------------------------------------------------
  // Properties of the layout.

  /** Element r (0..3) of column i of a sheet. */
  function Cell(s: seq<SheetElement>, i: nat, r: nat): SheetElement
    requires 1 + 4 * i + r < |s|
  {
    s[1 + 4 * i + r]
  }

  lemma CellIsColumn(g: Group, visualizer: string, i: nat, r: nat)
    requires SheetDefined(g) && i < FakeN(g) && r < 4
    ensures Cell(Sheet(g, visualizer), i, r) == Column(g, visualizer, i)[r]
  {
    ColumnsFourWide(g, visualizer, FakeN(g));
    BlocksAt([Title(g)], Columns(g, visualizer, FakeN(g)), i, r);
    assert Sheet(g, visualizer)[1 + 4 * i + r] == TitleAndColumns(g, visualizer, FakeN(g))[1 + 4 * i + r];
  }

  /** The four elements of column i, one by one. */
  lemma ColumnShape(g: Group, visualizer: string, i: nat)
    requires SheetDefined(g) && i < FakeN(g)
    ensures |Column(g, visualizer, i)| == 4
    ensures FakeIndex(g, i) == -1 ==>
              Column(g, visualizer, i)[0] == Text(50 + 150 * i, 100, 100, 50, "...") &&
              Column(g, visualizer, i)[1] == Text(50 + 150 * i, 187, 100, 50, "...")
    ensures FakeIndex(g, i) != -1 ==>
              Column(g, visualizer, i)[0] == Text(50 + 150 * i, 100, 100, 50, Str(|g.classes[FakeIndex(g, i)]|)) &&
              Column(g, visualizer, i)[1] ==
                VisualizerElement(visualizer, g.url, 50 + 150 * i, 150, 100, 100, Some(AddHighlights(g, FakeIndex(g, i), None)))
    ensures Column(g, visualizer, i)[2] == Text(150 + 150 * i, 100, 50, 50, SignText(g, i))
    ensures Column(g, visualizer, i)[3] == Text(150 + 150 * i, 187, 50, 50, SignText(g, i))
  {
  }

  /**
   * Column i of the sheet: its two cells at x = 50 + 150 * i, "..." twice
   * for the ellipsis column and otherwise the size of its class above the
   * class highlighted, then its two signs at x = 150 + 150 * i.
   */
  lemma SheetColumn(g: Group, visualizer: string, i: nat)
    requires SheetDefined(g) && i < FakeN(g)
    ensures FakeIndex(g, i) == -1 ==>
              Cell(Sheet(g, visualizer), i, 0) == Text(50 + 150 * i, 100, 100, 50, "...") &&
              Cell(Sheet(g, visualizer), i, 1) == Text(50 + 150 * i, 187, 100, 50, "...")
    ensures FakeIndex(g, i) != -1 ==>
              Cell(Sheet(g, visualizer), i, 0) == Text(50 + 150 * i, 100, 100, 50, Str(|g.classes[FakeIndex(g, i)]|)) &&
              Cell(Sheet(g, visualizer), i, 1) ==
                VisualizerElement(visualizer, g.url, 50 + 150 * i, 150, 100, 100, Some(AddHighlights(g, FakeIndex(g, i), None)))
    ensures Cell(Sheet(g, visualizer), i, 2) == Text(150 + 150 * i, 100, 50, 50, SignText(g, i))
    ensures Cell(Sheet(g, visualizer), i, 3) == Text(150 + 150 * i, 187, 50, 50, SignText(g, i))
  {
    ColumnShape(g, visualizer, i);
    CellIsColumn(g, visualizer, i, 0);
    CellIsColumn(g, visualizer, i, 1);
    CellIsColumn(g, visualizer, i, 2);
    CellIsColumn(g, visualizer, i, 3);
  }

  /**
   * The sheet has 1 + 4 * fakeN + 2 elements: the title, four per column
   * (SheetColumn), then the order and the whole group at x = 50 + 150 * fakeN.
   */
  lemma SheetLayout(g: Group, visualizer: string)
    requires SheetDefined(g)
    ensures |Sheet(g, visualizer)| == 1 + 4 * FakeN(g) + 2
    ensures Sheet(g, visualizer)[0] == Title(g)
    ensures Sheet(g, visualizer)[4 * FakeN(g) + 1] == Text(50 + 150 * FakeN(g), 100, 100, 50, Str(g.order))
    ensures Sheet(g, visualizer)[4 * FakeN(g) + 2] ==
              VisualizerElement(visualizer, g.url, 50 + 150 * FakeN(g), 150, 100, 100, RainbowBackground(g))
  {
    BlocksHead([Title(g)], Columns(g, visualizer, FakeN(g)), 0);
  }

  /**
   * Column indices: the identity unless abbreviated; abbreviated, columns
   * 0..4 show classes 0, 1, 2, an ellipsis and the last class.
   */
  lemma FakeIndexColumns(g: Group)
    requires SheetDefined(g)
    ensures FakeN(g) == |g.classes| ==> forall i :: 0 <= i < FakeN(g) ==> FakeIndex(g, i) == i
    ensures FakeN(g) != |g.classes| ==>
              FakeN(g) == 5 && g.isAbelian && g.order > 5 &&
              [FakeIndex(g, 0), FakeIndex(g, 1), FakeIndex(g, 2), FakeIndex(g, 3), FakeIndex(g, 4)]
              == [0, 1, 2, -1, |g.classes| - 1]
  {
  }

  /**
   * The sign after column i, drawn in both rows, is "=" exactly for the last
   * column; an abbreviated sheet needs more than three classes for this.
   */
  lemma EqualsOnlyInLastColumn(g: Group)
    requires SheetDefined(g)
    requires FakeN(g) != |g.classes| ==> |g.classes| > 3
    ensures forall i :: 0 <= i < FakeN(g) ==> (SignText(g, i) == "=" <==> i == FakeN(g) - 1)
    ensures forall i :: 0 <= i < FakeN(g) ==> SignText(g, i) == "=" || SignText(g, i) == "+"
  {
  }

  /** With exactly three classes an abbreviated sheet shows "=" twice per row. */
  lemma ThreeClassesShowTwoEquals(g: Group, visualizer: string)
    requires g.isAbelian && g.order > 5 && |g.classes| == 3
    ensures SheetDefined(g)
    ensures Cell(Sheet(g, visualizer), 2, 2) == Text(450, 100, 50, 50, "=")
    ensures Cell(Sheet(g, visualizer), 4, 2) == Text(750, 100, 50, 50, "=")
  {
    SheetColumn(g, visualizer, 2);
    SheetColumn(g, visualizer, 4);
  }
}
