/**
 * The "Show these arrows" list of the Cayley diagram page
 * (diagramController/Arrow.js): the rows it shows for the diagram's arrows,
 * the menu of arrows that can still be added, and the Add and Remove buttons.
 */
module Arrow {
  import opened Wrappers
  import opened Decimal

  predicate IsHexDigit(c: char) {
    '0' <= c <= '9' || 'a' <= c <= 'f' || 'A' <= c <= 'F'
  }

  /** What `new THREE.Color(c).getHexString()` returns: six hex digits. */
  type HexColour = s: string | |s| == 6 && forall k :: 0 <= k < |s| ==> IsHexDigit(s[k])
    witness "000000"

  /** An arrow of the diagram view: the generator it follows and its colour. */
  datatype Line = Line(generator: nat, colour: HexColour)

  /** A row of the arrow list: its `arrow` attribute and its colour text. */
  datatype Row = Row(arrow: string, colour: string)

  // ---------------------------------------------------------------------------
  // Encoding an arrow as one string, and back.

  /** The Set key of an arrow: "27#99ffc1". */
  function Hash(l: Line): string {
    Str(l.generator) + "#" + l.colour
  }

  function Hashes(ls: seq<Line>): (hs: seq<string>)
    ensures |hs| == |ls|
    ensures forall k :: 0 <= k < |ls| ==> hs[k] == Hash(ls[k])
  {
    seq(|ls|, k requires 0 <= k < |ls| => Hash(ls[k]))
  }

  /**
   * `s.slice(0, -k)` of JavaScript: all but the last k characters, or "" when
   * shorter; -0 is 0, so `slice(0, -0)` is "".
   */
  function SliceHead(s: string, k: nat): string {
    if k == 0 then "" else if |s| >= k then s[..|s| - k] else ""
  }

  /**
   * `s.slice(-k)` of JavaScript: the last k characters, or all of s when
   * shorter; `slice(-0)` is `slice(0)`, all of s.
   */
  function SliceTail(s: string, k: nat): string {
    if k == 0 then s else if |s| >= k then s[|s| - k..] else s
  }

  /** A Set key split back into the element and the colour: the last seven characters are "#" and the colour. */
  function RowOfHash(h: string): Row {
    Row(SliceHead(h, 7), SliceTail(h, 7))
  }

  /** The row an arrow should produce. */
  function RowOf(l: Line): Row {
    Row(Str(l.generator), "#" + l.colour)
  }

  /** Splitting a key gives back the generator's text and "#" followed by the colour. */
  lemma DecodeHash(l: Line)
    ensures RowOfHash(Hash(l)) == RowOf(l)
  {
    var h := Hash(l);
    assert |h| == |Str(l.generator)| + 7;
    assert h[..|h| - 7] == Str(l.generator);
    assert h[|h| - 7..] == "#" + l.colour;
  }

  /** Two arrows share a key exactly when they share generator and colour. */
  lemma HashInjective(a: Line, b: Line)
    ensures Hash(a) == Hash(b) <==> a == b
  {
    if Hash(a) == Hash(b) {
      DecodeHash(a);
      DecodeHash(b);
      StrInjective(a.generator, b.generator);
      var ca, cb := "#" + a.colour, "#" + b.colour;
      assert ca[1..] == a.colour && cb[1..] == b.colour;
    }
  }

  // ---------------------------------------------------------------------------
  // A JavaScript Set built from a list: each value once, in the order of its first occurrence.

  function Distinct<T(==)>(s: seq<T>): seq<T>
    decreases |s|
  {
    if s == [] then []
    else
      var d := Distinct(s[..|s| - 1]);
      if s[|s| - 1] in d then d else d + [s[|s| - 1]]
  }

  /** The position of the first occurrence of x in s. */
  function FirstIndex<T(==)>(s: seq<T>, x: T): (k: nat)
    requires x in s
    ensures k < |s| && s[k] == x
    ensures forall m :: 0 <= m < k ==> s[m] != x
    decreases |s|
  {
    if x in s[..|s| - 1] then FirstIndex(s[..|s| - 1], x) else |s| - 1
  }

  lemma {:induction false} DistinctElements<T>(s: seq<T>, x: T)
    ensures x in Distinct(s) <==> x in s
    decreases |s|
  {
    if s != [] {
      var init := s[..|s| - 1];
      DistinctElements(init, x);
      assert s == init + [s[|s| - 1]];
    }
  }

  /**
   * The Set holds every value of the list, each once, ordered by first
   * occurrence in the list.
   */
  lemma {:induction false} DistinctSpec<T>(s: seq<T>)
    ensures forall x :: x in Distinct(s) <==> x in s
    ensures forall i, j :: 0 <= i < j < |Distinct(s)| ==> Distinct(s)[i] != Distinct(s)[j]
    ensures forall i, j :: 0 <= i < j < |Distinct(s)| ==>
              FirstIndex(s, Distinct(s)[i]) < FirstIndex(s, Distinct(s)[j])
    decreases |s|
  {
    forall x ensures x in Distinct(s) <==> x in s {
      DistinctElements(s, x);
    }
    if s != [] {
      var init := s[..|s| - 1];
      var last := s[|s| - 1];
      var d := Distinct(init);
      DistinctSpec(init);
      assert s == init + [last];
      forall x | x in init ensures FirstIndex(s, x) == FirstIndex(init, x) {
      }
    }
  }

  lemma {:induction false} HashInHashes(ls: seq<Line>, l: Line)
    ensures Hash(l) in Hashes(ls) <==> l in ls
  {
    if Hash(l) in Hashes(ls) {
      var k :| 0 <= k < |ls| && Hashes(ls)[k] == Hash(l);
      HashInjective(ls[k], l);
    }
  }

  /** De-duplicating the keys is de-duplicating the arrows, then encoding them. */
  lemma {:induction false} DistinctHashes(ls: seq<Line>)
    ensures Distinct(Hashes(ls)) == Hashes(Distinct(ls))
    decreases |ls|
  {
    if ls != [] {
      var init := ls[..|ls| - 1];
      var last := ls[|ls| - 1];
      assert Hashes(ls)[..|ls| - 1] == Hashes(init);
      DistinctHashes(init);
      HashInHashes(Distinct(init), last);
      if last !in Distinct(init) {
        assert Hashes(Distinct(init) + [last]) == Hashes(Distinct(init)) + [Hash(last)];
      }
    }
  }

  /** `new Set(arrows.map(hash))`: the keys of the arrows, each once, in first-occurrence order. */
  method CollectHashes(ls: seq<Line>) returns (hashes: seq<string>)
    ensures hashes == Distinct(Hashes(ls))
  {
    hashes := [];
    var k := 0;
    while k < |ls|
      invariant 0 <= k <= |ls|
      invariant hashes == Distinct(Hashes(ls)[..k])
    {
      assert Hashes(ls)[..k + 1][..k] == Hashes(ls)[..k];
      var h := Hash(ls[k]);
      if h !in hashes {
        hashes := hashes + [h];
      }
      k := k + 1;
    }
    assert Hashes(ls)[..|ls|] == Hashes(ls);
  }

  /** The rows updateArrows shows for the arrows ls. */
  function RowsFor(ls: seq<Line>): seq<Row> {
    var hs := Distinct(Hashes(ls));
    seq(|hs|, k requires 0 <= k < |hs| => RowOfHash(hs[k]))
  }

  /**
   * The arrow list holds exactly one row per distinct (generator, colour)
   * pair of the view, in first-occurrence order.
   */
  lemma RowsForDistinctPairs(ls: seq<Line>)
    ensures |RowsFor(ls)| == |Distinct(ls)|
    ensures forall k :: 0 <= k < |RowsFor(ls)| ==> RowsFor(ls)[k] == RowOf(Distinct(ls)[k])
  {
    DistinctHashes(ls);
    forall k | 0 <= k < |RowsFor(ls)| ensures RowsFor(ls)[k] == RowOf(Distinct(ls)[k]) {
      DecodeHash(Distinct(ls)[k]);
    }
  }

  /** Every row's `arrow` attribute reads back as the generator of its arrow. */
  lemma ParseRows(ls: seq<Line>)
    ensures |RowsFor(ls)| == |Distinct(ls)|
    ensures forall k :: 0 <= k < |RowsFor(ls)| ==> ParseInt(RowsFor(ls)[k].arrow) == Some(Distinct(ls)[k].generator)
  {
    RowsForDistinctPairs(ls);
    forall k | 0 <= k < |RowsFor(ls)| ensures ParseInt(RowsFor(ls)[k].arrow) == Some(Distinct(ls)[k].generator) {
      ParseIntOfStr(Distinct(ls)[k].generator, "");
      assert Str(Distinct(ls)[k].generator) + "" == Str(Distinct(ls)[k].generator);
    }
  }

  /** Some row of the list has `arrow` equal to element x: `$('#arrow-list li[arrow=x]').length != 0`. */
  predicate Listed(rows: seq<Row>, x: nat) {
    exists k :: 0 <= k < |rows| && rows[k].arrow == Str(x)
  }

  lemma ListedOnlyFromView(ls: seq<Line>, x: nat)
    requires Listed(RowsFor(ls), x)
    ensures exists l :: l in ls && l.generator == x
  {
    RowsForDistinctPairs(ls);
    var rows := RowsFor(ls);
    var ds := Distinct(ls);
    var k :| 0 <= k < |rows| && rows[k].arrow == Str(x);
    StrInjective(ds[k].generator, x);
    DistinctElements(ls, ds[k]);
  }

  lemma ViewIsListed(ls: seq<Line>, l: Line)
    requires l in ls
    ensures Listed(RowsFor(ls), l.generator)
  {
    RowsForDistinctPairs(ls);
    var ds := Distinct(ls);
    DistinctElements(ls, l);
    var k :| 0 <= k < |ds| && ds[k] == l;
    assert RowsFor(ls)[k].arrow == Str(l.generator);
  }

  lemma ListedIffInView(ls: seq<Line>, x: nat)
    ensures Listed(RowsFor(ls), x) <==> exists l :: l in ls && l.generator == x
  {
    if Listed(RowsFor(ls), x) {
      ListedOnlyFromView(ls, x);
    }
    if exists l :: l in ls && l.generator == x {
      var l :| l in ls && l.generator == x;
      ViewIsListed(ls, l);
    }
  }

  // ---------------------------------------------------------------------------
  // The Add button and its menu.

  /** The Add button is disabled when there are order - 1 distinct keys (the identity has no arrow). */
  predicate AddDisabledFor(ls: seq<Line>, order: nat) {
    |Distinct(Hashes(ls))| == order - 1
  }

  lemma AddDisabledIffAllPairs(ls: seq<Line>, order: nat)
    ensures AddDisabledFor(ls, order) <==> |Distinct(ls)| == order - 1
  {
    DistinctHashes(ls);
  }

  /** The elements offered by the Add menu: not the identity and not already listed, in order. */
  function Addable(elements: seq<nat>, rows: seq<Row>): seq<nat>
    decreases |elements|
  {
    if elements == [] then []
    else
      var e := elements[|elements| - 1];
      Addable(elements[..|elements| - 1], rows) + (if e != 0 && !Listed(rows, e) then [e] else [])
  }

  lemma {:induction false} AddableMembers(elements: seq<nat>, rows: seq<Row>, x: nat)
    ensures x in Addable(elements, rows) <==> x in elements && x != 0 && !Listed(rows, x)
    decreases |elements|
  {
    if elements != [] {
      var init := elements[..|elements| - 1];
      AddableMembers(init, rows, x);
      assert elements == init + [elements[|elements| - 1]];
    }
  }

  /** The menu keeps the order of the group's elements: it distributes over concatenation. */
  lemma {:induction false} AddableAppend(a: seq<nat>, b: seq<nat>, rows: seq<Row>)
    ensures Addable(a + b, rows) == Addable(a, rows) + Addable(b, rows)
    decreases |b|
  {
    if b == [] {
      assert a + b == a;
    } else {
      var init := b[..|b| - 1];
      assert (a + b)[..|a + b| - 1] == a + init;
      AddableAppend(a, init, rows);
    }
  }

  /** makeArrowList: the reduce over Group.elements that pushes each addable element. */
  method MakeArrowList(elements: seq<nat>, rows: seq<Row>) returns (menu: seq<nat>)
    ensures menu == Addable(elements, rows)
  {
    menu := [];
    var k := 0;
    while k < |elements|
      invariant 0 <= k <= |elements|
      invariant menu == Addable(elements[..k], rows)
    {
      assert elements[..k + 1][..k] == elements[..k];
      var element := elements[k];
      // skip 0 and every element that already has a row
      if element != 0 && !Listed(rows, element) {
        menu := menu + [element];
      }
      k := k + 1;
    }
    assert elements[..|elements|] == elements;
  }

  /**
   * With the rows of the view's arrows, the menu offers exactly the
   * non-identity elements that no arrow of the view follows.
   */
  lemma AddableIffNotInView(elements: seq<nat>, ls: seq<Line>, x: nat)
    ensures x in Addable(elements, RowsFor(ls)) <==>
              x in elements && x != 0 && forall l :: l in ls ==> l.generator != x
  {
    AddableMembers(elements, RowsFor(ls), x);
    ListedIffInView(ls, x);
  }

  // ---------------------------------------------------------------------------
  // Selecting a row.

  /** The rows `$('#arrow-list li[arrow=e]')` finds. */
  function RowsShowing(rows: seq<Row>, e: nat): set<nat> {
    set k: nat | k < |rows| && rows[k].arrow == Str(e)
  }

  /** Selecting e highlights exactly the rows of the view's arrows that follow generator e. */
  lemma SelectedRowsFollow(ls: seq<Line>, e: nat)
    ensures forall k: nat :: k in RowsShowing(RowsFor(ls), e) <==> k < |Distinct(ls)| && Distinct(ls)[k].generator == e
  {
    RowsForDistinctPairs(ls);
    forall k: nat | k < |Distinct(ls)| ensures RowsFor(ls)[k].arrow == Str(e) <==> Distinct(ls)[k].generator == e {
      StrInjective(Distinct(ls)[k].generator, e);
    }
  }

  // ---------------------------------------------------------------------------
  // The page state the static methods of Arrow change.

  class ArrowPanel {
    /** Group.order and Group.elements of the diagram's group. */
    const order: nat
    const elements: seq<nat>
    /** Cayley_Diagram_View.arrows */
    var viewArrows: seq<Line>
    /** the items of #arrow-list */
    var rows: seq<Row>
    /** positions of the items with class 'highlighted' */
    var highlighted: set<nat>
    /** #remove-arrow-button: disabled, and the element its action removes */
    var removeDisabled: bool
    var removeTarget: Option<nat>
    /** #add-arrow-button: disabled */
    var addDisabled: bool
    /** the items of the Add menu */
    var menu: seq<nat>

    /** The list shows the view's arrows and the Add button follows the rule. */
    ghost predicate Valid()
      reads this
    {
      rows == RowsFor(viewArrows) &&
      addDisabled == AddDisabledFor(viewArrows, order) &&
      forall k :: k in highlighted ==> k < |rows|
    }

    constructor (order: nat, elements: seq<nat>, arrows: seq<Line>)
      ensures Valid()
      ensures this.order == order && this.elements == elements && viewArrows == arrows
      ensures highlighted == {} && removeDisabled && removeTarget == None && menu == []
    {
      this.order := order;
      this.elements := elements;
      viewArrows := arrows;
      rows := [];
      highlighted := {};
      removeDisabled := true;
      removeTarget := None;
      addDisabled := false;
      menu := [];
      new;
      UpdateArrows();
    }

    /** enable: the Add button is enabled. */
    method Enable()
      modifies this`addDisabled
      ensures !addDisabled
    {
      addDisabled := false;
    }

    /** disable: the Add button is disabled. */
    method Disable()
      modifies this`addDisabled
      ensures addDisabled
    {
      addDisabled := true;
    }

    /**
     * updateArrows: clears the list, then adds one row per distinct key of
     * the view's arrows and sets the Add button by the count.
     */
    method UpdateArrows()
      modifies this`rows, this`highlighted, this`addDisabled
      ensures Valid()
      ensures rows == RowsFor(viewArrows) && highlighted == {}
      ensures addDisabled <==> |Distinct(viewArrows)| == order - 1
    {
      rows := [];
      highlighted := {};
      var hashes := CollectHashes(viewArrows);
      var k := 0;
      while k < |hashes|
        invariant 0 <= k <= |hashes|
        invariant rows == seq(k, m requires 0 <= m < k => RowOfHash(hashes[m]))
        invariant highlighted == {}
      {
        var element := SliceHead(hashes[k], 7);
        var colour := SliceTail(hashes[k], 7);
        rows := rows + [Row(element, colour)];
        k := k + 1;
      }
      if |hashes| == order - 1 {
        Disable();
      } else {
        Enable();
      }
      AddDisabledIffAllPairs(viewArrows, order);
    }

    /** getAllArrows: the `arrow` attribute of every row, read with parseInt. */
    function GetAllArrows(): (r: seq<Option<nat>>)
      reads this
      requires Valid()
      ensures |r| == |Distinct(viewArrows)|
      ensures forall k :: 0 <= k < |r| ==> r[k] == Some(Distinct(viewArrows)[k].generator)
    {
      RowsForDistinctPairs(viewArrows);
      ParseRows(viewArrows);
      var rs := rows;
      seq(|rs|, k requires 0 <= k < |rs| => ParseInt(rs[k].arrow))
    }

    /** selectArrow(e): only the rows of e are highlighted; Remove is enabled and removes e. */
    method SelectArrow(e: nat)
      requires Valid()
      modifies this`highlighted, this`removeTarget, this`removeDisabled
      ensures Valid()
      ensures highlighted == RowsShowing(rows, e)
      ensures removeTarget == Some(e) && !removeDisabled
    {
      highlighted := RowsShowing(rows, e);
      removeTarget := Some(e);
      removeDisabled := false;
    }

    /** showArrowMenu: the menu lists the addable elements. */
    method ShowArrowMenu()
      requires Valid()
      modifies this`menu
      ensures Valid()
      ensures menu == Addable(elements, rows)
      ensures forall x :: x in menu <==> x in elements && x != 0 && forall l :: l in viewArrows ==> l.generator != x
    {
      menu := MakeArrowList(elements, rows);
      forall x ensures x in menu <==> x in elements && x != 0 && forall l :: l in viewArrows ==> l.generator != x {
        AddableIffNotInView(elements, viewArrows, x);
      }
    }

    /**
     * addArrow(e): the view adds an arrow for e, which yields `after` (the
     * view is not part of this model), then the list is rebuilt.
     */
    method AddArrow(e: nat, after: seq<Line>)
      requires Valid()
      modifies this`viewArrows, this`rows, this`highlighted, this`addDisabled
      ensures Valid()
      ensures viewArrows == after && rows == RowsFor(after) && highlighted == {}
    {
      viewArrows := after;
      UpdateArrows();
    }

    /**
     * removeArrow(e): Remove is disabled, the view removes the arrow of e,
     * which yields `after`, then the list is rebuilt.
     */
    method RemoveArrow(e: nat, after: seq<Line>)
      requires Valid()
      modifies this`removeDisabled, this`viewArrows, this`rows, this`highlighted, this`addDisabled
      ensures Valid()
      ensures removeDisabled
      ensures viewArrows == after && rows == RowsFor(after) && highlighted == {}
    {
      removeDisabled := true;
      viewArrows := after;
      UpdateArrows();
    }
  }
}
