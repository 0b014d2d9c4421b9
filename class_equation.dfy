/**
 * The class equation of a finite group as the group-info page prints it, and
 * the rainbow colouring of the group's elements by conjugacy class
 * (js/ClassEquationInfo.js, displayClassEquation and addHighlights).
 */
module ClassEquation {
  import opened Wrappers
  import opened Decimal

  /**
   * The parts of a group the page reads. Each conjugacy class is a bitset over
   * the element indices 0..order-1, modelled as the set of its set bits, so
   * that its popcount is the set's cardinality. `name` is the group's name
   * already converted to display text.
   */
  datatype Group = Group(name: string, url: string, order: nat, isAbelian: bool, classes: seq<set<nat>>)

  /** The popcount of each class, in class order. */
  function Sizes(cs: seq<set<nat>>): (r: seq<nat>)
    ensures |r| == |cs|
    ensures forall i :: 0 <= i < |cs| ==> r[i] == |cs[i]|
  {
    if cs == [] then [] else [|cs[0]|] + Sizes(cs[1..])
  }

  /** The terms written out with " + " between them, as `Array.join(' + ')` does. */
  function Join(ts: seq<nat>): string
  {
    if ts == [] then ""
    else if |ts| == 1 then Str(ts[0])
    else Str(ts[0]) + " + " + Join(ts[1..])
  }

  function Equation(ts: seq<nat>, order: nat): string {
    Join(ts) + " = " + Str(order)
  }

  function Abbreviation(order: nat): string {
    "1 + 1 + ... (" + Str(order) + " times) ... + 1 = " + Str(order)
  }

  /** `every` class has popcount 1 (true of an empty list of classes, as in JavaScript). */
  predicate AllSingletons(cs: seq<set<nat>>) {
    forall i :: 0 <= i < |cs| ==> |cs[i]| == 1
  }

  predicate Abbreviated(g: Group) {
    g.order > 5 && AllSingletons(g.classes)
  }

  /** displayClassEquation, which `summary` returns after storing the group. */
  function DisplayClassEquation(g: Group): string {
    if Abbreviated(g) then Abbreviation(g.order) else Equation(Sizes(g.classes), g.order)
  }

  // ---------------------------------------------------------------------------
  // Reading an equation back: split on " + " and " = ".

  /** `s` starts with the separator " c ". */
  predicate StartsWithSeparator(s: string, c: char) {
    |s| >= 3 && s[0] == ' ' && s[1] == c && s[2] == ' '
  }

  /** The whole of `s` is one number. */
  function ParseWhole(s: string): Option<nat> {
    var k := DigitRun(s);
    if 0 < k == |s| then Some(Value(s)) else None
  }

  /** Terms "t1 + t2 + ... + tk = n" with k >= 1. */
  function ParseTerms(s: string): Option<(seq<nat>, nat)>
    decreases |s|
  {
    var k := DigitRun(s);
    if k == 0 then None
    else
      var v := Value(s[..k]);
      var rest := s[k..];
      if StartsWithSeparator(rest, '+') then
        match ParseTerms(rest[3..])
        case None => None
        case Some(p) => Some(([v] + p.0, p.1))
      else if StartsWithSeparator(rest, '=') then
        match ParseWhole(rest[3..])
        case None => None
        case Some(n) => Some(([v], n))
      else None
  }

  /** The terms and the right-hand side of an equation text, or None. */
  function ParseEquation(s: string): Option<(seq<nat>, nat)> {
    if StartsWithSeparator(s, '=') then
      match ParseWhole(s[3..])
      case None => None
      case Some(n) => Some(([], n))
    else ParseTerms(s)
  }

  lemma ParseWholeOfStr(n: nat)
    ensures ParseWhole(Str(n)) == Some(n)
  {
    DigitRunOfStr(n, "");
    assert Str(n) + "" == Str(n);
    ValueOfStr(n);
  }

  /** A term followed by " = n" reads as the last term and the order. */
  lemma ParseTermsLast(v: nat, n: nat)
    ensures ParseTerms(Str(v) + (" = " + Str(n))) == Some(([v], n))
  {
    var rest := " = " + Str(n);
    assert rest[0] == ' ' && rest[1] == '=';
    DigitRunOfStr(v, rest);
    ValueOfStr(v);
    var s := Str(v) + rest;
    assert s[|Str(v)|..] == rest;
    assert rest[3..] == Str(n);
    ParseWholeOfStr(n);
  }

  /** A term followed by " + " reads as that term in front of the terms after it. */
  lemma ParseTermsNext(v: nat, tail: string, vs: seq<nat>, n: nat)
    requires ParseTerms(tail) == Some((vs, n))
    ensures ParseTerms(Str(v) + (" + " + tail)) == Some(([v] + vs, n))
  {
    var rest := " + " + tail;
    assert rest[0] == ' ';
    DigitRunOfStr(v, rest);
    ValueOfStr(v);
    var s := Str(v) + rest;
    assert s[|Str(v)|..] == rest;
    assert rest[3..] == tail;
  }

  lemma EquationSplit(ts: seq<nat>, n: nat)
    requires |ts| > 0
    ensures |ts| == 1 ==> Equation(ts, n) == Str(ts[0]) + (" = " + Str(n))
    ensures |ts| > 1 ==> Equation(ts, n) == Str(ts[0]) + (" + " + Equation(ts[1..], n))
  {
  }

  lemma {:induction false} ParseTermsOfEquation(ts: seq<nat>, n: nat)
    requires |ts| > 0
    ensures ParseTerms(Equation(ts, n)) == Some((ts, n))
  {
    EquationSplit(ts, n);
    if |ts| == 1 {
      ParseTermsLast(ts[0], n);
      assert [ts[0]] == ts;
    } else {
      var tail := Equation(ts[1..], n);
      ParseTermsOfEquation(ts[1..], n);
      ParseTermsNext(ts[0], tail, ts[1..], n);
      assert [ts[0]] + ts[1..] == ts;
    }
  }

  /** Splitting an equation text recovers exactly its terms and right-hand side. */
  lemma EquationRoundTrip(ts: seq<nat>, n: nat)
    ensures ParseEquation(Equation(ts, n)) == Some((ts, n))
  {
    var s := Equation(ts, n);
    if ts == [] {
      assert s == " = " + Str(n);
      assert s[3..] == Str(n);
      ParseWholeOfStr(n);
    } else {
      assert s[0] == Str(ts[0])[0];
      ParseTermsOfEquation(ts, n);
    }
  }

  /** The characters an unabbreviated equation is made of. */
  predicate EquationChar(c: char) {
    IsDigit(c) || c == ' ' || c == '+' || c == '='
  }

  lemma {:induction false} JoinChars(ts: seq<nat>)
    ensures forall k :: 0 <= k < |Join(ts)| ==> EquationChar(Join(ts)[k])
  {
    if |ts| > 1 {
      JoinChars(ts[1..]);
    }
  }

  lemma EquationHasNoDot(ts: seq<nat>, n: nat)
    ensures '.' !in Equation(ts, n)
  {
    JoinChars(ts);
    var s := Equation(ts, n);
    forall k | 0 <= k < |s| ensures s[k] != '.' {
      if k >= |Join(ts)| + 3 {
        assert s[k] == Str(n)[k - |Join(ts)| - 3];
      }
    }
  }

  /**
   * The abbreviated text "1 + 1 + ... (N times) ... + 1 = N" is printed
   * exactly when the order exceeds 5 and every class has popcount 1;
   * otherwise the text splits back into the class sizes and the order.
   */
  lemma DisplayClassEquationCases(g: Group)
    ensures DisplayClassEquation(g) == Abbreviation(g.order) <==> Abbreviated(g)
    ensures !Abbreviated(g) ==> ParseEquation(DisplayClassEquation(g)) == Some((Sizes(g.classes), g.order))
  {
    if !Abbreviated(g) {
      EquationHasNoDot(Sizes(g.classes), g.order);
      assert Abbreviation(g.order)[8] == '.';
      EquationRoundTrip(Sizes(g.classes), g.order);
    }
  }

  // ---------------------------------------------------------------------------
  // Partitions: the classes of a group are disjoint and cover its elements.

  function Sum(ts: seq<nat>): nat {
    if ts == [] then 0 else ts[0] + Sum(ts[1..])
  }

  function Union(cs: seq<set<nat>>): set<nat> {
    if cs == [] then {} else cs[0] + Union(cs[1..])
  }

  /** The element indices 0..n-1. */
  function Range(n: nat): set<nat> {
    if n == 0 then {} else Range(n - 1) + {n - 1}
  }

  lemma {:induction false} InRange(n: nat, x: nat)
    ensures x in Range(n) <==> x < n
  {
    if n > 0 {
      InRange(n - 1, x);
    }
  }

  predicate PairwiseDisjoint(cs: seq<set<nat>>) {
    forall i, j :: 0 <= i < j < |cs| ==> cs[i] !! cs[j]
  }

  /** The classes partition the elements 0..order-1. */
  predicate IsPartition(cs: seq<set<nat>>, order: nat) {
    PairwiseDisjoint(cs) && Union(cs) == Range(order)
  }

  lemma {:induction false} InUnion(cs: seq<set<nat>>, x: nat)
    ensures x in Union(cs) <==> exists i :: 0 <= i < |cs| && x in cs[i]
  {
    if cs != [] {
      InUnion(cs[1..], x);
      if x in Union(cs[1..]) {
        var i :| 0 <= i < |cs[1..]| && x in cs[1..][i];
        assert x in cs[i + 1];
      }
      if exists i :: 0 <= i < |cs| && x in cs[i] {
        var i :| 0 <= i < |cs| && x in cs[i];
        if i > 0 {
          assert x in cs[1..][i - 1];
        }
      }
    }
  }

  lemma {:induction false} RangeSize(n: nat)
    ensures |Range(n)| == n
  {
    if n > 0 {
      InRange(n - 1, n - 1);
      RangeSize(n - 1);
    }
  }

  lemma {:induction false} SumOfSizesIsUnionSize(cs: seq<set<nat>>)
    requires PairwiseDisjoint(cs)
    ensures Sum(Sizes(cs)) == |Union(cs)|
  {
    if cs != [] {
      assert Sizes(cs)[1..] == Sizes(cs[1..]);
      SumOfSizesIsUnionSize(cs[1..]);
      forall x | x in cs[0] ensures x !in Union(cs[1..]) {
        InUnion(cs[1..], x);
      }
      assert cs[0] * Union(cs[1..]) == {};
    }
  }

  lemma {:induction false} SumOfOnes(cs: seq<set<nat>>)
    requires AllSingletons(cs)
    ensures Sum(Sizes(cs)) == |cs|
  {
    if cs != [] {
      assert Sizes(cs)[1..] == Sizes(cs[1..]);
      SumOfOnes(cs[1..]);
    }
  }

  /**
   * For the conjugacy classes of a group (a partition of its elements) the
   * printed terms add up to the printed order, and in the abbreviated case
   * the "N times" is the number of classes.
   */
  lemma ClassEquationBalances(g: Group)
    requires IsPartition(g.classes, g.order)
    ensures Sum(Sizes(g.classes)) == g.order
    ensures Abbreviated(g) ==> |g.classes| == g.order
  {
    SumOfSizesIsUnionSize(g.classes);
    RangeSize(g.order);
    if Abbreviated(g) {
      SumOfOnes(g.classes);
    }
  }

  /** Five classes of one element each have sizes 1, 1, 1, 1, 1. */
  lemma SizesOfFiveSingletons()
    ensures Sizes([{0}, {1}, {2}, {3}, {4}]) == [1, 1, 1, 1, 1]
  {
    var cs: seq<set<nat>> := [{0}, {1}, {2}, {3}, {4}];
    var r := Sizes(cs);
    assert |r| == 5 && r[0] == 1 && r[1] == 1 && r[2] == 1 && r[3] == 1 && r[4] == 1;
  }

  /**
   * An abelian group of order 5 (five one-element classes) is not
   * abbreviated: its equation is written out in full.
   */
  lemma OrderFiveIsWrittenOut()
    ensures DisplayClassEquation(Group("", "", 5, true, [{0}, {1}, {2}, {3}, {4}])) == Equation([1, 1, 1, 1, 1], 5)
  {
    SizesOfFiveSingletons();
  }

  // ---------------------------------------------------------------------------
  // Highlighting: colouring elements by conjugacy class.

  /**
   * A background colour: Blank is the empty string the array starts filled
   * with, Rainbow(i, n) the colour GEUtils.fromRainbow gives for i / n.
   */
  datatype Colour = Blank | Rainbow(index: nat, count: nat)

  /**
   * addHighlights(i, array): every position of class i takes class i's
   * colour, every other position keeps its colour; a missing array is first
   * an array of `order` blanks.
   */
  function AddHighlights(g: Group, i: nat, arr: Option<seq<Colour>>): (r: seq<Colour>)
    requires i < |g.classes|
    ensures |r| == if arr.None? then g.order else |arr.value|
    ensures forall j :: 0 <= j < |r| && j in g.classes[i] ==> r[j] == Rainbow(i, |g.classes|)
    ensures forall j :: 0 <= j < |r| && j !in g.classes[i] && arr.Some? ==> r[j] == arr.value[j]
    ensures forall j :: 0 <= j < |r| && j !in g.classes[i] && arr.None? ==> r[j] == Blank
  {
    var base := if arr.None? then seq(g.order, _ => Blank) else arr.value;
    seq(|base|, j requires 0 <= j < |base| => if j in g.classes[i] then Rainbow(i, |g.classes|) else base[j])
  }

  /** The last class, if any, that contains element j. */
  function LastContaining(cs: seq<set<nat>>, j: int): (r: Option<nat>)
    ensures r.None? ==> forall i :: 0 <= i < |cs| ==> j !in cs[i]
    ensures r.Some? ==> r.value < |cs| && j in cs[r.value]
    ensures r.Some? ==> forall i :: r.value < i < |cs| ==> j !in cs[i]
  {
    if cs == [] then None
    else if j in cs[|cs| - 1] then Some(|cs| - 1)
    else LastContaining(cs[..|cs| - 1], j)
  }

  /** The colour of element j once classes cs have been highlighted, n classes in all. */
  function ColourOf(cs: seq<set<nat>>, j: int, n: nat): Colour {
    match LastContaining(cs, j)
    case None => Blank
    case Some(i) => Rainbow(i, n)
  }

  /**
   * The background of the whole-group visualizer: null when there are no
   * classes, otherwise each element in the colour of the last class holding it.
   */
  function RainbowBackground(g: Group): Option<seq<Colour>> {
    if g.classes == [] then None
    else Some(seq(g.order, j => ColourOf(g.classes, j, |g.classes|)))
  }

  /** The loop `highlights = addHighlights(i, highlights)` over every class, from null. */
  method RainbowHighlights(g: Group) returns (highlights: Option<seq<Colour>>)
    ensures highlights == RainbowBackground(g)
  {
    var n := |g.classes|;
    highlights := None;
    var i := 0;
    while i < n
      invariant 0 <= i <= n
      invariant i == 0 ==> highlights == None
      invariant i > 0 ==> highlights.Some? && |highlights.value| == g.order
      invariant i > 0 ==> forall j :: 0 <= j < g.order ==> highlights.value[j] == ColourOf(g.classes[..i], j, n)
    {
      assert g.classes[..i + 1][..i] == g.classes[..i];
      highlights := Some(AddHighlights(g, i, highlights));
      i := i + 1;
    }
    assert g.classes[..n] == g.classes;
    if n > 0 {
      var want := seq(g.order, j => ColourOf(g.classes, j, n));
      assert forall j :: 0 <= j < g.order ==> highlights.value[j] == want[j];
      assert highlights.value == want;
    }
  }

  /**
   * For a partition, every element is coloured by the one class holding it:
   * its colour is class i's exactly when it belongs to class i.
   */
  lemma RainbowColoursPartition(g: Group, j: nat)
    requires IsPartition(g.classes, g.order)
    requires j < g.order
    ensures RainbowBackground(g).Some? && |RainbowBackground(g).value| == g.order
    ensures forall i :: 0 <= i < |g.classes| ==>
              (RainbowBackground(g).value[j] == Rainbow(i, |g.classes|) <==> j in g.classes[i])
  {
    InRange(g.order, j);
    InUnion(g.classes, j);
    var k :| 0 <= k < |g.classes| && j in g.classes[k];
    var last := LastContaining(g.classes, j);
    assert last.Some?;
  }
}
