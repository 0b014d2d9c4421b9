# Class equation and arrow list of Group Explorer, in Dafny

This project models two self-contained pieces of Group Explorer, an
interactive visualizer for finite groups.

* **The class equation** (`js/ClassEquationInfo.js`). The group-info page
  prints a group's class equation: the size of each conjugacy class, joined
  by `" + "`, then `" = "` and the group order. When the order is above 5
  and every class has one element, the equation is abbreviated to
  `"1 + 1 + ... (N times) ... + 1 = N"`. The page can also open the equation
  as a sheet. The sheet has a title, then one column per class: the class size
  above a visualizer with that class highlighted, and after it a `+` or `=`
  in each row. Last come the order and the whole group, coloured class by
  class. For an abelian group of order above 5 the sheet draws only five
  columns: classes 0, 1 and 2, an ellipsis, and the last class.
* **The arrow list** (`diagramController/Arrow.js`). The Cayley-diagram page
  lists the arrows the diagram shows. The list is rebuilt by turning each
  arrow into the string key `generator#rrggbb`, de-duplicating the keys
  through a JavaScript `Set`, and cutting each key back into an element and
  a colour. Around the list sit the Add button, which is disabled when the
  number of distinct keys equals the order minus one, the menu of arrows that
  can still be added, and the row selection that arms the Remove button. The
  count does not by itself mean that every non-identity element has an
  arrow: two arrows of one generator in different colours are two keys.

Modules, one per concern:

* `Wrappers`: `Option`, which also stands for JavaScript's null and NaN.
* `Decimal`: the decimal text JavaScript writes for a non-negative number,
  and `parseInt` of such text.
* `ClassEquation`: the printed equation and its parse-back, the partition
  arithmetic, `addHighlights` and the rainbow fold.
* `ClassEquationSheet`: `fakeN`, `fakeIndex`, the signs, and the sheet's
  element list.
* `Arrow`: the key encoding, `Set` de-duplication, the Add-menu filter, and
  the class `ArrowPanel`. Its fields are the DOM state and the view's arrow
  list that the static methods of `Arrow` read and change.

How the model is built:

* A conjugacy class is a bitset over the element indices. The model takes it
  as a `set<nat>`, so its `popcount` is the set's cardinality.
* `displayClassEquation` and `addHighlights` are pure, so they are functions.
* The two loops of `showAsSheet` are methods: `ShowAsSheet` with
  `PushColumn`, and `RainbowHighlights`. Each is proved equal to a
  specification function (`Sheet`, `RainbowBackground`). Lemmas then state
  the layout facts about those functions.
* The module-level `Group` that `summary` and `formatClassEquation` assign is
  passed to each function as a parameter. `summary` is `DisplayClassEquation`
  of its argument.

Two things the code does not do itself:

* `displayClassEquation` never checks that the printed terms add up to the
  order. The model proves this holds whenever the classes partition the
  group (`ClassEquationBalances`).
* The subset registry of `subsetDisplay/` is not part of this model. Its
  classes are not among the files modelled.

## Model

| member | source | states |
|---|---|---|
| `Decimal.Str` | js/ClassEquationInfo.js:92 | a number's template-string text is non-empty, all digits, and has no leading zero |
| `Decimal.ValueOfStr` | js/ClassEquationInfo.js:97 | the digits of `${n}` denote n |
| `Decimal.StrInjective` | diagramController/Arrow.js:105 | two generators give the same text exactly when they are equal |
| `Decimal.DigitRun` | diagramController/Arrow.js:45 | the longest prefix made of digits, which ends at a non-digit or at the end; for a number's decimal text followed by a non-digit it is the run parseInt reads |
| `Decimal.ParseInt` | diagramController/Arrow.js:45 | parseInt of decimal text: the value of the leading digit run, or None (NaN) when the text does not start with a digit; exact for a number's decimal text followed by a non-digit |
| `Decimal.ParseIntOfStr` | diagramController/Arrow.js:45 | parseInt of a number's text, followed by a non-digit or nothing, gives the number back |
| `ClassEquation.Sizes` | js/ClassEquationInfo.js:95 | the i-th term is the popcount of class i, one term per class |
| `ClassEquation.Join` | js/ClassEquationInfo.js:94-96 | the class sizes written in decimal with " + " between them, as `join(' + ')` |
| `ClassEquation.Abbreviation` | js/ClassEquationInfo.js:92 | the text "1 + 1 + ... (N times) ... + 1 = N" for order N |
| `ClassEquation.DisplayClassEquation` | js/ClassEquationInfo.js:90-99 | the abbreviation when the order is above 5 and every class has one element, otherwise the joined sizes, " = " and the order |
| `ClassEquation.ParseEquation` | js/ClassEquationInfo.js:94-97 | an independent reader of the printed equation: splits on " + " and " = " back into terms and order, or None for text of another shape |
| `ClassEquation.DisplayClassEquationCases` | js/ClassEquationInfo.js:90-99 | the abbreviated text appears exactly when order > 5 and every class has popcount 1; otherwise the text splits back into the class sizes in class order and the order |
| `ClassEquation.EquationRoundTrip` | js/ClassEquationInfo.js:94-97 | splitting `sizes.join(' + ') + ' = ' + order` on " + " and " = " gives back exactly the sizes and the order, also for no classes |
| `ClassEquation.ParseTermsOfEquation` | js/ClassEquationInfo.js:94-97 | a non-empty term list joined with " + " and followed by " = order" reads back term by term |
| `ClassEquation.EquationHasNoDot` | js/ClassEquationInfo.js:94-97 | the written-out equation contains no '.', so it can never equal the abbreviated text |
| `ClassEquation.ClassEquationBalances` | js/ClassEquationInfo.js:91-97 | for classes that partition 0..order-1, the printed terms sum to the printed order, and in the abbreviated case the number of classes is the order |
| `ClassEquation.SumOfSizesIsUnionSize` | js/ClassEquationInfo.js:95 | for pairwise disjoint classes, the sum of the popcounts is the size of their union |
| `ClassEquation.RangeSize` | js/ClassEquationInfo.js:102 | the element indices 0..order-1 number exactly order |
| `ClassEquation.OrderFiveIsWrittenOut` | js/ClassEquationInfo.js:91-97 | a group of order 5 with five singleton classes is not abbreviated: it prints the full equation of five terms 1 and the order 5 |
| `ClassEquation.AddHighlights` | js/ClassEquationInfo.js:101-104 | the result is as long as the given array, or order long when none is given; a position takes class i's colour when it is in class i and otherwise keeps its colour (blank for a fresh array) |
| `ClassEquation.LastContaining` | js/ClassEquationInfo.js:173-174 | the class it returns contains the element and no later class does; None means no class contains it |
| `ClassEquation.RainbowBackground` | js/ClassEquationInfo.js:173-174 | the fold of addHighlights over all classes in closed form: null when there are no classes, else each element coloured by the last class containing it, blank if none |
| `ClassEquation.RainbowHighlights` | js/ClassEquationInfo.js:173-174 | folding addHighlights over every class from null gives null for no classes, otherwise each element in the colour of the last class containing it |
| `ClassEquation.RainbowColoursPartition` | js/ClassEquationInfo.js:173-178 | for a partition, element j gets class i's colour exactly when j is in class i |
| `ClassEquationSheet.FakeN` | js/ClassEquationInfo.js:111 | the number of columns: 5 for an abelian group of order above 5, otherwise the number of classes |
| `ClassEquationSheet.FakeIndex` | js/ClassEquationInfo.js:122-123 | each column shows an existing class or is the ellipsis (-1) |
| `ClassEquationSheet.SignText` | js/ClassEquationInfo.js:156 | "+" after column i while its class index is below n - 1, else "=" |
| `ClassEquationSheet.Column` | js/ClassEquationInfo.js:124-162 | the four elements a pass of the first loop pushes: two ellipses or the class size and the highlighted class, then the sign twice |
| `ClassEquationSheet.Sheet` | js/ClassEquationInfo.js:113-179 | the element list: the title, columns 0..fakeN-1, the order text and the whole group coloured by the rainbow fold |
| `ClassEquationSheet.FakeIndexColumns` | js/ClassEquationInfo.js:111-123 | fakeIndex is the identity when fakeN equals the number of classes; otherwise the group is abelian of order above 5, fakeN is 5, and columns 0..4 show 0, 1, 2, -1 and n-1 |
| `ClassEquationSheet.CellIsColumn` | js/ClassEquationInfo.js:113-163 | the loop lays the columns out in order after the title: element 1+4i+r of the sheet is element r of column i |
| `ClassEquationSheet.PushColumn` | js/ClassEquationInfo.js:122-162 | one pass of the loop appends exactly the four elements of column i |
| `ClassEquationSheet.ShowAsSheet` | js/ClassEquationInfo.js:106-179 | the element list built is the sheet: title, the columns in order, the order text and the rainbow-coloured whole group |
| `ClassEquationSheet.SheetColumn` | js/ClassEquationInfo.js:124-162 | the elements 1+4i .. 4+4i of the sheet are column i: cells at x = 50+150i, signs at x = 150+150i |
| `ClassEquationSheet.SheetLayout` | js/ClassEquationInfo.js:113-179 | the sheet has 1 + 4*fakeN + 2 elements: its title first, then the columns, then the order text and the whole group at x = 50+150*fakeN |
| `ClassEquationSheet.EqualsOnlyInLastColumn` | js/ClassEquationInfo.js:153-162 | when the sheet is not abbreviated, or has more than three classes, each row shows "=" after column i exactly when i is the last column |
| `ClassEquationSheet.ThreeClassesShowTwoEquals` | js/ClassEquationInfo.js:122-162 | an abbreviated sheet with exactly three classes shows "=" twice in a row, after columns 2 and 4 |
| `Arrow.Hash` | diagramController/Arrow.js:105 | an arrow's Set key: the generator's decimal text, "#", and the six hex digits of its colour |
| `Arrow.SliceHead` | diagramController/Arrow.js:108 | JavaScript `slice(0, -k)`: all but the last k characters, "" when the text is shorter, and "" for k = 0 |
| `Arrow.SliceTail` | diagramController/Arrow.js:109 | JavaScript `slice(-k)`: the last k characters, the whole text when it is shorter or k = 0 |
| `Arrow.RowOfHash` | diagramController/Arrow.js:107-110 | a key cut back into a row: everything before the last seven characters, and those seven |
| `Arrow.Hashes` | diagramController/Arrow.js:104-106 | one key per arrow, in the view's order |
| `Arrow.DecodeHash` | diagramController/Arrow.js:104-109 | slice(0,-7) and slice(-7) of an arrow's key give the generator's text and "#" plus the six-digit colour |
| `Arrow.HashInjective` | diagramController/Arrow.js:104-106 | two arrows share a key exactly when they share generator and colour |
| `Arrow.Distinct` | diagramController/Arrow.js:104 | the contents of `new Set(...)`: each value once, kept where it first occurs |
| `Arrow.FirstIndex` | diagramController/Arrow.js:104 | the position of the first occurrence of a value in the list |
| `Arrow.DistinctElements` | diagramController/Arrow.js:104 | a value is in the Set exactly when it is in the list |
| `Arrow.DistinctSpec` | diagramController/Arrow.js:104-107 | the Set holds every value of the list, each once, in the order of first occurrence |
| `Arrow.HashInHashes` | diagramController/Arrow.js:104-106 | an arrow's key is among the keys of a list exactly when the arrow is in the list |
| `Arrow.DistinctHashes` | diagramController/Arrow.js:104-106 | de-duplicating the keys equals encoding the de-duplicated arrows |
| `Arrow.CollectHashes` | diagramController/Arrow.js:104-106 | building the Set from the keys gives the distinct keys in first-occurrence order |
| `Arrow.RowsFor` | diagramController/Arrow.js:104-111 | the rows updateArrows appends: one per distinct key, in Set order, cut back by RowOfHash |
| `Arrow.RowsForDistinctPairs` | diagramController/Arrow.js:104-111 | the list has one row per distinct (generator, colour) pair, in first-occurrence order, with the generator's text and "#colour" |
| `Arrow.Listed` | diagramController/Arrow.js:59 | `$('#arrow-list li[arrow=x]').length != 0`: some row's `arrow` is the text of x |
| `Arrow.ListedIffInView` | diagramController/Arrow.js:59 | a row with `arrow` equal to x exists exactly when some arrow of the view follows generator x |
| `Arrow.AddDisabledFor` | diagramController/Arrow.js:112 | the Add button is disabled when the number of distinct keys is order - 1 |
| `Arrow.AddDisabledIffAllPairs` | diagramController/Arrow.js:112-116 | the Add button is disabled exactly when the number of distinct pairs is order - 1 |
| `Arrow.Addable` | diagramController/Arrow.js:56-63 | the reduce over Group.elements: the elements that are not 0 and not Listed, in order |
| `Arrow.AddableMembers` | diagramController/Arrow.js:56-63 | an element is offered exactly when it is a group element, not the identity 0 and not already listed |
| `Arrow.AddableAppend` | diagramController/Arrow.js:56-63 | the offer keeps the order of Group.elements: filtering a concatenation concatenates the filtered parts |
| `Arrow.MakeArrowList` | diagramController/Arrow.js:54-66 | the reduce pushes exactly the addable elements, in Group.elements order |
| `Arrow.AddableIffNotInView` | diagramController/Arrow.js:56-63 | with the rows of the view's arrows, the menu offers exactly the non-identity elements no arrow of the view follows |
| `Arrow.RowsShowing` | diagramController/Arrow.js:38 | the positions of the rows `li[arrow=e]` selects |
| `Arrow.SelectedRowsFollow` | diagramController/Arrow.js:37-38 | selecting e highlights exactly the rows whose arrow follows generator e |
| `Arrow.ParseRows` | diagramController/Arrow.js:45 | every row's `arrow` attribute parses back to the generator of its arrow |
| `Arrow.ArrowPanel.constructor` | diagramController/Arrow.js:99-117 | a panel starts with the rows of its view's arrows, nothing highlighted and Remove disabled |
| `Arrow.ArrowPanel.Enable` | diagramController/Arrow.js:120-122 | the Add button is enabled |
| `Arrow.ArrowPanel.Disable` | diagramController/Arrow.js:125-127 | the Add button is disabled |
| `Arrow.ArrowPanel.UpdateArrows` | diagramController/Arrow.js:99-117 | the old rows are gone with their highlights; the new rows are those of the view's distinct pairs; Add is disabled exactly when there are order - 1 of them |
| `Arrow.ArrowPanel.GetAllArrows` | diagramController/Arrow.js:44-46 | parseInt of each row's attribute gives the generators of the distinct pairs, in list order |
| `Arrow.ArrowPanel.SelectArrow` | diagramController/Arrow.js:35-41 | only the rows whose `arrow` is e are highlighted; Remove is enabled and aimed at e |
| `Arrow.ArrowPanel.ShowArrowMenu` | diagramController/Arrow.js:52-72 | the menu lists exactly the elements that are not the identity and that no arrow of the view follows |
| `Arrow.ArrowPanel.AddArrow` | diagramController/Arrow.js:78-82 | after the view adds the arrow, the list is rebuilt from the view |
| `Arrow.ArrowPanel.RemoveArrow` | diagramController/Arrow.js:89-93 | Remove is disabled; after the view drops the arrow, the list is rebuilt from the view |

## Left out

- Template loading (`$.ajax` and its Promise) and `display`: this is I/O.
- HTML templating with `eval(Template.HTML(...))`, jQuery DOM construction, MathJax typesetting, the GAP-code cells, and the click-handler wiring in `formatClassEquation` and `showArrowMenu`: this is rendering and event plumbing. `formatClassEquation` only stores the group and builds DOM, so it has no member.
- `GEUtils.fromRainbow(i / n)` computes a floating-point colour. The model uses the symbolic colour `Rainbow(i, n)`, so it does not capture which hues are actually drawn.
- `MathML.toUnicode` of the group name: the group's `name` is taken as already converted.
- `MathML.csList` and the conjugacy-class list of non-abelian groups: rendering only.
- `CreateNewSheet`, the sheet builder: the model stops at the element list it receives.
- `GEUtils.cleanWindow`, which removes popup menus: its code is not part of this model.
- `Menu.addMenus` and where the menu is placed: the model keeps only the menu's items.
- `THREE.Color(...).getHexString()` is a foreign library call. An arrow's colour is taken as its result, which is exactly six hex digits.
- `Cayley_Diagram_View.addArrows` and `removeArrows` are not part of this model. `AddArrow` and `RemoveArrow` take the view's arrow list after that call as a parameter.
- How `XMLGroup` computes `conjugacyClasses`, `isAbelian`, `order` and `elements`: these are inputs. Disjointness and coverage are preconditions only where a property needs them.
- The HTML of a row and of a menu item: a row is its `arrow` attribute plus its colour text, and a menu item is its element.
- `Decimal.ParseInt` covers parseInt only for decimal text, which is all `getAllArrows` ever reads (a number's text, `ParseIntOfStr`). It does not model leading whitespace, signs, the "0x"/"0X" hex prefix (`parseInt("0x1A")` is 26, the model gives 0), or the loss of precision above 2^53.
- `ArrowPanel.constructor` starts from a page state the code never sets up itself: Remove disabled, nothing highlighted, no Remove target and an empty menu.
- `ArrowPanel.SelectArrow`, `ArrowPanel.ShowArrowMenu` and `ArrowPanel.AddArrow` do not close an open menu. `GEUtils.cleanWindow()` does that, but its code is not part of this model. So `menu` keeps its last items until `ShowArrowMenu` replaces them.
- `Str` uses unbounded integers. JavaScript's `${n}` prints plain digits only below 10^21, and a number is exact only below 2^53. Group sizes and element indices stay far below both.
- `ShowAsSheet` requires that an abbreviated sheet have at least three classes. With fewer, the JavaScript reads a class that does not exist and throws. That cannot happen for a real abelian group of order above 5, which has as many classes as elements.
- The subset display (`subsetDisplay/subsets.js`): page loading, DOM clearing and calls into subset classes that are not part of this model.
