# Stone overlay engine — a verified model

This project models the core of a browser extension that draws an overlay
over a Go-like board game running in a web page (`content.js`). The engine
finds the page's game-state object (the object whose `step_history` is an
array) by a depth-first search of the page's object graph. It estimates
the board's pixel spacing from the move history, and maps two-letter grid
codes of pre-positioned stones into pixel space by a quarter-turn about an
anchor step. On each growth of the history it redraws every known stone
plus a highlighted, numbered current stone. A polling watcher, two key
handlers ('t' toggles, 'r' resets) and a resize handler drive it through
five module-level variables.

Modules, one file each:

- `Wrappers` (wrappers.dfy): `Option`.
- `Stones` (stones.dfy): history steps (`x`, `y`, `px`, `py`, each
  optional), grid cells, pixel points, and the game-model object.
- `Geometry` (geometry.dfy): `guessSpacingFromSteps` as a recursive
  first-match scan, with exact `real` arithmetic.
- `Mapper` (mapper.dfy): `coordToXY` with its inverse, and the rotation
  formula of pre-positioned stones.
- `Render` (render.dfy): `drawAllDots` with the canvas replaced by a
  `RenderPlan`. The plan says whether the surface is left untouched,
  only cleared, or drawn, and then gives the radius, the circles drawn and
  the current stone. `DrawAllDots` builds the plan with the source's loops
  over an insertion-ordered map and is proved equal to the function
  `PlanFor`. The lemmas state what `PlanFor` draws.
- `Locator` (locator.dfy): `findStoneModel` as a recursive method that
  threads the visited set through its loop over a finite object graph.
  Objects are node indices. Each node lists its enumerable property values
  (an object reference, a non-object, or a getter that throws). Reading
  `step_history` may also throw.
- `Watcher` (watcher.dfy): the class `OverlayState`. Its fields are the
  module globals `stoneModel`, `lastStepCount`, `overlayVisible` and
  `lastCanvasRect`, plus whether the overlay canvas exists. Its methods are
  the poll tick, the rectangle cache with render, toggle, reset and resize.

## Behaviour worth noting

- The render clears the surface only after its guards pass, not as its
  first step.
- The render gives up when the history has fewer than two entries, counted
  whether usable or not, not when it has fewer than two usable steps.
- A collected point whose pixel x or y is 0 is not drawn, because the code
  tests it for truthiness.

## Model

| member | source | states |
|---|---|---|
| `Geometry.Ratio` | content.js:35-38 | Pixels per grid unit over a qualifying pair: never negative, and zero exactly when both steps sit at the same pixel position |
| `Geometry.GuessSpacing` | content.js:22-43 | The spacing is never negative, and it is 40 when the history is not an array or has fewer than two entries |
| `Geometry.ScanPairs` | content.js:25-42 | The scan over adjacent pairs returns a non-negative spacing (the ratio of a qualifying pair, or the fallback 40) |
| `Geometry.SpacingIsFirstRatio` | content.js:25-39 | When a pair qualifies (all eight fields numeric, grid distance nonzero), the spacing is the pixel Manhattan distance over the grid Manhattan distance of the first such pair |
| `Geometry.SpacingFallsBack` | content.js:23-42 | When no adjacent pair qualifies, the spacing is the fallback 40 |
| `Geometry.SameCellPairSkipped` | content.js:35-38 | A fully numeric pair on the same cell is skipped and the next qualifying pair decides (example) |
| `Geometry.OneStepExample` | content.js:22-43 | Steps (0,0,100,100) then (1,0,140,100) give spacing 40 |
| `Mapper.CoordToXY` | content.js:45-50 | No cell exactly when the code is missing or its length is not 2 |
| `Mapper.XYToCoord` | content.js:45-50 | Inverse of decoding: the two-character code of a cell |
| `Mapper.DecodeEncode` | content.js:45-50 | Decoding a cell's code gives the cell back: x and y are the characters' offsets from 'a' |
| `Mapper.EncodeDecode` | content.js:45-50 | Every two-character code decodes, with no range check, and re-encodes to itself |
| `Mapper.RotateFixesAnchor` | content.js:105-109 | The anchor's own cell maps to the anchor's pixel position |
| `Mapper.RotateIsQuarterTurn` | content.js:105-109 | One cell along x moves one spacing along pixel y; one cell along y moves minus one spacing along pixel x |
| `Mapper.Rotate` | content.js:105-109 | Closed form of the mapping: px = originPx − (gy − originY)·spacing and py = originPy + (gx − originX)·spacing |
| `Mapper.RotateScalesDistance` | content.js:105-109 | For non-negative spacing, the pixel Manhattan distance from the anchor is the grid Manhattan distance times the spacing |
| `Mapper.RotateKeepsRatio` | content.js:105-109 | A pre-positioned stone on another cell than the anchor's, paired with the anchor, qualifies for the spacing estimate and has the spacing as its pixel-to-grid ratio |
| `Mapper.RotateInjective` | content.js:105-109 | With nonzero spacing, distinct cells map to distinct pixel points |
| `Mapper.RotateExample` | content.js:105-109 | Anchor (0,0,100,100), spacing 40, cell (1,0) maps to (100,140) |
| `Render.Put` | content.js:88 | Map set: keys stay distinct, the key maps to the new value, other keys keep theirs, and a new key is appended while an old one keeps its place |
| `Render.PutReplaces` | content.js:88 | Setting a key already present keeps the key order and changes only that key's value |
| `Render.PutAppends` | content.js:88 | Setting an absent key appends it after the existing keys and changes no other key's value |
| `Render.Has` | content.js:103 | Map has: true exactly when some entry holds the cell |
| `Render.Placement` | content.js:79-90 | The position map has one entry per cell and at most one entry per step |
| `Render.PlacementLatest` | content.js:81-90 | A cell has an entry exactly when a usable non-final step lies on it, and the entry holds the pixel position of the latest such step |
| `Render.PlacementOrder` | content.js:79-94 | Entries, and so the placed points, come in the order of each cell's first usable step |
| `Render.FlattenHas` | content.js:97-98 | The codes visited are exactly the codes of all the groups |
| `Render.PreposCells` | content.js:96-103 | At most one pre-positioned cell per code, and none of them is a cell the position map holds |
| `Render.PreposCellsExactly` | content.js:96-103 | A cell is pre-positioned exactly when some code decodes to it and no entry of the position map holds it |
| `Render.Rotated` | content.js:105-111 | Each pre-positioned cell yields its rotated pixel point, in order |
| `Render.Visible` | content.js:116-117 | The circles drawn are exactly the collected points whose px and py are both nonzero |
| `Render.VisibleConcat` | content.js:116-117 | Filtering distributes over concatenation: what is kept of a list, in order, then what is kept of the next |
| `Render.VisibleKeepsTruthy` | content.js:116-117 | A list whose points all have truthy coordinates is drawn whole, in order |
| `Render.VisibleDropsFalsy` | content.js:116-117 | A list whose points each have a falsy coordinate draws nothing |
| `Render.Radius` | content.js:61 | For positive spacing the radius lies strictly between half the spacing and the spacing; zero spacing gives radius 0 |
| `Render.FirstUsable` | content.js:69-72 | The anchor is the first step in history order with all four fields numeric; none is found exactly when no step has them |
| `Render.FirstMoveHasStartColour` | content.js:145-147 | Move 1 has the starting colour |
| `Render.ColourAlternates` | content.js:145-147 | The colour flips from each move to the next |
| `Render.IsBlack` | content.js:146-147 | Black exactly when is_start_black XOR the move number is even |
| `Render.CurrentStoneOf` | content.js:140-147 | A current stone is labelled with the history length, and has the starting colour exactly when that length is odd |
| `Render.CurrentStoneNext` | content.js:140-147 | After one more step the current stone is that step, present exactly when its px and py are truthy; its label grows by one and its colour flips, and the first move has the starting colour |
| `Render.CollectPositions` | content.js:79-90 | The loop builds the position map of all steps but the last |
| `Render.PushPlaced` | content.js:92-94 | The loop pushes the map's values in key order |
| `Render.PushGroup` | content.js:98-112 | The inner loop pushes the rotated point of each code of a group that decodes to an unoccupied cell |
| `Render.PushPrepos` | content.js:96-114 | The nested loops push the pre-positioned points of all groups in order |
| `Render.DrawCircles` | content.js:116-138 | The drawing loop skips every point with a falsy px or py |
| `Render.DrawAllDots` | content.js:52-163 | One render produces exactly the plan `PlanFor` describes |
| `Render.RenderGuards` | content.js:54-72 | Untouched exactly when the model is missing, the history is not an array, or it has fewer than 2 entries; cleared with nothing drawn exactly when, besides, no step is usable |
| `Render.PlanFor` | content.js:52-163 | A drawn plan has a non-negative radius, draws only points whose px and py are truthy, and labels its current stone with a move number of at least 2 |
| `Render.DrawnStonesInOrder` | content.js:92-117 | The circles drawn are the visible placed stones in map order, followed by the visible pre-positioned stones in code order |
| `Render.DrawnRadiusFromPair` | content.js:25-61 | The radius is 0.51 times the pixel-to-grid ratio of the first qualifying pair of history steps, so more than half that ratio and less than all of it when it is positive |
| `Render.DrawnRadiusFallback` | content.js:42-61 | With no qualifying pair, the radius is 20.4 (0.51 times 40) |
| `Render.StoneOrigin` | content.js:79-117 | Every circle drawn has truthy coordinates and is either the latest position of an occupied cell or the rotated point of a decodable code on an unoccupied cell |
| `Render.PlacedStoneDrawn` | content.js:81-94 | The latest position of every occupied cell (last step excluded) is drawn unless a coordinate is 0 |
| `Render.LatestInPlacement` | content.js:81-89 | The placement map holds the latest position of every cell a step occupies |
| `Render.PlacedOrigin` | content.js:81-89 | Every value of the placement map is the latest position of some occupied cell |
| `Render.CollectedOrigin` | content.js:79-111 | Every collected point is the latest position of an occupied cell or the rotated point of a decodable code on an unoccupied cell |
| `Render.PreposOrigin` | content.js:96-111 | Every pre-positioned point comes from a decodable code whose cell no step occupies, mapped through the rotation |
| `Render.PreposStoneDrawn` | content.js:96-111 | Every decodable pre-positioned code on an unoccupied cell is drawn at its rotated point unless a coordinate is 0 |
| `Render.OccupiedCellSuppressed` | content.js:102-103 | A code whose cell a non-final step occupies yields no pre-positioned stone |
| `Locator.Dfs` | content.js:7-20 | The reference depth-first search over properties in enumeration order: the visited set only grows and stays within the graph |
| `Locator.Search` | content.js:7-20 | The search returns what the reference search `Dfs` returns. Each node is visited at most once and never one already visited. A result is the last node visited and has an array step_history, and no earlier visited node has one. With no result, every visited node has all its readable object properties visited. The visit order starts at the start node and every node in it is reachable |
| `Locator.FindStoneModel` | content.js:7-20 | The search terminates on any finite, even cyclic, graph. The result is the first node in depth-first enumeration order whose step_history is an array; a result is reachable from the root. No result means no node the search can reach has one |
| `Locator.SelfReferenceExample` | content.js:7-9 | A self-referential object with no model: the search ends and finds nothing |
| `Locator.FirstOfTwoExample` | content.js:13-16 | With two models behind the root's first and second properties, the first is returned |
| `Locator.CycleBeforeModelExample` | content.js:13-18 | A self-cycle, a throwing getter and a primitive come before the model; the search gets past all three and finds it |
| `Watcher.HistoryLength` | content.js:203 | The length is read exactly when the cached object still has an array step_history |
| `Watcher.OverlayState.constructor` | content.js:1-5 | Initial state: no model, count 0, visible, no cached rectangle, no overlay |
| `Watcher.OverlayState.CreateOrUpdateOverlay` | content.js:167-194 | Nothing happens without a host canvas or a cached model. Otherwise the overlay is repositioned exactly when the rectangle differs from the cached one, the cache then holds the current rectangle, and the render plan is produced |
| `Watcher.OverlayState.Tick` | content.js:196-210 | Discovery runs only while no model is cached, and caches the first model in depth-first order. The count changes only on strict growth, to the new length, and never decreases. A render happens exactly on strict growth while visible with a host canvas |
| `Watcher.OverlayState.Toggle` | content.js:213-220 | Flips only overlayVisible |
| `Watcher.OverlayState.Reset` | content.js:221-234 | Clears the model, the count, the cached rectangle and the overlay, and keeps visibility |
| `Watcher.OverlayState.Resize` | content.js:237-239 | Clears only the cached rectangle |
| `Watcher.ResetScenario` | content.js:196-234 | The first poll renders. A poll without growth does not. After a reset, the next poll rediscovers the model and renders again |

## Left out

- Canvas painting is not modelled (`getContext`, `clearRect`, `arc`, `fill`, `stroke`, `moveTo`/`lineTo`, `fillText`, colours, line widths, the font and its `Math.floor(radius)` size). These are calls into the browser's canvas library; the render plan records only what they would draw.
- The `!ctx` guard is not modelled. The overlay canvas is only ever asked for a 2d context, so that context is always available.
- DOM and layout effects are not modelled: `querySelector`, element creation, styles, `appendChild`/`remove`, the canvas width and height copied from the host canvas, and scroll offsets. The host canvas is a parameter (`board`, absent when the page has none), and the overlay element is a flag.
- The display-style change that hides or shows the overlay on 't' is a DOM effect and is not modelled.
- Timers and event wiring are scheduling, not logic, and are not modelled: `setInterval`, `setTimeout`, `addEventListener`, and the extra interval each reset starts.
- JavaScript's dynamic typing is abstracted. A `typeof x === 'number'` test becomes an `Option` field. `for…in` enumeration becomes an ordered list of property values. A throwing getter becomes a flag on the property or on the `step_history` read. These cases are not modelled:
  - history entries that are `null` or `undefined`. Such an entry throws where its fields are read without `?.`: in the spacing scan until that returns, in the anchor `find` until a usable step is found, and in the position loop, which reads every entry but the last. The last entry is read only through `lastStep?.px`, so a nullish last entry that none of those reads reaches just leaves out the current stone. Other primitive entries (a number, a string) throw nothing: every field reads as `undefined`, so they act as steps with no numeric fields, which the model represents as `Step(None, None, None, None)`;
  - pixel fields that hold truthy non-numbers;
  - `prepos` groups that are not iterable;
  - a non-array `step_history` that has a `length`;
  - pre-positioned codes that are not strings (see `Mapper.CoordToXY` below);
  - an `is_start_black` that is missing or not a boolean; the code tests it for truthiness, and the model keeps only the resulting `bool`;
  - fractional grid coordinates;
  - `NaN` and infinities.
- An exception thrown while enumerating a node's keys is not modelled separately. Only a throwing `step_history` read is, and it makes the node a dead branch. An exception from the root's read ends the tick; the model treats it as "not found", which leaves the state the same.
- Floating point is not modelled. Spacing and positions are exact reals, and 0.51 is exact.
- Grid codes are Dafny strings of Unicode scalar values, not UTF-16 code units. The two lengths differ in both directions. A code made of one character outside the Basic Multilingual Plane has length 2 in JavaScript, so the code decodes it, while the model gives `None`. A two-character code containing such a character, for example `"a\u{1F600}"`, has length 3 in JavaScript, so the code returns `null` for it, while `CoordToXY` decodes it. Neither case is modelled.
- Watcher.OverlayState.Tick: the cached model is a node index into the graph passed to that tick. If the index is missing from a later graph, or that node no longer has an array `step_history`, the tick does nothing.
- Mapper.CoordToXY: a code is a string or missing. In JavaScript any truthy value of length 2 decodes, for example the array `['c','d']` gives (2, 3); such non-string codes are not modelled and would be skipped.
- Locator.FindStoneModel: the JavaScript call stack is bounded. A recursion deeper than the engine allows throws a RangeError inside the `try`, and the parent's empty `catch` swallows it, so that branch becomes a dead branch whose nodes are already marked visited. The model's recursion (`Dfs`, `Search`) has no depth bound. The first-match clause and the "no result means no reachable model" clause therefore hold only for graphs whose depth-first recursion stays within the engine's stack limit.
