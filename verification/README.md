# snap-cook: a verified model

This project models the core of snap-cook and proves what its parts promise each other.

- **The Cooklang text.** `Decimals`, `Schema`, `QuantityText`, `Scanner`, `StepText`, `Parser` and `Printer` say how a
  recipe body is printed and parsed, including the scanner object that walks a step's text. `ScanLaws`, `ParserLaws`,
  `Paragraphs` (blank lines, wrapped lines, arrows) and `TokenGrammar` (what is a token) hold for every text. `TokenText`
  to `LineLaws` are about lines of pieces: what the parser reads in them, known states or not. `Stability`, `RoundTrip`,
  `StepLists`, `StepUses` and `SecondRoundTrip` are about printed recipes, and `Losses` gives the inputs the text cannot
  carry.
- **The recipe graph.** `RecipeGraph` is about finite graphs, `ActionGraph` and `Kahn` about the validator and the
  deterministic sort, `SortLaws` about what the sort means for actions, `Flowchart` and `FlowchartLaws` about the chart.
- **The version store.** `Versions` takes hashes as free terms: a version id is the header it hashes, with its parents'
  ids inside. `StoreSpec` says what each operation does; `MemoryStores` and `FilesystemStores` are the two backends,
  proved against it; `HistoryLaws` and `Lineage` are about history; `StoreProtocol` and `StoreRaces` take commit apart
  into its reads and writes, for any number of writers and with crashes.
- **The catalog.** `Catalog` is the table and the projection code, `CatalogLaws` and `CatalogRuns` say when the table
  is a cache.
- **Numbers and identity.** `Rounding` to `MixedLaws` are about display rounding, `Units` and `UnitLaws` about scaling,
  conversion and the unit shown, `CanonicalDocument` to `RecipeDocuments` about the document a content hash is
  taken over, for any value, for quantities and for whole recipes.

Code that changes things step by step is a class or a method with loops, proved against a function of its inputs or its
old state; the laws are lemmas about those functions. Results of lookups outside this code (name and unit resolution,
slugs, approximation tokens, text normalisation, digests, time parsing, owners) are parameters.

A recipe is writable (`RoundTrip.WritableRecipe`) when each step, in sorted order, can be written:

- its first and last pieces are trimmed, and prose after the last token hides no ` => name` of its own;
- prose is not empty, holds no newline and none of `@#~^`, and no two pieces of prose stand side by side;
- names hold no `{` and no newline; an ingredient's name does not start with `?` or `=`, and one named `&` has a mark;
- state names are trimmed and hold none of `{}@#~^`;
- low bounds and amounts with a unit are not negative, a range's unit is no size word, unit surfaces are trimmed and hold no `}`;
- durations have a unit that is no size word; approximations do not read as numbers or counted ranges.

It is canonical (`SecondRoundTrip.Canonical`) when, besides, every state a step uses can be referred to: its producer has
a name that no step in between takes (`RoundTrip.Referable`).

What comes back is spelled out by `TokenText.ReadBackPiece` and `StepRoundTrip.Regroup`: the same names, marks and numbers,
units, tokens and registry entries looked up again, unitless amounts as counts, the policies the text has a form for, no
notes, and references to unknown states as text.

Where the code and its documentation differ, the model follows the code:

- `print_cook` and `parse_cook` are called inverses. They are, exactly as far as `ParsePrint` and `MeaningSurvivesIff`
  say: the text is stable if and only if no `=` is lost, the inputs survive if and only if they can be referred to, and the
  meaning survives if and only if, besides, the text can express every piece, the step shows every item of its lists and
  every input once and in order, and it has no verb and no notes. A step without prose loses its timers (`RestLosesItsTimer`), and an
  ingredient shown twice is doubled (`ShownTwiceDoubles`).
- What parses need not parse again once printed: a timer does if and only if its body is not blank (`TimerReparsesIff`).
- The bounds of a range need not show in order: `DisplayInOrder` says when they do, `UsDisplayNotInOrder` has two that do
  not.
- `history` is called HEAD-first. It is sorted by time, so it starts with the head if and only if no reachable version is
  newer (`HistoryExact`).
- A slug is called stable under a rebuild. It is if and only if the slugs are in id order (`RebuildIff`); a title clash
  projected in another order breaks it (`TitleClashBreaksRebuild`).
- Action ids are called globally unique. The validator does not check it; with a repeated id the sort drops actions
  (`SortKeepsAllIff`).

`dafny verify dfyconfig.toml` checks everything.

## Model

| member | source | states |
|---|---|---|
| `RoundTripTheorem.ParsePrint` | packages/snapcook-core/src/snapcook_core/cooklang/print_.py:62-77 | Printing a recipe whose steps can be written and parsing the text succeeds; the result is a valid recipe, already in sorted order, with the same names and the pieces as they are read; a step keeps its inputs if and only if each has a name that no step in between takes; the text is the same if and only if no `=` is lost |
| `RoundTripTheorem.MeaningSurvivesIff` | packages/snapcook-core/src/snapcook_core/cooklang/parse.py:121-159 | A step means the same after the round trip - what it shows, its ingredient, tool, timer and temperature lists, units, tokens, registry entries, its inputs in their order, name, verb and notes - if and only if the text has a form for each piece, the lookups give its ids, its lists and its inputs are what it shows item by item, it has no verb and no notes, and each input can be referred to |
| `RoundTripTheorem.ProseSurvivesIff` | packages/snapcook-core/src/snapcook_core/cooklang/print_.py:123-150 | Its own prose means the same as well if and only if it has prose and its prose places every state it uses |
| `RoundTripTheorem.StepTextStableIff` | packages/snapcook-core/src/snapcook_core/cooklang/print_.py:111-135 | One step's text is unchanged by the round trip if and only if each of its `=` marks survives |
| `StepUses.UsesRead` | packages/snapcook-core/src/snapcook_core/cooklang/parse.py:225-235 | The inputs that come back are the known states the step text names, each once, in the order they are first named |
| `StepUses.UsesComeBackIff` | packages/snapcook-core/src/snapcook_core/cooklang/print_.py:111-135 | The inputs of a step that can all be referred to come back as the same list if and only if it is what the text shows: first the inputs its prose does not place, in their order, then those it places, none twice |
| `StepUses.ProselessUses` | packages/snapcook-core/src/snapcook_core/cooklang/print_.py:119-127 | A step without prose that lists no input twice shows its inputs in their order |
| `StepLists.ProselessIngredients` | packages/snapcook-core/src/snapcook_core/cooklang/print_.py:146-150 | A step without prose comes back with all its own ingredients, in order, read back |
| `Printer.ListedAt` | packages/snapcook-core/src/snapcook_core/cooklang/print_.py:146-150 | Without prose the k-th ingredient stands at place 2k of the text and one space between each two |
| `SecondRoundTrip.SecondTripStable` | packages/snapcook-core/src/snapcook_core/cooklang/__init__.py:4-7 | After one round trip of any recipe whose steps can be written, the printed text never changes again |
| `SecondRoundTrip.CanonicalAgainIff` | packages/snapcook-core/src/snapcook_core/cooklang/parse.py:121-159 | What comes back from a canonical recipe is canonical again if and only if no ingredient named "&" loses its only mark |
| `SecondRoundTrip.WritableRecipeAgainIff` | packages/snapcook-core/src/snapcook_core/cooklang/parse.py:225-235 | What comes back can be written again if and only if every step showed known states only and no "&" lost its only mark |
| `SecondRoundTrip.WritableAgainIff` | packages/snapcook-core/src/snapcook_core/cooklang/print_.py:175-192 | One piece that came back can be written again if and only if it is not an "&" without `?` that lost its `=` |
| `SecondRoundTrip.ReadIsReferable` | packages/snapcook-core/src/snapcook_core/cooklang/parse.py:147-148 | Every input that comes back has a name that no step in between takes |
| `RoundTrip.PrintedParses` | packages/snapcook-core/src/snapcook_core/cooklang/parse.py:87-114 | The printed body of a writable recipe parses to the read-back list, which is valid and already sorted |
| `RoundTrip.PiecesComeBack` | packages/snapcook-core/src/snapcook_core/cooklang/parse.py:184-199 | The pieces of a step that came back are the read-back pieces of what the parser took its text for, in order |
| `RoundTrip.ReferableReads` | packages/snapcook-core/src/snapcook_core/cooklang/parse.py:225-235 | A step all of whose inputs can be referred to is read piece by piece as it is |
| `RoundTrip.EdgesComeBackIff` | packages/snapcook-core/src/snapcook_core/cooklang/parse.py:225-235 | The inputs of a step come back if and only if each has a name that no step in between takes |
| `RoundTrip.EdgesRead` | packages/snapcook-core/src/snapcook_core/cooklang/print_.py:100-108 | For every writable recipe: step i comes back as a user of step j if and only if it uses a state whose label is the name of j and j is the last before i of that name |
| `StepLists.ListsRead` | packages/snapcook-core/src/snapcook_core/cooklang/parse.py:149-159 | The four lists that come back are, for every writable recipe, what the step shows: each item in order, as often as it is shown, read back |
| `StepLists.ListsComeBackIff` | packages/snapcook-core/src/snapcook_core/cooklang/parse.py:149-159 | The four lists come back the same if and only if each is what the step shows, item by item, and the meaning of every item is kept |
| `StepLists.ReadBackKeepsMeaning` | packages/snapcook-core/src/snapcook_core/cooklang/parse.py:309-340 | A piece that came back keeps its meaning from then on |
| `LineLaws.KnownNameLabels` | packages/snapcook-core/src/snapcook_core/cooklang/print_.py:100-108 | A name the parser knows at a step labels, in what was read, the state it stands for |
| `LineLaws.PiecesBack` | packages/snapcook-core/src/snapcook_core/cooklang/parse.py:184-199 | The step read from a line shows exactly the pieces the line was read as |
| `LineLaws.InputsRead` | packages/snapcook-core/src/snapcook_core/cooklang/parse.py:225-235 | The step read from a line uses exactly the states its names stand for |
| `LineLaws.TextBack` | packages/snapcook-core/src/snapcook_core/cooklang/print_.py:111-135 | The step read from a line prints the line with its amounts read back: no character moves, known states or not |
| `StepLines.LineParses` | packages/snapcook-core/src/snapcook_core/cooklang/parse.py:121-159 | Parsing one writable line, with the names known at that point, gives the specified action and the next name table |
| `StepLines.DocumentParses` | packages/snapcook-core/src/snapcook_core/cooklang/parse.py:87-114 | A document of writable lines parses to a valid recipe that is already sorted |
| `StepLines.LineSplits` | packages/snapcook-core/src/snapcook_core/cooklang/print_.py:129-135 | A writable step prints one trimmed line that splits back into its body and its produced name |
| `StepLines.NameStandsFor` | packages/snapcook-core/src/snapcook_core/cooklang/parse.py:147-148 | A name is known exactly if an earlier line produced it, and stands for the state of the last that did |
| `StepRoundTrip.StepScans` | packages/snapcook-core/src/snapcook_core/cooklang/parse.py:184-199 | Scanning the printed pieces of a step succeeds, shows exactly their read-back pieces as regrouped, and uses exactly the known states they name |
| `StepRoundTrip.PiecesScan` | packages/snapcook-core/src/snapcook_core/cooklang/parse.py:184-199 | Scanning printed pieces appends them one by one; prose and references to unknown states join into one text |
| `TokenText.PieceScans` | packages/snapcook-core/src/snapcook_core/cooklang/parse.py:201-306 | Every writable token is scanned back as itself, whatever text follows it |
| `TokenText.IngredientScans` | packages/snapcook-core/src/snapcook_core/cooklang/print_.py:175-192 | The printed ingredient token is read back with its marks, name and quantity |
| `TokenText.DurationScans` | packages/snapcook-core/src/snapcook_core/cooklang/print_.py:201-205 | The printed timer token is read back with its name and duration |
| `TokenText.HeatScans` | packages/snapcook-core/src/snapcook_core/cooklang/print_.py:208-209 | The printed temperature token is read back with its value and scale |
| `TokenText.ToolScans` | packages/snapcook-core/src/snapcook_core/cooklang/print_.py:195-198 | The printed cookware token is read back with its name and amount |
| `Stability.PiecesStableIff` | packages/snapcook-core/src/snapcook_core/cooklang/print_.py:138-169 | Printed pieces print the same after the round trip if and only if every `=` is kept |
| `Stability.PieceSurvivesIff` | packages/snapcook-core/src/snapcook_core/cooklang/parse.py:309-340 | A piece means the same after the round trip if and only if its quantity and policy can be expressed, the lookups give its unit, token and ingredient, and it has no preparation or notes |
| `Stability.MeaningKeepsMark` | packages/snapcook-core/src/snapcook_core/cooklang/parse.py:318-340 | A quantity whose meaning survives keeps its `=` as well |
| `Stability.ReadBackKeepsMark` | packages/snapcook-core/src/snapcook_core/cooklang/parse.py:318-340 | A quantity that was parsed always keeps its `=` from then on |
| `QuantityText.ParsePrintedQuantity` | packages/snapcook-core/src/snapcook_core/cooklang/print_.py:218-236 | Parsing the printed body of a writable quantity gives exactly its read-back quantity and policy |
| `QuantityText.SpecSurvivesIff` | packages/snapcook-core/src/snapcook_core/cooklang/parse.py:309-340 | A printed quantity with its policy comes back as itself - unit id, locale, token and nominal amount included - if and only if shape and policy are expressible and the lookups give what it has |
| `QuantityText.QuantityTextStable` | packages/snapcook-core/src/snapcook_core/cooklang/print_.py:218-236 | Printing what came back gives the same quantity text, for every quantity |
| `QuantityText.ParsedSpecValid` | packages/snapcook-core/src/snapcook_core/cooklang/parse.py:309-340 | Whatever parses satisfies the quantity classes' own checks |
| `StepText.SplitJoined` | packages/snapcook-core/src/snapcook_core/cooklang/parse.py:117-118 | Splitting what the printer joined gives the steps back |
| `StepText.SplitSuffix` | packages/snapcook-core/src/snapcook_core/cooklang/parse.py:130-134 | The produced-name suffix the printer writes is exactly what the parser splits off |
| `Printer.PrintDocument` | packages/snapcook-core/src/snapcook_core/cooklang/print_.py:62-77 | The imperative printer computes the specified document of any recipe the model classes accept, and fails exactly if a printed step uses a state that no printed action produces, as a repeated action id can make it |
| `Printer.KnownIngredients` | packages/snapcook-core/src/snapcook_core/cooklang/print_.py:175-192 | An optional fixed ingredient is written `@?=salt{5}`, one without a quantity `@oil{}` |
| `Printer.KnownTokens` | packages/snapcook-core/src/snapcook_core/cooklang/print_.py:195-209 | What tools, timers, state references and temperatures look like |
| `Printer.KnownQuantities` | packages/snapcook-core/src/snapcook_core/cooklang/print_.py:218-236 | What amounts with a unit, ranges, counts and sizes look like |
| `Printer.KnownLayout` | packages/snapcook-core/src/snapcook_core/cooklang/print_.py:75-77 | Steps stand in paragraphs with one empty line between, and end with an arrow and what they produce |
| `Printer.PrintTemplate` | packages/snapcook-core/src/snapcook_core/cooklang/print_.py:138-169 | The loop over the chunks prints the step's pieces |
| `Printer.ComputeLabels` | packages/snapcook-core/src/snapcook_core/cooklang/print_.py:100-108 | The loop computes each produced state's label |
| `Printer.PrintStepText` | packages/snapcook-core/src/snapcook_core/cooklang/print_.py:111-135 | Leading references, body and suffix make the step's text |
| `TokenText.StateReferenceIff` | packages/snapcook-core/src/snapcook_core/cooklang/parse.py:225-235 | A printed state reference is read as one if and only if an earlier step produced that name |
| `Losses.UnnamedInputLost` | packages/snapcook-core/src/snapcook_core/cooklang/print_.py:104-107 | The result of a step without a name is used by no step of what comes back |
| `Losses.InputMisdirected` | packages/snapcook-core/src/snapcook_core/cooklang/print_.py:104-107 | A step that uses the unnamed result of step k comes back as a user of the last step named `s` and k, if there is one |
| `Losses.WithoutProse` | packages/snapcook-core/src/snapcook_core/cooklang/print_.py:146-150 | A step without prose comes back without its tools, timers and temperatures |
| `Losses.RestLosesItsTimer` | packages/snapcook-core/src/snapcook_core/cooklang/print_.py:146-150 | Flour and five minutes without prose: every piece shown keeps its meaning, but the minutes do not come back |
| `Losses.ShownTwiceDoubles` | packages/snapcook-core/src/snapcook_core/cooklang/print_.py:152-169 | An ingredient shown by two chunks comes back as two uses |
| `Losses.TokenStableIff` | packages/snapcook-core/src/snapcook_core/cooklang/print_.py:175-192 | One token prints the same after the round trip if and only if it keeps its `=` |
| `Losses.FixedCountLosesMark` | packages/snapcook-core/src/snapcook_core/cooklang/parse.py:318-334 | Every fixed count with a size or an upper end comes back LINEAR and prints differently |
| `Losses.AmpersandLosesItself` | packages/snapcook-core/src/snapcook_core/cooklang/parse.py:225-235 | Two fixed small "&" can be written, but what comes back prints as a state reference and can not |
| `Losses.UnitlessBecomesCount` | packages/snapcook-core/src/snapcook_core/cooklang/parse.py:331-337 | A scalar or range without a unit comes back as a count |
| `Losses.TimerReparsesIff` | packages/snapcook-core/src/snapcook_core/cooklang/parse.py:281-297 | A timer that parses prints as a timer that parses again if and only if its body is not blank |
| `Losses.EmptyTimerDoesNotReparse` | packages/snapcook-core/src/snapcook_core/cooklang/parse.py:290-294 | `~name{}` parses, but the `0` it prints is refused as a duration |
| `Parser.ParseDocument` | packages/snapcook-core/src/snapcook_core/cooklang/parse.py:87-114 | The imperative parser computes the specification: the steps in order, then the graph checks |
| `Parser.ParseStepText` | packages/snapcook-core/src/snapcook_core/cooklang/parse.py:121-159 | The imperative step parser computes the specification |
| `ParserLaws.ParsedTextIsValid` | packages/snapcook-core/src/snapcook_core/cooklang/parse.py:87-159 | A text parses if and only if it has a step and every step parses; the result satisfies every graph and slot invariant and the sort returns it in document order |
| `Paragraphs.ParagraphThenBreak` | packages/snapcook-core/src/snapcook_core/cooklang/parse.py:117-118 | For every paragraph, of one line or several, and any white space with two line ends: the paragraph is one step, and the rest is split as if it stood alone |
| `Paragraphs.SpaceThenText` | packages/snapcook-core/src/snapcook_core/cooklang/parse.py:117-118 | White space before the text, with or without blank lines, makes no step |
| `Paragraphs.ParagraphThenEnd` | packages/snapcook-core/src/snapcook_core/cooklang/parse.py:117-118 | White space after the last paragraph makes no step |
| `Paragraphs.WrappingDoesNotMatter` | packages/snapcook-core/src/snapcook_core/cooklang/parse.py:128 | Two blocks that differ only in where a space and where a line end stands parse to the same step and names |
| `Paragraphs.ParsedOnOneLine` | packages/snapcook-core/src/snapcook_core/cooklang/parse.py:128-136 | No prose and no produced name of a parsed step holds a line end |
| `Paragraphs.ProducedAnyway` | packages/snapcook-core/src/snapcook_core/cooklang/parse.py:130-134 | The name after an arrow is split off whatever white space stands around the arrow and the name; an empty one is none |
| `Paragraphs.NothingProduced` | packages/snapcook-core/src/snapcook_core/cooklang/parse.py:130-134 | A text without an arrow of its own is all body |
| `TokenGrammar.UnclosedIsProse` | packages/snapcook-core/src/snapcook_core/cooklang/parse.py:215-223 | A sigil with no opening and closing brace after it is prose |
| `TokenGrammar.IngredientGrammar` | packages/snapcook-core/src/snapcook_core/cooklang/parse.py:237-263 | In any text: `@`, marks in any order and number, a name and a body make one ingredient with what the body says, fixed if a mark is `=`, optional if one is `?`; or the error of the body |
| `TokenGrammar.StateGrammar` | packages/snapcook-core/src/snapcook_core/cooklang/parse.py:225-235 | In any text a state reference is one exactly if the name, with any white space around it, is known; it is added to the inputs once |
| `TokenGrammar.ToolGrammar` | packages/snapcook-core/src/snapcook_core/cooklang/parse.py:265-279 | In any text: `#`, a name and a body make one tool with that amount, or the error of the amount |
| `TokenGrammar.TimerGrammar` | packages/snapcook-core/src/snapcook_core/cooklang/parse.py:281-295 | In any text: `~`, a name and a body make the next timer, or the error of the duration |
| `TokenGrammar.TemperatureUnits` | packages/snapcook-core/src/snapcook_core/cooklang/parse.py:297-306 | A temperature is in Fahrenheit if its unit is F, in Celsius if it is C, empty or not there, and refused otherwise |
| `TokenGrammar.SpacedUnit` | packages/snapcook-core/src/snapcook_core/cooklang/parse.py:314-329 | White space around the number and around the unit does not matter |
| `TokenGrammar.SpacedBody` | packages/snapcook-core/src/snapcook_core/cooklang/parse.py:310-312 | White space around the whole body does not matter |
| `TokenGrammar.SpacedRange` | packages/snapcook-core/src/snapcook_core/cooklang/parse.py:323-334 | White space around the dash of two bounds does not matter |
| `TokenGrammar.SpacedAmount` | packages/snapcook-core/src/snapcook_core/cooklang/parse.py:275 | White space around the amount of a tool does not matter; white space alone is no amount |
| `TokenGrammar.RangeRefusedIff` | packages/snapcook-core/src/snapcook_core/schema/quantity.py:173-177 | A counted range is refused exactly if its bounds are out of order |
| `TokenGrammar.ReadsScientific` | packages/snapcook-core/src/snapcook_core/cooklang/parse.py:343-348 | Digits with a point and an exponent, each with any sign, denote those digits times that power of ten |
| `TokenGrammar.UnderscoresDoNotMatter` | packages/snapcook-core/src/snapcook_core/cooklang/parse.py:343-348 | Underscores in a number do not matter |
| `TokenGrammar.NonFiniteRefused` | packages/snapcook-core/src/snapcook_core/cooklang/parse.py:335-337 | An infinity or a NaN, in any case and with any sign, is refused |
| `ParserLaws.StepNeverDangles` | packages/snapcook-core/src/snapcook_core/cooklang/parse.py:149-159 | A step is refused only for a quantity in its text, never for a dangling slot |
| `ParserLaws.InOrderIsSorted` | packages/snapcook-core/src/snapcook_core/render/toposort.py:9-14 | Actions in document order form a valid acyclic graph that the sort leaves as it is |
| `ParserLaws.StateIdInjective` | packages/snapcook-core/src/snapcook_core/cooklang/parse.py:139-145 | State ids of different steps differ, whatever their names' slugs |
| `Scanner.StepScanner.Run` | packages/snapcook-core/src/snapcook_core/cooklang/parse.py:184-199 | The scanner object ends with exactly the lists of the specification, or with its error |
| `Scanner.StepScanner.TryTokenAt` | packages/snapcook-core/src/snapcook_core/cooklang/parse.py:201-213 | One attempt at a token changes the lists as specified, or leaves them |
| `Scanner.TryToken` | packages/snapcook-core/src/snapcook_core/cooklang/parse.py:201-213 | A recognised token ends strictly after its start and within the text |
| `ScanLaws.ScanTiles` | packages/snapcook-core/src/snapcook_core/cooklang/parse.py:184-199 | The chunks' source texts, in order, make up the whole scanned text; each token chunk is what the token at its place gives with the lists the scan has by then |
| `ScanLaws.ScanKeeps` | packages/snapcook-core/src/snapcook_core/cooklang/parse.py:180-182 | Along any scan of any text ids stay fresh, quantities valid, and the slots are exactly the items of the lists, each once and in range |
| `SortLaws.SortedLeast` | packages/snapcook-core/src/snapcook_core/render/toposort.py:32-68 | Of all lists of the actions with producers first, the sort returns the least by (order, id) |
| `SortLaws.SortIgnoresPresentation` | packages/snapcook-core/src/snapcook_core/render/toposort.py:4-7 | Permuting the actions, and permuting or repeating entries of any `uses` list, does not change the sorted ids |
| `SortLaws.SortKeepsAllIff` | packages/snapcook-core/src/snapcook_core/render/toposort.py:39-48 | The sorted list is a permutation of the actions if and only if no two share an id |
| `SortLaws.SortedProducersFirst` | packages/snapcook-core/src/snapcook_core/render/toposort.py:57-68 | Producers come before consumers in the sorted list |
| `RecipeGraph.GreedyLeast` | packages/snapcook-core/src/snapcook_core/render/toposort.py:50-64 | The greedy order is the lexicographically least topological order of any finite graph |
| `RecipeGraph.GreedyUnique` | packages/snapcook-core/src/snapcook_core/render/toposort.py:52-55 | The rule that the least ready node goes next determines one order |
| `RecipeGraph.KahnExact` | packages/snapcook-core/src/snapcook_core/schema/recipe.py:131-145 | An order that releases nodes until none is ready covers the graph if and only if it has no cycle |
| `RecipeGraph.StuckCycle` | packages/snapcook-core/src/snapcook_core/schema/recipe.py:141-145 | When nothing is ready and nodes remain, the remaining nodes contain a real cycle |
| `RecipeGraph.TopologicalAcyclic` | packages/snapcook-core/src/snapcook_core/render/toposort.py:66-68 | A graph with a topological order has no cycle |
| `Kahn.TopologicalActions` | packages/snapcook-core/src/snapcook_core/render/toposort.py:32-68 | The heap loop returns the sorted actions, and fails if and only if a use dangles or there is a cycle |
| `Kahn.AssertAcyclic` | packages/snapcook-core/src/snapcook_core/schema/recipe.py:113-145 | The stack loop accepts if and only if the graph has no cycle; the stuck set it reports contains one |
| `Kahn.ValidateGraph` | packages/snapcook-core/src/snapcook_core/schema/recipe.py:83-111 | Validation accepts exactly the valid graphs, and its terminal-state check never fails |
| `ActionGraph.TerminalExists` | packages/snapcook-core/src/snapcook_core/schema/recipe.py:154-158 | An acyclic non-empty graph always has a state nothing consumes |
| `ActionGraph.EdgeListMembers` | packages/snapcook-core/src/snapcook_core/schema/recipe.py:123-129 | The edges are exactly the pairs of a used state's producer and its user |
| `Flowchart.BuildGraph` | packages/snapcook-core/src/snapcook_core/render/build.py:511-555 | The loops build the specified nodes and edges, nodes listed once |
| `FlowchartLaws.ChartOfRecipe` | packages/snapcook-core/src/snapcook_core/render/build.py:511-555 | The chart of a valid recipe has unique nodes, edges only between them, and no cycle |
| `FlowchartLaws.ConnectedIffDepends` | packages/snapcook-core/src/snapcook_core/render/build.py:538-553 | Two states are connected in the chart if and only if one is made, directly or not, from the other |
| `FlowchartLaws.IngredientReachesIff` | packages/snapcook-core/src/snapcook_core/render/build.py:533-536 | An ingredient is connected to a state if and only if some step takes it in for that state or one it depends on |
| `FlowchartLaws.ChartNodesAre` | packages/snapcook-core/src/snapcook_core/render/build.py:521-536 | The nodes are exactly the produced states, the ingredients and the needed joins and starts |
| `Versions.NoLineageCycle` | packages/snapcook-core/src/snapcook_core/store/base.py:64-95 | No chain of parents returns to its start |
| `StoreSpec.CommitKeeps` | packages/snapcook-core/src/snapcook_core/store/base.py:127-160 | A commit keeps every head resolving and every stored version with its content |
| `StoreSpec.CommitAnswers` | packages/snapcook-core/src/snapcook_core/store/base.py:143-160 | A commit answers with the head, which then has the content asked for: the old head and the old store if that has it already, else exactly one more version, with the request's author, message, origin and time and the parents given or the old head; no other recipe is touched |
| `StoreSpec.CommitTwice` | packages/snapcook-core/src/snapcook_core/store/base.py:143-145 | Committing the same content again changes nothing and answers with the same version |
| `StoreSpec.CommitKeepsParentsIff` | packages/snapcook-core/src/snapcook_core/store/base.py:147-148 | A complete lineage stays complete if and only if nothing is written or every parent of the new record is stored |
| `HistoryLaws.HistoryExact` | packages/snapcook-core/src/snapcook_core/store/base.py:185-204 | `history` lists exactly the versions reachable from the head, each once, newest first; its first entry is the head if and only if no reachable version is newer |
| `HistoryLaws.WalkExact` | packages/snapcook-core/src/snapcook_core/store/base.py:190-203 | The frontier walk finds exactly the stored versions reachable from its start, each once, the start first |
| `HistoryLaws.NewestFirstSorts` | packages/snapcook-core/src/snapcook_core/store/base.py:204 | The sort by time keeps every record, orders them newest first and keeps the order of equal times |
| `StoreBase.WalkVersions` | packages/snapcook-core/src/snapcook_core/store/base.py:190-203 | The frontier loop computes the walk, over any way of reading versions |
| `Lineage.SequentialHistory` | packages/snapcook-core/src/snapcook_core/store/base.py:143-204 | After any run of default-parent commits the versions of a recipe are one chain of the committed contents without repetitions; the history is the reversed chain if and only if time stamps never decrease |
| `Lineage.NextIsFresh` | packages/snapcook-core/src/snapcook_core/store/base.py:147-157 | A version whose parent is the end of the chain has an id not stored before, and extends the chain |
| `Lineage.EarlierTimeHidesHead` | packages/snapcook-core/src/snapcook_core/store/base.py:204 | If the second commit has the earlier time, the history starts with the first version instead of the head |
| `MemoryStores.MemoryStore.CommitRecipe` | packages/snapcook-core/src/snapcook_core/store/memory.py:20-31 | The in-memory commit is the specified commit on the two dictionaries |
| `MemoryStores.MemoryStore.ReadHistory` | packages/snapcook-core/src/snapcook_core/store/base.py:185-204 | The in-memory history is the specified history |
| `MemoryStores.MemoryStore.HeadRecipe` | packages/snapcook-core/src/snapcook_core/store/base.py:172-177 | The content at the head, or an error when there is no such recipe |
| `MemoryStores.MemoryStore.ListRecipeIds` | packages/snapcook-core/src/snapcook_core/store/memory.py:39-40 | The ids with a head, in order |
| `FilesystemStores.FilesystemStore.CommitRecipe` | packages/snapcook-core/src/snapcook_core/store/fs.py:70-139 | The filesystem commit leaves the specified store; it gives the specified result, or raises after taking effect if the Cooklang printer or the README writer refuses what it stores; a writing one leaves the committed content's canonical bytes in `recipe.json`, an unchanged one touches no file |
| `FilesystemStores.CrashLeavesStale` | packages/snapcook-core/src/snapcook_core/store/fs.py:88-95 | A commit that stops between the ref and the projections has taken effect, but `recipe.json` still holds the previous head, and committing the same content again does not repair it |
| `FilesystemStores.FilesystemStore.WriteHeadRef` | packages/snapcook-core/src/snapcook_core/store/fs.py:88-139 | The ref, the branch pointer and, if the version is there, `recipe.json`, `recipe.cook` and `README.md` are written, up to the printer that raises, and no other file |
| `FilesystemStores.FilesystemStore.PutVersion` | packages/snapcook-core/src/snapcook_core/store/fs.py:70-74 | The version file is written and, if there is none, the configuration, and no other file |
| `FilesystemStores.FilesystemStore.GetVersion` | packages/snapcook-core/src/snapcook_core/store/fs.py:76-80 | The file at a version's path holds exactly the stored record, or is missing with it |
| `FilesystemStores.FilesystemStore.ReadHeadRef` | packages/snapcook-core/src/snapcook_core/store/fs.py:82-86 | The stripped ref file is the id of the head |
| `FilesystemStores.FilesystemStore.ListRecipeIds` | packages/snapcook-core/src/snapcook_core/store/fs.py:97-104 | The recipes with a metadata directory: those with a head, once every put was followed by its ref |
| `FilesystemStores.FilesystemStore.ReadHistory` | packages/snapcook-core/src/snapcook_core/store/base.py:185-204 | The filesystem history is the specified history |
| `FsPaths.VersionPathInjective` | packages/snapcook-core/src/snapcook_core/store/fs.py:64-66 | Two well-formed ids share a file if and only if recipe and digest agree |
| `FsFiles.VersionWritten` | packages/snapcook-core/src/snapcook_core/store/fs.py:70-74 | Writing a version file puts exactly that version into the store the tree holds |
| `FsFiles.RefWritten` | packages/snapcook-core/src/snapcook_core/store/fs.py:88-91 | Writing the ref file moves exactly that head |
| `Backends.RunBoth` | packages/snapcook-core/tests/unit/test_store.py:22-26 | For any commits both backends end with the same store and listed ids and give the same answers, except that the disk raises where its printers refuse what a commit stored; `recipe.json` holds every head |
| `StoreProtocol.EveryRunIsSafe` | packages/snapcook-core/src/snapcook_core/store/base.py:127-170 | In every interleaving of any number of writers' steps, with crashes between any two: every head resolves, `head` never raises, and no stored version is lost or changes its content |
| `StoreProtocol.StepKeeps` | packages/snapcook-core/src/snapcook_core/store/base.py:143-159 | Each single step keeps the invariant and loses nothing |
| `StoreProtocol.AnsweredStays` | packages/snapcook-core/src/snapcook_core/store/base.py:158-160 | A version a commit answered with stays stored with the content asked for, whoever moves the head |
| `StoreProtocol.RunStaysComplete` | packages/snapcook-core/src/snapcook_core/store/base.py:147-158 | If explicit parents are stored when a commit begins, every stored version's parents are stored at every moment |
| `StoreProtocol.StoredLineageAcyclic` | packages/snapcook-core/src/snapcook_core/store/base.py:64-95 | Stored parents never lead back to a version |
| `StoreRaces.UninterruptedIsCommit` | packages/snapcook-core/src/snapcook_core/store/base.py:127-160 | A writer that is not interrupted has the effect and the answer of the atomic commit |
| `StoreRaces.RaceLosesUpdate` | packages/snapcook-core/src/snapcook_core/store/base.py:143-160 | Two writers that read before either writes: both answer and both versions stay stored with their contents, the second is the head, and the first is not in the history |
| `StoreRaces.UnmovedHeadLosesNothing` | packages/snapcook-core/src/snapcook_core/store/base.py:158-159 | If the head a writer moves is one of its record's parents, the whole history stays reachable |
| `IdOrder.SortsUnique` | packages/snapcook-core/src/snapcook_core/store/memory.py:39-40 | A set of ids has one sorted list |
| `Catalog.CatalogTable.ProjectRecipe` | apps/web/catalog/projection.py:63-96 | The upsert replaces exactly the row of the newest record's recipe, with its slug and all version rows, or reports the taken slug or missing history |
| `Catalog.CatalogTable.ProjectStore` | apps/web/catalog/projection.py:116-134 | The loop over the listed ids gives the specified table, count and skipped ids |
| `Catalog.CatalogTable.ReindexFull` | apps/web/catalog/management/commands/reindex.py:77-99 | Truncate and rebuild; an error leaves the old table |
| `Catalog.CatalogTable.ReindexOne` | apps/web/catalog/management/commands/reindex.py:101-116 | One recipe is projected, or refused without touching the table |
| `CatalogLaws.RebuildIff` | apps/web/catalog/management/commands/reindex.py:77-87 | A table is what a rebuild from empty gives if and only if it shows the store, with unique slugs given out in id order |
| `CatalogLaws.RebuildIsOrdered` | apps/web/catalog/projection.py:48-60 | A rebuild without error shows the store, with unique slugs in id order |
| `CatalogLaws.ProjectionIdempotent` | apps/web/catalog/projection.py:116-134 | Projecting the store onto the result of a rebuild changes no row |
| `CatalogLaws.RowTellsStore` | apps/web/catalog/projection.py:63-113 | A row holds the id, content, title and parsed time of a reachable version than which none is newer, which is the head if and only if none is newer than that; its owner is the one found for the head's author; its creation time is that of a version than which none is older; its version rows are the reachable versions, newest first, each with its hash, parents, origin, author, message and time |
| `CatalogLaws.SlugPicked` | apps/web/catalog/projection.py:48-60 | The slug is that of the title, or `recipe` if it has none, if no other row has it, and else the one with the suffix of the id; it is never empty |
| `CatalogLaws.SuffixIs` | apps/web/catalog/projection.py:59-60 | A clashing slug gets a dash and at most eight lower-case characters after the id's last underscore |
| `CatalogLaws.RebuildCounts` | apps/web/catalog/projection.py:122-134 | The reported count is the number of rows, and every recipe with a head is either projected or skipped |
| `CatalogRuns.RunShowsStore` | apps/web/catalog/projection.py:63-96 | After any error-free run of commits and projections slugs are unique, every recipe whose head has a known author has its right row, and every row is of a recipe with a head |
| `CatalogRuns.KnownAuthorsShow` | apps/web/catalog/projection.py:116-134 | If the authors of the run are known users, the table shows the store |
| `CatalogRuns.RunRebuildIff` | apps/web/catalog/management/commands/reindex.py:4-9 | After any error-free run a rebuild gives the same table if and only if every recipe in it still has a known author and the slugs are in id order |
| `CatalogRuns.ApartRebuilds` | apps/web/catalog/projection.py:48-60 | If titles of different recipes never share a slug, no projection fails and a rebuild gives the same table |
| `CatalogRuns.TitleClashBreaksRebuild` | apps/web/catalog/projection.py:49-54 | Two recipes whose titles share a slug, the larger id projected first: a rebuild gives another table |
| `Decimals.EncodeComplete` | packages/snapcook-core/src/snapcook_core/canonical/encode.py:62-74 | Two decimals have the same text if and only if they are numerically equal |
| `Decimals.ReadEncode` | packages/snapcook-core/src/snapcook_core/canonical/encode.py:62-74 | Reading the text of a decimal gives the same number back |
| `Decimals.EncodeCanonical` | packages/snapcook-core/src/snapcook_core/canonical/encode.py:65-67 | The text has no exponent, no leading zeros and no trailing fractional zeros |
| `SnapLaws.SnapOrder` | packages/snapcook-core/src/snapcook_core/units/rounding.py:139-162 | Snapping keeps order through every band and into the significant figures |
| `SnapLaws.SnapKeepsSign` | packages/snapcook-core/src/snapcook_core/units/rounding.py:144-146 | A snapped number has the sign of the number; only zero becomes zero |
| `SnapLaws.SnapOdd` | packages/snapcook-core/src/snapcook_core/units/rounding.py:151-162 | Opposite numbers snap to opposite numbers |
| `SnapLaws.SnapNear` | packages/snapcook-core/src/snapcook_core/units/rounding.py:158 | The snapped number is within half the band's step, or within a twentieth of a number below a twentieth |
| `SnapLaws.SnapTiesAway` | packages/snapcook-core/src/snapcook_core/units/rounding.py:151-158 | Halfway between two steps the larger magnitude is taken |
| `RoundingLaws.RoundHalfUpIff` | packages/snapcook-core/src/snapcook_core/units/rounding.py:158 | Rounding gives the nearest whole number, and of two equally near ones the one further from zero |
| `SnapLaws.SnapFixedIff` | packages/snapcook-core/src/snapcook_core/units/rounding.py:158-162 | Snapping again changes nothing if and only if the magnitude is not in [0.0495, 0.05) |
| `RoundingLaws.SnapValue` | packages/snapcook-core/src/snapcook_core/units/rounding.py:139-162 | The snapped value is the sign times the snapped magnitude: two figures below a twentieth, the band's step above |
| `RoundingLaws.AdjustedLeads` | packages/snapcook-core/src/snapcook_core/units/rounding.py:130-136 | The adjusted exponent is the decade of the magnitude |
| `Rounding.SnapMetric` | packages/snapcook-core/src/snapcook_core/units/rounding.py:139-162 | The loop over any bands computes the specified snapping |
| `MixedLaws.MixedStandsFor` | packages/snapcook-core/src/snapcook_core/units/rounding.py:165-210 | An answer has the value's sign, is within the tolerance, is a number of the ladder, and none is nearer |
| `MixedLaws.MixedExistsIff` | packages/snapcook-core/src/snapcook_core/units/rounding.py:170-193 | There is an answer if and only if some number of the ladder is close enough and some is nearer than zero, for every tolerance |
| `MixedLaws.MixedTextReads` | packages/snapcook-core/src/snapcook_core/units/rounding.py:203-210 | Reading the printed text gives the mixed number back |
| `MixedLaws.ClosestIsFirst` | packages/snapcook-core/src/snapcook_core/units/rounding.py:188-190 | The candidate chosen is the first of the nearest |
| `MixedNumbers.ToMixedNumber` | packages/snapcook-core/src/snapcook_core/units/rounding.py:165-210 | On any ladder the loop and the branches give the text of the specified mixed number, or nothing |
| `MixedLaws.CountShown` | packages/snapcook-core/src/snapcook_core/units/rounding.py:223-239 | A positive count shows as positive: the nearest whole number or one if indivisible, else the nearest half, and below a quarter two significant figures; ties go up |
| `MixedLaws.CountDenotes` | packages/snapcook-core/src/snapcook_core/units/rounding.py:223-239 | The text of a count, read as a decimal, is the count shown |
| `MixedLaws.CountsInOrder` | packages/snapcook-core/src/snapcook_core/units/rounding.py:223-239 | Two counts show in order, divisible or not |
| `MixedLaws.MetricDisplayInOrder` | packages/snapcook-core/src/snapcook_core/units/rounding.py:213-220 | The metric profile shows the snapped decimals, and the bounds of a range in order |
| `MixedLaws.MixedInOrder` | packages/snapcook-core/src/snapcook_core/units/rounding.py:188-207 | Two numbers that both have a fraction show in order, on every proper ladder and with any tolerance |
| `MixedLaws.DisplayInOrder` | packages/snapcook-core/src/snapcook_core/units/rounding.py:213-220 | With any unit and in any profile, two numbers both shown as fractions or both as decimals show in order: order can fail only between a fraction and a decimal |
| `MixedLaws.FarApartInOrder` | packages/snapcook-core/src/snapcook_core/units/rounding.py:213-220 | A fraction and a decimal show in order too, once the numbers are further apart than both may be off |
| `MixedLaws.ShownNear` | packages/snapcook-core/src/snapcook_core/units/rounding.py:213-220 | The number shown is within the tolerance, or within the snapping error, of the number |
| `MixedLaws.ShownDenotes` | packages/snapcook-core/src/snapcook_core/units/rounding.py:203-220 | The text shown, read as a decimal or a mixed number, is the number shown |
| `MixedLaws.UsDisplayNotInOrder` | packages/snapcook-core/src/snapcook_core/units/rounding.py:213-220 | 0.13 teaspoons show as 1/8 and the larger 0.132 as 0.1: fraction display does not keep order |
| `UnitLaws.ScalingMultiplies` | packages/snapcook-core/src/snapcook_core/units/scaling.py:46-112 | Scaling a LINEAR specification by a positive factor multiplies a value, both ends of a range, a count and its upper end by it and changes nothing else; approximations and other policies stay as they are |
| `UnitLaws.ScalingComposes` | packages/snapcook-core/src/snapcook_core/units/scaling.py:80-112 | Scaling twice is scaling once by the product, for every policy |
| `UnitLaws.ScalingUndone` | packages/snapcook-core/src/snapcook_core/units/scaling.py:6-9 | Scaling by a factor and its reciprocal gives the original numbers back |
| `UnitLaws.ScaledStaysValid` | packages/snapcook-core/src/snapcook_core/units/scaling.py:46-77 | A scaled quantity satisfies the checks the copy skips |
| `UnitLaws.ConvertKeepsAmount` | packages/snapcook-core/src/snapcook_core/units/density.py:81-124 | A conversion that succeeds keeps the grams, millilitres or seconds within a dimension; from volume to mass the grams are the millilitres times the density, from mass to volume the reverse; no other conversion succeeds |
| `UnitLaws.ConvertRefusesIff` | packages/snapcook-core/src/snapcook_core/units/density.py:81-124 | Exactly when a conversion is refused, and why: an unknown unit, dimensions without a bridge, or a bridge without a density |
| `UnitLaws.KnownConversions` | packages/snapcook-core/src/snapcook_core/units/registry.py:76-170 | Two kilos are 2000 grams, a pound is 16 ounces, a tablespoon three teaspoons, a litre 1000 millilitres |
| `UnitLaws.KnownTimes` | packages/snapcook-core/src/snapcook_core/units/registry.py:76-170 | A day is 24 hours, an hour 60 minutes, a minute 60 seconds |
| `UnitLaws.KnownBridge` | packages/snapcook-core/src/snapcook_core/units/density.py:108-124 | A quarter litre at 0.6 grams per millilitre is 150 grams, and back |
| `UnitLaws.ConvertBack` | packages/snapcook-core/src/snapcook_core/units/density.py:81-124 | A conversion that succeeds is undone by the conversion back, also across the density bridge |
| `UnitLaws.ConvertScales` | packages/snapcook-core/src/snapcook_core/units/density.py:81-124 | Scaling commutes with conversion, and whether a conversion is refused does not depend on the amount |
| `UnitLaws.SpellingDoesNotMatter` | packages/snapcook-core/src/snapcook_core/render/build.py:419-453 | Two spellings of one mass or volume are shown in the same unit with the same number |
| `UnitLaws.ShownAmount` | packages/snapcook-core/src/snapcook_core/render/build.py:419-453 | The amount shown is the amount written |
| `UnitLaws.ShownIsConverted` | packages/snapcook-core/src/snapcook_core/render/build.py:411-453 | The number shown is what converting to the unit chosen answers |
| `UnitLaws.RangeIsConverted` | packages/snapcook-core/src/snapcook_core/render/build.py:396-408 | Both numbers of a range are what converting to the unit chosen for the upper one answers |
| `UnitLaws.RangeShown` | packages/snapcook-core/src/snapcook_core/render/build.py:396-408 | A range is shown in one unit, in order, and alike for two spellings |
| `UnitLaws.PromotedIff` | packages/snapcook-core/src/snapcook_core/render/build.py:419-453 | The unit shown, by the amount alone: kilograms from 1000 grams and grams below, pounds from 16 ounces and ounces below, litres from 1000 millilitres and millilitres below, cups from 59 millilitres, tablespoons from 15 and teaspoons below; a time stays as it is |
| `UnitLaws.OnlyLinearScales` | packages/snapcook-core/src/snapcook_core/units/scaling.py:96-112 | Only LINEAR quantities scale, a non-positive factor is refused for them alone, and MANUAL and NONLINEAR warn |
| `UnitLaws.HeatConverts` | packages/snapcook-core/src/snapcook_core/schema/graph.py:71-77 | Converting a temperature to the other scale and back gives it again, and conversion keeps order both ways |
| `UnitLaws.HeatAnchors` | packages/snapcook-core/src/snapcook_core/schema/graph.py:71-77 | Water freezes at 32 and boils at 212 Fahrenheit; nine Fahrenheit degrees are five Celsius degrees |
| `CanonicalDocument.EncodeValue` | packages/snapcook-core/src/snapcook_core/canonical/encode.py:77-120 | The recursive encoder with its loops computes the specified document or error |
| `CanonicalDocument.EncodeModel` | packages/snapcook-core/src/snapcook_core/canonical/encode.py:128-138 | The loop over a model's fields computes its document |
| `CanonicalLaws.EncodedIsClean` | packages/snapcook-core/src/snapcook_core/canonical/encode.py:107-118 | A document has no absent member at any depth and only normalised text |
| `CanonicalLaws.EncodeIdempotent` | packages/snapcook-core/src/snapcook_core/canonical/encode.py:77-120 | Encoding a document read as plain data, members in any order, gives the document back |
| `CanonicalLaws.EncodesUnlessFault` | packages/snapcook-core/src/snapcook_core/canonical/encode.py:77-120 | A value has a document if and only if nothing in it that counts is a float, a non-finite number, a key that is no text or of a type without an encoding; else the error is that of one such part |
| `CanonicalLaws.PlainDocuments` | packages/snapcook-core/src/snapcook_core/canonical/encode.py:89-96 | A number is text in the document that reads back as the number; text is its normal form |
| `CanonicalEquality.DocumentsEqualIff` | packages/snapcook-core/src/snapcook_core/canonical/encode.py:77-138 | Two comparable values have the same document if and only if they mean the same: numbers numerically, text up to normalisation, missing members ignored |
| `DocumentShapes.ShapedEqualIff` | packages/snapcook-core/src/snapcook_core/canonical/encode.py:77-138 | Two values of one schema can be compared, have documents, and have the same one if and only if they mean the same |
| `DocumentShapes.ModelsSame` | packages/snapcook-core/src/snapcook_core/canonical/encode.py:128-138 | Models of one class mean the same if and only if the fields that are not bookkeeping do |
| `DocumentShapes.FieldMember` | packages/snapcook-core/src/snapcook_core/canonical/encode.py:128-138 | The document of a model holds the encoding of each field under its name, and nothing for a field that is missing or not part of the identity |
| `CanonicalEquality.AbsentIff` | packages/snapcook-core/src/snapcook_core/canonical/encode.py:123-125 | A value is left out of the document exactly if it is none, an empty list, or an object without shown members |
| `CanonicalEquality.AbsentFieldIgnored` | packages/snapcook-core/src/snapcook_core/canonical/encode.py:128-138 | A missing field, or one outside the identity, changes nothing wherever it stands |
| `QuantityDocuments.QuantityDocumentsEqualIff` | packages/snapcook-core/src/snapcook_core/schema/quantity.py:110-197 | Two quantities have one document if and only if kind, numbers, unit, locale, size, token, surface and nominal amount are the same to the reader |
| `QuantityDocuments.QuantityMembers` | packages/snapcook-core/src/snapcook_core/schema/quantity.py:110-197 | The document of a quantity holds its numbers, size, token and surface each under its own name |
| `QuantityDocuments.ReadBackHashIff` | packages/snapcook-core/src/snapcook_core/store/base.py:11-15 | A quantity printed and parsed hashes as before if and only if the text expresses its shape, the lookups give its unit and token back, and it has no locale and no nominal amount |
| `RecipeDocuments.RecipeDocumentsEqualIff` | packages/snapcook-core/src/snapcook_core/schema/recipe.py:55-79 | Every recipe has a document, and two recipes have one document if and only if they agree field by field in everything but the bookkeeping: texts up to normalisation, numbers numerically, dictionaries by key, no prose like empty prose |
| `RecipeDocuments.RecipeMembers` | packages/snapcook-core/src/snapcook_core/schema/recipe.py:55-79 | The document of a recipe holds each of its nine hashed parts under its name, and nothing of a missing one |
| `RecipeDocuments.ActionMembers` | packages/snapcook-core/src/snapcook_core/schema/graph.py:167-192 | The document of an action holds each of its eleven parts under its name, and nothing of a missing one |
| `RecipeDocuments.ActionSameIff` | packages/snapcook-core/src/snapcook_core/schema/graph.py:167-192 | Two actions mean the same to the encoder if and only if all eleven fields agree, chunks by kind and slot |
| `RecipeDocuments.ProvenanceSameIff` | packages/snapcook-core/src/snapcook_core/schema/provenance.py:28-51 | Two provenances mean the same to the encoder if and only if all but the retrieval time and the importer agree |
| `RecipeDocuments.DictSameIff` | packages/snapcook-core/src/snapcook_core/canonical/encode.py:107-118 | Two dictionaries mean the same if and only if every normalised key finds the same normalised text, the last entry winning |

## Left out

- Frontmatter and its YAML: only the document body is modelled, after the frontmatter and its line splitting.
- Several languages in the Cooklang text: there, localised text is one text; the printer prints the source language.
- Ids and order numbers of steps, ids of states and uses after a round trip: the parser mints new ones; the round trip compares what they stand for.
- Ingredient names, unit names, slugs and approximation tokens: functions of the surface text, passed in.
- Decimal digits other than ASCII and Python's 28-digit precision: decimals are exact, and read as ASCII text.
- The binary heap: popping is removing the least entry, which is its contract.
- SHA-256, JCS bytes, JSON text and Unicode normalisation: free terms, values, and a function that is idempotent and keeps ASCII.
- Partial file writes, and recipe ids that are not single path components: a file is written at once, and an id is one component.
- README.md of a recipe directory and its Cooklang projection: the files hold the recipe they are made from.
- Malformed time stamps: time parsing is a total function, so the projection's own time errors are not modelled.
- Row columns other than slug, owner, title, versions and times: one text, the rest of the recipe's content.
- Concurrent projections and database locking: the table changes one projection at a time; the commit protocol is modelled with interleavings.
- The unit table's mass factors for ounce and pound come from the international definitions, which the unit library supplies.
- Ladders with entries outside zero to one: the printer of mixed numbers takes any, the laws are about proper ladders, as all of the table are.
- Flowchart labels, text and Mermaid rendering, timers' and temperatures' display, label tables: straight-line formatting.
- Django views, accounts, tokens, settings and migrations: framework code.
- Registry binding, plural stripping, id minting and the corpus.
