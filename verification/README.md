# MariaAI editing models in Dafny

This project models the editing logic of three front-end pieces of the
MariaAI account interface. Each is an immutable document that pure reducer
functions change. The project proves what those reducers promise.

- **Visual Editor for bot configurations** (`StageEditor`, on the records in
  `BotConfig`). A configuration holds an ordered list of conversation stages,
  and each stage holds segments and wakeups. The editor:
  - appends, deletes and replaces stages;
  - reorders stages by dragging;
  - keeps a list of the stage cards that are expanded;
  - edits a stage card's fields, segments and wakeups;
  - derives the file name on save and the config name on import.
- **LLM Task Constructor** (`TaskBlocks`, `TaskConstructor`, `BlockList`,
  `TemplateSidebar`). A prompt is a list of typed blocks. The modules cover:
  - the serialiser that prints blocks as tagged text, in `HASHTAG` or `TAG`
    style;
  - the state reducers, including a registry of custom block types with
    tooltips;
  - the drag reorder of the workspace;
  - the sidebar's template ordering and its custom-type form.
- **Dashboard shell** (`Dashboard`):
  - the action it suggests for the hour of day;
  - the list of the five most recent card clicks;
  - the section dispatcher.

Three modules serve the others:
- `Results` holds `Option` and `Result`.
- `Text` holds JavaScript's `trim` with its exact whitespace set, decimal
  rendering, and `String.prototype.replace` with a string pattern, which
  replaces the first occurrence only.
- `Sequences` holds `filter`, `findIndex`, `slice(-n)`, an adjacent swap, and
  the `arrayMove` helper of the drag-and-drop toolkit.

Values that come from the environment are parameters of the operations:
- the clock (`Date.now()`, the current hour);
- random ids (`crypto.randomUUID()`);
- the file a user picks, and whether its text parsed.

## Model

| member | source | states |
|---|---|---|
| StageEditor.ToggleExpansion | src/components/sections/Workflow/VisualEditor.tsx:628-634 | A listed name is removed with all its repeats, keeping the rest in order and with their counts; an unlisted name is appended; other names keep their membership |
| StageEditor.ToggleTwice | src/components/sections/Workflow/VisualEditor.tsx:628-634 | Toggling twice restores which names are listed, and restores the list exactly when the name was absent |
| StageEditor.NewStageName | src/components/sections/Workflow/VisualEditor.tsx:654 | A new stage's name is a fixed prefix followed by the stage count plus one in decimal: digits only, no leading zero, reading back as that number |
| StageEditor.NewStageNameInjective | src/components/sections/Workflow/VisualEditor.tsx:654 | Different stage counts give different generated names |
| StageEditor.AddNewStage | src/components/sections/Workflow/VisualEditor.tsx:652-671 | Exactly one blank stage with the generated name is appended, with empty texts, segments and wakeups; earlier stages are unchanged; the name is appended to the expanded list |
| Sequences.Filter | src/components/sections/Workflow/VisualEditor.tsx:676 | Only kept elements remain, and a list whose elements are all kept comes back unchanged |
| Sequences.FilterMultiset | src/components/sections/Workflow/VisualEditor.tsx:676 | Every kept value keeps its number of occurrences, and every rejected value has none left |
| Sequences.FilterIsSubsequence | src/components/sections/Workflow/VisualEditor.tsx:676 | Filtering keeps the relative order of what it keeps |
| StageEditor.DeleteStage | src/components/sections/Workflow/VisualEditor.tsx:673-679 | Every stage with that name goes and the others keep their counts and relative order; the name leaves the expanded list; an absent name changes nothing |
| StageEditor.AddThenDelete | src/components/sections/Workflow/VisualEditor.tsx:652-679 | Deleting a stage just added restores the editor, when the generated name was unused |
| StageEditor.DeleteThenAddRepeatsName | src/components/sections/Workflow/VisualEditor.tsx:652-679 | Add, add, delete the first, add: two stages now share a name, so names are not unique |
| StageEditor.UpdateStage | src/components/sections/Workflow/VisualEditor.tsx:681-688 | Length, positions and names are kept; exactly the stages with the edited stage's name are replaced; with no match the list is unchanged |
| StageEditor.UpdateStageIdempotent | src/components/sections/Workflow/VisualEditor.tsx:681-688 | Replacing with the same stage twice equals replacing once |
| StageEditor.UpdateStageOverwritesNamesakes | src/components/sections/Workflow/VisualEditor.tsx:681-688 | An edit meant for one stage also lands on every stage sharing its name |
| StageEditor.MoveFound | src/components/sections/Workflow/VisualEditor.tsx:641-646 | The unguarded move is a permutation; an index of -1 acts as the last index in either position |
| Sequences.FindIndex | src/components/sections/Workflow/VisualEditor.tsx:641-642 | The first index whose element satisfies the test, and -1 exactly when none does |
| StageEditor.IndexOfStage | src/components/sections/Workflow/VisualEditor.tsx:641-642 | Gives -1 exactly when no stage has the name, and otherwise the first stage with it |
| StageEditor.ReorderStages | src/components/sections/Workflow/VisualEditor.tsx:636-650 | Length and multiset are kept. Dropping on itself or on nothing changes nothing. With both names present, the dragged stage lands at the target's index and the others keep their relative order |
| StageEditor.SetField | src/components/sections/Workflow/VisualEditor.tsx:420-455 | An inline edit sets one text field and leaves every other field alone, the name included |
| StageEditor.SaveSegment | src/components/sections/Workflow/VisualEditor.tsx:317-326 | Segments with the saved id are replaced, all others are kept, the length is unchanged, and nothing else in the stage changes |
| StageEditor.SaveWakeup | src/components/sections/Workflow/VisualEditor.tsx:328-337 | Only the edited wakeup is replaced; a target no longer in the list changes nothing |
| StageEditor.AddNewSegment | src/components/sections/Workflow/VisualEditor.tsx:339-351 | One segment is appended, with empty type, description and examples and an id of "seg" followed by the clock reading in decimal digits, with no leading zero; the rest of the stage is unchanged |
| StageEditor.AddNewWakeup | src/components/sections/Workflow/VisualEditor.tsx:353-365 | One wakeup is appended, with a 15 second timer and empty texts; the rest of the stage is unchanged |
| StageEditor.AddSegmentThenSave | src/components/sections/Workflow/VisualEditor.tsx:317-351 | Saving the form for a new segment with a fresh id puts the edit at the end and leaves the earlier segments alone |
| StageEditor.AddWakeupThenSave | src/components/sections/Workflow/VisualEditor.tsx:328-365 | Saving the form for a new wakeup puts the edit at the end and leaves the earlier wakeups alone |
| StageEditor.CardEditLandsInPlace | src/components/sections/Workflow/VisualEditor.tsx:324 | A card edit keeps the stage's name, so the update that follows writes it back to its own position and leaves other stages alone |
| StageEditor.SaveFileName | src/components/sections/Workflow/VisualEditor.tsx:703-709 | A whitespace-only name fails before any request; otherwise the file name is the trimmed name plus ".json" |
| StageEditor.SavePath | src/components/sections/Workflow/VisualEditor.tsx:709-710 | The request path is the configs directory plus that file name, and fails exactly when the name is blank |
| StageEditor.ImportedName | src/components/sections/Workflow/VisualEditor.tsx:761 | A name without ".json" is kept; otherwise the first occurrence of ".json" is cut out and everything around it stays |
| StageEditor.ImportFile | src/components/sections/Workflow/VisualEditor.tsx:753-771 | No file, or text that does not parse, changes nothing; otherwise the document is replaced, the name derived, and the expanded list kept |
| StageEditor.SaveThenImportName | src/components/sections/Workflow/VisualEditor.tsx:761 | Importing a saved file gives back the trimmed name, unless that name itself contains ".json" |
| Text.Trim | src/components/sections/Workflow/VisualEditor.tsx:704 | The result is a slice of the input whose ends are not whitespace, and everything cut off is whitespace |
| Text.TrimEmptyIffBlank | src/components/sections/Workflow/VisualEditor.tsx:704 | The trimmed text is empty exactly when the input is whitespace only |
| Text.RemoveFirst | src/components/sections/Workflow/VisualEditor.tsx:761 | With no occurrence the text is unchanged; otherwise exactly the first occurrence is cut out, and later ones stay |
| Text.RemoveFirstOfAppended | src/components/sections/Workflow/VisualEditor.tsx:761 | Cutting a pattern out of text with that pattern appended gives back the text, when the pattern does not occur in the text and its first character does not recur in it |
| Text.NatToString | src/components/sections/Workflow/VisualEditor.tsx:654 | A non-negative number renders as at least one decimal digit, with no leading zero |
| Text.ParseNatToString | src/components/sections/Workflow/VisualEditor.tsx:654 | A number's decimal text is digits only and reads back as the number |
| TaskBlocks.CreateBlock | web_interface_tests/LLM-task-constructor/src/utils/blockUtils.ts:3-10 | A new block has the given id, type and tooltip, empty content, is not collapsed, and has no format of its own |
| TaskBlocks.BlockTypesDistinct | web_interface_tests/LLM-task-constructor/src/utils/blockUtils.ts:86-98 | There are 11 built-in types, all different |
| TaskBlocks.BlockDescription | web_interface_tests/LLM-task-constructor/src/utils/blockUtils.ts:46-61 | The generic "Custom block type" sentence is given exactly for names that are not built-in types |
| TaskBlocks.TipText | web_interface_tests/LLM-task-constructor/src/utils/blockUtils.ts:68 | The marker is empty exactly when the tooltip is absent or empty; otherwise it is the tooltip between "--" and "--" |
| TaskBlocks.EffectiveFormat | web_interface_tests/LLM-task-constructor/src/utils/blockUtils.ts:67 | A block's own format wins; without one, the global format is used |
| TaskBlocks.FormatBlock | web_interface_tests/LLM-task-constructor/src/utils/blockUtils.ts:63-78 | The text is empty exactly when the content is blank; otherwise it is the opening line, the content verbatim, and the closing line |
| TaskBlocks.HashtagText | web_interface_tests/LLM-task-constructor/src/utils/blockUtils.ts:71-72 | The exact HASHTAG text of a block |
| TaskBlocks.TagText | web_interface_tests/LLM-task-constructor/src/utils/blockUtils.ts:73-74 | The exact TAG text of a block |
| TaskBlocks.FormatPrecedence | web_interface_tests/LLM-task-constructor/src/utils/blockUtils.ts:67 | A block with its own format prints the same under any global format; a block without one prints as if the global format were its own |
| TaskBlocks.UnwrapFormatBlock | web_interface_tests/LLM-task-constructor/src/utils/blockUtils.ts:63-78 | Cutting the opening and closing lines off a printed block gives back its content |
| TaskBlocks.NewBlockPrintsNothing | web_interface_tests/LLM-task-constructor/src/utils/blockUtils.ts:64 | A freshly created block prints as the empty string |
| TaskBlocks.GenerateOutput | web_interface_tests/LLM-task-constructor/src/utils/blockUtils.ts:80-84 | No blocks print nothing; one block prints as itself; n blocks give the printed lengths plus n - 1 separators, blank blocks included |
| TaskBlocks.OutputAppend | web_interface_tests/LLM-task-constructor/src/utils/blockUtils.ts:80-84 | The output of two lists of blocks is their outputs with one newline between them, so the blocks appear in order |
| TaskBlocks.BlankOutput | web_interface_tests/LLM-task-constructor/src/utils/blockUtils.ts:80-84 | n blank blocks print as n - 1 newlines |
| TaskBlocks.JoinLoop | web_interface_tests/LLM-task-constructor/src/utils/blockUtils.ts:83 | A single pass that puts the separator before every part but the first builds the join |
| TaskBlocks.BuildOutput | web_interface_tests/LLM-task-constructor/src/utils/blockUtils.ts:80-84 | Printing every block and joining the texts in one pass gives the output |
| TaskConstructor.TooltipFor | web_interface_tests/LLM-task-constructor/src/App.tsx:45 | The tooltip of a type is the registry entry when there is one, and absent otherwise |
| TaskConstructor.AddBlock | web_interface_tests/LLM-task-constructor/src/App.tsx:42-47 | Exactly one fresh block of the type is appended, carrying the registry's tooltip for it; earlier blocks and the rest of the state are unchanged |
| TaskConstructor.EditWhere | web_interface_tests/LLM-task-constructor/src/App.tsx:49-90 | The edit applies to exactly the blocks with the id; the others are unchanged and the length is kept |
| TaskConstructor.UpdateBlock | web_interface_tests/LLM-task-constructor/src/App.tsx:49-56 | Matching blocks get the new content and nothing else in them changes; other blocks and the rest of the state are unchanged |
| TaskConstructor.UpdateBlockTooltip | web_interface_tests/LLM-task-constructor/src/App.tsx:58-65 | Matching blocks get the new tooltip and nothing else in them changes; other blocks are unchanged |
| TaskConstructor.SetBlockFormat | web_interface_tests/LLM-task-constructor/src/App.tsx:83-90 | Matching blocks get the new own format, or none; nothing else changes |
| TaskConstructor.ToggleCollapse | web_interface_tests/LLM-task-constructor/src/App.tsx:74-81 | Matching blocks' flag is negated, an unset flag reading as false; nothing else changes |
| TaskConstructor.ToggleCollapseTwice | web_interface_tests/LLM-task-constructor/src/App.tsx:74-81 | Toggling twice restores every block whose flag was set; an unset flag ends up false |
| TaskConstructor.DeleteBlock | web_interface_tests/LLM-task-constructor/src/App.tsx:67-72 | Exactly the blocks with the id go; the rest keep their counts and relative order |
| TaskConstructor.SetFormatType | web_interface_tests/LLM-task-constructor/src/App.tsx:99-104 | Only the global format changes |
| TaskConstructor.DropTemplate | web_interface_tests/LLM-task-constructor/src/App.tsx:146-157 | A template dropped somewhere adds one block of its type; any other drag end changes nothing |
| TaskConstructor.AddCustomBlockType | web_interface_tests/LLM-task-constructor/src/App.tsx:159-178 | A blank name, or one already offered, changes nothing; otherwise the name is appended and its tooltip recorded, and the blocks stay as they were |
| TaskConstructor.RemoveCustomBlockType | web_interface_tests/LLM-task-constructor/src/App.tsx:180-193 | The name leaves the list and the tooltip map; other names keep their number of copies, their order and their tooltips; the blocks stay |
| TaskConstructor.InitialRegistryOk | web_interface_tests/LLM-task-constructor/src/App.tsx:20-25 | The initial state has a well-formed registry |
| TaskConstructor.AddCustomKeepsRegistry | web_interface_tests/LLM-task-constructor/src/App.tsx:159-178 | Adding keeps custom names non-blank, distinct, disjoint from the built-in ones, and equal to the tooltip map's keys |
| TaskConstructor.RemoveCustomKeepsRegistry | web_interface_tests/LLM-task-constructor/src/App.tsx:180-193 | Removing keeps the registry well formed |
| TaskConstructor.BuiltInBlocksHaveNoTooltip | web_interface_tests/LLM-task-constructor/src/App.tsx:42-47 | While the registry is well formed, a block of a built-in type is created without a tooltip, since only custom types have entries |
| TaskConstructor.BlockEditsKeepRegistry | web_interface_tests/LLM-task-constructor/src/App.tsx:42-104 | No block reducer touches the registry |
| BlockList.IndexOfBlock | web_interface_tests/LLM-task-constructor/src/components/BlockList.tsx:56-57 | Gives -1 exactly when no block has the id, and otherwise the first block with it |
| BlockList.ReorderBlocks | web_interface_tests/LLM-task-constructor/src/components/BlockList.tsx:52-63 | Length and multiset are kept. No target, the same id, or a missing id change nothing. Otherwise the dragged block lands at the target's index and the others keep their relative order |
| BlockList.ReorderIsMove | web_interface_tests/LLM-task-constructor/src/components/BlockList.tsx:59-60 | With both ids found and different, the handler is one array move between their indices |
| BlockList.ReorderUndo | web_interface_tests/LLM-task-constructor/src/components/BlockList.tsx:52-63 | With unique ids, dragging the moved block back over the block now at its old place restores the list, and ids stay unique |
| Sequences.ArrayMove | web_interface_tests/LLM-task-constructor/src/components/BlockList.tsx:60 | A move is a permutation that puts the moved element at the target index and keeps the others in order |
| Sequences.ArrayMoveInverse | web_interface_tests/LLM-task-constructor/src/components/BlockList.tsx:60 | Moving back from the target to the source index undoes a move |
| Sequences.ArrayMoveShifts | web_interface_tests/LLM-task-constructor/src/components/BlockList.tsx:60 | Positions outside the two indices are untouched; between them, elements shift one place towards the source |
| TemplateSidebar.MoveUp | web_interface_tests/LLM-task-constructor/src/components/Sidebar.tsx:123-129 | The template trades places with the one above it; the first does not move; nothing else moves |
| TemplateSidebar.MoveDown | web_interface_tests/LLM-task-constructor/src/components/Sidebar.tsx:131-137 | The template trades places with the one below it; the last does not move; nothing else moves |
| TemplateSidebar.UpThenDown | web_interface_tests/LLM-task-constructor/src/components/Sidebar.tsx:123-137 | Moving up and then back down restores the order |
| TemplateSidebar.DownThenUp | web_interface_tests/LLM-task-constructor/src/components/Sidebar.tsx:123-137 | Moving down and then back up restores the order |
| TemplateSidebar.ClicksPermute | web_interface_tests/LLM-task-constructor/src/components/Sidebar.tsx:123-137 | Any run of arrow clicks keeps the order a permutation without repeats |
| TemplateSidebar.TemplatesStayComplete | web_interface_tests/LLM-task-constructor/src/components/Sidebar.tsx:121-137 | Starting from the built-in list, the sidebar always shows each built-in type exactly once |
| TemplateSidebar.OpenForm | web_interface_tests/LLM-task-constructor/src/components/Sidebar.tsx:188 | Opening the form keeps what was typed |
| TemplateSidebar.CancelForm | web_interface_tests/LLM-task-constructor/src/components/Sidebar.tsx:172 | Cancelling closes the form and keeps what was typed |
| TemplateSidebar.SubmitCustomForm | web_interface_tests/LLM-task-constructor/src/components/Sidebar.tsx:139-146 | A request is sent exactly when the name is not blank, carrying the trimmed name and tooltip, and the form is then cleared and closed; otherwise nothing changes |
| TemplateSidebar.SubmittedNameIsClean | web_interface_tests/LLM-task-constructor/src/components/Sidebar.tsx:139-146 | A submitted name is non-blank and already trimmed, so the application's blank check never fires for it |
| Dashboard.Predict | src/App.tsx:38-49 | Hours 9-11 suggest the morning report, 14-16 the performance check, and 17-18 the daily summary, since 16 is taken by the earlier test; every other hour leaves the suggestion at null |
| Dashboard.CardClick | src/App.tsx:67-77 | The card is selected, the panel opens, and it becomes the last action. The recent list holds one more entry than before, up to five, ends with the card, keeps only the newest of the old entries, and is a plain append while fewer than five were recorded |
| Dashboard.RecentActionsAreNewest | src/App.tsx:73-76 | After any run of clicks, the recent list is the newest five of everything recorded, oldest first |
| Sequences.TakeLast | src/App.tsx:75 | The last n elements, or all of them when there are fewer |
| Dashboard.RenderMainContent | src/App.tsx:79-97 | The dashboard is shown exactly for section names other than the four named sections; any other view is shown only for its own section name |
| Dashboard.DispatchRoundTrip | src/App.tsx:79-97 | Each view is reached from its own section name, and the shell starts on the dashboard |

## Left out

- Rendering is outside the model. That covers JSX, animation, styling, icons and colours (`getBlockIcon`, `getBlockColor`), and the drag sensors. Only what a completed drag does to the list is modelled.
- Network, file and browser I/O are outside the model:
  - the existence check and `PUT` of `saveConfig`/`performSave`;
  - the overwrite confirmation;
  - the Blob download of `exportToJson`, whose file name is always `bot-config.json`;
  - `file.text()`, the clipboard, alerts and notifications.

  What remains of saving is the name guard and the path.
- `JSON.stringify` and `JSON.parse` are outside the model. Import takes the parse result as a parameter.
  - The source accepts any parsed JSON value as the new document, not only well-formed configurations.
  - The model only takes a `Config`.
- StageEditor.NewStageName: the prefix is the Russian "Новая стадия " ("New stage "). In the repository the literal at VisualEditor.tsx:654 is stored double-encoded: its UTF-8 bytes were read as Windows-1252 and saved again, and the bytes that code page lacks were dropped. The model uses the intended text. No property depends on the prefix beyond its being fixed.
- `StageEditor.ReorderStages`: with no drop target, the source fails with a TypeError on `over.id` before changing state. The model returns the list unchanged.
- `StageEditor.ReorderStages` states the target-index and order property only when both names are present. When a name is missing, `MoveFound` gives the exact result. A missing name cannot arise from the UI, since every draggable card is a listed stage.
- `StageEditor.MoveFound`: on an empty list it returns the list. There is nothing to drag then.
- `arrayMove` comes from the drag-and-drop toolkit. `@dnd-kit/sortable` is not part of this model. `Sequences.ArrayMove` follows its published behaviour: take the element out, then put it in at the target index.
- `StageEditor.SaveWakeup` names the edited wakeup by index. The source matches by object reference, and the card always edits a wakeup that is in the list.
- `StageEditor.AddNewSegment` takes the clock reading as a natural number. `TaskConstructor.AddBlock` takes the random id as a parameter.
- `Wakeup.timer` is an unbounded integer. The source stores a JavaScript number.
- `TaskConstructor.TooltipFor` treats the tooltip map as a plain map. In the source, a type named like an `Object.prototype` member (`"constructor"`) would find an inherited value.
- `TaskConstructor.AddCustomBlockType` tests for duplicates against the state the call receives.
  - The source tests against the component's current state and then appends in a functional update.
  - The two agree when calls do not overlap within one render.
  - The success and duplicate notifications are not modelled.
- The `default` branch of `formatBlockContent` (print the content bare) is not modelled. The `FormatType` type allows only `HASHTAG` and `TAG`, so that branch is unreachable.
- `TemplateSidebar.SubmittedNameIsClean` does not go on to restate what `TaskConstructor.AddCustomBlockType` then does with the name. The registry lemmas cover that step.
- `TemplateSidebar.ClicksPermute` considers only clicks on templates that are on screen. Every arrow belongs to a rendered template, so no other click exists.
- The accessibility-detection effect and the command palette of the dashboard shell are not modelled. The effect uses `matchMedia` and `Math.random`; the palette only displays state.
- The bot-configuration records have only the fields the editor's interfaces declare. There are no column lists, feature flags or version bumping, and nothing keeps stage names unique. The code is followed on each of these points, and `StageEditor.DeleteThenAddRepeatsName` shows that names can repeat.
