# Web-to-APK guide wizard: a Dafny model of its logic

The wizard asks for a GitHub repository URL and an operating system. It
shows a five-message status ladder while one model call generates a
step-by-step guide. It then pages through the guide's steps in a result
card.

This project models the deterministic logic behind those screens. Each
part is a set of pure functions over immutable datatypes, and the
properties are proved about them.

- `TextUtil` (`text.dfy`) holds the string helpers:
  - JavaScript's `\s` whitespace set, `trim`, `includes`;
  - the non-whitespace projection `RemoveSpaces`, used to state what a
    rewrite preserves.
- `DetailsDisplay` (`details_display.dfy`) is the detail-text formatter.
  It models each of the three global `replace` passes
  (`/\s*(---.*?---)\s*/g`, `/\s*(\d+\.)/g`, `/\s*([a-z]\.)/g`) as one
  left-to-right scan, `Rewrite`. It also models the `split('\n')` and
  blank-line filter, and the header / lettered / numbered / paragraph
  classifier with the texts it extracts.
  - The markers are found anywhere in the text, not only at line starts,
    exactly as the code does. Three worked inputs are proved:
    `"--- 1. Setup ---"`, `"Studio."` and `"jdk-11.0.1"`.
- `StepModel` (`step_model.dfy`) holds the step and action records and the
  `group || 'default'` reduce. That reduce is shared by the result card and
  the macOS/Linux sub-step view. It is checked against an independent
  reference: the per-key filter `InGroup`.
- `Progress` (`progress.dfy`) is the completed / current / pending
  classification that the status list and the sub-step stepper both draw.
- `ResultCard` (`result_card.dfy`) covers three things:
  - the bounded pager and its buttons;
  - the whitelist of drawn group keys;
  - the view of one step.
- `Step3MacOS` (`step3_macos.dfy`) covers the five-row sub-step table, its
  navigation, its stepper, and the option A / option B panel.
- `GeminiService` (`gemini_service.dfy`) models the try/catch chain of
  `generateConversionSteps` as a total function to a `Result`. The call
  itself and `JSON.parse` are parameters: an outcome value and a parse
  oracle. The declared response schema's required-field lists are also
  here.
- `App` (`app.dfy`) is the request lifecycle. The state record's
  transitions are `handleConvert`, one timer expiry, completion of
  `processRequest` and `handleReset`. The screen selection is a pure
  function, and an event function ignores controls that are not on
  screen. An invariant is proved to hold in every reachable state.

Time is a sequence of discrete timer events. The model call, its reply
text and the JSON parser are inputs to the model. Nothing in the model
performs I/O.

The numbered pass runs before any line is classified, so
`"--- 1. Setup ---"` renders an empty header and the numbered item `1` /
`"Setup ---"`; see `DetailsDisplay.HeaderWithNumberIsSplit`.

## Model

| member | source | states |
|---|---|---|
| TextUtil.Trim | components/DetailsDisplay.tsx:23 | the trimmed line is empty exactly when the line is all whitespace; otherwise both of its ends are non-whitespace; no non-whitespace character is lost |
| TextUtil.TrimIdempotent | components/DetailsDisplay.tsx:20-23 | trimming an already trimmed line changes nothing, so the filter's trim and the classifier's trim agree |
| TextUtil.SpaceClasses | components/DetailsDisplay.tsx:15-23 | every line terminator is whitespace; whitespace is never a digit, lower-case letter, full stop or hyphen; in ASCII it is exactly space, tab, line feed, vertical tab, form feed and carriage return |
| TextUtil.ContainsIff | App.tsx:113 | `includes` holds exactly when the pattern occurs at some index of the URL |
| DetailsDisplay.FindCloser | components/DetailsDisplay.tsx:15 | the lazy `.*?---` stops at the first closing `---` that is reached without crossing a line terminator, and fails when there is none |
| DetailsDisplay.MatchAt | components/DetailsDisplay.tsx:15-17 | a reported match is leading whitespace, one captured marker of the pass, then (for headers) trailing whitespace |
| DetailsDisplay.MarkerIsTheMatch | components/DetailsDisplay.tsx:16-17 | any numbered or lettered marker that follows only whitespace is exactly the match reported, so backtracking cannot change the result |
| DetailsDisplay.HeaderIsTheMatch | components/DetailsDisplay.tsx:15 | an opening `---` after whitespace with a closing `---` later on the same line is a header match starting at that opening |
| DetailsDisplay.Rewrite | components/DetailsDisplay.tsx:15-17 | one global replace: the non-whitespace characters of the result are those of the input, in order |
| DetailsDisplay.Normalize | components/DetailsDisplay.tsx:14-17 | the three passes add, lose or move no character other than whitespace: removing all whitespace from input and output gives the same text |
| DetailsDisplay.LetterMarkersStartLines | components/DetailsDisplay.tsx:17 | after the lettered pass, every lower-case letter followed by a full stop is preceded by a line feed |
| DetailsDisplay.NumberMarkersStartLines | components/DetailsDisplay.tsx:16 | after the numbered pass, every maximal digit run followed by a full stop is preceded by a line feed |
| DetailsDisplay.NormalizeBreaksLetterMarkers | components/DetailsDisplay.tsx:14-17 | in the normalised text every lettered marker starts a line |
| DetailsDisplay.RewriteAtMarker | components/DetailsDisplay.tsx:15-17 | where a numbered or lettered pass matches, it writes the break, the marker itself, and continues on a strictly shorter rest |
| DetailsDisplay.RewriteWithoutMarkers | components/DetailsDisplay.tsx:16-17 | text with no digit or lower-case letter followed by a full stop passes the numbered or lettered pass unchanged |
| DetailsDisplay.RewriteWithoutTripleDash | components/DetailsDisplay.tsx:15 | text with no `---` passes the header pass unchanged |
| DetailsDisplay.Split | components/DetailsDisplay.tsx:20 | `split('\n')` returns at least one piece and no piece contains a line feed |
| DetailsDisplay.JoinSplit | components/DetailsDisplay.tsx:20 | joining the pieces with line feeds rebuilds the text |
| DetailsDisplay.SplitJoin | components/DetailsDisplay.tsx:20 | splitting a join of line-feed-free pieces gives the pieces back |
| DetailsDisplay.NonBlank | components/DetailsDisplay.tsx:20 | a line is kept exactly when its trim is non-empty, and no lines are added |
| DetailsDisplay.NonBlankOne | components/DetailsDisplay.tsx:20 | a single line is kept exactly when it is not blank |
| DetailsDisplay.NonBlankAppend | components/DetailsDisplay.tsx:20 | the filter works line by line: filtering a concatenation concatenates the filtered parts |
| DetailsDisplay.RemoveDashesKeepsText | components/DetailsDisplay.tsx:28 | removing every `---` keeps every character other than a hyphen, in order |
| DetailsDisplay.RemoveDashesLeavesNoTriple | components/DetailsDisplay.tsx:28 | no `---` survives the global removal |
| DetailsDisplay.RemoveDashesKeepsPrefix | components/DetailsDisplay.tsx:28 | a prefix in which no `---` starts passes through unchanged, and the removal carries on in the rest |
| DetailsDisplay.RemoveDashesKeepsHyphenFree | components/DetailsDisplay.tsx:28 | a hyphen-free prefix passes through unchanged |
| DetailsDisplay.RemoveDashesRun | components/DetailsDisplay.tsx:28 | a run of k hyphens leaves k mod 3 hyphens, as the left-to-right global match does |
| DetailsDisplay.HeaderKeepsInnerHyphen | components/DetailsDisplay.tsx:28 | in `"--- jdk-11 ---"` only the two triples go and the single hyphen stays |
| DetailsDisplay.HeaderText | components/DetailsDisplay.tsx:28 | the header text has no `---` and no whitespace at either end, and keeps the non-whitespace characters of the dash-free line |
| DetailsDisplay.MatchLettered | components/DetailsDisplay.tsx:35 | a lettered item matches exactly when the line starts with a lower-case letter, a full stop and whitespace; the text is what follows the maximal whitespace run |
| DetailsDisplay.MatchNumbered | components/DetailsDisplay.tsx:46 | a numbered item matches exactly when the line starts with a digit run followed by a full stop and whitespace; the number is the maximal digit run and the text follows the whitespace |
| DetailsDisplay.Classify | components/DetailsDisplay.tsx:23-60 | each line gets exactly one kind, in the order header, lettered, numbered, paragraph, with the text each branch extracts; a line is a header iff it starts and ends with `---` |
| DetailsDisplay.ToBlocks | components/DetailsDisplay.tsx:22-23 | one block per line, in order, classified from the trimmed line |
| DetailsDisplay.Format | components/DetailsDisplay.tsx:8-10 | the component renders nothing exactly when the details are empty |
| DetailsDisplay.BlocksFollowLines | components/DetailsDisplay.tsx:14-23 | the blocks correspond one to one and in order to the non-blank lines of the normalised text, and those lines rebuild it |
| DetailsDisplay.WhitespaceOnlyGivesNoBlocks | components/DetailsDisplay.tsx:20 | whitespace-only details render an empty block list |
| DetailsDisplay.BlockTextsOfLine | components/DetailsDisplay.tsx:35-60 | a paragraph's text is the non-empty trimmed line; an item's text is non-empty and starts with a non-whitespace character |
| DetailsDisplay.HeaderWithNumberIsSplit | components/DetailsDisplay.tsx:14-47 | `"--- 1. Setup ---"` renders an empty header and the numbered item `1` / `"Setup ---"`, not one header |
| DetailsDisplay.WordEndingInLetterIsSplit | components/DetailsDisplay.tsx:14-60 | `"Studio."` is broken before `o.` and renders the paragraphs `"Studi"` and `"o."` |
| DetailsDisplay.VersionNumberIsSplit | components/DetailsDisplay.tsx:14-60 | `"jdk-11.0.1"` is broken before `11.` and `0.` and renders three paragraphs |
| StepModel.AddToGroupPushes | components/ResultCard.tsx:35-40 | one reduce step: the action's key gains a group if it had none, the action is appended at the end of that group, and every other group is untouched |
| StepModel.KeyOf | components/ResultCard.tsx:35 | the group key is the group's name when that is non-empty; it is never empty, and it is `default` exactly when the group is absent, empty or literally `default` |
| StepModel.InGroup | components/ResultCard.tsx:34-41 | the reference for one group: it holds exactly the actions with that key |
| StepModel.Group | components/ResultCard.tsx:34-41 | the reduce creates a group exactly for the keys that occur, and each group equals the reference filter: the actions with that key, in their original order |
| StepModel.EachActionInOneGroup | components/ResultCard.tsx:34-41 | every action lands in its key's group and in no other |
| StepModel.GroupOfNothing | components/ResultCard.tsx:34-41 | an empty action list yields an empty object |
| StepModel.GroupIsPartition | components/ResultCard.tsx:34-41 | for any listing of the keys, the group sizes add up to the number of actions |
| StepModel.UngroupedAllDefault | components/ResultCard.tsx:35 | when no action names a group, all actions, in order, form the single default group |
| StepModel.GroupAsWritten | components/ResultCard.tsx:34-41 | the reduce as written on `{}` completes only if no key is an inherited `Object.prototype` name |
| StepModel.GroupAsWrittenIff | components/ResultCard.tsx:34-41 | the reduce as written equals the intended grouping exactly when no key is inherited, and throws otherwise |
| StepModel.InheritedKeyThrows | components/ResultCard.tsx:36-39 | an action grouped under `toString` makes the reduce as written throw, while the intended grouping files it under that key |
| Progress.PhaseOf | components/StatusDisplay.tsx:16-19 | each index is exactly one of completed (below the current index), current (equal) or pending (above) |
| Progress.CheckMarkIffCompleted | components/StatusDisplay.tsx:22 | the check mark is drawn exactly on completed entries |
| Progress.Ladder | components/StatusDisplay.tsx:13-19 | one phase per message, each the phase of its own index |
| Progress.CompletedCount | components/StatusDisplay.tsx:17 | for a non-negative current index, min(index, length) messages are completed |
| Progress.CurrentCount | components/StatusDisplay.tsx:18 | exactly one message is current when the index is in range, none otherwise |
| Progress.PastTheEnd | components/StatusDisplay.tsx:16-19 | at or past the end every message is completed and none is current |
| Progress.PhasesPartition | components/StatusDisplay.tsx:16-19 | the completed, current and pending counts add up to the number of messages |
| ResultCard.Start | components/ResultCard.tsx:15 | a fresh card on a non-empty guide shows the first step |
| ResultCard.Next | components/ResultCard.tsx:19-23 | forward moves one step on exactly when not yet at the last step, and keeps the index in range |
| ResultCard.Prev | components/ResultCard.tsx:25-29 | back moves one step back exactly when past the first step, and keeps the index in range |
| ResultCard.PrevUndoesNext | components/ResultCard.tsx:19-29 | away from the last step, back undoes forward |
| ResultCard.NextUndoesPrev | components/ResultCard.tsx:19-29 | away from the first step, forward undoes back |
| ResultCard.Press | components/ResultCard.tsx:128-140 | a press asks for a reset exactly when it is forward on the last step; back is `handlePrev` and forward elsewhere is `handleNext`; the index stays in range |
| ResultCard.Run | components/ResultCard.tsx:19-32 | any sequence of presses keeps the index in range until a reset is asked for |
| ResultCard.ForwardWalks | components/ResultCard.tsx:19-23 | k forward presses from step i reach step i + k while that is a step |
| ResultCard.ForwardToReset | components/ResultCard.tsx:136 | from a fresh card, length - 1 forward presses reach the last step and one more asks for a reset |
| ResultCard.SectionsDrawn | components/ResultCard.tsx:66-117 | each drawn section holds the groups of its own keys; sections come in the fixed order shell pair, common, validation, default, each at most once; the shell pair is drawn when both zshrc and bash_profile groups exist and each other section when its group exists |
| ResultCard.ShownActions | components/ResultCard.tsx:66-117 | an action is drawn exactly when its key is common, validation or default, or is zshrc / bash_profile with both of those groups present |
| ResultCard.UngroupedShowsDefault | components/ResultCard.tsx:110-117 | with no group names, one default section holds every action in order |
| ResultCard.ViewStep | components/ResultCard.tsx:54-123 | the code block appears iff the command is non-empty and shows it; the action area iff the step has an actions array, and it holds the sections of that array's grouping; the details iff non-empty, formatted from the step's details |
| ResultCard.ViewStepShowsActions | components/ResultCard.tsx:66-117 | the card's action area draws an action exactly when its key is common, validation or default, or belongs to the shell pair with both halves present |
| ResultCard.ViewStepDetailsFollowLines | components/ResultCard.tsx:120-122 | the card's details are one block per non-blank normalised line, in order, each classified from its trimmed line |
| ResultCard.View | components/ResultCard.tsx:50-139 | the counter shows the index plus one out of the step count, and the drawn step is the one at the index; back is enabled iff not on the first step; forward resets iff on the last |
| Step3MacOS.SubStepsShape | components/Step3MacOS.tsx:12-43 | five sub-steps, each naming one or two groups, and exactly setup_files and apply_changes name two |
| Step3MacOS.DefaultNotConfigured | components/Step3MacOS.tsx:12-43 | no sub-step names the default group |
| Step3MacOS.Back | components/Step3MacOS.tsx:132-133 | back is disabled exactly on the first sub-step; elsewhere it moves to the previous sub-step |
| Step3MacOS.Forward | components/Step3MacOS.tsx:139-140 | forward is disabled exactly on the last sub-step; elsewhere it moves to the next sub-step |
| Step3MacOS.Navigate | components/Step3MacOS.tsx:131-141 | any sequence of presses keeps a valid sub-step index |
| Step3MacOS.NavigationStaysInRange | components/Step3MacOS.tsx:131-141 | from the first sub-step the index always stays in [0, 4] |
| Step3MacOS.Stepper | components/Step3MacOS.tsx:103-108 | circle i has the phase of i against the active sub-step, so the current circle is the active one; a check mark exactly on completed circles, exactly one current circle, and as many completed circles as the active index |
| Step3MacOS.HighlightedIffNotPending | components/Step3MacOS.tsx:110 | a title is highlighted exactly when its circle is not pending |
| Step3MacOS.Lookup | components/Step3MacOS.tsx:67 | a missing group draws nothing |
| Step3MacOS.PanelFor | components/Step3MacOS.tsx:57-91 | two options exactly when the row names more than one group |
| Step3MacOS.Render | components/Step3MacOS.tsx:55-91 | the active row gives two options exactly when it names two groups |
| Step3MacOS.PanelShowsNamedGroups | components/Step3MacOS.tsx:57-91 | option A holds the first key's group and option B the second's, and an action is drawn iff its key is one the row names |
| Step3MacOS.RenderShowsNamedGroups | components/Step3MacOS.tsx:55-91 | the same for the active sub-step's row |
| Step3MacOS.UnconfiguredNeverShown | components/Step3MacOS.tsx:48-91 | an action whose key no row names is drawn in no sub-step |
| Step3MacOS.UngroupedNeverShown | components/Step3MacOS.tsx:48-91 | with no group names, every sub-step's panel is empty |
| GeminiService.OuterCatch | services/geminiService.ts:199-205 | an `Error` whose message mentions JSON or inesperado is rethrown as is; anything else becomes the generic message |
| GeminiService.Generate | services/geminiService.ts:174-205 | success exactly when the reply text is a non-blank string that parses, and the value is the parsed text unchanged |
| GeminiService.EmptyResponseIsSpecific | services/geminiService.ts:188-203 | the empty-response message mentions inesperado, so the outer catch keeps it |
| GeminiService.InvalidJsonIsSpecific | services/geminiService.ts:196-203 | the invalid-JSON message mentions JSON, so the outer catch keeps it |
| GeminiService.BlankTextFails | services/geminiService.ts:185-189 | a missing or blank reply text fails with the empty-response message |
| GeminiService.UnparsableTextFails | services/geminiService.ts:192-197 | non-blank text that does not parse fails with the invalid-JSON message |
| GeminiService.ThrownErrors | services/geminiService.ts:199-205 | a thrown `Error` keeps its message iff it mentions JSON or inesperado; a thrown non-`Error` gives the generic message |
| GeminiService.FailureMessages | services/geminiService.ts:186-205 | every failure message is one of the three fixed messages or a thrown message mentioning JSON or inesperado |
| GeminiService.SchemaShape | services/geminiService.ts:12-99 | a step requires only title and explanation, while each per-system entry requires its details and actions; every action property is required; no action property is a group |
| App.Init | App.tsx:63-69 | the initial state: no system, an empty URL, status index 0, not loading, no result or error, Android 14 |
| App.GitHubUrlIsNotBlank | App.tsx:113 | a URL containing github.com is never blank, so the blank test rejects nothing more |
| App.HandleConvert | App.tsx:112-121 | rejected unless the URL contains github.com, and then only the error changes; when accepted, the error and result are cleared, the index restarts and loading begins |
| App.Tick | App.tsx:100-105 | while loading and below the message count the index goes up by one; otherwise nothing changes |
| App.ProcessRequest | App.tsx:79-98 | with no system only the error is set; success stores the steps; an `Error` stores its message; anything else stores the fallback; loading stops in every case |
| App.Settle | App.tsx:86-94 | every service failure reaches the catch as an `Error` with the service's message |
| App.HandleReset | App.tsx:123-130 | everything returns to the initial state except the Android version |
| App.ScreenOf | App.tsx:160-196 | OS selector iff no system; form iff a system, no result and not loading; error banner iff an error; status list iff loading; result card iff a result and not loading |
| App.CallDueAtLastMessage | App.tsx:106-107 | in a reachable state the request is made exactly when loading has shown all five messages |
| App.Apply | App.tsx:160-196 | an event changes a field only through a control on screen: the system only from the selector or a reset, the URL and version only from the form (or a reset), an empty URL is never submitted; loading starts only by submitting a URL with github.com once a system is chosen; while loading the inputs are frozen and loading ends only when the due call completes; the result changes only by submit, completion or reset |
| App.InitInvariant | App.tsx:63-69 | the initial state satisfies the lifecycle invariant |
| App.ApplyKeepsInvariant | App.tsx:79-196 | every event keeps the invariant: the index within [0, 5]; while loading a system is chosen, no result is held and no error is shown |
| App.Run | App.tsx:79-196 | any sequence of events keeps the invariant |
| App.OneMainView | App.tsx:160-196 | in every reachable state exactly one of selector, form, status list and result card is drawn, and the status list never shows with an error |
| App.TicksCount | App.tsx:100-105 | k timer expiries while loading move the index k places, capped at 5, and change nothing else |
| App.CallAfterFiveTicks | App.tsx:100-110 | after an accepted submit the call is due at the fifth expiry and not before |
| App.SystemDoesNotReachService | App.tsx:86 | the chosen system does not influence what the service returns |
| App.CompletionShowsServiceMessage | App.tsx:85-97 | a completed call stores the service's steps, or on failure the service's own message, and stops loading |

## Left out

- JSX markup, Tailwind classes, animations and icons are presentation only. The URL field's `type="url"` and `required` attributes are not: they are the browser check described below.
- The splash-screen timer is left out. Real durations are replaced by discrete timer events.
- Re-running the effect when `processRequest` changes identity is scheduler behaviour and is left out.
- A reset while a request is in flight is not reachable here. The call completes only while it is due, and the reset buttons are not on screen while loading. So the missing stale-result guard is not modelled.
- The `GoogleGenAI` client, the prompt text and `JSON.parse` are left out. They are foreign calls and become an outcome value and a parse oracle.
- GeminiService.Generate: the parse oracle yields either a step list or nothing, so a reply that parses to something other than an array cannot be represented. `JSON.parse` of `null` would make `!result.length` at App.tsx:162 throw, and `{}` would show the form with neither an error nor a card. Nor can an array whose items are not step-shaped: `[null]` would throw at `currentStep.actions` (components/ResultCard.tsx:34), and an action list `[null]` would throw at `action.group` (components/ResultCard.tsx:35). None of these outcomes is modelled.
- Exactly one `generateContent` call per invocation holds by construction: `Generate` receives one outcome. It is not stated as a separate property.
- `components/ActionButton.tsx` and `components/CodeBlock.tsx` are left out. They are clipboard and `window.open` side effects with transient flags.
- `components/AndroidVersionSelector.tsx`, `components/Header.tsx` and `components/icons/LoadingSpinner.tsx` are static and left out. The version is free text in the model.
- `components/GitHubInput.tsx` is not modelled separately. Its `!isLoading` submit guard is folded into the `Submit` event, and so is the `required` attribute of the URL field (components/GitHubInput.tsx:40): the browser cancels the submit of an empty field, so `Submit` does nothing on an empty URL.
- App.Apply: the browser's absolute-URL check for the `type="url"` field (components/GitHubInput.tsx:34) is not modelled, since it needs the full URL parser. So `Submit` lets through URLs the browser would block, such as `github.com/u/r` or a whitespace-only value, and the model can reach `handleConvert`, and its blank-URL branch, in cases the program never does.
- JavaScript strings are UTF-16 code units; the model's are Unicode scalar values. Every character that the whitespace set, the markers and the messages use is in the Basic Multilingual Plane, so the two agree here.
- The property order of the JavaScript object built by the reduce is not modelled. Groups are a map, and the drawn order comes from the fixed key lists.
- The sub-step descriptions are text only and are left out. Of the per-OS entries of the response schema only the required-field list is modelled (`GeminiService.SchemaShape`); the entries themselves are not part of the modelled step record, as no modelled view reads them.
- DetailsDisplay.MatchAt: its contract states only that a reported match has the right shape. That the pass does match wherever its marker follows whitespace is stated separately, by `DetailsDisplay.MarkerIsTheMatch` and `DetailsDisplay.HeaderIsTheMatch`.
- DetailsDisplay.Rewrite: its contract states what a pass preserves, not where it puts line feeds. Where they go is stated by `DetailsDisplay.LetterMarkersStartLines`, `DetailsDisplay.NumberMarkersStartLines` and `DetailsDisplay.RewriteAtMarker`, by `DetailsDisplay.RewriteWithoutMarkers` and `DetailsDisplay.RewriteWithoutTripleDash`, and for the three worked inputs. For the header pass only the last two kinds are proved.
- DetailsDisplay.Normalize: it is proved that every lettered marker of the result starts a line, but not that numbered markers keep their line feed through the lettered pass, nor where the header pass puts its line feeds. Nor is it stated that whitespace changes only by inserted line feeds and by whitespace dropped next to a marker: the contract speaks of the non-whitespace text alone, so it would also admit turning a space into a tab.
- ResultCard.ViewStep: it draws the intended grouping. The reduce as written throws on an inherited key such as `toString`; `StepModel.GroupAsWrittenIff` shows the two agree on every other input.
- Step3MacOS.Render: likewise draws the intended grouping, where the same reduce as written would throw on an inherited key.
- The `console.error` logging at App.tsx:89 and services/geminiService.ts:187, 195 and 201 is a side effect with no bearing on state and is left out.
- `App.ApplyKeepsInvariant` covers only events whose controls are on screen. An event for a control that is not drawn leaves the state as it is, which is a modelling choice for events that cannot occur.

## Findings

| source | as written | input that shows it | evidently intended | confidence | as-written member | corrected member |
|---|---|---|---|---|---|---|
| components/ResultCard.tsx:34-41 | the reduce starts from the plain object `{}` and tests `!acc[groupKey]`. For a key such as `toString` or `constructor`, the inherited property is truthy, so no array is created, and `acc[groupKey].push` throws a TypeError. The same reduce is at components/Step3MacOS.tsx:48-53. | one action whose group is `"toString"` | every key gets its own array, so the action is filed under `toString` | not executed | StepModel.InheritedKeyThrows | StepModel.GroupIsPartition |
