# Signal-iOS storage façade, label interactions, paywall overlay and colours in Dafny

This project models five pieces of the Signal-iOS code base and proves properties of them.

- **`SDSDatabaseStorage`**, the database façade:
  - the lazily created database adapter (`GRDBDatabaseStorageAdapter`);
  - its replacement after incremental schema migrations and on `reload()`;
  - the debounce that turns cross-process write signals into `didReceiveCrossProcessNotification` posts;
  - the `read`/`uiRead`/`write` entry points and their failure paths;
  - the helpers `SDS.fitsInInt64` and `owsFormatLogMessage`.

  The adapter is foreign code, so it appears as a generation number. Notifications, blocks dispatched to the main queue and calls into collaborators are `Event`s appended, in order, to the storage's `log`. `owsFail` ends the process: it appears as a `ProcessTerminated` event, and every public operation requires that no such event has been logged, so nothing follows it.
- **`UILabelInteractionManager`**: how `refreshLabel` styles the "interactable" substrings of a label's text, and how `tapLabel` picks the first listed string whose range holds the tapped character.
- **`SubscriptionPlanOverlayView`**: the paywall overlay's show/hide rule and a plan's duration text (`descriptionText`).
- **`UIColor+OWS`**: colours decoded from packed `0xRRGGBB` integers, and the palette aliases that share a value.
- **`String.capitalizingFirstLetter()`**.

Layout:

| file | contents |
|---|---|
| `wrappers.dfy` | `Option` |
| `decimal.dfy` | Swift's `"\(n)"` rendering of an `Int`, and a parser that reads it back |
| `storage.dfy` | module `SdsDatabaseStorage` |
| `label_interaction.dfy` | module `LabelInteraction` |
| `subscription_overlay.dfy` | module `SubscriptionOverlay` |
| `colors.dfy` | module `Colors` |
| `string_extensions.dfy` | module `StringExtensions` |

`runGrdbSchemaMigrations` reads the lazy `grdbStorage` getter before it replaces the adapter. When no adapter exists yet, that read creates one, so the call creates two adapters in a row. `Storage.RunGrdbSchemaMigrations` keeps that behaviour.

## Model

| member | source | states |
|---|---|---|
| `Decimal.Render` | SignalServiceKit/src/Storage/Database/SDSDatabaseStorage.swift:424 | `"\(line)"` is never empty and contains no space and no colon, so it cannot run into the separators around it |
| `Decimal.RenderRoundTrip` | SignalServiceKit/src/Storage/Database/SDSDatabaseStorage.swift:424 | the rendered integer parses back to itself: rendering loses nothing, negative numbers included |
| `SdsDatabaseStorage.Receive` | SignalServiceKit/src/Storage/Database/SDSDatabaseStorage.swift:305-332 | a signal that reaches the main app is never lost (it is posted or left pending); becoming active clears the flag and posts exactly when a signal was pending |
| `SdsDatabaseStorage.InactiveSignalsOnlySetFlag` | SignalServiceKit/src/Storage/Database/SDSDatabaseStorage.swift:314-320 | any number (at least one) of signals received while the main app is inactive posts nothing and leaves the flag set |
| `SdsDatabaseStorage.Debounce` | SignalServiceKit/src/Storage/Database/SDSDatabaseStorage.swift:305-332 | K >= 1 signals while inactive, then one activation, give exactly one notification and a clear flag |
| `SdsDatabaseStorage.PostsNeverExceedSignals` | SignalServiceKit/src/Storage/Database/SDSDatabaseStorage.swift:305-332 | over any sequence of callbacks, notifications posted plus a flag still pending never exceed the signals received plus the flag pending at the start |
| `SdsDatabaseStorage.WriteEvents` | SignalServiceKit/src/Storage/Database/SDSDatabaseStorage.swift:389-399 | the block runs at most once, and unless the adapter failed before running it; other processes are signalled exactly when the write completed, after its block; a failure ends the process, and nothing follows it |
| `SdsDatabaseStorage.ReadEvents` | SignalServiceKit/src/Storage/Database/SDSDatabaseStorage.swift:355-375 | a read never signals other processes; a completed read runs its block exactly once and logs nothing else; a failed read ends the process, after its block only when the adapter failed after running it |
| `SdsDatabaseStorage.Storage.constructor` | SignalServiceKit/src/Storage/Database/SDSDatabaseStorage.swift:22-28 | starts with no pending cross-process write, no adapter and nothing logged |
| `SdsDatabaseStorage.Storage.CreateGrdbStorage` | SignalServiceKit/src/Storage/Database/SDSDatabaseStorage.swift:159-163 | creates a new adapter with the next generation and does not install it |
| `SdsDatabaseStorage.Storage.GrdbStorage` | SignalServiceKit/src/Storage/Database/SDSDatabaseStorage.swift:31-39 | returns the installed adapter; creates and installs one only on first access; afterwards an adapter is installed |
| `SdsDatabaseStorage.Storage.HandleCrossProcessWrite` | SignalServiceKit/src/Storage/Database/SDSDatabaseStorage.swift:305-321 | outside the main app it does nothing; in the active main app it posts at once; in the inactive main app it only sets the flag |
| `SdsDatabaseStorage.Storage.DidBecomeActive` | SignalServiceKit/src/Storage/Database/SDSDatabaseStorage.swift:323-332 | posts one notification and clears the flag when a write was pending; otherwise does nothing |
| `SdsDatabaseStorage.Storage.ReplaceAdapter` | SignalServiceKit/src/Storage/Database/SDSDatabaseStorage.swift:111-116 | reads the old adapter through the lazy getter (creating one if none), then installs a newly created adapter |
| `SdsDatabaseStorage.Storage.RunGrdbSchemaMigrations` | SignalServiceKit/src/Storage/Database/SDSDatabaseStorage.swift:93-133 | when the coordinator delegate is gone, reading the state ends the process; outside GRDB mode nothing happens and completion never runs; without migrations the adapter is kept; with migrations a new adapter is installed, and the old one is unreachable, before completion runs exactly once |
| `SdsDatabaseStorage.Storage.Reload` | SignalServiceKit/src/Storage/Database/SDSDatabaseStorage.swift:135-157 | installs a new adapter, runs the migrator, forces the snapshot of that adapter, posts `storageDidReload` before warming caches, and posts `registrationStateDidChange` exactly when registration changed |
| `SdsDatabaseStorage.Storage.Write` | SignalServiceKit/src/Storage/Database/SDSDatabaseStorage.swift:378-400 | goes through the lazy getter, runs the block under the title `Slow Write Transaction [file:line function]`, and signals other processes only when the write completed; the installed adapter is kept (or, on first access, the one the getter created is installed) |
| `SdsDatabaseStorage.Storage.Read` | SignalServiceKit/src/Storage/Database/SDSDatabaseStorage.swift:355-375 | goes through the lazy getter and runs the block; a failure ends the process; no cross-process signal; the installed adapter is kept (or, on first access, the one the getter created is installed) |
| `SdsDatabaseStorage.FitsInInt64Meaning` | SignalServiceKit/src/Storage/Database/SDSDatabaseStorage.swift:459-461 | a `UInt64` fits exactly when it is below 2^63, that is when reading its bits as an `Int64` keeps its value |
| `SdsDatabaseStorage.FitsInInt64NSNumberMeaning` | SignalServiceKit/src/Storage/Database/SDSDatabaseStorage.swift:468-471 | an unsigned number fits as its `UInt64` does; a signed number fits exactly when it is not negative, because a negative one wraps past `Int64.max` |
| `SdsDatabaseStorage.LastPathComponent` | SignalServiceKit/src/Storage/Database/SDSDatabaseStorage.swift:421 | once trailing slashes are dropped, the result is the text after the last slash; a path of slashes only gives `/`; the result holds a slash only when it is `/`; it is empty only for the empty path; a path without slashes is its own last component |
| `SdsDatabaseStorage.LastPathComponentIdempotent` | SignalServiceKit/src/Storage/Database/SDSDatabaseStorage.swift:421 | taking the last component twice gives the same as taking it once |
| `SdsDatabaseStorage.LogMessageRoundTrip` | SignalServiceKit/src/Storage/Database/SDSDatabaseStorage.swift:418-425 | when the file name has no colon, file name, line and function can all be read back from `[file:line function]` |
| `LabelInteraction.NSLocationInRangeMeaning` | Signal/src/util/UILabelInteractionManager.swift:127 | an index is in a range exactly when `location <= index < location + length`; an empty range holds nothing |
| `LabelInteraction.RangeOf` | Signal/src/util/UILabelInteractionManager.swift:74 | `range(of:)` gives the first occurrence, with the searched string's length, or `{NSNotFound, 0}` when the string is empty or missing |
| `LabelInteraction.HitsMeaning` | Signal/src/util/UILabelInteractionManager.swift:90-91 | a tap hits a string exactly when the string occurs and the index lies in its first occurrence; a missing string is never hit |
| `LabelInteraction.FirstHit` | Signal/src/util/UILabelInteractionManager.swift:88-92 | finds the first listed string that the tap hits, or reports that none is hit |
| `LabelInteraction.PlainText` | Signal/src/util/UILabelInteractionManager.swift:67-71 | the attributed string starts with one plain (normal font and colour, no underline) attribute per character |
| `LabelInteraction.StylePrefixMeaning` | Signal/src/util/UILabelInteractionManager.swift:67-80 | as written, styling succeeds exactly when every listed string occurs; then the first occurrences are highlighted (underlined when asked) and everything else stays plain |
| `LabelInteraction.StyleText` | Signal/src/util/UILabelInteractionManager.swift:73-80 | the `forEach` loop computes that styling, stopping at the first string whose range raises |
| `LabelInteraction.RefreshRaisesOnMissingString` | Signal/src/util/UILabelInteractionManager.swift:74-75 | for text `Hello` and the listed string `World`, `addAttribute` receives `{NSNotFound, 0}` and raises |
| `LabelInteraction.StyleSkippingMissingMeaning` | Signal/src/util/UILabelInteractionManager.swift:73-80 | styling that skips strings not found never fails, highlights exactly the first occurrences of the strings that occur, and agrees with the code as written whenever that does not raise |
| `LabelInteraction.InteractionManager.constructor` | Signal/src/util/UILabelInteractionManager.swift:26-53 | keeps the settings and refreshes the label once; unless the refresh raised, it then enables user interaction on the styled label |
| `LabelInteraction.InteractionManager.RefreshLabel` | Signal/src/util/UILabelInteractionManager.swift:55-82 | forces word wrapping, then sets the styled text, or raises before setting anything when a listed string is missing; the raise is uncaught, so the manager is then terminated and nothing more runs |
| `LabelInteraction.InteractionManager.TapLabel` | Signal/src/util/UILabelInteractionManager.swift:86-96 | runs only while the app is alive; with no label text there is no callback; otherwise exactly one callback when a listed string is hit, with the first such string, and none when none is hit |
| `SubscriptionOverlay.PaywallRule` | Signal/src/SubscriptionPlanOverlayView.swift:118-129 | the overlay is shown exactly when the thread has a plan and the user has no subscription, or an inactive one, or one with an issue |
| `SubscriptionOverlay.OverlayView.constructor` | Signal/src/SubscriptionPlanOverlayView.swift:26-28 | keeps the view model and does not compute visibility: a new overlay is shown |
| `SubscriptionOverlay.OverlayView.UpdateVisibility` | Signal/src/SubscriptionPlanOverlayView.swift:118-129 | `isHidden` becomes the paywall decision for the current view model |
| `SubscriptionOverlay.OverlayView.RefreshView` | Signal/src/SubscriptionPlanOverlayView.swift:102-106 | replaces the view model; visibility then depends only on the new model, whatever the old state was |
| `SubscriptionOverlay.SingularExactlyForOne` | Signal/src/SubscriptionPlanOverlayView.swift:157-174 | for every unit, the singular key is used exactly when the period is 1, and the plural key otherwise |
| `SubscriptionOverlay.SuffixKeysDistinct` | Signal/src/SubscriptionPlanOverlayView.swift:157-174 | different units, or singular against plural, never share a key |
| `SubscriptionOverlay.DescriptionLeadsWithPeriod` | Signal/src/SubscriptionPlanOverlayView.swift:155-175 | the text is the period in decimal, which can be read back, followed by the localized suffix |
| `Colors.FromRgbHex` | SignalMessaging/categories/UIColor+OWS.swift:17-22 | each channel is a byte and alpha is 1 |
| `Colors.ColorWithRgbHex` | SignalMessaging/categories/UIColor+OWS.swift:12-15 | the class method gives the same colour as the initializer |
| `Colors.ChannelsAreLow24Bits` | SignalMessaging/categories/UIColor+OWS.swift:17-22 | red, green and blue, read as base-256 digits, are the value's low 24 bits |
| `Colors.HighBitsIgnored` | SignalMessaging/categories/UIColor+OWS.swift:17-22 | bits above bit 23 do not change the colour |
| `Colors.RoundTrip` | SignalMessaging/categories/UIColor+OWS.swift:17-22 | packing three bytes as `0xRRGGBB` and decoding gives them back |
| `Colors.AccentBlueAliases` | SignalMessaging/categories/UIColor+OWS.swift:69-84 | accent blue and its dark and tint variants are the same opaque colour (6, 102, 214) |
| `Colors.ScienceBlueLight500IsAccentBlue` | SignalMessaging/categories/UIColor+OWS.swift:1034-1037 | science blue light 500 is that same opaque colour (6, 102, 214) |
| `Colors.LoopBrandColors` | SignalMessaging/categories/UIColor+OWS.swift:56-64 | the loop light and dark colours are opaque white and opaque black |
| `StringExtensions.CapitalizingFirstLetter` | Signal/src/util/String+Extensions.swift:8-10 | only the first character may change, and only from lower to upper case; the length is kept, and the empty string stays empty |
| `StringExtensions.CapitalizingIsIdempotent` | Signal/src/util/String+Extensions.swift:8-10 | capitalizing twice is the same as capitalizing once |

## Left out

- The database adapter, GRDB, SQLite, snapshots, `UIDatabaseObserver` and the transaction objects are foreign. The adapter is an opaque generation number. A transaction's fate is the `AdapterOutcome` parameter.
- `GRDBSchemaMigrator`, `TSAccountManager` and `CurrentAppContext()` are foreign collaborators. Their answers (migrations performed, registration before and after, main app and active) are parameters.
- `StorageCoordinatorState` appears only as whether it is `.GRDB`.
- These parts of `SDSDatabaseStorage` are not modelled:
  - the mapping of ids;
  - `touch`;
  - the snapshot delegates;
  - the flush blocks and their 30-second promise timeout;
  - deleting and resetting database files, and file sizes;
  - the throwing and value-returning `read`/`write` variants;
  - the logging and benchmarking themselves (only the bench title is kept).
- Debug-only checks are not modelled: `owsFailDebug("Not GRDB.")` in `runGrdbSchemaMigrations`, `assert` and `AssertIsOnMainThread` in `reload`, the weak-pointer `owsAssertDebug`s around the replaced adapter, the main-thread write warning, and the `assertionFailure` in `refreshLabel`. That the replaced adapter becomes unreachable is stated instead.
- The instance forwarders of `fitsInInt64` are not modelled. `NSNumber` appears only as a signed or unsigned 64-bit integer; floating-point and boolean numbers are not modelled.
- Tap geometry is not modelled (layout manager, text container, touch point). A tap is given as the character index it yields.
- Fonts and colours are two-valued choices (normal or interactable). The paragraph style (line spacing, and alignment from `label.textAlignment`) is the same on every character and is not represented.
- Text is a sequence of characters. UTF-16 units and grapheme clusters are not distinguished. `range(of:)` without the `.literal` option also matches canonically equivalent text (a precomposed accent matches its decomposed form); the model matches characters exactly.
- `LabelInteraction.StylePrefixMeaning`: assumes the text is shorter than `NSNotFound` characters, as every real string is.
- `LabelInteraction.StyleSkippingMissingMeaning`: the same assumption about the text's length.
- `priceText`, `renewDateText` and the construction and layout of the overlay view are not modelled. `NSLocalizedString` is a lookup in a given table that falls back to the key.
- These colour features are not modelled:
  - the floating-point division by 255 (a colour keeps its channel bytes);
  - `blended(with:alpha:)`;
  - `ows_randomColor`;
  - the palette constants other than the ones listed in the table.
- `StringExtensions.CapitalizingFirstLetter`: only ASCII letters change case. Unicode case mapping, including mappings that change the length, is not modelled.

## Findings

| source | as written | input that shows it | evidently intended | confidence | as-written member | corrected member |
|---|---|---|---|---|---|---|
| Signal/src/util/UILabelInteractionManager.swift:73-79 | each listed string's range from `range(of:)` goes straight to `addAttribute`; for a string that is missing or empty that range is `{NSNotFound, 0}`, which lies past the end, so `addAttribute` raises an uncaught range exception | text `Hello`, interactable strings `["World"]` | skip strings that are not found and style the others | medium, not executed | `LabelInteraction.RefreshRaisesOnMissingString` | `LabelInteraction.StyleSkippingMissingMeaning` |

`InteractionManager.RefreshLabel` keeps the behaviour as written, so the manager raises exactly as `refreshLabel` does. `StyleSkippingMissing` is the corrected styling, and its lemma also proves that it agrees with the as-written styling wherever that does not raise.
