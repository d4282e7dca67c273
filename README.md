# Vim yank highlight — a Dafny model

This project models the core of an Obsidian plugin. The plugin highlights text
right after it is yanked (copied) with the vim keybindings of the editor.

The plugin listens to two events of the vim emulation layer. `vim-keypress`
carries one key. `vim-command-done` fires *before* the last key of the command
it ends. The plugin therefore works as a small state machine with three parts:

- a key buffer (`vimCommand`);
- a latch (`vimCommandDone`), set by the done event;
- one handle for a pending removal timer (`timeoutHandle`).

The keypress that finds the latch set ends the command. The plugin decides
"yank" when the buffer contains `"y"` anywhere, counting that last key too. On
a yank, `highlightYank` does four things:

1. It reads the first segment of the `"yank"` register.
2. It strips the leading and trailing runs of line feeds from that text.
3. It hands the text to the mark view plugin of the active editor view.
4. It replaces the pending timer with a new 500 ms timer.

The settings tab has one text field for the highlight duration. Its handler
stores `parseInt` of the typed text, or the default 500 when that is NaN, and
saves the settings.

Modules:

- `Newlines` (`newlines.dfy`): the line-feed strip, `StripNewlines`. It is
  characterised as the unique "line feeds + middle part + line feeds" split.
- `YankDetection` (`yank_detection.dfy`): the buffer and the latch as values,
  with the two handlers as functions. Event runs over whole commands and
  sessions are proved here.
- `YankHighlight` (`yank_highlight.dfy`): the class `VimYankHighlightPlugin`.
  Its methods are proved against `YankDetection` and against `HighlightOutcome`.
  The host is passed to each call as a `Host` value, which holds the yank
  register, the active leaf and the views that have the mark plugin. The
  plugin's `scheduled`/`cancelled` fields stand for the host's timer table.
  `setYankText` calls go into a ghost log.
- `NumberParsing` (`number_parsing.dfy`): ECMAScript `parseInt` with the radix
  omitted, as in ECMA-262 section 19.2.5. It covers white-space skipping, one
  sign, the `0x` prefix and the longest digit prefix. It also models
  `Number.prototype.toString` for integers.
- `Settings` (`settings.dfy`): `ParseDuration` and the `onChange` handler.
- `Wrappers` (`wrappers.dfy`): `Option` and `Result`.

Facts about the code that the model keeps:

- **Missing markdown view.** `highlightYank` does not fail silently when no
  `MarkdownView` is active. The getter at src/main.ts:53-54 applies `.editor`
  to the parenthesised result of an optional chain. With no active
  `MarkdownView` that result is `undefined`, so the getter throws a TypeError.
- **Empty register or missing vim object.** An empty register's
  `keyBuffer[0].replace` throws, and so does a vim object that was never
  initialised (src/main.ts:119-123).
- **How a throw is modelled.** Each of these throws is a `Threw(fault)`
  completion. The exception leaves `onVimKeypress` before src/main.ts:109-110,
  so the buffer keeps its keys and the latch stays set.
- **Negative durations.** The handler applies no range check, so `"-5"`
  stores -5.
- **The duration is never used.** `main.ts` never reads the setting: the delay
  is the literal 500 at src/main.ts:142. `main.ts` also declares neither the
  `settings` field nor the `saveSettings` method that the tab uses.

## Model

| member | source | states |
|---|---|---|
| `YankHighlight.VimYankHighlightPlugin.constructor` | src/main.ts:38-42 | The key buffer starts empty and the latch starts cleared. No timer handle exists yet, no timer is scheduled and no highlight has been requested. |
| `YankHighlight.VimYankHighlightPlugin.OnVimKeypress` | src/main.ts:95-111 | The key is appended. With the latch cleared, nothing else changes. With the latch set, `highlightYank` runs exactly when the buffer plus the new key contains "y". Afterwards the buffer is empty and the latch cleared, unless `highlightYank` threw. In that case the buffer keeps the keys and the latch stays set. |
| `YankHighlight.VimYankHighlightPlugin.OnVimCommandDone` | src/main.ts:150-152 | Only the latch changes, and it becomes true. The buffer, the timers and the highlight log are untouched. |
| `YankHighlight.VimYankHighlightPlugin.HighlightYank` | src/main.ts:117-143 | It throws, returns early or highlights exactly as `HighlightOutcome` says. A highlight adds one `setYankText(strip(keyBuffer[0]), view)` to the log and cancels the previous handle. It then schedules one 500 ms timer on that view, which is the only pending timer afterwards. The key buffer and the latch are unchanged. |
| `YankHighlight.VimYankHighlightPlugin.ClearTimeout` | src/main.ts:139 | Cancels the timer the handle names. A handle that is still `undefined` cancels nothing. |
| `YankHighlight.VimYankHighlightPlugin.SetTimeout` | src/main.ts:140-142 | Appends a new timer with the given delay and view, and returns a fresh id that names it. |
| `YankHighlight.VimYankHighlightPlugin.AtMostOnePending` | src/main.ts:139-142 | In every valid state, at most one timer is pending, and it is the one `timeoutHandle` names. |
| `YankHighlight.PendingOnlyNewest` | src/main.ts:139-142 | If every older timer is cancelled and the newest is not, the newest is the only pending timer. |
| `YankHighlight.ActiveEditorView` | src/main.ts:52-55 | The getter throws exactly when no `MarkdownView` is active. Otherwise it yields the view's editor, which may be absent. |
| `YankHighlight.HighlightOutcome` | src/main.ts:117-136 | What one `highlightYank` call does: throw, return early, or make one `setYankText` call. It has no contract of its own; `HighlightOutcomeCases` characterises it completely. |
| `YankHighlight.HighlightOutcomeCases` | src/main.ts:117-136 | `highlightYank` throws exactly when the vim object is missing, the register's key buffer is empty or no MarkdownView is active. It calls `setYankText` exactly when the register has a segment, the view has an editor and the mark plugin is attached to that editor. The text passed is the stripped first segment, with no line feed at either edge. |
| `YankDetection.OnKeypress` | src/main.ts:95-111 | The value-level `onVimKeypress`. Afterwards the latch is always cleared. A highlight is requested only when the latch was set and the buffer plus the key contains "y". The new buffer is empty when the latch was set, and the old buffer plus the key otherwise. `KeypressAfterDone` gives the converse: with the latch set and a "y" present, a highlight is requested. This models a `highlightYank` that returns; the class method `OnVimKeypress` covers a throw. |
| `YankDetection.OnCommandDone` | src/main.ts:150-152 | Sets the latch and keeps the key buffer. |
| `YankDetection.KeypressWhileAccumulating` | src/main.ts:95-103 | With the latch cleared, a keypress only appends the key. It requests no highlight and leaves the latch cleared. |
| `YankDetection.KeypressAfterDone` | src/main.ts:97-110 | With the latch set, a highlight is requested if and only if "y" occurs at some position of the buffer plus the new key. Either way the state returns to the empty buffer and the cleared latch, as it does when `highlightYank` returns. |
| `YankDetection.RunAccumulates` | src/main.ts:95-103 | While the latch is cleared, any run of keypresses only extends the buffer and requests nothing. |
| `YankDetection.RunAppend` | src/main.ts:93-111 | Running two event sequences one after the other is the same as running their concatenation. Highlight counts add up. |
| `YankDetection.CommandCycle` | src/main.ts:93-111 | One command starts from the initial state: its keys, then "done" before its last key. It ends in the initial state. It makes exactly one highlight request when the command contains "y" and none otherwise, so "yy" gives one and "dw" gives none. This holds when `highlightYank` returns. |
| `YankDetection.SessionHighlights` | src/main.ts:93-111 | Over any sequence of commands delivered this way, the number of highlight requests equals the number of commands that contain "y", as long as no `highlightYank` call throws. |
| `YankDetection.DoneIdempotent` | src/main.ts:150-152 | A second "done" before the next key changes nothing: the later behaviour is the same as after a single "done". |
| `Newlines.StripNewlines` | src/main.ts:122-126 | The result has no line feed at its first or last position. |
| `Newlines.StripNewlinesIsSlice` | src/main.ts:122-126 | The result is a contiguous slice of the input, and only line feeds are cut away before and after it. |
| `Newlines.DropLeadingSpec` | src/main.ts:124 | The `^\n+` part removes a prefix made only of line feeds. What remains is the rest of the input and does not start with a line feed. |
| `Newlines.DropTrailingSpec` | src/main.ts:124 | The `\n+$` part removes a suffix made only of line feeds. What remains is the rest of the input and does not end with a line feed. |
| `Newlines.StripNewlinesUnique` | src/main.ts:122-126 | Take any input made of line feeds, then a middle part with no line feed at its edges, then line feeds. It strips to exactly that middle part. |
| `Newlines.StripNewlinesIdempotent` | src/main.ts:122-126 | Stripping a stripped text changes nothing. |
| `Newlines.StripNewlinesAllLineFeeds` | src/main.ts:122-126 | A text made only of line feeds strips to "". |
| `Newlines.StripNewlinesKeepsInterior` | src/main.ts:122-126 | Line feeds between non-line-feed characters are kept. |
| `Newlines.StripNewlinesExample` | src/main.ts:122-126 | "\nhello\n" strips to "hello". |
| `NumberParsing.ParseInt` | src/settings.ts:33 | `parseInt` with the radix omitted. It has no contract of its own. `ParseIntOfDecimal` gives its value for decimal text. `ParseIntNoLeadingDigit` and `ParseIntBareHexPrefix` give the NaN cases, and `ParseIntSkipsWhiteSpace` shows that leading white space does not matter. |
| `NumberParsing.ParseIntNoLeadingDigit` | src/settings.ts:33-34 | Text whose first code point after the white space and the optional sign is not a decimal digit parses to NaN, even when digits come later. So "abc5", "--5", "+ 5" and " -x" all give NaN. |
| `NumberParsing.ParseIntOfDecimal` | src/settings.ts:33 | Take white space, an optional "+" or "-", a non-empty run of decimal digits (leading zeros allowed), then text that does not start with a digit. This parses to the signed value of the digits, unless the digits start a "0x"/"0X" prefix. |
| `NumberParsing.DecimalString` | src/settings.ts:31 | The digits `toString` writes for a non-negative integer up to 2^53. The result is non-empty, made of decimal digits only, and starts with "0" only for 0. |
| `NumberParsing.NumberToString` | src/settings.ts:31 | `toString` for integers up to 2^53 in magnitude: a "-" for negatives, then `DecimalString`. The function is defined below 10^21. It has no contract of its own. `DigitsValueOfDecimalString` and `ParseIntOfNumberToString` characterise it. |
| `NumberParsing.DigitPrefixSpec` | src/settings.ts:33 | `parseInt` reads the longest prefix made only of radix digits: every code point of it is a digit, and the next one, if any, is not. |
| `NumberParsing.TrimStartSpec` | src/settings.ts:33 | `parseInt` first drops a prefix made only of white space. The rest does not start with white space. |
| `NumberParsing.ParseIntOfNumberToString` | src/settings.ts:33 | The decimal numeral of any integer below 10^21 in magnitude parses back to that integer. This holds with or without a "-" sign, and when text that cannot continue the numeral follows it. For 0 that text must also not start with "x" or "X". |
| `NumberParsing.ParseIntSkipsWhiteSpace` | src/settings.ts:33 | Leading white space never changes the result of `parseInt`. |
| `NumberParsing.ParseIntWithoutDigits` | src/settings.ts:33-34 | Text that contains no decimal digit parses to NaN. |
| `NumberParsing.ParseIntBareHexPrefix` | src/settings.ts:33-34 | "0x" followed by no hexadecimal digit parses to NaN. |
| `NumberParsing.DigitsValueOfDecimalString` | src/settings.ts:31 | The value of the digits that `toString` writes for a number is that number. |
| `Settings.ParseDuration` | src/settings.ts:32-39 | When `parseInt` gives NaN, the stored duration is the default 500. Otherwise it is exactly the integer `parseInt` read. |
| `Settings.ParseDurationOfDecimal` | src/settings.ts:33-39 | White space, an optional sign and a run of decimal digits store the signed value of the digits, leading zeros included, unless the digits start a "0x" prefix. |
| `Settings.ParseDurationExamplePlus` | src/settings.ts:33-39 | "+5" stores 5. |
| `Settings.ParseDurationExamplesLeadingZeros` | src/settings.ts:33-39 | "007" stores 7, and "-007" stores -7. |
| `Settings.ParseDurationOfNoLeadingDigit` | src/settings.ts:33-35 | Text whose first code point after the white space and the optional sign is not a decimal digit stores the default 500. |
| `Settings.ParseDurationExamplesNoLeadingDigit` | src/settings.ts:33-35 | "abc5", "--5" and "+ 5" store 500. |
| `Settings.ParseDurationWithoutDigits` | src/settings.ts:33-35 | Text with no decimal digit stores the default 500. |
| `Settings.ParseDurationOfNumeral` | src/settings.ts:33-39 | A numeral stores the integer it denotes, even when other text follows it. Negative values are stored as they are. |
| `Settings.ParseDurationOfDisplayed` | src/settings.ts:31-39 | The field shows `highlightDuration.toString()`. Passing that text back through the handler stores the same duration. |
| `Settings.ParseDurationExamplesDefault` | src/settings.ts:8-10 | "abc" and "" store 500. |
| `Settings.ParseDurationExample1200` | src/settings.ts:33-39 | "1200" stores 1200. |
| `Settings.ParseDurationExamplesPrefix` | src/settings.ts:33-39 | "12ab" stores 12, and "-5" stores -5. |
| `Settings.ParseDurationExampleWhiteSpace` | src/settings.ts:33-39 | " 42" stores 42. |
| `Settings.SettingsTab.OnChange` | src/settings.ts:32-41 | Only `highlightDuration` changes, and it becomes `ParseDuration` of the text. `saveSettings` is then called exactly once, with the new settings. |
| `Settings.SettingsHolder.SaveSettings` | src/settings.ts:36 | Counts one save and records the settings as they are at that call. |
| `Settings.SettingsTab.constructor` | src/settings.ts:15-18 | The tab keeps the plugin it was created for. |
| `Settings.SettingsHolder.constructor` | src/settings.ts:8-10 | The settings start as `DEFAULT_SETTINGS`, with a duration of 500, and nothing has been saved. |

## Left out

- Host lifecycle and event wiring: `onload`, `initialize`, `onunload` and `action` (src/main.ts:63-91, src/main.ts:154-163). They register with the host application. `initialize` also sets the vim object; the model represents its absence as `Host.yankRegister == None`.
- YankDetection.OnKeypress, YankDetection.KeypressAfterDone, YankDetection.CommandCycle and YankDetection.SessionHighlights model the handlers for a `highlightYank` that returns. When it throws (no vim object, an empty register or no MarkdownView), the exception leaves `onVimKeypress` at src/main.ts:106, before the reset at src/main.ts:109-110. The latch then stays set and the keys, including the "y", stay in the buffer. The next keypress, whatever its key, calls `highlightYank` again, so a later command may be highlighted although it is no yank. The session no longer returns to the initial state, and the request count can exceed the number of yank commands. The class method `YankHighlight.VimYankHighlightPlugin.OnVimKeypress` models the throw, and `YankHighlight.ScenarioNoMarkdownView` shows a "j" that highlights after one.
- YankDetection.CommandCycle and YankDetection.SessionHighlights also assume that each key event and each done event reaches the handlers exactly once. The wiring does not guarantee this. `initialized` is never assigned (src/main.ts:36, src/main.ts:67-69), so `initialize` runs again on every `active-leaf-change`. Each run attaches fresh `.bind(this)` handlers (src/main.ts:80-89), and the `off` calls cannot remove the earlier ones, because each `.bind` makes a new function. One event can then reach `onVimKeypress` or `onVimCommandDone` several times. With two registrations, the final `"y"` of a yank stays in the buffer, and the next command is then classified as a yank. The model does not capture duplicated delivery.
- The view getters `activeView`, `activeEditorView` and `codeMirror` (src/main.ts:44-61) query the host. They are replaced by the `ActiveLeaf` value and the set of views that have the mark plugin attached.
- The mark view plugin, the pilot view plugin and the rendering behind `setYankText` are not part of this model. `setYankText` is only recorded in a ghost log.
- Timers never fire in the model. A timer counts as pending until it is cancelled. The removal callback is empty (its `cleanYankText` call is commented out at src/main.ts:141), so firing would change nothing the model tracks. Real time and `clearTimeout` of foreign ids are not modelled.
- Obsidian's `Array.prototype.contains` is modelled as sequence membership.
- The settings UI builder (`containerEl`, `Setting`, `setName`, `setDesc`, `setPlaceholder`, `setValue`; src/settings.ts:20-31) is left out. So are the asynchronous persistence behind `saveSettings` and the loading of settings. Only the order of the `await`ed calls is kept.
- Settings.ParseDuration: integers come out as mathematical integers. JavaScript numbers are doubles, so values above 2^53 would be rounded and "-0" would be stored as negative zero. The model does not capture either.
- NumberParsing.NumberToString and NumberParsing.DecimalString write the exact decimal expansion. `Number::toString` writes the shortest digits that round-trip a double, so above 2^53 the two can differ: `(2**60).toString()` is "1152921504606847000", while `DecimalString(2^60)` is "1152921504606846976". Durations of that size are not modelled as doubles.
- NumberParsing.ParseIntOfNumberToString: this covers integers below 10^21 in magnitude only. From 10^21 on, `toString` writes exponent notation, and `NumberParsing.NumberToString` is not defined for those values.
- Per-view timers are not modelled; the plugin keeps one timer handle for all views.
