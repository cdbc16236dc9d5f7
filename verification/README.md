# Splash-animation generator: a Dafny model of its core

The application is a small React front end. The user names a logo and picks
animations, a duration and colours. A prompt is sent to a text-generation
model, and the SVG markup it returns is previewed and offered for export.
This project models the logic under that UI as pure Dafny functions over
strings and immutable records, and proves what the code promises.

The modules follow the source files:

- `Results` (`results.dfy`): `Option` and `Result`.
- `Text` (`text.dfy`): JavaScript's `trim` over ASCII whitespace, and
  prefix, suffix and substring relations.
- `Config` (`config.dfy`): the `AnimationConfig` record and its three
  closed enumerations (`types.ts`), plus the default configuration
  (`App.tsx`). Durations are integer tenths of a second.
- `Controls` (`controls.dfy`): the single-field copy-on-write update, the
  three selects, the duration slider and the generate-button guard
  (`components/AnimationControls.tsx`).
- `Sanitizer` (`sanitizer.dfy`): the fence stripper applied to the reply
  (`App.tsx` line 53).
- `Upload` (`upload.dfy`): seeding the logo name from an uploaded file's
  name (`App.tsx`).
- `Prompt` (`prompt.dfy`): `buildPrompt`, the request, and the failure
  translation in `generateAnimation` (`services/geminiService.ts`).
- `Preview` (`preview.dfy`): play/pause, reset, the new-result rule and the
  view precedence of the preview pane (`components/PreviewWindow.tsx`).
- `Export` (`export.dfy`): backtick escaping, the React snippet and the
  download (`components/ExportOptions.tsx`).
- `Controller` (`controller.dfy`): the application state of `App.tsx`:
  - configuration, markup, loading flag and error;
  - the generate handler, split into the click (`Start`) and the settling
    of the call (`Resolve` or `Reject`);
  - an event machine over uploads, edits, clicks and settlings;
  - the invariant that markup and error are never both present;
  - when the export panel is shown.

The regular expression `` /^```svg\n|```$/g `` is modelled as removing the
prefix, then removing the suffix of what remains. Its first alternative
can match only at offset 0. Its second can match only at the very end, and
the two matches cannot overlap, so this order gives the same result.

Two facts about the cleanup that a reader might not expect:

- Cleanup is not idempotent. A reply with two opening fences loses one per
  pass: `` "```svg\n```svg\nA" `` cleans to `` "```svg\nA" `` and then to
  `"A"`. `Sanitizer.CleanNotIdempotent` proves this for every such body.
  `Sanitizer.CleanIdempotentWhenFenceFree` proves idempotence under the
  condition where it does hold.
- Only the exact prefix "```svg" followed by a newline is removed. An
  opening fence with another tag stays in place:
  `Sanitizer.CleanOtherTagExample` shows `` "```xml\n<svg/>" `` returned
  unchanged.

## Model

| member | source | states |
|---|---|---|
| Config.ParseLogo | types.ts:4 | reading a string gives exactly the logo variant whose label it is, and none when no variant has that label |
| Config.ParseText | types.ts:5 | the same for the text-animation union |
| Config.ParseBackground | types.ts:6 | the same for the background-animation union |
| Config.LabelsRoundTrip | types.ts:4-6 | labels are distinct within each union: reading a variant's label back gives that variant |
| Config.DefaultConfigValid | App.tsx:15-25 | the initial configuration (2.5 s = 25 tenths) lies in the slider's 1 s to 10 s range |
| Controls.Update | components/AnimationControls.tsx:29-31 | `{ ...prev, [key]: value }` gives the edited field the new value and copies every other field |
| Controls.UpdateOverwrite | components/AnimationControls.tsx:30 | a second write to the same field replaces the first |
| Controls.UpdateSameValue | components/AnimationControls.tsx:30 | writing a field's current value back leaves the configuration unchanged |
| Controls.UpdateCommute | components/AnimationControls.tsx:30 | writes to different fields commute |
| Controls.SelectsOfferExactlyTheVariants | components/AnimationControls.tsx:49-73 | a value is among a select's four options if and only if it is the label of a variant of that field's union |
| Controls.EveryVariantOffered | components/AnimationControls.tsx:49-73 | every variant of each union is offered by its select |
| Controls.SelectLogo | components/AnimationControls.tsx:49-54 | choosing an option stores the variant with that label and changes no other field |
| Controls.SelectText | components/AnimationControls.tsx:58-63 | the same for the text-animation select |
| Controls.SelectBackground | components/AnimationControls.tsx:68-73 | the same for the background-animation select |
| Controls.SliderTenths | components/AnimationControls.tsx:77-83 | the slider's value always lies in 10..100 tenths; a position inside the range is kept and one outside is clamped to the nearer end |
| Controls.SliderKeepsValid | components/AnimationControls.tsx:76-85 | moving the slider keeps the duration in range, changes only the duration, and never gives 0.5 s |
| Controls.EditKeepsValid | components/AnimationControls.tsx:29-31 | any edit the controls can produce keeps the configuration's duration in range |
| Text.Trim | App.tsx:53 | the trimmed text has no whitespace at either end and is no longer than its input |
| Text.TrimIsInfix | App.tsx:53 | the trimmed text is a contiguous piece of its input, with only whitespace cut from each side |
| Text.TrimPadded | App.tsx:53 | trimming whitespace-padded text with no whitespace at its own ends gives that text back; whitespace alone trims to the empty string |
| Sanitizer.StripPrefix | App.tsx:53 | when the text starts with the fence it is exactly the fence followed by the result; otherwise the text is unchanged |
| Sanitizer.StripSuffix | App.tsx:53 | the same for a trailing fence |
| Sanitizer.CleanResponse | App.tsx:53 | the cleaned reply has no surrounding whitespace and is never longer than the raw reply |
| Sanitizer.CleanIsInfix | App.tsx:53 | the cleaned reply is a contiguous piece of the raw reply: nothing is added or reordered |
| Sanitizer.CleanFenced | App.tsx:53 | a reply wrapped in the opening and closing fence yields its body, trimmed |
| Sanitizer.CleanFencedPadded | App.tsx:53 | a fenced body followed by whitespace before the closing fence yields exactly the body |
| Sanitizer.CleanFencedExample | App.tsx:53 | "```svg\n<svg/>\n```" cleans to "<svg/>" |
| Sanitizer.CleanUnfenced | App.tsx:53 | text with no fence at either end and no surrounding whitespace is returned unchanged |
| Sanitizer.CleanUnfencedExample | App.tsx:53 | "<svg/>" is returned unchanged |
| Sanitizer.CleanOtherTagExample | App.tsx:53 | an opening fence tagged "xml" is not removed: "```xml\n<svg/>" is returned unchanged |
| Sanitizer.CleanIdempotentWhenFenceFree | App.tsx:53 | cleaning twice equals cleaning once whenever the cleaned text has no fence at either end |
| Sanitizer.CleanDoubleFenced | App.tsx:53 | a reply with two opening fences loses only the first |
| Sanitizer.CleanNotIdempotent | App.tsx:53 | for every such doubly fenced reply, a second cleaning changes the result again |
| Upload.Split | App.tsx:39 | `split('.')` gives at least one piece, none containing a dot; exactly one piece (the name) when there is no dot, at least two otherwise |
| Upload.SplitAtFirst | App.tsx:39 | splitting at the first dot gives the text before it, then the pieces of the rest |
| Upload.Join | App.tsx:39 | when no piece holds the separator, the separator appears in the joined text exactly when there are at least two pieces |
| Upload.SplitJoin | App.tsx:39 | splitting a join of separator-free pieces gives the pieces back |
| Upload.JoinSplit | App.tsx:39 | joining the pieces of a split with the separator rebuilds the original name |
| Upload.JoinSnoc | App.tsx:39 | joining with one more piece appends the separator and that piece |
| Upload.BaseName | App.tsx:39 | with no dot the base name is empty; with a dot it is the prefix of the name that the last dot follows, and no dot comes after that one |
| Upload.BaseNameBeforeLastDot | App.tsx:39 | with no dot the base name is empty; with a dot, base name + "." + a dot-free extension is the file name |
| Upload.BaseNameOneDot | App.tsx:39 | a name with a single dot loses the dot and what follows |
| Upload.BaseNameOfBrandLogo | App.tsx:39 | "brand-logo.png" gives "brand-logo" |
| Upload.BaseNameOfTwoDots | App.tsx:39 | "a.b.png" gives "a.b" |
| Upload.BaseNameWithoutDot | App.tsx:39 | "noext" gives "" |
| Upload.BaseNameOfDotFile | App.tsx:39 | ".png" gives "" |
| Upload.SeedLogoName | App.tsx:39-42 | a non-empty base name replaces `logoName` and nothing else; an empty one leaves the configuration unchanged |
| Upload.SeedLogoNameExamples | App.tsx:39-42 | uploading "brand-logo.png" names the logo "brand-logo"; uploading "noext" changes nothing; the duration range is kept |
| Prompt.ReadNatText | services/geminiService.ts:37 | the decimal text of a whole number reads back as that number |
| Prompt.DurText | services/geminiService.ts:37 | the printed duration is non-empty and starts with a minus sign exactly when negative, with a digit after the sign |
| Prompt.DurTextReadsBack | services/geminiService.ts:37 | the printed duration reads back as the same number of tenths, so different durations print differently |
| Prompt.Quoted | services/geminiService.ts:33 | a quoted value is the value itself with one double quote before and one after |
| Prompt.PromptHasRequestSections | services/geminiService.ts:32-43 | every line of the user's request, and the closing instruction, is in the prompt whatever the configuration |
| Prompt.PromptHasConstraints | services/geminiService.ts:25-30 | the role line and the SMIL, no-CSS/JavaScript, "The viewBox should be '0 0 200 200'.", looping and quality lines are all in the prompt, whatever the configuration |
| Prompt.BuildPrompt | services/geminiService.ts:11-44 | whatever the configuration, the prompt ends with the closing instruction to output raw SVG without fences, followed only by the template's final newline and indentation |
| Prompt.PromptHasClosing | services/geminiService.ts:42 | the closing request for raw SVG without fences is always present |
| Prompt.PromptQuotesName | services/geminiService.ts:33 | the logo name appears verbatim, and between double quotes |
| Prompt.PromptNamesLogoAnimation | services/geminiService.ts:34 | "Main Shape Animation: " followed by the logo animation's label is in the prompt |
| Prompt.PromptNamesTextAnimation | services/geminiService.ts:35 | "Text Animation: " followed by the text animation's label is in the prompt |
| Prompt.PromptNamesBackgroundAnimation | services/geminiService.ts:36 | "Background Animation: " followed by the background animation's label is in the prompt |
| Prompt.PromptStatesDuration | services/geminiService.ts:37 | "Total Animation Duration: " + the printed duration + " seconds" is in the prompt |
| Prompt.PromptStatesBackgroundChoice | services/geminiService.ts:38 | "Background: " followed by the background choice is in the prompt |
| Prompt.BackgroundChoiceText | services/geminiService.ts:38 | the background choice reads "Transparent" when transparent, and "Solid color (" + colour + ")" otherwise |
| Prompt.PromptStatesBackground | services/geminiService.ts:38 | a transparent configuration asks for "Background: Transparent"; any other names its background colour in "Solid color (...)" |
| Prompt.PromptStatesPrimaryColor | services/geminiService.ts:39 | "Primary Color: " followed by the primary colour between double quotes (`Quoted`) is in the prompt |
| Prompt.PromptStatesSecondaryColor | services/geminiService.ts:40 | "Secondary Color: " followed by the secondary colour between double quotes (`Quoted`) is in the prompt |
| Prompt.RequestFor | services/geminiService.ts:47-53 | the request names model "gemini-2.5-flash" and carries the built prompt |
| Prompt.GenerateAnimation | services/geminiService.ts:46-59 | the call succeeds exactly when the service replies, with the reply's text; every failure rejects with the fixed API-key message |
| Prompt.FailuresAreUniform | services/geminiService.ts:55-58 | any two failures, for any configurations, give the same rejection |
| Preview.InitialPlayer | components/PreviewWindow.tsx:19 | the playing flag starts out true |
| Preview.TogglePlay | components/PreviewWindow.tsx:32-42 | with an element: the flag flips, the clock is paused if it was playing and resumed otherwise, and time is kept; without one, nothing changes |
| Preview.Reset | components/PreviewWindow.tsx:44-51 | with an element the result is playing, unpaused, at time 0, whatever came before; without one, nothing changes |
| Preview.Rendered | components/PreviewWindow.tsx:74-80 | the pane holds an animation element exactly when it shows the markup, and a freshly inserted element runs unpaused from time zero |
| Preview.OnResultChange | components/PreviewWindow.tsx:22-26 | after a change of result or loading flag the element is the one just rendered; a present result that is not loading sets the flag to playing, and otherwise the flag keeps its value |
| Preview.ResultChangeSyncs | components/PreviewWindow.tsx:22-26 | after a result change the flag agrees with the element's clock, whatever the player was before, and whenever the controls are shown they find an element |
| Preview.ToggleKeepsSynced | components/PreviewWindow.tsx:32-42 | toggling keeps the flag in agreement with the clock |
| Preview.ResetSyncs | components/PreviewWindow.tsx:44-51 | reset brings flag and clock into agreement, and resetting twice equals resetting once |
| Preview.ToggleTwice | components/PreviewWindow.tsx:32-42 | toggling twice restores a player whose flag agrees with its clock |
| Preview.ClicksKeepSynced | components/PreviewWindow.tsx:32-51 | any run of play/pause and reset clicks keeps flag and clock in agreement |
| Preview.ToggleTwiceAfterResultChange | components/PreviewWindow.tsx:22-51 | from any result change followed by any clicks, the player is synced and toggling twice restores it |
| Preview.ToggleTwiceUnsynced | components/PreviewWindow.tsx:32-42 | without that agreement, toggling twice does not restore the player |
| Preview.ViewOf | components/PreviewWindow.tsx:53-88 | loading wins over an error, an error over markup, markup over the placeholder, each shown with its own text |
| Preview.ControlsShown | components/PreviewWindow.tsx:95 | play/pause and reset are shown exactly when the pane shows the markup, and then the pane shows this markup |
| Export.Escape | components/ExportOptions.tsx:36 | the escaped text is longer by the number of backticks, every backtick in it follows a backslash, and backtick-free text is unchanged |
| Export.UnescapeEscape | components/ExportOptions.tsx:36 | reading "\\`" back as "`" from left to right recovers the original text |
| Export.SnippetEnds | components/ExportOptions.tsx:31-41 | the fixed head starts with the React import and the fixed tail ends with the default export, neither at whitespace |
| Export.SnippetHeadOpensDiv | components/ExportOptions.tsx:35 | the head opens the `dangerouslySetInnerHTML` template |
| Export.ReactSnippet | components/ExportOptions.tsx:31-41 | trimming removes exactly the template's outer newline and indentation, so the snippet is head, escaped markup, tail; unescaping the middle gives the markup back |
| Export.ReactSnippetContents | components/ExportOptions.tsx:31-41 | the snippet starts with "import React from 'react';", contains the escaped markup and the `dangerouslySetInnerHTML` opening, and ends with "export default AnimatedSplash;" |
| Export.DownloadOf | components/ExportOptions.tsx:12-17 | the download is the unmodified markup as "splash-animation.svg" with type "image/svg+xml" |
| Controller.Start | App.tsx:46-48 | the click sets loading and clears markup and error, keeping the configuration |
| Controller.Resolve | App.tsx:51-54 | the cleaned reply becomes the markup and loading ends |
| Controller.Reject | App.tsx:55-59 | an `Error`'s message, or "An unknown error occurred." for any other thrown value, becomes the error, and loading ends |
| Controller.GenerateWith | App.tsx:45-61 | after a generation nothing is loading; a reply shows its cleaned text with no error; a failure shows the fixed service message with no markup |
| Controller.GenerateWithIsRun | App.tsx:45-61 | from an idle state, a generation is the click followed by the settling event of the call |
| Controller.GenerateFencedReply | App.tsx:51-54 | a fenced reply shows exactly its markup, with no error, and the export panel appears |
| Controller.SettleFromLoading | App.tsx:51-59 | from a pending call, resolving gives markup and no error, and rejecting gives an error and no markup |
| Controller.GenerateOnlyWhenIdle | components/AnimationControls.tsx:115 | a click while loading does nothing; otherwise it starts a call |
| Controller.Step | App.tsx:31-61 | disabled events change nothing; uploads and edits change only the configuration, as seeding and the field update say; an enabled click starts a generation, and an enabled settling resolves or rejects it with the reply or the thrown value |
| Controller.InitInv | App.tsx:15-29 | the initial state satisfies the invariant |
| Controller.StepKeepsInv | App.tsx:45-61 | every event keeps the invariant: duration in range, a pending call has no markup or error, never both markup and error |
| Controller.RunKeepsInv | App.tsx:45-61 | every sequence of events keeps the invariant |
| Controller.ReachableKeepsInv | App.tsx:27-29 | every reachable state keeps the invariant; in particular markup and error are never both present |
| Controller.GenerateWithKeepsInv | App.tsx:45-61 | a whole generation keeps the invariant |
| Controller.ExportVisible | App.tsx:82 | the export panel never appears beside the spinner or the placeholder, and without an error it appears exactly when the preview shows the markup |
| Controller.ExportVisibleIffSvgView | App.tsx:82 | under the invariant, the export panel appears exactly when the preview shows the markup and its controls |
| Controller.ExportVisibleNeedsInv | App.tsx:82 | without the invariant, markup plus an error would show the export panel beside the error view |
| Controller.LoadingHidesExport | App.tsx:82 | while a call is pending nothing is exported and the preview shows the loading view |

## Left out

- The generation SDK, the API key check at import time, and the network
  call are not modelled. The service is a parameter mapping a request to a
  reply or a failure. A reply whose `text` is undefined is not modelled.
- `FileReader` and the data-URL logo preview are not modelled, and neither
  is `components/LogoUploader.tsx`. Both are browser I/O; only the file
  name is used.
- DOM work is not modelled: `querySelector`, `dangerouslySetInnerHTML`, the
  Blob and object URL of the download, the clipboard, and the two-second
  "Copied!" timer. The SVG element is an abstract optional clock, and the
  download is a record.
- JSX layout and styling are not modelled.
- Floating point is not modelled. Durations are integer tenths, and the
  slider's `parseFloat` is not modelled.
- Prompt.DurText: the printed duration is the integer part, then "." and
  the tenths digit when it is not zero. This matches JavaScript's shortest
  round-trip formatting for one-decimal values in the range, but that
  formatting itself is not modelled.
- Controls.SliderTenths: clamping stands for the browser's range input,
  which offers only values in range; the browser behaviour is not modelled.
- Controls.SelectLogo, Controls.SelectText, Controls.SelectBackground: the
  source casts the option value without checking it. The model leaves the
  configuration unchanged for a value outside the options, which a select
  cannot produce.
- Overlapping generate calls are not modelled. The button is disabled
  while loading, so a call can only settle while it is pending
  (`Controller.Enabled`).
- Text.Trim: JavaScript's `trim` removes the full Unicode whitespace set.
  The model removes only ASCII space, tab, line feed, vertical tab, form
  feed and carriage return.
- The spinner and the placeholder icon are SVG elements as well. The
  model's element is only the rendered result, because the controls that
  act on the element are hidden in the other views.
- Export.ReactSnippetContents: the snippet escapes only backticks. It is
  not claimed safe against `${` or stray backslashes in the markup, and
  no such property is stated.
- Logging with `console.error` is not modelled.
