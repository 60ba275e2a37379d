# Document summarizer controller, modelled in Dafny

This project models the controller of a browser page that summarizes and
reviews documents (`script.js`). The user picks or drops one file. The page
extracts its text: PDF.js for a PDF, OCR through Tesseract.js for an image.
From that text it builds two things:

- a mock summary: sentences taken from the text, with the first, middle and
  last ones preferred and the rest drawn at random up to a count that depends
  on the chosen length;
- a list of canned improvement suggestions, picked by the text's word count.

Every handler updates module-level variables. These are modelled as the
fields of the class `Session.Session`, and each handler is a method with a
`modifies` clause. The pure computations in between are modelled as
functions, with lemmas about them:

- `Sentences`: the sentence regex `[^.!?]+[.!?]+` with the `g` flag;
- `SentenceCover`: how that regex's matches cover the text, so that the
  text can be rebuilt from them;
- `Summarizer`: the target count, the seeds, the de-duplication and filter,
  the random fill loop, the final slice and the rendering;
- `Suggestions`: the word count and the three suggestion templates;
- `SuggestionList`: the parsing that turns the suggestion text into list
  items;
- `PdfText`: the loop that joins a PDF document's pages;
- `Text`: the JavaScript string primitives these rely on (`trim`,
  `split('\n')`, `join`, the white-space class `\s`);
- `Wrappers`: the `Option` and `Result` types.

What the controller receives from outside is passed to the handlers as
parameters:

- the picked or dropped files;
- whether each library is loaded;
- the pages PDF.js reads, or the message of the error it raises;
- the text Tesseract recognises, or its error's message;
- the keyword emphasis, as a function on strings.

`Math.random` becomes a nondeterministic choice. The summary's contract
therefore holds for every sequence of random draws.

## Model

| member | source | states |
|---|---|---|
| Text.IsSpace | script.js:303 | no contract; the white-space class of `\s` and `trim`. `Text.Trim` and `Text.TrimUnique` state what trimming does with it |
| Text.Join | script.js:163 | no contract; `Array.prototype.join`. `Text.JoinSplit`, `Text.SplitJoin` and `Text.JoinAvoids` state how it relates to `split` and which characters it can hold |
| Text.StartsWith | script.js:174 | no contract; `startsWith`, which chooses the image branch of `Session.Session.ExtractTextFromFile` for a type starting with `image/` |
| Text.Trim | script.js:303 | `trim` yields a string with no white space at either end, never longer than its input, and empty exactly when the input is all white space |
| Text.TrimUnique | script.js:303 | trimming white space + r + white space, where r is itself trimmed, gives back exactly r |
| Text.TrimmedFixed | script.js:387 | trimming a string that is already trimmed changes nothing |
| Text.JoinSplit | script.js:385 | joining the pieces of `split('\n')` with `'\n'` rebuilds the text, so the split loses no characters |
| Text.SplitJoin | script.js:385 | splitting a join of separator-free pieces gives back exactly those pieces |
| Text.Split | script.js:385 | `split` yields at least one piece, and no piece contains the separator |
| Text.JoinAvoids | script.js:163 | a character found in no page and not in the separator is not in the joined text |
| Sentences.Split | script.js:218 | no contract; the matches of `/[^.!?]+[.!?]+/g`, or `[]` when there is none. `Sentences.SplitSentences`, `Sentences.SplitConcat`, `Sentences.SplitEmpty` and `SentenceCover.SplitCover` state what it matches and that it loses nothing but the leading terminators and the tail |
| Sentences.SplitSentences | script.js:218 | every regex match is a sentence: a non-empty run of non-terminators followed by a non-empty run of `.`, `!` or `?` |
| Sentences.SplitFirst | script.js:218 | a sentence followed by text that starts with a non-terminator is matched first, whole, and matching continues after it |
| Sentences.SplitConcat | script.js:218 | matching the concatenation of a sequence of sentences returns exactly those sentences, in order |
| Sentences.SplitEmpty | script.js:218-222 | the matches are `[]` (the "No extractable text" case) exactly when no terminator follows a non-terminator anywhere in the text |
| Sentences.MatchHasPair | script.js:218 | if there is a match, then somewhere a terminator directly follows a non-terminator |
| Sentences.NoMatchNoPair | script.js:218-222 | if there is no match, then no terminator directly follows a non-terminator |
| Sentences.NoTerminatorNoSentence | script.js:218-222 | a text without `.`, `!` or `?` has no sentence |
| SentenceCover.SplitCover | script.js:218 | the text is its leading terminators, then the matches back to back, then a tail without a terminator: only that lead and that tail are left out of the matches |
| SentenceCover.SplitRebuild | script.js:218 | by induction on the matches, the text equals its leading terminators, the concatenated matches and its tail |
| SentenceCover.StepSplit | script.js:218 | when a match exists, the matches are the first match followed by the matches of what comes after it |
| SentenceCover.StepText | script.js:218 | the text is its leading terminators, its first match and the rest, with nothing dropped |
| SentenceCover.StepEnds | script.js:218 | the first match ends with a terminator |
| SentenceCover.StepRestLead | script.js:218 | the text after the first match does not start with a terminator, so matching continues there with nothing skipped |
| SentenceCover.StepShorter | script.js:218 | the text after the first match is shorter than the text |
| SentenceCover.NoMatchEmpty | script.js:218-222 | with no terminator after the leading terminators and non-terminators, there is no match |
| SentenceCover.NoMatchTail | script.js:218-222 | with no match, everything after the leading terminators is the tail |
| SentenceCover.TailAfterMatch | script.js:218 | a match ending in a terminator leaves the tail of the text after it unchanged |
| Summarizer.Min | script.js:228-232 | `Math.min` of two counts: the result is at most each argument and equal to one of them |
| Summarizer.Cap | script.js:227-233 | no contract; the cap of a summary length. `Summarizer.TargetCount` states its three values |
| Summarizer.TargetCount | script.js:227-233 | the count is the cap of the chosen length (3 for short, 6 for medium, 10 otherwise) or the number of sentences, whichever is smaller, and it is positive when there are sentences |
| Summarizer.Seeds | script.js:235-237 | there are 1 to 3 seeds, the first is the first sentence, and each is one of the sentences |
| Summarizer.SeedsAtTarget | script.js:235-237 | at the target count the seeds are: the first sentence; the middle one when there are at least two; the last one when there are more than two and more than the count; and they never exceed the count |
| Summarizer.Dedup | script.js:239 | `Array.from(new Set(...))` has no repeats, the same members as its input, no more elements, and keeps the first element first |
| Summarizer.DedupDistinct | script.js:239 | a sequence without repeats passes de-duplication unchanged |
| Summarizer.Without | script.js:240 | the filter never lengthens the sequence |
| Summarizer.WithoutCounts | script.js:240 | the filter keeps every occurrence of a sentence that is not a seed and drops every occurrence of one that is |
| Summarizer.SelectSentences | script.js:235-248 | for every sequence of random draws, the selection is the de-duplicated seeds followed by draws from the filtered pool, no position drawn twice, cut to the count, and shorter than the count only when the pool ran dry |
| Summarizer.StartFill | script.js:239-240 | before the loop, the seeds and the pool together account for the seeds and the remaining sentences |
| Summarizer.FillStep | script.js:242-246 | moving the element at the random index from the pool to the selection keeps that accounting, and the pool loses exactly that one occurrence |
| Summarizer.FinishSelection | script.js:248 | once the loop stops, its slice is a selection as `SelectSentences` promises |
| Summarizer.Seeded | script.js:239 | no contract (requires at least one sentence); the de-duplicated seeds. `Summarizer.SeededAndPool` and `Summarizer.StartFill` state how they and the pool share out the sentences |
| Summarizer.Pool | script.js:240 | no contract (requires at least one sentence); the sentences that are not seeds. `Summarizer.SeededAndPool` and `Summarizer.WithoutCounts` state what it keeps and drops |
| Summarizer.SeededAndPool | script.js:239-240 | seeds and pool together are a sub-multiset of the sentences, and equal to them when the sentences are distinct |
| Summarizer.DistinctMultiset | script.js:239 | a sequence has no repeats exactly when no element occurs twice in its multiset |
| Summarizer.SelectionShape | script.js:235-248 | a selection is the seeds followed by draws from the pool; seeds and pool never outnumber the sentences; with distinct sentences they are exactly the sentences |
| Summarizer.SelectionHoldsSeeds | script.js:235-248 | a selection is never longer than the count, starts with the first sentence and contains every seed |
| Summarizer.SelectionDistinct | script.js:242-248 | over distinct sentences, the selection has exactly the target count and no repeats |
| Summarizer.SelectionCovers | script.js:242-248 | when the count reaches the number of sentences, every sentence is selected |
| Summarizer.TrimKeepsNonSpace | script.js:274 | trimming keeps a non-space character when there is one |
| Summarizer.JoinKeepsNonSpace | script.js:303 | a join keeps a non-space character that one of its parts holds |
| Summarizer.Render | script.js:273-303 | no contract; the trimmed join of the emphasized, trimmed selected sentences. `Summarizer.RenderNotEmpty` states when it is not empty |
| Summarizer.RenderNotEmpty | script.js:273-306 | when at least one sentence is selected and emphasis keeps non-space text, the rendered summary is not empty, so the fallback message never shows |
| Summarizer.Summarize | script.js:217-304 | with no sentence, the summary is the "No extractable text" message; otherwise it is the rendering of a selection as `SelectSentences` promises, at the target count |
| SuggestionList.StripMarker | script.js:387 | no contract; removes a leading `*` or `-` and the white space after it. `SuggestionList.StripMarkerGap` and `SuggestionList.NoMarker` state exactly what it removes, in both cases |
| SuggestionList.NoMarker | script.js:387 | a line that does not start with `*` or `-` is left unchanged by the marker removal, so its item is just the trimmed line (`"  * d"` gives `"* d"`) |
| SuggestionList.IsBlank | script.js:386 | no contract; the filter `line.trim() !== ''` keeps the lines that are not blank. `SuggestionList.BlankIsTrimEmpty` states that it is exactly that test |
| SuggestionList.BlankIsTrimEmpty | script.js:386 | a line is blank exactly when trimming it gives the empty string |
| SuggestionList.LineItems | script.js:386-387 | no contract; the item one line yields. `SuggestionList.ParseOneLine` states it: none for a blank line, else the parsed line |
| SuggestionList.ParseLines | script.js:386-387 | no contract; the `filter` and `map` over lines. `SuggestionList.ParseLinesAppend` and `SuggestionList.ParseNonBlank` state how it works line by line |
| SuggestionList.ParseList | script.js:385-387 | no contract; the list items of a suggestion text. `Suggestions.TemplateRoundTrip` states that they are exactly a template's suggestions |
| SuggestionList.ParseItem | script.js:387 | every list item is trimmed |
| SuggestionList.ParseLinesAppend | script.js:385-387 | the items of two blocks of lines are the items of the first block followed by those of the second |
| SuggestionList.ParseOneLine | script.js:386-387 | a blank line yields no item; any other line yields exactly its parsed item |
| SuggestionList.ParseNonBlank | script.js:385-387 | without blank lines there is exactly one item per line, in order |
| SuggestionList.StripMarkerGap | script.js:387 | removing the marker takes away exactly the `*` or `-` and the white space after it |
| SuggestionList.MarkerRoundTrip | script.js:386-387 | a line made of a `*` or `-`, white space and a trimmed text is not blank and yields that text |
| Suggestions.Words | script.js:326 | each piece of `split(/\s+/)` that the length filter keeps is non-empty and free of white space |
| Suggestions.WordCount | script.js:326 | no contract; `numWords`. `Suggestions.WordCountIsWordStarts` states that it counts the places where a word starts |
| Suggestions.SkipSpace | script.js:326 | white space before a word does not change the word count |
| Suggestions.SkipWord | script.js:326 | the characters inside a word add no further word |
| Suggestions.WordCountIsWordStarts | script.js:326 | `numWords` equals the number of places where a non-space character starts a word |
| Suggestions.RawTemplate | script.js:329-352 | no contract; a template literal, a line break, the bullet lines and the closing indentation. `Suggestions.TemplateMargins` and `Suggestions.TemplateRoundTrip` state what trimming and parsing it give |
| Suggestions.TemplateItems | script.js:328-353 | no contract; the suggestions picked by word count. `Suggestions.SuggestionBuckets` states the buckets and their sizes |
| Suggestions.SuggestionsFor | script.js:328-353 | no contract; the trimmed template for a word count. `Suggestions.SuggestionBuckets` states that it lists exactly that template's suggestions |
| Suggestions.SuggestionsText | script.js:326-353 | no contract; the suggestions stored for a text. `Suggestions.SuggestionsByWordCount` states that they depend only on the word count |
| Suggestions.Bullets | script.js:329-352 | there is one bullet line per suggestion |
| Suggestions.JoinTrimmed | script.js:329-352 | joining non-empty trimmed lines gives a non-empty trimmed text that starts with the first line |
| Suggestions.BulletLineShape | script.js:329-352 | a bullet line is non-empty, trimmed and a single line |
| Suggestions.BulletLineParse | script.js:386-387 | parsing a bullet line gives back its suggestion |
| Suggestions.TemplateMargins | script.js:329-334 | the line break and indentation around a template's text are white space |
| Suggestions.TemplateRoundTrip | script.js:329-352 | the list items parsed from a trimmed template are exactly its suggestions, in order |
| Suggestions.BriefItemsWellFormed | script.js:330-333 | the four suggestions for short texts are non-empty, trimmed single lines |
| Suggestions.ModerateItemsWellFormed | script.js:337-341 | the five suggestions for medium texts are non-empty, trimmed single lines |
| Suggestions.ExtensiveItemsWellFormed | script.js:345-351 | the seven suggestions for long texts are non-empty, trimmed single lines |
| Suggestions.SuggestionBuckets | script.js:328-353 | the list shows exactly the template's suggestions: 4 under 50 words, 5 under 300, 7 otherwise |
| Suggestions.SuggestionsByWordCount | script.js:326-353 | texts with equal word counts get the same suggestions, and a blank text gets the short-text ones |
| PdfText.PageText | script.js:161 | no contract; a page's fragments joined by spaces. `PdfText.PageTextOneLine` and `PdfText.PageTextWords` state that it keeps a page on one line and loses no fragment |
| PdfText.PageTexts | script.js:157-162 | no contract; the page texts in page order. `PdfText.ExtractPdfText` states that the loop builds them and `PdfText.PdfTextLines` that they can be split back out |
| PdfText.ExtractPdfText | script.js:157-163 | the loop over the pages gives each page's fragments joined by spaces, and then the pages joined by line breaks |
| PdfText.PageTextOneLine | script.js:161 | a page whose fragments hold no line break gives text without a line break |
| PdfText.PdfTextLines | script.js:157-163 | when no fragment holds a line break, splitting the text at line breaks gives back the pages' texts; a document without pages gives `""` |
| PdfText.PageTextWords | script.js:161 | fragments without a space can be split back out of their page text |
| Session.Session.Valid | script.js:1-10 | no contract; the class invariant: no flag raised outside a handler, an extracted text only with a selected file, no error beside an extracted text, and a summary or suggestions only with an extracted text. The constructor and every handler's `ensures` keep it |
| Session.Session.constructor | script.js:1-10 | the initial state: no file, empty texts, length "medium", nothing in flight |
| Session.Session.Select | script.js:98-104 | the file becomes the selection and the extracted text, summary, suggestions and error are cleared |
| Session.Session.HandleFileChange | script.js:96-106 | the first picked file is selected and everything derived from the old one is cleared; an empty pick changes nothing |
| Session.Session.HandleDrop | script.js:113-125 | the same for the first dropped file; a drop without files changes nothing |
| Session.Session.SetSummaryLength | script.js:487-490 | only the summary length changes |
| Session.Session.ExtractTextFromFile | script.js:127-201 | no selection sets only the error. Otherwise the old results are cleared and exactly one of these follows: the joined PDF text; the PDF.js missing message; the PDF failure message; the OCR text; the Tesseract missing message; the unexpected-error message; the unsupported-type message. No error is left beside a text, and no flag stays raised |
| Session.Session.GenerateSummary | script.js:203-309 | no extracted text sets only the error. Otherwise the error is cleared. With no sentence, the summary is the "No extractable text" message. Otherwise it is the rendered selection, or the fallback message when that rendering is empty |
| Session.Session.GenerateImprovementSuggestions | script.js:311-358 | no extracted text sets only the error; otherwise the error is cleared and the suggestions are the template chosen by the text's word count |

## Left out

- The DOM is not modelled: `updateUI`, the rendering helpers and the event wiring (script.js:24-94, 360-395, 397-495). The exceptions are the parsing part of `renderSuggestionsAsList` (script.js:385-387) and the body of the length selector's listener (script.js:487-490, `Session.Session.SetSummaryLength`), which are modelled.
- `handleDragOver` (script.js:108-111) is not modelled. It only stops the browser's default handling of the event.
- The keyword emphasis is not modelled (script.js:250-301). It uses case-insensitive word-boundary regexes and offset bookkeeping, and the model receives it as the parameter `emphasize`. `Summarizer.RenderNotEmpty` assumes only that emphasis keeps non-space text non-space.
- File reading and the libraries are inputs, not models: the `FileReader`, PDF.js's document loading, Tesseract's recognition, and the code that loads them from a CDN (script.js:152-156, 181-185, 497-528). The handler receives their results or their error messages.
- A `FileReader` that never fires `onload` is not modelled: the page would then keep `isExtracting` raised.
- A read error that never reaches `onload` is not modelled (script.js:152-171). An error inside the reader's callback is the PDF failure case, which the model covers.
- `setTimeout` and the asynchrony of the handlers are not modelled (script.js:215, 323). Each handler runs as one atomic step. The while-in-flight states are therefore only transient inside a method, and a new selection cannot race an extraction or generation.
- `Math.random` is not modelled as a distribution (script.js:243). The index is an arbitrary valid one, so the summary's contract holds for every draw, not with any probability.
- The `loading` variable (script.js:5) is not modelled, because nothing reads or writes it.
- Logging is not modelled, because it changes no state: `console.error` (script.js:166, 196) and the Tesseract progress logger `console.log` (script.js:184).
- A file's name is kept in `Session.File`, but nothing in the model reads it: only `updateUI` shows it (script.js:29), and `updateUI` is not modelled. A file's size is not modelled, because the controller never reads it.
- Session.Session.Valid: does not tie the shown suggestions to the extracted text. Keeping that relation in the class invariant makes every handler's proof expand the whole template construction. Each method's own `ensures` states the suggestions it leaves.
- White space: `\s` and `trim` are modelled as the ECMAScript white-space and line-terminator characters. JavaScript has no locale-dependent behaviour for them, so nothing is lost.
- Strings: a Dafny `string` is a sequence of Unicode scalar values, while a JavaScript string is a sequence of UTF-16 code units. A lone surrogate therefore cannot be represented, and each character outside the Basic Multilingual Plane counts as one character here and as two in JavaScript. No result of the model depends on string lengths in code units: the word count, the sentence matches, trimming and splitting are the same in both readings.
- The error set by `loadScript` when a CDN script fails to load is not modelled (script.js:497-511). The model stands for it with the library-loaded flags of `ExtractTextFromFile`. The browser can fire `script.onerror` (script.js:506-509) at any time, including after a file has been extracted, and it then sets `error` beside an extracted text. The invariant of `Session.Session.Valid` that no error is shown beside an extracted text holds only because this handler is left out.
