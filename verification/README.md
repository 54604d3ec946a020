# Letter PDFs: a verified model

notifications-template-preview turns letters into PDFs that a printer accepts. It checks letters that
services have made themselves, rewrites their address, adds an invisible tag, makes letters from
templates, and moves the results between buckets and queues. This project models that logic in Dafny
and proves properties of it that hold for every letter, every run and every interleaving.

`dafny verify dfyconfig.toml` checks everything.

## How a letter is modelled

A page (`Documents.Page`) has a media box size and a rotation, a sequence of opaque paint operations
(rectangles, and marks of arbitrary shape), words with boxes and pymupdf's (block, line, word) numbers,
the colour spaces of its images, and a graph of resources. Coordinates are exact reals. Paint lives in
PDF user space (points, from the bottom left); printable areas are in millimetres from the top left of
an A4 sheet laid on that origin; words are in points from the top left of the page itself. Since a page
may be up to 2mm off A4, the last two differ, and several results are about that difference.

Files are values (`Documents.Blob`): a PDF, something else, or the tail that a raw read gets when its
cursor is not at the beginning.

What other libraries do enters only through `Libraries.Library`, whose contract is stated in one place,
`Library.dfy`: type drawn on an upright page comes back as drawn, within a box given by its width and font
size; colour conversion and font embedding keep pages, sizes and words, and leave white white and black
black; NFKD is idempotent, leaves ASCII alone and keeps separators; a valid address normalises to at most eight tight
lines, validly and idempotently. `Instances.ContractCanBeMet` shows that the contract can be met.

| file | what it is about |
|---|---|
| Geometry, Layout, Document, Text, Wrappers | units, areas, the data model, splitting and joining text |
| Canvas, Overlays | NotifyCanvas, the white overlay of the validator, the red overlay for users |
| Validation | page size, ink out of bounds, NOTIFY tags on later pages |
| Extraction, Reading | reading text from a box, and reading back what was drawn |
| Fonts, Transformation | the font walk, colour spaces, normalisation |
| Rewriting, Sanitising, Stability | what rewriting and sanitising do, keep, and do when repeated |
| Instances | a library that meets the contract, and letters at which the failures described below happen |
| Streams, Pipeline, Templated | the same as it runs, on streams with cursors |
| CacheKeys, Cache | the two-level cache |
| Tasks, Protocol, Guarantees | the four tasks, their interleavings, and what holds afterwards |

Code that works step by step is a method proved against a function (`Pipeline.SanitiseFileContents`
against `Sanitising.Sanitise`, for instance), and the properties are lemmas about the function. Runs of
tasks and requests to the cache are transition systems, because their point is interleaving.

## What was found

- Sanitising is not stable for every letter. A letter that has passed passes again exactly when its new
  address, as drawn, puts no ink out of bounds, what can be read of it is a valid address, and the converters
  do not fail (`Stability.PassesAgainIff`; `Stability.SecondResult` says what the result is in each case).
  Nothing in the code limits the width of an address line. `Instances.WideLetterIsNotStable` is about every letter
  that sets, in small type, an address with a line of 60 to 80 characters: it is accepted, the address is drawn
  anew in 8pt across the margin of the window, and the sanitised form is rejected.
  `Instances.WideAddressIsNotStable` is such a letter, to the place with the longest name in Wales.
- A second tag is added to a sanitised letter exactly when its tag box does not read NOTIFY
  (`Stability.TagIsAddedIff`), and it does not exactly when something else than a tag survives in it
  (`Sanitising.ResultTagReadsIff`), whatever the address. `Instances.ReferencedLetterGetsTwoTags` is a letter with
  a reference in that place: it passes twice, and each time a tag is added.
- Ink on the strip by which a page exceeds A4 is rejected, but the red overlay does not show it
  (`Overlays.RejectedIsRedIff`). `Instances.StripIsRejectedButNotShown` is a page 211mm wide, rejected for a mark
  no part of which is tinted.
- The address window holds eight lines on exact A4, and no more (`Rewriting.EightLinesFit`).
- The font walk ends in a RecursionError exactly when some path through the resources is longer than Python may
  recurse (`Fonts.ReturnsIff`). Given recursion enough for the objects of the file it returns exactly when nothing within
  reach of the resources leads back to itself (`Fonts.ReturnsIffAcyclic`); cycles elsewhere, such as between pages and
  their parents, do not matter (`Instances.PageTreeIsNotWalked`). A letter
  without other fault passes exactly when the walk returns on every page and missing fonts can be embedded, and is
  otherwise rejected as unreadable (`Sanitising.PassesIffWalkReturns`, `Sanitising.PassesIffAcyclic`).
  `Instances.CyclicLetterIsRejected` is one whose form has the page's resources for its own.
- What is stored in the cache is what is returned exactly when the cached function hands over its stream rewound, or
  empty (`Cache.CacheIsTransparentIff`). Both cached functions do (`app/preview.py:60`, `app/preview.py:219`).
- An attachment overwritten with other contents leaves every worker that remembers it with the old ones
  (`Cache.OverwritingIsStaleIff`); `Cache.StaleMemory` is a run that answers a request with them. Entries written
  once are not affected by what befalls others (`Cache.MemoryAgreesWithStore`), and results of cached functions
  never are (`Cache.CacheBucketAgrees`).
- The docstring of `_get_out_of_bounds_pages` speaks of returning False; the code yields page numbers, and
  that is what is modelled.

## Model

| member | source | states |
|---|---|---|
| Geometry.GrowIsNear | app/precompiled.py:545-548 | the 1mm by which every boundary is made more generous admits exactly the points within Chebyshev distance 1mm of an area |
| Geometry.UnitsAre | app/precompiled.py:111-132 | an inch is 72 points and 25.4 millimetres |
| Geometry.IntersectsIff | app/precompiled.py:788-792 | a word meets a box iff neither is empty and they have a point in common |
| Canvas.NotifyCanvas.Rectangle | app/precompiled.py:111-132 | a call adds one filled rectangle, converted to points and to an origin at the bottom left |
| Canvas.RectangleCovers | app/precompiled.py:111-132 | for any two opposite corners in any order the painted points are exactly those of the area seen from the top left |
| Documents.ColourAtConcat | app/precompiled.py:925-940 | overlaying hides the old content exactly where the new one covers |
| Overlays.OverlayPrintableAreasWithWhite | app/precompiled.py:536-585 | every page gets the white areas of its kind; a letter without a first page fails |
| Overlays.OverlayPrintableAreasOfAddressBlockPageWithWhite | app/precompiled.py:588-624 | the first page gets its four white areas and no other page changes |
| Overlays.WhiteCoversNearPrintable | app/precompiled.py:536-624 | the white overlay covers exactly the points within 1mm of a printable area |
| Overlays.WhitenedColour | app/precompiled.py:536-624 | after the overlay a point is white near a printable area and unchanged elsewhere |
| Overlays.NearPrintableMonotone | app/precompiled.py:561-619 | what may be printed on the address page may be printed on any page |
| Overlays.ColourNoPrintAreasInRed | app/precompiled.py:655-714 | a page shows in red, covered once, exactly the points of the sheet in no printable area of its kind, and is otherwise as before |
| Overlays.OverlayTemplatePdf | app/precompiled.py:407-412 | every page shows where it may not be printed on, the first one as the address page |
| Overlays.Tiling | app/precompiled.py:588-707 | every point of the sheet is in exactly one printable or red area, on both kinds of page |
| Overlays.TintedOnce | app/precompiled.py:655-707 | a point of the sheet that may not be printed on is tinted exactly once, others not at all |
| Overlays.RejectedIsRedIff | app/precompiled.py:545-548 | a point at which fault can be found is tinted exactly when it is on the A4 sheet |
| Validation.PageNumbersAre | app/precompiled.py:507-533 | page lists are strictly increasing and name exactly the pages flagged |
| Validation.IsCloseIsWithin | app/precompiled.py:497-504 | the relative tolerance of math.isclose never matters: close is within 2mm |
| Validation.A4PortraitAsDisplayed | app/precompiled.py:497-504 | a page is accepted exactly when, as displayed, it is within 2mm of A4 portrait with a known rotation |
| Validation.WrongSizeIs | app/precompiled.py:497-523 | the same of a page in points |
| Validation.GetPagesWithInvalidOrientationOrSize | app/precompiled.py:507-533 | the loop lists exactly the pages of the wrong size |
| Validation.TooManyColours | app/precompiled.py:730-735 | an image with too many colours to list has one that is not white |
| Validation.GetOutOfBoundsPages | app/precompiled.py:717-741 | the nested loops list exactly the images with a pixel that is not white |
| Validation.ReportedIffOutOfBounds | app/precompiled.py:536-624 | a page is reported iff a sampled point of its own ink lies more than 1mm from every printable area of its kind |
| Validation.ReportedInkIsShown | app/precompiled.py:655-741 | of the offending ink of a reported page the red overlay for its kind of page shows exactly what is on the sheet, and so some iff some is |
| Validation.AttachmentBoundsAreLooser | app/precompiled.py:550-574 | pages out of bounds as an attachment are out of bounds as a letter |
| Validation.ReadsNotifyTag | app/precompiled.py:837-841 | whether the text in the tag box is exactly NOTIFY |
| Validation.GetPagesWithNotifyTag | app/precompiled.py:844-868 | the pages with a tag, leaving out page 1 of a letter |
| Validation.AttachmentTagsAreStricter | app/precompiled.py:853-865 | the tag list of a letter is that of the attachment without page 1 |
| Validation.OverlayKeepsTags | app/precompiled.py:478-483 | looking for tags in the overlaid copy finds those of the original |
| Validation.ValidIff | app/precompiled.py:473-494 | a document passes iff every page passes each check that applies to it |
| Validation.VerdictIs | app/precompiled.py:473-494 | for every document: sizes first, then ink, then tags, each with its own message and exactly the pages at fault |
| Validation.InvalidPagesAreWellFormed | app/precompiled.py:473-494 | any list of invalid pages is non-empty, strictly increasing and within the document |
| Extraction.ExtractTextFromPage | app/precompiled.py:788-825 | the single pass computes the sorted, grouped and joined text |
| Extraction.SortSorts | app/precompiled.py:794 | sorting orders by (block, line, word) and conserves the words |
| Extraction.SortsByNumbers | app/precompiled.py:794 | the order is by block, then by line, then by word |
| Extraction.SortIsStable | app/precompiled.py:794 | words with the same numbers stay in the order of the page |
| Extraction.RunsCut | app/precompiled.py:795-798 | grouping cuts the words exactly where the key changes |
| Extraction.OneLinePerKey | app/precompiled.py:788-799 | the words meeting the box, each once, on exactly one line per (block, line), in increasing order |
| Extraction.LinesAreNumbered | app/precompiled.py:795-799 | a line is of one block and line number, and lines come by block, then by line |
| Extraction.OrderDoesNotMatter | app/precompiled.py:788-799 | with distinct numbers the result is the same for every order of the page's words |
| Extraction.SameGrouping | app/precompiled.py:801-821 | two groupings agree iff neighbours share the one key exactly when they share the other |
| Extraction.BottomsAgree | app/precompiled.py:801-821 | the case in which no difference between lines and y2 can be logged |
| Text.RejoinIsIdentity | app/precompiled.py:794-799 | taking a text apart and joining it changes nothing exactly when lines and words are separated singly |
| Fonts.FontSets.Walk | app/embedded_fonts.py:18-52 | the walk adds to its sets what lies within reach, or runs out of recursion |
| Fonts.ListValues | app/embedded_fonts.py:46-47 | the values of a dictionary, by any order of its keys, as often as they occur |
| Fonts.FontSets.WalkInto | app/embedded_fonts.py:27-52 | each kind of object is walked into as its children |
| Fonts.FontSets.WalkItems | app/embedded_fonts.py:46-50 | the loops over values and items add what each of them reaches, repeated ones too |
| Fonts.ReturnsIff | app/embedded_fonts.py:18-52 | the walk returns iff no path is longer than Python may recurse |
| Fonts.ChildrenAre | app/embedded_fonts.py:46-52 | one step of the walk, for each kind of object |
| Fonts.PathsAre | app/embedded_fonts.py:46-52 | a path is a sequence of such steps |
| Fonts.FontOfIs | app/embedded_fonts.py:28-36 | what a dictionary says: the font of /BaseFont is used, that of /FontName is embedded if there is a file of any of the three kinds |
| Fonts.WalkFindsReachable | app/embedded_fonts.py:18-52 | when it returns, it has found exactly the fonts that reachable dictionaries use or embed, for any sharing and indirection |
| Fonts.ContainsUnembeddedFonts | app/embedded_fonts.py:54-65 | the loop over pages computes the difference of the two sets |
| Fonts.UnembeddedIff | app/embedded_fonts.py:10-65 | a font is reported iff a dictionary within reach of some page's resources uses it and none within reach of any page's embeds it |
| Fonts.ReturnsIffAcyclic | app/embedded_fonts.py:18-52 | the walk can return iff nothing within reach of its start leads back to itself, and with as many nested calls as there are objects to meet it then does |
| Fonts.AnswersIffAcyclic | app/embedded_fonts.py:54-65 | with that recursion a document gets an answer iff all its pages have resources, all acyclic |
| Fonts.AcyclicReturns | app/embedded_fonts.py:18-52 | a rank that falls along every edge within reach bounds the recursion |
| Fonts.CycleNeverReturns | app/embedded_fonts.py:18-52 | a cycle within reach defeats the walk |
| Transformation.DoesPdfContainColourSpace | app/transformation.py:12-31 | the nested search with its early return |
| Transformation.SearchIsDecided | app/transformation.py:12-31 | the first page that has such an image, or cannot be read, decides |
| Transformation.PrintColoursAre | app/precompiled.py:333-341 | which images make colours be converted, and which unreadable pages make it fail |
| Transformation.ConvertedUnlessCmykOnly | app/precompiled.py:333-341 | if all pages can be read, colours are converted unless there is a CMYK image and no RGB image |
| Transformation.NormalisedIs | app/precompiled.py:332-351 | fonts are embedded exactly if some page uses one that no page embeds |
| Transformation.NormaliseKeepsLetter | app/precompiled.py:332-351 | normalising keeps pages, sizes, words, white and black |
| Rewriting.AddAddress | app/precompiled.py:882-922 | the first page gets the white cover and the lines of the address at their baselines |
| Rewriting.AddressLinesAre | app/precompiled.py:895-918 | black 8pt lines from the left edge of the window, the last 2pt above its bottom, each 8.5pt above the next |
| Rewriting.AddNotifyTag | app/precompiled.py:439-469 | the first page gets the tag, measured from its own top |
| Rewriting.TagLineIs | app/precompiled.py:439-463 | white 6pt type, 1.8mm from the left and the top of the page |
| Rewriting.AddressInsideBox | app/precompiled.py:73-83 | for every accepted height up to eight lines stay within the height of the box they are read from, and a line lies inside it iff it is not too wide |
| Rewriting.EightLinesFit | app/precompiled.py:895-918 | on exact A4 all lines stay in the window exactly when there are at most eight |
| Rewriting.BoxesAreApart | app/precompiled.py:36-83 | a word inside one of the two boxes never meets the other |
| Rewriting.AddressWordsInBox | app/precompiled.py:882-922 | every word of a drawn address that fits the box lies in it |
| Rewriting.AddressMissesTagBox | app/precompiled.py:36-83 | no word of a drawn address meets the tag box, at any width, height and number of lines |
| Rewriting.TagWordInBox | app/precompiled.py:439-469 | the drawn tag is one word reading NOTIFY, inside the tag box |
| Reading.AddressRoundTrip | app/precompiled.py:744-834 | redacting, drawing and reading gives the address back iff it is tight and all its drawn words meet the box, whatever was on the page |
| Reading.FittingAddressMeetsBox | app/precompiled.py:882-922 | up to eight lines that fit the box meet it word for word, on every accepted height |
| Reading.DrawnAddressReads | app/precompiled.py:788-799 | drawn lines are read as their words, line by line |
| Reading.SeveralWordsAreSeparated | app/precompiled.py:794-799 | text of several words contains a space or a line feed |
| Reading.NotifyIsRead | app/precompiled.py:837-841 | text that reads NOTIFY is a single word |
| Reading.SelectionsCommute | app/precompiled.py:871-879 | redacting and selecting can be done in either order |
| Sanitising.ResultIsWellFormed | app/precompiled.py:233-307 | on every exit a result has a file or a message, and addresses, pages and counts only where they belong |
| Sanitising.ResultOfChecks | app/precompiled.py:233-307 | for every file: unreadable, too long beyond ten pages, then sizes, ink and tags with exactly the pages at fault |
| Sanitising.ResultOfValid | app/precompiled.py:253-307 | what a file that passes the checks comes to, in full, as a letter and as an attachment |
| Sanitising.PassingKeepsPages | app/precompiled.py:244-274 | only valid files within the limit pass, with as many pages as they had |
| Sanitising.RewritingKeepsLetter | app/precompiled.py:310-329 | later pages keep their words; the first keeps those outside the box, then address, then tag if missing |
| Sanitising.WordsOfRewritten | app/precompiled.py:310-329 | the first page reads survivors, address, and a tag unless the survivors read NOTIFY |
| Sanitising.BoxesOfRewritten | app/precompiled.py:310-329 | what each of the two boxes of a rewritten page holds |
| Sanitising.ResultTagReadsIff | app/precompiled.py:322-327 | the result's tag box reads NOTIFY iff nothing survives in it or what survives reads NOTIFY |
| Sanitising.TagIsThere | app/precompiled.py:322-327 | a letter whose tag box was empty or read NOTIFY leaves with exactly one readable tag, whatever its address |
| Sanitising.TagSurvivesRedaction | app/precompiled.py:871-879 | redaction cannot remove a word lying in the tag box |
| Sanitising.RewrittenAddressReads | app/precompiled.py:744-754 | reading a rewritten letter gives, up to NFKD, what of its new address meets the box, which is the address iff all of it does |
| Sanitising.PassesIffWalkReturns | app/embedded_fonts.py:54-65 | a letter without other fault passes iff the font walk returns on every page and missing fonts can be embedded; else it is unreadable |
| Sanitising.PassesIffAcyclic | app/embedded_fonts.py:54-65 | with recursion enough it passes iff the resources of all pages are acyclic and missing fonts can be embedded |
| Stability.FittingAddressIsInBounds | app/precompiled.py:882-922 | an address that fits its window puts no ink out of bounds |
| Stability.ColourOfAddressed | app/precompiled.py:871-922 | after redaction and drawing a point is black where the address is, else white in the redacted box and the window, else as it was |
| Stability.InkOfRewritten | app/precompiled.py:310-329 | on a rewritten page the address's ink is there, old ink in the cleared areas is gone, elsewhere none is added and black stays black outside the tag |
| Stability.RewrittenIsValidIff | app/precompiled.py:473-494 | a valid letter is valid again iff its new address does not run out of bounds |
| Stability.RewrittenVerdict | app/precompiled.py:473-494 | the checks find nothing wrong with a rewritten letter except such ink, and then on page 1 alone |
| Stability.SecondResult | app/precompiled.py:233-329 | what becomes of any passed letter sanitised again, case by case: its ink, its address as read back, a converter, or a pass |
| Stability.PassesAgainIff | app/precompiled.py:233-329 | a passed letter passes again iff its address puts no ink out of bounds, reads back as valid, and no converter fails; pages are kept and the address is the one read back |
| Stability.RejectedAgainIff | app/precompiled.py:233-329 | sanitised again, a letter is rejected for its ink iff its address runs out of bounds, and for no other failed check |
| Stability.PassesAgain | app/precompiled.py:233-329 | if the address fits its window, only an address in error when read back, or a converter, can stop the letter |
| Stability.NormalFormIsStable | app/precompiled.py:233-329 | an address in NFKD form that fits the box stays the same, and only its ink or a failing converter can stop the letter |
| Stability.AsciiLetterIsStable | app/precompiled.py:233-329 | so does an ASCII address |
| Stability.ThirdKeepsAddress | app/precompiled.py:233-329 | when what is read back is normalised already, a third sanitising leaves the address alone |
| Stability.TagIsAddedIff | app/precompiled.py:322-327 | sanitising again adds a tag iff the tag box does not read NOTIFY, whatever becomes of the address; a box that reads it holds one word |
| Stability.SameWordsIffTagReads | app/precompiled.py:322-327 | when the address comes out the same, sanitising twice leaves the first page's words iff its tag box reads NOTIFY and all of the address meets its box |
| Stability.AttachmentPassesAgain | app/precompiled.py:253-255 | an attachment passes again iff no converter fails, and is unreadable otherwise |
| Instances.WideLetterIsNotStable | app/precompiled.py:882-922 | every letter with such a wide address passes, and its sanitised form does not |
| Instances.WideAddressIsNotStable | app/precompiled.py:882-922 | one such letter |
| Instances.StripIsRejectedButNotShown | app/precompiled.py:655-741 | a page wider than A4 that is rejected for a mark no tint covers |
| Instances.ReferencedLetterGetsTwoTags | app/precompiled.py:322-327 | a letter that passes twice and gets a tag each time |
| Instances.PageTreeIsNotWalked | app/embedded_fonts.py:54-59 | a file with a cycle between page and parent on whose resources the walk returns |
| Instances.CyclicFormNeverReturns | app/embedded_fonts.py:18-52 | cyclic resources on which the walk never returns |
| Instances.CyclicLetterIsRejected | app/embedded_fonts.py:54-65 | a letter that passes, and is unreadable with those resources |
| Streams.ReadsAllIff | app/precompiled.py:264 | a raw read gets everything exactly when the cursor is at the beginning |
| Pipeline.OverlayStream | app/precompiled.py:558-585 | the overlay comes rewound, and so is the source left |
| Pipeline.GetInvalidPagesWithMessage | app/precompiled.py:473-494 | the checks as they run compute the verdict; the raw read of the images is of the whole file |
| Pipeline.ContainsColourSpaceIn | app/transformation.py:12-31 | the search leaves the stream rewound |
| Pipeline.ConvertStream | app/transformation.py:43-79 | conversion reads the whole file and gives a rewound one |
| Pipeline.NormaliseFontsAndColours | app/precompiled.py:333-351 | both raw reads are of whole files |
| Pipeline.RewriteStream | app/precompiled.py:310-329 | the rewriting as it runs computes the specified letter, rewound |
| Pipeline.SanitiseCheckedFile | app/precompiled.py:253-274 | the final read is of the whole file on both paths |
| Pipeline.SanitiseFileContents | app/precompiled.py:233-307 | the pipeline with its cursors and exceptions computes the specified result |
| Templated.StitchPdfs | app/utils.py:13-21 | the pages of one file after those of the other, rewound |
| Templated.GenerateTemplatedPdf | app/templated.py:9-35 | the stages as they run compute the specified letter, rewound for upload |
| Templated.GeneratedInOrder | app/templated.py:9-35 | a letter is Welsh, English and attachment in that order and nothing else, the attachment untouched |
| Templated.PurposeDecides | app/templated.py:24-29 | a preview has its pages as made; for print the letter is converted, but not its attachment |
| CacheKeys.BoolTextEnds | app/__init__.py:83 | what stands before the text of a truth value can be told |
| CacheKeys.KeysAreInjective | app/__init__.py:80-85 | two calls have the same key iff they are the same, within and across folders |
| CacheKeys.KeysLook | app/__init__.py:80-85 | the keys of the two call sites |
| Cache.LeastRecentlyUsedGoes | app/utils.py:34-36 | after any lookups the memory holds exactly the most recently used keys, in order of last use, up to its capacity |
| Cache.Worker.CachingS3Download | app/utils.py:29-36 | a fresh rewound stream of what is remembered or stored; failures are not remembered |
| Cache.Worker.Call | app/__init__.py:87-107 | a call is a request that takes its steps; it stores from the cursor and returns from the beginning |
| Cache.AloneIsCall | app/__init__.py:87-107 | in the interleaved system a request undisturbed takes the very steps of the wrapper |
| Cache.CacheIsTransparentIff | app/__init__.py:79-111 | in every run of any workers every answered request gets what the function gives iff the function hands over its stream rewound, or empty |
| Cache.MemoryIsBounded | app/utils.py:34 | no memory ever exceeds its capacity or holds a key twice |
| Cache.MemoryAgreesWithStore | app/utils.py:29-36 | what has been written once under a key is what every worker remembers for it, after any steps, whatever befalls other keys |
| Cache.CacheBucketAgrees | app/utils.py:29-36 | for results of cached functions that is always so, however attachments are overwritten |
| Cache.AttachmentIsAnswered | app/utils.py:29-36 | an attachment written once is what every answered request for it gets |
| Cache.OverwritingIsStaleIff | app/utils.py:34-36 | overwriting makes a memory stale iff the value is another |
| Cache.StaleMemory | app/utils.py:34-36 | a run that answers a request with an attachment no longer stored |
| Tasks.Cloud.CopyObject | app/celery/tasks.py:96-121 | the copy is of what is in the source bucket at that moment |
| Tasks.RemoveFolderIs | app/celery/tasks.py:234-239 | a name loses its folder, and is left alone without one |
| Tasks.StoreSanitised | app/celery/tasks.py:39-93 | upload, backup copy and message, in that order, up to the first failure |
| Tasks.SanitiseAndUploadLetter | app/celery/tasks.py:26-93 | buckets and messages after the task are those of a beginning of its plan |
| Tasks.UploadTemplatedLetter | app/celery/tasks.py:166-222 | bucket, name, metadata and message go together, and the whole file is uploaded |
| Tasks.CreatePdfForTemplatedLetter | app/celery/tasks.py:124-222 | an attempt that is retried or raises has done nothing |
| Tasks.StoreRecreatedLetter | app/celery/tasks.py:268-285 | nothing is stored of a letter that no longer passes |
| Tasks.RecreatePdfForPrecompiledLetter | app/celery/tasks.py:243-297 | the task carries out its plan for the backup it has read |
| Tasks.StoreRecreatedAttachment | app/celery/tasks.py:321-342 | an attachment is stored with its page count, if it passes |
| Tasks.RecreatePdfForAttachment | app/celery/tasks.py:301-350 | the task carries out its plan for the backup it has read |
| Protocol.NextKeeps | app/celery/tasks.py:25-350 | every step of any run keeps the invariant over buckets, inputs and histories |
| Protocol.ExecuteKeeps | app/celery/tasks.py:25-350 | the invariant holds after any steps |
| Protocol.RunsCanComplete | app/celery/tasks.py:25-350 | every task whose input is there can be carried out to the end of its plan, as the code does |
| Protocol.IdsApart | app/celery/tasks.py:54-59 | different ids have different backups |
| Protocol.BackupStays | app/celery/tasks.py:54-59 | once written, a backup is not overwritten with anything else, unless from outside or by a run with its id and another file |
| Guarantees.ProgramPlansOk | app/celery/tasks.py:25-350 | the four tasks plan only what keeps buckets in order |
| Guarantees.BucketsHoldTheirPages | app/celery/tasks.py:173-185 | live, test and sanitised letters are within the page limit, invalid ones beyond it, after any interleaving |
| Guarantees.CutShortSendsNothing | app/celery/tasks.py:68-75 | a run that an error has cut short has sent nothing |
| Guarantees.SanitisingRunIs | app/celery/tasks.py:31-93 | every run has done a beginning of: report failure; or store, back up, report that it passed |
| Guarantees.LettersCanBeReported | app/celery/tasks.py:31-93 | every letter in the scan bucket can be sanitised to the end and reported one way or the other |
| Guarantees.OnlyOwnBackup | app/celery/tasks.py:54-59 | what a run writes to the backup bucket is its own input, under its own id |
| Guarantees.PassedMeansStored | app/celery/tasks.py:42-93 | a letter is reported as passed only after it was stored and the original in the scan bucket was copied under its id |
| Guarantees.FailedMeansNothingWritten | app/celery/tasks.py:40-41 | a letter is reported as failed only by a run that wrote nothing, with what sanitising it found |
| Guarantees.OneUploadOneMessage | app/celery/tasks.py:124-222 | over all attempts one upload and then one message at most, with the page count of the upload |
| Guarantees.RecreatedIsWhatPassed | app/celery/tasks.py:256-285 | a letter reported as passed and later recreated under the same rule is the very file that was sanitised, if nothing is put under its backup from outside and all runs with its id are for one file |
| Guarantees.AttachmentIsRecreated | app/celery/tasks.py:308-342 | an attachment is recreated from its backup under its own location, with the page count of what is stored |
| Guarantees.RecreatedHasPassed | app/celery/tasks.py:268-342 | what is recreated is the output of a passing sanitisation of its backup |

## Left out

- Flask routes, authentication, JSON schemas, error pages, metrics, tracing and configuration: they have no hard property. Nor have the page-count endpoint, which is a sum, and the choice of first page in the overlay endpoints, which is a boolean.
- Logging, including the warning about grown files, the metadata of letters, Type3 fonts, and the two comparisons of address extraction, which only decide whether a line is logged.
- The inside of Ghostscript, ImageMagick, poppler, pypdf, pymupdf, reportlab, WeasyPrint and base64. Their contract is in `Library.dfy`; what pymupdf's redaction does to a word that crosses the edge of the box, and to line art, is simplified to removing the word and painting the box white.
- The order of checks inside `error_code`, and the postcode, country and BFPO rules of notifications-utils, which is not part of this model.
- Rounding and anti-aliasing: coordinates are exact, pixels are sampled at points.
- Type on rotated pages and media boxes away from the origin: the contract for type covers upright pages only. The checks themselves are proved for all rotations.
- Colour mixing: the red overlay's transparency is not modelled, only which points it covers and how often.
- Words that reportlab trims: an address with blanks at its ends, or a line with them, is drawn as it is.
- Fonts: a font name that is not hashable makes the walk raise a TypeError in Python; here it is a font like any other.
- Templated.StitchPdfs: does not carry over the resource graph, which no later stage walks.
- Tasks.RecreatePdfForAttachment: keeps the original filename in the metadata as it is, without URL quoting.
- The letters of `Instances` are letters for a plain library, of type of a fixed pitch, which meets the contract; they are not claimed to be letters for the real one.
- Expiry of objects, and replacement of a scanned letter between download and copy: letters to scan are written once.
- SHA-1 collisions, and text forms of bytes that coincide: both are assumed away by `CacheKeys.Injective`.
- Cache.CacheIsTransparentIff: is about the cached functions as functions of their arguments; what else they depend on is not modelled.
