# eclipse-commons core, modelled in Dafny

This project models the self-contained logic of `de.sebthom.eclipse.commons`, a
library of helpers for Eclipse plug-ins, and proves properties of that model.
Each core Java file is one module:

- `TextStream`: `DocumentInputStream`, a byte reader over an editor document.
  It has one cursor `pos`. Each call narrows each character to its low 8 bits.
- `Bundles`: `BundleResources`. It normalises and de-duplicates resource search
  paths once, then returns the first search path under which a resource is found.
- `Localization`: `MessagesInitializer`. It builds the candidate `.properties`
  files of a locale, from the most general to the most specific. It merges them
  in that order and reports message properties that no field or `plugin.xml` uses.
- `TextMarkers`: `Markers`. It keeps the highlight annotations placed in an
  annotation model, and removes one, all, or replaces them.
- `Tables`: the last-column auto-expand listener of `Tables.setLastColumnAutoExpand`.
- `Buttons`: `Buttons.selectRadio`.
- `Logging`: `StatusFactory`, which creates Eclipse `IStatus` values.
- `DialogPages`: `DialogPages.setMessage`, which maps a status to a page's
  message, message type and error message.
- `FieldEditors`: the digit-only filter of `IntFieldEditor` and the entry table
  of `EnumFieldEditor`.
- `UI`: `UI.center`.
- `NullAnalysis`: `NullAnalysisHelper`.
- `Common`: `Option`, `Result`, and the Java exceptions the model raises. It also
  holds `String.replace(char, char)`, Java's truncating halving and
  `Character.isWhitespace`.

Code that mutates state is modelled as classes with `modifies` frames and loops
with invariants:

- the document stream;
- the search-path initialisation and lookup;
- the candidate list and the merge loop;
- the markers;
- the column listener;
- `selectRadio`;
- the enum entry loop.

Pure selection logic is modelled as functions: status creation, page messages,
the digit filter, centring and the null helpers.

Java collaborators become parameters:

- `FileLocator.find` becomes `find`.
- Reading a resource through the class loader becomes `load`.
- `Locale.getDefault().toString()` becomes `locale`.
- `NLS.bind` becomes `bind`.
- A table's columns and client-area width become `cols` and `clientWidth`.
- A shell's parent bounds and display bounds become `parentBounds` and `displayBounds`.
- An enum's constants, `name()` and label provider become `constants`, `name`
  and `labelProvider`.

A Java `null` is `None`.

`DocumentInputStream` is modelled as its code is written: every character
yields one byte, its low 8 bits, and nothing is transcoded. The stream's tests
expect UTF-8 output and `getCharset()`, `available()` and `skip()`. The code
does not have these, and where the code and that expectation disagree, the
model follows the code.

Source paths below are relative to the repository root.

## Model

| member | source | states |
|---|---|---|
| Common.JavaHalf | plugin/src/main/java/de/sebthom/eclipse/commons/ui/UI.java:36-37 | Java's `/ 2`, truncating toward zero: for a non-negative value the quotient's double is the value or one less, for a negative one the value or one more |
| TextStream.LowByte | plugin/src/main/java/de/sebthom/eclipse/commons/text/DocumentInputStream.java:64 | `c & 0xFF` lies in 0..255, agrees with `c` modulo 256 and is `c` itself for characters below 256 |
| TextStream.ToByte | plugin/src/main/java/de/sebthom/eclipse/commons/text/DocumentInputStream.java:44 | the cast `(byte) c` agrees with `c` modulo 256 and, read back unsigned, is `c & 0xFF` |
| TextStream.Truncated | plugin/src/main/java/de/sebthom/eclipse/commons/text/DocumentInputStream.java:44-53 | the bytes stored for a run of characters: one per character, each its `(byte)` cast |
| TextStream.LowBytes | plugin/src/main/java/de/sebthom/eclipse/commons/text/DocumentInputStream.java:63-64 | the values `read()` returns for a run of characters: one per character, each its low 8 bits |
| TextStream.ReadCount | plugin/src/main/java/de/sebthom/eclipse/commons/text/DocumentInputStream.java:35-57 | 0 for an empty request, -1 when the document is exhausted, otherwise between 1 and `len` and stopping only at `len` or at the end of the document |
| TextStream.ExhaustedReadIsStable | plugin/src/main/java/de/sebthom/eclipse/commons/text/DocumentInputStream.java:63-68 | once `pos` has reached the end, any number of further `read()` calls keep `pos` and return -1 |
| TextStream.ReadAllYieldsLowBytes | plugin/src/main/java/de/sebthom/eclipse/commons/text/DocumentInputStream.java:61-69 | reading with `read()` until -1 yields exactly one value per remaining character, its low 8 bits |
| TextStream.ReadAllChunksYieldsTruncated | plugin/src/main/java/de/sebthom/eclipse/commons/text/DocumentInputStream.java:32-58 | reading with `read(buff, 0, len)` until -1 yields exactly one byte per remaining character, whatever the buffer size |
| TextStream.BufferedAndSingleReadsAgree | plugin/src/main/java/de/sebthom/eclipse/commons/text/DocumentInputStream.java:44-64 | the bytes `read(buff, off, len)` stores, read unsigned, are the values `read()` returns |
| TextStream.Latin1ReadsVerbatim | plugin/src/main/java/de/sebthom/eclipse/commons/text/DocumentInputStream.java:64 | a document of characters below 256 is read back as itself; there is no transcoding |
| TextStream.DocumentInputStream.constructor | plugin/src/main/java/de/sebthom/eclipse/commons/text/DocumentInputStream.java:20-25 | the stream holds the document and starts at position 0 |
| TextStream.DocumentInputStream.GetDocument | plugin/src/main/java/de/sebthom/eclipse/commons/text/DocumentInputStream.java:27-29 | returns the document the stream was built on |
| TextStream.DocumentInputStream.ReadInto | plugin/src/main/java/de/sebthom/eclipse/commons/text/DocumentInputStream.java:32-58 | out-of-bounds arguments throw before anything changes; otherwise the result is `ReadCount`, `pos` advances by the count, the buffer holds the narrowed characters in `[off, off + n)` and is unchanged elsewhere, and `0 <= pos <= length` is kept |
| TextStream.DocumentInputStream.Read | plugin/src/main/java/de/sebthom/eclipse/commons/text/DocumentInputStream.java:61-69 | returns the next character's low 8 bits and advances by one, or returns -1 at the end without moving |
| Common.ReplaceChar | plugin/src/main/java/de/sebthom/eclipse/commons/BundleResources.java:123 | `String.replace(char, char)`: every occurrence of the one character becomes the other, every other character stays, the length stays; it serves both `p.replace('\\', '/')` here and `messageBundleName.replace('.', '/')` in `MessagesInitializer` |
| Bundles.NormalizeSearchPath | plugin/src/main/java/de/sebthom/eclipse/commons/BundleResources.java:119-126 | the empty path stays empty; any other path has no `\`, ends with `/`, is the slash-converted path itself when that already ends with `/`, and that path plus one `/` otherwise |
| Bundles.Dedup | plugin/src/main/java/de/sebthom/eclipse/commons/BundleResources.java:116-128 | the `LinkedHashSet` of the paths: no duplicates, the same members, no longer than the input |
| Bundles.DedupKeepsFirstOccurrenceOrder | plugin/src/main/java/de/sebthom/eclipse/commons/BundleResources.java:116-128 | the de-duplicated paths appear in the order of their first occurrence in the input |
| Bundles.SearchPathsMembers | plugin/src/main/java/de/sebthom/eclipse/commons/BundleResources.java:115-132 | the stored search paths have no duplicates, are exactly the root plus the normalised inputs, and number at most the inputs plus one |
| Bundles.SearchPathsRoot | plugin/src/main/java/de/sebthom/eclipse/commons/BundleResources.java:118-129 | the root `""` is always stored; it is appended last exactly when no input entry was empty |
| Bundles.SearchPathsNormalized | plugin/src/main/java/de/sebthom/eclipse/commons/BundleResources.java:119-127 | every stored search path is the root or ends with `/` and contains no `\` |
| Bundles.NoSearchPathsMeansRootOnly | plugin/src/main/java/de/sebthom/eclipse/commons/BundleResources.java:115-132 | with no search paths, the stored list is just the root, as the one-argument constructors set it |
| Bundles.BundleResources.constructor | plugin/src/main/java/de/sebthom/eclipse/commons/BundleResources.java:34-38 | the one-argument constructors (this one and the `Plugin` one at lines 48-52) store exactly `[""]` |
| Bundles.BundleResources.WithSearchPaths | plugin/src/main/java/de/sebthom/eclipse/commons/BundleResources.java:40-46 | the search-path constructors (this one and the `Plugin` one at lines 54-60) store the normalised, de-duplicated paths plus the root |
| Bundles.BundleResources.InitSearchPaths | plugin/src/main/java/de/sebthom/eclipse/commons/BundleResources.java:115-132 | the loop stores `SearchPathsFor(paths)`, which contains the root and no duplicates |
| Bundles.BundleResources.GetURL | plugin/src/main/java/de/sebthom/eclipse/commons/BundleResources.java:103-113 | a blank path is rejected; a result is the hit of the first search path, in order, that finds the resource; otherwise it throws "Resource not found: " plus the path, and every search path missed; a resource found at the root is always found |
| Localization.LastIndexOf | plugin/src/main/java/de/sebthom/eclipse/commons/localization/MessagesInitializer.java:49 | the last index holding `_`, or -1 when there is none |
| Localization.SubstringBeforeLast | plugin/src/main/java/de/sebthom/eclipse/commons/localization/MessagesInitializer.java:52 | a proper prefix ending just before the last `_`, or the whole string when it has no `_` |
| Localization.LocaleChainShape | plugin/src/main/java/de/sebthom/eclipse/commons/localization/MessagesInitializer.java:46-53 | the loop visits the full locale first and ends at a locale without `_`; each step drops the last `_`-segment; it makes one visit per `_` plus one |
| Localization.CandidatesShape | plugin/src/main/java/de/sebthom/eclipse/commons/localization/MessagesInitializer.java:43-56 | after the reverse, the first candidate is `root.properties` and the last is `root_<locale>.properties`; there is one candidate per `_` plus two, all ending with `.properties` |
| Localization.LocaleVariantFiles | plugin/src/main/java/de/sebthom/eclipse/commons/localization/MessagesInitializer.java:46-53 | the `while (true)` loop adds one `root_<variant>.properties` per locale of the chain, the full locale first |
| Localization.MessagePropFiles | plugin/src/main/java/de/sebthom/eclipse/commons/localization/MessagesInitializer.java:43-56 | the loop, the root file and the reverse produce the candidate list, with the root file first, the full-locale file last, and one entry per `_` plus two |
| Localization.LastDefiner | plugin/src/main/java/de/sebthom/eclipse/commons/localization/MessagesInitializer.java:61-70 | the last candidate file that exists and defines the key, or -1 |
| Localization.MergeLastWins | plugin/src/main/java/de/sebthom/eclipse/commons/localization/MessagesInitializer.java:61-70 | a key is merged exactly when some file defines it, and it has the value of the last such file in the list |
| Localization.MergeDefinedKeys | plugin/src/main/java/de/sebthom/eclipse/commons/localization/MessagesInitializer.java:61-70 | the merged keys are exactly the keys that some existing candidate defines |
| Localization.LoadMessageProps | plugin/src/main/java/de/sebthom/eclipse/commons/localization/MessagesInitializer.java:61-70 | the load loop computes the in-order merge; missing files are skipped |
| Localization.MostSpecificLocaleWins | plugin/src/main/java/de/sebthom/eclipse/commons/localization/MessagesInitializer.java:43-70 | a key defined by the full-locale file keeps that file's value over every more general file |
| Localization.UnusedProperties | plugin/src/main/java/de/sebthom/eclipse/commons/localization/MessagesInitializer.java:85-93 | the warned keys are exactly the merged keys that have no field and no `"%key"` reference in `plugin.xml` |
| TextMarkers.FirstMarkerAt | plugin/src/main/java/de/sebthom/eclipse/commons/text/Markers.java:47-58 | the first active marker, in list order, that the model places exactly at the range; markers without a position are skipped; -1 when there is none |
| TextMarkers.FirstMarkerAtIsFirst | plugin/src/main/java/de/sebthom/eclipse/commons/text/Markers.java:47-58 | any index that matches, with no earlier match, is the one `FirstMarkerAt` finds, and -1 is found when nothing matches |
| TextMarkers.Placement | plugin/src/main/java/de/sebthom/eclipse/commons/text/Markers.java:98-101 | the placement of new markers covers exactly those markers |
| TextMarkers.PlacementAt | plugin/src/main/java/de/sebthom/eclipse/commons/text/Markers.java:98-101 | each of a list of distinct new markers sits at the position of its own match |
| TextMarkers.Markers.constructor | plugin/src/main/java/de/sebthom/eclipse/commons/text/Markers.java:30-38 | a new `Markers` has its id, no active markers and no annotation model |
| TextMarkers.Markers.RemoveMarkerAt | plugin/src/main/java/de/sebthom/eclipse/commons/text/Markers.java:40-59 | without a model, returns false; otherwise it removes exactly the first active marker placed at that range, reports whether there was one, and never changes the active-marker list |
| TextMarkers.Markers.RemoveMarkerAtPosition | plugin/src/main/java/de/sebthom/eclipse/commons/text/Markers.java:61-69 | the public overloads behave as `removeMarkerAt(offset, length)` |
| TextMarkers.Markers.RemoveMarkers | plugin/src/main/java/de/sebthom/eclipse/commons/text/Markers.java:71-82 | every active marker leaves the model, and its other annotations stay |
| TextMarkers.Markers.SetMarkers | plugin/src/main/java/de/sebthom/eclipse/commons/text/Markers.java:84-117 | old markers leave the old model; the new model becomes active; with no matches the active list stays; otherwise the active markers are fresh, distinct, typed `markerId`, one per match, and placed at their matches |
| TextMarkers.NewAnnotations | plugin/src/main/java/de/sebthom/eclipse/commons/text/Markers.java:98-101 | one fresh annotation of the marker type per match, all distinct |
| TextMarkers.AddAnnotations | plugin/src/main/java/de/sebthom/eclipse/commons/text/Markers.java:106-109 | adding each new marker in turn puts the whole placement into the model |
| Tables.LastColumnWidth | plugin/src/main/java/de/sebthom/eclipse/commons/ui/Tables.java:64 | the last column is at least `minWidth` wide, the columns cover the client area, and it is `minWidth` unless the columns fill the client area exactly |
| Tables.LastColumnFillsClientArea | plugin/src/main/java/de/sebthom/eclipse/commons/ui/Tables.java:55-64 | when the other columns leave at least `minWidth` free, the columns fill the client area exactly; otherwise they overflow it |
| Tables.LastColumnAutoExpand.constructor | plugin/src/main/java/de/sebthom/eclipse/commons/ui/Tables.java:41-42 | the listener starts with no monitored columns |
| Tables.LastColumnAutoExpand.ControlResized | plugin/src/main/java/de/sebthom/eclipse/commons/ui/Tables.java:45-65 | with no columns nothing changes; a single column gets `max(minWidth, clientWidth)`; otherwise the last column gets `LastColumnWidth` of the other columns' old widths, the other columns keep their widths (unless one is the last column's object itself), every other column becomes monitored, and the listener is added only to columns that were not yet monitored, so a column registered once while monitored stays registered once |
| Tables.LastColumnAutoExpand.ResizeLast | plugin/src/main/java/de/sebthom/eclipse/commons/ui/Tables.java:55-64 | with two or more columns, the last column gets `LastColumnWidth` of the sum of the others' old widths, and every other column becomes monitored |
| Tables.LastColumnAutoExpand.WatchColumns | plugin/src/main/java/de/sebthom/eclipse/commons/ui/Tables.java:55-63 | the loop returns the sum of the first `n` columns' old widths, monitors exactly those columns in addition, changes no width, and adds the listener once to each column it newly monitors |
| Tables.LastColumnAutoExpand.Watch | plugin/src/main/java/de/sebthom/eclipse/commons/ui/Tables.java:58-61 | a column becomes monitored, and the listener is added to it only when it was not monitored before |
| Tables.RegisteredOnce | plugin/src/main/java/de/sebthom/eclipse/commons/ui/Tables.java:58-61 | a column that carried the listener once exactly when monitored still does so after the guarded registration |
| Tables.SumOfWidthsIsSum | plugin/src/main/java/de/sebthom/eclipse/commons/ui/Tables.java:55-63 | the running total of column widths is the sum of the widths |
| Buttons.SelectionAfter | plugin/src/main/java/de/sebthom/eclipse/commons/ui/Buttons.java:56-63 | the radio ends up selected, every other radio button deselected, every other control unchanged |
| Buttons.SelectRadio | plugin/src/main/java/de/sebthom/eclipse/commons/ui/Buttons.java:56-63 | the loop leaves each sibling with `SelectionAfter` its old selection: the radio is selected and no other radio button among the siblings is |
| Buttons.SelectRadioIsIdempotent | plugin/src/main/java/de/sebthom/eclipse/commons/ui/Buttons.java:56-63 | selecting the same radio again changes no control's selection |
| Logging.StatusMessage | plugin/src/main/java/de/sebthom/eclipse/commons/logging/StatusFactory.java:65-71 | a non-empty message is bound with its arguments; without one, the exception's non-empty message, else the exception's class name; nothing when there is neither |
| Logging.StatusFactory.constructor | plugin/src/main/java/de/sebthom/eclipse/commons/logging/StatusFactory.java:24-32 | the plug-in id is the bundle's symbolic name |
| Logging.StatusFactory.CreateStatus | plugin/src/main/java/de/sebthom/eclipse/commons/logging/StatusFactory.java:58-62 | code `OK` and no exception; the message is `msg` verbatim for null or empty arguments and bound otherwise |
| Logging.StatusFactory.CreateExceptionStatus | plugin/src/main/java/de/sebthom/eclipse/commons/logging/StatusFactory.java:64-77 | throws "[ex] or [msg] must be specified" exactly when the message is empty and there is no exception; otherwise code equals severity, and it carries the exception, the plug-in id and `StatusMessage` |
| Logging.StatusFactory.CreateError | plugin/src/main/java/de/sebthom/eclipse/commons/logging/StatusFactory.java:34-36 | severity `ERROR`, code `OK`, no exception, message as `createStatus` chooses it |
| Logging.StatusFactory.CreateErrorOf | plugin/src/main/java/de/sebthom/eclipse/commons/logging/StatusFactory.java:38-40 | severity and code `ERROR`; fails only on a null exception, which the type excludes; the message is the exception's message bound without arguments, or its class name |
| Logging.StatusFactory.CreateErrorWith | plugin/src/main/java/de/sebthom/eclipse/commons/logging/StatusFactory.java:42-44 | severity and code `ERROR`, the given exception, the plug-in id and the message `StatusMessage` chooses; fails with "[ex] or [msg] must be specified" exactly without message and exception |
| Logging.StatusFactory.CreateInfo | plugin/src/main/java/de/sebthom/eclipse/commons/logging/StatusFactory.java:46-48 | severity `INFO`, code `OK`, no exception, message as `createStatus` chooses it |
| Logging.StatusFactory.CreateInfoOf | plugin/src/main/java/de/sebthom/eclipse/commons/logging/StatusFactory.java:50-52 | severity and code `INFO`; fails only on a null exception, which the type excludes; exception message or class name |
| Logging.StatusFactory.CreateInfoWith | plugin/src/main/java/de/sebthom/eclipse/commons/logging/StatusFactory.java:54-56 | severity and code `INFO`, the given exception, the plug-in id and the message `StatusMessage` chooses; fails with "[ex] or [msg] must be specified" exactly without message and exception |
| Logging.StatusFactory.CreateWarning | plugin/src/main/java/de/sebthom/eclipse/commons/logging/StatusFactory.java:79-81 | severity `WARNING`, code `OK`, no exception, message as `createStatus` chooses it |
| Logging.StatusFactory.CreateWarningOf | plugin/src/main/java/de/sebthom/eclipse/commons/logging/StatusFactory.java:83-85 | severity and code `WARNING`; fails only on a null exception, which the type excludes; exception message or class name |
| Logging.StatusFactory.CreateWarningWith | plugin/src/main/java/de/sebthom/eclipse/commons/logging/StatusFactory.java:87-89 | severity and code `WARNING`, the given exception, the plug-in id and the message `StatusMessage` chooses; fails with "[ex] or [msg] must be specified" exactly without message and exception |
| Logging.ExceptionStatusIsTotal | plugin/src/main/java/de/sebthom/eclipse/commons/logging/StatusFactory.java:64-77 | a status made from an exception alone never throws, and its message is the bound exception message or the class name |
| Logging.ExceptionMessageFallback | plugin/src/main/java/de/sebthom/eclipse/commons/logging/StatusFactory.java:67-71 | an exception with a class name always yields a non-empty status message |
| DialogPages.SetMessage | plugin/src/main/java/de/sebthom/eclipse/commons/ui/DialogPages.java:19-45 | a null page or status is rejected; `ERROR` clears the message and sets the error message; `WARNING` and `INFO` set a typed message and clear the error; any other severity sets a `NONE` message and clears the error |
| DialogPages.MessageType | plugin/src/main/java/de/sebthom/eclipse/commons/ui/DialogPages.java:24-44 | `WARNING` and `INFO` map to their own message types, every other severity to `NONE` |
| DialogPages.ErrorAndMessageExclusive | plugin/src/main/java/de/sebthom/eclipse/commons/ui/DialogPages.java:24-44 | the page shows an error message exactly for `ERROR` and an ordinary message exactly otherwise |
| DialogPages.SetMessageForgetsPage | plugin/src/main/java/de/sebthom/eclipse/commons/ui/DialogPages.java:24-44 | the page's new messages depend on the status alone |
| DialogPages.SetMessageIsIdempotent | plugin/src/main/java/de/sebthom/eclipse/commons/ui/DialogPages.java:24-44 | showing a status twice is the same as showing it once |
| DialogPages.FactoryStatusesShown | plugin/src/main/java/de/sebthom/eclipse/commons/ui/DialogPages.java:24-38 | errors, warnings and information made by a status factory appear as the error message, a warning message and an information message |
| FieldEditors.MatchesDigitStarIffAllDigits | plugin/src/main/java/de/sebthom/eclipse/commons/prefs/fieldeditor/IntFieldEditor.java:35 | `\d*` accepts exactly the texts whose characters are all `0`-`9`, the empty text included |
| FieldEditors.VerifyDigits | plugin/src/main/java/de/sebthom/eclipse/commons/prefs/fieldeditor/IntFieldEditor.java:34-38 | text with a non-digit is vetoed, digit-only text keeps its verdict, and the listener never allows what was vetoed |
| FieldEditors.DeletionPasses | plugin/src/main/java/de/sebthom/eclipse/commons/prefs/fieldeditor/IntFieldEditor.java:35 | empty text is never vetoed |
| FieldEditors.ToEntryNamesAndValues | plugin/src/main/java/de/sebthom/eclipse/commons/prefs/fieldeditor/EnumFieldEditor.java:23-30 | one `{label, name}` pair per constant, in declaration order |
| FieldEditors.NamedEntries | plugin/src/main/java/de/sebthom/eclipse/commons/prefs/fieldeditor/EnumFieldEditor.java:32-34 | without a label provider, each entry's label is its value, and distinct names give distinct entries |
| UI.CenteredOrigin | plugin/src/main/java/de/sebthom/eclipse/commons/ui/UI.java:36-37 | a shell that fits lies inside the parent along that axis; the two margins differ by at most one, the extra pixel on the far side when the shell fits and on the near side when it does not |
| UI.Center | plugin/src/main/java/de/sebthom/eclipse/commons/ui/UI.java:28-39 | the size is unchanged and each coordinate is the centred origin in the parent's bounds, or the display's when the shell has no parent |
| UI.CenteredShellInsideParent | plugin/src/main/java/de/sebthom/eclipse/commons/ui/UI.java:28-39 | a shell no larger than its reference bounds ends up entirely inside them |
| UI.CenterIsIdempotent | plugin/src/main/java/de/sebthom/eclipse/commons/ui/UI.java:28-39 | centring a centred shell does not move it |
| NullAnalysis.CastNonNull | plugin/src/main/java/de/sebthom/eclipse/commons/util/NullAnalysisHelper.java:26-30 | for a non-null value, returns that value |
| NullAnalysis.CastNullable | plugin/src/main/java/de/sebthom/eclipse/commons/util/NullAnalysisHelper.java:35-38 | the same value, now nullable; casting it back yields it |
| NullAnalysis.DefaultIfNull | plugin/src/main/java/de/sebthom/eclipse/commons/util/NullAnalysisHelper.java:40-44 | the default for null, the object otherwise |
| NullAnalysis.DefaultIfNullFrom | plugin/src/main/java/de/sebthom/eclipse/commons/util/NullAnalysisHelper.java:46-50 | the same result as `defaultIfNull` with the supplied value; the supplier is asked once for null and never otherwise |
| NullAnalysis.DefaultOfNullableIsIdentity | plugin/src/main/java/de/sebthom/eclipse/commons/util/NullAnalysisHelper.java:36-44 | defaulting a value that was made nullable gives the value back |

## Left out

- TextStream.DocumentInputStream: the document is a constant sequence, so it is assumed not to change while the stream reads it. The source re-reads `getLength()` at the start of each call and returns -1 once `pos` reaches it, so a document shortened between calls is handled; but a document changed during a call (after the length is read, or between the length check of `read()` and its `getChar`) makes `getChar` throw `BadLocationException`. The source then swallows it: a throw on the first character of `read(buff, off, len)` returns -1 with `pos` already advanced, and a later throw returns a count one higher than the bytes it stored. Those paths are not modelled.
- TextStream.DocumentInputStream.ReadInto: the buffer is a non-null array; the `NullPointerException` a null `buff` raises when `buff.length` is evaluated, before `Objects.checkFromIndexSize` is entered, is not modelled.
- `InputStream.skip`, `available` and `readAllBytes` are inherited from the JDK, whose code is not part of this model. Also not modelled: UTF-8 encoding, surrogate handling and a `getCharset()` accessor, none of which the stream's code has.
- `BundleResources.extract`, `getAsStream` and `getAsString` are not modelled: they copy or read files.
- Bundles.BundleResources.GetURL: `Args.notBlank` comes from a library that is not part of this model. The model assumes it rejects exactly the strings that are empty or made only of `Character.isWhitespace` characters (`Common.IsBlank`).
- TextMarkers.Markers.constructor, TextMarkers.Markers.RemoveMarkerAtPosition, TextMarkers.Markers.SetMarkers, Logging.StatusFactory.constructor, Logging.StatusFactory.CreateErrorOf, Logging.StatusFactory.CreateInfoOf and Logging.StatusFactory.CreateWarningOf: their arguments are non-null by type, so the `Args.notNull` rejections (of `markerId`, `pos`, `annoModel`, `bundle`, `plugin`) and the `NullPointerException` of `ex.getMessage()` on a null exception are not modelled.
- `FileLocator.find` itself, and the `Path` it is given, are the parameter `find`.
- The `Args.notNull` checks of the `BundleResources` constructors are not modelled. Neither is the `NullPointerException` that a null entry among the search paths causes. Strings in the model are never null.
- `MessagesInitializer` also writes the merged values into fields by reflection, and checks afterwards that every static field is set. That part, the class loader and `Locale.getDefault()` are not modelled. The locale and the file contents are parameters.
- `Properties.load` parsing is not modelled, and neither is an `IOException` part-way through a file. A file is either missing or loaded as a whole map.
- `Markers` runs its work in a `Job`, which the model treats as a synchronous call. The `IAnnotationModelExtension.replaceAnnotations` branch is modelled as the plain-model branch, which it is equivalent to for a map.
- TextMarkers.Markers.SetMarkers: places the new markers in match order. The source takes them from a `HashMap`, whose order is unspecified. So the model fixes one order of `activeMarkers` where the source leaves it open.
- TextMarkers.Markers.SetMarkers: a `null` list of matches is modelled as the empty list, which the source treats the same way.
- Tables.LastColumnAutoExpand.ControlResized: Java `int` overflow of the width sum is not modelled, and neither is SWT's handling of negative widths.
- Tables.LastColumnAutoExpand.ControlResized: a column object listed twice is allowed; the model then states only what holds per object, which for distinct columns, as SWT's `getColumns()` returns them, is the full behaviour.
- `Tables.autoResizeColumns` only calls `TableColumn.pack()`, which is SWT code, so it is not modelled. The `synchronized` modifier of `controlResized` is not modelled either.
- `UI.center` uses mathematical integers, so `int` overflow is not modelled. The other members of `UI` query workbench services and are not modelled.
- `NLS.bind` is the parameter `bind`, and its formatting rules are not modelled. A `Status` created without an exception keeps `msg` as given, so a null message is not modelled.
- `Buttons.onSelected` only registers listeners and is not modelled.
- The label provider of `EnumFieldEditor` and `Enum.name()` are parameters. The `ComboFieldEditor` the table is passed to is not modelled.
- NullAnalysis.CastNonNull: requires a non-null value. With JVM assertions disabled, the source returns `null` unchanged.
- NullAnalysis.Supplier: returns the same value on every call. A Java `Supplier` may compute a different one each time.
