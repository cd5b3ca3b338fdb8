# Chunking pipeline of a tender-document search tool, in Dafny

This project models the part of the repository that turns the cleaned text of a
German construction tender (a "Leistungsverzeichnis" PDF) into metadata-tagged
chunks. The later pipeline in `utils/prepare_data.py` passes one chunk, holding
the whole text and the file name, through fixed stages:

1. split off the table of contents (`Inhaltsverzeichnis`);
2. split off the numbered preliminary remarks (`Zusätzliche Vorbemerkungen`);
3. split off the building description (`Baubeschreibung`), ending it at the
   first table-of-contents number;
4. cut the tender text (`Ausschreibungstext`) at the first level-1 heading of
   the table of contents, and sweep it into subchapter chunks carrying the
   current level-2 and level-3 headings;
5. move leading numbers out of the `subsection`/`subsubsection` labels;
6. drop junk chunks (table-of-contents lines, cost-summary cover sheets);
7. transliterate everything to ASCII;
8. attach a summary.

The earlier variant in `prepare_data_test.py` is modelled where it differs:
its collectors strip `section` before comparing it, the remark and description
chunks carry `number`/`Überschrift`, the subchapter sweep behaves differently
on blank and heading-less input, blank chunks are dropped by the tender stage,
numbers are split off more loosely and symmetrically (`process_data`), and
`flatten_structure` builds a keyword list.

Every value is immutable: a chunk is `Chunks.Chunk(text, meta)`, and its
metadata is an association list with Python `dict` semantics (insertion
order, replacement in place). Each regular expression is written out as a
scanner over `seq<char>` that follows Python `re` backtracking order, wrapped
as a matcher for the `finditer`/`findall` loop in `Matching.FindAll`. Whitespace
is Python's `str.isspace()` set. `\d` is read as the ASCII digits only.
`re.IGNORECASE` folds ASCII and Latin-1 letters, plus the characters that
Python's `re` treats as equal to one of them (Kelvin and Angstrom signs,
capital sharp s, dotted and dotless i, long s, Greek mu); letters of other
scripts are compared as they are.

Modules, one per file: `Text` (characters, `strip`, `re.sub(r'\s+', ' ')`,
`split`), `Meta`, `Chunks`, `Matching`, `Toc`, `Vorbemerkungen`,
`Baubeschreibung`, `Subchapters`, `Ausschreibung`, `Numbering`, `Junk`,
`Ascii`, `Summaries`, `Keywords`, `Pipeline`.

Notable behaviours of the code:
- The numbering step is not idempotent. `Numbering.UnifyNotIdempotent`
  exhibits a label that a second run changes again.
- The level-1 collector has no left word boundary, so `1.2. Titel .... 5`
  yields the heading `2. Titel` (`Toc.Level1HasNoLeftBoundary`).
- The later collectors call `.lower()` on every `section` up to the
  table-of-contents chunk, and that raises on a stored `None`. This is the
  precondition `Toc.CollectorReads`. `Pipeline.Structure` shows that the
  stages never leave such a value behind.
- The earlier `process_vorbemerkungen` skips chunks based on a top-level
  `section` key that no chunk has, so that branch never fires and is not
  modelled.

## Model

| member | source | states |
|---|---|---|
| Text.FindLiteral | utils/prepare_data.py:142-145 | The case-insensitive search returns the leftmost occurrence at or after the start, and nothing when there is none. |
| Text.Strip | utils/prepare_data.py:153-154 | `strip()` is empty exactly for blank text, never keeps whitespace at either end and never grows the text. |
| Text.Collapse | utils/prepare_data.py:192 | `re.sub(r'\s+', ' ', s)` leaves only single spaces as whitespace, keeps whether the text starts with whitespace, and is empty only for empty input. |
| Text.CollapseNoDoubleSpace | utils/prepare_data.py:192 | A collapsed text never has two spaces in a row. |
| Text.CollapseIdempotent | utils/prepare_data.py:262 | Collapsing twice is collapsing once. |
| Text.CollapseBlank | utils/prepare_data.py:262 | Collapsing keeps a text blank exactly when it was blank. |
| Text.Clean | utils/prepare_data.py:198 | A cleaned item has single spaces only and none at either end; it is empty exactly for blank input. |
| Text.CleanIdempotent | utils/prepare_data.py:271 | Cleaning twice is cleaning once. |
| Text.CleanIsJoin | utils/prepare_data.py:198 | Cleaning a text is joining its words with single spaces. |
| Text.SplitWsCollapse | utils/prepare_data.py:192 | Collapsing whitespace keeps the words of a text. |
| Text.SplitWsStrip | utils/prepare_data.py:198 | Stripping keeps the words of a text. |
| Text.SplitWs | prepare_data_test.py:814 | `split()` gives non-empty words without whitespace. |
| Text.SplitWsAppend | prepare_data_test.py:814 | Splitting two texts that meet at whitespace gives the words of the first, then those of the second. |
| Text.SplitWsWord | prepare_data_test.py:814 | A non-empty text without whitespace splits into itself alone. |
| Text.SplitWsJoin | prepare_data_test.py:814 | Splitting a space-join gives the words of each joined text, in order; no word is merged or split across texts. |
| Meta.Set | utils/prepare_data.py:167 | `{**md, k: v}` stores `v` under `k`, keeps every other key's value, replaces in place or appends. |
| Meta.SetUnique | utils/prepare_data.py:496-499 | Assigning keeps keys distinct. |
| Chunks.Emit | utils/prepare_data.py:157-172 | A wrapper emits the extracted chunks first, then the parent with its own metadata; the parent's text is replaced only when something was extracted. |
| Chunks.EmitCount | utils/prepare_data.py:203-219 | The emitted chunks count once per extracted item under the tag, and the parent counts under its own section. |
| Chunks.SameSectionsCount | utils/prepare_data.py:429-445 | Lists with the same sections position by position have the same count per section and are readable together. |
| Matching.FindAll | utils/prepare_data.py:341 | `finditer` yields ordered, non-overlapping matches, each one the matcher's match at its start, and every position where the matcher matches lies inside a yielded match. |
| Toc.TocEnd | utils/prepare_data.py:143-151 | The end is just after the first "Zusammenstellung" line (newline included) after the anchor, or the end of the text. |
| Toc.ExtractInhaltsverzeichnis | utils/prepare_data.py:141-155 | No case-insensitive anchor gives `(None, text)`. Otherwise the table of contents is `text[start:end].strip()` (never empty) and the rest is `(text[:start] + text[end:]).strip()`, with `start` the first anchor. |
| Toc.TocStep | utils/prepare_data.py:157-172 | A chunk with the anchor becomes the tagged table of contents followed by the parent with the rest; any other chunk passes unchanged. |
| Toc.ProcessInhaltsverzeichnis | utils/prepare_data.py:157-172 | The output has one more chunk per chunk holding the anchor, and that many more table-of-contents chunks. |
| Toc.NumberEnd | utils/prepare_data.py:229 | The greedy number group ends at a digit, with no further `.digit` group after it. |
| Toc.LazyTitleEnd | utils/prepare_data.py:229 | The lazy title stops at the first position where the dot leader and page number can follow. |
| Toc.TitleAtLazy | utils/prepare_data.py:229 | The title starts after the whitespace and ends at the first position on the line where a dot leader and page number follow; only when the line has none does `\s+` give back one character, which becomes the title. |
| Toc.TocLineAt | utils/prepare_data.py:229 | A line matches exactly when a number with its dot and whitespace and then a title with its dot leader follow. The groups are the number as written and the lazy title, and the match ends after the page number. The number is dotted, or digit-only at level 1, and the title is non-empty. |
| Toc.TocLines | utils/prepare_data.py:229-230 | `findall` yields ordered matches covering every matching position. |
| Toc.Headings | utils/prepare_data.py:230-232 | Heading k is `"<num>. <title>"` made from line match k, one per match and in order; each has the expected shape. |
| Toc.ReplaceNewlines | utils/prepare_data.py:228 | Newlines become spaces, position by position. |
| Toc.FirstTocChunk | utils/prepare_data.py:226-233 | The collectors read only the first chunk whose section lowers to "inhaltsverzeichnis", and none when there is none. |
| Toc.ReadableReads | utils/prepare_data.py:227 | When no `section` is `None`, the collectors can read every chunk they reach. |
| Toc.TocHeadings | utils/prepare_data.py:224-234 | The headings are those of the first table-of-contents chunk, its newlines turned into spaces, and none without such a chunk; every heading has a dotted number. |
| Toc.TocHeadingsLevel1 | utils/prepare_data.py:299-309 | The headings are the level-1 ones of the first table-of-contents chunk, whitespace collapsed, and none without such a chunk; every heading has a digit-only number. |
| Toc.TocLineLocal | utils/prepare_data.py:304 | The line patterns have no left boundary: two texts that agree from a position on match there alike, whatever comes before. |
| Toc.Level1HasNoLeftBoundary | utils/prepare_data.py:304 | On `1.2. Titel .... 5` the level-1 pattern finds exactly the heading `2. Titel`. |
| Vorbemerkungen.FindAnchor | utils/prepare_data.py:178-181 | The search returns the leftmost anchor at or after the start, and nothing when there is none. |
| Vorbemerkungen.AnchorAt | utils/prepare_data.py:178 | The anchor matches exactly when "Zusätzliche", whitespace and "Vorbemerkungen" follow, case-insensitively. |
| Vorbemerkungen.Bounds | utils/prepare_data.py:181-187 | The remarks run from the first anchor to the first "Baubeschreibung" after it, or to the end. |
| Vorbemerkungen.ItemAt | utils/prepare_data.py:193 | An item is a digit-only number with a body that ends where the next `\s+\d+\.` starts, or at the end. |
| Vorbemerkungen.ItemAtMatch | utils/prepare_data.py:193 | An item matches exactly when digits, a dot and whitespace follow. The number is the whole digit run; the body starts after the whitespace and ends at the first place where the next item starts. |
| Vorbemerkungen.ListItems | utils/prepare_data.py:194-199 | One `(number, text)` pair per item match, the number digits only, the text cleaned. |
| Vorbemerkungen.ExtractVorbemerkungen | utils/prepare_data.py:177-201 | No anchor gives `([], text)`. Otherwise the items of the collapsed span come with the rest `(text[:start] + text[end:]).strip()`. |
| Vorbemerkungen.EndMarkerSurvives | utils/prepare_data.py:190-191 | When the span ends at "Baubeschreibung", that marker is still in the rest. |
| Vorbemerkungen.RemarkMeta | prepare_data_test.py:355-362 | A remark chunk's metadata has the section, and a `number` only in the earlier version; every other key is copied. |
| Vorbemerkungen.VorbemerkungenStep | utils/prepare_data.py:203-219 | One tagged chunk per item, in order, then the parent; its text is replaced only when items were found. |
| Vorbemerkungen.ProcessVorbemerkungen | utils/prepare_data.py:203-219 | The output has one more chunk per item found in any chunk, tagged or not; the remark count grows by exactly that, and every other section's count is unchanged. |
| Vorbemerkungen.NoAnchorNoChange | utils/prepare_data.py:182-183 | Without anchors the stage changes nothing. |
| Baubeschreibung.HeadingNumber | utils/prepare_data.py:245-250 | A heading contributes the longest dotted-number prefix followed by a dot, and nothing when it has none. |
| Baubeschreibung.HeadingNumberLongest | utils/prepare_data.py:245-250 | A heading has no number exactly when no dotted-number-and-dot prefix exists; otherwise the number is such a prefix and no longer one exists. |
| Baubeschreibung.EndNumbersEmpty | utils/prepare_data.py:252-253 | The end numbers are empty exactly when no heading starts with a number. |
| Baubeschreibung.Bounds | utils/prepare_data.py:236-257 | No anchor gives nothing. Otherwise the description runs from the anchor's end to the earliest end number followed by whitespace, or to the end. |
| Baubeschreibung.NoHeadingsRunsToEnd | utils/prepare_data.py:252-253 | Without headings the description runs to the end of the text. |
| Baubeschreibung.SubsectionAt | utils/prepare_data.py:263-266 | An item is `N.N header: body` with a header free of colons and a body ending where the next item starts. |
| Baubeschreibung.SubsectionAtMatch | utils/prepare_data.py:263-266 | An item matches exactly when a number pair, a header ending in a colon and whitespace follow. The groups are the pair, the header up to the first colon, and the body from after the whitespace to the first place where the next item starts. |
| Baubeschreibung.Items | utils/prepare_data.py:267-272 | Item k is made from match k, one per match and in order: number k, header k stripped, body k cleaned. |
| Baubeschreibung.ExtractBaubeschreibung | utils/prepare_data.py:236-274 | No anchor gives `([], text)`. Otherwise the items of the collapsed span come with the rest `(text[:start] + text[end:]).strip()`. |
| Baubeschreibung.EndNumberSurvives | utils/prepare_data.py:257-260 | When the span ends at a number, that number is still in the rest. |
| Baubeschreibung.ItemMeta | prepare_data_test.py:493-501 | A description chunk's metadata has the section, and `number` and `Überschrift` only in the earlier version; every other key is copied. |
| Baubeschreibung.BaubeschreibungStep | utils/prepare_data.py:276-294 | One tagged chunk per item, in order, then the parent; its text is replaced only when items were found. |
| Baubeschreibung.ProcessWith | utils/prepare_data.py:280-294 | The count of description chunks grows by the items found, and every other section's count is unchanged. |
| Baubeschreibung.ProcessBaubeschreibung | utils/prepare_data.py:276-294 | The later stage takes its end numbers from the headings of the first table-of-contents chunk, adds no `number` or `Überschrift` key, and keeps every other section's count. |
| Baubeschreibung.ProcessBaubeschreibungLabelled | prepare_data_test.py:469-513 | The earlier stage returns `None` exactly when the table of contents gives no heading. |
| Subchapters.LevelEnd | utils/prepare_data.py:337 | A level alternative of depth two or three has exactly that many dots, starts with a digit and ends with a dot. |
| Subchapters.SubheadingAt | utils/prepare_data.py:336-339 | A heading match has a trimmed level with two or three dots and a non-empty title without a newline. |
| Subchapters.Subheadings | utils/prepare_data.py:341 | The heading matches are ordered, cover every matching position, and start at increasing positions. |
| Subchapters.Step | utils/prepare_data.py:370-375 | A level-2 heading sets `subsection` and resets `subsubsection`; a level-3 heading sets only `subsubsection`. |
| Subchapters.PieceMeta | utils/prepare_data.py:363-367 | A piece's metadata is the base with the current `subsection`/`subsubsection`; every other key is copied. |
| Subchapters.Emitted | utils/prepare_data.py:359-368 | A piece gives a chunk exactly when it is not blank, and then its stripped text. |
| Subchapters.Partition | utils/prepare_data.py:348-381 | Cutting the text at every heading start gives pieces that concatenate back to the text. |
| Subchapters.SweepIsReference | utils/prepare_data.py:348-392 | The left-to-right sweep equals the reference definition: the non-blank pieces, in order, each with the state after the heading it starts at. |
| Subchapters.SubsectionIsLastLevel2 | utils/prepare_data.py:371-373 | The `subsection` after heading k is the label of the last level-2 heading so far, or `None`. |
| Subchapters.SubsubsectionIsLatest | utils/prepare_data.py:373-375 | The `subsubsection` after heading k is the label of heading k when it is level 3, and `None` otherwise. |
| Subchapters.ExtractSubchapters | utils/prepare_data.py:331-392 | In the later version blank input comes back as it is. Without headings the result is one stripped chunk; the earlier version (prepare_data_test.py:613-623) then sets `subsection`/`subsubsection` to `None`. Otherwise the result is the reference definition. Every chunk keeps the base's `section`. |
| Subchapters.Reference | utils/prepare_data.py:352-390 | The reference definition gives at most one chunk per piece, so at most one more than the remaining headings, and every chunk carries the base's `section`. |
| Ausschreibung.SpaceSplitExists | utils/prepare_data.py:316-318 | A space in a heading matches any non-empty whitespace run, ending anywhere inside it. |
| Ausschreibung.FindHeading | utils/prepare_data.py:319-322 | The search returns the leftmost position where some heading matches. |
| Ausschreibung.ExtractAusschreibungstext | utils/prepare_data.py:311-329 | No headings or no match gives `(None, text)`. Otherwise the tender text is `text[start:].strip()` and the rest is `text[:start].strip()`, with `start` the leftmost match. |
| Ausschreibung.ExactHeadingMatches | utils/prepare_data.py:316-318 | A heading written word for word with single spaces is found. |
| Ausschreibung.TenderStep | utils/prepare_data.py:398-414 | Bypassed sections pass unchanged; the earlier version drops a blank chunk (prepare_data_test.py:714-717); without tender text the chunk passes unchanged. |
| Ausschreibung.TenderStepShape | utils/prepare_data.py:406-412 | The subchapter chunks of the tender text come first, all tagged as tender text, then the parent with the rest if that is not empty. |
| Ausschreibung.TenderStepReadable | utils/prepare_data.py:400-414 | A chunk whose `section` is not `None` yields only chunks whose `section` is not `None`. |
| Ausschreibung.TenderStepCount | utils/prepare_data.py:400-402 | The stage never creates or drops a table-of-contents, remark or description chunk. |
| Ausschreibung.TenderAll | utils/prepare_data.py:398-416 | The counts of the bypassed sections are kept; without headings the later version changes nothing; readability is kept. |
| Ausschreibung.ProcessAusschreibungstext | utils/prepare_data.py:394-416 | The stage keeps the counts of the three bypassed sections, and keeps every `section` readable. |
| Ausschreibung.NoTocPassesThrough | utils/prepare_data.py:394-416 | Without a table-of-contents chunk the later stage changes nothing. |
| Numbering.ExtractNumberingAndRemainder | utils/prepare_data.py:421-427 | A number is found exactly when the text matches `\s*[\d.]+\s+`. Then the token is digits and dots and the rest is stripped from the first line; otherwise the text comes back stripped. |
| Numbering.NumberingRoundTrip | utils/prepare_data.py:421-427 | A number, a space and a trimmed one-line label split back into that number and label. |
| Numbering.UnifyMeta | utils/prepare_data.py:429-445 | A truthy numbered `subsection` gives `subsection_number` and its rest; `subsubsection` only loses its number; non-matching values and every other key are untouched. |
| Numbering.UnifyNumberings | utils/prepare_data.py:429-445 | Every chunk keeps its text and has its metadata unified. |
| Numbering.UnifyKeepsSections | utils/prepare_data.py:429-445 | The step never changes a section. |
| Numbering.UnifyNotIdempotent | utils/prepare_data.py:433-437 | For `subsection = "1.1. 2 Foo"`, a second run strips the leading "2" off the label again. |
| Numbering.ExtractNumbering | prepare_data_test.py:741-750 | Empty input gives `(None, input)`. A number is found exactly when the stripped text starts with a digit or dot; then the token is digits and dots and the rest is the first line of what follows, stripped; otherwise the text comes back stripped. |
| Numbering.NumberingRoundTripLegacy | prepare_data_test.py:741-750 | A number, any whitespace, and a trimmed label that does not start with a digit or dot split back into that number and label. |
| Numbering.SplitKey | prepare_data_test.py:757-762 | A truthy numbered value gives `<key>_number` and its rest; otherwise nothing changes; other keys are untouched. |
| Numbering.ProcessDataMeta | prepare_data_test.py:753-763 | Only the two labels and their number keys can change. |
| Numbering.ProcessDataSubsection | prepare_data_test.py:757-762 | A numbered `subsection` gives `subsection_number` and its rest, as the first key processed. |
| Numbering.ProcessDataSubsubsection | prepare_data_test.py:757-762 | A numbered `subsubsection` gives `subsubsection_number` and its rest, unlike the later version. |
| Numbering.ProcessData | prepare_data_test.py:753-763 | Every chunk keeps its text and has both labels split. |
| Junk.SingleLineEndsWithDot | utils/prepare_data.py:451-467 | A single-line junk text starts with a digit and ends with a dot. |
| Junk.RemoveJunk | utils/prepare_data.py:450-486 | Every kept chunk is an input chunk that is not junk, and every input chunk that is not junk is kept. |
| Junk.RemoveJunkCounts | utils/prepare_data.py:456-484 | Each chunk that is not junk is kept as often as the input holds it, repeated chunks included, and no junk chunk is kept. |
| Junk.RemoveJunkKeepsLong | utils/prepare_data.py:457-460 | Blank chunks and chunks of 600 or more stripped characters are always kept. |
| Junk.RemoveJunkSubsequence | utils/prepare_data.py:455-486 | The output is an order-preserving subsequence of unchanged chunks. |
| Junk.RemoveJunkIdempotent | utils/prepare_data.py:450-486 | Filtering twice is filtering once. |
| Junk.RemoveJunkSections | utils/prepare_data.py:481-484 | Dropping chunks never raises a section's count and keeps sections readable. |
| Ascii.AsciiMeta | utils/prepare_data.py:495-499 | Keys become distinct; a key is found exactly when some original key transliterates to it, and then holds the transliterated string of the last such value. |
| Ascii.EnsureAscii | utils/prepare_data.py:491-504 | Same length and order; the text and the metadata are transliterated. |
| Ascii.AsciiKeepsValues | utils/prepare_data.py:495-499 | When keys are distinct and transliterate to themselves, every key keeps its value, turned into a string (`None` becomes "None") and transliterated. |
| Ascii.CollisionLaterWins | utils/prepare_data.py:496-499 | Two keys that transliterate alike leave one entry holding the later value. |
| Summaries.SplitJoin | utils/prepare_data.py:537 | Splitting a newline-join of newline-free lines gives the lines back. |
| Summaries.MetaLines | utils/prepare_data.py:524-535 | Every line is `key: value` for a shown key the metadata has, and every such key has its line. |
| Summaries.MetaLinesOrder | utils/prepare_data.py:524-535 | The lines follow the order of the shown keys, exactly one per key the metadata has: line i belongs to the i-th present key. |
| Summaries.MetaTextLines | utils/prepare_data.py:524-537 | With tidy values the block is exactly the shown lines, one per present key. |
| Summaries.SummaryOf | utils/prepare_data.py:539-548 | Under 300 tokens the summary is the stripped text, a blank line, "[METADATEN]" and the block; otherwise it is the summarizer's answer for the stripped text and the block. |
| Summaries.ShortSummaryLines | utils/prepare_data.py:542-543 | A short summary, read line by line, is the text's lines, an empty line, the header, then the metadata lines. |
| Summaries.MakeSummaries | utils/prepare_data.py:518-552 | Same length and order, with text and metadata untouched. |
| Keywords.KeywordsOf | prepare_data_test.py:801-815 | No keyword is empty or holds whitespace. |
| Keywords.KeywordsAreFieldWords | prepare_data_test.py:801-815 | The keywords are the words of the kept fields, field after field in the fixed order. |
| Keywords.SkippedFieldAddsNothing | prepare_data_test.py:810-813 | A field that is `None`, empty or "None" adds no keyword, as if it were missing. |
| Keywords.FlattenStructure | prepare_data_test.py:797-817 | Same length and order; each chunk is kept unchanged beside its keywords. |
| Pipeline.Seed | utils/prepare_data.py:128-135 | The reader's single chunk holds the file name and belongs to no section. |
| Pipeline.TocReadable | utils/prepare_data.py:157-172 | The table-of-contents stage leaves no `section` of `None`. |
| Pipeline.VorbemerkungenReadable | utils/prepare_data.py:203-219 | The remarks stage leaves no `section` of `None`. |
| Pipeline.BaubeschreibungReadable | utils/prepare_data.py:276-294 | The description stage leaves no `section` of `None`. |
| Pipeline.Structure | utils/prepare_data.py:566-581 | Stages 2 to 7, in order, keep every `section` readable, and add at most one table-of-contents chunk per input chunk holding the anchor. |
| Pipeline.AtMostOneToc | utils/prepare_data.py:566-581 | A document yields at most one table-of-contents chunk. |
| Pipeline.PrepareData | utils/prepare_data.py:556-589 | After transliteration and summaries every chunk has distinct metadata keys and only string values. |

## Left out

- Reading and line-cleaning the PDF (`read_and_clean_pdf`, `process_pdf`): file and PDF-library I/O. The stages start from the chunk the reader returns (`Pipeline.Seed`).
- `clean_metadata`: it relies on Unicode decomposition tables. The file name is taken as given.
- The `unidecode` transliteration itself: it is the function parameter `u` of `Ascii.EnsureAscii`.
- `count_tokens`: it uses the tiktoken library, or a floating-point fallback. It is the parameter `countTokens`.
- The summarizer (an LLM call over the network): it is the parameter `summarize`. The earlier `make_summaries` is nothing but that call and is not modelled.
- The earlier `prepare_data` driver: it calls a function that is commented out.
- The vector store, the server and the UI (`utils/db_management.py`, `utils/pipeline.py`, `server.py`, `Suche.py`, `pages/`, `chunking_test.py`).
- `re.IGNORECASE` and `str.lower()` outside Latin-1: letters of other scripts are not folded. The fixed literals the pipeline compares are Latin-1, but the tender stage searches for table-of-contents headings (utils/prepare_data.py:316-322), and a heading may hold letters of other scripts; for those the model's comparison is case-sensitive.
- `\d` on Unicode decimal digits other than `0`-`9` (Arabic-Indic, Devanagari, fullwidth and so on): Python 3 matches them, the model does not. This affects every pattern with `\d`: utils/prepare_data.py:193, 229, 245, 264, 304, 337, 422 and 471, and the earlier numbering split at prepare_data_test.py:744. The junk filter's `[0-9]` (utils/prepare_data.py:452) is ASCII in Python too.
- Numbering.ExtractNumberingAndRemainder: a number token holds ASCII digits and dots only; Python's `[\d\.]+` also takes other Unicode decimal digits.
- Numbering.ExtractNumbering: a number token holds ASCII digits and dots only; Python's `[\d\.]+` also takes other Unicode decimal digits.
- The earlier collectors' `print` calls, and the early `return` with a message in the earlier `process_baubeschreibung` (modelled as `None`).
- Pipeline.AtMostOneToc: stops before the ASCII stage. The transliteration is a parameter and could rename the `section` key.
- Pipeline.PrepareData: states nothing about chunk texts. Their content depends on every stage and on the parameters.
- Summaries.MetaTextLines: holds only for tidy values (non-empty, one line, no trailing whitespace). Otherwise `strip()` or a newline inside a value changes the line structure.
- Subchapters.Reference: bounds the number of chunks, but does not count the non-blank pieces exactly.
