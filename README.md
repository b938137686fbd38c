# Lattes CV analyser: extraction, tallies and summaries

This project models the logic core of a browser tool that reads the plain-text dump of
Brazilian Lattes CVs and builds one researcher profile per CV. A profile holds:

- the name;
- the titles of the journal articles whose year lies in a chosen window, deduplicated per CV by a fold key;
- the current institution and the nationality;
- the academic degrees and the areas of activity (major area, area, sub-area);
- the known languages;
- the committee counts;
- the co-author records.

From a batch of profiles the tool builds:

- the chart tallies: institutions, nationalities, degree kinds, languages;
- the co-authorship network: nodes are authors counted by appearance, edges are unordered author pairs weighted by shared records;
- the summary counters: unique articles across CVs, total committees, unique institutions;
- the sorted list of unique articles and the CSV text.

Each regular expression of the source is modelled as an explicit scanner over `seq<char>`.
These scanners follow JavaScript's leftmost, backtracking semantics. Where a greedy run is
followed by a character outside its class, the scanner is deterministic. A global `exec` loop
becomes a scan function: a lemma states that the scan reports exactly the matches, in order.

The code works in three styles, and the model follows each:

- Pure chains of matches become functions with lemmas: the name, nationality, year, fold key
  and venue cleanup.
- Loops that push into arrays, grow sets or maps, or reassign a candidate become methods. Each
  method is proved against a specification function, and the properties are proved about that
  function. These loops include the `exec` loops, the entry slicing, the title cascade, the
  article and collaboration filters, the institution search, the degree, area, language and
  committee extractors, the chart `forEach` tallies, the network maps, the ui.js aggregates and
  the CSV building.
- JavaScript `Map`s and counting objects are tables: sequences of key/count entries in
  insertion order (module `Tally`).

Modules, leaves first:

- `Text`: trimming, whitespace collapse, splitting, counting, string order.
- `Segments`: the `section ... (?=stop|$)` captures and `\s*([^X]+)` captures.
- `FoldKey`: the two title keys.
- `Year`, `Titles`, `Authors`: the per-entry fields.
- `Sections`: article blocks and numbered entries.
- `Dedup`: first-per-key filtering and "push if new" lists.
- `Articles`, `Collaborations`, `Person`, `Institution`, `Degrees`, `Areas`, `Languages`, `Committees`.
- `Curriculum`: the profile.
- `Tally`, `Charts`, `Network`, `Summary`.

Behaviour of the code that is easy to miss:

- The ui.js title key omits the Unicode-dash step that `normalizarTitulo` applies. Both keys
  are modelled, and `FoldKey.KeysDisagreeOnDashes` exhibits a title on which they differ.
- The CSV writes the counts unquoted, and does not escape quotes or line breaks inside fields.
- `Doutorado` also matches inside `Pós-Doutorado`. A post-doctorate with an area is therefore
  listed a second time, as a doctorate, whenever that inner match is the first doctorate match
  of the section.
- The upper-case venue pattern of `limparRevistaDoTitulo` can never fire.
- The area pattern reads the major area's value, and misses an `Área:` label at the start of a
  line (see Findings). The area list follows the code as written; the list the corrected pattern
  would give is kept beside it.

## Model

| member | source | states |
|---|---|---|
| Year.ExtractYear | extractor.js:28-33 | null exactly when no standalone 4-digit token starting 19 or 20 occurs; otherwise the value of such a token, in [1900, 2099], with no token after it |
| Year.ScanComplete | extractor.js:29-31 | the global match scan reports every year token from the start position on, in increasing order, and nothing else |
| Year.NoOverlap | extractor.js:29 | two year tokens never overlap, since no word boundary lies inside a token |
| FoldKey.TitleKey | extractor.js:17-25 | null/undefined give the empty key; every key holds only `a-z`, `0-9`, space and `-`, with no edge or double spaces |
| FoldKey.UiKey | ui.js:25-30 | the ui.js key is well folded in the same sense |
| FoldKey.FoldFixes | extractor.js:19-24 | each step of the fold (lower-case, accent strip, dash fold, scrub, collapse, trim) leaves a well-folded key unchanged |
| FoldKey.TitleKeyIdempotent | extractor.js:17-25 | `normalizarTitulo` is idempotent, and its keys are their own ui.js keys |
| FoldKey.UiKeyIdempotent | ui.js:49-54 | the ui.js key is idempotent |
| FoldKey.KeysAgreeWithoutDashes | extractor.js:21 | on every title without a Unicode dash the two keys coincide |
| FoldKey.KeysDisagreeOnDashes | ui.js:25-30 | a title with U+2010 gets `-` in one key and a space in the other, so the two keys differ |
| Titles.Cleanup | extractor.js:122-141 | the title is returned as it is, or cut before a glued venue clause and trimmed |
| Titles.CapsVenueIsGlued | extractor.js:127-137 | wherever the upper-case venue pattern matches, the case-insensitive one matches too |
| Titles.CapsBranchUnreachable | extractor.js:134-138 | the second replacement of `limparRevistaDoTitulo` never changes the title |
| Titles.CleanupCuts | extractor.js:126-131 | the cleanup cuts at the leftmost glued venue and trims, or keeps a title that has none |
| Titles.TitleShape | extractor.js:39-119 | an empty entry gives no title; any title is trimmed and holds fewer than two `;`; an accepted method-1 candidate is the result |
| Titles.CascadeFirst | extractor.js:54-81 | when method 1 accepts a candidate, methods 2 to 4 are not consulted |
| Titles.CascadeSecond | extractor.js:85-93 | method 2 decides when method 1 finds nothing |
| Titles.CascadeThird | extractor.js:96-105 | method 3 decides when methods 1 and 2 find nothing |
| Titles.CascadeFourth | extractor.js:108-116 | otherwise the result is method 4's |
| Titles.FirstTitlePart | extractor.js:54-81 | the loop over the parts after the authors returns the first accepted, cleaned candidate |
| Titles.ExtractTitle | extractor.js:39-119 | the method computes exactly the cascade `TitleOf` |
| Sections.FixedScanSound | extractor.js:150-157 | every marker position reported is a match, positions grow by at least the marker's width, and none is reported only when there is no match |
| Sections.FindAll | extractor.js:150-157 | the `exec` loop collects exactly the marker scan |
| Sections.SectionsOf | extractor.js:146-205 | blocks are trimmed and non-empty, there is at most one per marker, and there are none without a marker |
| Sections.SectionsAreBlocks | extractor.js:146-205 | the marker positions are increasing, and the result is, in order, the present blocks of the marker-to-marker sections, the last running to the end of the text |
| Sections.BlocksOfSections | extractor.js:178-202 | after `n` markers the loop holds the present blocks of the first `n` sections |
| Sections.FirstStop | extractor.js:193-196 | the closing-heading search finds the leftmost closing heading, or reports none only when none follows |
| Sections.CutAtStop | extractor.js:193-196 | the cut block is a prefix with no closing heading inside, ending at one or at the end |
| Sections.CutAtStopAt | extractor.js:193-196 | a prefix ending at the first closing heading, or at the end when there is none, is the cut block |
| Sections.OrdemLabel | extractor.js:186-187 | the label search finds the leftmost `Ordem Cronológica` line, or reports none only when there is none |
| Sections.FirstOrdemAt | extractor.js:186-187 | the capture starts after the leftmost label line |
| Sections.NoOrdemNoBlock | extractor.js:189 | a section without a label line yields no block |
| Sections.BlockBetween | extractor.js:186-200 | with the leftmost label and the first closing heading after it, the block is the trimmed text between them when that is non-empty, and nothing otherwise |
| Sections.CollectSections | extractor.js:146-205 | the method computes exactly `SectionsOf` |
| Sections.CollectBlocks | extractor.js:178-202 | the loop over the markers computes the block list of all sections (`BlocksUpTo` over every marker) |
| Sections.AddBlock | extractor.js:179-201 | one loop step extends the block list of the first `i` sections to that of the first `i + 1` |
| Sections.NextNumberLineFirst | extractor.js:213-218 | the next numbering line found is one, and no numbering line lies before it |
| Sections.NumberScanSound | extractor.js:213-218 | every reported mark is a line consisting of `<digits>.` |
| Sections.NumberScanEmpty | extractor.js:213-218 | the scan reports nothing exactly when no line consists of `<digits>.` |
| Sections.FindNumberLines | extractor.js:213-218 | the `exec` loop collects exactly the numbering-line scan |
| Sections.EntriesOf | extractor.js:208-230 | every entry is trimmed and non-empty |
| Sections.EntriesBetweenNumberLines | extractor.js:208-230 | the marks found are increasing numbering lines, and the entries are, in order, the trimmed non-empty texts between one numbering line and the next (or the end) |
| Sections.ChunksBetweenMarks | extractor.js:222-228 | after `n` marks the loop holds the non-empty chunks of the first `n` marks |
| Sections.NoNumberNoEntries | extractor.js:220 | a block without a numbering line has no entries |
| Sections.SplitEntries | extractor.js:208-230 | the method computes exactly `EntriesOf` |
| Sections.CollectChunks | extractor.js:222-228 | the slicing loop computes the chunk list of all marks (`ChunksUpTo` over every mark) |
| Sections.AddChunk | extractor.js:223-227 | one loop step extends the chunk list of the first `i` marks to that of the first `i + 1` |
| Authors.NormAuthor | extractor.js:341-347 | the normalised name is trimmed |
| Authors.NormAuthorSlice | extractor.js:341-347 | the normalised name is a piece of the name as written |
| Authors.NormAuthorPlain | extractor.js:345 | a name whose trimmed text has no leading digits followed by `.` is only trimmed |
| Authors.NormAuthorStripsNumbering | extractor.js:345 | for every leading `digits "."` the digits, the dot and the spaces after them are removed and the rest is trimmed |
| Authors.NormAuthorSample | extractor.js:345 | `12. SILVA, J.` becomes `SILVA, J.` |
| Authors.KeepValidExactly | extractor.js:362-364 | a name is kept exactly when it is longer than 2 and contains a comma |
| Authors.AuthorsOf | extractor.js:349-367 | an empty entry has no authors, and every author is valid |
| Authors.NoSeparatorNoAuthors | extractor.js:357 | an entry whose line has no ` . ` has no authors |
| Authors.AuthorsBeforeSeparator | extractor.js:359-364 | otherwise the authors are the valid normalised `;`-pieces of the text before the first ` . ` |
| Articles.Accepted | extractor.js:246-251 | an entry passes exactly when its year is in the window and its title has at least 10 characters, and it then yields that title and year |
| Articles.TitlesFromWindow | extractor.js:246-251 | every kept title is the accepted title of an entry in the year window, at least 10 characters long |
| Articles.DistinctKeys | extractor.js:253-259 | no two kept titles share a `normalizarTitulo` key |
| Articles.NonEmptyKeys | extractor.js:254 | no kept title has the empty key |
| Articles.FirstSeenKept | extractor.js:256-259 | the first entry offering a key has its own literal title kept, and later entries with that key add nothing |
| Articles.NoBlocksNoArticles | extractor.js:232-264 | a CV without article blocks yields no titles |
| Articles.Offer | extractor.js:245-254 | the entry's accepted title and key, when the key is not empty |
| Articles.VisitStep | extractor.js:256-259 | one entry's title is kept exactly when its key is not among the keys seen |
| Articles.VisitEntries | extractor.js:245-260 | the inner loop extends the kept titles and the seen keys exactly as the first-per-key filter does |
| Articles.ExtractArticles | extractor.js:232-264 | the result is the first-per-key titles of all entries, and the count equals the number of titles |
| Collaborations.RecordOfMeaning | extractor.js:379-392 | an entry gives a record exactly when its title is accepted and it has at least two authors |
| Collaborations.RecordsFromEntries | extractor.js:379-392 | every record comes from an in-window entry with an accepted title and at least two authors |
| Collaborations.RecordsAppend | extractor.js:375-395 | records are not deduplicated: two blocks give the records of both, repeats included |
| Collaborations.RepeatedEntryTwice | extractor.js:375-395 | a repeated entry gives its record twice while `extrairArtigos` keeps its title once |
| Collaborations.Visit | extractor.js:379-392 | the record of one entry, when it passes the filters |
| Collaborations.CollectRecords | extractor.js:378-394 | the inner loop appends the records of one block's entries, in order |
| Collaborations.ExtractCollaborations | extractor.js:369-398 | the method computes exactly the records of all entries of all blocks |
| Person.NameOf | extractor.js:6-14 | the name after the `Identificação ... Nome` label when it occurs, else the first line with two or more capitalised words, else the placeholder; always trimmed |
| Person.CapitalisedShape | extractor.js:12-13 | a capitalised name starts with a capital and has a space further on |
| Person.CleanNameKeeps | extractor.js:8-9 | a label line with no registration label and no edge spaces is taken whole |
| Person.NationalityOf | extractor.js:404-407 | trimmed, one line, and the placeholder when the label is missing |
| Person.NationalityOnNextLine | extractor.js:405-406 | with the label followed by a line break, the nationality is the next line, trimmed |
| Institution.InstitutionOf | extractor.js:266-310 | the placeholder, or a trimmed name longer than 5; the placeholder without the professional section |
| Institution.NextCurrentLeftmost | extractor.js:272-276 | the period scan finds the leftmost `YYYY - Atual`, and reports none only when none is left |
| Institution.FoundFromPeriods | extractor.js:278-306 | every institution found is a trimmed name longer than 5, and is what one of the periods found by the scan yields |
| Institution.FirstPeriodWins | extractor.js:309 | the current institution is the one from the first period that yields any |
| Institution.NoPeriodNoInstitution | extractor.js:272-309 | a section without a period names no institution |
| Institution.LineInstitutionShape | extractor.js:281-305 | a skipped line names nothing; a named institution is the trimmed text before some point of the trimmed line |
| Institution.SampleLineNames | extractor.js:291-296 | the line `Escola Y, RS, Brasil` names `Escola Y` |
| Institution.SearchLines | extractor.js:281-307 | the line loop, with its `break`, returns the first line in nearest-first order that names an institution |
| Institution.VisitPeriod | extractor.js:277-307 | one period contributes the institution named in the 500 characters before it, if any |
| Institution.ScanPeriods | extractor.js:272-307 | the `exec` loop collects one result per period, in order |
| Institution.ExtractInstitution | extractor.js:266-310 | the method computes exactly `InstitutionOf` |
| Degrees.NextMatchFirst | extractor.js:430 | the next match of a degree pattern is the leftmost one |
| Degrees.DegreeScanSound | extractor.js:428-438 | every degree the scan reports has the pattern's kind and is the record of one of its matches |
| Degrees.DegreeScanEmpty | extractor.js:428-438 | the scan reports nothing exactly when the pattern matches nowhere |
| Degrees.OngoingMarked | extractor.js:420-435 | a match through the optional `em andamento` group marks the degree as in progress |
| Degrees.NoAreaNotOngoing | extractor.js:424-426 | the patterns without a capture give an empty area and are never in progress |
| Degrees.RecordArea | extractor.js:432 | an area found by a pattern with a capture is trimmed and holds neither a line break nor a full stop |
| Degrees.PostdocAlsoDoctorate | extractor.js:420-424 | a post-doctorate followed by ` em <area>` is also a match of the doctorate pattern, capturing that area |
| Degrees.PostdocListedAsDoctorate | extractor.js:420-438 | when that inner match is the first doctorate match of the section, a doctorate with the post-doctorate's area is in the degree list |
| Degrees.FirstRecordListed | extractor.js:428-438 | the record of a pattern's first match is in the degree list |
| Degrees.ScannedListed | extractor.js:428-438 | whatever a pattern's scan finds is in the degree list |
| Degrees.DegreesOfKind | extractor.js:428-438 | a kind's degrees in the list are exactly what its own scan finds |
| Degrees.DegreesOfSound | extractor.js:419-438 | every listed degree is a match of its own pattern in the section |
| Degrees.NoSectionNoDegrees | extractor.js:413-414 | without the section heading there are no degrees |
| Degrees.ScanKind | extractor.js:428-438 | the `exec` loop of one pattern collects exactly its scan |
| Degrees.ScanKinds | extractor.js:428-438 | the patterns run in order, each appending its matches |
| Degrees.ExtractFormation | extractor.js:409-441 | the method computes exactly the degree list |
| Areas.ListsExactly | extractor.js:457-482 | each list, as written, holds every non-empty value its pattern finds on some line, each once, and nothing else; so does the list of the corrected area pattern |
| Areas.LineValueListed | extractor.js:464-481 | a value found on a line is listed, by the as-written pattern in the area list and by the corrected one in the intended list |
| Areas.SubAreasHaveNoStop | extractor.js:462 | a sub-area holds no full stop |
| Areas.NoSectionNoAreas | extractor.js:443-452 | without the section heading all three lists are empty |
| Areas.AreaAsWrittenTakesMajor | extractor.js:461 | as written, the area pattern on `Grande área: X / Área: Y` yields `X` |
| Areas.AreaAsWrittenReadsMajor | extractor.js:460-461 | on any line starting `Grande área:` with a value, the area pattern as written yields the major area's value |
| Areas.AreaTakesOwnLabel | extractor.js:461 | read from its own label, the same line yields `Y` |
| Areas.SampleLists | extractor.js:457-482 | on the line `Grande área: X / Área: Y` the area list as written is `[X]`, equal to the major-area list, while the intended list is `[Y]` |
| Areas.LeadingLabelMissed | extractor.js:461 | as written, a line that starts with `Área: Y` gives no area, since the class needs a character before `Área` |
| Areas.LeadingLabelRead | extractor.js:461 | the corrected pattern reads `Y` from that line |
| Areas.AreaFromOwnLabel | extractor.js:461 | the corrected area is never read from a major-area or sub-area label |
| Areas.CollectAreas | extractor.js:457-482 | the line loop pushes each new non-empty value into its list, exactly as the list functions state |
| Areas.ExtractAreas | extractor.js:443-485 | the method computes exactly `AreasOf` |
| Languages.LineOffers | extractor.js:500-508 | a line offers exactly the known languages it names |
| Languages.LanguagesExactly | extractor.js:500-509 | the languages listed are exactly the known ones some line names, each once |
| Languages.LanguagesOfExactly | extractor.js:487-512 | a profile's languages are exactly the known ones its `Idiomas` section names, without repeats |
| Languages.NoSectionNoLanguages | extractor.js:491-492 | without an `Idiomas` section there are no languages |
| Languages.CollectLanguages | extractor.js:500-509 | the nested loop pushes each named known language unless already listed |
| Languages.ExtractLanguages | extractor.js:487-512 | the method computes exactly `LanguagesOf` |
| Committees.CommitteesOf | extractor.js:514-560 | the total is the sum of the four kinds |
| Committees.CountZero | extractor.js:530-555 | a kind's count is zero exactly when its sub-section is missing or has no numbering line |
| Committees.CommitteesFields | extractor.js:530-557 | each field is the count of its kind in the `Bancas` content |
| Committees.NoSectionNoCommittees | extractor.js:524-525 | without a `Bancas` section all counts and the total are zero |
| Committees.CountKind | extractor.js:530-555 | one kind's count is the number of numbering lines in its sub-section, or 0 |
| Committees.CountCommittees | extractor.js:514-560 | the method computes exactly `CommitteesOf` |
| Committees.CountIn | extractor.js:530-557 | the four counts are set one by one, then the total as their sum |
| Segments.SectionOf | extractor.js:267 | the section starts at the leftmost head and ends at the first stop after it or at the text end |
| Segments.CaptureAfterSpaces | extractor.js:460-462 | the capture after the spaces is the maximal run the class takes, and there is none when the class takes nothing there |
| Curriculum.ProfileShape | extractor.js:312-335 | the article count is the number of titles; name and nationality are trimmed; the institution is the placeholder or a trimmed name; the committee total is the sum of its kinds; languages are known and distinct |
| Curriculum.AnalyseProfile | extractor.js:312-335 | the method computes exactly `ProfileOf`, one extractor after another |
| Tally.TallyCounts | charts.js:55-58 | each key's count is the number of items carrying it, and a key has an entry exactly when it occurs |
| Tally.TallyUnique | charts.js:55-58 | no key has two entries, and every count is positive |
| Tally.TallyFirst | charts.js:415-416 | an entry keeps the payload of the first item with its key |
| Tally.TallySum | charts.js:55-58 | the counts add up to the number of items |
| Tally.UniqueKeysCount | ui.js:85 | a table without repeated keys has as many keys as entries |
| Charts.InstitutionCounts | charts.js:53-59 | each institution counts the profiles naming it, `Não informado` counts 0, and the counts sum to the profiles with a known institution |
| Charts.TallyInstitutions | charts.js:55-59 | the loop computes exactly the institution tally |
| Charts.NationalityCounts | charts.js:90-95 | each nationality's count is the number of profiles labelled with it (`Não informado` when the nationality is empty); keys are unique and non-empty; the counts sum to the number of profiles |
| Charts.NationalityItemsCount | charts.js:91-94 | a label occurs among the items once per profile labelled with it |
| Charts.TallyNationalities | charts.js:92-95 | the loop computes exactly the nationality tally |
| Charts.ChartExactly | charts.js:127-147 | the chart lists exactly the tracked kinds that occur, each with how often it occurs |
| Charts.UntrackedIgnored | charts.js:138-140 | a kind without a key leaves every count as it was |
| Charts.HabilitationIgnored | charts.js:127-147 | a `Livre-Docência` degree does not show on the chart |
| Charts.CountLabel | charts.js:138-140 | the counts stay the counts of the labels seen, one more |
| Charts.CountDegrees | charts.js:135-143 | the nested loop counts each tracked kind over all profiles' degrees |
| Charts.NonZero | charts.js:145-147 | only the kinds with a positive count, with their counts, in key order |
| Charts.TallyDegrees | charts.js:126-147 | the method computes exactly the degree chart |
| Charts.SortByCountSound | charts.js:196 | the sort orders by non-increasing count and keeps every entry, as a permutation |
| Charts.InsertByCountPerm | charts.js:196 | one insertion keeps every entry and adds the new one once |
| Charts.InsertByCountSorted | charts.js:196 | one insertion keeps the ranking |
| Charts.LanguageChartSound | charts.js:185-198 | the language chart ranks by non-increasing count, is a permutation of the tally, and counts each language by the profiles listing it, one entry per language |
| Charts.TallyLanguages | charts.js:186-196 | the method computes exactly the language chart |
| Network.NetworkOf | charts.js:391-394 | no maps exactly when there are no records at all |
| Network.NodeCounts | charts.js:404-409 | a node counts its author's appearances across all records, and exists exactly when the author appears |
| Network.EdgeKeySymmetric | charts.js:414 | `(a, b)` and `(b, a)` update the same edge |
| Network.EdgeKeyDetermines | charts.js:414 | for names without `|`, an edge key identifies one unordered pair |
| Network.EdgeKeysCollide | charts.js:414 | a name holding `|` lets two different pairs share an edge key |
| Network.PairsLength | charts.js:412-413 | a record with `k` authors yields `k(k-1)/2` pairs |
| Network.EdgeWeights | charts.js:412-419 | the edge weights add up to `k(k-1)/2` per record of `k` authors |
| Network.EdgeFirstPair | charts.js:415-416 | an edge keeps the source and target of the pair that created it |
| Network.GatherRecords | charts.js:382-389 | the loop concatenates every profile's records in order |
| Network.AddNodes | charts.js:404-409 | the node table after one record is the tally with its authors added |
| Network.AddRow | charts.js:413-419 | the pairs `(i, j)` for all `j > i` are added to the edge table |
| Network.AddEdges | charts.js:412-420 | the double loop adds every pair `i < j` of one record |
| Network.BuildNetwork | charts.js:382-425 | the method computes exactly `NetworkOf` |
| Summary.CountUniqueArticles | ui.js:21-35 | the count is the number of distinct ui.js keys over all titles of all profiles |
| Summary.SortStringsSound | ui.js:61 | the sort orders the strings and is a permutation |
| Summary.UniqueArticleListSound | ui.js:42-61 | the list is sorted, holds exactly the first-per-key titles, and is as long as `contarArtigosUnicos` |
| Summary.UniqueArticleListFirst | ui.js:55-57 | the title kept for a key is the first title seen with it |
| Summary.ListUniqueArticles | ui.js:46-61 | the method computes exactly the sorted first-per-key list |
| Summary.KeepFirstTitles | ui.js:48-58 | one profile's titles extend the map as first-per-key over all titles so far |
| Summary.TotalCommitteesAppend | ui.js:38-40 | the total over two groups of profiles is the sum of their totals |
| Summary.ProfileCountsAddUp | extractor.js:530-555 | every extracted profile's committee total is the sum of its four kinds |
| Summary.TotalCommitteesKinds | ui.js:38-40 | over profiles whose counts add up, the committee total is the sum of the four kinds, each summed over all profiles |
| Summary.UniqueInstitutions | ui.js:85 | the set never contains `Não informado` |
| Summary.UniqueInstitutionsCharted | ui.js:85 | the unique-institution count equals the number of bars of the institution chart, and is at most the number of profiles |
| Summary.RowIsOneLine | ui.js:107-109 | a row of one-line fields is exactly one line |
| Summary.CsvShape | ui.js:104-111 | the text starts with the byte-order mark and the header, and has one line per profile after it |
| Summary.ExportCsv | ui.js:103-111 | the loop builds exactly the header and one row per profile |
| Dedup.FirstPerKeyKeys | extractor.js:256-259 | the kept items have pairwise different keys, and the keys of all the items |
| Dedup.FirstPerKeyFirst | extractor.js:256-259 | the first item with a key is the one kept for it |
| Dedup.FirstPerKeyCount | ui.js:21-35 | as many items are kept as there are different keys |
| Dedup.CollectExactly | extractor.js:464-481 | a "push if new" list holds exactly the non-empty values offered, each once |

## Left out

- Rendering is not modelled: the DOM, Chart.js objects, SVG drawing, the word clouds, the Blob
  download and the date in the file name.
- The force-directed layout is not modelled. It is floating-point numerics with random initial
  jitter.
- File reading and the check that the start year does not exceed the end year are not modelled.
  They are browser event code. The model accepts any year window.
- Code units are not modelled: JavaScript strings are UTF-16 while Dafny characters are Unicode
  scalars. Lengths, the 500-character window and the sort order can differ for characters
  outside the Basic Multilingual Plane.
- Case folding and NFD decomposition cover Latin-1 only. Beyond it, letters are kept as they are.
- The curly-quote replacements of the title line (extractor.js:47-48) are modelled as the no-ops
  they are as written: both replace an ASCII quote by itself.
- Object and `Map` key order is modelled as insertion order. This matches JavaScript for
  non-numeric keys.
- Tally.Bump: every key starts from 0. The institution and nationality tallies
  (charts.js:57, charts.js:94) use plain objects, where `__proto__` and inherited names such as
  `constructor` or `toString` would not start from 0. No institution or nationality name is
  expected to be one of these.
- The guards `if (r.formacoes)`, `if (r.idiomas)` and `if (r.colaboracoes)` are not modelled:
  every profile the extractor builds has these fields.
- Summary.CsvShape: counts lines only when no field holds a line break, because the source
  does not escape fields.
- Charts.SortByCountSound: does not state that entries with equal counts keep their order.
  `Array.prototype.sort` is stable, but the model states only the ranking and the permutation.
- Person.CapitalisedShape: states the capital start and the inner space, not the letter classes
  of every word.

## Findings

| source | as written | input that shows it | evidently intended | confidence | as-written member | corrected member |
|---|---|---|---|---|---|---|
| extractor.js:461 | `[^Grande]` is a class of single characters, so the space before `área:` in `Grande área:` satisfies it and the pattern matches at the major area's label | the line `Grande área: X / Área: Y` | the area is read from the `Área:` label that is not part of `Grande área:` or `Subárea:`, giving `Y` | not executed | Areas.SampleLists | Areas.AreaTakesOwnLabel |
| extractor.js:461 | the class `[^Grande]` must consume one character before `Área`, so a label at the start of the line is not matched | the line `Área: Y` | the area `Y` is read | not executed | Areas.LeadingLabelMissed | Areas.LeadingLabelRead |
