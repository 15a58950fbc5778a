# sfucourses-api in Dafny

A model of the serving and aggregation logic of the SFU course-catalog API:
- the read stores that serve outlines, sections, sections joined with outlines, embedded courses and instructors;
- the harvest and sync scripts that build those files;
- the term and string helpers;
- the validation and routing parts of the HTTP handlers.

Every snapshot is an already-decoded sequence of records. Every remote fetch, file and clock reading is an input.

How the model is laid out:
- **Stores.** A store is an immutable `Cache` holding a snapshot and the time it was loaded. Reading a store is a function from the cache, the disk and the clock to the new cache and the result. A lookup can change the cache only by reloading it, so the embedded courses store, which never reloads, is never changed by a read.
- **Disk.** A disk maps paths to decoded file contents. A missing path cannot be read. `Malformed` is a file that does not parse.
- **Catalog.** The university's catalog service is a record of total functions. Each returns `Fetched(value)` or `FetchFailed`.
- **Go maps.** A Go map whose values are iterated is an association list. Its order is one of the orders Go may choose, and every property proved of the written output holds whatever that order is.
- **Go's `int`** is a mathematical integer. `Wrap64` models its wrap-around where that matters.
- **Strings** are `seq<char>` with ASCII case mapping.

Modules, one per concept:

| Module | Models |
|---|---|
| `Outcomes`, `GoInt`, `Text`, `Seqs`, `Sorting`, `Keys`, `AssocList` | The Go library behaviour the code relies on. |
| `Records` | The record shapes the code reads and writes. |
| `Snapshot`, `Search`, `Lookups` | What all stores share. |
| `OutlineStore`, `SectionsStore`, `JoinedStore`, `CoursesStore`, `InstructorStore` | The five stores of `internal/store`. |
| `Catalog`, `Harvest`, `FetchSections` | `scripts/utils.go` and `scripts/fetchSections`. |
| `TermCodes`, `TermLabels` | `internal/utils/terms.go` and the term helpers of the scripts. |
| `OfferingSync` | `scripts/syncOfferings` and `scripts/syncInstructors`. |
| `InstructorIndex` | `scripts/fetchInstructors`. |
| `Calendar` | `getTermForDate`, `getNextTerm` and `runDataSync`. |
| `Http`, `OutlinesApi`, `SectionsApi`, `InstructorsApi`, `ReviewsApi` | The handlers. |

## Model

| member | source | states |
|---|---|---|
| GoInt.AtoiRoundTrip | cmd/api/outlines.go:74-75 | `strconv.Atoi` reads back every 64-bit value that `strconv.Itoa` writes |
| GoInt.ScanExtendsAtoi | scripts/fetchInstructors/main.go:130-133 | `%d` scanning accepts everything `Atoi` accepts, with the same value |
| GoInt.ParseBool | cmd/api/sections.go:27 | exactly the six spellings of true and the six of false parse; everything else is an error |
| GoInt.ScanAcceptsTrailingText | scripts/fetchInstructors/main.go:131 | `%d` scanning reads 2024 from "2024x", which `Atoi` rejects |
| GoInt.Wrap64 | scripts/syncInstructors/main.go:43 | the result is a 64-bit `int` congruent to the exact value modulo 2^64, and equal to it when it fits |
| GoInt.Atoi | cmd/api/outlines.go:33 | an accepted string is non-empty and its value is a 64-bit `int`; `AtoiRoundTrip` and `ScanExtendsAtoi` pin down what it accepts |
| GoInt.ScanDecimal | scripts/fetchInstructors/main.go:131 | an accepted year is a 64-bit `int` and the text holds a digit; `ScanExtendsAtoi`, `ScanSkipsLeadingSpace` and the three examples below pin down what it accepts |
| GoInt.ScanSkipsLeadingSpace | scripts/fetchInstructors/main.go:131 | white space other than a newline in front of the number does not change what `%d` reads |
| GoInt.ScanSkipsTab | scripts/fetchInstructors/main.go:131 | a tab before a year that `Atoi` accepts is skipped by `%d`, while `Atoi` rejects the tabbed text |
| GoInt.ScanRejectsNewline | scripts/fetchInstructors/main.go:131 | a newline before the year is a scan error |
| GoInt.ScanRejectsUnderscore | scripts/fetchInstructors/main.go:131 | "2_024" is a scan error: `%d` gathers the `_` into its token and base-10 parsing rejects it |
| Snapshot.ReadJson | internal/store/outlines.go:42-50 | a read fails on a missing file and a parse fails on a malformed one; otherwise the result is the file's value |
| Snapshot.Install | internal/store/outlines.go:52-57 | a successful load replaces the snapshot and restamps it; a failed one leaves snapshot and stamp unchanged and returns the error |
| Snapshot.Refresh | internal/store/outlines.go:60-71 | the load runs only when the elapsed time is strictly greater than the TTL; a cache is changed only by a successful load; after a call that returns no error the cache is fresh |
| Snapshot.LoadEach | internal/store/sections.go:50-64 | all or nothing: it succeeds iff every listed file reads and parses; the keys are then exactly the listed names, each holding its file's value; otherwise the error is one file's error |
| Lookups.ByTerm | internal/store/sections.go:95-100 | found iff `year + "-" + lower(term)` is a key; the value is that key's courses; otherwise `ErrNotFound` |
| Lookups.ByDept | internal/store/sections.go:109-118 | `ErrNotFound` iff no record has `Dept == upper(dept)`; otherwise the order-preserving subsequence of exactly the matching records, each as often as in the input |
| Lookups.ByDeptAndNumber | internal/store/sections.go:127-144 | a found record is in the input and has key (upper(dept), upper(number)); on a sorted slice it is found iff such a record exists, and it is the first one a linear scan finds |
| Lookups.InTerm | internal/store/sections.go:122-144 | a term read's error is passed on; otherwise a miss is `ErrNotFound`, a hit is a course of the term with the key, and on a sorted term it is found iff present and is the first one a linear scan finds |
| Search.AtOrAfterMonotone | internal/store/sections.go:130-138 | on a slice sorted by (Dept, Number) the `sort.Search` predicate, once true, stays true |
| Search.LowerBound | internal/store/sections.go:130-138 | the returned index splits a sorted slice into records before the key and records at or after it |
| Search.FirstWithKey | internal/store/sections.go:127-144 | the reference linear scan: a record it returns has the key, and it returns none only when no record has it |
| Search.FindByKey | internal/store/sections.go:130-144 | the lower-bound lookup agrees with the linear scan `FirstWithKey` on every sorted slice; it finds a record iff one has the key |
| OutlineStore.New | internal/store/outlines.go:25-35 | construction succeeds iff the outlines file reads and parses; the snapshot is then its content |
| OutlineStore.ForceReload | internal/store/outlines.go:37-58 | a failed read or parse leaves the cache unchanged; a success installs the file stamped `now` |
| OutlineStore.ReloadIfNeeded | internal/store/outlines.go:60-71 | reloads iff more than one hour has passed, strictly |
| OutlineStore.Paginate | internal/store/outlines.go:81-97 | with no options: the whole snapshot and its length; the defaults are total for limit and 0 for offset; an offset at or past the end gives an empty page with count 0; otherwise `cached[offset .. min(offset+limit, total))` with count = total; never more than limit outlines |
| OutlineStore.PaginateAsWritten | internal/store/outlines.go:81-97 | the code as written, on 64-bit `int`, panics only when an offset inside the snapshot plus the limit exceeds the largest `int` |
| OutlineStore.PaginateAsWrittenAgrees | internal/store/outlines.go:92-97 | while `offset + limit` fits in an `int`, the code as written pages exactly as `Paginate` |
| OutlineStore.PaginateOverflowPanics | internal/store/outlines.go:92-97 | `limit = MaxInt64, offset = 1` over two outlines panics as written; the intended page is the second outline with count 2 |
| OutlineStore.GetAll | internal/store/outlines.go:73-98 | returns the reload error if there is one, else the page of the refreshed snapshot |
| OutlineStore.GetByDept | internal/store/outlines.go:100-115 | returns the reload error if there is one, else the department filter of the refreshed snapshot |
| OutlineStore.GetByDeptAndNumber | internal/store/outlines.go:117-140 | a found outline has the upper-cased key; on a sorted snapshot it is found iff one exists, and it is the first one a linear scan finds; a miss without a reload error is `ErrNotFound` |
| SectionsStore.Load | internal/store/sections.go:39-64 | succeeds iff all six files read and parse; the keys are then the schedule map's term codes, each holding its file; otherwise the error comes from one of the files |
| SectionsStore.ScheduleFilesDistinct | internal/store/sections.go:41-48 | no two entries of the schedule map share a term code |
| SectionsStore.ScheduleFileNames | internal/store/sections.go:41-48 | the schedule map names exactly the six terms 2024-spring to 2025-fall |
| SectionsStore.New | internal/store/sections.go:23-33 | construction succeeds iff the load does |
| SectionsStore.ForceReload | internal/store/sections.go:35-72 | any file failure leaves the cache unchanged; a success installs all six terms stamped `now` |
| SectionsStore.ReloadIfNeeded | internal/store/sections.go:74-85 | reloads iff more than five minutes have passed, strictly |
| SectionsStore.GetByTerm | internal/store/sections.go:87-101 | returns the reload error, else the term-key lookup |
| SectionsStore.GetByTermAndDept | internal/store/sections.go:103-119 | passes on `GetByTerm`'s error; otherwise the department filter of that term, with `ErrNotFound` when it is empty |
| SectionsStore.GetByTermAndDeptAndNumber | internal/store/sections.go:121-145 | passes on `GetByTerm`'s error; a miss in a term that is present is `ErrNotFound`; a found course has the key; on a sorted term it is found iff present, and it is the first one a linear scan finds |
| JoinedStore.OutlineIndex | internal/store/sections_with_outlines.go:46-50 | the keys are exactly the outlines' `Dept-Number` keys, and each key holds an outline that has that key |
| JoinedStore.FileOutlinesKeys | internal/store/sections_with_outlines.go:46-50 | the map the loop builds has exactly the outlines' keys, each holding one of the outlines filed under its own key |
| JoinedStore.FileOutlinesLastWins | internal/store/sections_with_outlines.go:46-50 | the loop leaves each key holding the last outline with that key |
| JoinedStore.ScheduleFilesDistinct | internal/store/sections_with_outlines.go:52-59 | no two entries of the schedule map share a term code |
| JoinedStore.ScheduleFileNames | internal/store/sections_with_outlines.go:52-59 | the schedule map names exactly the six terms 2024-spring to 2025-fall |
| JoinedStore.OutlineIndexLastWins | internal/store/sections_with_outlines.go:46-50 | a later outline with the same key overwrites an earlier one |
| JoinedStore.JoinTerm | internal/store/sections_with_outlines.go:75-96 | a course is kept iff an outline exists under its `Dept-Number` key; the records are one per kept course, in course order, each that course joined with its outline; when every course has an outline there is one record per course |
| JoinedStore.JoinKeepsKey | internal/store/sections_with_outlines.go:77-92 | when no department contains '-', the joined record keeps the course's (Dept, Number) |
| JoinedStore.DashedDepartmentsCollide | internal/store/sections_with_outlines.go:77-92 | with a '-' in a department, course A/B-1 picks up the outline of A-B/1, whose key differs |
| JoinedStore.JoinSorted | internal/store/sections_with_outlines.go:75-96 | with no '-' in any department, a term sorted by (Dept, Number) joins to a sorted term |
| JoinedStore.JoinedKeysOfTerm | internal/store/sections_with_outlines.go:77-92 | with no '-' in any department, every joined record has the (Dept, Number) of some course of the term |
| JoinedStore.Load | internal/store/sections_with_outlines.go:35-97 | an outlines failure comes first; otherwise the load succeeds iff all six term files read and parse; on success the keys are the schedule map's term codes and each term is its file joined with the outline index |
| JoinedStore.ForceReload | internal/store/sections_with_outlines.go:99-109 | a failure leaves the cache unchanged; a success installs the join stamped `now` |
| JoinedStore.ReloadIfNeededAsWritten | internal/store/sections_with_outlines.go:99-123 | as written: a fresh read returns at once with no error; a stale read whose load fails returns that error; a stale read whose files load never returns, because the load requests the write lock while the read lock is held |
| JoinedStore.AsWrittenAgrees | internal/store/sections_with_outlines.go:111-123 | whenever the code as written returns, it returns what the intended version does |
| JoinedStore.ReloadIfNeeded | internal/store/sections_with_outlines.go:111-123 | as intended: reloads iff more than five minutes have passed, and the cache is fresh after an error-free call |
| JoinedStore.StaleReadBlocks | internal/store/sections_with_outlines.go:99-123 | a store loaded at time 0, read five minutes and 1 ns later with files that load, blocks as written; as intended it reloads with no error |
| JoinedStore.GetByTerm | internal/store/sections_with_outlines.go:125-139 | returns the reload error, else the term-key lookup |
| JoinedStore.GetByTermAndDept | internal/store/sections_with_outlines.go:141-157 | passes on `GetByTerm`'s error, else the department filter with `ErrNotFound` when empty |
| JoinedStore.GetByTermAndDeptAndNumber | internal/store/sections_with_outlines.go:159-183 | passes on `GetByTerm`'s error; a miss in a term that is present is `ErrNotFound`; a found record has the key; on a sorted term it is found iff present, and it is the first one a linear scan finds |
| CoursesStore.EmbeddedFilesDistinct | internal/store/courses.go:33-38 | no two entries of the schedule map share a term code |
| CoursesStore.EmbeddedFileNames | internal/store/courses.go:33-38 | the schedule map names exactly the four terms 2024-spring to 2025-spring |
| CoursesStore.New | internal/store/courses.go:31-55 | fails iff some embedded file does not parse, naming that file; otherwise the keys are the schedule map's term codes, each holding its file |
| CoursesStore.GetByTerm | internal/store/courses.go:57-64 | found iff `year-lower(term)` is a key; otherwise `ErrNotFound` |
| CoursesStore.GetByTermAndDept | internal/store/courses.go:66-81 | a missing term is `ErrNotFound`; otherwise the order-preserving department filter |
| CoursesStore.GetByTermAndDeptAndNumber | internal/store/courses.go:83-106 | a missing term is `ErrNotFound`, and so is a miss in a present term; a found course has the key; on a sorted term it is found iff present, and it is the first one a linear scan finds |
| InstructorStore.Load | internal/store/instructors.go:40-54 | on success the file's instructors are permuted into ascending order of lower-cased name; a failure is the read or parse error |
| InstructorStore.NameLeTotalPreorder | internal/store/instructors.go:51-54 | the lower-cased-name comparator is a total preorder, so the sort is well defined |
| InstructorStore.New | internal/store/instructors.go:24-34 | construction succeeds iff the load does, with a sorted permutation of the file |
| InstructorStore.ForceReload | internal/store/instructors.go:36-62 | a failure leaves snapshot and stamp unchanged; a success installs the sorted load |
| InstructorStore.ReloadIfNeeded | internal/store/instructors.go:64-75 | reloads iff more than one hour has passed, strictly |
| InstructorStore.ReloadKeepsSorted | internal/store/instructors.go:51-75 | a sorted snapshot stays sorted through any reload, successful or not |
| InstructorStore.Select | internal/store/instructors.go:85-117 | no parameters: everything; a name: exactly those whose lower-cased name contains it, whatever dept and number are; a dept only: those with an offering in upper(dept); dept and number: those with an offering matching both; a number alone: `ErrNotFound`; every result is an order-preserving subsequence holding each selected instructor as often as the snapshot does |
| InstructorStore.NameQueryIgnoresCase | internal/store/instructors.go:92-97 | upper-casing the name query changes nothing |
| InstructorStore.ExactNameMatches | internal/store/instructors.go:92-97 | a query equal to an instructor's name selects that instructor |
| InstructorStore.Get | internal/store/instructors.go:77-118 | returns the reload error, else `Select` over the refreshed snapshot |
| Catalog.ToSchedule | scripts/utils.go:230-248 | campus, days, section code and times are copied; each date is transformed, and one that does not parse becomes "" |
| Catalog.ToSectionDetail | scripts/utils.go:220-256 | section, delivery method and class number are copied; a null instructor or schedule list becomes empty; there is one schedule per raw schedule |
| Catalog.ToCourseWithSectionDetails | scripts/utils.go:209-260 | None iff there are no raw sections; otherwise the course fields come from the first raw section, with exactly one section detail per raw section, in order |
| Catalog.Collect | scripts/utils.go:186-195 | one detail per section whose detail fetch succeeded, in section order, each the detail fetched for that section; failed fetches are skipped |
| Catalog.SortSections | scripts/fetchSections/main.go:292-295 | the course keeps its fields and its sections become a permutation sorted by section code |
| Catalog.SectionLeTotalPreorder | scripts/fetchSections/main.go:292-295 | the section-code comparator is a total preorder |
| Harvest.ProcessCourseOutline | scripts/utils.go:156-178 | fails iff the section listing fails or the first section's outline fails; only the course's own key can change, and only to the outline fetched for the first section of a non-empty listing |
| Harvest.FoldOutlineCourses | scripts/utils.go:127-142 | an entry already in the map keeps its outline; every new entry is filed under the "dept number" key of a listed course with the outline of its first section; every listed course whose outline arrives has an entry; keys stay distinct |
| Harvest.ProcessDepartmentOutlines | scripts/utils.go:121-143 | fails iff the course listing fails; otherwise the course fold |
| Harvest.FoldOutlineDepartments | scripts/utils.go:110-115 | a department whose course listing fails adds nothing and the loop goes on; entries already in the map are kept; every new entry is the outline of a course listed under a listed department, filed under its key; every such course whose outline arrives has an entry |
| Harvest.ProcessTermOutlines | scripts/utils.go:104-118 | fails iff the department listing fails; otherwise entries are kept, every new entry is the outline of a course the term lists, under its key, and every listed course whose outline arrives has an entry |
| Harvest.ProcessTermsOutlines | scripts/fetchOutlines/main.go:28-33 | terms in order, a failed term skipped; an entry already present is kept, so the first term to file a key wins; every new entry is the outline of a course some term lists, under its key; every course a term lists whose outline arrives in that term has an entry |
| Harvest.ProcessOutlines | scripts/utils.go:264-279 | no empty Dept or Number; sorted by (Dept, Number); a permutation of the kept map values |
| Harvest.ProcessOutlinesSound | scripts/utils.go:266-271 | every written outline is a map value with a department and a number |
| Harvest.ProcessOutlinesComplete | scripts/utils.go:266-271 | every map value with a department and a number is written |
| Harvest.ProcessSectionDetails | scripts/utils.go:180-206 | fails iff the section listing fails; the course is filed under "dept number" only when some detail fetch succeeded, and then as the fold of those details; no other key changes |
| Harvest.FoldSectionCourses | scripts/utils.go:144-150 | keys are never removed; every changed entry is filed under the "dept number" key of a listed course with that course's folded details; every listed course with at least one fetched detail has an entry; keys stay distinct |
| Harvest.ProcessDepartmentSections | scripts/utils.go:121-153 | fails iff the course listing fails; otherwise the course fold |
| Harvest.FoldSectionDepartments | scripts/utils.go:110-115 | keys are never removed and stay distinct |
| Harvest.SectionDepartmentStep | scripts/utils.go:110-115 | a department whose course listing fails changes nothing; otherwise its course fold |
| Harvest.FoldSectionDepartmentsSound | scripts/utils.go:110-150 | every entry the department loop changes is filed under "d c" with the folded details of a course c listed under a department d of the listing |
| Harvest.FoldSectionDepartmentsComplete | scripts/utils.go:110-150 | every course listed under a department of the listing with at least one fetched detail has an entry |
| Harvest.ProcessTermSections | scripts/utils.go:104-118 | fails iff the department listing fails; otherwise the department fold over the listing |
| Harvest.ProcessTermSectionsSound | scripts/utils.go:104-150 | every entry a term changes holds the folded details of a course the term lists, under its key |
| Harvest.ProcessTermSectionsComplete | scripts/utils.go:104-150 | every course the term lists with at least one fetched detail has an entry |
| FetchSections.ProcessSectionDetails | scripts/fetchSections/main.go:210-305 | an empty dept or number is an error that inserts nothing; a failed listing is an error; untitled sections are skipped; no sections or no successful details inserts nothing; an inserted course is the fold of the details, taken in listing order, with its sections sorted by code |
| FetchSections.PutWellFormed | scripts/fetchSections/main.go:293-301 | filing a course with sorted, non-empty sections keeps every entry sorted and non-empty |
| FetchSections.FoldCourses | scripts/fetchSections/main.go:175-202 | untitled courses are skipped; keys are never removed; every changed entry is filed under the "dept number" key of a titled course with that course's filed course; every titled course that files a course has an entry; entries stay well formed |
| FetchSections.ProcessDepartment | scripts/fetchSections/main.go:151-207 | an empty department is an error; otherwise it fails iff the course listing fails |
| FetchSections.FoldDepartments | scripts/fetchSections/main.go:120-143 | keys are never removed, and entries stay well formed |
| FetchSections.DepartmentStep | scripts/fetchSections/main.go:120-143 | a department with an empty Value or a failed course listing changes nothing; otherwise its course fold |
| FetchSections.FoldDepartmentsSound | scripts/fetchSections/main.go:120-202 | every entry the department loop changes is filed under "d c" with the filed course of a course c listed with a title under a department d with a non-empty Value |
| FetchSections.FoldDepartmentsComplete | scripts/fetchSections/main.go:120-202 | every such course that files a course has an entry |
| FetchSections.ProcessTerm | scripts/fetchSections/main.go:103-148 | fails iff the department listing fails, with that error; otherwise the department fold over the listing |
| FetchSections.ProcessTermComplete | scripts/fetchSections/main.go:103-202 | every course the term processes (a titled course of a department with a non-empty Value whose listing arrived) that files a course has an entry, whatever the map held before |
| FetchSections.Kept | scripts/fetchSections/main.go:58-72 | the map values with a department and a number, each with its sections sorted |
| FetchSections.Finalize | scripts/fetchSections/main.go:58-80 | no empty Dept or Number; sections sorted in every course; courses sorted by (Dept, Number); a permutation of the kept courses |
| FetchSections.KeptSound | scripts/fetchSections/main.go:58-72 | every kept course is a map entry with a department and a number, its sections re-sorted |
| FetchSections.FinalizeSound | scripts/fetchSections/main.go:58-80 | every written course is a map entry with a department and a number, its sections re-sorted |
| FetchSections.FinalizeNonEmpty | scripts/fetchSections/main.go:276-280 | from a well-formed map, every written course has at least one section |
| FetchSections.FinalizeAllNonEmpty | scripts/fetchSections/main.go:276-280 | every position of the written list holds a course with a section |
| FetchSections.FinalizeComplete | scripts/fetchSections/main.go:58-80 | every filed course with a department and a number is written, with its sections sorted |
| FetchSections.Run | scripts/fetchSections/main.go:49-80 | the run fails iff the department listing fails; otherwise the written list is sorted, with keyed courses whose sections are sorted and non-empty |
| FetchSections.RunFinalizes | scripts/fetchSections/main.go:49-80 | a run whose department listing arrives writes the finished term fold from an empty map, and that map is well formed |
| FetchSections.TermFiledSound | scripts/fetchSections/main.go:49-55 | every entry of the term fold from an empty map is the filed course of a course the term processes, under its key |
| FetchSections.TermFiledComplete | scripts/fetchSections/main.go:49-55 | a processed course that files a course, and whose key no other processed course shares, is filed with exactly that course |
| FetchSections.RunSound | scripts/fetchSections/main.go:49-80 | every written course is, with its sections re-sorted, the filed course of a course the run processes |
| FetchSections.RunComplete | scripts/fetchSections/main.go:49-80 | every processed course whose filed course has a department and a number, and whose key no other processed course shares, is written with its sections re-sorted |
| TermCodes.SectionFilePath | internal/utils/terms.go:27-29 | the path is the sections directory, the code and ".json" |
| TermCodes.SectionFilePathRoundTrip | internal/utils/terms.go:27-29 | the code can be read back from its path, so distinct codes have distinct files |
| TermCodes.SectionFilePathsOf | internal/utils/terms.go:38-44 | the keys are exactly the codes, each mapped to its file path |
| TermCodes.SectionFilePaths | internal/utils/terms.go:38-44 | the keys are exactly `TermCodes`, each mapped to `GetSectionFilePath` of itself |
| TermCodes.SplitTermCode | internal/utils/terms.go:70-79 | empty iff there is no '-'; otherwise [prefix, rest] with no '-' in the prefix and prefix + "-" + rest equal to the input |
| TermCodes.SplitTermCodeOfJoin | internal/utils/terms.go:70-79 | splitting a dash-free year joined to any season gives back both |
| TermCodes.YearTermsOf | internal/utils/terms.go:56-65 | one pair per code containing '-' |
| TermCodes.YearTermsOfJoin | internal/utils/terms.go:56-65 | every pair has two parts that join back, with '-', to one of the codes |
| TermCodes.YearTermsOfFilter | internal/utils/terms.go:56-65 | the pairs are the splits of the codes containing '-', in the codes' order; codes without one are skipped |
| TermCodes.YearTermsOfAllDashes | internal/utils/terms.go:56-65 | when every code contains '-', one pair per code, in order, each the split of its code |
| TermCodes.YearTerms | internal/utils/terms.go:56-65 | the pairs are the splits of the `TermCodes` entries containing '-', in `TermCodes` order |
| TermLabels.Capitalize | scripts/syncInstructors/main.go:55 | same length; the first letter is upper-cased and the rest lower-cased |
| TermLabels.FormatTermCode | scripts/syncInstructors/main.go:47-57 | a code without exactly one '-' is returned unchanged |
| TermLabels.FormatTermCodeOfJoin | scripts/syncInstructors/main.go:47-57 | "year-season" becomes the capitalised season, a space and the year |
| TermLabels.SeasonMonth | scripts/syncInstructors/main.go:29-40 | Spring is 1, Summer 5, Fall 9, and every other season 0 |
| TermLabels.SortableValue | scripts/syncInstructors/main.go:16-44 | 0 unless the label has exactly two space-separated parts and an `Atoi` year; otherwise the 64-bit year*100 + month |
| TermLabels.SortableValueScanned | scripts/fetchInstructors/main.go:122-148 | the same rule, with the year read by `%d` scanning, which skips white space before the year and ignores text after its digits |
| TermLabels.SortableValueOfLabel | scripts/syncInstructors/main.go:16-44 | the label "Season year" has value year*100 + the season's month |
| TermLabels.SortableValueChronological | scripts/syncInstructors/main.go:29-43 | for known seasons, one value is below another iff its term is earlier: an earlier year, or the same year and an earlier season |
| TermLabels.SortableValueOfCode | scripts/syncInstructors/main.go:16-57 | the label of the term code "year-season" has value year*100 + month |
| TermLabels.ScannedAgrees | scripts/fetchInstructors/main.go:128-133 | the two scripts' values agree whenever `Atoi` accepts the year |
| TermLabels.AtoiRejectsTrailingText | scripts/syncInstructors/main.go:23-27 | "Fall 2024x" has value 0 in syncInstructors |
| TermLabels.ScanReadsTrailingText | scripts/fetchInstructors/main.go:128-147 | "Fall 2024x" has value 202409 in fetchInstructors |
| TermLabels.YearValue | scripts/syncInstructors/main.go:43 | a 64-bit `int`, equal to year*100 + month whenever that fits |
| TermLabels.ScanSkipsTabInLabel | scripts/fetchInstructors/main.go:122-148 | a tab in front of the year, which `strings.Split` on ' ' keeps, leaves the fetchInstructors value unchanged and makes the syncInstructors value 0 |
| OfferingSync.ReadOrEmpty | scripts/syncOfferings/main.go:49-55 | a term file that cannot be read or parsed contributes no courses |
| OfferingSync.TermCourses | scripts/syncOfferings/main.go:46-55 | one entry per sync term, each with the courses of its file |
| OfferingSync.ResetOfferings | scripts/syncOfferings/main.go:36-38 | every outline's offerings are emptied and nothing else changes |
| OfferingSync.IndexOutlines | scripts/syncOfferings/main.go:40-44 | the outline map has distinct keys |
| OfferingSync.IndexFrom | scripts/syncOfferings/main.go:40-44 | every indexed outline is an input outline |
| OfferingSync.IndexUnique | scripts/syncOfferings/main.go:42-44 | an outline whose key no other outline shares is the one filed under it |
| OfferingSync.NamesTeach | scripts/syncOfferings/main.go:61-64 | a name is collected iff some section lists an instructor with it |
| OfferingSync.InstructorNames | scripts/syncOfferings/main.go:60-66 | the names are distinct and non-empty, exactly the non-empty instructor names of the course, in first-occurrence order |
| OfferingSync.NewOffering | scripts/syncOfferings/main.go:59-67 | the offering's term is the formatted term code and its instructors are the course's names |
| OfferingSync.NewestFirstTotalPreorder | scripts/syncInstructors/main.go:103-107 | the newest-first comparator on term values is a total preorder |
| OfferingSync.AddOffering | scripts/syncInstructors/main.go:91-108 | exactly one offering is appended to the outline under the course's key; syncInstructors then holds a newest-first permutation; the outline's other fields and all other keys are unchanged; a course without an outline leaves a record with no Dept or Number |
| OfferingSync.AddOfferingOffered | scripts/syncOfferings/main.go:58-71 | one course adds its own offering to its own key and nothing to any other key |
| OfferingSync.FoldCourses | scripts/syncOfferings/main.go:58-72 | every outline under a key keeps its fields; keys stay distinct |
| OfferingSync.FoldTerms | scripts/syncOfferings/main.go:57-73 | the same over every term |
| OfferingSync.FoldCoursesOffered | scripts/syncOfferings/main.go:58-72 | one term appends to each key exactly the offerings of that term's courses with the key: as a multiset, and in course order under syncOfferings |
| OfferingSync.FoldTermsOffered | scripts/syncOfferings/main.go:57-73 | every term in turn appends to each key exactly the offerings of its courses with the key: as a multiset, and term by term under syncOfferings |
| OfferingSync.MergeOffered | scripts/syncOfferings/main.go:36-73 | before writing, an input outline with a key of its own is filed with its fields and exactly the offerings of the term courses with its key |
| OfferingSync.AddOfferingGood | scripts/syncInstructors/main.go:91-108 | every stored outline stays an input outline or a zero record, apart from its offerings, with clean offerings that are newest first under syncInstructors |
| OfferingSync.FoldTermsGood | scripts/syncOfferings/main.go:57-73 | that invariant holds across the whole fold |
| OfferingSync.FoldCoursesGood | scripts/syncOfferings/main.go:58-72 | that invariant holds across one term's courses |
| OfferingSync.Sync | scripts/syncOfferings/main.go:57-75 | every written outline has a department and a number, and the list is sorted by (Dept, Number) |
| OfferingSync.SyncSound | scripts/syncInstructors/main.go:68-112 | every written outline is an input outline with new offerings, each naming distinct, non-empty instructors, newest first under syncInstructors; zero records are not written |
| OfferingSync.SyncComplete | scripts/syncOfferings/main.go:36-75 | every input outline with a department, a number and a key of its own is written with its fields |
| OfferingSync.SyncOffered | scripts/syncOfferings/main.go:36-75 | the written outline of a keyed input outline with a key of its own holds exactly the offerings of the term courses with that key: the same multiset under both scripts, in term and course order under syncOfferings |
| InstructorIndex.Current | scripts/fetchInstructors/main.go:55-60 | the filed instructor, or a fresh one with the name and no offerings |
| InstructorIndex.Extend | scripts/fetchInstructors/main.go:62-78 | the offering is appended iff no listed offering has the same (Dept, Number, Term); the old list is a prefix of the new one |
| InstructorIndex.AddName | scripts/fetchInstructors/main.go:48-78 | a blank trimmed name changes nothing; otherwise the trimmed name's entry covers the slot and other keys are unchanged |
| InstructorIndex.AddNameInv | scripts/fetchInstructors/main.go:49-78 | every entry stays filed under its own trimmed, non-blank name, with at least one offering and no two in the same slot |
| InstructorIndex.FoldNames | scripts/fetchInstructors/main.go:48-79 | entries only grow, and keys stay distinct |
| InstructorIndex.FoldOfferings | scripts/fetchInstructors/main.go:47-80 | entries only grow, and keys stay distinct |
| InstructorIndex.FoldOutlines | scripts/fetchInstructors/main.go:42-81 | entries only grow, and keys stay distinct |
| InstructorIndex.FoldOutlinesInv | scripts/fetchInstructors/main.go:42-81 | the entry invariant holds across all outlines |
| InstructorIndex.FoldNamesInv | scripts/fetchInstructors/main.go:48-78 | the entry invariant holds across one offering's names |
| InstructorIndex.FoldOfferingsInv | scripts/fetchInstructors/main.go:47-80 | the entry invariant holds across one outline's offerings |
| InstructorIndex.FoldOutlinesFiles | scripts/fetchInstructors/main.go:42-81 | every non-blank name of a keyed outline's offering ends up filed with that offering's slot covered |
| InstructorIndex.FoldNamesFiles | scripts/fetchInstructors/main.go:48-78 | every non-blank name of an offering ends up filed, trimmed, with the offering's slot covered |
| InstructorIndex.FoldOfferingsFiles | scripts/fetchInstructors/main.go:47-80 | every non-blank name on any of an outline's offerings ends up filed with that offering's slot covered |
| InstructorIndex.AddNameSound | scripts/fetchInstructors/main.go:48-78 | every offering the map holds stays one contributed by a name, trimmed to the entry's key, on an offering of a keyed input outline |
| InstructorIndex.FoldNamesSound | scripts/fetchInstructors/main.go:48-79 | the same across one offering's names |
| InstructorIndex.FoldOfferingsSound | scripts/fetchInstructors/main.go:47-80 | the same across one outline's offerings |
| InstructorIndex.FoldOutlinesSound | scripts/fetchInstructors/main.go:42-81 | the same across all outlines |
| InstructorIndex.OfferingLeTotalPreorder | scripts/fetchInstructors/main.go:85-97 | the offering comparator is a total preorder: term value descending, then Dept, then Number |
| InstructorIndex.SortOfferings | scripts/fetchInstructors/main.go:85-97 | the name is kept and the offerings become a sorted permutation |
| InstructorIndex.ByNameTotalPreorder | scripts/fetchInstructors/main.go:102-104 | the by-name comparator is a total preorder |
| InstructorIndex.SortOfferingsOk | scripts/fetchInstructors/main.go:85-97 | sorting keeps at least one offering and keeps no two in the same slot |
| InstructorIndex.SortedEach | scripts/fetchInstructors/main.go:83-100 | one record per map entry, in map order, each with sorted offerings |
| InstructorIndex.Finalize | scripts/fetchInstructors/main.go:83-104 | sorted by name, with each instructor's offerings sorted; a permutation of the per-entry records |
| InstructorIndex.FinalizeEntriesOk | scripts/fetchInstructors/main.go:49-104 | every written instructor has a trimmed, non-blank name and at least one offering, with no two in the same slot |
| InstructorIndex.WrittenFrom | scripts/fetchInstructors/main.go:83-104 | every written instructor is some map entry with its offerings sorted |
| InstructorIndex.EachNamesUnique | scripts/fetchInstructors/main.go:83-100 | with one entry per name, the per-entry records have pairwise distinct names |
| InstructorIndex.FinalizeNamesAscending | scripts/fetchInstructors/main.go:83-104 | the written names are strictly ascending, so unique |
| InstructorIndex.FiledWritten | scripts/fetchInstructors/main.go:83-104 | a filed instructor is written with an offering in each slot it covered |
| InstructorIndex.BuildComplete | scripts/fetchInstructors/main.go:42-104 | every non-blank name on an offering of a keyed outline is written, trimmed, with an offering in that outline's slot |
| InstructorIndex.BuildSound | scripts/fetchInstructors/main.go:42-104 | every offering of every written instructor is the (Dept, Number, Term, Title) slot of a keyed input outline's offering that lists a name trimming to the instructor's name |
| InstructorIndex.BuildGood | scripts/fetchInstructors/main.go:42-104 | the written list has strictly ascending, trimmed, non-blank names, each with at least one offering, sorted, with no two in the same (Dept, Number, Term) |
| Calendar.TermForDate | cmd/api/api.go:295-310 | the year is written as `%d` writes it; months 1-4 are spring, 5-8 summer, 9-12 fall, and any other month has no term |
| Calendar.NextTermOfSeason | cmd/api/api.go:313-329 | spring goes to summer and summer to fall in the same year; fall goes to spring of the next year |
| Calendar.NextTermOfDate | cmd/api/api.go:295-329 | every month 1..12 gets a term, and the next term of a date is its term's successor |
| Calendar.NextTermThrice | cmd/api/api.go:313-329 | three steps give the same season one year later |
| Calendar.SyncCommands | cmd/api/api.go:170-183 | five commands in order: fetch-sections for the current term and for the next term, then sync-offerings, sync-instructors and fetch-instructors with no arguments |
| Calendar.ReloadAll | cmd/api/api.go:204-216 | each store takes its successful load stamped `now`; a store whose load fails keeps its cache |
| Calendar.RunDataSync | cmd/api/api.go:167-228 | every command runs, whatever the earlier ones did; successCount is the number that succeeded, at most totalCommands = 5; then every store is reloaded |
| Http.QueryGet | cmd/api/outlines.go:32 | an absent key reads as "" |
| Http.ReplyOf | cmd/api/outlines.go:51-58 | `ErrNotFound` maps to 404, a load error to 500, and a value to 200 with that value |
| OutlinesApi.ParseLimit | cmd/api/outlines.go:32-39 | absent iff empty; rejected iff present and either not an `Atoi` integer or below 1 |
| OutlinesApi.ParseOffset | cmd/api/outlines.go:41-48 | absent iff empty; rejected iff present and either not an `Atoi` integer or negative |
| OutlinesApi.ParseExamples | cmd/api/outlines.go:32-48 | "0" is rejected as a limit, "-1" as an offset and "ten" as a limit, while "+5" is a limit of 5 |
| OutlinesApi.NextOf | cmd/api/outlines.go:66-80 | as intended, with `offset + limit` computed exactly: a next link exists iff a limit is given and offset (default 0) + limit < totalCount; it carries the same limit and that offset |
| OutlinesApi.NextOfAsWritten | cmd/api/outlines.go:66-80 | as written, `offset + limit` wraps round in 64-bit `int` before it is compared with the total, and the link carries the wrapped offset |
| OutlinesApi.NextOfAsWrittenAgrees | cmd/api/outlines.go:66-80 | while `offset + limit` fits in an `int`, the code as written gives the exact link |
| OutlinesApi.WrappedNextLink | cmd/api/outlines.go:66-80 | `limit = MaxInt64, offset = 5` over two outlines: the page is empty with count 0, yet as written a link appears whose negative offset the handler itself rejects; exactly, there is no link |
| OutlinesApi.NextLinkValid | cmd/api/outlines.go:66-80 | every exact link over a total a Go `int` can count is a valid request again under the handler's own rules |
| OutlinesApi.GetAllCourseOutlines | cmd/api/outlines.go:25-86 | 400 iff the limit or the offset is rejected, with the store untouched; otherwise the store's error as 404/500, or 200 with its page, total and next link |
| OutlinesApi.NextPageAdjacent | cmd/api/outlines.go:66-80 | when there is a next link, the page is a full `limit` outlines and the link's offset is just past them, below the total |
| OutlinesApi.NextPageParses | cmd/api/outlines.go:74-75 | the link's limit and offset, written by `Itoa`, are accepted again by the handler's own rules |
| OutlinesApi.GetCourseOutlinesByDept | cmd/api/outlines.go:98-117 | 200 only with a non-empty list of the department's outlines; 404 iff none match; 500 on a reload error |
| OutlinesApi.GetCourseOutlinesByDeptAndNumber | cmd/api/outlines.go:130-151 | 200 only with the outline of the upper-cased key; on a sorted snapshot, 200 iff one exists, else 404; 500 on a reload error |
| SectionsApi.SplitYearTerm | cmd/api/sections.go:13-19 | succeeds iff the input has exactly one '-'; then year + "-" + term is the input and neither part contains '-' |
| SectionsApi.SplitYearTermOfJoin | cmd/api/sections.go:13-19 | a dash-free year and term joined with '-' split back into themselves |
| SectionsApi.SplitYearTermExamples | cmd/api/sections.go:13-19 | "2024-fall" splits into "2024" and "fall"; "2024fall" is rejected |
| SectionsApi.WithOutlines | cmd/api/sections.go:22-34 | absent means false; otherwise `ParseBool`, whose rejection is a 400 |
| SectionsApi.GetSections | cmd/api/sections.go:50-103 | 400 iff yearTerm does not have exactly one '-' or withOutlines does not parse, including an empty yearTerm; true routes to the joined store, otherwise the plain one; on both branches `ErrNotFound` is a 404, another error a 500, and a value a 200 |
| InstructorsApi.GetInstructorsByName | cmd/api/instructors.go:115-138 | the store's `ErrNotFound` is a 404 and other errors a 500; otherwise 200 with the order-preserving subsequence of exactly the instructors whose lower-cased name contains the lower-cased query, each as often as the store lists it |
| InstructorsApi.EmptyNameMatchesAll | cmd/api/instructors.go:130-132 | an empty query returns every instructor |
| InstructorsApi.NoMatchIsEmptySuccess | cmd/api/instructors.go:130-137 | a query nobody matches is a 200 with an empty list, not a 404 |
| ReviewsApi.NormalizeName | cmd/api/reviews.go:18-21 | same length; each space becomes '_' and every other character is lower-cased; no space remains |
| ReviewsApi.NormalizeNameIdempotent | cmd/api/reviews.go:18-21 | normalising twice is normalising once |
| ReviewsApi.Variations | cmd/api/reviews.go:26-30 | exactly three spellings: normalised, spaces as '_', and the name filtered on its non-space characters in order; none contains a space |
| ReviewsApi.SpacesAsUnderscores | cmd/api/reviews.go:28 | the name with each space turned into '_' and every other character kept in place |
| ReviewsApi.SpacesRemoved | cmd/api/reviews.go:29 | the name's non-space characters in their original order, as `Filter` computes them |
| ReviewsApi.VariationsFoldAlike | cmd/api/reviews.go:26-30 | the second spelling lower-cases to the first |
| ReviewsApi.FirstKeyBeforeLast | cmd/api/reviews.go:154-159 | the first position holding the key with a segment after it, or none iff there is no such position |
| ReviewsApi.InstructorNameOf | cmd/api/reviews.go:151-159 | the segment right after the first "instructors" segment that has a successor, else ""; never contains '/' |
| ReviewsApi.InstructorNameOfPath | cmd/api/reviews.go:151-159 | every path `/instructors/<name>` whose name has no '/' names that instructor |
| ReviewsApi.GetInstructorReviews | cmd/api/reviews.go:149-190 | 400 iff no name is found; 404 iff no file matches a spelling; with a file found, 200 iff it reads and parses, with its content |

## Left out

- Goroutines, semaphores, wait groups, mutexes and context deadlines. The harvest is a sequential fold over fetch outcomes, taken in listing order, which is one of the schedules the goroutines can produce. The one lock fault with a functional effect is under Findings.
- Network I/O. The catalog fetchers, `scripts/fetchCourses.go`, `cmd/api/health.go`, `triggerRevalidation`, `ReadFromURL` and `exec.Command` are all left out. Their outcomes are inputs: `Catalog`, and the `succeeds` predicate of `RunDataSync`.
- File reading, JSON decoding and encoding, file writing and `go:embed`. A file is its decoded content or `Malformed`. A decoder that accepts part of a file is not modelled.
- `TransformDate`'s `time.Parse` and `Format`. They are an uninterpreted partial function.
- The clock. `time.Now` and `time.Since` are an integer clock in nanoseconds.
- `runDataSync` reads the clock twice, once for the current term and once for the next. The model uses one date for both.
- `lastDataUpdate` and its lock are not modelled.
- The rating averages and the directory walk of `cmd/api/reviews.go`. The walk is the `find` input of `GetInstructorReviews`. The course-review handler is not part of this model.
- HTTP routing, middleware, CORS, gzip, the docs page, `cmd/api/json.go`, `internal/env/env.go`, `cmd/api/main.go`, and the constructor wiring of `internal/store/storage.go`.
- `writeJSON` failures after a 200 is chosen.
- The URL encoding of `nextURL`. The link is modelled as the (limit, offset) pair it carries.
- `cmd/api/courses.go`, whose handlers target a store `Storage` does not have, and `cmd/api/sections_with_outlines.go`, thin handlers over the joined store's lookups.
- `scripts/fetchOutlines/main.go` and `scripts/fetchSectionDetail/main.go`. Only their term loop is modelled, as `Harvest.ProcessTermsOutlines`.
- `internal/model/types.go`. The records follow how the code uses them.
- `Sections.Get`, `SectionsWithOutlines.Get` and `Instructors.GetAll` are called by the handlers but not defined in the store files. `GetSections` and `GetInstructorsByName` take their outcome as an input.
- Unicode case mapping. `ToUpper`, `ToLower` and `lo.Capitalize` are ASCII only.
- The double write of `getWithOutlines` after a bad flag. The first write sets the status, so the model answers 400.
- The relative order of offerings with equal term values after the unstable `sort.Slice` of syncInstructors. The code promises nothing about it, so `AddOffering` states a newest-first permutation only.
- The order in which Go iterates a map. Each map is one fixed order, and the written outputs are stated as sorted permutations.
- OutlinesApi.GetAllCourseOutlines: uses the exact next offset of `NextOf`. The wrapped offset of the code as written is the third Findings row.
- OutlinesApi.NextPageAdjacent: stated for the exact link; the wrapped link of the code as written is the third Findings row.
- InstructorIndex.OfferingLeTotalPreorder: compares term values exactly, not by the sign of the 64-bit difference `termB - termA`. That difference could wrap only for years of seventeen digits or more, and every label the sync scripts write has a four-digit year.
- OfferingSync.IndexOutlines: states only that keys are distinct. `IndexFrom` and `IndexUnique` give the rest.
- FetchSections.FoldDepartments: its own contract states only the frame (no key removed, entries well formed). Which courses it files is stated by `FoldDepartmentsSound` and `FoldDepartmentsComplete`, so `ProcessTerm` and `Run` chain to those lemmas.
- Harvest.FoldSectionDepartments: its own contract states only the frame (no key removed, keys distinct). Which courses it files is stated by `FoldSectionDepartmentsSound` and `FoldSectionDepartmentsComplete`, and for a term by `ProcessTermSectionsSound` and `ProcessTermSectionsComplete`.
- FetchSections.ProcessSectionDetails: the section details are appended in the order their goroutines finish, and `ToCourseWithSectionDetails` takes the course-level fields (Dept, Number, Title, Units, Term) from the first detail in that order. Only the section list is re-sorted afterwards. The model fixes the arrival order to listing order, one possible schedule, so when two details carry different course-level fields it promises the first listed one's, where the code may keep another's. `FiledCourse`, `Run`, `RunSound` and `RunComplete` inherit this.
- FetchSections.RunComplete: assumes no other processed course shares the course's "dept number" key. The code files courses from concurrent goroutines, so which of two colliding courses is kept is not determined, and the model promises nothing about it. `TermFiledComplete` has the same assumption.
- FetchSections.FoldCourses: states each changed entry through `CourseFiled`, the per-course value of the loop (none for an untitled course, else the filed course). `Harvest.FoldSectionCourses` uses `CourseDetails` in the same way.
- OfferingSync.SyncOffered: states the offerings of an outline whose key no other input outline shares. Under a shared key the map keeps the last such outline's fields, as `JoinedStore.FileOutlinesLastWins` states for the same loop shape.

## Findings

| source | as written | input that shows it | evidently intended | confidence | as-written member | corrected member |
|---|---|---|---|---|---|---|
| internal/store/outlines.go:92-97 | `end := offset + limit` is computed in 64-bit `int`. The handler accepts any limit of at least 1, so the sum can wrap negative, and the slice `[offset:end]` then panics. | `GET /outlines?limit=9223372036854775807&offset=1` over two outlines | the outlines from `offset` on, at most `limit` of them: here the second outline, with count 2 | not executed | OutlineStore.PaginateAsWritten, OutlineStore.PaginateOverflowPanics | OutlineStore.Paginate, OutlineStore.PaginateAsWrittenAgrees |
| internal/store/sections_with_outlines.go:99-123 | `reloadIfNeeded` holds the read lock, with a deferred unlock, while `loadSectionsWithOutlines` runs. When the files load, the load requests the write lock at line 99, so the stale read waits for itself forever. A load that fails returns its error before line 99, so that read does return. | any request to the joined store more than five minutes after its last load, with files that read and parse | release the read lock before reloading, as the sections store does at internal/store/sections.go:74-85 | not executed | JoinedStore.ReloadIfNeededAsWritten, JoinedStore.StaleReadBlocks | JoinedStore.ReloadIfNeeded, JoinedStore.AsWrittenAgrees |
| cmd/api/outlines.go:66-80 | `nextOffset := offsetOpt.OrElse(0) + limit` at line 69 is computed in 64-bit `int`. A huge limit makes it wrap negative. It is then below `totalCount`, and the handler emits a next link with a negative offset, which its own offset rule rejects. | `GET /outlines?limit=9223372036854775807&offset=5` over two outlines | no next link, since the offset is already past the end | not executed | OutlinesApi.NextOfAsWritten, OutlinesApi.WrappedNextLink | OutlinesApi.NextOf, OutlinesApi.NextLinkValid |
