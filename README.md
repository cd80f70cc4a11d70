# City College of Bayawan portal: chatbot and portal utilities in Dafny

This project models, in Dafny, the chatbot of the City College of Bayawan
website and the small utilities around it, and proves properties of the
model.

**Chatbot pipeline.** Messages are normalised and tokenised (`Text`). A
bigram Dice coefficient gives fuzzy containment (`Fuzzy`). Fetched JSON
records become knowledge entries through the content extractors
(`Extractor`), driven by the source registry (`Registry`). Those entries
join the hand-written static table (`Knowledge`) and are indexed by their
token sets (`Context`). A user message is first checked for small talk
(`Intent`, `Responses`). It is then scored against the index (`Matcher`).
A confident match is answered locally by the formatter (`Formatter`);
anything else goes to the backend with a context and history payload.
The orchestrating hook (`Chat`) and the widget (`Widget`) are classes
whose fields are the React state. Their methods update that state and
the browser storage, which is a class over a map (`Session`). Message
text is split into plain and `[anchor](url)` link parts (`Links`).
`Entities` models entity extraction. `Strs`, `Js`, `Records` and
`Wrappers` hold shared string functions, the JSON value model, the entry
records and Option.

**Legacy component.** `Legacy` models the older self-contained chat
component in `src/components/Chatbot.js`. It reuses the newer pipeline
where the code is the same. Where the code differs, it proves how the two
relate: substring small talk, no fuzzy bonus, and entries without details
or actions. That component's `renderMessage` (lines 659-686) is the same
code as `Message.jsx`, which `Links` models.

**Portal utilities.**
- `Security`: the login lockout and the rate limiter of
  `portal/security.py`, over a cache that is a map of entries with expiry
  times and an explicit clock.
- `PortalUtils`: the HTML and input sanitisers and the upload check of
  `portal/utils.py`.
- `Sanitize`: the front-end input sanitiser.
- `Seo`: the SEO helpers.
- `Image`: the image URL optimiser and responsive sources.
- `Perf`: the performance scoring and metric store.

The static knowledge table has eleven entries (src/utils/chatbotKnowledge.js); the
registry declares eleven dynamic sources (src/services/contentRegistry.js).


## Model

| member | source | states |
|---|---|---|
| Text.CleanChar | src/utils/textProcessing.js:9 | a character outside `[a-z0-9\s]` becomes a space, so every result is a word character or whitespace |
| Text.CleanTextAt | src/utils/textProcessing.js:8-9 | the lower-cased, cleaned text has each character of the input lower-cased and cleaned in place, with the length unchanged |
| Text.CollapseSpacing | src/utils/textProcessing.js:10 | after collapsing, no two spaces are adjacent |
| Text.NormalizeText | src/utils/textProcessing.js:6-12 | the result holds only `a-z`, `0-9` and single interior spaces, with no leading or trailing space, and is no longer than the input |
| Text.NormalizeFixes | src/utils/textProcessing.js:6-12 | a text already in normal form is left as it is |
| Text.NormalizeIdempotent | src/utils/textProcessing.js:6-12 | normalising twice gives the same as normalising once |
| Text.KeepTokens | src/utils/textProcessing.js:19 | the filter keeps exactly the words that are non-empty and not stop words |
| Text.KeepTokensCounts | src/utils/textProcessing.js:19 | each kept word keeps its number of occurrences, and every other word occurs zero times |
| Text.Tokenize | src/utils/textProcessing.js:14-20 | a text that normalises to the empty string gives no tokens, and every token is non-empty, has no space and is not a stop word |
| Text.NormalWordsNonEmpty | src/utils/textProcessing.js:17-18 | splitting a non-empty normal text on spaces gives no empty piece |
| Text.TokensAreWords | src/utils/textProcessing.js:14-20 | the tokens are the words of the normalised text, with their occurrence counts, minus the stop words |
| Text.WordsRebuildNormal | src/utils/textProcessing.js:17-18 | joining the split words with single spaces rebuilds the normalised text |
| Text.TokenizeNormalized | src/utils/textProcessing.js:14-20 | tokenising the normalised text gives the same tokens as tokenising the raw text |
| Fuzzy.Bigrams | src/utils/fuzzyMatcher.js:3-11 | the bigram list is never empty, so the zero-length guard in `diceCoefficient` is dead |
| Fuzzy.BigramsShape | src/utils/fuzzyMatcher.js:3-11 | a normal text shorter than 2 gives itself as its only bigram; a longer one gives its length minus one two-character slices, in order |
| Fuzzy.BuildBigrams | src/utils/fuzzyMatcher.js:3-11 | the loop that pushes the slices returns exactly the bigram list |
| Fuzzy.PushPairs | src/utils/fuzzyMatcher.js:6-10 | the push loop yields the slice starting at each index but the last |
| Fuzzy.MatchesIsIntersection | src/utils/fuzzyMatcher.js:23-30 | consuming counts from the map matches exactly the size of the multiset intersection |
| Fuzzy.CountBigrams | src/utils/fuzzyMatcher.js:18-21 | after the count loop, the map holds the number of occurrences of each bigram of `b` |
| Fuzzy.CountMatches | src/utils/fuzzyMatcher.js:23-30 | the match loop counts the size of the multiset intersection of the two bigram lists |
| Fuzzy.Dice | src/utils/fuzzyMatcher.js:13-33 | the coefficient is twice the common bigrams over the total bigrams, and lies between 0 and 1 |
| Fuzzy.DiceCoefficient | src/utils/fuzzyMatcher.js:13-33 | the method with its two loops returns exactly the coefficient |
| Fuzzy.DiceSymmetric | src/utils/fuzzyMatcher.js:13-33 | the coefficient does not depend on the order of its arguments |
| Fuzzy.DiceSelf | src/utils/fuzzyMatcher.js:13-33 | every text has coefficient 1 with itself |
| Fuzzy.DiceOfEmpty | src/utils/fuzzyMatcher.js:5-16 | two empty texts have coefficient 1 (each has the bigram list `[""]`), and an empty text against a one-letter one has 0 |
| Fuzzy.FuzzyIncludes | src/utils/fuzzyMatcher.js:35-41 | an empty normalised needle or haystack never matches; a normalised haystack that contains the normalised needle always does |
| Fuzzy.FuzzyThresholdMonotone | src/utils/fuzzyMatcher.js:35-41 | a match at a higher threshold is also a match at every lower one |
| Fuzzy.FuzzyThresholdExtremes | src/utils/fuzzyMatcher.js:35-41 | above 1, only a substring match counts; at or below 0, any two non-empty texts match |
| Fuzzy.FuzzySelf | src/utils/fuzzyMatcher.js:35-41 | every text that does not normalise to empty matches itself at every threshold |
| Text.IsWordChar | src/utils/textProcessing.js:9 | the characters `[a-z0-9]` that survive the clean (`Text.CleanChar`) |
| Strs.IsJsSpace | src/utils/textProcessing.js:10 | the whitespace of JavaScript `\s` and `trim()`: the ASCII controls tab to carriage return, space, no-break space and the Unicode space separators, line and paragraph separators and BOM |
| Strs.IsPySpace | portal/utils.py:57 | the whitespace of Python `strip()`: as JavaScript's but with the separators U+001C-U+001F and U+0085, and without BOM |
| Strs.TrimBy | src/utils/sanitize.js:43 | the general trim: its result is contained in the text, never longer, and neither starts nor ends with a trimmed character |
| Strs.TrimBySlice | src/utils/sanitize.js:43 | the trim is a slice `s[lo..hi]` with only trimmed characters before `lo` and from `hi` on, the fact `Strs.JsTrim` and `Strs.PyStrip` rest on |
| Strs.Contains | src/utils/PerformanceMonitor.js:181-184 | `includes`: the text occurs at some index (`Strs.ContainsTrans`, `Strs.ContainsChars`) |
| Strs.StartsWith | src/utils/ImageOptimizer.js:11 | `startsWith`: the text begins with the prefix |
| Strs.EndsWith | src/utils/PerformanceMonitor.js:183 | the `$`-anchored test of the image pattern: the text ends with the suffix |
| Strs.AffixContained | src/utils/ImageOptimizer.js:11 | a text that starts or ends with a part contains that part |
| Strs.NatToString | src/services/contentExtractor.js:81 | the decimal text of an index: non-empty and made of digits only (`Strs.NatToStringInjective`: distinct numbers give distinct texts) |
| Text.IsStopWord | src/utils/textProcessing.js:1-4 | membership in the 30 stop words of the source's set |
| Text.CleanText | src/utils/textProcessing.js:8-9 | the lower-cased text with every character outside `[a-z0-9\s]` replaced by a space; the length is kept (`Text.CleanTextAt` states it place by place) |
| Text.Collapse | src/utils/textProcessing.js:10 | the `\s+` replacement; never longer than its input (`Text.CollapseSpacing` shows no two spaces are adjacent) |
| Text.CollapseRun | src/utils/textProcessing.js:10 | the collapse of the rest of a text after a whitespace run or not; never longer than its input |
| Fuzzy.Matches | src/utils/fuzzyMatcher.js:23-30 | the greedy matches of the second loop on a multiset of remaining bigrams; at most either side's size (`Fuzzy.MatchesIsIntersection`) |
| Fuzzy.CommonBound | src/utils/fuzzyMatcher.js:23-32 | the common bigrams are no more than either list holds, so the ratio is at most 1 |
| Fuzzy.Ratio | src/utils/fuzzyMatcher.js:32 | twice the common count over the sum of the lengths, between 0 and 1 |
| Fuzzy.Count | src/utils/fuzzyMatcher.js:20-25 | the stored count of a bigram, or 0 when the map lacks it |
| Fuzzy.MapMatches | src/utils/fuzzyMatcher.js:23-30 | the same greedy matches stated on the count map, each match using up one count |
| Fuzzy.MapMatchesIsMatches | src/utils/fuzzyMatcher.js:18-30 | on a count map that agrees with a multiset, the map matches equal the multiset matches |
| Fuzzy.ConsumeOne | src/utils/fuzzyMatcher.js:25-28 | using up one count of a present bigram keeps the map equal to the remaining multiset |
| Extractor.TextItems | src/services/contentExtractor.js:7 | the array filter keeps exactly the strings whose trim is non-empty |
| Extractor.ExtractText | src/services/contentExtractor.js:3-10 | a string gives itself, an array its non-blank strings joined by spaces, any other value the empty string |
| Extractor.FieldTexts | src/services/contentExtractor.js:21-26 | only non-empty field texts are collected, at most one per field |
| Extractor.ListPart | src/services/contentExtractor.js:27-32 | `core_courses`/`specializations` add exactly one part when the field is truthy, and none otherwise |
| Extractor.Summary | src/services/contentExtractor.js:12-34 | a non-object gives the fallback; otherwise the result is the fallback or a non-empty text without leading or trailing whitespace, and never empty when the fallback is not |
| Extractor.SummaryContainsParts | src/services/contentExtractor.js:14-33 | every collected part, trimmed, occurs in the summary |
| Extractor.SummaryFallsBackOnlyWhenBlank | src/services/contentExtractor.js:33 | as soon as one part is non-blank, the summary is the trimmed join of the parts, not the fallback |
| Extractor.SummaryOfEmptyRecord | src/services/contentExtractor.js:33 | a record with no fields gives the fallback |
| Extractor.PushFieldTexts | src/services/contentExtractor.js:20-26 | the `forEach` push loop collects exactly the field texts |
| Extractor.BuildSummaryFromItem | src/services/contentExtractor.js:12-34 | the imperative builder returns exactly the specified summary |
| Extractor.FirstTruthy | src/services/contentExtractor.js:38-46 | the chain of logical ors yields the first truthy field, or the fallback when none is truthy |
| Extractor.Title | src/services/contentExtractor.js:36-47 | a non-object gives the fallback; an object gives the first truthy title field, in the order title, name, department_name, position, role, short_title |
| Extractor.TitlePriority | src/services/contentExtractor.js:39-40 | `title` wins over `name`, and `name` is used when `title` is falsy |
| Extractor.Details | src/services/contentExtractor.js:49-63 | a non-object has no detail lines, and an object has at most nine |
| Extractor.DetailLinesPrefix | src/services/contentExtractor.js:52-61 | the lines are appended in the source's order, each prefix of the checks giving a prefix of the result |
| Extractor.DetailsBothTimes | src/services/contentExtractor.js:55-56 | with `formatted_time`, `start_time` and `end_time` all set, both "Time:" lines appear, the formatted one first |
| Extractor.DetailsDateFirst | src/services/contentExtractor.js:52-53 | with no `date` but an `event_date`, the first line is the event date |
| Extractor.PushLine | src/services/contentExtractor.js:53-61 | one guarded `push`: it appends the line exactly when its test holds |
| Extractor.BuildDetailsFromItem | src/services/contentExtractor.js:49-63 | the imperative builder returns exactly the specified detail lines |
| Extractor.FirstList | src/services/contentExtractor.js:68-70 | the loop returns the first key that holds an array, or nothing when none does |
| Extractor.ResolveItems | src/services/contentExtractor.js:65-73 | an array is returned as it is, an object gives its first array-valued key, and anything else gives the empty list |
| Extractor.DedupeFrom | src/services/contentExtractor.js:78 | the result holds exactly the unseen elements, without repeats |
| Extractor.Dedupe | src/services/contentExtractor.js:78 | `Array.from(new Set(...))` keeps exactly the elements of the list, each once |
| Extractor.DedupeFromAppend | src/services/contentExtractor.js:78 | deduplicating a concatenation deduplicates the second part against everything in the first |
| Extractor.DedupeAfterDistinct | src/services/contentExtractor.js:78 | a repeat-free prefix survives deduplication unchanged, in first-insertion order |
| Extractor.DynamicEntry | src/services/contentExtractor.js:75-94 | id `baseId-index`; title `baseTitle: title`; the base url; a summary of at most 260 characters or the base title, never empty when the base title is not; the detail lines; keywords that are exactly the base keywords plus the title's tokens, without repeats |
| Extractor.DynamicKeywordsOrder | src/services/contentExtractor.js:78 | the keywords are the base keywords, in order, followed by the new title tokens in first-seen order |
| Extractor.BaseUrl | src/services/contentExtractor.js:216 | a non-empty section appends `?section=` and the section to the url, otherwise the url is used as it is |
| Extractor.GenericEntries | src/services/contentExtractor.js:216-225 | one entry for each of the first `limit` resolved items, the i-th built from item i with index i |
| Extractor.Dehyphen | src/services/contentExtractor.js:105 | every hyphen becomes a space and nothing else changes |
| Extractor.CapitalizeWordsAt | src/services/contentExtractor.js:106 | `\b\w` upper-cases a word character exactly when the previous character is not a word character |
| Extractor.LabelShape | src/services/contentExtractor.js:104-106 | a hyphen becomes a space, any letter starting a word is upper-cased, and the other characters are kept |
| Extractor.Anchor | src/services/contentExtractor.js:181-184 | `hr-policies` and `hr-forms` get their own anchors; otherwise `#forms` exactly for categories starting `forms-`, else `#documents` |
| Extractor.ItemEntry | src/services/contentExtractor.js:103-121 | building an entry fails exactly for a null or undefined item, whose property read throws |
| Extractor.KindEntryShape | src/services/contentExtractor.js:107-120 | each kind of entry has its kind's id prefix followed by the index, its kind's url, the dynamic source type and two actions |
| Extractor.StepTitleFallback | src/services/contentExtractor.js:127 | without a title, a step is named `Step ` followed by its `step_number`, or by its position counted from 1 |
| Extractor.CategoryEntries | src/services/contentExtractor.js:103-121 | a category yields one entry per item within the limit, in order, and fails exactly when one of those items throws |
| Extractor.KindEntriesShape | src/services/contentExtractor.js:101-122 | all categories together give at most `limit` entries each, every one dynamic and at its kind's url |
| Extractor.KindEntriesStaysFailed | src/services/contentExtractor.js:101-122 | once a category throws, the whole build throws |
| Extractor.PushCategoryEntries | src/services/contentExtractor.js:103-121 | the push loop for one category appends exactly that category's entries, or fails when they fail |
| Extractor.PushKindEntries | src/services/contentExtractor.js:101-122 | the loop over the categories returns exactly the specified entries |
| Extractor.OrEmpty | src/services/contentExtractor.js:98-99 | a value or-ed with `{}` is never null or undefined and keeps a truthy value |
| Extractor.AdmissionsEntries | src/services/contentExtractor.js:96-149 | every admissions entry points at `/admissions` and is dynamic |
| Extractor.BuildAdmissionsEntries | src/services/contentExtractor.js:96-149 | the imperative builder returns exactly the specified admissions entries |
| Extractor.DownloadsEntries | src/services/contentExtractor.js:175-203 | data without a downloads object gives no entries; every entry's url starts `/downloads#` and is dynamic |
| Extractor.BuildDownloadsEntries | src/services/contentExtractor.js:175-203 | the imperative builder returns exactly the specified downloads entries |
| Extractor.InstitutionalDetails | src/services/contentExtractor.js:154-158 | at most four flag lines |
| Extractor.InstitutionalEntry | src/services/contentExtractor.js:151-173 | the single entry has id `institutional-info` and url `/about`; its summary and flags come from `institutional_info`, or from the data itself when that is absent |
| Extractor.InstitutionalAllFlags | src/services/contentExtractor.js:155-158 | with every field set, the four flags appear in the source's order |
| Extractor.ExtractEntries | src/services/contentExtractor.js:205-226 | dispatches on the extractor name: admissions, institutional, downloads, or the generic per-item build |
| Extractor.GenericEntriesBound | src/services/contentExtractor.js:216-225 | the generic build never fails, gives at most `limit` entries, and entry i has the base url and id `source-i` |
| Extractor.SummaryParts | src/services/contentExtractor.js:20-32 | the non-empty texts of the 22 fields in order, then one part each for a truthy `core_courses` and `specializations` (`Extractor.SummaryContainsParts`) |
| Extractor.EmptyFieldTexts | src/services/contentExtractor.js:21-26 | a record without fields contributes no field text |
| Extractor.FieldTextsStep | src/services/contentExtractor.js:21-26 | one more field adds its text exactly when that text is non-empty |
| Extractor.Line | src/services/contentExtractor.js:53-61 | one guarded `push`: the line when its field is set, nothing otherwise |
| Extractor.DateValue | src/services/contentExtractor.js:52 | the first truthy of `date`, `event_date` and `achievement_date` (`Extractor.DetailsDateFirst`) |
| Extractor.DetailLine | src/services/contentExtractor.js:53-61 | the k-th of the nine detail lines when its fields are set; at most one line |
| Extractor.DetailLines | src/services/contentExtractor.js:51-62 | the first n detail lines that are present, in order; at most n (`Extractor.DetailLinesPrefix`) |
| Extractor.PushWhenLines | src/services/contentExtractor.js:52-56 | the date, location and two time pushes give exactly the first four detail lines |
| Extractor.PushWhereLines | src/services/contentExtractor.js:57-61 | the category, department, office, phone and email pushes complete the nine detail lines |
| Extractor.DedupeFromDistinct | src/services/contentExtractor.js:78 | a repeat-free list disjoint from the seen set is kept as it is |
| Extractor.IsRegexWordChar | src/services/contentExtractor.js:106 | the `\w` class: ASCII letters, digits and the underscore |
| Extractor.CapitalizeWords | src/services/contentExtractor.js:106 | `\b\w` upper-cased, keeping the length (`Extractor.CapitalizeWordsAt`) |
| Extractor.Label | src/services/contentExtractor.js:104-106 | the category label, as long as the category (`Extractor.LabelShape`) |
| Extractor.KindUrl | src/services/contentExtractor.js:110-189 | `/admissions` for requirements and steps, `/downloads` and the category's anchor for downloads (`Extractor.AnchorsStartWithHash`) |
| Extractor.KindPrefix | src/services/contentExtractor.js:108-187 | the id prefixes `admissions-req-`, `admissions-step-` and `downloads-` followed by the category |
| Extractor.RequirementEntry | src/services/contentExtractor.js:107-120 | a requirement entry: its text or the category as title and summary, the category label as detail, the fixed keywords and actions |
| Extractor.StepTitle | src/services/contentExtractor.js:127 | the step's title, else "Step" and its number, else its position counted from 1 (`Extractor.StepTitleFallback`) |
| Extractor.StepEntry | src/services/contentExtractor.js:131-144 | an enrollment-step entry: the step title, the description or the title as summary, the label as detail |
| Extractor.DownloadEntry | src/services/contentExtractor.js:186-199 | a download entry: title or category, description or the default summary, a file-type line when set |
| Extractor.KindEntry | src/services/contentExtractor.js:103-199 | the entry of a kind for a record that does not throw (`Extractor.KindEntryShape`) |
| Extractor.Present | src/services/contentExtractor.js:109-111 | neither null nor undefined, so reading a property does not throw (`Extractor.ItemEntry`) |
| Extractor.KindEntries | src/services/contentExtractor.js:101-122 | the entries of the list-valued categories in order, each cut to `limit`, failing when one record throws (`Extractor.KindEntriesShape`, `Extractor.KindEntriesStaysFailed`) |
| Extractor.PushedAll | src/services/contentExtractor.js:103-107 | once every outcome is pushed, the pushed part equals the outcomes |
| Extractor.PushedStep | src/services/contentExtractor.js:103-107 | one push keeps the pushed part equal to the outcomes so far |
| Extractor.AnchorsStartWithHash | src/services/contentExtractor.js:181-189 | every download url is `/downloads#` followed by the anchor |
| Extractor.Min | src/services/contentExtractor.js:103 | the smaller of two counts, used for `slice(0, limit)` |
| Js.Lookup | src/services/contentExtractor.js:52 | the value read is one of the object's fields under that name, and undefined when no field has the name |
| Js.Prop | src/services/contentExtractor.js:109-111 | `item.text` fails exactly when `item` is null or undefined |
| Js.Or | src/services/contentExtractor.js:98-99 | the logical or of two values is the first when it is truthy and the second otherwise |
| Js.Indexed | src/services/contentExtractor.js:101 | the elements of an array listed with their decimal indices as keys, in order |
| Js.Truthy | src/services/contentExtractor.js:54 | JavaScript truthiness: false exactly for undefined, null, false, 0 and the empty string (`Js.Or`) |
| Js.IsObject | src/services/contentExtractor.js:13 | `typeof v === 'object'` for a value that is not null: arrays and objects |
| Js.Get | src/services/contentExtractor.js:52-61 | `v[key]`: an object's first field of that name (`Js.Lookup`), an array's element at a decimal index, undefined otherwise |
| Js.OptProp | src/services/contentExtractor.js:155-158 | `v?.key`: undefined on null or undefined, otherwise `v[key]` |
| Js.Entries | src/services/contentExtractor.js:101 | `Object.entries`: an object's fields, an array's or a string's elements under their indices (`Js.Indexed`, `Js.Chars`), nothing for other values |
| Js.ToStr | src/services/contentExtractor.js:53-61 | `String(v)` as a template literal renders it: strings as themselves, numbers in decimal, arrays joined with commas |
| Js.Chars | src/services/contentExtractor.js:101 | a string lists as one one-character string per character |
| Context.EntryText | src/services/contentContext.js:3-7 | the entry text contains the title, the summary, the extra text and every keyword, detail line and action |
| Context.EntryTokens | src/services/contentContext.js:12 | every indexed token is a token: non-empty, no space, not a stop word |
| Context.EntryTokensAreWords | src/services/contentContext.js:12 | a word is indexed exactly when it is a word of the normalised entry text and not a stop word |
| Context.KnowledgeIndex | src/services/contentContext.js:9-14 | one indexed entry per entry, in order, each keeping its entry and carrying the token set of its text |
| Context.KnowledgeIndexAppend | src/services/contentContext.js:9-14 | indexing a concatenation is concatenating the indexes, so entries are indexed independently |
| Context.ContextItems | src/services/contentContext.js:16-22 | one item per match, in order, with the entry's title, url and summary |
| Matcher.Overlap | src/services/queryMatcher.js:6-9 | the overlap counts user tokens (repeats included) and never exceeds their number |
| Matcher.OverlapExtremes | src/services/queryMatcher.js:6-9 | all tokens indexed gives the full count, none gives 0 |
| Matcher.BaseScoreBounds | src/services/queryMatcher.js:11 | the base score is between 0 and 1, and with fewer than four tokens at most their number over 4 |
| Matcher.KeywordsScore | src/services/queryMatcher.js:16-24 | the keyword bonuses are non-negative and at most 0.13 per keyword |
| Matcher.LiteralKeywordAddsBoth | src/services/queryMatcher.js:18-23 | a keyword found literally in the message earns both the 0.08 and the 0.05 bonus |
| Matcher.Score | src/services/queryMatcher.js:4-26 | the score is between 0 and 1, 0 without user tokens, and the uncapped sum whenever that is at most 1 |
| Matcher.ScoreEntry | src/services/queryMatcher.js:4-26 | the method with its `forEach` loops returns exactly the specified score |
| Matcher.CountOverlap | src/services/queryMatcher.js:6-9 | the counting loop returns exactly the overlap |
| Matcher.AddKeywordBonuses | src/services/queryMatcher.js:16-24 | the keyword loop adds exactly the keyword bonuses |
| Matcher.InsertFacts | src/services/queryMatcher.js:37 | one insertion step of the sort keeps the elements and keeps a sorted list sorted |
| Matcher.SortFacts | src/services/queryMatcher.js:37 | sorting by descending score is a permutation and its result is sorted |
| Matcher.InsertStable | src/services/queryMatcher.js:37 | an inserted entry goes before every entry of equal score and leaves their order alone |
| Matcher.SortStable | src/services/queryMatcher.js:37 | the sort is stable: for every score, the entries with that score keep their input order |
| Matcher.AtLeastCounts | src/services/queryMatcher.js:41 | the filter keeps every copy of each entry at or above the floor and drops every copy below it |
| Matcher.AtLeastComplete | src/services/queryMatcher.js:41 | every entry at or above the floor survives the filter |
| Matcher.AtLeastSortedPrefix | src/services/queryMatcher.js:41 | on a sorted list the filter keeps a prefix: an entry reaches the floor exactly when it lies in that prefix |
| Matcher.SelectPrefix | src/services/queryMatcher.js:40-42 | on a sorted list the selection is its first min(3, n) entries, where exactly the first n reach the floor |
| Matcher.SelectComplete | src/services/queryMatcher.js:37-42 | an entry at or above the floor is selected, unless three selected entries score at least as high |
| Matcher.AtLeastAbove | src/services/queryMatcher.js:41 | the filter keeps only scores at or above the floor, and keeps the head when it qualifies |
| Matcher.AtLeastSub | src/services/queryMatcher.js:41 | the filter only drops elements |
| Matcher.AtLeastSorted | src/services/queryMatcher.js:41 | filtering a sorted list leaves it sorted |
| Matcher.Floor | src/services/queryMatcher.js:41 | the floor is the larger of 0.18 and 0.6 times the top score |
| Matcher.Select | src/services/queryMatcher.js:40-42 | at most three matches are kept |
| Matcher.SelectHead | src/services/queryMatcher.js:39-42 | the best entry is selected first exactly when the top score reaches 0.18, and nothing is selected otherwise |
| Matcher.SelectFromList | src/services/queryMatcher.js:40-42 | the selection draws from the ranked list and every selected score reaches the floor |
| Matcher.SortedMax | src/services/queryMatcher.js:37-39 | the head of the sorted list has the greatest score of all |
| Matcher.ScoreAll | src/services/queryMatcher.js:35-36 | every entry is scored, in order |
| Matcher.MatchQuery | src/services/queryMatcher.js:28-45 | the normalised message is returned; no tokens gives no matches and top score 0; at most three matches |
| Matcher.TopScoreIsMax | src/services/queryMatcher.js:39 | the top score is at least every entry's score, and 0 for an empty index |
| Matcher.TopScoreAttained | src/services/queryMatcher.js:39 | for a non-empty index, some entry has exactly the top score |
| Matcher.RankedSelection | src/services/queryMatcher.js:35-42 | the selection is sorted, drawn from the scored list, and above the adaptive floor |
| Matcher.MatchesAboveFloor | src/services/queryMatcher.js:35-42 | the matches are sorted by score, each reaches the floor, comes from the index and carries its own score |
| Matcher.MatchQueryRanks | src/services/queryMatcher.js:35-42 | with tokens, the matches are the selection of the ranked index and the top score is its head's; the ranked index is sorted |
| Matcher.MatchesArePrefix | src/services/queryMatcher.js:35-42 | with tokens, the matches are the first min(3, n) ranked entries, and exactly the first n reach the floor |
| Matcher.SelectedAt | src/services/queryMatcher.js:35-42 | one index entry at or above the floor is selected with its score, unless three selected entries score at least as high |
| Matcher.MatchesComplete | src/services/queryMatcher.js:35-42 | every index entry at or above the floor is among the matches with its score, unless three matches score at least as high |
| Matcher.TopIncluded | src/services/queryMatcher.js:39-42 | a top score of at least 0.18 puts the best entry first among the matches; a lower one gives no matches |
| Context.EntryParts | src/services/contentContext.js:4-6 | the six parts of the entry text in the template's order: title, summary, joined keywords, joined details, joined actions and the extra text |
| Context.ListPartsContained | src/services/contentContext.js:4-6 | every element of a list joined into one part occurs in the whole entry text |
| Matcher.BaseScore | src/services/queryMatcher.js:11 | the overlap divided by the larger of the token count and 4 (`Matcher.BaseScoreBounds`) |
| Matcher.TitleScore | src/services/queryMatcher.js:12-15 | 0.15 when the normalised title is non-empty and occurs in the message, otherwise 0 |
| Matcher.KeywordScore | src/services/queryMatcher.js:17-23 | 0.08 for a non-empty normalised keyword occurring literally, plus 0.05 when the fuzzy test accepts it (`Matcher.LiteralKeywordAddsBoth`) |
| Matcher.RawScore | src/services/queryMatcher.js:6-24 | the base score plus the title bonus plus the keyword bonuses, before the clamp (`Matcher.Score` is clamped from it and equals it when it is at most 1) |
| Matcher.Insert | src/services/queryMatcher.js:37 | one insertion step of the descending sort; one element longer (`Matcher.InsertFacts`) |
| Matcher.SortByScore | src/services/queryMatcher.js:37 | the descending sort of the scored list, same length (`Matcher.SortFacts`: a permutation and sorted; `Matcher.SortStable`: stable) |
| Matcher.WithScore | src/services/queryMatcher.js:37 | the entries of one score in their order, the measure of stability (`Matcher.SortStable`) |
| Matcher.Ranked | src/services/queryMatcher.js:34-37 | the scored index sorted by score (`Matcher.MatchQueryRanks`: sorted) |
| Matcher.AtLeast | src/services/queryMatcher.js:41 | the ordered filter of the scores at or above the floor (`Matcher.AtLeastAbove`, `Matcher.AtLeastSub`, `Matcher.AtLeastSorted`; complete by `Matcher.AtLeastCounts` and `Matcher.AtLeastComplete`) |
| Matcher.Top | src/services/queryMatcher.js:39 | the head's score, 0 for an empty list (`Matcher.TopScoreIsMax`, `Matcher.TopScoreAttained`) |
| Matcher.SelectSorted | src/services/queryMatcher.js:40-42 | the selection of a sorted list is sorted |
| Intent.RecognizeIntent | src/services/intentRecognizer.js:3-30 | the normalised text is returned; the intent is empty exactly for an empty text, and otherwise the first of greeting, thanks, goodbye and latest whose test holds, else general |
| Intent.TokenSetIsWords | src/services/intentRecognizer.js:8 | a word that is not a stop word is in the token set exactly when it is a word of the normalised text |
| Intent.HiIsAWord | src/services/intentRecognizer.js:10-19 | a message containing the word "hi" is a greeting |
| Intent.OneWordIsGeneral | src/services/intentRecognizer.js:10-29 | a one-word message that is none of the intent words and does not contain "appreciate" is general |
| Intent.HistoryIsGeneral | src/services/intentRecognizer.js:10-29 | "history" is not a greeting, although it contains "hi", because the service tests whole tokens |
| Intent.NewsIsGeneral | src/services/intentRecognizer.js:26-29 | "news" is not a latest-intent message, because "new" is tested as a token |
| Responses.QuickReply | src/services/responseGenerator.js:4-16 | a quick reply exists exactly for greetings, thanks and goodbyes, and each gets its own fixed text |
| Responses.RepliesDistinct | src/services/responseGenerator.js:7-13 | the three quick replies are different texts |
| Responses.HiGetsGreeting | src/services/responseGenerator.js:4-8 | a message containing the word "hi" gets the greeting reply |
| Responses.HistoryGetsNoQuickReply | src/services/responseGenerator.js:4-16 | "history" gets no quick reply |
| Responses.BuildLocalResponse | src/services/responseGenerator.js:18 | the local response is the formatter's rendering of the intro and the match blocks |
| Formatter.IntroFor | src/utils/contentFormatter.js:8-15 | "where"/"find" wins; otherwise dynamic matches give the latest-updates intro when a latest word is present and the relevant-updates one when not; without dynamic matches the relevant-page intro |
| Formatter.NewsWantsLatest | src/utils/contentFormatter.js:5 | a message containing "news" counts as asking for the latest, since "new" is tested as a substring |
| Formatter.NonEmptyItems | src/utils/contentFormatter.js:18-19 | `filter(Boolean)` keeps exactly the non-empty strings |
| Formatter.ItemLinesShape | src/utils/contentFormatter.js:23-30 | a section appears exactly when some item is non-empty, and then it is the header followed by one indented bullet per non-empty item |
| Formatter.BlockBullets | src/utils/contentFormatter.js:20-31 | each block has exactly one top-level bullet, the entry's link line |
| Formatter.BulletPerMatch | src/utils/contentFormatter.js:17-32 | the reply has exactly one top-level bullet per match, in order |
| Formatter.LinesAppend | src/utils/contentFormatter.js:17-32 | `flatMap` adds each match's block after those before it |
| Formatter.BuildBlock | src/utils/contentFormatter.js:18-31 | the push steps build exactly the specified block |
| Formatter.PushMarked | src/utils/contentFormatter.js:25-29 | the `forEach` push adds one marked line per item, in order |
| Formatter.BuildLines | src/utils/contentFormatter.js:17-32 | the loop over the matches builds exactly the specified lines |
| Formatter.FormatLocalResponse | src/utils/contentFormatter.js:3-35 | the reply is the intro, a blank line, the lines joined by newlines, a blank line and the closing sentence |
| Formatter.FormatErrorResponse | src/utils/contentFormatter.js:37-39 | a non-empty message is returned as it is, an empty one becomes the apology, and the result is never empty |
| Entities.MentionedIds | src/services/entityExtractor.js:17-19 | an id is listed exactly when some keyword of its page occurs in the text, with at most one id per page |
| Entities.ExtractEntities | src/services/entityExtractor.js:15-25 | the normalised text is returned, and the mentions are exactly the ids of the pages one of whose keywords occurs in it |
| Entities.MentionPositions | src/services/entityExtractor.js:17-19 | the mentions keep the order of the page table, and every mentioned page is listed |
| Entities.TableFacts | src/services/entityExtractor.js:3-13 | nine pages with distinct ids, none with an empty keyword |
| Entities.PageMentionsOrdered | src/services/entityExtractor.js:15-25 | the mentions of a message come in table order |
| Entities.MentionsAreIds | src/services/entityExtractor.js:17-19 | every mention is one of the nine page ids |
| Entities.EmptyMentionsNothing | src/services/entityExtractor.js:15-25 | an empty normalised message mentions no page |
| Intent.TokenSet | src/services/intentRecognizer.js:8 | the set of the message's tokens (`Intent.TokenSetIsWords`: exactly its non-stop words) |
| Intent.IsGreeting | src/services/intentRecognizer.js:10-17 | the token hello, hi or hey, or one of the three "good ..." phrases as a substring (`Intent.HiIsAWord`, `Intent.HistoryIsGeneral`) |
| Intent.IsThanks | src/services/intentRecognizer.js:20 | the token thank or thanks, or the substring "appreciate" |
| Intent.IsGoodbye | src/services/intentRecognizer.js:23 | the token bye or goodbye, or the substring "see you" |
| Intent.IsLatest | src/services/intentRecognizer.js:26 | one of the tokens latest, recent, new or updates (`Intent.NewsIsGeneral`) |
| Formatter.IntroText | src/utils/contentFormatter.js:8-15 | the four intro sentences, one per intro kind |
| Formatter.WantsLatest | src/utils/contentFormatter.js:5 | one of latest, recent, new or updates occurs as a substring (`Formatter.NewsWantsLatest`) |
| Formatter.AsksWhere | src/utils/contentFormatter.js:9 | "where" or "find" occurs in the normalised message |
| Formatter.HasDynamic | src/utils/contentFormatter.js:6 | some match's entry has the dynamic source type |
| Formatter.Marked | src/utils/contentFormatter.js:25-29 | one indented "  - " line per item, as many as the items |
| Formatter.ItemLines | src/utils/contentFormatter.js:23-30 | the header and the marked non-empty items, or nothing when none is non-empty (`Formatter.ItemLinesShape`) |
| Formatter.Bullet | src/utils/contentFormatter.js:21 | the link bullet `- [title](url): summary` of an entry |
| Formatter.Block | src/utils/contentFormatter.js:18-31 | the bullet, then the details section, then the actions section (`Formatter.BlockBullets`) |
| Formatter.Lines | src/utils/contentFormatter.js:17-32 | the blocks of the matches, in order (`Formatter.LinesAppend`, `Formatter.BulletPerMatch`) |
| Formatter.Render | src/utils/contentFormatter.js:34 | the intro, a blank line, the lines joined by newlines, a blank line and the closing sentence (`Formatter.FormatLocalResponse`) |
| Formatter.Bullets | src/utils/contentFormatter.js:17-32 | the lines of a reply that start with "- ", in order; never more than the lines |
| Formatter.BulletsAppend | src/utils/contentFormatter.js:17-32 | the bullets of two joined line lists are the bullets of each, in order |
| Formatter.NoBullets | src/utils/contentFormatter.js:24-29 | lines that all start with two spaces hold no bullet |
| Formatter.ItemLinesIndented | src/utils/contentFormatter.js:23-30 | a details or actions section holds no bullet |
| Formatter.MatchBullets | src/utils/contentFormatter.js:17-21 | the bullet of each match, one per match |
| Entities.Mentions | src/services/entityExtractor.js:18 | some keyword of the page occurs in the normalised text |
| Entities.NothingMentioned | src/services/entityExtractor.js:17-19 | with no empty keyword, an empty text mentions no page |
| Knowledge.IdsDistinct | src/utils/chatbotKnowledge.js:3-172 | the eleven entry ids of the table are pairwise distinct |
| Knowledge.TableIds | src/utils/chatbotKnowledge.js:1-188 | the static table has eleven entries with pairwise distinct ids |
| Knowledge.TableWellFormed | src/utils/chatbotKnowledge.js:1-188 | every entry has a title, a summary, a site path starting `/`, at least one detail and action, and all-lower-case keywords |
| Knowledge.AdmissionsEntryApply | src/utils/chatbotKnowledge.js:51-67 | the admissions entry points at `/admissions` and lists "apply" among its keywords |
| Registry.TagStatic | src/services/contentRegistry.js:4-7 | every static entry is the knowledge entry with its source type set to static, and nothing else changed |
| Registry.SourceIdsDistinct | src/services/contentRegistry.js:9-113 | there are eleven dynamic sources with pairwise distinct ids |
| Registry.ExtractorTags | src/services/contentRegistry.js:9-113 | downloads, institutional-info and admissions-info have their own extractors, and every other source is generic |
| Registry.Sections | src/services/contentRegistry.js:28-67 | exactly announcements, events, achievements and news carry a section, and each section equals the source's id |
| Knowledge.WellFormed | src/utils/chatbotKnowledge.js:1-188 | an entry has a title, a summary, a `/` path, a detail and an action, no source tag yet, and lower-case keywords (`Knowledge.TableWellFormed`) |
| Registry.ExtractorFor | src/services/contentRegistry.js:9-113 | the extractor tag of a source id: downloads, institutional and admissions for their three sources, generic for the rest (`Registry.ExtractorTags`) |
| Session.KeysDistinct | src/services/sessionManager.js:1-5 | the three storage keys are different, so the entries never overwrite each other |
| Session.Encode | src/services/sessionManager.js:23 | the stored text of a message list is never empty, so reading it back never takes the `!saved` fallback branch |
| Session.DecodeEncode | src/services/sessionManager.js:11-23 | reading back a saved message list gives the same list |
| Session.DecodeEncodedItems | src/services/sessionManager.js:12-15 | decoding the written items gives every message back, in order |
| Session.ReadWrittenMessage | src/services/sessionManager.js:12-15 | one message written and then read gives the message and leaves the rest of the text |
| Session.StoredMessages | src/services/sessionManager.js:7-19 | unusable storage or a missing key gives the fallback; a readable text gives its messages; an unreadable one gives the fallback |
| Session.NewSessionId | src/services/sessionManager.js:50 | a new session id starts with `ccb-` |
| Session.Storage.LoadMessages | src/services/sessionManager.js:7-19 | returns exactly the stored messages, or the fallback |
| Session.Storage.SaveMessages | src/services/sessionManager.js:21-27 | writes the encoded list under the messages key when storage is usable, and changes nothing otherwise |
| Session.Storage.LoadIsOpen | src/services/sessionManager.js:29-36 | open exactly when the stored text is `true`; false when storage is unusable |
| Session.Storage.SaveIsOpen | src/services/sessionManager.js:38-44 | writes `true` or `false` under the open key when storage is usable |
| Session.Storage.GetOrCreateSessionId | src/services/sessionManager.js:46-57 | unusable storage gives no id; a stored id is returned unchanged; otherwise a new id is created, stored and returned |
| Session.Storage.ClearSession | src/services/sessionManager.js:59-66 | removes the messages and the open flag and keeps the session id |
| Session.SaveLoadMessages | src/services/sessionManager.js:7-27 | loading after saving gives back the saved messages |
| Session.SaveLoadIsOpen | src/services/sessionManager.js:29-44 | loading after saving gives back the saved flag |
| Session.WithSessionId | src/services/sessionManager.js:46-57 | after the lookup a session id is stored: the stored one is kept with the items unchanged, or a new `ccb-` id is added and no other key changes |
| Session.SendStoresSessionId | src/services/chatbotAPI.js:25 | after a backend send and the save of the messages a session id is stored; saving the messages alone never changes the stored id |
| Session.CreatedIdStays | src/services/sessionManager.js:46-57 | a created id is what the next call finds |
| Session.ClearKeepsSessionId | src/services/sessionManager.js:59-66 | after clearing, the messages read as the fallback, the widget reads as closed, and the session id is unchanged |
| Session.Field | src/services/sessionManager.js:23 | one length-prefixed field of the stored text, this model's stand-in for a JSON string |
| Session.ReadField | src/services/sessionManager.js:11 | one field off the front of a text, with a strictly shorter rest; no field for text without a digit prefix and a colon |
| Session.Fields | src/services/sessionManager.js:23 | the fields of a list, one after another |
| Session.ReadFields | src/services/sessionManager.js:11 | exactly n fields off the front, with a rest no longer than the text, and strictly shorter when n is positive |
| Session.EncodeMessage | src/services/sessionManager.js:23 | a message as the three fields text, sender and time |
| Session.DecodeMessage | src/services/sessionManager.js:11-15 | one message off the front, its time read from digits; fails on any other text (`Session.ReadWrittenMessage`) |
| Session.EncodeItems | src/services/sessionManager.js:23 | the messages written one after another |
| Session.DecodeItems | src/services/sessionManager.js:11-15 | every message read off in order, failing when a part is unreadable (`Session.DecodeEncodedItems`) |
| Session.Decode | src/services/sessionManager.js:11-15 | the messages of a stored text, or failure for text the encoder cannot have written, as `JSON.parse` throws (`Session.DecodeEncode`) |
| Session.ReadWrittenField | src/services/sessionManager.js:11 | a written field reads back, leaving the text after it |
| Session.ReadWrittenFields | src/services/sessionManager.js:11 | written fields read back in order, leaving the text after them |
| Session.BoolText | src/services/sessionManager.js:40 | `String(isOpen)`: "true" or "false" |
| Session.StoredIsOpen | src/services/sessionManager.js:29-36 | open exactly when storage works and the stored text is "true" (`Session.SaveLoadIsOpen`) |
| Session.StoredSessionId | src/services/sessionManager.js:48-49 | the stored id when present and non-empty, otherwise none (`Session.CreatedIdStays`) |
| Session.Slice | src/services/sessionManager.js:50 | `slice(from, to)` clamped to the text, at most `to - from` long |
| Session.Storage.constructor | src/services/sessionManager.js:1-5 | the storage starts with the given items and availability |
| Chat.BackendText | src/services/chatbotAPI.js:40 | the backend's `reply` when non-empty, else its `message`, else the fixed apology; never empty |
| Chat.HistoryPayload | src/hooks/useChatbot.js:113-118 | the last eight messages (all when fewer), in order, each as a role and its text |
| Chat.Extractions | src/hooks/useChatbot.js:39-44 | a failed fetch fails its source; a fetched source is run through its extractor with the limit 6 |
| Chat.SuccessfulEntries | src/hooks/useChatbot.js:47-50 | the dynamic knowledge holds exactly the entries of the sources that succeeded |
| Chat.SuccessfulAppend | src/hooks/useChatbot.js:47-50 | the entries keep the order of the sources |
| Chat.QuickReplyPath | src/hooks/useChatbot.js:94-98 | a quick reply is answered as it is, without a lookup or a backend request |
| Chat.BackendIff | src/hooks/useChatbot.js:94-126 | the backend is asked exactly when there is no quick reply and no local answer, and then the answer is the backend's text for the fallback request |
| Chat.ConfidentIsLocal | src/hooks/useChatbot.js:105-110 | a top score of at least 0.3 is answered locally from the matches |
| Chat.SiteIntentIsLocal | src/hooks/useChatbot.js:101-110 | a message using a static keyword is answered locally from a top score of 0.22 |
| Chat.FallbackRequest | src/hooks/useChatbot.js:113-125 | the request carries the trimmed message, the context of at most three matches, and a history of one to eight turns that ends with the user's message |
| Chat.BackendFailure | src/hooks/useChatbot.js:127-129 | a failed request is answered with the error apology, and the answer is never empty |
| Chat.Chatbot.constructor | src/hooks/useChatbot.js:22-34 | the messages are the stored ones, or the welcome message; the input is empty, nothing is typing and there is no dynamic knowledge; the mount run of the [messages] effect writes that list to storage when storage works, and nothing otherwise |
| Chat.Chatbot.SetInput | src/hooks/useChatbot.js:23-138 | only the input text changes |
| Chat.Chatbot.LoadDynamicKnowledge | src/hooks/useChatbot.js:36-62 | the dynamic knowledge becomes the entries of the successful sources, and nothing else changes |
| Chat.Chatbot.ResetConversation | src/hooks/useChatbot.js:32-77 | the messages become the welcome message alone, and are saved |
| Chat.Chatbot.ComputeAnswer | src/hooks/useChatbot.js:94-129 | computes exactly the specified answer: quick reply, local answer or backend reply |
| Chat.Chatbot.SendMessage | src/hooks/useChatbot.js:79-133 | a blank input or a pending reply changes nothing; otherwise the trimmed user message and the answer are appended and saved, the input is cleared and typing ends; a request sent to the backend first stores a session id when none is stored |
| Chat.Chatbot.Accept | src/hooks/useChatbot.js:82-133 | an accepted message: the answer computed from the message list before it, the session id stored when a request goes to the backend, the exchange appended and saved |
| Chat.Chatbot.RequestSessionId | src/services/chatbotAPI.js:25 | when a backend request is built, the stored items become the items with a session id (`Session.WithSessionId`); otherwise storage is unchanged |
| Chat.Chatbot.Exchange | src/hooks/useChatbot.js:88-131 | appends the two messages, clears the input, ends typing and saves the messages |
| Chat.Welcome | src/hooks/useChatbot.js:15-19 | the fixed welcome text, sent by the bot at the given time (used by `Chat.Chatbot.ResetConversation` and `Session.ClearKeepsSessionId`) |
| Chat.HasSiteIntent | src/hooks/useChatbot.js:101-103 | some keyword of some static entry is a substring of the normalised message (`Chat.SiteIntentIsLocal` relies on it) |
| Chat.AnswersLocally | src/hooks/useChatbot.js:105-108 | a top score of at least 0.3, or of at least 0.22 with site intent, and at least one match (`Chat.ConfidentIsLocal`, `Chat.SiteIntentIsLocal`, `Chat.BackendIff`) |
| Chat.TurnOf | src/hooks/useChatbot.js:115-118 | the role `user` for a user message and `assistant` for any other sender, with the message text as content |
| Chat.LocalText | src/hooks/useChatbot.js:109 | the local reply is buildLocalResponse of the message and the matches (proved equal in `Responses.BuildLocalResponse`) |
| Chat.Lookup | src/hooks/useChatbot.js:27-30 | matchQuery over the index of the static entries followed by the dynamic ones (its ranking facts are `Matcher.MatchesAboveFloor` and `Matcher.TopIncluded`) |
| Chat.FallbackFor | src/hooks/useChatbot.js:113-125 | the request of the trimmed message, the context items of the matches and the history payload ending with the user's message (`Chat.FallbackRequest`) |
| Chat.BackendAnswer | src/hooks/useChatbot.js:121-129 | the backend's text when the request succeeds and the error apology when it fails (`Chat.BackendFailure`) |
| Chat.Respond | src/hooks/useChatbot.js:94-129 | the quick reply, else the local answer, else the backend's answer to the fallback request; which branch answers is pinned by `Chat.QuickReplyPath`, `Chat.BackendIff`, `Chat.ConfidentIsLocal` and `Chat.SiteIntentIsLocal` |
| Chat.Successful | src/hooks/useChatbot.js:47-50 | the entries of the fulfilled outcomes in source order (`Chat.SuccessfulEntries`, `Chat.SuccessfulAppend`) |
| Chat.Chatbot.Index | src/hooks/useChatbot.js:27-30 | the memoised knowledge index over the static entries followed by the dynamic knowledge (`Context.KnowledgeIndexAppend`) |
| Widget.ReloadAfterClose | src/components/ChatbotWidget.jsx:47-52 | after a confirmed close, a reload finds only the welcome message, a closed widget and the same session id |
| Widget.ChatWidget.constructor | src/components/ChatbotWidget.jsx:8-22 | the widget opens as stored, with no confirmation shown, and writes its flag back |
| Widget.ChatWidget.SetOpen | src/components/ChatbotWidget.jsx:20-22 | the flag changes, and is saved only when its value changed |
| Widget.ChatWidget.HandleCloseClick | src/components/ChatbotWidget.jsx:39-45 | an open widget asks for confirmation and stays open; a closed one opens and saves the flag |
| Widget.ChatWidget.ToggleChatbot | src/components/ChatbotWidget.jsx:58-64 | the same transitions as the close button |
| Widget.ChatWidget.ConfirmClose | src/components/ChatbotWidget.jsx:47-52 | closes, hides the confirmation, clears the stored messages and flag, and restarts the conversation with the welcome message |
| Widget.ChatWidget.CancelClose | src/components/ChatbotWidget.jsx:54-56 | hides the confirmation and leaves the widget open or closed as it was |
| Widget.ChatWidget.KeyDown | src/components/ChatbotWidget.jsx:24-37 | Escape hides the confirmation; any other key changes nothing |
| Links.FindFrom | src/components/ChatBot/Message.jsx:10 | the scan for a closing bracket stops at a position at or after the start, which holds the character when it is inside the text |
| Links.FindFromFirst | src/components/ChatBot/Message.jsx:10 | the scan stops at the first occurrence of the character: no earlier position holds it |
| Links.MatchAt | src/components/ChatBot/Message.jsx:10 | a link found at a position ends after it and inside the text |
| Links.MatchAtSound | src/components/ChatBot/Message.jsx:10 | a link found at a position is written there as `[anchor](url)`, with a non-empty anchor free of `]` and a non-empty url free of `)` |
| Links.MatchAtClasses | src/components/ChatBot/Message.jsx:10 | the anchor and url of a match satisfy the pattern's character classes `[^\]]+` and `[^)]+` |
| Links.MatchAtComplete | src/components/ChatBot/Message.jsx:10 | conversely, wherever `[anchor](url)` is written with such an anchor and url, the pattern matches exactly that link there |
| Links.NextLink | src/components/ChatBot/Message.jsx:15 | the next search result is a position at or after the last index where the pattern matches |
| Links.NextLinkLeftmost | src/components/ChatBot/Message.jsx:15 | the search returns the leftmost match: nothing matches between the last index and the result, and nothing at all matches when it reports none |
| Links.NoMatchNoLink | src/components/ChatBot/Message.jsx:15 | when no position after the last index matches, the search reports none |
| Links.PiecesRoundTrip | src/components/ChatBot/Message.jsx:15-25 | the text and link parts collected from a position, written back as text and `[anchor](url)`, give the text from that position exactly |
| Links.PiecesChain | src/components/ChatBot/Message.jsx:16-24 | the parts alternate: no empty text part appears, every link part is well formed and no two text parts are adjacent |
| Links.PiecesWellFormed | src/components/ChatBot/Message.jsx:16-24 | the collected parts are well formed (no empty text, valid links, no two adjacent texts) |
| Links.StartsOrdered | src/components/ChatBot/Message.jsx:15-20 | the match positions the loop visits lie inside the text, are real matches and do not overlap: each starts at or after the previous one's end |
| Links.PiecesLinks | src/components/ChatBot/Message.jsx:19 | the link parts are exactly the links at the visited match positions, in order |
| Links.NoLinkOnePiece | src/components/ChatBot/Message.jsx:23-25 | a non-empty text with no match anywhere yields a single text part holding the whole text |
| Links.PushMatch | src/components/ChatBot/Message.jsx:16-20 | one loop step pushes the text before the match and the link, and advances the last index past the match, so the parts collected so far plus what remains describe the same text |
| Links.CollectParts | src/components/ChatBot/Message.jsx:11-25 | the exec loop and the trailing push produce exactly the parts of the text |
| Links.RenderMessage | src/components/ChatBot/Message.jsx:7-29 | an empty text is returned as it is; a text whose parts are none or a single text part is rendered as plain text; otherwise the parts are rendered |
| Links.RenderedFaithful | src/components/ChatBot/Message.jsx:7-29 | the rendered parts are well formed and spell out the original message exactly |
| Links.LinkText | src/components/ChatBot/Message.jsx:10 | the written form `[anchor](url)` of a link |
| Links.Pieces | src/components/ChatBot/Message.jsx:15-25 | the parts of the text from a position: the text before the next match when non-empty, the link, then the parts after it; a link-free non-empty tail is one text part (`Links.PiecesRoundTrip`, `Links.PiecesChain`, `Links.PiecesLinks`) |
| Links.Written | src/components/ChatBot/Message.jsx:15-25 | the parts written back as text, links as `[anchor](url)`, the partner of `Links.Pieces` in `Links.PiecesRoundTrip` |
| Links.WrittenAppend | src/components/ChatBot/Message.jsx:15-25 | writing two part lists back is writing each and joining them |
| Links.WellFormed | src/components/ChatBot/Message.jsx:16-24 | no empty text part, every link with a non-empty anchor free of `]` and url free of `)`, and no two adjacent text parts |
| Links.Chain | src/components/ChatBot/Message.jsx:16-24 | the same shape, stated part by part from the front |
| Links.ChainWellFormed | src/components/ChatBot/Message.jsx:16-24 | a part list of that front-to-back shape is well formed |
| Links.Starts | src/components/ChatBot/Message.jsx:15 | the positions where the exec loop finds its matches, in order |
| Links.InOrder | src/components/ChatBot/Message.jsx:15-20 | each position is a real match at or after the previous match's end |
| Links.StartsInOrder | src/components/ChatBot/Message.jsx:15-20 | the loop's match positions are in that order |
| Links.InOrderMeans | src/components/ChatBot/Message.jsx:15-20 | the ordered positions lie inside the text, are matches and do not overlap |
| Links.LinkParts | src/components/ChatBot/Message.jsx:19 | the link parts of a part list, in order |
| Links.LinksAt | src/components/ChatBot/Message.jsx:19 | the links matched at the given positions, in order |
| Legacy.LegacyQuickReply | src/components/Chatbot.js:149-162 | an empty normalised message has no canned reply; otherwise the greeting, thanks or goodbye reply is chosen by the first list with a phrase occurring anywhere in the text, and there is none exactly when no list matches |
| Legacy.HistoryGetsGreeting | src/components/Chatbot.js:152-153 | "history" receives the greeting reply, because "hi" occurs inside it |
| Legacy.ThisGetsGreeting | src/components/Chatbot.js:152-153 | "this" receives the greeting reply, because "hi" occurs inside it |
| Legacy.GreetingsAgree | src/components/Chatbot.js:149-154 | every message the newer intent service calls a greeting also gets the legacy greeting reply |
| Legacy.QuickRepliesWiden | src/components/Chatbot.js:149-162 | every message with a canned reply in the newer pipeline also has one in the legacy component |
| Legacy.LegacyKeywordsScore | src/components/Chatbot.js:66-71 | the keyword bonus is between zero and 0.08 for each keyword |
| Legacy.KeywordsWithoutFuzzy | src/components/Chatbot.js:66-71 | the newer keyword bonus is the legacy bonus plus the fuzzy bonus for each keyword found only by fuzzy matching |
| Legacy.LegacyScore | src/components/Chatbot.js:55-73 | the entry score is between 0 and 1, and 0 when the message has no tokens |
| Legacy.ScoreWithoutFuzzy | src/components/Chatbot.js:55-73 | the legacy raw score is the newer one without the fuzzy bonus, so the legacy score never exceeds the newer score and equals it when no keyword is found only by fuzzy matching |
| Legacy.LegacyScoreAll | src/components/Chatbot.js:120-121 | every entry of the index is scored, in index order |
| Legacy.TopMatches | src/components/Chatbot.js:125-127 | at most three matches are kept |
| Legacy.GetLocalResponse | src/components/Chatbot.js:113-147 | the context holds at most three entries |
| Legacy.NoTokensNoReply | src/components/Chatbot.js:116-118 | a message without tokens gives no reply, no context and confidence 0 |
| Legacy.ConfidenceIsBest | src/components/Chatbot.js:120-124 | the confidence is the highest score in the index, 0 for an empty index |
| Legacy.LocalReplyIff | src/components/Chatbot.js:135-146 | a local reply is given exactly when the message has tokens and the top score passes 0.3, or 0.22 with a site word; the reply is built from the top matches, which are also the context |
| Legacy.LegacyDynamicEntry | src/components/Chatbot.js:220-233 | an item whose chosen title is not a string makes the call fail, which yields no entry; otherwise the summary is cut to 260 characters or replaced by the base title, and the entry has no details or actions |
| Legacy.DynamicEntriesAgree | src/components/Chatbot.js:220-233 | apart from details and actions, the legacy dynamic entry is the newer pipeline's |
| Legacy.LegacyFallback | src/components/Chatbot.js:577-599 | the backend is asked exactly when there is neither a canned nor a local reply; the request carries the message, at most three context entries and at most eight history turns ending with the user's message, and a failed request gives the apology |
| Legacy.LegacyChatbot.constructor | src/components/Chatbot.js:326-379 | the messages come from storage or are a single welcome message, the open flag is read from storage, the other state is empty, and the mount effects write both keys back when storage works |
| Legacy.LegacyChatbot.ComputeReply | src/components/Chatbot.js:577-599 | the reply computed is the legacy response to the message |
| Legacy.LegacyChatbot.HandleSendMessage | src/components/Chatbot.js:552-603 | a blank input or a pending reply changes nothing; otherwise the trimmed message and the legacy reply are appended, the input is cleared, typing ends, the request sent is the one the response made, and the list is saved; a request sent to the backend first stores a session id when none is stored |
| Legacy.LegacyChatbot.Accept | src/components/Chatbot.js:555-603 | an accepted message: the reply computed from the list before it, the session id stored when a request goes to the backend, both messages appended and saved |
| Legacy.LegacyChatbot.RequestSessionId | src/components/Chatbot.js:273-284 | when a backend request is built, the stored items become the items with a session id (`Session.WithSessionId`); otherwise storage is unchanged |
| Legacy.LegacyChatbot.Append | src/components/Chatbot.js:561-574 | the user's message and the reply are appended to the list, the input is cleared, typing ends and the list is saved |
| Legacy.LegacyChatbot.ConfirmClose | src/components/Chatbot.js:624-636 | the dialog and the window close; when storage works both keys are removed, the list becomes one welcome message and the effect saves it; when localStorage throws, the shared try skips the reset and the old list stays; the closed flag is saved when the window was open and storage works |
| Legacy.LegacyChatbot.HandleCloseClick | src/components/Chatbot.js:612-622 | an open window shows the confirmation and stays open; a closed one opens and the flag is saved |
| Legacy.LegacyChatbot.CancelClose | src/components/Chatbot.js:638-640 | only the dialog closes |
| Legacy.AnyContained | src/components/Chatbot.js:151-160 | some phrase of the list occurs anywhere in the text, the `.some(includes)` test (`Legacy.GreetingsAgree`, `Legacy.HistoryGetsGreeting`) |
| Legacy.LegacyKeywordScore | src/components/Chatbot.js:66-71 | 0.08 when the normalised keyword is non-empty and occurs in the message, otherwise 0; there is no fuzzy bonus (`Legacy.KeywordsWithoutFuzzy`) |
| Legacy.FuzzyHits | src/services/queryMatcher.js:16-24 | the number of keywords the newer scorer's fuzzy test accepts, which is what the legacy score lacks (`Legacy.KeywordsWithoutFuzzy`, `Legacy.ScoreWithoutFuzzy`) |
| Legacy.LegacyRawScore | src/components/Chatbot.js:57-71 | the share of user tokens the entry holds, plus 0.15 for the title and 0.08 per literal keyword, before the clamp; it is the newer raw score minus 0.05 per fuzzy hit (`Legacy.ScoreWithoutFuzzy`) |
| Legacy.LegacySiteIntent | src/components/Chatbot.js:109-111 | one of the 22 site words occurs as a substring of the normalised message (`Legacy.LocalReplyIff`) |
| Legacy.Ranked | src/components/Chatbot.js:120-122 | every entry scored and sorted by descending score; the sort is a permutation and sorted (`Matcher.SortFacts`) |
| Legacy.Confident | src/components/Chatbot.js:135-136 | the top score reaches 0.3, or 0.22 when the message has site intent (`Legacy.LocalReplyIff`) |
| Legacy.LegacyRespond | src/components/Chatbot.js:577-599 | the canned reply, else the local reply, else the backend's answer to the request made from the local result; which branch answers is pinned by `Legacy.LegacyFallback` |
| Security.Get | portal/security.py:48 | a cache read finds a value exactly when the key is present and not yet expired, and returns the stored value |
| Security.LockedBy | portal/security.py:48-55 | a lockout record locks only while less than 900 seconds have passed since it was written, and the time left is the whole seconds of 900 minus the elapsed time |
| Security.AccountLock | portal/security.py:35-69 | an unlocked account reports `(False, 0, None)` |
| Security.AccountLockIff | portal/security.py:35-69 | the account is locked exactly when the username lockout or, when an address is given, the address lockout is live; the username is checked first and its key and time left are reported, else the address's |
| Security.RemainingBounds | portal/security.py:54-66 | the time left is never negative, and at most 900 seconds unless the record lies in the future |
| Security.FailureEffect | portal/security.py:84-97 | a failure counts the stored attempts plus one; at five or more it writes a lockout record for 900 seconds, deletes the counter and reports `(True, 900)`, otherwise it stores the count for 900 seconds and reports `(False, 0)`; no other key changes |
| Security.FailureLeavesIpKeys | portal/security.py:87-111 | both branches return before the address block, so the address counter and the address lockout are never written |
| Security.UsernameShadowsIp | portal/security.py:47-101 | a username of the form `ip_<address>` shares its keys with that address's keys |
| Security.IpKeysDiffer | portal/security.py:47-101 | any other username's keys differ from the address keys |
| Security.LockThenCheck | portal/security.py:53-93 | right after a failure that locks, the account is reported locked by the username key for the rest of the 900 seconds |
| Security.FailuresCount | portal/security.py:84-97 | failures less than 900 seconds apart, below the threshold, leave the counter at the stored count plus the number of failures |
| Security.FifthFailureLocks | portal/security.py:84-93 | from no stored attempts, the fifth failure within the window locks the account for 900 seconds and the lock is then reported |
| Security.ClearUnlocks | portal/security.py:114-125 | after clearing, the account is unlocked, the next failure counts from one, and only the username and address keys are removed |
| Security.RateCheck | portal/security.py:140-150 | a request is allowed exactly when the stored count is below the maximum |
| Security.RateCheckEffect | portal/security.py:140-150 | a refused request changes nothing and reports no remaining requests and the key's time to live, or the window when that is zero; an allowed one stores the count plus one for the window and reports the requests left |
| Security.RateCountCapped | portal/security.py:143-149 | the stored count never passes the maximum |
| Security.WindowAllowsExactly | portal/security.py:140-150 | within one window from a count `n`, exactly the first `max - n` calls are allowed |
| Security.FreshWindowCapped | portal/security.py:140-150 | within one window from no record, exactly the first `max` calls are allowed |
| Security.FailureKeepsTyped | portal/security.py:90-96 | a failure keeps every lockout key holding a lockout record and every other key a count |
| Security.RateCheckKeepsTyped | portal/security.py:149 | a rate check keeps every lockout key holding a lockout record and every other key a count |
| Security.ClientIpFromHeader | portal/security.py:27-29 | with a forwarded-for header, the address is its first comma-separated element, stripped, so it holds no comma and occurs in the header |
| Security.SanitizeValue | portal/security.py:185-216 | `None` stays `None`, numbers and booleans pass unchanged, and everything else becomes a string |
| Security.SanitizeValueAgrees | portal/security.py:202-216 | on strings the cleaning is that of the general sanitiser: control characters removed, stripped and cut to the maximum length |
| Security.Cache.constructor | portal/security.py:7 | the cache starts empty |
| Security.Cache.Set | portal/security.py:90-96 | a write stores the value with an expiry of now plus the time to live; a value of its key family's type keeps the cache well typed |
| Security.Cache.Delete | portal/security.py:118-119 | a delete removes just that key and keeps the cache well typed |
| Security.Cache.IsAccountLocked | portal/security.py:35-69 | on a well-typed cache, whose lockout entries are the (time, attempts) pairs the source unpacks, the answer is the lock status of the current cache |
| Security.Cache.RecordFailedLogin | portal/security.py:72-111 | the result and the new cache are those of one failure |
| Security.Cache.ClearLoginAttempts | portal/security.py:114-125 | the new cache is the old one without the username's and the address's keys |
| Security.Cache.CheckRateLimit | portal/security.py:128-150 | the decision and the new cache are those of one rate check |
| Security.IpNeverLockedAsWritten | portal/security.py:87-111 | as written, no number of failed logins from an address, by usernames that do not share its keys, changes whether the address is locked |
| Security.TrackedIpCounts | portal/security.py:99-111 | with the address block reachable, a failure below both thresholds counts the address one higher for 900 seconds and reports no lock |
| Security.TrackedIpLocks | portal/security.py:99-109 | with the address block reachable, the failure that brings the address to five attempts reports `(True, 900)` and locks every username logging in from it |
| Security.UserLockoutKey | portal/security.py:47 | the username lockout key `login_lockout_<username>` (`Security.UsernameShadowsIp`, `Security.IpKeysDiffer`) |
| Security.IpLockoutKey | portal/security.py:59 | the address lockout key `login_lockout_ip_<address>` |
| Security.UserAttemptsKey | portal/security.py:84 | the username counter key `login_attempts_<username>` |
| Security.IpAttemptsKey | portal/security.py:101 | the address counter key `login_attempts_ip_<address>` |
| Security.RateKey | portal/security.py:140 | the rate-limit counter key `rate_limit_<identifier>` |
| Security.CountAt | portal/security.py:85 | `cache.get(key, 0)` for a counter: its live count, else 0 |
| Security.Put | portal/security.py:90-96 | `cache.set`: the value under the key, expiring ttl seconds from now, every other key kept (`Security.Cache.Set`) |
| Security.Attempts | portal/security.py:85 | the stored live count of failures plus one |
| Security.AfterFailure | portal/security.py:84-97 | the cache after a failure: at the fifth attempt a 900-second lockout record replaces the counter, otherwise the counter is stored for 900 seconds (`Security.FailureEffect`, `Security.FifthFailureLocks`, `Security.FailuresCount`) |
| Security.FailureResult | portal/security.py:87-97 | `(True, 900)` at the threshold and `(False, 0)` below it (`Security.FailureEffect`) |
| Security.AttemptsNotLockout | portal/security.py:84-89 | a counter key is never a username lockout key |
| Security.PrefixInjective | portal/security.py:47-101 | keys with the same prefix are equal only for equal suffixes, so distinct users have distinct keys |
| Security.Failures | portal/security.py:84-97 | one username's failures at the given clock readings, one after another (`Security.FailuresCount`) |
| Security.Paced | portal/security.py:96 | each reading no earlier than the last and within its 900 seconds, so the counter never expires in between |
| Security.FailuresOf | portal/security.py:72-111 | failures of several usernames at one moment, as written (`Security.IpNeverLockedAsWritten`) |
| Security.AfterFailureTracked | portal/security.py:99-111 | the corrected cache update: a failure that does not lock the username counts the address and locks it at five (`Security.TrackedIpCounts`, `Security.TrackedIpLocks`) |
| Security.FailureTrackedResult | portal/security.py:87-111 | the corrected result: `(True, 900)` when the username or the address reaches five, else `(False, 0)` |
| Security.ClearedKeys | portal/security.py:116-125 | the username's counter and lockout keys, and the address's two keys when an address is given |
| Security.AfterClear | portal/security.py:114-125 | the cache with exactly those keys removed (`Security.ClearUnlocks`) |
| Security.AfterRateCheck | portal/security.py:140-150 | the cache after a rate check: unchanged at or above the maximum, otherwise the counter plus one for the window (`Security.RateCheckEffect`, `Security.RateCountCapped`) |
| Security.RateCalls | portal/security.py:128-150 | rate checks at the given clock readings, one after another |
| Security.AllowedCalls | portal/security.py:128-150 | how many of those checks are allowed (`Security.WindowAllowsExactly`, `Security.FreshWindowCapped`) |
| Security.GetClientIp | portal/security.py:25-32 | the stripped part of the forwarded-for header before its first comma, else `REMOTE_ADDR`, else `0.0.0.0` (`Security.ClientIpFromHeader`) |
| Security.IsLockoutKey | portal/security.py:47-105 | a key under the `login_lockout_` prefix |
| Security.Typed | portal/security.py:48-51 | every lockout record is under a lockout key and every counter is not, so the tuple unpacking never meets a number (`Security.FailureKeepsTyped`, `Security.RateCheckKeepsTyped`) |
| Security.KeyFamilies | portal/security.py:47-140 | the username lockout key is a lockout key, and the counter and rate keys are not |
| PortalUtils.EscapeChar | portal/utils.py:30 | `&`, `<`, `>`, `"` and `'` become entities starting with `&`, every other character is kept, and no output character is markup |
| PortalUtils.EscapeHasNoMarkup | portal/utils.py:30 | escaped text holds no `<`, `>`, `"` or `'` |
| PortalUtils.EscapePlain | portal/utils.py:30 | text without special characters is unchanged by escaping |
| PortalUtils.UnescapeEscape | portal/utils.py:30 | escaping loses nothing: unescaping the five entities gives the text back |
| PortalUtils.FirstPassIsReplace | portal/utils.py:33 | replacing each backslash-n pair of the escaped text is the first rewriting pass |
| PortalUtils.SecondPassIsReplace | portal/utils.py:34 | replacing each newline after that gives the rendered text |
| PortalUtils.RenderedOnlyBreaks | portal/utils.py:30-34 | escaping runs before the breaks are inserted, so the only markup in the output is inserted `<br/>` |
| PortalUtils.SanitizeHtmlFacts | portal/utils.py:9-36 | empty text gives `''`; otherwise the result is the escaped text with breaks, holds no newline and no quote, and its only `<` belongs to a `<br/>` |
| PortalUtils.RenderedPlain | portal/utils.py:30-34 | text without special characters, backslashes or newlines is returned unchanged |
| PortalUtils.SanitizeInput | portal/utils.py:50-51 | empty text gives `''` |
| PortalUtils.SanitizeInputFacts | portal/utils.py:39-63 | the result holds no control character, does not start with whitespace and is at most the maximum length when one is given; when no cut happens it is the stripped text without control characters, with no trailing whitespace |
| PortalUtils.ValidateFileUpload | portal/utils.py:66-102 | a file is valid exactly when no error message is returned |
| PortalUtils.ValidateOrder | portal/utils.py:81-102 | the size, the type and the extension are checked in that order and the first failure's message is returned; a file is valid exactly when all three pass |
| PortalUtils.EmptyListRejects | portal/utils.py:78-88 | an explicit empty list of types rejects every file |
| PortalUtils.ExtensionAfterLastDot | portal/utils.py:91 | the extension is the lower-cased text after the last dot, or empty without a dot |
| PortalUtils.UnknownExtensionPasses | portal/utils.py:92-102 | an extension outside the table never fails the extension check |
| PortalUtils.JpgAliasNeedsOtherExtension | portal/utils.py:79-100 | a file declared as `image/jpg` passes only with an extension outside the table |
| PortalUtils.JpgAliasRejected | portal/utils.py:79-100 | a small "photo.jpg" declared as `image/jpg` is rejected as a mismatch under the default list |
| PortalUtils.ValidateFileUploadCorrected | portal/utils.py:66-102 | with the extension check comparing canonical types, a file is valid exactly when no error message is returned |
| PortalUtils.CorrectedAgrees | portal/utils.py:66-102 | the correction changes nothing for any declared type other than `image/jpg` |
| PortalUtils.CorrectedAliasIff | portal/utils.py:79-100 | corrected, a small `image/jpg` file passes with a ".jpg" or ".jpeg" extension or one outside the table |
| PortalUtils.JpgAliasAccepted | portal/utils.py:79-100 | corrected, the small "photo.jpg" declared as `image/jpg` is accepted |
| PortalUtils.IsSpecial | portal/utils.py:30 | the five characters `html.escape` rewrites: `&`, `<`, `>`, `"` and `'` |
| PortalUtils.Escape | portal/utils.py:30 | `html.escape`, each character replaced by its escape in order (`PortalUtils.EscapeHasNoMarkup`, `PortalUtils.EscapePlain`, `PortalUtils.UnescapeEscape`) |
| PortalUtils.Unescape | portal/utils.py:30 | the decoder of the five entities, the partner of `PortalUtils.Escape` in `PortalUtils.UnescapeEscape` |
| PortalUtils.UnescapeEntity | portal/utils.py:30 | an entity followed by more text decodes to its character |
| PortalUtils.UnescapeOther | portal/utils.py:30 | a character other than `&` decodes to itself |
| PortalUtils.UnescapeStep | portal/utils.py:30 | decoding one escaped character gives the character back |
| PortalUtils.SanitizeHtml | portal/utils.py:9-36 | `''` for empty text, otherwise the escaped text with each backslash-n pair and then each line feed replaced by `<br/>` (`PortalUtils.SanitizeHtmlFacts`, `PortalUtils.RenderedOnlyBreaks`) |
| PortalUtils.Rendered | portal/utils.py:30-34 | the same output in one pass: a backslash-n pair or a line feed becomes a break, every other character its escape |
| PortalUtils.FirstPass | portal/utils.py:30-33 | the text after escaping and the backslash-n replacement only (`PortalUtils.FirstPassIsReplace`) |
| PortalUtils.ReplaceSkips | portal/utils.py:33-34 | a prefix without the pattern's first character is copied through `replace` |
| PortalUtils.ReplaceAtStart | portal/utils.py:33-34 | text starting with the pattern is replaced there first |
| PortalUtils.BackslashAlone | portal/utils.py:33 | a backslash not followed by `n` is copied through |
| PortalUtils.EscapeBackslashN | portal/utils.py:30-33 | escaping leaves a backslash-n pair in place |
| PortalUtils.EscapeBackslashAlone | portal/utils.py:30-33 | a lone escaped backslash is copied through the first pass |
| PortalUtils.OnlyBreaks | portal/utils.py:30-34 | text whose only `<` opens an inserted `<br/>`, with no `>`, quote or line feed besides |
| PortalUtils.OnlyBreaksPrefix | portal/utils.py:30-34 | markup-free text before such text keeps the property |
| PortalUtils.OnlyBreaksBr | portal/utils.py:33-34 | a break before such text keeps the property |
| PortalUtils.OnlyBreaksChars | portal/utils.py:30-34 | such text holds no line feed and no quote |
| PortalUtils.Last | portal/utils.py:91 | the last element of a non-empty split, `[-1]` |
| PortalUtils.Extension | portal/utils.py:91 | the lower-cased text after the last dot, or `''` for a name without a dot (`PortalUtils.ExtensionAfterLastDot`) |
| PortalUtils.ExtensionMime | portal/utils.py:92-98 | the five-entry extension table, with jpg and jpeg both mapped to `image/jpeg` |
| PortalUtils.Mismatch | portal/utils.py:99 | the extension is in the table and its type differs from the declared one |
| PortalUtils.AllowedOr | portal/utils.py:78-79 | the given list of types, or the five default image types when none is given (`PortalUtils.EmptyListRejects`) |
| PortalUtils.SplitSingle | portal/utils.py:91 | a text without the separator splits into itself |
| PortalUtils.LastPiece | portal/utils.py:91 | the last piece of a split is what follows the last separator |
| PortalUtils.ExtensionOfStem | portal/utils.py:91 | a stem, a dot and a dot-free suffix gives the lower-cased suffix |
| PortalUtils.PhotoJpgExtension | portal/utils.py:91 | "photo.jpg" has the extension "jpg" |
| PortalUtils.CanonicalType | portal/utils.py:79-100 | the corrected comparison's type: `image/jpg` read as `image/jpeg`, every other type unchanged |
| Strs.Replace | portal/utils.py:33-34 | `str.replace`: every non-overlapping occurrence, scanned from the left, is replaced (`PortalUtils.FirstPassIsReplace`, `PortalUtils.ReplaceSkips`) |
| Strs.ReplaceAbsent | portal/utils.py:33-34 | a text without the pattern is returned unchanged |
| Strs.PyStrip | portal/utils.py:57 | `strip()` leaves no Python whitespace at either end and never lengthens |
| Sanitize.Cleaned | src/utils/sanitize.js:40-48 | the cleaned text is at most the maximum length when one is given |
| Sanitize.StrippedChars | src/utils/sanitize.js:40-43 | stripping keeps only characters of the input, and none of the control class |
| Sanitize.CleanedFacts | src/utils/sanitize.js:40-48 | the cleaned text holds only input characters, none of the control class, does not start with whitespace and is within the maximum length |
| Sanitize.UncutFacts | src/utils/sanitize.js:43-48 | when no cut is needed the cleaned text is the stripped text, which does not end with whitespace |
| Sanitize.RemoveNothing | src/utils/sanitize.js:40 | text without control characters is unchanged by their removal |
| Sanitize.CleanStaysClean | src/utils/sanitize.js:40-48 | text already free of control characters and surrounding whitespace, and within the length, is returned unchanged |
| Sanitize.CleanedIdempotent | src/utils/sanitize.js:40-48 | cleaning twice is cleaning once, whenever the first result does not end with whitespace |
| Sanitize.SanitizeInput | src/utils/sanitize.js:36-51 | empty input gives `''`; with a limit of 0 or more other input is cleaned with the JavaScript whitespace set; a negative limit gives `''` |
| Sanitize.SanitizeInputFacts | src/utils/sanitize.js:36-51 | the result holds no control character, does not start with whitespace and is within the maximum length when one is given; without a maximum, or when no cut happens, it is the trimmed text without control characters |
| Sanitize.CutCanEndInSpace | src/utils/sanitize.js:46-48 | the cut runs after the trim, so "ab c" cut to 3 characters ends with a space |
| Sanitize.IsControl | src/utils/sanitize.js:40 | the class `[\x00-\x08\x0B-\x0C\x0E-\x1F\x7F]`: the C0 controls and DEL except tab, line feed and carriage return |
| Sanitize.Stripped | src/utils/sanitize.js:40-43 | the input without control characters, trimmed (`Sanitize.StrippedChars`) |
| Sanitize.CutExample | src/utils/sanitize.js:40-43 | "ab c" is unchanged by stripping, the first step of `Sanitize.CutCanEndInSpace` |
| Sanitize.Substring | src/utils/sanitize.js:47 | `substring(0, end)` has length 0 for a negative end, the whole length past the end, else `end`, and is a prefix |
| Strs.RemoveChars | src/utils/sanitize.js:40 | the characters left are input characters, none of them of the removed class |
| Strs.JsTrim | src/utils/sanitize.js:43 | `trim()` leaves no JavaScript whitespace at either end and never lengthens |
| Seo.LengthWarning | src/utils/SEOEnhancer.js:243-256 | at most one length warning is given, and one exactly when the value is present and shorter or longer than its bounds |
| Seo.SeoIssues | src/utils/SEOEnhancer.js:240-256 | there is one issue for each of a missing title and a missing description, and the issue names it exactly when it is missing |
| Seo.SeoWarningCount | src/utils/SEOEnhancer.js:240-266 | the number of warnings is one for a title outside 30-60 characters, one for a description outside 120-160 characters, one for missing keywords and one for a missing image |
| Seo.SeoWarnings | src/utils/SEOEnhancer.js:240-266 | the keyword and image warnings appear exactly when those are missing; a missing title has no length warning, a short title the short warning and a long one the long warning |
| Seo.SeoScore | src/utils/SEOEnhancer.js:268-272 | the score is 100 less 20 per issue and 5 per warning, which never reaches the floor of 0: it lies between 50 and 100, is a multiple of 5 and is 100 exactly for a page without issues or warnings |
| Seo.ItemsFrom | src/utils/SEOEnhancer.js:107-112 | one list item per crumb |
| Seo.BreadcrumbItems | src/utils/SEOEnhancer.js:105-114 | one list item per crumb |
| Seo.ItemsFromAt | src/utils/SEOEnhancer.js:107-112 | the item at each index has the consecutive position and the crumb's name and url |
| Seo.BreadcrumbPositions | src/utils/SEOEnhancer.js:107-112 | the item at index `i` has position `i + 1` and the `i`-th crumb's name and url |
| Seo.CrumbsRoundTrip | src/utils/SEOEnhancer.js:107-112 | the crumbs can be read back from the list items unchanged |
| Seo.OrDefault | src/utils/SEOEnhancer.js:122-126 | a missing field takes its default and a given one is kept |
| Seo.MetaTagsAgree | src/utils/SEOEnhancer.js:117-167 | the canonical url and the Open Graph url agree; title and description are the same in the page, Open Graph and Twitter tags; Open Graph and Twitter share the image, whose alt text is the title and whose size is 1200 by 630; nine additional tags follow, the first allowing indexing |
| Seo.MetaTagsDefaults | src/utils/SEOEnhancer.js:122-126 | without url, image, type, locale or site name, the college's defaults are filled in |
| Seo.GenerateSitemapEntry | src/utils/SEOEnhancer.js:170-177 | the url and date are kept, and the change frequency and priority default to weekly and 0.8 |
| Seo.Present | src/utils/SEOEnhancer.js:241-264 | a property is truthy when present and not the empty string |
| Seo.Required | src/utils/SEOEnhancer.js:241-265 | the message for a falsy property, nothing for a truthy one |
| Seo.ValidateSeo | src/utils/SEOEnhancer.js:236-273 | issues for a missing title or description, warnings for their lengths and for missing keywords and image, and the score `max(0, 100 - 20i - 5w)` (`Seo.SeoIssues`, `Seo.SeoWarnings`, `Seo.SeoWarningCount`, `Seo.SeoScore`) |
| Seo.MessagesDistinct | src/utils/SEOEnhancer.js:242-251 | the two issue texts differ |
| Seo.WarningTextsDiffer | src/utils/SEOEnhancer.js:244-265 | the keyword and image warnings differ from each other and from the four length warnings |
| Seo.TitleTextsDiffer | src/utils/SEOEnhancer.js:244-255 | the four length warnings are pairwise different |
| Seo.CrumbsOf | src/utils/SEOEnhancer.js:107-112 | the crumbs read back from the list items, the partner of `Seo.ItemsFrom` in `Seo.CrumbsRoundTrip` |
| Seo.GenerateMetaTags | src/utils/SEOEnhancer.js:117-167 | the page's tags with the college's defaults for an undefined image, url, type, locale and site name, the 1200 by 630 image and the nine fixed tags (`Seo.MetaTagsAgree`, `Seo.MetaTagsDefaults`) |
| Image.HexDigit | src/utils/ImageOptimizer.js:24 | the digit written for a value below 16 is a hex digit that reads back as that value |
| Image.Percent | src/utils/ImageOptimizer.js:24 | a byte is written as `%` and two hex digits that read back as the byte |
| Image.Utf8 | src/utils/ImageOptimizer.js:24 | a character encodes as one to four bytes, and an ASCII character as itself |
| Image.PercentAll | src/utils/ImageOptimizer.js:24 | percent-encoded bytes use only `%` and hex digits |
| Image.EncodeChar | src/utils/ImageOptimizer.js:24 | form encoding writes a character with unreserved characters, `+` and `%` only |
| Image.FormEncodeChars | src/utils/ImageOptimizer.js:24 | a form-encoded value holds only unreserved characters, `+` and `%` |
| Image.FormEncodePlain | src/utils/ImageOptimizer.js:24 | a value of unreserved characters is written unchanged |
| Image.FormRoundTrip | src/utils/ImageOptimizer.js:24 | decoding a form-encoded ASCII value gives it back |
| Image.QueryNoQuestion | src/utils/ImageOptimizer.js:17-24 | the parameter string holds no `?` |
| Image.OptimizeLocal | src/utils/ImageOptimizer.js:15-25 | a local source becomes its part before the first `?`, a `?` and the parameters, of which there are two plus one for each of a width and a height that are set |
| Image.OptimizeExternal | src/utils/ImageOptimizer.js:10-13 | a source starting with "http" is returned unchanged |
| Image.OptimizeIdempotent | src/utils/ImageOptimizer.js:2-26 | optimising an optimised source with the same options changes nothing |
| Image.OptimizeDefaults | src/utils/ImageOptimizer.js:3-25 | without options a local source gets exactly `?q=80&f=auto` |
| Image.QueryDefault | src/utils/ImageOptimizer.js:6-24 | the default parameters are `q=80&f=auto` |
| Image.ParamsDefault | src/utils/ImageOptimizer.js:6-22 | the default parameter list is quality 80 then format auto |
| Image.SourcesFor | src/utils/ImageOptimizer.js:30-33 | one source per width |
| Image.GenerateResponsiveSources | src/utils/ImageOptimizer.js:29-34 | one source per breakpoint given, or four for the defaults |
| Image.SourcesForAt | src/utils/ImageOptimizer.js:30-33 | the source at each index is the one for that width |
| Image.SourceShape | src/utils/ImageOptimizer.js:31-32 | a source's media query is `(max-width: <w>px)` and its srcset starts with the optimised path and ends with ` <w>w` |
| Image.ResponsiveSourcesInOrder | src/utils/ImageOptimizer.js:29-34 | the sources follow the breakpoints given, or 320, 768, 1024 and 1200, in order |
| Image.Unreserved | src/utils/ImageOptimizer.js:24 | the characters form encoding writes unchanged: letters, digits and `*-._` |
| Image.HexValue | src/utils/ImageOptimizer.js:24 | the value of a hexadecimal digit, below 16, the inverse of `Image.HexDigit` |
| Image.FormEncode | src/utils/ImageOptimizer.js:24 | a value as URLSearchParams writes it, character by character (`Image.FormEncodeChars`, `Image.FormEncodePlain`) |
| Image.FormDecode | src/utils/ImageOptimizer.js:24 | the reader of that format, the partner of `Image.FormEncode` in `Image.FormRoundTrip` |
| Image.DecodeStep | src/utils/ImageOptimizer.js:24 | decoding an encoded character followed by anything gives the character back first |
| Image.TruthyNumber | src/utils/ImageOptimizer.js:19-20 | a width or height counts only when present and not 0 |
| Image.Param | src/utils/ImageOptimizer.js:19-22 | a parameter is its name, `=` and its encoded value |
| Image.Params | src/utils/ImageOptimizer.js:3-22 | w and h only when truthy, then q defaulting to 80 and f defaulting to `auto` (`Image.ParamsDefault`) |
| Image.OptimizeImageSrc | src/utils/ImageOptimizer.js:2-26 | an external source unchanged, a local one cut at its first `?` and given the query (`Image.OptimizeExternal`, `Image.OptimizeLocal`, `Image.OptimizeIdempotent`) |
| Image.Query | src/utils/ImageOptimizer.js:24 | the parameters joined by `&` (`Image.QueryNoQuestion`, `Image.QueryDefault`) |
| Image.JoinNoChar | src/utils/ImageOptimizer.js:24 | a character in neither the parts nor the separator is not in their join |
| Image.ParamNoQuestion | src/utils/ImageOptimizer.js:19-22 | a parameter whose name has no `?` has none |
| Image.BeforeOfJoined | src/utils/ImageOptimizer.js:16 | cutting `base?query` at its first `?` gives back a base without `?` |
| Image.DefaultLiterals | src/utils/ImageOptimizer.js:6-7 | the default quality and format are written as `80` and `auto` |
| Image.SourceOf | src/utils/ImageOptimizer.js:31-32 | the srcSet `path widthw` and the media query `(max-width: widthpx)` (`Image.SourceShape`) |
| Image.SourceFor | src/utils/ImageOptimizer.js:30-33 | the source of one breakpoint over the image optimised with only that width |
| Image.ConcatEnds | src/utils/ImageOptimizer.js:31-32 | a concatenation starts with its first part and ends with its second |
| Strs.Split | src/utils/ImageOptimizer.js:16 | `split` always yields at least one piece (`Strs.JoinSplit`, `Strs.SplitNoSeparator`) |
| Strs.Join | src/utils/ImageOptimizer.js:24 | joining no parts gives the empty string and one part gives that part |
| Strs.IntToString | src/utils/ImageOptimizer.js:31-32 | a number's decimal text is never empty (`Strs.NatToStringInjective`) |
| Perf.ThresholdScore | src/utils/PerformanceMonitor.js:269-297 | a metric scores 100, 75 or 50 |
| Perf.ThresholdMonotone | src/utils/PerformanceMonitor.js:269-297 | a larger measurement never scores higher |
| Perf.ThresholdBands | src/utils/PerformanceMonitor.js:269-297 | the score is 100 exactly up to the good bound, 75 exactly above it up to the poor bound, and 50 exactly above the poor bound |
| Perf.MetricScoresMonotone | src/utils/PerformanceMonitor.js:269-297 | for each of LCP, FID, CLS, FCP and TTFB, a larger measurement never scores higher |
| Perf.MetricBoundaries | src/utils/PerformanceMonitor.js:269-297 | the bounds are inclusive: LCP 2500/4000, FID 100/300, CLS 0.1/0.25, FCP 1800/3000 and TTFB 800/1800 |
| Perf.Grade | src/utils/PerformanceMonitor.js:299-305 | the grade is one of A, B, C, D and F |
| Perf.GradeMonotone | src/utils/PerformanceMonitor.js:299-305 | a higher score never has a worse grade |
| Perf.GradeBands | src/utils/PerformanceMonitor.js:299-305 | A from 90, B from 80, C from 70, D from 60, and F below 60 |
| Perf.SumOfScores | src/utils/PerformanceMonitor.js:260 | five scores of 100, 75 or 50 sum to 250 plus a multiple of 25 up to 500 |
| Perf.WholeMean | src/utils/PerformanceMonitor.js:260 | their mean is a whole multiple of 5 between 50 and 100 |
| Perf.OverallScoreBounds | src/utils/PerformanceMonitor.js:251-266 | the overall score is the mean of the five scores, with no rounding needed, a multiple of 5 between 50 and 100, and the grade is the grade of that mean |
| Perf.NothingObservedScoresFull | src/utils/PerformanceMonitor.js:253-257 | with no metric observed every value counts as 0, so every score is 100 and the grade is A |
| Perf.OverallMonotone | src/utils/PerformanceMonitor.js:251-266 | larger measurements never raise the overall score or improve the grade |
| Perf.JsonCountsAsScript | src/utils/PerformanceMonitor.js:181-182 | a ".json" url without ".css" is classed as a script, because ".js" occurs in it |
| Perf.WoffTwoIsFont | src/utils/PerformanceMonitor.js:184 | a ".woff2" url that matches none of the earlier tests is a font |
| Perf.ImageExtensionIgnoresCase | src/utils/PerformanceMonitor.js:183 | the image test ignores case |
| Perf.ResourceTypeFirstMatch | src/utils/PerformanceMonitor.js:180-186 | the tests run in order and the first that holds decides: stylesheet, script, image, font, else other |
| Perf.Stamped | src/utils/PerformanceMonitor.js:236-239 | the stored record is the data with `recordedAt` set to the time and every other field kept |
| Perf.Inserted | src/utils/PerformanceMonitor.js:236-242 | the metric's name is among the keys, and a name already present keeps its place |
| Perf.Kept | src/utils/PerformanceMonitor.js:242-245 | at most 100 keys are kept, and all of them when there are no more |
| Perf.KeptAndDropped | src/utils/PerformanceMonitor.js:242-245 | the dropped keys followed by the kept keys are all the keys, in order |
| Perf.KeptOrDropped | src/utils/PerformanceMonitor.js:242-245 | among distinct keys, a key is kept exactly when it is not dropped |
| Perf.StoredKeysFacts | src/utils/PerformanceMonitor.js:236-245 | the stored keys stay distinct and at most 100; the new name is always kept; below 100 keys nothing is dropped |
| Perf.FullStoreDropsEarliest | src/utils/PerformanceMonitor.js:242-245 | a new metric in a full store displaces the earliest key and is appended last |
| Perf.MetricStore.constructor | src/utils/PerformanceMonitor.js:234 | without a stored value the store is empty |
| Perf.MetricStore.StoreMetric | src/utils/PerformanceMonitor.js:232-248 | storing keeps the store valid, sets the keys to the stored keys, records the stamped data under the name, and leaves every other kept record unchanged |
| Perf.LcpScore | src/utils/PerformanceMonitor.js:269-273 | 100 up to 2500, 75 up to 4000, else 50 (`Perf.MetricBoundaries`, `Perf.MetricScoresMonotone`) |
| Perf.FidScore | src/utils/PerformanceMonitor.js:275-279 | 100 up to 100, 75 up to 300, else 50 (`Perf.MetricBoundaries`, `Perf.MetricScoresMonotone`) |
| Perf.ClsScore | src/utils/PerformanceMonitor.js:281-285 | 100 up to 0.1, 75 up to 0.25, else 50 (`Perf.MetricBoundaries`, `Perf.MetricScoresMonotone`) |
| Perf.FcpScore | src/utils/PerformanceMonitor.js:287-291 | 100 up to 1800, 75 up to 3000, else 50 (`Perf.MetricBoundaries`, `Perf.MetricScoresMonotone`) |
| Perf.TtfbScore | src/utils/PerformanceMonitor.js:293-297 | 100 up to 800, 75 up to 1800, else 50 (`Perf.MetricBoundaries`, `Perf.MetricScoresMonotone`) |
| Perf.Rank | src/utils/PerformanceMonitor.js:299-305 | the order of the grades, F lowest and A highest, used by `Perf.GradeMonotone` |
| Perf.ValueOr0 | src/utils/PerformanceMonitor.js:253-257 | an unobserved metric reads as 0 |
| Perf.IndividualScores | src/utils/PerformanceMonitor.js:252-258 | each metric's value scored by its own thresholds |
| Perf.Sum | src/utils/PerformanceMonitor.js:260 | the five scores added up (`Perf.SumOfScores`) |
| Perf.Round | src/utils/PerformanceMonitor.js:264 | `Math.round`, the nearest integer with halves going up (`Perf.RoundWhole`) |
| Perf.GetPerformanceScore | src/utils/PerformanceMonitor.js:251-266 | the five scores, their rounded mean and the grade of the unrounded mean (`Perf.OverallScoreBounds`, `Perf.OverallMonotone`, `Perf.NothingObservedScoresFull`) |
| Perf.FifthOfMultiple | src/utils/PerformanceMonitor.js:260 | five times q divided by 5 is q, the step that makes the mean of five scores whole |
| Perf.MultipleOfFive | src/utils/PerformanceMonitor.js:260 | five times k is divisible by 5 |
| Perf.RoundWhole | src/utils/PerformanceMonitor.js:264 | rounding a whole number changes nothing |
| Perf.ImageExtension | src/utils/PerformanceMonitor.js:183 | the url ends in one of the six image extensions in any letter case (`Perf.ImageExtensionIgnoresCase`) |
| Perf.ResourceType | src/utils/PerformanceMonitor.js:180-186 | stylesheet, script, image, font or other, by the first test that holds (`Perf.ResourceTypeFirstMatch`, `Perf.JsonCountsAsScript`, `Perf.WoffTwoIsFont`) |
| Perf.ContainsWithin | src/utils/PerformanceMonitor.js:181-184 | text found inside a part is found inside the whole |
| Perf.JsonHasJs | src/utils/PerformanceMonitor.js:182 | `.json` holds `.js` |
| Perf.WoffTwoHasWoff | src/utils/PerformanceMonitor.js:184 | `.woff2` holds `.woff` |
| Perf.LowerTwice | src/utils/PerformanceMonitor.js:183 | lowering a lowered string changes nothing |
| Perf.Distinct | src/utils/PerformanceMonitor.js:242 | object keys never repeat |
| Perf.DistinctHalves | src/utils/PerformanceMonitor.js:242-245 | the two halves of a list without repeats share nothing and are without repeats |
| Perf.DistinctSnoc | src/utils/PerformanceMonitor.js:236 | appending a new key keeps the keys without repeats |
| Perf.Dropped | src/utils/PerformanceMonitor.js:244 | the keys before the last hundred, deleted (`Perf.KeptAndDropped`, `Perf.KeptOrDropped`) |
| Perf.StoredKeys | src/utils/PerformanceMonitor.js:236-245 | the keys after the insert and the trim (`Perf.StoredKeysFacts`, `Perf.FullStoreDropsEarliest`) |
| Strs.Lower | src/utils/PerformanceMonitor.js:183 | the case-insensitive match lowers each character and keeps the length |

## Left out

- I/O and concurrency are left out: HTTP requests, renders, the React effects that run after later changes, `isMounted`, timers, focus and scrolling, JSX and `formatTime`. A fetch or the backend is given as a function or as its outcome. `Promise.allSettled` is a list of per-source outcomes.
- React effects: only the first run of each persisting effect, on mount, is modelled. The constructors of `Chat.Chatbot`, `Widget.ChatWidget` and `Legacy.LegacyChatbot` write the initial state back to storage as that run does. Later runs are folded into the methods that change the watched state.
- Js.Entries: an object is its fields in the order given, and `Object.entries` here lists them in that order. JavaScript lists integer-like keys first, in ascending order; that is not modelled (src/services/contentExtractor.js:101-179). An `Obj` may hold the same key twice; `Js.Lookup` then reads the first, where a parsed JSON object keeps only the last.
- The browser's `localStorage` is a class over a string map with a flag saying whether storage works. Messages are saved in a self-delimiting text format of this model, whose round trip is proved. JSON text, `JSON.stringify` and `JSON.parse` are not modelled. Timestamps are natural numbers.
- `Date.now()`, `new Date()`, `Math.random()` and `time.time()` are parameters.
- Numbers are exact: scores and thresholds are reals, and JSON numbers read from records are integers. IEEE rounding is not modelled. This matters at boundaries such as CLS 0.1, the 0.3, 0.22 and 0.18 thresholds and `Math.round`.
- Strings are sequences of characters. Their lengths count characters, not UTF-16 code units. Lower-casing is ASCII only. A regular expression is modelled by its character classes.
- The session id that the backend client attaches to a request is stored (`Chat.Chatbot.RequestSessionId`, `Legacy.LegacyChatbot.RequestSessionId`) but is not a field of the request record.
- The request code of the backend client, `src/services/chatbotAPI.js`, is not part of this model. Only its choice of reply text is.
- The legacy component's loader `loadDynamicKnowledge` (src/components/Chatbot.js:385-528) is not modelled. Nor are its helpers `buildAdmissionsEntries` and `resolveItems` (src/components/Chatbot.js:210-272), which repeat the newer extractor's shapes with fewer fields. Its dynamic entries are modelled entry by entry (`Legacy.LegacyDynamicEntry`).
- Legacy.LegacyChatbot.HandleSendMessage: the source appends the user's message before it computes the answer. The model computes the answer first and then appends both messages. Nothing the answer depends on is changed by the first append.
- Chat.Chatbot.SendMessage: the same reordering. The hook appends the user's message before the answer is computed; the model computes the answer first, then appends both messages (`Chat.Chatbot.Exchange`).
- Sanitize.SanitizeInput: a cut can leave trailing whitespace, because the source cuts after trimming (`Sanitize.CutCanEndInSpace`). The no-trailing-whitespace fact is stated only for uncut results.
- PortalUtils.SanitizeInput: the length limit is a natural number, where 0 stands for an absent or falsy limit. A negative `max_length` is not modelled.
- Security.SanitizeValue: the limit is a natural number, so a negative `max_length` is not modelled. `str()` of an arbitrary object is the text it carries.
- JavaScript `null` and `undefined` are one `None`, and so are an absent argument and an explicit `undefined`. An explicit `null` passed to a defaulted argument, which JavaScript would keep, is not modelled.
- Security.RateCheckEffect: `cache.ttl` depends on the cache backend. It is a parameter of the refused branch.
- Image options: widths, heights and qualities are integers. Non-integer or string option values are not modelled. Form encoding is modelled exactly for characters that encode as one UTF-8 byte, so the round trip is proved for ASCII only.
- The DOM-based `sanitizeHTML` and `escapeHTML` of `src/utils/sanitize.js` are not modelled. They use the browser to escape text.
- PortalUtils.UnescapeEscape: `Unescape` is this model's own inverse for the five entities that `html.escape` writes, not Python's `html.unescape`.
- The remaining parts of PerformanceMonitor are left out: `PerformanceObserver`, `gtag`, the analytics `fetch` and `reportMetric`'s environment test. The stored JSON text is not modelled: the store holds parsed records, so the exception `JSON.parse` throws on an unparsable stored value (src/utils/PerformanceMonitor.js:234) has no counterpart.
- Perf.Stamped: a stored record maps field names to numbers only. The string fields of the LCP record, `element` and `url` (src/utils/PerformanceMonitor.js:44-49), and the arrays stored for `resources` and `longTasks` (src/utils/PerformanceMonitor.js:152-173) are not modelled. Only their keys take part in the trim.
- Perf.MetricStore.StoreMetric: `Object.keys` order is insertion order here. JavaScript lists integer-like keys first; that is not modelled. `recordedAt` is the time parameter.
- `build_safe_media_url`, `log_admin_action`, `validate_request_size` and the Django signal receivers of the portal are left out. They depend on request objects, files and logging.
- The `IntersectionObserver`, `Image` and `supportsWebP` parts of ImageOptimizer are left out.
- `trackSEOPerformance`, `generateRobotsTxt` and the JSON text of `generateStructuredData` are left out. The breadcrumb schema is modelled as its item list.

## Findings

| source | as written | input that shows it | evidently intended | confidence | as-written member | corrected member |
|---|---|---|---|---|---|---|
| src/components/Chatbot.js:152-153 | small-talk phrases are found as substrings of the normalised message | the question "history" (or "this") gets the greeting reply, because it contains "hi" | greet only when a greeting word is a whole word, as src/services/intentRecognizer.js does | medium; not executed | Legacy.HistoryGetsGreeting | Intent.HistoryIsGeneral |
| portal/security.py:87-111 | both branches of the username test return, so the code that counts and locks the address never runs | five failed logins from one address with five different usernames leave the address unlocked | count failures per address and lock the address at five | high; not executed | Security.IpNeverLockedAsWritten | Security.TrackedIpLocks |
| portal/utils.py:79-100 | `image/jpg` is an allowed default type, but the extension table maps "jpg" and "jpeg" to `image/jpeg` only | a 1 KiB "photo.jpg" declared as `image/jpg` is rejected as a mismatch | accept the `image/jpg` alias for ".jpg" and ".jpeg" files | medium; not executed | PortalUtils.JpgAliasRejected | PortalUtils.JpgAliasAccepted |
