# AI Labs curriculum: a Dafny model

This project models the curriculum behind the portfolio site's "AI Labs" page
and proves what the page relies on.

- **Catalog** (`LabsData`, `Catalog`): the `Lab` and `Topic` records and the
  seven `TopicCategory` tags. It covers the two read-only queries.
  `getTopicsByCategory` is an order-preserving filter. `getMomentumStarters`
  keeps the flagged topics and sorts them stably by `momentumOrder ?? 0`.
  It also covers the hand-kept `categoryOrder` and the label and colour
  tables. Every query is stated over any catalog. The shipped catalog is
  transcribed with its ids, letters, categories, difficulty, demand, flags,
  orders and lab ids, prerequisites and statuses. Its free text is left out.
- **Lab row** (`LabItem`): the heading `Lab {letter}{id without its a..u
  prefix} : {title}`, the status badge lookup and the "Requires:" line.
- **Topic card** (`TopicCard`): the five difficulty dots, the demand bar's
  width and caption, the completed-lab count and the "Start Here" badge.
  It also covers the accent colour and the `expanded` toggle, which is a
  class whose `Click` method flips it.
- **Skill bar** (`SkillBar`): the four colour bands of `barColor`, and the
  `animated` value shown as both the percentage text and the bar width.
- **Support**: `Seqs` models `Array.prototype.filter`. `NumberText` models
  how the page prints an integral number. Its `ParseInt` is not taken from
  the page, which never parses a number: it is the printing's inverse, there
  so that round trips can state that the printed text means the number. `Optional` is
  an option type.

Pure code is modelled as functions and lemmas. The two pieces of state
(`expanded`, `animated`) are classes.

The sort is specified by what it promises: sorted by key, a permutation, and
stable per key. It is computed by insertion sort.
`SortByOrderCharacterised` proves that exactly one sequence meets all three
promises, so any stable sort returns the same result. This covers the
engine's `Array.prototype.sort`, which must be stable since the 2019
edition of ECMA-262.

## Model

| member | source | states |
|---|---|---|
| Seqs.Filter | src/data/labs-data.ts:937 | a filter's result is never longer than its input |
| Seqs.FilterMembers | src/data/labs-data.ts:937 | every kept element satisfies the callback; an element is kept iff it is in the input and satisfies the callback |
| Seqs.FilterIsSubsequence | src/data/labs-data.ts:937 | the kept elements keep their input order (the result is a subsequence) |
| Seqs.FilterMultiplicity | src/data/labs-data.ts:937 | each element is kept as often as it occurs if it satisfies the callback, otherwise never |
| Seqs.FilterAppend | src/data/labs-data.ts:937 | filtering a concatenation is concatenating the filters |
| Seqs.FilterAllOrNone | src/data/labs-data.ts:937 | the filter keeps everything iff all elements pass, and nothing iff none does |
| LabsData.EffectiveOrder | src/data/labs-data.ts:944 | the sort key is `momentumOrder` when present and 0 when absent |
| LabsData.TopicsByCategory | src/data/labs-data.ts:936-938 | `getTopicsByCategory(c)`, the filter with the callback `InCategory(c)` (`t.category === c`), is no longer than the catalog, holds only topics of `c`, and holds a topic iff it is in the catalog with category `c` |
| LabsData.TopicsByCategoryExact | src/data/labs-data.ts:936-938 | the result is a subsequence of the catalog and keeps each topic of `c` as often as the catalog has it, and no other topic |
| LabsData.SectionShownIffUsed | src/components/labs/category-section.tsx:11 | a category's section is non-empty, and so rendered, iff some catalog topic has that category |
| LabsData.Insert | src/data/labs-data.ts:944 | inserting into a key-sorted sequence keeps it sorted and adds exactly the new topic |
| LabsData.SortByOrder | src/data/labs-data.ts:944 | the sort's result is ascending in `momentumOrder ?? 0` and a permutation of its input |
| LabsData.InsertStable | src/data/labs-data.ts:944 | insertion puts the new topic before the topics with its key and leaves every key's order alone |
| LabsData.SortByOrderStable | src/data/labs-data.ts:944 | stability: for every key, the topics with that key leave the sort in the order they entered |
| LabsData.SortedWithSameKeyOrderEqual | src/data/labs-data.ts:944 | two key-sorted sequences with the same per-key subsequences are equal |
| LabsData.SortByOrderCharacterised | src/data/labs-data.ts:944 | a sequence is the sort's result iff it is key-sorted and keeps each key's topics in input order, so every stable sort agrees with the model |
| LabsData.SortByOrderKeepsSorted | src/data/labs-data.ts:944 | sorting an already sorted sequence returns it, so sorting twice equals sorting once |
| LabsData.MomentumStarters | src/data/labs-data.ts:941-945 | `getMomentumStarters()`, the filter with the callback `IsStarter` (`t.isMomentumStarter`, line 943) followed by the sort, is ascending by effective order and a permutation of the flagged topics |
| LabsData.MomentumStartersExact | src/data/labs-data.ts:942-944 | the starters are exactly the flagged topics, each as often as in the catalog, with equal keys in catalog order |
| LabsData.UnorderedStarterFirst | src/data/labs-data.ts:944 | a starter without `momentumOrder` comes before any starter with order 1 |
| LabsData.FlaggedInOrderAreStarters | src/data/labs-data.ts:941-945 | when the flagged topics already stand in key order, the starters are the flagged topics in catalog order |
| LabsData.CategoryIndex | src/data/labs-data.ts:948-956 | every category has a position in `categoryOrder` |
| LabsData.CategoryOrderListsEachOnce | src/data/labs-data.ts:948-956 | `categoryOrder` has seven entries, lists every category, and has no repeats |
| LabsData.CategoryLabel | src/data/labs-data.ts:33-41 | every category has a non-empty label |
| LabsData.CategoryColor | src/data/labs-data.ts:43-51 | every category has a non-empty colour |
| LabsData.CategoryTablesInjective | src/data/labs-data.ts:33-51 | no two categories share a label or a colour |
| LabsData.Sections | src/app/ai-labs/page.tsx:68-77 | the roadmap shows only catalog topics whose category is one of the listed categories |
| LabsData.SectionsMultiplicity | src/app/ai-labs/page.tsx:68-77 | with no repeated category, the roadmap shows each topic as often as the catalog has it if its category is listed, else never |
| LabsData.RoadmapPartitionsCatalog | src/app/ai-labs/page.tsx:68-77 | the roadmap in `categoryOrder` is a permutation of the catalog, and each topic is in its own category's section and no other |
| LabsData.BlockIsSection | src/data/labs-data.ts:936-938 | when the catalog is written in one block per category, each category's topics are exactly its block |
| LabsData.SectionsFollowBlocks | src/app/ai-labs/page.tsx:68-77 | such a catalog is already in roadmap order: the sections read in order give back the catalog |
| NumberText.NatToString | src/components/labs/topic-card.tsx:40 | a natural number prints as a non-empty run of digits with no leading zero; one digit iff it is below 10 |
| NumberText.IntToString | src/components/labs/topic-card.tsx:40 | an integer prints non-empty, starting with '-' iff it is negative |
| NumberText.IntToStringRoundTrip | src/components/labs/topic-card.tsx:40 | the printed text of an integer parses back to that integer |
| NumberText.IntToStringInjective | src/components/labs/topic-card.tsx:40 | two integers print the same iff they are equal |
| LabItem.StripTopicLetter | src/components/labs/lab-item.tsx:38 | `id.replace(/^[a-u]/, "")` removes at most one character, and removes one iff the id starts with a letter in a..u; then it leaves the rest, otherwise the id unchanged |
| LabItem.LabHeading | src/components/labs/lab-item.tsx:38 | the heading starts with "Lab " and the topic letter, ends with the title, and is 7 characters longer than the letter, the stripped id and the title together |
| LabItem.LabHeadingLayout | src/components/labs/lab-item.tsx:38 | the heading is "Lab ", then the topic letter, then the stripped id, then " : ", then the title, at the stated offsets |
| LabItem.LabHeadingDropsPrefix | src/components/labs/lab-item.tsx:38 | for an id starting with a..u, the heading shows the topic letter followed by the id's remainder |
| LabItem.StatusLabel | src/components/labs/lab-item.tsx:5-21 | the status lookup is total, with a non-empty label for each status |
| LabItem.StatusLabelInjective | src/components/labs/lab-item.tsx:5-21 | the three statuses have three distinct labels |
| LabItem.RequiresLine | src/components/labs/lab-item.tsx:54-57 | the "Requires:" line appears iff there are prerequisites, and starts with "Requires: " |
| LabItem.Join | src/components/labs/lab-item.tsx:56 | `parts.join(sep)`: joining n parts adds n - 1 separators and nothing else (the text's length) |
| LabItem.JoinPartAt | src/components/labs/lab-item.tsx:56 | each prerequisite appears in the joined text at its offset, in the given order |
| LabItem.JoinSeparatorAt | src/components/labs/lab-item.tsx:56 | exactly one ", " stands between consecutive prerequisites |
| LabItem.JoinEndsWithLast | src/components/labs/lab-item.tsx:56 | the last prerequisite ends the joined text |
| LabItem.JoinedAfter | src/components/labs/lab-item.tsx:56 | after any heading, each joined part sits at its offset, a separator follows it unless it is the last, and the last part ends the text |
| LabItem.RequiresLineLists | src/components/labs/lab-item.tsx:54-57 | the "Requires:" line holds prerequisite i at offset 10 + its join offset, in the given order, with ", " after each but the last, which ends the line |
| LabItem.RequiresLineLength | src/components/labs/lab-item.tsx:54-57 | the line's length is the prefix, the prerequisites and 2(n - 1) separator characters |
| TopicCard.DifficultyDots | src/components/labs/topic-card.tsx:19-24 | there are always five dots, and dot i is filled iff i < level |
| TopicCard.PrefixFilledCount | src/components/labs/topic-card.tsx:19-24 | a row where dot i is filled iff i < m has min(max(m, 0), length) filled dots |
| TopicCard.DifficultyDotsFilled | src/components/labs/topic-card.tsx:19-24 | the filled count is min(max(level, 0), 5), and the filled dots come first |
| TopicCard.DemandWidth | src/components/labs/topic-card.tsx:37 | the width style is a percentage |
| TopicCard.DemandCaption | src/components/labs/topic-card.tsx:40 | the caption ends in "/10" |
| TopicCard.DemandBarReadsBack | src/components/labs/topic-card.tsx:37-40 | the width reads back as level * 10 percent, the caption as the level; the width is "100%" iff the level is 10 |
| TopicCard.CompletedLabs | src/components/labs/topic-card.tsx:48 | the completed-lab count, the filter with the callback `IsComplete` (`l.status === "complete"`), is between 0 and the number of labs |
| TopicCard.CompletedLabsExtremes | src/components/labs/topic-card.tsx:48 | the count equals the number of labs iff all are complete, and is 0 iff none is |
| TopicCard.CompletedLabsAppend | src/components/labs/topic-card.tsx:48 | the count over two runs of labs is the sum of their counts |
| TopicCard.LabsProgress | src/components/labs/topic-card.tsx:111 | the card's count text ends with " labs" |
| TopicCard.LabsProgressReadsBack | src/components/labs/topic-card.tsx:111 | the count text has exactly one '/' before " labs"; the digits before it read back as the completed labs and those after it as the number of labs |
| TopicCard.StartHereBadge | src/components/labs/topic-card.tsx:79-86 | the badge is shown iff the topic is a momentum starter, and then reads "Start Here" |
| TopicCard.StartHereMatchesStarters | src/components/labs/topic-card.tsx:79-86 | a catalog topic shows "Start Here" iff it is among the momentum starters |
| TopicCard.AccentColor | src/components/labs/topic-card.tsx:47 | every topic has a non-empty accent colour |
| TopicCard.Card.constructor | src/components/labs/topic-card.tsx:46 | a new card is collapsed |
| TopicCard.Card.Click | src/components/labs/topic-card.tsx:58 | a click flips `expanded` |
| TopicCard.Card.ListedLabs | src/components/labs/topic-card.tsx:117-123 | an expanded card lists all its labs in order; a collapsed card lists none |
| TopicCard.Card.ListedHeadings | src/components/labs/topic-card.tsx:120-122 | each listed lab is headed with the topic's letter and that lab |
| TopicCard.ClickTwice | src/components/labs/topic-card.tsx:58 | two clicks bring the card back to its earlier state |
| SkillBar.BarColor | src/components/skill-bar.tsx:19-26 | every level gets a non-empty colour class |
| SkillBar.BarColorBands | src/components/skill-bar.tsx:19-26 | emerald iff level >= 90, teal iff 80 <= level < 90, sky iff 70 <= level < 80, violet iff level < 70 |
| SkillBar.Bar.constructor | src/components/skill-bar.tsx:12 | the bar shows 0 before the timer fires |
| SkillBar.Bar.TimerFires | src/components/skill-bar.tsx:15 | the timer callback sets `animated` to the level |
| SkillBar.Bar.Percent | src/components/skill-bar.tsx:35-41 | the percentage text and the width style are the same percentage and read back as `animated` |
| Catalog.LowerLetter | src/components/labs/lab-item.tsx:38 | the i-th lower-case letter lies in a..u, the range the heading strips, iff i < 21 |
| Catalog.CatalogShape | src/data/labs-data.ts:53-933 | the shipped `topics`, transcribed as `Catalog.Topics` (the constants `TopicA` to `TopicU` in seven category blocks), has 21 topics; topic i has letter A+i, id "topic-" plus that letter in lower case, and three labs with ids letter+1, +2, +3, none of them started |
| Catalog.CatalogCounts | src/data/labs-data.ts:53-933 | 21 topics with three labs each and 63 labs in all; topic ids are distinct, and so are letters |
| Catalog.TotalLabsUniform | src/data/labs-data.ts:53-933 | topics with n labs each have n times as many labs as topics |
| Catalog.CatalogBadge | src/app/ai-labs/page.tsx:26 | the hand-written badge "21 Topics / 63 Labs" agrees with the catalog |
| Catalog.CatalogLabHeadings | src/components/labs/lab-item.tsx:38 | every shipped lab's heading reads "Lab " + topic letter + the lab's number as printed + " : " + title, e.g. "Lab A1" |
| Catalog.NoneCompleteProgress | src/components/labs/topic-card.tsx:111 | a topic with three labs and none complete reads "0/3 labs" |
| Catalog.CatalogProgress | src/components/labs/topic-card.tsx:111 | every shipped card counts 0 completed labs and reads "0/3 labs" |
| Catalog.CatalogSectionsAreBlocks | src/data/labs-data.ts:936-938 | the topics of the i-th category are exactly the catalog's i-th block |
| Catalog.CatalogSections | src/app/ai-labs/page.tsx:68-77 | Orchestration holds G, H, I, J; no section is empty; the sections read in order give back the catalog |
| Catalog.CatalogFlagged | src/data/labs-data.ts:943 | the flagged topics are A, B, C, E, F in catalog order |
| Catalog.CatalogStarters | src/data/labs-data.ts:941-945 | the momentum starters are A, B, C, E, F with orders 1 to 5; there are five, as the section's introduction says |

## Left out

- `src/components/nexus-dashboard.tsx` is not part of this model. It is canvas drawing, random numbers, floating-point trigonometry, interval timers and a charting library.
- Layout and chrome are not modelled: the dashboard, header, experience card, chat bubble and root layout. They are markup and styling.
- The theme provider is not modelled. It works only through side effects on the document's class list.
- The résumé data is not modelled. It is static content with no logic.
- `category-section.tsx` is render-only. Its one rule, rendering nothing for an empty list, is `SectionShownIffUsed`.
- SkillBar.Bar.TimerFires: only the callback's effect is modelled. The `setTimeout` delay, the clean-up `clearTimeout` and React's scheduling are timer plumbing.
- Free text is not transcribed: topic names, descriptions, time to proficiency, and lab titles, durations and summaries. `LabHeading` takes the title as a parameter.
- Prerequisites are carried as plain labels and never resolved. The code never checks them.
- Numbers are modelled as unbounded integers. Non-integral values, NaN, and the exponent form JavaScript prints from 1e21 up are not modelled. Every number the catalog and the cards use is a small integer.
- The comparator `(a.momentumOrder ?? 0) - (b.momentumOrder ?? 0)` is modelled as a comparison of integer keys. With integers the subtraction's sign is exactly that comparison.
- The engine's sorting algorithm is not modelled. The model sorts by insertion, and `SortByOrderCharacterised` shows that every stable sort gives the same result.
- In-place sorting is not modelled. `sort` reorders only the fresh array returned by `filter`. The model works on values, so neither query can change the catalog, and repeated calls return equal results by construction.
- Icons, CSS classes other than the bar colours, and the `featured` styling prop are not modelled.
