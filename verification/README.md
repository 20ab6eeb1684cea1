# A Dafny model of the list site's data core

The site publishes a ranked list of levels. The model covers five parts of it.

- **`fetchList` post-processing** (`js/content.js`). A manifest of level ids and one document per id become a list of slots. Each slot holds a loaded level or the id of a document that failed to load. A loaded level gets its `path` and has its records sorted by descending percent.
- **`fetchLeaderboard`** (`js/content.js`). One pass over the list files every verification and record under its user. User names are merged case-insensitively, and the first-seen spelling is kept. Pack credit follows, then the totals and a stable sort by descending total.
- **The URL helpers** (`js/util.js`). These extract a YouTube video id or a Medal clip id from a link and build the embed and thumbnail URLs.
- **The list page** (`js/pages/List.js`). It holds the search filter, the map from a filtered row back to the level's list position, the rank cell, the qualifying line, the packs of the selected level and the error messages built in `mounted`.
- **The leaderboard and packs pages** (`js/pages/Leaderboard.js`, `js/pages/Packs.js`). These hold the search filters, the maps back to board or pack positions, the `levelsData` index and `selectedPackLevels`.

The model uses these conventions.

- JavaScript objects used as maps are insertion-ordered association lists (`Assoc`). That is the order in which `Object.keys` and `Object.entries` enumerate every key that is not an array index. Array-index keys are the exception; see "## Left out".
- Sorts with a numeric comparator are one stable insertion sort on a `real` key (`StableSort.SortBy`). Its contract gives three things: a permutation of the input, ordered by key, with elements of equal key kept in input order.
- `score` and `round` from the scoring module are function parameters. So are `toLowerCase` and `trim`, packaged as a `Folding`. The only assumption made about lowercasing is `KeepsEmpty`: a string lowercases to the empty string exactly when it is empty.
- Regular expressions are modelled by what they match under ECMAScript semantics.
  - For `getYoutubeIdFromUrl`, `.` does not match a line terminator. The marker used is therefore the rightmost marker on the first line that holds one.
  - JavaScript strings are UTF-16 code units, and without the `u` flag `.` consumes one unit. The model's strings are Unicode characters, so the `.` of `youtu.be/` matches only a character at or below U+FFFF (`OneCodeUnit`). A character beyond U+FFFF is two units there and cannot make that marker. Everywhere else in these patterns, a negated class or `.*` that takes one half of a surrogate pair takes the other half too, so whole characters give the same match.
  - For `getMedalIdFromUrl`, the match is the leftmost `medal.tv/clip/` followed by at least one character other than `/`.
- The pass of `fetchLeaderboard` is related to reference definitions through a stream of contributions (`LeaderboardEvents`). These are the verification and then the records of each loaded level, in list order. Replaying the stream keeps the invariant `Summarises`, which holds three facts: the keys are the first-seen spellings, no two keys lowercase alike, and each accumulator holds exactly the entries filed under a name that lowercases like its key.

## Model

| member | source | states |
|---|---|---|
| `Content.SortRecords` | js/content.js:21-23 | The records come back as a permutation of the input, with percent never increasing, and records of equal percent keep their relative order. |
| `Content.FetchList` | js/content.js:8-37 | This row covers parse outcomes only; network failures are under "## Left out". The result is missing exactly when the manifest did not parse. Otherwise there is one slot per manifest id, in manifest order. A level document that did not parse gives `Failed(id)`. A parsed one gives a level with the fields the model keeps (name, author, creators, verifier, verification, percentToQualify and records), `path` set to its id, and its records sorted by descending percent, stably. |
| `Content.FailedIdsMembers` | js/content.js:55-59 | A non-empty id is among the ids the pass reports exactly when a slot failed with that id. |
| `Leaderboard.VisitErrs` | js/content.js:55-59 | The `errs` the pass collects are the ids of the failed slots, in list order. |
| `Assoc.ResolveFirstSpelling` | js/content.js:62-64 | A user name resolves to the first key that lowercases like it, or to itself when there is none. The `\|\| name` fallback never changes the result. |
| `LeaderboardEvents.CreditRecordsReplays` | js/content.js:80-108 | Crediting a level's records files their contributions one by one, in record order. |
| `LeaderboardEvents.VisitReplays` | js/content.js:55-109 | The nested loops of the pass file exactly the contribution stream of the list, in order. |
| `LeaderboardProofs.ApplyStep` | js/content.js:62-77 | Filing one more contribution, with a find-or-create of the user's accumulator, preserves `Summarises`. |
| `LeaderboardProofs.FirstSpellingsSpec` | js/content.js:81-83 | The user keys are the first-seen spellings. Each key is the first name of its case-insensitive class, every name's class has a key, and the keys come in order of first appearance. |
| `LeaderboardProofs.PassSummary` | js/content.js:53-109 | After the pass, the keys are the first-seen spellings of all names and no two lowercase alike. Each user's verified, completed and progressed entries are exactly those filed under names that lowercase like theirs, in list order. |
| `Leaderboard.LevelNamed` | js/content.js:121-124 | A level is found exactly when some loaded level has the name, and it is the first such level in the list. |
| `Leaderboard.CreditPacks` | js/content.js:137-149 | A user gets one zero-point pack entry for every pack whose levels all lie among their completed paths, in pack order. Nothing else in the accumulator changes. |
| `Leaderboard.AwardPacks` | js/content.js:112-151 | Every user keeps their name and entries and gains the pack entries of the packs they cover. Without a packs document nobody gains any. |
| `Leaderboard.FetchLeaderboard` | js/content.js:153-168 | The rows are a permutation of the unsorted rows, with totals non-increasing. Rows of equal total stay in the order the pass first met their users; array-index user names are excepted, see "## Left out". The error list is the failed ids. |
| `LeaderboardRows.UnsortedRows` | js/content.js:154-165 | Before sorting there is one row per first-seen spelling, in order, each with its user's expected entries, pack credit and total. |
| `LeaderboardRows.LeaderboardContents` | js/content.js:49-169 | The leaderboard has one row per first-seen spelling, and no two users lowercase alike. Each row holds exactly its user's entries, the packs those entries cover, and the rounded sum of their scores. Totals never increase down the board. |
| `LeaderboardRows.EmptyPackCredited` | js/content.js:138-141 | A pack without levels is credited to every user, since `every` holds on an empty array. |
| `LeaderboardRows.VerifiedInListOrder` | js/content.js:71-77 | A user's verifications have ranks between 1 and the list length, strictly increasing. |
| `LeaderboardRows.CompletedInListOrder` | js/content.js:91-97 | A user's completions have ranks between 1 and the list length, never decreasing. |
| `LeaderboardRows.ProgressedInListOrder` | js/content.js:101-107 | A user's progress entries have ranks between 1 and the list length, never decreasing. |
| `StableSort.SortBy` | js/content.js:168 | The output is a permutation of the input, ordered by key, with elements of equal key in input order. |
| `Util.ChosenUnique` | js/util.js:4 | At most one marker position satisfies the pattern's choice: the first line holding a marker, and the rightmost marker on it. |
| `Util.Scan` | js/util.js:3-5 | The scan over the lines returns the chosen marker, or reports that the URL holds no marker at all. |
| `Util.YoutubeId` | js/util.js:2-6 | The id never contains `#`, `&` or `?`. |
| `Util.YoutubeIdNone` | js/util.js:3-5 | A URL without any marker gives the empty id. |
| `Util.YoutubeIdChosen` | js/util.js:2-6 | The id is the maximal run that starts right after the chosen marker and ends at the first `#`, `&` or `?`, or at the end of the URL. |
| `Util.AstralDotNoMarker` | js/util.js:3-5 | A character beyond U+FFFF where `youtu.be/` has its `.` makes no marker, because `.` takes only the first of its two UTF-16 units. That URL gives the empty id. |
| `Util.MedalId` | js/util.js:27-30 | The id is empty exactly when no `medal.tv/clip/` is followed by a character other than `/`. It never contains `/`. It is the maximal run of non-`/` characters after the leftmost such match. |
| `Util.Embed` | js/util.js:8-16 | A link mentioning `medal.tv` becomes the Medal embed of its clip id, or stays as it is when it has none. Any other link becomes the YouTube embed URL of its video id. |
| `Util.YoutubeIdOfEmbed` | js/util.js:2-15 | For a video id of word characters and `-`, the id extracted from its embed URL is the id itself. |
| `Util.EmbedNotMedal` | js/util.js:10 | The embed URL of a video id never mentions `medal.tv`. |
| `Util.EmbedYoutubeFixed` | js/util.js:8-16 | Embedding a YouTube embed URL gives it back unchanged. |
| `Util.MedalIdOfClipUrl` | js/util.js:8-30 | A clip URL `https://medal.tv/clip/<id>` followed by nothing or by a `/...` suffix gives back `<id>`, and embedding it gives the Medal embed URL of `<id>`. |
| `Util.MedalIdOfEmbed` | js/util.js:27-35 | The clip id read back from a Medal embed URL is the id followed by `?embed=true`, because the pattern stops only at `/`. |
| `Util.ThumbnailInjective` | js/util.js:22-24 | Distinct video ids have distinct thumbnail URLs. |
| `ListPage.FilteredList` | js/pages/List.js:186-197 | A blank query gives the whole list. Otherwise the result holds exactly the loaded levels whose lowercased name contains the trimmed lowercased query. They appear in list order: entry n is the n-th matching slot, and no match follows the last entry. |
| `ListPage.OriginalIndex` | js/pages/List.js:246-264 | A blank query gives the identity. A filtered row maps to the list position of the level it shows, which is the position of the matching slot of that rank. An index past the filtered table is returned unchanged. |
| `ListPage.OriginalIndexIncreasing` | js/pages/List.js:252-261 | Later filtered rows map to strictly later list positions. |
| `ListPage.RankCellOf` | js/pages/List.js:36-37 | The cell shows `#n` with n the 1-based position exactly for the first 100 positions, and `Legacy` beyond. |
| `ListPage.QualifyLine` | js/pages/List.js:91-93 | The first 100 positions ask for `percentToQualify`. The rest ask for 100 percent with no points. |
| `ListPage.QualifyAgreesWithRank` | js/pages/List.js:91-93 | The page asks for 100 percent with no points exactly on the levels whose rank cell says `Legacy`. |
| `ListPage.LevelPacksAsWritten` | js/pages/List.js:209-215 | With no selected level the result is empty. With a selected level and no packs document, the property throws. With a packs document it yields a value. |
| `ListPage.LevelPacksThrows` | js/pages/List.js:210 | A selected level with the packs document missing makes `levelPacks` throw. |
| `ListPage.LevelPacks` | js/pages/List.js:209-215 | The result is the packs whose level list holds the selected level's path. Entry n is the n-th such pack, so they keep pack order and multiplicity, and no such pack follows the last entry. It is empty without a level or a packs document. |
| `ListPage.LevelPacksAgrees` | js/pages/List.js:209-215 | Wherever the property as written yields a value, the corrected one yields the same value. |
| `ListPage.ActiveAsWrittenMisses` | js/pages/List.js:39-40 | While a search is active, clicking the only filtered row, whose level is not first in the list, highlights no row. |
| `ListPage.ActiveIsClicked` | js/pages/List.js:39-40 | When the highlight is compared through the same map as the click, the clicked row is highlighted and no other. |
| `ListPage.ErrorMessages` | js/pages/List.js:224-239 | A missing list gives the list failure alone. Otherwise there is one message per failed level with a non-empty id, in list order, then the editors failure when the editors are missing. |
| `ListPage.ErrorsReportFailures` | js/pages/List.js:229-235 | A failed level with a non-empty id is reported, and every reported level failed. |
| `ListPage.LevelFailedInjective` | js/pages/List.js:233 | Distinct ids give distinct level-failure messages. |
| `LeaderboardPage.FilteredBoard` | js/pages/Leaderboard.js:119-129 | A blank query gives the whole board. Otherwise the result holds exactly the rows whose lowercased user contains the trimmed lowercased query. They appear in board order: entry n is the n-th matching row, and no match follows the last entry. |
| `LeaderboardPage.OriginalIndex` | js/pages/Leaderboard.js:140-152 | A blank query, or an index past the filtered table, gives the index itself. Otherwise the result is the first board position whose user is the filtered row's user. |
| `LeaderboardPage.OriginalIndexFaithful` | js/pages/Leaderboard.js:146-151 | With unique users, a filtered row maps to the board position of the row it shows. |
| `LeaderboardPage.OriginalIndexIncreasing` | js/pages/Leaderboard.js:140-152 | With unique users, later filtered rows map to later board positions. |
| `LeaderboardPage.FetchedBoardUnique` | js/pages/Leaderboard.js:132-133 | The board the page loads has no repeated user name, so the page's map is faithful on it. |
| `LeaderboardPage.ActiveAsWrittenMisses` | js/pages/Leaderboard.js:45-46 | While a search is active, clicking the only filtered row, whose user is not first on the board, highlights no row. |
| `LeaderboardPage.ActiveIsClicked` | js/pages/Leaderboard.js:45-46 | When the highlight is compared through the same map as the click, the clicked row is highlighted and no other. |
| `PacksPage.FilteredPacks` | js/pages/Packs.js:73-84 | A blank query gives all packs. Otherwise the result holds exactly the packs whose lowercased name or description contains the trimmed lowercased query. They appear in pack order: entry n is the n-th matching pack, and no match follows the last entry. |
| `PacksPage.OriginalIndex` | js/pages/Packs.js:137-149 | A blank query, or an index past the filtered grid, gives the index itself. Otherwise the result is the first pack with the filtered card's name. |
| `PacksPage.OriginalIndexAtOrBefore` | js/pages/Packs.js:146-148 | A card maps to its own pack's position or to an earlier one. |
| `PacksPage.OriginalIndexFaithful` | js/pages/Packs.js:137-149 | With unique pack names, a card maps to its own pack. |
| `PacksPage.SharedNameSelectsFirst` | js/pages/Packs.js:146-148 | A card whose name an earlier pack shares selects an earlier pack. |
| `PacksPage.LevelsDataSpec` | js/pages/Packs.js:118-124 | A path has an entry exactly when some loaded slot has it. The entry is the level of the last such slot. |
| `PacksPage.RankOf` | js/pages/Packs.js:89-95 | The rank is one plus the position of the first loaded slot with the path, or 999999 when there is none. |
| `PacksPage.Entries` | js/pages/Packs.js:88-97 | There is one entry per path of the pack, in pack order, duplicates included. |
| `PacksPage.Arrange` | js/pages/Packs.js:100-103 | The result is a permutation of the displayed entries, ordered by rank with `?` as 999999, and entries of equal rank keep their pack order. |
| `PacksPage.SelectedPackLevels` | js/pages/Packs.js:85-104 | The result is empty without a pack or with an empty list. Otherwise it is the pack's entries, sorted stably by rank, then displayed. |
| `PacksPage.PackEntryShown` | js/pages/Packs.js:88-96 | An entry is numbered by the first loaded slot of its path, or `?` when none loaded. It is named after the last loaded slot of the path, or after the path itself. |
| `PacksPage.ShownFromPack` | js/pages/Packs.js:100-103 | Every shown entry is the entry of one of the pack's paths. |
| `PacksPage.UnknownLast` | js/pages/Packs.js:95-103 | With fewer than 999999 slots, the `?` entries come after every numbered entry. |
| `PacksPage.SelectedPackLevelsAsWritten` | js/pages/Packs.js:86 | With a selected pack and no list document, the property throws. With a list it yields `SelectedPackLevels`. |
| `PacksPage.SelectedPackLevelsThrows` | js/pages/Packs.js:86 | A selected pack with the list document missing makes `selectedPackLevels` throw. |
| `PacksPage.SelectedPackLevelsOrEmpty` | js/pages/Packs.js:85-104 | A missing list document gives no entries. A loaded list gives `SelectedPackLevels`. |
| `PacksPage.SelectedPackLevelsAgrees` | js/pages/Packs.js:85-104 | Wherever the property as written yields a value, the corrected one yields the same value. |

## Left out

- Fetching, JSON parsing and `Promise.all` are left out. `FetchList` takes the parse outcome of every document as input. A level document lacking `records` makes `level.records.sort` throw inside the `try`, so it counts as a failed parse (`None`).
- Content.FetchList: network failures are not modelled. They do not behave like parse failures:
  - A rejected `fetch` of a level document (js/content.js:14) lies outside the inner `try`. It rejects `Promise.all`, and the outer `catch` makes the whole list `null`.
  - A rejected `fetch` of `_list.json` (js/content.js:9) lies outside every `try`, so `fetchList` rejects instead of returning `null`.
- Content.FetchList: `{...level}` copies every field of the document. The model keeps name, author, creators, verifier, verification, percentToQualify and records. The display-only fields `showcase`, `id`, `password`, `enjoyment` and `description` are not modelled.
- The `console.error` logging of a failed level (js/content.js:28) and of a failed list (js/content.js:34) is left out.
- `score` and `round` (`js/score.js`) are left out. They are parameters, and no property depends on their arithmetic. Floating-point summation is modelled as exact `real` addition.
- `toLowerCase` and `trim` are parameters. The only assumption made about lowercasing is `KeepsEmpty`.
- Leaderboard.FetchLeaderboard: takes the list as a sequence and requires `FailuresNamed`. As written, `fetchLeaderboard` throws when `fetchList` returns `null`. It also throws when a failed slot carries the empty id, because `if (err)` is then false and `level.verifier` reads `null`.
- LeaderboardRows.LeaderboardContents: requires `KeepsEmpty(lower)` and `FailuresNamed`, for the same reasons.
- Leaderboard.FetchLeaderboard: `Assoc` enumerates user names in insertion order. `Object.keys` and `Object.entries` put names that are array indices, such as `7` or `123`, before all other names, in ascending numeric order. With such names the model differs in two places:
  - which case-insensitive spelling the find-or-create at js/content.js:56-58 meets first;
  - the order of rows with equal totals after the stable sort at js/content.js:154-168.
- Prototype keys of JavaScript objects are not modelled. A user named `__proto__` in `scoreMap`, or a path named like an `Object.prototype` member in `levelsData`, would behave differently.
- The Vue templates, the `video` computed property, `shuffle` and `localize` are left out. So are spinners and styling.
- `selectedPack` in `js/pages/Packs.js` is left out. Like `selectedPackLevels`, it throws when the packs document is missing.
- The error messages of the packs page's `mounted` are left out, as is `getMedalThumbnailFromId`.
- `fetchEditors` is reduced to whether the editors document loaded, which is all the error messages use.
- `level` on the list page (`this.list[this.selected][0]`) is left out. It reads out of range when the list is empty.

## Findings

| source | as written | input that shows it | evidently intended | confidence | as-written member | corrected member |
|---|---|---|---|---|---|---|
| js/pages/List.js:209-210 | `levelPacks` reads `this.packs.length` when the packs document failed to load and `this.packs` is `null`. | A loaded list, any selected level, and `fetchPacks` returning `null`. | No packs are shown when the packs document is missing. | high, not executed | `ListPage.LevelPacksThrows` | `ListPage.LevelPacks` |
| js/pages/List.js:39-40 | The highlight compares `selected`, a list position set through `getOriginalIndex(i)`, with the filtered row number `i`. | A search matching only the level at list position 1. Clicking row 0 sets `selected = 1`, and no row is highlighted. | The clicked row is highlighted. | high, not executed | `ListPage.ActiveAsWrittenMisses` | `ListPage.ActiveIsClicked` |
| js/pages/Leaderboard.js:45-46 | The same comparison of a board position with a filtered row number. | A search matching only the user at board position 1. Clicking row 0 sets `selected = 1`, and no row is highlighted. | The clicked row is highlighted. | high, not executed | `LeaderboardPage.ActiveAsWrittenMisses` | `LeaderboardPage.ActiveIsClicked` |
| js/pages/Packs.js:86 | `selectedPackLevels` reads `this.levelsList.length` when `fetchList` returned `null`. | Packs loaded, the list document failing, and a pack selected. | No levels are shown when the list is missing. | high, not executed | `PacksPage.SelectedPackLevelsThrows` | `PacksPage.SelectedPackLevelsOrEmpty` |
