# e621 Categorizer — a verified model of its sorting core

The categorizer is a single PHP script, `categorize.php`. It takes a directory
of images, identifies each one as a post on e621.net (by the file's MD5 hash,
or by an IQDB reverse search when the hash is unknown), and moves the file into
a folder chosen from the post's data:

- a rating folder ("Explicit", "Questionable", "Safe");
- an interaction folder ("Solo/Male", "Male & Female", "Multiple characters",
  "Solo focus" suffixes, and "! Conflict" when the tags disagree);
- a flagged folder starting with "!" ("! Not found", "! Invalid",
  "! Unknown rating", "! Multiple matches", "! Error"), which stays in the
  source directory.

Two in-memory caches keep API traffic down. The posts cache maps a post id to
the post and only ever gains entries. The MD5 cache maps a hash to a post id;
it is filled from a posts.json dump (the first entry wins) or by batch hash
searches (the last post wins).

The model has six modules:

| module | file | what it holds |
|---|---|---|
| `Strings` | `strings.dfy` | The PHP string functions the script relies on: `explode`/`implode`, `ucfirst`, `str_replace`, `empty`, `trim` with whitespace collapsing, integer decimal text and its parse, a code-point order standing in for `sort`'s, and a path as the file system reads it. |
| `Tags` | `tags.dfy` | `getTagsAsOneArray`, the gender lookup and the 49-entry interaction-pair lookup. |
| `Classifier` | `classifier.dfy` | `categorize` as a function of its three answers (exists, tags, rating) and the settings. |
| `Folders` | `folders.dfy` | The rating-folder alias rewrite and the retargeting `safeRename` does when a destination exists. |
| `Routing` | `routing.dfy` | `convertImage`'s raw-or-convert decision, the `CONVERT` coercion, the reverse-search filter, `array_unique`, the per-file outcome table, the root choice and the command-line argument loop. |
| `Catalog` | `catalog.dfy` | The caches as a class (`Catalog`), `getPosts` and the lookups built on it, the posts.json index, the batch prefetch, categorize with its lookups, one pass of the per-file loop, and the run over all files. |

Every remote reply is an input. The class holds a function from (query text,
request number) to the reply and a function from request number to the
timestamp. The list of queries sent so far is a field, so "no request was
made" is a statement about that list. The file system is data as well:
directories are a set of paths, a directory listing is a sequence, and
existing files are a set of paths as the file system reads them, with every
run of separators read as one. So "a//b" names the file "a/b", as it does
for `file_exists` and `rename`. The path separator is `/`.

## Model

| member | source | states |
|---|---|---|
| `Tags.TagsAsOneArray` | categorize.php:384-398 | The flattened tags are sorted and are a permutation of all category lists concatenated: no tag is lost and none is added. |
| `Tags.TagsAsOneArrayLength` | categorize.php:384-398 | The length is the total tag count, because the duplicate test compares against the whole input rather than the tag. |
| `Tags.DuplicatesKept` | categorize.php:387-392 | A tag present in two categories appears twice in the result. |
| `Tags.TagsAsOneArrayOrderFree` | categorize.php:384-398 | Two inputs with the same tags, counted with multiplicity, flatten to the same sequence, whatever the categories and their order. |
| `Tags.InTagsAsOneArray` | categorize.php:384-398 | A tag is in the flattened list exactly when some category holds it. |
| `Tags.GenderNames` | categorize.php:407-415 | The seven gender display names in lookup order: Male, Female, Cuntboy, Dickgirl, Herm, Maleherm, Ambiguous. |
| `Tags.GenderNone` | categorize.php:417-436 | The gender lookup gives no match exactly when none of the seven gender tags is present. |
| `Tags.GenderSingle` | categorize.php:417-430 | Exactly one gender tag present gives that gender's capitalised name. |
| `Tags.GenderSeveral` | categorize.php:417-434 | Two gender tags present give a conflict listing both, in lookup order. |
| `Tags.GenderUpper` | categorize.php:424 | Every name the gender lookup returns starts with a capital letter. |
| `Tags.MatchesNone` | categorize.php:418-426 | Nothing is collected exactly when no vocabulary tag is present. |
| `Tags.MatchesOnly` | categorize.php:418-426 | With a single vocabulary tag present, the only name collected is its capitalised name. |
| `Tags.MatchesOrdered` | categorize.php:418-426 | Names are collected in vocabulary order. |
| `Tags.CollectPairsRecorded` | categorize.php:478-495 | Scanning the pair table collects exactly the pairs that are present and whose mirror pair is not present earlier in the table, in table order. |
| `Tags.CollectPairsFrom` | categorize.php:478-495 | The same, from any point of the scan: the skip test against the names found so far is the mirror test. |
| `Tags.InvertedRecorded` | categorize.php:485-490 | A pair's inverted name has been collected before it exactly when its mirror comes earlier and is present. |
| `Tags.PairsMirrorTable` | categorize.php:446-469 | In the generated table, entry 7a+b is "a/b"; its mirror is entry 7b+a; a name equals another entry's inverted name only for the mirror; and the names are already capitalised. |
| `Tags.MirroredPairCountedOnce` | categorize.php:485-493 | With both "a/b" and "b/a" present, only the one earlier in generation order is collected. |
| `Tags.SinglePairTag` | categorize.php:478-499 | A single slashed tag that is in the table gives exactly that pair's name. |
| `Tags.UnslashedTagsNoPairs` | categorize.php:478-495 | Tags without "/" never match a pair, so "male" and "female" alone match nothing. |
| `Tags.PairTagUnique` | categorize.php:457-469 | No two table entries share a tag. |
| `Tags.InteractionUpper` | categorize.php:493-507 | Every interaction name returned starts with a capital letter. |
| `Tags.GroupGivesMultipleCharacters` | categorize.php:501-507 | With "group", the result is exactly "Multiple characters/<pair>" when exactly one pair was found, and "Multiple characters" otherwise. |
| `Tags.MatchesMembers` | categorize.php:418-426 | The gender scan gives the same names for two tag lists holding the same tags, whatever their order. |
| `Tags.CollectPairsMembers` | categorize.php:478-495 | The pair scan gives the same names for two tag lists holding the same tags, whatever their order. |
| `Tags.SameMembersSameLookups` | categorize.php:405-515 | Both lookups give the same answer for two tag lists holding the same tags, whatever their order. |
| `Classifier.NotFoundFirst` | categorize.php:529-535 | A post that is not confirmed to exist is "! Not found", whatever else holds. |
| `Classifier.InvalidIffRejected` | categorize.php:537-575 | An existing post is "! Invalid" exactly when the required-tag gates reject its fetched tags. |
| `Classifier.GatesIndependent` | categorize.php:544-573 | The gate definition read clause by clause: the post passes the gates exactly when it has every REQUIRE_ALL_TAGS term (if that is set) and some REQUIRE_ONE_TAG term (if that is set). |
| `Classifier.TagsUnavailableSkipGates` | categorize.php:537-541 | When the tags cannot be fetched, the outcome equals the outcome with no required tags. |
| `Classifier.RatingFolders` | categorize.php:577-598 | e, q and s map to Explicit, Questionable and Safe, each to its own folder; every other rating maps to none. |
| `Classifier.UnknownRating` | categorize.php:586-598 | With rating folders on, an accepted post is "! Unknown rating" exactly when its rating is not e, q or s. |
| `Classifier.RatingComesFirst` | categorize.php:585-664 | With rating folders on, the path is the rating folder, followed by "/" and the interaction segment when interactions are on. |
| `Classifier.CategorizeFlagged` | categorize.php:523-669 | The path starts with "!" exactly when the post is not found, is rejected, has an unusable rating under BY_RATING, or has an interaction conflict with no rating folder in front. |
| `Classifier.RatedConflictNotFlagged` | categorize.php:636-664 | A conflict under a rating folder is "Explicit/! Conflict" (or similar), which does not start with "!". |
| `Classifier.SegmentNotes` | categorize.php:613-645 | Debug notes are produced exactly for a conflict, and they are the conflicting names from the lookup that was used. |
| `Classifier.NotesOnlyOnConflict` | categorize.php:613-645 | Non-empty notes imply the post was found, interactions were on, the tags were fetched, and the relevant lookup reported those names as a conflict. |
| `Classifier.CategorizeOrderFree` | categorize.php:384-669 | The outcome depends on which tags occur how often, not on their categories or order. |
| `Classifier.SortOrderIrrelevant` | categorize.php:384-669 | Any list holding the post's tags, in any order, passes the same gates and gets the same interaction segment as the sorted list, so the order `sort` produces is never observed by the classification. |
| `Classifier.SameMembersSameGates` | categorize.php:544-573 | Two tag lists holding the same tags pass or fail the gates alike. |
| `Classifier.SameMembersSameSegment` | categorize.php:603-664 | Two tag lists holding the same tags get the same interaction segment. |
| `Classifier.SoloWithGender` | categorize.php:611-628 | "solo" with exactly one gender tag gives "Solo/<Gender>". |
| `Classifier.SoloFocusOnGroup` | categorize.php:646-655 | "solo_focus" is appended even to a bare "Multiple characters", because that text has no separator. |
| `Classifier.ExplicitSoloMale` | categorize.php:577-664 | Rating e with tags "solo" and "male" gives "Explicit/Solo/Male". |
| `Classifier.TwoGendersNoPair` | categorize.php:478-515 | The tags "male" and "female" without "group" give "Unknown": a pair is only recognised from the "male/female" tag. |
| `Classifier.MaleFemalePair` | categorize.php:467-499 | The single tag "male/female" gives "Male & Female". |
| `Classifier.GroupOfTwo` | categorize.php:501-507 | The tags "male", "female" and "group" give "Multiple characters". |
| `Folders.AliasDirectoryPreferred` | categorize.php:688-691 | When the alias directory (Adult, Mature or Clean) exists under the root, it replaces the rating folder and the rest of the path is kept. |
| `Folders.FallbackToListing` | categorize.php:692-707 | Otherwise the first listed directory whose name contains the alias or the rating name replaces the first segment. With none, the path is unchanged. |
| `Folders.FirstCandidateIsFirst` | categorize.php:693-706 | The directory chosen is listed, qualifies, and no earlier listed entry qualifies; with no choice, no entry qualifies. |
| `Folders.NonRatingUnchanged` | categorize.php:688 | A path whose first segment is not a rating folder is returned as it is. |
| `Folders.OnlyFirstSegmentChanges` | categorize.php:680-711 | Every segment after the first is kept. |
| `Folders.ReplaceFirstKeepsRest` | categorize.php:690-691 | Replacing the first exploded segment and imploding again keeps the text after that segment. |
| `Folders.FreeDestinationKept` | categorize.php:722 | A destination that does not exist on disk, with separator runs read as one, is used as it is, literal text included. |
| `Folders.FinalDestinationFirstFree` | categorize.php:720-727 | The final destination does not exist on disk, and it is reached after n retargets with every earlier path existing on disk. |
| `Folders.RetargetUnderExists` | categorize.php:722-726 | A retargeted move always lands under "<source>/! Exists/". |
| `Folders.DoubledSeparatorName` | categorize.php:1063 | With an empty subdirectory the destination ends in "//<name>", which reads as "/<name>" on disk. |
| `Folders.EmptyFolderOnDisk` | categorize.php:1061-1063 | With an empty subdirectory, "<root>/<sub>/<name>" names the file "<root>/<name>". |
| `Folders.EmptyFolderSameFile` | categorize.php:720-727 | When "<root>/<name>" exists (the file itself when source and target are one directory), the rename does not settle on "<root>//<name>": the existence test sees the file. |
| `Routing.ConvertDecision` | categorize.php:250 | The raw-file test read case by case: CONVERT false sends the raw file; true always converts; a number sends the raw file exactly when it exceeds the file size; 0 always converts. |
| `Routing.ConvertOutcomes` | categorize.php:250-279 | The raw file is sent exactly when the setting says so; a JPEG is produced only from a PNG, JPEG or GIF that decodes. |
| `Routing.CoerceConvertCases` | categorize.php:906-910 | The coercion read case by case: a numeric CONVERT text becomes its integer, an empty text becomes false, and any other text becomes true. |
| `Routing.CoerceDecimal` | categorize.php:906-907 | The decimal text of a byte count is numeric and becomes that byte count. |
| `Routing.CollectMatches` | categorize.php:339-351 | The loop over the IQDB entries collects exactly the specified matches. |
| `Routing.KeptFromCandidates` | categorize.php:342-347 | Every collected id comes from an entry; every entry with an id and a file URL is collected; there are no more ids than entries. |
| `Routing.SingleCandidateKept` | categorize.php:340-347 | A single entry with an id is kept even when it has no file URL. |
| `Routing.NoFirstIdNoResult` | categorize.php:340-356 | When the first entry has no post id, or there are no entries, the result is an empty list. |
| `Routing.ThrottledTwiceFails` | categorize.php:360-376 | A 429 is retried once; two 429s in a row fail; the retry's body is the result. |
| `Routing.DedupProperties` | categorize.php:1029 | Removing duplicates keeps one of each id, loses none, and keeps the first id first. |
| `Routing.DedupSingle` | categorize.php:1029-1031 | One distinct id remains exactly when all ids are equal. |
| `Routing.OutcomeTable` | categorize.php:1010-1052 | A hash hit is categorized as is. On a miss: without reverse search, "! Not found"; a failed search, "! Error"; no match, "! Not found"; several distinct ids, "! Multiple matches" with one URL note per id; one id is categorized. |
| `Routing.SentinelIsMiss` | categorize.php:1010-1013 | A prefetched hash with no post behaves exactly like an unknown hash. |
| `Routing.EmptyFolderDependsOnRoute` | categorize.php:1010-1052 | An empty folder from a hash hit stays empty, but from a reverse-search match it becomes "! Not found". |
| `Routing.RootChoice` | categorize.php:1055-1059 | The root test read back, with its consequence: the root is the source directory exactly when the folder starts with "!"; "Explicit/! Conflict" goes to the target. |
| `Routing.ReadArguments` | categorize.php:828-856 | The argument loop computes the specified argument fold. |
| `Routing.DirectoryArguments` | categorize.php:829-840 | One directory is the target; a second makes the first the source; a third is the "already set" error. |
| `Routing.OneDirectorySourceIsTarget` | categorize.php:875-877 | With one directory argument, source and target are the same directory. |
| `Routing.ConfigNameSecondPiece` | categorize.php:843-848 | A simple "stem.ext" file name is accepted as a config file exactly when ext is "cfg". |
| `Routing.ErrorIsFinal` | categorize.php:832-848 | Once an argument error occurs, later arguments change nothing. |
| `Strings.JoinSplit` | categorize.php:680-691 | Imploding the exploded path gives the path back. |
| `Strings.SplitJoin` | categorize.php:680-691 | Exploding imploded separator-free segments gives the segments back. |
| `Strings.NormalizeTidy` | categorize.php:55 | Whitespace normalisation leaves a query that is already tidy unchanged. |
| `Strings.ParseDecimal` | categorize.php:64-67 | Reading back the decimal text of an id gives the id. |
| `Strings.CollapseSeparators` | categorize.php:722 | The path as the file system reads it: no longer than the text, with the same first character, and with no two separators in a row. |
| `Strings.CollapseAppend` | categorize.php:722 | A prefix with no separator run that does not end in a separator is read as it is; only the rest is collapsed. |
| `Strings.NoSeparatorUnchanged` | categorize.php:1063 | A file name without separators is read as it is. |
| `Strings.Sort` | categorize.php:395 | `sort` returns a permutation of its input, ordered by code point. |
| `Strings.SortOrderIndependent` | categorize.php:395 | Sorting two permutations of the same tags by code point gives the same sequence. |
| `Strings.Capitalize` | categorize.php:424 | `ucfirst` keeps the length and the tail, and upper-cases a lower-case first letter. |
| `Catalog.TermLimitCountsTerms` | categorize.php:55-57 | The limit is exceeded exactly when the normalised query has more than six terms. |
| `Catalog.TermLimitSendsNothing` | categorize.php:57-59 | Over six terms: the "up to 6 tags" error, with no request and no state change. |
| `Catalog.CachedTermIsFirst` | categorize.php:63-75 | A cache hit comes from the first term with "id:" whose id is cached; with no hit, no such term has a cached id. |
| `Catalog.KeyNeedsPrefix` | categorize.php:64-65 | Although the test is for "id:" anywhere in the term, only a term that starts with "id:" can name an id. |
| `Catalog.FetchRequests` | categorize.php:50-117 | Over the limit or on a cache hit, nothing is sent; otherwise the query is sent once, and a second time only after a first 429. |
| `Catalog.FetchAnswer` | categorize.php:84-116 | The answer follows the last reply: decoded posts are returned, a non-array body is the "invalid" error, and a failure or a second 429 is "Exception: " with the message. |
| `Catalog.FetchCacheHit` | categorize.php:63-75 | On a cache hit the answer is the cached post. |
| `Catalog.FetchAppendOnly` | categorize.php:93-101 | The posts cache only gains entries; no cached post is replaced. |
| `Catalog.InsertNewFirstWins` | categorize.php:94-100 | The cache gains every returned id; a new id keeps the first post returned with it. |
| `Catalog.FetchLastRequest` | categorize.php:78-91 | The last-request time is unchanged, or it is the time of the last request sent, when that reply was decoded. |
| `Catalog.PostQueryCached` | categorize.php:204-241 | The rating and tag queries of a cached post are answered from the cache with no request. |
| `Catalog.ExistsQueryCached` | categorize.php:178-197 | The existence query of a cached post is answered from the cache through the query path, even though the function's own cache test cannot see the cache. |
| `Catalog.IdTermNamesId` | categorize.php:184 | The "id:" term built for a post names that post's id. |
| `Catalog.IdTermTidy` | categorize.php:184-206 | The queries built for a post survive whitespace normalisation unchanged. |
| `Catalog.RecordHashesLastWins` | categorize.php:158-163 | A batch search records every returned hash, and each hash maps to the last post returned with it; other hashes are kept. |
| `Catalog.IndexFirstWins` | categorize.php:35-39 | The posts.json index records every hash, keeps earlier entries, and maps each new hash to the first post carrying it. |
| `Catalog.DumpFirstBatchLast` | categorize.php:35-163 | For two posts sharing a hash, the dump index keeps the first and a batch search keeps the last. |
| `Catalog.SeedCovers` | categorize.php:974-986 | Seeding marks every hash of the page with the sentinel and keeps the other entries. |
| `Catalog.HashesOfCovers` | categorize.php:974-984 | Every file of a page has its hash in the page's hash list. |
| `Catalog.Catalog.GetPosts` | categorize.php:50-117 | The answer, the posts cache, the requests and the last-request time are those of the specified exchange; the MD5 cache is untouched; the posts cache only gains entries. |
| `Catalog.Catalog.GetPostIdByMd5` | categorize.php:124-145 | The answer and the new state are those of the hash lookup: a cached hash is answered from the cache with no request; otherwise the first post of the hash search gives the id, or there is no id. |
| `Catalog.Catalog.BatchMd5` | categorize.php:152-171 | One batch query is sent; on success every returned hash is recorded, last post winning; the MD5 cache keeps its keys and at most two requests are made. |
| `Catalog.Catalog.LoadDump` | categorize.php:23-42 | The posts cache becomes the dump and the MD5 index is built with the first post winning; no request is made. |
| `Catalog.Catalog.PostExists` | categorize.php:178-197 | The post exists exactly when the "id:" query returns a post; the new state is that exchange's. |
| `Catalog.Catalog.PostRating` | categorize.php:204-219 | The rating of the first post returned, or none; the new state is that exchange's. |
| `Catalog.Catalog.PostTags` | categorize.php:226-241 | The tags of the first post returned, or none; the new state is that exchange's. |
| `Catalog.Catalog.SeedPage` | categorize.php:974-986 | The page's hashes are collected in order and each is seeded with the sentinel, with nothing else changed. |
| `Catalog.LastWith` | categorize.php:158-163 | The last post of a list carrying a hash is in the list and carries it; there is none exactly when no post carries the hash. |
| `Catalog.RecordHashesEntry` | categorize.php:158-163 | After a batch answer, a hash carried by a returned post maps to the id of the last such post; any other entry is kept. |
| `Catalog.PrefetchPageEntries` | categorize.php:974-986 | After one page, each of its hashes holds the id of the last post the batch answer lists with it, and keeps the sentinel when the answer is not a posts list or lists no post with that hash. |
| `Catalog.PrefetchPageKeys` | categorize.php:974-986 | One page keeps every hash-cache key and adds the hash of each of its files. |
| `Catalog.PrefetchFromCovers` | categorize.php:962-988 | After the pages from a position on, every earlier key remains and every file from that position on has its hash cached. |
| `Catalog.Catalog.Prefetch` | categorize.php:957-990 | The new state is the page-by-page prefetch: with more than one file and no dump, each page of 100 is seeded and then batch-searched, so every file's hash is in the MD5 cache afterwards, with at most two requests per page; otherwise nothing changes. |
| `Catalog.CategorizeFrom` | categorize.php:523-669 | The outcome is `categorize` of the answers: the post is found exactly when the existence query returns a post; when the gate fetch happened, the same tags serve the interaction; when it did not, the gates are off. |
| `Catalog.RatingStage` | categorize.php:577-664 | Past the gates, the outcome is `categorize` of the rating and tags fetched, and the gate tags are kept for the interaction. |
| `Catalog.CategorizeCached` | categorize.php:178-241 | A cached post makes no request and is classified from its cached tags and rating, with the gates off when it has no tag map. |
| `Catalog.Catalog.CategorizePost` | categorize.php:523-669 | The outcome, the answers (found, gate tags, tags, rating) and the new state are those of the categorize exchanges from the old state; the outcome is `categorize` of those answers. |
| `Catalog.FilePass` | categorize.php:1010-1063 | The step resolves the hash lookup from the state (the cached entry when the hash is cached); a classified step is categorized from the state after the lookup; the outcome follows the outcome table; a cached hash settled without categorizing changes nothing. |
| `Catalog.FilePassCached` | categorize.php:1010-1016 | A file whose hash is cached with the id of a cached post makes no request and lands where that post's tags and rating say. |
| `Catalog.FilePassSeeded` | categorize.php:1010-1052 | A file whose hash holds the prefetch sentinel, with reverse search off, makes no request and goes to "! Not found". |
| `Catalog.Catalog.ProcessFile` | categorize.php:1010-1063 | The step, the classification, the outcome, the subdirectory, the destination and the new state are exactly the file's pass from the old state. |
| `Catalog.FileIndices` | categorize.php:997-1006 | The positions of the entries that are files, increasing, each a file, and every file among them. |
| `Catalog.SourcePaths` | categorize.php:997-1006 | There is one path per entry that is a file, and the k-th is "<source>/<name>" of the k-th such entry. |
| `Catalog.PathsIndexed` | categorize.php:997-1006 | The list of source paths has one entry per file, the k-th for the k-th file. |
| `Catalog.SourcePathsCons` | categorize.php:997-1006 | The source paths read from the front: the first entry's path, if it is a file, then those of the rest. |
| `Catalog.RunFromSources` | categorize.php:997-1069 | The per-file loop moves exactly the entries that are files, in scan order, from "<source>/<name>". |
| `Catalog.Catalog.MoveFile` | categorize.php:997-1063 | One entry of the loop: the fold from this entry equals the moves so far plus this entry's move, then the fold from the next entry with the present paths updated; the hash cache is untouched. |
| `Catalog.Catalog.MoveFiles` | categorize.php:997-1069 | The moves and the new state are the per-file loop's fold: the k-th move goes from the k-th file's source path to the destination its pass settles on, the present paths (read as the file system reads them) updated after each move; the hash cache is untouched. |
| `Catalog.Catalog.Run` | categorize.php:957-1069 | The moves and the new state are the prefetch followed by the per-file fold; the moves come from the source paths of the files, one each, in scan order. |

## Left out

- HTTP is not modelled: the Guzzle client, request options, JSON decoding and the upload progress callback. Replies are inputs (`remote`, and the IQDB replies passed to `ReverseSearch`).
- Pacing by wall clock is not modelled: `sleep` and the "same second" wait. `time()` is the input `clock`, so the last-request field holds an opaque timestamp. The field tracks posts.json requests only: the reverse search also sets it (categorize.php:334), and that update is not modelled.
- Image decoding, JPEG re-encoding and `mime_content_type` are foreign library calls. They appear only as the `mime` and `decodes` inputs of `ConvertImage`.
- The scan's image-type filter is not modelled. `Run` receives the already scanned entries.
- `md5_file` is not modelled; hashes are opaque strings carried by each file.
- File-system effects are not modelled: `mkdir`, `rename`, `file_put_contents` and `realpath`. `ProcessFile` returns the destination and `Run` records the move. The directory set and listings given to the alias rewrite are a snapshot, so directories created by earlier moves are not added to them.
- Console output (echo, `waitingAnimation`, `showScanResult`) is UI and is not modelled.
- `readline` prompts are interactive. `SettlePaths` takes the answer as an input.
- `parse_ini_file` and the `array_merge` of settings are file I/O and are not modelled. The settings are a `Config` value and a `ConfigValue` for CONVERT.
- `writeToTxt` is file I/O. The debug text is kept only as the list of note lines (conflicting names, match URLs); the `print_r` dump of the tags that follows them is not modelled.
- Strings.Sort: orders by code point. PHP's default `sort` compares two numeric strings as numbers, so "10" sorts after "9", and texts that compare equal (such as "10" and "1e1") keep their input order. The order of a tag list holding numeric tags can therefore differ. No modelled consumer reads the order (Classifier.SortOrderIrrelevant); only the unmodelled debug dump does.
- Strings.SortOrderIndependent: holds for the code-point order only. Under PHP's order, two permutations of tags that compare equal sort differently, because equal texts keep their input order; the classification does not observe the difference (Classifier.SortOrderIrrelevant).
- Tags.TagsAsOneArray: the sorted list is in code-point order, not PHP's numeric-aware order; its members and their counts are those of the source.
- Tags.TagsAsOneArrayOrderFree: holds for the code-point order only. Under PHP's `sort`, texts that compare equal (such as "10" and "1e1") keep their input order, so two permutations of the same tags can flatten differently. The classification does not observe the difference (Classifier.SortOrderIrrelevant).
- Routing.Kept: IQDB entries after the first that carry no `post_id` are dropped. The script would collect a null id for them.
- Routing.IsNumeric: covers integer texts only. PHP's `is_numeric` also accepts decimals, exponents and surrounding whitespace.
- Folders.FinalDestination: returns None when the retarget chain comes back to a path already tried, where the script would recurse without end.
- `convertImage` also checks a contents cache, but that cache is never filled, so the lookup never hits; it is not modelled.
- Every post carries an id. The `isset($post['id'])` test in the batch search is therefore always true.
- Catalog.Catalog.ProcessFile: takes `is_file` and `file_exists` as true for the file being processed, as they are just before and after the hash lookup in the loop.

## Notes on the code

- A post tagged "male" and "female" without "group" is filed under "Unknown". Only the "male/female" tag is recognised as the pair (`Classifier.TwoGendersNoPair`).
- The alias fallback takes the first listed directory containing either the alias or the rating name. It does not look for the alias across all entries before trying the rating name (`Folders.FallbackToListing`).
- `getPostExists` tests a local variable that is never set, so its own cache test always misses. The query then goes through `getPosts`, which answers a cached id without a request (`Catalog.ExistsQueryCached`).
- `getPosts` returns an array even on error, so the callers' "API failure" branches are never taken. Errors surface as "no post".
