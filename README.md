# identity-sampler core, modelled in Dafny

identity-sampler gathers profiles of one person from several social
networks and tries to decide which profiles belong together. This project
models its core in four parts.

- **The profile ledger** (`Ledger`, from `common/profilestore.py`). It is an
  append-only list of records. Each record is identified by its
  (network, network_id) pair and carries a uid taken from an increasing
  counter. Beside the records sits a directed match graph, a dictionary of
  adjacency lists. The ledger is modelled twice:
  - as a value, `State`, with one function per operation;
  - as the class `ProfileStore`, whose methods are proved to move its fields
    exactly as those functions say.

  Loading a ledger replays its records file and its matches file.
- **Derived profile fields and the analysis driver** (`Analyser`, from
  `common/analyser.py`). These cover:
  - the best name, the six-bucket activity profile, the function-word writing
    style and the link list of a `Profile`, each cached in a memo field;
  - the string branch of `Location.near`;
  - `url_to_record`, which picks the first adapter that accepts a URL;
  - `Analyser.run`, which walks the ledger (including records appended during
    the walk) and feeds every recognised profile link back into it as a new
    record plus a match.
- **The resolver** (`Resolver`, from `resolver.py`). It has:
  - the comparators that score a pair of profiles (exact names, best-name
    ratio, time activity, links, geography, friends);
  - `areEquivalent`, which lists the scores in a fixed order;
  - `resolve`, which emits one 13-column row per eligible pair of a block;
  - the blocking loop, which groups loaded profiles by name and selects the
    blocks that hold a matched profile.

  A `ZeroDivisionError` is modelled as the outcome `ZeroDivision`. It comes
  from `sameNames`, or from `getWritingStyle` when `stylometricComparison`
  asks for the writing style of a profile with TEXT items but no tokens. It
  aborts the whole run; the rows of the blocks resolved before it stay
  written.
- **The merge tool** (`Merge`, from `merge.py`). It folds several sample runs
  into one destination ledger. Records are re-added, so they are renumbered
  and known identities are dropped. Profile files are copied, and files that
  are absent or duplicated are counted. Each run's matches are re-submitted,
  shifted by the destination's counter as it stood when the run began.

Two small support modules complete the project:
- `Strings` holds the Python string operations the code relies on: `split()`,
  `lower()`, `isnumeric()`, `in` and `list.count`.
- `EditDistance` gives the edit distance as the Levenshtein distance.

Uids are `nat` throughout. Scores are exact `real`s.

## Model

| member | source | states |
|---|---|---|
| Strings.Lower | common/analyser.py:161 | lower-casing keeps the length and leaves every separator where it was |
| Strings.SplitTokens | common/analyser.py:161 | every token of `split()` is non-empty and holds no separator |
| Strings.ContainsAt | common/analyser.py:74 | the substring test `a in b` holds exactly when `a` occurs in `b` at some offset |
| Strings.CountPositive | common/analyser.py:164 | `list.count(x)` is positive exactly when `x` is in the list |
| EditDistance.LevenshteinSelf | resolver.py:89 | a name is at distance 0 from itself |
| EditDistance.LevenshteinBounded | resolver.py:89-90 | the distance never exceeds the longer length, which is the divisor bestNameDiff uses |
| EditDistance.LevenshteinZero | resolver.py:89 | distance 0 means the two names are equal |
| Ledger.FindMatch | common/profilestore.py:97-102 | the index found is that of the first record with the same network and network_id; None exactly when no record has them |
| Ledger.Insert | common/profilestore.py:37-40 | recording an edge keeps the graph well formed (distinct keys, non-empty duplicate-free lists), adds exactly that edge, creates the key list only when missing, and is a no-op for an existing edge |
| Ledger.ReplayEdgesValid | common/profilestore.py:32-40 | replaying any matches file yields a well-formed graph |
| Ledger.ReplayEdgesExactly | common/profilestore.py:32-40 | after replay the graph holds exactly the edges listed in the file |
| Ledger.LoadProperties | common/profilestore.py:21-40 | a loaded ledger keeps the rows in order, has a well-formed graph, and its counter is the last row's uid, or 0 with no rows |
| Ledger.LoadWellNumbered | common/profilestore.py:27-31 | a records file written in uid order gives a ledger whose uids strictly increase and are at most the counter |
| Ledger.AddRecordNew | common/profilestore.py:85-90 | a new identity gets uid counter + 1, exactly one record carrying it is appended, the counter moves by one and the graph is untouched |
| Ledger.AddRecordKnown | common/profilestore.py:91-93 | a known identity returns the uid of the first record with that identity and changes nothing |
| Ledger.AddRecordIdempotent | common/profilestore.py:82-94 | adding the same identity a second time returns the same uid and leaves the ledger as the first call left it |
| Ledger.AddRecordWellNumbered | common/profilestore.py:82-94 | add_record keeps uids strictly increasing and at most the counter; the uid returned belongs to a record with the candidate's identity |
| Ledger.KnownCountDistinct | common/profilestore.py:48-51 | with distinct uids, `known_ids` counts each endpoint on record once, and a self-edge only once |
| Ledger.AddMatchKnown | common/profilestore.py:48-57 | an edge between two different uids on record is recorded; afterwards is_match(a, b), is_matched(a) and is_matched(b) hold, no other edge appears and records and counter are unchanged |
| Ledger.AddMatchAppends | common/profilestore.py:53-56 | when b was not in a's list, it is appended at the end of that list |
| Ledger.AddMatchUnknown | common/profilestore.py:48-61 | an edge with an endpoint not on record leaves the ledger unchanged |
| Ledger.AddMatchSelf | common/profilestore.py:48-52 | a self-edge add_match(u, u) leaves the ledger unchanged |
| Ledger.AddMatchFrame | common/profilestore.py:46-61 | add_match never touches records or counter, keeps the graph well formed and never removes an edge |
| Ledger.IsMatchForward | common/profilestore.py:74-79 | is_match(a, b) is exactly "b in matches[a]" when a has a list; only otherwise is b's list consulted |
| Ledger.IsMatchNotSymmetric | common/profilestore.py:74-79 | is_match is not symmetric: with edges 1 -> 2 and 2 -> 3, is_match(1, 2) holds and is_match(2, 1) does not |
| Ledger.MatchedIsEndpoint | common/profilestore.py:64-72 | in a well-formed graph, is_matched(u) holds exactly when u is an endpoint of some edge |
| Ledger.ReplayRecords | common/profilestore.py:27-31 | the records loop keeps every row in order and leaves the counter at the last row's uid |
| Ledger.InsertEdge | common/profilestore.py:35-40 | one line of the matches file updates keys and lists as recording that edge does |
| Ledger.ReplayMatches | common/profilestore.py:32-40 | the matches loop builds the graph the replay of the file describes |
| Ledger.ProfileStore.constructor | common/profilestore.py:19-43 | a new ledger is the load of its records file and matches file |
| Ledger.ProfileStore.GetMatch | common/profilestore.py:97-102 | returns the first record with the candidate's network and network_id, or None exactly when there is none |
| Ledger.ProfileStore.AddRecord | common/profilestore.py:82-94 | the new state and the uid returned are those of add_record on the old state |
| Ledger.ProfileStore.AddMatch | common/profilestore.py:46-61 | the new state is that of add_match on the old state |
| Ledger.ProfileStore.IsMatched | common/profilestore.py:64-72 | answers whether u is a key or in some list, and changes nothing |
| Analyser.NearCases | common/analyser.py:71-89 | near is false when either location is empty, when exactly one is detailed, or when two undetailed values are not both place names; for two undetailed place names it holds exactly when one occurs in the other |
| Analyser.NearSymmetric | common/analyser.py:71-89 | near is symmetric whenever the coordinate test is |
| Analyser.FirstSpaced | common/analyser.py:113-116 | finds the first name holding a space, or None exactly when no name has one |
| Analyser.ScanNames | common/analyser.py:112-118 | the loop settles on the first name with a space, else the last name, else None |
| Analyser.BestNameChoice | common/analyser.py:104-122 | the best name is None exactly for no names; it is always one of the names, has a space when any name has one, and is the last name when none has one |
| Analyser.Profile.BestName | common/analyser.py:104-122 | returns the best name and caches it; a non-empty cached name is kept together with its length, and name_length follows a non-empty result |
| Analyser.BucketIsQuarter | common/analyser.py:192-204 | a timestamp's bucket is its hour div 4, with every hour above 19 in bucket 5 |
| Analyser.CountBucketsTotal | common/analyser.py:192-204 | every timestamp lands in exactly one of the six buckets |
| Analyser.TimeProfileOf | common/analyser.py:185-205 | the activity profile is None exactly when there are no timestamps, and otherwise has six buckets |
| Analyser.TimeProfileIsDistribution | common/analyser.py:185-205 | with timestamps, each bucket share is in [0, 1] and the six shares add up to 1 |
| Analyser.UnitsShare | common/analyser.py:189-204 | adding 1/n once per timestamp of a bucket gives the bucket's count over n |
| Analyser.ComputeTimeProfile | common/analyser.py:185-205 | the accumulation loops compute each bucket's share of the timestamps |
| Analyser.Profile.TimeProfile | common/analyser.py:174-206 | returns the activity profile; a computed profile is stored in the memo slot, nothing is stored without timestamps, and a cached one is kept |
| Analyser.CollectTexts | common/analyser.py:154 | the TEXT bodies of the content, in order |
| Analyser.CountWords | common/analyser.py:162-164 | after one text each listed word's entry is its count in that text; other entries are untouched |
| Analyser.CountText | common/analyser.py:160-166 | one pass of the text loop keeps "total = tokens so far, entries = counts in the latest text" |
| Analyser.CountTexts | common/analyser.py:158-166 | after the loop the total is the token count of all texts, the keys are the listed words and each entry is the count in the last text only |
| Analyser.Normalise | common/analyser.py:169-170 | every entry is divided by the total once, and the keys are unchanged |
| Analyser.NormalisedShares | common/analyser.py:169-170 | the normalised counts are each word's share of the total |
| Analyser.ComputeWritingStyle | common/analyser.py:153-171 | the signature loops compute the writing style: none without TEXT, a division by zero for a zero total, otherwise the shares |
| Analyser.WritingStyleOutcomes | common/analyser.py:153-171 | there is no signature exactly when no item is TEXT; a zero-total failure means there are texts but no tokens |
| Analyser.WritingStyleBounds | common/analyser.py:157-171 | a signature's keys are exactly the 70 function words, each weight lies in [0, 1], and the weights add up to at most 1 |
| Analyser.SharesBounded | common/analyser.py:164-170 | any word list's counts in one text, over a total that covers that text, are shares in [0, 1] adding up to at most 1 |
| Analyser.Profile.GetWritingStyle | common/analyser.py:147-172 | returns the writing style; a signature is stored in the memo slot, no TEXT item or a zero token total stores nothing, and a cached one is kept |
| Analyser.NonBlank | common/analyser.py:215 | the `[^ ]+` run is the longest space-free prefix |
| Analyser.FindUrlsShape | common/analyser.py:215-218 | every URL found starts with http:// or https:// plus at least one more character, holds no space and occurs in the text |
| Analyser.MatchRunsToSpace | common/analyser.py:213 | a match of `https?://[^ ]+` holds no space and runs up to the next space or the end of the text |
| Analyser.FindUrlsSound | common/analyser.py:215-216 | every URL findall returns is the match at a match start: a URL starts there and none starts earlier in the same space-free run |
| Analyser.FindUrlsComplete | common/analyser.py:215-216 | findall returns the match at every match start |
| Analyser.FindUrlsExactly | common/analyser.py:213-216 | findall returns exactly the matches at the match starts, each running to the next space |
| Analyser.NonEmpty | common/analyser.py:221 | the filter keeps exactly the non-empty links |
| Analyser.LinksOrigin | common/analyser.py:213-221 | every link returned is non-empty and is either the match at a match start of a TEXT body (URL-shaped, running to the next space) or a whole LINKS body |
| Analyser.LinksKeepLinkBodies | common/analyser.py:219-221 | every non-empty LINKS body is among the links |
| Analyser.LinksKeepTextUrls | common/analyser.py:215-221 | the match at every match start of every TEXT body is among the links |
| Analyser.ComputeLinks | common/analyser.py:214-221 | the two loops compute the links of the content |
| Analyser.Profile.GetLinks | common/analyser.py:209-222 | returns the links of the content and leaves them in the memo slot; a cached non-empty list is kept (an empty one counts as not cached and is recomputed) |
| Analyser.Profile.constructor | common/analyser.py:225-304 | a new profile holds the given attributes with every memo slot empty and name_length 0 |
| Analyser.UrlToRecord | common/analyser.py:348-357 | None exactly when no adapter accepts the URL; otherwise the candidate built by the first adapter that accepts it |
| Analyser.AddedRecordFound | common/analyser.py:386 | after add_record the uid returned is that of the first record with the candidate's identity |
| Analyser.AddRecordKeepsMeasure | common/analyser.py:369-387 | an add_record during the walk keeps "payload uids above the counter + records ahead with a payload" fixed, which bounds the walk over a growing ledger |
| Analyser.FoundAsPersists | common/profilestore.py:82-102 | appending records keeps the first record of a known identity, so the uid add_record returned for it stays the one found |
| Analyser.LinkAllOnly | common/analyser.py:383-387 | linking a profile's candidates keeps the old records as a prefix, appends only records with a candidate's identity, and adds only edges from the origin to the uid a candidate is on record under |
| Analyser.LinkAllKeepsMeasure | common/analyser.py:369-387 | linking a profile's candidates only appends records and keeps the walk's termination measure fixed |
| Analyser.LinkOne | common/analyser.py:386-387 | one recognised link: the new ledger is add_match(origin, uid) applied after add_record(candidate) returned uid; it only grows, stays well numbered, and holds the candidate with an edge from the origin to it, unless the candidate is the origin itself |
| Analyser.LinkStep | common/analyser.py:383-389 | one pass of the link loop: the ledger equals the old one with the candidates recognised among the links so far linked in order, and every one of them is linked from the origin |
| Analyser.LinkProfile | common/analyser.py:383-389 | the link loop leaves exactly the old ledger with every recognised candidate added and matched from the origin, in link order; each is then linked from the origin |
| Analyser.AnalyseStepMeasure | common/analyser.py:369-389 | handling one record only appends records, never raises the walk's measure, and lowers it unless nothing was appended |
| Analyser.AnalyseOne | common/analyser.py:372-389 | a record off this network or without a payload changes nothing; otherwise the new ledger is the old one with the profile's recognised candidates linked from the record in order, and it reports its best name exactly when that name is non-empty |
| Analyser.AnalyseRecord | common/analyser.py:369-389 | one pass of the outer loop moves the ledger exactly as handling that record does, keeps the run's invariant and never raises the walk's measure |
| Analyser.LinkedOneFacts | common/analyser.py:386-387 | add_record then add_match only grows the ledger, keeps it well numbered and the walk's measure fixed, and links the candidate from an origin on record |
| Analyser.WalkOnly | common/analyser.py:369-389 | the walk keeps the old records as a prefix; every record it appends has the identity of a candidate of an analysed record, and every edge it adds runs from an analysed record's uid to the uid one of its candidates is on record under |
| Analyser.Run | common/analyser.py:362-395 | the final ledger is the walk over the records, including those appended during it; nothing is added but analysed records' candidates and edges to them; the ledger stays well numbered; every analysed record has all its recognised links matched; the names written are exactly the non-empty best names of analysed records |
| Resolver.NonNumericMembers | resolver.py:69-74 | the filter keeps exactly the names that are not numeric |
| Resolver.CountEqual | resolver.py:72-76 | the inner loop counts profile two's non-numeric names and those equal to n1 |
| Resolver.CountName | resolver.py:69-76 | one pass of the outer loop advances the three counters, with validtwo growing once per non-numeric name of profile one |
| Resolver.SameNames | resolver.py:62-78 | the nested loops compute equal non-numeric pairs over profile one's non-numeric names, or a division by zero |
| Resolver.SameNamesFails | resolver.py:66-78 | sameNames divides by zero exactly when all names of one of the profiles are numeric (or it has none) |
| Resolver.SameNamesBounded | resolver.py:62-78 | when profile two's names are distinct, the score lies in [0, 1] |
| Resolver.SameNamesUnbounded | resolver.py:62-78 | with repeated names the score exceeds 1: ["ann"] against ["ann", "ann"] gives 2 |
| Resolver.SameNamesSelf | resolver.py:62-78 | a profile with distinct names, one of them non-numeric, scores exactly 1 against itself |
| Resolver.BestNameDiffRange | resolver.py:81-90 | the best-name score lies in [0, 1] and is 1 exactly when both best names are truthy and equal |
| Resolver.TimeComparison | resolver.py:93-111 | the loop over the six buckets adds 1/6 per bucket where both peak (above 0.2) or both are quiet (below 0.08), and gives 0 without both profiles |
| Resolver.TimeComparisonRange | resolver.py:93-111 | the time score lies in [0, 1], does not depend on the order of the two profiles, and is 0 when either has no timestamps |
| Resolver.LinkAnalysis | resolver.py:147-170 | the loop scores 1/|ls1| per exact hit and a third of that per domain hit, and 0 on a urlparse failure or an empty list |
| Resolver.LinkSumBounds | resolver.py:164-170 | the running score never exceeds one unit per link, and reaches it exactly when every link is an exact hit |
| Resolver.LinkAnalysisRange | resolver.py:147-170 | the link score lies in [0, 1], is 0 when either link list is empty and, with parsable links on both sides, is 1 exactly when every link of profile one is a link of profile two |
| Resolver.GeographicProfile | resolver.py:173-183 | the product loop gives the share of near location pairs, or 0 unless both sets hold two locations |
| Resolver.NearPairsBound | resolver.py:180-182 | the near pairs number at most the size of the product |
| Resolver.GeographyRange | resolver.py:173-183 | the geography score lies in [0, 1] |
| Resolver.DedupProperties | resolver.py:189-190 | `list(set(...))` draws from the friends, holds no two profiles with the same network and uid (the pairs the set merges), and represents every friend |
| Resolver.CountClose | resolver.py:194-197 | the inner loop counts the friends of profile two whose best name is close (above 0.8) to f1's |
| Resolver.FriendsComparison | resolver.py:186-201 | the loops give close pairs over the shorter friend list, capped at 1, or 0 unless both sides have two friends |
| Resolver.FriendsRange | resolver.py:186-201 | the friends score lies in [0, 1], and is 0 when either side has fewer than two distinct friends |
| Resolver.ScoresOf | resolver.py:27-59 | the eight scores in areEquivalent's order; it fails exactly when sameNames divides by zero or the writing style of either profile does (TEXT items but no tokens) |
| Resolver.AreEquivalent | resolver.py:27-59 | computes the scores with the comparator loops, failing exactly where sameNames or getWritingStyle raises (the avatar, stylometric-score and haversine leaves are total parameters) |
| Resolver.RowColumns | resolver.py:225 | a row holds the eight scores in header order, each comparator score in [0, 1] (exactnames when profile two's names are distinct), then both rids, both networks, and 1 exactly when is_match holds, else 0 |
| Resolver.CombosMembers | resolver.py:212 | the combinations are exactly the pairs i < j of the block |
| Resolver.ComparePair | resolver.py:215-225 | the loop body skips an ineligible pair, and otherwise yields its row or the comparison's failure |
| Resolver.ResolveLead | resolver.py:212-225 | the pairs with one first index extend the rows of the earlier ones, or fail the whole resolve |
| Resolver.ResolvePairs | resolver.py:212-225 | the loop over all combinations emits their rows in order, stopping at the first failure |
| Resolver.Resolve | resolver.py:204-226 | resolve's loop computes the rows of the block |
| Resolver.EmitRows | resolver.py:212-225 | the emitted rows are exactly the rows the pairs yield, and the run fails exactly when some pair fails |
| Resolver.ResolveRowsComplete | resolver.py:212-225 | when resolve succeeds, every eligible pair i < j (first on Google+, second on another network, both best names truthy) is compared and its row is written |
| Resolver.ResolveRowsSound | resolver.py:212-225 | every row resolve writes is the row of some eligible pair i < j |
| Resolver.ResolveFails | resolver.py:204-226 | resolve raises exactly when areEquivalent raises on some eligible pair: sameNames divides by zero on their names, or one of them has TEXT items but no tokens |
| Resolver.BlocksMembers | resolver.py:241-254 | there is a block for a key exactly when a loaded record's profile falls in it, and the block holds exactly those profiles |
| Resolver.GoodBidsMembers | resolver.py:249-250 | good bids are pairwise distinct, and a key is one exactly when some matched record with a profile falls in it |
| Resolver.GoodBidsInBlocks | resolver.py:249-254 | every good bid names a block |
| Resolver.BlockRecord | resolver.py:241-254 | one pass of the blocking loop stamps the record's profile with its uid and files it under its block, noting the block as good when the record is matched |
| Resolver.Block | resolver.py:239-254 | the blocking loop builds the blocks and good bids of all records and stamps every loaded profile on record with its uid |
| Resolver.ResolveBlocks | resolver.py:262-267 | the rows written are those of the good blocks in order up to the first block whose resolve raises, which aborts the run and writes none; without a failure every good block's rows are written |
| Resolver.Predictions | resolver.py:239-267 | blocking then resolving writes, for the good bids in order, the resolve of each bid's block, up to the first block that raises, which aborts the run |
| Merge.ShiftExactly | merge.py:37 | the shifted edges are exactly (iterum + f, iterum + t) for the rows (f, t) |
| Merge.AddRecords | merge.py:22-34 | the records loop leaves the destination and the counters as the record steps say |
| Merge.SubmitTarget | merge.py:37 | one add_match of the shifted pair |
| Merge.SubmitTargets | merge.py:36-37 | the inner loop submits the shifted pairs of one from-uid in list order |
| Merge.SubmitEdges | merge.py:35-37 | the edge loops submit every shifted pair of the run's dictionary in walk order |
| Merge.Merge | merge.py:8-38 | the procedure ends with the destination, dup_count, missing_count and copied files of the merge |
| Merge.MissingSkipped | merge.py:25-27 | a row without a file only raises missing_count: the run ends as if those rows were absent, with missing_count raised by their number |
| Merge.CopiedUnderSourceUid | merge.py:22-34 | the files copied are the rows with a file, in order, each under its source uid and not the destination uid |
| Merge.RecordStepSound | merge.py:23-34 | one record step keeps the destination well numbered and its graph unchanged; a counted duplicate was a known identity; a new identity with a file takes the next uid and is not counted |
| Merge.RecordsStepSound | merge.py:22-34 | a run's records keep the destination well numbered and leave its graph alone |
| Merge.SubmitFrame | merge.py:35-37 | submitting matches never changes the records or the counter |
| Merge.SubmitEdgesExactly | merge.py:37 | submitting pairs adds exactly those between two different uids both on record; every other pair is dropped |
| Merge.EdgesExactly | merge.py:35-36 | the dictionary walk visits exactly the pairs (f, t) with t in f's list |
| Merge.SourceEdgesExactly | merge.py:35-36 | a run submits exactly the rows of its matches file |
| Merge.RunEdges | merge.py:21-37 | after a run, an edge is present exactly when it was before or it is a row of the run's matches file moved by the counter from before the run's records, between two different uids on record |
| Merge.MergedSound | merge.py:18-37 | merging keeps the destination well numbered, with a well-formed graph |
| Merge.FreshRecords | merge.py:22-34 | a run whose rows all have files and bring new identities appends them all, numbered on from the counter, counting nothing as duplicate or missing |
| Merge.MergedFresh | merge.py:18-34 | with all files present and all identities new, the final counter is the initial one plus the number of rows, and every row is appended in order |
| Merge.FreshOffset | merge.py:21 | with fresh runs, a run's offset is the initial counter plus the rows of the runs before it |
| Merge.SecondRunShifted | merge.py:21-37 | after a fresh three-row first run, the second run's edge (1, 2) lands in the destination as (4, 5) |

## Left out

- I/O is not modelled, only the data it produces. Each item reaches the model as follows:
  - the CSV readers and writers of the ledger: the loaded rows and edges are parameters;
  - the pickle and JSON files: a map from uid to profile, or a map from uid to payload;
  - `os.path.exists` on profile files: the set of uids with a file;
  - `shutil.copyfile`, `os.mkdir` and `makedirs`: the list of files copied;
  - the predictions CSV: the rows it would hold;
  - the names file: the set of names it would hold.
- Logging and `print` are not modelled.
- The haversine branch of `Location.near` is a parameter of the model. So are:
  - the avatar comparison (`getImageHistogram`, `avatarComparison`), including the `NameError` its unimported `logging.warn` raises when an image fails to open;
  - the score of the stylometric comparison (its failure on a writing style without tokens is modelled);
  - `urlparse(...).netloc` (None where urlparse raises).

  These are float numerics or foreign libraries.
- `editdistance.eval` is a foreign library. It is modelled as the Levenshtein distance.
- Floats are exact reals, so rounding is not modelled.
- Network adapters are given as an explicit sequence. Their discovery by `__load_modules` and `my_import` scans the filesystem.
- Each network's `analyse` hook is a parameter returning the profile's names and profile links.
- `Analyser.store` and `makeposterior` are not modelled. Neither are `areEquivalent`'s commented-out threshold or the `prior` and `threshold` arguments, which are unused.
- Uids are `nat`. The source compares `str` uids loaded from CSV with `int` uids assigned in session; that mismatch is not modelled.
- `isnumeric` and `lower` cover the ASCII digits and letters only. `split()` uses Python's whitespace set.
- A `None` best name passed to `url_to_record` is stored as the empty search term.
- Analyser.Run: the names file is modelled as always requested (the source writes it only when a names file was given).
- Analyser.Run: the links guarantee is stated for a ledger whose uids strictly increase, which every loaded or grown ledger is when its records file is in uid order (Ledger.LoadWellNumbered). The same holds for Analyser.LinkOne, Analyser.LinkProfile and Analyser.AnalyseOne.
- Analyser.Profile.BestName: the mixed-case test `name.swapcase != name` compares a bound method with a string and is always true; it is modelled that way.
- Resolver.Block requires loaded profiles to be distinct objects, one per uid, because each comes from its own pickle. Without that, stamping one profile's rid could change another's. The same requirement is on Resolver.BlockRecord and Resolver.Predictions.
- Resolver.DedupProperties: `list(set(...))` has no fixed order in Python. The model keeps the first profile of each class, in list order. The friends score depends only on the counts. Two profiles with one uid on different networks compare equal under `__eq__` but hash apart, so the set keeps both, and so does the model.
- Resolver.FriendsComparison and the other comparators read the derived fields through their defining functions. The memo writes that `bestname()` and the other getters make on the compared profiles are not modelled; the memo methods are proved to return those same functions.
- Resolver.SameNamesBounded requires profile two's names to be distinct, because the source's score exceeds 1 otherwise (Resolver.SameNamesUnbounded).
- Merge.RecordStepSound: the duplicate counter is proved only in one direction: a counted duplicate was a known identity. The converse does not hold for the source's `tmp <= recount` test. A known identity whose uid exceeds the previous uid returned is not counted.
- Merge.SecondRunShifted and Merge.MergedFresh are stated for runs with all files present and only new identities. Merge.RunEdges and Merge.MissingSkipped cover the general case.
- The function-word list is built from seven rows of ten words. Its 70 words are those of the source, in the source's order.
