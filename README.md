# space-radar news ingestion, modelled in Dafny

This project models the news-ingestion core of space-radar. That core is a
Python pipeline that turns space-news feeds into scored stories:

1. **Feeds** (`data/agents/process_yml.py`) lists the configured sources,
   pulls each feed that has a URL and flattens the items into raw article
   records.
2. **Cleaner** (`agents/cluster/clean.py`) works in two passes:
   - it normalises the records, dropping those with empty text;
   - it canonicalises URLs and titles, parses timestamps, sanitises the text
     (with the **text processor** of `agents/cluster/processing.py`), rejects
     short or boilerplate articles and maps hosts to outlet names.

   Its main block then updates an id index and a per-day bucket file with the
   articles whose id was not known before.
3. **Vectorizer** (`agents/cluster/vectorizing.py`) loads every bucket and
   builds id-keyed dictionaries of texts and articles. It embeds each text.
4. **Clustering agent** (`agents/cluster/clustering.py`) makes one greedy
   pass over the vectors. Each unseen position seeds a group of its
   neighbours within a similarity threshold. The groups are then turned into
   clusters of article ids.
5. **Candidate builder** (`agents/cluster/build.py`) makes one story
   candidate per cluster from the representative article and the member
   articles.
6. **Story processor** (`agents/llm/build.py`) merges the candidates with the
   stored stories:
   - a candidate whose cluster id is already stored only gets a new recency
     score and total score;
   - every other candidate is sent to a language-model client, and a failed
     request gives a placeholder story;
   - it is then scored as 0.6 × model score + 0.2 × mean source reliability
     + 0.2 × recency.

Each step is modelled in the form the source has:
- Pure transformations are functions with lemmas about them.
- Loops are methods with invariants, proved equal to those functions.
- Objects whose fields the code updates are classes: `TextProcessor`,
  `ArticleDb`, `Vectorizer`, `ClusteringAgent`, `CandidateBuilder` and
  `StoryProcessor`.

Everything the Python code gets from outside is a parameter of the model:
- md5, `urlparse`/`urlunparse` and the date parser;
- BeautifulSoup's text extraction;
- the feed fetcher, the sentence-embedding model and the nearest-neighbour
  index;
- the language-model client, the clock and `exp`.

Files are values: a file that is missing or does not parse is a constructor
of its own.

Python's exceptions are modelled as a `Result` whose `Failure` carries the
exception's name. A run that raises writes nothing, and the methods state
that their fields are then unchanged.

Where the documented intent of the system and the code disagree, the model
follows the code:
- **Clusters may overlap.** A position already in a group is only skipped
  as a seed. A later seed's group can take it in again
  (`Clustering.GroupsMayOverlap`).
- **A corrupt stories file stops the run.** The story processor does not
  treat it as empty (`Stories.StoriesIn`).
- **The timestamp fallback never applies.** The cleaner's second pass falls
  back to `fetch_ts`/`fetched_at` only when it has no timestamp, but
  first-pass records never carry those keys. So that fallback is never taken
  (`Normalize.ProcessOne`).
- **A sanitised text can end in a space.** This happens only when the
  10000-character cap cuts it just after a space (`Sanitize.SanitizedOf`).
- **An empty group is an IndexError.** It is not skipped
  (`Clustering.ClusterOf`).

## Model

| member | source | states |
|---|---|---|
| TextUtil.Lower | agents/cluster/clean.py:181 | lower-casing keeps the length and maps each character by the letter rule |
| TextUtil.Strip | agents/cluster/clean.py:41 | the result is no longer than the input and has no whitespace at either end |
| TextUtil.StripSlice | agents/cluster/clean.py:41 | the result is the slice of the input that starts where `lstrip` stops |
| TextUtil.LStripDropsSpaces | agents/cluster/clean.py:41 | everything dropped at the front is whitespace |
| TextUtil.RStripDropsSpaces | agents/cluster/clean.py:41 | everything dropped at the back is whitespace |
| TextUtil.Collapse | agents/cluster/clean.py:186 | no two whitespace characters are adjacent and each is a plain space; the result is empty only for empty input and keeps whether each end is whitespace |
| TextUtil.CollapseKeepsWords | agents/cluster/clean.py:186 | every non-whitespace character is kept, in order, with whitespace runs in between |
| TextUtil.CollapseRun | agents/cluster/clean.py:186 | a maximal whitespace run between two pieces becomes exactly one space |
| TextUtil.CollapseCollapsed | agents/cluster/clean.py:186 | collapsing an already collapsed string changes nothing |
| TextUtil.StripCollapsed | agents/cluster/processing.py:176 | stripping a collapsed string leaves it collapsed |
| TextUtil.SqueezeStrip | agents/cluster/processing.py:176 | collapse then strip gives a collapsed string with no edge whitespace |
| TextUtil.RFind | agents/cluster/clean.py:181 | `rfind` returns -1 or an occurrence with no later occurrence |
| TextUtil.ContainsAny | agents/cluster/processing.py:86 | true exactly when one of the words occurs |
| TextUtil.Split | agents/cluster/processing.py:132-136 | a split always has at least one piece |
| TextUtil.SplitWoven | agents/cluster/processing.py:132-136 | the input is the pieces with a separator run of at least the minimum length between each two |
| TextUtil.SplitUnbroken | agents/cluster/clean.py:203 | no piece holds a run of separator characters of the minimum length |
| TextUtil.SplitGapsMaximal | agents/cluster/clean.py:203 | each separator run is maximal: no separator character ends the piece before it or starts the piece after it |
| TextUtil.Words | agents/cluster/processing.py:72 | every word is non-empty and holds no whitespace |
| TextUtil.WordsWoven | agents/cluster/processing.py:72 | the input is the words with whitespace runs around them and non-empty whitespace runs between them: the words are its maximal runs of non-whitespace |
| TextUtil.Join | agents/cluster/processing.py:175 | the pieces with the separator between each two of them, and "" for no pieces |
| Url.StripTracking | agents/cluster/clean.py:67-80 | only query pairs whose lower-cased key is not a tracking key are kept |
| Url.StripTrackingCounts | agents/cluster/clean.py:67-80 | each non-tracking pair is kept as often as it occurs and no tracking pair is kept |
| Url.StripTrackingAppend | agents/cluster/clean.py:67-80 | filtering keeps the order of the kept pairs |
| Url.Canonicalize | agents/cluster/clean.py:81-82 | the query is stripped of tracking pairs, the fragment emptied and the host lower-cased; scheme, path and params are unchanged |
| Url.CanonicalizeIdempotent | agents/cluster/clean.py:61-85 | canonicalising a canonical record changes nothing |
| Url.TrackingParamsIgnored | agents/cluster/clean.py:67-81 | tracking pairs inserted anywhere in the query do not change the canonical record |
| Url.CanonicalUrl | agents/cluster/clean.py:61-85 | "" for "", the input itself when parsing raises, otherwise the serialised canonical record |
| Url.CanonicalUrlIdempotent | agents/cluster/clean.py:61-85 | when the parser reads back serialised canonical records, `canonical_url` is idempotent |
| Url.CanonicalUrlIgnoresTracking | agents/cluster/clean.py:61-85 | two URLs that differ only by tracking parameters have the same canonical URL |
| Title.DropLeadingQuotes | agents/cluster/clean.py:94 | the result is a suffix of the input that does not start with a quote, and only quote characters are removed |
| Title.DropTrailingQuotes | agents/cluster/clean.py:94 | the result is a prefix of the input that does not end with a quote, and only quote characters are removed |
| Title.LeadingQuotesDropped | agents/cluster/clean.py:94 | any run of quotes before a text that does not start with a quote is removed, and nothing else |
| Title.TrailingQuotesDropped | agents/cluster/clean.py:94 | any run of quotes after a text that does not end with a quote is removed, and nothing else |
| Title.SuffixMatch | agents/cluster/clean.py:95-100 | a reported match start is followed by whitespace, one separator, whitespace and the outlet name in any letter case at the end |
| Title.RemoveOutletSuffix | agents/cluster/clean.py:95-100 | the result is a prefix of the input; when anything is removed, what is removed is a separator and outlet tail; a title with such a tail always loses it, cut at or before the start of every such tail, so at the leftmost one |
| Title.SpaceRunStartLeast | agents/cluster/clean.py:96 | the greedy leading `\s*` reaches back over all the whitespace before the separator |
| Title.SuffixMatchComplete | agents/cluster/clean.py:95-100 | every outlet tail is matched, at or before its start, and exactly at it when no whitespace precedes it |
| Title.FirstMatchLeast | agents/cluster/clean.py:95-100 | when any outlet tail is present, the alternatives together match at or before its start |
| Title.CleanTitle | agents/cluster/clean.py:87-104 | "" for "", otherwise a collapsed title no longer than the input |
| Title.OutletSuffixDropped | agents/cluster/clean.py:93-104 | "<title> - <outlet>" cleans to exactly the title |
| Title.OutletTailDropped | agents/cluster/clean.py:93-104 | a clean title, any whitespace, any of `-`, `–`, `—`, `:`, any whitespace and an outlet cleans to exactly the title ("Launch test: NASA", "Launch test —ESA", "Launch test-JPL") |
| Title.TailRemoved | agents/cluster/clean.py:95-100 | such a tail after a title is removed up to the title's last character |
| Title.NoOutletTailKept | agents/cluster/clean.py:87-104 | a title without edge whitespace or quotes and without an outlet tail only has its whitespace runs collapsed |
| Title.QuotedTitleKept | agents/cluster/clean.py:87-104 | a clean title wrapped in any runs of quotes cleans to exactly the title |
| Title.OnlyOneOutletMatches | agents/cluster/clean.py:96 | the first outlet alternative that matches is the only one that can match |
| Title.NasaExcludesEsa | agents/cluster/clean.py:96 | a title that "NASA" ends cannot also match the "ESA" alternative |
| TextProcessing.NavLineMeaning | agents/cluster/processing.py:67-80 | a navigation line is exactly one with no '.', at least six words and a navigation phrase |
| TextProcessing.BigIdeaNeverMatches | agents/cluster/processing.py:10-25 | the navigation phrase "big idea 1.1" can never make a line a navigation line |
| TextProcessing.CreditLineMeaning | agents/cluster/processing.py:82-98 | a credit line is exactly one with a credit phrase, or three slashes and an agency name, or '©' |
| TextProcessing.FooterHeadingMeaning | agents/cluster/processing.py:100-112 | a footer heading is exactly one with a footer phrase, or with '@' and a digit |
| TextProcessing.MinReadEnd | agents/cluster/processing.py:162 | a match of "N min read" starts at a digit, is at least nine characters long and ends with "min read" in any letter case |
| TextProcessing.MinReadAt | agents/cluster/processing.py:162 | a match ends with "min read" in the lower-cased line |
| TextProcessing.RemoveMinRead | agents/cluster/processing.py:162 | a removal never lengthens the line |
| TextProcessing.OneMatchRemoved | agents/cluster/processing.py:162 | a scan with one match and none elsewhere removes exactly that match and keeps the rest |
| TextProcessing.RemoveMinReadNone | agents/cluster/processing.py:162 | a line that does not mention "min read" passes a removal unchanged |
| TextProcessing.MinReadRemoved | agents/cluster/processing.py:162 | "<pre><digits><whitespace>min read<post>" on word boundaries becomes "<pre><post>" |
| TextProcessing.MinReadRemovedTwice | agents/cluster/processing.py:162-163 | after both removals the same line is "<pre><post>" when the join mentions no other phrase |
| TextProcessing.HtmlText | agents/cluster/processing.py:53-65 | the extracted text has no whitespace at either end |
| TextProcessing.RoughLines | agents/cluster/processing.py:132-136 | splitting always yields at least one candidate line |
| TextProcessing.RoughLinesMeaning | agents/cluster/processing.py:132-136 | with a line break in the extracted text, the lines are its split on line-break runs (at least two); otherwise the split of the original text on runs of two or more whitespace characters |
| TextProcessing.Classify | agents/cluster/processing.py:141-169 | a kept line has at least three characters |
| TextProcessing.KeptLines | agents/cluster/processing.py:141-169 | there are never more kept lines than lines |
| TextProcessing.KeptLinesLong | agents/cluster/processing.py:165-169 | every kept line has at least three characters |
| TextProcessing.StopCutsRest | agents/cluster/processing.py:149-152 | once a line stops the loop, no later line contributes |
| TextProcessing.FooterCutsRest | agents/cluster/processing.py:143-152 | a non-empty footer heading cuts every later line |
| TextProcessing.KeptLinesAppend | agents/cluster/processing.py:141-169 | before a stopping line, lines are decided one by one and in order |
| TextProcessing.KeptSingleLine | agents/cluster/processing.py:143-169 | a single line is dropped or kept as the loop body decides |
| TextProcessing.CleanTextOf | agents/cluster/processing.py:114-178 | "" for "", "" when no line survives, otherwise collapsed text without edge whitespace |
| TextProcessing.FooterFirstGivesNothing | agents/cluster/processing.py:149-173 | a page whose first line is a footer heading has no body text |
| TextProcessing.FilterLines | agents/cluster/processing.py:138-169 | the loop keeps exactly `KeptLines` of the rough lines |
| TextProcessing.TextProcessor.constructor | agents/cluster/processing.py:8 | the processor holds the text it was built with |
| TextProcessing.TextProcessor.CleanHtml | agents/cluster/processing.py:53-65 | the stored text becomes the extracted text |
| TextProcessing.TextProcessor.CleanText | agents/cluster/processing.py:114-178 | returns `clean_text` of the argument, or of the stored text when the argument is empty |
| Sanitize.ControlToSpace | agents/cluster/clean.py:144 | no control character other than tab, newline and carriage return is left, and the text is never longer |
| Sanitize.ControlToSpaceKeeps | agents/cluster/clean.py:144 | every character other than a control character or a space is kept, in order |
| Sanitize.ControlRunToSpace | agents/cluster/clean.py:144 | a run of control characters becomes exactly one space |
| Sanitize.RemoveComments | agents/cluster/clean.py:145 | removing comments never lengthens the text |
| Sanitize.CommentsPrefixKept | agents/cluster/clean.py:145 | text in which no comment opens is kept as it is, and the rest is filtered after it |
| Sanitize.LeadingCommentRemoved | agents/cluster/clean.py:145 | a leading comment is removed up to its first `-->`, whatever characters it spans |
| Sanitize.CommentRemoved | agents/cluster/clean.py:145 | the first complete comment is removed up to its first `-->`; the text before it is kept and the text after it is filtered |
| Sanitize.GetRidOfImgTags | agents/cluster/clean.py:130-137 | "" for "", never longer than the input |
| Sanitize.ImgPrefixKept | agents/cluster/clean.py:135 | text in which no `<img` opens in any letter case is kept as it is, and the rest is filtered after it |
| Sanitize.LeadingImgTagRemoved | agents/cluster/clean.py:135 | a leading `<img` tag in any letter case is removed up to its first `>` |
| Sanitize.ImgTagRemoved | agents/cluster/clean.py:130-137 | the first `<img…>` tag in any letter case is removed up to its first `>`; the text before it is kept and the text after it is filtered |
| Sanitize.MarkupFreeUnchanged | agents/cluster/clean.py:145-146 | a text without comment or image openers passes both filters unchanged |
| Sanitize.ControlFreeUnchanged | agents/cluster/clean.py:144 | a text without control characters passes the control filter unchanged |
| Sanitize.LastMatch | agents/cluster/clean.py:181 | the position is -1 or the last occurrence of an alternative of the pattern |
| Sanitize.CutTailOf | agents/cluster/clean.py:180-184 | at most one cut: the result is a prefix longer than the text minus 800, cut at a pattern occurrence |
| Sanitize.FirstQualifyingPatternCuts | agents/cluster/clean.py:180-184 | the first pattern whose last occurrence is in the tail window cuts the text there |
| Sanitize.NoQualifyingPatternKeepsText | agents/cluster/clean.py:180-184 | when no pattern qualifies, nothing is cut |
| Sanitize.CutTail | agents/cluster/clean.py:180-184 | the loop with `break` computes `CutTailOf` |
| Sanitize.CreditCutMissedAsWritten | agents/cluster/clean.py:169-181 | with the credit pattern as written, a text without '?' is never cut at a credit |
| Sanitize.CreditCutIntended | agents/cluster/clean.py:168-184 | with "Credit:"/"Credits:", a credit in the tail window cuts the text at the last credit or later |
| Sanitize.Cap | agents/cluster/clean.py:188-189 | the cap keeps a prefix of at most 10000 characters that is collapsed, and that ends in a space only at full length |
| Sanitize.SanitizedOf | agents/cluster/clean.py:139-191 | with the cut patterns as written (`Credits?:` searched for literally): "" for "", at most 10000 characters, collapsed, no leading space, a trailing space only at full length |
| Sanitize.PrepareText | agents/cluster/clean.py:141-166 | the filtered text, replaced by the processor's result when that is not empty |
| Sanitize.SanitizeText | agents/cluster/clean.py:139-191 | the method computes `SanitizedOf`, cutting with the patterns as written |
| Boilerplate.LongPieces | agents/cluster/clean.py:201-205 | only stripped pieces longer than ten characters are kept |
| Boilerplate.LongPiecesFromPieces | agents/cluster/clean.py:201-205 | every sentence is the stripped form of some piece |
| Boilerplate.LongPiecesKeep | agents/cluster/clean.py:201-205 | every long enough piece is kept |
| Boilerplate.Sentences | agents/cluster/clean.py:201-205 | every sentence is longer than ten characters and holds no '.', '!' or '?' |
| Boilerplate.MaxCount | agents/cluster/clean.py:212-214 | the count of the most common sentence, and 0 for none |
| Boilerplate.MostCommonTest | agents/cluster/clean.py:216 | `most / len > 0.6` holds exactly when one sentence makes up more than 60% |
| Boilerplate.IsBoilerplate | agents/cluster/clean.py:193-236 | short texts and texts with a marker are boilerplate |
| Boilerplate.BoilerplateMeaning | agents/cluster/clean.py:193-236 | boilerplate exactly when short, with under three sentences, repetitive, or with a marker |
| Boilerplate.KeptTextHasVariety | agents/cluster/clean.py:207-217 | a kept text has at least three sentences and they are not all the same |
| Feeds.NamesOf | data/agents/process_yml.py:50 | the names in order, or a KeyError exactly when a source has no name |
| Feeds.ListSources | data/agents/process_yml.py:48-50 | no `sources` key gives no names; otherwise one name per source |
| Feeds.WithUrl | data/agents/process_yml.py:66-71 | only sources with a non-empty URL are kept |
| Feeds.WithUrlMembers | data/agents/process_yml.py:66-71 | a source is kept exactly when it is configured and has a non-empty URL |
| Feeds.WithUrlCounts | data/agents/process_yml.py:66-71 | a source with a URL is kept as often as it is configured, one without none |
| Feeds.BatchOf | data/agents/process_yml.py:68-81 | a batch holds the name (default "Unknown"), the URL and what the URL pulls |
| Feeds.FetchedOf | data/agents/process_yml.py:62-83 | one batch per source with a URL, in order |
| Feeds.FetchedEverySource | data/agents/process_yml.py:62-83 | every configured source with a URL is fetched |
| Feeds.FetchSourcesRaw | data/agents/process_yml.py:62-83 | the loop computes `FetchedOf`, and every batch has a non-empty URL |
| Feeds.Record | data/agents/process_yml.py:97-106 | a record holds every field with the source's defaults |
| Feeds.RecordsOf | data/agents/process_yml.py:95-106 | one record per item of a batch, in order |
| Feeds.Flatten | data/agents/process_yml.py:91-108 | every record is the record of some item of some batch |
| Feeds.AppendRecords | data/agents/process_yml.py:95-106 | the inner loop appends exactly the batch's records |
| Feeds.FlattenLength | data/agents/process_yml.py:91-108 | there are as many records as items over all batches |
| Feeds.FlattenAt | data/agents/process_yml.py:91-108 | item j of batch i lands right after the items of the batches before it |
| Feeds.GetArticles | data/agents/process_yml.py:85-108 | every item of every batch, in batch and then item order; fetched first when no batches are given |
| Normalize.MakeId | agents/cluster/clean.py:27-30 | the id is the hash of the URL followed by the title |
| Normalize.NormalizeOne | agents/cluster/clean.py:39-57 | dropped exactly when the stripped text is empty; otherwise the fields are stripped with their defaults and the id hashes the raw URL and title |
| Normalize.NormalizedHaveText | agents/cluster/clean.py:41-44 | every first-pass record has non-empty stripped text |
| Normalize.NormalizedOf | agents/cluster/clean.py:32-59 | never more first-pass records than articles |
| Normalize.NormalizeArticles | agents/cluster/clean.py:32-59 | the loop computes `NormalizedOf` |
| Normalize.ParseTs | agents/cluster/clean.py:106-128 | `None` for "", otherwise what the parser gives |
| Normalize.Host | agents/cluster/clean.py:290-295 | the lower-cased host, or "" when parsing raises |
| Normalize.CanonicalSource | agents/cluster/clean.py:297 | the mapped outlet for a known host, else the source, else the host |
| Normalize.ProcessOne | agents/cluster/clean.py:257-309 | a kept record is well formed: title at least 12 characters, text at least 200, an id that hashes its URL and title, and the text length |
| Normalize.ProcessOneMeaning | agents/cluster/clean.py:264-309 | kept exactly when it passes the gates; it holds the canonical URL, the cleaned title, the sanitised text and the mapped source |
| Normalize.ProcessedOf | agents/cluster/clean.py:257-311 | never more second-pass records than first-pass records |
| Normalize.ProcessedWellFormed | agents/cluster/clean.py:238-311 | every output comes from some input and is well formed |
| Normalize.CleanOne | agents/cluster/clean.py:257-309 | the method computes `ProcessOne` |
| Normalize.ProcessArticles | agents/cluster/clean.py:238-311 | the first pass and then the second pass, never more outputs than inputs |
| Normalize.SecondPass | agents/cluster/clean.py:257-311 | the loop computes `ProcessedOf` |
| ArticleIndex.Loaded | agents/cluster/clean.py:363-378 | a missing or unreadable index counts as an empty document |
| ArticleIndex.KeyOf | agents/cluster/clean.py:382-387 | "id" when it holds a list; "ids" exactly when "id" does not and "ids" does |
| ArticleIndex.WithEntry | agents/cluster/clean.py:389 | only the chosen key's entry changes |
| ArticleIndex.NewArticles | agents/cluster/clean.py:398-404 | never more new articles than articles in the batch |
| ArticleIndex.NewArticlesMembers | agents/cluster/clean.py:398-404 | an article is new exactly when it is in the batch and its id was unknown before the run |
| ArticleIndex.IngestOf | agents/cluster/clean.py:363-456 | fails exactly when the chosen id entry is not a list; never adds more than the batch |
| ArticleIndex.IngestAppends | agents/cluster/clean.py:408-456 | the id list is extended by the new ids and the day's bucket by the new articles |
| ArticleIndex.NothingNewNothingWritten | agents/cluster/clean.py:389-408 | with nothing new, no bucket is touched and only a missing index is created |
| ArticleIndex.ReingestAddsNothing | agents/cluster/clean.py:391-419 | running the same batch again adds nothing |
| ArticleIndex.RepeatedIdAddedTwice | agents/cluster/clean.py:401-404 | an unknown article that appears twice in one batch is added twice |
| ArticleIndex.ArticleDb.constructor | agents/cluster/clean.py:357-359 | the store holds the given files and no output |
| ArticleIndex.ArticleDb.FindNew | agents/cluster/clean.py:398-404 | the loop collects `NewArticles` and their ids |
| ArticleIndex.ArticleDb.Ingest | agents/cluster/clean.py:363-468 | the new state is `IngestOf`'s and the batch is saved; on an error nothing changes |
| Dicts.Get | agents/cluster/vectorizing.py:115 | no value exactly when the key is absent |
| Dicts.Put | agents/cluster/vectorizing.py:94 | assigning keeps the key order and appends a new key |
| Dicts.PutGet | agents/cluster/vectorizing.py:94 | after an assignment the key holds the value and every other key keeps its value |
| Dicts.Index | agents/cluster/vectorizing.py:82-95 | the keys are those of the elements, in order of first appearance |
| Dicts.FirstKeysMeaning | agents/cluster/vectorizing.py:82-95 | each key occurs once, and exactly the elements' keys occur |
| Dicts.IndexLastWins | agents/cluster/vectorizing.py:102-105 | a key holds the value of the last element carrying it |
| Dicts.IndexAbsent | agents/cluster/vectorizing.py:102-105 | a key that no element carries is absent |
| Vectorizing.LoadedMembers | agents/cluster/vectorizing.py:58-74 | exactly the articles of the readable bucket files are loaded |
| Vectorizing.EmbeddingsGet | agents/cluster/vectorizing.py:118-131 | one embedding per text under the same key and in the same order; no texts give none |
| Vectorizing.Vectorizer.constructor | agents/cluster/vectorizing.py:14-17 | nothing is loaded yet |
| Vectorizing.Vectorizer.LoadArticles | agents/cluster/vectorizing.py:33-74 | every article of every readable file, in file order |
| Vectorizing.Vectorizer.PrepareTexts | agents/cluster/vectorizing.py:76-95 | id to "title \n cleaned text", later ids overwriting; an AttributeError when nothing is loaded |
| Vectorizing.Vectorizer.EmbeddingText | agents/cluster/vectorizing.py:86-94 | the text of one article, cleaned by a fresh processor |
| Vectorizing.Vectorizer.OrderArticlesById | agents/cluster/vectorizing.py:97-107 | id to the last article with it; a ValueError when nothing is loaded |
| Vectorizing.Vectorizer.VectorizeTexts | agents/cluster/vectorizing.py:109-133 | the embeddings in key order and the id-to-embedding dictionary, with the articles dictionary updated |
| Clustering.Kept | agents/cluster/clustering.py:57-61 | a neighbour joins exactly when its similarity 1 - d is at least the threshold |
| Clustering.GroupOf | agents/cluster/clustering.py:53-61 | a group is never larger than the neighbour list |
| Clustering.GroupMembers | agents/cluster/clustering.py:55-61 | a member is in the group exactly when a neighbour at that position has that similarity, which is at least the threshold |
| Clustering.GroupBounded | agents/cluster/clustering.py:27-61 | with a fitted index, a group has at most min(k, n) members, all positions of points |
| Clustering.ThresholdMonotone | agents/cluster/clustering.py:55-61 | raising the threshold only drops members |
| Clustering.PassUpTo | agents/cluster/clustering.py:38-67 | after visiting i positions there are at most i groups |
| Clustering.PassSeenMembers | agents/cluster/clustering.py:41-67 | a position is seen only when it is a member of one of the groups |
| Clustering.PassGrows | agents/cluster/clustering.py:38-67 | the seen set only grows and groups are only appended |
| Clustering.SeedStarts | agents/cluster/clustering.py:41-67 | a position starts a group exactly when it was not seen, and then all its members are seen |
| Clustering.PassBounds | agents/cluster/clustering.py:41-67 | at most one group per position, and every member of every group is seen |
| Clustering.GroupsMayOverlap | agents/cluster/clustering.py:41-67 | two groups can share a position |
| Clustering.ClusterOf | agents/cluster/clustering.py:74-85 | succeeds exactly for a non-empty group of valid positions; the ids and similarities align and the first id is both cluster id and representative |
| Clustering.ClustersOf | agents/cluster/clustering.py:71-87 | succeeds exactly when every group does; then one cluster per group, in order; otherwise the error of the first failing group |
| Clustering.ClusteringAgent.constructor | agents/cluster/clustering.py:12-17 | the vectorizer is loaded and the embeddings are those of the loaded texts |
| Clustering.ClusteringAgent.Group | agents/cluster/clustering.py:53-61 | the neighbour loop computes `GroupOf` |
| Clustering.ClusteringAgent.MarkSeen | agents/cluster/clustering.py:63-65 | every member of the group is added to the seen set |
| Clustering.ClusteringAgent.GreedyPass | agents/cluster/clustering.py:38-67 | the loop computes the groups of `PassUpTo` |
| Clustering.ClusteringAgent.BuildClusters | agents/cluster/clustering.py:32-69 | the ids are the prepared texts' keys and the groups are those of the greedy pass |
| Clustering.ClusteringAgent.ClustersToIds | agents/cluster/clustering.py:71-87 | one cluster per group, in order, or the first group's IndexError |
| Candidates.Lookup | agents/cluster/build.py:20 | the article, or a KeyError exactly when the id is unknown |
| Candidates.MemberOf | agents/cluster/build.py:25-35 | the member entry copies the article's fields, or a KeyError |
| Candidates.CandidateOf | agents/cluster/build.py:18-53 | succeeds exactly when the representative and every member are known; copies their fields in member order; all narrative and score fields start empty |
| Candidates.CandidatesOf | agents/cluster/build.py:16-55 | succeeds exactly when every cluster's candidate does; then one candidate per cluster, in order; otherwise the KeyError of the first failing cluster |
| Candidates.CandidateBuilder.constructor | agents/cluster/build.py:6-12 | the builder holds the clusters and the dictionary, and no candidates |
| Candidates.CandidateBuilder.Members | agents/cluster/build.py:23-36 | the inner loop computes the member entries or the first KeyError |
| Candidates.CandidateBuilder.Candidate | agents/cluster/build.py:20-53 | the method computes `CandidateOf` |
| Candidates.CandidateBuilder.All | agents/cluster/build.py:16-55 | the outer loop computes the candidates in cluster order or the first KeyError |
| Candidates.CandidateBuilder.Construct | agents/cluster/build.py:14-59 | the candidates and the dictionary are returned and kept; on an error nothing changes |
| Stories.Weighted | agents/llm/build.py:175-179 | the weights add up to one: equal components give that value; with non-negative other parts the score is at least 0.6 of the model's score |
| Stories.WeightedBounds | agents/llm/build.py:175-179 | a total score of components in [0, 1] is in [0, 1] |
| Stories.Avg | agents/llm/build.py:54-56 | 0.0 for an empty list, otherwise the mean |
| Stories.AvgBounds | agents/llm/build.py:54-56 | the mean of values in [0, 1] is in [0, 1] |
| Stories.SourceReliability | agents/llm/build.py:164 | an unknown source has reliability 0.5 |
| Stories.ReliabilityOf | agents/llm/build.py:162-167 | 0.0 without sources, otherwise the mean: times the number of sources it is the sum of their reliabilities |
| Stories.ReliabilityBounds | agents/llm/build.py:162-167 | a candidate's reliability is in [0, 1], and 0.0 without sources |
| Stories.Recency | agents/llm/build.py:200-211 | succeeds exactly when the timestamp parses, and then is exp(-h/48) for the hours h since the timestamp, with a future timestamp counted as 0 hours |
| Stories.FutureScoresAsNow | agents/llm/build.py:209-211 | a timestamp in the future scores as one taken now |
| Stories.RecencyBounds | agents/llm/build.py:200-211 | a recency is in [0, 1] |
| Stories.StoriesIn | agents/llm/build.py:58-68 | no file gives no stories; a failure exactly for a file that does not parse |
| Stories.StoryIndex | agents/llm/build.py:73-75 | each key maps to a story with that cluster id, and every stored story's id is a key |
| Stories.StoryIndexStored | agents/llm/build.py:73-75 | every story in the index is one of the stored stories |
| Stories.StoryIndexLastWins | agents/llm/build.py:73-75 | when cluster ids repeat, the id keys the last story that has it, as a dict comprehension keeps the last value |
| Stories.StoredCandidates | agents/llm/build.py:87-91 | every stored candidate's cluster id keys a stored story |
| Stories.SplitPartitions | agents/llm/build.py:81-91 | every candidate is in exactly one of the new and stored lists |
| Stories.NoStoriesAllNew | agents/llm/build.py:60-62 | without a stories file every candidate is new |
| Stories.RescoredTwice | agents/llm/build.py:101-116 | rescoring twice is rescoring once with the later recency |
| Stories.Refresh | agents/llm/build.py:101-116 | the candidate's stored story gets the new recency and the recomputed score and nothing else changes; no other story changes |
| Stories.RefreshAll | agents/llm/build.py:101-116 | a successful loop keeps exactly the keys of the index |
| Stories.RefreshAllKey | agents/llm/build.py:101-116 | after the loop each stored candidate's story is rescored and every other stored story is unchanged |
| Stories.Resolved | agents/llm/build.py:103-116 | one story per stored candidate: the one its cluster id keys after the loop |
| Stories.ResolvedRescored | agents/llm/build.py:101-116 | every stored candidate resolves to its stored story rescored with a fresh recency |
| Stories.Narrative | agents/llm/build.py:132-159 | a failed request gives the placeholder narrative and model score 0.0; a reply gives its fields with their defaults |
| Stories.NewStory | agents/llm/build.py:133-179 | the candidate with the reply's narrative and the three weighted score parts; fails exactly when the timestamp does not parse |
| Stories.FailedRequestPlaceholder | agents/llm/build.py:148-159 | a failed request still yields a story with topics ["error"] and model score 0.0 |
| Stories.NewStoryScoreBounds | agents/llm/build.py:161-179 | with a model score in [0, 1], a new story's score is in [0, 1] |
| Stories.NewStories | agents/llm/build.py:122-181 | succeeds exactly when every new candidate's story does; then one story per candidate, in order; otherwise the error of the first failing candidate |
| Stories.ProcessOf | agents/llm/build.py:70-193 | a stories file that does not parse fails with its error; a missing candidate file raises FileNotFoundError; a successful run had every new story succeed |
| Stories.ProcessParts | agents/llm/build.py:70-193 | a successful run is the processed stored stories followed by the new stories |
| Stories.ProcessOrder | agents/llm/build.py:70-193 | one story per candidate, with cluster ids in stored-then-new order |
| Stories.ProcessStoredStories | agents/llm/build.py:101-116 | each stored candidate's place in the output holds its stored story, rescored |
| Stories.ProcessNewStories | agents/llm/build.py:122-189 | after the stored stories come exactly the new candidates' stories, in order |
| Stories.NewStoriesAt | agents/llm/build.py:122-181 | the story at each new position is that new candidate's `NewStory` |
| Stories.ProcessPrefix | agents/llm/build.py:101-189 | the output opens with the stored candidates' stories as the refresh loop left them |
| Stories.StoredIgnoreClient | agents/llm/build.py:101-136 | the processed stored stories do not depend on the client |
| Stories.StoryProcessor.constructor | agents/llm/build.py:15-20 | the processor holds both files and nothing processed |
| Stories.StoryProcessor.RefreshLoop | agents/llm/build.py:101-116 | the loop computes `RefreshAll` |
| Stories.StoryProcessor.NewLoop | agents/llm/build.py:122-181 | the loop computes `NewStories` |
| Stories.StoryProcessor.ProcessCandidates | agents/llm/build.py:70-193 | the result is the run's; on success the stories are kept and written, on an error neither changes |

## Left out

- I/O, JSON encoding and decoding, printing, `time.sleep` and the wall clock are left out. Files are values and the clock is a parameter.
- `hashlib.md5`, `urlparse`/`urlunparse`/`parse_qsl`/`urlencode`, `dateutil`, BeautifulSoup with `unescape`, the feed fetcher, the SentenceTransformer model, scikit-learn's `NearestNeighbors` and `math.exp` are parameters. Their behaviour is not modelled.
- `fit_clusters` and `choose_k` are represented only by the neighbour oracle. The predicate `FittedOn` states the bound that `n_neighbors = min(k, n)` gives.
- `get_all_files_in_directory`, `get_source_info` and the example-data fallback of the cleaner's main block are file-system or demonstration helpers. They are not modelled.
- `load_candidates` reading its file is represented by the candidate file value. A candidate file that does not parse is not modelled.
- `str.isspace` and `\s` are modelled with Python's full set of whitespace characters (TextUtil.IsSpace). Regular expressions are modelled by hand-written scanners for the patterns used.
- TextUtil.IsDigit and TextUtil.IsWordChar are ASCII-only, while Python's `\d`, `str.isdigit` and the word characters of `\b` also accept other Unicode digits and letters. This affects TextProcessing.LooksLikeFooterHeading (a line with '@' and, say, an Arabic-Indic digit is not a footer heading here) and TextProcessing.MinReadEnd ("٥ min read" is not removed here, and a non-ASCII letter before the digits does not block the match here).
- TextProcessing.MinReadEnd, Title.SuffixMatch and the other case-insensitive matches compare ASCII letters only: the non-ASCII characters that `re.I` treats as case variants of a pattern letter (such as U+0130 and U+0131 for 'i', or U+212A for 'k') are not matched.
- Floating-point scores are modelled as reals, so rounding is not modelled.
- TextUtil.Lower: only ASCII letters are lower-cased, not the full Unicode case mapping.
- ArticleIndex.IngestOf: an id entry that is present but not a list is modelled as an error. Python would iterate a string or a dict entry. A document that is not a JSON object is not modelled. A date-bucket file that parses to JSON that is not a list cannot be represented: `BucketFile` is only `CorruptBucket` or a list of articles. In Python such a file makes `.extend` (agents/cluster/clean.py:452) raise after the index has already been written (agents/cluster/clean.py:420-421), and the vectorizer (agents/cluster/vectorizing.py:66) would iterate a dict's keys.
- Vectorizing.Vectorizer.VectorizeTexts: the empty branch returns an empty matrix whose shape depends on the model. It is modelled as the empty sequence.
- Vectorizing.Vectorizer.PrepareTexts: stored articles always carry `id`, `title` and `text`, so the `.get` defaults are not modelled.
- Stories.Narrative: reply fields are modelled as present or absent, each with its own JSON type. A reply whose `score` is not an object makes `.get("reasoning")` raise inside the `try` (agents/llm/build.py:143); that case is represented by a client that answers `RequestFailed`, which gives the placeholder narrative and model score 0.0 (agents/llm/build.py:153-159). A `because`, `summary` or `topics` of another JSON type is copied into the story without an error (agents/llm/build.py:140-142); the model cannot hold such a value. A `score.score` that is not a number makes the weighted sum raise outside the `try` (agents/llm/build.py:175-176) and ends the run; that error is not modelled.
- Stories.StoryIndex: stored stories always carry `cluster_id`, so the `.get("cluster_id", "")` default is not modelled.
- Clustering.ClusteringAgent.BuildClusters requires loaded articles. The constructor always loads them, as `__init__` does.

## Findings

| source | as written | input that shows it | evidently intended | confidence | as-written member | corrected member |
|---|---|---|---|---|---|---|
| agents/cluster/clean.py:169 | the cut pattern `Credits?:` is passed to `str.rfind`, which searches for it literally, question mark included | "Photo of Io. Credit: JPL" is never cut at the credit | cut at the last "Credit:" or "Credits:" in the tail window, as for the other patterns | not executed | Sanitize.CreditCutMissedAsWritten | Sanitize.CreditCutIntended |
