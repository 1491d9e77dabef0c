# MovieBookCritic-Analyzer in Dafny

A model of the comment pipeline of MovieBookCritic-Analyzer.

- **Crawler.** It collects short comments on a Douban movie or book page by page. It writes them to a dash-separated text file.
- **Analysers.** Three analysers read that file back:
  - a text analyser: cleaning, word filter, word and per-period counts;
  - a sentiment analyser: the threshold labels, the label counts, the most positive and most negative comments;
  - a knowledge-graph builder: entity classification and extraction, co-occurrence relations, the graph, and neighbour recommendations.
- **Word-cloud generator.** It merges drawing options, splits words into CJK and other words, and plans the file names of a time-series animation.

The model is in Dafny, one module per source file, plus helper modules:

- `PyStr`: Python string, slice and sort-order semantics.
- `PyDict`: Python's insertion-ordered `dict`, `Counter` and `defaultdict`.
- `StableSort`: Python's stable `sorted`/`list.sort` by key.
- `Config`: the constants of `config/config.py`.
- `CommentFile`: the text format written by the crawler and read back by all three analysers.

Code that updates objects in place is modelled as Dafny classes. This covers `DoubanCrawler`, `TextAnalyzer`, `SentimentAnalyzer` and `KnowledgeGraphBuilder`. Each has its fields, `modifies` clauses and loop invariants. Each loop is proved against a function that states its result. Pure code is modelled as functions and lemmas.

Inputs from outside the code are given to the model as parameters:

- the part-of-speech tagger and the tokenizer (jieba);
- the sentiment scorer (SnowNLP, where `None` stands for a scorer exception);
- the date-to-period function;
- today's date;
- the file text read from disk;
- the decoded JSON records;
- the comment elements a browser finds on a page.

## Model

| member | source | states |
|---|---|---|
| `KnowledgeGraph.FirstKeywordIndex` | src/knowledge_graph.py:191-194 | the index of the first type, from a start position, with a keyword that is a substring of the word; no earlier type has one |
| `KnowledgeGraph.FirstKeywordType` | src/knowledge_graph.py:191-199 | `None` exactly when no type of the ordered keyword table has a keyword inside the word; otherwise the type at a position of the table whose type has one while no earlier type has any, so the first matching type wins |
| `KnowledgeGraph.Classify` | src/knowledge_graph.py:175-205 | place iff flag ns/nt; attribute iff a/ad; action iff v/vn; person iff nr/nrf or a noun whose first matching keyword type is person; for noun flags the first matching keyword type wins; concept iff a noun with no keyword, length >= 2 and not all digits; `None` iff another flag, or such a noun that is short or all digits |
| `KnowledgeGraph.JuIsMovie` | src/knowledge_graph.py:191-194 | a two-character noun holding '剧' and no first character of a person keyword is classified movie, before genre or element are tried |
| `KnowledgeGraph.PlotIsMovie` | src/knowledge_graph.py:44-52 | the element keyword '剧情' and the genre keywords '喜剧' and '悲剧' are all classified movie (the movie keyword '剧' shadows them) |
| `KnowledgeGraph.Context` | src/knowledge_graph.py:156-159 | the context window is no longer than the comment |
| `KnowledgeGraph.ContextIsPiece` | src/knowledge_graph.py:156-159 | the context is a substring of the comment |
| `KnowledgeGraph.ContextHasWord` | src/knowledge_graph.py:156-159 | when the word occurs, its context contains it and is at most ten characters longer on each side |
| `KnowledgeGraph.HitOf` | src/knowledge_graph.py:133-153 | a token yields a hit only for its stripped word, and only when that word has length 2..8, is not all digits and is not in the stoplist |
| `KnowledgeGraph.TokenHits` | src/knowledge_graph.py:133-161 | every hit of a comment's tokens passes the length, digit and stoplist filter |
| `KnowledgeGraph.CommentHits` | src/knowledge_graph.py:122-161 | every hit of all comments passes the filter; comments with empty content contribute none |
| `KnowledgeGraph.Record` | src/knowledge_graph.py:145-161 | one more hit keeps the entity dict well formed (its meaning: `RecordSummary`) |
| `KnowledgeGraph.Accumulate` | src/knowledge_graph.py:122-161 | the entity dict built from the hits is well formed (its meaning: `AccumulateSummary`) |
| `KnowledgeGraph.Extracted` | src/knowledge_graph.py:115-165 | the kept entities form a well-formed dict (its meaning: `ExtractedEntities`) |
| `KnowledgeGraph.SummarySnoc` | src/knowledge_graph.py:150-161 | one more hit adds one to the frequency, keeps the type and appends its context only while there are fewer than five |
| `KnowledgeGraph.RecordSummary` | src/knowledge_graph.py:145-161 | recording a hit turns the summary of a word's earlier hits into the summary with that hit added, creating it on the first hit |
| `KnowledgeGraph.AccumulateSummary` | src/knowledge_graph.py:145-161 | a word is in the dict iff it has hits; its entry has the first hit's type, the number of hits and the contexts of the first five hits |
| `KnowledgeGraph.ExtractedEntities` | src/knowledge_graph.py:137-165 | an entity is kept iff it has at least 2 hits; a kept entity passes the word filter, has the type of its first classified occurrence, counts occurrences (not comments) and keeps at most 5 contexts in discovery order |
| `KnowledgeGraph.KnowledgeGraphBuilder.constructor` | src/knowledge_graph.py:26-31 | a new builder has no comments, entities, relations, nodes or edges |
| `KnowledgeGraph.Loaded` | src/knowledge_graph.py:62-82 | a `.json` path gives the decoded contents (none when unreadable), a `.txt` path gives the parsed contents (none when unreadable), any other name gives none |
| `KnowledgeGraph.KnowledgeGraphBuilder.LoadDataFromFile` | src/knowledge_graph.py:62-82 | the comments become `Loaded(path, ...)`; nothing else changes |
| `KnowledgeGraph.KnowledgeGraphBuilder.CountToken` | src/knowledge_graph.py:133-161 | the token loop body turns the entity dict of the earlier hits into that of the hits plus this token's hit, if any |
| `KnowledgeGraph.KnowledgeGraphBuilder.ExtractEntities` | src/knowledge_graph.py:115-165 | the entities are rebuilt from scratch and equal `Extracted(comments, tag)`; comments, relations and graph are unchanged |
| `KnowledgeGraph.SortedPair` | src/knowledge_graph.py:230 | the key holds the two entities, the smaller first by Python string order |
| `KnowledgeGraph.SortedPairSame` | src/knowledge_graph.py:230 | two pairs get the same key iff they hold the same two entities in either order |
| `KnowledgeGraph.Present` | src/knowledge_graph.py:221-224 | an entity is present in a comment iff it is one of the names and a substring of the content |
| `KnowledgeGraph.PresentDistinct` | src/knowledge_graph.py:213-228 | the present entities of a comment are duplicate-free when the names are |
| `KnowledgeGraph.CountCombos` | src/knowledge_graph.py:227-231 | `combinations(s, 2)` of distinct elements produces the sorted pair of any two distinct positions exactly once |
| `KnowledgeGraph.CommentPairsCount` | src/knowledge_graph.py:216-233 | one comment adds exactly 1 to the pair of two distinct entities when its non-empty content holds both, and 0 otherwise |
| `KnowledgeGraph.AllPairsCount` | src/knowledge_graph.py:216-233 | over all comments, the increments of a pair equal the number of comments with non-empty content holding both entities |
| `KnowledgeGraph.Cooccurrences` | src/knowledge_graph.py:211-233 | the relation counter before the filter is a well-formed dict (its meaning: `CooccurrenceCount`) |
| `KnowledgeGraph.CooccurrenceCount` | src/knowledge_graph.py:216-233 | a pair of distinct entities is counted iff some comment holds both; its count is the number of such comments |
| `KnowledgeGraph.Relations` | src/knowledge_graph.py:207-238 | the filtered relations form a well-formed dict (its meaning: `RelationWeight`, `RelationKeys`) |
| `KnowledgeGraph.RelationWeight` | src/knowledge_graph.py:234-237 | a relation survives iff its two entities share at least `min_cooccurrence` (3) comments, and its weight is that number |
| `KnowledgeGraph.CombosKeys` | src/knowledge_graph.py:227-231 | every pair `combinations` produces joins two different entities of the list, in sorted order |
| `KnowledgeGraph.RelationKeys` | src/knowledge_graph.py:230-237 | every relation key `(a, b)` joins two different entities with `a < b` |
| `KnowledgeGraph.KnowledgeGraphBuilder.BuildRelations` | src/knowledge_graph.py:207-238 | the relations are rebuilt from scratch and equal `Relations(comments, entity names)`; nothing else changes |
| `KnowledgeGraph.NodeOf` | src/knowledge_graph.py:246-250 | a node keeps the entity's type and frequency; its size is min(frequency × 100, 1000) |
| `KnowledgeGraph.EdgeOf` | src/knowledge_graph.py:255-258 | an edge keeps the weight; its width is min(weight × 2, 10) |
| `KnowledgeGraph.NodesOf` | src/knowledge_graph.py:245-250 | the node dict holds exactly the given keys, each with the node of its entity |
| `KnowledgeGraph.NodesOrder` | src/knowledge_graph.py:245-250 | nodes are listed in the order they were added |
| `KnowledgeGraph.EdgesOf` | src/knowledge_graph.py:253-258 | an edge exists iff its relation key was visited and both ends are nodes; it carries the relation's weight and capped width |
| `KnowledgeGraph.GraphNodes` | src/knowledge_graph.py:240-250 | the node dict of the graph is well formed (its meaning: `GraphNodesAreEntities`) |
| `KnowledgeGraph.GraphEdges` | src/knowledge_graph.py:252-258 | the edge dict of the graph is well formed (its meaning: `GraphEdgesAreRelations`) |
| `KnowledgeGraph.GraphNodesAreEntities` | src/knowledge_graph.py:245-250 | the nodes are exactly the entities, in entity order, each with capped size |
| `KnowledgeGraph.GraphEdgesAreRelations` | src/knowledge_graph.py:252-258 | for relations built from these entities, the edges are exactly the relations, with their weights, and there are no self-loops |
| `KnowledgeGraph.KnowledgeGraphBuilder.CreateGraph` | src/knowledge_graph.py:240-260 | the graph is rebuilt with nodes `GraphNodes(entities)` and edges `GraphEdges(relations, nodes)`; entities and relations are unchanged |
| `KnowledgeGraph.Neighbours` | src/knowledge_graph.py:528 | `n` is a neighbour of `x` iff an edge joins them in either direction |
| `KnowledgeGraph.Weighted` | src/knowledge_graph.py:531-534 | each neighbour is paired with the weight of its edge to the entity, in neighbour order |
| `KnowledgeGraph.Names` | src/knowledge_graph.py:545 | the names of the pairs, in order |
| `KnowledgeGraph.NeighbourWeightsNames` | src/knowledge_graph.py:528-534 | every weighted pair names a neighbour |
| `KnowledgeGraph.SortedWeights` | src/knowledge_graph.py:536 | sorted by negated weight means weights never increase |
| `KnowledgeGraph.RecommendCorrect` | src/knowledge_graph.py:512-544 | an entity that is not a node gets []; otherwise the result is the first `top_n` (min(top_n, neighbours) for top_n >= 0) of the neighbours stably sorted by decreasing weight; all are neighbours, weights never increase, and equal weights keep neighbour order |
| `KnowledgeGraph.Ranked` | src/knowledge_graph.py:523-538 | none for an entity that is not a node; otherwise at most `top_n` pairs, each naming a neighbour, with weights that never increase |
| `KnowledgeGraph.Recommend` | src/knowledge_graph.py:512-545 | `get_entity_recommendations` returns [] for an entity that is not a node, and otherwise at most `top_n` names, each a neighbour of the entity |
| `KnowledgeGraph.KnowledgeGraphBuilder.GetEntityRecommendations` | src/knowledge_graph.py:512-545 | returns `Recommend(nodes, edges, x, top_n)` |
| `KnowledgeGraph.RelationKey` | src/knowledge_graph.py:563 | the saved key is the first entity, '-', then the second |
| `KnowledgeGraph.RelationKeyInjective` | src/knowledge_graph.py:563 | relations whose first entity has no '-' get distinct saved keys |
| `KnowledgeGraph.RelationKeyCollision` | src/knowledge_graph.py:563 | two different relations can get the same saved key when an entity holds '-' |
| `KnowledgeGraph.TypesOf` | src/knowledge_graph.py:575 | the list of entity types, one per entity, in entity order |
| `KnowledgeGraph.StatsOfBuiltGraph` | src/knowledge_graph.py:569-576 | for the graph built from the entities and their relations: node count = entity count, edge count = relation count, and each type's count is its number of entities |
| `KnowledgeGraph.Stats` | src/knowledge_graph.py:569-576 | the statistics' type counter is a well-formed dict whose counts add up to the entity count |
| `CommentFile.RatingText` | src/crawler.py:318-319 | `str(t / 10)` has digits around a single '.', one digit after it |
| `CommentFile.RecordLines` | src/crawler.py:315-320 | a record has 4 tagged lines when the rating is truthy, 3 otherwise |
| `CommentFile.Record` | src/crawler.py:315-320 | one comment's text starts with its time line and ends with its content line and the line of 50 dashes |
| `CommentFile.Format` | src/crawler.py:314-320 | the file text is empty iff there are no comments, and otherwise ends with the dash line |
| `CommentFile.FormatAppend` | src/crawler.py:315-321 | writing one more comment appends its record (time, user, rating only when truthy, content, 50 dashes) |
| `CommentFile.ParseFloat` | src/text_analyzer.py:185-189 | `float(s)` succeeds only on non-empty text |
| `CommentFile.RatingTextValue` | src/text_analyzer.py:185-189 | the rating text written for `t` tenths parses back to `t / 10` |
| `CommentFile.ParseBlock` | src/text_analyzer.py:172-198 | a block yields a comment only with a non-empty content |
| `CommentFile.Complete` | src/text_analyzer.py:193-198 | a comment is kept iff its content line was present and non-empty |
| `CommentFile.ParseBlocks` | src/text_analyzer.py:172-198 | at most one comment per block |
| `CommentFile.ParseBlocksAppend` | src/text_analyzer.py:172-198 | blocks are read independently: the comments of two block lists are concatenated |
| `CommentFile.ReadFields` | src/text_analyzer.py:179-191 | the line loop sets the fields `ParseLines` gives |
| `CommentFile.TagValue` | src/text_analyzer.py:181-190 | the value taken from a tagged line has no white space at either end |
| `CommentFile.RatingValue` | src/text_analyzer.py:185-188 | a rating line always sets the rating: its number when `float()` accepts the value, otherwise the unparsable marker |
| `CommentFile.ApplyLine` | src/text_analyzer.py:179-190 | a line whose stripped text starts with a tag sets that tag's field to the line's value; every field whose tag the line lacks is unchanged |
| `CommentFile.ParseLinesLast` | src/text_analyzer.py:175-190 | the fields of a block are the values of the last line with each tag; a field no line has stays unset (no rating when no rating line) |
| `CommentFile.ReadBlock` | src/text_analyzer.py:172-198 | the block loop body yields `ParseBlock(block)` |
| `CommentFile.ParseTxtFile` | src/text_analyzer.py:162-204 | an unreadable file gives []; otherwise the comments of its text |
| `CommentFile.ParseText` | src/text_analyzer.py:169-198 | the text gives at most one comment per dash-separated block, each with a non-empty content |
| `CommentFile.TaggedLine` | src/text_analyzer.py:180-191 | a written tagged line, stripped, starts with its tag, and taking the tag out and stripping returns the value |
| `CommentFile.ParseRecordLines` | src/text_analyzer.py:179-191 | the lines of a written comment set exactly its time, user, rating (none when it was not written) and content |
| `CommentFile.RecordLinesClean` | src/crawler.py:315-320 | a writable comment's lines hold no newline and no dash line |
| `CommentFile.StripBody` | src/text_analyzer.py:176 | a stripped written block is its lines joined by newlines |
| `CommentFile.SplitFormat` | src/text_analyzer.py:170 | splitting the written file on 50 dashes gives one block per comment plus a blank tail |
| `CommentFile.ParseWrittenBlock` | src/text_analyzer.py:172-198 | the block of a written comment reads back as that comment |
| `CommentFile.ParseBlocksOfFormat` | src/text_analyzer.py:172-198 | the blocks of a written file read back as the written comments |
| `CommentFile.RoundTrip` | src/text_analyzer.py:162-204 | a file written by the crawler for comments whose fields have no newline, dash line, tag copy or outer space is read back with every content, time, user and non-zero rating |
| `CommentFile.ContentOfLinesAgrees` | src/knowledge_graph.py:96-99 | the content-only line loop finds the content the full parser finds |
| `CommentFile.ContentReaderAgrees` | src/knowledge_graph.py:84-112 | the knowledge-graph reader finds the same comments, in the same order, with the same contents, as the analysers' reader |
| `CommentFile.ReadContent` | src/knowledge_graph.py:91-102 | the block loop body returns the block's content, if any |
| `CommentFile.ParseContentFile` | src/knowledge_graph.py:84-112 | an unreadable file gives []; otherwise the contents of its comments |
| `CommentFile.ParsedContentsNonEmpty` | src/text_analyzer.py:193-198 | every parsed comment has a non-empty content |
| `CommentFile.Loaded` | src/text_analyzer.py:140-160 | a `.json` path gives the decoded records, a `.txt` path the parsed comments, any other name nothing |
| `TextAnalyzer.Stopwords` | src/text_analyzer.py:100-123 | always contains the built-in extra set; without a file it is that set; with one, it adds exactly the non-blank stripped lines |
| `TextAnalyzer.StripAll` | src/text_analyzer.py:225 | each token stripped, in order |
| `TextAnalyzer.Clean` | src/text_analyzer.py:217 | same length; a character in U+4E00–U+9FA5, an ASCII letter or an ASCII digit is kept, any other becomes one space |
| `TextAnalyzer.CleanIdempotent` | src/text_analyzer.py:217 | cleaning twice equals cleaning once |
| `TextAnalyzer.KeepWords` | src/text_analyzer.py:223-230 | a word is kept iff it is among the words and is non-empty, no stopword, of length 2..10 and not all digits |
| `TextAnalyzer.KeepWordsCounts` | src/text_analyzer.py:223-232 | each word occurs in the kept list as often as in the input when it passes the filter, and not at all otherwise |
| `TextAnalyzer.KeepWordsSubsequence` | src/text_analyzer.py:223-232 | the kept words are the words at strictly increasing positions |
| `TextAnalyzer.SegmentCorrect` | src/text_analyzer.py:206-232 | `segment_text` returns exactly the stripped tokens of the cleaned text that pass the filter: every occurrence of a passing token and no other, as an order-preserving subsequence |
| `TextAnalyzer.Segment` | src/text_analyzer.py:206-232 | `segment_text` returns only words that pass the filter, no more of them than the tokenizer produced |
| `TextAnalyzer.TextAnalyzer.SegmentText` | src/text_analyzer.py:206-232 | the filter loop returns `Segment(text)` |
| `TextAnalyzer.Bucket` | src/text_analyzer.py:248 | a period's counter (empty when missing) is well formed |
| `TextAnalyzer.AddBuckets` | src/text_analyzer.py:240-248 | the per-period table stays well formed |
| `TextAnalyzer.Periods` | src/text_analyzer.py:246-247 | the period of each comment, in order |
| `TextAnalyzer.BucketCounts` | src/text_analyzer.py:240-248 | periods present are the old ones plus those of the comments; each count grows by the occurrences of the word in the comments of that period, and old counts are kept (no reset) |
| `TextAnalyzer.WordFrequencies` | src/text_analyzer.py:251 | `Counter(all_words)` lists exactly the words seen, each with its number of occurrences |
| `TextAnalyzer.TextAnalyzer.constructor` | src/text_analyzer.py:27-33 | the stopwords are `Stopwords(file)`; no comments and empty counters |
| `TextAnalyzer.TextAnalyzer.LoadDataFromFile` | src/text_analyzer.py:140-160 | the comments become `Loaded(path, ...)`; nothing else changes |
| `TextAnalyzer.TextAnalyzer.CountComment` | src/text_analyzer.py:241-248 | the comment's words are `Segment(content)` and are added to the counter of its period |
| `TextAnalyzer.TextAnalyzer.AnalyzeWordFrequency` | src/text_analyzer.py:234-251 | `word_freq` is rebuilt as `Tally(all words)`; `time_word_freq` is the old table with the comments' words added |
| `TextAnalyzer.Report` | src/text_analyzer.py:434-440 | the average is 0 when there are no comments |
| `TextAnalyzer.ReportOfAnalysis` | src/text_analyzer.py:434-443 | after the analysis, total words = number of kept words, unique words = number of distinct words, average = total / comments (0 without comments), periods = table size |
| `SentimentAnalyzer.LabelOf` | src/sentiment_analyzer.py:121-126 | positive iff score >= 0.6; negative iff score < 0.6 and score <= 0.4; neutral iff 0.4 < score < 0.6 |
| `SentimentAnalyzer.LabelMonotone` | src/sentiment_analyzer.py:121-126 | a higher score never gets a lower label |
| `SentimentAnalyzer.Scored` | src/sentiment_analyzer.py:110-128 | the scored comments are comments with non-empty content, each with the score the scorer gave, at most one per comment |
| `SentimentAnalyzer.LabelsOf` | src/sentiment_analyzer.py:121-129 | one label per score, by the label rule |
| `SentimentAnalyzer.Group` | src/sentiment_analyzer.py:132-134 | the per-period score lists form a well-formed dict |
| `SentimentAnalyzer.GroupContents` | src/sentiment_analyzer.py:132-134 | each period's list holds exactly the scores of that period's comments, in order, and only periods with scores are listed |
| `SentimentAnalyzer.GroupSizes` | src/sentiment_analyzer.py:132-134 | the period lists hold as many scores as there are |
| `SentimentAnalyzer.SentimentAnalyzer.constructor` | src/sentiment_analyzer.py:24-29 | a new analyser has no comments, scores, labels or periods |
| `SentimentAnalyzer.SentimentAnalyzer.LoadDataFromFile` | src/sentiment_analyzer.py:36-56 | the comments become `Loaded(path, ...)`; the results are unchanged |
| `SentimentAnalyzer.SentimentAnalyzer.Record` | src/sentiment_analyzer.py:128-134 | one scored comment appends its score, its label and its entry in its period's list |
| `SentimentAnalyzer.SentimentAnalyzer.AnalyzeSentiment` | src/sentiment_analyzer.py:102-140 | the results are cleared, then hold exactly the scores, labels and period lists of `Scored(comments)`, so a second run gives the same state |
| `SentimentAnalyzer.AnalysisAligned` | src/sentiment_analyzer.py:110-134 | scores and labels have equal length, each score sits with its comment, and the period lists hold all scores between them |
| `SentimentAnalyzer.SentimentSummary` | src/sentiment_analyzer.py:491-492 | no summary iff there are no scores |
| `SentimentAnalyzer.LabelPartition` | src/sentiment_analyzer.py:494-497 | the positive, negative and neutral counts of any label list add up to its length |
| `SentimentAnalyzer.SummaryCounts` | src/sentiment_analyzer.py:494-497 | positive + negative + neutral = total |
| `SentimentAnalyzer.Zip` | src/sentiment_analyzer.py:398 | `zip` pairs elements by position, as many as the shorter list |
| `SentimentAnalyzer.NegativeSide` | src/sentiment_analyzer.py:404 | the most negative are the first `n` sorted pairs, min(n, pairs) of them, in ascending score |
| `SentimentAnalyzer.MostNegative` | src/sentiment_analyzer.py:404 | `sorted_pairs[:n]`: a prefix of the sorted pairs, min(n, pairs) long for n >= 0, and all but the last -n for n < 0 |
| `SentimentAnalyzer.MostPositiveAsWritten` | src/sentiment_analyzer.py:405 | `sorted_pairs[-n:][::-1]` as written: the pairs from the end backwards, all of them for n = 0 and min(n, pairs) for n > 0 |
| `SentimentAnalyzer.MostPositive` | src/sentiment_analyzer.py:405 | the last `n` sorted pairs, best first, min(n, pairs) of them and none for n = 0; for n < 0 all but the first -n pairs, best first, as the source's slice gives |
| `SentimentAnalyzer.MostPositiveOnlyZero` | src/sentiment_analyzer.py:405 | the corrected rule differs from the source's slice exactly when n = 0 and there are pairs |
| `SentimentAnalyzer.PositiveSide` | src/sentiment_analyzer.py:405 | the most positive come in descending score |
| `SentimentAnalyzer.SidesMembers` | src/sentiment_analyzer.py:404-405 | both lists are drawn from the sorted pairs |
| `SentimentAnalyzer.ExtremesCorrect` | src/sentiment_analyzer.py:393-405 | nothing iff there are no scores; otherwise the pairs are sorted stably by ascending score, the most negative are its first `n_negative` and the most positive its last `n_positive` reversed, with the stated lengths, orders and membership |
| `SentimentAnalyzer.ExtremeComments` | src/sentiment_analyzer.py:393-405 | with the corrected pairing: nothing iff there are no scores; otherwise both lists are drawn from the pairs of scored comments and their scores |
| `SentimentAnalyzer.ExtremeCommentsAsWritten` | src/sentiment_analyzer.py:393-405 | `get_extreme_comments` as written: nothing iff there are no scores; otherwise both lists are drawn from the positional zip of all comments with the scores |
| `SentimentAnalyzer.ZeroPositiveAsWritten` | src/sentiment_analyzer.py:405 | as written, `n_positive = 0` lists every pair, while the corrected rule lists none |
| `SentimentAnalyzer.ZipMisaligned` | src/sentiment_analyzer.py:398 | as written, a comment with empty content before a scored one gets that one's score |
| `Crawler.FirstRatingMatch` | src/crawler.py:200 | the leftmost position where `allstar<digits>` matches, from a start, or -1 when none |
| `Crawler.ExtractRating` | src/crawler.py:194-204 | `None` for a missing class or one without `allstar<digits>`; otherwise the digit run after the leftmost match, in tenths |
| `Crawler.RatingOfClass` | src/crawler.py:194-204 | the class `allstar<t>` followed by a non-digit reads back as `t` tenths (allstar50 is 5.0) |
| `Crawler.RatingAtStart` | src/crawler.py:200-202 | a class starting with a match reads as the value of that match's digits |
| `Crawler.FirstSubjectMatch` | src/crawler.py:278 | the leftmost position where `/subject/<digits>/` matches, or -1 |
| `Crawler.CommentsUrl` | src/crawler.py:274-294 | `None` iff the address has no `/subject/<digits>/`; otherwise the movie template (content type 'movie') or the book template filled with the leftmost id |
| `Crawler.FirstSubjectOfPage` | src/crawler.py:278-287 | in a comments address built from a site template and a digit id, the leftmost `/subject/<digits>/` match is the template's own and its id is that id |
| `Crawler.CommentsUrlFixed` | src/crawler.py:274-290 | the comments address of a comments address is itself |
| `Crawler.PageComment` | src/crawler.py:145-181 | an element is kept iff its stripped content is longer than 10; the content is stripped, the URL is the page's, a missing user is '匿名用户', a missing time is today, a missing rating element is `None` |
| `Crawler.PageComments` | src/crawler.py:145-188 | at most one comment per element |
| `Crawler.PageCommentsKept` | src/crawler.py:145-188 | the page's comments are exactly those of its readable, long enough elements |
| `Crawler.GetCommentsFromPage` | src/crawler.py:122-192 | the element loop returns `PageComments(elements)` |
| `Crawler.CrawlOutcome` | src/crawler.py:231-258 | pages 0..n-1 are read, all non-empty and all but the last short of the target; either the loop stopped at an empty page (or a zero target) and the old list is extended by those pages, or the target was reached and the whole list is cut to `max_comments` |
| `Crawler.PageUrl` | src/crawler.py:239 | page k's address is the comments address, `?start=`, then 20k, ending in `&limit=20` |
| `Crawler.CrawlFrom` | src/crawler.py:236-258 | the paging loop only extends the comments held, or cuts the list to exactly `max_comments`; it changes nothing once the target is met |
| `Crawler.DoubanCrawler.constructor` | src/crawler.py:31-42 | the content type (default 'movie') and target (default 1000) are stored; no comments |
| `Crawler.DoubanCrawler.FetchPage` | src/crawler.py:239-242 | page k is requested at `?start=20k&limit=20` and gives `Page(k)` |
| `Crawler.DoubanCrawler.CrawlPages` | src/crawler.py:231-258 | the paging loop leaves `CrawlFrom(old comments, url, 0, 0, max)` |
| `Crawler.DoubanCrawler.CrawlComments` | src/crawler.py:206-268 | nothing when the browser does not start, the search finds nothing or the address has no id; otherwise the paging result, appended to the comments already held |
| `Crawler.TxtName` | src/crawler.py:308-309 | the name ends in `.txt`; unchanged when it did, otherwise `.txt` is appended |
| `Crawler.ReplaceLastTxt` | src/crawler.py:324 | replacing `.txt` in a path ending in `.txt` turns that ending into `.json` |
| `Crawler.JsonBesideText` | src/crawler.py:308-324 | the JSON path is the text path with every `.txt` replaced by `.json`, and ends in `.json` |
| `Crawler.RecordText` | src/crawler.py:316-321 | the record written for one comment is its time line, user line, rating line when truthy, content line and 50 dashes |
| `Crawler.DoubanCrawler.WriteRecord` | src/crawler.py:316-321 | the lines written for one comment are `Record(comment)` |
| `Crawler.DoubanCrawler.SaveComments` | src/crawler.py:296-331 | the path is `data/<name>.txt` (`.txt` added if missing), the text is `Format(comments)`, the JSON path is the text path with `.txt` replaced by `.json` |
| `WordCloudGenerator.CreateWordcloudArgs` | src/wordcloud_generator.py:85-110 | each given width, height, background, max words and colormap replaces its default; the other settings are the `WORDCLOUD_CONFIG` values, relative scaling 0.5, random state 42, no collocations |
| `WordCloudGenerator.Side` | src/wordcloud_generator.py:384-390 | each side of the split is a well-formed dict |
| `WordCloudGenerator.SideContents` | src/wordcloud_generator.py:384-390 | a side holds exactly the words of its script, in input order, with their frequencies |
| `WordCloudGenerator.SplitByScript` | src/wordcloud_generator.py:381-390 | the loop fills `zh_words` and `en_words` with the two sides |
| `WordCloudGenerator.SplitCorrect` | src/wordcloud_generator.py:384-390 | a word is in `zh_words` iff it has a character in U+4E00–U+9FFF, in `en_words` iff it is an input word without one; frequencies are unchanged |
| `WordCloudGenerator.SidesJoin` | src/wordcloud_generator.py:381-390 | the union of the two sides' mappings is the input mapping |
| `WordCloudGenerator.CreateMultilingualWords` | src/wordcloud_generator.py:369-397 | the combined words have the input mapping, CJK words first, and the default settings |
| `WordCloudGenerator.FrameName` | src/wordcloud_generator.py:339 | a frame name starts with `wordcloud_`, ends with `.png` and is relative |
| `WordCloudGenerator.FrameNameInjective` | src/wordcloud_generator.py:339 | different (index, time key) pairs give different file names |
| `WordCloudGenerator.SortedTimes` | src/wordcloud_generator.py:327 | the time keys in increasing order, each once |
| `WordCloudGenerator.Frames` | src/wordcloud_generator.py:329-340 | at most one frame per time key |
| `WordCloudGenerator.FramesMembers` | src/wordcloud_generator.py:329-340 | a path is planned iff it is the frame of some position whose counter is non-empty, indexed by its position among all sorted keys |
| `WordCloudGenerator.FramesDistinct` | src/wordcloud_generator.py:329-340 | no path is planned twice |
| `WordCloudGenerator.CreateTimeWordcloudAnimation` | src/wordcloud_generator.py:316-340 | the loop plans exactly `Frames(sorted keys)`: empty counters skipped, indices counted over all keys |
| `WordCloudGenerator.AnimationPlanCorrect` | src/wordcloud_generator.py:327-340 | the planned paths are exactly the saved frames, each once |
| `PyDict.Put` | src/text_analyzer.py:248 | `d[k] = v`: the mapping is updated, a new key goes last, an existing key keeps its place |
| `PyDict.TallyCounts` | src/text_analyzer.py:251 | `Counter(xs)` lists exactly the items of `xs`, each with its number of occurrences |
| `PyDict.FilterValues` | src/knowledge_graph.py:164 | a dict comprehension over items keeps exactly the entries whose value passes, unchanged, in order |
| `PyDict.BumpAllCounts` | src/text_analyzer.py:248 | `Counter.update(xs)` adds each item's occurrences to its count |
| `PyDict.TallySum` | src/text_analyzer.py:437 | the counts of `Counter(xs)` add up to `len(xs)` |
| `PyDict.TallySize` | src/text_analyzer.py:438 | `len(Counter(xs))` is the number of distinct items |
| `PyDict.UpdateFresh` | src/wordcloud_generator.py:393-395 | `a.update(b)` for disjoint keys appends `b`'s keys and adds its entries |
| `PyDict.UpdateIntoEmpty` | src/wordcloud_generator.py:393-394 | `{}.update(b)` equals `b` |
| `StableSort.SortCorrect` | src/knowledge_graph.py:536 | the sort orders by key, is a permutation, and keeps the relative order of elements with equal keys |
| `StableSort.SortStringsCorrect` | src/wordcloud_generator.py:327 | `sorted` of distinct strings is strictly increasing and a permutation |
| `PyStr.Strip` | src/text_analyzer.py:225 | the result has no white space at either end |
| `PyStr.StripPadded` | src/text_analyzer.py:176 | white space added around a stripped string is removed by strip |
| `PyStr.Find` | src/knowledge_graph.py:157 | `find` returns -1 iff there is no occurrence, otherwise the first occurrence |
| `PyStr.PySlice` | src/knowledge_graph.py:538 | Python's slice with bound normalisation, empty when the bounds cross |
| `PyStr.SlicePrefix` | src/knowledge_graph.py:538 | `s[:n]` is a prefix of length min(n, len) for n >= 0 |
| `PyStr.JoinSplit` | src/text_analyzer.py:176 | joining a split with the same separator restores the text |
| `PyStr.SplitJoin` | src/text_analyzer.py:176 | splitting lines joined by a newline gives the lines back when none holds one |
| `PyStr.ReplaceAbsent` | src/crawler.py:324 | `replace` leaves a text without the target unchanged |
| `PyStr.ReplaceMarker` | src/text_analyzer.py:191 | taking the tag out of `tag + " " + v` leaves `" " + v` when `v` has no tag copy |
| `PyStr.PathJoin` | src/crawler.py:311 | POSIX `os.path.join`: an absolute name replaces the directory, otherwise the path starts with the directory and ends with the name |
| `PyStr.PathJoinInjective` | src/wordcloud_generator.py:340 | joining one directory with two relative names gives the same path only for the same name |
| `PyStr.LexTotal` | src/knowledge_graph.py:230 | of two different strings one is smaller |
| `PyStr.LexTransitive` | src/knowledge_graph.py:230 | string order is transitive |
| `PyStr.NatToStringValue` | src/crawler.py:202 | `int(str(n)) == n` |
| `PyStr.ZeroPad` | src/wordcloud_generator.py:339 | `f"{i:03d}"` is all digits, at least 3 long, zeros then the decimal form |
| `PyStr.ZeroPadValue` | src/wordcloud_generator.py:339 | the zero-padded index reads back as the index |

## Left out

- I/O: reading and writing files, `os.makedirs`, `json.load`/`json.dump` and the font search on disk are not modelled. File text and decoded JSON records are parameters (`None` when the read or decode fails), and written text is returned as a string.
- Selenium, the network, `time.sleep`, random user agents and `search_content` (src/crawler.py:62-120) are left out. A page is the list of comment elements a browser finds, given as a function of the page address. Whether the browser started and the address found by the search are parameters.
- A comment element that raises while it is read is modelled as an element without content, which is skipped as the source skips it. An exception in the middle of `crawl_comments` (the source then returns [] but keeps what it had appended) is not modelled.
- jieba (segmentation, POS tagging, custom words, keyword extraction) and SnowNLP are given as functions. `extract_keywords` and its merged float scores are left out.
- `_extract_time_key` (date parsing) and `datetime.now()` are given as a period function and a `today` string.
- Floating-point statistics are left out: the means, standard deviations and ratios of `get_sentiment_summary`, `analyze_sentiment_by_rating` and the graph metrics. Graph density, communities and the node_limit selection for drawing are also left out.
- All plotting, HTML, pyvis and WordCloud rendering are left out, including masks and the `font_path`/`mask` arguments of `create_wordcloud`. The `save_*_results` writers are left out, except the relation-key format and integer statistics of `save_graph_data`.
- `top_words` and `keywords` of `get_analysis_report` are left out (its integer fields and its average are modelled).
- Ratings are held as integer tenths (`allstar50` is 50, written "5.0"). Reading them back gives exact decimals; Python holds the nearest binary float.
- The `extract_entities` variable `cleaned_content` (src/knowledge_graph.py:131) is computed but never used by the source, so it is not modelled.
- `main()` and demo scripts are left out.
- `CommentFile.ParseFloat`: only `[sign]digits[.digits]` decimals are accepted. Exponents, `inf`, `nan`, underscores and surrounding white space (already stripped by the caller) give no value, while Python accepts some of them. Non-ASCII decimal digits (`４.５`, `٤.٥`), which `float()` reads as 4.5, give no value either, so such a rating line reads as unparsable.
- `TextAnalyzer.Report`: `avg_words_per_comment` is the exact quotient of words by comments, and 0 without comments. Python computes the nearest binary float, and gives the integer 0 without comments.
- `TextAnalyzer.ReportOfAnalysis`: the average it states is the exact quotient, not Python's nearest binary float of src/text_analyzer.py:439.
- `SentimentAnalyzer.LabelOf`: the thresholds are the exact decimals 0.6 and 0.4. Python compares with the nearest binary floats (slightly below 0.6 and slightly above 0.4), so a score equal to one of those floats is positive or negative there and neutral here.
- `PyStr.IsDigits`: only ASCII digits count. Python's `isdigit` also accepts other Unicode digits.
- `Crawler.FirstRatingMatch`, `Crawler.ExtractRating`, `Crawler.FirstSubjectMatch` and `Crawler.CommentsUrl`: the regular-expression class `\d` (src/crawler.py:200 and :278) matches any Unicode decimal digit, while the model matches ASCII digits only.
- `CommentFile.RatingText`: it writes the tenths as digits, '.', one digit. Python's `str(t / 10)` writes that for all ratings an `allstar` class gives in practice, but once `t / 10` reaches 2^49 (from about 5.6·10^15 tenths) neighbouring floats are an eighth apart and the printed tenth can differ (5629499534213123 tenths print as `562949953421312.2`), and from a value of 10^16 on it writes an exponent form. That is not modelled.
- `PyStr.PathJoin`: POSIX `os.path.join` only.
- `Crawler.DoubanCrawler.constructor`: `max_comments` is a natural number. A negative target behaves like 0 in the source's loop, which is not modelled.
- `WordCloudGenerator.CreateWordcloudArgs`: `WORDCLOUD_CONFIG` is an immutable value, so the source's copy at src/wordcloud_generator.py:85 is implicit and the default cannot be modified by construction.
- `KnowledgeGraph.KnowledgeGraphBuilder.GetEntityRecommendations`: the in-place `list.sort` is modelled by the stable sort function on a sequence, not as an in-place array sort.
- `KnowledgeGraph.KnowledgeGraphBuilder.GetEntityRecommendations`: the print loop of src/knowledge_graph.py:541-543 looks up each neighbour's type in the entity dict. It raises `KeyError` when a neighbour node is no longer an entity, for example after a later `extract_entities` on other comments. The model returns the list in that case.
- `SentimentAnalyzer.SentimentSummary`: only the counts are modelled, not the float averages and ratios.

## Findings

| source | as written | input that shows it | evidently intended | confidence | as-written member | corrected member |
|---|---|---|---|---|---|---|
| src/sentiment_analyzer.py:398 | `zip(self.comments_data, self.sentiment_scores)` pairs comments and scores by position, but the scores skip comments with empty content or a failed score | comments `[{"content": ""}, {"content": "好看"}]` with every score 0.9: the empty comment is paired with the score of "好看" | each score paired with the comment it was computed from | high, not executed | `SentimentAnalyzer.ZipMisaligned` | `SentimentAnalyzer.ExtremesCorrect` |
| src/sentiment_analyzer.py:405 | `sorted_pairs[-n_positive:][::-1]`; for `n_positive = 0` the slice `[-0:]` is the whole list | `get_extreme_comments(n_positive=0)` with any scores lists every comment as most positive | no positive comments for `n_positive = 0`; a negative `n_positive` keeps the source's slice (`MostPositiveOnlyZero`) | medium, not executed | `SentimentAnalyzer.ZeroPositiveAsWritten` | `SentimentAnalyzer.MostPositive` |
