# information-retrieval, modelled in Dafny

A model of the indexing and ranking core of andremourato/information-retrieval,
a student search engine over the CORD-19 metadata. The model covers these parts:

- **SPIMI block builder.** `Indexer.indexer` (assignment/Indexer.py):
  - builds a positional index (term → docID → token positions) from the rows that have an abstract;
  - counts document lengths and the total number of tokens;
  - writes a key-sorted block every `BLOCK_SIZE_LIMIT` documents, numbering blocks from 1;
  - then merges the blocks.
- **Block merge.** `Spimi.sort_terms` and `Spimi.merge_blocks`, in both variants:
  - assignment/Spimi.py tracks a `sizes` list and a `num_completed` counter;
  - assignment/spimi.py tracks a `completed` set.

  One cursor runs per block. Each step takes the least current term, merges the postings of every block tied on it with `dict.update`, and cuts the output into segments of `floor(T/N)` terms.
- **Counting indexers.** The `indexer`s of:
  - assignment/assignment.py (document → term → count);
  - assignment/indexer.py (term → document → count, dumped in blocks);
  - assignment1/assignment.py (term → count and term → documents). Its two document-frequency reports are modelled too.
- **Weighting:**
  - `lnc_calculation` (normalised 1 + log10 tf, and idf = log10(N/df));
  - `bm25_avdl`, `bm25_weighting` and `bmc_pre_calculation`.
- **Query scoring.** Five variants:
  - the `ltc_calculation`s of assignment/assignment.py, ranked_retrieval.py and lnc_ltc_ranking.py. They share one model, and query weights persist across queries;
  - the `ltc_calculation` of vector_space_ranking.py, which uses query tf, ltc normalisation and a per-occurrence score;
  - the BM25 `bm25_weighting` of bmc_ranking.py, where each token is scored only the first time it is seen.

  Each ends with the stable descending sort of the scores.
- **Tokenizer helpers:**
  - `remove_non_alpha` and the per-line transformation of `load_queries` (assignment/utils.py);
  - `remove_chars`, `filter_stop_words` and `simple_tokenizer` (assignment1/assignment.py).

Python dictionaries whose iteration order can be observed are `Dicts.Dict<V>`: a sequence of (key, value) pairs with distinct keys. This covers blocks, the merge accumulator, score dictionaries and `document_terms`. Its `Put` replaces a value in place or appends a new key, as CPython does. Other dictionaries are Dafny `map`s. Python's string `<` is `Lex.Below`, the lexicographic order on characters.

The mathematics sits behind a parameter `math: RealMath.Math` with two fields, `log10` and `sqrt`. The predicate `RealMath.Lawful` states the laws the proofs use. A `ZeroDivisionError`, `KeyError`, `IndexError` or `UnboundLocalError` the source can raise on its inputs is a `Failure` of `Errors.Result`.

Modules:

| module | file | role |
|---|---|---|
| `Lex`, `Dicts`, `Errors`, `RealMath`, `Sorting` | lex.dfy, dicts.dfy, errors.dfy, realmath.dfy, sorting.dfy | string order, ordered dicts, errors, sums over maps, stable sorts |
| `Blocks` | blocks.dfy | shared definitions of the merge: cursors, ties, unions, the invariant, segments |
| `Spimi`, `SpimiSet` | spimi.dfy, spimi_set.dfy | the two `merge_blocks` variants and `sort_terms` |
| `BlockIndexer` | block_indexer.dfy | the `Indexer` class of assignment/Indexer.py |
| `Tokenizer` | tokenizer.dfy | the string helpers |
| `Counting` | counting.dfy | the three counting indexers and the reports |
| `Weighting`, `Bm25` | weighting.dfy, bm25.dfy | lnc, idf, avdl and BM25 document weights |
| `Ranking`, `LtcScoring`, `VectorSpace`, `BmcRanking` | ranking.dfy, ltc_scoring.dfy, vector_space.dfy, bmc_ranking.dfy | query scoring and ranking |

## Model

| member | source | states |
|---|---|---|
| Lex.LowercaseBelowSentinel | assignment/Spimi.py:28 | every string of lower-case letters is below the "{" sentinel that starts each scan |
| Dicts.FirstOccurrence | assignment1/assignment.py:52-53 | the key order of a dict assigned keys one after another: each key once, exactly the keys assigned |
| Dicts.FirstOccurrenceOrder | assignment1/assignment.py:52-53 | a key listed before another occurs before every occurrence of the other: the listing is by first occurrence |
| Sorting.SortByKey | assignment/Spimi.py:11 | `sorted(terms.keys())` reordering: keys strictly increasing, same multiset of entries, same key set |
| Sorting.SortByKeySameMapping | assignment/Spimi.py:11 | every key keeps its own postings after sorting |
| Sorting.SortWords | assignment/indexer.py:107 | `sorted(...)` of distinct words: strictly increasing, same length, same members |
| Sorting.SortBySpec | assignment/assignment.py:120 | the stable sort by key: ascending in the key, a permutation, and entries with equal keys keep their relative order |
| Ranking.RankedSpec | assignment/assignment.py:120 | ranking scores: highest first, same entries, same doc → score map, ties in input order (the same sort ends every ranking variant) |
| Spimi.TermDict.constructor | assignment/Indexer.py:77 | the term index starts empty |
| Spimi.SortTerms | assignment/Spimi.py:10-13 | result keys strictly increasing, result is a permutation of the old entries, and the argument is emptied (spimi.py has the identical `sort_terms`) |
| Spimi.ScanLowest | assignment/Spimi.py:28-43 | the first scan fails with IndexError exactly when some block is empty (and records every block size); otherwise it yields the least current term of the non-exhausted blocks and the ascending list of exactly the blocks positioned on it |
| Spimi.LowestListed | assignment/Spimi.py:28-42 | a block index is in `lowest_indexes` iff that block is active and on the least term |
| Spimi.AdvanceCursors | assignment/Spimi.py:45-56 | each listed cursor moves by exactly one and others stay; `num_completed` is the number of exhausted blocks; a new term enters the accumulator with the union of the tied blocks' postings |
| Spimi.Accumulate | assignment/Spimi.py:52-55 | a term already present has `update` applied in place (length unchanged, and when it is the last entry its postings become the old ones updated with the block's); a new term is appended with its postings |
| Spimi.AccumulatePresent | assignment/Spimi.py:52-53 | for a term already present anywhere in the accumulator, the key order is unchanged and only that term's postings change, to the old postings updated with the block's |
| Spimi.MergeBlocks | assignment/Spimi.py:17-63 | N = 0 raises ZeroDivisionError; an empty block raises IndexError; otherwise segments are full except the last; with sorted blocks, every term is written exactly once, in increasing order, with the union of its postings |
| Spimi.WriteSegment | assignment/Spimi.py:58-63 | a full or final accumulator is written as the next segment and emptied; no entry is lost or added |
| Spimi.SortedStep | assignment/Spimi.py:28-56 | one iteration keeps the merge invariant: emitted terms increase, consumed terms are emitted with their full union, and cursors lie above everything emitted |
| Spimi.MergeDone | assignment/Spimi.py:27 | when every block is exhausted, the written segments satisfy the merge specification |
| Blocks.Completion | assignment/Spimi.py:27-56 | after exhaustion the emitted terms are exactly the terms of the blocks |
| Blocks.SegmentsOrdered | assignment/Spimi.py:59-62 | every term of an earlier segment is below every term of a later one |
| Blocks.UnionDocs | assignment/Spimi.py:52-55 | a docID appears under a merged term iff some block lists it under that term |
| Blocks.UnionLastWins | assignment/Spimi.py:53 | on a docID shared by several blocks the last block's positions win (`dict.update`) |
| Blocks.RemainingDecreases | assignment/Spimi.py:45-49 | each iteration consumes at least one term, so the loop terminates |
| SpimiSet.DoneSetSize | assignment/spimi.py:25-26 | the size of `completed` equals the number of exhausted blocks |
| SpimiSet.ScanLowest | assignment/spimi.py:27-39 | scans only blocks not in `completed`; the first scan raises IndexError exactly when a block is empty; it finds the least current term and all blocks tied on it |
| SpimiSet.AdvanceCursors | assignment/spimi.py:41-51 | tied cursors move by one; `completed` only grows and is exactly the set of exhausted blocks; postings are unioned into the accumulator |
| SpimiSet.MergeBlocks | assignment/spimi.py:18-58 | the same outcome as the other variant: errors for N = 0 and empty blocks, segments of `floor(T/N)`, and every term once, in order, with its union |
| BlockIndexer.OccurrencesSpec | assignment/Indexer.py:113-118 | the position list of a token is strictly increasing, holds exactly the indices where the token occurs, and its length is the term frequency |
| BlockIndexer.AddPosting | assignment/Indexer.py:113-118 | `term_index[tok][doc]` gets the position appended, created when missing, and keys stay distinct |
| BlockIndexer.AddPositionFacts | assignment/Indexer.py:113-118 | one recorded position changes only `tok`'s list for `doc` |
| BlockIndexer.AddDocPositions | assignment/Indexer.py:92-118 | after a document, its position list for every term is the occurrence list of that term |
| BlockIndexer.AddDocOthers | assignment/Indexer.py:92-118 | indexing a document leaves the other documents' postings unchanged |
| BlockIndexer.IndexDocsPositions | assignment/Indexer.py:92-118 | over distinct documents, a block's positions for (term, doc) are that document's occurrences |
| BlockIndexer.IndexDocsTerms | assignment/Indexer.py:113-114 | a term is in a block iff some document of the block has it |
| BlockIndexer.IndexDocsNone | assignment/Indexer.py:115-116 | a document outside the block has no postings in it |
| BlockIndexer.AddLength | assignment/Indexer.py:99-102 | the document's length grows by its token count; a document with no tokens gets no entry |
| BlockIndexer.DocLengthsSum | assignment/Indexer.py:94-102 | the document lengths sum to the number of tokens counted |
| BlockIndexer.AvdlTokens | assignment/Indexer.py:186-198 | avdl times the number of documents equals the total token count |
| BlockIndexer.RunsPartition | assignment/Indexer.py:120-123 | kept rows split into `D div L` full runs followed by a rest of `D mod L` rows |
| BlockIndexer.WrittenBelowSentinel | assignment/Indexer.py:131 | blocks built from tokenizer output only hold terms below the merge's sentinel |
| BlockIndexer.Indexer.constructor | assignment/Indexer.py:32-40 | counters start at 0 and the length index starts empty |
| BlockIndexer.Indexer.IndexTokens | assignment/Indexer.py:92-118 | `num_tokens` grows by the token count, the document's length is recorded, and every token's position is appended |
| BlockIndexer.Indexer.AddRow | assignment/Indexer.py:85-123 | the body of the loop for one row: the row's tokens are indexed, and every `L`-th call increments `num_blocks` and writes the sorted index as the next block (rows without an abstract are skipped by the caller, see `WriteBlocks`) |
| BlockIndexer.Indexer.WriteLast | assignment/Indexer.py:124-127 | a final block is written only when the index is non-empty |
| BlockIndexer.Indexer.WriteBlocks | assignment/Indexer.py:83-127 | `num_tokens` is the total token count; `document_length_index` holds the kept documents' lengths; block `k` holds the sorted index of the `k`-th run; `num_blocks` counts the blocks |
| BlockIndexer.Indexer.Bm25Avdl | assignment/Indexer.py:186-198 | ZeroDivisionError iff no document has a length; otherwise avdl × count = sum of lengths |
| BlockIndexer.Indexer.Index | assignment/Indexer.py:43-131 | everything `WriteBlocks` states, then `merge_blocks(num_blocks, num_tokens)`: ZeroDivisionError without blocks, IndexError when some block is empty, otherwise the merge specification of those blocks |
| Tokenizer.LowerChar | assignment/utils.py:6 | a letter becomes lower-case and every other character is unchanged |
| Tokenizer.Lower | assignment/utils.py:6 | `str.lower` keeps the length and lowers each character |
| Tokenizer.RemoveChars | assignment1/assignment.py:26-27 | keeps the length; letters are kept and every other character becomes a space |
| Tokenizer.Split | assignment/utils.py:6 | `str.split()` yields non-empty space-free words made of the input's characters |
| Tokenizer.SplitConcat | assignment/utils.py:6 | the split words, concatenated, are the input's non-space characters in order |
| Tokenizer.SplitJoin | assignment/utils.py:6 | splitting words joined by single spaces gives those words back |
| Tokenizer.RemoveNonAlpha | assignment/utils.py:5-6 | every token is a non-empty run of lower-case letters |
| Tokenizer.LettersInOrder | assignment/utils.py:6 | the tokens, concatenated, are the input's letters, lowered, in order |
| Tokenizer.NoLettersNoTokens | assignment/utils.py:6 | a string without letters yields no tokens |
| Tokenizer.RemoveNonAlphaIdempotent | assignment/utils.py:6 | applying it to its space-joined output returns the same tokens |
| Tokenizer.LowerRemovedIsRemovedLower | assignment1/assignment.py:37 | lowering and blanking non-letters commute |
| Tokenizer.FilterStopWords | assignment1/assignment.py:29-30 | every kept word is a non-stopword of length ≥ 3 |
| Tokenizer.FilterMembers | assignment1/assignment.py:29-30 | a word survives iff it is in the input, is not a stopword and has length ≥ 3 |
| Tokenizer.FilterAppend | assignment1/assignment.py:29-30 | filtering keeps order: it distributes over concatenation |
| Tokenizer.SimpleTokenizer | assignment1/assignment.py:32-37 | one list per document, and list `d` is exactly the words of length at least 3 of document `d`'s lower-cased letter runs, in order (so every token is lower-case, alphabetic and at least 3 characters long) |
| Tokenizer.QueryTokens | assignment/utils.py:14-17 | the query tokens are the stemmed `remove_non_alpha` tokens of the filtered words |
| Tokenizer.QueryLetters | assignment/utils.py:14-17 | before stemming, the query tokens spell out exactly the lower-cased letters of the words that pass the length and stopword filter, in order |
| Tokenizer.ShortQueryToken | assignment/utils.py:14-17 | filtering precedes `remove_non_alpha`, so "x-ray" yields the short token "x" |
| Counting.Incr | assignment/assignment.py:67-70 | `row[b] += 1`, starting from 0 when missing; other entries unchanged |
| Counting.Bump | assignment/assignment.py:65-70 | the two-level increment creates a missing row and bumps one count |
| Counting.BumpGet | assignment/indexer.py:93-98 | one increment raises exactly one count by one |
| Counting.CountToken | assignment/assignment.py:65-70 | exactly the count of (doc, tok) rises by one, created at 1 when missing; the document keeps its place in `term_index`, or is appended when new |
| Counting.CountRow | assignment/assignment.py:53-70 | one row adds its token counts and its length; a row with tokens appends its document to `term_index` unless already there, a row without tokens leaves the keys alone |
| Counting.DocTermIndex | assignment/assignment.py:19-72 | `term_index` is the count table of all kept rows by document, listing the documents in the order they first counted a token; `document_length_index` holds their lengths |
| Counting.CountTokensGet | assignment/assignment.py:61-70 | counting one document adds its multiset count to exactly its own cells |
| Counting.CountDocsTf | assignment/assignment.py:65-70 | the stored count of (doc, term) is its term frequency, and an entry exists iff it is positive (also for the term → document table of indexer.py) |
| Counting.CountDocsStored | assignment/assignment.py:65-70 | no row is empty and no count is zero |
| Counting.CountDocsLengthKeys | assignment/assignment.py:61-70 | the count table and the length index have the same documents |
| Counting.CountDocsRowSum | assignment/assignment.py:61-70 | a document's counts sum to its length |
| Counting.CountTermDoc | assignment/indexer.py:93-98 | the increment of `term_index2[tok][doc]` |
| Counting.CountTermRow | assignment/indexer.py:71-98 | one row adds its counts by term and its length |
| Counting.TermDocIndex | assignment/indexer.py:19-110 | with no rows, UnboundLocalError (after the last dump); otherwise the returned `term_index` is empty and the lengths are the kept rows' token counts; each dumped block counts exactly the rows since the previous flush; the final dump lists the leftover terms, sorted and distinct |
| Counting.PiecesPartition | assignment/indexer.py:100-105 | the flushed blocks and the leftover partition the rows, one block per flush |
| Counting.MarkDoc | assignment1/assignment.py:52-54 | `document_index[t][docID] = True`, creating the entry when missing; `t` keeps its place, or is appended when new |
| Counting.CountIndex | assignment1/assignment.py:43-55 | `count_index[t]` is the total number of occurrences of `t`; `document_index[t]` is exactly the set of positions of lists containing `t`; both have the same keys; `document_index` lists the terms in the order of their first occurrence (which decides the ties of line 95); counts sum to the total token count |
| Counting.DfAtMostCount | assignment1/assignment.py:46-54 | a term's document frequency never exceeds its occurrence count |
| Counting.DfOne | assignment1/assignment.py:91 | exactly the terms with document frequency 1 |
| Counting.FirstDfOne | assignment1/assignment.py:91 | at most ten terms, fewer only when fewer terms have document frequency 1 |
| Counting.FirstDfOneSpec | assignment1/assignment.py:91 | the report is alphabetical, has document frequency 1, and is below every omitted such term |
| Counting.FirstTenSpec | assignment1/assignment.py:91 | `[:10]` of a sorted list is the alphabetically least ten |
| Counting.DfOneDistinct | assignment1/assignment.py:91 | the report has no repeated term |
| Counting.TopDf | assignment1/assignment.py:95 | `[-10:]` after the stable sort by document frequency: ten terms, or all when fewer |
| Counting.TopDfSpec | assignment1/assignment.py:95 | the report's terms are index terms, in ascending document frequency, none lower than any omitted term |
| Counting.LastTenSpec | assignment1/assignment.py:95 | over a list in ascending document frequency, the last ten are the ones with the highest frequency |
| Weighting.LogTfAtLeastOne | assignment/indexer.py:161 | 1 + log10(tf) ≥ 1 for every positive count |
| Weighting.NormableIff | assignment/indexer.py:167 | the norm is positive iff the document has a term |
| Weighting.LncUnit | assignment/indexer.py:159-171 | a document's normalised lnc weights are positive and their squares sum to 1 |
| Weighting.StackAt | assignment/indexer.py:162-164 | the term-by-document table has (t, d) iff document d has term t, with d's weight for t |
| Weighting.IdfOverAt | assignment/indexer.py:172-175 | the idf list, though overwritten per document, ends as log10(N/df) with df the final document frequency, for exactly the indexed terms |
| Weighting.RawWeights | assignment/indexer.py:159-164 | the raw 1 + log10 tf weights, stored in both orientations |
| Weighting.SumSquares | assignment/indexer.py:167 | the loop computes the sum of squared weights |
| Weighting.LncDocument | assignment/indexer.py:157-175 | one document: ZeroDivisionError iff it has no terms; otherwise its lnc weights are stored and its terms' idf recomputed |
| Weighting.LncCalculation | assignment/indexer.py:120-177 | ZeroDivisionError iff some document has no terms; otherwise the table holds every (term, doc) lnc weight and the idf list log10(N/df) |
| Weighting.LncCalculationBoth | assignment/assignment.py:74-95 | the same, plus the by-document weights; an empty document raises KeyError instead |
| Weighting.LncDoneAt | assignment/assignment.py:82-94 | the table has an entry iff the document has the term, it is the lnc weight, and the idf list has the same keys as the table |
| Weighting.LncColumn | assignment/assignment.py:88-90 | each document's column of the table equals its lnc weights |
| Weighting.LncColumnUnit | assignment/indexer.py:170-171 | each non-empty document's column is a unit vector |
| Bm25.Avdl | assignment/indexer.py:179-191 | ZeroDivisionError iff the length index is empty; otherwise avdl × count = sum of lengths (bmc_ranking.py has the identical `bm25_avdl`) |
| Bm25.AvdlBounds | assignment/indexer.py:190-191 | the average lies between 0 and the longest length |
| Bm25.WeightInRange | assignment/indexer.py:241-244 | with non-negative k, b in [0,1] and positive avdl, the only error is KeyError, raised iff the idf or the length is missing; the weight is idf × saturation |
| Bm25.SaturationBounds | assignment/indexer.py:242-243 | the tf factor lies in (0, k + 1] |
| Bm25.WeightMonotone | assignment/indexer.py:241-244 | with non-negative idf, the weight does not decrease as tf grows |
| Bm25.Document | assignment/indexer.py:237-244 | one document: fails iff one of its terms fails, with that term's error; otherwise its weights are spread into the table |
| Bm25.Bm25Weighting | assignment/indexer.py:193-245 | fails iff some pair fails, with the first failing document's error; otherwise the table is the BM25 weight of every (term, document) pair |
| Bm25.WeightsAt | assignment/indexer.py:236-244 | the table has (t, d) iff document d has term t, and holds its BM25 weight |
| Bm25.PreCalculation | assignment/indexer.py:248-282 | an empty length index raises ZeroDivisionError; otherwise BM25 with k = 1.2, b = 0.75 and avdl the mean length |
| Bm25.DefaultsOnlyKeyError | assignment/indexer.py:278-282 | with the defaults and a positive avdl, only KeyError can arise, exactly on a missing idf or length |
| LtcScoring.Ltc | assignment/assignment.py:97-122 | both weight tables hold the weight of every token of every query for every document; the scores of query `i`, under key `i`, rank documents by their stored weights over queries `0..i`; keys start at 0 (ranked_retrieval.py) or 1 (lnc_ltc_ranking.py), which share this code |
| LtcScoring.StorePair | assignment/assignment.py:106-117 | the pair's weight is stored in both tables: idf × document weight if the document has the token, else 0 |
| LtcScoring.StoreToken | assignment/ranked_retrieval.py:17-30 | after one token, both tables cover it for every document |
| LtcScoring.StoreQuery | assignment/ranked_retrieval.py:15-30 | after one query, the tables cover every token seen so far |
| LtcScoring.TotalsOf | assignment/ranked_retrieval.py:32 | each row's score is the sum of its values, in row order |
| LtcScoring.Mirror | assignment/ranked_retrieval.py:26-30 | `query_document_weights[t][d]` and `document_query_weights[d][t]` always hold the same value |
| LtcScoring.RowsCover | assignment/lnc_ltc_ranking.py:17-23 | once any token is processed, every document has a row holding exactly the tokens seen |
| LtcScoring.ScoreOf | assignment/lnc_ltc_ranking.py:32-33 | scores are descending; empty before any token; otherwise every document is scored by the sum of its weights over all tokens seen |
| LtcScoring.ScoreCarriesOver | assignment/ranked_retrieval.py:11-13 | tables are never reset: a later query's score is the earlier one plus the new tokens' weights |
| LtcScoring.RowSplit | assignment/ranked_retrieval.py:32 | a row's sum splits over disjoint token sets |
| VectorSpace.CountTokens | assignment/vector_space_ranking.py:16-20 | the query's token counts are its multiset counts |
| VectorSpace.CountQueries | assignment/vector_space_ranking.py:12-21 | queries are numbered 1..n and each gets its token counts |
| VectorSpace.TfPositive | assignment/vector_space_ranking.py:17-20 | every query token has a positive count |
| VectorSpace.RawQuery | assignment/vector_space_ranking.py:31-33 | KeyError iff some token lacks an idf; otherwise (1 + log10 tf) × idf per distinct token |
| VectorSpace.WeightsExist | assignment/vector_space_ranking.py:31-40 | an empty query raises ZeroDivisionError; a token without idf raises KeyError; otherwise the weights exist iff some token has non-zero idf |
| VectorSpace.RawZero | assignment/vector_space_ranking.py:33 | a raw weight is 0 iff the token's idf is 0 |
| VectorSpace.Renormalise | assignment/vector_space_ranking.py:39-40 | each occurrence multiplies its token's weight by the norm factor once more |
| VectorSpace.RepeatedSnoc | assignment/vector_space_ranking.py:39-40 | one more occurrence multiplies exactly that token's weight by the factor |
| VectorSpace.DistinctUnit | assignment/vector_space_ranking.py:36-40 | without repeated tokens, the query weights form a unit vector |
| VectorSpace.ScoresOf | assignment/vector_space_ranking.py:43-49 | every document gets a score, in document order |
| VectorSpace.ScoreDocument | assignment/vector_space_ranking.py:45-49 | the accumulated score of one document is its specified score |
| VectorSpace.ScoreDocuments | assignment/vector_space_ranking.py:43-49 | the loop produces the specified scores for all documents |
| VectorSpace.ScoreGrouped | assignment/vector_space_ranking.py:46-49 | a score is, over distinct shared tokens, occurrence count × query weight × document weight: repeats add repeatedly |
| VectorSpace.Unrelated | assignment/vector_space_ranking.py:45-48 | a document sharing no query token keeps score 0 |
| VectorSpace.Query | assignment/vector_space_ranking.py:27-51 | one query's weights and ranked scores are its specified answer |
| VectorSpace.AnswerRanks | assignment/vector_space_ranking.py:43-51 | the ranked scores are descending, cover every document, and give each its document score |
| VectorSpace.LtcCalculation | assignment/vector_space_ranking.py:10-54 | fails iff some query fails, with the first failing query's error; otherwise query `i + 1` holds query `i`'s weights and ranked scores |
| BmcRanking.PairWeightFails | assignment/bmc_ranking.py:28-32 | with sane parameters a pair fails iff the idf is missing (KeyError), zero (ZeroDivisionError) or the length is missing (KeyError) |
| BmcRanking.WeightedSpec | assignment/bmc_ranking.py:28-32 | a token's postings fail iff some pair fails, with the first failure; otherwise each document gets its pair weight |
| BmcRanking.Weighted | assignment/bmc_ranking.py:28-32 | the weights follow the postings' document order |
| BmcRanking.AddRowAt | assignment/bmc_ranking.py:33-35 | a document's score gains exactly its weight; documents enter iff they have a weight |
| BmcRanking.AddScore | assignment/bmc_ranking.py:33-35 | a new document enters with 0 and then gains the weight |
| BmcRanking.WeighToken | assignment/bmc_ranking.py:26-35 | a first-seen token's weights and score additions, KeyError when it has no postings |
| BmcRanking.RunQuery | assignment/bmc_ranking.py:24-35 | one query's loop is its specified run |
| BmcRanking.RunKeys | assignment/bmc_ranking.py:24-32 | the weights gain exactly the query's tokens, and existing entries are never recomputed |
| BmcRanking.RunScore | assignment/bmc_ranking.py:24-35 | a document's score is the sum of the weights of the tokens new to this query, each counted once |
| BmcRanking.AnswersKeys | assignment/bmc_ranking.py:24-26 | after all queries, the weights are keyed by exactly the tokens used |
| BmcRanking.QueryScore | assignment/bmc_ranking.py:20-37 | a query's scores are descending, list exactly the documents with a newly seen token, and give each the sum of those weights |
| BmcRanking.Bm25Weighting | assignment/bmc_ranking.py:17-39 | fails iff the run fails, with the same error; otherwise the weights and, under keys 1..n, each query's ranked scores |

## Left out

- File, CSV and JSON I/O. Rows, stopword lists, blocks and queries are inputs; written blocks and segments are returned.
- The Porter stemmer. Tokens arrive stemmed, and `Tokenizer.QueryTokens` takes the stemmer as a function parameter.
- `sys.getsizeof` in assignment/indexer.py. The flush decision is an input sequence of booleans.
- Counting.TermDocIndex: dumped blocks are `map`s, so the key order of each block's JSON file is not modelled. Nothing in the modelled core reads those files back.
- Timing, memory tracing and the query latencies. `VectorSpace.LtcCalculation` does not return the latencies.
- `calculate_metrics`, `dump_results`, `load_term_idf_weights`, `load_bmc` and `dump_weights`. Their source is not part of this model.
- `Indexer.lnc_calculation`, `Indexer.bm25_weighting` and `Indexer.bmc_pre_calculation` of assignment/Indexer.py. As written they fail before computing anything: the first reads an undefined `term_index`, the second an unset `self.weights`, the third lacks `self`. The working copies in assignment/indexer.py are modelled.
- `improved_tokenizer`, `read_corpus` and the script code of assignment1/assignment.py, other than the two reports. test/ is not part of this model either.
- Floating point. Weights are `real`. log10 and sqrt are parameters restricted by `RealMath.Lawful`, and their domain errors are not modelled.
- Unicode. Letters are the ASCII letters, and lower-casing is ASCII only.
- Spimi.MergeBlocks: requires every term to be below "{". As written, once the current terms of all open blocks are above "{", the scan keeps `lowest_term = '{'` and `lowest_indexes = [0]`. Block 0 is then advanced and `data['{']` raises KeyError (Spimi.py:53-55). Under the ASCII letter model above, blocks built from tokenizer output meet this requirement, as `BlockIndexer.WrittenBelowSentinel` shows. Python's `str.isalpha` also accepts letters such as "é", which sort above "{" and would reach that KeyError.
- SpimiSet.MergeBlocks: requires every term to be below "{", for the same reason (the KeyError is at spimi.py:49-51).
- Spimi.MergeBlocks: the per-block lists `indexes` and `sizes` are sequences reassigned element by element rather than arrays updated in place.
- BlockIndexer.Indexer.constructor: requires a positive block size. With 0, the source raises ZeroDivisionError on the first kept row. A negative size works in the source through Python's modulo (-2 writes a block every 2 rows), which is not modelled.
- BlockIndexer.Indexer.Index: requires a freshly constructed indexer (no blocks yet) and tokenizer-shaped tokens. In the source a second call keeps `num_blocks`, `num_tokens` and `document_length_index`: its blocks are numbered after the old ones, and `merge_blocks(self.num_blocks, self.num_tokens)` at Indexer.py:131 merges the old and new blocks together.
- Weighting.LncCalculation: requires positive counts, as the counting indexers produce. A document's terms are visited in an unfixed order, which does not affect the result.
- Weighting.LncCalculationBoth: requires positive counts, as the counting indexers produce.
- Bm25.Bm25Weighting: when a document has several failing terms, the error comes from one of them, but which one is not fixed.
- LtcScoring.Ltc: requires that every term of a document has an idf and a weight for that document, as `lnc_calculation` produces. Otherwise the source raises KeyError.
- VectorSpace.LtcCalculation: requires the same coverage of document terms by the weight table. Only lookups that depend on the queries (a missing idf) are modelled as errors.
- VectorSpace.ScoreDocument: keeps the running score in a local variable instead of writing `scores[idx+1][docID]` on every step. The final dictionary is the same.
- BmcRanking.Bm25Weighting: the idf factor is `log10(N / idf_list[token])` as written. It uses the stored idf where a document frequency would be expected, and a zero idf raises ZeroDivisionError.
