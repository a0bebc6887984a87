# GEO dataset retrieval and clustering pipeline — a Dafny model

This project models the retrieval-and-analysis core of a service that takes a
list of PubMed identifiers (PMIDs), resolves each to the GEO datasets NCBI links
to it, fetches each dataset's summary, groups the datasets by text similarity
and builds the node/link/cluster graph that the front end draws.

The model follows the four core files:

- `cache.dfy` (module `Cache`): the 24-hour key → (timestamp, value) cache with
  lazy expiry (`TtlCache`, one object per module-level dictionary), and the
  `cached_result(max_size)` memoiser (`Memoiser`), which stores the result of
  every miss whose call returns (an exception raised by the wrapped function
  propagates and nothing is stored) and then evicts the first entry with the smallest timestamp once it holds more
  than `max_size` results. The clock readings are explicit arguments: the
  memoiser's lookup time `now` and its later store time `storedAt`.
- `element_tree.dfy`, `geo_extraction.dfy` and `data_retrieval.dfy` (modules
  `ElementTree`, `GeoExtraction`, `DataRetrieval`): the E-utilities client.
  A parsed XML response is an `Elem` tree. The network, `raise_for_status` and
  the XML parser together are one oracle `net: Request -> Response`, which
  yields a tree, an unparsable body or a request failure. `time.time`/`time.sleep`
  are a shared `Clock` object. The rate limiter updates the client's
  `lastRequestTime` field, and a ghost log of sent requests shows that
  successive requests are at least `delay` apart. Dataset records are heap
  objects (`DatasetRecord`): the record in the GEO cache is the very object
  returned, and the orchestrator writes its `pmid` field in place. A GEO id
  reached from two PMIDs therefore appears twice in the dataset list as one
  object, and that object carries the later PMID.
- `text_processing.py` → `text_processing.dfy` (module `TextProcessing`): the
  DataFrame is column-oriented (`Frame`), and `preprocess_datasets` blanks
  missing text cells and builds `combined_text`. The TF-IDF fit and the cosine
  similarity are oracles, constrained only by their output shapes.
- `clustering.py` → `clustering.dfy` and `visualization.dfy` (modules
  `Clustering`, `Visualization`): the cluster-count scan with its skip rules,
  fallback and first-maximum choice; the size branches of clustering and
  dimension reduction; and `prepare_visualization_data`, with PMID nodes at the
  exact (real-valued) centroid of their dataset nodes. Agglomerative
  clustering, the silhouette score, t-SNE and `np.random.rand` are oracle
  functions.

Uncaught Python exceptions are modelled as explicit outcomes
(`Result.Raised(ParseError | AttributeError | ValueError | IndexError | KeyError)`).
Caught exceptions are modelled as the fallback values the code returns.

Where the written description of the system and the code differ, the model
follows the code:
- Only `RequestException` is caught. An unparsable body, or a `LinkSetDb`
  without `LinkName` or a `Link` without `Id`, raises out of the lookup and out
  of `get_geo_data_for_pmids`; it is not treated as "no result".
- A dataset shared by two PMIDs is one shared record, not two distinct
  records, and both list entries show the later PMID.
- `calculate_similarity_matrix` tests the sparse matrix's `.size`, which is
  the number of stored non-zero entries. So an all-zero TF-IDF matrix also
  gives the empty result, not only a matrix with no rows.
- The perplexity is `min(30, max(3, n // 5))`, using integer division.
- The cluster summaries range over `0 .. max(cluster_labels)`, taken over all
  labels. An empty label sequence raises `ValueError`.

## Model

| member | source | states |
|---|---|---|
| `Cache.TtlCache.constructor` | app/utils/cache.py:6-7 | a cache starts as an empty dictionary |
| `Cache.TtlCache.Get` | app/utils/cache.py:13-19 | returns the stored value exactly when the key is present and `now - timestamp < 86400`, otherwise None; it changes nothing, so expired entries stay (lazy invalidation) |
| `Cache.TtlCache.Put` | app/utils/cache.py:22-24 | the new dictionary is the old one with `key` mapped to `(now, data)` and every other key unchanged |
| `Cache.AddThenLookup` | app/utils/cache.py:13-24 | a value stored at t reads back unchanged at any t' with `t' - t < 86400`, and as absent once `t' - t >= 86400` |
| `Cache.AddLeavesOtherKeys` | app/utils/cache.py:22-24 | storing under one key does not change what any other key reads back |
| `Cache.ExpiryIsPermanent` | app/utils/cache.py:15-19 | an entry that reads as absent at t still reads as absent at any later t' |
| `Cache.Memoiser.constructor` | app/utils/cache.py:28-30 | a decorated function starts with an empty closure dictionary |
| `Cache.Memoiser.Call` | app/utils/cache.py:32-50 | on a hit (a fresh, non-None entry at the lookup time `now`) returns it without calling `func` and changes nothing; on a miss calls `func` once; if it raises, the error is passed through and the dictionary is unchanged, so the next call misses again; otherwise stores the result stamped with the later clock reading `storedAt` of `add_to_cache`, and evicts the first entry with the smallest timestamp when the dictionary then exceeds `max_size`; `|cache| <= max_size` is kept |
| `Cache.AfterMissBounded` | app/utils/cache.py:42-48 | after a miss the dictionary is still duplicate-free and never holds more than `max_size` entries |
| `Cache.RemovedWellFormed` | app/utils/cache.py:47-48 | deleting one key removes exactly one entry |
| `Cache.NewestNotEvicted` | app/utils/cache.py:42-48 | with a strictly increasing clock and `max_size >= 1`, the entry just stored survives the eviction, holding `(now, result)` |
| `Cache.NoneResultIsNotAHit` | app/utils/cache.py:37-43 | a None result is stored but never reads back as a hit, so `func` is called again next time |
| `Common.FirstMinIndex` | app/utils/cache.py:47 | `min(keys, key=timestamp)` picks a minimal timestamp, and the first one in insertion order among equals |
| `ElementTree.FindIndex` | app/utils/data_retrieval.py:81 | `find(tag)` selects the first child with that tag, and none when no child has it |
| `ElementTree.Tagged` | app/utils/data_retrieval.py:84 | `findall(tag)` yields exactly the children with that tag |
| `ElementTree.TaggedAppend` | app/utils/data_retrieval.py:84 | `findall` keeps document order and repetitions: the children found in a concatenation are those found in each part, in turn |
| `ElementTree.TaggedOne` | app/utils/data_retrieval.py:84 | a single child is found exactly when it has the tag (with `TaggedAppend`, each occurrence is kept once) |
| `ElementTree.FirstInForest` | app/utils/data_retrieval.py:137 | `find(".//DocSum")` yields an element tagged `DocSum` when it yields anything |
| `ElementTree.FirstInForestPreOrder` | app/utils/data_retrieval.py:137 | the recursive descendant walk finds the same element as scanning the document-order (pre-order) list of all elements for the first tagged one |
| `ElementTree.FirstInForestIsFirst` | app/utils/data_retrieval.py:137 | `find(".//tag")` yields nothing exactly when no element below the root has the tag, and otherwise the first tagged element in document order |
| `GeoExtraction.ExtractLinkIds` | app/utils/data_retrieval.py:88-91 | the inner loop collects one `Id` text per `Link` in order, or raises on the first `Link` without an `Id` |
| `GeoExtraction.ExtractGeoIds` | app/utils/data_retrieval.py:80-91 | the ELink loops compute the reference extraction `GeoIdsOf` (first `LinkSet` only, `[]` without one, AttributeError for a `LinkSetDb` without `LinkName`) |
| `GeoExtraction.LinkIdsExactly` | app/utils/data_retrieval.py:88-91 | the `Link` loop succeeds exactly when every `Link` has an `Id` with text; it then yields those texts one per `Link`, in order; otherwise it reports the failure of the first failing `Link` |
| `GeoExtraction.DbsIdsAsLinks` | app/utils/data_retrieval.py:84-91 | when every `LinkSetDb` has a `LinkName`, the ids are those of the `Link`s of the matching `LinkSetDb`s read as one run in document order |
| `GeoExtraction.DbsIdsMembers` | app/utils/data_retrieval.py:84-91 | an id is extracted exactly when some `Link` of a matching `LinkSetDb` has it as its `Id` text |
| `GeoExtraction.GeoIdsExactly` | app/utils/data_retrieval.py:80-91 | `[]` without a `LinkSet`; a successful extraction holds the `Id` texts of the `Link`s under the `pubmed_gds` `LinkSetDb`s of the first `LinkSet`, one per `Link`, in document order, repetitions included; when every `LinkSetDb` has a `LinkName`, it fails exactly on the first such `Link` without an `Id` text |
| `GeoExtraction.LastNamedText` | app/utils/data_retrieval.py:152-163 | each of title, summary, gdsType and taxon holds the text of the last item with that name (`""` for an item without text), or `""` when there is none |
| `GeoExtraction.OverallDesignMentionsDesign` | app/utils/data_retrieval.py:164-168 | `overall_design` is either `""` or a text whose lower-cased form contains `design` |
| `GeoExtraction.DesignsInLast` | app/utils/data_retrieval.py:165-168 | within one `gdsSubset`, the design kept is the text of the last `description` sub-item that mentions `design` |
| `GeoExtraction.DesignTextsEmpty` | app/utils/data_retrieval.py:164-168 | no design text is collected exactly when no `gdsSubset` item has a `description` sub-item mentioning `design` |
| `GeoExtraction.OverallDesignIsLastDesign` | app/utils/data_retrieval.py:164-168 | `overall_design` is the text of the last `description` sub-item, over all `gdsSubset` items in document order, whose lower-cased text contains `design`, and `""` exactly when there is none |
| `GeoExtraction.Lower` | app/utils/data_retrieval.py:167 | the lower-cased text has the same length and no upper-case letter; every other character is kept, and each upper-case letter becomes the lower-case letter at the same place in the alphabet |
| `DataRetrieval.Clock.Sleep` | app/utils/data_retrieval.py:40 | sleeping advances the clock by exactly the time slept |
| `DataRetrieval.WaitTime` | app/utils/data_retrieval.py:36-40 | the sleep is never negative, is zero once `delay` has already passed, and always reaches `last + delay` |
| `DataRetrieval.EUtilsClient.constructor` | app/utils/data_retrieval.py:20-32 | a client starts with `last_request_time = 0` and no request sent |
| `DataRetrieval.EUtilsClient.RespectRateLimit` | app/utils/data_retrieval.py:34-42 | sleeps `max(0, delay - (now - last))`, then records the post-sleep clock, which is at least `delay` after the previous record |
| `DataRetrieval.EUtilsClient.Send` | app/utils/data_retrieval.py:60-73 | each request goes out after the rate limiter, and the log of sent requests stays spaced at least `delay` apart |
| `DataRetrieval.EUtilsClient.GetGeoIdsForPmid` | app/utils/data_retrieval.py:44-101 | a fresh cached list is returned with no wait and no request; otherwise exactly one ELink request is sent; a request failure gives `[]` and caches nothing; a parsed answer is extracted and cached (even `[]`) under the PMID; an unparsable or malformed answer raises |
| `DataRetrieval.EUtilsClient.GetGeoDatasetDetails` | app/utils/data_retrieval.py:103-179 | a fresh cached record (the same object) is returned with no wait and no request; otherwise one ESummary request is sent; a failure or a missing `DocSum` gives None and caches nothing; otherwise a new record with the extracted fields and the given `geo_id` is cached under the id and returned; a cache that agreed with the network still does, and the answer's fields are the network's `DetailsOutcome` |
| `DataRetrieval.EUtilsClient.RequestDetails` | app/utils/data_retrieval.py:114-179 | the uncached path waits, sends exactly one ESummary request, and returns what the network's answer yields: None, a raise, or a new cached record with the extracted fields |
| `DataRetrieval.EUtilsClient.StoreDetails` | app/utils/data_retrieval.py:142-177 | the extracted record is new, has no PMID, carries the `DocSum`'s details, and is cached under its id at the current time |
| `DataRetrieval.DatasetRecord.constructor` | app/utils/data_retrieval.py:143-150 | a new record has the given `geo_id` and five `""` fields |
| `DataRetrieval.AbsorbItem` | app/utils/data_retrieval.py:154-168 | one item overwrites the field its `Name` selects, and a `gdsSubset` overwrites the design with each design description in turn |
| `DataRetrieval.DetailsFromStep` | app/utils/data_retrieval.py:153-168 | processing one more item is one more application of the item rule |
| `DataRetrieval.ExtractDetails` | app/utils/data_retrieval.py:142-168 | the item loop produces exactly the reference details of the `DocSum` (last item of each name wins, defaults `""`) on a new record without a PMID |
| `DataRetrieval.TagAndKeep` | app/utils/data_retrieval.py:212-215 | `dataset["pmid"] = pmid` changes only the record's tag, which is then appended; the record's details and the cache's agreement with the network are untouched |
| `DataRetrieval.FetchOne` | app/utils/data_retrieval.py:210-215 | a record found is tagged with the PMID in place and appended, nothing is appended otherwise; with a cache that agrees with the network, the lookup raises exactly when `DetailsOutcome` of the id raises, and the record found carries the details the network gives |
| `DataRetrieval.RowGrows` | app/utils/data_retrieval.py:209-215 | one more lookup extends the reference row outcome `RowOutcome` by the id's outcome, or makes the whole row raise that error |
| `DataRetrieval.FetchNext` | app/utils/data_retrieval.py:209-215 | one pass of the id loop appends at most one tagged record and keeps the row and `RowOutcome` in step |
| `DataRetrieval.FetchForPmid` | app/utils/data_retrieval.py:203-215 | for one PMID, the records found for its linked ids are appended in id order, each with the geo id it was fetched for, and tagged with it; with caches that agree with the network, the outcome is the reference `PmidOutcome`: its error, or its id list and the records carrying its details |
| `DataRetrieval.FetchAndTag` | app/utils/data_retrieval.py:209-215 | the records found for one PMID are appended in id order, each with the geo id it was fetched for; with caches that agree with the network, the loop raises exactly the error of the first failing id (`RowOutcome`), and otherwise the records found carry the network's details, id by id |
| `DataRetrieval.RowStep` | app/utils/data_retrieval.py:209-215 | appending one lookup result to the row appends its record, if any, to the datasets and one PMID tag per record |
| `DataRetrieval.TagAndAppend` | app/utils/data_retrieval.py:212-215 | tagging a shared record in place and appending it keeps the last appearance of every record tagged with its own PMID |
| `DataRetrieval.TagsLength` | app/utils/data_retrieval.py:209-215 | there is one PMID tag per dataset appended |
| `DataRetrieval.LastListOfIsLast` | app/utils/data_retrieval.py:205-206 | the map's reference value for a PMID is absent exactly when every occurrence found nothing, and otherwise the non-empty list of its last occurrence with a non-empty list |
| `DataRetrieval.BuildMapGet` | app/utils/data_retrieval.py:199-206 | the PMID map holds each PMID once, exactly when some occurrence of it found ids, mapped to that full id list, whether or not the detail fetches succeed |
| `DataRetrieval.GetGeoDataForPmids` | app/utils/data_retrieval.py:182-218 | the map is built from the link lookups alone; the dataset list is the non-None details in PMID-then-id order; each record has its geo id; the last appearance of each record carries the PMID of that appearance; from fresh (or network-agreeing) caches the run raises exactly the first error of the reference `Retrieval`, and otherwise its map is `BuildMap` of the network's id lists and its datasets carry the network's details in order |
| `DataRetrieval.RetrievalGrows` | app/utils/data_retrieval.py:199-215 | one more PMID extends the reference `Retrieval` by that PMID's outcome, or makes the whole run raise that error |
| `DataRetrieval.RetrieveNext` | app/utils/data_retrieval.py:199-215 | one pass of the PMID loop keeps the map, the dataset list and the tags in step with the PMIDs processed, and keeps the caches' agreement and `Retrieval` in step |
| `DataRetrieval.ProgressStep` | app/utils/data_retrieval.py:199-215 | processing one more PMID extends the map by `d[pmid] = ids` for a non-empty list and the datasets by its present records |
| `DataRetrieval.PresentMatch` | app/utils/data_retrieval.py:209-215 | records that match their lookups row by row, flattened, carry the flattened details in order |
| `Common.GetAssign` | app/utils/data_retrieval.py:206 | after `d[k] = v`, `d[k]` is v and every other key reads as before |
| `TextProcessing.KeysOf` | app/utils/text_processing.py:27 | the frame's columns are exactly the keys of any record |
| `TextProcessing.FromRecords` | app/utils/text_processing.py:27 | one row per record in input order, and one column per key holding each record's value or NaN |
| `TextProcessing.FillNa` | app/utils/text_processing.py:33 | defines `fillna("")` cell by cell: a NaN cell becomes `""` and a present cell is kept; `Filled` and `PreprocessedColumns` rely on it |
| `TextProcessing.Filled` | app/utils/text_processing.py:29-33 | the existing text columns are blanked; every other column and the row count are unchanged |
| `TextProcessing.FillTextColumns` | app/utils/text_processing.py:30-33 | the fill loop over the five text columns yields `Filled` |
| `TextProcessing.WithCombined` | app/utils/text_processing.py:35-42 | `combined_text` row k joins the five text cells with single spaces; a text column that no record has raises KeyError; nothing else changes |
| `TextProcessing.PreprocessDatasets` | app/utils/text_processing.py:12-45 | the method computes the reference `Preprocessed` |
| `TextProcessing.PreprocessedOutcome` | app/utils/text_processing.py:22-42 | no records give the empty frame; otherwise the result is KeyError exactly when a text column is a key of no record |
| `TextProcessing.PreprocessedShape` | app/utils/text_processing.py:26-42 | one row per input record, with the records' keys plus `combined_text` as columns |
| `TextProcessing.PreprocessedColumns` | app/utils/text_processing.py:29-33 | row i of a text column is record i's text with NaN blanked; other columns are as given |
| `TextProcessing.PreprocessedCombined` | app/utils/text_processing.py:35-42 | row i of `combined_text` is title, experiment type, summary, organism and overall design of record i, joined by spaces |
| `TextProcessing.CombinedSeparators` | app/utils/text_processing.py:36-42 | `combined_text` adds exactly four spaces to those of its fields and starts with the title and a space |
| `TextProcessing.CreateTfidfVectors` | app/utils/text_processing.py:47-83 | without `combined_text` or with an empty frame: empty matrix, no features, default vectorizer; otherwise the pipeline configuration's fit, with one row per frame row and at most 5000 features |
| `TextProcessing.NonZerosZero` | app/utils/text_processing.py:95 | the stored-entry count is zero exactly when every entry is zero |
| `TextProcessing.CalculateSimilarityMatrix` | app/utils/text_processing.py:85-102 | empty result for size 0; otherwise the cosine oracle's n × n matrix for n rows |
| `Clustering.Distance` | app/utils/clustering.py:25 | defines the broadcast `1 - similarity_matrix` entry by entry, keeping the shape; the scan (`ScoresExactly`) relies on it |
| `Clustering.EstimateOptimalClusters` | app/utils/clustering.py:12-64 | the scan loop computes the reference `OptimalClusters` |
| `Clustering.ScoresExactly` | app/utils/clustering.py:36-56 | the scan scores exactly the k in `2..bound` (and at most n) whose labels are not one value and whose silhouette does not raise, in ascending k |
| `Clustering.EstimateBounds` | app/utils/clustering.py:28-62 | the estimate is in `[1, max(1, n-1)]`, and with `max_clusters >= 3` it is at most `min(max_clusters, n-1)` |
| `Clustering.EstimateIsFirstBest` | app/utils/clustering.py:58-62 | when something was scored, the estimate is a scored k with the highest score, and every smaller scored k scores strictly less (first maximum wins) |
| `Clustering.BestOfScan` | app/utils/clustering.py:62 | `max(scores, key=score)` picks the first highest-scoring k of the scan |
| `Clustering.EstimateFallback` | app/utils/clustering.py:58-59 | when no candidate is scored the estimate is `min(3, n-1)` |
| `Common.FirstMaxIndex` | app/utils/clustering.py:62 | `max` with a key picks a maximal element, the first among equals |
| `Clustering.PerformClustering` | app/utils/clustering.py:66-97 | at most one sample gives all-zero labels and k = 1; otherwise k is the estimate and the labels are the oracle's for k; k >= 1 and, under the oracle's contract, one label in `[0, k)` per sample |
| `Clustering.PerplexityRange` | app/utils/clustering.py:120 | the perplexity `min(30, max(3, n // 5))` lies in [3, 30] and is below n whenever t-SNE runs |
| `Clustering.Origin` | app/utils/clustering.py:114 | defines `np.zeros((1, n_components))`'s row as `n_components` zeros; `ReduceDimensions` relies on it for the one-row shape |
| `Clustering.ReduceDimensions` | app/utils/clustering.py:100-135 | 0 rows give `[]`, 1 row the origin, 2-3 rows random values, 4+ rows the t-SNE output or random values on failure; under the oracles' contracts, always n × `n_components` |
| `Visualization.NodeCount` | app/utils/clustering.py:166-168 | a node is made for row i only when i is below the lengths of the frame, the vectors and the labels |
| `Visualization.BuildDatasetNodes` | app/utils/clustering.py:164-180 | the node loop yields the reference `DatasetNodes`: KeyError for a missing column, IndexError for a short vector, otherwise one node per visited row |
| `Visualization.DatasetNodesContents` | app/utils/clustering.py:170-180 | node i carries row i's `geo_id` and `pmid`, the first two coordinates of vector i and label i |
| `Visualization.Related` | app/utils/clustering.py:186-189 | the related datasets are exactly the nodes that carry the PMID |
| `Visualization.RelatedAppend` | app/utils/clustering.py:186-189 | the related datasets keep node order and repetitions: filtering a concatenation filters each part in turn |
| `Visualization.RelatedOne` | app/utils/clustering.py:186-189 | a single node is kept exactly when it carries the PMID, so a repeated node counts once per occurrence in the centroid mean |
| `Visualization.BuildPmidNodes` | app/utils/clustering.py:182-203 | the PMID loop yields the reference `PmidNodes` |
| `Visualization.PmidNodesExactly` | app/utils/clustering.py:183-203 | every PMID node is for a map key that some dataset node carries, sits at their centroid and has cluster -1; every such key gets a node |
| `Visualization.MeanBounds` | app/utils/clustering.py:194-195 | the mean of values in [lo, hi] lies in [lo, hi] |
| `Visualization.CentroidInBox` | app/utils/clustering.py:194-195 | a PMID node lies inside every box containing all its related dataset nodes |
| `Visualization.EntryLinks` | app/utils/clustering.py:211-216 | defines the inner loop's output as one `pmid_to_dataset` link per GEO id of an entry, in order; `PmidLinksExactly` and `PmidLinksCount` rely on it |
| `Visualization.BuildLinks` | app/utils/clustering.py:208-226 | the links are the `pmid_to_dataset` links followed by the `same_cluster` links |
| `Visualization.BuildPmidLinks` | app/utils/clustering.py:209-216 | the outer link loop yields the reference `PmidLinks` |
| `Visualization.AppendEntryLinks` | app/utils/clustering.py:211-216 | the inner link loop appends one link per GEO id |
| `Visualization.AppendClusterLinks` | app/utils/clustering.py:219-226 | the pair loops append the reference `ClusterLinks` |
| `Visualization.AppendPairLinks` | app/utils/clustering.py:220-226 | node i is linked to every later node with its label, in order |
| `Visualization.PmidLinksCount` | app/utils/clustering.py:209-216 | there are as many `pmid_to_dataset` links as GEO ids listed in the map |
| `Visualization.PmidLinksExactly` | app/utils/clustering.py:209-216 | the `pmid_to_dataset` links are exactly the listed (PMID, GEO id) pairs, dangling ones included |
| `Visualization.ClusterLinksExactly` | app/utils/clustering.py:218-226 | the `same_cluster` links are exactly the pairs i < j of dataset nodes with equal labels |
| `Visualization.ClusterLinksCount` | app/utils/clustering.py:218-226 | the number of `same_cluster` links is the number of index pairs i < j with equal labels |
| `Visualization.MaxLabel` | app/utils/clustering.py:230 | `max(cluster_labels)` is a label and bounds every label |
| `Visualization.MembersExactly` | app/utils/clustering.py:231 | a cluster's members are exactly the nodes with its label |
| `Visualization.MembersAppend` | app/utils/clustering.py:231 | a cluster's members keep node order and repetitions: filtering a concatenation filters each part in turn |
| `Visualization.MembersOne` | app/utils/clustering.py:231 | a single node is a member exactly when it carries the label |
| `Visualization.BuildSummaries` | app/utils/clustering.py:228-237 | the summary loop yields the reference `Summaries`, and ValueError for no labels |
| `Visualization.SummariesSound` | app/utils/clustering.py:229-237 | every summary is of a label in `0..max` that some node carries, with its size and its members' ids in node order |
| `Visualization.SummariesAscend` | app/utils/clustering.py:229-237 | summary labels lie in the scanned range and ascend strictly, so no label is summarised twice |
| `Visualization.SummariesComplete` | app/utils/clustering.py:229-237 | every label in `0..max` that some node carries is summarised |
| `Visualization.SummariesCoverNodes` | app/utils/clustering.py:229-237 | with no negative label, the summary sizes add up to the number of dataset nodes |
| `Visualization.PrepareVisualizationData` | app/utils/clustering.py:138-246 | the method computes the reference `Prepared` |
| `Visualization.PreparedOutcome` | app/utils/clustering.py:156-230 | an empty frame or no vectors give the empty graph; otherwise KeyError, IndexError, ValueError (no labels) in that order of precedence, else a graph |
| `Visualization.PreparedShape` | app/utils/clustering.py:205-243 | on success the nodes are the dataset nodes then the PMID nodes; there are `TotalIds + same-cluster` links; with non-negative labels the cluster sizes add up to the dataset nodes |
| `Visualization.NodeLabels` | app/utils/clustering.py:179 | each dataset node carries the label of its row |

## Left out

- The HTTP layer (`app/api/routes.py`, `app/__init__.py`): request parsing, JSON responses and the app factory are I/O plumbing. The routes return no visualization and call no text-processing or clustering function; that glue is not part of this model.
- `requests.get`, `raise_for_status` and `ET.fromstring` are the oracle `net`. The request parameters are modelled as data, and URL encoding is not modelled.
- `time.time` and `time.sleep` are the `Clock` object. Only sleeps advance it, so the time a request takes is not modelled.
- `logging` calls have no behaviour and are left out. So are the unused imports (`KMeans`, `DBSCAN`, `lru_cache`, `cached_result` in the retrieval module).
- The module-level caches are explicit `TtlCache` objects. Concurrent requests sharing them, and sharing a rate limiter, are not modelled: the model is single-threaded.
- `Cache.Memoiser.Call`: the key `str(args) + str(sorted(kwargs.items()))` is an injected function `keyOf`, because Python's `repr` is not modelled.
- scikit-learn (`TfidfVectorizer`, `cosine_similarity`, `AgglomerativeClustering`, `silhouette_score`, `TSNE`) and `np.random.rand` are oracles. Only their shapes and label ranges are stated, as assumptions about the oracle, and all their floating-point numerics are left out. Coordinates are exact reals, so the centroid is exact rather than a float sum.
- `TextProcessing.CreateTfidfVectors`: the vectorizer's term selection (stop words, n-grams, `min_df`, `max_df`) is inside the oracle. Only the configuration passed and the bound of 5000 features are stated.
- `DataRetrieval.GetGeoDataForPmids`: the network is a fixed function `net`, so the same request always gets the same answer. The outcome of a run (which error, which id lists, which details) is stated only when the module-level caches agree with that function at the start, as empty caches do. A cache filled from an earlier, different answer of the network is not covered. The same holds for `DataRetrieval.FetchForPmid`, `DataRetrieval.FetchAndTag` and `DataRetrieval.FetchOne`.
- `GeoExtraction.GeoIdsExactly`: does not restate the case of a `LinkSetDb` without `LinkName`. There the outcome is the reference `GeoIdsOf` (AttributeError, unless a `Link` of an earlier matching `LinkSetDb` failed first), which `ExtractGeoIds` computes.
- `GeoExtraction.IdOf`: an `Id` element without text appends `None` in the code. The model reports it as `ValueError` instead, because a dataset id is a string here.
- `GeoExtraction.Lower`: `str.lower()` is modelled for ASCII letters only. There is no Unicode case folding.
- The conversion of the retrieved records into the dictionaries `preprocess_datasets` receives is not modelled. The text-processing input is a sequence of string-keyed maps.
- The pandas index of a frame built from records is taken to be `0..n-1`, which is what `pd.DataFrame(list_of_dicts)` produces.
