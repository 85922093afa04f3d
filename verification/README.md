# Verified models of the DBAL daemon's logic

This project models the parts of the DBAL daemon whose correctness takes an argument rather than a glance, and proves
what they promise. Each stateful component is a class whose methods follow the source's own loops and branches and are
proved against functions on values; the theorems are about those functions, over every input, every run or every
interleaving.

- **Workflows** (`GraphOrder`, `GraphTheorems`, `GraphFifo`, `GraphLoader`, `Executor`, `WorkflowTheorems`, `Context`).
  Stored rows are regrouped into nodes, ordered by Kahn's algorithm with a FIFO queue, and run one by one, their templates
  resolved against the growing context. The order is a permutation, topological and layered by depth exactly when the
  graph is acyclic, and then determined by keys and edges alone; a run never reaches a node before its predecessors have
  completed. Node keys are unique per workflow in the schema
  (libraries/dbal/shared/api/schema/migrations/0001_relational_schema.sql:112); the theorems about the order need no more
  than that no repeated key has an edge.
- **BQL** (`BqlLexer`, `BqlParser`, `BqlCursor`, `BqlGrammar`, `BqlRoundTrip`, `BqlAccepted`, `BqlScript`). A hand-written
  lexer and a cursor-based parser for ten sentence forms. A grammar says which lines spell which sentence, and the parser
  accepts exactly those; a printer and the parser undo each other; a script is all or nothing.
- **Read-through cache** (`CacheKey`, `CachingAdapter`, `CacheCoherence`, `CacheStaleness`). Sequential runs without
  failures or rollbacks are exactly coherent, and it is stated exactly when a rollback keeps them so; every interleaving
  with any failures has a bounded staleness. The wrapped adapter is any state with a read function, and what its writes
  and Redis do at each call is an input. The values its reads return must survive being written as JSON text and parsed;
  `CacheCoherence.TextsRoundTrip` exhibits a codec and a store for which they do.
- **Compensating transactions** (`CompensatingStore`, `ElasticsearchAdapter`, `RollbackTheorems`, `BulkHandler`). An
  undo log replayed backwards through the adapter that keeps it, over a document store whose calls may fail one by one,
  and the bulk requests on top of it. Updates merge, so a rollback gives back every old field but cannot take away an
  added one; that is stated exactly, record by record, whichever undos fail.
- **Counters and tickets** (`RateLimiter`, `CasTickets`). The fixed-window limiter over any trace of calls, and one-shot
  tickets over any interleaving of reads and updates. Section 3.1.1 of the CAS Protocol 3.0 Specification asks for
  tickets that are valid once; this code consumes a ticket only on success, and that is what is modelled.
- **Text engines** (`SqlTemplates`, `Yaml`, `YamlSpelling`, `YamlRoundTrip`). Substitution inside the string being
  scanned, and an indentation-stack reader: every text is a tree of indented lines, and is read as the maps that tree
  stands for.

`Text` and `Json` hold what several parts share. Clocks, generated ids and tokens, hashes, JSON text encoding, number
parsing and the outcome of every network call are parameters.

Where the code and its documentation disagree, the code is followed: the header of the ticket store speaks of service
tickets, but validation does not look at the ticket type, and neither does the model.

## Model

| member | source | states |
|---|---|---|
| GraphTheorems.OrderIsPermutation | libraries/dbal/production/src/workflow/wf_graph_order.cpp:8-40 | Whatever the keys and edges, repeats and cycles included, the result is a permutation of the input |
| GraphTheorems.StuckIffCyclic | libraries/dbal/production/src/workflow/wf_graph_order.cpp:29-38 | If no repeated key has an edge to or from a known node, as when keys are distinct, the queue runs dry before every node is ordered if and only if the known edges have a cycle |
| GraphTheorems.OrderIsTopological | libraries/dbal/production/src/workflow/wf_graph_order.cpp:29-39 | For such keys, on an acyclic graph every edge between known nodes runs from an earlier to a later position |
| GraphTheorems.CycleKeepsInput | libraries/dbal/production/src/workflow/wf_graph_order.cpp:38 | For such keys, on a cyclic graph the size test fails, the input order comes back unchanged, and no permutation of the keys would put every source before its targets |
| GraphTheorems.OrderIsLayered | libraries/dbal/production/src/workflow/wf_graph_order.cpp:23-36 | For such keys, on an acyclic graph the longest-path depth exists for every node and never falls along the result |
| GraphTheorems.RootsComeFirst | libraries/dbal/production/src/workflow/wf_graph_order.cpp:23-27 | For such keys, on an acyclic graph the depth-zero prefix of the result is exactly the nodes without an incoming edge, in the caller's order |
| GraphFifo.OrderIsQueueOrder | libraries/dbal/production/src/workflow/wf_graph_order.cpp:23-36 | For such keys, on an acyclic graph the roots come first in the caller's order, then every other node after its last source, ordered by the place of that source and, under one source, by the last edge from it |
| GraphFifo.OrderIsDetermined | libraries/dbal/production/src/workflow/wf_graph_order.cpp:8-40 | That leaves no choice: a sequence is the result if and only if it is such an order, so the result is pinned down by the keys and edges alone |
| GraphOrder.BuildGraph | libraries/dbal/production/src/workflow/wf_graph_order.cpp:11-21 | The adjacency lists hold the targets of the usable edges in edge order, and the in-degrees count them; edges naming unknown nodes are passed over |
| GraphOrder.SeedQueue | libraries/dbal/production/src/workflow/wf_graph_order.cpp:23-27 | The queue is seeded with the nodes of in-degree zero in the caller's order |
| GraphOrder.ReleaseTargets | libraries/dbal/production/src/workflow/wf_graph_order.cpp:34-35 | One turn of the loop lowers the in-degree of every target and queues those that reach zero, each where it reaches it |
| GraphOrder.TopologicalOrder | libraries/dbal/production/src/workflow/wf_graph_order.cpp:8-40 | The loops compute the order the theorems above are about, for any keys and edges |
| GraphLoader.OrderKeepsKeys | libraries/dbal/production/src/workflow/wf_graph_order.cpp:8-40 | Even with repeated keys the result holds only keys that were given |
| GraphTheorems.RepeatsCanMisorder | libraries/dbal/production/src/workflow/wf_graph_order.cpp:14-38 | With a key repeated that has an edge, an acyclic graph can pass the size test in an order that breaks an edge |
| GraphLoader.Regroup | libraries/dbal/production/src/workflow/wf_graph_loader.cpp:79-97 | After the loop each node id holds, per name other than "outputs", the last decoded value among its rows, and as outputs its last "outputs" value that is an object |
| GraphLoader.CollectKeys | libraries/dbal/production/src/workflow/wf_graph_loader.cpp:99-106 | Non-empty keys in row order, each with the last row carrying it |
| GraphLoader.CollectEdges | libraries/dbal/production/src/workflow/wf_graph_loader.cpp:108-113 | The edges with both ends named, in row order |
| GraphLoader.MakeNode | libraries/dbal/production/src/workflow/wf_graph_loader.cpp:116-124 | A node has its row's key and type and the parameters and outputs of its row's id, empty objects when there are none |
| GraphLoader.BuildWorkflow | libraries/dbal/production/src/workflow/wf_graph_loader.cpp:60-127 | Nothing is loaded exactly when the row is null, has no id, or has no nodes; otherwise the nodes come in graph order, each built from the row that carries its key |
| WorkflowTheorems.OneNodePerRow | libraries/dbal/production/src/workflow/wf_graph_loader.cpp:99-127 | With distinct non-empty keys there is one node per row, built from that row, and no two rows share one |
| WorkflowTheorems.NodesInQueueOrder | libraries/dbal/production/src/workflow/wf_graph_loader.cpp:115-126 | With distinct non-empty keys and acyclic edges the loaded nodes stand in the one order that GraphFifo.OrderIsDetermined allows for the rows' keys and edges |
| WorkflowTheorems.FieldIff | libraries/dbal/production/src/workflow/wf_graph_loader.cpp:32-36 | A row's field as text: strings as they are, nothing for null or a missing field, other values as JSON text |
| WorkflowTheorems.KeysAreRows | libraries/dbal/production/src/workflow/wf_graph_loader.cpp:99-106 | The keys are those of the rows that have one, each row once, in row order |
| WorkflowTheorems.EdgesFollowRows | libraries/dbal/production/src/workflow/wf_graph_loader.cpp:108-113 | The edges are those of the rows that name both ends, each row once, in row order |
| WorkflowTheorems.RowIsLast | libraries/dbal/production/src/workflow/wf_graph_loader.cpp:99-106 | A key's row is the last one that has it |
| WorkflowTheorems.DecodedIff | libraries/dbal/production/src/workflow/wf_graph_order.cpp:42-60 | A parameter row carries a value if and only if its text means it under its type: a number when all of it reads as one, a boolean, parsed JSON, and otherwise the text itself |
| WorkflowTheorems.ParametersConserved | libraries/dbal/production/src/workflow/wf_graph_loader.cpp:85-97 | A node has a parameter if and only if some row with its id sets it, with the value that the last such row carries; "outputs" is never a parameter |
| WorkflowTheorems.OutputsConserved | libraries/dbal/production/src/workflow/wf_graph_loader.cpp:90-93 | A node's outputs are the last object an "outputs" row gave its id, or empty |
| WorkflowTheorems.ParameterLandsOnce | libraries/dbal/production/src/workflow/wf_graph_loader.cpp:85-126 | With distinct row ids a parameter row lands on the node of the row it names and sets nothing for any other |
| GraphLoader.BestForForm | libraries/dbal/production/src/workflow/wf_graph_order.cpp:79-89 | The first published row naming the form wins; failing that the first published row naming none; failing that null |
| GraphLoader.EdgesAreRows | libraries/dbal/production/src/workflow/wf_graph_loader.cpp:108-113 | There is an edge between two keys if and only if some row names both |
| WorkflowTheorems.ArcsAreRows | libraries/dbal/production/src/workflow/wf_graph_loader.cpp:99-115 | An edge that orders the nodes is an edge row between the keys of two node rows |
| Executor.WfExecutor.ExecuteNodes | libraries/dbal/production/src/workflow/wf_executor.cpp:43-75 | The loop with its skip, stop and throw exits computes the run the theorems below are about |
| Executor.RunMeaning | libraries/dbal/production/src/workflow/wf_executor.cpp:48-73 | However a run ends, it tries exactly a prefix of the registered-type nodes in order, each against the world its predecessors left; it completes, stops or throws as its last tried step says |
| Executor.StepIsHanded | libraries/dbal/production/src/workflow/wf_executor.cpp:55-60 | A tried step is handed its own node, with id, type and outputs as they are and every string in its parameters resolved against the variables its predecessors left; the run logs how it ends and goes on in the world it leaves |
| Executor.EarlierNodesRan | libraries/dbal/production/src/workflow/wf_executor.cpp:48-73 | Before any node a run reaches, every node of a registered type ended normally and the rest were skipped |
| WorkflowTheorems.PredecessorsStandFirst | libraries/dbal/production/src/workflow/wf_graph_loader.cpp:115-126 | In an acyclic loaded workflow every predecessor of a node stands before it |
| WorkflowTheorems.PredecessorsRanFirst | libraries/dbal/production/src/workflow/wf_executor.cpp:43-75 | Whenever a run of an acyclic loaded workflow reaches a node, every predecessor of a registered type has already run to normal completion |
| Context.GetWalks | libraries/dbal/production/include/workflow/wf_context.hpp:26-39 | A lookup is a walk along the key split at its dots, from the variables through object members |
| Context.SegmentsCoverTemplate | libraries/dbal/production/include/workflow/wf_context.hpp:79-97 | The literal and placeholder segments concatenate back to the template |
| Context.SegmentsUnique | libraries/dbal/production/include/workflow/wf_context.hpp:79-97 | They are its only canonical segmentation: no literal "${" that a "}" follows, no "}" inside a key |
| Context.WfContext.ResolveStr | libraries/dbal/production/include/workflow/wf_context.hpp:79-97 | The scanning loop gives every segment substituted once: strings as they are, null nothing, other values as JSON text |
| Context.ResolveKeepsShape | libraries/dbal/production/include/workflow/wf_context.hpp:52-76 | Resolving changes strings only; keys, lengths and other scalars stay |
| Context.ResolveIdentity | libraries/dbal/production/include/workflow/wf_context.hpp:52-76 | A value that mentions no "${" resolves to itself |
| Context.ResolveMeaning | libraries/dbal/production/include/workflow/wf_context.hpp:52-97 | Resolving does to every string what it should and nothing else: a whole placeholder becomes the value its key walks to, or stays; any other string is its canonical segments, each placeholder the string found, nothing for null, or JSON text |
| Context.WholeAgreesWithInterpolation | libraries/dbal/production/include/workflow/wf_context.hpp:57-63 | The whole-string rule agrees with interpolation if and only if the value found is a string |
| BqlLexer.ScanWord | libraries/dbal/production/src/bql/bql_lexer.cpp:43-55 | The inner loop finds the end of a word: white space, a quote, a comma, or a dot no word character follows |
| BqlLexer.Tokenize | libraries/dbal/production/src/bql/bql_lexer.cpp:16-60 | The loop, whose index advances on every pass, gives the tokens the theorems below are about |
| BqlLexer.TokensAreWellFormed | libraries/dbal/production/src/bql/bql_lexer.cpp:20-58 | Every token is well formed: a word is non-empty, holds no white space, quote or comma, and a word character follows each of its dots |
| BqlLexer.TokensIff | libraries/dbal/production/src/bql/bql_lexer.cpp:16-60 | The tokens of a line are the one way to tile it with words as long as they can be, quoted texts, commas and full stops, leaving only white space between them |
| BqlLexer.RenderReadsBack | libraries/dbal/production/src/bql/bql_lexer.cpp:16-60 | Any well-formed token list, written with single spaces and tokenized, comes back |
| BqlLexer.NormalForm | libraries/dbal/production/src/bql/bql_lexer.cpp:16-60 | Every line reads the same as its tokens written with single spaces |
| BqlCursor.Cursor.Peek | libraries/dbal/production/src/bql/bql_parser.cpp:29-32 | Looks ahead in what is left, nothing past the end |
| BqlCursor.Cursor.Next | libraries/dbal/production/src/bql/bql_parser.cpp:34-38 | Returns the next token and drops it from what is left |
| BqlCursor.SkipArticleAt | libraries/dbal/production/src/bql/bql_parser.cpp:55-57 | Consumes one leading "a" or "an" |
| BqlCursor.WordsUntilAt | libraries/dbal/production/src/bql/bql_parser.cpp:62-76 | Consumes words up to a stop word or a non-word and joins them with spaces |
| BqlCursor.SeparatorAt | libraries/dbal/production/src/bql/bql_parser.cpp:80-91 | Consumes a comma, "and", or both, and says whether there was any |
| BqlCursor.ValueAt | libraries/dbal/production/src/bql/bql_parser.cpp:93-114 | A quoted value, or bare words up to "and"; none when there is neither |
| BqlCursor.AttrItemAt | libraries/dbal/production/src/bql/bql_parser.cpp:116-124 | One attribute: optional article, key, "of", value |
| BqlCursor.AttrListAt | libraries/dbal/production/src/bql/bql_parser.cpp:126-136 | One or more attributes between separators |
| BqlCursor.ClauseAt | libraries/dbal/production/src/bql/bql_parser.cpp:145-177 | A block clause with its optional alias, text and attributes |
| BqlCursor.NameListAt | libraries/dbal/production/src/bql/bql_parser.cpp:179-187 | Quoted names between separators |
| BqlCursor.ParseAdd | libraries/dbal/production/src/bql/bql_parser.cpp:208-213 | The "add" form |
| BqlCursor.ParseInsideAdd | libraries/dbal/production/src/bql/bql_parser.cpp:215-227 | The "inside ... add" form |
| BqlCursor.ParseGive | libraries/dbal/production/src/bql/bql_parser.cpp:229-245 | The "give" form |
| BqlCursor.ParseStyle | libraries/dbal/production/src/bql/bql_parser.cpp:247-274 | The "make a style" form |
| BqlCursor.ParseApply | libraries/dbal/production/src/bql/bql_parser.cpp:276-292 | The "apply ... to" form |
| BqlCursor.ParsePublish | libraries/dbal/production/src/bql/bql_parser.cpp:299-341 | The two "publish" forms |
| BqlCursor.ParseClear | libraries/dbal/production/src/bql/bql_parser.cpp:352-367 | The "start a new page" form, and the way into the workflow form |
| BqlCursor.ParseWorkflowStart | libraries/dbal/production/src/bql/bql_parser.cpp:377-394 | The "start a new workflow" form |
| BqlCursor.ParseRunWhen | libraries/dbal/production/src/bql/bql_parser.cpp:403-451 | The "run it when" form with its named form and its fixed phrases |
| BqlCursor.ParseThen | libraries/dbal/production/src/bql/bql_parser.cpp:462-475 | The "then" form |
| BqlCursor.ParseSentence | libraries/dbal/production/src/bql/bql_parser.cpp:487-515 | Accepts a line only when one form reads it and no token is left over |
| BqlGrammar.AttrsIff | libraries/dbal/production/src/bql/bql_parser.cpp:93-136 | An attribute list at the end of a sentence parses if and only if the grammar spells it: attributes with or without article, values quoted or bare words up to "and" joined by spaces, separated by a comma, "and" or both |
| BqlGrammar.ClauseIff | libraries/dbal/production/src/bql/bql_parser.cpp:145-177 | Likewise for a clause: name up to its stop words, then optional alias, quoted text and attributes |
| BqlGrammar.SentenceIff | libraries/dbal/production/src/bql/bql_parser.cpp:50-515 | A token list is accepted as a sentence if and only if the grammar of all ten forms, keywords in any letter case and every optional part included, spells that sentence with it |
| BqlAccepted.LineIff | libraries/dbal/production/src/bql/bql_parser.cpp:480-515 | A line is accepted as a sentence if and only if its trimmed text is tiled by tokens that spell it once one final full stop is taken off |
| BqlRoundTrip.TokensReadBack | libraries/dbal/production/src/bql/bql_parser.cpp:62-515 | The tokens printed for any printable sentence spell it, and so parse to it with every token consumed |
| BqlAccepted.PrintThenParse | libraries/dbal/production/src/bql/bql_parser.cpp:487-515 | Parsing the printed line of any printable sentence, of all ten forms, gives that sentence |
| BqlAccepted.SentenceSound | libraries/dbal/production/src/bql/bql_parser.cpp:487-515 | Whatever well-formed tokens are accepted, the sentence is printable, and holds no character its line did not hold in quotes |
| BqlAccepted.ParseThenPrint | libraries/dbal/production/src/bql/bql_parser.cpp:487-515 | For any accepted line, printing the result and parsing it again gives the same sentence |
| BqlScript.SplitLines | libraries/dbal/production/src/bql/bql_parser.cpp:521-531 | The scanning loop cuts the script at its newlines |
| BqlScript.ParseScript | libraries/dbal/production/src/bql/bql_parser.cpp:517-548 | The loop over lines gives the result the theorems below are about |
| BqlScript.AllOrNothing | libraries/dbal/production/src/bql/bql_parser.cpp:533-547 | A script succeeds if and only if every line that is not blank or a comment spells a sentence; then it gives exactly those sentences in order with their 1-based lines, and otherwise exactly the failing lines' numbers |
| BqlScript.PrintedScriptParses | libraries/dbal/production/src/bql/bql_parser.cpp:517-548 | Printed sentences without newlines, one to a line, parse to themselves, numbered from 1 |
| BqlScript.ScriptNormalForm | libraries/dbal/production/src/bql/bql_parser.cpp:517-548 | The sentences of any accepted script, printed one to a line, parse to the same sentences renumbered |
| CacheKey.KeysCoincideExactly | libraries/dbal/production/include/dbal/cache/cache_key.hpp:22-24 | Two different entities can share a record key if and only if one name followed by a colon starts the other |
| CacheKey.RecordKeyInjective | libraries/dbal/production/include/dbal/cache/cache_key.hpp:22-24 | Over entity names without a colon a record key names one record |
| CacheKey.PatternMatchesEntity | libraries/dbal/production/include/dbal/cache/cache_key.hpp:31-33 | The scan pattern matches a key if and only if it is a record key of that entity |
| CachingAdapter.CachingAdapter.Read | libraries/dbal/production/src/cache/caching_adapter.cpp:68-94 | Serves a parsed hit; otherwise reads the wrapped adapter, passes its failures on, and fills the cache; Redis failures cost nothing but the hit |
| CachingAdapter.CachingAdapter.Create | libraries/dbal/production/src/cache/caching_adapter.cpp:100-106 | A successful create drops the record under the id its result carries |
| CachingAdapter.CachingAdapter.Update | libraries/dbal/production/src/cache/caching_adapter.cpp:108-115 | A successful update drops the record |
| CachingAdapter.CachingAdapter.Remove | libraries/dbal/production/src/cache/caching_adapter.cpp:117-121 | A successful remove drops the record |
| CachingAdapter.CachingAdapter.Upsert | libraries/dbal/production/src/cache/caching_adapter.cpp:123-128 | A successful upsert drops the record under the id its result carries |
| CachingAdapter.CachingAdapter.WriteMany | libraries/dbal/production/src/cache/caching_adapter.cpp:130-148 | A successful bulk write drops the keys that match the entity's pattern among those the scan visits |
| CachingAdapter.CachingAdapter.InvalidateRecord | libraries/dbal/production/src/cache/caching_adapter.cpp:154-163 | Nothing for an empty id; a delete that fails changes nothing |
| CachingAdapter.CachingAdapter.InvalidateEntity | libraries/dbal/production/src/cache/caching_adapter.cpp:165-182 | The cursor loop removes, batch by batch, the visited keys that match the entity's pattern, unless UNLINK fails, until it is done or a call throws |
| CachingAdapter.WrittenIdIff | libraries/dbal/production/src/cache/caching_adapter.cpp:23-30 | The id a write invalidates under is the record's own text, or its integer in decimal digits, and nothing if it has neither |
| CacheCoherence.ReadMeaning | libraries/dbal/production/src/cache/caching_adapter.cpp:68-94 | A read answers from the cache if and only if GET answers and finds an entry that is live and parses; otherwise it passes the wrapped adapter's answer on, and stores a success when SETEX goes through |
| CacheCoherence.WriteMeaning | libraries/dbal/production/src/cache/caching_adapter.cpp:100-163 | A write of one record drops exactly that record's key, when it succeeded under an id and DEL went through |
| CacheCoherence.ScanMeaning | libraries/dbal/production/src/cache/caching_adapter.cpp:165-182 | A scan drops a key if and only if some turn unlinks it before any throws |
| CacheCoherence.ManyMeaning | libraries/dbal/production/src/cache/caching_adapter.cpp:130-148 | A bulk write drops, when it succeeded, exactly the keys its scan unlinks |
| CacheCoherence.StepKeepsCoherence | libraries/dbal/production/src/cache/caching_adapter.cpp:68-182 | Any operation that runs without failures and is no rollback keeps every cached record equal to the wrapped adapter's |
| CacheCoherence.ExactCoherence | libraries/dbal/production/src/cache/caching_adapter.cpp:68-182 | Over any such run, bulk writes included, every read through the cache returns what the wrapped adapter's read would |
| CacheCoherence.StoredIsServedUntilExpiry | libraries/dbal/production/src/cache/caching_adapter.cpp:71-93 | A stored value is served exactly until its time to live is over, whatever the wrapped adapter would say |
| CacheCoherence.RollbackCoherence | libraries/dbal/production/src/cache/caching_adapter.cpp:226-229 | A transaction that begins with a coherent cache, runs cleanly and is rolled back to whatever state leaves the cache coherent if and only if no record the rollback changes is cached by its history: read and stored since the last write on it, a bulk write being one on every record of its entity, or, with no write on it, cached at the start |
| CacheCoherence.FullRollbackCoherence | libraries/dbal/production/src/cache/caching_adapter.cpp:226-229 | When the rollback gives back all that the transaction found, the condition is that none of the records it takes back was read through the cache, and stored, after the last write on it |
| CacheCoherence.CoherentIffReadsAgree | libraries/dbal/production/src/cache/caching_adapter.cpp:68-94 | The cache is coherent if and only if at every instant, whatever Redis does, a read returns the wrapped adapter's own |
| CacheCoherence.RollbackCanServeStale | libraries/dbal/production/src/cache/caching_adapter.cpp:229 | Begin, update, read through the cache, roll back: every step before the rollback is clean, and the record is still served as the transaction left it |
| CacheStaleness.StepKeeps | libraries/dbal/production/src/cache/caching_adapter.cpp:68-182 | Every step of any reader, writer, clock or invalidation keeps every cached entry traceable to a wrapped read and a fill |
| CacheStaleness.BoundedStaleness | libraries/dbal/production/src/cache/caching_adapter.cpp:68-182 | In every interleaving with every pattern of failures, rollbacks included, a hit's value was read from the wrapped adapter for that entity and id less than the time to live plus that reader's own read-to-fill gap earlier |
| CacheStaleness.UninterruptedReaderIsRead | libraries/dbal/production/src/cache/caching_adapter.cpp:68-94 | A reader whose three steps are not interrupted does exactly what a sequential read does |
| ElasticsearchAdapter.ElasticsearchAdapter.Create | libraries/dbal/production/src/adapters/elasticsearch/elasticsearch_adapter.cpp:135-167 | Stores the record under its own id or a generated one, and records the create while a transaction is active |
| ElasticsearchAdapter.ElasticsearchAdapter.Read | libraries/dbal/production/src/adapters/elasticsearch/elasticsearch_adapter.cpp:169-193 | The stored document, or a failure: no schema, failed call, or not there |
| ElasticsearchAdapter.ElasticsearchAdapter.Update | libraries/dbal/production/src/adapters/elasticsearch/elasticsearch_adapter.cpp:195-224 | Records the old document before the write, then stores the new fields merged over it |
| ElasticsearchAdapter.ElasticsearchAdapter.Remove | libraries/dbal/production/src/adapters/elasticsearch/elasticsearch_adapter.cpp:226-255 | Within a transaction records the document if reading it succeeds, then deletes; fails when it is not there |
| RollbackTheorems.ReadMeaning | libraries/dbal/production/src/adapters/elasticsearch/elasticsearch_adapter.cpp:169-193 | A read succeeds if and only if there is a schema, an id and a document and its call goes through; it answers the document and changes nothing |
| RollbackTheorems.CreateMeaning | libraries/dbal/production/src/adapters/elasticsearch/elasticsearch_adapter.cpp:135-167 | A create succeeds if and only if there is a schema and an id and its call goes through; it stores and answers the document with that id in it and logs an undo, or changes nothing |
| RollbackTheorems.UpdateMeaning | libraries/dbal/production/src/adapters/elasticsearch/elasticsearch_adapter.cpp:195-224 | An update succeeds if and only if its read and its write do; it logs the document read even when the write fails |
| RollbackTheorems.RemoveMeaning | libraries/dbal/production/src/adapters/elasticsearch/elasticsearch_adapter.cpp:226-255 | A delete succeeds if and only if the document is there and its call goes through; inside a transaction it logs the document exactly when reading it succeeded |
| ElasticsearchAdapter.Merge | libraries/dbal/production/src/adapters/elasticsearch/elasticsearch_adapter.cpp:207-212 | The merge loop, in any field order, gives the old document overridden by the new fields |
| ElasticsearchAdapter.ElasticsearchAdapter.BeginTransaction | libraries/dbal/production/src/adapters/elasticsearch/elasticsearch_adapter.cpp:107-113 | Fails while a transaction is active, else starts an empty log |
| ElasticsearchAdapter.ElasticsearchAdapter.CommitTransaction | libraries/dbal/production/src/adapters/elasticsearch/elasticsearch_adapter.cpp:115-122 | Fails without an active transaction, else drops the log |
| ElasticsearchAdapter.ElasticsearchAdapter.RollbackTransaction | libraries/dbal/production/src/adapters/elasticsearch/elasticsearch_adapter.cpp:124-131 | Fails without an active transaction, else undoes it and drops it |
| ElasticsearchAdapter.CompensatingTransaction.Record | libraries/dbal/production/src/core/compensating_transaction.cpp:20-37 | Appends to the log while active |
| ElasticsearchAdapter.CompensatingTransaction.Rollback | libraries/dbal/production/src/core/compensating_transaction.cpp:39-94 | Walks the log from its length at entry down, undoing each entry through the adapter, whose hooks append to it meanwhile; what they append is never undone and is dropped; fails if any undo failed |
| ElasticsearchAdapter.CompensatingTransaction.Commit | libraries/dbal/production/src/core/compensating_transaction.cpp:96-101 | Drops the log |
| ElasticsearchAdapter.CompensatingTransaction.Destroy | libraries/dbal/production/src/core/compensating_transaction.cpp:13-18 | A transaction destroyed while active rolls back |
| RollbackTheorems.UndosDo | libraries/dbal/production/src/core/compensating_transaction.cpp:48-83 | Undos that all succeed undo the log in reverse over the documents; they do succeed when no call fails and each entry finds what it needs |
| RollbackTheorems.RollbackTriesEveryEntry | libraries/dbal/production/src/core/compensating_transaction.cpp:48-93 | A rollback undoes every entry of the log, last first, each in the world the one before left, however many fail; it succeeds if and only if none did |
| RollbackTheorems.PlaceIsRestored | libraries/dbal/production/src/core/compensating_transaction.cpp:48-93 | Even when undos fail elsewhere, a record whose own undos all succeed is there again if and only if it was, with every field it had and precisely the fields more that RollbackRestores names |
| RollbackTheorems.OpKeepsRestorable | libraries/dbal/production/src/adapters/elasticsearch/elasticsearch_adapter.cpp:135-255 | Every operation of a transaction, whichever of its calls fail, keeps the log able to restore the starting documents |
| RollbackTheorems.RollbackRestores | libraries/dbal/production/src/core/compensating_transaction.cpp:39-94 | After any creates with fresh ids, updates that leave "id" alone and recorded deletes, a rollback whose undos all succeed leaves the same records, each with every field it had and precisely the fields more that successful updates set before any delete of it was recorded; hence exactly the same if and only if none of those fields was new |
| RollbackTheorems.FailedDeleteTakesFieldBack | libraries/dbal/production/src/core/compensating_transaction.cpp:71-79 | A delete that was recorded counts even when it failed: undoing it writes the snapshot back and takes away a field added after it |
| RollbackTheorems.QuietRollbackSucceeds | libraries/dbal/production/src/core/compensating_transaction.cpp:48-93 | Those undos do all succeed when no call fails from the first of them on |
| RollbackTheorems.OneOpUndoneExactly | libraries/dbal/production/src/core/compensating_transaction.cpp:48-83 | A single successful operation is undone exactly if and only if: a create replaced nothing, an update added no field, a delete's snapshot was read |
| BulkHandler.HandleBulkCreate | libraries/dbal/production/src/daemon/bulk_handler.cpp:10-85 | The loop with its early exits does what the theorems below are about; the route's tenant goes into items that name none |
| BulkHandler.HandleBulkUpdate | libraries/dbal/production/src/daemon/bulk_handler.cpp:87-176 | Likewise for updates; an item without id and data, or with an empty id, fails the batch |
| BulkHandler.HandleBulkDelete | libraries/dbal/production/src/daemon/bulk_handler.cpp:178-263 | Likewise for deletes; an item that is no text, or empty, fails the batch |
| BulkHandler.ItemsAreRequests | libraries/dbal/production/src/daemon/bulk_handler.cpp:48-226 | Every element becomes one item at its own place: a create of just that document with the route's tenant if it names none, an update or delete of the record it names, or a malformed item |
| BulkHandler.ReplyIsStored | libraries/dbal/production/src/daemon/bulk_handler.cpp:60-82 | What the answer shows of a success is the record then stored, or the id of the one that no longer is |
| BulkHandler.BulkAnswers | libraries/dbal/production/src/daemon/bulk_handler.cpp:21-82 | 400 for a body that is no array or empty, 500 while a transaction is open, both before anything is touched; otherwise success if and only if every item succeeds, and 400 if not |
| BulkHandler.BulkIsAllOrNothing | libraries/dbal/production/src/daemon/bulk_handler.cpp:40-82 | If every item succeeds all are applied, in order, and the answer holds the array's length and each item's result; otherwise the answer is 400, no transaction is open, and the records are as before up to added fields, exactly as before if and only if no update that was tried added a field to a record in place |
| BulkHandler.BulkCreateAndDeleteAreAtomic | libraries/dbal/production/src/daemon/bulk_handler.cpp:208-261 | Bulk create into fresh ids and bulk delete either apply every item or leave the store exactly as before |
| RateLimiter.SimpleRateLimiter.Allow | libraries/dbal/production/src/daemon/server_routes.cpp:278-292 | The method on its map does what the theorems below are about |
| RateLimiter.LessThanTwiceInAnyInterval | libraries/dbal/production/src/daemon/server_routes.cpp:273-298 | For a clock that never goes back, a key is allowed at most 2 * max_requests - 1 times in any half-open interval of window_seconds, and never when max_requests is not positive |
| RateLimiter.BoundIsReached | libraries/dbal/production/src/daemon/server_routes.cpp:273-298 | Whatever the positive limits, some calls reach that bound |
| RateLimiter.AtMostMaxPerWindow | libraries/dbal/production/src/daemon/server_routes.cpp:283-291 | No window of a key allows more than max_requests calls |
| RateLimiter.RefusedExactlyWhenFull | libraries/dbal/production/src/daemon/server_routes.cpp:288-291 | A call is refused if and only if its window has already allowed max_requests |
| RateLimiter.FirstOfEachWindow | libraries/dbal/production/src/daemon/server_routes.cpp:278-292 | With windows told from the calls alone - one opens at a key's first call and at each call that comes when the last has run out - exactly the first max_requests calls of each are allowed |
| RateLimiter.NoWindowNoCount | libraries/dbal/production/src/daemon/server_routes.cpp:278-292 | When window_seconds is not positive every call is allowed if and only if max_requests is positive |
| RateLimiter.KeysAreIndependent | libraries/dbal/production/src/daemon/server_routes.cpp:281 | A key is answered, call for call, as if no other key had ever called |
| CasTickets.CasTicketStore.Issue | libraries/dbal/production/src/cas/cas_ticket_store.cpp:32-53 | Stores a row with the ticket's hash, or fails and stores nothing |
| CasTickets.CasTicketStore.ValidateServiceTicket | libraries/dbal/production/src/cas/cas_ticket_store.cpp:55-101 | Reads the row, refuses it when consumed, expired or for another service, and otherwise consumes it |
| CasTickets.IssueMeaning | libraries/dbal/production/src/cas/cas_ticket_store.cpp:19-53 | Issuing succeeds if and only if the insert goes through and no row has that id or hash; the ticket starts with its kind and its row holds its hash, unconsumed, until now plus its time to live |
| CasTickets.SuccessMarksItsRow | libraries/dbal/production/src/cas/cas_ticket_store.cpp:55-100 | A validation changes nothing unless it succeeds, and then marks the row of its ticket and no other |
| CasTickets.ReadThenFinishIsValidate | libraries/dbal/production/src/cas/cas_ticket_store.cpp:55-101 | A read followed at once by its finish is the uninterrupted validation |
| CasTickets.SuccessIsGenuine | libraries/dbal/production/src/cas/cas_ticket_store.cpp:72-100 | In every interleaving a success is for a ticket issued earlier, for its stored service and before expiry, and answers the user and tenant it was issued to |
| CasTickets.SucceedsExactlyWhen | libraries/dbal/production/src/cas/cas_ticket_store.cpp:72-95 | A validation of an issued ticket succeeds if and only if the update goes through, it has not expired, the service matches, and none had succeeded when its row was read |
| CasTickets.SuccessReadBeforeConsumption | libraries/dbal/production/src/cas/cas_ticket_store.cpp:63-95 | In every interleaving every success read its row before any other success consumed it, hence before the first consumption |
| CasTickets.AtMostOneSuccess | libraries/dbal/production/src/cas/cas_ticket_store.cpp:55-101 | With validations run one at a time a ticket succeeds at most once |
| CasTickets.OverlapSucceedsTwice | libraries/dbal/production/src/cas/cas_ticket_store.cpp:89-92 | Two validations that both read before either writes both succeed: the narrow window the header documents |
| SqlTemplates.SqlTemplateEngine.ReplaceVariables | libraries/dbal/production/src/adapters/sql_templates.hpp:65-107 | The in-place loop terminates though its string can grow, and equals reading the template once and replacing each slot by its value; inserted text is not scanned again |
| SqlTemplates.TemplatesAreTheirTexts | libraries/dbal/production/src/adapters/sql_templates.hpp:69-71 | Every text reads as exactly one template that writes it back, with each slot at the first "{{" and the first "}}" after it |
| SqlTemplates.ValueIff | libraries/dbal/production/src/adapters/sql_templates.hpp:53-98 | A slot stands for its name's value, or nothing, through its filter if there is one of that name; name and filter are what stands before and after the first pipe, blanks around them aside |
| SqlTemplates.RenderIff | libraries/dbal/production/src/adapters/sql_templates.hpp:65-107 | The result is a text with the first slot replaced by the value it stands for and the text after it rendered likewise, and no other text |
| SqlTemplates.BuiltInsMean | libraries/dbal/production/src/adapters/sql_templates.hpp:31-51 | The built-in filters quote in three ways, or leave no small or no capital letter |
| Yaml.ParseYaml | libraries/dbal/shared/tools/codegen/generate-types.js:13-68 | The loop over lines, writing into one growing tree through the object on top of its stack, computes the tree the theorems below are about |
| YamlSpelling.LineIff | libraries/dbal/shared/tools/codegen/generate-types.js:19-40 | A line is ignored, is without a colon, or is an entry with that indent, key and value if and only if it is spelled so, white space around key and value aside |
| YamlSpelling.ValueIff | libraries/dbal/shared/tools/codegen/generate-types.js:47-62 | A value text reads as a list, boolean, number or string if and only if it spells it; a list drops blank items, a string loses at most one quote of either kind at each end |
| YamlSpelling.TextSpellsItself | libraries/dbal/shared/tools/codegen/generate-types.js:60-62 | A bare text with no quote at its ends that is no list, boolean or number reads as itself, and so does any text between two single or two double quotes |
| YamlRoundTrip.PrintThenParse | libraries/dbal/shared/tools/codegen/generate-types.js:13-68 | The text of any document, whatever its spelling, its indents and its blank, comment and stray lines, is read back as the tree of maps it stands for |
| YamlRoundTrip.EveryTextIsLaidOut | libraries/dbal/shared/tools/codegen/generate-types.js:13-68 | Every text is the text of such a document, so that the tree read is always that document's |
| YamlRoundTrip.TreesReadBack | libraries/dbal/shared/tools/codegen/generate-types.js:13-68 | Every tree of maps over values that can be written has a text, at every base indent, that is read back as it |
| YamlRoundTrip.PlainValuesAreWritable | libraries/dbal/shared/tools/codegen/generate-types.js:47-62 | Booleans, numbers, lists of plain items and texts of one line can be written |
| YamlRoundTrip.IgnoredLinesDoNotMatter | libraries/dbal/shared/tools/codegen/generate-types.js:24-25 | A blank or comment line put anywhere into any text does not change the result |
| YamlRoundTrip.StackIsIncreasing | libraries/dbal/shared/tools/codegen/generate-types.js:30-46 | After any lines the indents on the stack grow strictly from bottom to top |

## Left out

- Error codes and messages: a failed call is `Err` or None, a rejected bulk request an HTTP status; logging is left out.
- JSON text encoding and number parsing are functions in a codec. nlohmann::json writes the doubles that are no number as null, and refuses text that is not UTF-8: the cache theorems ask for round trips only of the values the wrapped adapter's reads return.
- Repeated node keys in `topologicalOrder` that have edges: the schema's unique index keeps them out. A repeated root is queued once per repeat and releases its targets each time, and a repeated node with predecessors is queued once, so on an acyclic graph the input can come back or an order can pass the size test that breaks an edge (GraphTheorems.RepeatsCanMisorder). The result is a permutation all the same.
- The queries around `buildWorkflow` are not modelled: a query's rows are an input, and exceptions inside loading, which only rows that are no objects can cause, are left out.
- Executor: what a step does to the variables and the client's data is any function of the node and the world; `execute` and `parseNodes`, which read workflow files, are left out.
- CacheCoherence.ExactCoherence: rollbacks are excluded, because the source forwards them without invalidating; CacheCoherence.RollbackCoherence says exactly when one is harmless.
- CachingAdapter.CachingAdapter.WriteMany: stands for createMany, updateMany and deleteMany, which differ only in what the wrapped adapter does; list, search and the other pass-throughs are left out, and `tryCreate` too.
- CacheKey.PatternMatchesEntity: the glob's character classes are left out; routed names hold no bracket.
- A Redis DEL that throws is taken to have removed the key or not; SCAN yields the keys it visits that match, and is known by its guarantee that it visits every key that stays present.
- An HTTP call of the document store that fails is taken to have changed nothing, and a document without an id, or with an id that is not text, cannot be stored: the source would raise an exception for the latter.
- The adapter's list, findFirst, findByField, upsert and the ...Many operations are not recorded for rollback and are left out.
- ElasticsearchAdapter.CompensatingTransaction.Rollback: the log is walked by index; what appending during the walk does to C++ iterators is outside the model.
- BulkHandler.HandleBulkCreate: items are objects and exceptions out of the loop are left out; the same holds for the other two handlers, where an id given as a number counts as its text.
- BulkHandler.BulkIsAllOrNothing: asks that the rollback's undos succeed, or that no call fails from the first of them on; the handlers ignore a rollback's failure.
- RateLimiter.AtMostMaxPerWindow: for a positive window, as everywhere in the source; the interval bound holds for any. Counter overflow is left out.
- CasTickets: the hash is an injective function, and a call that reports an error is taken to have changed nothing. Ticket types other than by prefix play no part, as in the source.
- Yaml.ParseYaml: objects are reached by their path from the root instead of by reference; numbers stay the text they were read from, `isNaN` is a parameter, and the key `__proto__` is not treated apart.
- Upper- and lower-casing in filters and in BQL is that of the C locale's ASCII letters.
