# Verification of the spelunk algorithms

spelunk indexes source code and keeps a memory of notes for coding agents. Its own algorithms sit between a language
model, a vector store and a team server. This project models those algorithms in Dafny and proves what the code and its
documentation promise of them. `dafny verify dfyconfig.toml` checks all of it.

Six clusters are modelled, one module for a file or a part of one:

* **Portable dump** (`Json`, `JsonProofs`, `Digest`, `DumpFormat`, `DumpReadWrite`, `DumpProofs`, `DumpIdentity`,
  `DumpContents`, `DumpAccepted`, `StoreExtract`, `ExtractContents`, `StoreReader`, `Publish`). A store of any shape is
  extracted, rendered as JSON lines with a folded digest, re-read by the verifier and published by rename. Each row is
  found in the dump with its own values, and each value under its name in a line; a text is accepted exactly when it is
  a whole dump with sound links, which the extract of a store with row ids as keys always is; every truncation but the
  last newline is refused; and what is published is the dump that was rendered, or the proof names two different texts
  with one hash.
  The hash is an arbitrary function, so no axiom about SHA-256 (section 6.2 of FIPS 180-4) is used. Strings are escaped
  and read as section 7 of RFC 8259 says.
* **Embedding engine** (`CausalModel`, `ForwardMeaning`, `BatchModel`, `RepeatKv`, `FlatIndex`, `TokenBudget`,
  `EmbedEngine`). Tensors are sequences of exact reals and the weights are arbitrary functions of a position. The forward
  pass with masks, flat buffers and softmax is exactly a reference that has none of them: residual sums around weighted
  means of values. The causal mask keeps right padding from the last real token, and the rows of a batch do not see each
  other, through any number of layers. So sub-batches in any length-sorted order give each text the vector that it gets
  alone; no forward pass outgrows the memory budget.
* **LLM streams and fallback** (`EventStream`, `StreamParsers`, `TokenStream`, `ModeFallback`). Both parsers of event
  streams (a subset of section 9.2 of the WHATWG HTML standard) read the same however the network cuts the text into
  chunks, and composed they hand the upstream's contents to the client unchanged. The structured-output downgrade is a
  state machine of interleaved calls that share one cached mode.
* **Server store** (`ServerStore`, `SyncPaging`). Project stamps are written once; note rows are inserted, archived,
  superseded, deleted and backfilled; a client that pages by sync id while others write misses no note and gets none
  twice.
* **Rate limiter** (`RateLimiter`). Over whole timed runs, with a bound sharper than twice the limit, and a run that
  attains it.
* **Numeric cores** (`McNemar`, `Ranking`, `QuadraticFit`, `Int8`). The exact test against binomial masses, the ranking
  metrics, the least-squares fit by Cramer's rule, and int8 quantisation against true distances.

Code that loops or updates state is a method or a class, proved against a function of its inputs or its old state; the
lemmas are about those functions. `Text` and `Numbers` hold the string operations and the arithmetic that modules share.

Where the documentation says more than the code does, the exact condition is proved:

* The comment on int8 quantisation says that L2 ranking is preserved. Of vectors with components in [-1, 1], in every
  dimension, it is preserved for candidates whose true distances differ by more than a margin exactly when the margin is
  at least twice the root of the dimension over 127 (`Int8.OrderKeptExactly`). `Int8.OrderCanReverse` shows three unit
  vectors whose order is reversed; that the bound is sharp is not claimed of unit vectors alone.
* The completion endpoint is documented to end a failed generation with an `error` event
  (crates/spelunk-server/src/handlers/llm.rs:51-54). Its handler writes `done` after every outcome, so the client reports
  a failed generation exactly when the transport happens to break before the stream is whole
  (`TokenStream.FailureReportedExactly`); `TokenStream.FailureUnreported` shows one answered as a success.
* The comment on merging links says that the earliest time stamp wins; the code keeps the first one in row order. With
  the primary key of the edge tables the two agree (`StoreReader.CarriedEarliest`); for any table they agree exactly when
  no row is stamped before the first stamped one of its link (`StoreExtract.EarliestExactly`, and
  `StoreExtract.LaterRowEarlier` for two rows where they differ).
* The comment on publishing says that a failure at any point leaves no dump at all. Nothing is left at the target; the
  temporary file stays exactly when the rename fails, or the removal that another failure calls for
  (`Publish.TempLeftExactly`).

## Model

| member | source | states |
|---|---|---|
| Digest.Digester.PushLine | crates/spelunk-export/src/dump.rs:31-35 | A pushed line adds its digest to those so far. |
| Digest.Digester.Finish | crates/spelunk-export/src/dump.rs:41-47 | The footer digest hashes the concatenated record digests. |
| Digest.ConcatInOrder | crates/spelunk-export/src/dump.rs:41-47 | What is hashed for the footer has the digest of line `i` at place `64 * i`. |
| Digest.HexAt | crates/spelunk-export/src/dump.rs:50-57 | A byte is written as two lower-case hexadecimal digits, the high one first. |
| Digest.HexInjective | crates/spelunk-export/src/dump.rs:50-57 | Different byte strings have different hexadecimal digests. |
| Digest.RecordDigestsBind | crates/spelunk-export/src/dump.rs:31-39 | Equal record digests: equal records, or the first pair that differs is a hash collision. |
| Digest.FooterDigestBinds | crates/spelunk-export/src/dump.rs:25-57 | Equal footer digests: equal record sequences, or a function names two texts with one hash. |
| DumpFormat.TallyCounts | crates/spelunk-export/src/dump.rs:198-205 | The count of a kind is how many records have it, and only kinds that occur are counted. |
| DumpReadWrite.CountRecords | crates/spelunk-export/src/dump.rs:224-239 | The counting loops give the tally of the rendered records. |
| DumpReadWrite.Render | crates/spelunk-export/src/dump.rs:243-279 | The lines of the text show the header, each entry, project, command and relationship in order with all their fields, and the footer with the counts of each kind; the digests are those of the lines before the footer, and the footer digest is theirs. |
| DumpReadWrite.Reader.Take | crates/spelunk-export/src/dump.rs:328-368 | One line is refused, with that reason, exactly when the specification of re-reading refuses it; else the reader's state follows it. |
| DumpReadWrite.CheckLinks | crates/spelunk-export/src/dump.rs:380-393 | The first repeated reference is reported, else the first link end that is no reference. |
| DumpReadWrite.VerifyRendered | crates/spelunk-export/src/dump.rs:301-399 | The verifier accepts exactly the texts that are whole dumps; its loops decide as the specification of re-reading does, errors included. |
| DumpProofs.RecordReadsBack | crates/spelunk-export/src/dump.rs:332-366 | The kind, reference and link ends that are read from a rendered record are its own. |
| DumpContents.RecordShown | crates/spelunk-export/src/dump.rs:92-171 | The line of a record parses to an object with the value of each field under its name, nothing for an absent option or an empty list, and no other field. |
| DumpContents.FooterShown | crates/spelunk-export/src/dump.rs:185-196 | The line of a footer shows its digest and each count under its kind. |
| DumpContents.CountsOfDump | crates/spelunk-export/src/dump.rs:224-239 | The counts of a dump are the lengths of its three entity lists and the number of relationships of each kind, kinds without any left out. |
| DumpContents.RenderedDumpShown | crates/spelunk-export/src/dump.rs:243-279 | The lines of a rendered dump, one after another, show that dump. |
| DumpProofs.CountMapReadsBack | crates/spelunk-export/src/dump.rs:185-196 | A rendered count map reads back as the same map. |
| DumpProofs.RenderedDumpAccepted | crates/spelunk-export/src/dump.rs:243-279 | A rendered dump is accepted exactly when its references are unique and its links resolve, and then with the digests and counts that were rendered. |
| DumpAccepted.AcceptedExactly | crates/spelunk-export/src/dump.rs:301-399 | A text is accepted exactly if its first line is a header of this format and version, the lines between are entities and relationships, the last is a footer with their counts and with the digest of all lines before it, references are unique, and links resolve. |
| DumpAccepted.WholeVerifies | crates/spelunk-export/src/dump.rs:395-398 | What is returned for it are the digests of those lines and the counts. |
| DumpProofs.AcceptedCovers | crates/spelunk-export/src/dump.rs:370-378 | Of any accepted text, the footer digest is that of all lines before the footer, and they are what is returned. |
| DumpProofs.AcceptedIsWhatWasRendered | crates/spelunk-export/src/lib.rs:116-130 | A landed file with the expected digests holds exactly the rendered lines, up to a named collision. |
| DumpProofs.AcceptedDigestBinds | crates/spelunk-export/src/dump.rs:370-378 | Two accepted texts with one footer digest hold the same lines, up to a named collision. |
| DumpIdentity.RecordFixed | crates/spelunk-export/src/dump.rs:92-171 | No field is lost: records of any kind that are printed alike are the same record. |
| DumpIdentity.LinesFixDump | crates/spelunk-export/src/dump.rs:243-269 | The lines that the digest covers determine the dump, its time and its generator. |
| DumpIdentity.DigestFixesDump | crates/spelunk-export/src/dump.rs:25-57 | Dumps with one footer digest are the same dump, up to a named collision. |
| DumpIdentity.LandedFixesDump | crates/spelunk-export/src/lib.rs:116-130 | A file is accepted with the digests of at most one dump, up to a named collision. |
| DumpProofs.TruncatedDumpRefused | crates/spelunk-export/src/dump.rs:301-372 | Every proper prefix of a rendered dump is refused, but the one without the last newline, which reads as the whole. |
| JsonProofs.StringRoundTrip | crates/spelunk-export/src/dump.rs:253-276 | A string written with JSON escapes reads back, whatever follows it. |
| JsonProofs.ValueRoundTrip | crates/spelunk-export/src/dump.rs:253-276 | A printed value is read as that value and reading stops at its end. |
| JsonProofs.DocumentRoundTrip | crates/spelunk-export/src/dump.rs:332-333 | Printing and then parsing gives the value back. |
| JsonProofs.TruncatedObjectRefused | crates/spelunk-export/src/dump.rs:332-333 | No proper prefix of a printed object parses. |
| Text.LinesOfUnlines | crates/spelunk-export/src/dump.rs:301-305 | Cutting into lines undoes writing lines, with or without an unfinished last one. |
| Text.LinesCut | crates/spelunk-export/src/dump.rs:301-305 | A line may end in a carriage return and a newline, and neither is part of it. |
| Text.StringLessAt | crates/spelunk-export/src/source.rs:236-236 | Strings are ordered by the first character in which they differ, and before their continuations. |
| ExtractContents.ListLists | crates/spelunk-export/src/source.rs:78-91 | A list column is cut at every comma; its items are the parts trimmed of white space, in order, the blank ones left out. |
| ExtractContents.ExtractHoldsContents | crates/spelunk-export/src/source.rs:193-360 | Entry `i` has the kind, title, body and creation time of row `i`, the value of every optional column the table has, its lists, its reference, and the slug of its project in a table of several projects, where it has no stable id; and so for projects and usage. |
| ExtractContents.ExtractHoldsLinks | crates/spelunk-export/src/source.rs:263-293 | Each supersede column, edge row and dependency is carried with its kind and ends if both ends exist, and else has its warning; every relationship is one of them, stamped as the first stamped edge row of its triple. |
| ExtractContents.FailureMeans | crates/spelunk-export/src/source.rs:178-191 | A store is read exactly if its notes have the five required columns and no query that its tables call for fails; the error names the missing columns or the query. |
| StoreExtract.LinksAccountedFor | crates/spelunk-export/src/source.rs:236-293 | Each link of the store resolves or has one warning, and the resolved ones are those whose ends both exist. |
| StoreExtract.MergesOnce | crates/spelunk-export/src/source.rs:429-487 | After merging both encodings, there is one relationship for a kind and its two ends. |
| StoreExtract.DepsAccountedFor | crates/spelunk-export/src/source.rs:526-546 | Each dependency between projects is carried or has one warning. |
| StoreReader.ReadLifecycle | crates/spelunk-export/src/source.rs:265-280 | A supersede column is merged, from successor to predecessor, or warned about. |
| StoreReader.ReadSupersedes | crates/spelunk-export/src/source.rs:265-280 | The loop over them leaves the merge of all of them. |
| StoreReader.ReadEdge | crates/spelunk-export/src/source.rs:446-484 | An edge row is merged into a relationship of its triple, the first time stamp kept, or warned about. |
| StoreReader.ReadEdges | crates/spelunk-export/src/source.rs:429-487 | The loop over the edge rows keeps the merge exact. |
| StoreExtract.EarliestExactly | crates/spelunk-export/src/source.rs:459-481 | The stamps kept are the earliest exactly when no link is stamped before the first stamped one of its triple. |
| StoreExtract.LaterRowEarlier | crates/spelunk-export/src/source.rs:459-481 | Two rows of one triple for which the first stamp is not the earliest. |
| StoreReader.KeyedEarliest | crates/spelunk-core/migrations/015_memory_edges.sql:5-11 | With the primary key of the edge tables, every merged relationship has the earliest stamp of its links. |
| StoreReader.CarriedEarliest | crates/spelunk-export/src/source.rs:459-481 | So has every relationship of an extract. |
| StoreReader.ReadLinks | crates/spelunk-export/src/source.rs:236-293 | Exactly one relationship for each triple that some link resolves to, stamped with the first time among its edge rows, which is the earliest with the product's schema; one warning for each other link, in order. |
| StoreReader.InOrder | crates/spelunk-export/src/source.rs:292-292 | The merged set is walked in order, each relationship once. |
| StoreReader.ReadDeps | crates/spelunk-export/src/source.rs:526-546 | The loop over dependency rows carries the resolvable ones and warns about the rest, in order. |
| StoreReader.ExtractSnapshot | crates/spelunk-export/src/source.rs:118-141 | A store is read whole, whatever optional tables and columns it has: each row and each link is in the extract as `ExtractHoldsContents` and `ExtractHoldsLinks` say, the merged links in order; else the error is the first thing that fails. |
| StoreReader.ReferencesDistinct | crates/spelunk-export/src/source.rs:567-577 | References never clash, within or across the prefixes of entries, projects and usage. |
| StoreReader.ExtractWellLinked | crates/spelunk-export/src/source.rs:118-141 | Every extract has unique references and resolvable links, however many links of the store are broken. |
| Publish.WithExtensionSibling | crates/spelunk-export/src/lib.rs:97-97 | The temporary file lies in the directory of the published one. |
| Publish.TempPathBeside | crates/spelunk-export/src/lib.rs:97-97 | It has the name of the published file with the extension `partial` in place of its own. |
| Publish.WriteVerified | crates/spelunk-export/src/lib.rs:94-133 | When a file is published and what it holds, or the first thing that failed; the whole disk after either; a file that was at the temporary path before is neither overwritten nor removed. |
| Publish.TempLeftExactly | crates/spelunk-export/src/lib.rs:80-83 | When a failed run leaves its temporary file behind. |
| Publish.HeldDumpUnique | crates/spelunk-export/src/lib.rs:116-130 | A published file holds the records of one dump, up to a named collision. |
| Publish.ExtractAccepted | crates/spelunk-export/src/dump.rs:301-399 | For every store with row ids as keys, the rendered extract is accepted with exactly the digests and counts that rendering it gives. |
| Publish.Export | crates/spelunk-export/src/lib.rs:59-74 | A published export holds the lines of the store's extract, up to a collision, and the extract holds every row and link of the store; on a faultless disk every readable store is published and its lines show the extract. |
| CausalModel.MaskAt | crates/spelunk-embed/src/embedder_native.rs:554-559 | The flat mask buffer is 0 on and below the diagonal and minus infinity above. |
| CausalModel.LayersOfPrefix | crates/spelunk-embed/src/embedder_native.rs:447-507 | Through any number of layers, the first `n` positions depend on the first `n` alone. |
| CausalModel.ForwardOfPrefix | crates/spelunk-embed/src/embedder_native.rs:350-361 | Cutting or padding a sequence changes no hidden state before the cut. |
| CausalModel.PaddingInert | crates/spelunk-embed/src/embedder_native.rs:413-444 | Right padding never reaches the last real token. |
| ForwardMeaning.ForwardMeans | crates/spelunk-embed/src/embedder_native.rs:350-361 | For a positive exponential, hidden states are those of the forward pass if and only if they come from the embedded tokens by one reference step a layer and the final norm. |
| ForwardMeaning.LayerMeans | crates/spelunk-embed/src/embedder_native.rs:447-454 | Each component after a layer is what was there, plus that component of the projected heads, plus that component of the gated projection of this sum. |
| ForwardMeaning.HeadMeans | crates/spelunk-embed/src/embedder_native.rs:456-507 | A head's component times the sum of the weights up to its position is the weighted sum of the values up to it; a weight is the exponential of the scaled product of normed and rotated query and key heads. |
| ForwardMeaning.AttentionWeights | crates/spelunk-embed/src/embedder_native.rs:494-498 | The weights of a position are not negative, sum to one, and are zero exactly for what follows it. |
| ForwardMeaning.EqualScoresMean | crates/spelunk-embed/src/embedder_native.rs:494-499 | With equal scores a head's output is the plain mean of the values up to its position. |
| ForwardMeaning.ContextReachesLastToken | crates/spelunk-embed/src/embedder_native.rs:447-507 | Two sequences with one last token whose last hidden states differ. |
| BatchModel.LayersOfRow | crates/spelunk-embed/src/embedder_native.rs:447-507 | Through any number of layers under one mask, a row of a batch depends on that row alone. |
| BatchModel.ForwardOfRow | crates/spelunk-embed/src/embedder_native.rs:422-431 | The batched pass gives every row the hidden states that it gets on its own. |
| RepeatKv.RepeatKvInterleaves | crates/spelunk-embed/src/embedder_native.rs:47-59 | Concatenating along the sequence axis and reshaping puts input head `h / n` at output head `h`, for all sizes. |
| RepeatKv.QueryHeadsPaired | crates/spelunk-embed/src/embedder_native.rs:484-492 | Query head `j` gets a copy of key/value head `j / (n_head / n_kv_head)`. |
| TokenBudget.ISqrtBounds | crates/spelunk-embed/src/embedder_native.rs:107-113 | The integer square root is exact. |
| TokenBudget.TokenCapExact | crates/spelunk-embed/src/embedder_native.rs:107-113 | Of the lengths above one that the model takes, those up to the cap are exactly those whose scores, four bytes a head and a pair of tokens, fit the budget. |
| TokenBudget.LoadedCaps | crates/spelunk-embed/src/embedder_native.rs:102-106 | The caps that the comment gives: 5792 and 8192 tokens. |
| TokenBudget.PassWithinBudget | crates/spelunk-embed/src/embedder_native.rs:62-123 | The attention scores of every pass that `EmbedEngine` can start take at most 2 GiB, or 4 GiB with more than 16 GiB of RAM. |
| EmbedEngine.L2Normalise | crates/spelunk-embed/src/embedder_native.rs:665-670 | The in-place loop divides by the norm, or leaves a zero vector. |
| EmbedEngine.NormalisedIsUnit | crates/spelunk-embed/src/embedder_native.rs:665-670 | A vector that is not zero comes out with length one. |
| EmbedEngine.NormalisedPointsAlong | crates/spelunk-embed/src/embedder_native.rs:665-670 | Each component times the norm is the component before. |
| EmbedEngine.ContextReachesEmbedding | crates/spelunk-embed/src/embedder_native.rs:391-411 | Two token sequences with one last token whose embeddings differ. |
| EmbedEngine.PaddedRow | crates/spelunk-embed/src/embedder_native.rs:415-421 | Row `i` of the flat buffer is sequence `i` and its padding. |
| EmbedEngine.BuildFlat | crates/spelunk-embed/src/embedder_native.rs:415-421 | The filling loop builds that buffer. |
| EmbedEngine.BatchMatchesSingles | crates/spelunk-embed/src/embedder_native.rs:413-444 | The padded batch gives each sequence, at its last real token, the hidden state it gets alone. |
| EmbedEngine.EmbedSequential | crates/spelunk-embed/src/embedder_native.rs:391-411 | One pass for each sequence, with the flag looked at in between, up to the first that fails. |
| EmbedEngine.EmbedPadded | crates/spelunk-embed/src/embedder_native.rs:413-444 | The padded pass returns what embedding each sequence alone returns, or fails. |
| EmbedEngine.EmbedBatch | crates/spelunk-embed/src/embedder_native.rs:378-445 | Either way of embedding a sub-batch returns the same, and its passes are within bounds. |
| EmbedEngine.SortByLength | crates/spelunk-embed/src/embedder_native.rs:758-761 | The order is a permutation of the texts by length. |
| EmbedEngine.TokenizeAll | crates/spelunk-embed/src/embedder_native.rs:735-756 | All texts truncated to the cap, or the first error in input order. |
| EmbedEngine.AllTokensMeans | crates/spelunk-embed/src/embedder_native.rs:735-756 | Every text has the leading tokens of its encoding, up to the cap; or the first text without an encoding, or with an empty one, decides the error. |
| EmbedEngine.UncancelledEmbedsAll | crates/spelunk-embed/src/embedder_native.rs:702-809 | Each vector returned is the direction of the last hidden state that the reference computes over its text's leading tokens. |
| EmbedEngine.EmbedSorted | crates/spelunk-embed/src/embedder_native.rs:758-809 | The loop over length-sorted sub-batches returns what embedding each sequence alone returns, cancellation and failed passes aside. |
| EmbedEngine.EmbedWithCancel | crates/spelunk-embed/src/embedder_native.rs:702-809 | Without cancellation, the vector of each text alone in input order, or the error of its tokens, its vectors or a failed pass; cancelled exactly if the flag is seen, with whole sub-batches reported; no pass at all if it was set at the start. |
| EventStream.DrainMeans | crates/spelunk-cli/src/server_client.rs:498-503 | Splitting at the leftmost blank line and draining reads what reading the whole text at once does. |
| EventStream.DrainAppend | crates/spelunk-cli/src/server_client.rs:498-503 | Text that comes later changes nothing that was drained or ended. |
| EventStream.UnterminatedTailDropped | crates/spelunk-cli/src/server_client.rs:498-503 | Text after the last blank line has no effect. |
| EventStream.BlankIsLeftmost | crates/spelunk-cli/src/server_client.rs:498-503 | An event ends at the leftmost place of two newlines in a row. |
| EventStream.EventsCut | crates/spelunk-cli/src/server_client.rs:498-503 | The text before that place is an event and the rest is cut in the same way. |
| EventStream.NoEvents | crates/spelunk-cli/src/server_client.rs:498-503 | Text without a blank line holds no event. |
| EventStream.PayloadsOfLine | crates/spelunk-cli/src/server_client.rs:505-511 | A line of an event counts if it begins with `data: `, and carries what follows. |
| StreamParsers.ClientEvent | crates/spelunk-cli/src/server_client.rs:505-532 | The line loop of an event appends tokens and stops at `done` or `error`. |
| StreamParsers.LlmComplete | crates/spelunk-cli/src/server_client.rs:492-536 | The answer depends on the concatenated text alone: it is the contents of the tokens before the first `done`, the message of the first `error` if that is earlier, and else what has come, unless reading failed. |
| StreamParsers.ClientAnswerMeans | crates/spelunk-cli/src/server_client.rs:505-536 | The same of the answer as a function of the text. |
| StreamParsers.ServerEvent | crates/spelunk-server/src/server_llm.rs:337-367 | The same for the upstream's events, up to `[DONE]`. |
| StreamParsers.ServerChunk | crates/spelunk-server/src/server_llm.rs:347-364 | Contents of the choices are sent in order, until the receiver is gone. |
| StreamParsers.RelayTokens | crates/spelunk-server/src/server_llm.rs:327-385 | Tokens and outcome depend on the concatenated text alone: the contents of the choices before `[DONE]` that are not empty, in order, as many as are received; whether reasoning was seen; and an error if reading failed before `[DONE]`. |
| StreamParsers.RelaySound | crates/spelunk-server/src/server_llm.rs:327-385 | Wherever the relay can end, what it reports agrees with the tokens sent, and tokens are never taken back. |
| StreamParsers.PayloadsRelay | crates/spelunk-server/src/server_llm.rs:337-367 | From any point, the relay sends the upstream's tokens in order and ends as the receiver or the end marker makes it. |
| TokenStream.WriteStream | crates/spelunk-server/src/handlers/llm.rs:159-167 | The handler writes an event for each token and then `done`, whatever the outcome of the generation. |
| TokenStream.EventTexts | crates/spelunk-server/src/handlers/llm.rs:159-167 | A token is one data line with an object of kind `token` and its content, the end one of kind `done`, and a keep-alive a comment. |
| TokenStream.TokenReads | crates/spelunk-cli/src/server_client.rs:513-521 | The JSON of any token is one line, and the client finds the token in it again. |
| TokenStream.StreamDelivered | crates/spelunk-cli/src/server_client.rs:492-536 | The client answers with the tokens of the stream joined, whatever their characters, the keep-alives between them, the chunks, and what follows `done`. |
| TokenStream.CutStreamAnswers | crates/spelunk-cli/src/server_client.rs:492-536 | From every proper prefix of a stream it answers with the tokens of the events that came whole, or with an error if the transport broke. |
| TokenStream.ErrorExactly | crates/spelunk-cli/src/server_client.rs:496-498 | The client errs exactly when the transport breaks before the whole stream has come. |
| TokenStream.FailureReportedExactly | crates/spelunk-server/src/handlers/llm.rs:51-54 | A failed generation is reported as an error exactly when the transport breaks early. |
| TokenStream.FailureUnreported | crates/spelunk-server/src/handlers/llm.rs:51-54 | A generation that fails after a token is answered with that token. |
| TokenStream.RelayToClient | crates/spelunk-server/src/handlers/mod.rs:166-187 | Relay, handler and client composed answer with the upstream's contents, however both texts are cut, and also if the upstream broke off. |
| ModeFallback.ServerLlm.TryMode | crates/spelunk-server/src/server_llm.rs:245-319 | The tries of one mode are up to four requests; all but the last failed to send or came back with 408, 425, 429 or 500 to 599, and the last decides: success, the next mode after 400 or 422, or the end. |
| ModeFallback.ServerLlm.Request | crates/spelunk-server/src/server_llm.rs:218-320 | A call tries modes from the cached one to weaker ones, each with a full set of tries; after up to three passing failures of the first mode a 2xx response is the answer, 400 or 422 leads to the next mode, and any other status is the end; the mode that succeeded is cached. |
| ModeFallback.FirstLeg | crates/spelunk-server/src/server_llm.rs:243-319 | The first request that is not retried decides, and how often each mode was sent. |
| ModeFallback.AdvanceOk | crates/spelunk-server/src/server_llm.rs:245-319 | A response keeps a call within its bounds and past no accepted mode. |
| ModeFallback.EveryRunKeeps | crates/spelunk-server/src/server_llm.rs:218-320 | Under any interleaving, the cached mode is 0 or the strongest accepted mode. |
| ModeFallback.CacheOnlyWeakens | crates/spelunk-server/src/server_llm.rs:110-117 | The cached mode never moves back toward a stronger one. |
| ModeFallback.EveryCallIsBounded | crates/spelunk-server/src/server_llm.rs:241-250 | Whatever it is answered, a call sends at most four requests of a mode and twelve in all. |
| ModeFallback.EndpointCallIsBounded | crates/spelunk-server/src/server_llm.rs:241-250 | So does every call to an endpoint with a fixed set of accepted modes. |
| ModeFallback.CachedModeSkipsRefusals | crates/spelunk-server/src/server_llm.rs:212-230 | Once the strongest accepted mode is cached, new calls send it alone. |
| ModeFallback.SuccessIsCached | crates/spelunk-server/src/server_llm.rs:274-281 | Once a call with a schema has succeeded, the cached mode is the one it succeeded in, whatever other calls do after it. |
| ServerStore.ServerDb.UpsertProject | crates/spelunk-server/src/db.rs:250-320 | A new slug is created with its stamp; a dimension of zero and a missing model are stamped; another dimension, and then another model, is refused and changes nothing. |
| ServerStore.StampsAgree | crates/spelunk-server/src/db.rs:264-305 | In any run of writes, all that a project accepts agree on the model, and on the dimension from the first that gives one. |
| ServerStore.StampDecides | crates/spelunk-server/src/db.rs:264-305 | After a stamp with a dimension, exactly the writes that repeat it are accepted. |
| ServerStore.ServerDb.AddNote | crates/spelunk-server/src/db.rs:352-396 | A note is appended, active, under a new row id and a new sync id greater than all before, with its embedding; a project that does not exist or a remote id in use there appends nothing, an embedding of the wrong dimension leaves the note without one. |
| ServerStore.ServerDb.ArchiveNote | crates/spelunk-server/src/db.rs:607-613 | The row with that id, in that project and active, becomes inactive and is else as before; every other row is unchanged; the answer is true exactly if there is such a row. |
| ServerStore.ServerDb.SupersedeNote | crates/spelunk-server/src/db.rs:615-622 | The same, with the successor recorded; if there is such a row and the successor is no row, the call fails and changes nothing. |
| ServerStore.ServerDb.DeleteNote | crates/spelunk-server/src/db.rs:681-691 | The row with that id in that project goes and the others stay in order, unless another row names it as its successor; its embedding goes in any case. |
| ServerStore.RetiredWellFormed | crates/spelunk-server/src/db.rs:607-622 | Archiving keeps row ids ascending and sync ids distinct. |
| ServerStore.DeletedWellFormed | crates/spelunk-server/src/db.rs:686-689 | So does deleting. |
| ServerStore.ServerDb.BackfillMissingSyncIds | crates/spelunk-server/src/db.rs:202-217 | Exactly the rows without a sync id get one, newer than all before and ascending in row order. |
| ServerStore.BackfillIdempotent | crates/spelunk-server/src/db.rs:196-201 | A second backfill changes nothing. |
| SyncPaging.SinceSelects | crates/spelunk-server/src/db.rs:664-671 | The query answers with exactly the active notes of the project after the cursor, strictly ascending. |
| SyncPaging.PageThenRest | crates/spelunk-server/src/db.rs:657-679 | A page leaves exactly the rows after its last one; a page shorter than the clamped limit leaves none. |
| SyncPaging.PagesAreTheQuery | crates/spelunk-server/src/db.rs:657-679 | Paging a fixed store ends for every limit and delivers what one unlimited query would. |
| SyncPaging.PullSince | crates/spelunk-cli/src/cli/cmd/memory/sync/pull.rs:40-77 | The client's loop, which stops at a short page, delivers each note after its cursor once, in order. |
| SyncPaging.PullKeepsConsistent | crates/spelunk-server/src/db.rs:657-679 | A page continues the deliveries without a gap. |
| SyncPaging.RunsKeepConsistent | crates/spelunk-server/src/db.rs:352-396 | Inserts, archives, deletions and backfills between pages open no gap. |
| SyncPaging.BackfillKeepsConsistent | crates/spelunk-server/src/db.rs:202-217 | Rows that a backfill makes visible come after everything delivered. |
| SyncPaging.DeliveryComplete | crates/spelunk-server/src/db.rs:649-679 | In any run deliveries are active notes of the project and ascend strictly; at a page shorter than the limit clamped to 1 to 500, every active note above the starting cursor has been delivered. |
| RateLimiter.Limiter.Check | crates/spelunk-server/src/rate_limiter.rs:36-56 | A window that opened less than its length ago runs on with its start and count, else one opens now; the request is admitted and counted exactly if the count is below the limit; a refusal changes nothing else, and no other principal is touched. |
| RateLimiter.RunBounded | crates/spelunk-server/src/rate_limiter.rs:36-56 | The invariant that ties a window entry to the admissions of an interval. |
| RateLimiter.WindowBound | crates/spelunk-server/src/rate_limiter.rs:36-56 | Any interval of one window length has at most `2 * max - 1` admissions of a principal. |
| RateLimiter.WindowBoundAttained | crates/spelunk-server/src/rate_limiter.rs:36-56 | A run attains that bound, so no smaller one holds. |
| RateLimiter.RefusedOnlyWhenFull | crates/spelunk-server/src/rate_limiter.rs:46-54 | A request is refused only if some interval of one window that reaches to it already has `max` admissions of its principal. |
| RateLimiter.AdmittedOnceQuiet | crates/spelunk-server/src/rate_limiter.rs:46-54 | A principal whose admissions all lie a window or more back is admitted, whatever was refused since. |
| RateLimiter.EntriesIndependent | crates/spelunk-server/src/rate_limiter.rs:36-56 | A principal's entry is that of a limiter fed only its own requests. |
| RateLimiter.DecisionsIndependent | crates/spelunk-server/src/rate_limiter.rs:36-56 | So is each of its decisions. |
| McNemar.TaskOutcomes | bench/paired_stats.py:45-58 | A task passes if at least half of its records say so, by the first outcome field they have; a record without an outcome is an error. |
| McNemar.CombIsFactorialQuotient | bench/paired_stats.py:108-108 | Binomial coefficients by Pascal's rule are the factorial quotients. |
| McNemar.RowSum | bench/paired_stats.py:108-109 | A row of them sums to the power of two. |
| McNemar.PValueIsTwoSidedMass | bench/paired_stats.py:103-109 | The p-value is the binomial mass of all outcomes at least as far from half as the observed one. |
| McNemar.PValueShape | bench/paired_stats.py:103-109 | It is symmetric, in (0, 1], and capped only for an even split. |
| McNemar.ExactCounts | bench/paired_stats.py:88-120 | The four counts are the numbers of shared tasks with each pair of outcomes and sum to all of them; the p-value is the mass of the discordant ones and significant below 0.05; without a shared task there is an error. |
| Ranking.RelevantShareALine | crates/spelunk-core/examples/chunk_quality_eval.rs:320-336 | Relevant chunks are those that share a line of the file with the query. |
| Ranking.SimilarityAdds | crates/spelunk-core/examples/chunk_quality_eval.rs:403-405 | The similarity is additive in a vector. |
| Ranking.SimilarityAlong | crates/spelunk-core/examples/chunk_quality_eval.rs:403-405 | Along one component it is the product of that component, which makes it the scalar product. |
| Ranking.RankBySimilarity | crates/spelunk-core/examples/chunk_quality_eval.rs:403-417 | A permutation of all chunks by falling similarity, ties in input order. |
| Ranking.OrderUnique | crates/spelunk-core/examples/chunk_quality_eval.rs:409-417 | That determines the ranking. |
| Ranking.MrrAtK | crates/spelunk-core/examples/chunk_quality_eval.rs:338-345 | The reciprocal of the first relevant position among the first `k`, or zero without one. |
| Ranking.RecallOfDistinct | crates/spelunk-core/examples/chunk_quality_eval.rs:347-359 | A recall lies in [0, 1] and is 1 exactly if every relevant chunk was examined. |
| Ranking.RecallCounts | crates/spelunk-core/examples/chunk_quality_eval.rs:347-359 | The recall times the number of relevant chunks is the number of those among the first `k`. |
| Ranking.RecallAtKGrows | crates/spelunk-core/examples/chunk_quality_eval.rs:347-359 | A larger `k` never lowers the recall. |
| Ranking.RecallAtBudget | crates/spelunk-core/examples/chunk_quality_eval.rs:381-401 | The greedy loop examines exactly the longest prefix that the budget pays for. |
| Ranking.RecallGrowsWithBudget | crates/spelunk-core/examples/chunk_quality_eval.rs:378-401 | Recall grows with the budget, is at most 1, and is 1 once the budget pays for all. |
| Ranking.GainAtMostIdeal | crates/spelunk-core/examples/chunk_quality_eval.rs:363-374 | The gain of a list is at most that of its hits ranked first, and equal only if they are. |
| Ranking.GainAdds | crates/spelunk-core/examples/chunk_quality_eval.rs:363-374 | The gain is additive over disjoint sets of relevant chunks. |
| Ranking.GainOfOne | crates/spelunk-core/examples/chunk_quality_eval.rs:363-374 | The gain of one relevant chunk is the weight of its place. |
| Ranking.NdcgIsQuotient | crates/spelunk-core/examples/chunk_quality_eval.rs:361-376 | nDCG times the ideal gain is the gain of the first `k` places, and zero if nothing is relevant or `k` is zero. |
| Ranking.NdcgNormalised | crates/spelunk-core/examples/chunk_quality_eval.rs:361-376 | nDCG lies in [0, 1] and is 1 exactly if something is relevant, `k` is positive and relevant chunks fill the ideal places. |
| Ranking.NdcgOfPermutation | crates/spelunk-core/examples/chunk_quality_eval.rs:361-376 | The same for a ranking of all chunks, where every ideal place exists. |
| QuadraticFit.Solve3x3 | crates/spelunk-embed/examples/embed_bench.rs:381-402 | Unless the determinant is within the tolerance of zero, Cramer's rule gives the one solution. |
| QuadraticFit.FitBatch | crates/spelunk-embed/examples/embed_bench.rs:337-379 | The fitted quadratic is the only one with the least sum of squared residuals; fewer than three points, or a determinant near zero, are skipped, which for whole-number lengths means at most two different ones. |
| QuadraticFit.PointsOfBatch | crates/spelunk-embed/examples/embed_bench.rs:340-344 | The points fitted are exactly the rows of the batch, in order, length and time. |
| QuadraticFit.ErrorOfChange | crates/spelunk-embed/examples/embed_bench.rs:352-371 | What any change of the coefficients does to the sum of squared residuals, in terms of the loop's sums. |
| QuadraticFit.DegenerateExactly | crates/spelunk-embed/examples/embed_bench.rs:381-393 | The equations are singular exactly when the points have at most two different lengths. |
| QuadraticFit.SkippedExactly | crates/spelunk-embed/examples/embed_bench.rs:381-393 | Of whole-number lengths, as single texts have, exactly the degenerate points are skipped. |
| QuadraticFit.FractionalSkipped | crates/spelunk-embed/examples/embed_bench.rs:390-393 | Three fractional lengths that are skipped though they are not degenerate. |
| Int8.BlobRoundTrip | crates/spelunk-core/src/embeddings/mod.rs:12-43 | Every vector reads back from its blob bit for bit, also before an incomplete tail. |
| Int8.BlobBytes | crates/spelunk-core/src/embeddings/mod.rs:12-18 | The four bytes of component `i` begin at `4 * i`, least significant first. |
| Int8.VectorRoundTrip | crates/spelunk-core/src/embeddings/mod.rs:38-43 | Every blob writes back, but for the bytes of an incomplete last group. |
| Int8.VecToInt8Blob | crates/spelunk-core/src/embeddings/mod.rs:27-31 | Each byte, read as a signed number, is the quantised component. |
| Int8.RoundNearest | crates/spelunk-core/src/embeddings/mod.rs:29-29 | Rounding is to the nearest integer, halves away from zero. |
| Int8.QuantiseFaithful | crates/spelunk-core/src/embeddings/mod.rs:20-31 | Quantisation keeps order and sign, errs by at most half a step on [-1, 1], and is 127 or -127 beyond. |
| Int8.QuantisedDistance | crates/spelunk-core/src/embeddings/mod.rs:20-36 | In any dimension the int8 distance is 127 times the true one, up to the root of the dimension. |
| Int8.OrderPreserved | crates/spelunk-core/src/embeddings/mod.rs:33-36 | Rescaled distances order two candidates rightly if their true distances differ by more than twice that root over 127. |
| Int8.OrderKeptExactly | crates/spelunk-core/src/embeddings/mod.rs:20-36 | Of vectors with components in [-1, 1], in every dimension, a margin keeps the order of all candidates exactly when it is at least twice the root of the dimension over 127. |
| Int8.OrderCanReverse | crates/spelunk-core/src/embeddings/mod.rs:20-26 | Without the margin the order can be reversed, for unit vectors too. |

## Left out

- Floating point: reals are exact, so rounding, overflow to infinity and the accumulation order of sums are not modelled. `derive_token_cap` takes an integer square root, which the f64 one equals below the clamp.
- RenderedDumpAccepted: is stated for fewer than 2^64 records, which is what the counts of the footer can hold.
- EmbedWithCancel: is stated for a head count that is a multiple of the key/value head count, without which the tensor shapes do not fit; whether an embedding is finite and which passes fail are arbitrary predicates, and a failing pass is not told from a vector that is not finite.
- ModeFallback: an endpoint accepts a fixed set of modes, refuses the others with 400 or 422 or a transient failure, and never refuses an accepted one; backoff delays and error texts are not modelled.
- StreamParsers: states chunk invariance over characters; a multi-byte character split across chunks is decoded lossily by the code.
- WriteStream: the event framing of the web framework is one data line and a blank line, and its keep-alive is an empty comment.
- WindowBound: is stated for a clock that does not run backwards; the mutex and its poisoning are not modelled.
- ServerStore: sync ids are numbers that each mint increases, in place of UUIDv7 strings (section 5.7 of RFC 9562) in text order; creation times and note edges are not modelled, and other database errors are not outcomes.
- UpsertProject: a database error between the two stamping updates is not modelled.
- SyncPaging: notes that were archived before a client saw them are not delivered as tombstones, as in the code; re-pushing and the client's own table are not modelled.
- JSON: of malformed texts, only truncated objects are proved to be refused; numbers beyond the range of f64 are read as numbers, which the parser of the code refuses.
- ExtractAccepted: is stated for stores whose note and project ids are unique and in query order, as their primary keys make them, and for fewer than 2^64 records.
- ExtractSnapshot: tables are typed rows in query order and a failing query is a whole outcome; SQL execution, the catalogue queries and opening the database are not modelled.
- Publish: a disk is a map of files with possible faults at each step; directories and permissions are not modelled.
- Render: the generator string and the time are parameters.
- ForwardMeans: is stated for an exponential that is positive everywhere, as the true one is.
- RefusedOnlyWhenFull: a limiter of no requests and no window, which refuses everything in no interval, is the one exception.
- CausalModel: projections, norms, rotary positions and the feed-forward part are arbitrary functions of one position, and the softmax has no maximum subtraction.
- Ranking: position weights are any positive, strictly decreasing ones in place of reciprocal logarithms; scores have no NaN, which the code rejects; sizes do not overflow.
- Acyclicity of supersession, which the code does not check.
- GGUF and tokenizer loading, model download, device selection, nearest-neighbour search, HTTP handlers, authentication, TLS, the relay, logging and the command line: foreign code or plumbing.
- Embed admission, bind-safety, key precedence, capability messages, the regex scanner and the other benchmark statistics: only easy members.
