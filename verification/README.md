# OneBrain: what keeps its state and what loses nothing

A Dafny model of the parts of OneBrain that keep state across failures, and of the text
rewriters that promise to lose nothing. `dafny verify dfyconfig.toml` checks all of it.

Loops and objects that the source updates in place are methods and classes here, each proved
against a specification function; what the source promises is proved about those functions.
Where a step can fail, the failure is a parameter: a stop point, a flag per fallible call, or an
event of a protocol. Lines of a text are classified once, into a datatype, and the line-level
theorems are about that classification.

| files | what they model |
|---|---|
| `VectorTables`, `VectorSearch`, `VectorStore` | the vector store: rows in a file, tables committed atomically, free rows, the append cursor, `compact` |
| `ConfigLayout`, `ConfigFacts`, `ConfigConvergence`, `ConfigFixpoint`, `ConfigTexts`, `ConfigKeys`, `ConfigBanners`, `ConfigLooseEnd` | the config restructurer: cutting, ordering, writing, and what a second pass does |
| `YamlLines`, `YamlEdit`, `YamlPaths`, `YamlLaws`, `YamlTexts` | the comment-preserving YAML editor as a lens over lines: locating, and putting a value |
| `YamlInsert`, `YamlPlaced`, `YamlUpsert`, `YamlRoundTrips`, `YamlUpsertTexts` | what adding a key does to every path |
| `YamlRemove`, `YamlDelete`, `YamlOrphans`, `YamlWitnesses` | what deleting one does, and short texts on which an edit loses more than it is about |
| `CacheLayout`, `LockHolder` | interleaving protocols over a shared directory: migration, and the lock-holder sidecar |
| `LexRebuild`, `ScriptTokens`, `ScriptSearch` | the keyword index: the schema reset, and tokens of scripts written without spaces |
| `CodexPlugin`, `FeatureFlags`, `FeatureTexts`, `FeatureTables` | the plugin installation as a compensating transaction, and its config merge |
| `Checkpoint` | the checkpoint cadence and its state file |
| `Chunker`, `Fusion`, `Fences`, `FenceTexts` | chunking, rank fusion, and the two fence scanners |
| `Prelude`, `Sorting`, `Text`, `Decimals` | lists, the stable sort, strings and lines, decimal numbers |

Where the code and what it says about itself differ, the model follows the code:

- `config_layout.rs` lines 19 to 22 call the restructure idempotent. It is so exactly when no block
  followed by one of its own section ends in comments below a blank line; otherwise the next pass
  deletes that blank line, and repetition converges. `ConfigLooseEnd` holds a file of five lines whose
  first pass is not final.
- `vector.rs` lines 409 to 418 call a crash during `compact` recoverable. Between commit and rename
  that holds for every content exactly when no free row lies below a live one or vectors have no
  components, since `open` discards the new file; two additions and one removal reach the loss.
- `lex.rs` lines 565 to 576 say that a hit contains the queried word and that substring queries
  work. The first holds for every text exactly for words of at most two characters, the second exactly
  for words that are no lone character.
- `yaml_edit.rs` lines 199 to 213 keep a line's inline comment. A value with a quote or a hash sign put
  on a commented line makes the next put lose that comment or change it; the exact condition is proved.
  On `k: a # c`, putting `"q"` and then `b` writes `k: b`, and putting `x #y` and then `b` writes
  `k: b #y # c`.
- `backup.rs` line 190 has `delete_key` preserve every other key and every comment. It keeps every other
  key of all texts around the key exactly when no comment at the key's indentation or further out stands
  between the key and a later line of its block; behind such a comment the rest of the block stays and
  joins the block above. The comments above the key go with it, also one that is a commented placeholder
  of the block above.
- `codex_plugin.rs` lines 329 to 371 turn two flags on in the `[features]` table. The merge looks for the
  header `[features]` and for `hooks =` with one space: beside `hooks=false` it adds `hooks = true`, and
  below `[features] # note` a second table. TOML refuses both. Each flag and the header are given once
  afterwards exactly when the text had them at most once, in the form that the merge recognizes.
- `codex_plugin.rs` keeps a pending receipt when its cleanup fails, but a retry that fails again can
  remove that receipt while the plugin stays installed. An installation is safe from this exactly when
  the plugin is managed or absent before it; a caller that uninstalls after a failure never gets there.
  Two installations in a row reach the loss from a plugin that was never there.
- The Rust and the Python fence scanner keep the same lines of every file without lone carriage returns,
  U+001F and the eight line breaks that only Python's `splitlines` knows (U+000B, U+000C, U+001C to
  U+001E, U+0085, U+2028, U+2029). Each of these characters alone can tell them apart. A lone carriage
  return reaches the script as a line feed, since Python translates newlines on reading; Rust sees no
  line break there.
- A block with checkpoint number 99 on disk writes a state that does not parse, so the next read
  starts afresh; two stops, the second with that number on disk, get there.

## Model

| member | source | states |
|---|---|---|
| `VectorRuns.RunsRefine` | crates/onebrain-search/src/vector.rs:249-324 | After every event of every run of `open`, `add`, `remove` and `compact`, each stopped or failing at any of its steps, the store denotes the chunk-to-vector map from before or after that event; the only exception is the gap between `compact`'s commit and rename, and only where some live row changes what it holds |
| `VectorFacts.AddDenotes` | crates/onebrain-search/src/vector.rs:249-303 | An `add` that is stopped before growing the file, before writing the row or before committing leaves the old map, or the new one when the row written is the chunk's own old row; a finished one maps the chunk to its vector and no other chunk to anything new |
| `VectorFacts.WrittenRow` | crates/onebrain-search/src/vector.rs:224-245 | Writing a row that belongs to no other chunk changes at most this chunk's vector |
| `VectorFacts.RemoveDenotes` | crates/onebrain-search/src/vector.rs:307-324 | A finished `remove` takes exactly that chunk out of the map; a stopped one changes nothing; removing a missing chunk is no change |
| `VectorFacts.CompactDenotes` | crates/onebrain-search/src/vector.rs:419-487 | `compact` keeps the map at every stop up to its commit and when it finishes; stopped between commit and rename it keeps the map exactly when every live row holds what its new number holds |
| `VectorFacts.SurvivesIffStill` | crates/onebrain-search/src/vector.rs:406-487 | A crash in that gap, followed by the `open` that discards the temporary file, gives the same map exactly under the same condition |
| `VectorFacts.GapIsSafeIffDense` | crates/onebrain-search/src/vector.rs:406-418 | The guard that can be checked before the call: the gap is harmless for every file content exactly when vectors have no components or no free row lies below a live one |
| `VectorRuns.GapLosesVector` | crates/onebrain-search/src/vector.rs:118-487 | A run from an empty directory that reaches the loss: two chunks are added, the first is removed, `compact` stops in the gap, and after the next `open` the second chunk has the vector of the first |
| `VectorFacts.OpenDenotes` | crates/onebrain-search/src/vector.rs:118-179 | Opening keeps the map, discards a leftover temporary file, creates an empty store where there was none, and refuses another dimension |
| `VectorFacts.OpenLeaves` | crates/onebrain-search/src/vector.rs:118-179 | Which of the three files each stop of an opening has dealt with; opening again does the rest |
| `VectorFacts.CompactLeaves` | crates/onebrain-search/src/vector.rs:419-487 | At each stop of `compact` up to the commit the tables stand, up to the rename the vectors; after commit the rename alone is missing |
| `VectorFacts.SlotCount` | crates/onebrain-search/src/vector.rs:247-324 | Live plus free rows are exactly the allocated ones, and there are as many live rows as chunks |
| `VectorRuns.CursorIsPeak` | crates/onebrain-search/src/vector.rs:276-288 | Over every run from an empty directory `next_row` equals the largest number of chunks held at once since creation or the last committed `compact` |
| `VectorSearch.SearchIsExact` | crates/onebrain-search/src/vector.rs:329-404 | The search returns the best `top_k` (capped) of the abstract map, each with its exact score, none twice, sorted, and leaves out no chunk that scores higher than one it returns |
| `VectorSearch.ScoredIsContent` | crates/onebrain-search/src/vector.rs:373-393 | The scan scores every stored chunk exactly once, against its own vector |
| `VectorSearch.DotIsSum` | crates/onebrain-search/src/vector.rs:67-79 | The score of two vectors of one width is the sum of the products of their components |
| `VectorSearch.SearchBounds` | crates/onebrain-search/src/vector.rs:329-404 | Asked for nothing, or with a vector of another width, the search returns nothing, and never more than a thousand hits |
| `VectorStore.VectorStore.Open` | crates/onebrain-search/src/vector.rs:118-179 | Performs the opening the state functions describe, and fails exactly on a dimension mismatch or a stop |
| `VectorStore.VectorStore.Add` | crates/onebrain-search/src/vector.rs:249-303 | Table updates, row write and commit in the source's order give the specified disk at every stop; success is exactly a vector of the right width and no stop |
| `VectorStore.VectorStore.Remove` | crates/onebrain-search/src/vector.rs:307-324 | Removes the chunk from the abstract map and keeps the store's invariants |
| `VectorStore.VectorStore.LiveEntries` | crates/onebrain-search/src/vector.rs:425-435 | The loop collects the live rows in ascending order |
| `VectorStore.VectorStore.CopyRows` | crates/onebrain-search/src/vector.rs:441-455 | The loop copies the live rows to a temporary file at their new numbers, or only a prefix when stopped |
| `VectorStore.VectorStore.Renumbered` | crates/onebrain-search/src/vector.rs:461-479 | The loop rebuilds the tables against the new numbering with nothing free |
| `VectorStore.VectorStore.Compact` | crates/onebrain-search/src/vector.rs:419-487 | Copy, commit and rename in this order give the specified disk at every stop |
| `VectorStore.VectorStore.Search` | crates/onebrain-search/src/vector.rs:329-404 | The scoring loop, the sort and the truncation give the specified hits |
| `VectorStore.VectorStore.Len` | crates/onebrain-search/src/vector.rs:490-511 | Counts the chunks of the abstract map |
| `ConfigTexts.RestructureConserves` | crates/onebrain-fs/src/config_layout.rs:120-309 | Without this module's own banners and note the input is a preamble and blocks separated by blank lines, and the output is that preamble and the same blocks, each line intact, permuted |
| `ConfigFacts.ReorderOrders` | crates/onebrain-fs/src/config_layout.rs:287-309 | Known keys come by section and position, unknown keys next, `stats` last; nothing is lost or added; blocks the order does not tell apart keep their order |
| `ConfigFacts.ReorderIsStableSort` | crates/onebrain-fs/src/config_layout.rs:290-309 | The three buckets with a sort of the first are one stable sort of all blocks |
| `ConfigFacts.SegmentTiles` | crates/onebrain-fs/src/config_layout.rs:243-285 | The blocks and gaps of blank lines between them cover everything below the preamble |
| `ConfigFacts.BlockAtIsWellFormed` | crates/onebrain-fs/src/config_layout.rs:251-283 | Every block is lead comments, its key line and a body without a further key or a trailing blank |
| `ConfigFixpoint.SecondPass` | crates/onebrain-fs/src/config_layout.rs:195-344 | Restructuring an output gives the same blocks with the comments at a block's end moved to the next block of the section |
| `ConfigFixpoint.NextOnlyDropsBlanks` | crates/onebrain-fs/src/config_layout.rs:19-344 | After one restructure each further one only deletes blank lines, strictly fewer lines or no change |
| `ConfigFixpoint.FixpointIffNoLooseEnd` | crates/onebrain-fs/src/config_layout.rs:19-344 | One pass is final exactly when no block that is followed by one of its own section ends in comments below a blank line |
| `ConfigFixpoint.Converges` | crates/onebrain-fs/src/config_layout.rs:320-344 | Repetition reaches a fixed text after at most as many passes as the first output has blank lines |
| `ConfigTexts.RestructureIsIdempotentIff` | crates/onebrain-fs/src/config_layout.rs:310-354 | On whole texts without lone carriage returns: the checker accepts the fixer's output exactly when the parser declines that output or the reordered file has no such loose end |
| `ConfigLooseEnd.OnePassIsNotEnough` | crates/onebrain-fs/src/config_layout.rs:19-22 | A comment between two keys of one section, apart from both by a blank line: the fixer rewrites the file, and the checker does not accept what it wrote as long as the parser does |
| `ConfigKeys.KeyLineIff` | crates/onebrain-fs/src/config_layout.rs:141-154 | A line is read as a key exactly when it is no banner or note and starts, unindented, with the key: its first character is neither white space nor `#` nor `-`, no colon stands in the key, and behind it come only white space and then a colon or the end of the line |
| `ConfigKeys.StructuralIff` | crates/onebrain-fs/src/config_layout.rs:100-134 | The lines taken out are exactly those that spell one of the seven banners, sixty characters wide and behind white space at most, or the note with white space around it at most |
| `ConfigKeys.PlaceIff` | crates/onebrain-fs/src/config_layout.rs:40-165 | A key has a place in a section exactly when the written-out list has it there |
| `ConfigKeys.BlocksComeInOrder` | crates/onebrain-fs/src/config_layout.rs:287-309 | Of any two blocks of the output the first comes before the second by section and position, with `stats` behind everything and unknown keys in between |
| `ConfigKeys.BelowKeyStays` | crates/onebrain-fs/src/config_layout.rs:195-354 | On the characters of a file that is rewritten: each line that spells no key, is not blank and is none of the comments right above the next key stays below the last key above it, together with all that stands between them |
| `ConfigKeys.CommentsStayAbove` | crates/onebrain-fs/src/config_layout.rs:195-354 | On the characters of a file that is rewritten: comments right above a key, indented or not, stay right above it |
| `ConfigKeys.IndentedIsBelow` | crates/onebrain-fs/src/config_layout.rs:141-154 | A line that starts with white space spells no key, and unless it is a comment the first of the two laws is about it |
| `ConfigBanners.BannersStandOnce` | crates/onebrain-fs/src/config_layout.rs:195-354 | On the characters of a file that is rewritten: the banner of each section stands in the output exactly once if some line spells a key that the list has in this section, and not at all otherwise; the note exactly with the banner of the system section |
| `ConfigBanners.NeighboursAre` | crates/onebrain-fs/src/config_layout.rs:195-237 | Blocks of one section follow each other directly; otherwise a blank line parts them, and the block that opens a section stands right below its banner, below the note as well in the system section |
| `ConfigBanners.FirstOpens` | crates/onebrain-fs/src/config_layout.rs:195-237 | The first block stands below the preamble, a blank line if there is one, and its section's banner |
| `ConfigTexts.WrittenReadsBack` | crates/onebrain-fs/src/config_layout.rs:177-240 | Lines written out with their newline style and final newline are read back unchanged |
| `Text.NoLoneCrIff` | crates/onebrain-fs/src/config_layout.rs:310-354 | The proviso of the laws on whole texts: a text has no lone carriage return exactly when none is left inside its lines |
| `ConfigLayout.FindKeys` | crates/onebrain-fs/src/config_layout.rs:244-249 | The loop finds exactly the top-level key lines |
| `ConfigLayout.SegmentLines` | crates/onebrain-fs/src/config_layout.rs:243-285 | The loops that cut blocks give the specified segments, or none when there is no key |
| `ConfigLayout.ReorderBlocks` | crates/onebrain-fs/src/config_layout.rs:290-309 | The bucket loop and the sort give the specified order |
| `ConfigLayout.AssembleBlocks` | crates/onebrain-fs/src/config_layout.rs:195-237 | The emission loop with its running section gives the specified lines |
| `YamlEdit.LocateImpl` | crates/onebrain-fs/src/yaml_edit.rs:82-169 | The moving window finds what the recursive walk over nested blocks finds, with and without commented placeholders |
| `YamlPaths.LocateByActive` | crates/onebrain-fs/src/yaml_edit.rs:82-169 | What is located depends on active lines only: it is the line that the walk over active lines reaches |
| `YamlEdit.ChildIndentIff` | crates/onebrain-fs/src/yaml_edit.rs:90-115 | The level of a block's children is that of its shallowest active line, and only without active lines that of its shallowest comment deeper than the parent |
| `YamlLines.TokenIff` | crates/onebrain-fs/src/yaml_edit.rs:39-51 | The key of a line is exactly what stands before its first colon, trimmed, and without a pair of quotes around it; without a colon there is none |
| `YamlLines.KindsAre` | crates/onebrain-fs/src/yaml_edit.rs:16-67 | Blank lines, comments, active keys and commented placeholders by their characters |
| `YamlLines.ActiveSays` | crates/onebrain-fs/src/yaml_edit.rs:39-67 | The key of an active line is the one it spells behind its indentation; the line opens a block exactly when it has no colon or nothing but a comment follows its first one |
| `YamlLines.CommentSays` | crates/onebrain-fs/src/yaml_edit.rs:53-67 | The key of a commented placeholder is the one spelled behind its hash signs and the white space after them |
| `YamlLines.SuffixIff` | crates/onebrain-fs/src/yaml_edit.rs:199-236 | The inline comment that a put keeps is the line from the spaces before its first hash sign on, if there is at least one space and no quote of either kind in front |
| `YamlLaws.SamePlaceSamePath` | crates/onebrain-fs/src/yaml_edit.rs:82-169 | A line is located under one path only |
| `YamlLines.SetLineLaws` | crates/onebrain-fs/src/yaml_edit.rs:199-236 | For any value: the rewritten line keeps its indentation and key; it keeps its inline comment exactly when the value starts none itself and, on a commented line, is not empty, has no quote and no hash sign and ends in no space; and then it carries the value |
| `YamlLaws.SetValueIsSeen` | crates/onebrain-fs/src/yaml_edit.rs:199-236 | After a put of any value the same path locates the same line and no other line changes; the line keeps its inline comment exactly under that condition, and then carries the value |
| `YamlLaws.SetValueKeepsOthers` | crates/onebrain-fs/src/yaml_edit.rs:199-236 | Whatever value is put, every path that does not start with the one set locates the same line with the same text |
| `YamlLaws.SetValueTwiceIff` | crates/onebrain-fs/src/yaml_edit.rs:199-236 | Two puts are the last one exactly when the first value leaves the line its inline comment |
| `YamlTexts.SetTextReadsBack` | crates/onebrain-fs/src/yaml_edit.rs:185-236 | For whole texts and any value of one line: after a put, splitting gives the edited lines with the newline style and the final newline unchanged |
| `YamlTexts.SetTextTwiceIff` | crates/onebrain-fs/src/yaml_edit.rs:185-236 | For whole texts: two puts are the last one exactly when the first value leaves the line its inline comment |
| `YamlLaws.InsertedCommentIsAbove` | crates/onebrain-fs/src/yaml_edit.rs:243-269 | Inserting comment lines moves the key down by as many lines and documents it |
| `YamlEdit.CommentIff` | crates/onebrain-fs/src/yaml_edit.rs:243-262 | A comment is inserted for exactly the located keys that have none right above, and these are the ones reported as lacking one |
| `YamlLaws.DeleteUndoesComment` | crates/onebrain-fs/src/yaml_edit.rs:258-349 | Deleting a key after inserting its comment gives what deleting the key alone gives |
| `YamlEdit.InsertComment` | crates/onebrain-fs/src/yaml_edit.rs:258-269 | The insertion loop gives the specified lines |
| `YamlEdit.DeleteKeyLines` | crates/onebrain-fs/src/yaml_edit.rs:315-349 | The two loops delimit exactly the lead comments, the key and its continuation |
| `YamlUpsert.UpsertIsSeen` | crates/onebrain-fs/src/yaml_edit.rs:289-430 | On every text: the line that is put carries the value unless that disturbs an inline comment, and it is what the path locates exactly when the key was there before or no child of the parent is shallower than the line put |
| `YamlUpsert.UpsertKeepsIff` | crates/onebrain-fs/src/yaml_edit.rs:368-430 | On every text, for every other path that could be located: it is located where its line went, and that line is untouched but for an inline parent that becomes the bare header, exactly when the key was there before, the parent was inline, the parent is new and the top level stands at the left edge, or the new line disturbs no key on the way to it |
| `YamlPlaced.PathAfterPutIff` | crates/onebrain-fs/src/yaml_edit.rs:82-169 | A line put anywhere among the active lines leaves a path its line exactly when it is shallower than no key of the path whose window it joins, does not come first under the name of one, and ends no block on the way |
| `YamlUpsert.UpsertKeepsOthers` | crates/onebrain-fs/src/yaml_edit.rs:368-430 | Where the first child is a shallowest one and no child stands below an unindented comment, where the parent is inline, and where it is new in a text with keys at the left edge, every other path that could be located still is |
| `YamlUpsert.UpsertTwiceIff` | crates/onebrain-fs/src/yaml_edit.rs:368-430 | On every text: the same upsert again changes nothing exactly when, for a key that was there, the value leaves its inline comment alone; for an added key that is found, the value starts no comment; and for one that is not, an inline parent had a key of that name below it on a line that the put leaves as it is |
| `YamlRoundTrips.UpsertOccurs` | crates/onebrain-fs/src/yaml_edit.rs:368-430 | On every text: how often the key occurs among its parent's children after the upsert; as often as before if it was there, once if it is added and found, but for lines that an inline parent had below it, and else as if nothing had been added |
| `YamlRoundTrips.OccursIffLocated` | crates/onebrain-fs/src/yaml_edit.rs:82-169 | A key is located exactly when it occurs at least once in that sense |
| `YamlRoundTrips.DeleteUndoesUpsertIff` | crates/onebrain-fs/src/yaml_edit.rs:315-430 | In any block deleting the key just added gives the old lines back exactly when it is located and the line above it, the last one of the block, is no comment |
| `YamlRoundTrips.DeleteLeavesHeader` | crates/onebrain-fs/src/yaml_edit.rs:289-349 | With the parent and the key absent, deleting the added key leaves the bare header |
| `YamlOrphans.DeleteIsSafeIff` | crates/onebrain-fs/src/yaml_edit.rs:303-349 | Deleting a key leaves every other path of every text that the key and the lines below it can stand in exactly when no comment at the key's indentation or further out stands between the key and a later line of its block |
| `YamlDelete.TakesBlockIff` | crates/onebrain-fs/src/yaml_edit.rs:320-341 | The deleted continuation holds every active line of the key's block exactly then |
| `YamlDelete.DeleteKeepsOthers` | crates/onebrain-fs/src/yaml_edit.rs:303-349 | If it does, every other path that could be located is located where its line went, with the same line |
| `YamlDelete.DeleteIsFrameIff` | crates/onebrain-fs/src/yaml_edit.rs:303-349 | If it does, no path is found for the first time exactly when no deeper line under another name is among the shallowest that are left beside the deleted key |
| `YamlDelete.DeletedIsGoneIff` | crates/onebrain-fs/src/yaml_edit.rs:303-349 | If it does, the deleted path is gone exactly when its key occurred once among its siblings and no such line has its name |
| `YamlDelete.FlushNothingSurfaces` | crates/onebrain-fs/src/yaml_edit.rs:303-349 | No line surfaces where the first line beside the key is at the key's own indentation, as in a well-indented text |
| `YamlRemove.RemoveIsFrameIff` | crates/onebrain-fs/src/yaml_edit.rs:82-169 | The same law for taking a key and its block out of the active lines |
| `YamlWitnesses.NoteOrphansChild` | crates/onebrain-fs/src/backup.rs:189-215 | Deleting `a` from `z:`, `a:`, `  x: 1`, `# note`, `  y: 2` makes `y` a child of `z`, and without `z` a key of the top level |
| `YamlWitnesses.DeleteTakesPlaceholder` | crates/onebrain-fs/src/yaml_edit.rs:343-347 | Deleting `b` below the placeholder `  # y: 2` of `a` takes that placeholder away |
| `YamlWitnesses.DeepLineSurfaces` | crates/onebrain-fs/src/yaml_edit.rs:303-349 | Deleting `b` from `  x: 1`, `b: 3` takes its whole block, and `x` is found for the first time |
| `YamlWitnesses.QuoteLosesComment` | crates/onebrain-fs/src/yaml_edit.rs:199-213 | On `k: a # c`, a put of `"q"` makes every next put lose the comment |
| `YamlWitnesses.HashGrowsComment` | crates/onebrain-fs/src/yaml_edit.rs:199-213 | On `k: a # c`, a put of `x #y` makes every next put keep `#y # c` as the comment |
| `YamlEdit.ScanBlock` | crates/onebrain-fs/src/yaml_edit.rs:407-425 | The scan loop finds the last used line of the block and the first child's indentation |
| `YamlEdit.UpsertChildLines` | crates/onebrain-fs/src/yaml_edit.rs:368-430 | The four shapes are handled as specified |
| `YamlEdit.ChildIsAdded` | crates/onebrain-fs/src/yaml_edit.rs:368-430 | What adding a key that is not there gives, in full: a fresh block at the end, an inline parent replaced by one, or a line at the end of the block above its trailing blanks, as deep as the first active line in it or two spaces deep |
| `YamlUpsertTexts.UpsertTextReadsBack` | crates/onebrain-fs/src/yaml_edit.rs:289-430 | For whole texts: splitting the result, a block appended to a text without a final newline included, gives exactly the edited lines; it ends in a newline if the old text did or if a block was appended |
| `CacheLayout.ArtifactsSurvive` | crates/onebrain-search/src/layout.rs:175-310 | For any number of interleaved migrations, each able to fail or stop at any step, every artifact resolves to its original content and both reported sizes stay the same in every reachable state |
| `CacheLayout.ReaderDuringRun` | crates/onebrain-search/src/layout.rs:175-227 | A reader whose two existence checks fall at two moments of a run gets a path where the artifact stood with its content at one of them; without an artifact, the new home |
| `CacheLayout.StepKeeps` | crates/onebrain-search/src/layout.rs:261-283 | No step renames an entry onto an existing one, and each moves at most one entry |
| `CacheLayout.SettledIsUnique` | crates/onebrain-search/src/layout.rs:261-283 | Two finished migrations from the same start give the same disk |
| `CacheLayout.RetryPicksUp` | crates/onebrain-search/src/layout.rs:247-260 | After any interleaving, failures and crashes, a finished migration gives the disk an undisturbed one gives |
| `CacheLayout.WalkSettles` | crates/onebrain-search/src/layout.rs:261-283 | A process that walks the whole root undisturbed ends with every movable entry moved |
| `CacheLayout.FailureEnds` | crates/onebrain-search/src/layout.rs:261-283 | A rename that fails and a crash end the process and change nothing on disk |
| `CacheLayout.RunSparesStrangers` | crates/onebrain-search/src/layout.rs:268-276 | In every state of every run each root entry whose name neither starts with `models--` nor is `tantivy`, `vectors` or `engine.redb` is where it was, and as it was |
| `CacheLayout.ResolvesAt` | crates/onebrain-search/src/layout.rs:175-227 | A model resolves to `models/` if it stands there and else to the root, an index artifact to `index/` and else to the root |
| `CacheLayout.ModelsSizeIs` | crates/onebrain-search/src/layout.rs:288-301 | The models' size is that of `models/` and of the root entries whose name starts with `models--` |
| `CacheLayout.IndexSizeIs` | crates/onebrain-search/src/layout.rs:304-309 | The index size is that of the three artifacts, each in `index/` or, only where it is not there, at the root |
| `CacheLayout.NodeSizes` | crates/onebrain-search/src/layout.rs:314-332 | A file counts its length, a directory what its entries count, anything else nothing |
| `CacheLayout.MigratedIsSplitIffNoTwin` | crates/onebrain-search/src/layout.rs:136-283 | A finished migration is detected as split exactly when no artifact stood in both places at the start, and as partial otherwise |
| `CacheLayout.CacheDir.Migrate` | crates/onebrain-search/src/layout.rs:261-283 | The loop moves every movable entry; names that are none of the artifacts stay at the root whatever happens, and when it finishes each model that stood at the root is in `models/`, each of the three index artifacts in `index/`, or stays beside its twin there; it returns the error exactly when a directory cannot be made, the listing breaks off or the rename of a movable entry fails, and then everything still resolves as before |
| `LockHolder.HolderIsNamed` | crates/onebrain-search/src/holder.rs:88-136 | In every interleaving, a holder past recording is named by the sidecar or the sidecar is absent, unless that holder could neither write its record nor remove the one it found |
| `LockHolder.FreeLockNamesTheDead` | crates/onebrain-search/src/holder.rs:107-136 | With the lock free, a sidecar names an opening that crashed holding it, or whose own removal failed |
| `LockHolder.RemembersWhom` | crates/onebrain-search/src/holder.rs:86-136 | The openings that these laws except are exactly those that crashed holding the lock, that could neither write nor remove, and whose own removal failed |
| `LockHolder.RecordsAreSpared` | crates/onebrain-search/src/holder.rs:97-105 | No step takes away the record of another opening that still holds the lock |
| `LockHolder.SmoothSidecarIffHeld` | crates/onebrain-search/src/holder.rs:107-136 | Without failures a record is there exactly while its opening is between recording and removing |
| `LockHolder.UndisturbedHolds` | crates/onebrain-search/src/holder.rs:88-129 | An opening that finds the lock free and that nothing disturbs holds the lock and is named by the sidecar |
| `LockHolder.UndisturbedLeaves` | crates/onebrain-search/src/holder.rs:97-136 | Letting go, it leaves neither |
| `LockHolder.CrashFrees` | crates/onebrain-search/src/holder.rs:107-136 | A crash frees the lock of its holder, and touches no file and no other opening |
| `LockHolder.TmpsAreInUse` | crates/onebrain-search/src/holder.rs:86-95 | In every run each temporary file that was not found at the start is of an opening that is between writing and renaming, or of one that crashed |
| `LockHolder.RecordIsSteps` | crates/onebrain-search/src/holder.rs:124-129 | Creating the guard is the protocol's write, rename and stale-record removal |
| `LockHolder.DropIsSteps` | crates/onebrain-search/src/holder.rs:101-136 | Dropping the guard is the protocol's ownership check and removal |
| `LockHolder.Sidecar.Record` | crates/onebrain-search/src/holder.rs:88-129 | Leaves the own record, or nothing when writing failed, or the old record when removal failed as well |
| `LockHolder.Sidecar.Drop` | crates/onebrain-search/src/holder.rs:101-136 | Removes the record exactly when it names this pid |
| `LexRebuild.AnyRunIsSound` | crates/onebrain-search/src/lex.rs:136-499 | In every state of every run from a sound disk, with a crash anywhere, an index of the current schema without a marker holds each readable chunk row exactly once and nothing else |
| `LexRebuild.EachOnce` | crates/onebrain-search/src/engine.rs:1140-1173 | A rebuild restores every readable row once, skips unreadable ones and adds nothing |
| `LexRebuild.OpenSettles` | crates/onebrain-search/src/engine.rs:971-1195 | An opening without failures ends in that state, except exactly when a marker is pending over documents that no row stands behind; opening again changes nothing |
| `LexRebuild.OpensTo` | crates/onebrain-search/src/engine.rs:1107-1195 | What an undisturbed opening leaves, in full: it rebuilds when the schema is old or a marker is there, except over documents without a single stored row, which it keeps together with the marker |
| `LexRebuild.UndisturbedOpens` | crates/onebrain-search/src/engine.rs:971-1195 | The protocol left alone gets from every disk to exactly that one, opened |
| `LexRebuild.BackToIdleIff` | crates/onebrain-search/src/engine.rs:971-1195 | An opening comes to nothing exactly by a crash, by closing it once open, or by the failure of the step it is at, and none of these changes the disk |
| `LexRebuild.StepHasItsPlace` | crates/onebrain-search/src/engine.rs:971-1195 | Each step happens in its one place, and a failing one leaves the disk alone |
| `LexRebuild.UpdateIsIndexed` | crates/onebrain-search/src/engine.rs:1604-1733 | An unmarked collection can be opened and takes any update of its rows; the index then holds the readable new ones |
| `LexRebuild.RowsNeedOpen` | crates/onebrain-search/src/engine.rs:1604-1733 | Stored rows change only while the collection is open |
| `LexRebuild.ResetIsRebuilt` | crates/onebrain-search/src/engine.rs:975-979 | An index that this opening wiped is rebuilt even if the marker has vanished meanwhile |
| `LexRebuild.Collection.Open` | crates/onebrain-search/src/engine.rs:971-1026 | One opening is a run of the protocol; it succeeds exactly when no step fails that the disk makes necessary, and then gives the specified disk, a failed marker removal costing only the lingering marker |
| `LexRebuild.Collection.OpenOrReset` | crates/onebrain-search/src/lex.rs:433-455 | The marker is written before the wipe, and an index of the current schema is left alone |
| `LexRebuild.Collection.Repopulate` | crates/onebrain-search/src/engine.rs:1107-1195 | Clear, adds, one commit, then the marker: on success exactly the readable rows, on failure a sound disk |
| `ScriptTokens.RunsTile` | crates/onebrain-search/src/lex.rs:200-228 | Runs tile the text, each of one kind, neighbours of different kinds |
| `ScriptTokens.TilingIsUnique` | crates/onebrain-search/src/lex.rs:200-228 | There is only one such tiling, so the runs are maximal |
| `Text.Utf8LenIs` | crates/onebrain-search/src/lex.rs:207-228 | How many bytes a character takes in a byte offset |
| `ScriptTokens.SplitScriptRuns` | crates/onebrain-search/src/lex.rs:207-228 | The character loop gives these runs by byte offsets |
| `ScriptTokens.BigramLoop` | crates/onebrain-search/src/lex.rs:236-259 | The window loop gives the overlapping pairs with their byte offsets, or the lone character |
| `ScriptTokens.Segment` | crates/onebrain-search/src/lex.rs:286-297 | Slicing by byte offsets never leaves a character boundary, and the tokens are those of the runs in order |
| `ScriptTokens.NoSpaceIff` | crates/onebrain-search/src/lex.rs:169-199 | The nine blocks, seen from the code points, are seven ranges |
| `ScriptSearch.GramsSliceBack` | crates/onebrain-search/src/lex.rs:230-259 | Every gram's byte offsets slice the text to the gram itself |
| `ScriptSearch.OtherTokensSlice` | crates/onebrain-search/src/lex.rs:262-297 | A token of any other run keeps the text that the default analyzer gave it, and its byte offsets slice out of the whole text what they sliced out of the run |
| `ScriptSearch.PairIsTokenIff` | crates/onebrain-search/src/lex.rs:236-297 | A pair of characters is a token of a text exactly when it occurs in it |
| `ScriptSearch.SingleIsTokenIff` | crates/onebrain-search/src/lex.rs:242-247 | A single character is a token exactly where it has no neighbour of its kind |
| `ScriptSearch.RunHitsIff` | crates/onebrain-search/src/lex.rs:582-607 | A run of two or more characters hits a text exactly when each of its adjacent pairs occurs there |
| `ScriptSearch.ContiguousHits` | crates/onebrain-search/src/lex.rs:565-607 | A run that occurs contiguously hits; for two characters a hit also means that it occurs |
| `ScriptSearch.SingleHitsIff` | crates/onebrain-search/src/lex.rs:582-607 | A run of one character hits exactly where that character stands alone |
| `ScriptSearch.QueryHits` | crates/onebrain-search/src/lex.rs:564-630 | A whole query of such characters hits exactly when every pair occurs in the body or every pair in the heading path |
| `ScriptSearch.WordQueryHits` | crates/onebrain-search/src/lex.rs:564-630 | A whole query of other characters hits exactly when one of its tokens is a token of the body or of the heading path |
| `ScriptSearch.EmptyQueryMisses` | crates/onebrain-search/src/lex.rs:564-630 | An empty query hits nothing |
| `ScriptSearch.HitMeansWordIff` | crates/onebrain-search/src/lex.rs:565-576 | The claim that a hit contains the queried word: it holds for all texts exactly when the word has at most two characters |
| `ScriptSearch.WordMeansHitIff` | crates/onebrain-search/src/lex.rs:565-576 | The claim that substring queries work: a word hits every text that contains it exactly when it is not a lone character |
| `ScriptSearch.QueryHitMeansWordIff` | crates/onebrain-search/src/lex.rs:564-630 | Both for whole queries, over all bodies and heading paths |
| `CodexPlugin.AbsentOrReceipt` | crates/onebrain-cli/src/commands/codex_plugin.rs:47-532 | From a plugin reported absent and unmanaged, a failed installation ends with it absent or with a receipt, except exactly when the add command fails, leaves the plugin installed and the receipt is then dropped |
| `CodexPlugin.StrandedIff` | crates/onebrain-cli/src/commands/codex_plugin.rs:47-532 | For every start and every pattern of failures: exactly when a failed installation leaves a plugin that nothing authorises removing |
| `CodexPlugin.InstallIsSafeIff` | crates/onebrain-cli/src/commands/codex_plugin.rs:18-119 | The guard that can be checked before the call: no pattern of failures strands the plugin exactly when it is managed or absent, as long as a failing add command installs nothing; without that proviso, exactly when it is managed |
| `CodexPlugin.RetryLosesReceipt` | crates/onebrain-cli/src/commands/codex_plugin.rs:467-524 | A retry after a failed cleanup can drop the receipt that the cleanup had kept |
| `CodexPlugin.TwoFailuresStrand` | crates/onebrain-cli/src/commands/codex_plugin.rs:467-524 | From any state with the plugin absent and neither receipt nor marker: an installation whose marker and removal fail keeps the plugin with a pending receipt, and a second one whose add command fails takes that receipt away |
| `CodexPlugin.ConfigComesBack` | crates/onebrain-cli/src/commands/codex_plugin.rs:33-532 | A failed installation ends with the original configuration unless it was merged and then the restore fails or the receipt rewrite stops the cleanup before it; before the merge only the backup file can change |
| `CodexPlugin.FailureKeepsManagement` | crates/onebrain-cli/src/commands/codex_plugin.rs:49-119 | A failed installation neither breaks nor creates a managed installation |
| `CodexPlugin.UninstallLaws` | crates/onebrain-cli/src/commands/codex_plugin.rs:132-168 | Uninstalling acts exactly on a receipt of this vault, can be repeated after a failure, and leaves nothing when it succeeds |
| `CodexPlugin.RetryAfterUninstall` | crates/onebrain-cli/src/commands/codex_plugin.rs:18-202 | Over every run in which an installation follows a success, or starts from a managed or absent plugin, nothing that fails strands the plugin, as long as a failing add command installs nothing |
| `CodexPlugin.NeverStrandedIff` | crates/onebrain-cli/src/commands/codex_plugin.rs:18-202 | Over every run of install, uninstall and refresh the plugin is never stranded exactly when no command drops a receipt while the plugin is, or may be, there |
| `CodexPlugin.StepStrandsIff` | crates/onebrain-cli/src/commands/codex_plugin.rs:18-202 | Those cases are exact |
| `CodexPlugin.SucceedsIff` | crates/onebrain-cli/src/commands/codex_plugin.rs:18-119 | For every start and every pattern of failures: when an installation succeeds, and what the backup is |
| `CodexPlugin.PluginAfter` | crates/onebrain-cli/src/commands/codex_plugin.rs:18-119 | Exactly when the plugin is there afterwards |
| `CodexPlugin.ReceiptAfter` | crates/onebrain-cli/src/commands/codex_plugin.rs:18-119 | The receipt afterwards: installed, as before, gone or pending |
| `CodexPlugin.MarkerAfter` | crates/onebrain-cli/src/commands/codex_plugin.rs:18-119 | The marker afterwards: written, as before or gone |
| `CodexPlugin.UninstallFields` | crates/onebrain-cli/src/commands/codex_plugin.rs:132-168 | The same for every field and an uninstallation |
| `CodexPlugin.RefreshFields` | crates/onebrain-cli/src/commands/codex_plugin.rs:125-202 | A refresh adds the plugin of a managed installation again and touches nothing else |
| `CodexPlugin.CodexHome.Install` | crates/onebrain-cli/src/commands/codex_plugin.rs:18-119 | The procedure with both rollbacks gives the specified state for every pattern of failures; when it succeeds, the backup is the old configuration, and the new one has both flags on and every line of the old one in its place and order but for the first recognized assignment of each flag, or is just the three lines if there was none |
| `CodexPlugin.CodexHome.UndoAfterAdd` | crates/onebrain-cli/src/commands/codex_plugin.rs:493-532 | The second rollback: remove, forget or re-record, then restore |
| `CodexPlugin.CodexHome.Uninstall` | crates/onebrain-cli/src/commands/codex_plugin.rs:132-168 | Remove, then marker, then receipt |
| `FeatureFlags.MergeTurnsOn` | crates/onebrain-cli/src/commands/codex_plugin.rs:329-371 | The first line of the form `hooks =` in the first table headed `[features]` of the merged text turns the flag on, and likewise for `multi_agent` |
| `FeatureFlags.MergeStaysIffOn` | crates/onebrain-cli/src/commands/codex_plugin.rs:329-371 | A text is left alone exactly when both flags are on in that form already, so merging twice is merging once |
| `FeatureTables.MergeIsCleanIff` | crates/onebrain-cli/src/commands/codex_plugin.rs:329-371 | Judged by a reading of its own, blanks before the equals sign and a comment behind the header allowed: the merged text has one header and one assignment of each flag exactly when the text before had at most one of each, in the form that the merge recognizes |
| `FeatureTables.MergeAddsAssignment` | crates/onebrain-cli/src/commands/codex_plugin.rs:343-353 | The merge adds one assignment of a flag exactly where it recognizes none, and takes none away |
| `FeatureTables.MergeAddsHeader` | crates/onebrain-cli/src/commands/codex_plugin.rs:331-368 | The merge adds a header exactly where it recognizes none |
| `FeatureTables.TightAssignmentStays` | crates/onebrain-cli/src/commands/codex_plugin.rs:343-353 | Below `[features]`, `hooks=false` stays and `hooks = true` is added: two assignments |
| `FeatureTables.NotedHeaderStays` | crates/onebrain-cli/src/commands/codex_plugin.rs:331-368 | `[features] # note` stays and a second header is added |
| `FeatureFlags.MergeKeepsLines` | crates/onebrain-cli/src/commands/codex_plugin.rs:329-371 | Every line other than the first assignment of each flag in the first `[features]` table stays, in order, flag assignments elsewhere and repeated ones included; one line is added for each flag without one; a missing table is added below the text |
| `FeatureFlags.MergeTextTwice` | crates/onebrain-cli/src/commands/codex_plugin.rs:329-371 | Merging a merged text changes nothing, for whole texts without lone carriage returns |
| `FeatureTexts.MergeTextMerges` | crates/onebrain-cli/src/commands/codex_plugin.rs:301-371 | For every text, by its characters: both flags are on in the merged text, and the lines of the old one stand in it in order, unchanged but for the first recognized assignment of each flag in the first table, which now says `true` |
| `FeatureTexts.MergeOfNothing` | crates/onebrain-cli/src/commands/codex_plugin.rs:301-327 | Without a configuration the file is the header and the two assignments |
| `FeatureFlags.MergeInPlace` | crates/onebrain-cli/src/commands/codex_plugin.rs:329-371 | The in-place rewrite of the line vector gives the specified lines |
| `Checkpoint.BlocksAreSpaced` | crates/onebrain-cache/src/checkpoint.rs:55-146 | Over every run from a fresh state every block is on at least the second counted stop since the last block or reset and at least sixty seconds after it |
| `Checkpoint.BlocksComeInTime` | crates/onebrain-cache/src/checkpoint.rs:55-146 | Any `max(messages, 2)` counted stops without a reset contain a block |
| `Checkpoint.BlocksExactly` | crates/onebrain-cache/src/checkpoint.rs:55-146 | Over every run from a fresh state whose clock does not go back: a stop counts unless it is the first since the last block or reset and less than sixty seconds after it; a counted stop blocks exactly when there are at least two since that mark and either at least `messages` of them or at least `60 * minutes` seconds since it, before any mark since the first counted stop |
| `Checkpoint.ResetStartsAgain` | crates/onebrain-cache/src/checkpoint.rs:150-160 | A reset neither counts nor blocks, and counting starts again at its time |
| `Checkpoint.ClockGoneBack` | crates/onebrain-cache/src/checkpoint.rs:55-146 | Where the clock has gone back a stop counts, and no minutes have passed |
| `Checkpoint.CountStaysLow` | crates/onebrain-cache/src/checkpoint.rs:55-146 | At every point of every run the stored count is below `max(messages, 2)` |
| `Checkpoint.FileCarriesState` | crates/onebrain-cache/src/state.rs:35-86 | While no number above 98 is on disk, the state file carries the state from event to event |
| `Checkpoint.BlockSurvivesIff` | crates/onebrain-cache/src/checkpoint.rs:127-145 | The state written by a block is read back exactly when the highest number on disk is at most 98 |
| `Checkpoint.NinetyNineForgets` | crates/onebrain-cache/src/checkpoint.rs:55-146 | Two stops of a new session, the second one with number 99 on disk: it blocks, and the file reads back as fresh |
| `Checkpoint.ReadWritten` | crates/onebrain-cache/src/state.rs:48-86 | A printed state parses back to itself |
| `Checkpoint.WideNnForgets` | crates/onebrain-cache/src/state.rs:48-60 | A number of three digits makes the next read start afresh |
| `Checkpoint.ReadIff` | crates/onebrain-cache/src/state.rs:35-66 | The file is read as a state exactly when, white space around it aside, it spells that state: a number, a colon, a number, a colon, two digits; anything else is read as fresh |
| `Checkpoint.SkippedLeavesFile` | crates/onebrain-cache/src/checkpoint.rs:83-101 | A stop that does not count leaves the file as it is, every other event writes it |
| `Checkpoint.MaxCheckpointNn` | crates/onebrain-cache/src/checkpoint.rs:8-43 | The loop finds the highest two-digit number among the matching names, zero without one |
| `Checkpoint.NnOfIff` | crates/onebrain-cache/src/checkpoint.rs:8-43 | A name counts exactly when it is the prefix, two digits and the suffix `.md`, once or more, and counts for the value of the digits |
| `Checkpoint.ReasonSays` | crates/onebrain-cache/src/checkpoint.rs:127-145 | The reason names the number just given out and the last one on disk |
| `Checkpoint.PaddedIs` | crates/onebrain-cache/src/checkpoint.rs:127-145 | A number given out has two digits at least, and its value |
| `Checkpoint.StateFile.ReadState` | crates/onebrain-cache/src/state.rs:35-46 | A missing or malformed file is rewritten as fresh |
| `Checkpoint.StateFile.HandleStop` | crates/onebrain-cache/src/checkpoint.rs:55-146 | The hook writes the specified file and prints a reason exactly when it blocks |
| `Checkpoint.StateFile.HandleReset` | crates/onebrain-cache/src/checkpoint.rs:150-160 | Writes the reset state |
| `Chunker.NothingIsLost` | crates/onebrain-search/src/chunk.rs:36-135 | The texts of a document's chunks, split into words again and put together section by section without the overlaps, are all words of the lines that spell no heading, in order, and no chunk is left over |
| `Chunker.WindowsLaws` | crates/onebrain-search/src/chunk.rs:36-58 | Windows hold at most `max_tokens` words, overlap by exactly the effective overlap, each bring new words, and add up to the section |
| `Chunker.OpenIffNotClosed` | crates/onebrain-search/src/chunk.rs:113-124 | The heading stack holds exactly the headings not yet closed by a later one of the same or a smaller level |
| `Chunker.HeadIff` | crates/onebrain-search/src/chunk.rs:18-33 | A line is a heading of a level exactly when, behind white space, it is that many hashes, one to six, followed by the end, a space or a tab; its text is the trimmed rest |
| `Chunker.PlainIff` | crates/onebrain-search/src/chunk.rs:18-33 | Every other line is body |
| `Chunker.HeadingPathGrows` | crates/onebrain-search/src/chunk.rs:75-100 | The heading path is the texts of the open headings, outermost first, with ` > ` between them |
| `Chunker.SectionsAre` | crates/onebrain-search/src/chunk.rs:84-135 | Every section carries the stack and the words since the last heading |
| `Chunker.SectionsConserve` | crates/onebrain-search/src/chunk.rs:64-135 | Sections hold every word of every line that is no heading, once and in order |
| `Chunker.WordsOfJoined` | crates/onebrain-search/src/chunk.rs:53 | A window's text gives its words back |
| `Chunker.ChunkNumbers` | crates/onebrain-search/src/chunk.rs:93-100 | Chunks are numbered from zero, and their ids carry the number |
| `Chunker.ChunkIdsDiffer` | crates/onebrain-search/src/chunk.rs:93-100 | No two chunks of a document have the same id |
| `Chunker.SplitIntoWindows` | crates/onebrain-search/src/chunk.rs:36-58 | The sliding loop gives these windows |
| `Chunker.ChunkMarkdown` | crates/onebrain-search/src/chunk.rs:64-135 | The line loop with its buffer, stack and flushes gives the chunks of these sections |
| `Fusion.RankingIsUnique` | crates/onebrain-search/src/hybrid.rs:14-37 | There is one ranking by score and then id, whatever order the map is walked in and whichever list comes first |
| `Fusion.TopIsBest` | crates/onebrain-search/src/hybrid.rs:28-37 | The ids returned come by falling score, equal scores in the order of their characters, each with its score, and none that is left out comes before one that is returned |
| `Fusion.StringLeIff` | crates/onebrain-search/src/hybrid.rs:30-34 | Where two ids first differ, the smaller character decides; a prefix comes first |
| `Fusion.SmallerIsPrefix` | crates/onebrain-search/src/hybrid.rs:35-37 | A smaller `top_k` gives a prefix of what a larger one gives |
| `Fusion.AgreementIsKept` | crates/onebrain-search/src/hybrid.rs:7-13 | What both lists rank above another id scores higher in the fusion |
| `Fusion.AddList` | crates/onebrain-search/src/hybrid.rs:22-27 | The accumulation loop adds each place's reciprocal to the id's score |
| `Fusion.Fuse` | crates/onebrain-search/src/hybrid.rs:14-37 | Accumulation, collection, sort and truncation give the prefix of that ranking; every id of a list is returned or scores no higher than each one that is |
| `Fences.RustOutside` | crates/onebrain-fs/src/task.rs:60-106 | The state machine keeps exactly the lines that the declarative fence rule puts outside fences |
| `Fences.FenceState.InCode` | crates/onebrain-fs/src/task.rs:86-105 | One line's transition |
| `Fences.MarkerIff` | crates/onebrain-fs/src/task.rs:60-73 | A line is a fence exactly when, behind white space, it starts with at least three backticks or at least three tildes; it can close one exactly when nothing but white space follows the whole run |
| `Fences.PythonOutside` | scripts/check-links.py:62-84 | The Python loop over lines keeps exactly the lines outside declarative fences, under Python's notion of white space |
| `FenceTexts.WithoutFencedBlocks` | scripts/check-links.py:62-84 | On texts: the lines of `splitlines` outside fences, joined by newlines |
| `FenceTexts.BreaksAreListed` | scripts/check-links.py:62-84 | The ten characters at which Python's `splitlines` cuts |
| `FenceTexts.ForeignIsListed` | scripts/check-links.py:62-84 | The nine foreign characters, a lone carriage return aside |
| `Fences.PyWhiteIsListed` | scripts/check-links.py:62-84 | The characters that are white space for Python |
| `Text.WhiteIsListed` | crates/onebrain-fs/src/yaml_edit.rs:16-24 | The characters that are white space for Rust's `trim` |
| `FenceTexts.CommonTextsAgree` | scripts/check-links.py:62-84 | Both scanners keep the same lines of every text without foreign characters, each cutting it into lines in its own way |
| `Fences.AgreeIffUndisputed` | crates/onebrain-fs/src/task.rs:60-106 | They agree on all texts made of a line and plain text exactly when they classify that line alike |
| `FenceTexts.FilesAgreeIffNotForeign` | scripts/check-links.py:56-84 | A character is foreign exactly when some file in which nothing else is foreign makes the scanners keep different lines, Rust of its text and Python of what `read` makes of it: a lone carriage return, U+001F or a line break that only Python knows |
| `FenceTexts.ReadKeepsLines` | scripts/check-links.py:56-69 | Translating the newlines on reading does not change where `splitlines` cuts |
| `Fences.TrailingIsDisputedIff` | crates/onebrain-fs/src/task.rs:60-73 | A character after a fence of three backticks is read differently exactly when it is white for Python alone |
| `Fences.VisitTasks` | crates/onebrain-fs/src/task.rs:124-197 | The walk visits exactly the first `max` tasks outside code blocks |
| `Fences.FoundIff` | crates/onebrain-fs/src/task.rs:124-197 | Without a cap, a task is found exactly when some line outside the fences of some note is one |

## Left out

- Writing one row, replacing one file by rename and committing one database transaction are atomic here; torn writes are not modelled.
- redb, tantivy, fastembed, hf-hub, simsimd, memory maps and ONNX: their internals are not part of this model.
- Floating point: vectors and scores are reals, so NaN ordering and rounding are not modelled; BM25 values are left out.
- Unreadable rows and failing table reads in the vector search, which skip or return nothing; the search is modelled on a readable store.
- The YAML parse gate of the restructurer is a parameter; YAML semantics and frontmatter are left out.
- YamlLaws.DeleteUndoesComment: states the law on lines; the whole-text forms are proved for `set_value` and `upsert_child`.
- The editor slices the key line by bytes behind the key and its colon. Where white space of several bytes stands between a plain key and its colon (such as U+00A0), that slice is inside a character and the source panics; the put laws are stated for those lines as if it were not. Quoted keys and plain spaces are sliced as in the model.
- `append_top_level` only concatenates and is left out.
- The reader of a cache path may use it after a later rename; only the moment of the check is stated.
- LockHolder.Sidecar.Record: role, version, executable path and start time of a record are one opaque identity here.
- LexRebuild.AnyRunIsSound: updates between openings are complete ones; a crash between the two commits of a normal document update is not part of this protocol.
- The default analyzer of tantivy is a parameter that makes tokens only out of the characters it is given.
- CodexPlugin.CodexHome.Install: file permissions, the dry run, messages and a receipt path that stops resolving during a rollback are left out; `plugin list` reports truthfully or fails.
- Checkpoint.StateFile.HandleStop: the state file is always written; the count wraps at 32 bits as in a release build, and configuration loading and the date are parameters.
- Chunker.ChunkMarkdown: the heading stack carries line numbers that serve the specification only.
- Fusion.Fuse: `k` is positive, as in every call.
- Fences.VisitTasks: the directory walk and the two regular expressions are parameters.
- FenceTexts.WithoutFencedBlocks: takes the text as a string; how the script's `open` decodes the bytes of a file is not part of this model.
- FeatureTables.MergeIsCleanIff: quoted and dotted keys, an inline `features` table and values over several lines are not read as assignments.
- YamlDelete.DeletedIsGoneIff: states the law for a continuation that holds the key's block; where a comment cuts the block, `YamlOrphans.DeleteIsSafeIff` says that other keys can be lost.
- The engine beyond the rebuild, the transform registry, telemetry, token cache, command tree, session tokens, vault lookup, orphan scan, banners, tables of defaults, process spawning and time zones are not part of this model: they are single branches, priority chains and constants.
