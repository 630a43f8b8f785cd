# thewiki: verification of the template engine, the search indexer and the link pass

A Dafny 4.11 model of the stateful core of the wiki, with proofs. `dafny verify dfyconfig.toml` checks all of it.

## What is modelled

**Template transclusion** (`crates/render/src/template.rs`). `Expander` states what the recursive expander computes,
branch by branch, with its depth cap, cycle stack, pinned diagnostics and the second scan of substituted text.
`Renderer.Worker` is the worker itself: one mutable stack and one per-render cache shared by all activations, proved
equal to `Expander`. `Scanner` specifies the brace scanners by one recursive definition on characters; `Bytes`,
`ScannerLoops` and `BodyLoops` are the same scanners as byte loops over UTF-8 (section 3 of RFC 3629), where taking a
slice of a string (`From`, `Between`) has a character-boundary precondition; `Decoding` reads characters back.
`Wikitext` holds source trees and their printed form, `RoundTrip` the printer/parser round trip, `Semantics` a tree
interpreter, and `Transclusion` the theorem that expanding printed source computes what the interpreter says. `Bindings`
says which argument a reference stands for, by name, number and scope, without the interpreter's own lookup and frames.
`Measured` is the expander without rescanning, which has a termination measure.

The second scan means that the renderer need not return. `fuel` is the number of nested activations of the worker the
call stack has room for; `Returns` says that every deep enough call stack gives this text, `Diverges` that none is deep
enough; `Fuel` shows that there is nothing third, and one text at most. `Runs`, `Pins` and `Limits` are about every point
of every run: the stack, the positions and the truth of diagnostics, and the recursion limit. `Names` is how addresses,
ids and parser functions are read, `Tags` reads the tags the renderer writes, and `Diagnostics` reads a diagnostic back
from the page. A resolver is any map from keys to templates, finite or not, cyclic or not.

**Template prefetch** (`crates/api/src/render.rs`). `Prefetch` is the second scanner and the level-by-level walk, with
its queue, its namespace cache and its depth bound; `PrefetchTheorem`, `PrefetchLimits` and `PrefetchDepth` compare
rendering from the prefetched templates with rendering from storage, diagnostics included; `ScannedCalls` and
`ScannedKeys` compare the two scanners on text that need not be well-formed.

**Search indexer** (`crates/search/src/indexer.rs`, `index.rs`). `SearchIndex` is a document list under delete-then-add
writes, with an independent last-writer-wins reading; `Indexer` is the channel, the batching loop, the timer, shutdown
and crashes, as a state machine and as the worker that carries it out. `Reindex` and `Streaming` are the two ways of
rebuilding the index from storage: paged and one-shot, or through the bounded channel.

**Links, anchors, encoders.** `Links` is the in-place link pass over the event array, the tags it writes, and the links
found before rendering; `Redlinks` compares the tags with what storage holds; `Slug` is the heading anchors; `Codecs`
hex, percent-encoding (RFC 3986) and XML entities; `Permissions` the textual permission sets.

## Where the code and its documentation differ

The model follows the code.

- `template.rs:246` means an unbound `{{{x}}}` to be shown as written. The code scans the literal again with the same
  arguments and never returns: `Termination.UnboundReferenceNeverReturns`. `Termination.DefaultsMakeItReturn` gives a
  guard that excludes it, and `Transclusion.ExpansionIsMeaning` says exactly when it happens on well-formed source.
- `indexer.rs:309` says that a failed commit is retried on the next tick. The counter is zeroed whether or not the
  commit succeeded (249-250, 255-256): `Indexer.FailedTickLosesTheBatch`, and the exact condition, read
  off the log of jobs and commits, in `Indexer.ShutdownIsCompleteIff`. The documented behaviour is the machine with
  `retryFailed` set.
- `slug.rs:53` promises unique slugs. `Foo`, `Foo`, `Foo 2` gives `foo-2` twice: `Slug.TwoHeadingsOneAnchor`, and the
  exact condition in `Slug.AnchorsAreDistinctUnlessTheyClash`. The module comment also drops `_`, which the code turns
  into a dash.
- `render.rs:143` prefetches every reference. A call written only inside a `{{{..|..}}}` default is skipped:
  `PrefetchLimits.CallInDefaultIsMissed`. `PrefetchTheorem.PrefetchServesIff` has the exact condition for every page and
  every stored content: the closure of calls that does not follow defaults misses nothing of the one that does. A call
  behind `{{` that is never closed is skipped too: `ScannedKeys.BehindAnOpenPairIsMissed`, and the exact condition for any
  text at all in `ScannedCalls.WorkerCallsAreScannedIff`.
- `markdown.rs:446` takes links not to nest. Where they do, the links found before rendering can differ from the reported
  ones: `Links.NestedLinkIsDropped`, and the exact condition in `Links.ExtractedIsOutboundIff`. A link that only a
  template brings in is red: `TemplateLinks.LinkFromATemplateIsRed`, and the exact condition in `Redlinks.RedlinksAgreeIff`.

## Model

| member | source | states |
|---|---|---|
| Scanner.JoinSplit | crates/render/src/template.rs:516-568 | For any string at all, the segments between top-level pipes joined by a pipe give the string back |
| RoundTrip.RefCloses | crates/render/src/template.rs:639-649 | A printed reference is closed by its own `}}}`, whatever text follows |
| RoundTrip.FindSkipsDoc | crates/render/src/template.rs:479-635 | Every scanner passes over a printed well-formed document at any depth, unless it stops at its top-level text |
| RoundTrip.CallCloses | crates/render/src/template.rs:606-635 | The closing-brace search finds the end of a printed call, whatever text follows |
| RoundTrip.SplitCall | crates/render/src/template.rs:516-568 | Splitting a printed call gives exactly its name and its argument texts |
| RoundTrip.SplitRef | crates/render/src/template.rs:572-600 | The first top-level pipe of a printed reference is the one before its default |
| Transclusion.ReadRef | crates/render/src/template.rs:232-240 | A printed reference is read as its trimmed name and exactly its default |
| Transclusion.ReadPositional | crates/render/src/template.rs:463-474 | A printed positional argument is read whole, under the next index |
| Transclusion.ReadNamed | crates/render/src/template.rs:463-474 | A printed named argument is read as its trimmed key and exactly its value, and takes no index |
| Transclusion.ReadCall | crates/render/src/template.rs:285-288 | In front of any text, the inner part of a printed call is recovered exactly, and what follows is left over |
| Transclusion.ReadHead | crates/render/src/template.rs:299-321 | The name test, the parser-function test and the split see the name and arguments the call was printed from |
| Transclusion.ExpansionIsMeaning | crates/render/src/template.rs:100-474 | For every well-formed page, stored templates and depth cap: the expansion returns what the tree interpreter says (arguments in the caller's scope, trimmed, positionals numbered without the named ones, first binding wins, body in the new scope) if every evaluated reference is bound or defaulted, and otherwise never returns |
| Transclusion.TranscludeMeant | crates/render/src/template.rs:323-450 | One call: unknown namespace, missing template, cycle, limit and entry in this order give what the interpreter gives, at any depth and in any scope |
| Transclusion.ArgsMeant | crates/render/src/template.rs:416-433 | Binding printed arguments gives the interpreter's scope, free of further calls |
| Bindings.LookupFindsFirst | crates/render/src/template.rs:241 | A name is bound to the value of the first argument of that name, and unbound exactly when no argument has it |
| Bindings.CallGivesFirstBinding | crates/render/src/template.rs:407-450 | In any scope, a call of a template that is one reference gives the first argument of that name (by key, or by number among the arguments without one), evaluated in the scope of the caller and trimmed; what the caller was given under that name is not seen |
| Bindings.ArgumentsSeeTheCaller | crates/render/src/template.rs:407-433 | An argument that is a reference itself stands for what the caller was given |
| Bindings.PageGivesFirstBinding | crates/render/src/template.rs:241-450 | The same for whole pages, over any stored templates: the page returns that argument when there is one and all arguments can be evaluated, and otherwise never returns |
| Bindings.FirstOfTwoBindings | crates/render/src/template.rs:241 | With one name given twice, the reference expands to the trimmed text of the first |
| Measured.NoOpenNoChange | crates/render/src/template.rs:137-216 | Text without `{{` expands to itself from any index, in any scope, with no diagnostics |
| Measured.StuckForEver | crates/render/src/template.rs:240-264 | A reference that stands for its own text runs out of every call stack |
| Measured.PageAgrees | crates/render/src/template.rs:100-452 | For any source and any resolver: what the terminating version settles is what the renderer returns, and where it is stuck the renderer never returns |
| Fuel.BodyKeeps | crates/render/src/template.rs:137-216 | In any scope, a deeper call stack never changes what a shallower one has returned, its text or its events |
| Fuel.ReturnsOnceOrDiverges | crates/render/src/template.rs:100-216 | For any source, resolver and cap the page returns exactly one text, or it never returns |
| Termination.DefaultsMakeItReturn | crates/render/src/template.rs:222-265 | If every reference that can be evaluated has a default (those on the page outside all calls are copied and need none), expansion returns the interpreter's text, cyclic templates included |
| Termination.UnboundReferenceNeverReturns | crates/render/src/template.rs:240-264 | For every brace-free name and among any other templates, a template that is just an unbound reference without default makes the page that calls it expand for ever |
| Runs.StackDiscipline | crates/render/src/template.rs:370-450 | At every point of every run the stack holds distinct ids, depth is stack height plus enclosing argument expansions, and never exceeds the cap |
| Runs.DiagnosticsAreTrue | crates/render/src/template.rs:341-404 | At every depth of every run a missing template is missing, in a namespace that exists or is the default one, an unknown namespace is unknown, a cycle ends in a template that is being expanded, and the limit is reported at the cap only |
| Pins.PageRunsItsCalls | crates/render/src/template.rs:148-216 | Everything that happens on a page happens in the calls its own scan takes, one after the other |
| Pins.DiagnosticsPinToThePage | crates/render/src/template.rs:291-448 | Every diagnostic, however deep, carries the line and column of the page-level call during whose expansion it is emitted: one more than the line breaks in front of it, and one more than the characters behind the last of them |
| Pins.PageCallsArePrintedCalls | crates/render/src/template.rs:148-216 | In printed source the page-level calls are the calls at the top of the tree, none inside an argument, a default or a reference |
| Pins.LineColIncreases | crates/render/src/template.rs:661-676 | Line and column grow strictly with the offset, so a pin identifies one call |
| Expander.LineColCounts | crates/render/src/template.rs:661-676 | The line is one more than the line breaks in front of the offset, the column one more than the characters behind the last of them |
| Diagnostics.ErrorReads | crates/render/src/template.rs:678-685 | Read as markup, every diagnostic is one span whose attributes read as its line and column and whose text reads as its message, whatever the message contains |
| Diagnostics.ParserFunctionIsRefused | crates/render/src/template.rs:293-313 | A text and a call of a parser function expand to the text and a diagnostic that names the function and carries the position of the call |
| Diagnostics.MissingTemplateIsShown | crates/render/src/template.rs:353-368 | So do a text and a call of a template that does not exist; whether the message is about the namespace or the template depends on whether the namespace exists |
| Diagnostics.CycleSpelled | crates/render/src/template.rs:379-392 | The message about a cycle names the chain in order |
| Names.AddressReads | crates/render/src/template.rs:653-658 | An address is split at its first colon, both parts trimmed; without a colon it names a template in the default namespace |
| Names.ShortNameReads | crates/render/src/template.rs:689-693 | The short name of an id stands behind its last colon |
| Names.FunctionNameReads | crates/render/src/template.rs:300-306 | The name of a parser function stands between the leading hashes and the first colon or bar |
| Text.TrimIsTheCore | crates/render/src/template.rs:233-240 | Trimming takes off white space only, and leaves none at either end |
| Text.DecimalReadsBack | crates/render/src/template.rs:470 | Positional names and positions are written most significant digit first, without leading zeros |
| Runs.LimitNeedsArguments | crates/render/src/template.rs:370-404 | The limit diagnostic is reported only under more argument expansions than the cap exceeds the number of templates by |
| Limits.RefTakesNone | crates/render/src/template.rs:229-251 | When no call in a text, its references' defaults included, carries an argument, none does in what an unbound reference stands for |
| Limits.WithoutArgumentsNoLimit | crates/render/src/template.rs:370-404 | When no call carries an argument (a bar in text or before a default is none) and the cap is at least the number of templates, the limit diagnostic never appears |
| Renderer.Worker.ExpandBody | crates/render/src/template.rs:137-216 | An activation computes the stackless, cacheless expansion of the body, leaves the stack as it found it and only adds to the cache |
| Renderer.Worker.Scan | crates/render/src/template.rs:148-216 | The same for the index-driven loop: the text built so far and the rest to come are always the whole expansion |
| Renderer.Worker.ExpandRef | crates/render/src/template.rs:222-265 | Substitutes the binding, the default or the literal, and expands it again in the same scope |
| Renderer.Worker.TryCall | crates/render/src/template.rs:273-321 | Consumes a call or leaves the braces and the state alone, exactly when the specification does |
| Renderer.Worker.Transclude | crates/render/src/template.rs:323-451 | Lookup, cycle test, limit test, arguments and body, with the push and the pop undoing each other |
| Renderer.Worker.Resolve | crates/render/src/template.rs:341-352 | The cached answer is the resolver's answer |
| Renderer.Worker.BindArgs | crates/render/src/template.rs:416-433 | The argument loop binds what the specification binds, in order, and restores the stack |
| Renderer.FindLineCol | crates/render/src/template.rs:661-676 | The counting loop computes the position after the prefix: line breaks in front, and characters behind the last of them, counted apart from the loop |
| Renderer.Escape | crates/render/src/template.rs:695-708 | The escaping loop gives text without markup that reads back as the input |
| Renderer.RenderSource | crates/render/src/markdown.rs:126-145 | A blank page is an error and nothing else is; skipping the expander on source without an opening pair gives what the expander gives, namely the source |
| Bytes.AsciiBoundaries | crates/render/src/template.rs:148-215 | In valid UTF-8 there are character boundaries on both sides of every ASCII byte |
| Bytes.FindOnBytes | crates/render/src/template.rs:479-635 | The byte scanners stop at the byte offset of the character where the scanners on characters stop |
| Bytes.TripleOnBytes | crates/render/src/template.rs:639-649 | The same for the search for `}}}` |
| ScannerLoops.FindMatchingTripleClose | crates/render/src/template.rs:639-649 | The byte loop returns the offset of the first `}}}` |
| ScannerLoops.FindMatchingDoubleClose | crates/render/src/template.rs:606-635 | The byte loop returns the offset of the unmatched `}}`, slicing at character boundaries only |
| ScannerLoops.FindTopLevel | crates/render/src/template.rs:479-509 | The byte loop returns the offset of the first top-level separator, slicing at character boundaries only |
| ScannerLoops.SplitTopLevelPipe | crates/render/src/template.rs:572-600 | Both halves are valid text, and are the halves on characters |
| ScannerLoops.SplitAtEquals | crates/render/src/template.rs:463-474 | Key and value around the first top-level equals sign are valid text, and are those on characters |
| ScannerLoops.SplitTopLevelPipes | crates/render/src/template.rs:516-568 | The copying loop stands on character boundaries throughout and cuts the text into the segments on characters |
| BodyLoops.TakesCall | crates/render/src/template.rs:285-321 | On bytes, with the trim and the split, braces are taken as a call exactly when they are on characters |
| BodyLoops.CutBody | crates/render/src/template.rs:148-216 | The worker's outer loop on bytes stands on character boundaries throughout and meets the same references, calls and copied text as on characters |
| Pieces.StepTakesPiece | crates/render/src/template.rs:154-213 | Those pieces are the steps of the expansion |
| BodyLoops.ScanCalls | crates/api/src/render.rs:258-302 | The prefetcher's loop, which goes on byte by byte, slices at character boundaries only and finds the calls found on characters |
| ScannedKeys.ScannedKeysAreOfCalls | crates/api/src/render.rs:280-296 | The prefetched keys are the keys of exactly those calls |
| ScannedCalls.InFrontIsClosed | crates/api/src/render.rs:314-342 | Whatever the search for the closing braces has passed over, at any depth, has all its own braces closed |
| ScannedCalls.SeenOrBehind | crates/api/src/render.rs:258-302 | In any text, a call the worker takes is one the prefetcher sees, or one the worker takes behind the braces at which the prefetcher gives up |
| ScannedCalls.WorkerCallsAreScannedIff | crates/api/src/render.rs:258-302 | For any text, well-formed or not: the prefetcher sees every call the worker takes if and only if it sees those the worker takes behind the braces at which it gives up |
| ScannedCalls.NothingBehindIff | crates/api/src/render.rs:273-299 | The prefetcher gives up nowhere if and only if all braces it meets, those inside calls included, are closed |
| ScannedCalls.WorkerCallsAreScanned | crates/api/src/render.rs:258-302 | In particular, when all braces are closed it sees every call the worker takes |
| ScannedKeys.SameKey | crates/api/src/render.rs:287-294 | Worker and prefetcher read the same key off a call with no brace before its first bar |
| ScannedKeys.BehindAnOpenPairIsMissed | crates/api/src/render.rs:297-299 | Behind an opening pair that is never closed the worker takes a call and the prefetcher sees none |
| Prefetch.ScanTemplateCalls | crates/api/src/render.rs:258-302 | The loop, with its recursion into inner text, collects the keys of the scan specification |
| Prefetch.ScanPrinted | crates/api/src/render.rs:258-302 | In printed source the scan finds exactly the keys of the calls outside defaults, arguments included |
| Prefetch.ReachStops | crates/api/src/render.rs:169-228 | Once a level of the walk adds nothing, no later level does |
| Prefetch.ProcessKey | crates/api/src/render.rs:171-226 | One queued key: what is collected stays exact, and the calls of its body are queued unless already collected |
| Prefetch.FetchFinds | crates/api/src/render.rs:179-252 | Storage has a template exactly when its namespace has a possible name and exists and has the page; its text is the head revision, or empty when there is none |
| Prefetch.BuildTemplateResolver | crates/api/src/render.rs:157-231 | The walk collects exactly the stored templates and existing namespaces of all keys met within `max_depth + 1` levels |
| PrefetchTheorem.LevelsAreReached | crates/api/src/render.rs:169-228 | When every text calls outside defaults what its defaults call, every key that can be found at call depth `n` is met within `n + 1` levels |
| PrefetchTheorem.WalkIsReach | crates/api/src/render.rs:169-228 | The walk over stored texts meets, level by level, the closure of the calls outside defaults read off the trees |
| PrefetchTheorem.PrefetchServesIff | crates/api/src/render.rs:157-302 | For every page, stored content and cap: the prefetched resolver answers every key the page can reach as storage does, if and only if every such stored template, and some key of every such namespace, is in the closure that does not follow defaults |
| PrefetchTheorem.ScannedMissesNothing | crates/api/src/render.rs:265-273 | That holds when each text by itself calls outside defaults what its defaults call |
| PrefetchTheorem.PrefetchRefinesStorage | crates/api/src/render.rs:157-302 | Where that condition holds, a page returns a text with the prefetched templates exactly when it returns it with storage itself, diagnostics included |
| PrefetchTheorem.AnswersLikeStorageIff | crates/api/src/render.rs:265-273 | What the page alone decides: over all stored contents whose own bodies are scanned completely, the prefetched resolver answers like storage if and only if no call with a possible namespace is evaluated in defaults of the page only |
| PrefetchTheorem.WalkIsRestriction | crates/api/src/render.rs:157-231 | Whatever a walk misses, the page renders exactly as its meaning over the templates the walk has found |
| PrefetchTheorem.ReturnsOnlyItsMeaning | crates/render/src/template.rs:100-452 | A page returns its meaning and no other text |
| PrefetchLimits.CallInDefaultIsMissed | crates/api/src/render.rs:265-273 | A stored template called only in a default renders from storage and not from the prefetched templates, and the exact condition fails there |
| PrefetchDepth.ChainHitsTheLimit | crates/render/src/template.rs:394-404 | For every cap, a chain of `max + 1` templates renders as the limit diagnostic and nothing else |
| PrefetchDepth.OneLevelLessIsTooFew | crates/api/src/render.rs:169 | For every cap, a walk one level shorter turns that diagnostic into a missing template that storage has: the `<=` is tight |
| SearchIndex.ReplayIsLastWriterWins | crates/search/src/index.rs:166-206 | Any jobs on any index leave the documents they do not touch, then the upserts nothing overwrote, in order |
| SearchIndex.IndexHoldsLastWrites | crates/search/src/index.rs:166-206 | A document is in the index if and only if it is the last thing written to its page |
| SearchIndex.ReplayKeepsIdsDistinct | crates/search/src/index.rs:166-206 | The index holds at most one document per page |
| SearchIndex.ReplayTwice | crates/search/src/lib.rs:20-30 | Applying jobs that are already in the index again changes nothing, not even the order |
| SearchIndex.CrashReplay | crates/search/src/lib.rs:20-30 | For any log, any commit point and any earlier point, replaying from there on the committed index gives the index of the whole log |
| Indexer.Worker.TrySend | crates/search/src/indexer.rs:98-112 | A job is queued, or refused exactly when the channel is full or closed |
| Indexer.IndexerHandle.TrySend | crates/search/src/indexer.rs:93-97 | A handle without a worker refuses every job; otherwise the channel decides |
| Indexer.Worker.ApplyOne | crates/search/src/indexer.rs:266-297 | One job on the writer; a rebuild empties the writer and, when its commit succeeds, the index readers see, on the spot; no other job and no failed commit changes that index |
| Indexer.Worker.CommitWriter | crates/search/src/indexer.rs:300-315 | Success publishes the writer's documents, failure publishes nothing |
| Indexer.Worker.ReceiveOne | crates/search/src/indexer.rs:225-246 | Takes and counts the oldest job |
| Indexer.Worker.FinishDrain | crates/search/src/indexer.rs:248-251 | Commits a full batch and zeroes the counter either way |
| Indexer.Worker.OnTick | crates/search/src/indexer.rs:253-258 | Commits what is pending and zeroes the counter either way |
| Indexer.Worker.OnClosed | crates/search/src/indexer.rs:226-231 | Commits what is pending and stops |
| Indexer.Worker.RunWorker | crates/search/src/indexer.rs:222-260 | Under any schedule the worker is the state machine |
| Indexer.StepKeepsInv | crates/search/src/indexer.rs:222-297 | Every step keeps: accepted jobs are applied jobs then queue, the writer replays the applied jobs, the committed index a prefix of them, the counter stays within the batch and is zero exactly behind an attempted commit, and something is uncommitted exactly when the log has a job behind the last successful commit |
| Indexer.StepPublishes | crates/search/src/indexer.rs:225-315 | Readers see a change in exactly the steps that attempt a commit which succeeds (a rebuild taken, a full batch, a tick or a shutdown with something pending), and then everything applied so far; a rebuild leaves them an empty index |
| Indexer.StepCounts | crates/search/src/indexer.rs:225-258 | The counter grows by one with each job and is zeroed by the loop's commits; a wake-up ends with a full batch or an empty queue |
| Indexer.WorkerGoesOn | crates/search/src/indexer.rs:222-260 | A worker that has not stopped is never stuck, and inside a batch exactly one thing can happen next |
| Indexer.CommittedIsAPrefix | crates/search/src/indexer.rs:198-297 | Under every schedule, batch size and outcome of commits, the committed index replays a prefix of the accepted jobs, with one document per page, and the counter is below the batch size whenever the worker waits |
| Indexer.CleanShutdownIsComplete | crates/search/src/indexer.rs:226-260 | When commits succeed, shutdown leaves the replay of all accepted jobs, and nothing pending means nothing uncommitted |
| Indexer.EverythingAcceptedCanBeCommitted | crates/search/src/indexer.rs:222-260 | From every point of every run without failures the worker can go on to a stop at which everything accepted so far is committed |
| Indexer.ShutdownIsCompleteIff | crates/search/src/indexer.rs:226-258 | With failing commits, a succeeding shutdown leaves accepted jobs out if and only if the last commit in the log failed and a job was applied since the last one that succeeded |
| Indexer.RetryingWorkerLosesNothing | crates/search/src/indexer.rs:308-313 | A worker that keeps the counter after a failure commits everything applied at the next success |
| Indexer.FailedTickLosesTheBatch | crates/search/src/indexer.rs:253-258 | One upsert, a failing tick and a clean shutdown: the code never commits the document, the retrying worker does |
| Indexer.CrashIsRepaired | crates/search/src/indexer.rs:198-297 | After a crash at any point, replaying the accepted jobs from any point up to the last commit gives the index of all of them |
| Reindex.CollectNamespace | crates/api/src/main.rs:467-504 | For any backend that honours the cursor contract, the paging loop ends and visits each page of the namespace once, in order |
| Reindex.CollectDocs | crates/api/src/main.rs:465-504 | The same for all namespaces in turn: one document for every page of every namespace, in order, and no others |
| Reindex.RowIsCollected | crates/api/src/main.rs:471-504 | The `k`-th row of the `n`-th namespace is collected behind all rows of the namespaces before it |
| Reindex.ToDocIsDocument | crates/api/src/main.rs:459-498 | The document has the fields of the page, the body of its head revision if that exists, and the slug and kind of its namespace |
| Reindex.RebuildInto | crates/search/src/indexer.rs:328-343 | The one-shot rebuild is the replay of a wipe and the upserts, and counts with saturation |
| Reindex.RebuildIsExact | crates/search/src/indexer.rs:328-343 | A rebuild leaves exactly the given documents, in order, whatever the index held |
| Reindex.RebuildFromStorage | crates/api/src/main.rs:465-504 | A rebuild from a list of pages leaves one document per page, made from that page, and nothing else |
| Reindex.ReindexAll | crates/api/src/main.rs:437-519 | The reindex command, over any backend that honours the cursor contract and any old index: every stored page of every namespace has exactly one document, made from it, and there are no others |
| Reindex.StreamIsCompleteIffNothingWasDropped | crates/api/src/main.rs:378-433 | With some sends refused the index is the accepted documents, and equals a rebuild if and only if none was refused |
| Streaming.AcceptedAreKept | crates/search/src/indexer.rs:93-112 | Under any schedule the channel accepts the sends that find room, in order, and no others |
| Streaming.StreamedIndexIsTheAcceptedPages | crates/api/src/main.rs:378-433 | The startup rebuild through the working worker, alone on the channel: after shutdown the index is the pages whose send was accepted, in order, and a full rebuild if and only if all were |
| Streaming.SharedChannelKeepsLastAccepted | crates/search/src/indexer.rs:72-122 | Whoever shares the channel and in whatever order, rebuilds among them: after shutdown a document is in the index if and only if it was there before and no accepted send touches its page, or it is that of an accepted upsert with no accepted send to its page behind it |
| Streaming.NothingIsDroppedIffTheyAllFit | crates/api/src/main.rs:387-422 | No schedule can make the channel refuse a page if and only if its capacity exceeds the number of pages |
| Links.RewriteLinks | crates/render/src/markdown.rs:327-377 | In place: the tag at each wikilink start reads as a link to the encoded target in its namespace, or, exactly when the resolver does not know the target, as a redlink that offers to create it; `</a>` stands exactly at the ends paired with a wikilink start; every other event stays; the reported links are one per wikilink, in order |
| Links.CollectDisplay | crates/render/src/markdown.rs:449-472 | The text and code between this start and the end that pairs with it, or the end of the stream |
| Links.ReportedInOrder | crates/render/src/markdown.rs:337-344 | The reported link of a wikilink stands behind those of the wikilinks before it, with its own target and, when it has a pothole, the text between its start and its end |
| Links.RedTagReads | crates/render/src/markdown.rs:345-363 | The tag of a redlink, read as markup, has the path of the page to create and a title with the target, whatever characters they contain |
| Links.PartnerIsPair | crates/render/src/markdown.rs:327-377 | For every stream, `</a>` goes exactly to the ends that pair with a wikilink start in a balanced stretch, and a pair is unique |
| Links.ClosedLinksBalance | crates/render/src/markdown.rs:366-374 | When every link is closed, as many `</a>` are written as wikilinks opened |
| Links.ExtractLinks | crates/render/src/markdown.rs:391-423 | The scan before rendering keeps one open wikilink and reports it at the next end of any link |
| Links.ExtractedIsOutboundIff | crates/render/src/markdown.rs:391-423 | The links found before rendering are the links reported by rendering if and only if after each wikilink some link ends before another wikilink starts, and no text of a wikilink with a pothole stands behind the first such end |
| Links.NestedLinkIsDropped | crates/render/src/markdown.rs:399-413 | Of a wikilink in a wikilink only the inner one is found before rendering, and both are reported by rendering |
| Links.FlatLinksAgree | crates/render/src/markdown.rs:446-448 | They agree when no link starts inside a wikilink |
| Redlinks.BuildResolver | crates/api/src/render.rs:350-382 | Skipping empty and repeated targets, the loop collects exactly the targets that exist |
| Redlinks.RedlinksAgreeIff | crates/api/src/render.rs:350-382 | The tags written are redlinks exactly where the page is missing, for every content of storage, if and only if each rendered target is non-empty and the target of a wikilink of the unexpanded text after which some link ends before another wikilink starts |
| TemplateLinks.TemplateExpands | crates/render/src/template.rs:273-451 | A page that is one call of a template without braces in its body expands to that body |
| TemplateLinks.LinkFromATemplateIsRed | crates/api/src/render.rs:356-363 | A page whose only text is the call of a template with a link to an existing page expands to that link, whose tag is then a redlink, for any Markdown parser that sees the link only once it is there |
| Redlinks.FlatRedlinksAgree | crates/render/src/markdown.rs:345-363 | Without templates and nested links, the tag written for a wikilink is a redlink exactly when its page does not exist |
| Slug.Slugify | crates/render/src/slug.rs:18-51 | The loop with its dash flag computes the squeezed, stripped title |
| Slug.SlugJoinsTheWords | crates/render/src/slug.rs:18-51 | A slug is the words of the title (between white space, dashes and underscores) with a letter or a digit, in lower case and without other characters, joined by single dashes; `section` when there are none |
| Slug.SlugsAreTheFixedPoints | crates/render/src/slug.rs:18-51 | Every result is non-empty, over `[a-z0-9-]`, without edge or doubled dashes; slugs are exactly the titles left unchanged, so slugifying again changes nothing |
| Slug.SlugAllocator.Allocate | crates/render/src/slug.rs:63-72 | The anchor is the slug, numbered from the second occurrence on |
| Slug.AllocateAll | crates/render/src/slug.rs:58-73 | The anchors of a whole document |
| Slug.AnchorsAreDistinctUnlessTheyClash | crates/render/src/slug.rs:53-73 | In every document the anchors are pairwise distinct if and only if no slug is another slug that occurs `n` times or more with `-n` behind it |
| Slug.TwoHeadingsOneAnchor | crates/render/src/slug.rs:53-73 | `Foo`, `Foo`, `Foo 2` has two headings with the anchor `foo-2` |
| Codecs.EncodeHex | crates/storage/src/codec.rs:341-349 | The loop writes two lower-case digits per byte |
| Codecs.HexDecodeId | crates/storage/src/codec.rs:357-371 | Accepts exactly 32 bytes of hexadecimal digits and decodes them |
| Codecs.HexRoundTrip | crates/storage/src/codec.rs:341-380 | Decoding undoes encoding on every byte sequence |
| Codecs.HexDigitsInOrder | crates/storage/src/codec.rs:341-349 | Each byte is written as the lower-case digits of its upper and its lower half |
| Codecs.HexDecodesExactly | crates/storage/src/codec.rs:357-380 | Exactly the hexadecimal strings decode, and encoding the result only changes the case of letters |
| Codecs.PercentRoundTrip | crates/render/src/markdown.rs:479-500 | Percent-decoding undoes the encoding on every byte sequence |
| Codecs.EncodePath | crates/render/src/markdown.rs:479-500 | The byte loop over a target |
| Codecs.PathsAreDistinct | crates/render/src/markdown.rs:479-500 | Different targets have different paths |
| Codecs.PathIsTargetIff | crates/render/src/markdown.rs:479-500 | Exactly the targets made of letters, digits and `-._~/` are their own paths; every other target gets longer |
| Codecs.PathIsWellEscaped | crates/render/src/markdown.rs:479-500 | A path consists of such characters and of percent signs with two upper-case digits behind each |
| Codecs.ByteInPath | crates/render/src/markdown.rs:479-500 | A byte is kept, or written as the upper-case digits of its halves behind a percent sign |
| Codecs.FivePassesAreOne | crates/api/src/audit_log/routes.rs:257-264 | Five replacements over the whole string are one pass over its characters |
| Codecs.XmlRoundTrip | crates/api/src/audit_log/routes.rs:257-264 | Reading the entities back gives the text, and the escaped text has no angle bracket or quote |
| Codecs.HtmlRoundTrip | crates/render/src/template.rs:695-708 | The same for the renderer's escaping of messages and attributes |
| Permissions.PermissionFlags | crates/api/src/admin/roles.rs:102-109 | The flags of a set that have a name, in bit order |
| Permissions.NamesInBitOrder | crates/api/src/admin/roles.rs:102-109 | Of two listed names the first is that of the lower bit |
| Permissions.FormatPermissions | crates/api/src/admin/roles.rs:90-99 | The loop writes the names with bars between them, and parsing them gives back exactly the named flags |
| Permissions.ParsePermissions | crates/api/src/admin/roles.rs:116-135 | The nested loop reads the trimmed words of all strings up to the first unknown one |
| Permissions.ParseIsFlagSet | crates/api/src/admin/roles.rs:116-135 | Parsing succeeds if and only if every word names a flag, with the flags of all words, and otherwise reports the first word that does not |
| Permissions.FlagIsByName | crates/api/src/admin/roles.rs:125-131 | A word names a flag exactly when it is the name of that flag up to the case of letters |
| Permissions.CaseDoesNotMatter | crates/api/src/admin/roles.rs:116-135 | Changing the case of letters changes neither the flags nor which word is reported |
| Permissions.OrderAndRepetitionDoNotMatter | crates/api/src/admin/roles.rs:111-135 | Inputs with the same words parse alike, whatever their order and number |
| Permissions.JoiningDoesNotMatter | crates/api/src/admin/roles.rs:111-115 | A list of names and one string with bars between them have the same words, so they parse alike |
| Permissions.FormatParses | crates/api/src/admin/roles.rs:90-135 | Parsing a formatted set gives back exactly its named flags |

## Left out

- Measured.PageAgrees: makes no claim when a substituted value itself contains `{{` (a value that is expanded again, `Dirty`); well-formed source never gets there, because no expanded argument of it contains `{`.
- Transclusion.ExpansionIsMeaning: says nothing about text with lone braces, unclosed calls, or a reference whose default contains `}}}` before its own end; the round trip does not hold for such text. `Measured.PageAgrees` and the theorems of `Runs` hold for any text.
- PrefetchTheorem.PrefetchRefinesStorage: is stated where the walk misses nothing; rendering can agree without that, when a missed default is never evaluated or never reached within the cap.
- PrefetchTheorem.PrefetchServesIff: counts every key written within reach, whether or not a binding or the depth of arguments keeps it from being looked up.
- ScannedCalls.WorkerCallsAreScannedIff: is about the calls at the top level of one text; the calls inside arguments and bodies of text that is not well-formed are not compared.
- Renderer.Worker.Scan: calls the scanners as functions on characters; that the byte loops compute the same is proved in `ScannerLoops` and `BodyLoops`.
- Indexer.FailedTickLosesTheBatch: assumes, as the whole machine does, that a failed commit keeps the writer's documents for the next one.
- Streaming.StreamedIndexIsTheAcceptedPages: is about a schedule that sends the wipe and then every page, and no other sends; with other senders `Streaming.SharedChannelKeepsLastAccepted` says what the index holds, though not in which order. The paging loop that produces the pages is the one of `Reindex.CollectNamespace`.
- Integer widths: the positional counter (`u32`), brace depth (`i32`) and indices (`usize`) are unbounded here; they could only overflow on gigabytes of braces.
- Markdown parsing, sanitising and `push_html`: libraries; the link pass takes any event sequence.
- Passes 1, 2 and 2b of `render` (headings into the array, images, `<picture>`): they would add array updates without new pairing questions; an image inside a wikilink is outside the link model.
- Tantivy: the index is a list of documents, a commit succeeds or fails; ranking, snippets, a failing `add_document` or `delete_all_documents`, and the `.last_indexed` marker are not part of this model.
- Time: a tick is a step that may happen at any moment.
- Storage errors other than a missing row, concurrent edits during the prefetch, and the SQL adapters: storage is one immutable value.
- The permission column (`u32` to `i64`), timestamps and the other row decoders: easy members.
- HTTP routes, authentication, configuration, command line and `web/`.
