# Verified model of the Puppet compiler and agent

This project models the parts of a C implementation of Puppet in which many steps have to fit together, and proves what
they promise. Each part is a set of modules:

- **Catalog scheduler** (`Catalog*.dfy`): how the agent turns metaparameters, catalog edges and file parents into
  dependency and notification lists of at most 64 slots, sorts them with an array-queue Kahn algorithm, and applies each
  resource while passing refreshes along. A provider's `apply` and `refresh` are arbitrary outcomes per resource.
- **JSON codec** (`Json*.dfy`): the stateful recursive-descent parser (cursor, one token, depth counter) refines a
  grammar over the unread text; what that grammar makes of every text of RFC 8259 (sections 2 to 7) is proved over syntax
  trees; the indenting serializer fills a doubling buffer, and its texts are some of those.
- **Concurrent protocols**: the single-consumer render queue with its locks and condition variables (`RenderQueue*.dfy`),
  the double-checked manifest cache (`ManifestCache.dfy`) and the shared template-tree cache (`ErbCache.dfy`), each as a
  step relation over any number of threads.
- **Values and Hiera** (`Puppet*.dfy`, `Hiera*.dfy`): the chained hash table, as a linked structure updated in place and
  as a value; the deep copy; deep merging as an operation on nested maps and its algebra; the four merge strategies folded
  over a hierarchy; the result cache.
- **Book-keeping**: the dead-code tracker (`DeadCode*.dfy`), the allocation tracker (`Memory*.dfy`) and the linter's
  stack of shadowed names (`Lint*.dfy`).
- **Text editing and quoting**: the crontab and hosts providers (`TextLines.dfy`, `CronEdit.dfy`, `HostEdit.dfy`) and
  shell quoting against the POSIX Shell Command Language, sections 2.2.1 and 2.2.2 (`ShellEscape.dfy`).

`Common.dfy` holds optional values and facts about sequences of numbers.

## What the proofs found out about the code

Where a promise does not hold everywhere, the code is kept as it is and the theorem says exactly when it holds.

- A `\u` escape reads its four hex characters from the `u` itself, so every one of them yields a NUL and cuts the string.
  Apart from that every text of RFC 8259 is read with its value, blanks, short escapes and all forms of numbers included,
  exactly up to 200 levels (`JsonSyntax.ParseReads`, `JsonSyntax.ReadWhole`). Reading back what was written therefore
  gives the original value exactly when no string holds a control character other than `\b \f \n \r \t`, no object
  repeats a key and containers nest at most 200 deep (`JsonLaws.RoundTrip`).
- File parents alone can make a cycle when `path` parameters differ from titles: exactly when from some file one can climb
  as many parents in a row as there are resources (`CatalogExtract.AutoRequiresCycleExactly`).
- When a cyclic catalog falls back to its written order a refresh can be lost. An order keeps every refresh, whatever the
  providers answer, exactly when each parsed notifier stands before what it notifies
  (`CatalogRefresh.RefreshesKeptExactly`, and for whole catalogs `CatalogAgent.RefreshesReportedExactly`).
- Deep merging is associative exactly on compatible hashes (`PuppetMergeLaws.MergeAssociates`) and commutes exactly on
  hashes that agree wherever both hold something that is not a hash on both sides (`PuppetMergeLaws.MergeCommutes`). In a
  hierarchy the DEEP strategy lets the *lowest*-priority level win at a conflict, while HASH lets the highest win
  (`HieraMerge.DeepAtPath`, `HieraMerge.EarliestWinsAt`); the order of the levels makes no difference exactly when any two
  of them agree (`HieraMerge.DeepIgnoresOrderExactly`).
- Hiera's result cache is keyed by the key alone, so a later lookup with another strategy or default repeats the first
  answer. That is right for all files exactly when the strategies are the same and the first default is missing or means
  what the second does (`HieraCache.SecondIsRightExactly`).
- The hosts finder never recognises the written line of an address that starts with a blank as its own, so "present" keeps
  changing the file (`HostEdit.PresentTwice`).
- Allocations made before the tracker is started are out without an entry, so its table is exact from then on only if
  there were none (`MemoryTracker.Tracker.Init`).
- A cron entry with an `environment` spans three lines but is found as two: applying it twice changes the crontab again,
  and removing it leaves the cron line behind (`CronEdit.PresentTwice`, `CronEdit.PresentThenAbsent`).
- The facts-only lint of module files still reports duplicate literal keys (compiler/puppet_lint.c:488-507), although the
  comment at compiler/puppet_lint.c:937-938 says it does not; the model follows the code.

## Model

| member | source | states |
|---|---|---|
| CatalogExtract.FindResourceIndex | agent/puppet_provider.c:510-520 | finds the first parsed resource with this title and, ignoring case, this type |
| CatalogExtract.ParseRefRoundTrip | agent/puppet_provider.c:558-582 | `Type[title]` parses back to its type and title exactly when the type has no bracket, the title is not empty and both fit their buffers |
| CatalogRequests.FoundIsFirstNamed | agent/puppet_provider.c:510-520 | the one found is the first parsed resource of that title whose type differs at most in the case of its letters, spelled out letter by letter |
| CatalogRequests.ParseRefExactly | agent/puppet_provider.c:558-582 | a text refers to a type and title exactly when it is the type, the first `[`, the non-empty title, and the last `]`, at most 63 and 255 characters long, whatever follows |
| CatalogRequests.ParentIsParentFile | agent/puppet_provider.c:587-634 | one file is the parent of another exactly when it is the first file titled with the directory of its path, the root and the file itself excepted |
| CatalogRequests.RootIsParentExactly | agent/puppet_provider.c:593-598 | the parent of a path is `/` exactly when no other `/` stands beyond its second character |
| CatalogExtract.AddDependency | agent/puppet_provider.c:525-536 | one more dependency, unless it is a self-loop, present already, or the 64 slots are full; nothing else changes |
| CatalogExtract.AddNotify | agent/puppet_provider.c:541-552 | the same for a notification |
| CatalogExtract.ExtractDependencies | agent/puppet_provider.c:639-761 | a resource's require, before, notify and subscribe references are recorded as the links they ask for, in order; what each asks for is `CatalogRequests.RequestsExactly` |
| CatalogExtract.ExtractEdges | agent/puppet_provider.c:776-824 | catalog edges whose two ends exist are recorded, with a notification when the relationship says so |
| CatalogExtract.AddFileAutorequires | agent/puppet_provider.c:610-634 | every file requires the file resource titled with its parent directory, root excepted |
| CatalogExtract.AutoRequiresAcyclic | agent/puppet_provider.c:587-634 | parents alone never make a cycle when files are titled by their path |
| CatalogExtract.AutoRequiresCanCycle | agent/puppet_provider.c:616-629 | with differing path parameters two files require each other |
| CatalogExtract.AutoRequiresCycleExactly | agent/puppet_provider.c:610-634 | parents alone make a cycle exactly when from some file there are as many parents in a row as resources |
| CatalogExtract.ExtractLinks | agent/puppet_provider.c:1073-1082 | the three phases together record exactly the requested links, in order |
| CatalogRequests.RequestsExactly | agent/puppet_provider.c:639-824 | which way each request points: a resource depends on another exactly when it requires or subscribes to it, the other names it in before or notify, an edge leads from the other to it, or it is the parent file; it is refreshed by another exactly for notify, subscribe and notifying edges |
| CatalogLinks.RecordAllRecords | agent/puppet_provider.c:525-552 | everything recorded was asked for, without self-loops or repeats, and nothing is missing from a list that is not full |
| CatalogLinks.HoldsExactly | agent/puppet_provider.c:533-535 | a list drops nothing exactly when what was asked for fits in it |
| CatalogLinks.SixtyFourAreKept | agent/puppet_provider.c:525-552 | a list is as long as the set asked for, up to 64 |
| CatalogOverflow.EarlierDependenciesAreKept | agent/puppet_provider.c:525-536 | what a full dependency list drops are the later requests: whatever is kept, everything the resource was asked for earlier is kept too |
| CatalogOverflow.EarlierNotificationsAreKept | agent/puppet_provider.c:541-552 | the same for notifications |
| CatalogOverflow.ReferencesInOrder | agent/puppet_provider.c:648-698 | requests are made in the order of the references |
| CatalogOverflow.MetaparametersInOrder | agent/puppet_provider.c:647-760 | of one resource in the order require, before, notify, subscribe |
| CatalogOverflow.ResourcesInOrder | agent/puppet_provider.c:1073-1076 | resource by resource |
| CatalogOverflow.PhasesInOrder | agent/puppet_provider.c:1073-1082 | and first what resources ask for, then the edges, then the parents |
| CatalogLinks.RecordedWellFormed | agent/puppet_provider.c:525-552 | recorded lists are in range, free of repeats and of self-loops, as the sort needs |
| CatalogLinks.NotifyHasDependency | agent/puppet_provider.c:702-760 | every recorded notification comes with its ordering dependency, unless that list is full |
| CatalogLinks.CyclesAreRequested | agent/puppet_provider.c:525-552 | without overflow the sorted graph has a cycle exactly when the requested links do |
| CatalogSort.Release | agent/puppet_provider.c:867-878 | one dequeued resource is counted off in every list that names it, the early stop included, and what becomes free is queued once |
| CatalogSort.TopologicalSort | agent/puppet_provider.c:830-890 | null exactly when the dependencies have a cycle, otherwise a permutation of all resources with every dependency first; nothing but the counters changes |
| CatalogGraph.OrderExcludesCycles | agent/puppet_provider.c:826-829 | a graph with a topological order has no cycle |
| CatalogGraph.StuckMeansCycle | agent/puppet_provider.c:883-888 | when every remaining resource still waits for another, there is a cycle |
| CatalogApply.ApplyOne | agent/puppet_provider.c:1120-1165 | one turn of the loop: which calls it makes and which changed, applied and refresh flags it leaves, for any outcomes |
| CatalogApply.ApplyInOrder | agent/puppet_provider.c:1117-1189 | the whole loop, for any order: final changed and applied flags, calls in order, and both counters |
| CatalogRefresh.ChangedIffPath | agent/puppet_provider.c:1124-1165 | a resource ends up changed exactly when its own apply changes it or a path of successful refreshes leads to it |
| CatalogRefresh.RefreshedIffNotified | agent/puppet_provider.c:1144-1146 | no refresh is lost or spurious: a resource is refreshed exactly when its apply did not fail and it or a notifier calls for it |
| CatalogRefresh.RefreshIsConfluent | agent/puppet_provider.c:1124-1165 | two orders that put notifiers first end with the same changed flags and the same refreshes |
| CatalogRefresh.CallsMade | agent/puppet_provider.c:1120-1165 | the calls made after k turns, resource by resource |
| CatalogRefresh.CallsOnce | agent/puppet_provider.c:1120-1165 | no provider call is made twice |
| CatalogRefresh.LateNotifierLoses | agent/puppet_provider.c:1127-1146 | a parsed notifier that stands after a parsed resource it notifies loses that refresh when it alone changes |
| CatalogRefresh.RefreshesKeptExactly | agent/puppet_provider.c:1117-1165 | an order keeps every refresh, whatever the providers answer, exactly when parsed notifiers stand before the parsed resources they notify |
| CatalogRefresh.FallbackLosesRefresh | agent/puppet_provider.c:1086-1093 | two resources that require and notify each other: the written order of a cyclic catalog loses a refresh |
| CatalogAgent.ChooseOrder | agent/puppet_provider.c:1084-1093 | the order the resources run in: sorted so that all requested links are kept, or as written when they are cyclic |
| CatalogAgent.SortedRespects | agent/puppet_provider.c:1084-1093 | without overflow a sorted order keeps every requested link |
| CatalogAgent.RequestsKeptExactly | agent/puppet_provider.c:1084-1093 | an order keeps the requested links exactly when whatever a resource is asked to come after stands before it, the asking read off its metaparameters, the edges and the paths |
| CatalogAgent.PlanIsRequested | agent/puppet_provider.c:702-760 | without overflow refreshes travel exactly along the requested notifications |
| CatalogAgent.PlanFollowsRequests | agent/puppet_provider.c:702-760 | refreshes are planned exactly from a resource to those that its notify, their subscribe or a notifying edge names |
| CatalogAgent.RefreshesReportedExactly | agent/puppet_provider.c:1084-1189 | for whole catalogs whose notifications fit, and any order, the written one of a cyclic catalog included: exactly the requested refreshes are made, whatever the providers answer, if and only if parsed notifiers come first in it |
| CatalogAgent.CallsAreRight | agent/puppet_provider.c:1117-1189 | in a run that keeps the requested links, exactly the parsed resources are applied and exactly those a refresh path reaches are refreshed |
| CatalogAgent.ApplyCatalog | agent/puppet_provider.c:1052-1189 | end to end: over 1024 resources are refused; otherwise each parsed resource is applied once and, without overflow or cycle, every resource stands after all it is asked to come after, and refreshes are exact |
| JsonSyntax.UnicodeEscapeIsNul | common/puppet_json.c:284-292 | a unicode escape, read from the `u`, always yields NUL |
| JsonUtf8.HexDigitExactly | common/puppet_json.c:290-290 | the hexadecimal digits, in both cases, and their values |
| JsonUtf8.FourDigitsDecode | common/puppet_json.c:288-304 | cut from behind the `u`, the four digits would be decoded rightly: as the UTF-8 bytes of the number they spell |
| JsonUtf8.DigitsEndReading | common/puppet_json.c:290-290 | a number ends before the first character that is no digit |
| JsonUtf8.Utf8Decodes | common/puppet_json.c:295-304 | the bytes written for a code point stand for it by RFC 3629 section 3, and are as few as possible |
| JsonSyntax.ReadWhole | common/puppet_json.c:236-323 | a string is read whole exactly when it has no unicode escape |
| JsonSyntax.StringTokenReads | common/puppet_json.c:236-323 | every string of RFC 8259 section 7 is one token, holding its characters up to the first unicode escape, the eight short escapes standing for the characters that section lists |
| JsonSyntax.NumberTokenReads | common/puppet_json.c:325-369 | every number of RFC 8259 section 6 is one token, an integer when it has no fraction and no exponent |
| JsonSyntax.TextIsRead | common/puppet_json.c:739-931 | every value of RFC 8259, blanks anywhere between tokens, is read with its meaning, leaving what follows it, exactly when its levels fit the depth left |
| JsonSyntax.ParseReads | common/puppet_json.c:933-948 | so every text of RFC 8259 parses to its meaning exactly up to 200 levels, and fails when deeper |
| JsonRoundTrip.SyntaxSpells | common/puppet_json.c:987-1041 | what the serializer writes is the text of a syntax tree |
| JsonRoundTrip.SyntaxMeans | common/puppet_json.c:103-140 | that tree nests as the value does and means its normal form |
| JsonRoundTrip.EscapeHex | common/puppet_json.c:131-133 | a control character without a short escape is written as four hexadecimal digits, whose value is its code |
| JsonRoundTrip.NumeralOfInt | common/puppet_json.c:152-158 | a whole number is written as a number of RFC 8259 section 6 that means it, with no leading zero |
| JsonRoundTrip.ValueRoundTrip | common/puppet_json.c:987-1041 | written at any indentation and followed by anything that ends a number, a value reads back as its normal form when its nesting fits the depth left, and fails otherwise |
| JsonRoundTrip.ParseOfText | common/puppet_json.c:933-948 | parsing a written value gives its normal form, or fails, exactly by nesting depth |
| JsonLaws.NormIsIdentityOnClean | common/puppet_json.c:103-140 | clean values are their own normal form |
| JsonLaws.NormFixesOnlyClean | common/puppet_json.c:276-323 | no other values are |
| JsonLaws.RoundTrip | common/puppet_json.c:987-1041 | reading back what was written gives the value itself exactly when it is clean and nests at most 200 deep, and fails exactly when it nests deeper |
| JsonLaws.ParseIsSound | common/puppet_json.c:739-931 | whatever the text, a parsed value has distinct keys in every object, no NUL in any string and at most 200 levels |
| JsonValue.SetMemberAt | common/puppet_json.c:599-627 | setting a key replaces its value in place or appends it, and keeps keys distinct |
| JsonBuffer.Buffer.EnsureCapacity | common/puppet_json.c:54-62 | doubling makes room and keeps the contents |
| JsonBuffer.Buffer.Append | common/puppet_json.c:64-70 | the text is appended |
| JsonBuffer.Buffer.AppendEscaped | common/puppet_json.c:103-140 | the text is appended with its escapes |
| JsonBuffer.Buffer.AppendValue | common/puppet_json.c:987-1041 | exactly the indented text of the value is appended |
| JsonBuffer.ValueToString | common/puppet_json.c:1043-1055 | the text of the value |
| JsonParser.Parser.SkipWhitespace | common/puppet_json.c:220-234 | the cursor moves past blanks and nothing else |
| JsonParser.Parser.ReadString | common/puppet_json.c:236-323 | succeeds exactly on a string body, with its decoded C string as token and the cursor after it |
| JsonParser.Parser.ReadNumber | common/puppet_json.c:325-369 | reads the longest number the scanner accepts |
| JsonParser.Parser.ReadToken | common/puppet_json.c:382-471 | the next token of the unread text, or failure; the cursor stays in range |
| JsonParser.Parser.ParseValue | common/puppet_json.c:761-789 | agrees with the grammar on every text, and restores the depth on success and on failure |
| JsonParser.Parser.ParseObject | common/puppet_json.c:739-748 | the depth limit: one level deeper or failure, and the depth restored on both |
| JsonParser.Parser.ParseArray | common/puppet_json.c:750-759 | the same for arrays |
| JsonParser.Parser.ParseArrayBody | common/puppet_json.c:859-931 | the elements of the grammar, in order, or failure |
| JsonParser.Parser.ParseObjectBody | common/puppet_json.c:791-857 | the members of the grammar, later values replacing earlier ones, or failure |
| JsonParser.ParseText | common/puppet_json.c:933-948 | total on every text: the grammar's first value, whatever follows it, or an error exactly when there is none |
| RenderQueue.StepKeepsInv | compiler/puppet_erb.c:675-761 | every step of a worker or of the daemon keeps the protocol invariant |
| RenderQueueLaws.RunKeepsInv | compiler/puppet_erb.c:675-761 | so it holds in every reachable state of any number of workers |
| RenderQueueLaws.QueueWellFormed | compiler/puppet_erb.c:568-587 | the linked queue: head null exactly when tail is, exactly when every pushed request was taken; tail is the last node; no request is in it twice |
| RenderQueueLaws.OthersUntouched | compiler/puppet_erb.c:675-761 | a step neither reads nor writes any request but the acting worker's own and those named as touched: whatever stands there, it does the same |
| RenderQueueLaws.OnlyLiveRequestsTouched | compiler/puppet_erb.c:695-704 | in every run the requests named as touched belong to workers that have made them and not returned |
| RenderQueueLaws.AnswersAreOwnRenderings | compiler/puppet_erb.c:695-702 | in every run every returned text is the rendering of the worker's own request, and each is returned once |
| RenderQueueLaws.RendersInPushOrder | compiler/puppet_erb.c:687-698 | in every run the k-th rendering is of the k-th push, with the content its worker pushed |
| RenderQueueLaws.HistoryGrows | compiler/puppet_erb.c:675-761 | nothing pushed, rendered or answered is ever revised |
| RenderQueueLaws.ReturnsOwnResult | compiler/puppet_erb.c:754-760 | in every run a worker that returns hands back the rendering of what it pushed |
| RenderQueueLaws.CallIsAnswered | compiler/puppet_erb.c:728-761 | in every run a finished call appended exactly one answer: what the daemon rendered for the one push this call made, of the text it was called with |
| RenderQueueLaws.NoLostWakeup | compiler/puppet_erb.c:687-693 | in every run no un-signalled sleeper is left behind: not the daemon with a non-empty queue, not a worker whose request is done |
| RenderQueueLaws.SpuriousWorkerSleepsOn | compiler/puppet_erb.c:754-755 | a worker that wakes up for no reason tests its request again and sleeps on, the state being what it was |
| RenderQueueLaws.SpuriousDaemonSleepsOn | compiler/puppet_erb.c:687-688 | and so does the daemon on an empty queue |
| RenderQueueLaws.NoDeadlock | compiler/puppet_erb.c:675-761 | in every reachable state with a worker not back, some step that makes progress is possible |
| RenderQueueLaws.RealStepDecreases | compiler/puppet_erb.c:675-761 | every such step uses up a finite amount of work |
| RenderQueueLaws.RealRunsAreBounded | compiler/puppet_erb.c:675-761 | so no run of such steps is longer than the work there was |
| RenderQueueLaws.RealTailsAreBounded | compiler/puppet_erb.c:675-761 | and from any point of any run on, such steps come to an end |
| RenderQueueLaws.QuietMeansAllAnswered | compiler/puppet_erb.c:728-761 | in every run, once nothing can make progress, every request has been rendered and answered |
| ManifestCache.StepKeepsInv | compiler/puppet_loader.c:410-498 | every step of a loading thread keeps the cache invariant: one entry per path, no cached program destroyed |
| ManifestCache.RunKeepsInv | compiler/puppet_loader.c:410-498 | so it holds in every reachable state |
| ManifestCache.SameProgramForSamePath | compiler/puppet_loader.c:443-452 | in every run all successful callers for a path get the same program |
| ManifestCache.CallAnswers | compiler/puppet_loader.c:410-498 | in every run a call answers nothing exactly when its own parse failed; it answers the cached program when it finds one at its lookup, and otherwise, its parse having succeeded, the one cached program of its path |
| ManifestCache.CachedIsAnswered | compiler/puppet_loader.c:414-424 | in every run a path that is cached when a call starts is answered with that program |
| ManifestCache.AnswersGrow | compiler/puppet_loader.c:443-498 | no answer is ever revised |
| ManifestCache.ReturnedProgramStays | compiler/puppet_loader.c:446-450 | from its return on a program is the only cached one of its path and is never destroyed |
| ManifestCache.QuietState | compiler/puppet_loader.c:469-495 | in every run, with all threads done, each cached path but the site's was linted exactly once, and exactly the programs not cached were destroyed |
| ErbCache.StepKeepsInv | compiler/puppet_erb_native.c:652-771 | every step of a rendering thread keeps one entry per name and one owner per tree |
| ErbCache.RunKeepsInv | compiler/puppet_erb_native.c:652-771 | so they hold in every reachable state |
| ErbCache.OneEntryPerName | compiler/puppet_erb_native.c:709-717 | in every run no name is cached twice |
| ErbCache.AnswersAsParsedAfresh | compiler/puppet_erb_native.c:693-719 | in every run every render uses what parsing afresh would give, the remembered "unsupported" included |
| ErbCache.CallAnswers | compiler/puppet_erb_native.c:684-771 | in every run a call appends exactly one answer, of its own text; it parses exactly when its name was not cached at its lookup, and a named template is cached when it returns |
| ErbCache.TreesUsedWhileOwned | compiler/puppet_erb_native.c:761-770 | in every run no freed tree is rendered, and a tree is freed only by the one thread that owns it |
| ErbCache.QuietState | compiler/puppet_erb_native.c:709-717 | in every run, with all threads done, exactly the trees not in the cache have been freed |
| PuppetValue.BucketIsSum | compiler/puppet_ast.c:114-124 | in a table of 16 buckets the place of a key depends on the sum of its bytes alone |
| PuppetValue.SameLettersCollide | compiler/puppet_ast.c:114-124 | so keys of the same letters always share a bucket |
| PuppetValue.SetUpdatesContent | compiler/puppet_ast.c:122-145 | a set is a map update; entries stay in their buckets, keys distinct, and the counter is the size of the map |
| PuppetValue.GetReadsContent | compiler/puppet_ast.c:147-160 | a get is a map lookup |
| PuppetValue.SetAllRefines | compiler/puppet_ast.c:122-145 | after any sequence of sets the table is the map of those updates and counts its keys |
| PuppetHash.HashTable.Get | compiler/puppet_ast.c:147-160 | the linked table gives the map's value, or nothing |
| PuppetHash.HashTable.Set | compiler/puppet_ast.c:122-145 | the linked table is updated in place: one entry overwritten or one linked in front, the map updated, the counter its size |
| PuppetHash.OverwrittenTable | compiler/puppet_ast.c:127-134 | changing one entry's value changes its key in the table and no other chain |
| PuppetHash.PrependedTable | compiler/puppet_ast.c:136-143 | a new entry in front of its bucket adds its key and changes no other chain |
| PuppetCopy.CopyValue | compiler/puppet_ast.c:224-307 | the loops build exactly the recursive copy |
| PuppetCopy.CopyReversesChains | compiler/puppet_ast.c:248-262 | in the copy of a table every chain is copied and reversed |
| PuppetCopy.CopyGets | compiler/puppet_ast.c:248-262 | reading a copied table gives the copy of what the table gives |
| PuppetCopy.CopyKeepsContent | compiler/puppet_ast.c:248-262 | a copied table is well formed, counts the same, and is the map of the copied values |
| PuppetCopy.CopyTwice | compiler/puppet_ast.c:224-307 | copying a value twice gives back exactly its structure, chain order included, at every depth |
| PuppetMerge.DeepMergeHashes | compiler/puppet_hiera.c:648-680 | the loops build exactly the recursive merge |
| PuppetMerge.CopyMeansSame | compiler/puppet_ast.c:224-307 | a copy holds the same nested maps |
| PuppetMerge.DeepCopy | compiler/puppet_ast.c:224-307 | a copy is well formed at every depth |
| PuppetMerge.DeepMergeMeans | compiler/puppet_hiera.c:648-680 | the bucket-by-bucket merge is the merge of nested maps: overlay wins except that two maps merge; the result is well formed at every depth |
| PuppetMergeLaws.MergeAtPath | compiler/puppet_hiera.c:648-680 | the merge at every path: the overlay where it decides, the merge where both have maps all the way, the base elsewhere |
| PuppetMergeLaws.MergeIdentity | compiler/puppet_hiera.c:648-680 | the empty hash is a two-sided identity |
| PuppetMergeLaws.MergeIdempotent | compiler/puppet_hiera.c:648-680 | merging a hash with itself changes nothing |
| PuppetMergeLaws.AbsorbedIsHidden | compiler/puppet_hiera.c:648-680 | an overlay hides its base completely exactly when every path of the base is absorbed |
| PuppetMergeLaws.MergeAssociates | compiler/puppet_hiera.c:648-680 | the two groupings of three hashes agree exactly when nothing but a map stands between maps that differ |
| PuppetMergeLaws.NotAlwaysAssociative | compiler/puppet_hiera.c:666-675 | a non-map in the middle makes the groupings differ |
| PuppetMergeLaws.MergeCommutes | compiler/puppet_hiera.c:648-680 | two hashes merge alike in both orders exactly when at every shared key they are equal or hashes that agree |
| PuppetMergeLaws.OverlaysSwapExactly | compiler/puppet_hiera.c:648-680 | over any base, two overlays can trade places exactly when they agree |
| PuppetMergeLaws.OrderIrrelevantExactly | compiler/puppet_hiera.c:648-680 | all orders of a list of hashes merge alike exactly when any two of them agree |
| PuppetMergeLaws.MergeListAtPath | compiler/puppet_hiera.c:648-680 | a merged list at every path: the last holder decides, and hashes since the last other value are merged |
| PuppetMergeLaws.DeepMergeLaws | compiler/puppet_hiera.c:648-680 | identity and idempotence for the program's own values |
| PuppetMergeLaws.DeepMergeAssociates | compiler/puppet_hiera.c:648-680 | the exact associativity condition for the program's own values |
| HieraMerge.ArrayContainsValue | compiler/puppet_hiera.c:615-643 | true exactly for a string, number or boolean that is in the array |
| HieraMerge.MergeValues | compiler/puppet_hiera.c:685-738 | one merge step for each strategy, with either value possibly missing |
| HieraMerge.FirstIsHighest | compiler/puppet_hiera.c:814-818 | FIRST is the highest-priority value |
| HieraMerge.OtherFirstValueStays | compiler/puppet_hiera.c:693-735 | UNIQUE is FIRST unless the first value is an array, HASH and DEEP unless it is a hash |
| HieraMerge.UniqueDropsRepeats | compiler/puppet_hiera.c:698-708 | UNIQUE is the first array followed by each later array's items that are no scalar or have no equal earlier item, in order |
| HieraMerge.NoScalarTwice | compiler/puppet_hiera.c:615-643 | after the first array, no string, number or boolean in UNIQUE's answer is equal to an earlier item |
| HieraMerge.TopLevelIsUnion | compiler/puppet_hiera.c:710-725 | HASH is the union of the hashes found, the earlier winning |
| HieraMerge.EarliestWinsAt | compiler/puppet_hiera.c:710-725 | a key of that union has the value of the first hash that holds it |
| HieraMerge.DeepMergesAll | compiler/puppet_hiera.c:727-734 | DEEP merges each later hash over the result so far |
| HieraMerge.DeepAtPath | compiler/puppet_hiera.c:727-734 | the value of DEEP at every path: the lowest-priority level that holds something there decides |
| HieraMerge.DeepLastWins | compiler/puppet_hiera.c:727-734 | so at a key whose last holder has no hash there, DEEP gives that last value |
| HieraMerge.DeepIgnoresOrderExactly | compiler/puppet_hiera.c:727-734 | the order of the levels makes no difference to DEEP exactly when any two of them agree |
| HieraLookup.Search | compiler/puppet_hiera.c:794-827 | the walk down the hierarchy, stopping early for FIRST, is the fold over what the levels hold for the key |
| HieraLookup.Context.Lookup | compiler/puppet_hiera.c:743-840 | the cached answer if there is one, else the fold, else the default, remembered; a shared cache is neither read nor written |
| HieraLookup.CacheIsInvisible | compiler/puppet_hiera.c:754-759 | with files, default and strategy fixed, any sequence of lookups means what uncached lookups mean |
| HieraLookup.CacheKnowsOnlyKeys | compiler/puppet_hiera.c:834-837 | a later lookup of a key repeats the first answer whatever default and strategy it names |
| HieraCache.OtherStrategyIsWrong | compiler/puppet_hiera.c:754-759 | for any two strategies there are levels on which the remembered answer is wrong |
| HieraCache.OtherDefaultIsWrong | compiler/puppet_hiera.c:754-759 | and for any two defaults of different meaning |
| HieraCache.SecondIsRightExactly | compiler/puppet_hiera.c:754-759 | over all files, keys and caches, the second of two lookups means what an uncached one would exactly when the strategies are the same and the first default is missing or means the same as the second |
| DeadCodeNames.StrcmpIsOrder | compiler/puppet_deadcode.c:21-23 | the name comparison is a strict total order |
| DeadCodeNames.IncreasingIsUnique | compiler/puppet_deadcode.c:60-73 | a strictly sorted array is determined by the names in it |
| DeadCodeNames.NameSet.Search | compiler/puppet_deadcode.c:62-69 | the binary search finds the name, or the one place where it belongs |
| DeadCodeNames.NameSet.Contains | compiler/puppet_deadcode.c:47-58 | true exactly for members |
| DeadCodeNames.NameSet.AddUsed | compiler/puppet_deadcode.c:61-73 | stays strictly sorted and gains exactly this name |
| DeadCode.SortPositions | compiler/puppet_deadcode.c:293-302 | the insertion sort gives a permutation in order by name and, among equal names, by position |
| DeadCode.SortDeclared | compiler/puppet_deadcode.c:293-313 | names and files are rearranged together by that permutation |
| DeadCode.StableOrderIsUnique | compiler/puppet_deadcode.c:293-313 | the stable order leaves no choice |
| DeadCode.Tracker.MarkUsed | compiler/puppet_deadcode.c:369-404 | each used set holds exactly the names marked for it, a leading `::` dropped except for templates, types among the defines |
| DeadCode.OrderOfMarksIsIrrelevant | compiler/puppet_deadcode.c:369-404 | however threads' marks interleave, all four arrays come out identical |
| DeadCode.SameMarksSameUsed | compiler/puppet_deadcode.c:369-433 | and so does the report |
| DeadCode.ReportSection | compiler/puppet_deadcode.c:408-422 | counts and lists the declared items that are not used, in order |
| DeadCode.Tracker.Report | compiler/puppet_deadcode.c:424-433 | the six sections, each against its used set |
| DeadCode.ReportedExactly | compiler/puppet_deadcode.c:408-422 | an item is listed exactly when it is declared and no mark of a matching kind names it |
| DeadCode.DeadExactly | compiler/puppet_deadcode.c:365-433 | section by section: an item is listed exactly when it is declared there and no mark of that section's kinds is its name or its name behind `::`, for templates its name alone |
| DeadCode.DeadInOrder | compiler/puppet_deadcode.c:408-422 | each declared item adds one to the declared count and, unused, one line in its place |
| MemoryStats.WordsTakeTurns | common/puppet_memory.c:67-70 | the eight addresses of a word share a bucket, and words take the 1024 buckets in turn |
| MemoryStats.AddDescribes | common/puppet_memory.c:95-106 | the counters keep describing the log of events when an entry comes: totals, current values and exact historical peaks |
| MemoryStats.RemoveDescribes | common/puppet_memory.c:123-129 | and when one goes |
| MemoryStats.TotalsBalance | common/puppet_memory.c:95-129 | total allocations less total frees is the current number, and no current value exceeds its peak |
| MemoryStats.CountIsLive | common/puppet_memory.c:200-226 | an exact table has as many entries as there are live blocks |
| MemoryTracker.Tracker.AddAllocation | common/puppet_memory.c:75-109 | one entry in front of its bucket and the counters advanced, or nothing when tracking is off, the pointer null or memory short |
| MemoryTracker.Tracker.RemoveAllocation | common/puppet_memory.c:114-140 | the first entry of the address is unchained and handed back, and the counters adjusted; nothing otherwise |
| MemoryTracker.Tracker.IsTracked | common/puppet_memory.c:145-163 | on an exact table, true exactly for live blocks |
| MemoryTracker.Tracker.Init | common/puppet_memory.c:171-192 | starts from an empty table once, exact if and only if no block is out at that point; a second call changes nothing |
| MemoryTracker.Tracker.Shutdown | common/puppet_memory.c:194-246 | returns the current allocation count, which on an exact table is the number of live blocks; the counters stay |
| MemoryTracker.Tracker.Malloc | common/puppet_memory.c:324-334 | an exact table stays exact |
| MemoryTracker.Tracker.Calloc | common/puppet_memory.c:336-346 | the same, the product of the sizes never wrapping for a block that exists |
| MemoryTracker.Tracker.Realloc | common/puppet_memory.c:348-382 | an exact table stays exact, on null, size zero, success and failure; a failure counts one free and one allocation of the old size |
| MemoryTracker.Tracker.Strdup | common/puppet_memory.c:384-399 | the same, for the string and its terminator |
| MemoryTracker.Tracker.Free | common/puppet_memory.c:401-414 | warns exactly for a non-null address with no entry, or with tracking off; an exact table stays exact, so that there the warning appears exactly for addresses that are not live |
| LintLaws.StmtsExtend | compiler/puppet_lint.c:702-715 | a list of statements adds exactly the names it assigns outside of definitions, only adds findings, and reports no fact shadowed before |
| LintLaws.ScopeExtends | compiler/puppet_lint.c:545-615 | a node, class, define or function leaves the shadowed names as they were |
| LintLaws.ExprExtends | compiler/puppet_lint.c:390-523 | the same for expressions, lambda bodies and blocks included |
| LintLaws.StmtsProject | compiler/puppet_lint.c:268-274 | the two switches change no name, drop findings by rule and set the severity of facts, and nothing else |
| LintScan.LintIsScan | compiler/puppet_lint.c:390-715 | the findings of a program are those of one scan over what it does in order: bind a name, read a variable, call a function, open and close a scope, and so on |
| LintScan.OpenSetsAre | compiler/puppet_lint.c:281-298 | at any point of that scan, the names shadowed in each open scope are those bound so far in it and the scopes around it |
| LintScan.EveryEventIsReported | compiler/puppet_lint.c:308-508 | each event of a program adds exactly its own finding or none: a table of what is said about reads, indexed facts, calls, imports, inherits and repeated keys, with the names shadowed there |
| LintShadow.Linter.ShadowAdd | compiler/puppet_lint.c:281-288 | the name joins the set; nothing is on the stack twice and what was there stays below |
| LintShadow.Linter.ShadowTruncate | compiler/puppet_lint.c:290-292 | the stack is cut back to the mark |
| LintShadow.Linter.LintVariable | compiler/puppet_lint.c:325-388 | a read is reported exactly as the table, the prefixes and the shadowed names say |
| LintShadow.Linter.LintKey | compiler/puppet_lint.c:488-507 | a literal key that an earlier entry has is reported once |
| LintShadow.Linter.WalkExpr | compiler/puppet_lint.c:390-523 | the stack walk of an expression is the pure walk |
| LintShadow.Linter.WalkScope | compiler/puppet_lint.c:545-615 | a definition restores the stack exactly, although pushes skip names already there |
| LintShadow.Linter.WalkStmt | compiler/puppet_lint.c:534-700 | the stack walk of a statement is the pure walk and leaves the stack below its entry mark intact |
| LintShadow.Linter.WalkStmts | compiler/puppet_lint.c:702-715 | the same for a list, each assignment shadowing from the next statement on |
| LintShadow.Linter.LintProgram | compiler/puppet_lint.c:939-955 | a program is linted from an empty stack; the findings are those of the scan of its events, and the counters are the numbers of errors and of warnings among them |
| LintShadow.FactsOnlyIsPlainFiltered | compiler/puppet_lint.c:930-945 | the lint of module files finds what the plain lint finds, less the rules switched off |
| LintShadow.AssignmentShadowsTheRest | compiler/puppet_lint.c:706-713 | after statements that assign a name outside of definitions no fact of that name is reported |
| LintShadow.ReadIsReportedExactly | compiler/puppet_lint.c:325-366 | a read of a legacy fact, bare or with a leading `::`, at any depth of definitions, is reported exactly when no statement or parameter before it, in its own scope or one around it, shadows its name |
| LintShadow.CallIsReportedExactly | compiler/puppet_lint.c:308-323 | anywhere in a program, a call of a removed function adds exactly one error, of one only deprecated exactly one warning, of any other nothing; the two counters agree |
| TextLines.StrStr | agent/provider_cron.c:130-130 | the first occurrence at or after a position |
| CronEdit.FindCronEntry | agent/provider_cron.c:122-164 | finds the first marker that fills a line, and the end of the line after it |
| CronEdit.MarkerExactly | agent/provider_cron.c:130-146 | a marker counts exactly when `# Puppet Name: ` and the name make up a whole line |
| CronEdit.LineReadsBack | agent/provider_cron.c:177-195 | cut at single blanks, a written line gives minute, hour, monthday, month and weekday, or the special schedule with its `@`, and then the command |
| CronEdit.CronApply | agent/provider_cron.c:280-481 | outcome and new crontab in every branch, dry runs included |
| CronEdit.WhatIsLeft | agent/provider_cron.c:202-235 | after "present" the first marker of the name is followed by the environment, if any, and a line that reads back as the fields of the job |
| CronEdit.PresentIsSuccessExactly | agent/provider_cron.c:362-392 | "present" has nothing to do exactly when the job has no environment and its own line stands under its marker |
| CronEdit.DryRun | agent/provider_cron.c:296-464 | a dry run reports what a real one would change and changes nothing; only a missing command fails |
| CronEdit.PresentTwice | agent/provider_cron.c:362-464 | for newline-free fields, a second "present" changes nothing exactly when there is no environment or the first had nothing to do |
| CronEdit.PresentThenAbsent | agent/provider_cron.c:314-479 | on a text without the entry, "present" then "absent" restores it up to a final newline, except for the line left behind by an environment |
| CronEdit.RestIsKept | agent/provider_cron.c:332-464 | only one piece that the finder takes for an entry goes or comes; every byte around it stays |
| HostEdit.FindHostEntry | agent/provider_host.c:78-123 | finds the first line, no comment, with the name among the words after its address |
| HostEdit.NamesHostExactly | agent/provider_host.c:82-117 | a line names a host exactly when its first word does not start with `#` and the name is among the words after it |
| HostEdit.WordsAre | agent/provider_host.c:99-117 | the words of a line are the pieces between its blanks and tabs |
| HostEdit.StripBracketsExactly | agent/provider_host.c:173-184 | aliases lose one pair of enclosing brackets, or stay as they are |
| HostEdit.LineReads | agent/provider_host.c:130-150 | the words of a written line are the address, the name and the aliases |
| HostEdit.HostApply | agent/provider_host.c:167-381 | outcome and new hosts text in every branch, dry runs and bracketed aliases included |
| HostEdit.WhatIsLeft | agent/provider_host.c:255-361 | after "present" the written line stands in the text, at the start of a line but for blanks, and no line before it names the host |
| HostEdit.DryRun | agent/provider_host.c:190-381 | a dry run reports what a real one would change and changes nothing; only a missing address fails |
| HostEdit.PlainHostIsFindable | agent/provider_host.c:99-117 | the finder recognises the written line of any host whose address and name are plain words |
| HostEdit.PresentTwice | agent/provider_host.c:264-361 | for newline-free fields and a non-empty address, a second "present" changes nothing exactly when the finder recognises the written line from its first character on or the first had nothing to do |
| HostEdit.PresentThenAbsent | agent/provider_host.c:207-379 | for the same hosts, on a text that does not name the host, "present" then "absent" restores it up to a final newline exactly when the finder recognises the written line from its first character on |
| HostEdit.RestIsKept | agent/provider_host.c:230-361 | only one line that names the host goes, or one comes; every byte around it stays |
| ShellEscape.Escape | common/exec_utils.c:13-42 | the first pass computes exactly the size the second one fills, and the buffer is the quoted text and its NUL |
| ShellEscape.SplitsBack | common/exec_utils.c:13-42 | the shell's quoting rules read back from the quoted, space-joined arguments exactly these arguments, whatever characters they hold |
| ShellEscape.QuotingIsInjective | common/exec_utils.c:13-42 | so different argument lists are never confused |

## Left out

- Parsing of manifests, evaluation, the standard library, facts, the Ruby virtual machine and EPP: parsing and rendering
  are arbitrary functions here.
- Reading and writing files, running `crontab`, the network, clocks and terminal output: texts are inputs and results, and
  a failure to write is not modelled.
- Failed allocations, except where the allocation tracker handles them itself.
- JsonBuffer.Buffer.AppendValue: numbers that are not whole are left out, because their text depends on the C library; a
  number that is not whole is read as the characters of its token. Whole numbers are unbounded where C loses precision.
- JsonParser.ParseText: line and column counters and the wording of errors are not modelled.
- Scratch buffers that cut long texts (4096-byte lines, 64 KB files, 256-byte time specifications): texts are assumed to
  fit. The buffers of resource references and the 64-slot lists are part of the model.
- The start of the render daemon failing after a request was queued: the daemon is assumed to be running.
- ErbCache.AnswersAsParsedAfresh: clearing the cache is not a step, and the text of a template is fixed per name.
- The class, define and custom-function caches of the loader, and its version comparison: easier relatives of the manifest
  cache.
- The native template engine's tokenizer, trimming and expression evaluation.
- Values nested in a table are values here, so that two tables never share one; freeing them is not modelled. The entries
  of the table itself are linked objects.
- PuppetCopy.CopyValue: the copied tables are built as values, by the set function that the linked table refines.
- HieraLookup.Context.Lookup: interpolation of paths and loading of files are replaced by what each level's file holds.
- DeadCode.Tracker.MarkUsed: the lock is modelled by taking marks one at a time; discovering the declared items in the
  files is left out.
- MemoryTracker.Tracker.RemoveAllocation: a bucket is a sequence, not linked entries; file and line of an allocation and
  the width of the counters are left out.
- LintWalk.LintExpr: operands and attributes are given in the order in which the lint visits them; the wording of findings
  and the scans of templates, Ruby files and metadata are left out.
- The package, service, user, group, mount, sysctl, key and file providers.
