# kube-crisp, modelled and proved in Dafny

kube-crisp serves rows of a SQL database as Kubernetes resources. A projection says which statements to run, how a
row becomes an object and how an object becomes the parameters of a write. This project models the parts of the
server in which a mistake is hard to see, and proves what they promise.

| part | files | main results |
|---|---|---|
| reads through a cache and shared queries | `Epochs`, `ReadCache`, `Flights`, `Coherence`, `Versions`, `Staleness`, `VersionsApart`, `FlightKeys`, `FlightCollisions`, `StatementKeys`, `QueryKeys`, `ProjectionReads` | read-after-write in every interleaving, what of it holds across versions, and for how long it may not; the compressed invalidation record is exact; when keys separate queries |
| SQL scanning, rewriting and binding | `SqlLexer`, `SqlGrammar`, `SqlEveryText`, `SqlRewrite`, `SqlBind`, `SqlReturning`, `SqlWords`, `SqlDollars` | every text is read as each driver's lexical rules, written down as a grammar, say; literals and comments untouched, each placeholder gets its own value, rewriting twice is rewriting once, two scanners agree |
| the controller's sync | `Surface`, `Claims`, `Precedence`, `ClaimOutcomes`, `Lifecycle`, `Pools`, `SyncRound`, `Sync` | one settlement of claims whatever the order, stable under its own statuses; storages conserved; pools in use stay open |
| rows and objects | `Text`, `ObjectNames`, `CompositeNames`, `Values`, `Nested`, `Fields`, `Readings`, `FieldConflicts`, `Pruning`, `MappedPaths` | names are reversible; when a field read is written back; mapped paths match pruning |
| writes | `MappingColumns`, `WriteParams`, `WriteColumns`, `ServerArgs`, `WriteBinds` | an accepted write always binds and never displaces a name of the server's |
| shared resources | `SessionNames`, `Sessions`, `Registrations` | no session variable outlives its request; installations do not touch each other's registrations |

Concurrent code is a state machine with one step for each region under a lock, each statement or each API call, and
the theorems are about every run. Objects that change in place are classes, and the functions their methods are
specified by are the ones the state machines step with: `Coherence` uses `Invalidated`, `Stale`, `Uncovered`,
`Detached` and `Finished`, which `ReadCache` and `FlightGroup` are proved against, and lets a full cache drop whatever
entries it likes.

`dafny verify dfyconfig.toml` checks the whole project.

## What turned out not to hold

- A statement with a `$` of the author's own, rewritten for a numbering driver, may read differently the second time:
  in `$x:a'$x$:y'` the `$x` and the placeholder open a dollar quote (`SqlDollars.DollarRewriteChanges`). A rewritten
  statement divides as the original did exactly when no such `$` opens one (`SqlRewrite.RescanTokens`), which is always
  so for `?` drivers, without dollar quotes, and without a bare `$` (`SqlRewrite.NothingOpens`).
- A numbering driver gives the author's own `$1` the value of the first parameter. What it reads is what was meant
  exactly when no `$` opens a quote and none stands before digits that number a value (`SqlBind.NumberedFaithful`).
- A bare `?` in a statement for a positional driver shifts every value after it: the number of placeholders is then
  never the number of values (`SqlBind.PositionalFaithful`, both directions).
- The rewriter and the `RETURNING` scanner skip different regions exactly when a PostgreSQL-like statement has a
  parameter named `e` or `E` directly before a literal (`SqlReturning.ReadersAgree`, both directions).
- A parameter named `returning`, in any case, is taken for the word, so a write that binds one is run as a query although
  nothing in its text returns rows (`SqlWords.ParameterTaken`). A statement is taken to return rows exactly when a word of
  its code spells it, the names of its parameters among them (`SqlWords.ReturningWritten`).
- Each served version has a read cache of its own, and a write invalidates that of the version it goes through. A read
  through another version that begins after the write is over may be answered from its cache with the rows of before
  (`VersionsApart.OtherVersionMisses`); only such a read may (`Versions.AnswersAcrossVersions`). The time to live does
  not bound for how long, as docs/reference.md:670-672 has it for caches that a write does not reach: an entry expires so
  long after it is stored, and not after its rows were asked for. A write is
  missed no longer, after it is over, than the time to live and the time that one read through the other version took
  (`Staleness.MissedNoLonger`), and for every duration of that read some run takes all of it.
- Keys of one statement do not tell all bindings apart once a string may contain NUL. A statement in which some name
  occurs once separates all bindings exactly when that is its only name (`FlightCollisions.SeparatesExactly`), a
  statement with one name always does (`FlightCollisions.OneNameSeparates`). Without NUL in one of two requests with
  equally many parameters keys always separate (`FlightKeys.KeysSeparate`), and without equally many they need not
  (`FlightCollisions.CountsMatter`); statements of one driver with the same text have equally many, unless their authors
  wrote placeholders of their own (`StatementKeys.SameTextSameCount`).
- Nothing separates the statements of a read in its key, so a page and a page with its count can share a key with no
  NUL anywhere (`QueryKeys.StatementsRunTogether`). They never do exactly when the count query names a parameter, or the
  list query none, or the last one of the list query is named in it before (`QueryKeys.PairsStayApart`): a count query
  that names a parameter is safe.
- A parameter and a session variable look alike in a key, so reads of one statement each can share one with no NUL
  anywhere (`QueryKeys.ParameterOrVariable`). With equally many parameters and equally many variables, and no NUL in one
  of the two, they do not (`QueryKeys.SingleReadsSeparate`); with equally many variables, neither do reads of the same
  statements (`QueryKeys.SameStatementsSeparate`). The reads of one projection meet both conditions, as statements of
  one text have equally many parameters (`StatementKeys.SameTextSameCount`) and a session has one variable for each
  configured setting (`ProjectionReads.Session`, pkg/registry/projection/rest.go:1526-1527), and so are kept apart
  unless an author wrote placeholders (`ProjectionReads.ProjectionReadsSeparate`).
- A composite name is not rebuilt unchanged when `nameColumns` names a column twice and the parts differ
  (`CompositeNames.RebuiltUnchanged`, both directions).
- Field paths are not checked against one another. A field that leads through an earlier one makes the row unmappable
  (`FieldConflicts.EarlierPrefixRefuses`); one that is an earlier field's path or a part of it replaces that field's
  value, and the next write binds the wrong value, or NULL, or is refused (`FieldConflicts.LaterPrefixOverwrites`). The
  round trip holds for every row exactly when no path leads to or through another (`FieldConflicts.RoundTripExactly`).
- `emptiesObjects` says no for a list, or lists of lists, whose elements the schema leaves open, although pruning empties
  the objects in it (`MappedPaths.EmptiesExactly`, which says for every schema when pruning empties all that conforms).
  Serving a schema also asks the Kubernetes library whether it is structural
  (pkg/registry/projection/rest.go:812-817), which is not part of this model; as far as that refuses a list without
  `items`, such a schema is refused there.
- Storages can be left behind for good, in no compiled projection and never destroyed: those of the versions before one
  that fails to compile (`Sync.PartWayLeaks`), and those built in a sync whose rebuild the router's installer refuses. A
  sync leaves none behind exactly when neither happens (`Sync.Controller.Sync`, `Sync.Controller.Run`).
- A registration deleted on the strength of an older listing may be another installation's by then
  (`Registrations.LateDeletionInterferes`). It is taken exactly when the name now holds one that the other owns, and
  never while the listed version is still the current one (`Registrations.DeletionTakes`).
- `mysqlVariableName` gives two session settings one name exactly when they differ only in dots against underscores
  (`SessionNames.SharedVariable`).

## Model

| member | source | states |
|---|---|---|
| `Epochs.EpochsExact` | pkg/registry/projection/cache.go:51-117 | after any sequence of invalidations, stale since an epoch exactly when the full log has a later one that covers the namespace, also after a cluster-wide one has cleared the per-namespace record |
| `Epochs.GenerationCounts` | pkg/registry/projection/cache.go:328-360 | the generation counts the invalidations and no recorded epoch exceeds it |
| `ReadCache.ReadCache.Epoch` | pkg/registry/projection/cache.go:88-97 | the epoch is the number of invalidations so far |
| `ReadCache.ReadCache.IsStale` | pkg/registry/projection/cache.go:106-117 | true exactly when an invalidation since the epoch covers the namespace |
| `ReadCache.ReadCache.Lookup` | pkg/registry/projection/cache.go:160-182 | an unexpired entry or nothing; an expired one is dropped and nothing else changes |
| `ReadCache.ReadCache.Store` | pkg/registry/projection/cache.go:220-239 | nothing is stored when an invalidation since the epoch covers the namespace; otherwise the entry is, and the cache stays within its limit |
| `ReadCache.ReadCache.Evict` | pkg/registry/projection/cache.go:265-305 | expired entries go first and then a quarter of the limit, the soonest to expire; what is kept expires no earlier than what is dropped |
| `ReadCache.ReadCache.InvalidateNamespaces` | pkg/registry/projection/cache.go:328-378 | the log grows by one invalidation and exactly the entries it covers are dropped, all of them when it is cluster-wide |
| `Flights.FlightGroup.Join` | pkg/registry/projection/flight.go:56-84 | a running query of the same key is joined, otherwise a new one is registered |
| `Flights.FlightGroup.Finish` | pkg/registry/projection/flight.go:99-108 | a finished query is unregistered, but not one that has taken its key since |
| `Flights.FlightGroup.Detach` | pkg/registry/projection/flight.go:115-128 | exactly the queries a write to the namespace touches are unregistered |
| `Flights.TouchesSharedRows` | pkg/registry/projection/flight.go:115-128 | a write touches a read exactly when there can be a row that both are about, the empty namespace being about all |
| `Coherence.NextKeeps` | pkg/registry/projection/cache.go:88-117 | every step of every reader and writer keeps the invariant that what can be read includes every write that is over |
| `Coherence.CoversTouched` | pkg/registry/projection/cache.go:328-378 | an invalidation covers exactly what one of its namespaces touches, so the cache and the flights go by one rule |
| `Coherence.StoredIsCurrent` | pkg/registry/projection/cache.go:220-239 | rows that a store accepts include every write to the namespace that is over |
| `Coherence.ReadAfterWrite` | pkg/registry/projection/cache.go:345-378 | in every run, with one cache, once a write has committed, detached and invalidated, no cache entry that covers its namespace and no query that can still be joined has rows from before it |
| `Coherence.AnswersIncludeEarlierWrites` | pkg/registry/projection/flight.go:65-128 | with one cache, the rows a reader is answered with include every write to its namespace that was over when it began |
| `Versions.ActSeen` | pkg/registry/projection/rest.go:358-361 | whatever one version does, what another sees stays as it is or takes a step of the one-cache protocol |
| `Versions.VersionReadAfterWrite` | pkg/registry/projection/rest.go:2557-2558 | with a cache for each version over shared flights, once a write is over no entry of its version's cache and no flight any reader can join has rows from before it |
| `Versions.AnswersAcrossVersions` | pkg/registry/projection/rest.go:3143-3144 | a read that begins when a write is over is answered with it, unless from its cache and the write went through another version |
| `Staleness.MissedNoLonger` | pkg/registry/projection/cache.go:160-218 | in every run with a clock, a cached answer that misses a write was stored no longer ago than the time to live, by a read of the same version and key that began before the write was over; so it comes no later after the end of the write than the time to live and the time that read took |
| `VersionsApart.OtherVersionMisses` | pkg/registry/projection/pollgroup.go:14-22 | for any two versions, any time to live and any time a read may take, a run in which a read that begins after the write is over is answered with the rows of before, exactly that much later |
| `FlightKeys.FlightKey` | pkg/registry/projection/flight.go:148-165 | the key is the statement and its rendered parameters joined by NUL |
| `FlightKeys.RenderedInjective` | pkg/registry/projection/flight.go:173-204 | the rendering of a bound value determines its type and value, integer widths apart |
| `FlightKeys.RenderedPlain` | pkg/registry/projection/flight.go:173-204 | a rendering has a NUL exactly when the value is a string or bytes with one |
| `FlightKeys.PlainKeysSeparate` | pkg/registry/projection/flight.go:148-204 | equal keys of requests without NUL mean the same statement, parameters and values |
| `FlightKeys.KeysSeparate` | pkg/registry/projection/flight.go:148-204 | the same for two requests with equally many parameters as soon as one of them has no NUL in its values |
| `FlightCollisions.CountsMatter` | pkg/registry/projection/flight.go:148-165 | with different numbers of parameters a request without NUL can share its key with one that has a NUL |
| `FlightCollisions.OneNameSeparates` | pkg/registry/projection/flight.go:148-165 | a statement with one parameter name, however often, separates all bindings, with NUL or without |
| `FlightCollisions.SeparatesExactly` | pkg/registry/projection/flight.go:148-204 | a statement in which some name occurs once separates all bindings exactly when it is the only name |
| `FlightCollisions.NumberedSeparatesExactly` | pkg/registry/projection/flight.go:148-204 | the statement of a numbering driver separates all bindings exactly when it has at most one name |
| `FlightCollisions.MirrorCollides` | pkg/registry/projection/flight.go:148-204 | two names, each twice, one pair inside the other: two bindings share a key |
| `FlightCollisions.PairsSeparate` | pkg/registry/projection/flight.go:148-204 | two names, each twice in a row: all bindings are separated |
| `StatementKeys.SameTextSameCount` | pkg/sql/bind.go:53-92 | two statements of a driver that are sent as the same text have equally many names, when their authors wrote no placeholder |
| `StatementKeys.StatementKeysSeparate` | pkg/registry/projection/flight.go:148-204 | for such statements, when one request has no NUL, equal keys mean the same text, names and values |
| `QueryKeys.QueryKey` | pkg/registry/projection/rest.go:3692-3700 | the key a read is shared under is those of its statements, its session and its pool, one after the other |
| `QueryKeys.SingleReadsSeparate` | pkg/registry/projection/rest.go:3692-3700 | reads of one statement each, with equally many parameters and variables and one without NUL: equal keys mean the same statement, values, session and pool |
| `QueryKeys.SameStatementsSeparate` | pkg/registry/projection/rest.go:3692-3700 | reads of the same statements, one without NUL: equal keys mean the same values, session and pool |
| `QueryKeys.StatementsRunTogether` | pkg/registry/projection/rest.go:3692-3695 | a read of two statements, the second without parameters, shares the key of a read of the first whose last string ends in the text of the second |
| `QueryKeys.PairsStayApart` | pkg/registry/projection/rest.go:1344-1358 | reads without NUL of a statement and of it with a second, with equally many variables, never share a key exactly when the second has a parameter, or the first none, or the last one of the first occurs in it before |
| `QueryKeys.ParameterOrVariable` | pkg/registry/projection/rest.go:3692-3700 | a statement with a parameter and one of the same text with a session variable in its place share a key |
| `ProjectionReads.Session` | pkg/registry/projection/rest.go:1513-1547 | a variable for each configured setting, in order, with the value the request has for it |
| `ProjectionReads.ProjectionReadsSeparate` | pkg/registry/projection/rest.go:3692-3700 | reads of one statement each of one projection, one without NUL and neither with placeholders of its author's: equal keys mean the same statement, values, session and pool, whoever asks |
| `SqlLexer.SkipNonCode` | pkg/sql/bind.go:277-329 | the region skipped at an index is the one the dialect's lexical rules give, and is never empty |
| `SqlLexer.EndOfString` | pkg/sql/bind.go:368-386 | where a literal ends, by doubled quotes and, where they escape, backslashes |
| `SqlLexer.EndOfBlockComment` | pkg/sql/bind.go:342-362 | where a comment ends, nested or not |
| `SqlLexer.EndOfDelimited` | pkg/sql/bind.go:390-398 | where a quoted identifier ends |
| `SqlLexer.EndOfLine` | pkg/sql/bind.go:458-464 | where a line comment ends |
| `SqlLexer.DollarQuote` | pkg/sql/bind.go:105-128 | a dollar quote is one exactly when its tag is well formed and occurs again, and ends after the first such occurrence |
| `SqlLexer.NestedEndsNoEarlier` | pkg/sql/bind.go:251-255 | read as nested, a comment never ends before it would read as flat |
| `SqlGrammar.ReadsLexeme` | pkg/sql/bind.go:195-329 | a literal, escape string, dollar quote, quoted name, comment, parameter, cast or single character, valid by the rules of the driver's database and before any text, is read as that and no more; the rules are given by driver name, without the scanner or its dialects |
| `SqlGrammar.ReadsBack` | pkg/sql/bind.go:27-92 | every statement written by the rules of its database is read as exactly the lexemes it was written from |
| `SqlGrammar.RewritesParameters` | pkg/sql/bind.go:27-92 | what is sent is the statement with exactly the author's parameters replaced, and values are asked for exactly those |
| `SqlEveryText.EveryText` | pkg/sql/bind.go:277-329 | every text, for every driver, is a statement by those rules, unclosed literals and comments included, so they say how all of it is read |
| `SqlBind.Rewrite` | pkg/sql/bind.go:27-93 | an unknown driver is refused; otherwise the text is that of the statement's tokens with a placeholder for each parameter, and the names are those in driver order |
| `SqlRewrite.TokensCover` | pkg/sql/bind.go:41-90 | the tokens of a statement, put together, are the statement |
| `SqlRewrite.RescanTokens` | pkg/sql/bind.go:27-128 | a rewritten statement divides as the original did, its placeholders being plain code, exactly when no `$` of the author's opens a literal with them |
| `SqlRewrite.NothingOpens` | pkg/sql/bind.go:95-128 | none does with `?` placeholders, in a dialect without dollar quotes, or without a bare `$` |
| `SqlRewrite.RewriteIdempotent` | pkg/sql/bind.go:27-93 | as long as none does, rewriting a rewritten statement changes nothing and finds no parameter |
| `SqlRewrite.UnchangedWithoutNames` | pkg/sql/bind.go:27-93 | rewriting leaves a text alone exactly when it finds no parameter in it |
| `SqlDollars.DollarRewriteChanges` | pkg/sql/bind.go:95-128 | a statement in which one does, that changes again and has a parameter it did not have |
| `SqlBind.PositionalFaithful` | pkg/sql/bind.go:53-92 | with positional placeholders there are as many as values exactly when the author wrote no bare `?`, and then every parameter receives the value of its own name |
| `SqlBind.NumberedFaithful` | pkg/sql/bind.go:53-92 | with numbered placeholders every parameter receives the value of its own name and the rest is as written exactly when no `$` opens a literal and none of the author's numbers a value; each name is numbered once |
| `SqlBind.NumberedWithoutDollar` | pkg/sql/bind.go:53-92 | so it is for every statement without a bare `$` |
| `SqlBind.NumberedByAppearance` | pkg/sql/bind.go:53-92 | numbers follow the order of first appearance |
| `SqlBind.Bind` | pkg/sql/datasource.go:1147-1157 | the values in driver order, or the first name that nothing supplies |
| `SqlBind.BindAll` | pkg/sql/datasource.go:1161-1171 | the values of every statement in order, refused when any statement misses a name |
| `SqlReturning.ReadersAgree` | pkg/sql/bind.go:269-329 | the rewriter and the `RETURNING` scanner skip exactly the same regions, unless the dialect has escape strings and a parameter named e or E is directly followed by a literal; then they never do |
| `SqlReturning.HasReturning` | pkg/sql/bind.go:409-434 | true exactly when a word outside every skipped region is `returning`, each letter small or capital |
| `SqlWords.WordsBack` | pkg/sql/bind.go:409-434 | the words found in a statement are those it was written with, by the same rules |
| `SqlWords.ReturningWritten` | pkg/sql/bind.go:409-434 | every text is made of skipped regions, words and single characters, and has `RETURNING` exactly when one of these words spells it |
| `SqlWords.ParameterTaken` | pkg/sql/bind.go:409-434 | for every driver a parameter that spells `returning` is a parameter to the rewriter and the word to the `RETURNING` scanner |
| `Claims.ClaimsOf` | pkg/controller/projection/controller.go:1803-1828 | every name a projection's resources ask for, once each, in the order of their printed texts |
| `Claims.ResolveClaims` | pkg/controller/projection/controller.go:1939-1980 | no two winners share a claim; every loser shares one with a winner ranked before it, and is told the first such claim and who holds it |
| `Claims.SettledUnique` | pkg/controller/projection/controller.go:1939-1980 | there is one such set of winners, so it depends on claims, creation times and standings and not on map order |
| `Claims.LossesDetermined` | pkg/controller/projection/controller.go:1960-1979 | two replicas that read the same report the same losses for the same reasons |
| `Precedence.SettledInWords` | pkg/controller/projection/controller.go:1803-1975 | from the resources, statuses and times alone: no two winners have a plural, singular, short name or kind of a group in common, and whoever loses has one in common with a winner that comes first: serving before not, not lost before lost, then older, then by name |
| `Precedence.FirstWins` | pkg/controller/projection/controller.go:1915-1975 | whoever comes before all that it shares a name with wins |
| `ClaimOutcomes.WinnersInstall` | pkg/apiserver/dynamic/router.go:344-373 | the router never refuses the winners together, in whatever order their resources come |
| `ClaimOutcomes.WrittenReadsBack` | pkg/controller/projection/controller.go:1514-1579 | a written status reads back as serving, lost or unknown as the report was, and as unknown after an edit |
| `ClaimOutcomes.StatusFeedback` | pkg/controller/projection/controller.go:1849-1890 | whichever of the resulting statuses are written back, the same projections win |
| `ClaimOutcomes.EditsKeepLosers` | pkg/controller/projection/controller.go:1865-1890 | with every loser marked, editing winners without changing their claims hands nothing over |
| `ClaimOutcomes.UnmarkedLoserTakesOver` | pkg/controller/projection/controller.go:1865-1890 | for any two projections that want one resource: when the winner is edited the loser takes over exactly when it is not marked and ranks before it by age and name |
| `Surface.GroupStorages` | pkg/apiserver/dynamic/router.go:344-373 | refused exactly when a resource asks for a path an earlier one has; otherwise every resource and subresource is at its path |
| `Surface.InstalledAnswers` | pkg/apiserver/dynamic/router.go:344-373 | without a clash a path is answered by the storage, status or scale of the resource it belongs to, and there are no other paths |
| `Lifecycle.Conserved` | pkg/controller/projection/controller.go:691-796 | what was live or has been built, less what a sync retires, is exactly what the new set owns, and nothing retired is in it |
| `Lifecycle.RoutedAreOwned` | pkg/apiserver/dynamic/router.go:344-373 | the storages that requests can reach are exactly those that are accounted for |
| `Lifecycle.BuiltServes` | pkg/apiserver/dynamic/compile.go:365-381 | what is built serves what its shape says, through the pools of its attempt, with storages of its own |
| `Pools.PoolCache.Get` | pkg/sql/datasource.go:1275-1288 | a cached pool is handed out and never replaced; a new one is cached under its key alone |
| `Pools.PoolCache.Borrow` | pkg/sql/datasource.go:1302-1318 | the cache is unchanged; a pool opened for the caller is nobody else's |
| `Pools.PoolCache.EvictIf` | pkg/sql/datasource.go:1328-1339 | removes the pool exactly when the key still holds that one; one that is closed already never takes another's place away |
| `Pools.PoolCache.RetainOnly` | pkg/sql/datasource.go:1354-1368 | closes exactly the pools whose keys are not wanted, and counts them |
| `SyncRound.ReportsFollow` | pkg/controller/projection/controller.go:759-774 | a sync's failures and fallbacks are the reports that the feedback results speak of |
| `SyncRound.ChosenInWords` | pkg/controller/projection/controller.go:655-747 | a candidate that compiles and can be installed is decided as it is now; one that does not keeps what the same side of its name had, and a refused group has nothing |
| `Sync.Controller.Failed` | pkg/controller/projection/controller.go:626-647 | a projection that fails keeps what it served when the same side of its name compiled it, and otherwise has nothing |
| `Sync.Controller.Compile` | pkg/apiserver/dynamic/compile.go:365-381 | new storages for one version after another, as far as the compilation gets |
| `Sync.Controller.Recompile` | pkg/controller/projection/controller.go:706-747 | a changed projection is compiled and replaces the one before; one that does not install has its new storages destroyed and fails; one that stops part way fails and leaves what it had built |
| `Sync.Controller.Consider` | pkg/controller/projection/controller.go:655-747 | each candidate comes to what its group, fingerprint, compilation and check decide; storages are left behind exactly when its compilation stops part way |
| `Sync.Controller.Settle` | pkg/controller/projection/controller.go:759-791 | losers are taken out whole, the survivors can be installed, and exactly what will not be routed to is retired |
| `Sync.Controller.Sync` | pkg/controller/projection/controller.go:556-855 | fails only when the installer refuses; otherwise what is compiled is the settlement of what was decided, nothing installed is destroyed, and the pools kept are exactly those in use; no storage is left behind exactly when the rebuild is taken, or nothing was built, and no compilation stops part way |
| `Sync.Controller.Run` | pkg/controller/projection/controller.go:538-855 | over any run of syncs nothing installed has been destroyed and its pools are open; built and not destroyed is what is compiled exactly when every round leaves nothing behind |
| `Sync.PartWayLeaks` | pkg/apiserver/dynamic/compile.go:365-381 | a projection whose second version fails: the first one's storage is live and in nothing that is compiled |
| `Sync.CompleteLeavesNone` | pkg/controller/projection/controller.go:706-796 | a round in which everything compiles whole and the rebuild is taken leaves nothing behind |
| `ObjectNames.IsDNS1123Subdomain` | pkg/projection/mapper.go:489-519 | the one-pass scan accepts exactly labels joined by dots, up to 253 characters |
| `ObjectNames.IsDNS1123Label` | pkg/projection/mapper.go:528-530 | accepts exactly the single labels up to 63 characters |
| `CompositeNames.NewNaming` | pkg/projection/mapper.go:56-88 | accepted exactly with one source of the name, a separator of one character a name may contain, and no empty column |
| `CompositeNames.BuildName` | pkg/projection/mapper.go:440-473 | a name is built exactly when every part is there, non-empty and free of the separator, and joins the row's values |
| `CompositeNames.SplitName` | pkg/projection/mapper.go:357-377 | accepted exactly when there is a non-empty part for each column; a column named twice takes the later part |
| `CompositeNames.NameGivesBackRow` | pkg/projection/mapper.go:357-473 | a built name splits back into the row's own values |
| `CompositeNames.SameNameSameIdentity` | pkg/projection/mapper.go:64-70 | two rows that share a name agree on every column of it |
| `CompositeNames.RebuiltUnchanged` | pkg/projection/mapper.go:357-473 | a name that splits is rebuilt unchanged exactly when its parts agree where a column is named twice; distinct columns suffice |
| `CompositeNames.DuplicateColumnLosesPart` | pkg/projection/mapper.go:357-377 | a name of a mapping with a column named twice whose parts do not agree |
| `Values.CoerceIdempotent` | pkg/projection/mapper.go:868-990 | coercing a coerced value changes nothing, for strings, integers and booleans |
| `Readings.IntegerTextReads` | pkg/projection/mapper.go:883-945 | an integer field reads exactly the texts, or bytes, of a sign or none and digits with blanks around them that fit 64 bits, as that number |
| `Readings.WrittenIntegerReads` | pkg/projection/mapper.go:883-945 | every written-out number reads back as itself when it fits 64 bits and is refused otherwise |
| `Readings.PlusIntegerReads` | pkg/projection/mapper.go:883-945 | also with a `+` before it |
| `Readings.WholeReads` | pkg/projection/mapper.go:868-945 | an integer that fits is taken as it is, and as a string reads back as itself |
| `Readings.TooLargeRefused` | pkg/projection/mapper.go:883-945 | an unsigned integer that does not fit is refused |
| `Readings.StringReads` | pkg/projection/mapper.go:868-882 | text and bytes are taken as they are |
| `Readings.TruthReads` | pkg/projection/mapper.go:991-1035 | a truth value reads as itself, and through a string as well |
| `Readings.TruthTextReads` | pkg/projection/mapper.go:991-1035 | a boolean field reads exactly the twelve spellings, with blanks around them, each as its truth value |
| `Readings.TruthNumberReads` | pkg/projection/mapper.go:991-1035 | a 64-bit integer reads as true exactly when it is not zero |
| `Nested.SetWhenOpen` | pkg/projection/mapper.go:821-839 | a value can be placed exactly when nothing but objects is on the way |
| `Nested.ReadBack` | pkg/projection/mapper.go:821-839 | what is placed at a path is read there |
| `Nested.ReadElsewhere` | pkg/projection/mapper.go:821-839 | placing at one path leaves what an incomparable path reads, and whether it can be set |
| `Fields.FieldsFrom` | pkg/projection/mapper.go:771-807 | the loop over the fields, in order, failing at the first field that cannot be read, converted or placed |
| `Fields.FieldParams` | pkg/projection/mapper.go:1558-1576 | fails exactly when a field does not bind; otherwise every column is bound to what the object has at its path |
| `Fields.FieldRoundTrip` | pkg/projection/mapper.go:771-1576 | with paths that do not lead through one another, filling fails only for a column that is missing or does not convert, and every column is bound back to its coerced value, NULL for NULL |
| `Readings.FieldReads` | pkg/projection/mapper.go:771-807 | what an object has at a field's path: a NULL is a null, or left out where the field says so, and anything else the value it reads as |
| `Readings.ScalarBinds` | pkg/projection/mapper.go:1631-1667 | a scalar in a field of its type is bound as it is, and a text in an integer field as the number it reads as |
| `Readings.OthersBind` | pkg/projection/mapper.go:1631-1667 | what is absent or null is bound NULL, a structure only in a string field, and a path through something else is refused |
| `FieldConflicts.EarlierPrefixRefuses` | pkg/projection/mapper.go:821-839 | a field that leads through an earlier one that is placed makes the loop fail, whatever is between them |
| `FieldConflicts.LaterPrefixOverwrites` | pkg/projection/mapper.go:771-1576 | the last field placed at a field's path or on the way to it decides what is bound for it: its value at an equal path; else NULL where a null stands, and a refusal where anything else does |
| `FieldConflicts.RoundTripExactly` | pkg/projection/mapper.go:771-1576 | with distinct columns every row whose columns are there and convert is bound back as it was read exactly when no path leads to or through another |
| `MappedPaths.WalkMappedPath` | pkg/projection/mappedpaths.go:171-217 | the loop is the walk through the schema, one segment at a time |
| `MappedPaths.WalkFollowsPruning` | pkg/projection/mappedpaths.go:28-32 | below any node a scalar at the path survives pruning exactly when the walk says it is kept |
| `MappedPaths.MappedPathKept` | pkg/projection/mappedpaths.go:171-217 | in every object with a scalar at a path that meets no list, pruning leaves it there exactly when the path is kept, type fields apart |
| `MappedPaths.BreaksOffThere` | pkg/projection/mappedpaths.go:149-166 | the place reported is the first that pruning drops |
| `MappedPaths.EmptiesThem` | pkg/projection/mappedpaths.go:224-237 | a schema said to empty objects leaves no key in any conforming value |
| `MappedPaths.EmptiesExactly` | pkg/projection/mappedpaths.go:224-237 | pruning empties every conforming value exactly when the schema is said to empty objects, or no conforming value has an object, or it is a list whose elements are left open; of the last it is not said |
| `MappingColumns.Columns` | pkg/projection/mappedcolumns.go:69-121 | every column the mapping reads, for what it is read, identity first |
| `MappingColumns.ColumnsInWords` | pkg/projection/mappedcolumns.go:69-135 | a column is among the names exactly when one of the sixteen places of a mapping has it |
| `MappingColumns.CheckMappedColumns` | pkg/projection/reservedbind.go:66-124 | accepted exactly when no mapped column has a name the server binds or a label's prefix |
| `WriteParams.Params` | pkg/projection/mapper.go:1458-1589 | refused exactly when the name does not split or a field does not bind; the keys are the mapped columns and name and namespace, each with the value of the last stage that binds it; the name and namespace choose the row whatever else is mapped |
| `WriteParams.WriteBack` | pkg/projection/mapper.go:572-1589 | a row that became an object and is written back, for every mapping: every column of its name and its namespace is bound to what the row has there; when no field's path leads to or through another so is every field's own column, and only a row without an accepted name and namespace, or with a column that is missing or does not convert, is refused |
| `WriteColumns.PlacesBound` | pkg/projection/mapper.go:1458-1550 | the column of each metadata place, when nothing else uses it, is bound to that very part of the object, or NULL where there is none |
| `WriteColumns.KeysBound` | pkg/projection/mapper.go:1500-1550 | the column of a label or annotation, when nothing else uses it, is bound to its value, or NULL where the object has none |
| `ServerArgs.CheckSelectableColumns` | pkg/projection/reservedbind.go:87-97 | accepted exactly when no selectable column has a name the server binds or a label's prefix |
| `ServerArgs.BuiltinArgs` | pkg/registry/projection/rest.go:3586-3602 | every name of the server's is a key: who asks, name by name, the request's namespace, and NULL under every other, whatever columns can be selected on |
| `WriteBinds.WriteVersions` | pkg/projection/writebinds.go:84-99 | the served versions, each with its own mapping or the projection's |
| `WriteBinds.SuppliedBinds` | pkg/projection/writebinds.go:145-157 | the server's names, the mapped columns and the declared parameters |
| `WriteBinds.CheckWriteBinds` | pkg/projection/writebinds.go:33-72 | accepted exactly when every write statement names only what is supplied, for every served version |
| `WriteBinds.EveryWriteChecked` | pkg/projection/writebinds.go:100-143 | what is checked is each of the six queries that write, only the deletion of a collection without an object |
| `WriteBinds.NotServerOwned` | pkg/projection/reservedbind.go:37-73 | what a mapping binds is never a name the server owns |
| `WriteBinds.WriteArgs` | pkg/registry/projection/rest.go:3092-3115 | everything supplied is a key, and the server's own values are those it put there unless a declared parameter takes the name |
| `WriteBinds.RunWrite` | pkg/registry/projection/rest.go:3092-3115 | an accepted write of any served version binds, from what the server seeds itself, for every object whose parameters can be built; the caller's identity is bound unless a declared parameter takes its name |
| `WriteBinds.RunCollectionWrite` | pkg/registry/projection/rest.go:2819-2831 | an accepted write with no object binds from what the server seeds and the declared parameters |
| `SessionNames.ValidateSessionVariableName` | pkg/sql/session.go:36-68 | the one-pass scan accepts exactly identifiers joined by dots |
| `SessionNames.VariableIsIdentifier` | pkg/sql/session.go:334-336 | a valid name is a single identifier as a MySQL variable |
| `SessionNames.SharedVariable` | pkg/sql/session.go:334-336 | two settings are given one name exactly when they differ only in dots against underscores |
| `Sessions.Connection.ApplySession` | pkg/sql/session.go:180-214 | refused exactly when the driver has no variables, a name is not valid or a statement fails; otherwise a blank connection carries exactly the session's names with their last values, as settings of the transaction for PostgreSQL and CockroachDB, as variables of its own for MySQL, and nothing else |
| `Sessions.OwnCarries` | pkg/sql/session.go:162-214 | the variables set one after the other amount to exactly that, for each driver by name |
| `Sessions.Connection.ClearSession` | pkg/sql/session.go:314-330 | what the connection carries after clearing stops at the first that cannot be cleared |
| `Sessions.Connection.ReleaseSession` | pkg/sql/session.go:285-293 | a connection that goes back carries nothing, and it goes back exactly when clearing reported no failure |
| `Sessions.ClearedIsBlank` | pkg/sql/session.go:314-330 | clearing without a failure removes every variable of the session |
| `Sessions.StepKeeps` | pkg/sql/session.go:247-293 | every step of every request keeps pooled connections blank |
| `Sessions.SessionIsolation` | pkg/sql/session.go:180-330 | at every point of every run a pooled connection carries nothing, and a request that has set its variables has exactly their names with their last values, and no others |
| `Sessions.LastValueWins` | pkg/sql/session.go:180-214 | a variable reads the last value given to it or to a name that shares it |
| `Registrations.Aggregator.Ensure` | pkg/controller/projection/apiservice.go:414-471 | on a cache that is up to date, an allowed group version that has no registration, or a managed one for this Service, is registered with exactly its content and owners, and any other is left as it is; on an outdated cache nothing changes; nothing happens to other names |
| `Registrations.Aggregator.Prune` | pkg/controller/projection/apiservice.go:480-499 | what the listing has of one's own and is not kept is deleted by name, and nothing else |
| `Registrations.Aggregator.Reconcile` | pkg/controller/projection/apiservice.go:231-289 | a registration for a declared, allowed group version stays whatever is served; one that another installation owns changes exactly when the cache has an unwanted one of one's own under its name; of what the cache has of one's own nothing unwanted is left; on a cache that is up to date every served, allowed group version that could be written has the wanted content, and what is not managed or leads elsewhere is untouched |
| `Registrations.UnderByLabels` | pkg/controller/projection/apiservice.go:78-91 | a group is under a suffix exactly when its dot-separated labels end in those of the suffix |
| `Registrations.NamesApart` | pkg/controller/projection/apiservice.go:231-289 | group versions whose versions have no dot have different names |
| `Registrations.CurrentCacheSpares` | pkg/controller/projection/apiservice.go:220-222 | a cache that is up to date has nothing of another installation's among what is unwanted |
| `Registrations.StepLeavesOthers` | pkg/controller/projection/apiservice.go:414-499 | no step of one installation changes what one with another Service owns, even on an outdated cache, but a late deletion of that name, which always does |
| `Registrations.DeletionTakes` | pkg/controller/projection/apiservice.go:480-499 | a deletion of what was listed takes another installation's registration exactly when the name now holds one, and never while the listed version is current |
| `Registrations.OwnedStays` | pkg/controller/projection/apiservice.go:231-289 | in any interleaving what an installation owns stays until it, somebody on that name, or a late deletion of it, changes it |
| `Registrations.LateDeletionInterferes` | pkg/controller/projection/apiservice.go:480-499 | a run in which a late deletion takes another installation's registration |

## Left out

- The watch cache, poll groups and leadership, the list path with its paging and selectors, and the REST storages
  apart from the order of their calls.
- Replica lag: there is one database, and a query's rows are a snapshot of it at one moment.
- The wrap-around of the cache's 64-bit generation, and a projection without a cache or a flight group.
- The clock, which is a parameter of every operation that reads it, or a time for each step of a run, and the metrics.
- In the printed text of a claim only quotes and backslashes are escaped, as in names of printable ASCII.
- Letter case beyond ASCII in the `RETURNING` scanner, and white space beyond ASCII when a column is read as a number.
- SqlRewrite.RewriteIdempotent: goes one way. Where a `$` does open a literal the second rewriting may still change
  nothing, as in `$:a $:b`, because what it opened hides no parameter; `SqlRewrite.UnchangedWithoutNames` says what it
  comes down to then.
- FlightCollisions.SeparatesExactly: asks for one name that occurs once. Of positional statements that repeat every name
  some separate all bindings and some do not, as `FlightCollisions.PairsSeparate` and `FlightCollisions.MirrorCollides`
  show; which do in general is open.
- `Tables` and `tableRef`, which are meant to be incomplete.
- Compiling, pinging and checking projections: their outcomes are arbitrary inputs of a sync.
- Sync.Controller.Sync: files are assumed to have distinct names, as the candidate list does not check it, and the
  installer to refuse a plural that is not a path segment; events, warnings and remembered statuses are not part of
  the state.
- The eviction of a pool by the admission check between two syncs: `Pools.PoolCache.EvictIf` states what it does, and
  the run of syncs does not include it.
- Floating point, timestamps and JSON columns in `coerce`, and a JSON aggregate's already decoded values.
- Nested.SetAt: objects are values, so the maps that the program shares and updates in place, and what a failed
  placing leaves behind in an object that is then thrown away, are not modelled.
- WriteParams.Params: of several labels, or annotations, with one column the value of one of them is bound, as the
  program goes through them in no order; JSON texts stand for what they encode.
- Embedded resources below the root of a schema, and mapped paths that run through a list, which are refused with a
  message of their own.
- The statements of a projection are assumed not to set session variables themselves.
- The statement timeout and the deadlines around it.
- API calls that fail for other reasons than a conflict, which change nothing; the aggregator's availability check.
- Drivers, TLS, credentials, DSN redaction, the webhook, OpenAPI, the generated clients and the command line.
