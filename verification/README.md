# FeohLedger: verified models of its protocols and algorithms

A Dafny 4.11 project that models the stateful and algorithmic cores of the FeohLedger repository and proves what each is for.
`dafny verify dfyconfig.toml` checks all of it. Time is an integer, money is whole cents, Redis and database
commands are atomic state transformers, and hashes are arbitrary functions.

| module | what it models |
|---|---|
| `SortedSet`, `SessionRace` | `track_session` as a concurrent protocol: any number of logins, each issuing ZADD, ZCARD, ZRANGE, ZREM one at a time, interleaved with one another and with removals |
| `SessionStore` | the same module run sequentially, with key expiry, the metadata hash and the blocklist; class `Sessions` |
| `Json`, `JsonReader`, `JsonRoundTrip`, `JsonLayout` | the exact JSON printer, an independent reader after sections 4 to 7 of RFC 8259, and an independent scan that lays compact text out |
| `Grants` | the QuickBooks sandbox's OAuth grants; class `Sandbox` |
| `QueryScan`, `Query`, `QueryConditions`, `QueryGrammar` | the sandbox's query language: tokenizer, clause splitter, literals, filters, paging; what written statements ask for, and the grammar of what is read |
| `TenantUrl` | the database-URL splitter and the tenant rewriter |
| `Rename` | the crash-resumable rename migration; class `Migration` |
| `Scatter`, `SmallPlans`, `SeedWriter` | the seed's stride walk and amounts, the sizing of small vendors, and the invoice writer; classes `Invoice`, `Writer` |
| `MessageKeys` | deriving message keys and ARB methods from warning codes, with decoders |
| `PngWalk` | the PNG chunk walk, against an encoder after RFC 2083 |
| `Ledger` | bills, payments and voids; classes `Bill`, `Payment` |
| `Engines` | dispatch scopes and the engines they own; classes `Pool`, `Database` |
| `Text`, `Digits`, `Wrappers` | string operations, decimal numerals and the optional value, shared by the others |

A class's methods do what the source's functions do, in place, and their contracts equate the new state with a
function of the old; the lemmas are about those functions, over every run.

Where the code falls short of what it promises, the shortfall is stated exactly, with an input that shows it:

- The session cap is an upper bound only. A call takes one of the newest sessions exactly when its ZRANGE finds fewer
  members than its ZCARD counted (`SessionRace.StaleRangeTakesNewest`). While no call does, the newest `cap` are
  kept (`SessionRace.NewestKept`), and once every login is added the end is right exactly when none does
  (`SessionRace.NewestKeptExactly`); over a whole run it is right exactly when no ZRANGE names one of the newest of
  all (`SessionRace.NewestEndExactly`). Two simultaneous logins can evict each other
  (`SessionRace.TwoLoginsEvictEachOther`).
- Metadata can outlive its session set after a login that brings none and gives the set less time than the hash has
  left, and only then (`SessionStore.MetadataBoundedExactly`).
- A blocked or claimed jti stays blocked to its time exactly when no later write to its key ends earlier
  (`SessionStore.BlockEnduresExactly`, `SessionStore.ShortBlockReopens`).
- The printer spells a Decimal that has no fractional digits as an integer, so it reads back as one: the identical
  value returns exactly when every Decimal has a fraction (`JsonRoundTrip.PrinterIsExact`,
  `JsonRoundTrip.WholeDecimalComesBackInteger`).
- Revoking by a refresh token that has been used up revokes nothing (`Grants.SpentRefreshRevokesNothing`); every
  other token a grant was issued ends it (`Grants.RevocationIsExact`).
- The migration repoints every organization row except one naming the old control database
  (`Rename.RowsStillPoint`, `Rename.ControlRowGoesStale`).
- Scattered amounts are distinct exactly when the range has at least `count - 1` cents
  (`Scatter.AmountsDistinctExactly`, `Scatter.HalfCentMeets`).
- `pay` promises to stop at the last step that has already happened; it does so exactly when a void does not lie ahead
  of the cutoff (`SeedWriter.PayStopsInTime`, `SeedWriter.VoidPastCutoff`). No shipped vendor plan gets there
  (`SeedWriter.ShippedVoidsArePast`).
- Every message key belongs to exactly one code in which a letter follows every underscore; every other code with that
  key collides with it (`MessageKeys.KeyClass`, `MessageKeys.MethodClass`, `MessageKeys.DigitsCollide`).
- A void given no bill, or another bill, loses the payment's money unless nothing is left in it
  (`Ledger.VoidConservesExactly`, `Ledger.RunConservesExactly`, `Ledger.VoidWithoutBillLoses`).

## Model

| member | source | states |
|---|---|---|
| `SessionRace.CapHolds` | backend/app/redis.py:93-120 | for any number of concurrent logins, any interleaving of their commands and any removals elsewhere, once all calls have returned at most `cap` sessions are tracked |
| `SessionRace.NothingLost` | backend/app/redis.py:93-120 | at every moment of every interleaving a jti was issued exactly if it is tracked, evicted by a returned call, or removed elsewhere; no tracked one is either; without a positive cap nothing is evicted |
| `SessionRace.SoloCall` | backend/app/redis.py:98-120 | a call nothing interrupts leaves the newest `cap` entries and returns the others oldest first |
| `SessionRace.StaleRangeTakesNewest` | backend/app/redis.py:110-116 | a ZRANGE names one of the newest `cap` tracked sessions exactly when its call counted more members than are left, and some are |
| `SessionRace.NewestKept` | backend/app/redis.py:93-120 | in every interleaving in which no call ranges on a stale count, at every moment the newest `cap` of all that was issued are tracked, and once all calls have returned nothing else is |
| `SessionRace.NewestKeptExactly` | backend/app/redis.py:109-120 | after a run in which no call ranged on a stale count until every login was added, the final set is the newest `cap` of all issued exactly when no call from then on does |
| `SessionRace.NewestEndExactly` | backend/app/redis.py:93-120 | for every interleaving of any logins, the final set is the newest `cap` of all that was issued exactly when no ZRANGE of the run names one of those |
| `SessionRace.TwoLoginsEvictEachOther` | backend/app/redis.py:109-118 | two logins under a cap of one, the second ranging on a stale count, leave the user no session at all |
| `SortedSet.AddKeepsOrder` | backend/app/redis.py:98-99 | ZADD keeps the set ordered by score, then member, with each member once |
| `SortedSet.AddLatest` | backend/app/redis.py:98-99 | a member scored above all others goes last |
| `SortedSet.WithoutLowest` | backend/app/redis.py:114-118 | removing the members a ZRANGE from the bottom named leaves exactly the rest |
| `SessionStore.TrackOutcome` | backend/app/redis.py:98-120 | each login leaves the highest `cap` entries after its ZADD, returns the others oldest first, drops exactly their metadata, and changes no other user |
| `SessionStore.TrackNewest` | backend/app/redis.py:93-120 | a login later than every tracked one leaves exactly the newest `cap` of the old set plus the new jti |
| `SessionStore.LaterLoginIsNewest` | backend/app/redis.py:96-99 | in every reachable state a login after any wait is later than all tracked ones |
| `SessionStore.RevokeAllOutcome` | backend/app/redis.py:199-216 | only the excepted jti stays, if it was tracked, with its metadata alone; every other tracked jti is returned oldest first and blocked; nothing else is blocked, and other users keep their sets and metadata |
| `SessionStore.RevokeSessionOutcome` | backend/app/redis.py:177-183 | a jti is revoked exactly if its own user's set tracks it; then it alone is gone and blocked, otherwise nothing changes |
| `SessionStore.SetLivesItsTime` | backend/app/redis.py:98-106 | a login's set lives exactly the time it gave, and so does its metadata; a login without metadata leaves the hash its old time |
| `SessionStore.MetadataNeverOutlives` | backend/app/redis.py:98-127 | with one login lifetime, over every run, through expiry, eviction, untrack, drop, revoke and revoke-all, the hash holds no jti the set does not track, then or after any wait |
| `SessionStore.MetadataBoundedExactly` | backend/app/redis.py:98-127 | with a lifetime for each login, the same holds at every moment of a run exactly when no login without metadata gives the set less time than its hash has left while the hash describes a session that login does not evict |
| `SessionStore.BlockEnduresExactly` | backend/app/redis.py:25-40 | each write with its own lifetime: a blocked jti stays blocked to its time, at every moment of every run, exactly when nothing overwrites its key with an earlier end |
| `SessionStore.ClaimedOnce` | backend/app/redis.py:31-40 | a claimed jti cannot be claimed again before its time, exactly when nothing overwrites its key with an earlier end |
| `SessionStore.RevokedStaysBlocked` | backend/app/redis.py:199-216 | every jti a revoke-all returned stays blocked for its whole TTL, exactly when nothing overwrites its key with an earlier end |
| `SessionStore.ShortBlockReopens` | backend/app/redis.py:25-40 | a block of one second ends an hour's claim, and the token is claimed again |
| `SessionStore.Sessions.TrackSession` | backend/app/redis.py:74-120 | the new state and the evicted list are those of `Track` |
| `SessionStore.Sessions.DropSessions` | backend/app/redis.py:156-167 | forgets the listed jtis in both keys, and does nothing for an empty list |
| `SessionStore.Sessions.UntrackSession` | backend/app/redis.py:123-127 | forgets one jti in both keys |
| `SessionStore.Sessions.RevokeOne` | backend/app/redis.py:170-183 | the new state and answer are those of `RevokeSession` |
| `SessionStore.Sessions.RevokeAllSessions` | backend/app/redis.py:186-216 | the new state and returned list are those of `RevokeAll` |
| `SessionStore.Sessions.ClaimTokenBlock` | backend/app/redis.py:31-40 | claims the key and says so exactly if it was not blocked |
| `JsonRoundTrip.PrinterIsExact` | backend/scripts/record_qbo_contract_fixtures.py:201-216 | for every value and indent the reader recovers what the value denotes, Decimals digit for digit; the identical value exactly when every Decimal has fractional digits |
| `JsonRoundTrip.ReadBack` | backend/scripts/record_qbo_contract_fixtures.py:203-216 | inside any surrounding text, reading a value's text gives the value and stops where the text stops |
| `JsonRoundTrip.ReadFixed` | backend/scripts/record_qbo_contract_fixtures.py:204-205 | every sign, coefficient and exponent of a Decimal is read back from its fixed-point text |
| `JsonRoundTrip.ReadEscape` | backend/scripts/record_qbo_contract_fixtures.py:209-216 | every string, controls, quotes, backslashes and surrogate pairs included, is read back exactly |
| `JsonRoundTrip.DenotedIsExact` | backend/scripts/record_qbo_contract_fixtures.py:204-205 | a value denotes itself exactly when every Decimal in it has fractional digits |
| `JsonRoundTrip.WholeDecimalComesBackInteger` | backend/scripts/record_qbo_contract_fixtures.py:204-205 | the Decimal 1 is read back as the integer 1, at every indent |
| `JsonLayout.PrinterLaysOut` | backend/scripts/record_qbo_contract_fixtures.py:201-216 | for every value and indent the text is the value's compact text with each element and member on a line of its own, one blank for each bracket around it, by a scan that knows nothing of values |
| `JsonLayout.EscapesAreLower` | backend/scripts/record_qbo_contract_fixtures.py:216 | an escape is a backslash and one character, or four lower-case hexadecimal digits, or two such in a pair; the long ones only for what has no shorter spelling |
| `JsonLayout.PrinterIsAscii` | backend/scripts/record_qbo_contract_fixtures.py:203-216 | whatever characters the strings hold, the text is printable ASCII and line breaks |
| `Grants.CodeIsSingleUse` | tools/fake-erp/qbo_sandbox.py:327-333 | after one attempt to redeem a code, matching or not, no later attempt yields tokens (RFC 6749, section 4.1.2) |
| `Grants.RedemptionIsExact` | tools/fake-erp/qbo_sandbox.py:312-333 | after any history, redeeming a code yields tokens exactly when some consent of it returned that code for the very redirect now given and nothing has tried to redeem it since; any other redirect or code is `invalid_grant` |
| `Grants.RefreshIsSingleUse` | tools/fake-erp/qbo_sandbox.py:334-339 | a refresh token that yielded tokens never does again (RFC 6749, section 6) |
| `Grants.TokensAreNeverShared` | tools/fake-erp/qbo_sandbox.py:282-299 | what one grant was issued no other grant ever holds |
| `Grants.TokenTextInjective` | tools/fake-erp/qbo_sandbox.py:282-284 | token texts of different kinds or counters differ |
| `Grants.RevokedGrantStaysDead` | tools/fake-erp/qbo_sandbox.py:343-361 | after any history, revoking a token the grant was issued (an access token, expired or not, or an unused refresh token) ends it: whatever follows, nothing it was issued at any time authenticates or refreshes, and it is issued nothing more (RFC 7009, section 2.1) |
| `Grants.RevocationIsExact` | tools/fake-erp/qbo_sandbox.py:343-350 | for every token ever issued and whatever came between, revoking it leaves its grant ended exactly unless it is a refresh token used up by then and the grant had not ended; no other grant is touched |
| `Grants.SpentRefreshRevokesNothing` | tools/fake-erp/qbo_sandbox.py:343-350 | revoking a used-up refresh token changes no grant at all |
| `Grants.IssuedTokensWork` | tools/fake-erp/qbo_sandbox.py:287-299 | whatever came between, an issued access token authenticates exactly while its grant has not ended, nothing expired it and its lifetime lasts, and the refresh token refreshes that grant exactly while it has not ended, the token is unused and its lifetime lasts |
| `Grants.ServeKeeps` | tools/fake-erp/qbo_sandbox.py:312-361 | every request keeps all tokens minted, each in at most one place, and never moves one to another grant |
| `Grants.RefusalsAreInert` | tools/fake-erp/qbo_sandbox.py:322-361 | a refused request touches no grant and mints nothing, and takes away only the code it offered; `invalid_grant` and `unsupported_grant_type` answer only the requests they are for |
| `Grants.CountersTally` | tools/fake-erp/qbo_sandbox.py:334-361 | after any history the refresh and refusal counters and the revocation list hold exactly the refreshes answered, the calls refused and the tokens posted, in order |
| `Grants.IssuedLifetime` | tools/fake-erp/qbo_sandbox.py:287-299 | every token pair states the access lifetime set last, an hour if none was |
| `Grants.ConsentEndsAll` | tools/fake-erp/qbo_sandbox.py:499-506 | withdrawing consent ends every grant there is, whatever follows |
| `Grants.Sandbox.Mint` | tools/fake-erp/qbo_sandbox.py:282-284 | the counter grows by one and names the token |
| `Grants.Sandbox.IssueFor` | tools/fake-erp/qbo_sandbox.py:287-299 | the new state and reply are those of `Issue` |
| `Grants.Sandbox.Consent` | tools/fake-erp/qbo_sandbox.py:312-319 | a new code is outstanding for the registered redirect |
| `Grants.Sandbox.RedeemCode` | tools/fake-erp/qbo_sandbox.py:327-333 | the code is popped in every case; tokens only on the exact redirect |
| `Grants.Sandbox.UseRefresh` | tools/fake-erp/qbo_sandbox.py:334-339 | the grant found by the loop is rotated, or nothing changes |
| `Grants.Sandbox.RevokeToken` | tools/fake-erp/qbo_sandbox.py:343-350 | the loop ends every grant holding the token and no other |
| `Grants.Sandbox.ExpireAllAccess` | tools/fake-erp/qbo_sandbox.py:490-496 | every access token is past its time, refresh tokens stay |
| `Grants.Sandbox.RevokeAllConsent` | tools/fake-erp/qbo_sandbox.py:500-506 | every grant is ended |
| `Grants.Sandbox.RequireAuth` | tools/fake-erp/qbo_sandbox.py:353-361 | accepts exactly a bearer some grant holds unexpired, and counts a refusal |
| `QueryScan.Tokenize` | tools/fake-erp/qbo_sandbox.py:155-175 | the loop's words are those of the scan's specification |
| `QueryScan.WordsNormalForm` | tools/fake-erp/qbo_sandbox.py:155-175 | the words keep every character in order but blanks outside literals, and respelling them with single blanks changes nothing |
| `QueryScan.WordsOfSentence` | tools/fake-erp/qbo_sandbox.py:155-175 | any words joined by blanks are scanned back as those words |
| `QueryScan.SplitClauses` | tools/fake-erp/qbo_sandbox.py:177-191 | the loop's clauses are those of the specification |
| `QueryScan.ClausesKeepWords` | tools/fake-erp/qbo_sandbox.py:146-191 | read in order, the clauses spell every word but `and`, with `where` in lower case |
| `QueryScan.ReadLiteral` | tools/fake-erp/qbo_sandbox.py:94-110 | the loop's content, or refusal, is that of the specification |
| `QueryScan.UnescapeEscaped` | tools/fake-erp/qbo_sandbox.py:98-110 | unescaping inverts escaping for every string |
| `QueryScan.QuotedIsWord` | tools/fake-erp/qbo_sandbox.py:94-110 | every string's escaped literal is one word to the tokenizer and is read as that string |
| `Query.UnderstoodExactly` | tools/fake-erp/qbo_sandbox.py:210-231 | a statement is answered exactly when its first clause names an entity and the rest is a `where` with conditions and then only paging terms |
| `Query.SelectExact` | tools/fake-erp/qbo_sandbox.py:230-235 | the rows selected are exactly those matching every DocNumber and the last Active condition, each as often as stored |
| `Query.SelectSplits` | tools/fake-erp/qbo_sandbox.py:230-235 | filtering condition by condition and then by Active is filtering by all at once, in stored order |
| `Query.PagesAreComplete` | tools/fake-erp/qbo_sandbox.py:237-243 | pages 1, 1 + n, 1 + 2n and so on of a statement concatenate to exactly its selected rows, and each is what the statement with those paging terms answers |
| `Query.PagedPlan` | tools/fake-erp/qbo_sandbox.py:132-136 | paging terms appended to a statement change the page asked for and nothing else |
| `Query.RunQuery` | tools/fake-erp/qbo_sandbox.py:201-243 | the loops' response, fault or page, is that of the specification |
| `QueryConditions.StatementAsks` | tools/fake-erp/qbo_sandbox.py:113-191 | for every list of conditions written after `where` and joined by `and`, keywords in any case, the statement is planned as exactly those conditions in order, from row 1 and for 100 rows, or from the row and for the number its paging terms give |
| `QueryConditions.ActiveReachesRows` | tools/fake-erp/qbo_sandbox.py:113-129 | for every non-empty list of flags, `Active IN (...)` asks for exactly the listed ones, and `Active = b` for that one |
| `QueryConditions.LiteralReachesRows` | tools/fake-erp/qbo_sandbox.py:113-129 | for every string, a DocNumber query for its escaped literal is understood as exactly that condition |
| `QueryConditions.ActiveAnswers` | tools/fake-erp/qbo_sandbox.py:228-235 | an Active condition answers a row with a flag exactly when the flag is listed and a row without one exactly when true is, each as often as stored |
| `QueryConditions.DocAnswers` | tools/fake-erp/qbo_sandbox.py:228-235 | a DocNumber condition answers exactly the rows stored under it but the inactive ones |
| `QueryConditions.DefaultAnswers` | tools/fake-erp/qbo_sandbox.py:213-235 | without a condition every row but the inactive ones answers |
| `QueryConditions.LastActiveDecides` | tools/fake-erp/qbo_sandbox.py:228-235 | of several conditions every DocNumber must hold, and only the last Active one counts |
| `QueryConditions.PagedRefused` | tools/fake-erp/qbo_sandbox.py:237-239 | an understood statement on a known entity is refused exactly when its paging terms ask for row 0, no rows, or more than a thousand |
| `QueryGrammar.ConditionExactly` | tools/fake-erp/qbo_sandbox.py:113-129 | a clause is read as a condition exactly when it is `Active` with a bracketed list or one flag, or `DocNumber` with one literal, keywords and flags in any case, and then as that condition |
| `QueryGrammar.ListExactly` | tools/fake-erp/qbo_sandbox.py:194-198 | a list is read exactly when its parts between commas are flags or blank and some is a flag, and then as those flags |
| `QueryGrammar.LiteralExactly` | tools/fake-erp/qbo_sandbox.py:94-110 | a literal is read as a string exactly when it stands between quotes and spells it, each character as it is or after a backslash, quotes and backslashes only so |
| `QueryGrammar.TermExactly` | tools/fake-erp/qbo_sandbox.py:132-136 | a clause is read as a paging term exactly when it is one of the two keywords, in any case, a blank and digits |
| `QueryGrammar.EntityExactly` | tools/fake-erp/qbo_sandbox.py:139-143 | the first clause names an entity exactly when it is `select * from` and one word |
| `TenantUrl.SplitDatabaseUrl` | backend/app/tenant_url.py:95-124 | the index loops compute the specified split |
| `TenantUrl.DecomposeSound` | backend/app/tenant_url.py:84-124 | what is read satisfies the documented grammar and spells the URL; refused exactly when there is no scheme |
| `TenantUrl.GrammarIsUnambiguous` | backend/app/tenant_url.py:84-124 | every reading of a URL by the documented grammar is the one computed |
| `TenantUrl.SplitRecombines` | backend/app/tenant_url.py:79-82 | server, `/database` and `?query` spell the URL again, an empty query kept apart from an absent one |
| `TenantUrl.SwapKeepsGrammar` | backend/app/tenant_url.py:50-73 | an accepted name put in place of the database leaves the rest of the URL parsing as before, userinfo included |
| `TenantUrl.MadeSplitsBack` | backend/app/tenant_url.py:66-73 | for every base and accepted name, splitting the made URL gives the base's server and query and exactly the name |
| `TenantUrl.MadeExactly` | backend/app/tenant_url.py:58-73 | a URL is made exactly for a base with `://` and a name that is not empty and holds none of the structural characters |
| `TenantUrl.LastNameWins` | backend/app/tenant_url.py:66-73 | rewriting twice is rewriting once with the last name, and URLs are equal exactly when names are |
| `Rename.RerunsConverge` | backend/scripts/rename_databases_to_feohledger.py:203-261 | stopped after any step, any number of times, a run that completes ends where one uninterrupted run would, and a further run changes nothing |
| `Rename.FullRunIsFinal` | backend/scripts/rename_databases_to_feohledger.py:203-261 | a full run reaches the end state described without steps |
| `Rename.FinalIsUnique` | backend/scripts/rename_databases_to_feohledger.py:203-261 | that description fits one state only |
| `Rename.PrefixIsSwapped` | backend/scripts/rename_databases_to_feohledger.py:213-223 | after a full run, for every tail, what stood under the old prefix and the tail stands under the new prefix and the same tail, nothing is left under the old one, and every row naming it reads so wherever there is a control database |
| `Rename.OthersAreKept` | backend/scripts/rename_databases_to_feohledger.py:125-162 | a name or row without the old prefix is unchanged, and the control database stands under its new name |
| `Rename.StepKeepsGoal` | backend/scripts/rename_databases_to_feohledger.py:104-122 | each step leaves the end state where it was and makes no conflict |
| `Rename.DatabasesKept` | backend/scripts/rename_databases_to_feohledger.py:213-235 | every database keeps its identity under its new name, and a name with neither the old prefix nor the old control name is untouched |
| `Rename.RowsStillPoint` | backend/scripts/rename_databases_to_feohledger.py:125-162 | a row that named a database names the same one afterwards, exactly unless it named the old control database |
| `Rename.ControlRowGoesStale` | backend/scripts/rename_databases_to_feohledger.py:73-76 | an organization row naming the old control database names nothing after a full run under the shipped names |
| `Rename.DryRunPredicts` | backend/scripts/rename_databases_to_feohledger.py:104-114 | a dry run counts as many conflicts as the real run, and none exactly when no name a rename would produce is taken |
| `Rename.ConflictsAreCounted` | backend/scripts/rename_databases_to_feohledger.py:219-236 | a dry run's count is the number of tenants whose new name is taken, and one more if both control names exist |
| `Rename.ConflictsAreLeft` | backend/scripts/rename_databases_to_feohledger.py:104-108 | where both of a tenant's names exist, or both control names, every run leaves both databases as they were, wherever it stops |
| `Rename.NothingIsLost` | backend/scripts/rename_databases_to_feohledger.py:97-122 | whatever the names and whatever is in the way, no run loses a database or makes one, wherever it stops |
| `Rename.SwappedInjective` | backend/scripts/rename_databases_to_feohledger.py:219-221 | different tenants get different new names |
| `Rename.Migration.RenameDatabase` | backend/scripts/rename_databases_to_feohledger.py:97-122 | renames exactly when the old name exists and the new does not, and reports which case it was |
| `Rename.Migration.RewriteOrgDbNames` | backend/scripts/rename_databases_to_feohledger.py:125-165 | swaps the leading prefix of exactly the rows that carry it |
| `Rename.Migration.RenameTenants` | backend/scripts/rename_databases_to_feohledger.py:219-223 | stopped anywhere the loop has renamed exactly its first tenants and counted exactly their conflicts |
| `Rename.Migration.Run` | backend/scripts/rename_databases_to_feohledger.py:203-261 | stopped anywhere it has done exactly its first steps, counted exactly their conflicts, and a dry run changed nothing |
| `Scatter.ScatterPermutes` | backend/scripts/seed_automation.py:229-234 | the walk visits each of 0 .. count - 1 exactly once whenever some listed stride is coprime to the count, and there is no stride exactly otherwise |
| `Scatter.PositionInjective` | backend/scripts/seed_automation.py:229-234 | two invoices share a position only if they are the same invoice |
| `Scatter.StrideIsFirst` | backend/scripts/seed_automation.py:233 | the stride is the first of 7, 5, 3, 11 and 13 that does not divide the count, and missing only when all five do |
| `Scatter.WalkStrides` | backend/scripts/seed_automation.py:234 | the first invoice stands at position 0 and each next one a stride further round |
| `Scatter.DividesGcd` | backend/scripts/seed_automation.py:233 | what divides both multiples of a number divides that number times their greatest common divisor |
| `Scatter.AmountInRange` | backend/scripts/seed_automation.py:237-238 | every rounded amount lies between the plan's bounds |
| `Scatter.RoundsHalfEven` | backend/scripts/seed_automation.py:122-123 | rounding is to the nearest cent, and to the even one of two as near |
| `Scatter.AmountsFollowPositions` | backend/scripts/seed_automation.py:237-238 | the first position gets the low bound, the last the high one, and a later position never less |
| `Scatter.AmountsDistinctExactly` | backend/scripts/seed_automation.py:237-238 | half-even rounded amounts are pairwise distinct exactly when the range has at least count - 1 cents |
| `Scatter.HalfCentMeets` | backend/scripts/seed_automation.py:237-238 | three invoices over one cent get two equal amounts |
| `SmallPlans.SizePlan` | backend/scripts/seed_automation.py:213-226 | the loop's count ends on the twelfth auto-approval; it gives up exactly when ten times the planned count holds fewer |
| `SmallPlans.CorrectionsReviewed` | backend/scripts/seed_automation.py:204-208 | corrections fall only on reviewed invoices, one for each four from the second on, and any vendor with two has one |
| `SmallPlans.SizeIsUnique` | backend/scripts/seed_automation.py:216-225 | no other count ends on the same auto-approval |
| `SeedWriter.SeededChain` | backend/scripts/seed_automation.py:281-284 | every seeded invoice's status rows chain from `new` to its status, in time order |
| `SeedWriter.PaymentsFitStatus` | backend/scripts/seed_automation.py:310-359 | after `pay` the invoice is approved, scheduled, paid or done, with exactly the one completed or submitted payment its status asks for and every other payment voided |
| `SeedWriter.VoidShows` | backend/scripts/seed_automation.py:311-342 | a seeded invoice has payments exactly when payment is due; the first of them is voided exactly when a void is asked, and no other ever; a void that is due leaves one row returning it to approved, and without one there is none |
| `SeedWriter.PayLeaves` | backend/scripts/seed_automation.py:310-342 | for every approval time, cutoff and void, the status and payments `pay` leaves, with the time of each |
| `SeedWriter.RowsTally` | backend/scripts/seed_automation.py:547-620 | how many rows of each kind every seeded invoice gets |
| `SeedWriter.EachRowWaits` | backend/scripts/seed_automation.py:547-620 | the rows begin with the upload at the creation, and each later one is written its own pause after the one before |
| `SeedWriter.SeededInPlace` | backend/scripts/seed_automation.py:547-620 | every status row is written in the one status its step is taken from |
| `SeedWriter.PayStopsInTime` | backend/scripts/seed_automation.py:311-342 | `pay` stops at the last step that has already happened, and writes nothing past the cutoff, exactly when a void does not lie ahead of it |
| `SeedWriter.VoidPastCutoff` | backend/scripts/seed_automation.py:316-331 | a void scheduled at the cutoff is written a day past it |
| `SeedWriter.ShippedVoidsArePast` | backend/scripts/seed_automation.py:166-244 | no voided invoice of the shipped plans, Legal Partners' sixth or any Catering one approved without review, has its void ahead of the cutoff, whatever the clock |
| `SeedWriter.AgoSpans` | backend/scripts/seed_automation.py:241-244 | a plan's invoices run from its first day to its last, none before the one preceding it |
| `SeedWriter.CreatedInHours` | backend/scripts/seed_automation.py:500-502 | an invoice is created on the day its place gives, between nine and four |
| `SeedWriter.WaitInHours` | backend/scripts/seed_automation.py:599-602 | the wait for a decision lies between the plan's hours |
| `SeedWriter.ReplayChains` | backend/scripts/seed_automation.py:281-284 | whatever moves are written, the status rows stay a chain ending in the status |
| `SeedWriter.ReplayConsistent` | backend/scripts/seed_automation.py:324-342 | payments fit the status after every step of a lawful history |
| `SeedWriter.Writer.Pay` | backend/scripts/seed_automation.py:310-342 | writes exactly the steps specified, and counts the rows and payments it writes |
| `SeedWriter.Writer.MoveTo` | backend/scripts/seed_automation.py:281-284 | one row from the old status to the new, and the new status |
| `SeedWriter.Writer.Schedule` | backend/scripts/seed_automation.py:344-360 | one submitted payment and its move |
| `SeedWriter.Writer.Close` | backend/scripts/seed_automation.py:324-339 | the last payment's status, and the move that goes with it |
| `SeedWriter.Writer.Take` | backend/scripts/seed_automation.py:547-608 | everything written up to approval, and the approval's time |
| `SeedWriter.Writer.SeedOne` | backend/scripts/seed_automation.py:503-620 | one new invoice with its whole history, a voided payment exactly when a void is asked and due, and the counters it moves |
| `SeedWriter.Writer.Seed` | backend/scripts/seed_automation.py:496-620 | each invoice has its own whole history; it holds a voided payment exactly when payment is due and the plan names it, if reviewed, or it is the first auto-approved Catering one; and the counters add up to what was written |
| `MessageKeys.KeyRecovered` | backend/scripts/gen_invoice_warning_messages.py:113-137 | over all snake-case names in the three families, the decoder gives the code back from its web key exactly when a letter follows every underscore |
| `MessageKeys.MethodRecovered` | backend/scripts/gen_invoice_warning_messages.py:237-247 | the decoder gives the code back from its ARB method exactly when, besides, the name starts with a letter or digit |
| `MessageKeys.KeyClass` | backend/scripts/gen_invoice_warning_messages.py:113-137 | every web key belongs to exactly one code in which a letter follows every underscore, and any other code with that key collides with it, on the ARB method too |
| `MessageKeys.MethodClass` | backend/scripts/gen_invoice_warning_messages.py:237-247 | every ARB method belongs to exactly one such code whose name also starts with a letter or digit, and any code not of that form collides with it |
| `MessageKeys.KeysDistinct` | backend/scripts/gen_invoice_warning_messages.py:126-137 | two such codes never share a web key or an ARB method |
| `MessageKeys.DigitsCollide` | backend/scripts/gen_invoice_warning_messages.py:121-123 | for instance two codes that differ by an underscore before a digit share both |
| `MessageKeys.KeyAndMethodAgree` | backend/scripts/gen_invoice_warning_messages.py:241-243 | two codes agree on the web key exactly when they agree on the ARB method |
| `MessageKeys.CamelBack` | backend/scripts/gen_invoice_warning_messages.py:121-123 | camel case is undone exactly when a letter follows every underscore |
| `MessageKeys.DocumentedSpellings` | backend/scripts/gen_invoice_warning_messages.py:113-137 | for every name of two words, the web key and ARB method in each of the three families, letter by letter |
| `PngWalk.PngAnswered` | assets/check_icons.py:60-78 | for every chunk stream, whatever its payloads hold, the answer is the IHDR's width, height and colour type, and tRNS exactly when such a chunk comes before the first IEND |
| `PngWalk.WalkEncoded` | assets/check_icons.py:68-77 | the walk depends on the chunk types alone, never on bytes inside a chunk or after IEND |
| `PngWalk.CutShort` | assets/check_icons.py:62-67 | a PNG cut before its eighth byte is no PNG, before its 26th is refused, and from there on answered with its header |
| `PngWalk.BytesAreSpelled` | assets/check_icons.py:60-77 | chunk types are their four letters, and numbers are written most significant byte first |
| `PngWalk.PngInfo` | assets/check_icons.py:60-78 | the loop terminates with the specified answer on every byte string, the short and foreign ones included |
| `Ledger.RunConserves` | tools/fake-erp/qbo_records.py:59-96 | so at the end of such a run no bill has lost money |
| `Ledger.RunConservesExactly` | tools/fake-erp/qbo_records.py:46-96 | over every run of bills, payments and voids, balance and payment totals make up each bill's total at every moment exactly when each void is given its payment's bill or its payment is empty |
| `Ledger.VoidConservesExactly` | tools/fake-erp/qbo_records.py:86-96 | a void keeps the books exactly when it is given its payment's bill or the payment has no money left |
| `Ledger.VoidWithoutBillLoses` | tools/fake-erp/qbo_records.py:86-96 | a paid bill whose payment is voided without it ends with its balance short |
| `Ledger.VoidTwice` | tools/fake-erp/qbo_records.py:86-96 | a second void of a payment, at any later time and given any bill or none, moves no money |
| `Ledger.TokensCount` | tools/fake-erp/qbo_records.py:79-91 | a bill's SyncToken is the number of its mutations |
| `Ledger.RunLists` | tools/fake-erp/qbo_records.py:77-78 | after every run LinkedTxn lists every payment made on the bill, in order, and a payment's total is its amount until its first void and zero after |
| `Ledger.BalanceIsWhatIsOpen` | tools/fake-erp/qbo_records.py:46-96 | from empty books, the balance is the total less the amounts of the payments not voided |
| `Ledger.TotalIsSum` | tools/fake-erp/qbo_records.py:41-52 | a bill's total is the sum of its lines, an absent amount being nothing |
| `Ledger.LinksByPayType` | tools/fake-erp/qbo_records.py:77-78 | a payment is linked as a card payment exactly when it was paid by card |
| `Ledger.NotesTellVoids` | tools/fake-erp/qbo_records.py:86-91 | over every run a payment keeps its line, and its note gains one mark and its token one count for each void |
| `Ledger.StampIsLastChange` | tools/fake-erp/qbo_records.py:79-96 | over every run a bill's stamp is the time of its last change |
| `Ledger.Bill.ApplyPayment` | tools/fake-erp/qbo_records.py:59-83 | the bill and the returned payment are those specified |
| `Ledger.Payment.VoidPayment` | tools/fake-erp/qbo_records.py:86-96 | the payment, and the bill if one is given, are those specified |
| `Ledger.Bill.constructor` | tools/fake-erp/qbo_records.py:46-52 | a new bill is open for the sum of its lines, with token zero and no links |
| `Engines.ScopeRestores` | backend/app/database.py:146-157 | whatever runs in a scope, raising included, at its exit both bindings are as before it and it disposes, in order, exactly the engines it added to the pool it was given |
| `Engines.ScopeBalances` | backend/app/database.py:137-157 | every engine made under a scope has at its exit been disposed by a scope exactly once, none earlier than its own scope's exit, and no engine that existed before is disposed by a scope |
| `Engines.RunKeeps` | backend/app/database.py:130-157 | over every nested run the bindings hold, pools only grow by new names, and made and disposed engines balance |
| `Engines.CachedSurviveScopes` | backend/app/database.py:137-157 | no scope disposes an engine of the module's cache |
| `Engines.LookupStable` | backend/app/database.py:203-212 | in a scope a name means one engine, whatever runs in between |
| `Engines.CachedLookupStable` | backend/app/database.py:214-221 | outside scopes a name means one engine too: the first lookup leaves it in the cache, and until something forgets that name or disposes everything, at whatever depth, another returns it and changes nothing |
| `Engines.ForgottenIsMadeAnew` | backend/app/database.py:214-240 | after a name is forgotten, or everything disposed, its next lookup makes an engine that did not exist; forgetting leaves every other name as it was |
| `Engines.LookupFits` | backend/app/database.py:203-221 | a lookup's engine is for the name asked, and one it makes has one connection inside a scope and a full pool outside |
| `Engines.ModuleBalances` | backend/app/database.py:194-240 | from the module's start, over every nested run, each engine made outside scopes is in the cache still or has been disposed by forgetting or disposing everything, exactly once either way |
| `Engines.DisposeAllBalances` | backend/app/database.py:236-240 | disposing everything disposes the control engine and exactly the cached ones, in order |
| `Engines.RunRaises` | backend/app/database.py:137-157 | a run ends well exactly when nothing in it raises at any depth, and what follows it runs exactly then |
| `Engines.ScopedLookupsSpareCache` | backend/app/database.py:197-212 | lookups in scopes never touch the module's cache |
| `Engines.Database.GetTenantEngine` | backend/app/database.py:194-221 | returns the ambient pool's or the cache's engine, creating it there if absent |
| `Engines.Database.ForgetTenantEngine` | backend/app/database.py:224-233 | pops and disposes the cached engine, if any |
| `Engines.Database.DisposeAllEngines` | backend/app/database.py:236-240 | disposes the control engine and every cached one, and empties the cache |
| `Engines.Database.DispatchEngineScope` | backend/app/database.py:130-157 | binds a new shared pool, runs the body, restores both variables and disposes the pool's own engines |

## Left out

- Sessions: all commands of one sequential call see one clock reading. With time between the two EXPIREs the hash
  could outlive the set by that much.
- Sessions: concurrent interleavings of the metadata hash and of revoke-all; key expiry and EXPIRE in the concurrent
  model beyond the removals it allows at any moment; lifetimes that are not positive, which SETEX refuses.
- `track_session` returns members as stored; bytes decoding, `get_active_sessions` and the other readers are not
  modelled.
- JSON: floats, NaN, infinities and lone surrogates.
- Grants: the reset hook, so runs begin at the fresh state with the clock at zero; the redirect URL; HTTP routes.
- Query: the text of faults, digits and case folding outside ASCII, and the deep copy of the answered rows.
- TenantUrl: reading the URL from the environment.
- Rename: name validation (`_assert_safe_db_name` is not part of this model), terminating connections, and the
  printed report beyond the conflict count.
- Scatter: bounds that are not whole cents, and the precision of Decimal division before rounding.
- SeedWriter: the float rounding of days and shares, which the model floors to the microsecond; amounts, texts,
  signatures, dates beside the row times, the workflow instance, and which experiment an
  invoice falls in: these come in as facts. The payment last scheduled is the last of the invoice's payments, where
  the source keeps a reference to it.
- MessageKeys: names with characters outside lower-case ASCII letters, digits and underscores in the theorems, and
  the generated TypeScript and Dart around the keys.
- PngWalk: reading the file, CRC values, and the icon checks built on the answer.
- Ledger: floats, `VendorRef`, the transaction date and the CDC envelope.
- Engines: concurrency between tasks and threads, sessions, and disposals that raise.
- Address faking, note scrubbing, configuration validators, routers, migrations, demo data and cryptography: pattern
  tables, single branches, text or foreign code.
