# Public catalog: a Dafny model of the plugin's core

The plugin serves a public, read-only view of a media library. This project models the parts of it whose correctness
cannot be read off one function body, and proves what they keep:

- **Throttling** (`RequestLimiter`, `LoginLimiter`, `LoginProtocol`, `CatalogLogin`, `Password`). The per-IP request
  window, the failure count with lockout and the bcrypt semaphore, as objects updated in place and as a step system in
  which any number of login attempts interleave.
- **Scope floor** (`LibraryScope`, `MediaTypes`). Token claim, request and operator allowlist on their way through the
  string and integer normalisers to the library filter of every query, where an empty list means "no filter".
- **Cursors** (`Base64Url`, `PageToken`, `Walk`). Offset cursors printed in decimal, wrapped in unpadded base64url
  (section 5 of RFC 4648, without padding as in its section 3.2) and a MAC, checked, depth-capped, parsed and followed
  to the end of a result list.
- **Cache** (`CacheKey`, `CatalogCache`, `CatalogMedia`, `CatalogFilters`, `CatalogHandler`, `CacheAgreement`,
  `StoreAgreement`). The TTL cache with its size caps and string keys, the queries behind it and the handlers in front
  of it, over every interleaving of requests with changes of the tables and of the allowlist.
- **Configuration** (`AppConfig`, `ConfigRuns`, `ConfigInterleaving`, `ConfigSerial`). One stored row under Bootstrap,
  PATCH, HTML save, password clear and rehash; first one at a time, then with fetch, floor install and write of the
  operations and of plain reads interleaved: when the floor stays in step, and when no edit is lost.
- **Smaller loops** (`CatalogStats`, `FormatCount`, `Overlay`, and the decades in `CatalogFilters`).

`Text` holds Go's string helpers (TrimSpace, Atoi, Itoa, Split, Join, sort.Strings) with the facts the rest needs.

Code that updates state in place is a class or a method with loops, proved against a function of the old state; what the
code promises is then proved about that function, over whole runs. A run is a list of events folded through the step
function, so every theorem about runs is one induction with one invariant.

What an operation computes is also stated apart from the function that specifies it, for every input, in the lemmas whose
names end in `Exactly` or `Exact`: which requests are accepted and what they become, which rows a page shows and in what
order, who gets a session, what each configuration operation stores. Where a list is picked from another, order and
multiplicity are part of the statement (`Text.Chosen`).

## Assumptions

- Times are integers. The limiters read the clock just before they take their mutex; the model assumes that the readings
  are nondecreasing in lock order. The cache reads it under the lock.
- A Go string is its sequence of characters; lengths that Go counts in bytes use the UTF-8 length (`Text.ByteLen`).
  Inner cursors, which pass through base64, are byte strings.
- HMAC, bcrypt, JSON, URL and listen-address syntax and the HTML sanitiser are uninterpreted functions. Where a theorem
  needs more it says so: bcrypt hashes start with `$2` and verify their own password (`Password.Lawful`), JSON reads back
  what it wrote (`PageToken.Lossless`). The MAC has 32-byte results (section 2 of RFC 2104 over SHA-256) and nothing
  else; results that depend on two secrets are stated up to a collision of the MAC.
- The tables are a fixed ordered listing per sort column, a row-to-library relation and an uninterpreted match predicate;
  LIMIT, OFFSET and the window count are modelled.
- A query of the store is one step: the read of the floor (`internal/store/catalog_media.go:13`), the SQL after it
  (`:47`) and the two queries of the filter dictionary see the same moment. With a change between them the answer belongs
  to no single moment; dating the question at the read of the floor, `CacheAgreement.HitIsCurrent` still holds.

## Where the code does less than its comments say

- A token's library claim bounds every request exactly when each of its non-blank entries is a positive integer. An entry
  that is none can be requested alone; the store then drops it and answers from the whole allowlist
  (`LibraryScope.ClaimBoundsExactly`).
- Cache keys join list entries with commas and fields with NUL without excluding either from the input. Whatever else is
  asked with types free of commas, as validation leaves them, every hit of a NUL-free query agrees with the store exactly
  when every list with the key of its libraries names the same ones (`StoreAgreement.StoreHitsAgreeExactly`); for a query
  that names a library that is: exactly when its list has one entry (`StoreAgreement.NamedQueriesAgreeExactly`). The
  catalog page fills the same cache with the types of its token, which minting only trims
  (`internal/server/handlers_landing.go:61-96`, `internal/server/handlers_admin_api.go:42`). With asks of any such types
  about, a query must also own the key of its types; a validated one does exactly when it names at most one
  (`StoreAgreement.PageCollides` has the colliding requests). Over any store that merely answers equivalent queries alike
  the libraries must own their key, too: none, or one that does not also read as two
  (`CacheAgreement.MediaHitsAgreeExactly`). Filters are the same. Queries that name several libraries need all queries of
  the run to be free of commas and NULs (`CacheAgreement.MediaHitAgrees`). After a request for the single library id
  `1,2`, a token limited to libraries 1 and 2 is served what the first request was, the whole allowlist
  (`CacheAgreement.CollisionEscapesClaim`, `CacheAgreement.CommaCollides`).
- The comment in `internal/store/config.go:43-45` has catalog queries never lag behind an allowlist edit. Cached pages do,
  by up to one time-to-live plus the time a handler takes from asking the store to storing the answer, which the code
  does not bound: later hits are current (`CacheAgreement.HitIsCurrent`, `CacheAgreement.AllowlistEditBinds`), and that
  much is attained (`CacheAgreement.AllowlistEditLags`).
- GetConfig fetches the row and installs its allowlist as the floor in two steps with no lock around them
  (`internal/store/config.go:22` and `:46`), and every page view may call it. So two PATCHes, or a PATCH and a page view,
  can leave the floor on an allowlist that is no longer stored (`ConfigInterleaving.PatchesRace`,
  `ConfigInterleaving.LookRaces`). A run ends in step exactly when the allowlist in the row is still the one at the fetch
  whose install came last (`ConfigInterleaving.EndsInStepExactly`); with page views about, every run of a set of
  operations does exactly when none of them would change the allowlist (`ConfigInterleaving.AlwaysInStepExactly`). The
  floor is not reloaded by UpdateConfig, as the comment at `internal/store/store.go:44-47` has it, but by the next read.
- Between its read and its write of the row an operation holds no lock, and it writes back all it read. Every run of a set
  of operations leaves the row that the same operations leave one at a time, in the order of their writes, exactly when
  none of them writes anything else for having read after another's write (`ConfigSerial.NothingLostExactly`). So an HTML
  save that overlaps a PATCH undoes it (`ConfigInterleaving.HTMLSaveUndoesPatch`), and a PATCH that leaves the token
  secret out puts back the one that another PATCH replaces meanwhile (`ConfigSerial.PatchUndoesRotation`); what a PATCH
  writes depends on the stored secret and hash if it leaves them out, and on nothing else but the listener, which no
  operation changes (`ConfigSerial.PatchReads`).
- The depth cap parses a cursor with Atoi, the store with Sscanf. Where the cap sees an offset the store reads the same
  one (`PageToken.CapReadsWhatStoreReads`), but the cap misses exactly the deep offsets with a blank before the number or
  anything after its digits (`PageToken.CapMissesExactly`). The store path signs no such cursor
  (`CatalogHandler.ServedTokens`); the host path, which signs the cursor of the host or of a companion plugin as it comes
  (`internal/server/handlers_catalog.go:163-170`), is not part of this model.
- The update of the configuration is called a PATCH but replaces every field the request leaves out, except the token
  secret and the password hash: the stored row is the normalised request completed with those two
  (`ConfigRuns.PatchReplaces`), so a request without an allowlist empties it (`ConfigRuns.PatchTakesEffect`).
- The comment on the login limiter speaks of a sliding count and an escalating lockout; the count is reset by each lockout
  and every lockout is equally long. Its sweep does forget old failures: the limiter answers every sequence of calls as one
  that never sweeps exactly when the threshold is at most one failure or the lockout has no length
  (`LoginLimiter.SweepUnobservableExactly`, with `LoginLimiter.SweepForgets` for the rest). What holds in every run is the
  interval bound.

## Model

| member | source | states |
|---|---|---|
| RequestLimiter.IpRateLimiter.constructor | internal/server/ratelimit.go:57-64 | starts with no bucket and counts as swept now |
| RequestLimiter.IpRateLimiter.Allow | internal/server/ratelimit.go:68-86 | answers and moves the buckets as one step of the run model: sweep, then open, refuse or count |
| RequestLimiter.IpRateLimiter.Sweep | internal/server/ratelimit.go:90-100 | at most once per window, keeps exactly the buckets that have not expired |
| RequestLimiter.WindowBound | internal/server/ratelimit.go:68-100 | in every run, whatever other clients do, no half-open interval of one window admits more than 2*limit-1 requests of an IP |
| RequestLimiter.WindowBoundAttained | internal/server/ratelimit.go:68-100 | some run attains that bound |
| RequestLimiter.EpochBound | internal/server/ratelimit.go:76-85 | a stored counter is exactly the number of requests admitted since its bucket opened, and at most the limit |
| RequestLimiter.RefusedOnlyWhenFull | internal/server/ratelimit.go:81-83 | a refusal means a full bucket of that IP was admitted less than one window ago |
| RequestLimiter.SweepUnobservable | internal/server/ratelimit.go:90-100 | on every call sequence the limiter answers as one that never deletes a bucket |
| RequestLimiter.RetentionBound | internal/server/ratelimit.go:90-100 | after every call each bucket is younger than two windows, so there are no more buckets than IPs seen in that time |
| LoginLimiter.LoginLimiter.constructor | internal/server/ratelimit.go:133-140 | starts with no record |
| LoginLimiter.LoginLimiter.Allow | internal/server/ratelimit.go:144-160 | refuses exactly the locked-out, and the reported delay ends exactly when the lockout does |
| LoginLimiter.LoginLimiter.RecordFailure | internal/server/ratelimit.go:164-184 | counts the failure, or arms a lockout and resets the count at the threshold |
| LoginLimiter.LoginLimiter.RecordSuccess | internal/server/ratelimit.go:187-194 | forgets the IP and leaves every other record as it is |
| LoginLimiter.LoginLimiter.Sweep | internal/server/ratelimit.go:196-206 | keeps exactly the records that are locked or were seen within one lockout |
| LoginLimiter.SweepForgets | internal/server/ratelimit.go:196-206 | one failure short of the threshold, a pause and one more failure lock an IP out unless a sweep came between |
| LoginLimiter.SweepForgetsExactly | internal/server/ratelimit.go:196-206 | whether that failure locks the IP out is decided by the sweep: it does unless the last sweep was at least, and the last failure more than, a lockout ago |
| LoginLimiter.SweepUnobservableExactly | internal/server/ratelimit.go:142-206 | on every sequence of calls the limiter answers as one that never sweeps, remaining delays included, if and only if the threshold is at most one or the lockout has no length |
| LoginProtocol.LockoutBound | internal/server/ratelimit.go:144-206 | in every interleaved run an interval shorter than the lockout without a success of an IP holds fewer than maxFailures + P of its failures, P its attempts in flight at once |
| LoginProtocol.LockoutBoundAttained | internal/server/ratelimit.go:164-184 | some run records one fewer than that |
| LoginProtocol.LockoutJustified | internal/server/ratelimit.go:178-183 | a lockout in force was there at the start or was armed, one lockout before its end, by a failure that brought the count to the threshold |
| LoginProtocol.NoLockoutWithoutFailures | internal/server/ratelimit.go:142-160 | from a fresh limiter, an IP that is refused has failed at least maxFailures times, once within the last lockout |
| LoginProtocol.LockoutSinceSuccess | internal/server/ratelimit.go:144-194 | in every interleaved run from a fresh limiter an IP that is refused has failed at least maxFailures times since its last success |
| LoginProtocol.SuccessForgets | internal/server/ratelimit.go:187-194 | recording a success leaves the IP without a record and all others with theirs |
| LoginProtocol.SuccessUnlocks | internal/server/ratelimit.go:144-194 | from any state: after a success the IP is let in, and stays so until it has failed maxFailures times anew |
| LoginProtocol.SemaphoreSafe | internal/server/ratelimit.go:212-245 | in every interleaving occupied slots equal the attempts verifying, never exceed the capacity, and are all free when none verifies |
| CatalogLogin.BcryptSemaphore.constructor | internal/server/ratelimit.go:216-221 | at least one slot, all free |
| CatalogLogin.BcryptSemaphore.Acquire | internal/server/ratelimit.go:225-235 | takes one free slot, or none and only when cancelled |
| CatalogLogin.BcryptSemaphore.Release | internal/server/ratelimit.go:237-245 | gives one slot back if any is taken |
| CatalogLogin.Decide | internal/server/handlers_auth.go:19-94 | the reply is decided by lockout, body, configuration, cancellation and password in that order; every path gives its slot back, and the configuration is read, with the floor reloaded, exactly when lockout and body let it come to that |
| CatalogLogin.Login | internal/server/handlers_auth.go:19-94 | the same call moves limiter and semaphore as the steps of the protocol |
| CatalogLogin.LoginExactly | internal/server/handlers_auth.go:47-88 | an IP that is not locked out gets a session exactly when the stored configuration requires no password or has the one supplied as its hash or plaintext; then its record is cleared if a password was required, otherwise one failure of it is recorded, and nothing else changes |
| CatalogLogin.LoginRefused | internal/server/handlers_auth.go:19-45 | exactly who is told to wait, and for how long, and which bodies and configurations are errors; none of them, nor a client that left, changes a record |
| CatalogLogin.RightPassword | internal/server/handlers_auth.go:66-74 | the password a stored hash was made from gets in |
| CatalogLogin.Protected | internal/server/handlers_auth.go:47-88 | while a hash protects the catalog exactly the hashed password gets in, and what bcrypt takes for it |
| CatalogLogin.PatchedPassword | internal/server/handlers_admin_api.go:188-233 | so does, through a login, the password a PATCH has set, and no other |
| CatalogLogin.BootedPassword | internal/store/config.go:114-126 | so does the password of the manifest after the first start |
| CatalogLogin.ClearedPassword | internal/store/config.go:164-175 | after a clear every password gets a session and nothing is recorded |
| Password.LegacyUpgrade | internal/store/password.go:42-60 | once the plaintext a login matched is replaced by its hash, the same password still logs in and no login takes the legacy path again |
| Password.HashVerifies | internal/store/password.go:31-60 | a stored hash accepts the password it was made from, whatever plaintext lies beside it |
| Text.TrimSpaceExact | internal/server/validation.go:38-47 | trimming removes the surrounding white space and nothing else |
| Text.ComputeCleanList | internal/server/validation.go:38-47 | trims every entry and drops the blank ones, in order |
| Text.CleanListExact | internal/server/validation.go:38-47 | what is kept is every entry that is not blank, trimmed, in order and as often as it occurs |
| LibraryScope.ComputeCleanIDs | internal/store/store.go:115-131 | the loop yields the positive ids, each once, in first-seen order |
| LibraryScope.CleanIDsMembers | internal/store/store.go:115-131 | those are distinct positive 64-bit numbers, and exactly the ones some entry names |
| LibraryScope.ParsedExact | internal/store/store.go:115-131 | the ids read are those of all entries that name one, in order |
| LibraryScope.DedupExact | internal/store/store.go:115-131 | of them exactly the first occurrences stay |
| LibraryScope.ComputeNormalizeLibraryIDs | internal/runtime/runtime.go:127-153 | the loop yields the canonical texts, each once |
| LibraryScope.NormalizeAgrees | internal/runtime/runtime.go:127-153 | normalising first makes no difference to the floor, and normalising twice none to the text |
| LibraryScope.PublicFloor.SetPublicLibraryIDs | internal/store/store.go:48-53 | the floor becomes the cleaned list |
| LibraryScope.PublicFloor.AllowedLibraryIDs | internal/store/store.go:85-113 | deny-all, the allowlist, or the requested part of it |
| LibraryScope.PublicFloor.ScopePublicLibraryIDs | internal/store/store.go:61-71 | the same scope as texts |
| LibraryScope.ComputeMergeLibraryIDs | internal/server/validation.go:81-101 | claim and request intersect, an empty one sets no bound, an empty intersection of two non-empty ones is refused |
| LibraryScope.MergeExactly | internal/server/validation.go:81-101 | an empty side sets no bound; otherwise the result is what request and claim share, in the order of the request and as often as it has it, and it is refused if and only if they share nothing |
| LibraryScope.MergeMembers | internal/server/validation.go:81-101 | the merged list stays inside claim and request and is non-empty under a claim |
| LibraryScope.AllowedMembers | internal/store/store.go:73-113 | exactly when everything is denied, and exactly which ids are allowed otherwise; never none |
| LibraryScope.AllowedExactly | internal/store/store.go:85-113 | the allowlist itself, or the part of it the request names, in the order of the request |
| LibraryScope.FloorHolds | internal/store/catalog_media.go:59 | for every allowlist, claim and request the "empty means no filter" branch is never taken, and a row passes exactly when one of its libraries is allowlisted and is the number of an entry both sides ask for, unless no such entry is a number |
| LibraryScope.ScopeIdempotent | internal/store/store.go:61-71 | scoping a scoped list changes nothing |
| LibraryScope.ClaimBoundsExactly | internal/server/validation.go:81-101 | a claim bounds every request under every allowlist if and only if all its cleaned entries are positive integers |
| LibraryScope.UnparsedEntryEscapes | internal/server/validation.go:81-101 | an entry that is no integer, requested alone, reaches a library outside the claim |
| MediaTypes.ComputeCleanMediaTypes | internal/server/validation.go:103-122 | one canonical word per accepted spelling; any other entry refuses the request |
| MediaTypes.CanonicalExactly | internal/server/validation.go:106-119 | exactly the spellings, in whatever case, of the five words, and of "series" for "tv", are accepted |
| MediaTypes.AllCanonicalExactly | internal/server/validation.go:103-122 | a list is accepted exactly when every entry is, entry by entry |
| MediaTypes.DirectExactly | internal/server/validation.go:127-140 | the store serves exactly the validated types that name no book |
| MediaTypes.ComputeMergeMediaTypes | internal/server/validation.go:53-79 | claim and request intersect as for libraries |
| MediaTypes.MergeTypesExactly | internal/server/validation.go:53-79 | refused exactly for an unknown word or when both sides name types and share none; otherwise what they share, in the order and number of the request |
| MediaTypes.MergedTypes | internal/server/validation.go:49-79 | the merged types are canonical and inside both sides that name any |
| MediaTypes.ComputeStoreTypes | internal/server/validation.go:147-158 | "tv" becomes the store's "series", blanks go, order stays |
| MediaTypes.StoreTypesExact | internal/server/validation.go:147-158 | every entry but the blank ones, in order, "tv" as "series" |
| Base64Url.DecodeEncode | internal/server/pagetoken.go:38-41 | decoding undoes encoding for every byte string |
| Base64Url.EncodePlain | internal/server/pagetoken.go:55-58 | an encoding has no dot and no white space, so the split of a token gives two parts |
| Base64Url.LetterExactly | internal/server/pagetoken.go:38-41 | the alphabet of RFC 4648, section 5 |
| Base64Url.EncodeExactly | internal/server/pagetoken.go:38-41 | three bytes are the same 24 bits as their four letters; one or two left over are filled up with zero bits |
| Base64Url.EncodeDecode | internal/server/pagetoken.go:62-66 | exactly which accepted texts are the encoding of what they decode to |
| Base64Url.PackExactly | internal/server/pagetoken.go:62-66 | every number of letters decodes but one more than a multiple of four, to the bytes of the letters without the bits that carry no data |
| Base64Url.ReadableExactly | internal/server/pagetoken.go:62-66 | a text is readable exactly when it holds letters of the alphabet and line breaks only |
| Base64Url.BreaksSkipped | internal/server/pagetoken.go:62-66 | a line break anywhere makes no difference |
| PageToken.OpenExactly | internal/server/pagetoken.go:55-69 | exactly the tokens whose second part decodes to the MAC of the first are opened, to what the first decodes to |
| PageToken.OpenSeal | internal/server/pagetoken.go:34-69 | what one secret seals another opens exactly when the MACs agree |
| PageToken.VerifySigned | internal/server/pagetoken.go:50-75 | every cursor survives signing and verifying under its secret unless it is an offset past the cap |
| PageToken.VerifyExactly | internal/server/pagetoken.go:50-75 | exactly which request tokens yield which cursor |
| PageToken.CursorRoundTrip | internal/server/pagetoken.go:71-90 | a signed offset:n verifies to itself for n up to 50000 and is too deep above, and the store parses n back |
| PageToken.CapReadsWhatStoreReads | internal/store/catalog_media.go:24-27 | where the depth check reads an offset the store reads the same |
| PageToken.ParseExactly | internal/server/pagetoken.go:80-90 | the depth check sees an offset exactly in "offset:" followed by a number that is not negative |
| PageToken.BlankExactly | internal/store/catalog_media.go:24-27 | the scanner skips exactly the UTF-8 forms of white space other than the line feed |
| PageToken.CapMissesExactly | internal/server/pagetoken.go:80-90 | a cursor the store reads as an offset past the cap passes the depth check if and only if it has a blank before the number or anything after its digits |
| PageToken.CapMissesOtherCursors | internal/server/pagetoken.go:80-90 | for instance a number of any depth followed by anything that is no digit |
| PageToken.TokenRoundTrip | internal/server/token.go:23-62 | a session token returns its claims exactly while unexpired and, under another secret, exactly when the MACs collide |
| PageToken.VerifyTokenExactly | internal/server/token.go:35-62 | exactly which session tokens are accepted for which claims: signed, for the catalog, unexpired |
| CacheKey.ListKeyCanonical | internal/server/cache.go:236-240 | on comma-free entries list keys are equal exactly for permutations of the cleaned lists |
| CacheKey.KeyDeterminesExactly | internal/server/cache.go:236-240 | with commas allowed, exactly the empty list and a single entry that does not read as two sorted ones own their key |
| CacheKey.CommaCollision | internal/server/cache.go:236-240 | two different lists with one key |
| CacheKey.MediaKeyCanonical | internal/server/cache.go:216-230 | media keys are equal exactly for requests that agree up to list order and surrounding space |
| CacheKey.FiltersKeyCanonical | internal/server/cache.go:232-234 | filter keys likewise |
| CacheKey.MediaKeyExactly | internal/server/cache.go:216-230 | exactly which NUL-free requests own their key: among requests with comma-free types those whose libraries do, among all requests those whose types do as well |
| CacheKey.NulCollision | internal/server/cache.go:216-230 | a NUL in a library id and one in the sort order, neither of which reaches the database, give two different requests one key |
| CatalogCache.CatalogCache.constructor | internal/server/cache.go:94-100 | starts empty |
| CatalogCache.CatalogCache.GetMedia | internal/server/cache.go:102-116 | returns an entry up to and including its expiry, drops one found expired, touches nothing else |
| CatalogCache.CatalogCache.GetFilters | internal/server/cache.go:130-144 | the same on the filters map |
| CatalogCache.ReadExactly | internal/server/cache.go:102-116 | after a read the entry is live or gone, the reader got it exactly if it is live, and no other entry changed |
| CatalogCache.CatalogCache.SetMedia | internal/server/cache.go:118-128 | stores with expiry now plus TTL; over 256 entries both maps are pruned, otherwise the filters stay |
| CatalogCache.CatalogCache.SetFilters | internal/server/cache.go:146-156 | stores with expiry now plus TTL; over 128 entries both maps are pruned, otherwise the media stay |
| CatalogCache.CatalogCache.Prune | internal/server/cache.go:168-184 | drops what has expired, then evicts down to each cap |
| CatalogCache.DropExpired | internal/server/cache.go:170-179 | the loop keeps exactly the live entries |
| CatalogCache.EvictOldestOverCap | internal/server/cache.go:196-214 | keeps exactly cap entries when over, and drops none that outlives a survivor |
| CatalogCache.StoreKeepsBest | internal/server/cache.go:118-128 | after a set: within the cap; a live entry is lost only when no expired one is left, at most one, never one that outlives a survivor; the new entry only if all live ones tie |
| CatalogMedia.ComputeCatalogMedia | internal/store/catalog_media.go:12-93 | the page is the slice of the floored, filtered, ordered list at the clamped size and scanned offset, with the cursor of the next position if items remain |
| CatalogMedia.ReadRows | internal/store/catalog_media.go:77-85 | the row loop keeps every item in order and the count of the last row |
| CatalogMedia.ResultsExactly | internal/store/catalog_media.go:28-70 | the list a query pages through is made of exactly the rows it lists, each once, in the order of the listing by year, time of addition, rating or else title, in the direction asked for, each under the least library it may show |
| CatalogMedia.MediaPageExactly | internal/store/catalog_media.go:12-27 | which page: at the offset the cursor reads as, 48 items for a size below one, 100 at most; a negative offset fails unless nothing may be shown |
| CatalogMedia.PageExactly | internal/store/catalog_media.go:75-93 | the items from the offset on, each in its place, the length of the list unless the page is empty, and the next cursor exactly when items remain |
| CatalogMedia.FilterPasses | internal/store/catalog_media.go:57-64 | the selected rows are exactly the listed ones that pass |
| CatalogMedia.ShownInScope | internal/store/catalog_media.go:48-59 | every item shown comes from a listed row, under a library of that row that the scope names |
| CatalogMedia.PagesStayOnTheFloor | internal/store/catalog_media.go:59 | every item of every page lies in an allowlisted library |
| CatalogMedia.EquivalentAnswers | internal/store/catalog_media.go:12-93 | the store cannot tell equivalent queries apart |
| CatalogFilters.ComputeCatalogFilters | internal/store/catalog_filters.go:12-87 | genres and years come from the floored scope and the cleaned types |
| CatalogFilters.ReadYears | internal/store/catalog_filters.go:126-145 | the year loop keeps the positive years and one decade per new tens group |
| CatalogFilters.DictionaryExactly | internal/store/catalog_filters.go:12-87 | empty if the request may show nothing; otherwise the genres and positive years of the facets of the libraries it may show and the types it names, and a captioned decade for each of the tens that begin those years, in order of first appearance |
| CatalogFilters.DecadePartition | internal/store/catalog_filters.go:64-80 | every year lies in exactly one decade |
| CatalogFilters.YearOfDecade | internal/store/catalog_filters.go:71-79 | every decade spans the ten years from a multiple of ten and holds a year of the list |
| CatalogFilters.DecadesDescend | internal/store/catalog_filters.go:64-80 | decades come newest first and do not overlap when the years come newest first |
| CatalogFilters.EquivalentFilters | internal/store/catalog_filters.go:12-87 | equivalent requests get the same dictionary |
| CatalogHandler.AcceptedBounds | internal/server/handlers_catalog.go:43-73 | whatever was sent, an accepted query has clean ids, canonical types, a page size in 1..100, years in 0..9999 and no offset past the cap |
| CatalogHandler.ValidateExactly | internal/server/handlers_catalog.go:43-73 | the checks in order, the first that fails deciding the answer, and what every field of an accepted query is |
| CatalogHandler.ServedExactly | internal/server/handlers_catalog.go:75-105 | what an accepted request is served: nothing from the store if it asks for books, otherwise the page of its list at its cursor, with its size, total and signed next cursor |
| CatalogHandler.FiltersAnswerExactly | internal/server/handlers_catalog.go:195-208 | the dictionary served is that of the libraries the request may show and of the types it names, in the words of the store |
| CatalogHandler.AnswerEquivalent | internal/server/handlers_catalog.go:82-93 | the "tv" to "series" rewriting keeps equivalent queries equivalent to the store |
| CatalogHandler.ServedOnTheFloor | internal/server/handlers_catalog.go:35-105 | end to end, every item any request is served lies in the allowlist, and in the claim when its entries are all numbers |
| CatalogHandler.ServedTokens | internal/server/handlers_catalog.go:151-159 | every token served from the store is empty or a signed decimal offset inside the list, which the depth check reads as the store does |
| CatalogHandler.CacheInvisible | internal/server/handlers_catalog.go:75-105 | while the store does not change and keys are unambiguous the cached handler answers as the uncached one and the cache stays coherent |
| CatalogHandler.HCatalogMedia | internal/server/handlers_catalog.go:35-105 | refuses in the order type, library, cursor; then get, query, set and sign, with the whole new cache state |
| CatalogHandler.HCatalogFilters | internal/server/handlers_catalog.go:173-210 | the same for the filter dictionary |
| CacheAgreement.MediaStepIsRun | internal/server/handlers_catalog.go:75-105 | one media request, whatever it finds, extends a run of the cache model |
| CacheAgreement.StoreIsFair | internal/server/handlers_catalog.go:82-93 | at every moment the store answers equivalent queries alike |
| CacheAgreement.MediaHitsAgreeExactly | internal/server/cache.go:102-128 | over every store that answers equivalent queries alike and whatever else is asked, every hit of a NUL-free query is what the store answered to that query, stored at most one TTL before, if and only if its libraries own their key and, when types with commas are asked for, its types do |
| CacheAgreement.FiltersHitsAgreeExactly | internal/server/cache.go:130-156 | the same for filters |
| StoreAgreement.StoreHitsAgreeExactly | internal/server/handlers_catalog.go:75-105 | against the real tables and floor, whatever else is asked, every hit of a NUL-free query with a readable cursor agrees if and only if every list with the key of its libraries names the same ones and, when types with commas are asked for, its types own their key |
| StoreAgreement.StoreFiltersAgreeExactly | internal/server/handlers_catalog.go:195-208 | the same for filters |
| StoreAgreement.KeyNamesExactly | internal/server/cache.go:236-240 | of the lists that name a library, exactly those with one entry are named by their key |
| StoreAgreement.NamedQueriesAgreeExactly | internal/server/handlers_catalog.go:75-105 | so a validated query that names a library is safe from all others if and only if its list has one entry and, when types with commas are asked for, it names at most one type |
| StoreAgreement.PageCollides | internal/server/handlers_landing.go:61-96 | the catalog page of a token with the types `u,v` and `x` fills the entry of a validated request for u, v and x |
| StoreAgreement.AnswersDiffer | internal/store/catalog_media.go:12-93 | lists that name different libraries are answered differently under some tables and allowlist |
| CacheAgreement.MediaHitAgrees | internal/server/cache.go:102-128 | for any list of libraries: in every run of queries free of commas and NULs a media hit is what the store answered to this very query; asked for an equivalent one, and stored at most one TTL before the hit |
| CacheAgreement.FiltersHitAgrees | internal/server/cache.go:130-156 | the same for filters |
| CacheAgreement.HitOnTheFloor | internal/server/handlers_catalog.go:75-80 | every item of an agreeing hit lies in the allowlist in force when the store was asked, and in the claim when its entries are all numbers |
| CacheAgreement.HitIsCurrent | internal/server/cache.go:102-128 | once TTL + d has passed since the last change, d the longest time from asking to storing, an agreeing hit is what the store would answer now |
| CacheAgreement.AllowlistEditBinds | internal/store/config.go:43-46 | so every later hit lies in the edited allowlist |
| CacheAgreement.AllowlistEditLags | internal/store/config.go:43-46 | that lag is attained: at edit + TTL + d a hit still shows a library the edit took out, when the store would show nothing |
| CacheAgreement.CapsHold | internal/server/cache.go:158-184 | in every reachable state at most 256 media and 128 filter entries |
| CacheAgreement.MediaEvictionOrder | internal/server/cache.go:158-214 | the order of eviction of StoreKeepsBest, in every run whose sets read a nondecreasing clock |
| CacheAgreement.FiltersEvictionOrder | internal/server/cache.go:146-214 | the same of filter sets |
| CacheAgreement.OtherMapKeepsLive | internal/server/cache.go:158-184 | in every run a set leaves the other map alone or drops exactly its expired entries |
| CacheAgreement.CollisionEscapesClaim | internal/server/handlers_catalog.go:75-80 | two accepted requests with one key: after the wider one a token is served a page its claim does not cover |
| CacheAgreement.CommaCollides | internal/server/cache.go:236-240 | such lists exist for every two ids |
| Walk.WalkFrom | internal/server/pagetoken.go:50-75 | over any list served page by page with a depth cap, what a walk from any position has covered, by how it ended |
| Walk.EvenWalk | internal/server/pagetoken.go:71-73 | from any multiple of k, a walk in pages of k finishes or is refused by the length of the list alone |
| Walk.WalkIsAPrefix | internal/server/handlers_catalog.go:151-159 | for every list and every sequence of page sizes: pages concatenate to a prefix, a finished walk is complete, a refused one has seen more than 50000 and at most 50100 items, and the walk ends |
| Walk.EvenWalkFinishes | internal/server/pagetoken.go:18 | a walk in pages of k finishes exactly when the list is no longer than (50000/k + 1)*k |
| Walk.NeverRefusedExactly | internal/server/pagetoken.go:71-73 | no walk is ever refused exactly when the list has at most 50001 items |
| Walk.StepOutcome | internal/store/catalog_media.go:17-27 | a request with the token of position n, at any depth up to the cap, is served the page at n with its signed cursor |
| Walk.StepRefused | internal/server/pagetoken.go:71-73 | past the cap the same token is refused |
| AppConfig.ComputeNormalizeAppConfig | internal/runtime/runtime.go:92-121 | accepts exactly the acceptable configurations and derives listener, TTL and ids |
| AppConfig.NormalizeExactly | internal/runtime/runtime.go:92-121 | exactly what is refused; a listener is derived from the port, 168 hours replace a lifetime below one, ids become canonical, and no other field changes |
| AppConfig.NormalizeIdempotent | internal/runtime/runtime.go:92-121 | normalising again changes nothing, and never the floor |
| AppConfig.UpdateReadsBack | internal/store/config.go:50-84 | reading back what was written gives the normalised configuration with the plaintext replaced by its hash; every written row normalises to itself |
| AppConfig.ConfigStore.constructor | internal/store/store.go:38 | starts with an empty floor |
| AppConfig.ConfigStore.GetConfig | internal/store/config.go:20-48 | creates a missing row, returns the normalised one, and reloads the floor exactly when that succeeds |
| AppConfig.ConfigStore.UpdateConfig | internal/store/config.go:54-84 | writes the normalised, stripped, hashed row or nothing |
| AppConfig.ConfigStore.Bootstrap | internal/store/config.go:98-162 | row and floor afterwards, and success, are those of one whole Bootstrap of the run model: seed, secret, legacy hash, write and read again if dirty |
| AppConfig.ComputeBootEdit | internal/store/config.go:103-150 | the edit with its dirty flag |
| AppConfig.ConfigStore.ClearCatalogPassword | internal/store/config.go:166-175 | row and floor afterwards, and success, are those of one whole clear of the run model |
| AppConfig.ConfigStore.RehashCatalogPassword | internal/store/config.go:180-192 | row and floor afterwards, and success, are those of one whole rehash of the run model |
| AppConfig.ConfigStore.HUpdateConfig | internal/server/handlers_admin_api.go:188-233 | row and floor afterwards, and success, are those of one whole PATCH: refused for an invalid configuration or a listener change, otherwise written and read again |
| AppConfig.ComputePatchEdit | internal/server/handlers_admin_api.go:204-221 | keeps secret and hash the request leaves out; refuses invalid configurations and listener changes |
| AppConfig.ConfigStore.HSaveHTMLSection | internal/server/handlers_admin_api.go:134-166 | row and floor afterwards, and success, are those of one whole HTML save: more than 200000 bytes are refused before the row is read |
| ConfigRuns.FirstBootstrap | internal/store/config.go:98-162 | from any row, legacy plaintext included, a successful Bootstrap leaves a secret, no plaintext, and the floor in step |
| ConfigRuns.BootstrapKeeps | internal/store/config.go:128-150 | over a row that is not at the defaults every field stays, except that a missing secret is filled in and a legacy plaintext becomes a hash of it with protection on |
| ConfigRuns.BootstrapImports | internal/store/config.go:98-150 | over the defaults or no row the manifest is imported: normalised, without its database URL, its allowlist as the floor, its password as a hash of it with protection on, its secret or a fresh one |
| ConfigRuns.BootstrapSucceedsExactly | internal/store/config.go:98-162 | a Bootstrap succeeds exactly when the row can be read, bcrypt takes the plaintext there is, what is imported or kept normalises, and a fresh secret, if needed, is long enough |
| ConfigRuns.DefaultsExactly | internal/store/config.go:20-48 | what a store without a row reads as, and that reading it creates the row |
| ConfigRuns.LaterBootstraps | internal/store/config.go:109-126 | every later Bootstrap succeeds and changes nothing, whatever the manifest |
| ConfigRuns.StepKeeps | internal/store/config.go:46-192 | one operation keeps that state and changes secret, hash, listener and allowlist only as its kind allows |
| ConfigRuns.RunKeeps | internal/server/handlers_admin_api.go:134-267 | the induction behind it, over any step function that keeps stores good and lets the observed fields follow |
| ConfigRuns.SerialRuns | internal/server/handlers_admin_api.go:134-267 | over every sequence of operations: normalised, a secret that is the first or one a PATCH supplied, no plaintext, a hash that is the first, empty or of a submitted password, the first listener, the floor in step |
| ConfigRuns.SecretChangesOnlyByPatch | internal/server/handlers_admin_api.go:204-206 | the secret changes only in a PATCH that supplies another |
| ConfigRuns.NoLegacyLogin | internal/store/password.go:55-58 | after the first Bootstrap no plaintext is stored and no login takes the legacy path |
| ConfigRuns.PatchTakesEffect | internal/server/handlers_admin_api.go:188-233 | after an accepted PATCH its allowlist is the floor, its secret is stored and its password logs in |
| ConfigRuns.PatchReplaces | internal/server/handlers_admin_api.go:188-233 | the row an accepted PATCH stores is the normalised request completed with the secret and the hash it leaves out, its plaintext hashed |
| ConfigRuns.PatchAcceptedExactly | internal/server/handlers_admin_api.go:204-221 | a PATCH is accepted exactly when the request normalises, keeps the listener, and bcrypt takes its password; a refused one changes nothing |
| ConfigRuns.SaveExactly | internal/server/handlers_admin_api.go:134-166 | the HTML save stores the sanitised text unless it has more than 200000 bytes, and changes nothing else |
| ConfigRuns.RehashExactly | internal/store/config.go:180-192 | the rehash stores the hash of the password it is given unless bcrypt refuses it, and changes nothing else |
| ConfigRuns.ClearTakesEffect | internal/store/config.go:164-175 | clearing always succeeds and changes nothing else; after it no password is required and none accepted |
| ConfigInterleaving.RunKeepsInv | internal/store/config.go:46-192 | in every interleaving the row and every configuration in the hands of a flight stay of known descent |
| ConfigInterleaving.InterleavedSafety | internal/store/config.go:46-192 | however the steps of the operations and of plain reads interleave, the row stays normalised with a secret, without plaintext, with the first listener, and secret and hash of known origin |
| ConfigInterleaving.EndsInStepExactly | internal/store/config.go:20-48 | at every moment the floor is the row's allowlist at the fetch whose install came last, so a run ends in step if and only if that is the row's allowlist at its end |
| ConfigInterleaving.UnspannedEndsInStep | internal/store/config.go:20-48 | a run in which no commit changes the allowlist inside another flight's fetch-to-install or read-to-write window is in step whenever nothing is under way |
| ConfigInterleaving.AlwaysInStepExactly | internal/store/config.go:20-48 | with plain reads about, every run of a set of operations ends in step if and only if no run has such a commit, and if and only if none of the operations would change the stored allowlist |
| ConfigInterleaving.LookRaces | internal/server/handlers_auth.go:134-138 | a page view that fetched before a PATCH and installs after it leaves the floor out of step |
| ConfigInterleaving.PatchesRace | internal/server/handlers_admin_api.go:222-226 | two accepted PATCHes alone can end with the row on one allowlist and the floor on the other |
| ConfigInterleaving.Overtaken | internal/store/config.go:54-84 | any operation that read before another and writes after it leaves what it makes of the row it read; the other was accepted and its edit is gone |
| ConfigInterleaving.HTMLSaveUndoesPatch | internal/server/handlers_admin_api.go:151-160 | an HTML save that overlaps a PATCH undoes it and leaves the floor on the undone allowlist |
| ConfigInterleaving.ApplyIsRun | internal/store/config.go:46-192 | one operation alone is an interleaving without overlap |
| ConfigSerial.NothingLostExactly | internal/store/config.go:46-192 | every run over a set of operations and plain reads leaves the row its commits leave one at a time in their order, if and only if no two of the operations affect each other: what one writes is the same whether it read before or after the other wrote; a run at rest shows any failure |
| ConfigSerial.SerialRow | internal/store/config.go:46-192 | the induction behind it: every copy in hand is the starting configuration or one operation's result |
| ConfigSerial.AffectedLoses | internal/store/config.go:54-84 | two operations that do affect each other have a run that loses an edit |
| ConfigSerial.PatchReads | internal/server/handlers_admin_api.go:204-221 | a PATCH writes the same over two configurations with one listener if and only if they agree on the secret and the hash it leaves out |
| ConfigSerial.PatchUndoesRotation | internal/server/handlers_admin_api.go:204-206 | a PATCH without a secret that overlaps one with a new secret puts the old one back |
| CatalogStats.RuntimeStatsFromStore | internal/server/stats.go:107-121 | the loops build the statistics of the host's shape that convert back to the store's |
| CatalogStats.StoreStatsFromRuntime | internal/server/stats.go:123-137 | the loops copy every count in order and take the qualities from the side |
| CatalogStats.WithSourceStats | internal/server/host.go:75-94 | the loop adds totals and appends counts, skipping failed sources |
| CatalogStats.MergeConserves | internal/server/host.go:75-94 | of the base and of every source that answered, each count by type and by library is kept as often as reported and in order, and the totals add up |
| CatalogStats.AddSources | internal/server/stats.go:74-80 | through the host's shape and back, the store's statistics gain exactly the counts of the sources that answered and keep their qualities |
| CatalogStats.ExtendedBalanced | internal/server/stats.go:74-80 | without a source that answers nothing changes, and totals equal to the sum of type counts stay so |
| CatalogStats.ScopeCatalogStats | internal/server/stats.go:142-172 | the loops filter by type with "tv" libraries under "series" and re-sum the total |
| CatalogStats.ScopeShows | internal/server/stats.go:142-172 | a scoped payload is balanced and shows exactly the counts of the allowed types |
| CatalogStats.ScopeExactly | internal/server/stats.go:142-172 | a scope that names a type keeps exactly the counts of its types and of libraries of them, "tv" ones under "series", in order, and sums anew; one that names none changes nothing |
| CatalogStats.ScopeTwice | internal/server/stats.go:142-172 | scoping by A then B is scoping by their intersection, unless that is empty: then nothing is left, while an empty scope would leave all |
| FormatCount.ComputeFormat | internal/server/stats.go:214-230 | the builder loop yields the number with a comma before every group of three, and its slices stay in range |
| FormatCount.FormatGroups | internal/server/stats.go:214-230 | without commas the text is the number; the first group has one to three digits, every later one three |
| Overlay.CollectMissing | internal/server/handlers_catalog.go:343-351 | asks for exactly the items lacking an image |
| Overlay.CollectPaths | internal/server/handlers_catalog.go:359-375 | asks for exactly the non-blank paths some item wants |
| Overlay.OverlayCatalogMediaImages | internal/server/handlers_catalog.go:335-398 | the batched overlay leaves every item, in its place, as resolving that item alone would, and all of them as they were when a look-up fails |
| Overlay.OverlaidExactly | internal/server/handlers_catalog.go:376-397 | an item ends with the image it has, else with the trimmed address of its own poster or backdrop path |
| Overlay.OverlayKeeps | internal/server/handlers_catalog.go:382-397 | no present URL is overwritten, and overlaying again changes nothing |

## Left out

- SQL execution, joins, NULLs and row errors: a query is a slice of a fixed listing; a failing database is not modelled, except that a negative offset is an error.
- The host and federated paths of the catalog handler: they end in the outcome `Elsewhere`; the host SDK is a foreign call.
- HTTP, cookies, headers, routing, the user interface, HTML sanitising, and how `clientIP` picks the address.
- The catalog page handler (`internal/server/handlers_landing.go:60-98`) beyond its query: its gets, asks and sets with any trimmed types are steps of the cache model, the choice of the library is not modelled.
- The two statistics caches (`internal/server/cache.go:14-75`).
- Saved links, item details, seasons, episodes and related queries.
- Cryptographic strength: nothing is said about forging a MAC or inverting bcrypt.
- Overflow of times, durations and counters; the limiter records are values in a map, so a pointer kept across a deletion is not captured. A nil limiter, cache or semaphore, which allows everything, is not modelled.
- CatalogLogin.BcryptSemaphore.Acquire: does not model the wait while no slot is free and the client stays; `LoginProtocol` does, as attempts that have not acquired yet.
- CatalogLogin.Login: the rehash it starts in the background is the operation `Rehash` of the configuration model, not part of the call.
- CatalogHandler.HCatalogMedia: the store is asked and the entry stored without other requests between; `CacheAgreement` covers those interleavings. The image overlay between query and set is modelled on its own in `Overlay`.
- Walk.WalkIsAPrefix: walks the uncached handler over a list that does not change; `CatalogHandler.CacheInvisible` carries it over to the cached one.
- ConfigRuns.SerialRuns: operations one at a time; `ConfigInterleaving` has what survives interleaving.
- StoreAgreement.StoreHitsAgreeExactly: a cursor the store reads as a negative offset is left out; it can be signed only by the host path.
- CacheKey.MediaKeyExactly: which requests that do hold a NUL own their key is not characterised; `NulCollision` has two that do not.
- JSON beyond losslessness: text that is no valid UTF-8, and documents the decoder refuses.
