# MonoBucket: verified models

MonoBucket is an S3-compatible object server: one binary with an S3 listener, a web console, a
RocksDB metadata store and payload files. This project models the parts of its C++ backend whose
correctness is easiest to get wrong and hardest to see by reading it, and proves what each of them
promises. `dafny verify dfyconfig.toml` checks everything.

Each component has a specification written as functions, the theorems about it, and, where the
backend changes things step by step, classes and methods with the same loops and fields, proved to
compute those functions. `Option`, `Arithmetic` and `Text` are shared helpers.

| component | files | what is proved |
|---|---|---|
| Checksums | `Bits`, `Crc`, `Checksum` | the byte tables compute the bit-at-a-time CRC at 32 and 64 bits |
| Memory cache | `ClockCache`, `CacheHistory`, `SecondChance`, `MemoryCache` | linked lists, maps and tallies of the shards refine a CLOCK cache; runs refine a lossy map, and what was hit outlasts what was not |
| Request signing | `Uri`, `Query`, `Sorting`, `SigV4`, `Claims`, `Lines`, `SignedText`, `SignatureCovers`, `HeaderSigned`, `HeaderValues` | minted URLs and signed headers verify, a signature covers exactly one request, and a tampered one is refused |
| XML and CORS | `Xml`, `XmlTree`, `XmlWriter`, `XmlParser`, `XmlGrammar`, `XmlScan`, `XmlReferences`, `XmlParses`, `Cors` | the parser takes exactly the documents of a grammar and means what they mean; parser and writer undo each other; CORS documents round trip |
| Quotas | `Sums`, `Quota`, `QuotaSystem`, `QuotaOrder`, `QuotaBounds`, `QuotaAdmission`, `QuotaLedger` | every byte is accounted for under every interleaving; when figures, allocations and capacity hold, exactly; what fits is admitted |
| aws-chunked | `Chunked`, `ChunkBounds`, `ChunkChain`, `ChunkedDecoder` | only vouched-for bytes are delivered, in the order they were signed in; correct framing decodes |
| Thread pool | `IoExecutor` | no lost wakeup, FIFO, bounded; accepted work is done, and stopping drains and ends |
| Two-tier cache | `Breaker`, `FallbackCache`, `TwoTierEffects`, `TwoTierCalls` | back-off, probes and staleness bounds, for the system and for the object; what callers find |
| Console identities | `Console`, `ConsoleEffects`, `ConsoleApi` | an administrator remains, sessions are up to date, only administrators govern; each answer of Done is observed through the other handlers |
| Row keys and records | `Keyspace`, `RowKeys`, `Codec`, `Records`, `RecordsCodec` | order, exact bounds, no two rows with one key, self-delimiting round trips |

Conventions. A `std::string` is a `string` whose characters are bytes; `Bytes` is used where that
matters. An exception is a `None` or an `Err`. Times, random values and the replies of other
processes are parameters. Unsigned byte counts are natural numbers, so sums are taken to stay below
2^64. Locked sections are single steps, and an interleaving of threads is a sequence of them.

Where the code and its own documentation differ, the models follow the code:

- `fallback_cache.hpp` lets one probe out per cooldown, and that holds under every interleaving
  (`Breaker.OneProbePerCooldown`), as long as the failure threshold is not zero
  (`Breaker.NoThresholdNoWindow`). It does not mean one probe at a time: `probeInFlight_` is cleared by
  any caller's report. A probe stays the only one until it reports exactly when no other call was in
  flight at its admission (`Breaker.SoleProbe`; `Breaker.TwoProbesAtOnce` has a run for every breaker).
- The same header bounds the age of a local copy by the cap. The copy's life starts when it is
  written, not when the shared tier was read, so the exact bound is the cap plus the time between
  (`FallbackCache.BoundedStaleness`, `FallbackCache.BoundIsReached`).
- A freshly stored cache entry can be the one its own store evicts (`ClockCache.FreshSurvives`).
- The limit of 32 trailers is checked before each line, the signature's included, but only trailers
  count. A block of 32 is read with its signature line anywhere but behind the last one; with the
  signature line last, 31 is the most (`Chunked.BlockReads`).
- CORS validation puts no limit on the length of a rule's lists, but a stored rule set with a list
  of more than 1000 entries no longer decodes (`Records.ValidatedMayNotDecode`).
- `quota.hpp` says that an overwrite cannot drift because replaced sizes come from the commit. A write
  commits first and is recorded later, with no lock across both, so settlements of one bucket may be
  recorded out of commit order; subtraction then stops at zero and the bucket stays too high by what it
  swallowed (`QuotaOrder.RacedDeletion`). Without forgetting, a settled figure is true exactly when no
  subtraction along the run fell short (`QuotaSystem.SettledIsTrue`), and in commit order none does.
- `quota.hpp` says that nothing is charged when a bucket is forgotten. Deleting a bucket looks at stored
  rows only; what is reserved in it at that moment is lost (`QuotaOrder.ForgettingLosesClaims`).
- `storage_engine.cpp` says that a new bucket's allocation is checked again as the ledger takes it.
  Tracking checks nothing, so two creations admitted together can hand out more than the instance has
  (`QuotaBounds.TwoCreationsOvershoot`).

In the quota models a commit and its settlement are two steps, and so are the admission of a bucket's
allocation, its creation and its tracking; any number of writers may come between. What holds under
every interleaving is conservation. The stronger results rest on conditions that the storage engine does
not enforce, and each says which: settlements in the order of their commits, a bucket forgotten only
while nothing is reserved in it, and tracked only with room; an upload completed only with room, which its
recorded parts give (`QuotaBounds.PartsMakeRoom`). That a write settles its own claim, for at least what it stored, is what extending it enforces.
A commit to the metadata store is one atomic step.

## Model

| member | source | states |
|---|---|---|
| `Crc.TableStep` | backend/src/storage/checksum.cpp:34-42 | one byte through the table is eight message bits through the bit-at-a-time register, for every polynomial, state and byte |
| `Crc.ShiftLinear` | backend/src/storage/checksum.cpp:18-31 | the shift step is linear over exclusive or |
| `Crc.SplitIndependent` | backend/src/storage/checksum.cpp:104-116 | feeding a message in two parts is feeding it whole |
| `Crc.FeedBitsFits` | backend/src/storage/checksum.cpp:18-42 | the register never leaves its word, at any width |
| `Crc.BuildTable` | backend/src/storage/checksum.cpp:18-31 | the table holds, for each of the 256 bytes, the register the bit-at-a-time definition gives after its eight bits from zero |
| `Crc.Update` | backend/src/storage/checksum.cpp:34-42 | the table-driven loop computes the bit-at-a-time register, for any start state and data |
| `Checksum.BigEndianRoundTrip` | backend/src/storage/checksum.cpp:44-53 | the raw digest bytes determine the register |
| `Checksum.DigestHoldsRegister` | backend/src/storage/checksum.cpp:126-132 | the digest is the inverted register in the algorithm's length |
| `Checksum.ToBigEndian` | backend/src/storage/checksum.cpp:44-53 | the byte loop writes most significant first |
| `Checksum.ChecksumComputer.constructor` | backend/src/storage/checksum.cpp:79-98 | a fresh computer stands for the empty message |
| `Checksum.ChecksumComputer.Update` | backend/src/storage/checksum.cpp:104-116 | each update appends its data to the message the computer stands for |
| `Checksum.ChecksumComputer.Finish` | backend/src/storage/checksum.cpp:126-132 | the result is the digest of everything fed, however it was split |
| `Checksum.CompositeChecksum` | backend/src/storage/checksum.cpp:187-203 | the checksum of the concatenated part digests and their number in 32 bits, or the refusal of a part of the wrong length |
| `ClockCache.EvictsLastUnflagged` | backend/src/cache/memory_cache.cpp:154-175 | the last unflagged entry goes; what is behind it is spared in front with flags cleared; order is otherwise kept |
| `ClockCache.EvictsTailWhenAllFlagged` | backend/src/cache/memory_cache.cpp:154-175 | with every flag set the old tail goes, order is kept and every flag is cleared |
| `ClockCache.SetKeeps` | backend/src/cache/memory_cache.cpp:232-284 | after any set keys are unique, the shard is within its budget, and every entry is an old one or the new one |
| `ClockCache.OversizedLeavesNothing` | backend/src/cache/memory_cache.cpp:244-252 | a value too large for the shard leaves no older value under its key |
| `ClockCache.DropExpiredIsSafe` | backend/src/cache/memory_cache.cpp:216-226 | the second phase of an expired read never drops an entry that is unexpired at its tick |
| `ClockCache.FreshSurvives` | backend/src/cache/memory_cache.cpp:232-284 | a freshly set entry survives its own set exactly when it and all flagged entries fit the budget together |
| `ClockCache.FreshEvictedAtOnce` | backend/src/cache/memory_cache.cpp:154-175 | a concrete shard in which the entry just set is the one evicted |
| `CacheHistory.AlwaysWithinBudget` | backend/src/cache/memory_cache.cpp:99-126 | over every interleaving of locked sections the total stays within the configured bytes and each key lives once, in its own shard |
| `CacheHistory.ReadsLastWrite` | backend/src/cache/memory_cache.cpp:196-295 | a read answers only what the last store, delete or clear affecting the key stored, and only while it is unexpired |
| `SecondChance.TouchFlags` | backend/src/cache/memory_cache.cpp:196-214 | a hit raises its own flag and no other and changes no answer; a miss leaves every flag as it was |
| `SecondChance.EvictsVictim` | backend/src/cache/memory_cache.cpp:154-175 | one turn of the clock takes the last unflagged entry, the tail when there is none, and changes no other key's answer |
| `SecondChance.HitIsSpared` | backend/src/cache/memory_cache.cpp:154-214 | an entry that is hit is not the one that goes next while another is unflagged |
| `SecondChance.HitOutlasts` | backend/src/cache/memory_cache.cpp:154-175 | however much is evicted at once, a flagged entry stays as long as any unflagged one does |
| `SecondChance.HitOutlastsStore` | backend/src/cache/memory_cache.cpp:196-284 | over any run: a key hit and not stored, dropped or evicted over since is not among what a store evicts while anything not hit, or what was just stored, stays |
| `SecondChance.HitOutlastsEvict` | backend/src/cache/memory_cache.cpp:196-311 | the same of an eviction to a smaller budget |
| `SecondChance.PurgeReads` | backend/src/cache/memory_cache.cpp:177-194 | purging changes no answer from its tick on and no flag of what stays |
| `SecondChance.RoomIsAMap` | backend/src/cache/memory_cache.cpp:232-284 | while everything fits, a store is found until it expires and no other key's answer changes |
| `SecondChance.RemoveReads` | backend/src/cache/memory_cache.cpp:286-295 | a deletion takes its key's answer and no other |
| `SecondChance.ShrinkIsLeast` | backend/src/cache/memory_cache.cpp:232-284 | shrinking stops at the first view within the limit; every earlier one was over it |
| `MemoryCache.Shard.Unlink` | backend/src/cache/memory_cache.cpp:128-135 | taking a node out of the doubly linked list keeps both directions, head and tail consistent |
| `MemoryCache.Shard.PushFront` | backend/src/cache/memory_cache.cpp:137-143 | the node becomes the head and the rest keeps its order |
| `MemoryCache.Shard.RemoveLocked` | backend/src/cache/memory_cache.cpp:145-152 | list, map and byte tally lose exactly that node |
| `MemoryCache.Shard.EvictOneLocked` | backend/src/cache/memory_cache.cpp:154-175 | the pointer manipulation does exactly one pass of the clock, and ends |
| `MemoryCache.Shard.PurgeExpiredLocked` | backend/src/cache/memory_cache.cpp:177-194 | exactly the expired nodes go, and are counted |
| `MemoryCache.Shard.Get` | backend/src/cache/memory_cache.cpp:196-230 | both phases of a read, on the linked structure |
| `MemoryCache.Shard.Store` | backend/src/cache/memory_cache.cpp:232-284 | replace or insert, then shrink to the budget |
| `MemoryCache.Shard.Delete` | backend/src/cache/memory_cache.cpp:286-295 | the key is gone; the answer says whether it was there |
| `MemoryCache.MemoryCache.constructor` | backend/src/cache/memory_cache.cpp:99-116 | empty shards, in number the largest power of two that is at most the number asked for (8 by default, 64 at most) and at most the smallest budgets that fit in the bytes, or one |
| `MemoryCache.MemoryCache.Set` | backend/src/cache/memory_cache.cpp:232-284 | one step of the history on the key's shard, every other shard untouched |
| `MemoryCache.MemoryCache.Get` | backend/src/cache/memory_cache.cpp:196-230 | two steps of the history; the answer is the view's |
| `MemoryCache.MemoryCache.Del` | backend/src/cache/memory_cache.cpp:286-295 | one step of the history, and whether the key was present |
| `MemoryCache.MemoryCache.Evict` | backend/src/cache/memory_cache.cpp:297-311 | every shard purged and shrunk to its share; the count is the entries gone |
| `MemoryCache.MemoryCache.Clear` | backend/src/cache/memory_cache.cpp:313-321 | every shard emptied |
| `Uri.DecodeInvertsEncode` | backend/src/s3/uri.cpp:25-64 | decoding gives back any byte string that was encoded |
| `Uri.EncodedIsInert` | backend/src/s3/uri.cpp:25-40 | encoded text holds no separator of a query |
| `Uri.EscapeReads` | backend/src/s3/uri.cpp:42-64 | an escape reads as its byte, its digits in either case |
| `Uri.DecodeIsItself` | backend/src/s3/uri.cpp:42-64 | text is its own decoding exactly when no escape is in it |
| `Uri.UriEncode` | backend/src/s3/uri.cpp:25-40 | the encoding loop computes the specified encoding |
| `Uri.UriDecode` | backend/src/s3/uri.cpp:42-64 | the decoding loop computes the specified decoding, stray percent signs included |
| `Query.CanonicalIsFixed` | backend/src/s3/uri.cpp:66-130 | parsing a canonical string and canonicalising again changes nothing |
| `Query.CanonicalDetermines` | backend/src/s3/uri.cpp:100-130 | two parameter lists have the same canonical string exactly when they hold the same names and values, as multisets |
| `Query.SignatureDropsOut` | backend/src/s3/uri.cpp:66-130 | appending the signature, parsing, and canonicalising without it gives back the bytes that were signed |
| `Query.OrderedReadBack` | backend/src/s3/uri.cpp:66-130 | parameters in canonical order read back as they are |
| `Query.ParseQuery` | backend/src/s3/uri.cpp:66-98 | the cursor loop splits fields as specified |
| `Query.CanonicalQueryString` | backend/src/s3/uri.cpp:100-130 | encode, omit, sort and render |
| `Query.FindQuery` | backend/src/s3/uri.cpp:132-138 | the first value under a name |
| `Sorting.SortSorts` | backend/src/s3/uri.cpp:117-121 | sorting gives an ordered permutation |
| `Sorting.SortedUnique` | backend/src/s3/uri.cpp:117-121 | an ordered permutation is unique, so the choice of sorting algorithm cannot show |
| `SigV4.DateRoundTrip` | backend/src/s3/sigv4.cpp:287-345 | formatting a date and parsing it gives the instant back, when the calendar calls invert each other there |
| `SigV4.CredentialReadsBack` | backend/src/s3/sigv4.cpp:74-98 | access key and scope joined by slashes parse back, when neither key nor region holds a slash |
| `SigV4.MintedReads` | backend/src/s3/sigv4.cpp:561-606 | the minted query parses to the five parameters and the signature, and canonicalises without it to the signed text |
| `SigV4.MintedClaim` | backend/src/s3/sigv4.cpp:395-452 | the claim a minted URL makes is admitted exactly within its window |
| `SigV4.MintedChecks` | backend/src/s3/sigv4.cpp:500-557 | the recomputed signature of a redeemed URL is the minted one |
| `SigV4.MintedIsAccepted` | backend/src/s3/sigv4.cpp:378-606 | a URL minted by the presigner is accepted, as its credential's, exactly from the skew before it was minted until it expires, and otherwise refused as denied |
| `SigV4.AcceptedIsAuthentic` | backend/src/s3/sigv4.cpp:378-557 | whatever is accepted carries the signature its credential's secret gives for this very request, host included, within its time window, or came without any signature; scope, signed headers, date, payload digest and payload mode are those the request presents |
| `SignedText.RenderReads` | backend/src/s3/sigv4.cpp:195-210 | the text that is hashed reads back, line by line, as method, path, query, header lines, signed names and payload digest, in that order |
| `SignedText.StringToSignReads` | backend/src/s3/sigv4.cpp:241-251 | so does the text that is signed, as algorithm, date, scope and request digest |
| `SignedText.CanonicalReads` | backend/src/s3/sigv4.cpp:253-285 | the lines of a built canonical request are the request's own parts |
| `SignedText.NamesReadBack` | backend/src/s3/sigv4.cpp:47-63 | the signed names read back from their list |
| `SignedText.SignedNamesDetermined` | backend/src/s3/sigv4.cpp:263-266 | sorting and dropping doubles keeps exactly which names are listed |
| `SignatureCovers.TextCovers` | backend/src/s3/sigv4.cpp:241-285 | with a hash that no two texts share, two requests sign the same text if and only if method, path, parameters, signed headers and their values, payload digest, date and scope are the same |
| `SignatureCovers.OneSignatureOneRequest` | backend/src/s3/sigv4.cpp:378-557 | two accepted requests with one signature sign the same, at whatever times and for whatever secrets; under one key that is an equivalence |
| `SignatureCovers.TamperedIsRefused` | backend/src/s3/sigv4.cpp:378-557 | a request that presents an accepted request's signature with another path, parameter, signed header or method is refused, ever after |
| `SignatureCovers.KeyCovers` | backend/src/s3/sigv4.cpp:232-239 | where a digest also determines its key, a signing key belongs to one secret, day, region and service |
| `SignatureCovers.MintedIsAcceptedExactly` | backend/src/s3/sigv4.cpp:378-606 | a request that presents a minted URL's signature is accepted if and only if it goes where the URL was minted for, in its window, with its parameters and no others, in whatever order |
| `HeaderValues.ValueIsItsWords` | backend/src/s3/sigv4.cpp:26-45 | a header's value is signed as its words with one blank between, so values are signed alike exactly when they have the same words |
| `HeaderValues.PathIsItself` | backend/src/s3/sigv4.cpp:258 | paths are signed alike exactly when they are the same or both the root |
| `HeaderSigned.AuthorizationReadsBack` | backend/src/s3/sigv4.cpp:113-150 | the Authorization header a client writes is read as its credential, names and signature |
| `HeaderSigned.HeaderSignedIsAccepted` | backend/src/s3/sigv4.cpp:453-557 | a request signed in that header is accepted, as its signer's, exactly while the clocks are within the allowed skew, and otherwise refused as too skewed |
| `Claims.AcceptedDateIsReal` | backend/src/s3/sigv4.cpp:287-331 | an accepted date has the one form there is, and the instant it gives is on the day it names |
| `Claims.AcceptedIsBounded` | backend/src/s3/sigv4.cpp:395-452 | an accepted URL names the one algorithm and lives from one second to a week |
| `Claims.PayloadIsDeclared` | backend/src/s3/sigv4.cpp:152-170 | the body of a header-signed request is authenticated by one of the four markers or by a digest of 64 hex digits, anything else is refused |
| `Claims.FirstHeaderCounts` | backend/src/s3/sigv4.cpp:183-193 | the first header under a name counts, and a missing one reads as empty |
| `SigV4.CollapseBlanks` | backend/src/s3/sigv4.cpp:26-45 | the header value loop trims and collapses blanks |
| `SigV4.SplitNames` | backend/src/s3/sigv4.cpp:47-63 | the signed-header list, split and lowercased |
| `SigV4.CanonicalOf` | backend/src/s3/sigv4.cpp:253-285 | the canonical request is built with sorted, unique names, or refused when a signed header is missing |
| `XmlTree.ParseInvertsRender` | backend/src/s3/xml.cpp:30-227 | parsing a rendered document gives the tree back exactly when it is within the byte, depth and element limits, and fails otherwise; control characters are dropped, blanks in childless containers kept |
| `XmlTree.ForestReads` | backend/src/s3/xml.cpp:175-227 | a rendered list of trees inside an element is read as its children, with the element count and depth it costs |
| `XmlTree.EscapedReads` | backend/src/s3/xml.cpp:120-155 | escaped text reads back as the text without control characters |
| `XmlParses.ParsesTheGrammar` | backend/src/s3/xml.cpp:30-248 | the parser makes this node of this text if and only if some document of the grammar within the limits is written as the text and means the node: references stand for their character, a CDATA section for what is in it, start and end tag have one name, text counts on leaves only |
| `XmlParses.ElementReads` | backend/src/s3/xml.cpp:175-227 | every element of the grammar within the limits is read as what it means, up to its end |
| `XmlParses.ElementFound` | backend/src/s3/xml.cpp:175-227 | whatever is read as an element is one of the grammar, written as the text up to there and within the limits |
| `XmlParses.WrittenAlikeMeansTheSame` | backend/src/s3/xml.cpp:30-248 | documents within the limits that are written alike mean the same |
| `XmlReferences.ReferenceIsResolved` | backend/src/s3/xml.cpp:120-155 | a reference is resolved exactly when it is one of the five names or a number up to 0x10FFFF, and to what it stands for |
| `XmlReferences.Utf8IsItsForm` | backend/src/s3/xml.cpp:157-173 | the bytes written for a code point are its UTF-8 form and no others are |
| `XmlScan.TrimmedIs` | backend/src/s3/xml.cpp:238-246 | trimming takes the blanks off both ends, all of them and nothing else |
| `XmlWriter.FinishedIsDocument` | backend/src/s3/xml.cpp:252-323 | after any sequence of calls, balanced or not, the finished text is the layout of the tree the calls describe, and finishing twice changes nothing |
| `XmlWriter.ParseReadsAnyRun` | backend/src/s3/xml.cpp:252-323 | so the parser reads back any run of the writer, within the limits |
| `XmlWriter.Writer.constructor` | backend/src/s3/xml.cpp:252-264 | the declaration and the open root |
| `XmlWriter.Writer.Element` | backend/src/s3/xml.cpp:270-279 | one text element, escaped and indented |
| `XmlWriter.Writer.ElementIfSet` | backend/src/s3/xml.cpp:289-291 | empty text writes nothing |
| `XmlWriter.Writer.Open` | backend/src/s3/xml.cpp:293-299 | a container opened and pushed |
| `XmlWriter.Writer.Close` | backend/src/s3/xml.cpp:301-309 | the innermost container closed, never the root |
| `XmlWriter.Writer.Finish` | backend/src/s3/xml.cpp:311-323 | everything left open is closed |
| `XmlWriter.XmlEscape` | backend/src/s3/xml.cpp:325-348 | the escaping loop computes the specified escaping |
| `XmlParser.Parser.SkipMisc` | backend/src/s3/xml.cpp:52-60 | blanks and comments, on the cursor |
| `XmlParser.Parser.SkipProlog` | backend/src/s3/xml.cpp:62-75 | declaration and comments passed, a DOCTYPE refused |
| `XmlParser.Parser.ParseName` | backend/src/s3/xml.cpp:77-84 | a name, on the cursor |
| `XmlParser.Parser.SkipAttributes` | backend/src/s3/xml.cpp:88-115 | attributes consumed and dropped |
| `XmlParser.Parser.Entity` | backend/src/s3/xml.cpp:120-155 | the predefined entities and character references, anything else refused |
| `XmlParser.Parser.ParseElement` | backend/src/s3/xml.cpp:175-227 | the recursive descent on the cursor agrees with the specified parser in result, position and element count |
| `XmlParser.Parser.ParseContent` | backend/src/s3/xml.cpp:186-226 | the content loop, likewise |
| `XmlParser.Parser.ParseDocument` | backend/src/s3/xml.cpp:30-38 | nothing may follow the root |
| `XmlParser.ParseXml` | backend/src/s3/xml.cpp:373-377 | the size and emptiness checks in front |
| `Cors.RoundTrip` | backend/src/s3/cors.cpp:139-275 | a validated configuration survives rendering and parsing exactly when ids are trimmed, nothing holds control characters, no age is below -1, and the document is within the byte and element limits |
| `Cors.ParseOfRender` | backend/src/s3/cors.cpp:192-275 | what parsing makes of any rendered rules, clean or not |
| `Cors.ValidateIsIdempotent` | backend/src/s3/cors.cpp:139-190 | validating a second time changes and refuses nothing |
| `Cors.ParsedIsNormal` | backend/src/s3/cors.cpp:192-256 | the root of an accepted document has the one name, and its rules are in normal form, at most 100, with ages from 0 to 86400 or none |
| `Cors.PatternSplits` | backend/src/s3/cors.cpp:64-76 | a pattern is a text without a wildcard or two such texts around one |
| `Cors.RenderedDocument` | backend/src/s3/cors.cpp:258-275 | a rendered configuration is read as its tree unless it is too long; it is never too deep |
| `Cors.ValidateRule` | backend/src/s3/cors.cpp:149-187 | one rule checked and normalised in place |
| `Cors.ValidateCorsRules` | backend/src/s3/cors.cpp:139-190 | all rules checked and normalised, or the whole refused |
| `Cors.ParseCorsConfiguration` | backend/src/s3/cors.cpp:192-256 | extraction in document order, then validation |
| `Cors.RenderCorsConfiguration` | backend/src/s3/cors.cpp:258-275 | the calls of the writer lay out exactly the rules' tree |
| `QuotaSystem.StepConserves` | backend/src/storage/quota.cpp:36-232 | every commit, settlement, claim, release and move, in any order: a figure, with what is outstanding, leaves the truth only by what a subtraction did not find and by what forgetting dropped |
| `QuotaSystem.RunConserves` | backend/src/storage/quota.cpp:17-232 | the same over any run of any number of writers, with no condition on how they interleave |
| `QuotaSystem.SettledIsTrue` | backend/src/storage/quota.cpp:17-19 | once everything is settled, used, pending and reserved bytes are off by exactly what saturated less what was dropped; without forgetting they are true if and only if no subtraction fell short |
| `QuotaOrder.NeverSaturates` | backend/src/storage/quota.cpp:17-19 | recorded in commit order, no settlement asks for what is not there, and a bucket that is forgotten has nothing to drop |
| `QuotaOrder.StepTruthful` | backend/src/storage/quota.cpp:195-232 | each step in commit order keeps the three figures true: overwrite, delete, part replacement, abort, completion, moves, extends, releases, creation and deletion of buckets |
| `QuotaOrder.RunKeeps` | backend/src/storage/quota.cpp:36-232 | over every run in commit order, with anything between a commit and its settlement, the figures are the sums of live claims, objects and parts but for what is outstanding |
| `QuotaOrder.ReservedNeverSaturates` | backend/src/storage/quota.cpp:36-50 | the reserved figure needs no order: a claim is always found where it is given back or settled |
| `QuotaOrder.NothingLeaks` | backend/src/storage/quota.cpp:36-50 | with no claim and no settlement outstanding nothing is reserved |
| `QuotaOrder.ScanIsTruthful` | backend/src/storage/storage_engine.cpp:202-221 | the startup scan, seeding each bucket with what its rows add up to, starts with true figures |
| `QuotaOrder.RacedDeletion` | backend/src/storage/storage_engine.cpp:506-538 | a key written and deleted, with the deletion recorded first: used bytes come out right if and only if the bucket already held as much as was written, or nothing was |
| `QuotaOrder.ForgettingLosesClaims` | backend/src/storage/storage_engine.cpp:292-298 | a step makes the reserved figure untrue if and only if it forgets a bucket in which something is reserved |
| `QuotaOrder.ForeignSettlementLeaks` | backend/src/storage/quota.cpp:144-201 | settling a claim against another bucket, which extending it refuses, would falsify the tally |
| `QuotaBounds.StepWithinQuotas` | backend/src/storage/quota.cpp:86-232 | while the reserved figure is true, a step keeps every bucket within its allocation if and only if it neither tracks a bucket nor completes an upload without room, whatever the order of settlements |
| `QuotaBounds.RunWithinQuotas` | backend/src/storage/quota.cpp:144-232 | over every run that forgets only unclaimed buckets: no bucket is ever charged above its allocation if and only if every bucket tracked and every upload completed along it has room |
| `QuotaBounds.StepWithinCapacity` | backend/src/storage/quota.cpp:64-129 | the sum of allocations stays within the capacity after a step if and only if the step does not track a bucket without room |
| `QuotaBounds.RunWithinCapacity` | backend/src/storage/quota.cpp:64-129 | it stays so at every point of a run if and only if every bucket tracked along it finds room, whatever was admitted before |
| `QuotaBounds.AdmissionStands` | backend/src/storage/quota.cpp:116-129 | an admitted allocation still fits as long as nobody else hands out allocation |
| `QuotaBounds.TwoCreationsOvershoot` | backend/src/storage/storage_engine.cpp:264-276 | from any empty ledger, two creations of more than half the capacity are both admitted and together exceed it |
| `Quota.CompletionNeedsParts` | backend/src/storage/quota.cpp:225-232 | completing an upload keeps the bound if and only if what it adds fits beside the parts already counted as pending |
| `Quota.TrackNeedsRoom` | backend/src/storage/quota.cpp:64-68 | tracking keeps the bound exactly when what the bucket already holds fits |
| `Quota.OrderMatters` | backend/src/storage/quota.cpp:195-216 | for any tally and sizes: a write and a deletion recorded in either order leave the same tally if and only if the bucket already counted what the deletion releases, or nothing was written |
| `QuotaAdmission.ClaimIsExact` | backend/src/storage/quota.cpp:144-176 | a claim is admitted if and only if the bucket with the claim on it is within its allocation, and then is on it; no other bucket notices |
| `QuotaAdmission.AdmitsWhatIsLeft` | backend/src/storage/quota.cpp:144-176 | what is left of an allocation is admitted, and one byte more is not |
| `QuotaAdmission.GivenBackIsRoom` | backend/src/storage/quota.cpp:70-184 | what is given back can be claimed again, to the same tally, and a forgotten bucket refuses nobody |
| `QuotaAdmission.VerdictIsExact` | backend/src/storage/quota.cpp:86-114 | an allocation is set exactly when what is charged is within it and all allocations together are within what can be backed, and the refusal says which failed |
| `QuotaAdmission.SetQuotaIsExact` | backend/src/storage/quota.cpp:86-114 | an allocation that is set replaces the old one and a refused one does not |
| `QuotaAdmission.QuotaGoverns` | backend/src/storage/quota.cpp:86-176 | from then on it decides about claims |
| `QuotaAdmission.AllocationIsExact` | backend/src/storage/quota.cpp:116-129 | a new bucket's allocation is admitted exactly when all of them with it are within what can be backed |
| `QuotaAdmission.ExtensionHolds` | backend/src/storage/quota.cpp:144-176 | a writer that asks for more holds it exactly when it fits, and what it held otherwise |
| `QuotaLedger.Ledger.Seed` | backend/src/storage/quota.cpp:54-62 | a bucket as the startup scan finds it, with nothing reserved |
| `QuotaLedger.Ledger.Track` | backend/src/storage/quota.cpp:64-68 | a bucket tracked with its allocation |
| `QuotaLedger.Ledger.Forget` | backend/src/storage/quota.cpp:70-73 | a bucket forgotten |
| `QuotaLedger.Ledger.AllocatedLocked` | backend/src/storage/quota.cpp:77-84 | the loop adds up every other allocation |
| `QuotaLedger.Ledger.SetQuota` | backend/src/storage/quota.cpp:86-114 | the verdict and the new allocation, or the refusal |
| `QuotaLedger.Ledger.AdmitAllocation` | backend/src/storage/quota.cpp:116-129 | whether an allocation could be backed |
| `QuotaLedger.Ledger.Reserve` | backend/src/storage/quota.cpp:138-142 | a claim made, or refused without one |
| `QuotaLedger.Ledger.Extend` | backend/src/storage/quota.cpp:144-176 | a claim raised by the difference, left alone, or refused |
| `QuotaLedger.Ledger.GiveBack` | backend/src/storage/quota.cpp:178-184 | bytes returned to a bucket that is still there |
| `QuotaLedger.Ledger.RecordObject` | backend/src/storage/quota.cpp:188-201 | claim consumed and object charged in one section |
| `QuotaLedger.Ledger.RecordPart` | backend/src/storage/quota.cpp:203-209 | claim consumed and part charged in one section |
| `QuotaLedger.Ledger.RecordDeletion` | backend/src/storage/quota.cpp:211-216 | the object's bytes released |
| `QuotaLedger.Ledger.RecordUploadAborted` | backend/src/storage/quota.cpp:218-223 | the parts' bytes released |
| `QuotaLedger.Ledger.RecordUploadCompleted` | backend/src/storage/quota.cpp:225-232 | parts become an object in one section |
| `QuotaLedger.Reservation.Release` | backend/src/storage/quota.cpp:45-50 | a claim is given back once, a second call does nothing |
| `QuotaLedger.Reservation.MoveFrom` | backend/src/storage/quota.cpp:36-43 | the target gives back what it held and takes over the source's claim; moving onto itself does nothing |
| `Chunked.DecodeInvertsEncode` | backend/src/s3/chunked.cpp:78-202 | the signed framing of any non-empty payloads and any distinct trailers decodes to exactly them if and only if there are at most 32 trailers and, when signed, fewer than 32 stand before the signature line |
| `Chunked.CorrectBodyDecodes` | backend/src/s3/chunked.cpp:78-202 | so does every correct framing, however its size and signature fields are written and wherever the trailer signature stands; it is accepted if and only if the trailers fit and no other length was declared |
| `Chunked.DecodeIsSound` | backend/src/s3/chunked.cpp:78-202 | for an arbitrary body: everything delivered lies in it in order, frame behind frame, with signatures chained from the seed; acceptance means a signed last chunk and the declared length |
| `Chunked.PrefixIsVouched` | backend/src/s3/chunked.cpp:84-141 | so does every prefix of the deliveries, at every call of the sink |
| `Chunked.BlockReads` | backend/src/s3/chunked.cpp:143-180 | a trailer block of distinct trimmed names, its signature line at any place or absent, is read as its map, canonical text and declared signature if and only if there are at most 32 trailers and fewer than 32 before the signature line, and is refused otherwise |
| `Chunked.RepeatedRead` | backend/src/s3/chunked.cpp:143-180 | of trailers whose names repeat the first value counts, and every line is signed |
| `ChunkBounds.DeliveriesAreBounded` | backend/src/s3/chunked.cpp:80-141 | no delivered chunk is empty or above 5 GiB, and there are fewer than four million |
| `ChunkBounds.SizeIsHex` | backend/src/s3/chunked.cpp:42-59 | a size is one to sixteen hex digits in either case, up to 5 GiB, and nothing else |
| `ChunkBounds.AcceptedTrailers` | backend/src/s3/chunked.cpp:143-202 | behind the chunks of any accepted body stand lines with a name and a value each, and the answer is what they say, the first value under each name; when signed, the last signature declared is the right one for them |
| `ChunkChain.ChunkToSignReads` | backend/src/s3/sigv4.cpp:608-623 | the text signed for a chunk reads back as title, date, scope, previous signature, the empty digest and the payload's digest |
| `ChunkChain.ChunkSignatureCovers` | backend/src/s3/sigv4.cpp:608-623 | with a hash that no two texts share, chunk signatures are equal if and only if the previous signatures and the payloads are |
| `ChunkChain.TrailerSignatureCovers` | backend/src/s3/sigv4.cpp:625-639 | likewise for trailer signatures and canonical trailers |
| `ChunkChain.KindsApart` | backend/src/s3/sigv4.cpp:241-639 | what is signed for a request, a chunk and the trailers is never the same text |
| `ChunkChain.ChainFixesPayloads` | backend/src/s3/chunked.cpp:84-141 | from a request's signature on, the signature the chain has reached fixes every payload before it, their number and order included |
| `ChunkChain.SwappedDeliversNothing` | backend/src/s3/chunked.cpp:84-141 | of two frames in swapped order nothing is delivered if and only if the signature reached behind the first differs from the seed |
| `ChunkChain.RearrangedStops` | backend/src/s3/chunked.cpp:84-141 | of a client's frames in any other arrangement, some left out or sent twice, what stands in its place before the first that does not is delivered, and there decoding stops with SignatureDoesNotMatch |
| `ChunkChain.TrailerVouchesForAll` | backend/src/s3/chunked.cpp:78-202 | an accepted body declares the client's trailer signature if and only if it delivered the client's payloads and signed the client's trailers, however it was framed |
| `ChunkChain.CanonicalDetermines` | backend/src/s3/chunked.cpp:160-178 | trailers on lines of their own read back from their canonical text, in order |
| `Chunked.HeaderIsWellFormed` | backend/src/s3/chunked.cpp:88-131 | the header line a client writes is understood and verifies |
| `ChunkedDecoder.ParseHexSize` | backend/src/s3/chunked.cpp:42-59 | the digit loop reads the size or refuses it |
| `ChunkedDecoder.NextChunk` | backend/src/s3/chunked.cpp:88-124 | one chunk, with the checks in the order they are made |
| `ChunkedDecoder.Decoder.TakeChunks` | backend/src/s3/chunked.cpp:80-141 | the loop hands the sink only what is vouched for, and keeps the decoded length |
| `ChunkedDecoder.Decoder.TakeTrailers` | backend/src/s3/chunked.cpp:143-202 | the trailer loop and the two final checks |
| `ChunkedDecoder.Decoder.Decode` | backend/src/s3/chunked.cpp:78-202 | the whole decoder: deliveries, decoded length, trailers, or the exception |
| `IoExecutor.Reachable` | backend/src/core/io_executor.cpp:21-79 | in every reachable state the queue is bounded, tasks start in the order of acceptance and at most once, and a queued task has a worker or a notification on its way |
| `IoExecutor.StepNoLostWakeup` | backend/src/core/io_executor.cpp:21-62 | while any worker waits, queued tasks are covered by pending notifications and workers about to look |
| `IoExecutor.NothingAfterStop` | backend/src/core/io_executor.cpp:21-32 | once stopping nothing more is accepted |
| `IoExecutor.StoppingProgresses` | backend/src/core/io_executor.cpp:34-79 | while stopping every step of the pool brings the end nearer |
| `IoExecutor.StoppingIsLive` | backend/src/core/io_executor.cpp:34-79 | and until all workers have returned there is such a step |
| `IoExecutor.StopDrains` | backend/src/core/io_executor.cpp:34-79 | so stopping ends, with every worker gone and every accepted task run to its end |
| `IoExecutor.ExitedIsDrained` | backend/src/core/io_executor.cpp:53-60 | when all workers have returned the queue is empty and everything accepted has finished |
| `IoExecutor.PostIsTaken` | backend/src/core/io_executor.cpp:7-32 | in every reachable state a task is accepted if and only if nobody has stopped the pool and fewer wait than it may hold; it keeps all its workers |
| `IoExecutor.WorkIsDone` | backend/src/core/io_executor.cpp:21-79 | left to itself a pool that is not stopping comes to rest, and rests with every accepted task run to its end |
| `IoExecutor.Pool.Post` | backend/src/core/io_executor.cpp:21-32 | the locked section of posting |
| `IoExecutor.Pool.Stop` | backend/src/core/io_executor.cpp:34-39 | the locked section of stopping; only the first call goes on |
| `IoExecutor.Pool.Take` | backend/src/core/io_executor.cpp:54-67 | the locked section of a worker |
| `Breaker.BackOffBound` | backend/src/cache/fallback_cache.cpp:35-79 | when every call fails, the k-th call behind the opening one starts no earlier than that failure plus the first k waits |
| `Breaker.FailBacks` | backend/src/cache/fallback_cache.cpp:56-79 | after n failures the fields are exactly the n-th wait and its end, and consecutive calls are spaced by the waits |
| `Breaker.WaitDoubles` | backend/src/cache/fallback_cache.cpp:71-77 | each wait doubles up to the cap |
| `Breaker.OneProbePerCooldown` | backend/src/cache/fallback_cache.cpp:35-79 | with a threshold, under any interleaving: between two half-open admissions a failure opens a window, and the second is not admitted before that window has ended |
| `Breaker.NoThresholdNoWindow` | backend/src/cache/fallback_cache.cpp:35-54 | without a threshold a success alone lets the next probe out |
| `Breaker.SoleProbe` | backend/src/cache/fallback_cache.cpp:35-79 | a probe stays the only one in flight until it reports if and only if no other call is in flight when it is admitted |
| `Breaker.AnotherMakesTwo` | backend/src/cache/fallback_cache.cpp:56-79 | with any other call in flight, its failure and one more call put a second probe beside the first, with the clock running forwards |
| `Breaker.RunKeepsOwner` | backend/src/cache/fallback_cache.cpp:35-79 | a probe in flight belongs to a caller that has not reported |
| `Breaker.NeverWedged` | backend/src/cache/fallback_cache.cpp:35-44 | once all callers have reported, a call behind the window is admitted |
| `Breaker.TwoProbesAtOnce` | backend/src/cache/fallback_cache.cpp:35-79 | for every breaker with a threshold there is a run from the start with two probes in flight at the same time |
| `Breaker.ClosedUntilThreshold` | backend/src/cache/fallback_cache.cpp:35-79 | over every run: calls go out without reserve exactly until as many as the threshold have failed in a row, and from then on only a lone probe behind the window |
| `Breaker.GoesOutWhenDue` | backend/src/cache/fallback_cache.cpp:35-79 | when every call fails, the next goes out if and only if fewer than the threshold have failed or the wait since the last failure is over |
| `Breaker.CircuitBreaker.AllowShared` | backend/src/cache/fallback_cache.cpp:35-44 | the decision and the half-open transition |
| `Breaker.CircuitBreaker.RecordSuccess` | backend/src/cache/fallback_cache.cpp:46-54 | the breaker closes |
| `Breaker.CircuitBreaker.RecordFailure` | backend/src/cache/fallback_cache.cpp:56-79 | the failure is counted and the window set |
| `FallbackCache.BoundedStaleness` | backend/src/cache/fallback_cache.cpp:86-132 | over every run with the shared tier changing at any step, what get answers was the shared value or set by this process less than the cap plus the copying latency ago |
| `FallbackCache.BoundIsReached` | backend/src/cache/fallback_cache.cpp:98-104 | that bound is attained, and the cap alone suffices exactly when copying takes no time |
| `FallbackCache.FactsHappened` | backend/src/cache/fallback_cache.cpp:86-132 | each fact the bound refers to is a step of the run |
| `FallbackCache.CapOfZeroNeverExpires` | backend/src/core/config.cpp:352-356 | a cap of zero would keep local copies for ever, which the configuration refuses |
| `TwoTierEffects.LocalHitAnswers` | backend/src/cache/fallback_cache.cpp:86-90 | a local hit is answered without the shared tier |
| `TwoTierEffects.MissAsksShared` | backend/src/cache/fallback_cache.cpp:92-113 | a local miss is answered by what the shared tier replies when the breaker lets the call through, by nothing otherwise, and the breaker learns how it went |
| `TwoTierEffects.FoundAgain` | backend/src/cache/fallback_cache.cpp:86-113 | what the shared tier replied is found again without asking it until the cap has passed |
| `TwoTierEffects.SetIsFound` | backend/src/cache/fallback_cache.cpp:116-132 | what was set is found locally, whatever became of the shared tier, for as long as asked and never longer than the cap |
| `TwoTierEffects.DeleteIsGone` | backend/src/cache/fallback_cache.cpp:134-152 | what was deleted is not found locally, whatever became of the shared tier |
| `FallbackCache.TwoTierCache.Get` | backend/src/cache/fallback_cache.cpp:86-114 | local tier, breaker, shared tier, local copy |
| `FallbackCache.TwoTierCache.Set` | backend/src/cache/fallback_cache.cpp:116-132 | the local tier first and unconditionally, then the shared one |
| `FallbackCache.TwoTierCache.Del` | backend/src/cache/fallback_cache.cpp:134-152 | both tiers, or the local one alone |
| `TwoTierCalls.CallRefines` | backend/src/cache/fallback_cache.cpp:86-152 | a call of get, set or del on the object is a run of the system, with the same local tier afterwards and the facts the call stands for |
| `TwoTierCalls.CallsRefine` | backend/src/cache/fallback_cache.cpp:86-152 | so is any sequence of calls, from a fresh object on |
| `TwoTierCalls.GetIsRecent` | backend/src/cache/fallback_cache.cpp:86-132 | after any calls, what get answers is what the shared tier answered to some call, or what some call put, less than the cap plus the copying latency ago |
| `Console.RunKeeps` | backend/src/server/console_api.cpp:690-1432 | over every run of requests an enabled administrator remains, administrators are unrestricted, every session is an up-to-date copy of an enabled account, and every key has an owner |
| `Console.StepKeeps` | backend/src/server/console_api.cpp:690-1432 | each single handler keeps all of that |
| `Console.OnlyAdministratorsGovern` | backend/src/server/console_api.cpp:1034-1432 | a request that is not an administrator's changes nobody's role, status, grants or existence, and nobody else's password or keys |
| `Console.SessionsAreEarned` | backend/src/server/console_api.cpp:732-776 | a new session needs a verified password of an enabled account |
| `Console.ChangesEndSessions` | backend/src/server/console_api.cpp:1263-1335 | changing or deleting an account ends every session it had |
| `Console.StrangersChangeNothing` | backend/src/server/console_api.cpp:585-609 | without a live session nothing changes but signing in or out |
| `Console.LastAdminStays` | backend/src/server/console_api.cpp:1093-1102 | the last enabled administrator survives any request |
| `ConsoleEffects.LoginAchieves` | backend/src/server/console_api.cpp:732-776 | signing in is for an enabled account's own password; the cookie then stands for it until its time is over, and nothing else changes |
| `ConsoleEffects.LogoutAchieves` | backend/src/server/console_api.cpp:790-813 | signing out ends the cookie's session and no other |
| `ConsoleEffects.CreateAchieves` | backend/src/server/console_api.cpp:1128-1208 | when exactly an account is created; it then signs in with its password alone, with its role and grants, and nobody else notices |
| `ConsoleEffects.PatchAchieves` | backend/src/server/console_api.cpp:1213-1335 | the fields asked for are set and the others kept, a promotion drops narrowing, a disabled account signs in no more, and when anything changed the sessions from before are over |
| `ConsoleEffects.WhenPatched` | backend/src/server/console_api.cpp:1213-1335 | a patch is made exactly when its sender manages users, it names an account and a field, an administrator who can sign in remains, and no administrator is narrowed |
| `ConsoleEffects.DeleteAchieves` | backend/src/server/console_api.cpp:1075-1126 | a deleted account signs in with no password, and its sessions and keys are gone while all others stay |
| `ConsoleEffects.WhenDeleted` | backend/src/server/console_api.cpp:1075-1126 | a deletion is made exactly when its sender manages users, it is of another account, and an administrator who can sign in remains |
| `ConsoleEffects.PasswordAchieves` | backend/src/server/console_api.cpp:1346-1432 | after a change the new password signs in and no other does, as what the account was; the sessions from before are over, and one's own new cookie stands for oneself |
| `ConsoleEffects.PasswordIsChanged` | backend/src/server/console_api.cpp:1346-1432 | it is made exactly with the current password for oneself, and by who manages users for others |
| `ConsoleEffects.IssueAchieves` | backend/src/server/console_api.cpp:903-947 | an issued key has its secret and its issuer as owner, and no other key changes |
| `ConsoleEffects.RevokeAchieves` | backend/src/server/console_api.cpp:950-978 | a revoked key is gone and no other is, exactly when it is one's own or one manages users |
| `ConsoleEffects.RotateAchieves` | backend/src/server/console_api.cpp:983-1025 | a rotated key has the new secret and its owner still, under the same condition |
| `ConsoleApi.SessionStore.OpenAt` | backend/src/server/console_session.cpp:41-47 | expired sessions swept, the new one stored unless its token is taken |
| `ConsoleApi.SessionStore.ResolveAt` | backend/src/server/console_session.cpp:53-60 | a token names its principal until it expires |
| `ConsoleApi.SessionStore.CloseUser` | backend/src/server/console_session.cpp:67-81 | exactly the account's sessions go, and are counted |
| `ConsoleApi.SessionStore.Sweep` | backend/src/server/console_session.cpp:88-92 | exactly the expired sessions go |
| `ConsoleApi.Api.CountEnabledAdministrators` | backend/src/storage/metadata_store.hpp:285-288 | the number of enabled administrators |
| `ConsoleApi.Api.Login` | backend/src/server/console_api.cpp:732-776 | a session for a verified, enabled account |
| `ConsoleApi.Api.Logout` | backend/src/server/console_api.cpp:790-815 | the session is dropped |
| `ConsoleApi.Api.CreateUser` | backend/src/server/console_api.cpp:1128-1208 | the checks in order, then the new record |
| `ConsoleApi.Api.PatchUser` | backend/src/server/console_api.cpp:1213-1335 | the checks in order, the fields one by one, and the sessions closed on a change |
| `ConsoleApi.Api.DeleteUser` | backend/src/server/console_api.cpp:1075-1126 | refusals, then keys, record and sessions |
| `ConsoleApi.Api.RevokeKeysOf` | backend/src/server/console_api.cpp:1108-1114 | exactly the owner's keys go, and are counted |
| `ConsoleApi.Api.ChangePassword` | backend/src/server/console_api.cpp:1346-1432 | own or other, checked accordingly; sessions closed, one reopened for oneself |
| `ConsoleApi.Api.IssueKey` | backend/src/server/console_api.cpp:903-947 | a key owned by its issuer |
| `ConsoleApi.Api.RevokeKey` | backend/src/server/console_api.cpp:950-978 | one's own key, or anybody's for a user manager |
| `ConsoleApi.Api.RotateKey` | backend/src/server/console_api.cpp:983-1025 | the id stays, the secret changes |
| `Keyspace.BoundIsExact` | backend/src/storage/keyspace.cpp:116-128 | between a prefix and its upper bound lies exactly what starts with the prefix |
| `Keyspace.SuccessorNone` | backend/src/storage/keyspace.cpp:116-128 | there is no bound exactly when the prefix is all 0xFF |
| `Keyspace.UpperBound` | backend/src/storage/keyspace.cpp:116-128 | the loop from the right computes that bound |
| `Keyspace.ObjectScanIsExact` | backend/src/storage/keyspace.cpp:33-46 | scanning a bucket's prefix meets that bucket's objects and no others |
| `Keyspace.UploadsSort` | backend/src/storage/keyspace.cpp:48-64 | upload rows sort by key, then by id |
| `Keyspace.PartsSort` | backend/src/storage/keyspace.cpp:68-81 | part rows sort by number |
| `Keyspace.AuditSorts` | backend/src/storage/keyspace.cpp:91-97 | audit rows sort by sequence |
| `Keyspace.ObjectsSort` | backend/src/storage/keyspace.cpp:33-46 | object rows sort by key |
| `Keyspace.ObjectKeyExact` | backend/src/storage/keyspace.cpp:130-134 | the decoder accepts exactly the encoder's rows of the bucket, and gives the key back |
| `Keyspace.UploadKeyPartsExact` | backend/src/storage/keyspace.cpp:136-149 | the decoder accepts exactly what the encoder writes for a NUL-free id, and gives it back |
| `Keyspace.PartNumberExact` | backend/src/storage/keyspace.cpp:151-162 | likewise for part numbers of 32 bits |
| `Keyspace.AuditSequenceExact` | backend/src/storage/keyspace.cpp:101-109 | likewise for sequences of 64 bits |
| `Keyspace.OthersRefused` | backend/src/storage/keyspace.cpp:130-162 | another bucket's or upload's row is refused |
| `RowKeys.KeysApart` | backend/src/storage/keyspace.cpp:27-114 | no two rows share a key, of whichever of the ten kinds they are |
| `RowKeys.ScanIsExact` | backend/src/storage/keyspace.cpp:27-128 | a scan of a kind, a bucket's objects or uploads, or an upload's parts, up to the prefix's bound, meets exactly the rows it is for |
| `Keyspace.ParseAuditSequence` | backend/src/storage/keyspace.cpp:101-109 | the loop reads the number big-endian |
| `Keyspace.AppendBigEndian64` | backend/src/storage/keyspace.cpp:21-25 | the shifts write it big-endian |
| `Codec.VarintReads` | backend/src/storage/codec.cpp:7-51 | every 64-bit number reads back, whatever is behind it |
| `Codec.StrReads` | backend/src/storage/codec.cpp:18-62 | every string reads back, whatever is behind it |
| `Codec.VarintIsLeb128` | backend/src/storage/codec.cpp:7-16 | each byte of a number is its group of seven bits, the high bit set on all but the last |
| `Codec.VarintIsShort` | backend/src/storage/codec.cpp:7-16 | a number takes no more bytes than it needs |
| `Codec.TooManyGroups` | backend/src/storage/codec.cpp:37-51 | a number of more than ten groups is refused |
| `Codec.Writer.WriteVarint` | backend/src/storage/codec.cpp:7-16 | the shifting loop writes the specified groups |
| `Codec.Writer.WriteString` | backend/src/storage/codec.cpp:18-21 | length, then bytes |
| `Codec.Reader.NextVarint` | backend/src/storage/codec.cpp:37-51 | the loop reads the specified number or refuses it |
| `Codec.Reader.NextString` | backend/src/storage/codec.cpp:53-64 | a length past the end is refused |
| `Records.CorsRulesRead` | backend/src/storage/records.cpp:40-79 | CORS rules read back, negative ages as none, exactly when there are at most 100 and every list is at most 1000 |
| `Records.CorsRulesRoundTrip` | backend/src/storage/records.cpp:40-79 | they read back unchanged exactly when, besides, no age is below -1 |
| `Records.ValidatedMayNotDecode` | backend/src/storage/records.cpp:61-64 | a configuration validation accepts but whose stored form does not decode |
| `Records.HeadersSurviveNewFields` | backend/src/storage/records.cpp:113-169 | known headers read back among up to 64 fields, whatever unknown ids are mixed in |
| `Records.HeaderTextReads` | backend/src/storage/records.cpp:133-169 | any field list decodes to the assignment of its fields, or is refused when over 64 |
| `Records.GrantsRead` | backend/src/storage/records.cpp:171-210 | grants read back, up to a million |
| `Records.OneAscendingOrder` | backend/src/storage/records.cpp:171-178 | the walk of an ordered map is unique, so the bytes are determined by the grants |
| `RecordsCodec.EncodeCorsRules` | backend/src/storage/records.cpp:40-55 | the encoding loops |
| `RecordsCodec.DecodeCorsRules` | backend/src/storage/records.cpp:57-79 | the decoding loops agree with the specified decoder in result and position |
| `RecordsCodec.EncodeContentHeaders` | backend/src/storage/records.cpp:113-131 | only headers that are present are written |
| `RecordsCodec.DecodeContentHeaders` | backend/src/storage/records.cpp:133-169 | the decoding loop |
| `RecordsCodec.EncodeBucketGrants` | backend/src/storage/records.cpp:171-178 | the entries in the map's order |
| `RecordsCodec.DecodeBucketGrants` | backend/src/storage/records.cpp:180-210 | the decoding loop |

## Left out

- The SHA-1 and SHA-256 arms of the checksum computer: they are calls into OpenSSL.
- HMAC, SHA-256, PBKDF2 and random tokens: parameters. That no two texts share a digest (`SignatureCovers.CollisionFree`), that a digest also determines its key (`SignatureCovers.KeysApart`), that a MAC is 32 bytes (`Chunked.MacIs32`) and that a hash verifies one password (`ConsoleEffects.Faithful`) are conditions of the results that need them and of no others. HMAC pads a short key with zeros, so `KeysApart` leaves out keys that differ in trailing NULs. `secureEquals` is equality.
- That a request as it arrives holds no line break in its method, path or headers is a condition (`SignedText.OnTheWire`); the HTTP layer that ensures it is not modelled.
- The C library's calendar: a parameter; that its two directions invert each other is a condition of `SigV4.DateRoundTrip`.
- Cache statistics, log lines and audit entries: they decide nothing.
- `std::sort` and the hash maps: any sort by a total order gives the modelled result; maps are maps, and the order in which loops visit them is left open.
- Relaxed atomics on the cache's accessed flags: a flag is set in the same step as the read that sets it.
- The clock's range: deadlines are unbounded integers and do not wrap.
- `QuotaLedger::all`, `capacity` and `instance`: reporting only.
- Taking the request apart in the console handlers (JSON types, cookies, the listener check), the sign-in throttle and the read-only routes; a generated access key id may coincide with an old one, and is then overwritten as in the store.
- A storage failure between the check and the write of a console handler: each handler body is one step.
- Tasks of the thread pool as code: a task is a number, and an exception it throws is caught as in the source.
- Text of XML errors and the reason a document is refused: every refusal of the parser is one `None`, every refusal of a CORS document is MalformedXML.
- CORS matching, preflights, bucket-name and range parsing, base64, role tables beyond the two permissions used: they would add easy members only.
- The storage engine beyond its calls of the ledger, RocksDB (a commit is one step, so the races inside the store between storing a part and ending its upload are not modelled), Redis, payload files, HTTP plumbing and the web frontend.
