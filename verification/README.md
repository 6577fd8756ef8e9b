# A verified model of a Proxmox VE SDK

The SDK is a Go client for the Proxmox VE REST API, shipped with a mock server. Most of it wraps
single REST calls. This project models the places where there is something to get wrong, and proves
what they promise.

| files | what they model |
|---|---|
| Options, Strings, Pieces, Numerals, StableSort, Sorting, Filtering, Forms | optional values, splitting, joining and trimming, decimal and hexadecimal text, one stable sort, sorted listings of sets, filters, submitted forms |
| ErrorClasses, RetryPolicy, Waiting, Endpoints, RunLoop, Tickets, Transport, Requests | one request as its caller sees it: classifying replies, backoff, the endpoint list, retry with sticky failover, ticket refresh, one replay |
| Interleaving, Disturbance, TicketMinting, ConcurrentRequests | the same loop, the ticket refresh, and whole requests that share both, with any number of concurrent callers, as step systems |
| PropertyStrings, PartReaders, NodeConfig, MockNode, AccountReaders, SlotReaders, WrittenReaders, NodeRoundTrip, NodeUpdates, NodeReadBack | a node's ACME settings: the SDK's codecs, decode and partial update, the mock's store and its own readers, and exactly when the two sides read the same |
| PluginData | the credentials of a DNS challenge plugin: sorted lines in base64 |
| StorageConfig, StorageServer, StorageEffects, StorageWrites | the mock's storage configuration: set-valued options, updates free of order, the digest that guards concurrent edits, what each handler leaves stored and reads report, and what the SDK sends |
| AccessList, OsdTree, ClusterFormation | the mock's access control list, OSD tree and cluster formation |

Objects whose methods update their fields are classes, loops are loops, and each method is proved
against a function or a predicate whose own properties are the lemmas. A map that Go visits in a
random order is visited here in an arbitrary order. The network, the clock, random numbers and
context cancellation are a `World` parameter that answers by position: how many sends or clock
readings went before. Each operation is also described by lemmas that speak of its inputs and results
alone, in replies, form fields and stored values, and not of the functions it is built from.

## What the model found

Where the code and its documentation differ, the model follows the code.

- With `Attempts <= 0` and one endpoint a request succeeds without a send; with more endpoints it
  reports them all exhausted without a send (`RunLoop.SuccessMeansAnswered`, `RunLoop.Finished`).
- With concurrent callers a call can report every endpoint exhausted without having contacted one of
  them (`Interleaving.ExhaustedCanMissOne`). It tried all of them exactly when no two of its rounds,
  moved on by the failovers others made meanwhile, fell on the same endpoint
  (`Disturbance.AllTriedExactly`); with two endpoints, when those were even in number
  (`Interleaving.TwoEndpointsTried`).
- Minting is serialised so that concurrent requests do not mint twice; that holds of unforced mints
  only (`TicketMinting.ForcedMintsRepeat`, `TicketMinting.UnforcedMintsSpaced`).
- The maximal delay does not cap the first delay (`RetryPolicy.CapHoldsExactly`). Delays grow and stay
  within bounds exactly as long as no turn of the backoff loop leaves the 64-bit range to its loss
  (`RetryPolicy.DelaysGrowExactly`); one that does can make a delay negative
  (`RetryPolicy.OverflowedDelay`), and so can the addition of jitter, exactly when the sum leaves that
  range (`RetryPolicy.JitterExactly`). The bound on how long a run sleeps needs none of this.
- A create form with a `digest` key of its own makes reads of the entry report that digest until an
  update deletes the key; right after such a create, `StorageServer.ForgedDigest` says exactly when
  the guard still protects a write.
- Extra parameters win over typed fields, except over a list that is sent (`StorageWrites.EncodeUpdate`).
- The SDK accepts an account or a domain that does not survive the round trip: one with a comma or
  with white space at an end (`PropertyStrings.NodeACMERoundTrip`, `PropertyStrings.ACMEDomainRoundTrip`).
- The mock keeps a reader of its own for a slot string so that mock and SDK do not read one
  configuration two ways. They still can, even when the SDK wrote it: a plugin text "p,domain=b" makes
  the SDK read the domain "b" and the mock the one that was set (`WrittenReaders.PluginNamesDomain`),
  and an account text can name domains to the SDK alone (`WrittenReaders.AccountNamesDomains`). For every
  slot and every account the SDK writes, the condition for agreement is exact
  (`WrittenReaders.SlotAgreesExactly`, `WrittenReaders.WrittenAccountAgrees`); values without commas
  always meet it (`NodeUpdates.CommaFreeMeets`).
- On hand-edited slot strings the SDK takes the last keyed domain or a bare one after it, the mock the
  first part or the first exactly keyed one (`SlotReaders.ReadersTake`). With one name in the string the
  condition for agreement is exact (`SlotReaders.OneNameAgreesExactly`,
  `SlotReaders.LoneNameAgreesExactly`); otherwise it is the part the mock takes against the last keyed
  one (`SlotReaders.FirstAgainstLast`).
- Revoking compares ids and not kinds: it spares the holders a spec does not name exactly when none of
  them shares an id with one it names (`AccessList.RevokeSparesOthersExactly`), so revoking a user's
  role also takes it from a group of the same name (`AccessList.RevokeTakesFromGroup`).

## Model

| member | source | states |
|---|---|---|
| RunLoop.SuccessMeansAnswered | proxmox/api/transport.go:279-322 | a finished run returns nil if and only if its last send was answered, or there is one endpoint and no attempt |
| RunLoop.ExhaustedTriedAll | proxmox/api/transport.go:279-322 | a run of one caller that reports all endpoints exhausted made exactly the planned sends, tried every endpoint, and left the active endpoint where it was |
| RunLoop.PlanLength | proxmox/api/transport.go:283-297 | the plan holds endpoints times attempts sends, none without attempts |
| RunLoop.RunDetermined | proxmox/api/transport.go:279-322 | replies and context determine a run: its sends, result and final endpoint |
| RunLoop.StoppedFinishes | proxmox/api/transport.go:297-317 | a run that stops in some round has sent a prefix of the cyclic plan, all but the last send transient, and stays on that round's endpoint |
| RunLoop.AllRoundsFinish | proxmox/api/transport.go:314-321 | after every round failed the run is exhausted and back at its starting endpoint |
| RunLoop.AfterIsModulo | proxmox/api/connection.go:80-88 | rotating k times is adding k modulo the number of endpoints |
| RunLoop.FullCircle | proxmox/api/connection.go:80-88 | rotating once per endpoint leads back |
| Transport.Transport.Attempt | proxmox/api/transport.go:298-305 | nothing is sent once the context is cancelled; otherwise one send to the active endpoint with the outcome of its reply |
| Transport.Transport.TryOnce | proxmox/api/transport.go:297-313 | one turn of the inner loop: stops on cancellation or a non-transient outcome, and otherwise waits if and only if an attempt is left |
| Transport.Transport.Wait | proxmox/api/transport.go:474-481 | one wait, of exactly that attempt's own jittered delay, and shorter only when the context ends meanwhile |
| Transport.Transport.TryEndpoint | proxmox/api/transport.go:287-313 | one endpoint's round: its sends, and a wait after every attempt but the last, in order, sleeping at most the delays of those attempts |
| Transport.Transport.RunRound | proxmox/api/transport.go:283-319 | one turn of the outer loop, failover included: the run is finished, or one more round of the plan is done |
| Transport.Transport.Execute | proxmox/api/transport.go:279-322 | the sends are those of a finished run of the plan from the active endpoint, their outcomes are the world's, and it waits for exactly the attempts its sends call for, sleeping between the sum of their delays, when the context does not end, and that of their longest jittered ones |
| Waiting.SleepBounded | proxmox/api/transport.go:297-313 | the delays of the attempts a run waits for add up to at most endpoints times (attempts - 1) times one jittered cap, whatever the policy |
| Waiting.WaitsOfRounds | proxmox/api/transport.go:297-313 | what a run waits for, by its number of sends alone: attempts 1, 2 and so on in each round, none between two endpoints |
| RetryPolicy.LongestIs | proxmox/api/retry.go:46-51 | a jittered delay is one and a half delays at most, rounded down, and nothing for a delay that is not positive |
| RetryPolicy.DelayAtMost | proxmox/api/retry.go:37-45 | no delay of any policy exceeds the larger of the initial and the maximal delay |
| Transport.Transport.DoRefresh | proxmox/api/credentials.go:148-175 | exactly one mint send to the active endpoint if and only if forced or still needed; the credentials hold the ticket and token of a 2xx reply with a ticket, for two hours from its stamp, and what they held before otherwise |
| Transport.Transport.Replay | proxmox/api/transport.go:182-187 | after an expired ticket: a forced refresh, then one more run from the same endpoint, whose result is returned |
| Transport.Transport.Serve | proxmox/api/transport.go:178-189 | the run, and its replay if and only if the ticket was found expired |
| Transport.Transport.DoRequest | proxmox/api/transport.go:171-190 | the whole request: refresh when two readings of the clock find less than five minutes left, run, replay; every send is the world's answer for its endpoint; ticket, token and expiry afterwards are those of the last refresh that succeeded |
| Transport.RequestBounded | proxmox/api/transport.go:171-190 | at most two runs and two mints: 2 times endpoints times attempts, plus 2 sends |
| Transport.ReplayOnlyAfterExpiry | proxmox/api/transport.go:183-188 | a replay or second mint implies the first run's last reply named the ticket as expired |
| Transport.RequestSuccess | proxmox/api/transport.go:171-190 | with attempts, nil if and only if the last send of the last run was answered; an expiry is returned exactly when the replay met one |
| Transport.RequestDetermined | proxmox/api/transport.go:171-190 | replies, clock and context determine the request: all sends, the result, the final endpoint |
| Transport.MintStores | proxmox/api/credentials.go:162-173 | a mint succeeds if and only if its reply is a 2xx that carries a ticket, and then ticket and token of that reply are stored with an expiry two hours from its stamp; otherwise nothing is |
| Requests.RequestReports | proxmox/api/transport.go:171-190 | with attempts, nil if and only if the last reply of the last run is a 2xx with a readable body that fits where it is decoded; otherwise the error of its status, or of giving up when it is one that is retried |
| Requests.RunReports | proxmox/api/transport.go:287-321 | the same of one run |
| Requests.MintReports | proxmox/api/credentials.go:162-172 | a first mint without a ticket in its reply ends the request, with nothing sent after it |
| Requests.RequestStores | proxmox/api/transport.go:171-190 | after a request the credentials hold ticket, token and expiry of the last mint whose reply carried a ticket, or what they held before |
| RunLoop.FailedRunReports | proxmox/api/transport.go:298-321 | a run whose last reply is retried was cancelled before the plan was through, or failed everywhere |
| Transport.Credentials.SetTicket | proxmox/api/credentials.go:114-120 | ticket, token and expiry are replaced together |
| ErrorClasses.RetriedExactly | proxmox/pverr/classify.go:21-61 | transient exactly: no response, an unreadable body, a status of 500 or more |
| ErrorClasses.ReauthExactly | proxmox/pverr/classify.go:38-46 | re-authentication exactly on 401 with a message that names the ticket |
| ErrorClasses.OutcomeCases | proxmox/pverr/classify.go:30-61 | what every reply comes to, by status, body and whether it is decoded |
| ErrorClasses.MessageCases | proxmox/api/transport.go:402-431 | the message is the envelope's, and empty without one |
| ErrorClasses.NamesTicketExactly | proxmox/pverr/classify.go:41-42 | a message names the ticket when one of the two phrases stands in it, in capitals or not |
| RetryPolicy.Delay | proxmox/api/retry.go:37-52 | the loop with its early exit yields the capped exponential backoff, with jitter added where the policy says so |
| RetryPolicy.NextDelay | proxmox/api/retry.go:37-45 | the first delay is the initial one; each next is the last times the factor, rounded toward zero, below the cap, and the cap otherwise |
| RetryPolicy.WholeFactorDelay | proxmox/api/retry.go:37-45 | for a whole factor, the initial delay times the factor to the number of earlier attempts, at most the cap, while products stay in 64 bits |
| RetryPolicy.DefaultDelays | proxmox/api/retry.go:26-34 | the default policy waits 200 ms, 400 ms and so on doubling, at most 10 s, whatever the attempt |
| RetryPolicy.JitterAdds | proxmox/api/retry.go:46-50 | jitter adds a random number reduced below half the delay |
| RetryPolicy.JitterExactly | proxmox/api/retry.go:46-51 | whatever is drawn, jitter adds less than half of the delay, and nothing to one too small to jitter, if and only if the sum stays in 64 bits |
| RetryPolicy.StepGrowsExactly | proxmox/api/retry.go:39-45 | one turn of the loop does not shrink the delay if and only if its product fits, or what it becomes out of range is no less |
| RetryPolicy.DelaysGrowExactly | proxmox/api/retry.go:37-45 | up to any attempt, delays never shrink and stay between initial and maximal delay if and only if every turn of the loop so far fits |
| RetryPolicy.AllDelaysGrowExactly | proxmox/api/retry.go:37-45 | the same for all attempts |
| RetryPolicy.SmallCapFits | proxmox/api/retry.go:37-45 | every turn fits when the maximal delay times the factor does |
| RetryPolicy.CapHoldsExactly | proxmox/api/retry.go:37-45 | every delay respects the cap if and only if the initial one does |
| RetryPolicy.OverflowedDelay | proxmox/api/retry.go:40 | a policy whose second delay is negative |
| Endpoints.NewConnection | proxmox/api/connection.go:42-67 | nothing if some address does not parse; otherwise first occurrences in stable priority order, starting at the first |
| Endpoints.FirstsKeepEachBase | proxmox/api/connection.go:47-60 | each declared base is kept exactly once |
| Endpoints.OrderedHolds | proxmox/api/connection.go:42-60 | the list holds the primary at priority 0 and, of the extras, the first of each base other than the primary's, and is built exactly when all their addresses parse |
| Endpoints.FirstsInOrder | proxmox/api/connection.go:47-60 | what is kept stands in the order of first declaration |
| Endpoints.OrderedIsStable | proxmox/api/connection.go:62-64 | non-empty, distinct bases, a permutation of the first occurrences, by priority with ties in declaration order |
| Endpoints.StableOrderUnique | proxmox/api/connection.go:62-64 | priority order and declaration order within a priority leave only one list |
| Endpoints.PrimaryFirst | proxmox/api/connection.go:40-67 | the primary comes first if and only if no kept endpoint has a negative priority |
| Endpoints.Connection.Failover | proxmox/api/connection.go:80-88 | advances cyclically, or reports that there is nothing to rotate to |
| Interleaving.RunKept | proxmox/api/transport.go:279-322 | in every interleaving of any number of calls, every call's reads, sends and result are those of whole rounds of its own |
| Interleaving.CurrentCountsFailovers | proxmox/api/connection.go:71-88 | the active endpoint is the starting one plus the failovers so far, modulo the number of endpoints |
| Interleaving.SendsBounded | proxmox/api/transport.go:283-319 | a call makes at most endpoints times attempts sends whatever the others do |
| Interleaving.RoundKeepsEndpoint | proxmox/api/transport.go:283-297 | all sends of one round go to the endpoint read when it began |
| Interleaving.RoundEndpoint | proxmox/api/connection.go:71-88 | a call's round i goes to its first endpoint moved on by i and by the failovers of others |
| Interleaving.ExhaustedTried | proxmox/api/transport.go:283-321 | an exhausted call tried exactly the endpoints its rounds read, each as often as there are attempts |
| Interleaving.TwoEndpointsTried | proxmox/api/transport.go:283-321 | with two endpoints it tried both if and only if the foreign failovers between its rounds are even in number |
| Disturbance.ForeignIsOthers | proxmox/api/connection.go:71-88 | the foreign failovers of a round are the failovers that actions of other callers made between the call's first begin and that round's |
| Disturbance.TriedExactly | proxmox/api/transport.go:283-321 | for any number of endpoints, an exhausted call tried an endpoint if and only if one of its rounds, moved on by the failovers of others, falls on it |
| Disturbance.AllTriedExactly | proxmox/api/transport.go:283-321 | it tried every endpoint if and only if no two of its rounds fell on the same one |
| Disturbance.UndisturbedTriesAll | proxmox/api/transport.go:283-321 | if no other caller failed over after its first begin, it tried every endpoint |
| Interleaving.ExhaustedCanMissOne | proxmox/api/transport.go:316-321 | a reachable state in which an exhausted call never contacted one endpoint |
| Interleaving.OwnStepDecreases | proxmox/api/transport.go:283-319 | every step of a call lowers its own measure |
| Interleaving.CallsTerminate | proxmox/api/transport.go:283-319 | a call takes a bounded number of steps in every interleaving, and an unfinished one can always take one |
| Interleaving.LoneCallFinishes | proxmox/api/transport.go:279-322 | a caller alone on its connection makes exactly a run of the sequential loop |
| Interleaving.LoneCallReaches | proxmox/api/transport.go:279-322 | and every run of the sequential loop is one that a lone caller can make, send by send |
| TicketMinting.RunKept | proxmox/api/credentials.go:135-175 | in every run one caller at most is past the lock, and the expiry is that of the last mint |
| TicketMinting.UnforcedMintsSpaced | proxmox/api/credentials.go:11-18 | an unforced mint comes more than 115 minutes after every earlier mint, forced or not |
| TicketMinting.UnforcedMintsRare | proxmox/api/credentials.go:144-155 | all callers together make at most one unforced mint per 115 minutes, and one more |
| TicketMinting.UnforcedMintsTight | proxmox/api/credentials.go:144-155 | and one can come 115 minutes and a nanosecond after another |
| TicketMinting.RecheckMints | proxmox/api/credentials.go:148-154 | under the lock a caller mints if and only if it is forced, nothing was minted, or the last mint is more than 115 minutes old |
| TicketMinting.ExpiryNeverDecreases | proxmox/api/credentials.go:114-120 | the expiry is the last mint plus two hours and never goes back |
| TicketMinting.OneMinterNoDeadlock | proxmox/api/credentials.go:148-150 | one minter at a time, and no deadlock |
| TicketMinting.ForcedMintsRepeat | proxmox/api/credentials.go:122-125 | a reachable state with three mints at one instant, two of them forced |
| ConcurrentRequests.Projected | proxmox/api/transport.go:171-190 | in every interleaving of whole requests, their calls make a run of Interleaving and their refreshes one of TicketMinting, so what holds of every run there holds here |
| ConcurrentRequests.RunKept | proxmox/api/transport.go:171-190 | in every interleaving, each request's calls and refreshes stand where its stage says, and it has returned in one of four ways |
| ConcurrentRequests.RequestSends | proxmox/api/transport.go:171-190 | what a request sends, in order: its mint if it made one, its run, the forced mint, the replay |
| ConcurrentRequests.RequestBounded | proxmox/api/transport.go:171-190 | whatever the others do, at most 2 times endpoints times attempts, plus 2 sends per request |
| ConcurrentRequests.ReplayFollowsExpiry | proxmox/api/transport.go:183-188 | a request mints by force only after its own first run ended with an answer that named the ticket as expired, and replays only with a ticket of its own minted after that |
| ConcurrentRequests.RequestResult | proxmox/api/transport.go:171-190 | with attempts, nil if and only if the last send of the request's last run was answered; an expiry exactly when the replay met one |
| ConcurrentRequests.MintResult | proxmox/api/credentials.go:166-171 | an error of the mint is returned right after that mint, and says what came of it |
| ConcurrentRequests.MintGoesToActive | proxmox/api/transport.go:368-371 | a mint goes to the endpoint that is active when it is addressed, whoever failed over before |
| ConcurrentRequests.MintsAreReplays | proxmox/api/credentials.go:122-175 | forced mints are exactly as many as replays begun, unforced ones as many as requests whose own first refresh got a ticket |
| ConcurrentRequests.RequestsTerminate | proxmox/api/transport.go:171-190 | a request takes a bounded number of steps, and while one has not returned some started request can take a step |
| ConcurrentRequests.FullRequest | proxmox/api/transport.go:171-190 | a request that logs in, finds the ticket expired, logs in again and is answered on its replay |
| Strings.JoinSplit | proxmox/nodes/nodeconfig.go:275-307 | joining what was split gives the text back |
| Strings.SplitJoin | proxmox/nodes/nodeconfig.go:275-307 | splitting what was joined gives the pieces back when none holds the separator |
| Strings.TrimExactly | proxmox/nodes/nodeconfig.go:282-291 | trimming takes the white space off both ends, and nothing else |
| Strings.SpaceCodes | proxmox/nodes/nodeconfig.go:282-291 | white space is what Unicode calls so |
| Numerals.AtoiItoa | proxmox/nodes/nodeconfig.go:261-271 | decimal text reads back as its number exactly when it fits 64 bits |
| Numerals.ItoaDigits | proxmox/nodes/nodeconfig.go:248-250 | decimal text, digit by digit |
| Numerals.Hex40Injective | proxmox/mockpve/storage.go:33-36 | no two versions share a zero-padded digest |
| Numerals.Hex40Digits | proxmox/mockpve/storage.go:33-36 | 40 lower-case hexadecimal places, most significant first |
| Sorting.SortedListingUnique | proxmox/mockpve/storage.go:279-284 | a set of strings has one strictly sorted listing |
| Sorting.LessExactly | proxmox/mockpve/storage.go:283 | the order of strings is that of the first difference, and a prefix comes first |
| Sorting.FirstOccurrencesInOrder | proxmox/mockpve/nodesadmin.go:605-613 | first occurrences stand in the order in which they were first seen |
| PropertyStrings.ParseNodeACME | proxmox/nodes/nodeconfig.go:275-294 | the parser yields the specified value, always one that can be written |
| PropertyStrings.NodeACMERoundTrip | proxmox/nodes/nodeconfig.go:275-307 | parsing what was encoded gives the value back if and only if its texts are plain |
| PropertyStrings.NodeACMEStable | proxmox/nodes/nodeconfig.go:275-307 | parse, encode, parse is parse, for every string |
| PropertyStrings.AccountText | proxmox/nodes/nodeconfig.go:297-307 | the account string as it is written, key by key |
| PartReaders.AccountReads | proxmox/nodes/nodeconfig.go:275-294 | on every string, the account is what the last part assigns that assigns to it |
| PartReaders.DomainsRead | proxmox/nodes/nodeconfig.go:283-290 | and the domains are those of all parts that assign to them, in order |
| PropertyStrings.ParseACMEDomain | proxmox/nodes/nodeconfig.go:315-346 | the slot parser yields the specified value or none, and only values that can be written |
| PropertyStrings.ACMEDomainRoundTrip | proxmox/nodes/nodeconfig.go:315-360 | a slot survives its round trip if and only if it names a domain and its texts are plain |
| PropertyStrings.ACMEDomainStable | proxmox/nodes/nodeconfig.go:315-360 | parse, encode, parse is parse, for every slot string that parses |
| PropertyStrings.SlotText | proxmox/nodes/nodeconfig.go:349-360 | the slot string as it is written, key by key |
| PartReaders.SlotReads | proxmox/nodes/nodeconfig.go:315-346 | on every string, plugin and alias are what the last part assigns that assigns to them |
| NodeConfig.SlotIndexInverse | proxmox/nodes/nodeconfig.go:248-271 | the keys read as slot i are exactly the one printed for i |
| NodeConfig.Decode | proxmox/nodes/nodeconfig.go:82-135 | whatever the order of the keys, the result is a decoded form of the object |
| NodeConfig.DecodeUnique | proxmox/nodes/nodeconfig.go:82-135 | an object has one decoded form |
| NodeConfig.DecodePartition | proxmox/nodes/nodeconfig.go:82-135 | each key ends up in exactly one typed field or in Extra, and nothing else does |
| NodeConfig.DecodeValues | proxmox/nodes/nodeconfig.go:94-134 | the account and digest are decoded when they are text, and every key of Extra holds its member's text, its raw token, or nothing for null |
| NodeConfig.DecodedSlot | proxmox/nodes/nodeconfig.go:112-126 | the slots are exactly those whose key holds a text that describes them |
| NodeConfig.DecodeLossless | proxmox/nodes/nodeconfig.go:82-135 | two objects with one decoded form have the same keys, the digest aside, and the same members in Extra, up to null for an empty text and a token for a text that reads the same |
| NodeConfig.PrepareUpdate | proxmox/nodes/nodeconfig.go:179-231 | what is refused and why, checked before anything is sent, and the form that is sent otherwise |
| NodeConfig.PrepareSlots | proxmox/nodes/nodeconfig.go:203-222 | slots are accepted if and only if in range, named and given once; the first offence is reported |
| NodeConfig.FirstOffenceExactly | proxmox/nodes/nodeconfig.go:203-218 | of the first slot that cannot be sent, which reason is given: its index, else its missing domain, else that the index was given before |
| NodeUpdates.FormSlotOrExtra | proxmox/nodes/nodeconfig.go:179-222 | a form key outside the account and guards is a slot of the update, or else an unmodelled one |
| MockNode.NodeStore.SetConfig | proxmox/mockpve/acme.go:388-426 | deletes, then sets, when the digest lets the form through; other nodes are untouched |
| MockNode.NodeStore.GetConfig | proxmox/mockpve/acme.go:356-381 | the stored keys with the digest, or the one property asked for |
| MockNode.CollectNames | proxmox/mockpve/nodesadmin.go:605-629 | the slots' names, then the legacy list's, each once |
| MockNode.NamesAreFirstOccurrences | proxmox/mockpve/nodesadmin.go:605-613 | what is collected is the trimmed, non-empty candidates at their first place |
| MockNode.CertifiedExactly | proxmox/mockpve/nodesadmin.go:605-629 | on every configuration, the names are those found in the six slots and those the account string lists, trimmed and not empty |
| WrittenReaders.MockReadsBack | proxmox/mockpve/nodesadmin.go:588-599 | the mock reads a written domain back if and only if it holds no comma and no white space at its ends |
| SlotReaders.ReadersTake | proxmox/mockpve/nodesadmin.go:580-599 | on every string, what each reader takes by the place of the parts, and that they agree exactly when it is the same |
| SlotReaders.SDKReadsSayings | proxmox/nodes/nodeconfig.go:315-346 | the SDK's parser sees of each part only what it says about the domain |
| SlotReaders.OneNameAgreesExactly | proxmox/mockpve/nodesadmin.go:588-599 | where one part names a domain, the readers agree if and only if both take it or neither does, by the place and spelling of the parts |
| SlotReaders.LoneNameAgreesExactly | proxmox/mockpve/nodesadmin.go:588-599 | and if no other part is keyed with the domain, exactly when the name is first and bare, or keyed exactly and the first part not blank |
| SlotReaders.FirstAgainstLast | proxmox/nodes/nodeconfig.go:315-346 | whichever part the mock takes, and where the last keyed one is not blank, the readers agree exactly when the two name the same |
| SlotReaders.BareAfterKeyedDiffers | proxmox/mockpve/nodesadmin.go:580-599 | a family of hand-edited slots the two readers read differently |
| WrittenReaders.MockReadsWritten | proxmox/mockpve/nodesadmin.go:588-599 | of every slot the SDK writes the mock takes the domain up to its first comma |
| WrittenReaders.SlotAgreesExactly | proxmox/mockpve/nodesadmin.go:588-599 | for every slot the SDK writes, the readers agree if and only if what the further pieces of its texts say leaves the SDK with the domain's first piece |
| WrittenReaders.SlotAgreesWhen | proxmox/nodes/nodeconfig.go:315-360 | the same in plain terms: no further keyed piece, or the last one, or a bare one after it, names the first piece again |
| WrittenReaders.PluginNamesDomain | proxmox/nodes/nodeconfig.go:349-360 | a plugin text that holds a keyed domain: the SDK reads that one, the mock the domain that was set |
| AccountReaders.AccountAgreesExactly | proxmox/mockpve/nodesadmin.go:622-628 | for every account string, the two domain lists are the same if and only if each part keyed with the list, but not spelled just so, has no items |
| WrittenReaders.WrittenAccountAgrees | proxmox/nodes/nodeconfig.go:275-307 | for every account the SDK writes, they are the same if and only if that holds of the further pieces of its texts |
| WrittenReaders.AccountNamesDomains | proxmox/nodes/nodeconfig.go:297-307 | an account text that names domains to the SDK alone |
| NodeRoundTrip.DecodedSlots | proxmox/nodes/nodeconfig.go:104-128 | the decoded slots up to the last writable one are exactly the stored ones in index order, whatever else is stored |
| NodeRoundTrip.NamesCertified | proxmox/mockpve/nodesadmin.go:605-629 | where the readers agree on each key, the certified names are the SDK's slot domains in index order, then its legacy domains, first occurrences only |
| NodeUpdates.UpdateEffect | proxmox/mockpve/acme.go:388-426 | an update sets what it names, deletes what its delete text lists, commas inside an item included, and leaves every other key |
| NodeReadBack.SlotsAfterUpdate | proxmox/mockpve/acme.go:388-426 | after an update of plain values that went through, the SDK reads exactly its slots, and those read before whose index it does not give and whose key it does not delete |
| NodeReadBack.SentSlotReadsBack | proxmox/nodes/nodeconfig.go:203-222 | a slot that was sent reads back as given if and only if its texts are plain |
| NodeReadBack.AccountAfterUpdate | proxmox/nodes/nodeconfig.go:190-202 | so does the account; without one in the update it is what was read before, or nothing when deleted |
| NodeReadBack.DigestGuards | proxmox/mockpve/acme.go:388-426 | an update with a digest goes through if and only if that is the digest a read reports |
| NodeUpdates.FirstUpdateMeetsExactly | proxmox/nodes/nodeconfig.go:179-231 | an accepted first update without raw ACME keys leaves a node on which the readers agree if and only if they take each of its values alike |
| NodeUpdates.CommaFreeMeets | proxmox/nodes/nodeconfig.go:179-231 | they take all values without commas alike |
| NodeUpdates.RunKeepsMeeting | proxmox/nodes/nodeconfig.go:179-231 | every run of updates whose values the readers take alike keeps a node on which they agree |
| NodeUpdates.RunCertifies | proxmox/mockpve/nodesadmin.go:605-629 | after any such run on a fresh node, an order certifies exactly the names the SDK reads, those of the writable slots in index order and then the legacy ones, each once |
| NodeUpdates.WriteBackAccepted | proxmox/nodes/nodeconfig.go:190-215 | writing back what was read is refused exactly when the account string modelled nothing or a slot lies above the range |
| NodeUpdates.WriteBackReadsSame | proxmox/mockpve/acme.go:388-426 | writing back what was read reads as the same value again |
| PluginData.Base64RoundTrip | proxmox/nodes/acmeproviders.go:167 | decoding base64 (section 4 of RFC 4648) gives the encoded bytes back |
| PluginData.Base64Groups | proxmox/nodes/acmeproviders.go:167 | every four characters are the base-64 digits, in the standard's alphabet, of the three bytes they stand for, padded for missing ones |
| PluginData.EncodePluginData | proxmox/nodes/acmeproviders.go:153-168 | whatever the map order, the base64 of the non-empty lines in key order |
| PluginData.TextLines | proxmox/nodes/acmeproviders.go:153-166 | the encoded text is a line key=value for every key with a value, keys ascending |
| PluginData.PluginDataRoundTrip | proxmox/nodes/acmeproviders.go:153-168 | decoding gives the non-empty entries back if and only if each fits a line |
| PluginData.PluginDataEmpty | proxmox/nodes/acmeproviders.go:149-152 | empty exactly when every value is |
| StorageConfig.NormalizeSet | proxmox/mockpve/storage.go:269-285 | the sorted, comma-joined listing of the list's item set |
| StorageConfig.NormalizedIdempotent | proxmox/mockpve/storage.go:264-285 | the normal form holds the same items, and normalising it changes nothing |
| StorageConfig.NormalizedCanonical | proxmox/mockpve/storage.go:264-285 | two lists share a normal form exactly when they hold the same items |
| StorageEffects.NormalizedExactly | proxmox/mockpve/storage.go:269-285 | the normal form is the one text that lists the trimmed, non-empty items once each, ascending |
| StorageConfig.ApplyKeys | proxmox/mockpve/storage.go:306-326 | setting the submitted keys gives one record whatever their order |
| StorageConfig.ClearKeys | proxmox/mockpve/storage.go:329-346 | clearing the listed keys gives one record, repeats included |
| StorageServer.Server.HandleCreate | proxmox/mockpve/storage.go:348-393 | refused or stored with a new version, as the function on values says |
| StorageServer.Server.HandleUpdate | proxmox/mockpve/storage.go:395-436 | fixed keys, missing entry and stale digest refuse, in that order; otherwise deletes, sets and a new version |
| StorageServer.Server.HandleDelete | proxmox/mockpve/storage.go:438-452 | removes the entry with a new version, or 404 |
| StorageServer.Server.HandleGet | proxmox/mockpve/storage.go:237-262 | the payload with the current digest, or nothing |
| StorageServer.UpdateKeyByKey | proxmox/mockpve/storage.go:421-433 | a set key ends set even when also deleted, a deleted one empty, any other as before |
| StorageServer.CreateKeyByKey | proxmox/mockpve/storage.go:368-384 | a new entry holds what was submitted and nothing else, but for the mount point made up for a ZFS pool without one |
| StorageEffects.UpdateEffect | proxmox/mockpve/storage.go:395-436 | when an update is let through; then its entry holds, field by field and key by key, the submitted, cleared or previous value, every other entry is as before, and one more write is counted; refused, it changes nothing |
| StorageEffects.CreateEffect | proxmox/mockpve/storage.go:348-393 | when a create is let through; then the entry holds what was submitted and the others are as before |
| StorageEffects.DeleteEffect | proxmox/mockpve/storage.go:438-452 | a delete removes an entry that is there, and that alone |
| StorageEffects.PayloadExactly | proxmox/mockpve/storage.go:661-688 | every member a read returns, and that it returns no others |
| StorageEffects.LastWriteReads | proxmox/mockpve/storage.go:237-436 | in every run, a read reports what the last update to write a key submitted for it, and nothing after a delete, until the key or the entry is touched again |
| StorageServer.VersionTells | proxmox/mockpve/storage.go:33-36 | versions never go back, and an unchanged one means no write happened |
| StorageServer.GuardedUpdate | proxmox/mockpve/storage.go:417-420 | an update with an earlier digest goes through if and only if nothing was written since, the entry exists and no fixed key is submitted |
| StorageServer.DigestSpent | proxmox/mockpve/storage.go:23-36 | of two updates with one non-empty digest, in any run, the second is refused |
| StorageServer.ReadProtectsExactly | proxmox/mockpve/storage.go:417-435 | a read's digest protects the write after it if and only if it is neither empty nor that of a later version |
| StorageServer.NoLostUpdate | proxmox/mockpve/storage.go:348-452 | in every run whose creates carry no digest, every read protects the write that follows |
| StorageServer.ReadsReportOwn | proxmox/mockpve/storage.go:661-688 | in every run, a read reports its own entry's type, and its own name when no update submits one |
| StorageServer.ForgedDigest | proxmox/mockpve/storage.go:368-374 | right after a create that carries a digest: when a read still protects a write, exactly |
| StorageServer.RunKeepsConsistent | proxmox/mockpve/storage.go:348-452 | in every run each entry is filed under its own name and has a type |
| StorageServer.TypeKept | proxmox/mockpve/storage.go:298-301 | an entry keeps its type until it is deleted |
| StorageServer.PayloadReports | proxmox/mockpve/storage.go:661-688 | what a read reports as name, type and digest, unmodelled keys of those names included |
| StorageWrites.EncodeUpdate | proxmox/storage/datastore.go:175-184 | key by key, what the form of an update holds; an extra parameter is what is sent under its key unless a different list is |
| StorageWrites.EncodesExactly | proxmox/storage/datastore.go:175-184 | the form holds each list that is not empty, joined, every other unmodelled parameter, every other field, and nothing more |
| StorageWrites.NothingSent | proxmox/storage/datastore.go:172-184 | the form is empty exactly when nothing is set |
| StorageWrites.ListStored | proxmox/mockpve/storage.go:306-313 | every list the SDK sends is stored in the normal form of its joined text, without commas in its items the sorted set of its trimmed, non-empty items |
| StorageWrites.ListReadsBack | proxmox/storage/datastore.go:152-184 | it reads back as the same set if and only if every item was trimmed, not empty and free of commas |
| StorageWrites.ListOrderIrrelevant | proxmox/storage/datastore.go:152-184 | the order and spelling of lists leave no trace in the stored record |
| AccessList.CSVRoundTrip | proxmox/mockpve/access.go:595-600 | a joined list is split back exactly when no item holds a comma and it is not one empty item |
| AccessList.Table.Remove | proxmox/mockpve/access.go:584-593 | compaction in the same array leaves exactly the entries that do not match, in order |
| AccessList.Table.HandleSet | proxmox/mockpve/access.go:528-559 | the nested loops over subjects and roles append or remove what the specification says |
| AccessList.RefusedExactly | proxmox/mockpve/access.go:537-542 | refused, without a change, exactly without a path or without roles |
| AccessList.GrantAppends | proxmox/mockpve/access.go:545-582 | a grant leaves the list as it was and puts behind it one entry for each subject and role, subjects and roles in turn, each at its place with its kind |
| AccessList.RevokeLeaves | proxmox/mockpve/access.go:545-593 | a revocation leaves, in order, exactly the entries whose path, role and id the form does not name |
| AccessList.UncoveredTwice | proxmox/mockpve/access.go:545-552 | revoking pair after pair is revoking all pairs at once |
| AccessList.GrantThenRevoke | proxmox/mockpve/access.go:545-557 | a grant revoked with its own spec leaves the original list less what the spec covers: the original if and only if it covers nothing there |
| AccessList.RevokeSparesOthersExactly | proxmox/mockpve/access.go:584-593 | for every list and spec, revoking spares all entries of holders the spec does not name if and only if none of those it would cover shares an id with a named one |
| AccessList.RevokeTakesFromGroup | proxmox/mockpve/access.go:584-593 | a witness: revoking a user's role removes a group's entry of the same name |
| Filtering.KeepingTwice | proxmox/mockpve/access.go:584-593 | filtering in two goes is filtering by both conditions |
| OsdTree.BuildTree | proxmox/mockpve/ceph.go:183-202 | the tree is the grouping of the list by host in first-seen order |
| OsdTree.TreeGroups | proxmox/mockpve/ceph.go:183-202 | each host is there once, with exactly its own OSDs in input order, at least one |
| OsdTree.LeavesAre | proxmox/mockpve/ceph.go:192-194 | each leaf is an OSD of its host with its id, its name and the status up |
| OsdTree.HostsInOrder | proxmox/mockpve/ceph.go:186-198 | hosts stand in the order in which the list first names them |
| OsdTree.TreeHoldsList | proxmox/mockpve/ceph.go:183-202 | flattening the tree is a permutation of the list |
| ClusterFormation.Cluster.HandleCreate | proxmox/mockpve/cluster.go:223-247 | founds the cluster with the self node, once |
| ClusterFormation.Cluster.HandleJoin | proxmox/mockpve/cluster.go:283-323 | validates, takes the next queued name and adds it unless it is a member |
| ClusterFormation.Cluster.HandleConfigNodes | proxmox/mockpve/cluster.go:328-339 | the members with their position plus one as node id |
| ClusterFormation.CreateEffect | proxmox/mockpve/cluster.go:223-247 | when a create founds the cluster, under which name and with which node, and that it changes nothing otherwise |
| ClusterFormation.JoinEffect | proxmox/mockpve/cluster.go:283-323 | exactly when a join takes the next queued name, and what it leaves |
| ClusterFormation.MembersAreFirstTaken | proxmox/mockpve/cluster.go:241-319 | in every reachable state: clustered if and only if there are members, the queue is what is left of the queued names, and the members are the founder and the taken names at their first place |
| ClusterFormation.FounderIsSelf | proxmox/mockpve/cluster.go:241-244 | in every run, the first member is the node that was self when the cluster was created |
| ClusterFormation.ClusteredByCreate | proxmox/mockpve/cluster.go:236-242 | a server is clustered exactly after a create that founded the cluster, and there is one at most |
| ClusterFormation.MembersDistinct | proxmox/mockpve/cluster.go:314-319 | members are pairwise distinct |
| ClusterFormation.NodeIdsStable | proxmox/mockpve/cluster.go:319-336 | whatever happens next, a member keeps its node id |
| ClusterFormation.JoinsConserved | proxmox/mockpve/cluster.go:312-319 | names taken from the queue are accepted joins plus duplicates, and members are one more than accepted joins |

## Left out

- HTTP, TLS, SSH, SFTP, websockets, uploads and streaming: a send is an arbitrary reply of the `World`.
- Parsing of addresses: the base URL is an uninterpreted function of the address that may fail.
- A request that cannot be encoded or built, in `doHTTP` or `doRaw`: a send that yields no response counts as transient, as a network error does.
- The generic form encoder and decoder (`svcutil`) are not part of this model. It is assumed that encoding yields the set fields overlaid with Extra, and that decoding keeps every unmodelled member as its string or raw token.
- Forms are maps to the first value of each key; a repeated key is not modelled.
- Rounding of the backoff product: the factor is an exact real, and the product is truncated to whole nanoseconds. What a product outside the 64-bit range becomes is a parameter, as the language leaves it open.
- The zero time as "no expiry" is an option value.
- Wrap-around of the storage version counter at 64 bits.
- A storage record is a value in the map that an update replaces; in the code it is updated through a pointer, under the server's lock throughout.
- The table's array grows by doubling; which capacity Go's `append` chooses is not modelled, and no result depends on it.
- The mock node's configuration digest is a constant, so its guard never detects a concurrent edit; nothing of the kind is claimed.
- Create-fixed keys other than the type: an update can still clear a path through its delete list, so no immutability is claimed.
- Ticket and CSRF token are read under separate locks, so a matched pair within one request is not claimed.
- Strings are sequences of Unicode code points and invalid UTF-8 is not modelled, except in PluginData, where every character is one byte.
- The storage payload's numbers for `shared` and `disable` are the text "1", and seeded entries and usage figures are absent.
- The system of concurrent requests is that of user credentials, whose tickets are minted; a token never is.
- Authentication checks, task identifiers and response envelopes of the mock's handlers.
- The remaining services and mock handlers (networks, metrics, backup, console, firewall, HA, containers, virtual machines): single writes to a map that would add only easy members.
- Tasks, version checks, schema comparison and lab tooling: their code is not part of this model.
