# Verified cores of gwag

gwag is a schema gateway: it takes proto, OpenAPI and GraphQL services, offers them as one GraphQL schema, and forwards
requests and subscriptions to them. Most of it is plumbing. This project models the small, dense parts where a mistake
would be silent (byte scanners, printers, pattern algebra, graph walks, concurrent state machines and registries) and
proves what each of them is for.

## How the models are built

- **Bytes and trees.** `JsonSyntax` has concrete JSON trees that keep white space, number texts and escaped string
  bodies, so that rendering reaches every well-formed text. The scanners and splicers are methods over bytes with the
  source's loops; each is proved equal to a function, and that function is proved equal to a rewrite or projection of
  the tree (`TypenameScan`, `TypenamePrefix`, `OpenApiWalker`, `JsonString`, `CanonicalJson`, `FanoutKeys`,
  `CanonicalText`). `JsonText` singles out the trees whose rendering is a JSON text, and `JsonTrees` shows that no text
  has two trees. `Mirror` is the request side of the GraphQL mirror, and `ResponseNames` sets its responses against the
  local schema.
- **Algorithms.** `ChannelAuth` (channel patterns and tiers), `McpGlob` (`**` globs and the allow list), `TypeClosure`
  (depth-first walk over a cyclic type graph). `DotSegments` and `Lists` hold what several of them share.
- **State machines.** `SubBroker`, `Quota`, `FailoverBus`, `ConfigCas` and `StreamSlots` describe concurrency as steps,
  one step for each section under a lock, or for each part of it that others can see without the lock. A run is any
  sequence of enabled steps, so the theorems speak of every interleaving of any number of callers. A class with the
  source's fields stands beside each machine; its methods have the source's branches and loops, and their contracts say
  that the new state is the step's result.
- **Registries.** `Pools` (copy-on-write replica lists and slots), `Reconciler` and `ControlPlane` (reference-counted
  connections), `CallerLimiter` (metric labels), `Keys` (key printers and parsers).

What comes from outside is a parameter: the clock, whether a dial, a read or a write succeeds, the answer of a delegate,
the order in which a map is walked, what other writers do in between. Integers are unbounded except where the width
matters: the 32-bit permit counter of a quota bucket and the 64-bit result of parsing a version number.

## Results that are not what a reader of the comments would expect

- **A stale reader resets the subscription broker.** When the reader of a connection that was shut down notices it, it
  resets whatever the broker has by then, a fresh connection with live fanouts included.
  `SubBroker.FailureStaysHomeExactly` says when a failure stays with its own connection, and `SubBroker.StaleReaderRun`
  shows a run in which it does not.
- **Deregistration leaks reconciler connections in cluster mode.** The receiving gateway drops the replicas by owner
  before their delete events arrive, so that those find nothing to release (gw/control.go:548-552,
  gw/reconciler.go:193-220). An "unstable" swap loses connections the same way, although gw/slot.go:203-209 says that
  they are released later. `Reconciler.RefsExactly` says exactly when no connection is lost, and
  `Reconciler.DeregistrationLeaks` and `Reconciler.SwapLeaks` are logs that lose one.
- **A failed registration is not rolled back behind an "unstable" swap.** `ControlPlane.RollbackRestoresExactly` has the
  condition, and in `ControlPlane.FailedBehindSwap` a live registration loses its slot to one that fails.
- **Variables that cannot be encoded share a fanout key** with others, because the printer's error is dropped
  (`FanoutKeys.KeyIsUniqueExactly`). It does no harm: an acquire opens a fanout only for variables that it can encode
  (gw/graphql_sub_broker.go:125-129), and `FanoutKeys.SameKeySameOperation` says that nobody else, encodable or not, has
  the key of such a fanout.
- **The quota window can exceed its limit**: on an outage, or if the delegate names a time that has passed, when the
  emergency window is longer than the limit (`Quota.GrantWindow`). Block sizes from 2^31 on turn negative
  (`Quota.AnswersGoodExactly`).
- **A GraphQL source that a service of another kind has overtaken is asked for wrong types.** The renderer compares
  versions over all services of a namespace, the mirror over its GraphQL sources only. With GraphQL v1 and proto v2 the
  schema says a_v1_C, and the mirror, which takes v1 for the latest, strips a_ and asks for v1_C
  (`Mirror.OvertakenMisnamed`). `Mirror.RemoteSeesOwnNames` says exactly which selections reach the service unharmed.
- **Responses of a source that is not the latest for the renderer misname their types.** The local schema spells them
  `<ns>_<vN>_X`, but the response rewrite writes `<ns>_` for every source (`ResponseNames.ResponseNamesLocal`).
- **A refill can overwrite permits that could still be spent**, by a call that read the clock before their window closed
  and has not debited yet (`Quota.InstallOverwrites`, `Quota.SpendableOverwritten`).
- **The caller limiter never evicts**, although gw/caller_id.go:216-219 describes LRU eviction
  (`CallerLimiter.AdmittedAreFirst`).
- Where code and comments differ, the code is followed: `appendJSONString` does not escape `/`; `appendUnion` skips a
  plain field on a union and emits no null; the response prefix is `<ns>_` whether or not the source is the latest;
  `parseVersion` accepts `v+3`; `parseReplicaKey` accepts empty parts.

## Model

| member | source | states |
|---|---|---|
| JsonSyntax.SkipSpaceExact | gw/graphql_mirror.go:158-162 | white space before a token is skipped in full, whatever stands around it |
| TypenameScan.IndexAtKey | gw/graphql_mirror.go:207-238 | the loop finds the first place where the quoted key begins a string token in a key position (behind `{`, `,` or the start of the slice, and white space), not inside a string, and -1 if there is none |
| TypenameScan.PrefixResponseTypenames | gw/graphql_mirror.go:140-198 | the restarting scanner computes the rounds of search, copy and insertion on every byte string, cut-off ones included |
| TypenameScan.PrefixValues | gw/graphql_mirror.go:140-198 | the main loop, for any key and prefix |
| TypenameScan.CopySpace | gw/graphql_mirror.go:158-173 | the white space loops copy exactly the skipped bytes |
| TypenameScan.CopyString | gw/graphql_mirror.go:178-195 | a string value is copied to its closing quote, escapes included |
| TypenameScan.FindKeyShift | gw/graphql_mirror.go:150 | searching a suffix of the text finds what searching from that position finds |
| TypenamePrefix.ScanMeetsMachine | gw/graphql_mirror.go:140-238 | on every text whose strings are closed, JSON or not, the restarting byte scanner does what a three-state machine over tokens does |
| TypenamePrefix.SameString | gw/graphql_mirror.go:207-238 | a string token matches the quoted key if and only if its escaped body is the key's |
| TypenamePrefix.StringSkipped | gw/graphql_mirror.go:212-219 | the search leaves a string token behind its closing quote, whatever quotes are escaped in it |
| TypenamePrefix.SearchStops | gw/graphql_mirror.go:207-238 | the search stops exactly where the machine enters the state behind a key |
| TypenamePrefix.BehindKey | gw/graphql_mirror.go:157-168 | behind a key the scanner goes on only over white space to a colon, and else starts over |
| TypenamePrefix.BehindColon | gw/graphql_mirror.go:169-196 | behind the colon only a string value gains the prefix |
| TypenamePrefix.ElementRun | gw/graphql_mirror.go:121-198 | on the tokens of a JSON tree the machine prints the rewritten tree |
| TypenamePrefix.MembersRun | gw/graphql_mirror.go:121-198 | the same for the members of an object, commas included |
| TypenamePrefix.ItemsRun | gw/graphql_mirror.go:121-198 | the same for arrays: a key as an array element rewrites nothing |
| TypenamePrefix.ScanIsRewrite | gw/graphql_mirror.go:140-238 | for every tree, any white space and any key: scanning the rendered bytes gives the rendering of the tree in which the string values of the members with that key gain the prefix and nothing else changes |
| TypenamePrefix.TypenamesPrefixed | gw/graphql_mirror.go:121-198 | the same for `__typename` and `<ns>_`, at any depth, and never inside strings, at array elements or at values that are not strings |
| TypenamePrefix.RewriteAt | gw/graphql_mirror.go:121-198 | what that tree is, at every place: the element looks as before, and a string keeps its body, but with the prefix in front if it is the value of a member of the name |
| Mirror.ShortUndone | gw/graphql_mirror.go:101-113 | removing `<ns>_` gives the remote name back if and only if it is not empty and, for a source that is not the latest, does not itself begin with `<version>_` |
| Mirror.LongUndone | gw/graphql_mirror.go:101-107 | the versioned prefix is undone for every name but the empty one |
| Mirror.RewriteUndoes | gw/graphql_mirror.go:51-94 | a whole selection is restored exactly if each type condition in it is |
| Mirror.ShortSpellingRestored | gw/graphql_mirror.go:51-113 | from the spelling with `<ns>_` the remote service gets its own selection back if and only if every type condition is a safe name |
| Mirror.LongSpellingRestored | gw/graphql_mirror.go:51-113 | from the versioned spelling it does if and only if no condition is empty |
| Mirror.LatestGraphQL | gw/graphql_register.go:33-44 | the loop finds the highest version among the GraphQL sources, none exactly if there is none |
| Mirror.LongKept | gw/graphql_mirror.go:101-113 | a mirror that takes its source for the latest never undoes the versioned prefix |
| Mirror.RemoteSeesOwnNames | gw/ir/render_graphql_runtime.go:116-138 | for a GraphQL source among the services of its namespace: from the spelling that the schema renderer uses a selection is restored if and only if no condition is empty (and none begins with an underscore, for a source without a version that is not the latest), or, where a service of another kind has a later version than the latest GraphQL source, if and only if there is no condition |
| Mirror.OvertakenMisnamed | gw/graphql_register.go:78 | with GraphQL v1 and another kind's v2 the schema says a_v1_C and the remote service is asked for v1_C |
| Mirror.ForwardedField | gw/graphql_mirror.go:38-49 | a whole field, sent under its remote name, is the service's own field under the same condition |
| ResponseNames.ElementApart | gw/graphql_mirror.go:140-198 | rewriting a response with two prefixes of different length gives texts of different length, unless there is no name to rewrite |
| ResponseNames.ResponseNamesLocal | gw/graphql_mirror.go:121-198 | the rewritten response names its types as the local schema does if and only if the source has the short spelling there, being the latest for the renderer or without a version, or the response names no type |
| ResponseNames.ResponseMisnamed | gw/graphql_mirror.go:141 | a response that says a_C where the schema says a_v1_C |
| Mirror.SkeletonKept | gw/graphql_mirror.go:51-94 | aliases, names, arguments, directives, nesting and order survive the rewrite |
| JsonString.AppendJSONString | gw/proto_append.go:319-358 | the segment loop with multi-byte skips appends the byte-wise escaping behind `dst` |
| JsonString.ByteDecoded | gw/proto_append.go:319-365 | a decoder after section 7 of RFC 8259 reads one escaped byte back as that byte |
| JsonString.RoundTrip | gw/proto_append.go:319-365 | decoding what was appended gives every byte string back and leaves what follows untouched |
| JsonString.EscapeInjective | gw/proto_append.go:319-358 | different strings have different escaped forms |
| JsonString.EscapeIsBody | gw/proto_append.go:319-358 | no raw control byte and no unescaped quote in the escaped body |
| JsonTrees.ElementOnce | gw/openapi_append.go:46-80 | at one place of a text, up to a comma or closing bracket, at most one tree stands |
| JsonTrees.OneTree | gw/openapi_append.go:46-80 | two well-formed trees with the same bytes are the same tree |
| OpenApiWalker.BytesDecide | gw/openapi_append.go:46-80 | the bytes of a message decide how it is read, as the one tree with these bytes or as no JSON text, and so the answer below |
| OpenApiWalker.AppendValue | gw/openapi_append.go:46-80 | for every JSON text, `dst` followed by the rendering of the projected tree; for any other bytes, null if blank, an error where they must be looked into, and else the bytes |
| OpenApiWalker.AppendObject | gw/openapi_append.go:85-96 | an object becomes the rendering of its selected members |
| OpenApiWalker.AppendSelection | gw/openapi_append.go:102-168 | the members of nested selections are spliced with commas exactly between them, and `first` tells whether anything was written |
| OpenApiWalker.AppendOne | gw/openapi_append.go:106-165 | one selection: a plain field contributes its answer, under its alias or name, an inline fragment its fields, a spread nothing |
| OpenApiWalker.AppendField | gw/openapi_append.go:106-152 | a plain field: comma, key, and `__typename`, the projected upstream value or null |
| OpenApiWalker.AppendTypename | gw/openapi_append.go:117-121 | the local type name where type and prefix are known, else null |
| OpenApiWalker.AppendUnion | gw/openapi_append.go:184-245 | on a union, the rendering of `__typename` and of the fragments of the object's own variant |
| OpenApiWalker.AppendUnionOne | gw/openapi_append.go:196-243 | one selection on a union |
| OpenApiWalker.AppendList | gw/openapi_append.go:333-349 | every element projected, lists of lists with the inner list's element type |
| OpenApiWalker.ResolveUnionVariant | gw/openapi_append.go:250-308 | the loops compute the variant by mapping, discriminator, `__typename` and required fields, in this order |
| OpenApiWalker.VariantIsMember | gw/openapi_append.go:250-317 | the variant is an object type of the service and a member of the union; there is none only if no variant has its required fields |
| OpenApiWalker.FirstFitExact | gw/openapi_append.go:287-307 | the heuristic takes the first variant that fits, and none exactly if none fits |
| OpenApiWalker.DiscriminatorDecides | gw/openapi_append.go:254-265 | a mapped discriminator decides alone |
| OpenApiWalker.OnlyVariantContributes | gw/openapi_append.go:196-243 | dropping the fragments of other variants, spreads and plain fields from a selection on a union changes nothing |
| OpenApiWalker.SelectionDecides | gw/openapi_append.go:102-168 | off unions the response has one member for each plain field, in order: under its alias or else its name, the last upstream member with the field's name (not the alias), projected onto the field's own selection and type, as it came if there is no selection, and null exactly if there is no such member |
| OpenApiWalker.VariantDecides | gw/openapi_append.go:196-243 | on a union the same for `__typename` and the plain fields in the fragments of the object's own variant |
| OpenApiWalker.ProjectionExactly | gw/openapi_append.go:46-349 | what the projection of any value is: scalars as they came, lists element by element, objects and unions by the answers to their fields |
| OpenApiWalker.VariantExactly | gw/openapi_append.go:250-308 | the discriminator decides if its value stands for a member, through the mapping first and else as a name; else `__typename`, if it names a member; else the first variant whose required fields the object has |
| OpenApiWalker.UnprefixedExactly | gw/openapi_append.go:222-234 | a condition counts exactly if it is the prefix followed by the variant's name, or the bare name, where that does not itself begin with the prefix |
| OpenApiWalker.ProjectionIsJson | gw/openapi_append.go:46-349 | what is spliced together is again a JSON text |
| CanonicalJson.SortSorts | gw/graphql_sub_broker.go:481-485 | sorting distinct keys gives an increasing list of the same keys |
| CanonicalJson.IncreasingUnique | gw/graphql_sub_broker.go:481-485 | there is only one increasing list of a set of keys, so the order of map iteration cannot show |
| CanonicalJson.SortedKeys | gw/graphql_sub_broker.go:481-485 | the keys, collected in any order, end up in that one list |
| CanonicalJson.CanonicalJSON | gw/graphql_sub_broker.go:477-521 | the printer extends the sink by a text that depends on the value only, and reports whether it came to the end |
| CanonicalJson.FanoutKey | gw/graphql_sub_broker.go:465-471 | what is hashed: query, NUL, printed variables, a cut-off print included |
| FanoutKeys.WriteMeetsTokens | gw/graphql_sub_broker.go:477-521 | the text written to the sink, read from its front, is the value's token stream in front of any remainder, and is cut where the printer gives up |
| FanoutKeys.CharCancel | gw/graphql_sub_broker.go:493 | escaped characters can be told apart, whatever follows |
| FanoutKeys.ValueCancel | gw/graphql_sub_broker.go:477-521 | equal texts with delimiter-led remainders come from equal values and equal remainders, even against a value on which the printer gives up |
| FanoutKeys.WriteExtends | gw/graphql_sub_broker.go:477-521 | printing writes no NUL |
| FanoutKeys.QueryKnown | gw/graphql_sub_broker.go:466-469 | the last NUL separates query and variables, even if the query holds NULs |
| FanoutKeys.WriteOk | gw/graphql_sub_broker.go:477-521 | the printer comes to the end exactly for values without an unencodable leaf |
| FanoutKeys.SameKeySameOperation | gw/graphql_sub_broker.go:465-471 | subscribers with equal pre-hash texts sent the same query and the same variables |
| FanoutKeys.UnencodableShares | gw/graphql_sub_broker.go:470 | every unencodable variables map shares its text with another map |
| FanoutKeys.KeyIsUniqueExactly | gw/graphql_sub_broker.go:465-471 | a key text belongs to one operation alone if and only if its variables can be encoded |
| CanonicalText.ValueIsText | gw/graphql_sub_broker.go:473-521 | every value that can be encoded is printed as a JSON text of itself, with escapes of RFC 8259 and the keys of objects in order |
| CanonicalText.PreHashIsJson | gw/graphql_sub_broker.go:465-471 | the key of encodable variables is made from the query, a NUL and such a text |
| DotSegments.SplitJoin | gw/auth_channel.go:240-242 | splitting a joined name gives its dot-free segments back |
| DotSegments.JoinSplit | gw/registry.go:72-78 | joining the segments of a name gives the name back |
| ChannelAuth.MatchesExactly | gw/gat/bus.go:138-171 | a match is segment by segment, with `*` for any one and a final `>` for all that are left, one at least |
| ChannelAuth.MatchChannel | gw/gat/bus.go:138-171 | the index loop decides the segment-wise match, on every pattern and channel |
| ChannelAuth.ValidChannelAuthPattern | gw/auth_channel.go:105-116 | accepts exactly the patterns without empty segment and with `>` only at the end |
| ChannelAuth.ValidExactlyIfUseful | gw/auth_channel.go:102-116 | a pattern is refused if and only if no concrete channel matches it |
| ChannelAuth.Intersect | gw/auth_channel.go:244-260 | the reslicing loop decides intersection |
| ChannelAuth.IntersectExactly | gw/auth_channel.go:244-260 | valid patterns intersect if and only if some concrete channel matches both |
| ChannelAuth.PatternsIntersectExactly | gw/auth_channel.go:237-242 | the same for patterns and channels as strings |
| ChannelAuth.Cover | gw/auth_channel.go:269-295 | the reslicing loop decides inclusion |
| ChannelAuth.CoverExactly | gw/auth_channel.go:269-295 | one valid pattern covers another if and only if it matches every concrete channel the other matches |
| ChannelAuth.PatternCoversExactly | gw/auth_channel.go:262-267 | the same for patterns and channels as strings |
| ChannelAuth.EscapingChannel | gw/auth_channel.go:269-295 | without cover, a concrete channel of the one pattern that the other misses |
| ChannelAuth.ResolveChannelTier | gw/auth_channel.go:124-155 | for a concrete channel the first rule that matches decides, and HMAC if none does; for a pattern the strictest of the overlapping rules, with HMAC among them unless one rule covers the pattern |
| ChannelAuth.FirstHitIs | gw/auth_channel.go:126-132 | the tier of a channel is that of the first rule that matches it, or HMAC if none does |
| ChannelAuth.SubscriptionTierIs | gw/auth_channel.go:133-154 | the tier of a subscription is at least that of every overlapping rule, and HMAC without cover, and it is one of these |
| ChannelAuth.SubscriptionNeverWeaker | gw/auth_channel.go:124-155 | a subscription's tier is at least that of every concrete channel it matches, for all lists of valid rules and channels without any rule too |
| McpGlob.GlobMatchSegments | gw/mcp_config.go:249-273 | the loop with recursion at `**` terminates and decides the match |
| McpGlob.GlobExactly | gw/mcp_config.go:245-273 | a glob matches if and only if the segments fall into consecutive runs, any run for `**` and one accepted segment otherwise |
| McpGlob.McpAllows | gw/mcp_config.go:87-115 | empty paths and those of internal namespaces, by their first segment, are hidden, and the two modes read their own list only |
| TypeClosure.Walk.WalkTypeRef | gw/mcp_tools.go:511-533 | after the walk everything the reference mentions is visited, and emitted names and visited names agree |
| TypeClosure.Walk.WalkType | gw/mcp_tools.go:535-551 | a type's walk leaves every finished type's neighbours visited, on cyclic graphs too |
| TypeClosure.ClosedHoldsReachable | gw/mcp_tools.go:511-551 | a visited set that is closed and holds the roots holds everything reachable |
| TypeClosure.CollectTypeClosureForOp | gw/mcp_tools.go:492-502 | exactly the types reachable from arguments and output, each once |
| TypeClosure.CollectTypeClosureFromType | gw/mcp_tools.go:504-509 | exactly the types reachable from the root, each once |
| SubBroker.StepKeepsInv | gw/graphql_sub_broker.go:69-233 | every section under a lock keeps the broker's invariant |
| SubBroker.Safety | gw/graphql_sub_broker.go:384-459 | over every interleaving: opens minus closes is the number of fanouts and the last gauge value, no connection means no fanout, a terminal fanout has no target, no channel is closed twice, and every channel that was made is with a target, waits to be closed, or is closed |
| SubBroker.StepKeepsPlaced | gw/graphql_sub_broker.go:145-188 | no step loses a channel: what a target gives up is closed or waits to be |
| SubBroker.NeverBack | gw/graphql_sub_broker.go:121-142 | a fanout that left the broker never returns, so each open has one close at most |
| SubBroker.ClosedForGood | gw/graphql_sub_broker.go:440-459 | a closed channel stays closed, and a channel of a terminated fanout waits until it is closed |
| SubBroker.FailureStaysHomeExactly | gw/graphql_sub_broker.go:399-418 | in every reachable state a reader's failure ends only fanouts opened on its own connection if and only if that is the broker's connection or there is no fanout |
| SubBroker.StaleReaderResets | gw/graphql_sub_broker.go:399-418 | otherwise all fanouts go, none of them opened on the reader's connection, and every open has its close |
| SubBroker.StaleReaderRun | gw/graphql_sub_broker.go:209-233 | an interleaving in which a fanout of the second connection ends because the first connection's reader fails |
| SubBroker.Broker.AcquireFanout | gw/graphql_sub_broker.go:102-143 | the section under the broker's lock: without a connection it dials, a key that is there is shared, and a new one is subscribed, registered and counted |
| SubBroker.Broker.AttachTarget | gw/graphql_sub_broker.go:145-161 | the section under the fanout's lock, with the closed channel of a terminal fanout |
| SubBroker.Broker.ReleaseFromFanout | gw/graphql_sub_broker.go:181-188 | a release of a target closes its channel and removes it, and tells whether the fanout is drained |
| SubBroker.Broker.RemoveFanout | gw/graphql_sub_broker.go:384-396 | only the fanout that is still registered under its key is removed and counted |
| SubBroker.Broker.ShutdownBegin | gw/graphql_sub_broker.go:209-220 | at most one shutdown at a time resets the broker |
| SubBroker.Broker.ShutdownEnd | gw/graphql_sub_broker.go:229-232 | only the flag changes |
| SubBroker.Broker.FailAllFanouts | gw/graphql_sub_broker.go:399-413 | every fanout is counted closed and handed over for termination |
| SubBroker.Broker.TerminateFanout | gw/graphql_sub_broker.go:440-449 | the second termination of a fanout takes nothing |
| SubBroker.Broker.CloseChannels | gw/graphql_sub_broker.go:450-458 | the closing loop closes each channel handed over exactly once |
| SubBroker.Broker.RecordCloses | gw/graphql_sub_broker.go:75-80 | the loop records as many closes as asked and sets the gauge |
| Quota.Bucket.TryDebit | gw/quota.go:207-219 | takes one permit exactly if the block is live, and empties an expired block |
| Quota.Bucket.Install | gw/quota.go:223-228 | the block is replaced as a whole |
| Quota.Bucket.PermitsLive | gw/quota.go:233-243 | agrees with what a debit at the same time would find |
| Quota.WindowLimit | gw/quota.go:307-322 | the window made from the delegate's time always ends in the future, and exceeds the operator's limit exactly if that time has passed and the emergency window is longer than the limit |
| Quota.GrantWindow | gw/quota.go:257-322 | every granted block ends in the future, and exceeds the limit exactly if the emergency window is longer than it and stands in: on an outage, or for a time that has passed |
| Quota.LimitExceeded | gw/quota.go:262-322 | both cases are met |
| Quota.AnswersGoodExactly | gw/quota.go:257-303 | blocks have permits and time and keep to their size, refusals name a positive wait, if and only if the block sizes fit 32 bits |
| Quota.AnswerExactly | gw/quota.go:257-340 | a block is granted exactly on Ok with permits, or without a decision when not enforcing; permits, window and wait are the delegate's within the operator's limits, or the emergency ones |
| Quota.RefillBucket | gw/quota.go:257-303 | a grant installs the block that the response stands for, and a refusal leaves the bucket alone |
| Quota.Check | gw/quota.go:381-413 | the retry loop with its four rounds, for a call that has the bucket to itself |
| Quota.AloneNeedsOneRefill | gw/quota.go:381-413 | such a call passes at the first live block, needs one refill at most, and pays one permit |
| Quota.AloneIsLoop | gw/quota.go:381-413 | from every reachable state with no refill under way, the steps of one call alone lead to the result and the block of the loop |
| Quota.StepKeepsInv | gw/quota.go:381-413 | every step of every caller keeps the books, with stale clock readings and one refill under way |
| Quota.Conservation | gw/quota.go:207-228 | over every interleaving: installed is debited plus left plus discarded, permits never go negative, and accepted calls and debits correspond one to one |
| Quota.InstallOverwrites | gw/quota.go:390-397 | a refill never overwrites a permit that is live at the current time; permits it overwrites could still have been spent if and only if there are some and a call holds a clock reading from inside their window |
| Quota.SpendableOverwritten | gw/quota.go:384-397 | a run in which a call can still spend a permit of the block that is about to be replaced |
| Quota.OnlyExpiredDiscarded | gw/quota.go:213-216 | permits are thrown away only behind their window |
| Quota.AttemptsBounded | gw/quota.go:384 | over every interleaving no call tries to debit more than four times, and none comes back without having tried |
| FailoverBus.StepKeepsInv | gw/pubsub_bus.go:159-244 | every locked section keeps registrations and subscriptions in agreement |
| FailoverBus.SidesKept | gw/pubsub_bus.go:159-244 | a subscription that is live in two states of a run has kept its local side, and its NATS side if it had one |
| FailoverBus.ExactlyOnce | gw/pubsub_bus.go:190-200 | unless NATS was up when the mode was read and fails for another reason than a lost connection: with the event handed over in any later state, a live matching subscription hears it once; not at all exactly if NATS takes it while the subscription has no NATS side, which one that was live before has only if NATS refused it at the last switch |
| FailoverBus.ExactlyOnceIfRebound | gw/pubsub_bus.go:166-176 | with no refusal, exactly once on whichever bus, because binding comes before the switch |
| FailoverBus.GoneForGood | gw/pubsub_bus.go:231-243 | a finished unsubscribe leaves no registration on either bus |
| FailoverBus.NeverRebound | gw/pubsub_bus.go:159-180 | an unsubscribed subscription gains no registration, not even from a switch back that runs meanwhile |
| FailoverBus.Bus.BindAll | gw/pubsub_bus.go:166-175 | the loop binds exactly the unbound subscriptions that NATS accepts, in any order |
| FailoverBus.Bus.Refresh | gw/pubsub_bus.go:159-180 | a transition happens only on a change of status; the recorded run shows that every subscription is looked at before the mode changes |
| FailoverBus.Bus.LoadMode | gw/pubsub_bus.go:191 | the first half of a publish reads the mode without the lock, in the last state of the run so far |
| FailoverBus.Bus.HandOver | gw/pubsub_bus.go:191-200 | an error exactly if the mode was read as healthy and NATS fails, NATS exactly if it was healthy and NATS takes the event, and else the local bus; whatever happened since the mode was read, each matching subscription hears the event once, and not at all exactly if NATS takes it while the subscription has no NATS side |
| FailoverBus.Bus.SubscribeBoth | gw/pubsub_bus.go:210-230 | a subscription is kept exactly if NATS accepts it, or the bus is degraded, with a NATS side exactly if NATS accepted it; otherwise nothing is left behind |
| FailoverBus.Bus.Unsubscribe | gw/pubsub_bus.go:232-237 | the locked section of the closure; the second call does nothing |
| FailoverBus.Bus.UndoLocal | gw/pubsub_bus.go:238 | behind the lock, the local registration goes first |
| FailoverBus.Bus.UndoPrimary | gw/pubsub_bus.go:239-241 | then the NATS registration, if there was one |
| ConfigCas.TryMutate | gw/mcp_config.go:193-224 | an attempt commits if and only if read and write get through and nobody writes in between; then the change of its immediate predecessor, or of the seed, is on top of the log |
| ConfigCas.ClusterMutate | gw/mcp_config.go:171-191 | the change is committed once, at the first of ten attempts that nobody disturbs, unless the caller has given up before; and else not at all |
| ConfigCas.AcceptedOnBase | gw/mcp_config.go:194-223 | a revision that is accepted was read from the current record |
| ConfigCas.ReadsExactly | gw/mcp_config.go:194-210 | a read sees the last record under its revision, the empty configuration for a malformed one, or the seed under 0 if there is none |
| ConfigCas.CommitsExactly | gw/mcp_config.go:211-223 | a write commits if and only if it gets through and its revision is still the last one; otherwise the next of ten attempts follows |
| ConfigCas.StepKeepsInv | gw/mcp_config.go:153-224 | every read and write of every gateway keeps the chain |
| ConfigCas.NoLostUpdate | gw/mcp_config.go:153-224 | over every interleaving the committed changes form one chain, and a call that returned a configuration is in it exactly once, every other call not at all |
| StreamSlots.StepKeepsInv | gw/openapi_stream_dispatcher.go:68-225 | every acquire, release and count keeps semaphores and counters equal to their holders |
| StreamSlots.CapsKept | gw/openapi_stream_dispatcher.go:68-88 | no cap is ever exceeded |
| StreamSlots.RefusedExactlyIfFull | gw/openapi_stream_dispatcher.go:68-88 | an opener is turned away exactly if its cap is taken up by others |
| StreamSlots.ReleaseNeverBlocks | gw/openapi_stream_dispatcher.go:82-94 | a semaphore holds the slot of whoever gives one back |
| StreamSlots.GatewaySlotsAddUp | gw/openapi_stream_dispatcher.go:68-95 | in a gateway whose streams are all OpenAPI streams, the gateway's slots are the sum over all sources plus the openers between two acquires or two releases |
| StreamSlots.CountsAtRest | gw/openapi_stream_dispatcher.go:125-225 | in such a gateway, with nobody opening or closing, live counters, held slots and live streams agree |
| StreamSlots.Dispatcher.AcquireStreamSlots | gw/openapi_stream_dispatcher.go:68-95 | both slots or none |
| StreamSlots.Dispatcher.Open | gw/openapi_stream_dispatcher.go:125-190 | a stream opens exactly if both slots are free, there is a replica and the upstream answers; every failing path leaves semaphores and counters as they were |
| StreamSlots.Dispatcher.EndStream | gw/openapi_stream_dispatcher.go:193-200 | the cleanup undoes a successful open |
| Pools.ReplicaList.AddReplica | gw/pools.go:156-165 | the new replica comes last |
| Pools.ReplicaList.RemoveReplicasByOwner | gw/pools.go:169-188 | exactly one owner's replicas go, the others keep their order, and the count is right |
| Pools.ReplicaList.RemoveReplicaByID | gw/pools.go:192-211 | the first replica with the id goes, the empty id finds none |
| Pools.ReplicaList.FindReplicaByID | gw/pools.go:214-225 | the first replica with the id |
| Pools.OthersAll | gw/pools.go:184-186 | nothing removed is the same as an unchanged list |
| Pools.OthersAppend | gw/pools.go:169-188 | the filter works part by part, so that order and multiplicity stay |
| Pools.Gateway.JoinPool | gw/gateway.go:1872-1934 | join, create, swap or refuse, as the slot policy says |
| Pools.JoinExactly | gw/gateway.go:1872-1934 | a join succeeds exactly if checks and patterns allow it and there is a slot of the same shape, or a free or "unstable" one and a readable specification; a slot of the same shape gains the replica, any other is made anew, and no other slot changes |
| Pools.JoinKeepsPopulated | gw/slot.go:154-217 | joining leaves no slot without a replica |
| Pools.Gateway.RemoveReplicaByID | gw/gateway.go:1958-1976 | the slot goes with its last replica |
| Pools.RemovedByIDExactly | gw/gateway.go:1958-1976 | the first replica with the id leaves its list, and its slot if it was the last; nothing else changes |
| Pools.Gateway.RemoveReplicasByOwner | gw/gateway.go:1982-2007 | the walk over the map, in any order and with deletions on the way, trims every slot of a kind |
| Pools.KindByKind | gw/control.go:549-551 | the three removals together remove an owner everywhere |
| Pools.OwnerGone | gw/gateway.go:1982-2007 | no replica of the owner is left |
| Pools.OthersStay | gw/gateway.go:1982-2007 | all replicas of other owners stay |
| Reconciler.UsersSplit | gw/reconciler.go:149-191 | the users of connections can be summed slot by slot, in any order |
| Reconciler.JoinUsers | gw/gateway.go:1872-1934 | what a join adds to the users of an address, and what a swap takes away |
| Reconciler.HandleKeepsInv | gw/reconciler.go:116-220 | every event keeps count = users + lost, at every address |
| Reconciler.LosesExactly | gw/reconciler.go:116-220 | an event loses a connection at an address exactly if, when it comes, it swaps out a slot with a proto replica there or deregisters the owner of one |
| Reconciler.RefsExactly | gw/reconciler.go:116-259 | over every log with replays the count is at least the number of proto replicas at the address, and equal if and only if no event of the log was of that kind |
| Reconciler.RefsAreReplicas | gw/reconciler.go:149-259 | over every log of puts to fixed versions and deletes the counts are exactly the replicas |
| Reconciler.SlotsFollowLog | gw/reconciler.go:108-220 | over every log of puts, deletes and replays about services that have one shape and their own patterns each and can be dialed: a replica is in its slot if and only if the last event about it is a put |
| Reconciler.PutIdempotent | gw/reconciler.go:108-115 | replaying a put changes nothing |
| Reconciler.DeregistrationLeaks | gw/control.go:548-568 | put, deregistration, delete: no replica is left, but the connection is still counted |
| Reconciler.SwapLeaks | gw/slot.go:196-217 | two puts to an "unstable" slot and the first one's delete: its connection is still counted |
| Reconciler.Loop.AcquireConn | gw/reconciler.go:222-245 | one more use, or no change if the dial fails |
| Reconciler.Loop.ReleaseConn | gw/reconciler.go:247-259 | one use less, and the entry goes with the last |
| Reconciler.Loop.OnPut | gw/reconciler.go:116-191 | the branches of a put: nothing changes for a replica that does not compile or cannot be dialed, and the connection is given back if the join is refused |
| Reconciler.Loop.OnDelete | gw/reconciler.go:193-220 | the branches of a delete by slot kind |
| ControlPlane.Plane.Register | gw/control.go:409-495 | the standalone path with its rollback, and the invariant |
| ControlPlane.Plane.Deregister | gw/control.go:535-563 | all of a registration's replicas and its connection use go |
| ControlPlane.Plane.AcquireConn | gw/control.go:936-948 | one more use, or no change if the dial fails |
| ControlPlane.Plane.ReleaseConn | gw/control.go:950-960 | one use less, and the entry goes with the last |
| ControlPlane.JoinAllExactly | gw/control.go:440-478 | all bindings join if and only if each can join what the ones before it left |
| ControlPlane.RegisterExactly | gw/control.go:409-495 | a request is accepted exactly if it has its connection, where it needs one, and all bindings join; then it is registered, its connection counted, and every slot as its join makes it |
| ControlPlane.JoinTakenBack | gw/control.go:430-437 | a join, taken back, leaves no trace unless it swapped a slot out |
| ControlPlane.RollbackRestoresExactly | gw/control.go:430-478 | a failed request leaves all replica lists as they were if and only if none of its bindings had swapped out an "unstable" slot |
| ControlPlane.FailedRegisterRestores | gw/control.go:409-478 | connections and registrations are restored in any case, the slots under that condition |
| ControlPlane.FailedBehindSwap | gw/control.go:440-461 | a registration that fails takes the "unstable" slot of a live one with it |
| ControlPlane.DeregisterKeepsInv | gw/control.go:535-563 | no replica of the registration remains, the replicas of all others do, and the registration is gone |
| ControlPlane.RefsAreRegistrations | gw/control.go:936-960 | over every run of requests each connection is counted once for each registration that holds it |
| CallerLimiter.Limiter.Apply | gw/caller_id.go:261-277 | one call: bump, fold or admit |
| CallerLimiter.Limiter.Snapshot | gw/caller_id.go:281-292 | the admitted callers, most recently used first |
| CallerLimiter.AdmittedAreFirst | gw/caller_id.go:261-277 | over every history the admitted callers are exactly the first k distinct ones, and nobody without a positive k |
| CallerLimiter.RunInOrder | gw/caller_id.go:238-277 | list and map hold the same callers, none twice, in the order of last use |
| CallerLimiter.LabelExactly | gw/caller_id.go:261-277 | a call keeps its own label if and only if there is no positive k or its caller is among the first k distinct callers of the whole history |
| CallerLimiter.LabelsBounded | gw/caller_id.go:197-204 | with a positive k a whole run shows at most k + 1 labels, and otherwise exactly the callers |
| Keys.ReplicaKeyRoundTrip | gw/registry.go:65-78 | the parser undoes the printer if and only if all three parts are free of dots |
| Keys.ReplicaKeyOnto | gw/registry.go:72-78 | every key that is accepted is the one printed from its parts |
| Keys.ValidateNS | gw/registry.go:82-90 | accepts exactly the non-empty names without a reserved character |
| Keys.ParseDeprecatedKey | gw/deprecate.go:160-167 | the backward scan splits at the last underscore, and says whether both parts are there |
| Keys.DeprecatedKeyRoundTrip | gw/deprecate.go:157-167 | parsing a printed key gives both parts back if and only if the version has no underscore, whatever the namespace has, and succeeds unless a part is empty |
| Keys.RegisteredVersionsSeparate | gw/deprecate.go:157-167 | keys of registered versions are unambiguous |
| Keys.RegisteredKeysParse | gw/registry.go:65-90 | keys of validated namespaces and registered versions are taken apart correctly |
| Keys.Atoi | gw/pools.go:265 | the digit loop with sign and overflow gives the number's value or refuses it |
| Keys.ValueOfItoa | gw/pools.go:269 | the decimal text of a number has that value and no leading zero |
| Keys.ItoaOfValue | gw/pools.go:261-269 | digits without a leading zero are the decimal text of their value |
| Keys.ParseVersion | gw/pools.go:248-270 | the branches of the parser |
| Keys.NameParses | gw/pools.go:248-270 | each number has a canonical name that parses back to it |
| Keys.ParseIdempotent | gw/pools.go:248-270 | parsing a canonical name changes nothing |
| Keys.CanonicalOneToOne | gw/pools.go:248-270 | canonical names and numbers correspond one to one |
| Keys.DigitsOfValue | gw/pools.go:265 | a digit string for a positive number is its decimal text behind some zeros |
| Keys.AcceptedExactly | gw/pools.go:248-270 | accepted with number n are exactly the canonical name, for 1 also the empty string, and `v+` with any zeros before the digits |

## Left out

- Transport (HTTP, WebSocket, gRPC, NATS, JetStream), TLS, tracing, metrics export, GraphiQL, the UI and benchmarks: I/O
  or thin wrappers.
- Hashes, HMAC and base64: what is hashed is modelled, the hash is not.
- The hand-over between the two lock sections of an acquire in the subscription broker, and sends that race with closes
  in `fanout`: an acquire can attach to a fanout that a last release is tearing down, so nothing is claimed about it.
- The frames sent upstream by the broker (`subscribe`, `complete`), and the content of delivered frames: they do not
  touch the state that is modelled.
- Goroutines of the broker are not tracked one by one: any enabled section may run at any time, which only adds runs.
- A fanout of the broker is its place in the list of all fanouts rather than an object of its own, so that two
  references to one fanout are two equal numbers.
- Bytes against characters: `CanonicalJson` and the key modules work on strings of Unicode scalar values. Encoding
  text that is not valid UTF-8, which the library replaces, is not modelled, and neither is the replacement in decoded
  member names of `OpenApiWalker`.
- A member name that spells `__typename` with an escape (`\u005f_typename`) counts as a different name in the trees of
  `TypenamePrefix`, as it does for the scanner.
- JSON-decoder limits (nesting depth): the decoder accepts every JSON text here, and nothing else.
- Ambiguous acknowledgements, deletes, dropped watch events and TTL expiry in the key-value store, and `kvPutRetry`: a
  failed write is one that was not applied.
- Messages that NATS keeps in its reconnect buffer: a publish counts at the moment the bus accepts it.
- The stable alias of a namespace, rejected-join records, schema rebuilding and service-change events: they do not
  enter the replica lists or the counts. Rebuilding the schema always succeeds here.
- Registration before its bindings join (form checks, compiling) and the cluster branch of `Register`: the request
  arrives with its prepared bindings, whose keys are distinct.
- Choosing replicas, health, per-replica semaphores, header forwarding and delegate RPC codes: easy by comparison.
- gw/proto_direct_subscription_dispatcher.go: its streams take slots of the same gateway semaphore and are counted in the
  same gateway counter, so that what `StreamSlots` says of the gateway's level and counter holds for gateways without
  proto streams. It also marks a nil semaphore as acquired and later receives from it.
- StreamSlots.GatewaySlotsAddUp: does not count proto streams, because only OpenAPI streams are openers here.
- StreamSlots.CountsAtRest: does not count proto streams either.
- How the renderer sorts the services of a namespace: `Mirror` has the order that a stable sort by version gives.
- gw/proto_append.go beyond its string escaper, and gw/broker.go.
- Quota.Check: models a call that has the bucket to itself; calls that interleave are the steps behind
  `Quota.Conservation`, and `Quota.AloneIsLoop` ties the two together.
- Reconciler.SlotsFollowLog: does not cover refused joins, failed dials and deregistrations, after which a put has not
  taken effect or its replica is gone before the delete; `Pools.JoinExactly` and `Reconciler.Loop.OnPut` say what happens
  then.
- Keys.ParseVersion: does not model the texts of the error messages, because nobody reads them back.
