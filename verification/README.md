# Verified models of Piraeus

Piraeus routes events between publishers and subscribers, decides access with CAPL policies, and
keeps its state in Orleans grains. This project models the parts of it that carry recursion,
long-lived state or a protocol, and proves what they keep and where they fail to keep it.

`dafny verify dfyconfig.toml` checks everything.

- **CAPL policies** (`CaplPolicy`, `CaplXml`, `CaplReader`, `CaplRoundTrip`, `CaplReload`,
  `CaplEvaluation`, `CaplIssuance`). A policy is written as a sequence of XML nodes and read back by
  readers that move one shared cursor and stop on tag names. The central theorem says exactly which
  policies survive, among all that have no empty connective and no transform without content: storing
  and loading returns the policy, with empty texts read as null and transform ids gone, if and only if
  every connective holds one of its own kind in last position only, no transform's expression ends in
  one, every target claim has a type and the policy has an id. `docs/caplintro.md` line 54 allows
  connectives to be combined freely; the readers do not, and the model follows them. Such a policy
  then decides every request as the original does, when the host's functions do not tell its texts
  from what they are read back as.
- **The sigma-algebra chain** (`SigmaChain`). A list of names in a chain of pages of bounded size,
  compared with one flat list. Adding is append-if-absent exactly when the name is not on the first
  page alone. On any chain, removing takes out the first copy that can be reached, and it repacks a
  packed one. The reads see the whole list exactly when no empty page comes before another; the
  calls that never return are characterised.
- **Subscriptions, leases and pi-systems** (`Subscription`, `Leases`, `PiSystem`). The grains are
  reentrant, so their turns, the segments between the awaits that suspend, are the steps of a state
  machine. Every run conserves messages; which queue a message goes to and what each turn loses is
  stated exactly. The lease tables always agree; a tick is exact, and so is one that waits in the
  middle; the index filter of the fan-out is characterised.
- **The Redis membership table** (`RedisMembership`). Any number of clients run the lock-token
  protocol as separate Redis commands. Rows stay unique in every run. In every run where no token is
  set between another client's check and its write, and no write overlaps a heartbeat, the table is
  the serial replay of the commits, heartbeats included, and every row tells its own history: the
  details of its last update, the time of its last update or heartbeat; two concrete runs outside
  that condition lose a row.
- **The protocol adapter and the CoAP dispatcher** (`OrleansAdapter`, `CoapDispatcher`). Every lease
  ever taken is in exactly one place, a load enters each resource under the key of its own lease,
  disposing gives back each lease of the container once, and both of the dispatcher's tables are
  exactly what the history of requests says.

Methods that change state are proved against functions of the state, and the theorems are stated
about those functions. Places where the code departs from its intent appear as lemmas with concrete
inputs, beside the exact condition under which the code meets it.

## Model

| member | source | states |
|---|---|---|
| CaplXml.XmlWriter.WriteStartElement | src/Capl.Core/Authorization/Match.cs:108-112 | a start tag is appended in its long form and becomes the innermost open element |
| CaplXml.XmlWriter.WriteString | src/Capl.Core/Authorization/Match.cs:114-117 | a null or empty text adds no node at all |
| CaplXml.XmlWriter.WriteEndElement | src/Capl.Core/Authorization/Match.cs:119-119 | closing turns the element into the short form exactly when nothing was written inside it |
| CaplXml.XmlWriter.WriteMatch | src/Capl.Core/Authorization/Match.cs:104-120 | appends one Match element, leaves the open elements as they were |
| CaplXml.XmlWriter.WriteOperation | src/Capl.Core/Authorization/EvaluationOperation.cs:107-116 | appends one Operation element, leaves the open elements as they were |
| CaplXml.XmlWriter.WriteRule | src/Capl.Core/Authorization/Rule.cs:201-224 | appends a Rule start tag with issuer, id and flag, the operation, the match and the end tag; leaves the open elements as they were |
| CaplXml.XmlWriter.WriteTerm | src/Capl.Core/Authorization/LogicalAndCollection.cs:117-135 | appends the whole tree of a term, every element closed |
| CaplXml.XmlWriter.WriteTransform | src/Capl.Core/Authorization/ClaimTransform.cs:180-219 | appends a Transform element with its id and type holding match, target and expression in that order, in the short form when it has none of them |
| CaplXml.XmlWriter.WriteTransforms | src/Capl.Core/Authorization/TransformCollection.cs:141-157 | appends a Transforms element, or nothing for an empty collection |
| CaplXml.XmlWriter.WritePolicy | src/Capl.Core/Authorization/AuthorizationPolicy.cs:175-197 | appends the whole document: the policy element with id and delegation, the expression, then the transforms; every element closed |
| CaplReader.PolicyFrom | src/Capl.Core/Authorization/AuthorizationPolicy.cs:135-169 | on every node sequence, reading invents no term: the policy has at most as many terms as the document has term start tags |
| CaplReader.ConnectiveFrom | src/Capl.Core/Authorization/LogicalAndCollection.cs:68-111 | on every node sequence the reader moves forward, and each term read uses up a start tag |
| CaplReader.XmlReader.MoveToRequiredStartElement | src/Capl.Core/Authorization/XmlReaderExtensions.cs:132-157 | stops on the next start of the tag, not moving when already there; fails at the end of the document |
| CaplReader.XmlReader.MoveToStartElement | src/Capl.Core/Authorization/XmlReaderExtensions.cs:159-175 | stops on the next start of any element, or at the end |
| CaplReader.XmlReader.GetElementValue | src/Capl.Core/Authorization/XmlReaderExtensions.cs:27-54 | returns the element's text, null for the short form and the empty string for a long form without text, with the cursor on the element's last node |
| CaplReader.ReadMatch | src/Capl.Core/Authorization/Match.cs:78-102 | the moving reader returns what the remaining nodes hold and leaves the cursor where the function says |
| CaplReader.ReadOperation | src/Capl.Core/Authorization/EvaluationOperation.cs:89-101 | the same for an operation |
| CaplReader.ReadRule | src/Capl.Core/Authorization/Rule.cs:154-195 | the same for a rule's loop over its parts |
| CaplReader.ReadConnective | src/Capl.Core/Authorization/LogicalOrCollection.cs:63-107 | the same for a connective: the loop, its three start tests in one turn, and its end test on the tag name |
| CaplReader.LoadTerm | src/Capl.Core/Authorization/Term.cs:32-67 | the same for the dispatch: three tests one after another, the last that applies wins, none is a fault |
| CaplReader.ReadTarget | src/Capl.Core/Authorization/ClaimTransform.cs:134-174 | the same for a target claim, whose type is required |
| CaplReader.ReadTransform | src/Capl.Core/Authorization/ClaimTransform.cs:134-174 | the same for a transform |
| CaplReader.ReadTransforms | src/Capl.Core/Authorization/TransformCollection.cs:121-139 | the same for the collection, which adds to what it already holds |
| CaplReader.LoadPolicy | src/Capl.Core/Authorization/AuthorizationPolicy.cs:135-169 | the same for a policy, with its faults |
| CaplRoundTrip.ReadsMatch | src/Capl.Core/Authorization/Match.cs:78-120 | what WriteXml emits for any match is read back as its normal form, the cursor on the element's last node |
| CaplRoundTrip.ReadsOperation | src/Capl.Core/Authorization/EvaluationOperation.cs:89-116 | the same round trip for every operation |
| CaplRoundTrip.ReadsRule | src/Capl.Core/Authorization/Rule.cs:154-224 | the same round trip for every rule, stopping on its own end tag |
| CaplRoundTrip.ReadsConnective | src/Capl.Core/Authorization/LogicalAndCollection.cs:68-135 | every well-nested connective is read back, and what is left of its own nodes is exactly the end tags after its innermost last operand |
| CaplRoundTrip.AfterOperand | src/Capl.Core/Authorization/LogicalAndCollection.cs:88-107 | after an operand of its own kind a connective's loop ends there and then; after any other operand it goes on |
| CaplRoundTrip.MisreadsConnective | src/Capl.Core/Authorization/LogicalOrCollection.cs:63-131 | every badly nested connective is read as something else, if it is read at all |
| CaplRoundTrip.AnyMatchIsRead | src/Capl.Core/Authorization/Match.cs:78-102 | a Match element with any attributes is read if and only if it has a type and a flag one can read, and then as those attributes and its text say |
| CaplRoundTrip.AnyOperationIsRead | src/Capl.Core/Authorization/EvaluationOperation.cs:89-101 | an Operation element with any attributes is read if and only if it has a type, and then as type and text say |
| CaplRoundTrip.AnyConnectiveIsRead | src/Capl.Core/Authorization/LogicalAndCollection.cs:68-84 | whatever follows, a connective that is read has the flag and the id of its start tag, an absent flag counting as true |
| CaplRoundTrip.AnyRuleIsRead | src/Capl.Core/Authorization/Rule.cs:154-195 | whatever follows, a rule that is read has the flag, id and issuer of its start tag |
| CaplRoundTrip.AnyPolicyIsRead | src/Capl.Core/Authorization/AuthorizationPolicy.cs:135-169 | whatever follows, a policy is read only with an id, and delegates exactly when its start tag says so |
| CaplRoundTrip.NormalPolicyIffPlain | src/Capl.Core/Authorization/XmlReaderExtensions.cs:27-54 | a policy is its own normal form if and only if no text of it changes in reading and no transform has an id |
| CaplReload.ReadsTransform | src/Capl.Core/Authorization/ClaimTransform.cs:134-219 | a reloadable transform is read back without its id, stopping on its own end tag |
| CaplReload.MisreadsTransform | src/Capl.Core/Authorization/ClaimTransform.cs:134-219 | a transform that is not reloadable is read as something else, or not at all, or at the cost of terms after it |
| CaplReload.AnyTransformIsRead | src/Capl.Core/Authorization/ClaimTransform.cs:134-174 | whatever follows, a transform is read only with a type, that of its start tag, and never with an id |
| CaplReload.AnyTargetIsRead | src/Capl.Core/Authorization/ClaimTransform.cs:147-158 | a TargetClaim element is read if and only if it has a claim type, and then as it and its text say |
| CaplReload.ReloadIffReloadable | src/Capl.Core/Authorization/AuthorizationPolicy.cs:135-197 | for every policy without an empty connective or a transform without content: reading what was written gives its normal form if and only if the policy is reloadable |
| CaplReload.ReloadIsIdentityIffPlain | src/Capl.Core/Authorization/AuthorizationPolicy.cs:135-197 | a reloadable policy comes back unchanged if and only if no text of it changes in reading and no transform has an id |
| CaplReload.FirstOperandIsDropped | src/Capl.Core/Authorization/LogicalAndCollection.cs:88-107 | with a nested connective of its kind in first place, for any operands, a stored pair reloads as its second operand alone |
| CaplReload.EmptyConnectiveSwallowsTheNext | src/Capl.Core/Authorization/LogicalAndCollection.cs:86-107 | an empty connective, which the writer writes and the published schema forbids, reloads with its following sibling as its operand |
| CaplReload.StoreAndLoad | src/Piraeus.Grains/AccessControl.cs:24-56 | writing to a buffer and loading from it returns the normal form if and only if the policy is reloadable |
| CaplEvaluation.KeepIssuer | src/Capl.Core/Authorization/Rule.cs:116-128 | the in-place removal loop leaves exactly the claims of the wanted issuer, in order, and ends |
| CaplEvaluation.EvaluateRule | src/Capl.Core/Authorization/Rule.cs:103-148 | an empty match decides by its Required flag, else the rule is (some remaining claim satisfies the operation) == Evaluates |
| CaplEvaluation.RuleAsksTheLibrary | src/Capl.Core/Authorization/Rule.cs:103-148 | a rule is what the library answers: to its match of the claims, then to its operation on the value of some found claim of the wanted issuer, compared with its flag |
| CaplEvaluation.EvaluateTerm | src/Capl.Core/Authorization/LogicalOrCollection.cs:33-57 | on every tree the early returns compute (all true) == Evaluates and (some true) == Evaluates |
| CaplEvaluation.TransformClaims | src/Capl.Core/Authorization/ClaimTransform.cs:86-124 | a guard that fails leaves the claims; an absent or true guard gives what the library makes of the claims and of those it matches, and the claims when it makes nothing |
| CaplEvaluation.TransformAll | src/Capl.Core/Authorization/TransformCollection.cs:49-57 | the loop is the left fold of the transforms, which `OneTransform` and `TransformsCompose` determine |
| CaplEvaluation.OneTransform | src/Capl.Core/Authorization/ClaimTransform.cs:86-124 | a collection of one transform leaves the claims when its guard fails and gives the action's result otherwise |
| CaplEvaluation.EvaluatePolicy | src/Capl.Core/Authorization/AuthorizationPolicy.cs:105-127 | the decision is the expression's meaning on the transformed claims of the identity or its actor; delegation without an actor is refused |
| CaplEvaluation.FailingGuardsDecideNothing | src/Capl.Core/Authorization/AuthorizationPolicy.cs:105-127 | a policy all of whose guards fail decides as the same policy without transforms |
| CaplEvaluation.FlippedRule | src/Capl.Core/Authorization/Rule.cs:103-148 | flipping a rule's flag negates it if and only if its match finds a claim |
| CaplEvaluation.PushDownKeepsMeaning | src/Capl.Core/Authorization/LogicalAndCollection.cs:43-62 | De Morgan on every tree: pushing all flags down to signed rules keeps the decision |
| CaplEvaluation.ReloadedPolicyDecidesAlike | src/Piraeus.Grains/AccessControl.cs:24-56 | a reloadable policy decides every identity alike after storing and loading, transforms and guards included, when the library does not tell the texts of this policy from their normal form |
| CaplEvaluation.BlindToPolicyWhen | src/Capl.Core/Authorization/XmlReaderExtensions.cs:27-54 | that is so when the policy has no text that changes in reading, or the library never tells empty from absent |
| CaplEvaluation.EmptyMatchValueDecidesDifferently | src/Capl.Core/Authorization/Match.cs:78-120 | with an empty match value and the literal match expression, access refused before storing is granted after |
| CaplIssuance.NotAmong | src/Capl.Core/Issuance/IssuePolicy.cs:55-95 | no claim of the difference equals an input claim in type, value and issuer |
| CaplIssuance.NotAmongKeepsOrDrops | src/Capl.Core/Issuance/IssuePolicy.cs:55-95 | the difference keeps every copy of a claim unlike all inputs and no copy of any other |
| CaplIssuance.NotAmongFilters | src/Capl.Core/Issuance/IssuePolicy.cs:55-95 | the difference goes claim by claim, in order |
| CaplIssuance.RemoveSet | src/Capl.Core/Issuance/IssuePolicy.cs:89-90 | removing the found claims one by one leaves exactly the claims unlike the input claim |
| CaplIssuance.RemoveSets | src/Capl.Core/Issuance/IssuePolicy.cs:87-91 | removing the sets found beforehand one after the other, though they may overlap, leaves the ordered difference |
| CaplIssuance.Subtract | src/Capl.Core/Issuance/IssuePolicy.cs:73-92 | the two passes, looking up every set first and removing after, compute the ordered difference |
| CaplIssuance.Issue | src/Capl.Core/Issuance/IssuePolicy.cs:55-95 | aggregate mode issues the fold of the transforms, unique mode that minus the input claims |
| CaplIssuance.TransformsCompose | src/Capl.Core/Authorization/TransformCollection.cs:49-57 | a concatenated collection does what its parts do one after the other |
| SigmaChain.ChainStore.AddAsync | src/Piraeus.Grains/SigmaAlgebraChain.cs:16-48 | the scan ends, and the pages and answer are those of `Added` |
| SigmaChain.AddGoesToTheFirstRoom | src/Piraeus.Grains/SigmaAlgebraChain.cs:16-48 | on any chain: an add is refused exactly when the first later page that has room or the name has the name; otherwise one copy goes to the end of the first page that can take it, and the pages passed over are full or the first one with the name |
| SigmaChain.AddIsAppendIfAbsent | src/Piraeus.Grains/SigmaAlgebraChain.cs:16-48 | on every packed chain, adding is append-if-absent if and only if the name is not on the first page alone; a name not on it keeps the chain packed |
| SigmaChain.AddKeepsPackedIff | src/Piraeus.Grains/SigmaAlgebraChain.cs:16-48 | adding keeps a packed chain packed if and only if the name is not already on a first page with room |
| SigmaChain.AppendIfAbsentKeepsDistinct | src/Piraeus.Grains/SigmaAlgebraChain.cs:16-48 | append-if-absent keeps a duplicate-free list duplicate-free |
| SigmaChain.ChainStore.RemoveAsync | src/Piraeus.Grains/SigmaAlgebraChain.cs:140-173 | on any chain, whenever it returns: it answers whether the name can be reached, takes exactly its first copy out of the flat list, keeps a packed chain packed, and leaves its page empty exactly when that was empty or held the name alone |
| SigmaChain.ChainStore.ChainupAsync | src/Piraeus.Grains/SigmaAlgebraChain.cs:50-82 | on any chain refilling a page from the next ones keeps the flat list and the front of the page and touches no earlier page; a page within capacity before a packed rest becomes a packed chain |
| SigmaChain.ChainStore.MoveUp | src/Piraeus.Grains/SigmaAlgebraChain.cs:50-82 | moving names up one at a time, each removal refilling the later pages, appends exactly the first names of the next page and keeps the flat list |
| SigmaChain.RemoveFirstKeepsDistinct | src/Piraeus.Grains/SigmaAlgebraChain.cs:140-173 | removal from a duplicate-free list leaves no copy and adds nothing |
| SigmaChain.RemoveAbsentReturns | src/Piraeus.Grains/SigmaAlgebraChain.cs:151-165 | removing a name that cannot be reached returns if and only if the next page is empty |
| SigmaChain.PackedReaches | src/Piraeus.Grains/SigmaAlgebraChain.cs:140-173 | in a packed chain the names that can be reached are the names of the flat list |
| SigmaChain.ContainsReturns | src/Piraeus.Grains/SigmaAlgebra.cs:62-72 | with a non-empty first page the search returns if and only if the name is in the list |
| SigmaChain.ContainsAsync | src/Piraeus.Grains/SigmaAlgebra.cs:51-75 | on any chain, where it returns, the answer is membership in the flat list, but for an empty first page, where it is no |
| SigmaChain.ReachedIffGapless | src/Piraeus.Grains/SigmaAlgebra.cs:77-118 | what the reads gather is a prefix of the flat list, and all of it if and only if no empty page comes before a non-empty one |
| SigmaChain.ReachedIs | src/Piraeus.Grains/SigmaAlgebra.cs:77-118 | what the reads gather are the names of the pages before the first empty one |
| SigmaChain.PackedIsReached | src/Piraeus.Grains/SigmaAlgebra.cs:77-118 | on packed chains the reads gather the whole flat list |
| SigmaChain.AddKeepsGapless | src/Piraeus.Grains/SigmaAlgebraChain.cs:16-48 | adding never makes an empty page come before a non-empty one |
| SigmaChain.AddTwiceThenRemove | src/Piraeus.Grains/PiSystem.cs:110-111 | a name added twice and removed once is still in the list, and the count reads zero |
| SigmaChain.GetCountAsync | src/Piraeus.Grains/SigmaAlgebra.cs:77-93 | on any chain the count is that of the pages before the first empty one, and the length of the flat list if and only if there is no gap |
| SigmaChain.CollectAsync | src/Piraeus.Grains/SigmaAlgebra.cs:95-118 | on any chain the gathered list, before sorting, is the names on the pages before the first empty one, in order |
| SigmaChain.CollectFilteredAsync | src/Piraeus.Grains/SigmaAlgebra.cs:120-145 | the same, filtered, though each page filters its own names |
| SigmaChain.FilteredExact | src/Piraeus.Grains/SigmaAlgebra.cs:120-145 | filtering keeps every copy of a name that passes and none of another |
| SigmaChain.SortOrders | src/Piraeus.Grains/SigmaAlgebra.cs:116-116 | sorting gives an ordered permutation under every total order |
| SigmaChain.GetListAsync | src/Piraeus.Grains/SigmaAlgebra.cs:95-145 | on any chain the list is an ordered permutation of the names the reads gather, filtered or not |
| SigmaChain.GetWindowAsync | src/Piraeus.Grains/SigmaAlgebra.cs:147-200 | a window starting on page 1 never leaves it: when the page runs out the same page is asked again; past the whole list it is empty |
| SigmaChain.WindowReturns | src/Piraeus.Grains/SigmaAlgebra.cs:171-197 | on a packed chain and unbounded integers, a window is ever returned if and only if it starts on page 1, or is empty at its end, or starts past the whole list |
| SigmaChain.WindowRepeats | src/Piraeus.Grains/SigmaAlgebra.cs:180-196 | past the end of its page a window starts over at its own index, again and again |
| SigmaChain.WindowIsSlice | src/Piraeus.Grains/SigmaAlgebra.cs:180-196 | a window is the right slice of the list if and only if it ends on the first page |
| SigmaChain.TokensCover | src/Piraeus.Grains/SigmaAlgebra.cs:260-279 | following continuation tokens inside page 1 gives exactly the contiguous slice, without gaps |
| Subscription.StalePrefix | src/Piraeus.Grains/Subscription.cs:533-537 | the purge stops at the first message that is not stale, all before it are |
| Subscription.EveryRunConserves | src/Piraeus.Grains/Subscription.cs:129-180 | in every run from an empty grain, any interleaving, a clock reading for each turn: each message is in exactly one place, dropped ones were out of time, delivered ones went to somebody, and the lost ones are exactly those of the turns that lose |
| Subscription.MessagesAreConserved | src/Piraeus.Grains/Subscription.cs:421-485 | the same from every state that conserves messages, with any number of suspended drains |
| Subscription.TurnLosesExactly | src/Piraeus.Grains/Subscription.cs:456-552 | a turn loses something if and only if nobody observes a durable subscription whose stored messages are all stale and a message arrives, or a drain has one alive to send; it then loses exactly that message, or the rest of the drain from there |
| Subscription.LostInNothingIffLossless | src/Piraeus.Grains/Subscription.cs:456-552 | a run loses nothing if and only if none of its turns does |
| Subscription.EveryTurnDeliversToAll | src/Piraeus.Grains/Subscription.cs:155-159 | in every turn, drains included, what is delivered goes to every lease then present, after what was delivered before |
| Subscription.NotifiedGoesTo | src/Piraeus.Grains/Subscription.cs:155-171 | with observers a message is delivered to all leases and no queue changes; without, it is stored last behind the stored messages that are not stale, or kept last in memory, and the timer is armed |
| Subscription.DurableKeepsNothingInMemory | src/Piraeus.Grains/Subscription.cs:529-571 | with durable messaging no run from empty memory ever keeps a message in memory |
| Subscription.StoredMessageReachesTheJoiner | src/Piraeus.Grains/Subscription.cs:243-267 | a message stored for want of observers is the last one sent to the observer that joins while it is alive |
| Subscription.NotificationFailsIffAllStale | src/Piraeus.Grains/Subscription.cs:529-552 | a notification fails and loses its message if and only if nobody observes a durable subscription whose stored messages are all stale |
| Subscription.MemoryOnlyLosesNothing | src/Piraeus.Grains/Subscription.cs:554-571 | without durable messaging no turn of any run loses a message |
| Subscription.JoiningObserverCatchesUp | src/Piraeus.Grains/Subscription.cs:243-267 | without a spool rate, a joining observer is sent every stored message still alive, in order, to all leases then present |
| Subscription.SpoolingObserverCatchesUp | src/Piraeus.Grains/Subscription.cs:456-476 | with a spool rate it is sent the first stored message still alive in each turn of the drain, which is done after as many turns as there were messages |
| Subscription.SpooledMissesNoneAlive | src/Piraeus.Grains/Subscription.cs:456-476 | every stored message that stays alive through those turns is among the ones sent |
| Subscription.AliveOfFilters | src/Piraeus.Grains/Subscription.cs:456-476 | what is alive of a queue is found message by message, in order, by the time alone |
| Subscription.QueueCheckDeliversBoth | src/Piraeus.Grains/Subscription.cs:421-446 | a check with observers and without a spool rate delivers all that is alive, first of memory and then of the stored queue, and empties both |
| Subscription.ActivationKeepsTheAlive | src/Piraeus.Grains/Subscription.cs:75-87 | without observers, activation puts the stored messages still alive back in order, into the stored queue or, without durable messaging, into memory |
| Subscription.CheckReachesMemoryIffArmed | src/Piraeus.Grains/Subscription.cs:421-446 | with observers present, a queue check takes up the messages in memory if and only if the queue timer is armed |
| Subscription.MemoryStaysBehind | src/Piraeus.Grains/Subscription.cs:421-446 | once the timer is gone, no run with observers re-arms it or moves a message out of memory |
| Subscription.LateObserverNeverGetsTheMessage | src/Piraeus.Grains/Subscription.cs:442-446 | a message, a tick, then an observer: in every continuation in which observers stay, that message is never delivered |
| Subscription.SubscriptionGrain.NotifyAsync | src/Piraeus.Grains/Subscription.cs:129-180 | besides being the step, from the fields alone: with leases the last delivery is the message to all of them and both queues stay; unobserved, it ends the stored queue or the memory queue, the other stays and the timer is armed; it fails exactly when everything stored is stale and nobody observes |
| Subscription.SubscriptionGrain.QueueDurableMessageAsync | src/Piraeus.Grains/Subscription.cs:529-552 | unless the peek fails, the stored queue is what was not stale with the message at its end, memory stays, the timer is armed |
| Subscription.SubscriptionGrain.Purge | src/Piraeus.Grains/Subscription.cs:533-537 | the loop takes out exactly the stale prefix |
| Subscription.SubscriptionGrain.Dequeue | src/Piraeus.Grains/Subscription.cs:456-485 | one turn of a drain, up to a spool delay, is the step's drain |
| Subscription.SubscriptionGrain.OnActivateAsync | src/Piraeus.Grains/Subscription.cs:75-87 | activation drains the stored queue |
| Subscription.SubscriptionGrain.AddObserverAsync | src/Piraeus.Grains/Subscription.cs:243-267 | the new lease is there before the stored queue is drained |
| Subscription.SubscriptionGrain.CheckQueueAsync | src/Piraeus.Grains/Subscription.cs:421-454 | a tick drains memory, then the stored queue, or disposes of the timer when nobody observes |
| Leases.TablesAlwaysAgree | src/Piraeus.Grains/Subscription.cs:243-419 | in every run the expiry times split exactly into metric and error leases, message-tagged keys are message leases, and the timer is armed while there is an expiry time |
| Leases.TickIsExact | src/Piraeus.Grains/Subscription.cs:367-419 | an uninterrupted tick removes precisely the overdue leases from every table, keeps the rest with times and tags, and disarms exactly when nothing is left |
| Leases.WaitingTickTakesItsLists | src/Piraeus.Grains/Subscription.cs:382-403 | a lease present while a tick waits for an unsubscription, renewed meanwhile or not, is gone after that tick if and only if it was on the lists the tick still had or was removed |
| Leases.RenewedLeaseIsDropped | src/Piraeus.Grains/Subscription.cs:337-403 | a renewal of a listed lease while the tick waits finds it and succeeds, and in every such run the tick drops it all the same |
| Leases.RenewalWhileTickWaits | src/Piraeus.Grains/Subscription.cs:382-391 | such a run with two overdue message leases, the first dropped before the tick waits |
| Leases.LeaseTables.AddObserverAsync | src/Piraeus.Grains/PiSystem.cs:300-343 | the key goes into the table of its kind and the expiry times, the timer is armed, the tables agree |
| Leases.LeaseTables.RemoveObserverAsync | src/Piraeus.Grains/Subscription.cs:317-335 | expiry, metric and error tables lose the key, message leases keep it, the tables still agree |
| Leases.LeaseTables.RenewObserverLeaseAsync | src/Piraeus.Grains/Subscription.cs:337-361 | a known key gets a new time under its old tag, an unknown one changes nothing and answers false |
| Leases.LeaseTables.CheckLeaseExpiryAsync | src/Piraeus.Grains/PiSystem.cs:392-420 | the keys left are exactly those not overdue, unchanged, and the tables agree |
| PiSystem.TrimTildes | src/Piraeus.Grains/Subscription.cs:198-198 | the rest of the text after all its leading tildes |
| PiSystem.CountExact | src/Piraeus.Grains/Subscription.cs:194-200 | the query fails if and only if a value is empty or the subscription has no index list, and its count is the number of indexes if and only if every one is met |
| PiSystem.PassesIsWanted | src/Piraeus.Grains/Subscription.cs:194-200 | the query lets a message through if and only if the subscription's index set holds each plain pair and lacks each negated one |
| PiSystem.MoreIndexesReachFewer | src/Piraeus.Grains/Subscription.cs:194-200 | a longer list passes if and only if both of its parts pass |
| PiSystem.IndexAndNegationSplit | src/Piraeus.Grains/Subscription.cs:194-198 | an index and its negation split the subscriptions that pass the rest into two disjoint parts |
| PiSystem.TildeValuesAreNeverSeen | src/Piraeus.Grains/Subscription.cs:198-198 | a subscription's index whose value starts with a tilde never changes what passes |
| PiSystem.Subscription.NotifyFilteredAsync | src/Piraeus.Grains/Subscription.cs:182-218 | unless the filter fails the message is counted once; it is accepted if and only if, for each wanted pair, a value without a leading tilde is among the subscription's indexes and what follows the leading tildes of any other is not |
| PiSystem.PiSystemGrain.PublishAsync | src/Piraeus.Grains/PiSystem.cs:230-259 | every subscription takes the message once |
| PiSystem.PiSystemGrain.PublishFilteredAsync | src/Piraeus.Grains/PiSystem.cs:261-294 | the message is accepted by exactly the subscriptions whose index sets meet every wanted pair, fails exactly when some filter fails, and without an index list is counted twice |
| RedisMembership.RedisMembershipCollection.Add | src/Orleans.Clustering.Redis/RedisMembershipCollection.cs:31-37 | adds unless there is a row for the silo, keeping rows unique |
| RedisMembership.RedisMembershipCollection.Remove | src/Orleans.Clustering.Redis/RedisMembershipCollection.cs:82-85 | takes out the row, and with unique rows none is left |
| RedisMembership.RedisMembershipCollection.Replace | src/Orleans.Clustering.Redis/RedisMembershipTable.cs:269-278 | the silo's row is replaced, at the end, by one with the new time and details under the old index; the other rows keep their order, rows stay unique |
| RedisMembership.RedisMembershipCollection.UpdateIAmAlive | src/Orleans.Clustering.Redis/RedisMembershipCollection.cs:119-132 | only the time of the silo's row changes, in place |
| RedisMembership.FirstRow | src/Orleans.Clustering.Redis/RedisMembershipCollection.cs:64-70 | the row found is the first one of the silo |
| RedisMembership.RowsStayUnique | src/Orleans.Clustering.Redis/RedisMembershipTable.cs:100-291 | in every run of any clients no table holds two rows for one silo, and no row's index moves from zero |
| RedisMembership.NoUpdateIsLost | src/Orleans.Clustering.Redis/RedisMembershipTable.cs:100-291 | every run without a token set between a check and its write, and without a write that overlaps a heartbeat, keeps the serial invariant, heartbeats included |
| RedisMembership.CalmRunsAreSerial | src/Orleans.Clustering.Redis/RedisMembershipTable.cs:100-291 | after such a run from the start the table is the replay of the commits in order, every write and read agrees with the replay before it, rows are unique |
| RedisMembership.CalmRunsTellTheirHistory | src/Orleans.Clustering.Redis/RedisMembershipTable.cs:100-291 | after every such run a silo has a row if and only if an insert for it committed; its details are those of the last committed update, or of the creating insert, its time that of the last of these or heartbeat; every read returned the table that tells the history before it |
| RedisMembership.ReplayTells | src/Orleans.Clustering.Redis/RedisMembershipTable.cs:269-286 | replaying any serial history gives a table that tells exactly that history |
| RedisMembership.EveryRunCommitsWhatIsDone | src/Orleans.Clustering.Redis/RedisMembershipTable.cs:100-291 | in every run, calm or not, an operation that has reported success is among the commits, but for a heartbeat that found no row, and there are no more commits than clients that are done |
| RedisMembership.InsertBetweenCheckAndWriteIsLost | src/Orleans.Clustering.Redis/RedisMembershipTable.cs:122-128 | two inserts, a token set between a check and its write: both report success and the first row is gone |
| RedisMembership.InsertDuringHeartbeatIsLost | src/Orleans.Clustering.Redis/RedisMembershipTable.cs:225-246 | from the empty store: an insert committed between a heartbeat's read and its write is lost, with no token contended |
| OrleansAdapter.Adapter.SubscribeAsync | src/Piraeus.Adapters/OrleansAdapter.cs:148-183 | the new observer is ephemeral; its lease is entered, or leaks when the resource already has an entry; each entry still names its own held subscription |
| OrleansAdapter.Adapter.LoadDurableSubscriptionsAsync | src/Piraeus.Adapters/OrleansAdapter.cs:61-106 | observes exactly the listed subscriptions besides the old ones; each new entry is the first new subscription of its resource under that subscription's own lease key, old entries stay; each new subscription's lease is taken once, and leaks exactly when its resource had an entry by then |
| OrleansAdapter.EnteredIs | src/Piraeus.Adapters/OrleansAdapter.cs:75-98 | after any number of turns of the loop each resource with a new subscription has the entry of the first one, under its own lease key, unless it had an entry before |
| OrleansAdapter.NewResourcesExact | src/Piraeus.Adapters/OrleansAdapter.cs:75-98 | the list returned holds exactly the resources of subscriptions not observed before |
| OrleansAdapter.Adapter.UnsubscribeAsync | src/Piraeus.Adapters/OrleansAdapter.cs:185-210 | the entry goes; an ephemeral lease is given back once, a durable one is forgotten while its observer stays; a fault of the graph manager leaves everything as it was |
| OrleansAdapter.Adapter.ReleaseAll | src/Piraeus.Adapters/OrleansAdapter.cs:284-386 | each container lease of the given observers is given back once and exactly their entries go |
| OrleansAdapter.Adapter.RemoveDurableObserversAsync | src/Piraeus.Adapters/OrleansAdapter.cs:284-325 | the durable observers and their entries go, each of their container leases is given back once |
| OrleansAdapter.Adapter.RemoveEphemeralObserversAsync | src/Piraeus.Adapters/OrleansAdapter.cs:327-368 | the same for the ephemeral observers |
| OrleansAdapter.Adapter.Dispose | src/Piraeus.Adapters/OrleansAdapter.cs:220-386 | in whichever order the two removals finish: all three tables are empty, each lease of the container is given back exactly once, what was ever taken is given back or had leaked before |
| OrleansAdapter.RemovingInTurns | src/Piraeus.Adapters/OrleansAdapter.cs:232-233 | removing one kind of observers takes away no lease of the other kind, and together the two have every lease once |
| OrleansAdapter.ListedAreGone | src/Piraeus.Adapters/OrleansAdapter.cs:370-386 | dropping what the two removals have listed empties the container in either order |
| CoapDispatcher.TableHoldsTheObservationsInForce | src/Piraeus.Adapters/CoapRequestDispatcher.cs:62-152 | over every run of requests, a resource is in the table with a token if and only if that token came with its first accepted observe since its last cancellation |
| CoapDispatcher.ObservedIsHeld | src/Piraeus.Adapters/CoapRequestDispatcher.cs:62-152 | in every reachable state an observed resource is a key of the adapter's container |
| CoapDispatcher.CoapRequestDispatcher.NotificationToken | src/Piraeus.Adapters/CoapRequestDispatcher.cs:242-252 | a message is sent under the token of the observation in force, and under none if there is none |
| CoapDispatcher.PutMarkOutlivesItsSubscription | src/Piraeus.Adapters/CoapRequestDispatcher.cs:224-237 | a put resource is refused to every later put until a durable load, whatever is deleted or unobserved between |
| CoapDispatcher.PutIsRefusedAfterDelete | src/Piraeus.Adapters/CoapRequestDispatcher.cs:62-93 | put then delete: nothing is held for the resource and the next put is refused |
| CoapDispatcher.TableHoldsTheMarks | src/Piraeus.Adapters/CoapRequestDispatcher.cs:212-286 | over every run a resource is in the other table if and only if it was put without a verdict or an observation against it, or listed by a durable load, and no load that lists something came since |
| CoapDispatcher.SteadyVerdictAllowsOneKind | src/Piraeus.Adapters/CoapRequestDispatcher.cs:118-222 | while the validator's verdict on a resource does not change, no run has it both observed and put: accepted, it is never marked by a put, refused, never observed |
| CoapDispatcher.CoapRequestDispatcher.DeleteAsync | src/Piraeus.Adapters/CoapRequestDispatcher.cs:62-93 | cancels and answers Deleted, or resets and changes nothing on a fault, and the tables stay what the handled requests make of them |
| CoapDispatcher.CoapRequestDispatcher.ObserveAsync | src/Piraeus.Adapters/CoapRequestDispatcher.cs:102-152 | the four outcomes of an observe, with the tables still those of the handled requests |
| CoapDispatcher.CoapRequestDispatcher.PutAsync | src/Piraeus.Adapters/CoapRequestDispatcher.cs:212-240 | the three outcomes of a put, with the tables still those of the handled requests |
| CoapDispatcher.CoapRequestDispatcher.LoadDurablesAsync | src/Piraeus.Adapters/CoapRequestDispatcher.cs:278-286 | a load that returns resources replaces the unobserved ones, an empty one changes nothing of the tables |

## Left out

- CaplReload.ReloadIffReloadable: quantifies over policies with an expression, without an empty connective and without a transform that has no content; the published schema (`src/Capl.Core/Properties/Resources.resx` lines 134-194) asks for more. Which policies with such an empty element reload is not characterised: some do, when nothing follows that its reader could take in, and `EmptyConnectiveSwallowsTheNext` shows what happens to others.
- CaplEvaluation.ReloadedPolicyDecidesAlike: asks that the library does not tell the texts of the policy from what they are read back as; `EmptyMatchValueDecidesDifferently` shows why.
- SigmaChain.ChainStore.RemoveAsync: says when the page it is called on is left empty, and keeps packed chains packed of capacity at least 2 (the code's is 1000); which removals from an unpacked chain leave a later page empty before another is not characterised.
- SigmaChain.WindowReturns: the 32-bit wrap-around that would end the loop after some two thousand million turns is not modelled; nor are windows over a filtered list.
- SigmaChain.GetListAsync: the library's sort is stood for by an insertion sort under a given total order; ties of that order may come out otherwise.
- Leases.LeaseTables.CheckLeaseExpiryAsync: is the tick without a suspension; the suspended tick of an ephemeral subscription is in the step system only. The clock is read once per tick.
- Subscription.EveryRunConserves: covers subscriptions with a time to live and without a notify address. Deactivation, which loses the in-memory queue, `ClearAsync`, counters and metric notifications are not part of this model.
- Subscription.SubscriptionGrain.Dequeue: one clock reading serves a whole turn, where the source reads the clock for each message and again in the purge; a message that goes out of time within a turn is not modelled.
- OrleansAdapter.Adapter.SubscribeAsync: faults of the graph manager, operations overlapping at awaits other than those of disposal, and the lease renewal timer are not modelled. A new subscription URI is assumed not to be in use.
- CoapDispatcher.CoapRequestDispatcher.DeleteAsync: its fault is that of the first call to the graph manager, before the lease is given back. Faults during an observe or a put reach the caller as exceptions and are not modelled.
- CaplXml.XmlWriter.WriteTerm: terms, transforms and policies are values, so objects shared between policies and later changes to them are not modelled.
- XML escaping, encodings, white space and line ends, namespaces other than as foreign tags, and URI parsing (a URI is any non-empty string).
- Match expressions, operations and transform actions: parameters of the evaluators, because they are looked up by URI and supplied by the host.
- The XML of issue policies, and the factories that look policies up.
- Concurrent calls into the page chain: one operation runs at a time. Clearing the chain is a reset.
- Redis membership: deletion of defunct entries, clean-up of the table, serialisation, and time-outs of the Redis client other than the expiry of the token.
- Azure, Redis, HTTP and IoT sinks, auditors, storage, gateways, channels, MQTT, POST and GET of CoAP: I/O without state of their own that the modelled parts depend on.
