# Topic routing, pub-sub, query transpiling and Action Cable: a verified model

This project models the hard core of a Go library for server-side web applications and proves what it
promises. Four parts of the library are covered.

**The topic router** (`pubsub/broker-router.go`) is a radix tree that is changed in place. Nodes are records
in an arena, linked by index; a ghost sequence gives every node its key, the prefixes from the root joined
together. `HandlerRouter` is the class with the source's loops: `Insert` splits nodes and re-parents
children, `Add` scans a pattern, `Find` is one loop over a cursor with phases in place of the jumps, and it
backtracks by parent links. The proofs go up in steps:

1. one insertion sets one entry of a table from (key, method) to records (`RouteAdd.InsertKeeps`), and
   registering a pattern is a series of insertions with an exactly known effect (`RoutePlan.AddKeeps`);
2. the loop of `Find` gives what a recursive search of the tree gives (`HandlerRouters.HandlerRouter.Find`), which enters no
   node twice and only reports keys that spell the searched path;
3. the tree search gives what a search of the bare table gives, byte by byte and without any tree
   (`RouteTable.SearchIsMatch`), and the nodes of the tree can be told from the registered routes
   (`RoutePoints.NodesArePoints`), so that the router's answers for every method are a function of the series of
   routes alone (`RouteLaws.RoutesDecide`);
4. a search misses exactly when no route that could answer it spells the path (`RouteAnswers.MissIff`), and every
   match has a handler exactly when the routes leave no empty record that a search gets
   (`RouteAnswers.MatchesHaveHandlers`);
5. a route that is found spells the searched path with the values that `Find` leaves in the context, and for the
   not-found route of a best match, where this is not always so, it is known exactly when
   (`RouteValues.FallbackSpells`).

The source deviates from a plain table in two places. An insertion that splits a node at its very end stores its
record even when that has no handler. For PUB, SUB, UNSUB and the not-found method this leaves an empty record
behind, which later searches match. `RouteLaws.FullTable` is the table with these records, and
`RouteLaws.AddMirrors` says when a registration leaves one, in terms of the routes before it. And a search that
finds no record falls back on the not-found route of its best match with parameter values that are cleared or
belong to other nodes; `HandlerRouters.BlankFallback` is an example.

**The hub and the broker** (`pubsub/hub.go`, `pubsub/broker.go`) are classes whose methods are proved against
functions on states. `Protocol` lets callers and `Serve` interleave freely: a caller keeps the hub's lock while
it waits to hand its change over, and `Serve` works through one received change topic by topic. The theorems
are about every run. The documentation's claim that exactly one PUB handler runs for a topic exactly when the
topic has subscribers holds whenever no change is on its way, and what is on its way is known exactly
otherwise. `Broadcasts` models the hub's readers-writer lock alone. There the documentation and the code
disagree: subscriptions whose receivers return errors are said to be deactivated, but `Broadcast` asks for the
write lock while it holds the read lock, so it never ends, and no other writer ever gets in.

**The Rego-to-SQL transpiler** (`opa/sql.go`) turns query bodies into a disjunction of conjunctions of `exists`
subqueries. Both sides get a meaning over a database of rows, each language with its own comparisons: a comparison
with null is never true in SQL, while Rego compares null like any value. `QueryMeaning.StatementMeans` says, with no
hypothesis on the bodies, what a statement is true of. The main theorem is that the statement, evaluated with its
merged parameters, is true exactly when some body has rows that satisfy it without comparing a null. It holds for
every order in which a Go map may list the selections. Its hypotheses can be checked on the bodies: each call
compares one constant with one reference, a selection ID has one table, a key has one selection, comparisons that
share a placeholder have one value, and the two languages agree on the values other than null that are compared.
Negated calls and terms that are not calls need no hypothesis, because the theorem says that the transpiler does not
see them. `QueryLimits` has, for each hypothesis, a database on which statement and body disagree without it,
and says when a statement can be printed at all: a body without calls counts as true here, but prints to `()`.

**Action Cable** (`actioncable/connections.go`, `actioncable/channels.go`) is a connection with a channel
dispatcher. The theorems are about every sequence of client commands and every result of the factories and
channels.

Strings are sequences of characters that stand for bytes. Handlers are opaque numbers. Contexts and
subscriptions are told apart by numbers, and cancelling one puts it into a set. What code outside the model
returns (receivers, factories, channels, checkers, identifier parsing) is a parameter or an arbitrary function.
The source's maps are Dafny maps, and wherever it ranges over one the model picks the elements in an arbitrary
order.

## Model

| member | source | states |
|---|---|---|
| `RouteTree.EmptyTreeWellFormed` | pubsub/broker-router.go:229-237 | a new router's tree satisfies the invariant |
| `RouteTree.FindStatic` | pubsub/broker-router.go:162-170 | the child found has the label, and nothing is found only when no static child has it |
| `RouteTree.KeysInjective` | pubsub/broker-router.go:286-429 | two nodes never have the same concatenated prefixes |
| `RouteTree.ChildToward` | pubsub/broker-router.go:393-400 | from a node to any node whose key extends its key there is a child on the way: the radix property |
| `RouteEdits.RegisterRecord` | pubsub/broker-router.go:186-198 | adding a method changes that one record, deletes it for a custom method without handler, and keeps `isHandler` true to the records (also lines 31-64) |
| `RouteEdits.SplitKeeps` | pubsub/broker-router.go:325-370 | splitting a node and re-parenting its children keeps the tree well formed, keeps every stored record, and adds exactly one key |
| `RouteEdits.PutKeeps` | pubsub/broker-router.go:419-426 | rewriting the contents of one node keeps the tree well formed and changes the records of that key only |
| `RouteEdits.AttachKeeps` | pubsub/broker-router.go:401-418 | a new child in a free slot keeps the tree well formed and adds exactly its own records |
| `RouteInsert.WalkEnds` | pubsub/broker-router.go:301-400 | the descent stays on prefixes of the path and ends where no child continues it |
| `RouteAdd.InsertKeeps` | pubsub/broker-router.go:286-429 | insertion refines a table update: with a handler exactly the entry for (path, method) is set; without one nothing is, except the empty record that a split leaves for PUB, SUB, UNSUB and not-found; the tree stays well formed |
| `RouteTitles.InsertEnters` | pubsub/broker-router.go:286-429 | an insertion with a handler makes its pattern the original path of the node for its path; every other node keeps its own, and new nodes have none |
| `RoutePlan.AddKeeps` | pubsub/broker-router.go:240-284 | registering a pattern sets the entry for its normalised pattern and method, adds empty records exactly where a part before a parameter splits a node, touches no other entry, makes the pattern the original path of its node and of no other, and raises `maxParam` to the number of names |
| `RouteLaws.SlashIsAdded` | pubsub/broker-router.go:243-250 | a pattern without leading slash is registered as the one with it, the empty pattern as `/`, and a pattern with leading slash as it is |
| `Text.NamesRespell` | pubsub/broker-router.go:249-283 | a pattern is spelled by its normalised form and its parameter names, so neither loses or changes anything; no name has a slash |
| `RoutePoints.NodesTitled` | pubsub/broker-router.go:318-323 | after every series of registrations the original path of a node is the pattern last registered at its key, by any method, and empty for nodes that are no route's key (also lines 332-367, 372-389 and 402-424) |
| `RoutePoints.BuildWellFormed` | pubsub/broker-router.go:240-429 | after every series of registrations the tree is well formed: non-empty prefixes below the root, labels are first bytes, distinct labels among static siblings, marker prefixes, parent and child links agree, `isLeaf` and `isHandler` are true to the node (also lines 134-206) |
| `RoutePoints.ForkHasNode` | pubsub/broker-router.go:325-391 | where two keys of a tree go on differently there is a node |
| `RoutePoints.NodesArePoints` | pubsub/broker-router.go:286-429 | the tree of a series of routes has exactly the nodes that the routes ask for: the ends of their keys, both sides of their parameters, and where two keys go on differently; so where an insertion splits a node is known from the routes |
| `HandlerRouters.LcpLen` | pubsub/broker-router.go:306-312 | the loop measures the longest common prefix |
| `HandlerRouters.HandlerRouter.constructor` | pubsub/broker-router.go:229-237 | a new router has the empty tree |
| `HandlerRouters.HandlerRouter.FindStaticChild` | pubsub/broker-router.go:162-170 | the loop finds the first static child with the label |
| `HandlerRouters.HandlerRouter.FindChildWithInitial` | pubsub/broker-router.go:172-184 | static children first, then the parameter or the any child for its marker |
| `HandlerRouters.HandlerRouter.ReparentChildren` | pubsub/broker-router.go:344-353 | exactly the children of the node get the new parent, and nothing else changes |
| `HandlerRouters.HandlerRouter.SplitNode` | pubsub/broker-router.go:325-370 | the in-place steps produce the split tree |
| `HandlerRouters.HandlerRouter.Descend` | pubsub/broker-router.go:295-400 | the loop ends at the place that the recursive descent gives, with the rest of the path still to match |
| `HandlerRouters.HandlerRouter.EditAt` | pubsub/broker-router.go:314-426 | the four branches at the end of the descent make the edit of the specification |
| `HandlerRouters.HandlerRouter.Insert` | pubsub/broker-router.go:286-429 | the in-place insertion produces the tree of the specification, whose effects on the table and on original paths InsertKeeps and InsertEnters state |
| `HandlerRouters.HandlerRouter.AddParam` | pubsub/broker-router.go:253-275 | the parameter block makes its two insertions, cuts the name out of the path and leaves the rest of the scan to do |
| `HandlerRouters.HandlerRouter.AddAny` | pubsub/broker-router.go:276-280 | the any block makes its two insertions and leaves the rest of the scan to do |
| `HandlerRouters.HandlerRouter.Add` | pubsub/broker-router.go:240-284 | the scan keeps the router valid, its effect is the one of AddKeeps for the pattern with a slash in front where it has none, and there is room for the parameters of every key |
| `RouteSearch.SearchSound` | pubsub/broker-router.go:500-629 | whatever the search reports, the key with its values spells the searched path, the record is stored under that key, and an any node ends the search only with a best match in hand |
| `RouteSearch.SearchOnce` | pubsub/broker-router.go:500-629 | a search enters every node at most once, zero-length parameter matches included |
| `RouteClimb.ParamDown` | pubsub/broker-router.go:567-587 | going down to a parameter child is the call that the recursive search makes, with the same value taken |
| `RouteClimb.StaticUp` | pubsub/broker-router.go:457-488 | going back from a static node resumes the recursive search at the parent's parameter child, with the path and the values as they were there |
| `RouteClimb.ParamUp` | pubsub/broker-router.go:457-488 | going back from a parameter node resumes the recursive search at the parent's any child, with the value undone |
| `HandlerRouters.HandlerRouter.TopBlock` | pubsub/broker-router.go:500-537 | matching the prefix, or backtracking from the mismatch, keeps the loop in step with the recursive search and lowers the measure |
| `HandlerRouters.HandlerRouter.Check` | pubsub/broker-router.go:539-557 | the exact-match block records the first best match and ends the loop exactly when the recursive search finds its record here |
| `HandlerRouters.HandlerRouter.ParamBlockStep` | pubsub/broker-router.go:567-587 | a parameter child is entered with the segment, or all the rest at a leaf; otherwise the any block comes next |
| `HandlerRouters.HandlerRouter.EnterAny` | pubsub/broker-router.go:591-615 | an any child takes the rest of the path at index `paramsCount - 1`, and ends the loop with the outcome of the recursive search |
| `HandlerRouters.HandlerRouter.Backtrack` | pubsub/broker-router.go:617-628 | backtracking restores the search and the parameter values of the parent, and goes on or ends as the recursive search does |
| `HandlerRouters.HandlerRouter.Find` | pubsub/broker-router.go:433-663 | for every valid router, method, path and large enough context: the loop ends, never indexes out of range, and leaves in the context exactly what the recursive search gives (record, best match and its fallbacks, or nothing) with the values of the match first in `pvalues` and the rest cleared or untouched; a registered handler that is found comes with a pattern and values that spell the path, and there is room for as many values as names |
| `HandlerRouters.HandlerRouter.Lookup` | pubsub/broker.go:119-134 | a new context, routed: no slice is out of range; for a registered handler that is found the parameter values are those of the match and spell the path; for a fallback on a not-found route they are the values that were left, padded with blanks, and spell the path if and only if they are the values of the best match (also pubsub/broker-router.go:100-103, 645-656) |
| `HandlerRouters.HandlerRouter.Resolve` | pubsub/broker-router.go:631-662 | for a router with a series of routes, told from the routes: a match gives its record's path, names and handler; otherwise a best match gives its not-found record, or the error handler for a method that is not allowed with the pattern last registered there; and otherwise the not-found handler stays (also pubsub/broker.go:119-134) |
| `RouteAnswers.BestMatchSays` | pubsub/broker-router.go:645-660 | the node of a best match without a not-found record has a method, and its original path is the pattern last registered at its key |
| `HandlerRouters.BlankFallback` | pubsub/broker-router.go:645-656 | SUB and not-found at `/:a`: a PUB at `/x` gets the not-found handler with the name `a` and a blank value |
| `HandlerRouters.RouterContext.constructor` | pubsub/broker.go:119-134 | a new context has `maxParam` names and values and the not-found handler |
| `HandlerRouters.RouterContext.Param` | pubsub/broker-router.go:82-93 | the value of the first parameter with the name, or the empty string when no parameter has it or there is no value for it |
| `HandlerRouters.RouterContext.ParamValues` | pubsub/broker-router.go:100-103 | one value for each name, and for the first parameter with a name the value that Param gives for it |
| `RouteTable.SearchIsMatch` | pubsub/broker-router.go:433-629 | for a tree that mirrors a table, empty records included, the search (record, values, best match, cut) equals a search of the bare table that tries the next byte, then a parameter, then an any route |
| `RouteLaws.AddMirrors` | pubsub/broker-router.go:240-284 | a registration just sets its entry of the table if and only if it leaves no empty record: its method cannot hold one, or no part of its key before a parameter is one that earlier routes go beyond without stopping there (also lines 372-377) |
| `RouteLaws.BuildMirrors` | pubsub/broker-router.go:240-284 | after every series of registrations, for all methods, the tree mirrors the table of the routes and of the empty records that they leave (also lines 31-49) |
| `RouteLaws.RoutesDecide` | pubsub/broker-router.go:433-629 | for every series of routes, method and path, the search gives what a search of that table gives, which is a function of the routes alone |
| `RouteLaws.OrderDoesNotMatter` | pubsub/broker-router.go:433-629 | with distinct (normalised pattern, method) pairs and orders of registration that leave no empty records, every order gives the same outcome for every method and path (also lines 240-284) |
| `RouteLaws.CustomOrderDoesNotMatter` | pubsub/broker-router.go:433-629 | in particular with custom methods (also lines 39-48 and 240-284) |
| `RouteValues.HitRendersPath` | pubsub/broker-router.go:567-604 | when a registered handler is found, its pattern with the i-th parameter replaced by the i-th value is the searched path, and a value contains a slash only if it is the last one and its node takes all the rest; `Find` states it of the context (also lines 249-283 and 639-662) |
| `RouteLaws.ForeignWins` | pubsub/broker-router.go:539-604 | a record at a key without `*` is found by every search along the key whose parameter values start with bytes that no route uses, and always for a literal topic |
| `RouteLaws.RegisteredIsFound` | pubsub/broker-router.go:240-284 | a registered handler, with its pattern and names, is found for its method at every path that fills its key with foreign values, unless a later route has its key and method |
| `RouteLaws.LiteralIsFound` | pubsub/broker-router.go:240-284 | a literal topic, registered with or without its leading slash, is found with its handler |
| `RouteAnswers.MissIff` | pubsub/broker-router.go:500-629 | a search misses if and only if no key that answers it spells the path: one with a record for the method, or with a not-found record and no method, or of an any route, filled in with values that its parameters can take |
| `RouteLaws.EmptyRecordIsFound` | pubsub/broker-router.go:372-377 | wherever a registration for PUB, SUB, UNSUB or not-found leaves an empty record, searches along its key match it and get no handler; for not-found, searches for any method (also lines 541-557 and 644) |
| `RouteAnswers.MatchesHaveHandlers` | pubsub/broker-router.go:641-644 | given a byte that no route uses: every match of every method and path has a handler, if and only if the routes leave no empty record for a method and none for not-found where there is no method (also lines 372-377 and 541-557) |
| `RouteAnswers.LeavesNothingMatches` | pubsub/broker-router.go:641-644 | when no registration leaves an empty record, every match has a handler |
| `RouteLaws.LiteralFirst` | pubsub/broker-router.go:372-377 | PUB `/n` then PUB `/:i`: a search for `/` finds a record without handler |
| `RouteLaws.ParameterFirst` | pubsub/broker-router.go:240-284 | PUB `/:i` then PUB `/n`: the same search finds nothing |
| `RouteValues.FallbackSpells` | pubsub/broker-router.go:645-656 | when a search finds no record, having run out or been ended by an any node, the not-found route of its best match spells the path if and only if the values left, padded with blanks, are the values of the best match (also lines 476-486 and 591-627) |
| `RouteValues.NotFoundSpells` | pubsub/broker-router.go:645-656 | if every not-found route with parameters is the only one with its key, the fallback always spells the path |
| `RouteValues.SharedNotFoundMisspells` | pubsub/broker-router.go:645-656 | a not-found route with parameters that shares its key is fallen back on with blank values, and does not spell the path, for every unregistered method and all values with a foreign first byte, when there are no any routes and no not-found routes alone at their keys |
| `Text.FillInjective` | pubsub/broker-router.go:567-604 | different parameter values of one key spell different paths |
| `Text.RenderIsFill` | pubsub/broker-router.go:249-283 | filling in a pattern and filling in its normalised key give the same path |
| `HubStates.SubscribeKeeps` | pubsub/hub.go:84-116 | subscribing keeps the hub's invariant, and the change to send is exactly the change of the set of topics |
| `HubStates.SubscribeExactly` | pubsub/hub.go:88-108 | the new subscription is stored under its topic beside those that are there, nothing else changes, and the topic is announced exactly when it had no subscription |
| `HubStates.CancelKeeps` | pubsub/hub.go:119-138 | so does cancelling topics, the ones without subscriptions included |
| `HubStates.CancelExactly` | pubsub/hub.go:124-137 | exactly the given topics go, exactly their subscriptions are cancelled, and the topics are announced if there are any |
| `HubStates.UnsubscribeKeeps` | pubsub/hub.go:141-165 | so does unsubscribing, whose change says what was removed |
| `HubStates.UnsubscribeExactly` | pubsub/hub.go:141-165 | exactly the given subscriptions go and are cancelled, and the topics that lost all theirs are announced once each, if there are any |
| `HubStates.DropAllWithout` | pubsub/hub.go:149-161 | the rounds of `unsubscribe` take exactly the given subscriptions from every topic, drop the emptied topics and cancel the subscriptions, whatever their order and repetitions |
| `HubStates.RemovedExactly` | pubsub/hub.go:149-164 | a topic is reported as removed if and only if all its subscriptions were given, and is reported once |
| `HubStates.CloseKeeps` | pubsub/hub.go:59-77 | closing keeps the invariant and leaves every subscription cancelled |
| `HubStates.CloseExactly` | pubsub/hub.go:64-76 | closing cancels exactly the stored subscriptions and forgets the map and the channel |
| `HubStates.LateUnsubscribe` | pubsub/hub.go:141-165 | unsubscribing a subscription that is no longer stored changes nothing and sends nothing, even when its topic exists again (also lines 110-114) |
| `Hubs.Hub.Subscribe` | pubsub/hub.go:84-116 | the method stores the subscription under its topic and changes no other topic, keeps the invariant, which includes that replaying the sent changes gives the topics, and sends the change of the specification |
| `Hubs.SubscribeThenBroadcast` | pubsub/hub.go:98-104 | a broadcast after a subscription calls the new subscription and all that were stored on the topic, each once (also lines 182-195) |
| `Hubs.Hub.Cancel` | pubsub/hub.go:119-138 | the same for the loop over topics and subscriptions |
| `Hubs.Hub.Unsubscribe` | pubsub/hub.go:141-165 | the same for the loop over subscriptions |
| `Hubs.Hub.Close` | pubsub/hub.go:59-77 | the same for closing; every subscription ever made is cancelled and no change is sent |
| `Hubs.Hub.Broadcast` | pubsub/hub.go:170-202 | every stored subscription of the topic is called once and no other is, the failing ones are collected once each, and the hub is unchanged |
| `Contexts.AtMostOneContext` | pubsub/broker.go:169-195 | a key has at most one context started and not cancelled, and has one if and only if it has a canceler |
| `Contexts.StartExactly` | pubsub/broker.go:172-178 | starting changes nothing for a key that has a context, and otherwise one context more runs |
| `Contexts.StopExactly` | pubsub/broker.go:190-195 | stopping a key ends its context and no other |
| `Brokers.AfterChangeLeaves` | pubsub/broker.go:243-255 | a publisher goes on with the same context through every change that does not remove its topic, and a topic that is both added and removed has none |
| `Brokers.AfterChangeKeeps` | pubsub/broker.go:243-255 | serving a change does to the publishers' topics what the change says, and keeps one context per topic |
| `Brokers.Broker.TriggerPub` | pubsub/broker.go:169-186 | fails and changes nothing if and only if the topic has a publisher; otherwise exactly one context more runs |
| `Brokers.Broker.CancelPub` | pubsub/broker.go:190-195 | afterwards no context of the topic runs, and all others are as before |
| `Brokers.Broker.HandleChange` | pubsub/broker.go:243-255 | both loops make the new state of the specification, and TriggerPub never fails in them |
| `Brokers.Broker.Serve` | pubsub/broker.go:236-257 | after all changes of a channel, a publisher runs for exactly the topics that the changes leave with subscriptions |
| `Protocol.NextKeeps` | pubsub/hub.go:59-165 | every step of every caller and of `Serve` keeps the protocol's invariant (also pubsub/broker.go:236-257) |
| `Protocol.PublishersFollow` | pubsub/hub.go:84-165 | in every run before Close, the publishers' topics with the received change and then the unsent change applied are exactly the topics with subscriptions (also pubsub/broker.go:169-195, 236-257) |
| `Protocol.OnePublisherPerTopic` | pubsub/broker.go:229-235 | in every run, when no change is on its way, exactly one PUB context runs for each topic with a subscription and none for the others |
| `Protocol.NeverTwoPublishers` | pubsub/broker.go:169-195 | at every moment of every run a topic has at most one running PUB context (also lines 243-255) |
| `Protocol.NeverPanics` | pubsub/hub.go:59-77 | in no run is a closed channel sent on or closed, and no added topic already has a publisher, so TriggerPub never fails in `Serve` (also lines 106-108, 135-137, 162-164; pubsub/broker.go:244-249) |
| `Protocol.NoneForgotten` | pubsub/hub.go:119-165 | in every run a subscription once stored is stored under its topic or cancelled (also lines 98-116) |
| `Protocol.SenderNotStuck` | pubsub/hub.go:106-108 | while an operation waits at its send, `Serve` can step (also pubsub/broker.go:243-255) |
| `Protocol.SendTakes` | pubsub/hub.go:106-108 | in every run from a waiting send, the send is over exactly when `Serve` has made as many steps as it has left in its change and one more, and the change waiting is the one received (also lines 135-137 and 162-164; pubsub/broker.go:243-255) |
| `Protocol.Settles` | pubsub/broker.go:229-257 | from every reachable state before Close, `Serve` alone comes to rest with publishers on exactly the hub's topics |
| `Protocol.LateUnsubscribeDoesNothing` | pubsub/hub.go:141-165 | in every run, the late `unsubscribe` of a dropped subscription leaves the whole state as it is (also lines 110-114) |
| `Protocol.CloseLosesNothing` | pubsub/hub.go:56-77 | when `Serve` returns after Close, the publishers' topics are those the hub had when it was closed (also pubsub/broker.go:243-257) |
| `Broadcasts.DoomedForever` | pubsub/hub.go:167-204 | once a receiver has failed, in every continuation its broadcast never ends, nobody takes the write lock, and the stored subscriptions stay as they are (also line 146) |
| `Broadcasts.DoomedIsReached` | pubsub/hub.go:182-195 | a run of one subscription and one broadcast on which its receiver fails reaches such a state |
| `Broadcasts.FailedStaysStored` | pubsub/hub.go:167-204 | in every run and every continuation, a subscription whose receiver failed stays stored, contrary to the documentation |
| `Broadcasts.FinishesIffNoneFailed` | pubsub/hub.go:182-204 | a broadcast that is calling its receivers can still end if and only if none of them has failed |
| `Splitting.SplitPair` | opa/sql.go:185-195 | splitting gives two parts if and only if the separator is found first between them and not again |
| `Transpiler.ParsedIffPrinted` | opa/sql.go:178-202 | a term parses to a table, selection ID and column if and only if it is `db.T[I].C` with no `[` in T and I and no further `].`; so the parts are unique and print back to the term |
| `Transpiler.TermParses` | opa/sql.go:178-202 | a term that does not parse gets the error of the first check that it fails |
| `Transpiler.ComparedIff` | opa/sql.go:204-243 | an expression is accepted if and only if it is a call of one of the seven comparisons on two operands that are constants with a JSON value or terms of the database; otherwise it gets the error of the first check that it fails |
| `Transpiler.ComparisonsIff` | opa/sql.go:249-257 | a body parses if and only if all its calls are accepted; otherwise it gets the error of the first that is not |
| `Transpiler.UnderInOrder` | opa/sql.go:262-264 | the clauses under a key come in the order of their comparisons |
| `Transpiler.ParseExpression` | opa/sql.go:204-243 | the loop over the operands gives the comparison of the specification exactly for accepted expressions, and otherwise the first error |
| `Transpiler.GroupExactly` | opa/sql.go:249-266 | the selection under a key has exactly the clauses with that key, in order, and the table of the last one |
| `Transpiler.ParseQuery` | opa/sql.go:245-273 | the selections of all groups, each once, in some order, if and only if all calls are accepted; otherwise the error of the first that is not |
| `Transpiler.ParseQueries` | opa/sql.go:275-291 | one conjunction for each body, if and only if all calls of all bodies are accepted; otherwise the error of the first body that has another |
| `QueryMeaning.StatementMeans` | opa/sql.go:204-291 | for all bodies that parse and all parameters: the statement is true if and only if some body has, for each of its keys, one row of the last comparison's table that satisfies every clause under that key |
| `QueryMeaning.OperatorsAgree` | opa/sql.go:151-168 | on two values that both languages compare alike, an SQL operator accepts what its Rego operator does unless a value is null, and its flip the same with the operands swapped |
| `QueryMeaning.ComparedMeans` | opa/sql.go:204-243 | a row satisfies the comparison if and only if the expression holds for it in Rego and compares no null, with the constant on either side |
| `QueryMeaning.AssignmentGivesRows` | opa/sql.go:249-272 | rows that satisfy all comparisons of a body give each key its row |
| `QueryMeaning.RowsGiveAssignment` | opa/sql.go:249-272 | conversely, rows for all keys make up one assignment that satisfies all comparisons |
| `QueryMeaning.TranspilingKeepsMeaning` | opa/sql.go:204-291 | for every database, order of selections and order of merging: the statement is true if and only if some body, as far as the transpiler sees it, holds without comparing a null (also lines 151-168) |
| `QueryLimits.MeaningKept` | opa/sql.go:204-291 | for bodies of calls that are not negated and that Rego lets no null satisfy, the statement is true if and only if some body holds |
| `QueryLimits.StatementIsSound` | opa/sql.go:204-291 | for bodies of calls that are not negated, nulls or not, some body holds wherever the statement is true |
| `QueryLimits.OrdersExact` | opa/sql.go:204-243 | for one comparison, whatever the two languages make of values, the statement means what the body does on every database if and only if SQL and Rego accept the same entries |
| `QueryLimits.OrdersDisagree` | opa/sql.go:204-243 | an entry that one language accepts and the other does not makes a database on which statement and body disagree |
| `QueryLimits.NullExact` | opa/sql.go:220-229 | where the languages agree on all values but null, that is so if and only if Rego accepts no null for the comparison, neither as the entry nor with a null constant |
| `QueryMeaning.SeesAll` | opa/sql.go:249-252 | the transpiler sees all of a body if and only if it has only calls and none is negated |
| `QueryMeaning.SeenIsCompared` | opa/sql.go:249-266 | what the transpiler does not see makes no difference to the comparisons of any body |
| `QueryLimits.NegationIsDropped` | opa/sql.go:204-243 | a comparison and its negation never hold together, yet their statement is true wherever the comparison is satisfied |
| `QueryLimits.TwoValuesAtOnce` | opa/sql.go:25-40 | one column compared with two values: there is a database on which the statement is true though no row can satisfy the body (also lines 58-66) |
| `QueryLimits.OneIdTwoTables` | opa/sql.go:234-265 | one selection ID in two tables: there is a database on which the statement is true though no row number satisfies the body |
| `QueryLimits.OneKeyTwoTables` | opa/sql.go:234-265 | two selections in two tables with the same key: there is a database on which statement and body disagree |
| `QueryLimits.TwoReferences` | opa/sql.go:220-236 | a call on two references is compared with null, and with one value for each placeholder its body never makes the statement true |
| `QueryLimits.TwoConstants` | opa/sql.go:220-236 | a call on two constants selects from a table without a name, and its body never makes the statement true |
| `QueryLimits.TwoReferencesBreak` | opa/sql.go:220-236 | for two references there is a database on which the body holds and the statement is false |
| `QueryLimits.TwoConstantsBreak` | opa/sql.go:220-236 | for two constants that Rego relates, the body holds on the empty database and the statement is false |
| `QueryLimits.PrintableIff` | opa/sql.go:100-132 | no conjunction prints to `()` and the disjunction prints to something, if and only if there is a body and every body has a call (also lines 249-252) |
| `Statements.SelectionParams` | opa/sql.go:36-40 | for every placeholder the value of the last clause with that name (also lines 58-66) |
| `Statements.ConjunctionParams` | opa/sql.go:90-98 | the same over the clauses of a conjunction |
| `Statements.NamedParams` | opa/sql.go:114-122 | the same over the clauses of a disjunction |
| `Statements.ClausesInOrder` | opa/sql.go:90-122 | clauses are merged in the order of the conjunctions, the selections and their clauses |
| `Statements.NamesApart` | opa/sql.go:25-30 | placeholders differ under one key exactly when the columns do, and for one column exactly when the keys do |
| `Statements.FaithfulIffConsistent` | opa/sql.go:25-40 | looking up each clause's placeholder in the merged parameters returns that clause's own value if and only if clauses with the same name carry equal values (also lines 58-66, 90-98, 114-122) |
| `Statements.MergeOrderDoesNotMatter` | opa/sql.go:90-98 | then every order of merging gives the same parameters (also lines 114-122) |
| `CableStates.StepKeeps` | actioncable/connections.go:181-224 | every command keeps one running context per unsubscriber, a channel for each unsubscriber and checked channels, and changes the subscriptions as its replies say |
| `CableStates.SubscribeExactly` | actioncable/connections.go:188-201 | a subscribe command for a new identifier is confirmed if and only if its channel accepts it, which for a new channel also takes that the identifier parses, passes every checker and names a factory that succeeds; the contexts and channels afterwards (also actioncable/channels.go:56-90) |
| `CableStates.OthersExactly` | actioncable/connections.go:206-222 | what every other command does and does not do |
| `CableStates.RunKeeps` | actioncable/connections.go:181-224 | over every sequence of commands the same holds, and a client that listens to the replies alone knows its subscriptions |
| `CableStates.OneReplyEach` | actioncable/connections.go:181-202 | over every sequence of commands, as many confirmations and rejections are sent for an identifier as it had subscribe commands |
| `CableStates.OneContextPerIdentifier` | actioncable/connections.go:181-224 | in every run an identifier has at most one running context, has one if and only if it is in `unsubscribers`, its actions then find a channel, and every channel that was not given at the start passed every checker (also actioncable/channels.go:39-99) |
| `CableStates.SharedDispatcher` | actioncable/channels.go:57-64 | with a dispatcher that two connections share, a failed re-subscription of the one leaves the subscription of the other without a channel |
| `ActionCable.ChannelDispatcher.ParseSubIdentifier` | actioncable/channels.go:39-52 | a name is returned if and only if the identifier parses and passes every checker |
| `ActionCable.ChannelDispatcher.HandleSubscription` | actioncable/channels.go:56-90 | for an identifier without a channel it succeeds if and only if that parses, passes every checker and names a factory, the factory succeeds and the channel accepts; then exactly this channel is added and otherwise nothing changes; an existing channel is kept exactly when it accepts |
| `ActionCable.ChannelDispatcher.HandleAction` | actioncable/channels.go:93-99 | succeeds exactly when the channel exists and performs the action |
| `ActionCable.Conn.Subscribe` | actioncable/connections.go:181-202 | sends one reply, a confirmation exactly when the identifier ends up subscribed, and keeps the invariant |
| `ActionCable.Conn.Receive` | actioncable/connections.go:205-224 | every command makes the new state, replies and error of the specification and keeps the invariant |
| `ActionCable.Conn.Disconnect` | actioncable/connections.go:138-144 | no context is left running and no unsubscriber is left |

## Left out

- HandlerRouters.HandlerRouter.Add: requires patterns without a colon after a backslash and with `*` only as the last byte, because an escaped colon makes a static child that hides the parameter child and an inner `*` registers the handler early; it takes a handler always, as the broker passes one.
- RoutePlan.AddKeeps: is about the same patterns as `Add`.
- RoutePoints.BuildWellFormed: is about series of the same patterns, and so are `RoutePoints.NodesArePoints` and the laws of `RouteLaws` and `RouteValues` about series of routes.
- RouteLaws.AddMirrors: is about series of the same patterns.
- HandlerRouters.HandlerRouter.Insert: requires what `Add` establishes before each insertion, namely that the part before every marker has its node.
- RouteValues.SharedNotFoundMisspells: shows where the fallback fails for routers without any routes and without not-found routes alone at their keys; with those, another route may answer, and `RouteValues.FallbackSpells` decides each search.
- QueryMeaning.StatementMeans: takes a body without calls for a true conjunction; `QueryLimits.PrintableIff` says when there is none.
- QueryMeaning.TranspilingKeepsMeaning: requires one constant and one reference in every call, one table for each selection ID and one selection for each key; for other bodies `QueryMeaning.StatementMeans` says what the statement is true of.
- RouteLaws.ForeignWins: is about keys without `*`; a route that ends in `*` can lose to a parameter route, and `RouteAnswers.MissIff` covers it.
- RouteAnswers.MatchesHaveHandlers: takes a byte that no route uses for the direction from matches to records; the other direction needs none.
- QueryLimits.NullExact: is about one comparison, and so is `QueryLimits.OrdersExact`; for lists of bodies the condition is stated one way, in `QueryLimits.MeaningKept`.
- Hubs.Hub.Subscribe: requires an open hub, because the hub is documented not to be used after Close, where it would write to a nil map.
- Hubs.Hub.Broadcast: models the part under the read lock; the call of `unsubscribe` at its end is in `Broadcasts`.
- The router's `routes` map, `GetHandler` with its URL parsing, middleware, handler names and bodies.
- `TriggerSub`, `TriggerUnsub` and `Broker.Subscribe`, which wrap the modelled hub operations around handler calls.
- TriggerPub and CancelPub called from outside `Serve`, and routes added after a context was made: outside the documented use.
- Contexts derived from a parent: a PUB context also ends with the context of `Serve`; the model counts cancellations by CancelPub only.
- The text of SQL statements (the `String` methods), and OPA evaluation, which produces the query bodies.
- WebSocket input and output, deadlines, pings and marshalling of Action Cable messages; data messages of subscriptions on the same channel.
- HMAC signing, JSON identifiers, sessions, caches, databases, templates, static files and Turbo Streams: foreign functions or easy members.
