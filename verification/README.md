# Message bus: broker, codecs and search automata

This project models three parts of the repository and proves what they promise.

**The search automata** of the lunr library that is shipped with the documentation. `TokenSets` builds a
minimal automaton from sorted words by rewiring its nodes in place; `Wildcards` and `Fuzzy` build query
automata; `Intersection` and `Enumeration` find the words that an index and a query share. `Queries` puts
them together: expanding a term finds exactly the matching words of the index, as long as no node makes way
for one of another shape, and `Ambiguity` has words where one does. `Automaton`, `Signature`, `BuilderState`
and `Tries` hold what is proved about graphs as values, of which the methods take snapshots; `EditScripts`
says what fuzzy matching finds, and `EditDistance` how that compares with the edit distance. `Vectors` and
`Lexer` are the sparse vectors and the lexer of search strings.

**The broker.** `Broker` is the step function of the event loop over flat stores, with the messages that
each event addresses. `Effects` says in full what each message comes to, `Histories` what the stores say in
terms of the events so far, and `Safety` proves what holds over whole runs of it. `Runs` puts it between the
threads that feed its one event queue and the writers that drain the clients' queues, as a state machine
whose runs are all interleavings, and proves the order of delivery, that nothing is lost, and that only
entitled data are written; `Progress` proves that the loop and the writers can always catch up. The classes
of `Servers` and of the stores below it (`Subscriptions`, `TwoWaySets`, `Notifications`, `Interactors`,
`Roles`) hold the nested dictionaries and caches of the program and refine the step function, and
`EventLoop` runs them over a queue of events.

**Codecs and matchers.** `Codec` and `Streams` are the binary form of the nine messages, as functions and as
methods that advance a stream, and `Layouts` says where everything stands in the bytes; `PrivateKeys`
decodes RSA keys; `Globs` matches host patterns.

## Where the code and its documentation differ

The model follows the code, and each of these is proved.

- The signature of a node runs labels and ids together, so words with digits can be confused. Signatures
  identify nodes exactly when every digit that occurs is the least character (`Signature`). The builder keeps the
  words in a round exactly when the node that makes way has the shape of the registered one, so it is right wherever
  all rounds are of this kind; they are on every sorted array in which digits come first wherever words part
  (`TokenSets`). For any digit above another character there is an array of which it makes a set with a word too
  many (`Ambiguity`).
- The empty pattern matches nothing, and the empty text not even itself. The intersection never holds
  the empty word (`Wildcards`, `EditDistance`, `Intersection`).
- Fuzzy matching misses words within the edit distance. It finds all of them exactly when the text is not empty
  and no edits are allowed, or the text ends in a wildcard and either one edit is allowed or the wildcard is all of
  it; texts that end in a wildcard and are long beside two or more edits are left open (`EditDistance`).
- The flag that tells an authorization update from a first authorization is never set, so the first
  subscription has count zero, and no number of unsubscriptions removes it (`Safety`).
- Whether a client has an authorization is looked up under the feed's name in place of the topic's
  (`Broker`, `Interactors`). Entitlement safety holds all the same.
- A client that has ended stays in no store, unless an event of its own comes late that connects it, subscribes it
  with an authorization that it was given before, asks for notifications, or publishes to a subscriber
  (`Safety`). Such events do come late (`Runs`).
- A stream that ends within a message makes reading go on for ever, but for two places: where nothing of the message
  has come, that is an end of the stream, and where just the boolean that the message ends in is missing, it reads
  as true (`Codec`).
- A host pattern in which a literal follows a `?` directly makes matching fail on some hosts (`Globs`).
- A key whose contents have fewer than 128 bytes is not recognized (`PrivateKeys`).
- A search string that ends in an odd number of escape characters, and no other, gives a lexeme that ends behind the
  string (`Lexer`).

## Conventions

Identifiers of clients are the 16 bytes of their GUIDs, by which the program compares interactors, and the
stores hold them where the program holds references; `Servers.Server.clients` leads from one to the other.
`Servers.Outbox` records the calls of `SendMessage` in order; what becomes of them is the subject of `Runs`.
Hash tables enumerate in any order, so the messages of one event are specified as two sets, one sent after the
other, of which every order is allowed. A role flag is the set of its single roles. Texts are strings in the
broker and UTF-8 bytes in the codec. Integers of 32 bits are written out where their width matters.

## Model

| member | source | states |
|---|---|---|
| `Queries.Expand` | docs/styles/lunr.js:1800-1801 | for every sorted array of words, expanding a clause against its token set ends and lists, each once, exactly the non-empty words that the set built from the array accepts and the clause finds; these are exactly the words of the array that the clause finds if every node that made way in the construction had the shape of the registered one, as it has if digits come first wherever words of the array part; an unsorted array gives no answer |
| `Queries.FromClause` | docs/styles/lunr.js:1204-1210 | the query automaton of a clause has a run on exactly the words that the clause finds, fuzzily where an edit distance is given and by wildcards otherwise |
| `TokenSets.FromArray` | docs/styles/lunr.js:1184-1193 | a token set is built exactly from non-decreasing arrays, step by step as `Built` says; its edges go down in a rank; it accepts exactly the words of the array and is minimal if every node that made way had the shape of the registered one, as it has if digits come first wherever words of the array part, and so if signatures tell shapes over the characters apart; the empty array gives a root without edges |
| `TokenSets.Builder.Insert` | docs/styles/lunr.js:1567-1605 | a word below the last one is refused and nothing else; otherwise the nodes and both collections of the builder change as `Added` says, with one new node for each character behind the common prefix; nodes registered before keep their shape and their key; while every node that makes way has the shape of the registered one, the automaton accepts one word more |
| `TokenSets.Builder.Finish` | docs/styles/lunr.js:1607-1609 | after finishing, nothing is left unchecked and no registered node has changed; while every node that makes way has the shape of the registered one, the accepted words are the same and the automaton is minimal if it has a word |
| `TokenSets.Builder.Minimize` | docs/styles/lunr.js:1611-1628 | exactly the entries from `downTo` on are popped, each in the round that `Round` describes; every registered node is kept, and the accepted words too if each round is right |
| `TokenSets.Builder.Replace` | docs/styles/lunr.js:1616-1617 | the last unchecked edge is redirected to the registered node of the same signature, which keeps the accepted words if that node has the shape of the other |
| `TokenSets.RoundKeepsWordsExactlyWhen` | docs/styles/lunr.js:1611-1628 | the accepted words survive a round of `minimize` if and only if the node that makes way has the shape of the registered one |
| `TokenSets.Builder.Register` | docs/styles/lunr.js:1618-1624 | the last unchecked node joins the registered ones under its signature, which is cached, and nothing else changes |
| `TokenSets.Builder.Extend` | docs/styles/lunr.js:1588-1601 | one new node hangs below the other for each remaining character, numbered in a row, and the unchecked nodes spell the whole word |
| `TokenSets.Builder.Complete` | docs/styles/lunr.js:1603-1604 | the last unchecked node becomes final, which adds exactly the new word |
| `TokenSets.CommonPrefix` | docs/styles/lunr.js:1575-1578 | the number of leading characters two words share, and no more |
| `TokenSets.TokenSet.ToString` | docs/styles/lunr.js:1461-1486 | the cached signature if there is one, and otherwise the finality bit with the labels in order, each with the id of its node |
| `TokenSets.KeyIsInjective` | docs/styles/lunr.js:1461-1486 | of two nodes the labels of which can be told from ids, equal signatures mean equal finality and equal edges |
| `TokenSets.UnambiguousIsUnforked` | docs/styles/lunr.js:1474-1483 | where signatures tell all shapes over the characters of an array apart, digits come first wherever its words part |
| `Signature.TextIdentifiesShapesExactlyWhen` | docs/styles/lunr.js:1474-1483 | signatures tell all shapes over an alphabet apart if and only if every digit in it is its least character |
| `Signature.TextCollides` | docs/styles/lunr.js:1474-1483 | for every character below a digit, two different shapes with one signature |
| `Ambiguity.WrongArray` | docs/styles/lunr.js:1184-1193 | for every digit above some character, and wherever the counter of ids stands, a sorted array over these two of which `fromArray` makes a set that accepts a word outside it; so it is right on all sorted arrays over an alphabet if and only if signatures tell shapes over it apart |
| `Ambiguity.AmbiguousArraysGoWrong` | docs/styles/lunr.js:1567-1628 | the same of the steps of the builder, for all nodes numbered in a row |
| `BuilderState.FinishedIsMinimal` | docs/styles/lunr.js:1607-1628 | when only the root is unregistered and registered nodes have distinct shapes, the automaton is acyclic, every reached node accepts some word, and different reached nodes accept different sets of words |
| `BuilderState.FinishWord` | docs/styles/lunr.js:1603-1604 | on a spine that spells the whole word, the word is added and no other |
| `BuilderState.SwitchWord` | docs/styles/lunr.js:1567-1581 | after cutting back to the common prefix the spine can be read along the next word, whose next character has no edge yet |
| `BuilderState.LessExactlyWhen` | docs/styles/lunr.js:1571 | a word comes before another if and only if it is a proper prefix of it or has the lower character where they first differ |
| `BuilderState.ReplacingKeepsWordsExactlyWhen` | docs/styles/lunr.js:1616-1617 | sending the edge to the last node to any registered node keeps the accepted words if and only if that node has the same shape |
| `BuilderState.SameLanguageSameNode` | docs/styles/lunr.js:1611-1628 | registered nodes that accept the same words are one node |
| `BuilderState.RootDescends` | docs/styles/lunr.js:1611-1628 | the nodes are ranked in the order in which they are registered, below the root, whatever the words are |
| `Automaton.NoSmallerAutomaton` | docs/styles/lunr.js:1607-1628 | no deterministic automaton for the same words has fewer nodes than a minimal one |
| `Enumeration.ToArray` | docs/styles/lunr.js:1421-1449 | lists every accepted word exactly once and nothing else, and ends |
| `Enumeration.MinimalIsRanked` | docs/styles/lunr.js:1607-1628 | the edges of every trim automaton with finitely many words go down in the length of the longest word |
| `Enumeration.ListingStep` | docs/styles/lunr.js:1427-1446 | replacing a stack frame by its children, and listing its prefix if its node is final, loses and repeats no word |
| `Enumeration.WeightFalls` | docs/styles/lunr.js:1427-1446 | a work list whose last entry makes way for fewer than `b` entries of lower rank has a smaller weight |
| `Wildcards.FromString` | docs/styles/lunr.js:1376-1413 | the query automaton of a non-empty pattern has a run on exactly the words of the form of the pattern; that of the empty pattern on none |
| `Wildcards.AcceptedMatches` | docs/styles/lunr.js:1376-1413 | the edges back to the root behind a wildcard admit nothing that is not of the form of the pattern |
| `Wildcards.AcceptsMatches` | docs/styles/lunr.js:1376-1413 | every word of the form of the pattern has a run |
| `Intersection.Intersect` | docs/styles/lunr.js:1498-1559 | the intersection accepts exactly the non-empty words that the index accepts and on which the query automaton has a run, and the search ends although the query graph may be cyclic |
| `Intersection.VisitPairs` | docs/styles/lunr.js:1509-1555 | after a visit every word beyond its pairs of edges is in the output or below a visit to nodes of lower rank |
| `Intersection.PairTaken` | docs/styles/lunr.js:1524-1552 | taking a fitting pair of edges moves exactly the words beyond it to the next output node and the next visit |
| `Tries.Link` | docs/styles/lunr.js:1530-1546 | the output node behind an edge is found or made; exactly its own word is added, and only if asked for |
| `Tries.TrieIsRanked` | docs/styles/lunr.js:1498-1559 | the output is a tree, so listing it ends |
| `Fuzzy.FromFuzzyString` | docs/styles/lunr.js:1227-1364 | the tree of a text and a number of edits has a run on exactly the words spelled by its label sequences, and building it ends because edits left plus text left fall along every push |
| `Fuzzy.Expand` | docs/styles/lunr.js:1236-1361 | a frame is replaced by the frames behind its five kinds of moves without losing or adding a label sequence |
| `Fuzzy.Stop` | docs/styles/lunr.js:1287-1291 | deleting the last character makes the frame's node final and no other |
| `EditScripts.FuzzyFindsExactlyTheMade` | docs/styles/lunr.js:1227-1364 | for any number of edits, a non-empty text finds exactly the words made of it by that many insertions, deletions, substitutions and adjacent swaps at most, where behind each deleted character one is kept unless the deleted one is the last |
| `EditScripts.EmptyTextFindsExactly` | docs/styles/lunr.js:1227-1364 | the empty text finds the words of one character if an edit is allowed, and otherwise none |
| `EditScripts.MismatchesAreFound` | docs/styles/lunr.js:1295-1313 | a word as long as the text that differs from it in no more places than there are edits is found |
| `EditDistance.FuzzyIsSound` | docs/styles/lunr.js:1212-1226 | every word that is found can be made from the text by at most the allowed number of insertions, deletions, substitutions and adjacent transpositions |
| `EditDistance.FuzzyIsCompleteExactlyWhen` | docs/styles/lunr.js:1212-1226 | all words within the distance are found if and only if the text is not empty and no edits are allowed, or it ends in a wildcard and either one edit is allowed or the wildcard is all of it; for all texts but those that end in a wildcard and are, beside two or more edits, longer than twice these less two |
| `EditDistance.WildcardsAreCompleteExactlyWhen` | docs/styles/lunr.js:1212-1226 | a text of wildcards alone finds all words within the distance if and only if it is not empty, and there are no edits, one wildcard, or at least twice as many wildcards as edits but for one |
| `EditDistance.TrailingCharactersAreMissed` | docs/styles/lunr.js:1315-1334 | as many characters behind the end as there are edits are not found, unless they repeat the last one |
| `EditDistance.ManyDeletionsAreMissed` | docs/styles/lunr.js:1263-1291 | where many edits meet a short text, the words from which as many characters are missing as there are edits are not found |
| `EditDistance.FrontDeletionsAreMissed` | docs/styles/lunr.js:1263-1285 | two or more characters are not deleted from the front of a text, where the letter behind them is none of the first two |
| `EditDistance.OneEditIsFoundExactly` | docs/styles/lunr.js:1227-1364 | with one edit, exactly the words at most one edit away are found, apart from those that only a character behind the end makes |
| `Vectors.Vector.PositionForIndex` | docs/styles/lunr.js:562-604 | the position separates the indexes below the given one from the others |
| `Vectors.SeparationIsUnique` | docs/styles/lunr.js:562-604 | there is only one such position |
| `Vectors.Vector.Upsert` | docs/styles/lunr.js:628-637 | the flat array stays strictly sorted and is the old map with the index set to the value, combined with an old value if there is one |
| `Vectors.Vector.Insert` | docs/styles/lunr.js:614-618 | the same for a new index; an index that is there is refused and nothing changes |
| `Vectors.Vector.Dot` | docs/styles/lunr.js:664-685 | the merge yields the sum of the products over the shared indexes |
| `Vectors.DotIsCommutative` | docs/styles/lunr.js:664-685 | the product of two vectors is the same both ways |
| `Lexer.QueryLexer.Run` | docs/styles/lunr.js:2506-2512 | the lexer ends on every string, with the lexemes that its state functions yield |
| `Lexer.QueryLexer.LexText` | docs/styles/lunr.js:2649-2687 | reads on to the first character that is not escaped and means something, and emits a term before `~` and `^` |
| `Lexer.QueryLexer.Enter` | docs/styles/lunr.js:2596-2634 | each state function emits the lexeme it is named after and leaves the cursor behind the character that led to it |
| `Lexer.PieceBeforeColon` | docs/styles/lunr.js:2596-2601 | what stands before a colon is a field with just this text and span, and the rest is lexed as if it stood alone |
| `Lexer.PieceBeforeSeparator` | docs/styles/lunr.js:2649-2687 | what stands before a separator is a term, and the rest is lexed as if it stood alone |
| `Lexer.PieceBeforeMark` | docs/styles/lunr.js:2616-2628 | what stands before a tilde or a caret is a term, the digits behind the mark are an edit distance or a boost, and the rest is lexed as if it stood alone |
| `Lexer.PieceIsATerm` | docs/styles/lunr.js:2630-2634 | what has nothing behind it is a term, which carries the text without its escape characters |
| `Lexer.PieceBeforeLoneEscape` | docs/styles/lunr.js:2542-2545 | before an escape character that ends the string there is a term that ends behind it |
| `Lexer.EveryStringHasAPiece` | docs/styles/lunr.js:2649-2687 | every string begins in one of these ways, so that they give the lexemes of all strings |
| `Lexer.FieldAndTerm` | docs/styles/lunr.js:2596-2601 | a plain text, a colon and a plain text are a field and a term |
| `Lexer.TwoTerms` | docs/styles/lunr.js:2649-2687 | two plain texts with a separator between them are two terms |
| `Lexer.TermAndNumber` | docs/styles/lunr.js:2616-2628 | a plain text, a mark and digits are a term and an edit distance or a boost |
| `Lexer.QueryLexer.SliceString` | docs/styles/lunr.js:2514-2529 | the text since the start without its escape characters |
| `Lexer.QueryLexer.AcceptDigitRun` | docs/styles/lunr.js:2573-2584 | the cursor ends at the first character that is no digit, or at the end |
| `Lexer.SpansAreOrdered` | docs/styles/lunr.js:2506-2687 | on every string the spans of the lexemes are in order and disjoint, and end one character behind the string at most |
| `Lexer.SpansStayInsideExactlyWhen` | docs/styles/lunr.js:2542-2545 | every lexeme lies within the string if and only if the string ends in an even number of escape characters |
| `Lexer.LoneEscapeEndsBehindTheString` | docs/styles/lunr.js:2542-2545 | the shortest string of the other kind, a single escape character, gives an empty term that ends behind it |
| `Lexer.EscapedTextIsOneTerm` | docs/styles/lunr.js:2514-2545 | a non-empty text with an escape character before each character is one term that carries the text, whatever separates terms |
| `Runs.RunsKeep` | core/src/JetBlack.MessageBus.Distributor/EventQueue.cs:29-69 | in every state of every interleaving the broker is the step function applied to the events handled so far, only connected clients are addressed, queues hold what was addressed in order, and events of a client are in the order received |
| `Runs.RunsIntroduce` | core/src/JetBlack.MessageBus.Distributor/Acceptor.cs:88-96 | in every state of every run, among the events handled and waiting, each client but the heartbeat has connected before all its other events and only once, and no others have any |
| `Runs.InTurnMeansOnceAndFirst` | core/src/JetBlack.MessageBus.Distributor/Acceptor.cs:88-96 | what this order means for any two events of a client |
| `Runs.MulticastsAreTotallyOrdered` | core/src/JetBlack.MessageBus.Distributor/EventQueue.cs:41-69 | any two clients see the multicasts that both receive in the same order |
| `Runs.PublishersOrderIsKept` | core/src/JetBlack.MessageBus.Distributor/Interactors/Interactor.cs:213-238 | one publisher's multicasts reach every client in the order in which they were received from the publisher |
| `Runs.NothingIsLost` | core/src/JetBlack.MessageBus.Distributor/Interactors/Interactor.cs:177-261 | while a client is not cancelled, its wire and its queue together hold exactly the messages addressed to it, in order |
| `Progress.RunsCanSettle` | core/src/JetBlack.MessageBus.Distributor/EventQueue.cs:41-69 | every run can go on to a state in which all waiting events have been handled in order and every client whose writer runs, and of which no end waited, has exactly the messages addressed to it on its wire |
| `Runs.WiredWasSent` | core/src/JetBlack.MessageBus.Distributor/Interactors/Interactor.cs:240-261 | every message on a wire was addressed to that client by the event it is tagged with |
| `Runs.WiresFollowEvents` | core/src/JetBlack.MessageBus.Distributor/Interactors/Interactor.cs:240-261 | what is earlier on a wire comes from an earlier event, strictly earlier for multicasts |
| `Runs.WiresAreEntitled` | core/src/JetBlack.MessageBus.Distributor/Publishers/PublisherManager.cs:126-131 | in every run every packet written to a client on a topic is allowed by an authorization accepted before for that client, feed and topic |
| `Runs.MulticastIsSharedOnce` | core/src/JetBlack.MessageBus.Distributor/Publishers/PublisherManager.cs:89-123 | a multicast gives each client at most one message |
| `Runs.LateRequestIsKept` | core/src/JetBlack.MessageBus.Distributor/Interactors/Interactor.cs:240-268 | a run in which the writer of a client fails, its reader still receives a subscription, and the broker ends with a subscription of a client that has gone |
| `Safety.EntitlementSafety` | core/src/JetBlack.MessageBus.Distributor/Subscribers/SubscriptionManager.cs:116-186 | every packet addressed to a client on a topic is allowed by an earlier accepted authorization for that client, feed and topic |
| `Safety.AlwaysJustified` | core/src/JetBlack.MessageBus.Distributor/Interactors/InteractorManager.cs:105-130 | every subscription and every stored authorization stems from an accepted one for the same client, feed and topic |
| `Effects.AuthorizationTakesEffectExactlyWhen` | core/src/JetBlack.MessageBus.Distributor/Subscribers/SubscriptionManager.cs:116-145 | a response for a live client subscribes it with just this authorization and count, and tells exactly those who watch the feed, if and only if none is required or some entitlement is granted; otherwise exactly the image without data goes to the client; for a client that is not live nothing comes of it |
| `Effects.AuthorizationIsStoredExactlyWhen` | core/src/JetBlack.MessageBus.Distributor/Interactors/InteractorManager.cs:105-130 | the authorization of a live client is stored if and only if none is stored under the name of the feed |
| `Effects.SubscribingComesTo` | core/src/JetBlack.MessageBus.Distributor/Subscribers/SubscriptionManager.cs:44-85 | what a subscription request changes and whom it tells or asks, in each case: without the role, with a stored authorization, with authorization required and not |
| `Effects.UnsubscribingComesTo` | core/src/JetBlack.MessageBus.Distributor/Subscribers/SubscriptionManager.cs:44-85 | an unsubscription counts down or removes at one, and tells exactly those who watch the feed |
| `Effects.NotificationComesTo` | core/src/JetBlack.MessageBus.Distributor/Notifiers/NotificationManager.cs:44-58 | a new notification request is told of each subscription to the feed, a repeated one or a removal of nothing |
| `Effects.UnicastIsDelivered` | core/src/JetBlack.MessageBus.Distributor/Publishers/PublisherManager.cs:31-73 | a unicast reaches its client, in one message with the sender's user and host and the allowed packets in order, if and only if the client is subscribed and the sender has the role, and nobody else is sent any |
| `Effects.MulticastIsDelivered` | core/src/JetBlack.MessageBus.Distributor/Publishers/PublisherManager.cs:75-124 | the same of a multicast and all subscribers, with the message in full |
| `Effects.OthersComeToNothing` | core/src/JetBlack.MessageBus.Distributor/Server.cs:152-188 | the other kinds of messages change nothing and send nothing |
| `Histories.LiveExactlyWhen` | core/src/JetBlack.MessageBus.Distributor/Interactors/InteractorManager.cs:28-51 | after any events, the live clients are those that have connected and have not ended since |
| `Histories.SubscribedExactlyWhen` | core/src/JetBlack.MessageBus.Distributor/Subscribers/SubscriptionManager.cs:44-145 | after any events, those are subscribed for whom a request or a response has taken effect and who have neither ended nor counted down to nothing since |
| `Histories.WatchesExactlyWhen` | core/src/JetBlack.MessageBus.Distributor/Notifiers/NotificationManager.cs:44-58 | after any events, those watch a feed who have asked for it and have neither ended nor withdrawn since |
| `Histories.PublishesExactlyWhen` | core/src/JetBlack.MessageBus.Distributor/Publishers/PublisherManager.cs:31-124 | after any events, the publishers of a topic are those that have published to a subscriber with the role and have not ended since |
| `Safety.FilterKeepsExactlyTheEntitled` | core/src/JetBlack.MessageBus.Common/IO/DataPacket.cs:55-58 | the filter keeps each packet as often as it occurs if its entitlements are granted, and drops it otherwise |
| `Safety.MulticastIsDelivered` | core/src/JetBlack.MessageBus.Distributor/Publishers/PublisherManager.cs:75-124 | a client is sent a multicast exactly if it is subscribed, in one message that holds each allowed packet as often as it was published and no other |
| `Safety.FilterKeepsOrder` | core/src/JetBlack.MessageBus.Distributor/Publishers/PublisherManager.cs:126-131 | the filter keeps the order of the packets |
| `Safety.EndForgetsTheClient` | core/src/JetBlack.MessageBus.Distributor/Interactors/InteractorManager.cs:35-51 | after a close or a fault no store mentions the client, and what the stores say of others is unchanged |
| `Safety.StaleMessagesAreExact` | core/src/JetBlack.MessageBus.Distributor/Subscribers/SubscriptionManager.cs:217-243 | exactly the subscribers of the topics whose last publisher has gone are told |
| `Safety.UnsubscriptionsAreExact` | core/src/JetBlack.MessageBus.Distributor/Subscribers/SubscriptionManager.cs:102-114 | exactly the remaining notifiables of the feeds of the client's subscriptions are told, and nothing else is sent |
| `Safety.EndingTwiceIsEndingOnce` | core/src/JetBlack.MessageBus.Distributor/Interactors/InteractorManager.cs:35-51 | a second close or fault changes no store and sends nothing |
| `Safety.MentionedAgainExactlyWhen` | core/src/JetBlack.MessageBus.Distributor/Subscribers/SubscriptionManager.cs:60-78 | an event makes the stores mention a client that they do not mention if and only if it is the client's own and connects it, subscribes it with the role and a stored authorization, asks for notifications, or publishes with the role to a subscriber |
| `Safety.StaysForgottenExactlyWhen` | core/src/JetBlack.MessageBus.Distributor/Interactors/InteractorManager.cs:35-51 | a client that has ended is mentioned in no later state if and only if no later event is such an event of its own |
| `Safety.EndedClientsStayForgotten` | core/src/JetBlack.MessageBus.Distributor/Interactors/InteractorManager.cs:35-51 | in particular, a client that has ended and of which no event comes any more is not mentioned |
| `Safety.UnsubscribedExactlyWhen` | core/src/JetBlack.MessageBus.Distributor/Subscribers/SubscriptionRepository.cs:59-60 | a number of unsubscriptions in a row removes the subscription if and only if its count is at least one and no more than that number |
| `Safety.FirstSubscriptionIsNeverRemoved` | core/src/JetBlack.MessageBus.Distributor/Subscribers/SubscriptionManager.cs:138-144 | the first subscription comes with an accepted authorization, whether one is required or not, and has count zero, so that no number of unsubscriptions removes it |
| `EventLoop.ProcessQueue` | core/src/JetBlack.MessageBus.Distributor/EventQueue.cs:41-64 | handling the queued events in order leads the objects to the state of the step function after all events so far, and sends for each event what it addresses |
| `EventLoop.HandleNext` | core/src/JetBlack.MessageBus.Distributor/EventQueue.cs:49-52 | handling an event is a step of the broker, and leaves the clients that are still to connect as they were |
| `EventLoop.QueuesOfRunsAreInTurn` | core/src/JetBlack.MessageBus.Distributor/EventQueue.cs:41-64 | the queues of all runs are in the order that handling them asks for |
| `EventLoop.EventQueue.Enqueue` | core/src/JetBlack.MessageBus.Distributor/EventQueue.cs:29-34 | an event goes behind those that wait |
| `Servers.Server.OnInteractorEvent` | core/src/JetBlack.MessageBus.Distributor/Server.cs:108-120 | handling an event does to the stores what the step function does to the flat state, and sends exactly the messages that it addresses, in its two phases |
| `Servers.Server.OnMessage` | core/src/JetBlack.MessageBus.Distributor/Server.cs:152-188 | the same for the messages of clients |
| `Servers.Server.OnInteractorError` | core/src/JetBlack.MessageBus.Distributor/Server.cs:144-150 | a close and a fault do the same to the stores, in which nothing of the client is left |
| `Servers.Server.CloseInteractor` | core/src/JetBlack.MessageBus.Distributor/Interactors/InteractorManager.cs:35-51 | afterwards no dictionary of the stores, index or not, has an entry of the client; the messages are those of the step function |
| `Servers.Server.NamedExactlyWhenMentioned` | core/src/JetBlack.MessageBus.Distributor/Interactors/InteractorRepository.cs:10-39 | the dictionaries of the stores have entries of exactly those clients that the flat state mentions |
| `Servers.Server.AddInteractor` | core/src/JetBlack.MessageBus.Distributor/Interactors/InteractorManager.cs:28-33 | a connecting client becomes live and nothing else changes |
| `Servers.Server.RequestSubscription` | core/src/JetBlack.MessageBus.Distributor/Subscribers/SubscriptionManager.cs:44-85 | adds with a stored authorization, asks for one, or removes; a client without the role changes nothing |
| `Servers.Server.OnAuthorizationResponse` | core/src/JetBlack.MessageBus.Distributor/Subscribers/SubscriptionManager.cs:116-145 | a refusal is only passed on; anything else adds or updates the subscription and is forwarded |
| `Servers.Server.AddSubscription` | core/src/JetBlack.MessageBus.Distributor/Subscribers/SubscriptionManager.cs:147-167 | the entry is added or updated and the notifiables of the feed are told |
| `Servers.Server.RequestAuthorization` | core/src/JetBlack.MessageBus.Distributor/Interactors/InteractorManager.cs:52-103 | asks exactly the live authorizers of the feed, or accepts at once where no authorization is required |
| `Servers.Server.AcceptAuthorization` | core/src/JetBlack.MessageBus.Distributor/Interactors/InteractorManager.cs:105-130 | an authorization of a live client is kept unless one is found under the feed's own name, and takes effect; that of another client does nothing |
| `Servers.Server.SendUnicastData` | core/src/JetBlack.MessageBus.Distributor/Publishers/PublisherManager.cs:31-73 | only a subscriber is sent the entitled packets, and only by a client with the role, which becomes a publisher of the topic |
| `Servers.Server.SendMulticastData` | core/src/JetBlack.MessageBus.Distributor/Subscribers/SubscriptionManager.cs:180-186 | every subscriber is sent its entitled packets, once |
| `Servers.Server.Multicast` | core/src/JetBlack.MessageBus.Distributor/Publishers/PublisherManager.cs:89-123 | the sender becomes a publisher of the topic if there is a subscriber |
| `Servers.Server.ForwardSubscription` | core/src/JetBlack.MessageBus.Distributor/Notifiers/NotificationManager.cs:60-98 | exactly the notifiables of the feed are told, once each |
| `Servers.Server.RequestNotification` | core/src/JetBlack.MessageBus.Distributor/Notifiers/NotificationManager.cs:44-58 | a new request is told all current subscriptions of the feed; a repeated one nothing |
| `Servers.Server.OnNewNotificationRequest` | core/src/JetBlack.MessageBus.Distributor/Subscribers/SubscriptionManager.cs:188-215 | one message for every subscription of the feed |
| `Servers.Server.LeaveStores` | core/src/JetBlack.MessageBus.Distributor/Interactors/InteractorManager.cs:35-51 | the stores are left one after the other; stale messages go out before unsubscriptions |
| `Servers.Server.ClosePublisher` | core/src/JetBlack.MessageBus.Distributor/Publishers/PublisherManager.cs:148-155 | the topics left without a publisher are announced to their subscribers |
| `Servers.Server.OnStalePublishers` | core/src/JetBlack.MessageBus.Distributor/Subscribers/SubscriptionManager.cs:217-221 | one message without data for every subscription to one of the topics |
| `Servers.Server.CloseSubscriptions` | core/src/JetBlack.MessageBus.Distributor/Subscribers/SubscriptionManager.cs:102-114 | all subscriptions of the client are removed, and those who watch are told of each |
| `Subscriptions.SubscriptionRepository.AddSubscription` | core/src/JetBlack.MessageBus.Distributor/Subscribers/SubscriptionRepository.cs:18-38 | the nested dictionaries stay pruned and hold the flat map with one entry added, counted or updated |
| `Subscriptions.SubscriptionRepository.RemoveSubscription` | core/src/JetBlack.MessageBus.Distributor/Subscribers/SubscriptionRepository.cs:40-69 | the nested dictionaries stay pruned and hold the flat map with one entry counted down or removed |
| `Subscriptions.SubscriptionRepository.FindByInteractor` | core/src/JetBlack.MessageBus.Distributor/Subscribers/SubscriptionRepository.cs:71-79 | exactly the topics of the client's entries |
| `Subscriptions.SubscriptionRepository.GetSubscribersToFeedAndTopic` | core/src/JetBlack.MessageBus.Distributor/Subscribers/SubscriptionRepository.cs:81-91 | exactly the subscribers of the topic with their authorizations |
| `Subscriptions.SubscriptionRepository.GetSubscribersToFeed` | core/src/JetBlack.MessageBus.Distributor/Subscribers/SubscriptionRepository.cs:93-100 | exactly the topics of the feed that have subscribers, with these |
| `Subscriptions.CountIsBalance` | core/src/JetBlack.MessageBus.Distributor/Subscribers/SubscriptionRepository.cs:34-60 | as long as only existing entries are updated, a subscriber is there exactly when its saturating balance of additions and removals is positive, and that is its count |
| `Subscriptions.UpdatesLeaveCountsAlone` | core/src/JetBlack.MessageBus.Distributor/Subscribers/SubscriptionRepository.cs:34-37 | an authorization update changes one authorization and no count |
| `Subscriptions.UpdateOfNothingMiscounts` | core/src/JetBlack.MessageBus.Distributor/Subscribers/SubscriptionRepository.cs:31-37 | an update of a missing entry makes one with count zero, which the next removal keeps |
| `TwoWaySets.TwoWaySet.Add` | core/src/JetBlack.MessageBus.Common/Collections/Generic/TwoWaySet.cs:20-31 | the two indexes stay inverse without empty sets and hold one pair more |
| `TwoWaySets.TwoWaySet.RemoveFirst` | core/src/JetBlack.MessageBus.Common/Collections/Generic/TwoWaySet.cs:90-111 | all pairs of the value go, and exactly the values that it alone was paired with are returned |
| `TwoWaySets.TwoWaySet.RemoveSecond` | core/src/JetBlack.MessageBus.Common/Collections/Generic/TwoWaySet.cs:119-140 | the same from the other side |
| `Notifications.NotificationRepository.RemoveInteractor` | core/src/JetBlack.MessageBus.Distributor/Notifiers/NotificationRepository.cs:16-33 | exactly the requests of the client go, and no feed is left with an empty set |
| `Notifications.NotificationRepository.AddRequest` | core/src/JetBlack.MessageBus.Distributor/Notifiers/NotificationRepository.cs:35-47 | the request is there afterwards; the answer is whether it is new |
| `Notifications.NotificationRepository.RemoveRequest` | core/src/JetBlack.MessageBus.Distributor/Notifiers/NotificationRepository.cs:49-69 | exactly this request goes |
| `Notifications.NotificationRepository.FindNotifiables` | core/src/JetBlack.MessageBus.Distributor/Notifiers/NotificationRepository.cs:71-74 | a non-empty set of exactly the clients that asked, or none |
| `Interactors.Interactor.SetAuthorization` | core/src/JetBlack.MessageBus.Distributor/Interactors/Interactor.cs:191-197 | the authorization for the feed and topic is replaced and no other |
| `Interactors.Interactor.TryGetAuthorization` | core/src/JetBlack.MessageBus.Distributor/Interactors/Interactor.cs:199-206 | the authorization for the feed and topic, if there is one |
| `Interactors.Interactor.HasAuthorization` | core/src/JetBlack.MessageBus.Distributor/Interactors/Interactor.cs:208-211 | whether there is an authorization for the topic that has the name of the feed, whatever topic is asked for |
| `Interactors.InteractorRepository.Add` | core/src/JetBlack.MessageBus.Distributor/Interactors/InteractorRepository.cs:22-28 | the client is live and indexed under exactly the feeds that it lists and the roles that it has on them |
| `Interactors.InteractorRepository.Remove` | core/src/JetBlack.MessageBus.Distributor/Interactors/InteractorRepository.cs:30-39 | the client is gone from the live set and from the index; the answer is whether it was there |
| `Interactors.InteractorRepository.Find` | core/src/JetBlack.MessageBus.Distributor/Interactors/InteractorRepository.cs:49-58 | exactly the live clients that list the feed and have the role on it |
| `Interactors.InteractorRepository.AddFeedRoles` | core/src/JetBlack.MessageBus.Distributor/Interactors/InteractorRepository.cs:60-78 | enters the client into the index |
| `Interactors.InteractorRepository.RemoveFeedRoles` | core/src/JetBlack.MessageBus.Distributor/Interactors/InteractorRepository.cs:80-109 | takes the client out of the index, with the roles and feeds that are left empty |
| `Roles.RoleManager.HasRole` | core/src/JetBlack.MessageBus.Distributor/Roles/RoleManager.cs:41-67 | the decision, whatever was asked and cached before |
| `Roles.FeedGoesFirst` | core/src/JetBlack.MessageBus.Distributor/Roles/RoleManager.cs:41-67 | on a listed feed, what the feed denies is never held, what it allows and does not deny is, and about the rest the distributor decides, where to deny goes before to allow |
| `Roles.CreateRoleManager` | core/src/JetBlack.MessageBus.Distributor/Roles/RoleManager.cs:26-29 | each feed's permission is that of the first rule whose pattern fits the host; it fails if and only if a pattern that has to be looked at cannot be matched |
| `Roles.UnfittingHostHasNoRole` | core/src/JetBlack.MessageBus.Distributor/Roles/RoleManager.cs:26-29 | a host that no rule of a listed feed fits has no role there, whatever the distributor allows |
| `Roles.FittingHostHasItsRole` | core/src/JetBlack.MessageBus.Distributor/Roles/RoleManager.cs:26-29 | a host has on a listed feed what the first rule that fits it says, or else the distributor |
| `Roles.RoleManager.EffectiveUser` | core/src/JetBlack.MessageBus.Distributor/Roles/RoleManager.cs:37 | the user that is impersonated where there is one and the distributor allows it, and otherwise the user |
| `Roles.ProxyIsBelievedExactlyWhen` | core/src/JetBlack.MessageBus.Distributor/Roles/RoleManager.cs:38 | a client speaks for another host if and only if the distributor allows proxies |
| `Roles.FirstFittingRuleDecides` | core/src/JetBlack.MessageBus.Distributor/Roles/RoleManager.cs:28 | the permission is that of the first rule that fits, or denies everything where none fits |
| `Roles.SafePatternsNeverFail` | core/src/JetBlack.MessageBus.Distributor/Roles/RoleManager.cs:28 | patterns without a `?` directly before a literal never make this fail |
| `Globs.Glob` | core/src/JetBlack.MessageBus.Common/Globber.cs:5-38 | the loop and its recursion come to what the function over positions says |
| `Globs.AnswersAreRight` | core/src/JetBlack.MessageBus.Common/Globber.cs:5-38 | whenever there is an answer, it is whether the value is of the form of the pattern |
| `Globs.AlwaysAnswersExactlyWhen` | core/src/JetBlack.MessageBus.Common/Globber.cs:13-27 | there is an answer on every value if and only if no `?` is directly followed by a literal |
| `Codec.MessagesComeBack` | core/src/JetBlack.MessageBus.Messages/Message.cs:30-79 | messages written one after the other read back one after the other, each reading taking exactly its own bytes |
| `Layouts.MessageIsLaidOut` | core/src/JetBlack.MessageBus.Messages/Message.cs:75-79 | each kind of message has its number in the first byte and its fields behind it in their order without gaps, with lengths and integers in network order |
| `Codec.MessageComesBack` | core/src/JetBlack.MessageBus.Messages/Message.cs:30-57 | every message reads back; only missing texts come back empty, and empty sets, data and packet arrays missing |
| `Codec.BytesIdentifyMessages` | core/src/JetBlack.MessageBus.Messages/Message.cs:75-79 | messages with the same bytes are the same up to what does not come back |
| `Codec.CutMessageReadsExactly` | core/src/JetBlack.MessageBus.Messages/Message.cs:30-57 | a message cut by the end of the stream is an end of the stream where nothing of it has come, reads well with the flag set where just its last field, a flag, is missing, and is read for ever at every other place |
| `Codec.FillingEndsExactlyWhen` | core/src/JetBlack.MessageBus.Common/IO/DataReader.cs:136-151 | the loop that fills a buffer ends, within a round for each byte, if and only if the stream holds bytes enough, whatever pieces they come in |
| `Codec.ShortStreamsNeverEnd` | core/src/JetBlack.MessageBus.Common/IO/DataReader.cs:136-151 | where it does not, there is one more round after however many |
| `Codec.NegativeLengthsAreRefused` | core/src/JetBlack.MessageBus.Common/IO/DataReader.cs:66-129 | negative lengths of texts, data and arrays are refused, and a negative count of a set makes it empty |
| `Codec.UnknownTypesAreRefused` | core/src/JetBlack.MessageBus.Messages/Message.cs:30-68 | numbers other than one to nine are refused |
| `Codec.Int32Back` | core/src/JetBlack.MessageBus.Common/IO/DataReader.cs:52-60 | every 32-bit integer, negative or not, reads back |
| `Codec.BytesOfInt32` | core/src/JetBlack.MessageBus.Common/IO/DataWriter.cs:49-60 | the four bytes of an integer stand for it, negative or not |
| `Codec.TextComesBack` | core/src/JetBlack.MessageBus.Common/IO/DataReader.cs:66-71 | texts read back |
| `Codec.SetComesBack` | core/src/JetBlack.MessageBus.Common/IO/DataReader.cs:73-82 | sets read back whatever order they were written in |
| `Codec.DataComesBack` | core/src/JetBlack.MessageBus.Common/IO/DataReader.cs:88-98 | byte arrays read back |
| `Codec.PacketsComeBack` | core/src/JetBlack.MessageBus.Common/IO/DataReader.cs:119-129 | arrays of packets read back |
| `Codec.ForwardedUnicastDataComesBack` | core/src/JetBlack.MessageBus.Messages/ForwardedUnicastData.cs:70-95 | the richest body reads back |
| `Codec.AuthorizationResponseComesBack` | core/src/JetBlack.MessageBus.Messages/AuthorizationResponse.cs:58-78 | the body with a boolean and a set reads back |
| `Codec.AuthorizationRequestComesBack` | core/src/JetBlack.MessageBus.Messages/AuthorizationRequest.cs:56-76 | the body reads back |
| `Codec.ForwardedMulticastDataComesBack` | core/src/JetBlack.MessageBus.Messages/ForwardedMulticastData.cs:64-86 | the body reads back |
| `Codec.ForwardedSubscriptionRequestComesBack` | core/src/JetBlack.MessageBus.Messages/ForwardedSubscriptionRequest.cs:63-85 | the body reads back |
| `Codec.MulticastDataComesBack` | core/src/JetBlack.MessageBus.Messages/MulticastData.cs:51-69 | the body reads back |
| `Codec.NotificationRequestComesBack` | core/src/JetBlack.MessageBus.Messages/NotificationRequest.cs:38-52 | the body reads back |
| `Codec.SubscriptionRequestComesBack` | core/src/JetBlack.MessageBus.Messages/SubscriptionRequest.cs:44-60 | the body reads back |
| `Codec.UnicastDataComesBack` | core/src/JetBlack.MessageBus.Messages/UnicastData.cs:57-77 | the body reads back |
| `Streams.DataReader.ReadMessages` | core/src/JetBlack.MessageBus.Messages/Message.cs:30-68 | however the stream cuts the bytes of some messages into pieces, exactly these messages are read and what follows stays in the stream |
| `Streams.DataReader.ReadMessage` | core/src/JetBlack.MessageBus.Messages/Message.cs:30-68 | reads the header and the body it announces; an unknown type, a bad length and the end of the stream are told apart |
| `Streams.DataReader.ReadFully` | core/src/JetBlack.MessageBus.Common/IO/DataReader.cs:131-151 | the next bytes, however they are cut into pieces, by rounds of that loop; where there are fewer than asked for, these come to a round that leads to itself |
| `Streams.DataReader.ReadInt32Set` | core/src/JetBlack.MessageBus.Common/IO/DataReader.cs:73-82 | none for count zero, an empty set for a negative count, and otherwise the set of the integers that follow |
| `Streams.DataReader.ReadByteArray` | core/src/JetBlack.MessageBus.Common/IO/DataReader.cs:88-98 | none for length zero, a failure for a negative length, and otherwise that many bytes |
| `Streams.DataReader.ReadBinaryDataPacketArray` | core/src/JetBlack.MessageBus.Common/IO/DataReader.cs:119-129 | none for count zero, a failure for a negative count, and otherwise that many packets |
| `Streams.DataReader.ReadBoolean` | core/src/JetBlack.MessageBus.Common/IO/DataReader.cs:31-34 | whether the byte is not zero, which it is not at the end of the stream |
| `Streams.DataWriter.WriteMessage` | core/src/JetBlack.MessageBus.Messages/Message.cs:75-79 | appends exactly the bytes of the message |
| `Streams.DataWriter.WriteBody` | core/src/JetBlack.MessageBus.Messages/ForwardedUnicastData.cs:83-95 | appends the fields of each body in order |
| `Streams.DataWriter.WriteInt32` | core/src/JetBlack.MessageBus.Common/IO/DataWriter.cs:49-60 | appends four bytes, the most significant first |
| `Streams.DataWriter.WritePrefixed` | core/src/JetBlack.MessageBus.Common/IO/DataWriter.cs:66-93 | appends the length and the bytes, or a zero length where there is no value |
| `Streams.DataWriter.WriteSet` | core/src/JetBlack.MessageBus.Common/IO/DataWriter.cs:95-105 | appends the count and the integers in the order of the enumeration |
| `Streams.DataWriter.WritePackets` | core/src/JetBlack.MessageBus.Common/IO/DataWriter.cs:123-133 | appends the count and the packets |
| `PrivateKeys.BareKeyComesBack` | core/src/JetBlack.MessageBus.Common/Security/Crytography/KeyUtils.cs:308-371 | the PKCS#1 encoding of eight positive integers decodes to their minimal magnitudes if and only if its contents have 128 to 65535 bytes, and otherwise to the default value |
| `PrivateKeys.WrappedKeyComesBack` | core/src/JetBlack.MessageBus.Common/Security/Crytography/KeyUtils.cs:252-306 | the PKCS#8 wrapping decodes to the same if and only if the key's contents have at least 128 bytes and those of the wrapping at most 65535 |
| `PrivateKeys.AlgorithmIsRsaEncryption` | core/src/JetBlack.MessageBus.Common/Security/Crytography/KeyUtils.cs:13 | the constant is the DER encoding of the object identifier 1.2.840.113549.1.1.1 with NULL |
| `PrivateKeys.KeyContentsInOrder` | core/src/JetBlack.MessageBus.Common/Security/Crytography/KeyUtils.cs:343-366 | which of the eight numbers stands where |
| `PrivateKeys.OnlyKeysAreDecoded` | core/src/JetBlack.MessageBus.Common/Security/Crytography/KeyUtils.cs:308-341 | a bare key is decoded only behind a header and version zero |
| `PrivateKeys.OnlyRsaKeysAreDecoded` | core/src/JetBlack.MessageBus.Common/Security/Crytography/KeyUtils.cs:252-306 | a wrapped key is decoded only behind a header, version zero, this algorithm and the tag of an octet string |
| `PrivateKeys.LengthComesBack` | core/src/JetBlack.MessageBus.Common/Security/Crytography/KeyUtils.cs:373-395 | reading a length inverts its definite form for all lengths below 2^31 |
| `PrivateKeys.IntegerComesBack` | core/src/JetBlack.MessageBus.Common/Security/Crytography/KeyUtils.cs:397-411 | a positive integer reads back as its magnitude without the zero in front |
| `PrivateKeys.MagnitudeHasValue` | core/src/JetBlack.MessageBus.Common/Security/Crytography/KeyUtils.cs:343-366 | a magnitude has the value of its number |
| `PrivateKeys.MagnitudeIsMinimal` | core/src/JetBlack.MessageBus.Common/Security/Crytography/KeyUtils.cs:403-406 | bytes without a leading zero are the magnitude of their value |
| `PrivateKeys.DecodeRSAPrivateKey` | core/src/JetBlack.MessageBus.Common/Security/Crytography/KeyUtils.cs:308-371 | decodes a bare key, or fails where the bytes end early or a count is negative |
| `PrivateKeys.DecodePrivateKey` | core/src/JetBlack.MessageBus.Common/Security/Crytography/KeyUtils.cs:252-306 | decodes a wrapped key |
| `PrivateKeys.BinaryReader.GetFieldLength` | core/src/JetBlack.MessageBus.Common/Security/Crytography/KeyUtils.cs:373-395 | a length from one byte, or from up to four that fill an array backwards |
| `PrivateKeys.BinaryReader.GetIntegerSize` | core/src/JetBlack.MessageBus.Common/Security/Crytography/KeyUtils.cs:397-411 | the length of an integer less its leading zeros, with the cursor on its first other byte |

## Left out

- EditDistance.FuzzyIsCompleteExactlyWhen: leaves out the texts of which the last character is a wildcard and that are longer than twice the edits less two, where these are two or more. There the letters decide: `WildcardsAreCompleteExactlyWhen` and `FrontDeletionsAreMissed` show texts of both kinds. Soundness is proved for them.
- Runs.NothingIsLost: speaks of moments when the loop is done with its last event; in between, what is still to be sent is the rest.
- Streams.DataReader.ReadFully: the endless loop at the end of a stream is an outcome of its own, so that the method ends; that the loop has no end there is `Codec.ShortStreamsNeverEnd`.
- EventLoop.ProcessQueue: drains the queue that it finds; the source then waits for the events that other threads add, which are steps of `Runs`.
- Servers.Server.OnInteractorEvent: asks that a connecting client be new, as the dictionary of live clients does; the ids are fresh.
- Vectors.Vector.Dot: numbers are reals without rounding; the cached magnitude and the similarity, which take square roots, are not modelled.
- Queries.Expand: the words come as a sorted array; how the inverted index collects them, and scoring, stemming and field handling are not modelled.
- Sockets, SSL, SSPI, DNS and acceptors: a connection is an event. The server is started once, so there is one event loop.
- Waiting for threads when an interactor is disposed of: ending a client stops its threads at once in `Runs`.
- Metrics and logging, and the gauge of subscriptions, which does not follow the counts.
- Authenticators, plugins, encrypted keys, PEM text, certificate stores and the conversion of texts to UTF-8.
- Memory: arrays of any 32-bit length can be had.
- Equality, hash codes and printing of messages, and the parser that follows the lexer.
