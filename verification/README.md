# Verified model of the component runtime

A machine here is a set of service components: each has a state machine generated from a YAML file,
a bounded event queue and an event loop, and talks to the others through a message broker. This
project models that runtime and the small stateful services built on it, and proves what they keep
over whole runs. Where the code does not do what its comments or its users would expect, the model
follows the code, shows an input for which the expectation fails, and proves exactly when it holds.

`dafny verify dfyconfig.toml` checks everything.

| file | component |
|---|---|
| `EventQueue.dfy`, `StateMachine.dfy`, `StatedServiceComponent.dfy` | event queue, state machine, event loop |
| `TableCompiler.dfy`, `ReceiverLists.dfy` | the generator: transition tables, receiver lists |
| `Hash.dfy`, `HashCollision.dfy`, `Subscriber.dfy`, `Messages.dfy`, `Forwarding.dfy` | message identifiers, subscriptions, request chains |
| `FilamentMergerControl.dfy`, `MachineControl.dfy`, `FilamentMergerControlRuns.dfy`, `MachineControlRuns.dfy` | the two joins of the control components, alone and in whole runs of their state machines |
| `FilamentTensionSensorService.dfy`, `HeaterService.dfy` | tension events, heater hysteresis |
| `Timer.dfy`, `MotorService.dfy`, `TicController.dfy` | wake-up times, motor speed, the motor controller's wire format |
| `ConfigurationFileParser.dfy`, `StringTokenizer.dfy`, `DottedNames.dfy` | option files, the gateway's method names, names with dots |
| `Options.dfy`, `Arithmetic.dfy`, `Sequences.dfy` | shared by the others |

Each object with changing fields is a class. Its methods are proved equal to a function on values,
and the results over runs are lemmas about that function. An operation another thread makes under
the queue's mutex, a handler and an action are each one atomic step; which steps happen, in which
order, and which calls to the outside fail, is arbitrary.

## Main results

- **Compilation preserves meaning.** `CompiledMachineMeansItsRules`: parser, generator, first-match
  machine, bounded queue and event loop together do, in every run, what interpreting the YAML rules
  on the consumed events does. It composes `FoldPreserved` with `EveryRunIsTheFold`; `AcceptedIff` says
  which rule lists there are, `OutcomeOfProcessing` what the events an action pushes come to.
- **The socket pool is a set of pairs** throughout a run without failures exactly if no operation in it
  confuses two pairs (`AlwaysRefinesIff`). Under any failures `EveryRunKeepsInvariant` holds, and
  `SlotsAlwaysUsedIff`, `NothingEverLeakedIff` and `AlwaysSingleReceivesIff` say which operations break
  what else one would expect, `LeakedIffLeftOpen` what is left open.
- **Identifiers.** `IdentifiersCollideIff` gives the equation on hashes that is a collision;
  `OneByteApartNeverCollides` a family that never satisfies it, `TopicsThatCollide` a pair that does.
- **A success means what it says, except when it is stale.** For both joins, for every state table, the
  exact condition (`AlwaysTruthfulIff`); for the shipped tables `RunningMeansUnitsRan` and
  `HeatedUpMeansHeated`, and runs that need the condition (`RunningWithoutUnits`, `HeatedUpWithoutHeat`).
  `CheckIsHandledIff` and `RepeatedStopIsUnhandledIff` say when a check, or the success after it,
  meets no transition.
- **Receiver lists.** `GenerateReceiverLists`: from the declarations of a file to each list, or failure;
  `ListIsExact`: what stands in a list, how often and in which order.
- **Timers never drift** (`DeadlinesNeverDrift`, `CallRateIsBounded`), **joins fire exactly once**
  (`ExactlyOnce`), **chains answer with the original header** (`ResponseOfChain`,
  `DeliveredAnswerIsTheLastHandlers`), **tension reports are the de-stuttered edges**
  (`ReportsAreTheDestutteredEdges`, `TensionIsOfTheLastEdge`), **skipped samples do not matter to the
  hysteresis** (`SkippingRepeatsIsHarmless`, `LastReportIff`), **options are named by their paths**
  (`PrefixesAreThePaths`).

## Model

| member | source | states |
|---|---|---|
| `EventQueues.StepConserves` | libs/ServiceComponent/include/ServiceComponent/EventQueue.hpp:73-114 | push, pull and reset each keep: the accepted events in order are those consumed or dropped, followed by the queue; and the size stays below the maximum |
| `EventQueues.RunConserves` | libs/ServiceComponent/include/ServiceComponent/EventQueue.hpp:73-114 | the same after every interleaving of operations by any threads, from the empty queue |
| `EventQueues.CapacityIsOneLess` | libs/ServiceComponent/include/ServiceComponent/EventQueue.hpp:73-83 | n pushes leave min(n, maxSize - 1) events; maxSize 0 means no bound |
| `EventQueues.PushesFillTheQueue` | libs/ServiceComponent/include/ServiceComponent/EventQueue.hpp:73-83 | of any events pushed in a row exactly the first ones that fit are accepted, and stand behind those that were waiting |
| `EventQueues.ResetForgets` | libs/ServiceComponent/include/ServiceComponent/EventQueue.hpp:73-114 | after anything and a reset, the queue is what is pushed later, as far as it fits |
| `EventQueues.FirstInFirstOut` | libs/ServiceComponent/include/ServiceComponent/EventQueue.hpp:73-101 | without a reset, the next k events taken are the first k that stood in the queue, whatever is pushed meanwhile |
| `EventQueues.EventQueue.Push` | libs/ServiceComponent/include/ServiceComponent/EventQueue.hpp:73-83 | refuses exactly at maxSize - 1 events, changing nothing; else the event stands at the end; conservation kept |
| `EventQueues.EventQueue.Pull` | libs/ServiceComponent/include/ServiceComponent/EventQueue.hpp:85-101 | takes the oldest event; on an empty queue, the oldest after whatever other threads did during the wait, or none |
| `EventQueues.EventQueue.Reset` | libs/ServiceComponent/include/ServiceComponent/EventQueue.hpp:108-114 | the waiting events are dropped, none is forgotten |
| `StateMachines.FindTransition` | libs/ServiceComponent/include/ServiceComponent/StateMachine.hpp:176-183 | the first entry whose state and event agree and whose guard, if any, holds; none iff there is none |
| `StateMachines.StateMachine.ProcessEvent` | libs/ServiceComponent/include/ServiceComponent/StateMachine.hpp:155-174 | moves to the next state before the action runs, which sees that state; what the action pushes reaches the queue; fails iff there is no transition, changing nothing |
| `StateMachines.StateMachine.ProcessNextEvent` | libs/ServiceComponent/include/ServiceComponent/StateMachine.hpp:123-141 | takes the oldest event; without a transition only that; else the new state, the action, and behind the waiting events those the action pushed, as far as they fit |
| `StateMachines.MeanwhileIsARun` | libs/ServiceComponent/include/ServiceComponent/StateMachine.hpp:118-174 | what happens to the queue during an action is a run of it: every push and reset counts |
| `StateMachines.OutcomeOfProcessing` | libs/ServiceComponent/include/ServiceComponent/StateMachine.hpp:123-174 | state, actions and queue after one event, for every table, in terms of the entry chosen and the events its action pushes |
| `StateMachines.StateMachine.Push` | libs/ServiceComponent/include/ServiceComponent/StateMachine.hpp:118-121 | succeeds iff there is room, and the event then stands at the end; state and history untouched |
| `StateMachines.StepRunsToCompletion` | libs/ServiceComponent/include/ServiceComponent/StateMachine.hpp:118-174 | each step keeps: state and actions are the fold of dispatch over the consumed events, which are the queue's |
| `StateMachines.EveryRunIsTheFold` | libs/ServiceComponent/include/ServiceComponent/StateMachine.hpp:118-174 | the same in every run, with pushes and resets by other threads, before and during actions, and pushes from actions, and nothing accepted lost or reordered |
| `StatedServiceComponents.HandleEventMessage` | libs/ServiceComponent/include/ServiceComponent/StatedServiceComponent.hpp:112-124 | Success iff there is room, and the event then stands at the end; else the whole answer is that of an unsupported request, the queue unchanged; both carry the request's header |
| `Messages.UnsupportedResponse` | libs/MessageBroker/include/MessageBroker/MessageHelper.hpp:42-89 | header, result, error and payload of that answer |
| `StatedServiceComponents.EveryEventIsTakenOnce` | libs/ServiceComponent/include/ServiceComponent/StatedServiceComponent.hpp:69-83 | until the queue is reset, in every interleaving: each event pushed is waiting or was taken, once |
| `StatedServiceComponents.LoopDrainsTheQueue` | libs/ServiceComponent/include/ServiceComponent/StatedServiceComponent.hpp:69-83 | left to itself the loop takes every waiting event and then waits |
| `StatedServiceComponents.PushWakesTheLoop` | libs/ServiceComponent/include/ServiceComponent/StatedServiceComponent.hpp:69-83 | a push wakes the waiting loop, which takes its event |
| `StatedServiceComponents.LoopKeepsInvariant` | libs/ServiceComponent/include/ServiceComponent/StatedServiceComponent.hpp:69-83 | in every interleaving of loop, stop and pushes: a waiting loop has an empty queue, a finished one was stopped |
| `StatedServiceComponents.StopEndsTheLoopIff` | libs/ServiceComponent/include/ServiceComponent/StatedServiceComponent.hpp:69-83 | a stop ends the loop iff its reset does not fall between the loop's test of the flag and its wait; else the wake-up is lost |
| `StatedServiceComponents.StopCanLoseTheWakeUp` | libs/ServiceComponent/include/ServiceComponent/StatedServiceComponent.hpp:69-83 | a started loop can get there: after test, cleared flag and reset it never ends by itself |
| `TableCompiler.MatchingStatesOneMore` | libs/ServiceComponent/scripts/ServiceComponentParser.py:111-113 | the states of a rule are the declared ones it matches, in their order, each as often as it is declared |
| `TableCompiler.NoComplaintMeansWellFormed` | libs/ServiceComponent/scripts/ServiceComponentParser.py:110-124 | a rule passes iff its pattern matches some declared state and its next state and event are declared |
| `TableCompiler.StateMachineParser.ParseTransition` | libs/ServiceComponent/scripts/ServiceComponentParser.py:110-132 | each error exactly for the first test that fails, said about states and events; else appends the rule's expansion iff it repeats no (state, next, event) |
| `TableCompiler.StateMachineParser.ParseStateMachine` | libs/ServiceComponent/scripts/ServiceComponentParser.py:101-132 | succeeds iff the list is acceptable, and the transitions are then the whole expansion in order; else the error is that of the first rule that is not acceptable after those before it |
| `TableCompiler.AcceptedIff` | libs/ServiceComponent/scripts/ServiceComponentParser.py:101-132 | which lists are acceptable: start state, next states and events declared, each pattern matches something and nothing that is declared twice, and no two rules match a state with the same next state and event |
| `TableCompiler.OneMoreRule` | libs/ServiceComponent/scripts/ServiceComponentParser.py:107-132 | acceptance of a longer list is acceptance of the shorter one, a good rule and no repetition |
| `TableCompiler.GenerateTransitions` | libs/ServiceComponent/scripts/generator/cpp/ServiceComponentSourceGenerator.py:139-145 | one table entry per transition, in the same order, with its state, next state and event, its action if one is given and not empty, and no guard |
| `TableCompiler.ExpandedRuleDispatch` | libs/ServiceComponent/scripts/ServiceComponentParser.py:111-129 | the entries of one rule answer for exactly the states its pattern matches, with its next state and action |
| `TableCompiler.DispatchPreserved` | libs/ServiceComponent/scripts/ServiceComponentParser.py:107-132 | first match in the emitted table takes the step of the first rule in the file that applies |
| `TableCompiler.FirstRuleIsFirst` | libs/ServiceComponent/scripts/ServiceComponentParser.py:107-108 | the reference interpreter picks the first applicable rule, none iff none applies |
| `TableCompiler.FoldPreserved` | libs/ServiceComponent/scripts/generator/cpp/ServiceComponentSourceGenerator.py:139-145 | on every event list the table and the rules reach the same state with the same actions, and the state stays declared |
| `TableCompiler.CompiledMachineMeansItsRules` | libs/ServiceComponent/scripts/ServiceComponentParser.py:101-132 | from an accepted list, in every run of the generated component, the state is the one the rules give on its consumed events, and the actions are those written in the rules taken |
| `TableCompiler.BuildMachine` | libs/ServiceComponent/scripts/generator/cpp/ServiceComponentSourceGenerator.py:139-145 | parsing, generating and constructing gives a machine in its start state with the emitted table, iff the list is acceptable |
| `TableCompiler.DeadIffCovered` | libs/ServiceComponent/scripts/ServiceComponentParser.py:124-132 | a rule is never taken iff each declared state it matches is matched by an earlier rule for its event |
| `TableCompiler.ConflictingRulesAreAccepted` | libs/ServiceComponent/scripts/ServiceComponentParser.py:125-132 | two rules for one state and event with different next states are accepted, the second dead |
| `Fnv1a.PrimeIsInvertible` | libs/Common/include/Common/Hash.hpp:94-96 | multiplying by the prime modulo 2^32 is undone by 0x359C449B, both ways |
| `Fnv1a.StepIsABijection` | libs/Common/include/Common/Hash.hpp:94-96 | one step of the hash has an inverse on 32-bit states |
| `Fnv1a.StepSeparatesBytes` | libs/Common/include/Common/Hash.hpp:94-96 | from one state, different bytes lead to different states |
| `Fnv1a.WidenIsTheConversion` | libs/Common/include/Common/Hash.hpp:94-96 | a character is converted by its value, which is negative from 0x80 on where char is signed |
| `Fnv1a.HashIsABijectionOfTheSeed` | libs/Common/include/Common/Hash.hpp:91-97 | hashing any string permutes the seeds, with an explicit inverse |
| `Fnv1a.HashContinues` | libs/Common/include/Common/Hash.hpp:91-97 | the hash of a concatenation continues from the hash of the first part |
| `Fnv1a.HashSeesOnlyTheCString` | libs/Common/include/Common/Hash.hpp:91-97 | only the bytes before the first zero count |
| `Fnv1a.OneByteChangesTheHash` | libs/Common/include/Common/Hash.hpp:91-97 | replacing one byte keeps the hash iff the byte is the same, whatever stands around it |
| `Fnv1a.DifferingInOnePosition` | libs/Common/include/Common/Hash.hpp:91-97 | equal-length strings that differ at one position never collide |
| `Fnv1a.CombineIsLinear` | libs/Common/include/Common/Hash.hpp:106-109 | combining is additive in both hashes, modulo 2^32 |
| `Fnv1a.CombineOfUnits` | libs/Common/include/Common/Hash.hpp:106-109 | the first hash counts times the prime, the second once |
| `Fnv1a.IdentifiersCollideIff` | libs/MessageBroker/include/MessageBroker/Message.hpp:67-73 | two identifiers are equal iff the difference of the address hashes is 0x359C449B times that of the topic hashes |
| `Fnv1a.SharedPartCollision` | libs/MessageBroker/include/MessageBroker/Message.hpp:67-73 | with equal topics, or equal addresses, identifiers collide iff the other hashes do |
| `Fnv1a.OneByteApartNeverCollides` | libs/MessageBroker/include/MessageBroker/Message.hpp:67-73 | topics or addresses one byte apart never share an identifier |
| `Fnv1aCollision.TopicsThatCollide` | libs/MessageBroker/include/MessageBroker/Message.hpp:67-73 | the topics "costarring" and "liquid" share an identifier under every address, with signed and unsigned char |
| `Subscribers.FindSocket` | libs/MessageBroker/src/Subscriber.cpp:196-201 | the first slot with the address; none iff no slot has it |
| `Subscribers.CountIsZero` | libs/MessageBroker/src/Subscriber.cpp:203-210 | the count is zero iff no subscription refers to the slot |
| `Subscribers.SubscribeKeepsInvariant` | libs/MessageBroker/src/Subscriber.cpp:47-110 | under any failures: map entries point to slots with an address, addresses are distinct, and a slot with an address is connected to it and has a receive armed |
| `Subscribers.UnsubscribeKeepsInvariant` | libs/MessageBroker/src/Subscriber.cpp:112-148 | the same, also when the disconnect fails or removing the filter throws |
| `Subscribers.EveryRunKeepsInvariant` | libs/MessageBroker/src/Subscriber.cpp:47-183 | the same after every run of subscriptions, unsubscriptions and completed receives, whichever calls fail |
| `Subscribers.Subscriber.SubscribeTo` | libs/MessageBroker/src/Subscriber.cpp:47-110 | succeeds iff the identifier is new, the filter can be set, and the address has a slot or a free one can be connected; slots, connections and map change as specified; a failing call leaves map, addresses, filters and receives as they were |
| `Subscribers.SuccessfulSubscribe` | libs/MessageBroker/src/Subscriber.cpp:58-110 | on success: the first slot of the address, or the first free one, which is then connected and armed, gets the filter and the map entry; nothing else changes |
| `Subscribers.FailedSubscribe` | libs/MessageBroker/src/Subscriber.cpp:50-100 | on failure: nothing changes, unless the filter of a new connection cannot be set; then the first free slot keeps or loses that connection |
| `Subscribers.FailedSubscribeChangesIff` | libs/MessageBroker/src/Subscriber.cpp:86-100 | and it leaves the connections too, except where its clean-up disconnect fails, or closes what an earlier failure had left open |
| `Subscribers.Subscriber.UnsubscribeFrom` | libs/MessageBroker/src/Subscriber.cpp:112-148 | the slots and the map change as specified, for each way to fail |
| `Subscribers.UnsubscribeOutcome` | libs/MessageBroker/src/Subscriber.cpp:112-148 | result, map and slot for each way to fail: the filter is removed, and the slot is freed iff no other entry refers to it and the disconnect succeeds |
| `Subscribers.AddressInUse` | libs/MessageBroker/src/Subscriber.cpp:59-66 | an address has a slot iff some subscription has it; a slot is free iff fewer than eight addresses are in use |
| `Subscribers.SubscribeRefines` | libs/MessageBroker/src/Subscriber.cpp:47-110 | without failures and collisions: succeeds iff the pair is new and its address is in use or fewer than eight are; then adds just the pair |
| `Subscribers.UnsubscribeRefines` | libs/MessageBroker/src/Subscriber.cpp:112-148 | without failures and collisions: succeeds iff the pair is subscribed, and removes just it |
| `Subscribers.CompleteRefines` | libs/MessageBroker/src/Subscriber.cpp:150-183 | the completion of a receive changes nothing a subscription can see |
| `Subscribers.PendingStep` | libs/MessageBroker/src/Subscriber.cpp:104-183 | the receives armed on a slot grow by one with a new connection, shrink by one when a receive completes on a free slot, and stay otherwise |
| `Subscribers.CompletionsEndFreeReceives` | libs/MessageBroker/src/Subscriber.cpp:150-183 | any number of completions ends as many receives left over on a free slot, and none of a slot in use |
| `Subscribers.StepRefines` | libs/MessageBroker/src/Subscriber.cpp:47-183 | an operation without failures follows the abstract set of pairs over at most eight addresses, if the pairs subscribed and the one it names all have different identifiers |
| `Subscribers.StepRefinesIff` | libs/MessageBroker/src/Subscriber.cpp:47-183 | in general it does iff it does not confuse its pair with another one subscribed that has the same identifier; a subscription refused for want of a slot confuses nothing |
| `Subscribers.AlwaysRefinesIff` | libs/MessageBroker/src/Subscriber.cpp:47-183 | throughout a run without failures map, slot addresses and each slot's filters are exactly the abstract set iff no operation in it confuses its pair with one subscribed at that moment |
| `Subscribers.EveryRunRefines` | libs/MessageBroker/src/Subscriber.cpp:47-183 | in particular if all pairs the run mentions have different identifiers |
| `Subscribers.MessageIdentifiersCollisionFreeIff` | libs/MessageBroker/include/MessageBroker/Message.hpp:67-73 | for the identifiers in use, freedom from collisions is the absence of solutions of the hash equation |
| `Subscribers.CollisionHitsTheOtherPair` | libs/MessageBroker/src/Subscriber.cpp:50-56 | with a colliding identifier, subscribing the other pair is refused, and unsubscribing it removes the wrong entry and reports success |
| `Subscribers.CollidingTopics` | libs/MessageBroker/src/Subscriber.cpp:50-56 | with the identifiers in use this happens: of the topics "costarring" and "liquid" only one can be subscribed at an address |
| `Subscribers.FailedDisconnectKeepsTheSlot` | libs/MessageBroker/src/Subscriber.cpp:131-145 | an unsubscription returns false iff the pair is unknown, or it was the slot's last and the disconnect fails; the slot then keeps its address without subscriptions |
| `Subscribers.SlotsAlwaysUsedIff` | libs/MessageBroker/src/Subscriber.cpp:47-145 | throughout a run, whatever fails, every slot with an address has a subscription iff no unsubscription of a slot's last pair fails to disconnect it |
| `Subscribers.LeakedIffLeftOpen` | libs/MessageBroker/src/Subscriber.cpp:72-98 | in every run, for every slot and address: the socket is connected to the address without the slot saying so iff the last new connection of the slot to it failed to set the filter and then to disconnect |
| `Subscribers.NothingEverLeakedIff` | libs/MessageBroker/src/Subscriber.cpp:89-98 | throughout a run free slots have no connection and others only their own iff no subscription fails in both ways |
| `Subscribers.FaultlessRunsLeakNothing` | libs/MessageBroker/src/Subscriber.cpp:47-148 | in particular in every run without failures |
| `Subscribers.ReusedSlotHearsTwoAddresses` | libs/MessageBroker/src/Subscriber.cpp:64-100 | a connection left open stays when the slot is used for another address |
| `Subscribers.SecondReceiveIff` | libs/MessageBroker/src/Subscriber.cpp:104-107 | in any state, an operation arms a receive on a slot that has one already iff it connects a slot, sets its filter and the slot it takes has one pending |
| `Subscribers.AlwaysSingleReceivesIff` | libs/MessageBroker/src/Subscriber.cpp:104-107 | throughout a run, whatever fails, no slot has two receives armed iff no operation does that |
| `Subscribers.ReusedSlotReceivesTwice` | libs/MessageBroker/src/Subscriber.cpp:104-107 | such a run exists: subscribe, unsubscribe, subscribe |
| `Forwarding.MessageBroker.GetNextSequenceNumber` | libs/MessageBroker/include/MessageBroker/MessageBroker.hpp:169-172 | returns the number and counts on, modulo 2^32 |
| `Forwarding.ProcessReceivedRequest` | libs/MessageBroker/src/MessageBroker.cpp:162-192 | the brokers of a chain, each with its own sequence counter, answer as the specification of the chain says and use their sequence numbers as it says |
| `Forwarding.SequenceIsUsedIff` | libs/MessageBroker/src/MessageBroker.cpp:82-94 | a broker uses one sequence number iff the request gets as far as its component, is forwarded by it, and the connection can be made |
| `Forwarding.Forward` | libs/ServiceComponent/include/ServiceComponent/ServiceComponent.hpp:128-136 | new id and sequence, same payload; what is returned for each way the send can fail; the sequence numbers used |
| `Forwarding.ResponseOfChain` | libs/MessageBroker/src/MessageBroker.cpp:177-191 | for chains of any length: the response has the original header, and the content made where the request stops |
| `Forwarding.EveryChainAnswersOnce` | libs/MessageBroker/src/MessageBroker.cpp:82-130 | every request stops at exactly one computed place, so the above covers every chain and failure |
| `Forwarding.DeliveredAnswerIsTheLastHandlers` | libs/MessageBroker/src/MessageBroker.cpp:177-191 | if each component handles the id the one before puts in, and all sends get through: the last handler's answer to the original payload under the last hop's id and sequence number, with the original header |
| `Forwarding.UnhandledRequestIsAnswered` | libs/MessageBroker/src/MessageBroker.cpp:184-189 | if one has no handler for the id it gets: the answer of an unsupported request, with the original header |
| `Forwarding.LostForwardIsAnswered` | libs/MessageBroker/src/MessageBroker.cpp:82-130 | if a send does not get through: what could be parsed of a response, or the answer for success, with the original header |
| `Forwarding.LostForwardIsAnErrorIff` | libs/ServiceComponent/include/ServiceComponent/ServiceComponent.hpp:128-136 | a request that could not be forwarded is answered with an error iff its send ended with an unparsable response whose parsed part already has an error result |
| `Forwarding.LostForwardLooksSuccessful` | libs/ServiceComponent/include/ServiceComponent/ServiceComponent.hpp:133-135 | if no response was read the answer is the very one for success; in general it is iff what is left in the response is the default |
| `FilamentMergerControls.FlagsAreTheHistory` | libs/MachineServiceComponent/src/FilamentMergerControl.cpp:44-77 | a flag is set iff its heater notified since the last restart |
| `FilamentMergerControls.RequestIffPairCompleted` | libs/MachineServiceComponent/src/FilamentMergerControl.cpp:44-68 | a notification requests HeatingUpSucceeded iff it completes the pair |
| `FilamentMergerControls.ExactlyOnce` | libs/MachineServiceComponent/src/FilamentMergerControl.cpp:44-68 | between restarts exactly one request once both kinds have come, in any order and number, else none |
| `FilamentMergerControls.RefusedRequestIsNotRepeated` | libs/MachineServiceComponent/src/FilamentMergerControl.cpp:47-54 | a request the queue refuses is not made again before a restart |
| `FilamentMergerControls.FilamentMergerControl.OnPreHeaterTargetTemperatureRangeReached` | libs/MachineServiceComponent/src/FilamentMergerControl.cpp:44-55 | pushes the event iff the history becomes complete with it |
| `FilamentMergerControls.FilamentMergerControl.OnMergerHeaterTargetTemperatureRangeReached` | libs/MachineServiceComponent/src/FilamentMergerControl.cpp:57-68 | the same for the other heater |
| `FilamentMergerControls.FilamentMergerControl.SwitchOnAction` | libs/MachineServiceComponent/src/FilamentMergerControl.cpp:73-87 | forgets both notifications and pushes success or error |
| `FilamentMergerControls.FilamentMergerControl.HeatingUpAction` | libs/MachineServiceComponent/src/FilamentMergerControl.cpp:136-151 | forgets both notifications; one error for each heater that cannot be switched on |
| `FilamentMergerControlRuns.OutcomeFromOutside` | libs/MachineServiceComponent/src/FilamentMergerControl.cpp:44-68 | for every table: flags, inputs and queue after a notification, a foreign push and a reset |
| `FilamentMergerControlRuns.OutcomeOfProcessing` | libs/MachineServiceComponent/src/FilamentMergerControl.cpp:73-151 | and after processing an event, with or without a transition, for each kind of action |
| `FilamentMergerControlRuns.ShippedByEvent` | libs/MachineServiceComponent/conf/MachineServiceComponent.yaml:187-231 | the shipped table, event by event: in which states it is handled and where it leads |
| `FilamentMergerControlRuns.ShippedActions` | libs/MachineServiceComponent/conf/MachineServiceComponent.yaml:187-231 | the flags are reset exactly on switching on and starting to heat |
| `FilamentMergerControlRuns.TruthfulStepIff` | libs/MachineServiceComponent/src/FilamentMergerControl.cpp:44-87 | for every state table and step: a waiting HeatingUpSucceeded keeps meaning that both heaters notified since the last restart iff the step does not restart while one waits behind its event |
| `FilamentMergerControlRuns.AlwaysTruthfulIff` | libs/MachineServiceComponent/src/FilamentMergerControl.cpp:44-151 | it does throughout a run, for every table and whatever a full queue loses, iff the run has no such restart |
| `FilamentMergerControlRuns.HeatedUpMeansHeated` | libs/MachineServiceComponent/conf/MachineServiceComponent.yaml:187-231 | with the shipped table, in every such run: HeatedUp means that both heaters notified since the heating was last started |
| `FilamentMergerControlRuns.HeatedUpWithoutHeat` | libs/MachineServiceComponent/conf/MachineServiceComponent.yaml:205-221 | such a restart is reachable, every event being handled, and refutes that: HeatedUp with no notification since |
| `MachineControls.FlagsAreTheHistory` | libs/MachineServiceComponent/src/MachineControl.cpp:117-143 | a unit's flag is set iff since the last start it notified Running with no later Stopped |
| `MachineControls.SuccessIffJustified` | libs/MachineServiceComponent/src/MachineControl.cpp:216-252 | StartingSucceeded is attempted iff a check finds both units running by their history, StoppingSucceeded iff neither |
| `MachineControls.LaterCheckSucceeds` | libs/MachineServiceComponent/src/MachineControl.cpp:216-223 | a check after both Running notifications, undisturbed by Stopped or a start, attempts StartingSucceeded |
| `MachineControls.StepsCancelIff` | libs/MachineServiceComponent/src/MachineControl.cpp:52-92 | for every speed: an increase and a decrease cancel iff the first was not cut off, or lost nothing by it; a default above the maximum is never reached again |
| `MachineControls.MachineControl.OnRunning` | libs/MachineServiceComponent/src/MachineControl.cpp:117-136 | the unit counts as running and a check is pushed, if there is room |
| `MachineControls.MachineControl.OnStopped` | libs/MachineServiceComponent/src/MachineControl.cpp:124-143 | the unit counts as not running and a check is pushed, if there is room |
| `MachineControls.MachineControl.StartMachineAction` | libs/MachineServiceComponent/src/MachineControl.cpp:175-214 | no unit counts as running, the speed is set, one error at the first request that fails |
| `MachineControls.MachineControl.CheckStartingStateAction` | libs/MachineServiceComponent/src/MachineControl.cpp:216-223 | pushes StartingSucceeded iff the history says both units run |
| `MachineControls.MachineControl.CheckStoppingStateAction` | libs/MachineServiceComponent/src/MachineControl.cpp:245-252 | pushes StoppingSucceeded iff the history says neither runs |
| `MachineControlRuns.OutcomeFromOutside` | libs/MachineServiceComponent/src/MachineControl.cpp:117-143 | for every table: flags, inputs and queue after a notification, a foreign push and a reset |
| `MachineControlRuns.OutcomeOfProcessing` | libs/MachineServiceComponent/src/MachineControl.cpp:175-252 | and after processing an event, with or without a transition, for each kind of action |
| `MachineControlRuns.ShippedByEvent` | libs/MachineServiceComponent/conf/MachineServiceComponent.yaml:62-125 | the shipped table, event by event: in which states it is handled and where it leads |
| `MachineControlRuns.ShippedActions` | libs/MachineServiceComponent/conf/MachineServiceComponent.yaml:62-125 | which events run which of the actions that touch the flags |
| `MachineControlRuns.FlagsFollowAll` | libs/MachineServiceComponent/src/MachineControl.cpp:117-252 | for every state table and run, whatever a full queue loses, the flags are those of the handled inputs |
| `MachineControlRuns.StartKeepsTruthIff` | libs/MachineServiceComponent/src/MachineControl.cpp:175-179 | a start leaves the queue truthful iff no StartingSucceeded waits behind the event that starts |
| `MachineControlRuns.TruthfulStep` | libs/MachineServiceComponent/src/MachineControl.cpp:117-252 | every other step keeps: a waiting StartingSucceeded means both units ran at some time since the last start |
| `MachineControlRuns.SuccessIsTrue` | libs/MachineServiceComponent/src/MachineControl.cpp:216-223 | that holds in every run, for every table, that never starts over a stale StartingSucceeded |
| `MachineControlRuns.AlwaysTruthfulIff` | libs/MachineServiceComponent/src/MachineControl.cpp:175-223 | and throughout a run iff the run never starts over one |
| `MachineControlRuns.RunningMeansUnitsRan` | libs/MachineServiceComponent/conf/MachineServiceComponent.yaml:62-125 | with the shipped table, in every such run: Running means that both units ran at some time since the last start, also where events are lost or unhandled |
| `MachineControlRuns.RunningWithoutUnits` | libs/MachineServiceComponent/conf/MachineServiceComponent.yaml:62-125 | a stale start is reachable, every event being handled, and refutes that: Running, though the units did not both run since the last start |
| `MachineControlRuns.CheckIsHandledIff` | libs/MachineServiceComponent/conf/MachineServiceComponent.yaml:101-125 | the check a notification pushes has a transition iff the machine then is starting, or stopping or stopped |
| `MachineControlRuns.PausedCoilIsUnhandled` | libs/MachineServiceComponent/conf/MachineServiceComponent.yaml:105-125 | normal operation meets one without: after an ordinary start, a coil that pauses |
| `MachineControlRuns.EveryCheckSucceeds` | libs/MachineServiceComponent/src/MachineControl.cpp:216-252 | when all notifications precede the first check, each waiting check pushes its own success |
| `MachineControlRuns.RepeatedStartIsHarmless` | libs/MachineServiceComponent/conf/MachineServiceComponent.yaml:105-107 | repeated StartingSucceeded are all handled |
| `MachineControlRuns.RepeatedStopIsUnhandledIff` | libs/MachineServiceComponent/conf/MachineServiceComponent.yaml:116-125 | as many stopping checks waiting in Stopping as the queue can hold, any flags: where the machine gets to, and that it meets an event without a transition iff both units stopped and there are at least two |
| `MachineControlRuns.TwoStoppingChecks` | libs/MachineServiceComponent/conf/MachineServiceComponent.yaml:112-125 | an ordinary start and stop reaches two, and the unhandled event |
| `TensionSensors.DestutterHasNoRepetition` | libs/MachineServiceComponent/src/FilamentTensionSensorService.cpp:152-156 | the reference list has no repetition, does not begin with Normal, and ends as the input ends |
| `TensionSensors.EdgeFollows` | libs/MachineServiceComponent/src/FilamentTensionSensorService.cpp:116-167 | one edge keeps: reports by edges are the de-stuttered classification, the last one is the current tension |
| `TensionSensors.EdgeConsistent` | libs/MachineServiceComponent/src/FilamentTensionSensorService.cpp:152-166 | one edge keeps: the timer runs iff the tension is not Normal |
| `TensionSensors.TimerFollows` | libs/MachineServiceComponent/src/FilamentTensionSensorService.cpp:105-114 | a repetition does not disturb the reports by edges |
| `TensionSensors.TickRepeatsTheTension` | libs/MachineServiceComponent/src/FilamentTensionSensorService.cpp:105-114 | started with the timer off, in every run: a tick repeats the tension iff that is Low or High |
| `TensionSensors.TensionIsOfTheLastEdge` | libs/MachineServiceComponent/src/FilamentTensionSensorService.cpp:122-150 | in every run: the tension is what the last rising or falling edge says, by its pin |
| `TensionSensors.NoEdgeNoChange` | libs/MachineServiceComponent/src/FilamentTensionSensorService.cpp:147-149 | and without such an edge what it was |
| `TensionSensors.ReportsAreTheDestutteredEdges` | libs/MachineServiceComponent/src/FilamentTensionSensorService.cpp:68-167 | after a start, with the timer on or off before it, in every run: reports by edges are the de-stuttered edges from Normal, the timer follows the changes, only Low and High are repeated |
| `TensionSensors.TimerRunsIffNotNormal` | libs/MachineServiceComponent/src/FilamentTensionSensorService.cpp:152-166 | the timer runs exactly while the tension is not Normal, unless it was on before the start and no edge has changed the tension |
| `TensionSensors.RunsStayConsistent` | libs/MachineServiceComponent/src/FilamentTensionSensorService.cpp:152-166 | from a state in which the timer runs iff the tension is not Normal every run stays so |
| `TensionSensors.FilamentTensionSensorService.StartSensorObservation` | libs/MachineServiceComponent/src/FilamentTensionSensorService.cpp:68-95 | from Normal, with the edges and ticks that come while it starts; the timer as these decide; all three observers or none are left on |
| `TensionSensors.FilamentTensionSensorService.StopSensorObservation` | libs/MachineServiceComponent/src/FilamentTensionSensorService.cpp:97-103 | observers and timer are off; nothing is reported |
| `TensionSensors.FilamentTensionSensorService.RepeatFilamentTensionEvent` | libs/MachineServiceComponent/src/FilamentTensionSensorService.cpp:105-114 | repeats the tension iff it is Low or High |
| `TensionSensors.FilamentTensionSensorService.HandleFilamentTensionEvent` | libs/MachineServiceComponent/src/FilamentTensionSensorService.cpp:116-167 | the tension by edge and pin; a changed one is reported, and the timer then runs iff it is not Normal; else nothing changes |
| `TensionSensors.FailedStartLeavesTimerOnIff` | libs/MachineServiceComponent/src/FilamentTensionSensorService.cpp:79-92 | for every failing start: the timer stays on iff the last tension of the edges delivered meanwhile is not Normal, or none changed and it was on before |
| `TensionSensors.FailedStartExample` | libs/MachineServiceComponent/src/FilamentTensionSensorService.cpp:79-94 | such a start exists, and the successful start after it still has the timer on with the tension Normal |
| `HeaterServices.ChecksAfterSentinels` | libs/MachineServiceComponent/src/HeaterService.cpp:47-93 | the check does what a Schmitt trigger does on the samples after the leading sentinel values |
| `HeaterServices.RepeatedSampleKeepsTrigger` | libs/MachineServiceComponent/src/HeaterService.cpp:71 | a repeated sample does not change the trigger |
| `HeaterServices.SkippingRepeatsIsHarmless` | libs/MachineServiceComponent/src/HeaterService.cpp:67-93 | over any history not beginning with the sentinel, the last event is the trigger's state on all samples |
| `HeaterServices.SentinelMattersIff` | libs/MachineServiceComponent/src/HeaterService.cpp:47 | for all histories: check and trigger agree iff none of the leading samples is the sentinel or a later one reaches a limit |
| `HeaterServices.LastReportIff` | libs/MachineServiceComponent/src/HeaterService.cpp:67-93 | over all histories: the last report is the maximum iff some checked sample reached it and no later one fell to the minimum; the minimum likewise |
| `HeaterServices.HeaterService.UpdateHeaterTemperatureAndCheck` | libs/MachineServiceComponent/src/HeaterService.cpp:67-93 | reports the maximum iff the sample differs from the one checked before and reaches it, the minimum iff it differs, is below the maximum and at or below the minimum; the last report is the trigger's state |
| `Timers.ResyncFindsTheNextGridPoint` | libs/Common/include/Common/Timer.hpp:96-105 | a late wake-up time moves to the earliest grid point strictly after now, despite two truncations; the assertion holds |
| `Timers.PassesFollowReadings` | libs/Common/include/Common/Timer.hpp:91-117 | there are as many passes as tests that find the run flag set, and the handler is called where it is set after the wait |
| `Timers.HandlerIsCalledIff` | libs/Common/include/Common/Timer.hpp:91-117 | in which passes the handler is called, read off the run flag alone |
| `Timers.DeadlinesArePlanned` | libs/Common/include/Common/Timer.hpp:94-113 | a pass waits for one period after the pass before, or, if that has passed, for at most one period from now |
| `Timers.PassesStayOnGrid` | libs/Common/include/Common/Timer.hpp:91-118 | the deadlines of any passes are grid points with strictly growing numbers |
| `Timers.DeadlinesNeverDrift` | libs/Common/include/Common/Timer.hpp:87-118 | every deadline is start + k * period with k >= 1 strictly growing, whatever clock, handler and waits do |
| `Timers.CallsByCounts` | libs/Common/include/Common/Timer.hpp:115-118 | the calls by a time are the passes that called the handler and whose wait had ended |
| `Timers.CallsBoundedByGrid` | libs/Common/include/Common/Timer.hpp:107-117 | calls by time t are at most the grid points by t |
| `Timers.CallRateIsBounded` | libs/Common/include/Common/Timer.hpp:87-118 | without spurious wake-ups at most floor((t - start) / period) handler calls by time t |
| `Timers.StoppedPassesCallNothing` | libs/Common/include/Common/Timer.hpp:92-117 | once the run flag is cleared during pass i there are at most i + 1 passes, and no call from pass i on |
| `Timers.Timer.Start` | libs/Common/include/Common/Timer.hpp:84-120 | the thread makes exactly the specified passes, and never drifts |
| `Timers.Timer.Synchronise` | libs/Common/include/Common/Timer.hpp:96-105 | the new wake-up time, not in the past |
| `MotorServices.RoundTripIff` | libs/HardwareAbstractionLayerImpl/Rpi/src/StepperMotor.cpp:47-55 | a speed converted and back is itself if three divides it, else one less |
| `MotorServices.ConversionIsMonotone` | libs/HardwareAbstractionLayerImpl/Rpi/src/StepperMotor.cpp:47-50 | a higher speed never gives a lower velocity |
| `MotorServices.NoOverflowIff` | libs/HardwareAbstractionLayerImpl/Rpi/src/StepperMotor.cpp:47-55 | the 32-bit conversion is exact iff the speed is at most 134, and then neither way overflows |
| `MotorServices.SpeedReadBackIff` | libs/HardwareAbstractionLayerImpl/Rpi/src/StepperMotor.cpp:314-342 | for every unsigned speed: it is read back unchanged iff it is a multiple of three up to 134 forward, zero, or backward a number near 2^32 that wraps to such a multiple |
| `MotorServices.StepperMotor.SetSpeed` | libs/HardwareAbstractionLayerImpl/Rpi/src/StepperMotor.cpp:326-350 | rejects, unchanged, exactly speeds above the maximum; else the controller is sent bytes that decode to the signed velocity |
| `MotorServices.SetSpeedKeepsRangeIff` | libs/MachineServiceComponent/src/MotorService.cpp:50-66 | setting the speed keeps speed + offset in [0, max] iff min(speed, max) + offset is in it |
| `MotorServices.SetSpeedCanLeaveRange` | libs/MachineServiceComponent/src/MotorService.cpp:50-66 | it need not: for every positive maximum, on either side |
| `MotorServices.RequestSets` | libs/MachineServiceComponent/src/MotorService.cpp:50-107 | what one request sets: a speed at most the maximum, an effective speed moved as far as the range allows, or zero |
| `MotorServices.RequestOutcome` | libs/MachineServiceComponent/src/MotorService.cpp:50-107 | each request keeps speed and offset bounded, and ends in range iff it is no speed request or the offset allows it |
| `MotorServices.EveryRunIsBounded` | libs/MachineServiceComponent/src/MotorService.cpp:50-107 | the same after every run of requests |
| `MotorServices.OffsetRequestsSaturate` | libs/MachineServiceComponent/src/MotorService.cpp:73-80 | any run of offset requests moves the effective speed by the saturating fold over [0, max], and leaves the speed alone |
| `MotorServices.NothingCutOffIff` | libs/MachineServiceComponent/src/MotorService.cpp:75-78 | the fold is the plain sum all the way iff no partial sum leaves the range |
| `MotorServices.CastKeepsRange` | libs/MachineServiceComponent/src/MotorService.cpp:66-69 | the cast to unsigned neither hides a speed out of range nor changes one in range |
| `MotorServices.MotorService.SetMotorSpeed` | libs/MachineServiceComponent/src/MotorService.cpp:50-60 | the speed is the requested one, at most the maximum; succeeds iff the effective speed is in range and the controller takes it; then the controller was told it |
| `MotorServices.MotorService.ApplyMotorSpeed` | libs/MachineServiceComponent/src/MotorService.cpp:62-70 | the same, with the motor untouched when out of range |
| `MotorServices.MotorService.AddMotorOffsetSpeed` | libs/MachineServiceComponent/src/MotorService.cpp:73-80 | the effective speed moves by the offset, as far as the range allows, and is never rejected for its size |
| `MotorServices.MotorService.ResetMotor` | libs/MachineServiceComponent/src/MotorService.cpp:95-107 | both zero iff the motor could be reset, else unchanged |
| `TicControllers.DecodeInvertsEncode` | libs/HardwareAbstractionLayerImpl/Rpi/src/TicController.cpp:39-46 | little-endian decoding inverts encoding for every signed and unsigned 32-bit value |
| `TicControllers.EncodeInvertsDecode` | libs/HardwareAbstractionLayerImpl/Rpi/src/TicController.cpp:39-46 | and encoding inverts decoding, for every four bytes |
| `TicControllers.WriteToBuffer` | libs/HardwareAbstractionLayerImpl/Rpi/src/TicController.cpp:39-46 | the four base-256 digits of the value, lowest first, at the offset, all other bytes untouched |
| `TicControllers.TargetVelocityCommand` | libs/HardwareAbstractionLayerImpl/Rpi/src/TicController.cpp:164-172 | the command byte followed by bytes that decode to the velocity |
| `TicControllers.GetState` | libs/HardwareAbstractionLayerImpl/Rpi/src/TicController.cpp:379-399 | terminates; the requests made, every byte from its own register as it was at its request; what a failed request leaves |
| `TicControllers.RequestsTile` | libs/HardwareAbstractionLayerImpl/Rpi/src/TicController.cpp:382-396 | requests of 1 to 15 bytes that follow one another and end with the block |
| `TicControllers.CoveredOnce` | libs/HardwareAbstractionLayerImpl/Rpi/src/TicController.cpp:382-396 | each byte is covered by exactly one request |
| `TicControllers.GetUnchangedState` | libs/HardwareAbstractionLayerImpl/Rpi/src/TicController.cpp:379-399 | from memory that does not change meanwhile the read yields exactly it |
| `TicControllers.FieldWithinBlockIsWhole` | libs/HardwareAbstractionLayerImpl/Rpi/src/TicController.cpp:379-399 | a field inside one block is read as it stood at one instant |
| `TicControllers.VelocityIsWhole` | libs/HardwareAbstractionLayerImpl/Rpi/include/HardwareAbstractionLayer/TicController.hpp:92-118 | so are the current position and velocity |
| `TicControllers.CrossingFieldIsWholeIff` | libs/HardwareAbstractionLayerImpl/Rpi/src/TicController.cpp:379-399 | for every memory and every field that crosses a block: what is read is a value the field had at one of the two requests iff its part in the one block or in the other did not change between them |
| `TicControllers.OnlyTargetVelocityCanBeTorn` | libs/HardwareAbstractionLayerImpl/Rpi/include/HardwareAbstractionLayer/TicController.hpp:92-118 | of the 32-bit fields only the target velocity crosses one; it is torn iff its first byte and the others both changed |
| `TicControllers.TargetVelocityCanBeTorn` | libs/HardwareAbstractionLayerImpl/Rpi/include/HardwareAbstractionLayer/TicController.hpp:92-118 | such memories exist: 255 at the first and 256 at the second request are read as 511 |
| `ConfigurationFileParsers.GatherAddsOnePair` | libs/Common/src/ConfigurationFileParser.cpp:55-70 | pushing a value, to a new option or the last one, adds exactly its (name, value) pair at the end |
| `ConfigurationFileParsers.GatheringKeepsEveryValue` | libs/Common/src/ConfigurationFileParser.cpp:46-71 | gathering keeps all pairs in order; no option is empty, no neighbours share a name |
| `ConfigurationFileParsers.GatheringIsUnique` | libs/Common/src/ConfigurationFileParser.cpp:55-70 | there is only one such list of options for given pairs |
| `ConfigurationFileParsers.JsonParser.PushOption` | libs/Common/src/ConfigurationFileParser.cpp:46-71 | an empty prefix and an unregistered name are the two errors, changing nothing; else the pair comes last |
| `ConfigurationFileParsers.JsonParser.ParseChildren` | libs/Common/src/ConfigurationFileParser.cpp:73-94 | terminates; succeeds iff every visited value can be pushed, and has then gathered them in order; else the error is the first one's |
| `ConfigurationFileParsers.Parse` | libs/Common/src/ConfigurationFileParser.cpp:96-108 | the options of a whole file, written out, are its visited (path, value) pairs in order; fails iff a path is empty or not registered, with the error for the first such |
| `ConfigurationFileParsers.PrefixesAreThePaths` | libs/Common/src/ConfigurationFileParser.cpp:73-94 | exactly the values that names a, b, c lead to from the root are visited, each as .a.b.c |
| `ConfigurationFileParsers.SiblingsInOrder` | libs/Common/src/ConfigurationFileParser.cpp:81-93 | siblings are visited one after the other |
| `ConfigurationFileParsers.OneLeafIff` | libs/Common/src/ConfigurationFileParser.cpp:84-87 | what may stand below an unnamed member without losing values |
| `ConfigurationFileParsers.VisitedAreTheLeavesIff` | libs/Common/src/ConfigurationFileParser.cpp:73-94 | the visited values are all leaves of the tree iff no value is nested below an unnamed member |
| `ConfigurationFileParsers.NamedRootHasPrefixes` | libs/Common/src/ConfigurationFileParser.cpp:76-90 | below a root with only named members no prefix is empty |
| `DottedNames.SplitRebuilds` | libs/ServiceComponent/scripts/ServiceComponentParser.py:137 | the chunks of a name are dot-free and joined by dots are the name |
| `DottedNames.SplitInvertsJoin` | libs/ServiceComponent/scripts/ServiceComponentParser.py:137 | and splitting joined dot-free chunks gives them back |
| `ReceiverLists.AssignIsUpdate` | libs/ServiceComponent/scripts/ServiceComponentParser.py:64 | assignment to the dictionary changes one name's object and no other |
| `ReceiverLists.AssignKeepsPlaces` | libs/ServiceComponent/scripts/ServiceComponentParser.py:64 | a known name keeps its place in the dictionary, a new one comes last |
| `ReceiverLists.ParseDeclarations` | libs/ServiceComponent/scripts/ServiceComponentParser.py:42-64 | the loop builds the dictionary as specified, with distinct names that all refer to existing objects |
| `ReceiverLists.KnownIffDeclared` | libs/ServiceComponent/scripts/ServiceComponentParser.py:42-64 | a name is in the dictionary iff some declaration gives it and it does not start with an underscore |
| `ReceiverLists.RejectedIffDangling` | libs/ServiceComponent/scripts/ServiceComponentParser.py:43-63 | the loop fails iff some component without a leading underscore uses a name that has one or that no earlier declaration gives |
| `ReceiverLists.LastDeclarationCounts` | libs/ServiceComponent/scripts/ServiceComponentParser.py:59-64 | a name's object is the component of its last declaration, or the very object the used name stood for there |
| `ReceiverLists.ValidateMessages` | libs/ServiceComponent/scripts/ServiceComponentParser.py:134-157 | passes iff every inbound notification resolves to a publisher's outbound one and no request or outbound name has a dot |
| `ReceiverLists.TargetIsNamed` | libs/ServiceComponent/scripts/ServiceComponentParser.py:156-165 | with distinct outbound names, a notification resolves to a list iff it is component-dot-name of it, under any alias |
| `ReceiverLists.ResolvesIffNamed` | libs/ServiceComponent/scripts/ServiceComponentParser.py:162-165 | without that condition: iff it names the object and the first of its outbound notifications of that name |
| `ReceiverLists.ResolvesIffJoined` | libs/ServiceComponent/scripts/ServiceComponentParser.py:136-165 | the same without splitting: iff it is a name of the object, a dot, and the name of its first such outbound notification, both without dots |
| `ReceiverLists.AppendingDelivers` | libs/ServiceComponent/scripts/ServiceComponentParser.py:159-166 | appending one by one leaves each list extended by its own receivers in order, and the total by their number |
| `ReceiverLists.OneDeliveryPerInbound` | libs/ServiceComponent/scripts/ServiceComponentParser.py:159-166 | one delivery per inbound notification and name of a component |
| `ReceiverLists.EveryListIsComplete` | libs/ServiceComponent/scripts/ServiceComponentParser.py:134-166 | after validation each list holds, in dictionary order, every name once per notification that resolves to it; totals agree |
| `ReceiverLists.DeliveriesAreTheReceivers` | libs/ServiceComponent/scripts/ServiceComponentParser.py:159-166 | what is delivered to a list is, entry by entry, the name as often as its inbound notifications name that list |
| `ReceiverLists.ListIsExact` | libs/ServiceComponent/scripts/ServiceComponentParser.py:134-166 | each list holds each name of the dictionary as often as one of its inbound notifications goes to that list, no other name, and in the dictionary's order |
| `ReceiverLists.ReceiverListBuilder.CreateReceiverLists` | libs/ServiceComponent/scripts/ServiceComponentParser.py:159-166 | never fails after validation, and makes exactly those deliveries |
| `ReceiverLists.ReceiverListBuilder.DeliverNotification` | libs/ServiceComponent/scripts/ServiceComponentParser.py:162-166 | appends the component's name to the one list the notification resolves to; fails iff there is none |
| `ReceiverLists.GenerateReceiverLists` | libs/ServiceComponent/scripts/ServiceComponentParser.py:42-57 | from declarations to lists: fails iff a declaration uses an unknown name or a message is invalid; else every list is as just said, and the totals agree |
| `StringTokenizers.IStringStream.GetLine` | libs/Common/include/Common/StringTokenizer.hpp:76-81 | the token up to the delimiter or the end, and where the stream stands; fails iff it was at the end |
| `StringTokenizers.SplitString` | libs/Common/include/Common/StringTokenizer.hpp:58-64 | reading until failure gives the tokens of the specification |
| `StringTokenizers.SplitRebuilds` | libs/Common/include/Common/StringTokenizer.hpp:58-81 | tokens are delimiter-free and, each followed by the delimiter, rebuild the input up to one final delimiter |
| `StringTokenizers.SplitInvertsTerminated` | libs/Common/include/Common/StringTokenizer.hpp:58-81 | splitting terminated delimiter-free tokens gives them back |
| `StringTokenizers.SameTokensIff` | libs/Common/include/Common/StringTokenizer.hpp:58-81 | two strings have the same tokens iff they are equal up to the final delimiter |
| `StringTokenizers.FinalDelimiterIsIgnored` | libs/Common/include/Common/StringTokenizer.hpp:76-81 | a final delimiter adds no token |
| `StringTokenizers.ReceiverAndMethod` | libs/ServiceGateway/src/ServiceGateway.cpp:129-133 | a method name is accepted iff it is a.m or a.m. with non-empty dot-free parts, which are then the result |
| `StringTokenizers.AcceptedIff` | libs/ServiceGateway/src/ServiceGateway.cpp:129-133 | the gateway's test on the tokens says exactly that |

## Where code and expectation differ

- The capacity of a queue is one less than the size it is given (`EventQueues.CapacityIsOneLess`).
- "The motor speed stays in its allowed range": only under the condition of `SetSpeedKeepsRangeIff`.
- Conflicting rules are accepted and the later one is dead (`ConflictingRulesAreAccepted`).
- A forward that failed is answered without an error, except in one case (`LostForwardIsAnErrorIff`).
- A failed disconnect keeps a slot occupied (`SlotsAlwaysUsedIff`), and a reused slot can have two
  receives armed (`AlwaysSingleReceivesIff`, `ReusedSlotReceivesTwice`).
- A failed subscription can leave its socket connected, and a later address reuses that socket
  (`NothingEverLeakedIff`, `ReusedSlotHearsTwoAddresses`).
- Different subscriptions can share an identifier, and one is then refused or removed for the other
  (`CollidingTopics`, `AlwaysRefinesIff`).
- The repeat timer can stay on after a failed start (`FailedStartLeavesTimerOnIff`).
- Stopping can lose the wake-up of the event loop (`StopEndsTheLoopIff`).
- A state machine can reach Running, or HeatedUp, on an old success (`RunningWithoutUnits`,
  `HeatedUpWithoutHeat`). A unit that stops by itself while the machine runs, as a coil does that pauses
  on overload, pushes a check without a transition (`PausedCoilIsUnhandled`); so does the second success
  when both units stop before their checks are processed (`TwoStoppingChecks`).
- An error answer that `createErrorResponseMessage` makes carries its reason in the payload, and `null`
  where the response has its error (libs/MessageBroker/include/MessageBroker/MessageHelper.hpp:83-89).
- The target velocity in the state structure can be read as a mixture of two values
  (`OnlyTargetVelocityCanBeTorn`). Nothing in the repository reads that field of the structure.

## Left out

- Threads, mutexes and joins as such: handlers, actions and operations under a mutex are atomic, and
  no freedom from deadlock is claimed. The interleavings of stop and event loop are modelled step by step.
- ZeroMQ, asio, protobuf, JSON parsing, GPIO and I2C: each call is an input that says whether it
  succeeds, or a device memory.
- Regular expressions: matching is an arbitrary predicate on pattern and state.
- The text of the generated C++ and its compilation: a table entry stands for its line of source.
- User interface, remote control, logger, service locator, execution groups, the simulator, the
  temperature converter and the registration of options: plumbing, or easy members only.
- Sequence numbers of a broker that other threads use during a forward: one request at a time.
- An event without a transition stops builds with assertions; the model takes the other builds,
  where it is dropped, and reports it as `Unhandled`.
- Subscribers.Subscriber.SubscribeTo: that an address is not empty is a requirement, as the source asserts it;
  a disconnect is taken to close all connections of the socket to the address.
- Subscribers.Subscriber.UnsubscribeFrom: the source reads the map entry after erasing it; the model
  takes the value it had.
- Timers.Timer.Start: periods are whole milliseconds, as for the alias `Timer`; clock values are unbounded.
- MotorServices.MotorService.SetMotorSpeed: an overflow of the signed products is taken to wrap, and
  the maximum to fit a signed integer; builds with assertions stop when the range is exceeded.
- MotorServices.MotorService.AddMotorOffsetSpeed: the sum is computed without a bound.
- TensionSensors.FilamentTensionSensorService.HandleFilamentTensionEvent: the repeat timer always starts.
- TableCompiler.StateMachineParser.ParseTransition: what the list holds after a repeated transition
  was found is not said; the exception ends the generator.
- ReceiverLists.GenerateReceiverLists: the source also ends with an error at a bad state machine section,
  which `TableCompiler` models, and at a message with both an event and a forward; here each declaration
  is read already.
- ReceiverLists.ReceiverListBuilder.CreateReceiverLists: which exception ends an unvalidated build is not said.
- MachineControlRuns.RunningWithoutUnits: the table is written out with its patterns resolved by hand,
  and when units notify is arbitrary: a coil that pauses on overload notifies more than once.
- FilamentMergerControlRuns.HeatedUpWithoutHeat: the table is likewise resolved by hand; what
  actions push, other than HeatingUpSucceeded, is arbitrary.
- EventQueues.EventQueue.Push: the size of the queue does not wrap around.
