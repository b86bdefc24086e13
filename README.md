# simplebroker in Dafny

A Dafny model of the sequential core of simplebroker, a small HTTP message
broker written in Go. Named queues of string messages are created on the first
write. A reader waits up to a timeout for the next message.

- `errors.dfy` (module `Errors`): the broker's two sentinel errors,
  `NoMessage` and `TooManyItems`. It also has `Other`, which stands for any
  other error the HTTP layer may receive, plus Go's `error` result as
  `Outcome` and an `Option`.
- `lists.dfy` (module `Lists`): the generic `listAdapter` as a FIFO sequence,
  with Push, Pop, Peek, Len, Empty and their FIFO law.
- `queue.dfy` (module `Queue`): the per-queue engine `queueImpl`. Its
  `dispatch` goroutine applies three kinds of event, one at a time, to two
  FIFO lists:
  - put a message: refused at the capacity, otherwise appended, then delivery
    runs;
  - register a waiting reader: appended, then delivery runs;
  - expire a reader: told `NoMessage` and removed.

  Delivery (`deliverMessages`) pairs the oldest reader with the oldest message
  until one list is empty.

  The module holds two descriptions of the engine:
  - a specification on values: the state `Snapshot`, the functions `OnPut`,
    `OnRegister`, `OnExpire`, `Deliver` and `Run`, and lemmas about them;
  - the class `Engine`, whose methods update the two lists in place and are
    proved to move the state exactly as those functions say.

  The specification carries ghost history: a delivery log and the accepted
  messages. This states conservation: every accepted message is delivered once
  or still queued once. It also states FIFO fairness: readers are served in
  arrival order, none twice.
- `manager.dfy` (module `Manager`): the registry `queueManagerImpl`, a class
  whose field maps queue names to `Engine` objects.
  - `Put` creates an engine on the first write to a name, but only while the
    number of names is below `MaxQueueNum`.
  - `Get` never creates one; an unknown name reads as an empty queue.
- `strconv.dfy` (module `Strconv`): Go's `strconv.Atoi`, as the handler uses
  it to read the `timeout` parameter, with the decimal round trip.
- `handler.dfy` (module `Handler`): the decisions of the HTTP handler:
  - `getName` path parsing, over a model of `strings.Split`;
  - the GET timeout rule;
  - whether the registry is called at all;
  - the mapping from registry results to status codes 200, 400, 404, 429 and
    500. 429 is "Too Many Requests", section 4 of RFC 6585.

  The registry appears as two function parameters standing for
  `QueueManager.Get` and `QueueManager.Put`.

The source's unit tests are restated as verified scenarios:
- `Queue.FillAndDrain`;
- `Manager.FillRegistry` and `Manager.GetPutGet`;
- the request lemmas of `Handler`, generalised from the tests' fixed names
  to any name.

## Model

| member | source | states |
|---|---|---|
| Lists.Push | queue/queue.go:78-80 | the element goes to the back; every earlier element keeps its place |
| Lists.Pop | queue/queue.go:82-84 | the front element and the rest together make up the list (Pop is only called on a non-empty list) |
| Lists.Peek | queue/queue.go:94-96 | Peek returns what Pop would remove |
| Errors.Err | queue/errors.go:7-10 | the two sentinel errors `ErrNoMessage` and `ErrTooManyItems` as distinct values, plus `Other` for any other error the handler may receive; each constructor stands for the errors that match it under `errors.Is`, the test the handler applies (handler/handler.go:79, 103) |
| Lists.Len | queue/queue.go:90-92 | the length is zero exactly for the empty list; that it counts the elements is stated by `PushPopLen` |
| Lists.Empty | queue/queue.go:86-88 | Empty holds exactly when Len is zero |
| Lists.PushPop | queue/queue.go:78-84 | FIFO law: Push at the back does not change what Pop takes from the front; an element pushed onto an empty list is popped next |
| Lists.PushPopLen | queue/queue.go:78-92 | Len counts the elements: Push adds exactly one and Pop removes exactly one, which is the count the capacity check of Put compares |
| Queue.Deliver | queue/queue.go:184-188 | the loop ends with no message and reader waiting side by side, hands out no identifiers and never lengthens either list; its exact result is stated by `DeliverPairs` and `DeliverConserves` |
| Queue.DeliverOneConserves | queue/queue.go:186 | one send moves the oldest reader and the oldest message into the log, losing and reordering nothing |
| Queue.DeliverConserves | queue/queue.go:184-188 | after delivery no message and reader coexist; the sequences of served-then-waiting readers and delivered-then-queued messages are unchanged; the backlog does not grow |
| Queue.DeliverPairs | queue/queue.go:185-186 | with k = min(messages, readers): the i-th oldest reader gets the i-th oldest message for i < k, and the unmatched suffixes stay in their original order |
| Queue.DeliverInv | queue/queue.go:184-188 | delivery keeps the capacity bound and strict arrival order, and ends quiescent |
| Queue.DeliverQuiescent | queue/queue.go:185 | when one list is already empty, delivery changes nothing |
| Queue.OnPut | queue/queue.go:154-166 | a put is confirmed with nil exactly when the backlog is below the capacity, otherwise it is TooManyItems; delivery runs after either answer, so the state ends quiescent, and a refusal on a quiescent state leaves it as it was; full behaviour stated by `PutSpec` |
| Queue.OnRegister | queue/queue.go:167-172 | the new reader's identifier is the next one and the counter moves past it; the state ends quiescent and the backlog does not grow; full behaviour stated by `RegisterSpec` |
| Queue.Without | queue/queue.go:178 | the reader is absent afterwards, nothing new appears, and the list does not grow; exact result stated by `WithoutAt` and `WithoutAbsent` |
| Queue.OnExpire | queue/queue.go:173-178 | the reader is told NoMessage and is no longer waiting; the backlog, the delivery log and the identifier counter are untouched; full behaviour stated by `ExpireSpec` |
| Queue.PutSpec | queue/queue.go:154-166 | at the capacity Put answers TooManyItems and changes nothing; below it Put answers nil and the message is appended, or handed to the oldest waiting reader if there is one; the bound, order and conservation invariants are kept |
| Queue.RegisterSpec | queue/queue.go:167-172 | a new reader gets a fresh identifier above every earlier one; it is appended at the tail, or served the oldest message at once if one is queued; invariants kept |
| Queue.ExpireSpec | queue/queue.go:173-178 | expiry sends NoMessage and takes out only that reader, keeping the others' order; the backlog and log are untouched; for a reader already served nothing changes |
| Queue.ExpireAt | queue/queue.go:178 | removing the reader at position i leaves exactly the list without position i, and keeps the invariant |
| Queue.WithoutAbsent | queue/queue.go:178 | `list.Remove` of an element no longer in the list leaves the list as it is |
| Queue.WithoutAt | queue/queue.go:178 | removing an element that occurs once takes out that entry only |
| Queue.GetNow | queue/queue.go:114-131 | a lone Get answers either nil or ("", NoMessage) and registers exactly one reader; what it returns is stated by `GetNowSpec` |
| Queue.GetNowSpec | queue/queue.go:114-131 | a Get running alone returns the oldest message and removes it; on an empty queue it returns ("", NoMessage) and leaves the backlog and the waiting readers as they were |
| Queue.GetNowExpires | queue/queue.go:114-131 | on an empty backlog the new reader is not served, expires, and leaves readers, backlog and log as they were, with ("", NoMessage) |
| Queue.SelectAsWritten | queue/queue.go:126-129 | nil is returned only with the message `msgCh` holds; when `msgCh` holds a message and either `errCh` is empty or Go picks `msgCh`, the answer is (that message, nil); when `errCh` holds a value and Go picks it, or `msgCh` is empty, the answer is ("", that error) |
| Queue.Select | queue/queue.go:126-129 | the corrected select: nil exactly when `msgCh` holds a message, and then that message; when only one channel holds a value it agrees with the select as written whichever case Go would pick |
| Queue.RaceState | queue/queue.go:167-178 | a reader registered on an empty queue, served by a put, then expired: its `msgCh` holds the message, its `errCh` holds NoMessage, and the message has left the backlog as delivered |
| Queue.LostMessage | queue/queue.go:126-129 | on that schedule the select as written, taking `errCh`, returns ("", NoMessage) although the message was delivered to this reader and to no one else |
| Queue.RaceDelivered | queue/queue.go:126-129 | on the same schedule the corrected select returns the delivered message |
| Queue.Apply | queue/queue.go:150-179 | each event gets the reply of its own kind, and an expiry always answers NoMessage; invariants stated by `ApplySpec` |
| Queue.Run | queue/queue.go:148-181 | one reply per event, in event order; conservation over the whole stream stated by `RunConserves` and `ExactlyOnce` |
| Queue.ApplySpec | queue/queue.go:150-179 | each event keeps the invariants, and adds to the accepted stream exactly the message of a put confirmed with nil |
| Queue.RunConserves | queue/queue.go:148-181 | over any sequence of events: invariants hold; delivered-then-queued messages equal the start's plus every message whose put was confirmed, in order |
| Queue.ExactlyOnce | queue/queue.go:154-188 | starting empty, each accepted message occurs among delivered plus queued messages exactly as often as it was accepted |
| Queue.Engine.constructor | queue/queue.go:51-65 | a new engine is empty, with the given capacity, and satisfies the invariants |
| Queue.Engine.DeliverMessages | queue/queue.go:184-188 | the loop leaves the engine in the state `Deliver` gives and returns the sends it made, in order; invariants kept |
| Queue.Engine.Put | queue/queue.go:154-166 | the new state and confirmation are those of `OnPut`; the accepted history grows by the message exactly when it was confirmed |
| Queue.Engine.Register | queue/queue.go:167-172 | the new state and reader are those of `OnRegister`; the reader's channel holds what delivery sent it |
| Queue.Engine.Expire | queue/queue.go:173-178 | the new state and signal are those of `OnExpire` |
| Queue.Engine.Get | queue/queue.go:114-131 | the result is that of `GetNow`: the oldest message, or ("", NoMessage) with the backlog left empty; the answer goes through the select as written, where Go's choice cannot arise because only one channel ever holds a value |
| Queue.Engine.Step | queue/queue.go:150-179 | one event moves the engine as `Apply` says |
| Queue.Engine.Dispatch | queue/queue.go:148-181 | the loop over a stream of events ends in the state `Run` gives, one reply per event; accepted history grows by the confirmed puts |
| Queue.FillAndDrain | queue/queue_test.go:18-52 | on a queue of capacity N: N puts succeed, one more is refused with TooManyItems, N gets return the N messages in order, the next get returns ("", NoMessage) |
| Queue.Fill | queue/queue_test.go:23-28 | N puts to an empty queue of capacity N all succeed and leave the N messages queued in order |
| Queue.Drain | queue/queue_test.go:35-44 | N gets on a queue holding N messages return them in order, all with nil |
| Manager.Config | queue/manager.go:22-25 | the two limits of the registry, the number of queue names and the backlog capacity of each queue; `QueueManager.Valid` keeps both |
| Manager.QueueManager.constructor | queue/manager.go:34-40 | a new registry is empty, with the given configuration |
| Manager.QueueManager.Get | queue/manager.go:50-63 | an unknown name gives ("", NoMessage); a known name gives that engine's Get; no entry is ever added |
| Manager.QueueManager.Put | queue/manager.go:65-94 | a known name skips the cap check and returns its engine's answer; an unknown name at the cap gets TooManyItems and nothing changes; an unknown name below the cap gets exactly one fresh engine of the per-queue capacity, which takes the message; no entry is removed or replaced; the cap and engine invariants are kept |
| Manager.QueueManager.Create | queue/manager.go:73-88 | the exclusive section: refuse at the cap, otherwise add one new empty engine under the name |
| Manager.QueueManager.Insert | queue/manager.go:86 | the map gains exactly the new entry |
| Manager.QueueManager.Delegate | queue/manager.go:93 | the engine's answer is passed on unchanged, and no other engine is touched |
| Manager.PutUnseen | queue/manager_test.go:95 | a put to a new name below the cap succeeds and adds exactly that name |
| Manager.FillRegistry | queue/manager_test.go:76-104 | with a cap of N names, puts to N distinct names succeed and a put to one more name fails with TooManyItems |
| Manager.GetPutGet | queue/manager_test.go:57-71 | on a fresh name: Get gives NoMessage, Put succeeds, and the next Get returns the message just put |
| Strconv.Atoi | handler/handler.go:61 | a parsed value lies in the 64-bit range and comes from non-empty text |
| Strconv.AtoiItoa | handler/handler.go:61 | the decimal form of any 64-bit integer parses back to it |
| Strconv.AtoiRejectsOtherChars | handler/handler.go:61-65 | text holding a character that is neither a digit nor a leading sign never parses |
| Strconv.AtoiRejectsOutOfRange | handler/handler.go:61-65 | decimal forms of values beyond 64 bits do not parse |
| Handler.LastSlashBelow | handler/handler.go:117 | the position found holds '/' and no later position does |
| Handler.LastSlash | handler/handler.go:117 | the index is -1 or holds '/', and no '/' follows it in the whole path |
| Handler.SplitBelow | handler/handler.go:117 | there is at least one piece, the last piece is the text after the last '/', and no piece contains '/' |
| Handler.Split | handler/handler.go:117 | `strings.Split` on '/' gives at least one piece; with `SplitJoin` and `SplitBelow` the pieces are exactly the separator-free stretches of the path |
| Handler.SplitJoin | handler/handler.go:117 | joining the pieces with '/' gives the path back |
| Handler.GetName | handler/handler.go:113-125 | a name never contains '/'; which text it is is stated by `GetNameLastSlash` |
| Handler.GetNameLastSlash | handler/handler.go:113-125 | the name is the text after the last '/', unless there is no '/', or it opens the path, or it follows another '/'; in those cases the name is "" |
| Handler.GetNameUnder | handler/handler.go:113-125 | "dir/name", with dir non-empty and not ending in '/', yields name; "/name" yields "" |
| Handler.TrailingSlashNameless | handler/handler.go:121-123 | any path ending in '/', such as "/queue/", yields "" |
| Handler.RootPieceNameless | handler/handler.go:118-123 | a single piece under the root, such as "/queue", yields "" |
| Handler.GetTimeout | handler/handler.go:54-72 | an absent parameter gives the default; otherwise a timeout is accepted exactly when the text parses as an integer and is positive, and it is that integer, at most the 64-bit maximum |
| Handler.ValidateGet | handler/handler.go:55-72 | an empty name makes the GET invalid whatever the timeout; a non-empty name leaves the decision to the timeout rule of `GetTimeout` |
| Handler.TimeoutRule | handler/handler.go:54-72 | an absent parameter gives the default timeout; a positive 64-bit value is used as given; zero or negative makes the request invalid |
| Handler.TimeoutRejectsText | handler/handler.go:59-65 | a parameter holding a character that is neither a digit nor a leading sign makes the request invalid |
| Handler.TimeoutRejectsLoneSign | handler/handler.go:59-65 | a parameter that is only "+" or "-", with no digits, does not parse and makes the request invalid |
| Handler.GetStatus | handler/handler.go:77-90 | 200 exactly on success, 404 exactly on NoMessage, 500 otherwise |
| Handler.PutStatus | handler/handler.go:102-110 | 200 exactly on success, 429 exactly on TooManyItems, 500 otherwise |
| Handler.ServeHTTP | handler/handler.go:39-111 | no call means 400 with no body; a GET call only with a non-empty name; a PUT call only for a decodable body, carrying its message; any other method makes no call; the full case analysis, including the response to every call, is stated by `CallsOnlyValid` and `CallArguments` |
| Handler.CallsOnlyValid | handler/handler.go:39-111 | the registry is called exactly for a GET with a name and a usable timeout, or a PUT whose body decodes; every other request gets 400 and no call |
| Handler.CallArguments | handler/handler.go:51-110 | a GET passes the parsed name (never empty) and the effective timeout, and answers `GetStatus` of the registry's error (200 on nil, 404 on NoMessage, 500 otherwise), with the message as body exactly on nil; a PUT passes the parsed name, even an empty one, and the decoded message, and answers `PutStatus` of the result with no body |
| Handler.OtherMethods | handler/handler.go:45-46 | any method other than GET or PUT gets 400 without a call |
| Handler.InvalidGetNames | handler/handler_test.go:172-213 | a GET of "<dir>/" or "/<name>" gets 400 and the registry is not called |
| Handler.InvalidGetTimeouts | handler/handler_test.go:180-213 | a GET with timeout "some_string", "-1" or "0" gets 400 and the registry is not called |
| Handler.ValidGetRequests | handler/handler_test.go:65-165 | a GET of "/queue/<name>" with timeout 5 calls the registry with (name, 5) and answers its result; without a timeout it calls with (name, default) and answers that result the same way |
| Handler.PutRequests | handler/handler_test.go:218-331 | a PUT with a decodable body calls the registry with the parsed name and the message, even for "<dir>/"; an undecodable body gets 400 and no call |

## Left out

- Goroutines, channels, the dispatch `select`, the read/write lock, the `done` channel and
  `Stop` (queue/queue.go:143-153, queue/manager.go:96-102): concurrency
  plumbing. The dispatch loop is modelled as sequential event application, and
  the registry's double-checked lookup as one lookup followed by the insert.
- Queue.GetNow: models a Get with nothing else happening between its
  registration and its deadline. The interleaving in which a delivery and the
  deadline both happen before the caller's `select` is covered only by the
  schedule under "## Findings".
- Manager.QueueManager.Get: drops the `timeout` argument and the context
  deadline (queue/manager.go:51-52); expiry is an explicit event. The
  conversion `time.Duration(timeout)*time.Second` is not modelled: it wraps
  around the 64-bit nanosecond count for timeouts above 9223372036 seconds,
  which `GetTimeout` accepts, so such a GET gets an arbitrary deadline, often
  one already passed. For the schedule under "## Findings" this only removes
  the wait for the deadline: the caller must still be delayed between its
  registration (queue/queue.go:117) and its `select` (queue/queue.go:126)
  while dispatch handles both the put and the expiry.
- Wrapped or joined errors: the handler's `errors.Is` would match a sentinel
  wrapped inside another error, but the registry and the engine only ever
  return the sentinels themselves, so `Errors.Err` has no wrapped forms.
- Waiter identities are natural numbers handed out in arrival order. They
  stand for the `*getWaitStatus` pointers and `*list.Element` handles of the
  source; the pointer mechanics and O(1) removal of `container/list` are
  represented by sequence operations.
- The factory injection of `newQueueManager` (queue/manager.go:28-40): the
  registry builds `Engine` objects directly.
- Handler.ServeHTTP: the `http.ResponseWriter`, JSON decoding and encoding,
  and logging are I/O. A request carries the decoded `message` field, or None
  when the body does not decode. A failure to encode the GET response, which
  would give 500, is not modelled.
- Handler.PutStatus: after TooManyItems the source writes a second error
  without returning (handler/handler.go:106-109). `net/http` keeps the first
  status, so the status is modelled as 429; the doubled body text and the
  superfluous-write log line are not modelled.
- URL query decoding (`r.URL.Query()`): the request holds the already decoded
  `timeout` value, "" when absent.
- `Setup` and route registration (handler/handler.go:23-32), `main.go` (flag
  parsing, server start-up, signals) and `test.py` (a manual script over
  HTTP): outside the core.

## Findings

| source | as written | input that shows it | evidently intended | confidence | as-written member | corrected member |
|---|---|---|---|---|---|---|
| queue/queue.go:126-129 | Get waits with `select` on `msgCh` and `errCh`. When both hold a value, Go picks one at random, and on `errCh` the delivered message is dropped | Get on an empty queue. A Put is delivered to the waiting reader, then the reader's deadline passes and the expiry is processed, all before the caller's `select` runs; `select` then takes `errCh` | a message delivered to a reader is returned to that reader, so no accepted message is lost | not executed; the schedule needs the deadline to fall between the delivery and the caller's `select` | Queue.LostMessage (on Queue.SelectAsWritten) | Queue.RaceDelivered (on Queue.Select; in the sequential Queue.Engine.Get only one channel holds a value, where Select agrees with the select as written by its contract) |
