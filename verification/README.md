# Hand-built concurrent protocols, modelled and proved

The repository is a set of C systems exercises. What is hard in it are its protocols: small
pieces of code, built from mutexes, semaphores, condition variables and shared memory, whose
properties have to hold for every interleaving. This project models them and proves those
properties in Dafny 4.11:

    dafny verify dfyconfig.toml

## How the protocols are modelled

A protocol has a state, a datatype with the shared variables and one program counter per thread,
and a function `Step(s, e)` that gives the state after event `e`, or `None` when the event cannot
happen: a mutex that is taken, a semaphore at 0, a thread that is asleep. A schedule is a sequence
of events, `Runs.Exec` runs it, and a theorem about every schedule is a theorem about every
interleaving. `Runs` proves once what every run keeps, that a falling measure bounds the length of
every run, and that runs compose. `Tally` counts threads by where they stand.

* A `pthread_cond_wait` releases its mutex and falls asleep in one step, and takes the mutex again
  after waking. `pthread_cond_signal` wakes one sleeper, whichever, if there is one;
  `pthread_cond_broadcast` wakes them all. Spurious wakeups are events of their own: the safety
  theorems include them, the theorems that runs end exclude them.
* Loads and stores are sequentially consistent. Code between lock and unlock that only touches
  what the mutex guards is one step, or several where the point is that others move in between.
* The number of threads, cells, seats, iterations and so on is a parameter everywhere.
* Fields like `puts` and `taken` in a state are history: they record what happened, in order, and
  no step looks at them.

Next to each protocol stands the C code it is made of, as classes over arrays, linked nodes and
fields whose methods update them in place. Each method is proved to do to the fields what the
steps of the protocol, or a function of the old contents, say.

| file | source | what is in it |
|---|---|---|
| MessageRing, QueueStruct | msgqueue.c, msgqueue.h | the ring of message cells, byte by byte; `queue_t` as a class |
| MessageQueue, MessageQueueFifo, MessageQueueOrder, MessageQueueDrop | msgqueue.c | puts, gets and drops in every interleaving |
| RequestPool | pr12task2.c | request queue with two mutexes |
| TaskPool | pr12task1.c | bounded task queue |
| JobPool, JobPoolShutdown | proxy2.c | worker pool and ownership of descriptors; its shutdown |
| LinkedQueues | pr12task2.c, pr12task1.c, proxy2.c | the three linked queues on the heap |
| RoundTable, OrderedPhilosophers, TrylockPhilosophers | pr13task3-1.c, pr13task3-2.c | dining philosophers, twice |
| RacyCounter | pr10t1.c, pr11task3.c | counter without a lock |
| LockedWork | pr11task4.c, pr10t2.c, pr11task3.c | counters and sums under a lock |
| Mailbox | pr9t1wr.c, pr9t1re.c | one-slot mailbox in shared memory |
| CatBowl | pr13task2.c | monitor with two conditions |
| EmployeeRecords | pr11task2.c | record copied field by field |
| AssemblyLine | pr15task1.c | semaphore pipeline |
| ProxyTable | proxy.c | slot table and byte buffers |
| Composites, LargePrime | pr5t4.c | trial division; an input on which it overflows |

## What the code does not do

Some properties one might expect are false of the code. The model keeps the code, shows an
input on which each fails, and states exactly when it holds:

* `msgqueue.c`: a get whose buffer is as large as it says can still write past it. It does exactly
  when the size is 0: `bufsize - 1` wraps on `size_t` and nothing is cut
  (`QueueStruct.Queue.Get`, `MessageRing.CopyFits`).
* `pr9t1wr.c`: a line of SHM_SIZE-1 bytes, which `fgets` can deliver, leaves no NUL before the
  flag, and the reader prints the flag with it (`Mailbox.OverlongLineIsSpoilt`). What is printed
  is a prefix of what was typed in every run exactly if every line before the first "exit" has
  at most SHM_SIZE-2 bytes (`Mailbox.PrefixIffFitting`).
* `pr5t4.c`: `j * j` leaves the range of `int` exactly when some entry is a prime of at least
  46340 * 46340 (`Composites.Scan`). There is such an `int`: 2147453309
  (`LargePrime.LargePrimeOverflows`).
* `proxy.c`: with a full buffer `read` is asked for 0 bytes and returns 0, and the connection is
  closed as if the peer had gone, with its bytes unsent. While the peer has bytes waiting, a read
  closes the connection exactly when the buffer is full (`ProxyTable.FullBufferClosesConnection`),
  and a client that sends enough gets there (`ProxyTable.FullBufferLosesBytes`).
* `proxy2.c`: not every worker leaves at shutdown. The flag and the broadcast come without the
  queue mutex; a worker leaves exactly if it does not stand between its check and its sleep at the
  broadcast (`JobPoolShutdown.WorkersExitUnlessLate`), and one can stand there
  (`JobPoolShutdown.LostWakeupAtShutdown`).
* `pr12task1.c`: messages are rejected in some run exactly if more are offered in all than the
  queue has room for (`TaskPool.NoneRejectedIff`).
* `pr10t1.c`, `pr11task3.c`: increments are lost unless there is only one thread or nothing to do
  (`RacyCounter.NothingLostIff`); for any number of threads and rounds the values the counter can
  end at are known exactly (`RacyCounter.FinalValues`).

## Model

| member | source | states |
|---|---|---|
| MessageRing.StrNLen | msgqueue.c:46 | no NUL lies below the length returned, and a NUL lies at it unless the bound or the end of the region came first |
| MessageRing.StoreThenRead | msgqueue.c:46-50 | whatever a cell held before, reading it back after a put gives the first 80 bytes of the message, or all of it if shorter |
| MessageRing.EnqueueAppends | msgqueue.c:46-53 | while there is room, a put appends to the sequence of messages the ring holds from `head`, across the wrap |
| MessageRing.DequeueDropsFirst | msgqueue.c:78-86 | a get from a ring that is not empty delivers the cut oldest message and leaves the others in order |
| QueueStruct.Queue.constructor | msgqueue.c:3-28 | a fresh queue is empty, `full` is 0, `empty` is the capacity and it is not dropped |
| QueueStruct.Queue.Put | msgqueue.c:38-55 | on the real arrays: a dropped queue is left alone and 0 returned; otherwise the ring gains the message and the number of bytes kept is returned |
| QueueStruct.Queue.Get | msgqueue.c:70-88 | on the real arrays, for any `bufsize`: a dropped queue and the caller's buffer are left alone; otherwise the copy and its NUL run past the buffer exactly if they are longer than it, which they never are for a true size of at least 1, and if not the buffer gets the cut text, a NUL, and keeps its other bytes |
| QueueStruct.Queue.Drop | msgqueue.c:95-125 | with no other thread the three loops leave twice the capacity in `empty` and the capacity plus twice its old value in `full`, and the ring untouched; on a queue already dropped nothing changes, whatever its semaphores are |
| MessageQueue.InitInv | msgqueue.c:3-28 | the initial queue satisfies the invariant of the protocol |
| MessageQueue.StepIsLocal | msgqueue.c:30-125 | whatever a step of any call does, no other thread moves, the mutex is taken only when free and given back only by its holder, and permits change hands without loss except for the posts of a drop |
| MessageQueue.CriticalSectionsAreSafe | msgqueue.c:38-53 | although nothing checks `count`, a put in its critical section sees room and a get sees a message |
| MessageQueue.StepInv | msgqueue.c:30-125 | every step of every put, get and drop keeps mutual exclusion, the accounts of both semaphores, the progress of a drop and the FIFO relation |
| MessageQueue.Reachable | msgqueue.c:3-125 | the invariant holds after every schedule from the initial queue |
| MessageQueue.PermitsBeforeDrop | msgqueue.c:33-90 | empty + full + permits in flight is the capacity, count is full plus the getters before and the putters after their critical sections, and both semaphores are 0 only with a permit in flight |
| MessageQueueFifo.RefinesFifo | msgqueue.c:30-93 | every step of every interleaving is a step of a sequential bounded FIFO or no step at all; once dropped, never a step |
| MessageQueueFifo.GetsFollowPuts | msgqueue.c:46-83 | in every run the k-th successful get delivers the first min(strlen, 80, bufsize - 1) bytes of the k-th successful put, or min(strlen, 80) if its bufsize is 0 |
| MessageQueueFifo.CallsReturnWhatTheyMoved | msgqueue.c:30-93 | in every run each put that has returned gave back the length of its own message as enqueued at its own place in the order of puts, each get the length of the text delivered to it at its own place in the order of gets, and 0 if it moved nothing; no two calls share a place, and each thread has the value of its own last call |
| MessageQueueFifo.EveryEntryHasOneCall | msgqueue.c:46-92 | in every run each message enqueued is that of exactly one put and each text delivered that of exactly one get, on its way out or returned |
| MessageQueueFifo.CallsSucceedBeforeDrop | msgqueue.c:40-74 | in every run without interrupted waits, until the drop every put and get that has returned has moved its message |
| MessageQueueOrder.EffectsFollowRealTime | msgqueue.c:30-93 | in every run, of two calls of which one returned before the other began, be they puts or gets, the first has enqueued or delivered before the second |
| MessageQueueDrop.PermitsAfterDrop | msgqueue.c:105-122 | when a drop has finished its loops each semaphore, with the permits in the hands of calls, has at least the capacity |
| MessageQueueDrop.DropIsForever | msgqueue.c:95-125 | this stays so in every later state, with buffer, head, tail and count frozen |
| MessageQueueDrop.DropReturnsWhenDone | msgqueue.c:95-125 | in every run, once any call of `mymsqdrop` has returned the queue is dropped and all the posts have been made |
| MessageQueueDrop.ZeroAfterDrop | msgqueue.c:40-44 | every call that reaches its critical section after the drop, and every later call, returns 0 |
| MessageQueueDrop.StepLowersPending | msgqueue.c:30-125 | every step of a pending call lowers the measure of what is pending |
| MessageQueueDrop.StuckBeforeDrop | msgqueue.c:33-65 | without a drop, a state in which no pending call can move has only gets waiting on an empty queue or only puts waiting on a full one |
| MessageQueueDrop.DropReleasesEveryCall | msgqueue.c:95-127 | once `dropped` is set, every run of the pending calls is finite and can only end with all of them returned |
| MessageQueueDrop.DropAlone | msgqueue.c:103-124 | the steps of an undisturbed drop add up to what `QueueStruct.Queue.Drop` does |
| RequestPool.StepInv | pr12task2.c:24-132 | every step keeps both mutexes exclusive and keeps: if every handler sleeps or is committed to, queued requests are at most the adders that owe a signal |
| RequestPool.SignalKeepsInv | pr12task2.c:56-58 | the signal keeps this because it is made under `cond_mutex` |
| RequestPool.NoLostWakeup | pr12task2.c:56-124 | in every run, spurious wakeups included, if all handlers sleep each queued request has an adder that has not yet signalled |
| RequestPool.FifoAndConserved | pr12task2.c:36-79 | in every run requests leave in the order they came, and every copy of a request is owed, queued, in one handler's hands or handled |
| RequestPool.StuckIsDone | pr12task2.c:61-132 | there is no deadlock: a state in which no thread can move has an empty queue, all adders finished and all handlers asleep |
| RequestPool.EveryRunServesEverything | pr12task2.c:24-132 | without spurious wakeups every run is finite, and where it ends every request has been handled exactly as often as it was added |
| LinkedQueues.ChainAppend | pr12task2.c:43-45 | linking a new node behind the last one of a chain gives a chain with its value appended |
| LinkedQueues.RequestQueue.Add | pr12task2.c:28-47 | the heap list stays a chain from `requests` to `last_request` of `num_requests` nodes, with the number appended |
| LinkedQueues.RequestQueue.Get | pr12task2.c:67-74 | NULL exactly for an empty list; otherwise the first node, and the rest stays a chain |
| LinkedQueues.TaskQueue.Add | pr12task1.c:27-53 | rejects exactly when the queue is full; otherwise appends a task with the next id and the first 255 characters of the message, keeping the chain and the consecutive ids |
| LinkedQueues.TaskQueue.Get | pr12task1.c:62-77 | NULL exactly for an empty queue; otherwise the oldest task, whose id is the counter less the number of tasks queued |
| LinkedQueues.JobQueue.Add | proxy2.c:92-109 | the list stays a chain from head to tail, both NULL or neither, with the descriptor appended |
| LinkedQueues.JobQueue.Take | proxy2.c:74-76 | takes the first job and leaves a chain, with tail NULL when the last job goes |
| TaskPool.StepInv | pr12task1.c:24-116 | every step keeps the mutex, the bound, the ids and: if all workers sleep the queue is empty or a signal is due |
| TaskPool.QueueDiscipline | pr12task1.c:24-113 | in every run the queue is bounded, queued ids end just below the counter, tasks are taken as 0, 1, 2, ..., and with the mutex free the workers sleep only on an empty queue |
| TaskPool.BooksBalance | pr12task1.c:24-113 | in every run each task taken is processed once or in one worker's hands, and each copy of each message is accepted, rejected or still owed |
| TaskPool.RejectsExactlyWhenFull | pr12task1.c:27-53 | a message is rejected, and nothing else changes, exactly if the queue is full; otherwise it goes to the end of the queue as the next task, cut |
| TaskPool.NoneRejectedIff | pr12task1.c:24-53 | no run rejects any message if and only if no more messages are offered in all than the queue has room for |
| TaskPool.EveryRunProcessesEverything | pr12task1.c:24-116 | without spurious wakeups every run is finite, and where it ends each message was accepted or rejected as often as it was offered, the i-th accepted one became task i with the message cut, and every accepted task was processed exactly once |
| TaskPool.SmallLoadIsProcessed | pr12task1.c:24-116 | if no more messages are offered than the queue has room for, every run without spurious wakeups ends with each processed exactly as often as it was offered |
| JobPool.StepKeepsOwned | proxy2.c:58-113 | every step, failures and shutdown included, keeps each open descriptor in exactly one place and each closed one in none |
| JobPool.DescriptorsHaveOneOwner | proxy2.c:58-113 | in every run a descriptor accepted and not closed is queued or in the hands of one thread, and whoever is about to close one has an open one |
| JobPool.JobsInOrder | proxy2.c:63-113 | in every run, shutdown included, jobs are taken in the order in which they were added, and each descriptor was added, refused or is on its way as often as it was accepted, and served or in one worker's hands as often as it was taken |
| JobPool.ClientsAreAccepted | proxy2.c:92-98 | in every run the descriptors accepted are those clients came with, in order, and one is refused only when memory runs out |
| JobPool.NoLostWakeup | proxy2.c:63-112 | in every run, with the mutex free, the workers do not all sleep on a queue with jobs, and until shutdown a queued job means that someone can go on |
| JobPool.EveryClientIsServed | proxy2.c:58-113 | until shutdown the jobs at hand are served in finitely many steps; at rest every client that came has been accepted and its descriptor closed, served or refused as often as it was accepted, and refused only as often as memory ran out |
| JobPoolShutdown.NoJobAfterShutdown | proxy2.c:65-72 | once `shutdown` is set, no worker takes another job in any run |
| JobPoolShutdown.BroadcastWakesAll | proxy2.c:227-228 | the broadcast leaves nobody asleep |
| JobPoolShutdown.WorkersExitUnlessLate | proxy2.c:58-88 | after the broadcast every run is finite, and at its end a worker has exited if and only if it did not stand between its check and its sleep at the broadcast; otherwise it sleeps for ever |
| JobPoolShutdown.LostWakeupAtShutdown | proxy2.c:65-67 | a run that leaves the only worker asleep for ever after the shutdown |
| OrderedPhilosophers.ForksAreRanked | pr13task3-1.c:15-25 | for any number of seats from two, a ranking of the forks by 0, 1, 2 puts each philosopher's first fork strictly below the second |
| OrderedPhilosophers.StepInv | pr13task3-1.c:27-44 | the owner of every fork is always the philosopher whose code holds it |
| OrderedPhilosophers.NeighboursNeverEatTogether | pr13task3-1.c:33-43 | two neighbours are never both eating |
| OrderedPhilosophers.HopClimbs | pr13task3-1.c:18-37 | whoever holds the fork someone waits for waits, if at all, for a fork of higher rank |
| OrderedPhilosophers.ThreeHopsToProgress | pr13task3-1.c:15-43 | from anyone, at most three hops along "waits for a fork held by" lead to a philosopher who can step |
| OrderedPhilosophers.EveryRunIsSound | pr13task3-1.c:15-43 | in every run from the laid table whoever eats holds both forks, neighbours do not eat together, and three hops from anyone lead to someone who can step |
| OrderedPhilosophers.MealsNeverStop | pr13task3-1.c:27-44 | no run of steps with which no meal begins is longer than four steps per seat, and someone can always step |
| OrderedPhilosophers.MealsKeepBeginning | pr13task3-1.c:33-43 | in every run of more than four steps per seat someone who was not eating begins to eat, with both forks in hand |
| OrderedPhilosophers.MealEnds | pr13task3-1.c:39-43 | whoever eats can always put both forks down in turns of its own, and thinks then |
| OrderedPhilosophers.Dinner.Philosopher | pr13task3-1.c:13-44 | on the `forks` array, each locking or unlocking statement is the step of the protocol |
| TrylockPhilosophers.StepForkInv | pr13task3-2.c:26-53 | fork ownership matches the code of its holder at every point, half-taken pairs included |
| TrylockPhilosophers.StepWakeupInv | pr13task3-2.c:29-52 | a philosopher waiting always has a neighbour with both forks, or a broadcast is due |
| TrylockPhilosophers.NeighboursNeverEatTogether | pr13task3-2.c:30-47 | two neighbours are never both eating |
| TrylockPhilosophers.BothForksOrNeither | pr13task3-2.c:26-53 | with `forks_mutex` free a philosopher holds both forks or neither |
| TrylockPhilosophers.SleeperHasEatingNeighbour | pr13task3-2.c:39-52 | with `forks_mutex` free, whoever sleeps has a neighbour who holds the fork between them and has yet to put it down |
| TrylockPhilosophers.NoDeadlock | pr13task3-2.c:20-54 | someone can always step without a spurious wakeup |
| TrylockPhilosophers.Dinner.Proceed | pr13task3-2.c:20-49 | the statements before the hunt and around the meal, with the unlock before it and the lock after it, are the steps of the protocol |
| TrylockPhilosophers.EveryRunIsSound | pr13task3-2.c:20-54 | in every run from the laid table, spurious wakeups included: whoever eats holds both forks, neighbours do not eat together, with the mutex free everyone has both forks or neither and sleepers have a neighbour at a meal, and someone can step |
| TrylockPhilosophers.MealsNeverStop | pr13task3-2.c:20-54 | no run of steps with which no meal begins is longer than (5n + 12)n steps at an n-seat table, and someone can always step |
| TrylockPhilosophers.MealsKeepBeginning | pr13task3-2.c:20-54 | in every longer run without spurious wakeups someone who was not eating begins to eat, with both forks in hand |
| TrylockPhilosophers.MealEnds | pr13task3-2.c:44-54 | with the mutex free, turns of the one who eats put both forks down, leave nobody asleep and the mutex free |
| TrylockPhilosophers.Dinner.Enter | pr13task3-2.c:26 | taking `forks_mutex` is the step of the protocol |
| TrylockPhilosophers.Dinner.Hunt | pr13task3-2.c:28-42 | one round of the loop, in steps of this philosopher alone, succeeds exactly if both forks are free, and then holds both; otherwise no fork has changed and the philosopher sleeps with the mutex free |
| TrylockPhilosophers.Dinner.PutDown | pr13task3-2.c:49-53 | the critical section after a meal frees both forks, wakes everyone and frees the mutex, in steps of this philosopher alone |
| RacyCounter.StepInv | pr10t1.c:23-27 | a thread that read 0 has finished no round, so a counter of at most 1 means that someone has rounds left |
| RacyCounter.CompleteRunsAreBounded | pr11task3.c:28-37 | any number of threads and rounds leave at most the number of rounds in all, at least 1 if there is a round, and at least 2 if every thread makes two |
| RacyCounter.TheftLosesTheRest | pr10t1.c:24-26 | all whole rounds made between a thread's read and its write are lost |
| RacyCounter.LossyRun | pr10t1.c:23-27 | an explicit schedule is a complete run that leaves 2 plus any chosen number of undisturbed rounds |
| RacyCounter.FinalValues | pr11task3.c:28-57 | for any number of threads and rounds, the values complete runs leave are exactly those between the least one and the number of rounds in all; the least is 2, but 1 for one round each, and the number of rounds in all if there is at most one thread |
| RacyCounter.NothingLostIff | pr11task3.c:28-57 | every complete run leaves the number of rounds in all if and only if there is at most one thread or no round |
| RacyCounter.Counter.IncrementCounter | pr10t1.c:18-34 | undisturbed, the loop adds exactly its number of rounds |
| LockedWork.PayIsClosed | pr11task4.c:26-33 | a worker's additions come to base * m * (m + 1) / 2, a counting thread's to its number of rounds |
| LockedWork.OneInLock | pr10t2.c:28-41 | a semaphore that starts at 1 lets one thread in at a time |
| LockedWork.StepInv | pr11task3.c:13-26 | between any two steps the total is what the threads have added, and a value read inside the lock is still current |
| LockedWork.ScheduleIndependent | pr11task4.c:19-41 | every schedule ends, only where all work is done, and always with the same total |
| LockedWork.Accumulator.Worker | pr11task4.c:26-41 | a worker alone adds what its job pays |
| LockedWork.Accumulator.Sequential | pr11task4.c:113-118 | one worker after another leaves the sum over the jobs |
| LockedWork.ParallelIsSequential | pr11task4.c:120-131 | every complete parallel run leaves what the sequential mode leaves |
| Mailbox.StepInv | pr9t1wr.c:31-49 | the flag gives the payload to one side at a time: while it is up the payload is the last line, whole, and the writer keeps off it |
| Mailbox.PrintsAPrefix | pr9t1re.c:30-42 | in every run the reader has printed the first lines typed, whole and in order, none starting with "exit", and part of a line only of the next one |
| Mailbox.EndsWithEverythingPrinted | pr9t1re.c:30-42 | where a run ends, exactly the lines before the first "exit" have been printed, none of which starts with it, and both sides have finished, or all the lines if there is none |
| Mailbox.StaleSegment | pr9t1wr.c:31 | if the writer comes first the segment may hold anything: its first step lowers the flag, and every run after it prints a prefix of what is typed |
| Mailbox.RoundTripIffItFits | pr9t1wr.c:35-39 | the segment gives a line back if and only if it has at most SHM_SIZE-2 bytes |
| Mailbox.OverlongLineIsSpoilt | pr9t1re.c:30-42 | a run in which a line of SHM_SIZE-1 bytes, behind any lines that are not "exit", is printed with the flag byte behind it |
| Mailbox.PrefixIffFitting | pr9t1wr.c:35-46 | on lines as `fgets` delivers them, every run prints a prefix of what was typed if and only if every line before the first "exit" has at most SHM_SIZE-2 bytes |
| Mailbox.SharedMemory.Send | pr9t1wr.c:37-39 | the copy loop and the flag leave the line, padded with NULs, and '1' |
| Mailbox.SharedMemory.Receive | pr9t1re.c:39-41 | prints the bytes up to the NUL and lowers the flag, changing nothing else |
| CatBowl.StepInv | pr13task2.c:14-53 | every step of the owner and of any cat keeps mutual exclusion, the food account and: nobody sleeps who could go on unless the wakeup is on its way |
| CatBowl.BowlIsWellKept | pr13task2.c:14-53 | in every run the food is a multiple of 100 in 0..1000, the owner sleeps only above the minimum and a cat only below a portion, and 9R - 5 <= M <= 10R + 5 for M meals and R refills |
| CatBowl.FoodMoves | pr13task2.c:20-43 | a step changes the food only by a cat's portion for each meal or by a refill of a bowl that is low to the top |
| CatBowl.NoDeadlock | pr13task2.c:14-53 | with at least one cat someone can always step |
| CatBowl.MealsNeverStop | pr13task2.c:14-53 | no run of steps that leave the number of meals as it is is longer than 22n + 14 steps with n cats, and someone can always step |
| CatBowl.MealsKeepComing | pr13task2.c:40-49 | in every longer run without spurious wakeups a cat eats: one meal more and a portion less in the bowl |
| CatBowl.VisitEnds | pr13task2.c:34-49 | a cat that finds enough food can always leave in turns of its own, with one meal eaten, the owner woken if the bowl is low then, and the mutex free |
| CatBowl.RefillEnds | pr13task2.c:20-26 | an owner that finds the bowl low can always fill it, wake every cat and free the mutex in turns of its own |
| CatBowl.Bowl.Refill | pr13task2.c:20-21 | what the owner does after its wait is the step of the protocol, and adds what it says it adds |
| CatBowl.Bowl.Visit | pr13task2.c:34-49 | a cat's visit to the bowl, too little food included, is the step of the protocol |
| EmployeeRecords.WriterKeepsInv | pr11task2.c:29-61 | every step of any writer keeps the shared record a whole row of the table except in the middle of a copy under the lock |
| EmployeeRecords.MainKeepsInv | pr11task2.c:85-117 | every step of `main` keeps its copy a whole row once finished, and its comparisons hold |
| EmployeeRecords.NoTornSnapshots | pr11task2.c:85-117 | in every iteration of every run the snapshot is one whole row and every comparison holds; the shared record is the writer's own when a writer unlocks, and `main`'s copy the shared record when `main` does |
| EmployeeRecords.FinishesWithEverySnapshot | pr11task2.c:85-117 | in every run `main` has finished exactly when it has taken all the steps of its iterations, then with one snapshot for each; and writers stop only after that |
| EmployeeRecords.WriterCopies | pr11task2.c:29-57 | a writer not told to stop can, with the mutex free, make the shared record its own row in turns of its own and come back to its test |
| EmployeeRecords.WritersStop | pr11task2.c:56-60 | once told to stop, a writer has stopped exactly when it has taken the steps it had left, at most four more than there are fields |
| EmployeeRecords.MatchesIsRow | pr11task2.c:87-112 | the five comparisons all hold if and only if the record is the row that its number points to |
| EmployeeRecords.MainIsNeverBlockedForGood | pr11task2.c:85-117 | until `main` has finished it can step, or the writer it waits for can, and by the time that writer has taken two steps more than there are fields, however others come between, the mutex has been free |
| EmployeeRecords.HolderLetsGo | pr11task2.c:39-50 | in every run that gives the holder of the mutex the steps it still needs, the mutex is free at some point |
| EmployeeRecords.CopyEmployee | pr11task2.c:39-44 | on `char` arrays, whatever the destination held before, the copy leaves it equal to the source as `main` compares records, with strings up to their NUL |
| EmployeeRecords.StrCpy | pr11task2.c:41-43 | the destination has the same string, and the bytes behind its NUL stay as they were |
| AssemblyLine.StepInv | pr15task1.c:14-65 | every step of any workshop keeps each semaphore equal to what was made less what was taken, and lowers the work left |
| AssemblyLine.LineMeetsItsTarget | pr15task1.c:14-65 | in every run products never exceed modules or parts C nor modules parts A or B; every run ends, only with exactly the target made and all semaphores at 0 |
| AssemblyLine.Line.WorkerModule | pr15task1.c:44-55 | on the real semaphores, each wait and post of the loop is the step of the protocol, and nothing happens when it has to wait or has finished |
| AssemblyLine.Line.WorkerFinal | pr15task1.c:57-65 | likewise for the final assembly |
| AssemblyLine.Line.Produce | pr15task1.c:67-87 | whatever turns the scheduler gives the five threads, the joined run is a run of the protocol that makes exactly the target and leaves every semaphore at 0 |
| ProxyTable.FirstFree | proxy.c:44-51 | the slot found is free and every slot before it is not |
| ProxyTable.StepInv | proxy.c:80-169 | every accept, read, write or close, failures included, keeps every slot sound |
| ProxyTable.TableStaysSound | proxy.c:35-169 | over any sequence of events: buf_len stays below BUF_SIZE, bytes written and buffered are the bytes read in order, a slot is free exactly without descriptors, no two connections share one, and max_fd bounds them |
| ProxyTable.AcceptTakesClient | proxy.c:80-112 | a client is taken in whenever the calls succeed and a slot is free, by the first free slot with an empty buffer, and otherwise nothing changes |
| ProxyTable.ReadTakesEverything | proxy.c:114-141 | a read appends every byte it got and moves the request on exactly above 1024 bytes; end of file and errors free the slot, a read that would block changes nothing, and the other slots stay |
| ProxyTable.WriteRemovesWhatWasWritten | proxy.c:143-169 | a write takes exactly the bytes that went out off the front of the buffer, in order; a cached response frees its slot exactly when all of it is out, an error frees the slot, and the rest stays |
| ProxyTable.FullBufferClosesConnection | proxy.c:114-141 | with bytes waiting, a read takes some of them in, in order, unless the buffer is full; then and only then it closes the connection, and all that the buffer held is lost |
| ProxyTable.FullBufferLosesBytes | proxy.c:80-141 | a run from the empty table in which a client sends as many bytes as the buffer has room for, and more, and is cut off with none of them sent on |
| ProxyTable.Connections.InitConnections | proxy.c:35-42 | the loop leaves every slot free and empty |
| ProxyTable.Connections.FindFreeSlot | proxy.c:44-51 | the loop returns the first free slot, or -1 if there is none |
| ProxyTable.Connections.AcceptNewConnection | proxy.c:80-112 | on the real arrays: the first free slot is taken, or nothing changes when a call failed or there is none |
| ProxyTable.Connections.HandleRead | proxy.c:114-141 | on the real arrays: the bytes are appended, the state moves on past 1024 bytes, and end of file or an error closes the slot |
| ProxyTable.Connections.Append | proxy.c:118-122 | what `read` put into the free part of the buffer is appended to it, and the other buffers stay |
| ProxyTable.Connections.HandleWrite | proxy.c:143-169 | on the real arrays: the bytes written leave the front of the buffer, and an error or a finished cached response closes the slot |
| ProxyTable.Connections.Shift | proxy.c:153-156 | the memmove leaves the bytes not yet written at the front, in order |
| ProxyTable.Connections.CloseConnection | proxy.c:53-65 | the slot becomes free and empty, the others stay as they are |
| Composites.SmallDivisor | pr5t4.c:28-33 | a number without a divisor up to its square root is not a product of two factors from 2 up |
| Composites.IsComposite | pr5t4.c:27-33 | the loop decides whether the number is such a product, and leaves the range of `int` exactly for primes of at least 46340 * 46340 |
| Composites.Scan | pr5t4.c:17-41 | unless an entry is a prime of at least 46340 * 46340, so always if the entries are smaller, the count is the number of indices with a composite entry and the maximum the largest of these entries |
| LargePrime.LargePrimeOverflows | pr5t4.c:28 | 2147453309 is a prime on which the trial division leaves the range of `int` |

## Left out

- Sockets, `select`, terminal modes, pipes, signals, `fork`, printing and sleeping: what `accept`, `read`, `write` and `fgets` return is part of the events or the initial state.
- Failures of `malloc`, `sem_init`, `pthread_mutex_lock`, `pthread_create` and the like, except the failing `malloc` of `thread_pool_add_job` and the failing `sem_wait` of `mymsgput` and `mymsgget`.
- Reading `count` and `dropped` without the mutex, as the callers in main.c do to print them.
- `mymsgdestroy`, and the condition variable `drop_cond`, which nothing waits on.
- A `pthread_cond_signal` that wakes more than one sleeper: the theorems with spurious wakeups cover it, those on runs that end take exactly one.
- Fairness between threads: the theorems say that someone can step and that runs end, not that a given philosopher eats.
- RacyCounter.FinalValues: `int` is taken as unbounded; no value reached exceeds the number of rounds in all, so it says nothing new unless that number is above INT_MAX.
- LockedWork.ScheduleIndependent: `int` is taken as unbounded, so wrap-around of a total beyond INT_MAX is not modelled.
- Mailbox.PrintsAPrefix: lines hold no NUL byte and input does not end in the middle of the loop, where the writer would send its last line again; a fresh segment and an attached reader are assumed.
- EmployeeRecords.NoTornSnapshots: a string field is copied in one step of the protocol and seen up to its NUL; `EmployeeRecords.StrCpy` has the bytes. `pthread_mutex_lock` is taken to succeed.
- JobPool.NoLostWakeup: says nothing about jobs left in the queue after shutdown, which the code abandons; what becomes of the workers then is in JobPoolShutdown.
- ProxyTable.TableStaysSound: the `select` loop that dispatches the events is not modelled; `remote_fd` is never set by the code shown, and neither is the state of a cached response.
- LinkedQueues.RequestQueue.Get: `free` of the node taken is not modelled.
- Programs whose intended invariants do not hold or that are straight-line: pr13task4.c, proxy_server.c, pr11task1.c, http_client_select.c and the remaining exercises.
