/** The linked queues of `pr12task2.c`, `pr12task1.c` and `proxy2.c`, on the heap.

  All three keep a head pointer and a tail pointer into a chain of nodes; each decides in its
  own way whether the chain is empty. `nodes` is the chain as the proofs see it.
 */
module LinkedQueues {

  class Node<T> {
    var value: T
    var next: Node?<T>

    constructor (value: T)
      ensures this.value == value && next == null
    {
      this.value := value;
      next := null;
    }
  }

  /** Following `next` from the first node visits exactly `nodes`, each once, and ends. */
  ghost predicate Chained<T>(nodes: seq<Node<T>>)
    reads nodes
  {
    && (forall i, j :: 0 <= i < j < |nodes| ==> nodes[i] != nodes[j])
    && forall i :: 0 <= i < |nodes| ==> nodes[i].next == After(nodes, i)
  }

  ghost function After<T>(nodes: seq<Node<T>>, i: nat): Node?<T>
  {
    if i + 1 < |nodes| then nodes[i + 1] else null
  }

  ghost predicate Ends<T>(nodes: seq<Node<T>>, head: Node?<T>, tail: Node?<T>)
  {
    if nodes == [] then head == null && tail == null
    else head == nodes[0] && tail == nodes[|nodes| - 1]
  }

  ghost function Values<T>(nodes: seq<Node<T>>): (values: seq<T>)
    reads nodes
    ensures |values| == |nodes|
  {
    seq(|nodes|, i requires 0 <= i < |nodes| reads nodes => nodes[i].value)
  }

  /** Taking the first node off leaves a chain. */
  lemma ChainTail<T>(nodes: seq<Node<T>>)
    requires Chained(nodes) && nodes != []
    ensures Chained(nodes[1..]) && Values(nodes) == [nodes[0].value] + Values(nodes[1..])
    ensures nodes[0].next == After(nodes, 0)
  {
    var rest := nodes[1..];
    forall i | 0 <= i < |rest|
      ensures rest[i].next == After(rest, i)
    {
      assert rest[i] == nodes[i + 1] && nodes[i + 1].next == After(nodes, i + 1);
    }
  }

  /** Linking a new node behind the last one appends to the chain. */
  twostate lemma ChainAppend<T>(nodes: seq<Node<T>>, new node: Node<T>)
    requires old(Chained(nodes)) && node !in nodes && node.next == null
    requires forall i :: 0 <= i < |nodes| ==> nodes[i].value == old(nodes[i].value)
    requires forall i :: 0 <= i < |nodes| - 1 ==> nodes[i].next == old(nodes[i].next)
    requires nodes != [] ==> nodes[|nodes| - 1].next == node
    ensures Chained(nodes + [node]) && Values(nodes + [node]) == old(Values(nodes)) + [node.value]
  {
    var all := nodes + [node];
    forall i | 0 <= i < |all|
      ensures all[i].next == After(all, i)
    {
      if i < |nodes| - 1 {
        assert nodes[i].next == After(nodes, i);
      }
    }
  }

  /** `last->next = node`. */
  method LinkBehind<T>(last: Node<T>, node: Node<T>, ghost nodes: seq<Node<T>>)
    requires Chained(nodes) && nodes != [] && last == nodes[|nodes| - 1]
    requires node !in nodes && node.next == null
    modifies last`next
    ensures Chained(nodes + [node]) && Values(nodes + [node]) == old(Values(nodes)) + [node.value]
  {
    last.next := node;
    ChainAppend(nodes, node);
  }

  /** The queue of `pr12task2.c`, which goes by `num_requests`. */
  class RequestQueue {
    var requests: Node?<int>
    var lastRequest: Node?<int>
    var numRequests: int
    ghost var nodes: seq<Node<int>>

    ghost predicate Valid()
      reads this, nodes
    {
      Chained(nodes) && Ends(nodes, requests, lastRequest) && numRequests == |nodes|
    }

    constructor ()
      ensures Valid() && nodes == []
    {
      requests, lastRequest, numRequests, nodes := null, null, 0, [];
    }

    /** The part of `add_request` under `queue_mutex`. */
    method Add(number: int)
      requires Valid()
      modifies this, nodes
      ensures Valid() && Values(nodes) == old(Values(nodes)) + [number]
    {
      ghost var before := Values(nodes);
      var request := new Node(number);
      assert Values(nodes) == before && Valid();
      if numRequests == 0 {
        requests := request;
        lastRequest := request;
      } else {
        LinkBehind(lastRequest, request, nodes);
        lastRequest := request;
      }
      numRequests := numRequests + 1;
      nodes := nodes + [request];
      assert Values(nodes) == before + [number];
    }

    /** `get_request` between its lock and unlock. */
    method Get() returns (request: Node?<int>)
      requires Valid()
      modifies this
      ensures Valid()
      ensures request == null <==> old(nodes) == []
      ensures request == null ==> nodes == []
      ensures request != null ==>
                && request == old(nodes)[0] && nodes == old(nodes)[1..]
                && old(Values(nodes)) == [request.value] + Values(nodes)
    {
      request := null;
      if numRequests > 0 {
        ChainTail(nodes);
        request := requests;
        requests := request.next;
        if requests == null {
          lastRequest := null;
        }
        numRequests := numRequests - 1;
        nodes := nodes[1..];
      }
    }
  }

  /** The queue of `pr12task1.c`, bounded, which goes by `task_queue` when it appends and by
      `task_count` when it takes. Tasks carry the ids that `task_id_counter` gives out. */
  datatype Task = Task(id: nat, message: string)

  /** The size of a task's `message`. */
  const MESSAGE_SIZE: nat := 256

  /** What `strncpy` and the NUL after it keep of a C string. */
  function Cut(message: string): (text: string)
    ensures |text| < MESSAGE_SIZE && text <= message
    ensures |message| < MESSAGE_SIZE ==> text == message
  {
    if |message| < MESSAGE_SIZE then message else message[..MESSAGE_SIZE - 1]
  }

  /** The ids in the queue run up to the last one given out. */
  ghost predicate Consecutive(tasks: seq<Task>, nextId: nat)
  {
    forall i :: 0 <= i < |tasks| ==> tasks[i].id == nextId - |tasks| + i
  }

  lemma ConsecutiveAppend(tasks: seq<Task>, nextId: nat, message: string)
    requires Consecutive(tasks, nextId) && |tasks| <= nextId
    ensures Consecutive(tasks + [Task(nextId, Cut(message))], nextId + 1)
  {
  }

  class TaskQueue {
    const maxSize: nat
    var taskQueue: Node?<Task>
    var lastTask: Node?<Task>
    var taskCount: int
    var taskIdCounter: nat
    ghost var nodes: seq<Node<Task>>

    ghost predicate Valid()
      reads this, nodes
    {
      && Linked() && taskCount <= maxSize
      && |nodes| <= taskIdCounter
      && Consecutive(Values(nodes), taskIdCounter)
    }

    ghost predicate Linked()
      reads this, nodes
    {
      Chained(nodes) && Ends(nodes, taskQueue, lastTask) && taskCount == |nodes|
    }

    constructor (maxSize: nat)
      ensures Valid() && nodes == [] && this.maxSize == maxSize && taskIdCounter == 0
    {
      this.maxSize := maxSize;
      taskQueue, lastTask, taskCount, taskIdCounter, nodes := null, null, 0, 0, [];
    }

    /** The list part of `add_task`. */
    method Append(task: Node<Task>)
      requires Linked() && task !in nodes && task.next == null
      modifies this`taskQueue, this`lastTask, this`taskCount, this`nodes, nodes
      ensures Linked() && nodes == old(nodes) + [task]
      ensures Values(nodes) == old(Values(nodes)) + [task.value]
    {
      if taskQueue == null {
        taskQueue := task;
        lastTask := task;
      } else {
        LinkBehind(lastTask, task, nodes);
        lastTask := task;
      }
      taskCount := taskCount + 1;
      nodes := nodes + [task];
    }

    /** `add_task` between its lock and its signal. A full queue leaves everything as it is. */
    method Add(message: string) returns (added: bool)
      requires Valid()
      modifies this, nodes
      ensures Valid()
      ensures added <==> |old(nodes)| < maxSize
      ensures !added ==> nodes == old(nodes) && taskIdCounter == old(taskIdCounter)
                         && Values(nodes) == old(Values(nodes))
      ensures added ==> taskIdCounter == old(taskIdCounter) + 1
                        && Values(nodes) == old(Values(nodes)) + [Task(old(taskIdCounter), Cut(message))]
    {
      if taskCount >= maxSize {
        return false;
      }
      ghost var before := Values(nodes);
      ConsecutiveAppend(before, taskIdCounter, message);
      var task := new Node(Task(taskIdCounter, Cut(message)));
      assert Values(nodes) == before && Linked();
      Append(task);
      taskIdCounter := taskIdCounter + 1;
      assert Values(nodes) == before + [task.value];
      return true;
    }

    /** `get_task`: the oldest task, whose id is one more than that of the task before it. */
    method Get() returns (task: Node?<Task>)
      requires Valid()
      modifies this
      ensures Valid() && taskIdCounter == old(taskIdCounter)
      ensures task == null <==> old(nodes) == []
      ensures task == null ==> nodes == []
      ensures task != null ==>
                && nodes == old(nodes)[1..] && old(Values(nodes)) == [task.value] + Values(nodes)
                && task.value.id == taskIdCounter - |old(nodes)|
    {
      task := null;
      if taskCount > 0 {
        ChainTail(nodes);
        ghost var before := Values(nodes);
        task := taskQueue;
        taskQueue := task.next;
        if taskQueue == null {
          lastTask := null;
        }
        taskCount := taskCount - 1;
        nodes := nodes[1..];
        assert before[0] == task.value && Values(nodes) == before[1..];
      }
    }
  }

  /** The job list of `proxy2.c`, which goes by its pointers. */
  class JobQueue {
    var head: Node?<int>
    var tail: Node?<int>
    ghost var nodes: seq<Node<int>>

    ghost predicate Valid()
      reads this, nodes
      ensures Valid() ==> (head == null <==> tail == null)
    {
      Chained(nodes) && Ends(nodes, head, tail)
    }

    constructor ()
      ensures Valid() && nodes == []
    {
      head, tail, nodes := null, null, [];
    }

    /** The part of `thread_pool_add_job` under `queue_mutex`, before the signal. */
    method Add(clientFd: int)
      requires Valid()
      modifies this, nodes
      ensures Valid() && Values(nodes) == old(Values(nodes)) + [clientFd]
    {
      var job := new Node(clientFd);
      if tail == null {
        head := job;
        tail := job;
      } else {
        LinkBehind(tail, job, nodes);
        tail := job;
      }
      nodes := nodes + [job];
    }

    /** The dequeue in `worker_thread_func`, reached only with a job in the list. */
    method Take() returns (job: Node<int>)
      requires Valid() && head != null
      modifies this
      ensures Valid() && nodes == old(nodes)[1..]
      ensures old(Values(nodes)) == [job.value] + Values(nodes)
    {
      ChainTail(nodes);
      job := head;
      head := head.next;
      if head == null {
        tail := null;
      }
      nodes := nodes[1..];
    }
  }
}
