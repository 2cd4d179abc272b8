/** One connection of the line-based JSON-RPC server: daemon/server.ts, lines 62-139. */
module LineSocket {
  import opened Text
  import opened Framing

  /** `Waiting` for its turn in the promise chain, in its handler, in its write, or over. */
  datatype Status = Waiting | Handling | Flushing | Settled

  datatype Task = Task(work: Item, status: Status)

  /** What the server writes for a task: a response, or the refusal that ends the connection. */
  datatype Output = Reply(task: nat, response: string) | Refusal(task: nat)

  datatype Conn = Conn(buffer: Bytes, accepting: bool, closed: bool, queued: int, tasks: seq<Task>,
                       paused: bool, idleTimer: bool, written: seq<Output>)

  /**
   * What may happen next. `Start` is the chain reaching a task; `Respond` the handler's result, with
   * the socket's `writable` flag at that moment; `Fail` a handler that throws; `Flush` the write
   * callback; `Stop` the socket's close or error; `Idle` the idle timer.
   */
  datatype Event = Data(chunk: Bytes) | Start(task: nat, writable: bool)
                 | Respond(task: nat, response: string, writable: bool)
                 | Fail(task: nat) | Flush(task: nat) | Stop | Idle

  const OPENED := Conn([], true, false, 0, [], false, true, [])

  function Enqueued(c: Conn, work: Item): Conn {
    c.(paused := c.paused || c.queued == 0, queued := c.queued + 1, idleTimer := false,
       tasks := c.tasks + [Task(work, Waiting)])
  }

  function Rejected(c: Conn): Conn {
    if c.accepting then Enqueued(c.(accepting := false, buffer := []), Oversized) else c
  }

  function LinesTaken(cfg: Config, c: Conn, lines: seq<Bytes>): Conn {
    if lines == [] then c
    else
      var before := LinesTaken(cfg, c, lines[..|lines| - 1]);
      var line := lines[|lines| - 1];
      if !before.accepting then before
      else if |line| + 1 > cfg.max then Rejected(before)
      else if cfg.blank(line) then before
      else Enqueued(before, Request(line))
  }

  function AfterData(cfg: Config, c: Conn, chunk: Bytes): Conn {
    if !c.accepting then c
    else
      var cut := Cut(c.buffer + chunk, NEWLINE);
      var taken := LinesTaken(cfg, c.(buffer := cut.rest), cut.closed);
      if taken.accepting && |cut.rest| > cfg.max then Rejected(taken) else taken
  }

  /** The `finally` of the chain. */
  function Over(c: Conn, i: nat): Conn
    requires i < |c.tasks|
  {
    var ended := c.(tasks := c.tasks[i := c.tasks[i].(status := Settled)], queued := c.queued - 1);
    if !c.closed && ended.queued == 0 then ended.(idleTimer := true, paused := false) else ended
  }

  predicate MayStart(tasks: seq<Task>, i: nat) {
    i < |tasks| && tasks[i].status == Waiting && (i > 0 ==> tasks[i - 1].status == Settled)
  }

  predicate HasStatus(tasks: seq<Task>, i: nat, status: Status) {
    i < |tasks| && tasks[i].status == status
  }

  function Started(c: Conn, i: nat, writable: bool): Conn
    requires i < |c.tasks|
  {
    if c.closed then Over(c, i)
    else if c.tasks[i].work == Oversized then
      Over(c.(closed := true, written := c.written + if writable then [Refusal(i)] else []), i)
    else c.(tasks := c.tasks[i := c.tasks[i].(status := Handling)])
  }

  function Step(cfg: Config, c: Conn, e: Event): Conn {
    match e
    case Data(chunk) => AfterData(cfg, c, chunk)
    case Start(i, writable) => if MayStart(c.tasks, i) then Started(c, i, writable) else c
    case Respond(i, response, writable) =>
      if !HasStatus(c.tasks, i, Handling) then c
      else if !c.closed && writable then
        c.(tasks := c.tasks[i := c.tasks[i].(status := Flushing)], written := c.written + [Reply(i, response)])
      else Over(c, i)
    case Fail(i) => if HasStatus(c.tasks, i, Handling) then Over(c, i) else c
    case Flush(i) => if HasStatus(c.tasks, i, Flushing) then Over(c, i) else c
    case Stop => c.(closed := true, accepting := false)
    case Idle => if c.idleTimer then c.(closed := true, accepting := false) else c
  }

  function Run(cfg: Config, events: seq<Event>): Conn {
    if events == [] then OPENED else Step(cfg, Run(cfg, events[..|events| - 1]), events[|events| - 1])
  }

  // ---------------------------------------------------------------- what every step keeps

  function Pending(tasks: seq<Task>): nat {
    if tasks == [] then 0
    else Pending(tasks[..|tasks| - 1]) + if tasks[|tasks| - 1].status == Settled then 0 else 1
  }

  /** A task that has left the queue finds every earlier one over: at most one is ever under way. */
  ghost predicate InTurn(tasks: seq<Task>) {
    forall i, j | 0 <= i < j < |tasks| && tasks[j].status != Waiting :: tasks[i].status == Settled
  }

  /** Outputs follow task order, belong to tasks that wrote, and only an oversized line is refused. */
  ghost predicate InOrder(tasks: seq<Task>, written: seq<Output>) {
    && (forall a, b | 0 <= a < b < |written| :: written[a].task < written[b].task)
    && (forall a | 0 <= a < |written| ::
          && written[a].task < |tasks|
          && tasks[written[a].task].status in {Flushing, Settled}
          && (written[a].Refusal? <==> tasks[written[a].task].work == Oversized))
  }

  /** Only the last line can be oversized, and it is never handed to the handler. */
  ghost predicate OversizedLast(tasks: seq<Task>) {
    && (forall i | 0 <= i < |tasks| - 1 :: tasks[i].work != Oversized)
    && (forall i | 0 <= i < |tasks| && tasks[i].status in {Handling, Flushing} :: tasks[i].work != Oversized)
  }

  predicate AllRequests(tasks: seq<Task>) {
    forall i | 0 <= i < |tasks| :: tasks[i].work != Oversized
  }

  ghost predicate Inv(c: Conn) {
    && InTurn(c.tasks) && InOrder(c.tasks, c.written) && OversizedLast(c.tasks)
    && c.queued == Pending(c.tasks)
    && (!c.closed ==> (c.paused <==> c.queued > 0) && (c.idleTimer <==> c.queued == 0))
    && (c.closed ==> !c.accepting)
    && (c.accepting ==> AllRequests(c.tasks))
  }

  lemma {:induction false} PendingUpdate(tasks: seq<Task>, i: nat, status: Status)
    requires i < |tasks|
    ensures Pending(tasks[i := tasks[i].(status := status)]) ==
            Pending(tasks) - (if tasks[i].status == Settled then 0 else 1) + (if status == Settled then 0 else 1)
  {
    var n := |tasks| - 1;
    var updated := tasks[i := tasks[i].(status := status)];
    if i < n {
      PendingUpdate(tasks[..n], i, status);
      assert updated[..n] == tasks[..n][i := tasks[i].(status := status)];
    } else {
      assert updated[..n] == tasks[..n];
    }
  }

  lemma OneMoreTask(tasks: seq<Task>, written: seq<Output>, work: Item)
    requires InTurn(tasks) && InOrder(tasks, written) && OversizedLast(tasks) && AllRequests(tasks)
    ensures var more := tasks + [Task(work, Waiting)];
            && InTurn(more) && InOrder(more, written) && OversizedLast(more)
            && Pending(more) == Pending(tasks) + 1
            && (work != Oversized ==> AllRequests(more))
  {
    var more := tasks + [Task(work, Waiting)];
    assert more[..|tasks|] == tasks;
    assert forall i | 0 <= i < |tasks| :: more[i] == tasks[i];
  }

  lemma EnqueueKeeps(c: Conn, work: Item)
    requires Inv(c) && !c.closed && AllRequests(c.tasks)
    requires work == Oversized ==> !c.accepting
    ensures Inv(Enqueued(c, work))
  {
    OneMoreTask(c.tasks, c.written, work);
    hide InTurn, InOrder, OversizedLast, Pending, AllRequests;
  }

  lemma RejectKeeps(c: Conn)
    requires Inv(c)
    ensures Inv(Rejected(c))
    ensures c.accepting ==> !Rejected(c).accepting
  {
    if c.accepting {
      EnqueueKeeps(c.(accepting := false, buffer := []), Oversized);
    }
  }

  lemma {:induction false} LinesKeep(cfg: Config, c: Conn, lines: seq<Bytes>)
    requires Inv(c)
    ensures Inv(LinesTaken(cfg, c, lines))
  {
    if lines != [] {
      hide Inv, Enqueued, Rejected;
      var before, line := LinesTaken(cfg, c, lines[..|lines| - 1]), lines[|lines| - 1];
      LinesKeep(cfg, c, lines[..|lines| - 1]);
      RejectKeeps(before);
      if before.accepting {
        TakeKeeps(before, line);
      }
    }
  }

  lemma TakeKeeps(c: Conn, line: Bytes)
    requires Inv(c) && c.accepting
    ensures Inv(Enqueued(c, Request(line)))
  {
    EnqueueKeeps(c, Request(line));
  }

  lemma OverKeeps(c: Conn, i: nat)
    requires Inv(c) && i < |c.tasks| && c.tasks[i].status != Settled
    requires forall k | 0 <= k < i :: c.tasks[k].status == Settled
    ensures Inv(Over(c, i))
  {
    hide Pending;
    PendingUpdate(c.tasks, i, Settled);
  }

  /** Every event keeps the connection in order. */
  lemma StepKeeps(cfg: Config, c: Conn, e: Event)
    requires Inv(c)
    ensures Inv(Step(cfg, c, e))
  {
    match e
    case Data(chunk) =>
      if c.accepting {
        hide Inv, LinesTaken;
        DataKeeps(cfg, c, chunk);
      }
    case Start(i, writable) =>
      if MayStart(c.tasks, i) {
        StartKeeps(c, i, writable);
      }
    case Respond(i, response, writable) =>
      if HasStatus(c.tasks, i, Handling) {
        RespondKeeps(cfg, c, i, response, writable);
      }
    case Fail(i) =>
      if HasStatus(c.tasks, i, Handling) {
        OverKeeps(c, i);
      }
    case Flush(i) =>
      if HasStatus(c.tasks, i, Flushing) {
        OverKeeps(c, i);
      }
    case Stop =>
    case Idle =>
  }

  lemma DataKeeps(cfg: Config, c: Conn, chunk: Bytes)
    requires Inv(c)
    ensures Inv(AfterData(cfg, c, chunk))
  {
    hide Cut, LinesTaken;
    var cut := Cut(c.buffer + chunk, NEWLINE);
    var taken := LinesTaken(cfg, c.(buffer := cut.rest), cut.closed);
    LinesKeep(cfg, c.(buffer := cut.rest), cut.closed);
    RejectKeeps(taken);
  }

  lemma StartKeeps(c: Conn, i: nat, writable: bool)
    requires Inv(c) && MayStart(c.tasks, i)
    ensures Inv(Started(c, i, writable))
  {
    hide Pending;
    assert forall k | 0 <= k < i :: c.tasks[k].status == Settled;
    if c.closed {
      OverKeeps(c, i);
    } else if c.tasks[i].work == Oversized {
      RefuseKeeps(c, i, writable);
    } else {
      PendingUpdate(c.tasks, i, Handling);
    }
  }

  lemma SettledInOrder(tasks: seq<Task>, written: seq<Output>, i: nat)
    requires i < |tasks| && InTurn(tasks) && InOrder(tasks, written) && OversizedLast(tasks)
    requires forall k | 0 <= k < i :: tasks[k].status == Settled
    ensures var settled := tasks[i := tasks[i].(status := Settled)];
            InTurn(settled) && InOrder(settled, written) && OversizedLast(settled)
  {
  }

  lemma RefusalInOrder(tasks: seq<Task>, written: seq<Output>, i: nat)
    requires i < |tasks| && tasks[i] == Task(Oversized, Settled) && InOrder(tasks, written)
    requires forall a | 0 <= a < |written| :: written[a].task < i
    ensures InOrder(tasks, written + [Refusal(i)])
  {
    assert forall a | 0 <= a < |written| :: (written + [Refusal(i)])[a] == written[a];
  }

  lemma RefuseKeeps(c: Conn, i: nat, writable: bool)
    requires Inv(c) && MayStart(c.tasks, i) && !c.closed && c.tasks[i].work == Oversized
    ensures Inv(Over(c.(closed := true, written := c.written + if writable then [Refusal(i)] else []), i))
  {
    assert forall a | 0 <= a < |c.written| :: c.written[a].task < i;
    assert forall k | 0 <= k < i :: c.tasks[k].status == Settled;
    hide Pending, InTurn, InOrder, OversizedLast;
    PendingUpdate(c.tasks, i, Settled);
    SettledInOrder(c.tasks, c.written, i);
    RefusalInOrder(c.tasks[i := c.tasks[i].(status := Settled)], c.written, i);
    EmptyIsUnit(c.written);
  }

  lemma RespondKeeps(cfg: Config, c: Conn, i: nat, response: string, writable: bool)
    requires Inv(c) && HasStatus(c.tasks, i, Handling)
    ensures Inv(Step(cfg, c, Respond(i, response, writable)))
  {
    hide Pending;
    if !c.closed && writable {
      PendingUpdate(c.tasks, i, Flushing);
      assert forall a | 0 <= a < |c.written| :: c.written[a].task < i;
    } else {
      OverKeeps(c, i);
    }
  }

  lemma {:induction false} RunKeeps(cfg: Config, events: seq<Event>)
    ensures Inv(Run(cfg, events))
  {
    hide Step;
    if events != [] {
      hide Inv;
      RunKeeps(cfg, events[..|events| - 1]);
      StepKeeps(cfg, Run(cfg, events[..|events| - 1]), events[|events| - 1]);
    }
  }

  // ---------------------------------------------------------------- what that means for a run

  predicate UnderWay(task: Task) {
    task.status == Handling || task.status == Flushing
  }

  /**
   * In every interleaving: one task at a time, in request order; responses in request order and a
   * refusal last; and while the socket is open it is paused, its idle timer off, exactly while
   * work is unfinished, so idleness cannot cut a request off.
   */
  lemma ServesInOrder(cfg: Config, events: seq<Event>)
    ensures var c := Run(cfg, events);
            && (forall i, j | 0 <= i < j < |c.tasks| :: !(UnderWay(c.tasks[i]) && UnderWay(c.tasks[j])))
            && (forall k | 0 <= k < |c.tasks| - 1 && c.tasks[k + 1].status != Waiting :: c.tasks[k].status == Settled)
            && (forall a, b | 0 <= a < b < |c.written| :: c.written[a].task < c.written[b].task && c.written[a].Reply?)
            && c.queued == Pending(c.tasks)
            && (!c.closed ==> (c.paused <==> c.queued > 0) && (c.idleTimer <==> c.queued == 0))
            && (!c.closed && c.queued > 0 ==> Step(cfg, c, Idle) == c)
  {
    hide Run;
    RunKeeps(cfg, events);
    var c := Run(cfg, events);
    forall a | 0 <= a < |c.written| - 1 ensures c.written[a].Reply? {
      assert c.written[a].task < c.written[a + 1].task < |c.tasks|;
      assert c.tasks[c.written[a].task].work != Oversized;
    }
  }

  lemma {:induction false} FirstPending(tasks: seq<Task>) returns (k: nat)
    requires Pending(tasks) > 0
    ensures k < |tasks| && tasks[k].status != Settled && forall i | 0 <= i < k :: tasks[i].status == Settled
  {
    var n := |tasks| - 1;
    if Pending(tasks[..n]) > 0 {
      k := FirstPending(tasks[..n]);
    } else {
      AllOver(tasks[..n]);
      k := n;
    }
  }

  lemma {:induction false} AllOver(tasks: seq<Task>)
    requires Pending(tasks) == 0
    ensures forall i | 0 <= i < |tasks| :: tasks[i].status == Settled
  {
    if tasks != [] {
      AllOver(tasks[..|tasks| - 1]);
    }
  }

  function Stage(status: Status): nat {
    match status
    case Waiting => 0
    case Handling => 1
    case Flushing => 2
    case Settled => 3
  }

  /** The event brings task `k` further and leaves every other task where it is. */
  predicate Advances(cfg: Config, c: Conn, e: Event, k: nat) {
    var later := Step(cfg, c, e).tasks;
    && k < |c.tasks| == |later| && Stage(later[k].status) > Stage(c.tasks[k].status)
    && forall i | 0 <= i < |later| && i != k :: later[i] == c.tasks[i]
  }

  /**
   * The queue never stalls: while work is unfinished, some task advances when its turn comes, when
   * its handler comes back or throws, or when its write is flushed.
   */
  lemma NeverStuck(cfg: Config, events: seq<Event>) returns (k: nat)
    requires Run(cfg, events).queued > 0
    ensures var c := Run(cfg, events);
            && k < |c.tasks|
            && match c.tasks[k].status
               case Waiting => forall w :: Advances(cfg, c, Start(k, w), k)
               case Handling => Advances(cfg, c, Fail(k), k) && forall r, w :: Advances(cfg, c, Respond(k, r, w), k)
               case Flushing => Advances(cfg, c, Flush(k), k)
               case Settled => false
  {
    hide Run;
    RunKeeps(cfg, events);
    var c := Run(cfg, events);
    k := FirstPending(c.tasks);
    hide Inv;
  }

  lemma {:induction false} WrittenLeavesByFlush(cfg: Config, events: seq<Event>, k: nat)
    requires exists a :: 0 <= a < |Run(cfg, events).written| && Run(cfg, events).written[a].task == k
                         && Run(cfg, events).written[a].Reply?
    requires k < |Run(cfg, events).tasks| && Run(cfg, events).tasks[k].status == Settled
    ensures Flush(k) in events
  {
    var before, e := Run(cfg, events[..|events| - 1]), events[|events| - 1];
    RunKeeps(cfg, events[..|events| - 1]);
    if e != Flush(k) {
      WrittenStays(cfg, before, e, k);
      WrittenLeavesByFlush(cfg, events[..|events| - 1], k);
    }
  }

  /** What was written stays written, and only a flush ends the task of a reply. */
  lemma WrittenStays(cfg: Config, c: Conn, e: Event, k: nat)
    requires Inv(c) && e != Flush(k)
    requires exists a :: 0 <= a < |Step(cfg, c, e).written| && Step(cfg, c, e).written[a].task == k
                         && Step(cfg, c, e).written[a].Reply?
    requires k < |Step(cfg, c, e).tasks| && Step(cfg, c, e).tasks[k].status == Settled
    ensures k < |c.tasks| && c.tasks[k].status == Settled
    ensures exists a :: 0 <= a < |c.written| && c.written[a].task == k && c.written[a].Reply?
  {
    hide Step;
    var d := Step(cfg, c, e);
    var a :| 0 <= a < |d.written| && d.written[a].task == k && d.written[a].Reply?;
    if e.Data? {
      DataWrites(cfg, c, e.chunk);
    } else {
      ReplyStays(cfg, c, e, a);
    }
    assert c.written[a] == d.written[a];
  }

  lemma DataWrites(cfg: Config, c: Conn, chunk: Bytes)
    requires Inv(c)
    ensures Step(cfg, c, Data(chunk)).written == c.written && c.tasks <= Step(cfg, c, Data(chunk)).tasks
    ensures forall a | 0 <= a < |c.written| :: c.written[a].task < |c.tasks|
  {
    DataOnlyAdds(cfg, c, chunk);
    hide AfterData;
  }

  lemma ReplyStays(cfg: Config, c: Conn, e: Event, a: nat)
    requires Inv(c) && !e.Data?
    requires a < |Step(cfg, c, e).written| && Step(cfg, c, e).written[a].Reply?
    requires var d := Step(cfg, c, e);
             && d.written[a].task < |d.tasks| && d.tasks[d.written[a].task].status == Settled
             && e != Flush(d.written[a].task)
    ensures a < |c.written| && c.written[a] == Step(cfg, c, e).written[a]
    ensures c.written[a].task < |c.tasks| && c.tasks[c.written[a].task].status == Settled
  {
    hide Pending, InTurn, OversizedLast, AllRequests;
  }

  lemma DataOnlyAdds(cfg: Config, c: Conn, chunk: Bytes)
    requires InOrder(c.tasks, c.written)
    ensures AfterData(cfg, c, chunk).written == c.written
    ensures c.tasks <= AfterData(cfg, c, chunk).tasks
  {
    if c.accepting {
      var cut := Cut(c.buffer + chunk, NEWLINE);
      LinesOnlyAdd(cfg, c.(buffer := cut.rest), cut.closed);
    }
  }

  lemma {:induction false} LinesOnlyAdd(cfg: Config, c: Conn, lines: seq<Bytes>)
    ensures LinesTaken(cfg, c, lines).written == c.written && LinesTaken(cfg, c, lines).closed == c.closed
    ensures c.tasks <= LinesTaken(cfg, c, lines).tasks
  {
    if lines != [] {
      LinesOnlyAdd(cfg, c, lines[..|lines| - 1]);
    }
  }

  /** The next handler starts only once a written response is flushed: every prefix of a run is a run. */
  lemma NextStartsAfterFlush(cfg: Config, events: seq<Event>, k: nat, a: nat)
    requires a < |Run(cfg, events).written|
    requires Run(cfg, events).written[a].Reply? && Run(cfg, events).written[a].task == k
    requires k + 1 < |Run(cfg, events).tasks| && Run(cfg, events).tasks[k + 1].status != Waiting
    ensures Flush(k) in events
  {
    hide Run;
    RunKeeps(cfg, events);
    WrittenLeavesByFlush(cfg, events, k);
  }

  // ---------------------------------------------------------------- what is served

  function Works(tasks: seq<Task>): seq<Item> {
    seq(|tasks|, i requires 0 <= i < |tasks| => tasks[i].work)
  }

  /** The text received while the connection was open. */
  function Heard(cfg: Config, events: seq<Event>): Bytes {
    if events == [] then []
    else
      var before := events[..|events| - 1];
      Heard(cfg, before) +
      if events[|events| - 1].Data? && !Run(cfg, before).closed then events[|events| - 1].chunk else []
  }

  ghost predicate Framed(cfg: Config, c: Conn, heard: Bytes) {
    && Works(c.tasks) == UpToOversized(Due(cfg, heard))
    && (c.accepting ==> Oversized !in Due(cfg, heard) && c.buffer == Cut(heard, NEWLINE).rest)
    && (!c.accepting && !c.closed ==> Oversized in Due(cfg, heard) && c.buffer == [])
  }

  lemma WorksOne(tasks: seq<Task>, work: Item)
    ensures Works(tasks + [Task(work, Waiting)]) == Works(tasks) + [work]
  {
  }

  lemma {:induction false} LinesWork(cfg: Config, c: Conn, lines: seq<Bytes>)
    requires c.accepting
    ensures var d := LinesTaken(cfg, c, lines);
            && Works(d.tasks) == Works(c.tasks) + UpToOversized(AllItems(cfg, lines))
            && (d.accepting <==> Oversized !in AllItems(cfg, lines))
            && d.buffer == if d.accepting then c.buffer else []
  {
    if lines == [] {
      EmptyIsUnit(Works(c.tasks));
    } else {
      hide Works, AllItems;
      var init, line := lines[..|lines| - 1], lines[|lines| - 1];
      LinesWork(cfg, c, init);
      LastApart(lines);
      AllItemsOne(cfg, init, line);
      UpToPrefix(AllItems(cfg, init), Items(cfg, line));
      LineWork(cfg, LinesTaken(cfg, c, init), line);
      NoOversized(AllItems(cfg, init));
      Assoc(Works(c.tasks), AllItems(cfg, init), UpToOversized(Items(cfg, line)));
    }
  }

  lemma {:induction false} NoOversized(items: seq<Item>)
    ensures Oversized !in items ==> UpToOversized(items) == items
  {
    if items != [] {
      NoOversized(items[1..]);
    }
  }

  /** One line, taken by a connection still accepting. */
  lemma LineWork(cfg: Config, c: Conn, line: Bytes)
    ensures c.accepting ==>
              var d := if |line| + 1 > cfg.max then Rejected(c)
                       else if cfg.blank(line) then c else Enqueued(c, Request(line));
              && Works(d.tasks) == Works(c.tasks) + UpToOversized(Items(cfg, line))
              && (d.accepting <==> Oversized !in Items(cfg, line))
              && d.buffer == if d.accepting then c.buffer else []
  {
    WorksOne(c.tasks, Oversized);
    WorksOne(c.tasks, Request(line));
    EmptyIsUnit(Works(c.tasks));
    hide Works;
  }

  lemma DataFrames(cfg: Config, c: Conn, heard: Bytes, chunk: Bytes)
    requires Framed(cfg, c, heard) && !c.closed
    ensures Framed(cfg, AfterData(cfg, c, chunk), heard + chunk)
  {
    if !c.accepting {
      hide Due;
      GivenUpForGood(cfg, heard, chunk);
      DueGrows(cfg, heard, chunk);
    } else {
      AcceptedDataFrames(cfg, c, heard, chunk);
    }
  }

  lemma AcceptedDataFrames(cfg: Config, c: Conn, heard: Bytes, chunk: Bytes)
    requires Framed(cfg, c, heard) && !c.closed && c.accepting
    ensures Framed(cfg, AfterData(cfg, c, chunk), heard + chunk)
  {
    hide Works, AllItems, Cut, LinesTaken;
    var cut := Cut(c.buffer + chunk, NEWLINE);
    var taken := LinesTaken(cfg, c.(buffer := cut.rest), cut.closed);
    var items := AllItems(cfg, cut.closed);
    assert Due(cfg, heard) == AllItems(cfg, Cut(heard, NEWLINE).closed) by {
      EmptyIsUnit(AllItems(cfg, Cut(heard, NEWLINE).closed));
    }
    DueAppend(cfg, heard, chunk);
    CutAppend(heard, chunk, NEWLINE);
    NoOversized(Due(cfg, heard));
    UpToPrefix(Due(cfg, heard), Due(cfg, c.buffer + chunk));
    UpToPrefix(items, Unfinished(cfg, cut.rest));
    NoOversized(items);
    LinesWork(cfg, c.(buffer := cut.rest), cut.closed);
    WorksOne(taken.tasks, Oversized);
    Assoc(Works(c.tasks), items, Unfinished(cfg, cut.rest));
    EmptyIsUnit(Works(c.tasks) + items);
  }

  /** Chunk independence: the work taken on is a function of the text heard, and it is that of the other framers. */
  lemma {:induction false} WorkIsDue(cfg: Config, events: seq<Event>)
    ensures Framed(cfg, Run(cfg, events), Heard(cfg, events))
  {
    if events == [] {
      assert Due(cfg, []) == [] by { DueOpen(cfg, []); }
    } else {
      hide Framed, Due;
      var before, e := Run(cfg, events[..|events| - 1]), events[|events| - 1];
      WorkIsDue(cfg, events[..|events| - 1]);
      RunKeeps(cfg, events[..|events| - 1]);
      if e.Data? && !before.closed {
        DataFrames(cfg, before, Heard(cfg, events[..|events| - 1]), e.chunk);
      } else {
        EmptyIsUnit(Heard(cfg, events[..|events| - 1]));
        OthersFrame(cfg, before, Heard(cfg, events[..|events| - 1]), e);
      }
    }
  }

  lemma OthersFrame(cfg: Config, c: Conn, heard: Bytes, e: Event)
    requires Framed(cfg, c, heard) && Inv(c) && (e.Data? ==> c.closed)
    ensures Framed(cfg, Step(cfg, c, e), heard)
  {
    hide Due, UpToOversized, Cut, LinesTaken, Pending, InTurn, InOrder, OversizedLast, AllRequests;
    assert Works(Step(cfg, c, e).tasks) == Works(c.tasks);
  }

  /** An event of a connection nobody tears down, whose writes and handlers succeed. */
  predicate Healthy(e: Event) {
    match e
    case Data(_) => true
    case Start(_, writable) => writable
    case Respond(_, _, writable) => writable
    case Fail(_) => false
    case Flush(_) => true
    case Stop => false
    case Idle => false
  }

  /** Exactly the first tasks have an output, one each. */
  ghost predicate Answered(c: Conn) {
    && |c.written| <= |c.tasks|
    && (forall a | 0 <= a < |c.written| :: c.written[a].task == a)
    && (forall i | 0 <= i < |c.tasks| :: c.tasks[i].status in {Flushing, Settled} <==> i < |c.written|)
    && (c.closed ==> forall i | 0 <= i < |c.tasks| :: c.tasks[i].status == Settled)
  }

  lemma HealthyStepAnswers(cfg: Config, c: Conn, e: Event)
    requires Inv(c) && Answered(c) && Healthy(e)
    ensures Answered(Step(cfg, c, e))
  {
    match e
    case Data(chunk) =>
      if c.accepting {
        hide LinesTaken, Inv;
        NewTasksWait(cfg, c, chunk);
      }
    case Start(i, _) =>
      if MayStart(c.tasks, i) {
        assert i == |c.written|;
        assert c.tasks[i].work == Oversized ==> i == |c.tasks| - 1;
      }
    case Respond(i, _, _) =>
      if HasStatus(c.tasks, i, Handling) {
        assert i > 0 ==> c.tasks[i - 1].status == Settled;
        assert i == |c.written|;
      }
    case Flush(i) =>
  }

  lemma NewTasksWait(cfg: Config, c: Conn, chunk: Bytes)
    requires c.accepting && !c.closed && Answered(c)
    ensures Answered(AfterData(cfg, c, chunk))
  {
    var cut := Cut(c.buffer + chunk, NEWLINE);
    NewLinesWait(cfg, c.(buffer := cut.rest), cut.closed);
  }

  lemma {:induction false} NewLinesWait(cfg: Config, c: Conn, lines: seq<Bytes>)
    requires Answered(c) && !c.closed
    ensures Answered(LinesTaken(cfg, c, lines)) && !LinesTaken(cfg, c, lines).closed
  {
    if lines != [] {
      NewLinesWait(cfg, c, lines[..|lines| - 1]);
    }
  }

  lemma {:induction false} HealthyRunAnswers(cfg: Config, events: seq<Event>)
    requires forall i | 0 <= i < |events| :: Healthy(events[i])
    ensures Answered(Run(cfg, events))
  {
    hide Step;
    if events != [] {
      hide Inv, Answered;
      RunKeeps(cfg, events[..|events| - 1]);
      HealthyRunAnswers(cfg, events[..|events| - 1]);
      HealthyStepAnswers(cfg, Run(cfg, events[..|events| - 1]), events[|events| - 1]);
    } else {
      assert Answered(OPENED);
    }
  }

  // ---------------------------------------------------------------- what is written

  /** At step `n` the handler of task `k` came back with `response`, while the connection was open and writable. */
  ghost predicate Responded(cfg: Config, events: seq<Event>, n: nat, k: nat, response: string) {
    && n < |events| && events[n] == Respond(k, response, true)
    && var before := Run(cfg, events[..n]);
       !before.closed && k < |before.tasks| && before.tasks[k].status == Handling
  }

  /** At step `n` the turn of the oversized line `k` came, while the connection was open and writable. */
  ghost predicate Refused(cfg: Config, events: seq<Event>, n: nat, k: nat) {
    && n < |events| && events[n] == Start(k, true)
    && var before := Run(cfg, events[..n]);
       && !before.closed && k < |before.tasks| && before.tasks[k] == Task(Oversized, Waiting)
       && (k > 0 ==> before.tasks[k - 1].status == Settled)
  }

  /** What a step writes. */
  lemma StepWrites(cfg: Config, c: Conn, e: Event)
    ensures Step(cfg, c, e).written == c.written +
              if e.Respond? && e.writable && !c.closed && e.task < |c.tasks| && c.tasks[e.task].status == Handling then
                [Reply(e.task, e.response)]
              else if e.Start? && e.writable && !c.closed && e.task < |c.tasks|
                      && c.tasks[e.task] == Task(Oversized, Waiting)
                      && (e.task > 0 ==> c.tasks[e.task - 1].status == Settled) then
                [Refusal(e.task)]
              else []
  {
    hide AfterData;
    EmptyIsUnit(c.written);
    match e
    case Data(chunk) => WritesNothing(cfg, c, chunk);
    case Start(i, writable) =>
      if MayStart(c.tasks, i) {
        StartWrites(c, i, writable);
        hide Started;
      }
    case _ =>
  }

  lemma StartWrites(c: Conn, i: nat, writable: bool)
    requires i < |c.tasks|
    ensures Started(c, i, writable).written == c.written +
              if writable && !c.closed && c.tasks[i].work == Oversized then [Refusal(i)] else []
  {
    EmptyIsUnit(c.written);
  }

  lemma WritesNothing(cfg: Config, c: Conn, chunk: Bytes)
    ensures AfterData(cfg, c, chunk).written == c.written
  {
    if c.accepting {
      var cut := Cut(c.buffer + chunk, NEWLINE);
      LinesWriteNothing(cfg, c.(buffer := cut.rest), cut.closed);
      hide Cut;
    }
  }

  lemma {:induction false} LinesWriteNothing(cfg: Config, c: Conn, lines: seq<Bytes>)
    ensures LinesTaken(cfg, c, lines).written == c.written
  {
    if lines != [] {
      LinesWriteNothing(cfg, c, lines[..|lines| - 1]);
    }
  }

  lemma RunOne(cfg: Config, events: seq<Event>, e: Event)
    ensures Run(cfg, events + [e]) == Step(cfg, Run(cfg, events), e)
  {
    assert (events + [e])[..|events|] == events;
  }

  lemma RunNone(cfg: Config)
    ensures Run(cfg, []) == OPENED
  {
  }

  lemma StillResponded(cfg: Config, events: seq<Event>, e: Event, n: nat, k: nat, response: string)
    ensures n < |events| ==> (Responded(cfg, events + [e], n, k, response) <==> Responded(cfg, events, n, k, response))
    ensures n < |events| ==> (Refused(cfg, events + [e], n, k) <==> Refused(cfg, events, n, k))
    ensures (events + [e])[..|events|] == events && (events + [e])[|events|] == e
  {
    hide Run;
    assert n < |events| ==> (events + [e])[..n] == events[..n] && (events + [e])[n] == events[n];
  }

  /**
   * What is written, and only that: the replies are the responses handlers came back with while the
   * connection was open and writable, and refusals stand for oversized lines whose turn came then.
   */
  lemma {:induction false} WrittenIff(cfg: Config, events: seq<Event>, k: nat, response: string)
    ensures Reply(k, response) in Run(cfg, events).written
            <==> exists n: nat :: Responded(cfg, events, n, k, response)
    ensures Refusal(k) in Run(cfg, events).written <==> exists n: nat :: Refused(cfg, events, n, k)
  {
    hide Run, Step;
    if events == [] {
      RunNone(cfg);
    } else {
      var before, e := events[..|events| - 1], events[|events| - 1];
      LastApart(events);
      WrittenIff(cfg, before, k, response);
      RunOne(cfg, before, e);
      StepWrites(cfg, Run(cfg, before), e);
      forall n: nat ensures n < |before| ==>
          && (Responded(cfg, events, n, k, response) <==> Responded(cfg, before, n, k, response))
          && (Refused(cfg, events, n, k) <==> Refused(cfg, before, n, k)) {
        StillResponded(cfg, before, e, n, k, response);
      }
      StillResponded(cfg, before, e, 0, k, response);
      if Responded(cfg, before + [e], |before|, k, response) || Refused(cfg, before + [e], |before|, k) {
        assert e.Respond? || e.Start?;
      }
    }
  }

  /** At step `n` the connection came to be closed: by the socket, by its idle timer, or after a refusal. */
  ghost predicate ClosedAt(cfg: Config, events: seq<Event>, n: nat) {
    && n < |events|
    && var before, e := Run(cfg, events[..n]), events[n];
       || e == Stop
       || (e == Idle && !before.closed && before.queued == 0)
       || (e.Start? && e.task < |before.tasks| && before.tasks[e.task] == Task(Oversized, Waiting)
           && (e.task > 0 ==> before.tasks[e.task - 1].status == Settled))
  }

  lemma StepCloses(cfg: Config, c: Conn, e: Event)
    requires Inv(c)
    ensures Step(cfg, c, e).closed <==>
              || c.closed || e == Stop || (e == Idle && !c.closed && c.queued == 0)
              || (e.Start? && e.task < |c.tasks| && c.tasks[e.task] == Task(Oversized, Waiting)
                  && (e.task > 0 ==> c.tasks[e.task - 1].status == Settled))
  {
    hide InTurn, InOrder, OversizedLast, Pending, AllRequests, AfterData;
    if e.Data? {
      DataClosesNothing(cfg, c, e.chunk);
    }
  }

  lemma DataClosesNothing(cfg: Config, c: Conn, chunk: Bytes)
    ensures AfterData(cfg, c, chunk).closed == c.closed
  {
    if c.accepting {
      var cut := Cut(c.buffer + chunk, NEWLINE);
      LinesCloseNothing(cfg, c.(buffer := cut.rest), cut.closed);
      hide Cut;
    }
  }

  lemma {:induction false} LinesCloseNothing(cfg: Config, c: Conn, lines: seq<Bytes>)
    ensures LinesTaken(cfg, c, lines).closed == c.closed
  {
    if lines != [] {
      LinesCloseNothing(cfg, c, lines[..|lines| - 1]);
    }
  }

  /** A connection is closed exactly if at some step one of these happened to it, and then hears nothing any more. */
  lemma {:induction false} ClosedIff(cfg: Config, events: seq<Event>)
    ensures Run(cfg, events).closed <==> exists n: nat :: ClosedAt(cfg, events, n)
    ensures Run(cfg, events).closed ==> !Run(cfg, events).accepting
  {
    hide Run, Step, Inv;
    if events == [] {
      RunNone(cfg);
    } else {
      var before, e := events[..|events| - 1], events[|events| - 1];
      LastApart(events);
      ClosedIff(cfg, before);
      RunOne(cfg, before, e);
      RunKeeps(cfg, before);
      RunKeeps(cfg, events);
      StepCloses(cfg, Run(cfg, before), e);
      ClosedMeans(Run(cfg, events));
      forall n: nat ensures n < |before| ==> (ClosedAt(cfg, events, n) <==> ClosedAt(cfg, before, n)) {
        assert n < |before| ==> events[..n] == before[..n] && events[n] == before[n];
      }
      assert events[..|before|] == before;
      assert ClosedAt(cfg, events, |before|) ==> Run(cfg, events).closed;
    }
  }

  lemma ClosedMeans(c: Conn)
    requires Inv(c)
    ensures c.closed ==> !c.accepting
  {
  }

  /**
   * Every request is answered once and in order: when a healthy connection has worked off its
   * queue, its outputs are one reply per request line heard, each with a response its own handler
   * came back with, then a refusal if one line was oversized.
   */
  lemma EveryRequestAnswered(cfg: Config, events: seq<Event>)
    requires forall i | 0 <= i < |events| :: Healthy(events[i])
    requires forall i | 0 <= i < |Run(cfg, events).tasks| :: Run(cfg, events).tasks[i].status == Settled
    ensures var due, written := UpToOversized(Due(cfg, Heard(cfg, events))), Run(cfg, events).written;
            |written| == |due| && forall a | 0 <= a < |due| ::
              && written[a].task == a && (written[a].Refusal? <==> due[a] == Oversized)
              && (due[a] != Oversized ==>
                  && (exists n: nat :: Responded(cfg, events, n, a, written[a].response))
                  && forall n: nat, x :: Responded(cfg, events, n, a, x) ==> x == written[a].response)
  {
    hide Run, Due, Heard, UpToOversized, Responded;
    WorkIsDue(cfg, events);
    RunKeeps(cfg, events);
    HealthyRunAnswers(cfg, events);
    var c := Run(cfg, events);
    assert |c.written| == |c.tasks| == |Works(c.tasks)|;
    assert forall a | 0 <= a < |c.tasks| :: Works(c.tasks)[a] == c.tasks[a].work;
    forall a | 0 <= a < |c.tasks| && c.written[a].Reply?
      ensures exists n: nat :: Responded(cfg, events, n, a, c.written[a].response)
    {
      assert c.written[a] == Reply(a, c.written[a].response) && c.written[a] in c.written;
      WrittenIff(cfg, events, a, c.written[a].response);
    }
    forall a, n: nat, x | 0 <= a < |c.tasks| && c.written[a].Reply? && Responded(cfg, events, n, a, x)
      ensures x == c.written[a].response
    {
      WrittenIff(cfg, events, a, x);
      var b :| 0 <= b < |c.written| && c.written[b] == Reply(a, x);
    }
  }

  // ---------------------------------------------------------------- the object

  class Connection {
    const cfg: Config
    var buffer: Bytes
    var accepting: bool
    var closed: bool
    var queued: int
    var tasks: seq<Task>
    var paused: bool
    var idleTimer: bool
    var written: seq<Output>

    ghost function State(): Conn
      reads this
    {
      Conn(buffer, accepting, closed, queued, tasks, paused, idleTimer, written)
    }

    constructor (cfg: Config)
      ensures this.cfg == cfg && State() == OPENED
    {
      this.cfg := cfg;
      buffer, accepting, closed, queued, tasks := [], true, false, 0, [];
      paused, idleTimer, written := false, true, [];
    }

    method Enqueue(work: Item)
      modifies this
      ensures State() == Enqueued(old(State()), work)
    {
      if queued == 0 {
        paused := true;
      }
      queued := queued + 1;
      idleTimer := false;
      tasks := tasks + [Task(work, Waiting)];
    }

    method RejectOversizedRequest()
      modifies this
      ensures State() == Rejected(old(State()))
    {
      if !accepting {
        return;
      }
      accepting := false;
      buffer := [];
      Enqueue(Oversized);
    }

    method OnData(chunk: Bytes)
      modifies this
      ensures State() == AfterData(cfg, old(State()), chunk)
    {
      hide Cut, Enqueued;
      if !accepting {
        return;
      }
      buffer := buffer + chunk;
      var lines := Cut(buffer, NEWLINE).closed;
      buffer := Cut(buffer, NEWLINE).rest;
      ghost var taken := State();
      for i := 0 to |lines|
        invariant accepting && State() == LinesTaken(cfg, taken, lines[..i]) && buffer == taken.buffer
      {
        var line := lines[i];
        assert lines[..i + 1][..i] == lines[..i];
        if |line| + 1 > cfg.max {
          KeepsBuffer(State().(accepting := false, buffer := []), Oversized);
          RejectOversizedRequest();
          StaysRejected(cfg, taken, lines, i + 1);
          return;
        }
        if cfg.blank(line) {
          continue;
        }
        KeepsBuffer(State(), Request(line));
        Enqueue(Request(line));
      }
      assert lines[..|lines|] == lines;
      if |buffer| > cfg.max {
        RejectOversizedRequest();
      }
    }

    /** One step of task `i`: its turn, its handler's result, its handler's failure or its flushed write. */
    method OnTask(e: Event)
      requires e.Start? || e.Respond? || e.Fail? || e.Flush?
      modifies this
      ensures State() == Step(cfg, old(State()), e)
    {
      match e
      case Start(i, writable) =>
        if MayStart(tasks, i) {
          if closed {
            Finally(i);
          } else if tasks[i].work == Oversized {
            closed := true;
            if writable {
              written := written + [Refusal(i)];
            }
            Finally(i);
          } else {
            tasks := tasks[i := tasks[i].(status := Handling)];
          }
        }
      case Respond(i, response, writable) =>
        if HasStatus(tasks, i, Handling) {
          if !closed && writable {
            written := written + [Reply(i, response)];
            tasks := tasks[i := tasks[i].(status := Flushing)];
          } else {
            Finally(i);
          }
        }
      case Fail(i) =>
        if HasStatus(tasks, i, Handling) {
          Finally(i);
        }
      case Flush(i) =>
        if HasStatus(tasks, i, Flushing) {
          Finally(i);
        }
    }

    method Finally(i: nat)
      requires i < |tasks|
      modifies this
      ensures State() == Over(old(State()), i)
    {
      tasks := tasks[i := tasks[i].(status := Settled)];
      queued := queued - 1;
      if !closed && queued == 0 {
        idleTimer := true;
        paused := false;
      }
    }

    method OnStop()
      modifies this
      ensures State() == Step(cfg, old(State()), Stop)
    {
      closed := true;
      accepting := false;
    }
  }

  lemma KeepsBuffer(c: Conn, work: Item)
    ensures Enqueued(c, work).buffer == c.buffer && Enqueued(c, work).accepting == c.accepting
  {
  }

  /** The early return from the loop over lines skips lines that would no longer be taken. */
  lemma {:induction false} StaysRejected(cfg: Config, c: Conn, lines: seq<Bytes>, i: nat)
    requires i <= |lines| && !LinesTaken(cfg, c, lines[..i]).accepting
    ensures LinesTaken(cfg, c, lines) == LinesTaken(cfg, c, lines[..i])
  {
    if i < |lines| {
      assert lines[..|lines| - 1][..i] == lines[..i];
      StaysRejected(cfg, c, lines[..|lines| - 1], i);
    } else {
      assert lines[..i] == lines;
    }
  }
}
