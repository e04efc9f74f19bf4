/**
 How a change of a config reaches the handler (pkg/controller/controller.go: the informer handlers, enqueue, the pollers
 and the workers), as interleaved steps around the work queue. One queue is modelled; the cluster queue is its twin.
 */
module Delivery {
  import opened Options
  import opened WorkQueue

  /** A notification of the informer, in delivery order; versions are resource versions. */
  datatype Note = Added(key: string, version: nat) | Updated(key: string, was: nat, now: nat) | Removed(key: string)

  /** A worker is idle, has taken a key, or is handling the version it has read from the lister. */
  datatype Worker = Idle | Took(key: string) | Busy(key: string, read: Option<nat>)

  /** `handled` holds the version of each config that was handled last; `clock` is the newest version seen. */
  datatype State = State(cache: map<string, nat>, clock: nat, pending: seq<Note>, queue: Queue<string>,
                         workers: map<nat, Worker>, polling: seq<string>, handled: map<string, nat>,
                         gets: nat, dones: nat)

  datatype Step =
    | Change(key: string, version: nat)
    | Remove(key: string)
    | Resync(key: string)
    | Poll(listing: seq<string>)
    | Stop
    | Deliver
    | PollNext
    | Expire(key: string)
    | Take(worker: nat)
    | Read(worker: nat)
    | Finish(worker: nat)

  predicate Initial(s: State) {
    && s.cache == map[] && s.pending == [] && s.queue == Empty() && s.polling == [] && s.handled == map[]
    && s.gets == 0 && s.dones == 0 && forall w :: w in s.workers ==> s.workers[w] == Idle
  }

  /**
   The informer handlers: an update with an unchanged version is a resync and is dropped, deletions are not watched.
   */
  function OnNote(q: Queue<string>, note: Note): Queue<string> {
    match note
    case Added(key, _) => AddRateLimited(q, key)
    case Updated(key, was, now) => if was == now then q else AddRateLimited(q, key)
    case Removed(_) => q
  }

  ghost predicate Enabled(s: State, step: Step) {
    match step
    case Change(_, version) => version > s.clock
    case Remove(key) => key in s.cache
    case Resync(key) => key in s.cache
    case Poll(listing) => s.polling == [] && (forall k :: k in listing <==> k in s.cache)
    case Stop => true
    case Deliver => s.pending != []
    case PollNext => s.polling != []
    case Expire(key) => key in s.queue.delayed
    case Take(w) => w in s.workers && s.workers[w].Idle? && s.queue.items != []
    case Read(w) => w in s.workers && s.workers[w].Took?
    case Finish(w) => w in s.workers && s.workers[w].Busy?
  }

  ghost function Next(s: State, step: Step): State
    requires Enabled(s, step)
  {
    match step
    case Change(key, version) =>
      var note := if key in s.cache then Updated(key, s.cache[key], version) else Added(key, version);
      s.(cache := s.cache[key := version], clock := version, pending := s.pending + [note])
    case Remove(key) => s.(cache := s.cache - {key}, pending := s.pending + [Removed(key)])
    case Resync(key) => s.(pending := s.pending + [Updated(key, s.cache[key], s.cache[key])])
    case Poll(listing) => s.(polling := listing)
    case Stop => s.(queue := s.queue.(down := true))
    case Deliver => s.(pending := s.pending[1..], queue := OnNote(s.queue, s.pending[0]))
    case PollNext => s.(polling := s.polling[1..], queue := AddRateLimited(s.queue, s.polling[0]))
    case Expire(key) => s.(queue := Release(s.queue, key))
    case Take(w) =>
      var (key, q) := Get(s.queue);
      s.(queue := q, workers := s.workers[w := Took(key)], gets := s.gets + 1)
    case Read(w) =>
      var key := s.workers[w].key;
      s.(workers := s.workers[w := Busy(key, if key in s.cache then Some(s.cache[key]) else None)])
    case Finish(w) =>
      var Busy(key, read) := s.workers[w];
      s.(queue := Done(s.queue, key), workers := s.workers[w := Idle], dones := s.dones + 1,
         handled := if read.Some? then s.handled[key := read.value] else s.handled)
  }

  // ---- The invariant ----

  predicate Wakes(note: Note, key: string) {
    match note
    case Added(k, _) => k == key
    case Updated(k, was, now) => k == key && was != now
    case Removed(_) => false
  }

  predicate UpToDate(s: State, key: string) {
    key in s.cache && key in s.handled && s.handled[key] == s.cache[key]
  }

  ghost predicate Noted(s: State, key: string) {
    exists i :: 0 <= i < |s.pending| && Wakes(s.pending[i], key)
  }

  /** A worker has the key and will handle, or is handling, the version that is cached now. */
  ghost predicate InHand(s: State, key: string)
    requires key in s.cache
  {
    exists w :: w in s.workers && (s.workers[w] == Took(key) || s.workers[w] == Busy(key, Some(s.cache[key])))
  }

  /** The key of a cached config is on its way to the handler. */
  ghost predicate Waiting(s: State, key: string)
    requires key in s.cache
  {
    Noted(s, key) || key in s.queue.delayed || key in s.queue.dirty || InHand(s, key)
  }

  ghost predicate NothingLost(s: State) {
    !s.queue.down ==> forall key :: key in s.cache ==> UpToDate(s, key) || Waiting(s, key)
  }

  predicate Holds(s: State, w: nat, key: string) {
    w in s.workers && !s.workers[w].Idle? && s.workers[w].key == key
  }

  /** Whose hands a key is in, as `Exclusive` sees it. */
  ghost predicate HandsKnown(s: State) {
    && (forall key :: key in s.queue.processing <==> exists w :: Holds(s, w, key))
    && (forall w, w', key :: Holds(s, w, key) && Holds(s, w', key) ==> w == w')
  }

  /**
   A key is in the hands of at most one worker, and the queue knows of it; Gets outnumber Dones by the keys in hand.
   */
  ghost predicate Exclusive(s: State) {
    && WellFormed(s.queue)
    && HandsKnown(s)
    && s.gets == s.dones + |s.queue.processing|
  }

  /** Versions only move forward, and a worker never holds a version older than the one handled last. */
  ghost predicate Monotone(s: State) {
    && (forall key :: key in s.cache ==> s.cache[key] <= s.clock)
    && (forall key :: key in s.handled ==> s.handled[key] <= s.clock)
    && (forall key :: key in s.handled && key in s.cache ==> s.handled[key] <= s.cache[key])
    && (forall w :: w in s.workers && s.workers[w].Busy? && s.workers[w].read.Some? ==>
          var Busy(key, read) := s.workers[w];
          && read.value <= s.clock
          && (key in s.cache ==> read.value <= s.cache[key])
          && (key in s.handled ==> s.handled[key] <= read.value))
  }

  lemma HandsUnchanged(s: State, s': State)
    requires HandsKnown(s) && s'.queue.processing == s.queue.processing
    requires forall w, key :: Holds(s', w, key) <==> Holds(s, w, key)
    ensures HandsKnown(s')
  {
  }

  lemma ExclusiveNext(s: State, step: Step)
    requires Exclusive(s) && Enabled(s, step)
    ensures Exclusive(Next(s, step))
  {
    var s' := Next(s, step);
    match step
    case Take(w) =>
      GetKeeps(s.queue);
      TakeHands(s, w);
    case Finish(w) =>
      assert Holds(s, w, s.workers[w].key);
      DoneKeeps(s.queue, s.workers[w].key);
      FinishHands(s, w);
    case _ =>
      HandsUnchanged(s, s');
      QueueKept(s, step);
  }

  lemma QueueKept(s: State, step: Step)
    requires WellFormed(s.queue) && Enabled(s, step) && !step.Take? && !step.Finish?
    ensures WellFormed(Next(s, step).queue)
  {
    match step
    case Deliver => AddKeeps(s.queue, s.pending[0].key);
    case PollNext => AddKeeps(s.queue, s.polling[0]);
    case Expire(key) => AddKeeps(s.queue, key);
    case _ =>
  }

  lemma TakeHands(s: State, w: nat)
    requires Exclusive(s) && Enabled(s, Take(w))
    ensures HandsKnown(Next(s, Take(w)))
  {
    var s', key := Next(s, Take(w)), Get(s.queue).0;
    GetKeeps(s.queue);
    assert forall w', k :: Holds(s', w', k) <==> Holds(s, w', k) || (w' == w && k == key);
    assert Holds(s', w, key);
    forall k
      ensures k in s'.queue.processing <==> exists w' :: Holds(s', w', k)
    {
      if w' :| Holds(s, w', k) {
        assert Holds(s', w', k);
      }
      if w' :| Holds(s', w', k) {
        assert k == key || Holds(s, w', k);
      }
    }
  }

  lemma FinishHands(s: State, w: nat)
    requires Exclusive(s) && Enabled(s, Finish(w))
    ensures HandsKnown(Next(s, Finish(w)))
  {
    var s', key := Next(s, Finish(w)), s.workers[w].key;
    assert Holds(s, w, key);
    assert forall w', k :: Holds(s', w', k) <==> Holds(s, w', k) && w' != w;
    forall k
      ensures k in s'.queue.processing <==> exists w' :: Holds(s', w', k)
    {
      if w' :| Holds(s, w', k) {
        assert k != key ==> w' != w && Holds(s', w', k);
      }
      if w' :| Holds(s', w', k) {
        assert Holds(s, w', k);
      }
    }
  }

  lemma MonotoneNext(s: State, step: Step)
    requires Exclusive(s) && Monotone(s) && Enabled(s, step)
    ensures Monotone(Next(s, step))
  {
    match step
    case Finish(w) =>
      forall w' | w' in s.workers && w' != w && s.workers[w'].Busy?
        ensures s.workers[w'].key != s.workers[w].key
      {
        if s.workers[w'].key == s.workers[w].key {
          assert Holds(s, w, s.workers[w].key) && Holds(s, w', s.workers[w].key);
        }
      }
    case _ =>
  }

  lemma NotedNext(s: State, step: Step, key: string)
    requires Enabled(s, step) && Noted(s, key) && !Next(s, step).queue.down
    ensures Noted(Next(s, step), key) || key in Next(s, step).queue.delayed
  {
    var s' := Next(s, step);
    var i :| 0 <= i < |s.pending| && Wakes(s.pending[i], key);
    if step.Deliver? {
      assert i > 0 ==> s'.pending[i - 1] == s.pending[i];
    } else {
      assert s'.pending[i] == s.pending[i];
    }
  }

  lemma InHandNext(s: State, step: Step, key: string)
    requires Enabled(s, step) && key in s.cache && InHand(s, key)
    requires key in Next(s, step).cache && s.cache[key] == Next(s, step).cache[key]
    ensures UpToDate(Next(s, step), key) || InHand(Next(s, step), key)
  {
    var s' := Next(s, step);
    var w :| w in s.workers && (s.workers[w] == Took(key) || s.workers[w] == Busy(key, Some(s.cache[key])));
    if step != Finish(w) {
      assert s'.workers[w] == s.workers[w] || s'.workers[w] == Busy(key, Some(s.cache[key]));
    }
  }

  lemma QueuedNext(s: State, step: Step, key: string)
    requires Enabled(s, step) && !Next(s, step).queue.down && key in Next(s, step).cache
    requires key in s.queue.delayed || key in s.queue.dirty
    ensures Waiting(Next(s, step), key)
  {
    match step
    case Take(w) => assert Next(s, step).workers[w] == Took(Get(s.queue).0);
    case _ =>
  }

  /** While the version handled last is the cached one, a worker can only finish that version again. */
  lemma UpToDateNext(s: State, step: Step, key: string)
    requires Monotone(s) && Enabled(s, step) && UpToDate(s, key)
    requires key in Next(s, step).cache && s.cache[key] == Next(s, step).cache[key]
    ensures UpToDate(Next(s, step), key)
  {
  }

  lemma WaitingNext(s: State, step: Step, key: string)
    requires Monotone(s) && Enabled(s, step) && !Next(s, step).queue.down && key in s.cache
    requires key in Next(s, step).cache && s.cache[key] == Next(s, step).cache[key]
    requires UpToDate(s, key) || Waiting(s, key)
    ensures UpToDate(Next(s, step), key) || Waiting(Next(s, step), key)
  {
    if UpToDate(s, key) {
      UpToDateNext(s, step, key);
    } else if Noted(s, key) {
      NotedNext(s, step, key);
    } else if InHand(s, key) {
      InHandNext(s, step, key);
    } else {
      QueuedNext(s, step, key);
    }
  }

  lemma NothingLostNext(s: State, step: Step)
    requires Exclusive(s) && Monotone(s) && NothingLost(s) && Enabled(s, step)
    ensures NothingLost(Next(s, step))
  {
    var s' := Next(s, step);
    if !s'.queue.down {
      forall key | key in s'.cache
        ensures UpToDate(s', key) || Waiting(s', key)
      {
        if step.Change? && step.key == key {
          assert Wakes(s'.pending[|s.pending|], key);
        } else {
          WaitingNext(s, step, key);
        }
      }
    }
  }

  ghost predicate Inv(s: State) {
    Exclusive(s) && Monotone(s) && NothingLost(s)
  }

  lemma InvNext(s: State, step: Step)
    requires Inv(s) && Enabled(s, step)
    ensures Inv(Next(s, step))
  {
    ExclusiveNext(s, step);
    MonotoneNext(s, step);
    NothingLostNext(s, step);
  }

  // ---- Every interleaving ----

  ghost predicate Run(states: seq<State>, steps: seq<Step>) {
    && |states| == |steps| + 1 && Initial(states[0])
    && forall i :: 0 <= i < |steps| ==> Enabled(states[i], steps[i]) && states[i + 1] == Next(states[i], steps[i])
  }

  lemma {:induction false} RunKeepsInv(states: seq<State>, steps: seq<Step>, n: nat)
    requires Run(states, steps) && n < |states|
    ensures Inv(states[n])
  {
    if n > 0 {
      RunKeepsInv(states, steps, n - 1);
      InvNext(states[n - 1], steps[n - 1]);
    }
  }

  /**
   No change is lost: in every state of every run before shutdown, a cached config that is not the version handled last
   is noted, delayed, dirty, or in the hands of a worker that has not read the lister yet or has read this version.
   */
  lemma NoLostChange(states: seq<State>, steps: seq<Step>, n: nat, key: string)
    requires Run(states, steps) && n < |states|
    requires !states[n].queue.down && key in states[n].cache && !UpToDate(states[n], key)
    ensures Waiting(states[n], key)
  {
    RunKeepsInv(states, steps, n);
  }

  /** No key is handled by two workers at once, and every Get that has returned is matched by one Done. */
  lemma HandledByOne(states: seq<State>, steps: seq<Step>, n: nat)
    requires Run(states, steps) && n < |states|
    ensures forall w, w', key :: Holds(states[n], w, key) && Holds(states[n], w', key) ==> w == w'
    ensures states[n].gets == states[n].dones + |states[n].queue.processing|
    ensures (forall w :: w in states[n].workers ==> states[n].workers[w].Idle?) ==> states[n].gets == states[n].dones
  {
    RunKeepsInv(states, steps, n);
    var s := states[n];
    if forall w :: w in s.workers ==> s.workers[w].Idle? {
      assert s.queue.processing == {};
    }
  }

  // ---- Eventual handling ----

  /** The steps that the controller makes by itself, without a change, a poll or a shutdown. */
  predicate Internal(step: Step) {
    step.Deliver? || step.PollNext? || step.Expire? || step.Take? || step.Read? || step.Finish?
  }

  function Taken(workers: map<nat, Worker>): set<nat> {
    set w | w in workers && workers[w].Took?
  }

  function Handling(workers: map<nat, Worker>): set<nat> {
    set w | w in workers && workers[w].Busy?
  }

  function InHandWork(workers: map<nat, Worker>): nat {
    3 * |Taken(workers)| + 2 * |Handling(workers)|
  }

  function QueueWork(q: Queue<string>): nat {
    5 * |q.delayed| + 4 * |q.dirty|
  }

  function Work(s: State): nat {
    6 * |s.pending| + 6 * |s.polling| + QueueWork(s.queue) + InHandWork(s.workers)
  }

  lemma WorkerWork(workers: map<nat, Worker>, w: nat, now: Worker)
    requires w in workers
    requires match workers[w]
             case Idle => now.Took?
             case Took(_) => now.Busy?
             case Busy(_, _) => now.Idle?
    ensures InHandWork(workers[w := now]) == InHandWork(workers) + if now.Took? then 3 else if now.Busy? then -1 else -2
  {
    var workers' := workers[w := now];
    match now
    case Took(_) =>
      assert Taken(workers') == Taken(workers) + {w} && Handling(workers') == Handling(workers);
    case Busy(_, _) =>
      assert Taken(workers') == Taken(workers) - {w} && Handling(workers') == Handling(workers) + {w};
    case Idle =>
      assert Taken(workers') == Taken(workers) && Handling(workers') == Handling(workers) - {w};
  }

  lemma ReleaseWork(q: Queue<string>, key: string)
    ensures QueueWork(AddRateLimited(q, key)) <= QueueWork(q) + 5
    ensures key in q.delayed ==> QueueWork(Release(q, key)) < QueueWork(q)
  {
    if key in q.delayed {
      assert q.delayed == q.delayed - {key} + {key};
    }
  }

  lemma InternalStepsEnd(s: State, step: Step)
    requires Exclusive(s) && Enabled(s, step) && Internal(step)
    ensures Work(Next(s, step)) < Work(s)
  {
    match step
    case Deliver =>
      ReleaseWork(s.queue, s.pending[0].key);
    case PollNext =>
      ReleaseWork(s.queue, s.polling[0]);
    case Expire(key) =>
      ReleaseWork(s.queue, key);
    case Take(w) =>
      GetKeeps(s.queue);
      WorkerWork(s.workers, w, Took(Get(s.queue).0));
    case Read(w) =>
      WorkerWork(s.workers, w, Next(s, step).workers[w]);
    case Finish(w) =>
      WorkerWork(s.workers, w, Idle);
  }

  lemma InternalStepsSpare(s: State, step: Step)
    requires Enabled(s, step) && Internal(step)
    ensures var s' := Next(s, step);
            s'.cache == s.cache && s'.queue.down == s.queue.down && s'.workers.Keys == s.workers.Keys
  {
  }

  ghost predicate Quiet(s: State) {
    forall step :: Internal(step) ==> !Enabled(s, step)
  }

  /** When the controller has nothing left to do, every cached config was last handled at its cached version. */
  lemma QuietIsUpToDate(s: State, key: string)
    requires Inv(s) && Quiet(s) && !s.queue.down && s.workers.Keys != {} && key in s.cache
    ensures UpToDate(s, key)
  {
    assert !Enabled(s, Deliver);
    forall w | w in s.workers
      ensures s.workers[w].Idle?
    {
      assert !Enabled(s, Read(w)) && !Enabled(s, Finish(w));
    }
    var w :| w in s.workers.Keys;
    assert !Enabled(s, Take(w));
    assert !Enabled(s, Expire(key));
    assert key !in s.queue.dirty by {
      assert key in s.queue.items <==> key in s.queue.dirty && key !in s.queue.processing;
    }
  }

  ghost predicate InternalRun(s: State, steps: seq<Step>, last: State)
    decreases |steps|
  {
    if steps == [] then last == s
    else Internal(steps[0]) && Enabled(s, steps[0]) && InternalRun(Next(s, steps[0]), steps[1..], last)
  }

  /**
   Left to itself the controller catches up: its own steps, in whatever order they come, are at most `Work(s)`, keep the
   invariant, and where they stop every cached config was last handled at its cached version.
   */
  lemma {:induction false} CatchesUp(s: State, steps: seq<Step>, last: State)
    requires Inv(s) && !s.queue.down && s.workers.Keys != {} && InternalRun(s, steps, last)
    ensures |steps| <= Work(s) && last.cache == s.cache && Inv(last)
    ensures Quiet(last) ==> forall key :: key in s.cache ==> UpToDate(last, key)
    decreases |steps|
  {
    if steps == [] {
      if Quiet(last) {
        forall key | key in s.cache
          ensures UpToDate(last, key)
        {
          QuietIsUpToDate(last, key);
        }
      }
    } else {
      InvNext(s, steps[0]);
      InternalStepsEnd(s, steps[0]);
      InternalStepsSpare(s, steps[0]);
      CatchesUp(Next(s, steps[0]), steps[1..], last);
    }
  }

  // ---- The code ----

  /** A deletion and a resync leave the queue alone, and nothing else does while the queue is up. */
  lemma OnNoteMeans(q: Queue<string>, note: Note)
    ensures note.Removed? ==> OnNote(q, note) == q
    ensures note.Updated? && note.was == note.now ==> OnNote(q, note) == q
    ensures note.Added? || (note.Updated? && note.was != note.now) ==>
              OnNote(q, note) == if q.down then q else q.(delayed := q.delayed + {note.key})
  {
  }

  method Notify(queue: RateLimitingQueue<string>, note: Note)
    modifies queue
    ensures queue.q == OnNote(old(queue.q), note)
    ensures queue.q == old(queue.q)
            <==> note.Removed? || (note.Updated? && note.was == note.now)
                 || old(queue.q).down || note.key in old(queue.q).delayed
  {
    match note
    case Added(key, _) =>
      queue.EnqueueLimited(key);
    case Updated(key, was, now) =>
      if was == now {
        return;
      }
      queue.EnqueueLimited(key);
    case Removed(_) =>
  }

  /** The queue after a whole poll. */
  function Polled(q: Queue<string>, listing: seq<string>): Queue<string> {
    if q.down then q else q.(delayed := q.delayed + KeysOf(listing))
  }

  method PollConfigs(queue: RateLimitingQueue<string>, listing: seq<string>)
    modifies queue
    ensures queue.q == Polled(old(queue.q), listing)
  {
    for i := 0 to |listing|
      invariant queue.q == Polled(old(queue.q), listing[..i])
    {
      queue.EnqueueLimited(listing[i]);
      assert KeysOf(listing[..i + 1]) == KeysOf(listing[..i]) + {listing[i]};
    }
    assert listing[..|listing|] == listing;
  }

  /** Its steps, uninterrupted, are the whole poll. */
  lemma {:induction false} PollIsItsSteps(s: State)
    ensures InternalRun(s, seq(|s.polling|, _ => PollNext), s.(polling := [], queue := Polled(s.queue, s.polling)))
    decreases |s.polling|
  {
    var steps := seq(|s.polling|, _ => PollNext);
    if s.polling == [] {
      assert s.(polling := [], queue := Polled(s.queue, s.polling)) == s;
    } else {
      var s' := Next(s, PollNext);
      assert steps[1..] == seq(|s'.polling|, _ => PollNext);
      assert KeysOf(s.polling) == {s.polling[0]} + KeysOf(s'.polling);
      assert Polled(s'.queue, s'.polling) == Polled(s.queue, s.polling);
      PollIsItsSteps(s');
    }
  }

  /** A poll can start whenever none is under way, and puts every cached config on its way to the handler. */
  lemma PollWakesAll(s: State, listing: seq<string>)
    requires s.polling == [] && !s.queue.down && forall k :: k in listing <==> k in s.cache
    ensures Enabled(s, Poll(listing))
    ensures var begun := Next(s, Poll(listing));
            exists last :: InternalRun(begun, seq(|listing|, _ => PollNext), last) && s.cache.Keys <= last.queue.delayed
  {
    PollIsItsSteps(Next(s, Poll(listing)));
  }

  /** Configs may change and disappear, and the controller may be stopped, at any time. */
  lemma OthersAreFree(s: State, key: string, version: nat)
    ensures version > s.clock ==>
              Enabled(s, Change(key, version)) && Next(s, Change(key, version)).cache == s.cache[key := version]
    ensures key in s.cache ==> Enabled(s, Remove(key)) && Next(s, Remove(key)).cache == s.cache - {key}
    ensures key in s.cache ==> Enabled(s, Resync(key)) && Next(s, Resync(key)).cache == s.cache
    ensures Enabled(s, Stop) && Next(s, Stop).queue.down
  {
  }

  /** After that nothing new is taken in: what is still handled was dirty by then. */
  lemma DownIsFinal(s: State, step: Step)
    requires s.queue.down && Enabled(s, step)
    ensures Next(s, step).queue.down && Next(s, step).queue.dirty <= s.queue.dirty
  {
  }

  /** One change, from the informer to the handler and back to rest, with a single worker. */
  lemma OneChange(key: string, version: nat, w: nat)
    requires version > 0
    ensures var s := State(map[], 0, [], Empty(), map[w := Idle], [], map[], 0, 0);
            var versions := map[key := version];
            var handled := State(versions, version, [], Empty(), map[w := Idle], [], versions, 1, 1);
            && Initial(s) && Enabled(s, Change(key, version))
            && InternalRun(Next(s, Change(key, version)), [Deliver, Expire(key), Take(w), Read(w), Finish(w)], handled)
  {
    var versions := map[key := version];
    var s := State(map[], 0, [], Empty(), map[w := Idle], [], map[], 0, 0);
    var noted := State(versions, version, [Added(key, version)], Empty(), map[w := Idle], [], map[], 0, 0);
    assert Next(s, Change(key, version)) == noted;
    OneDelivery(versions, key, version, w);
    OneHandling(versions, key, version, w);
    var queued := State(versions, version, [], Queue([key], {key}, {}, {}, false), map[w := Idle], [], map[], 0, 0);
    var delayed := State(versions, version, [], Queue([], {}, {}, {key}, false), map[w := Idle], [], map[], 0, 0);
    var handled := State(versions, version, [], Empty(), map[w := Idle], [], versions, 1, 1);
    OneStepMore(delayed, [Expire(key), Take(w), Read(w), Finish(w)], handled);
    OneStepMore(noted, [Deliver, Expire(key), Take(w), Read(w), Finish(w)], handled);
  }

  lemma OneDelivery(versions: map<string, nat>, key: string, version: nat, w: nat)
    ensures var noted := State(versions, version, [Added(key, version)], Empty(), map[w := Idle], [], map[], 0, 0);
            var inDelay := Queue([], {}, {}, {key}, false);
            var delayed := State(versions, version, [], inDelay, map[w := Idle], [], map[], 0, 0);
            Next(noted, Deliver) == delayed
            && Next(delayed, Expire(key)) ==
               State(versions, version, [], Queue([key], {key}, {}, {}, false), map[w := Idle], [], map[], 0, 0)
  {
    var delayed := State(versions, version, [], Queue([], {}, {}, {key}, false), map[w := Idle], [], map[], 0, 0);
    assert {key} - {key} == {} && [] + [key] == [key] && {} + {key} == {key};
    assert Next(delayed, Expire(key)).queue == Queue([key], {key}, {}, {}, false);
  }

  lemma OneHandling(versions: map<string, nat>, key: string, version: nat, w: nat)
    requires versions == map[key := version]
    ensures InternalRun(
              State(versions, version, [], Queue([key], {key}, {}, {}, false), map[w := Idle], [], map[], 0, 0),
              [Take(w), Read(w), Finish(w)],
              State(versions, version, [], Empty(), map[w := Idle], [], versions, 1, 1))
  {
    var queued := State(versions, version, [], Queue([key], {key}, {}, {}, false), map[w := Idle], [], map[], 0, 0);
    var inHand := Queue([], {}, {key}, {}, false);
    var took := State(versions, version, [], inHand, map[w := Took(key)], [], map[], 1, 0);
    var busy := State(versions, version, [], inHand, map[w := Busy(key, Some(version))], [], map[], 1, 0);
    var handled := State(versions, version, [], Empty(), map[w := Idle], [], versions, 1, 1);
    assert Next(queued, Take(w)) == took;
    assert Next(took, Read(w)) == busy;
    assert Next(busy, Finish(w)) == handled;
    OneStepMore(busy, [Finish(w)], handled);
    OneStepMore(took, [Read(w), Finish(w)], handled);
    OneStepMore(queued, [Take(w), Read(w), Finish(w)], handled);
  }

  lemma OneStepMore(s: State, steps: seq<Step>, last: State)
    requires steps != [] && Internal(steps[0]) && Enabled(s, steps[0])
    requires if |steps| == 1 then last == Next(s, steps[0]) else InternalRun(Next(s, steps[0]), steps[1..], last)
    ensures InternalRun(s, steps, last)
  {
    assert |steps| == 1 ==> steps[1..] == [];
  }
}
