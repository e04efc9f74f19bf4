/**
 The client-go rate limited work queue, as the contract the controller relies on, and the worker loop over it
 (pkg/controller/controller.go, makeWorker).
 */
module WorkQueue {
  import opened Options

  /** `dirty`: keys to be processed; `delayed`: keys whose rate delay has not passed; `items`: the order of service. */
  datatype Queue<T(==)> = Queue(items: seq<T>, dirty: set<T>, processing: set<T>, delayed: set<T>,
                         down: bool)

  function Empty<T(==)>(): Queue<T> {
    Queue([], {}, {}, {}, false)
  }

  function Add<T(==)>(q: Queue<T>, key: T): Queue<T> {
    if q.down || key in q.dirty then q
    else q.(dirty := q.dirty + {key}, items := if key in q.processing then q.items else q.items + [key])
  }

  function AddRateLimited<T(==)>(q: Queue<T>, key: T): Queue<T> {
    if q.down then q else q.(delayed := q.delayed + {key})
  }

  /** The rate delay of `key` has passed. */
  function Release<T(==)>(q: Queue<T>, key: T): Queue<T> {
    Add(q.(delayed := q.delayed - {key}), key)
  }

  function Get<T(==)>(q: Queue<T>): (T, Queue<T>)
    requires q.items != []
  {
    var key := q.items[0];
    (key, q.(items := q.items[1..], processing := q.processing + {key}, dirty := q.dirty - {key}))
  }

  function Done<T(==)>(q: Queue<T>, key: T): Queue<T> {
    q.(processing := q.processing - {key}, items := if key in q.dirty then q.items + [key] else q.items)
  }

  /** What is queued is exactly what is dirty and not being processed, each key once. */
  ghost predicate WellFormed<T(!new)>(q: Queue<T>) {
    && (forall i, j :: 0 <= i < j < |q.items| ==> q.items[i] != q.items[j])
    && (forall k :: k in q.items <==> k in q.dirty && k !in q.processing)
  }

  lemma AddKeeps<T(!new)>(q: Queue<T>, key: T)
    requires WellFormed(q)
    ensures WellFormed(Add(q, key)) && WellFormed(AddRateLimited(q, key)) && WellFormed(Release(q, key))
    ensures !q.down ==> key in Add(q, key).dirty
  {
  }

  /** A queue that is down takes nothing in, and gives up the keys that were delayed. */
  lemma DownTakesNothing<T(!new)>(q: Queue<T>, key: T)
    requires q.down
    ensures Add(q, key) == q && AddRateLimited(q, key) == q && Release(q, key) == q.(delayed := q.delayed - {key})
  {
  }

  lemma GetKeeps<T(!new)>(q: Queue<T>)
    requires WellFormed(q) && q.items != []
    ensures WellFormed(Get(q).1) && Get(q).0 in q.dirty && Get(q).0 !in q.processing
  {
    var (key, q') := Get(q);
    assert q.items == [key] + q'.items;
    assert key in q.items;
    assert key !in q'.items;
    forall k
      ensures k in q'.items <==> k in q'.dirty && k !in q'.processing
    {
      assert k in q.items <==> k == key || k in q'.items;
    }
  }

  lemma DoneKeeps<T(!new)>(q: Queue<T>, key: T)
    requires WellFormed(q) && key in q.processing
    ensures WellFormed(Done(q, key))
  {
    assert key !in q.items;
  }

  function KeysOf<T(==)>(keys: seq<T>): set<T> {
    set k | k in keys
  }

  /** The keys among the items, in order; an item that is no key is only forgotten. */
  function KeysAmong<T>(items: seq<T>, keyOf: T -> Option<string>): seq<string> {
    if items == [] then []
    else
      KeysAmong(items[..|items| - 1], keyOf)
      + match keyOf(items[|items| - 1]) { case Some(key) => [key] case None => [] }
  }

  // ---- What a worker does to the queue ----

  /** From `q` to `q'` the first key is taken and done with, and `keys` arrive, unless the queue is down by then. */
  ghost predicate TurnOf<T(!new)>(q: Queue<T>, keys: seq<T>, q': Queue<T>)
    requires q.items != []
  {
    && WellFormed(q') && q'.processing == {} && q.items[1..] <= q'.items
    && q'.dirty == q.dirty - {q.items[0]} + (if q'.down then {} else KeysOf(keys))
    && forall m :: |q.items| - 1 <= m < |q'.items| ==> q'.items[m] in keys
  }

  /** The rate limiter forgets `key` and counts nothing but `keys`. */
  ghost predicate Forgets<T(!new)>(before: map<T, nat>, keys: seq<T>, now: map<T, nat>, key: T) {
    key !in now && now - KeysOf(keys) == before - KeysOf(keys) - {key}
  }

  /**
   `all` was queued at first, the n-th list of `arrivals` came while the n-th of `taken` was handled, and `q` is left:
   the first keys come first, every later key has arrived before, and what arrived before the shutdown, which came
   with the n-th key for n = `stop`, is taken after or still dirty.
   */
  ghost predicate Served<T(!new)>(all: seq<T>, arrivals: seq<seq<T>>, stop: nat, taken: seq<T>, q: Queue<T>) {
    && all <= taken + q.items
    && (forall n, k :: 0 <= n < |taken| && n < |arrivals| && n < stop && k in arrivals[n] ==>
          k in taken[n + 1..] || k in q.dirty)
    && (forall m :: |all| <= m < |taken + q.items| ==> Arrived(arrivals, m, (taken + q.items)[m]))
  }

  /** `key` was among the arrivals before the m-th key was taken. */
  ghost predicate Arrived<T(!new)>(arrivals: seq<seq<T>>, m: nat, key: T) {
    exists n :: 0 <= n < m && n < |arrivals| && key in arrivals[n]
  }

  /** Of the keys that are not asked for again, those that were taken are forgotten and the others are as before. */
  ghost predicate Forgotten<T(!new)>(before: map<T, nat>, taken: seq<T>, q: Queue<T>, now: map<T, nat>) {
    now - q.dirty == before - KeysOf(taken) - q.dirty
  }

  lemma ServedNext<T(!new)>(all: seq<T>, arrivals: seq<seq<T>>, stop: nat, taken: seq<T>, q: Queue<T>, keys: seq<T>,
                          q': Queue<T>)
    requires q.items != [] && Served(all, arrivals, stop, taken, q) && TurnOf(q, keys, q')
    requires q'.down ==> stop <= |taken|
    requires keys == if |taken| < |arrivals| then arrivals[|taken|] else []
    ensures Served(all, arrivals, stop, taken + [q.items[0]], q')
  {
    var key, taken' := q.items[0], taken + [q.items[0]];
    assert taken + q.items == taken' + q.items[1..];
    assert taken' + q.items[1..] <= taken' + q'.items;
    forall n, k | 0 <= n < |taken'| && n < |arrivals| && n < stop && k in arrivals[n]
      ensures k in taken'[n + 1..] || k in q'.dirty
    {
      if n < |taken| {
        assert taken'[n + 1..] == taken[n + 1..] + [key];
      }
    }
    forall m | |all| <= m < |taken' + q'.items|
      ensures Arrived(arrivals, m, (taken' + q'.items)[m])
    {
      if m < |taken + q.items| {
        assert (taken' + q'.items)[m] == (taken + q.items)[m];
        assert Arrived(arrivals, m, (taken + q.items)[m]);
      } else {
        assert (taken' + q'.items)[m] == q'.items[m - |taken'|];
      }
    }
  }

  lemma ForgottenNext<T(!new)>(before: map<T, nat>, taken: seq<T>,
                      q: Queue<T>, counts: map<T, nat>, keys: seq<T>,
                      q': Queue<T>, counts': map<T, nat>)
    requires q.items != [] && !q'.down && Forgotten(before, taken, q, counts)
    requires TurnOf(q, keys, q') && Forgets(counts, keys, counts', q.items[0])
    ensures Forgotten(before, taken + [q.items[0]], q', counts')
  {
    var key := q.items[0];
    var left, left' := before - KeysOf(taken) - q.dirty, before - KeysOf(taken + [key]) - q'.dirty;
    assert KeysOf(taken + [key]) == KeysOf(taken) + {key};
    assert q'.dirty + {key} == q.dirty + KeysOf(keys) + {key};
    forall k
      ensures k in counts' - q'.dirty <==> k in left'
      ensures k in left' ==> counts'[k] == left'[k]
    {
      assert k in counts' - KeysOf(keys) <==> k in counts - KeysOf(keys) - {key};
      assert k in counts - q.dirty <==> k in left;
      if k in left' {
        assert k in left;
        assert counts[k] == (counts - q.dirty)[k] == left[k] == before[k];
        assert counts'[k] == (counts' - KeysOf(keys))[k] == counts[k];
      }
    }
  }

  /** What `Served` says in the end. */
  lemma ServedAll<T(!new)>(all: seq<T>, arrivals: seq<seq<T>>, stop: nat, taken: seq<T>, q: Queue<T>)
    requires Served(all, arrivals, stop, taken, q) && q.items == [] && q.dirty == {}
    ensures all <= taken
    ensures forall n, k :: 0 <= n < |taken| && n < |arrivals| && n < stop && k in arrivals[n] ==> k in taken[n + 1..]
    ensures forall m :: |all| <= m < |taken| ==> Arrived(arrivals, m, taken[m])
  {
    assert taken + q.items == taken;
    forall n, k | 0 <= n < |taken| && n < |arrivals| && n < stop && k in arrivals[n]
      ensures k in taken[n + 1..]
    {
      assert k in taken[n + 1..] || k in q.dirty;
    }
  }

  lemma NothingDirty<T(!new)>(q: Queue<T>)
    requires WellFormed(q) && q.items == [] && q.processing == {}
    ensures q.dirty == {}
  {
    forall k
      ensures k !in q.dirty
    {
      assert k in q.items <==> k in q.dirty && k !in q.processing;
    }
  }

  // ---- The code ----

  /** `attempts` is the rate limiter's count of additions since a key was last forgotten. */
  class RateLimitingQueue<T(==, !new)> {
    var q: Queue<T>
    var attempts: map<T, nat>

    constructor ()
      ensures q == Empty() && attempts == map[]
    {
      q, attempts := Empty(), map[];
    }

    /** AddRateLimited: the limiter counts the attempt even when the queue is down. */
    method EnqueueLimited(key: T)
      modifies this
      ensures q == AddRateLimited(old(q), key)
      ensures attempts == old(attempts)[key := (if key in old(attempts) then old(attempts)[key] else 0) + 1]
    {
      attempts := attempts[key := (if key in attempts then attempts[key] else 0) + 1];
      if !q.down {
        q := q.(delayed := q.delayed + {key});
      }
    }

    method ReleaseDelayed(key: T)
      requires key in q.delayed
      modifies this`q
      ensures q == Release(old(q), key)
    {
      q := q.(delayed := q.delayed - {key});
      if !q.down && key !in q.dirty {
        q := q.(dirty := q.dirty + {key});
        if key !in q.processing {
          q := q.(items := q.items + [key]);
        }
      }
    }

    method TakeNext() returns (key: T)
      requires q.items != []
      modifies this`q
      ensures (key, q) == Get(old(q))
    {
      key := q.items[0];
      q := q.(items := q.items[1..], processing := q.processing + {key}, dirty := q.dirty - {key});
    }

    method Finish(key: T)
      modifies this`q
      ensures q == Done(old(q), key)
    {
      q := q.(processing := q.processing - {key});
      if key in q.dirty {
        q := q.(items := q.items + [key]);
      }
    }

    method Forget(key: T)
      modifies this`attempts
      ensures attempts == old(attempts) - {key}
    {
      attempts := attempts - {key};
    }

    /** Keys that are enqueued, and whose delay passes, while a key is being handled. */
    method Meanwhile(keys: seq<T>)
      requires WellFormed(q)
      modifies this
      ensures WellFormed(q) && old(q.items) <= q.items
      ensures q.processing == old(q.processing) && q.down == old(q.down)
      ensures q.dirty == old(q.dirty) + if q.down then {} else KeysOf(keys)
      ensures forall k :: k in q.items[|old(q.items)|..] ==> k in keys
      ensures attempts - KeysOf(keys) == old(attempts) - KeysOf(keys)
    {
      for i := 0 to |keys|
        invariant WellFormed(q) && old(q.items) <= q.items
        invariant q.processing == old(q.processing) && q.down == old(q.down)
        invariant q.dirty == old(q.dirty) + if q.down then {} else KeysOf(keys[..i])
        invariant forall k :: k in q.items[|old(q.items)|..] ==> k in keys
        invariant attempts - KeysOf(keys) == old(attempts) - KeysOf(keys)
      {
        AddKeeps(q.(delayed := q.delayed + {keys[i]}), keys[i]);
        EnqueueLimited(keys[i]);
        if !q.down {
          ReleaseDelayed(keys[i]);
        }
        assert KeysOf(keys[..i + 1]) == KeysOf(keys[..i]) + {keys[i]};
      }
      assert keys[..|keys|] == keys;
    }

    method ShutDown()
      modifies this`q
      ensures q == old(q).(down := true)
    {
      q := q.(down := true);
    }

    /** One turn of the worker: Get, the handler, Forget, Done; `keys` arrive, or the queue is shut down, meanwhile. */
    method HandleNext(keys: seq<T>, stops: bool) returns (key: T)
      requires WellFormed(q) && q.processing == {} && q.items != []
      modifies this
      ensures key == old(q.items)[0] && q.down == (old(q.down) || stops)
      ensures TurnOf(old(q), keys, q) && Forgets(old(attempts), keys, attempts, key)
      ensures keys == [] ==> |q.items| < |old(q.items)|
    {
      GetKeeps(q);
      key := TakeNext();
      if stops {
        ShutDown();
      }
      Meanwhile(keys);
      Forget(key);
      DoneKeeps(q, key);
      Finish(key);
      assert |q.items| >= |old(q.items)| ==> q.items[|old(q.items)| - 1] in keys;
    }

    /**
     The worker loop until the queue runs empty, where Get blocks or reports the shutdown. Meanwhile the n-th list of
     `arrivals` comes while the n-th item is handled, and the shutdown with the item number `stop`, if there is one.
     What was queued is taken first and in order; what arrives before the shutdown is taken after it arrived, and
     nothing else is; each Get is matched by a Done. The handler is called for the items that are keys.
     */
    method Work(arrivals: seq<seq<T>>, stop: nat, keyOf: T -> Option<string>)
      returns (taken: seq<T>, handled: seq<string>)
      requires WellFormed(q) && q.processing == {}
      modifies this
      ensures q.items == [] && q.dirty == {} && q.processing == {} && q.down == (old(q.down) || stop < |taken|)
      ensures old(q.items) <= taken && handled == KeysAmong(taken, keyOf)
      ensures forall n, k ::
                0 <= n < |taken| && n < |arrivals| && n < stop && !old(q.down) && k in arrivals[n]
                ==> k in taken[n + 1..]
      ensures forall m :: |old(q.items)| <= m < |taken| ==> Arrived(arrivals, m, taken[m])
      ensures !q.down ==> attempts == old(attempts) - KeysOf(taken)
    {
      ghost var open := if q.down then 0 else stop;
      taken, handled := [], [];
      while q.items != []
        invariant WellFormed(q) && q.processing == {} && q.down == (old(q.down) || stop < |taken|)
        invariant handled == KeysAmong(taken, keyOf)
        invariant Served(old(q.items), arrivals, open, taken, q)
        invariant !q.down ==> Forgotten(old(attempts), taken, q, attempts)
        decreases if |taken| < |arrivals| then |arrivals| - |taken| else 0, |q.items|
      {
        ghost var was, counts := q, attempts;
        var keys := if |taken| < |arrivals| then arrivals[|taken|] else [];
        var item := HandleNext(keys, stop == |taken|);
        ServedNext(old(q.items), arrivals, open, taken, was, keys, q);
        if !q.down {
          ForgottenNext(old(attempts), taken, was, counts, keys, q, attempts);
        }
        assert (taken + [item])[..|taken|] == taken;
        if keyOf(item).Some? {
          handled := handled + [keyOf(item).value];
        }
        taken := taken + [item];
      }
      NothingDirty(q);
      ServedAll(old(q.items), arrivals, open, taken, q);
      assert !q.down ==> attempts == old(attempts) - KeysOf(taken) by {
        assert attempts - q.dirty == attempts;
        assert old(attempts) - KeysOf(taken) - q.dirty == old(attempts) - KeysOf(taken);
      }
    }
  }
}
