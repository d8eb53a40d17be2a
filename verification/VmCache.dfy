/** The shared cache of hashing machines. A machine is keyed by its 32-byte seed; any
    task may hold a reference to it, and two tasks hashing on one machine is fatal. */
module VmCache {
  import opened Words

  type Task = string

  datatype Entry = Entry(holders: set<Task>, hashers: set<Task>)

  /** What a log line says: a concurrent access, or a call out of order. */
  datatype Event = Crash(task: Task, key: Word) | Misuse(task: Task, key: Word)

  datatype Cache = Cache(vms: map<Word, Entry>, log: seq<Event>)

  const EMPTY := Cache(map[], [])

  datatype Op =
    | GetOp(task: Task, key: Word)
    | StartOp(task: Task, key: Word)
    | StopOp(task: Task, key: Word)
    | ReleaseOp(task: Task, key: Word)

  function Lookup(c: Cache, key: Word): Entry {
    if key in c.vms then c.vms[key] else Entry({}, {})
  }

  function Put(c: Cache, key: Word, e: Entry): Cache {
    c.(vms := c.vms[key := e])
  }

  function Logged(c: Cache, e: Event): Cache {
    c.(log := c.log + [e])
  }

  function Get(c: Cache, task: Task, key: Word): (Cache, bool) {
    var e := Lookup(c, key);
    if e.hashers - {task} != {} then
      (Logged(Put(c, key, e.(holders := e.holders + {task})), Crash(task, key)), false)
    else if e.holders - {task} != {} && task in e.hashers then
      (Logged(Put(c, key, e), Crash(task, key)), false)
    else
      (Put(c, key, e.(holders := e.holders + {task})), true)
  }

  function Release(c: Cache, task: Task, key: Word): Cache {
    if key !in c.vms then c
    else
      var e := Entry(c.vms[key].holders - {task}, c.vms[key].hashers - {task});
      if e == Entry({}, {}) then c.(vms := c.vms - {key}) else Put(c, key, e)
  }

  function Start(c: Cache, task: Task, key: Word): (Cache, bool) {
    var e := Lookup(c, key);
    if task !in e.holders then (Logged(c, Misuse(task, key)), false)
    else if e.hashers - {task} != {} then (Logged(c, Crash(task, key)), false)
    else if e.holders - {task} != {} then (Logged(c, Crash(task, key)), false)
    else (Put(c, key, e.(hashers := e.hashers + {task})), true)
  }

  function Stop(c: Cache, task: Task, key: Word): Cache {
    if key !in c.vms then c
    else Put(c, key, c.vms[key].(hashers := c.vms[key].hashers - {task}))
  }

  function Apply(c: Cache, op: Op): Cache {
    match op
    case GetOp(task, key) => Get(c, task, key).0
    case StartOp(task, key) => Start(c, task, key).0
    case StopOp(task, key) => Stop(c, task, key)
    case ReleaseOp(task, key) => Release(c, task, key)
  }

  function Run(c: Cache, ops: seq<Op>): Cache {
    if ops == [] then c else Apply(Run(c, ops[..|ops| - 1]), ops[|ops| - 1])
  }

  /** One guarded hash, as validation performs it: get, start, stop, release. A refused
      `get` leaves the caller registered as a holder. */
  function Probe(c: Cache, task: Task, key: Word): (Cache, bool) {
    var (got, ok) := Get(c, task, key);
    if !ok then (got, false)
    else (Release(Stop(Start(got, task, key).0, task, key), task, key), true)
  }

  // ----- what every interleaving keeps -----

  /** A cached entry is held by somebody, only holders hash, and at most one task hashes. */
  predicate Sound(c: Cache) {
    forall key :: key in c.vms ==>
      && c.vms[key].holders != {}
      && c.vms[key].hashers <= c.vms[key].holders
      && forall a, b :: a in c.vms[key].hashers && b in c.vms[key].hashers ==> a == b
  }

  /** A hashing task is the only holder of its machine. */
  predicate Exclusive(c: Cache) {
    forall key :: key in c.vms ==>
      forall t :: t in c.vms[key].hashers ==> c.vms[key].holders == {t}
  }

  predicate CrashFree(c: Cache) {
    forall i :: 0 <= i < |c.log| ==> !c.log[i].Crash?
  }

  lemma {:induction false} SoundStep(c: Cache, op: Op)
    requires Sound(c)
    ensures Sound(Apply(c, op))
  {
    var d := Apply(c, op);
    forall key | key in d.vms
      ensures d.vms[key].holders != {}
      ensures d.vms[key].hashers <= d.vms[key].holders
    {
      var e := Lookup(c, key);
      assert key !in c.vms ==> op.GetOp? && op.key == key;
      if op.key == key {
        if op.GetOp? && !(e.hashers - {op.task} == {} && e.holders - {op.task} != {} && op.task in e.hashers) {
          assert op.task in d.vms[key].holders;
        }
        if op.ReleaseOp? {
          var left := d.vms[key];
          assert left.hashers <= left.holders;
          assert left.holders == {} ==> left.hashers == {};
        }
      }
    }
  }

  /** Over every interleaving of the four operations by any tasks. */
  lemma {:induction false} RunSound(ops: seq<Op>)
    ensures Sound(Run(EMPTY, ops))
  {
    if ops != [] {
      RunSound(ops[..|ops| - 1]);
      SoundStep(Run(EMPTY, ops[..|ops| - 1]), ops[|ops| - 1]);
    }
  }

  /** In an exclusive cache, a step logs a crash exactly when it would share a machine
      with a task that is hashing, or hash on a machine another task holds. */
  lemma {:induction false} CrashStep(c: Cache, op: Op)
    requires Sound(c) && Exclusive(c) && CrashFree(c)
    ensures CrashFree(Apply(c, op)) <==>
            match op
            case GetOp(task, key) => Lookup(c, key).hashers <= {task}
            case StartOp(task, key) => task in Lookup(c, key).holders ==> Lookup(c, key).holders == {task}
            case _ => true
    ensures CrashFree(Apply(c, op)) ==> Exclusive(Apply(c, op))
  {
    var d := Apply(c, op);
    var e := Lookup(c, op.key);
    if op.GetOp? {
      if !(e.hashers <= {op.task}) {
        assert d.log[|c.log|].Crash?;
      } else {
        assert e.hashers - {op.task} == {};
        assert op.task in e.hashers ==> e.holders - {op.task} == {};
        assert d.log == c.log;
      }
    }
    if op.StartOp? && op.task in e.holders {
      if e.holders - {op.task} != {} {
        assert d.log[|c.log|].Crash?;
      } else {
        assert e.hashers <= e.holders;
        assert e.hashers - {op.task} == {};
        assert e.holders == {op.task};
        assert d.log == c.log;
      }
    }
  }

  lemma {:induction false} LogGrows(c: Cache, op: Op)
    ensures c.log <= Apply(c, op).log
  {
  }

  /** In any run that logs no crash, a hashing task is the sole holder of its key. */
  lemma {:induction false} RunExclusive(ops: seq<Op>)
    requires CrashFree(Run(EMPTY, ops))
    ensures Exclusive(Run(EMPTY, ops))
  {
    if ops != [] {
      var before := Run(EMPTY, ops[..|ops| - 1]);
      var op := ops[|ops| - 1];
      LogGrows(before, op);
      assert forall i :: 0 <= i < |before.log| ==> before.log[i] == Apply(before, op).log[i];
      RunExclusive(ops[..|ops| - 1]);
      RunSound(ops[..|ops| - 1]);
      CrashStep(before, op);
    }
  }

  /** No other task hashes on the machine, and if this task does, nobody else holds it. */
  predicate FreeFor(e: Entry, task: Task) {
    e.hashers <= {task} && (task in e.hashers ==> e.holders <= {task})
  }

  lemma {:induction false} ProbeGranted(c: Cache, task: Task, key: Word)
    ensures Probe(c, task, key).1 <==> FreeFor(Lookup(c, key), task)
  {
    var e := Lookup(c, key);
    assert e.hashers - {task} == {} <==> e.hashers <= {task};
    assert e.holders - {task} == {} <==> e.holders <= {task};
  }

  /** A guarded hash is granted exactly when the machine is free for the task, also for a task
      that already holds it. A granted one leaves the machine without the task, every other
      machine alone, and a log line exactly when another task holds the machine; a refused one
      leaves the task registered as a holder. */
  lemma {:induction false} ProbeEffect(c: Cache, task: Task, key: Word)
    requires Sound(c)
    ensures var (d, ok) := Probe(c, task, key);
            var e := Lookup(c, key);
            && (ok <==> FreeFor(e, task))
            && (ok ==> Lookup(d, key) == Entry(e.holders - {task}, {}))
            && (ok ==> (d.log == c.log <==> e.holders <= {task}))
            && (!ok ==> task in Lookup(d, key).holders && d.log == c.log + [Crash(task, key)])
            && forall k :: k != key ==> Lookup(d, k) == Lookup(c, k)
  {
    var e := Lookup(c, key);
    ProbeGranted(c, task, key);
    if FreeFor(e, task) {
      var got := Get(c, task, key).0;
      var held := Entry(e.holders + {task}, e.hashers);
      assert Lookup(got, key) == held && got.log == c.log;
      var started := Start(got, task, key).0;
      assert held.hashers - {task} == {};
      assert held.holders - {task} == e.holders - {task};
      assert e.holders - {task} == {} <==> e.holders <= {task};
      var stopped := Stop(started, task, key);
      assert Lookup(stopped, key) == Entry(e.holders + {task}, {});
      assert Release(stopped, task, key).log == started.log;
    } else {
      assert e.hashers <= e.holders;
    }
  }

  // ----- each operation in full -----

  /** Every machine but the one of this key is as it was. */
  ghost predicate OthersSame(c: Cache, d: Cache, key: Word) {
    forall k :: k != key ==> Lookup(d, k) == Lookup(c, k)
  }

  /** Getting a machine is refused, with a crash logged, exactly when another task hashes on it
      or this task hashes while another holds it. The task is a holder afterwards. */
  lemma {:induction false} GetExactly(c: Cache, task: Task, key: Word)
    requires Sound(c)
    ensures var (d, ok) := Get(c, task, key);
            var e := Lookup(c, key);
            && (!ok <==> (exists t :: t in e.hashers && t != task) ||
                         (task in e.hashers && exists t :: t in e.holders && t != task))
            && Lookup(d, key) == Entry(e.holders + {task}, e.hashers)
            && d.log == (if ok then c.log else c.log + [Crash(task, key)])
            && OthersSame(c, d, key)
  {
    var e := Lookup(c, key);
    assert (exists t :: t in e.hashers && t != task) <==> e.hashers - {task} != {} by {
      assert forall t :: t in e.hashers - {task} <==> t in e.hashers && t != task;
    }
    assert (exists t :: t in e.holders && t != task) <==> e.holders - {task} != {} by {
      assert forall t :: t in e.holders - {task} <==> t in e.holders && t != task;
    }
    if task in e.hashers { assert e.holders + {task} == e.holders; }
  }

  /** Hashing starts exactly when the task is the one holder. A task that holds nothing is a
      misuse, any other refusal a crash; neither changes a machine. */
  lemma {:induction false} StartExactly(c: Cache, task: Task, key: Word)
    requires Sound(c)
    ensures var (d, ok) := Start(c, task, key);
            var e := Lookup(c, key);
            && (ok <==> e.holders == {task})
            && Lookup(d, key) == (if ok then Entry(e.holders, {task}) else e)
            && d.log == (if ok then c.log
                         else if task !in e.holders then c.log + [Misuse(task, key)]
                         else c.log + [Crash(task, key)])
            && OthersSame(c, d, key)
  {
    var e := Lookup(c, key);
    assert e.hashers <= e.holders;
    if task in e.holders && e.holders - {task} == {} {
      assert e.holders == {task};
      assert e.hashers + {task} == {task};
    }
  }

  /** Stopping and releasing log nothing; the one ends the task's hashing, the other its hold
      too, and a machine nobody holds is no longer cached. */
  lemma {:induction false} EndExactly(c: Cache, task: Task, key: Word)
    requires Sound(c)
    ensures var d, e := Stop(c, task, key), Lookup(c, key);
            Lookup(d, key) == Entry(e.holders, e.hashers - {task}) && d.log == c.log && OthersSame(c, d, key)
    ensures var d, e := Release(c, task, key), Lookup(c, key);
            && Lookup(d, key) == Entry(e.holders - {task}, e.hashers - {task})
            && (key in d.vms <==> e.holders - {task} != {})
            && d.log == c.log && OthersSame(c, d, key)
  {
    var e := Lookup(c, key);
    assert e.hashers <= e.holders;
    assert e.hashers - {task} <= e.holders - {task};
  }

  class VMCache {
    var vms: map<Word, Entry>
    var log: seq<Event>

    function View(): Cache reads this { Cache(vms, log) }

    constructor ()
      ensures View() == EMPTY
    {
      vms, log := map[], [];
    }

    method GetVm(task: Task, key: Word) returns (ok: bool)
      modifies this
      ensures (View(), ok) == Get(old(View()), task, key)
    {
      if key !in vms {
        vms := vms[key := Entry({}, {})];
      }
      var entry := vms[key];
      if entry.hashers - {task} != {} {
        log := log + [Crash(task, key)];
        vms := vms[key := entry.(holders := entry.holders + {task})];
        return false;
      }
      if entry.holders - {task} != {} && task in entry.hashers {
        log := log + [Crash(task, key)];
        assert vms == old(vms)[key := entry];
        return false;
      }
      vms := vms[key := entry.(holders := entry.holders + {task})];
      assert vms == old(vms)[key := entry.(holders := entry.holders + {task})];
      return true;
    }

    method ReleaseVm(task: Task, key: Word)
      modifies this
      ensures View() == Release(old(View()), task, key)
    {
      if key in vms {
        var entry := Entry(vms[key].holders - {task}, vms[key].hashers - {task});
        vms := vms[key := entry];
        if entry.holders == {} && entry.hashers == {} {
          vms := vms - {key};
        }
      }
    }

    method StartHash(task: Task, key: Word) returns (ok: bool)
      modifies this
      ensures (View(), ok) == Start(old(View()), task, key)
    {
      if key !in vms {
        log := log + [Misuse(task, key)];
        return false;
      }
      if task !in vms[key].holders {
        log := log + [Misuse(task, key)];
        return false;
      }
      if vms[key].hashers - {task} != {} {
        log := log + [Crash(task, key)];
        return false;
      }
      if vms[key].holders - {task} != {} {
        log := log + [Crash(task, key)];
        return false;
      }
      vms := vms[key := vms[key].(hashers := vms[key].hashers + {task})];
      return true;
    }

    method StopHash(task: Task, key: Word)
      modifies this
      ensures View() == Stop(old(View()), task, key)
    {
      if key in vms {
        vms := vms[key := vms[key].(hashers := vms[key].hashers - {task})];
      }
    }

    /** Number of crash lines in the log. */
    method CrashCount() returns (count: nat)
      ensures count == |set i | 0 <= i < |log| && log[i].Crash?|
      ensures count == 0 <==> CrashFree(View())
    {
      count := 0;
      for i := 0 to |log|
        invariant count == |set j | 0 <= j < i && log[j].Crash?|
        invariant count == 0 <==> forall j :: 0 <= j < i ==> !log[j].Crash?
      {
        ghost var before, after := set j | 0 <= j < i && log[j].Crash?, set j | 0 <= j < i + 1 && log[j].Crash?;
        if log[i].Crash? {
          assert after == before + {i};
          count := count + 1;
        } else {
          assert after == before;
        }
      }
    }
  }
}
