/**
 The two-level cache: in each worker process a bounded memory of downloads, behind it
 one shared store that is filled on a miss.
 */
module Cache {
  import opened Wrappers
  import opened CacheKeys

  datatype Place = CacheBucket | AttachmentBucket

  type Key = (Place, string)

  const CAPACITY: nat := 2000

  // ---- The memory of a worker: functools.lru_cache ----

  /** Remembered downloads, the least recently used first. */
  type Memory = seq<(Key, Bytes)>

  function Recall(m: Memory, key: Key): Option<Bytes> {
    if m == [] then None
    else if m[0].0 == key then Some(m[0].1)
    else Recall(m[1..], key)
  }

  function Forget(m: Memory, key: Key): Memory {
    if m == [] then []
    else if m[0].0 == key then m[1..]
    else [m[0]] + Forget(m[1..], key)
  }

  /** A hit makes the entry the most recently used. */
  function Touch(m: Memory, key: Key): Memory {
    match Recall(m, key)
    case None => m
    case Some(v) => Forget(m, key) + [(key, v)]
  }

  /** A miss that has been answered is remembered, the oldest entry giving way in a full memory. */
  function Remember(m: Memory, key: Key, v: Bytes): Memory {
    if Recall(m, key).Some? then m
    else (if |m| >= CAPACITY then m[1..] else m) + [(key, v)]
  }

  ghost predicate WellKept(m: Memory) {
    && |m| <= CAPACITY
    && forall i, j :: 0 <= i < j < |m| ==> m[i].0 != m[j].0
  }

  lemma {:induction false} RecallIs(m: Memory, key: Key)
    ensures Recall(m, key).None? ==> forall i :: 0 <= i < |m| ==> m[i].0 != key
    ensures Recall(m, key).Some? ==> (key, Recall(m, key).value) in m
  {
    if m != [] && m[0].0 != key {
      RecallIs(m[1..], key);
    }
  }

  lemma {:induction false} ForgetIs(m: Memory, key: Key)
    requires WellKept(m)
    ensures WellKept(Forget(m, key))
    ensures forall e :: e in Forget(m, key) <==> e in m && e.0 != key
    ensures |Forget(m, key)| == |m| - (if Recall(m, key).Some? then 1 else 0)
  {
    if m != [] {
      if m[0].0 != key {
        assert forall i :: 0 <= i < |m[1..]| ==> m[1..][i] == m[i + 1];
        ForgetIs(m[1..], key);
        var rest := Forget(m[1..], key);
        forall j | 0 <= j < |rest|
          ensures rest[j].0 != m[0].0
        {
          assert rest[j] in m[1..];
        }
      }
    }
  }

  /** A hit loses and invents nothing. */
  lemma TouchKeeps(m: Memory, key: Key)
    requires WellKept(m)
    ensures WellKept(Touch(m, key))
    ensures forall e :: e in Touch(m, key) <==> e in m
  {
    RecallIs(m, key);
    ForgetIs(m, key);
    if Recall(m, key).Some? {
      var e := (key, Recall(m, key).value);
      forall f | f in m && f.0 == key
        ensures f == e
      {
        var i :| 0 <= i < |m| && m[i] == f;
        var j :| 0 <= j < |m| && m[j] == e;
        assert i == j;
      }
    }
  }

  /** Remembering keeps within the capacity and adds at most the one entry. */
  lemma RememberKeeps(m: Memory, key: Key, v: Bytes)
    requires WellKept(m)
    ensures WellKept(Remember(m, key, v))
    ensures forall e :: e in Remember(m, key, v) ==> e in m || e == (key, v)
    ensures Recall(m, key).None? ==> (key, v) in Remember(m, key, v)
  {
    RecallIs(m, key);
  }

  // ---- What is remembered: the most recently used ----

  function Keys(m: Memory): seq<Key> {
    seq(|m|, i requires 0 <= i < |m| => m[i].0)
  }

  /** A lookup that comes to an answer. */
  function LookedUp(m: Memory, key: Key, v: Bytes): Memory {
    if Recall(m, key).Some? then Touch(m, key) else Remember(m, key, v)
  }

  /** The memory after answered lookups, one at a time. */
  function AfterLookups(uses: seq<(Key, Bytes)>): Memory {
    if uses == [] then []
    else LookedUp(AfterLookups(uses[..|uses| - 1]), uses[|uses| - 1].0, uses[|uses| - 1].1)
  }

  /** The keys used, each where it was used last. */
  function ByLastUse(keys: seq<Key>): seq<Key> {
    if keys == [] then []
    else if keys[0] in keys[1..] then ByLastUse(keys[1..])
    else [keys[0]] + ByLastUse(keys[1..])
  }

  function LastOf<T>(s: seq<T>, n: nat): seq<T> {
    if |s| <= n then s else s[|s| - n..]
  }

  function Without(s: seq<Key>, key: Key): seq<Key> {
    if s == [] then []
    else if s[0] == key then Without(s[1..], key)
    else [s[0]] + Without(s[1..], key)
  }

  ghost predicate Distinct(s: seq<Key>) {
    forall i, j :: 0 <= i < j < |s| ==> s[i] != s[j]
  }

  lemma DistinctTail(s: seq<Key>)
    requires Distinct(s) && s != []
    ensures s[0] !in s[1..] && Distinct(s[1..])
  {
  }

  lemma {:induction false} WithoutAbsent(s: seq<Key>, key: Key)
    requires key !in s
    ensures Without(s, key) == s
  {
    if s != [] {
      WithoutAbsent(s[1..], key);
    }
  }

  lemma {:induction false} WithoutConcat(s: seq<Key>, t: seq<Key>, key: Key)
    ensures Without(s + t, key) == Without(s, key) + Without(t, key)
  {
    if s == [] {
      assert s + t == t;
    } else {
      assert (s + t)[1..] == s[1..] + t;
      WithoutConcat(s[1..], t, key);
    }
  }

  lemma {:induction false} WithoutPresent(s: seq<Key>, key: Key)
    requires Distinct(s) && key in s
    ensures |Without(s, key)| == |s| - 1
  {
    DistinctTail(s);
    if s[0] == key {
      WithoutAbsent(s[1..], key);
    } else {
      WithoutPresent(s[1..], key);
    }
  }

  lemma {:induction false} ByLastUseIs(keys: seq<Key>)
    ensures Distinct(ByLastUse(keys))
    ensures forall k :: k in ByLastUse(keys) <==> k in keys
  {
    if keys != [] {
      ByLastUseIs(keys[1..]);
    }
  }

  lemma {:induction false} ByLastUseSnoc(keys: seq<Key>, key: Key)
    ensures ByLastUse(keys + [key]) == Without(ByLastUse(keys), key) + [key]
  {
    if keys == [] {
      assert ByLastUse([key]) == [key];
    } else {
      var rest := keys[1..];
      assert (keys + [key])[1..] == rest + [key];
      ByLastUseSnoc(rest, key);
      assert keys[0] in rest + [key] <==> keys[0] in rest || keys[0] == key;
      if keys[0] !in rest {
        WithoutConcat([keys[0]], ByLastUse(rest), key);
        assert [keys[0]][1..] == [];
      }
    }
  }

  lemma {:induction false} KeysOfForget(m: Memory, key: Key)
    requires Distinct(Keys(m))
    ensures Keys(Forget(m, key)) == Without(Keys(m), key)
    ensures Recall(m, key).Some? <==> key in Keys(m)
  {
    if m != [] {
      assert Keys(m) == [m[0].0] + Keys(m[1..]);
      assert Keys(m)[1..] == Keys(m[1..]);
      DistinctTail(Keys(m));
      if m[0].0 == key {
        WithoutAbsent(Keys(m)[1..], key);
      } else {
        KeysOfForget(m[1..], key);
        assert Keys([m[0]] + Forget(m[1..], key)) == [m[0].0] + Keys(Forget(m[1..], key));
      }
    }
  }

  /** What using a key makes of the keys remembered. */
  function Moved(kept: seq<Key>, key: Key): seq<Key> {
    if key in kept then Without(kept, key) + [key]
    else (if |kept| >= CAPACITY then kept[1..] else kept) + [key]
  }

  lemma DistinctParts(gone: seq<Key>, kept: seq<Key>)
    requires Distinct(gone + kept)
    ensures Distinct(kept) && forall k :: k in gone ==> k !in kept
  {
    var all := gone + kept;
    assert forall i :: 0 <= i < |kept| ==> kept[i] == all[|gone| + i];
    assert forall i :: 0 <= i < |gone| ==> gone[i] == all[i];
  }

  /** Using a key moves it to the end of the keys by last use, and so of the last of them. */
  lemma LastOfMoved(gone: seq<Key>, kept: seq<Key>, key: Key)
    requires Distinct(gone + kept) && |kept| <= CAPACITY && (gone == [] || |kept| == CAPACITY)
    ensures LastOf(Without(gone + kept, key) + [key], CAPACITY) == Moved(kept, key)
  {
    WithoutConcat(gone, kept, key);
    DistinctParts(gone, kept);
    if key in kept {
      WithoutPresent(kept, key);
      if gone != [] {
        LastOfLonger(Without(gone, key), Without(kept, key), key);
      }
    } else {
      WithoutAbsent(kept, key);
      if |kept| == CAPACITY {
        var before := Without(gone, key);
        assert before + kept == (before + [kept[0]]) + kept[1..];
        LastOfLonger(before + [kept[0]], kept[1..], key);
      }
    }
  }

  lemma LastOfLonger(before: seq<Key>, kept: seq<Key>, key: Key)
    requires |kept| + 1 == CAPACITY
    ensures LastOf(before + kept + [key], CAPACITY) == kept + [key]
  {
    assert before + kept + [key] == before + (kept + [key]);
  }

  lemma KeysOfLookedUp(m: Memory, key: Key, v: Bytes)
    requires Distinct(Keys(m))
    ensures Keys(LookedUp(m, key, v)) == Moved(Keys(m), key)
  {
    KeysOfForget(m, key);
    RecallIs(m, key);
  }

  /** A memory remembers exactly the most recently used keys, in the order of their last use, up to its capacity. */
  lemma {:induction false} LeastRecentlyUsedGoes(uses: seq<(Key, Bytes)>)
    ensures Keys(AfterLookups(uses)) == LastOf(ByLastUse(Keys(uses)), CAPACITY)
  {
    if uses != [] {
      var init, last := uses[..|uses| - 1], uses[|uses| - 1];
      LeastRecentlyUsedGoes(init);
      assert Keys(uses) == Keys(init) + [last.0];
      OneMoreUse(AfterLookups(init), Keys(init), last.0, last.1);
    }
  }

  lemma OneMoreUse(m: Memory, keys: seq<Key>, key: Key, v: Bytes)
    requires Keys(m) == LastOf(ByLastUse(keys), CAPACITY)
    ensures Keys(LookedUp(m, key, v)) == LastOf(ByLastUse(keys + [key]), CAPACITY)
  {
    var all, kept := ByLastUse(keys), Keys(m);
    var gone := all[..|all| - |kept|];
    ByLastUseIs(keys);
    ByLastUseSnoc(keys, key);
    assert all == gone + kept;
    LastOfMoved(gone, kept, key);
    assert Distinct(kept) by {
      assert forall i :: 0 <= i < |kept| ==> kept[i] == all[|gone| + i];
    }
    KeysOfLookedUp(m, key, v);
  }

  // ---- What the cache serves ----

  /** What a cached function hands over: a stream, which an upload reads from its cursor. */
  datatype Produced = Produced(data: Bytes, pos: nat)

  /** What a raw read gets: nothing, if the cursor is beyond the end. */
  function After(data: Bytes, pos: nat): Bytes {
    if pos <= |data| then data[pos..] else []
  }

  function Uploaded(out: Produced): Bytes {
    After(out.data, out.pos)
  }

  /** The program: how it makes keys, and the functions it caches, which depend on their arguments only. */
  datatype Program = Program(hashing: Hashing, produce: Call -> Produced)

  /** What a request asks for: the result of a cached function, or an attachment. */
  datatype Wanted = Cached(call: Call) | Attachment(name: string)

  function KeyOf(h: Hashing, wanted: Wanted): Key {
    match wanted
    case Cached(call) => (CacheBucket, CacheKey(h, call))
    case Attachment(name) => (AttachmentBucket, name)
  }

  datatype Phase =
    | Looking                   // in the worker's memory
    | Fetching                  // from the store
    | Computing                 // it is not there
    | Uploading(out: Produced)
    | Done(value: Bytes)
    | Failed

  /** What one request can see and change: the store, its worker's memory, and how far it is. */
  datatype Sight = Sight(store: map<Key, Bytes>, memory: Memory, phase: Phase)

  /** The next step of a request, which may go wrong. */
  function Advance(p: Program, wanted: Wanted, at: Sight, ok: bool): Sight {
    var key := KeyOf(p.hashing, wanted);
    match at.phase
    case Looking =>
      (match Recall(at.memory, key)
       case Some(v) => at.(memory := Touch(at.memory, key), phase := Done(v))
       case None => at.(phase := Fetching))
    case Fetching =>
      if !ok then at.(phase := Failed)
      else if key in at.store then
        at.(memory := Remember(at.memory, key, at.store[key]), phase := Done(at.store[key]))
      else at.(phase := if wanted.Cached? then Computing else Failed)
    case Computing => at.(phase := if ok && wanted.Cached? then Uploading(p.produce(wanted.call)) else Failed)
    case Uploading(out) =>
      if ok then at.(store := at.store[key := Uploaded(out)], phase := Done(out.data)) else at.(phase := Failed)
    case Done(_) => at
    case Failed => at
  }

  /** So many steps that do not go wrong. */
  function AdvanceTimes(p: Program, wanted: Wanted, at: Sight, n: nat): Sight {
    if n == 0 then at else Advance(p, wanted, AdvanceTimes(p, wanted, at, n - 1), true)
  }

  lemma OneMoreStep(p: Program, wanted: Wanted, at: Sight, n: nat)
    ensures AdvanceTimes(p, wanted, at, 0) == at
    ensures AdvanceTimes(p, wanted, at, n + 1) == Advance(p, wanted, AdvanceTimes(p, wanted, at, n), true)
  {
  }

  // ---- The code ----

  /** The shared store. */
  class Store {
    var objects: map<Key, Bytes>
  }

  /**
   A stream as a cached function returns it. Unlike Streams.BytesIO, whose contents are a letter or not, it holds bytes,
   of which a read from the middle is a proper part; and it has no PDF reader to move its cursor.
   */
  class Stream {
    var data: Bytes
    var pos: nat

    constructor (data: Bytes, pos: nat)
      ensures this.data == data && this.pos == pos
    {
      this.data, this.pos := data, pos;
    }

    method Read() returns (rest: Bytes)
      modifies this`pos
      ensures rest == After(data, old(pos))
    {
      rest := After(data, pos);
      if pos <= |data| {
        pos := |data|;
      }
    }
  }

  /** How a call ends: with a stream, because the object is not there, or in an error that nothing catches. */
  datatype Ending = Returned | NotFound | Broken

  class Worker {
    var memory: Memory

    constructor ()
      ensures memory == []
    {
      memory := [];
    }

    /** caching_s3download: a fresh stream each time; what is not found, or fails, is not remembered. */
    method CachingS3Download(store: Store, key: Key) returns (stream: Stream?, ending: Ending)
      modifies this
      ensures stream != null <==> ending == Returned
      ensures match Recall(old(memory), key)
              case Some(v) =>
                && ending == Returned && fresh(stream) && stream.data == v && stream.pos == 0
                && memory == LookedUp(old(memory), key, v)
              case None =>
                if ending == Returned then
                  && key in store.objects && fresh(stream)
                  && stream.data == store.objects[key] && stream.pos == 0
                  && memory == LookedUp(old(memory), key, store.objects[key])
                else memory == old(memory) && (ending == NotFound ==> key !in store.objects)
    {
      var remembered := Recall(memory, key);
      if remembered.Some? {
        memory := Touch(memory, key);
        stream := new Stream(remembered.value, 0);
        return stream, Returned;
      }
      var failed: bool := *;
      if failed {
        return null, Broken;
      }
      if key !in store.objects {
        return null, NotFound;
      }
      var data := store.objects[key];
      memory := Remember(memory, key, data);
      stream := new Stream(data, 0);
      ending := Returned;
    }

    /**
     The wrapper of a cached function. The upload reads the produced stream from its cursor; what is returned is
     read from the beginning. A call is a request that takes its steps, the last of which may go wrong.
     */
    method Call(p: Program, store: Store, call: Call) returns (stream: Stream?, ending: Ending, ghost steps: nat)
      modifies this, store
      ensures stream != null <==> ending == Returned
      ensures ending != NotFound
      ensures ending == Returned ==> fresh(stream) && stream.pos == 0
      ensures var at := AdvanceTimes(p, Cached(call), Sight(old(store.objects), old(memory), Looking), steps);
              if ending == Returned
              then at == Sight(store.objects, memory, Done(stream.data))
              else Advance(p, Cached(call), at, false) == Sight(store.objects, memory, Failed)
    {
      var key := KeyOf(p.hashing, Cached(call));
      ghost var start := Sight(store.objects, memory, Looking);
      stream, ending := CachingS3Download(store, key);
      OneMoreStep(p, Cached(call), start, 0);
      OneMoreStep(p, Cached(call), start, 1);
      if ending != NotFound {
        steps := if ending == Broken || Recall(start.memory, key).Some? then 1 else 2;
        return;
      }
      OneMoreStep(p, Cached(call), start, 2);
      OneMoreStep(p, Cached(call), start, 3);
      assert AdvanceTimes(p, Cached(call), start, 2) == Sight(store.objects, memory, Computing);
      var raised: bool := *;
      if raised {
        return null, Broken, 2;
      }
      var produced := new Stream(p.produce(call).data, p.produce(call).pos);
      assert AdvanceTimes(p, Cached(call), start, 3) == Sight(store.objects, memory, Uploading(p.produce(call)));
      var body := produced.Read();
      var failed: bool := *;
      if failed {
        return null, Broken, 3;
      }
      store.objects := store.objects[key := body];
      produced.pos := 0;
      var data := produced.Read();
      stream := new Stream(data, 0);
      ending, steps := Returned, 4;
    }
  }

  // ---- Many workers ----

  datatype Request = Request(worker: nat, wanted: Wanted, phase: Phase)

  datatype State = State(store: map<Key, Bytes>, memories: map<nat, Memory>, requests: map<nat, Request>)

  datatype Step =
    | Begin(request: nat, worker: nat, wanted: Wanted)
    | Go(request: nat, ok: bool)                // the next step of a request
    | Restart(worker: nat)                      // a worker process is replaced
    | Write(name: string, value: Bytes)         // an attachment is stored, from outside

  function MemoryOf(s: State, worker: nat): Memory {
    if worker in s.memories then s.memories[worker] else []
  }

  function SightOf(s: State, request: Request): Sight {
    Sight(s.store, MemoryOf(s, request.worker), request.phase)
  }

  function Next(p: Program, s: State, step: Step): State {
    match step
    case Begin(r, worker, wanted) =>
      if r in s.requests then s
      else s.(memories := s.memories[worker := MemoryOf(s, worker)],
              requests := s.requests[r := Request(worker, wanted, Looking)])
    case Restart(worker) => s.(memories := s.memories[worker := []])
    case Write(name, value) => s.(store := s.store[(AttachmentBucket, name) := value])
    case Go(r, ok) => if r in s.requests then Gone(p, s, r, s.requests[r], ok) else s
  }

  function Gone(p: Program, s: State, r: nat, request: Request, ok: bool): State {
    Seen(s, r, request, Advance(p, request.wanted, SightOf(s, request), ok))
  }

  /** The state after a request has changed what it sees. */
  function Seen(s: State, r: nat, request: Request, at: Sight): State {
    State(at.store, s.memories[request.worker := at.memory], s.requests[r := request.(phase := at.phase)])
  }

  function Execute(p: Program, s: State, steps: seq<Step>): State {
    if steps == [] then s else Next(p, Execute(p, s, steps[..|steps| - 1]), steps[|steps| - 1])
  }

  lemma ExecuteSnoc(p: Program, s: State, steps: seq<Step>, step: Step)
    ensures Execute(p, s, steps + [step]) == Next(p, Execute(p, s, steps), step)
  {
    assert (steps + [step])[..|steps|] == steps;
  }

  lemma OneStep(p: Program, s: State, step: Step)
    ensures Execute(p, s, [step]) == Next(p, s, step)
  {
    assert [] + [step] == [step];
    ExecuteSnoc(p, s, [], step);
  }

  lemma {:induction false} ExecuteConcat(p: Program, s: State, a: seq<Step>, b: seq<Step>)
    ensures Execute(p, s, a + b) == Execute(p, Execute(p, s, a), b)
  {
    if b == [] {
      assert a + b == a;
    } else {
      assert (a + b)[..|a + b| - 1] == a + b[..|b| - 1];
      ExecuteConcat(p, s, a, b[..|b| - 1]);
    }
  }

  /** A request that is made and takes so many steps one after the other. */
  function Alone(r: nat, worker: nat, wanted: Wanted, n: nat): seq<Step> {
    if n == 0 then [Begin(r, worker, wanted)] else Alone(r, worker, wanted, n - 1) + [Go(r, true)]
  }

  lemma SeenAgain(p: Program, s: State, steps: seq<Step>, r: nat, request: Request, at: Sight)
    requires Execute(p, s, steps) == Seen(s, r, request, at)
    ensures Execute(p, s, steps + [Go(r, true)]) == Seen(s, r, request, Advance(p, request.wanted, at, true))
  {
    ExecuteSnoc(p, s, steps, Go(r, true));
    assert SightOf(Seen(s, r, request, at), request.(phase := at.phase)) == at;
  }

  /** The steps of a request alone come to what the request sees. */
  ghost predicate AloneComesTo(p: Program, s: State, r: nat, worker: nat, wanted: Wanted, n: nat, at: Sight) {
    Execute(p, s, Alone(r, worker, wanted, n)) == Seen(s, r, Request(worker, wanted, Looking), at)
  }

  lemma AloneBegins(p: Program, s: State, r: nat, worker: nat, wanted: Wanted)
    requires r !in s.requests
    ensures AloneComesTo(p, s, r, worker, wanted, 0, Sight(s.store, MemoryOf(s, worker), Looking))
  {
    OneStep(p, s, Begin(r, worker, wanted));
  }

  lemma AloneGoesOn(p: Program, s: State, r: nat, worker: nat, wanted: Wanted, n: nat, at: Sight)
    requires AloneComesTo(p, s, r, worker, wanted, n, at)
    ensures AloneComesTo(p, s, r, worker, wanted, n + 1, Advance(p, wanted, at, true))
  {
    SeenAgain(p, s, Alone(r, worker, wanted, n), r, Request(worker, wanted, Looking), at);
  }

  /** With nothing between its steps a request does what the wrapper does: its steps are those of the code. */
  lemma {:induction false} AloneIsCall(p: Program, s: State, r: nat, worker: nat, wanted: Wanted, n: nat)
    requires r !in s.requests
    ensures AloneComesTo(p, s, r, worker, wanted, n,
                         AdvanceTimes(p, wanted, Sight(s.store, MemoryOf(s, worker), Looking), n))
  {
    if n == 0 {
      AloneBegins(p, s, r, worker, wanted);
    } else {
      var start := Sight(s.store, MemoryOf(s, worker), Looking);
      AloneIsCall(p, s, r, worker, wanted, n - 1);
      OneMoreStep(p, wanted, start, n - 1);
      AloneGoesOn(p, s, r, worker, wanted, n - 1, AdvanceTimes(p, wanted, start, n - 1));
    }
  }

  // ---- Transparency ----

  /** A value held for a key is what was uploaded for every call with that key. */
  ghost predicate Right(p: Program, key: Key, value: Bytes) {
    forall call :: key == KeyOf(p.hashing, Cached(call)) ==> value == Uploaded(p.produce(call))
  }

  /** An answer is the data produced, by this request itself, or what was uploaded of them. */
  ghost predicate RightPhase(p: Program, wanted: Wanted, phase: Phase) {
    match phase
    case Uploading(out) => wanted.Cached? && out == p.produce(wanted.call)
    case Done(v) => wanted.Cached? ==> v == p.produce(wanted.call).data || v == Uploaded(p.produce(wanted.call))
    case Computing => wanted.Cached?
    case _ => true
  }

  ghost predicate RightStore(p: Program, store: map<Key, Bytes>) {
    forall key :: key in store ==> Right(p, key, store[key])
  }

  ghost predicate RightMemory(p: Program, m: Memory) {
    WellKept(m) && forall e :: e in m ==> Right(p, e.0, e.1)
  }

  ghost predicate RightSight(p: Program, wanted: Wanted, at: Sight) {
    RightStore(p, at.store) && RightMemory(p, at.memory) && RightPhase(p, wanted, at.phase)
  }

  ghost predicate Inv(p: Program, s: State) {
    && RightStore(p, s.store)
    && (forall w :: w in s.memories ==> RightMemory(p, s.memories[w]))
    && (forall r :: r in s.requests ==> RightPhase(p, s.requests[r].wanted, s.requests[r].phase))
  }

  lemma ResultIsRight(p: Program, call: Call)
    requires Injective(p.hashing)
    ensures Right(p, KeyOf(p.hashing, Cached(call)), Uploaded(p.produce(call)))
  {
    forall other | KeyOf(p.hashing, Cached(other)) == KeyOf(p.hashing, Cached(call))
      ensures other == call
    {
      KeysAreInjective(p.hashing, other, call);
    }
  }

  lemma AdvanceKeeps(p: Program, wanted: Wanted, at: Sight, ok: bool)
    requires Injective(p.hashing) && RightSight(p, wanted, at)
    ensures RightSight(p, wanted, Advance(p, wanted, at, ok))
  {
    var key := KeyOf(p.hashing, wanted);
    match at.phase
    case Looking =>
      RecallIs(at.memory, key);
      TouchKeeps(at.memory, key);
    case Fetching =>
      if key in at.store {
        RememberKeeps(at.memory, key, at.store[key]);
      }
    case Computing =>
    case Uploading(out) =>
      ResultIsRight(p, wanted.call);
    case Done(_) =>
    case Failed =>
  }

  lemma {:induction false} ExecuteKeeps(p: Program, s: State, steps: seq<Step>)
    requires Injective(p.hashing) && Inv(p, s)
    ensures Inv(p, Execute(p, s, steps))
  {
    if steps != [] {
      var before, step := Execute(p, s, steps[..|steps| - 1]), steps[|steps| - 1];
      ExecuteKeeps(p, s, steps[..|steps| - 1]);
      if step.Go? && step.request in before.requests {
        var request := before.requests[step.request];
        AdvanceKeeps(p, request.wanted, SightOf(before, request), step.ok);
      }
    }
  }

  /** Nothing is remembered or asked for yet, and nothing wrong is in the store. */
  ghost predicate Initial(p: Program, s: State) {
    s.memories == map[] && s.requests == map[] && RightStore(p, s.store)
  }

  /** The request has not been answered for this call, or has been answered with the data the function produces. */
  ghost predicate Answered(p: Program, s: State, r: nat, call: Call) {
    r in s.requests && s.requests[r].wanted == Cached(call) && s.requests[r].phase.Done? ==>
      s.requests[r].phase.value == p.produce(call).data
  }

  /** Whatever the workers, the interleaving of their requests, the evictions, the failures and the restarts. */
  ghost predicate AlwaysAnswered(p: Program, call: Call) {
    forall s, steps, r :: Initial(p, s) ==> Answered(p, Execute(p, s, steps), r, call)
  }

  predicate Rewound(out: Produced) {
    out.pos == 0 || out.data == []
  }

  /**
   Transparency, exactly: in every run every answered request for a call gets what the function itself would have
   given if and only if the function hands over its stream rewound, or empty.
   */
  lemma CacheIsTransparentIff(p: Program, call: Call)
    requires Injective(p.hashing)
    ensures AlwaysAnswered(p, call) <==> Rewound(p.produce(call))
  {
    if Rewound(p.produce(call)) {
      forall s, steps, r | Initial(p, s)
        ensures Answered(p, Execute(p, s, steps), r, call)
      {
        ExecuteKeeps(p, s, steps);
      }
    } else {
      SecondRequestGetsLess(p, call);
    }
  }

  /** One worker asks, and then another. */
  function OneAfterTheOther(wanted: Wanted): seq<Step> {
    Alone(0, 0, wanted, 4) + Alone(1, 1, wanted, 2)
  }

  /** With an empty cache, a first request computes and stores; one of another worker then gets what was stored. */
  lemma SecondRequestGetsStored(p: Program, call: Call)
    ensures var end := Execute(p, State(map[], map[], map[]), OneAfterTheOther(Cached(call)));
            1 in end.requests && end.requests[1] == Request(1, Cached(call), Done(Uploaded(p.produce(call))))
  {
    var empty, wanted := State(map[], map[], map[]), Cached(call);
    var key := KeyOf(p.hashing, wanted);
    FourSteps(p, call);
    AloneIsCall(p, empty, 0, 0, wanted, 4);
    var between := Execute(p, empty, Alone(0, 0, wanted, 4));
    assert between.store == map[key := Uploaded(p.produce(call))] && MemoryOf(between, 1) == [] && 1 !in between.requests;
    TwoSteps(p, wanted, between.store);
    AloneIsCall(p, between, 1, 1, wanted, 2);
    ExecuteConcat(p, empty, Alone(0, 0, wanted, 4), Alone(1, 1, wanted, 2));
  }

  lemma SecondRequestGetsLess(p: Program, call: Call)
    requires !Rewound(p.produce(call))
    ensures !AlwaysAnswered(p, call)
  {
    var empty, steps := State(map[], map[], map[]), OneAfterTheOther(Cached(call));
    SecondRequestGetsStored(p, call);
    var out := p.produce(call);
    assert |Uploaded(out)| < |out.data|;
    assert Initial(p, empty) && !Answered(p, Execute(p, empty, steps), 1, call);
  }

  lemma FourSteps(p: Program, call: Call)
    ensures AdvanceTimes(p, Cached(call), Sight(map[], [], Looking), 4)
         == Sight(map[KeyOf(p.hashing, Cached(call)) := Uploaded(p.produce(call))], [], Done(p.produce(call).data))
  {
    var wanted, start := Cached(call), Sight(map[], [], Looking);
    OneMoreStep(p, wanted, start, 0);
    OneMoreStep(p, wanted, start, 1);
    OneMoreStep(p, wanted, start, 2);
    OneMoreStep(p, wanted, start, 3);
    assert AdvanceTimes(p, wanted, start, 2) == Sight(map[], [], Computing);
    assert AdvanceTimes(p, wanted, start, 3) == Sight(map[], [], Uploading(p.produce(call)));
  }

  /** A memory that has nothing yet gets what is in the store. */
  lemma TwoSteps(p: Program, wanted: Wanted, store: map<Key, Bytes>)
    requires KeyOf(p.hashing, wanted) in store
    ensures var key := KeyOf(p.hashing, wanted);
            AdvanceTimes(p, wanted, Sight(store, [], Looking), 2) == Sight(store, [(key, store[key])], Done(store[key]))
  {
    OneMoreStep(p, wanted, Sight(store, [], Looking), 0);
    OneMoreStep(p, wanted, Sight(store, [], Looking), 1);
  }

  /** No worker ever remembers more than its capacity, or a key twice. */
  lemma MemoryIsBounded(p: Program, s: State, steps: seq<Step>, worker: nat)
    requires Injective(p.hashing) && Initial(p, s)
    ensures WellKept(MemoryOf(Execute(p, s, steps), worker))
  {
    ExecuteKeeps(p, s, steps);
    var end := Execute(p, s, steps);
    if worker in end.memories {
      assert RightMemory(p, end.memories[worker]);
    }
  }

  // ---- Memory and store ----

  /** What workers remember for the key is in the store, with the same value; so what was not found is not remembered. */
  ghost predicate AgreesOn(s: State, key: Key) {
    forall w, e :: w in s.memories && e in s.memories[w] && e.0 == key ==> key in s.store && s.store[key] == e.1
  }

  /** If the step stores an attachment under the key, then for the first time, or with the same value again. */
  predicate WritesOnce(s: State, step: Step, key: Key) {
    step.Write? && (AttachmentBucket, step.name) == key && key in s.store ==> s.store[key] == step.value
  }

  ghost predicate WrittenOnce(p: Program, s: State, steps: seq<Step>, key: Key) {
    forall n :: 0 <= n < |steps| ==> WritesOnce(Execute(p, s, steps[..n]), steps[n], key)
  }

  ghost predicate SightAgreesOn(at: Sight, key: Key) {
    forall e :: e in at.memory && e.0 == key ==> key in at.store && at.store[key] == e.1
  }

  /** Requests change neither what is stored for a key nor, but for what is stored, what is remembered for it. */
  lemma AdvanceAgrees(p: Program, wanted: Wanted, at: Sight, ok: bool, key: Key)
    requires Injective(p.hashing) && RightSight(p, wanted, at) && SightAgreesOn(at, key)
    ensures SightAgreesOn(Advance(p, wanted, at, ok), key)
    ensures key in at.store ==>
              key in Advance(p, wanted, at, ok).store && Advance(p, wanted, at, ok).store[key] == at.store[key]
  {
    var mine := KeyOf(p.hashing, wanted);
    match at.phase
    case Looking =>
      TouchKeeps(at.memory, mine);
    case Fetching =>
      if mine in at.store {
        RememberKeeps(at.memory, mine, at.store[mine]);
      }
    case Computing =>
    case Uploading(out) =>
      if mine in at.store {
        assert Right(p, mine, at.store[mine]);
      }
    case Done(_) =>
    case Failed =>
  }

  lemma NextAgrees(p: Program, s: State, step: Step, key: Key)
    requires Injective(p.hashing) && Inv(p, s) && AgreesOn(s, key) && WritesOnce(s, step, key)
    ensures AgreesOn(Next(p, s, step), key)
  {
    if step.Go? && step.request in s.requests {
      var request := s.requests[step.request];
      AdvanceAgrees(p, request.wanted, SightOf(s, request), step.ok, key);
    }
  }

  lemma WrittenOnceBefore(p: Program, s: State, steps: seq<Step>, key: Key)
    requires steps != [] && WrittenOnce(p, s, steps, key)
    ensures WrittenOnce(p, s, steps[..|steps| - 1], key)
    ensures WritesOnce(Execute(p, s, steps[..|steps| - 1]), steps[|steps| - 1], key)
  {
    var init := steps[..|steps| - 1];
    forall n | 0 <= n < |init|
      ensures WritesOnce(Execute(p, s, init[..n]), init[n], key)
    {
      assert init[..n] == steps[..n];
    }
  }

  /** What has been written once under a key is what every worker remembers for it, whatever befalls other keys. */
  lemma {:induction false} MemoryAgreesWithStore(p: Program, s: State, steps: seq<Step>, key: Key)
    requires Injective(p.hashing) && Initial(p, s) && WrittenOnce(p, s, steps, key)
    ensures AgreesOn(Execute(p, s, steps), key)
  {
    if steps != [] {
      var init, step := steps[..|steps| - 1], steps[|steps| - 1];
      WrittenOnceBefore(p, s, steps, key);
      MemoryAgreesWithStore(p, s, init, key);
      ExecuteKeeps(p, s, init);
      NextAgrees(p, Execute(p, s, init), step, key);
    }
  }

  /** For the results of cached functions that is always so, however attachments are overwritten. */
  lemma CacheBucketAgrees(p: Program, s: State, steps: seq<Step>, name: string)
    requires Injective(p.hashing) && Initial(p, s)
    ensures AgreesOn(Execute(p, s, steps), (CacheBucket, name))
  {
    MemoryAgreesWithStore(p, s, steps, (CacheBucket, name));
  }

  /** Whoever has been given the attachment has been given what is stored. */
  ghost predicate AnsweredFrom(s: State, name: string) {
    forall r :: r in s.requests && s.requests[r].wanted == Attachment(name) && s.requests[r].phase.Done? ==>
                  (AttachmentBucket, name) in s.store && s.store[(AttachmentBucket, name)] == s.requests[r].phase.value
  }

  lemma NextAnswers(p: Program, s: State, step: Step, name: string)
    requires Injective(p.hashing) && Inv(p, s) && WritesOnce(s, step, (AttachmentBucket, name))
    requires AgreesOn(s, (AttachmentBucket, name)) && AnsweredFrom(s, name)
    ensures AnsweredFrom(Next(p, s, step), name)
  {
    if step.Go? && step.request in s.requests {
      var request := s.requests[step.request];
      RecallIs(MemoryOf(s, request.worker), KeyOf(p.hashing, request.wanted));
      AdvanceAgrees(p, request.wanted, SightOf(s, request), step.ok, (AttachmentBucket, name));
    }
  }

  /** An attachment that has been written once is what every answered request for it gets, after any steps. */
  lemma {:induction false} AttachmentIsAnswered(p: Program, s: State, steps: seq<Step>, name: string)
    requires Injective(p.hashing) && Initial(p, s) && WrittenOnce(p, s, steps, (AttachmentBucket, name))
    ensures AnsweredFrom(Execute(p, s, steps), name)
  {
    if steps != [] {
      var init, step := steps[..|steps| - 1], steps[|steps| - 1];
      WrittenOnceBefore(p, s, steps, (AttachmentBucket, name));
      AttachmentIsAnswered(p, s, init, name);
      MemoryAgreesWithStore(p, s, init, (AttachmentBucket, name));
      ExecuteKeeps(p, s, init);
      NextAnswers(p, Execute(p, s, init), step, name);
    }
  }

  /** Overwriting an attachment that some worker remembers leaves its memory stale exactly when the value is another. */
  lemma OverwritingIsStaleIff(p: Program, s: State, worker: nat, name: string, value: Bytes)
    requires AgreesOn(s, (AttachmentBucket, name)) && worker in s.memories
    requires Recall(s.memories[worker], (AttachmentBucket, name)).Some?
    ensures (AttachmentBucket, name) in s.store
    ensures AgreesOn(Next(p, s, Write(name, value)), (AttachmentBucket, name)) <==>
            s.store[(AttachmentBucket, name)] == value
  {
    var key := (AttachmentBucket, name);
    RecallIs(s.memories[worker], key);
    var remembered := Recall(s.memories[worker], key).value;
    assert (key, remembered) in s.memories[worker];
    var after := Next(p, s, Write(name, value));
    assert after.store[key] == value && after.memories == s.memories;
  }

  lemma AnswerIsRemembered(p: Program, name: string, a: Bytes) returns (steps: seq<Step>)
    ensures var end := Execute(p, State(map[], map[], map[]), steps);
            && end.store == map[(AttachmentBucket, name) := a] && 0 in end.memories
            && end.memories[0] == [((AttachmentBucket, name), a)] && 1 !in end.requests
  {
    var wanted, empty := Attachment(name), State(map[], map[], map[]);
    OneStep(p, empty, Write(name, a));
    var written := Execute(p, empty, [Write(name, a)]);
    ExecuteConcat(p, empty, [Write(name, a)], Alone(0, 0, wanted, 2));
    TwoSteps(p, wanted, written.store);
    AloneIsCall(p, written, 0, 0, wanted, 2);
    steps := [Write(name, a)] + Alone(0, 0, wanted, 2);
  }

  lemma OverwrittenIsRemembered(p: Program, name: string, a: Bytes, b: Bytes) returns (steps: seq<Step>)
    ensures var end := Execute(p, State(map[], map[], map[]), steps);
            && end.store == map[(AttachmentBucket, name) := b] && 0 in end.memories
            && end.memories[0] == [((AttachmentBucket, name), a)] && 1 !in end.requests
  {
    var first := AnswerIsRemembered(p, name, a);
    ExecuteSnoc(p, State(map[], map[], map[]), first, Write(name, b));
    steps := first + [Write(name, b)];
  }

  lemma AnsweredFromMemory(p: Program, s: State, name: string, a: Bytes) returns (steps: seq<Step>)
    requires 0 in s.memories && s.memories[0] == [((AttachmentBucket, name), a)] && 1 !in s.requests
    ensures var end := Execute(p, s, steps);
            && 1 in end.requests && end.requests[1] == Request(0, Attachment(name), Done(a))
            && end.store == s.store && 0 in end.memories && end.memories[0] == s.memories[0]
  {
    steps := Alone(1, 0, Attachment(name), 1);
    AloneIsCall(p, s, 1, 0, Attachment(name), 1);
    OneMoreStep(p, Attachment(name), Sight(s.store, s.memories[0], Looking), 0);
    assert Touch(s.memories[0], (AttachmentBucket, name)) == s.memories[0];
  }

  lemma Disagrees(s: State, key: Key, a: Bytes, b: Bytes)
    requires 0 in s.memories && s.memories[0] == [(key, a)] && s.store == map[key := b] && a != b
    ensures !AgreesOn(s, key)
  {
    assert (key, a) in s.memories[0];
  }

  /**
   A run that reaches a stale memory: an attachment is stored, asked for, overwritten, and asked for again. The
   second request is answered with what is no longer in the store.
   */
  lemma StaleMemory(p: Program, name: string, a: Bytes, b: Bytes) returns (steps: seq<Step>)
    requires a != b
    ensures var end := Execute(p, State(map[], map[], map[]), steps);
            && 1 in end.requests && end.requests[1] == Request(0, Attachment(name), Done(a))
            && end.store == map[(AttachmentBucket, name) := b]
            && !AgreesOn(end, (AttachmentBucket, name))
  {
    var empty := State(map[], map[], map[]);
    var first := OverwrittenIsRemembered(p, name, a, b);
    var again := AnsweredFromMemory(p, Execute(p, empty, first), name, a);
    steps := first + again;
    ExecuteConcat(p, empty, first, again);
    Disagrees(Execute(p, empty, steps), (AttachmentBucket, name), a, b);
  }
}
