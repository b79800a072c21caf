// The single-producer single-consumer ring of the sharded benchmark, as the
// interleaving of the atomic steps of one push and one pop. Each side may load
// an outdated value of the index the other side owns.
module SpscRing {

  const CAPACITY: nat := 4096

  // Program points of SpscQueue.push; w and r are its local copies of the indices.
  datatype Producer<T> =
    | Idle
    | Began(work: T, w: nat)
    | Loaded(work: T, w: nat, r: nat)
    | Filling(work: T, w: nat, r: nat)
    | Filled(work: T, w: nat, r: nat)
    | Published(w: nat, r: nat)

  // Program points of SpscQueue.pop.
  datatype Consumer<T> =
    | Resting
    | Started(r: nat)
    | Compared(r: nat, w: nat)
    | Copying(r: nat, w: nat)
    | Copied(r: nat, work: T)

  // The shared fields, the newest index value each side has already observed,
  // and three history variables: everything published, everything handed out,
  // and the greatest depth so far.
  datatype System<T> = System(
    items: seq<T>, readIndex: nat, writeIndex: nat, highWater: nat, fullObservations: nat,
    producer: Producer<T>, consumer: Consumer<T>, seenRead: nat, seenWrite: nat,
    published: seq<T>, taken: seq<T>, deepest: nat)

  datatype Action<T> =
    | BeginPush(work: T)
    | LoadRead(value: nat)
    | TestFull
    | FillSlot
    | StoreWrite
    | RaiseHighWater
    | BeginPop
    | LoadWrite(value: nat)
    | TestEmpty
    | CopySlot
    | StoreRead

  predicate Initial<T(==)>(s: System<T>) {
    && |s.items| == CAPACITY
    && s.readIndex == s.writeIndex == s.highWater == s.fullObservations == s.seenRead == s.seenWrite == s.deepest == 0
    && s.producer == Idle && s.consumer == Resting
    && s.published == [] && s.taken == []
  }

  predicate Enabled<T>(s: System<T>, a: Action<T>) {
    match a
    case BeginPush(_) => s.producer.Idle?
    case LoadRead(value) => s.producer.Began? && s.seenRead <= value <= s.readIndex
    case TestFull => s.producer.Loaded?
    case FillSlot => s.producer.Filling? && |s.items| == CAPACITY
    case StoreWrite => s.producer.Filled?
    case RaiseHighWater => s.producer.Published?
    case BeginPop => s.consumer.Resting?
    case LoadWrite(value) => s.consumer.Started? && s.seenWrite <= value <= s.writeIndex
    case TestEmpty => s.consumer.Compared?
    case CopySlot => s.consumer.Copying? && |s.items| == CAPACITY
    case StoreRead => s.consumer.Copied?
  }

  function Max(a: int, b: int): int { if a < b then b else a }

  function Apply<T>(s: System<T>, a: Action<T>): System<T>
    requires Enabled(s, a)
  {
    var p, c := s.producer, s.consumer;
    match a
    case BeginPush(work) => s.(producer := Began(work, s.writeIndex))
    case LoadRead(value) => s.(producer := Loaded(p.work, p.w, value), seenRead := value)
    case TestFull =>
      if p.w - p.r == CAPACITY then s.(producer := Idle, fullObservations := s.fullObservations + 1)
      else s.(producer := Filling(p.work, p.w, p.r))
    case FillSlot => s.(items := s.items[p.w % CAPACITY := p.work], producer := Filled(p.work, p.w, p.r))
    case StoreWrite =>
      s.(writeIndex := p.w + 1, producer := Published(p.w, p.r), published := s.published + [p.work],
         deepest := Max(s.deepest, p.w + 1 - s.readIndex))
    case RaiseHighWater => s.(highWater := Max(s.highWater, p.w - p.r + 1), producer := Idle)
    case BeginPop => s.(consumer := Started(s.readIndex))
    case LoadWrite(value) => s.(consumer := Compared(c.r, value), seenWrite := value)
    case TestEmpty => s.(consumer := if c.r == c.w then Resting else Copying(c.r, c.w))
    case CopySlot => s.(consumer := Copied(c.r, s.items[c.r % CAPACITY]))
    case StoreRead => s.(readIndex := c.r + 1, consumer := Resting, taken := s.taken + [c.work])
  }

  // What the ring holds, oldest first.
  function Queue<T>(s: System<T>): seq<T>
    requires s.readIndex <= |s.published|
  {
    s.published[s.readIndex..]
  }

  ghost predicate Invariant<T(!new)>(s: System<T>) {
    && |s.items| == CAPACITY
    && s.seenRead <= s.readIndex <= s.seenWrite <= s.writeIndex <= s.seenRead + CAPACITY
    && s.writeIndex == |s.published|
    && s.taken == s.published[..s.readIndex]
    && (forall i :: s.readIndex <= i < s.writeIndex ==> s.items[i % CAPACITY] == s.published[i])
    && ProducerHolds(s) && ConsumerHolds(s)
    && s.highWater <= CAPACITY
    && s.deepest <= (if s.producer.Published? then Max(s.highWater, s.producer.w - s.producer.r + 1) else s.highWater)
  }

  ghost predicate ProducerHolds<T(!new)>(s: System<T>)
    requires |s.items| == CAPACITY
  {
    match s.producer
    case Idle => true
    case Began(_, w) => w == s.writeIndex
    case Loaded(_, w, r) => w == s.writeIndex && r <= s.seenRead && w - r <= CAPACITY
    case Filling(_, w, r) => w == s.writeIndex && r <= s.seenRead && w - r < CAPACITY
    case Filled(work, w, r) => w == s.writeIndex && r <= s.seenRead && w - r < CAPACITY && s.items[w % CAPACITY] == work
    case Published(w, r) => w + 1 == s.writeIndex && r <= s.seenRead && r <= w && w - r < CAPACITY
  }

  ghost predicate ConsumerHolds<T(!new)>(s: System<T>)
    requires s.seenWrite <= |s.published|
  {
    match s.consumer
    case Resting => true
    case Started(r) => r == s.readIndex
    case Compared(r, w) => r == s.readIndex && r <= w <= s.seenWrite
    case Copying(r, w) => r == s.readIndex && r < w <= s.seenWrite
    case Copied(r, work) => r == s.readIndex && r < s.seenWrite && work == s.published[r]
  }

  // No interleaving lets the producer overwrite a slot the consumer has still to read.
  lemma FillPreserves<T(!new)>(s: System<T>, t: System<T>)
    requires Invariant(s) && s.producer.Filling? && t == Apply(s, FillSlot)
    ensures Invariant(t)
  {
    var w := s.writeIndex;
    forall i | s.readIndex <= i < w
      ensures t.items[i % CAPACITY] == t.published[i]
    {
      assert 0 < w - i < CAPACITY;
      assert i % CAPACITY != w % CAPACITY;
    }
  }

  lemma StorePreserves<T(!new)>(s: System<T>, t: System<T>)
    requires Invariant(s) && s.producer.Filled? && t == Apply(s, StoreWrite)
    ensures Invariant(t)
  {
    assert t.published[..t.readIndex] == s.published[..s.readIndex];
  }

  lemma InitialHolds<T(!new)>(s: System<T>)
    requires Initial(s)
    ensures Invariant(s)
  {
  }

  lemma StepPreserves<T(!new)>(s: System<T>, a: Action<T>)
    requires Invariant(s) && Enabled(s, a)
    ensures Invariant(Apply(s, a))
  {
    var t := Apply(s, a);
    match a
    case FillSlot => FillPreserves(s, t);
    case StoreWrite => StorePreserves(s, t);
    case StoreRead =>
      assert s.published[..t.readIndex] == s.published[..s.readIndex] + [s.published[s.readIndex]];
    case _ =>
  }

  // ----- Whole runs

  // An interleaving: every action is enabled where it is taken.
  ghost predicate Runs<T(!new)>(s: System<T>, actions: seq<Action<T>>, t: System<T>)
    decreases |actions|
  {
    if actions == [] then s == t
    else Enabled(s, actions[0]) && Runs(Apply(s, actions[0]), actions[1..], t)
  }

  lemma {:induction false} RunPreserves<T(!new)>(s: System<T>, actions: seq<Action<T>>, t: System<T>)
    requires Invariant(s) && Runs(s, actions, t)
    ensures Invariant(t)
    decreases |actions|
  {
    if actions != [] {
      StepPreserves(s, actions[0]);
      RunPreserves(Apply(s, actions[0]), actions[1..], t);
    }
  }

  // In every reachable state the items handed out are the oldest ones
  // published, in order; the rest are intact in their slots; and the ring is
  // never over-full.
  lemma RingIsFifo<T(!new)>(s: System<T>, actions: seq<Action<T>>, t: System<T>)
    requires Initial(s) && Runs(s, actions, t)
    ensures |t.published| - |t.taken| <= CAPACITY
    ensures t.readIndex == |t.taken| <= |t.published| == t.writeIndex
    ensures t.published == t.taken + Queue(t)
    ensures |t.items| == CAPACITY
    ensures forall k :: 0 <= k < |Queue(t)| ==> t.items[(t.readIndex + k) % CAPACITY] == Queue(t)[k]
  {
    InitialHolds(s);
    RunPreserves(s, actions, t);
    assert t.published == t.published[..t.readIndex] + t.published[t.readIndex..];
  }

  lemma {:induction false} DeepestGrows<T(!new)>(s: System<T>, actions: seq<Action<T>>, t: System<T>)
    requires Invariant(s) && Runs(s, actions, t)
    requires s.writeIndex - s.readIndex <= s.deepest
    ensures s.deepest <= t.deepest && t.writeIndex - t.readIndex <= t.deepest
    decreases |actions|
  {
    if actions != [] {
      StepPreserves(s, actions[0]);
      DeepestGrows(Apply(s, actions[0]), actions[1..], t);
    }
  }

  // Whenever the producer is between pushes, the high-water mark is at least
  // the depth of the ring at every earlier moment, and at most the capacity.
  lemma HighWaterCovers<T(!new)>(
    s: System<T>, first: seq<Action<T>>, m: System<T>, rest: seq<Action<T>>, t: System<T>)
    requires Initial(s) && Runs(s, first, m) && Runs(m, rest, t) && t.producer.Idle?
    ensures m.writeIndex - m.readIndex <= t.highWater <= CAPACITY
  {
    InitialHolds(s);
    RunPreserves(s, first, m);
    RunPreserves(m, rest, t);
    DeepestGrows(s, first, m);
    DeepestGrows(m, rest, t);
  }

  // While the producer is about to fill a slot and the consumer about to read
  // one, the two slots differ.
  lemma SlotsNeverRace<T(!new)>(s: System<T>, actions: seq<Action<T>>, t: System<T>)
    requires Initial(s) && Runs(s, actions, t)
    requires t.producer.Filling? && t.consumer.Copying?
    ensures t.producer.w % CAPACITY != t.consumer.r % CAPACITY
  {
    InitialHolds(s);
    RunPreserves(s, actions, t);
    assert 0 < t.producer.w - t.consumer.r < CAPACITY;
  }

  // ----- Refinement of a bounded queue

  datatype Effect<T> = Nothing | Enqueued(work: T) | Dequeued(work: T)

  // The single step of push and of pop at which the operation takes effect.
  function EffectOf<T>(s: System<T>, a: Action<T>): Effect<T>
    requires Enabled(s, a)
  {
    match a
    case StoreWrite => Enqueued(s.producer.work)
    case StoreRead => Dequeued(s.consumer.work)
    case _ => Nothing
  }

  ghost predicate QueueStep<T>(before: seq<T>, e: Effect<T>, after: seq<T>) {
    match e
    case Nothing => after == before
    case Enqueued(work) => |before| < CAPACITY && after == before + [work]
    case Dequeued(work) => before == [work] + after
  }

  // Every step of every interleaving is a step of a bounded FIFO queue or
  // leaves that queue alone.
  lemma RefinesQueue<T(!new)>(s: System<T>, actions: seq<Action<T>>, t: System<T>, a: Action<T>)
    requires Initial(s) && Runs(s, actions, t) && Enabled(t, a)
    ensures t.readIndex <= |t.published| && Apply(t, a).readIndex <= |Apply(t, a).published|
    ensures QueueStep(Queue(t), EffectOf(t, a), Queue(Apply(t, a)))
  {
    InitialHolds(s);
    RunPreserves(s, actions, t);
    StepPreserves(t, a);
  }

  // A push that loaded an up-to-date read index gives up exactly when the
  // queue was full at that load; a pop that loaded an up-to-date write index
  // gives up exactly when the queue was empty at that load.
  lemma FreshLoadsDecide<T(!new)>(s: System<T>, actions: seq<Action<T>>, t: System<T>)
    requires Initial(s) && Runs(s, actions, t)
    ensures t.readIndex <= |t.published|
    ensures t.producer.Began? ==>
              Enabled(t, LoadRead(t.readIndex)) &&
              (Apply(Apply(t, LoadRead(t.readIndex)), TestFull).producer.Idle? <==> |Queue(t)| == CAPACITY)
    ensures t.consumer.Started? ==>
              Enabled(t, LoadWrite(t.writeIndex)) &&
              (Apply(Apply(t, LoadWrite(t.writeIndex)), TestEmpty).consumer.Resting? <==> |Queue(t)| == 0)
  {
    InitialHolds(s);
    RunPreserves(s, actions, t);
  }

  // An outdated load can only make an operation give up needlessly: whatever
  // the load returned, a push that goes on has room and a pop that goes on has
  // an item at the moment it takes effect.
  lemma StaleLoadsAreSafe<T(!new)>(s: System<T>, actions: seq<Action<T>>, t: System<T>)
    requires Initial(s) && Runs(s, actions, t)
    ensures t.readIndex <= |t.published|
    ensures t.producer.Filling? || t.producer.Filled? ==> |Queue(t)| < CAPACITY
    ensures t.consumer.Copying? || t.consumer.Copied? ==> |Queue(t)| > 0
    ensures t.consumer.Copied? ==> t.consumer.work == Queue(t)[0]
  {
    InitialHolds(s);
    RunPreserves(s, actions, t);
  }

  // ----- When an operation gives up

  // What push does after its load returns the value, before anyone else moves.
  predicate PushGivesUp<T>(t: System<T>, value: nat) {
    t.producer.Began? && Enabled(t, LoadRead(value)) && Apply(Apply(t, LoadRead(value)), TestFull).producer.Idle?
  }

  predicate PopGivesUp<T>(t: System<T>, value: nat) {
    t.consumer.Started? && Enabled(t, LoadWrite(value))
    && Apply(Apply(t, LoadWrite(value)), TestEmpty).consumer.Resting?
  }

  // A push gives up exactly when it reads again the index it knew and that
  // index is a whole ring behind; a pop exactly when it reads again the index
  // it knew and has already handed out everything before it.
  lemma GivingUpIsExact<T(!new)>(s: System<T>, actions: seq<Action<T>>, t: System<T>, value: nat)
    requires Initial(s) && Runs(s, actions, t)
    ensures t.producer.Began? ==>
              (PushGivesUp(t, value) <==> value == t.seenRead && t.writeIndex == t.seenRead + CAPACITY)
    ensures t.consumer.Started? ==>
              (PopGivesUp(t, value) <==> value == t.seenWrite && t.seenWrite == t.readIndex)
  {
    InitialHolds(s);
    RunPreserves(s, actions, t);
  }

  // Every push that gives up is counted, and nothing else.
  lemma RefusalsAreCounted<T(!new)>(s: System<T>, a: Action<T>)
    requires Enabled(s, a)
    ensures Apply(s, a).fullObservations
            == s.fullObservations
               + if a.TestFull? && s.producer.w - s.producer.r == 4096 then 1 else 0
  {
  }

  // So it may give up on a queue with room, or with an item, exactly when the
  // other side has moved its index since it was last observed.
  lemma NeedlessIsExact<T(!new)>(s: System<T>, actions: seq<Action<T>>, t: System<T>)
    requires Initial(s) && Runs(s, actions, t)
    ensures t.readIndex <= |t.published|
    ensures t.producer.Began? && |Queue(t)| < CAPACITY ==>
              ((exists value: nat :: PushGivesUp(t, value))
               <==> t.writeIndex == t.seenRead + CAPACITY && t.seenRead < t.readIndex)
    ensures t.consumer.Started? && |Queue(t)| > 0 ==>
              ((exists value: nat :: PopGivesUp(t, value))
               <==> t.seenWrite == t.readIndex && t.seenWrite < t.writeIndex)
  {
    InitialHolds(s);
    RunPreserves(s, actions, t);
    GivingUpIsExact(s, actions, t, t.seenRead);
    GivingUpIsExact(s, actions, t, t.seenWrite);
    if value: nat :| PushGivesUp(t, value) { GivingUpIsExact(s, actions, t, value); }
    if value: nat :| PopGivesUp(t, value) { GivingUpIsExact(s, actions, t, value); }
  }

  lemma {:induction false} RunsJoin<T(!new)>(
    s: System<T>, first: seq<Action<T>>, m: System<T>, rest: seq<Action<T>>, t: System<T>)
    requires Runs(s, first, m) && Runs(m, rest, t)
    ensures Runs(s, first + rest, t)
    decreases |first|
  {
    if first == [] {
      assert first + rest == rest;
    } else {
      assert (first + rest)[1..] == first[1..] + rest;
      RunsJoin(Apply(s, first[0]), first[1..], m, rest, t);
    }
  }

  // One step more.
  lemma RunsOn<T(!new)>(s: System<T>, actions: seq<Action<T>>, t: System<T>, a: Action<T>)
    requires Runs(s, actions, t) && Enabled(t, a)
    ensures Runs(s, actions + [a], Apply(t, a))
  {
    assert [a][1..] == [];
    assert Runs(Apply(t, a), [], Apply(t, a));
    RunsJoin(s, actions, t, [a], Apply(t, a));
  }

  // The producer alone pushes n times and never needs a fresh load.
  lemma {:induction false} Pushes<T(!new)>(s: System<T>, work: T, n: nat)
      returns (actions: seq<Action<T>>, t: System<T>)
    requires Initial(s) && n <= CAPACITY
    ensures Runs(s, actions, t) && t.producer.Idle? && t.consumer.Resting?
    ensures t.writeIndex == n && t.readIndex == t.seenRead == 0
  {
    InitialHolds(s);
    if n == 0 {
      actions, t := [], s;
    } else {
      actions, t := Pushes(s, work, n - 1);
      actions, t := OnePush(s, actions, t, work);
    }
  }

  lemma OnePush<T(!new)>(s: System<T>, actions: seq<Action<T>>, t: System<T>, work: T)
      returns (more: seq<Action<T>>, after: System<T>)
    requires Runs(s, actions, t) && Invariant(s) && t.producer.Idle? && t.writeIndex < t.seenRead + CAPACITY
    ensures Runs(s, more, after) && after.producer.Idle? && after.consumer == t.consumer
    ensures after.writeIndex == t.writeIndex + 1 && after.readIndex == t.readIndex && after.seenRead == t.seenRead
  {
    hide Runs, Invariant;
    more, after := Onward(s, actions, t, BeginPush(work));
    Observed(s, more, after);
    more, after := Onward(s, more, after, LoadRead(after.seenRead));
    more, after := Onward(s, more, after, TestFull);
    Observed(s, more, after);
    more, after := Onward(s, more, after, FillSlot);
    more, after := Onward(s, more, after, StoreWrite);
    more, after := Onward(s, more, after, RaiseHighWater);
  }

  lemma Onward<T(!new)>(s: System<T>, actions: seq<Action<T>>, t: System<T>, a: Action<T>)
      returns (more: seq<Action<T>>, after: System<T>)
    requires Runs(s, actions, t) && Enabled(t, a)
    ensures Runs(s, more, after) && after == Apply(t, a)
  {
    RunsOn(s, actions, t, a);
    more, after := actions + [a], Apply(t, a);
  }

  lemma Observed<T(!new)>(s: System<T>, actions: seq<Action<T>>, t: System<T>)
    requires Invariant(s) && Runs(s, actions, t)
    ensures |t.items| == CAPACITY && t.seenRead <= t.readIndex && t.readIndex <= t.seenWrite <= t.writeIndex
    ensures t.writeIndex == |t.published|
  {
    RunPreserves(s, actions, t);
  }

  // A full ring, one item handed out, and a push whose load returns the index
  // as it was before: it gives up although a slot is free.
  lemma StaleLoadRefuses<T(!new)>(s: System<T>, work: T) returns (actions: seq<Action<T>>, t: System<T>)
    requires Initial(s)
    ensures Runs(s, actions, t) && t.readIndex <= |t.published|
    ensures |Queue(t)| == CAPACITY - 1 && PushGivesUp(t, 0) && t.readIndex == 1
  {
    InitialHolds(s);
    actions, t := Pushes(s, work, CAPACITY);
    hide Runs, Invariant;
    actions, t := OnePop(s, actions, t);
    actions, t := Onward(s, actions, t, BeginPush(work));
    Observed(s, actions, t);
  }

  lemma OnePop<T(!new)>(s: System<T>, actions: seq<Action<T>>, t: System<T>)
      returns (more: seq<Action<T>>, after: System<T>)
    requires Runs(s, actions, t) && Invariant(s) && t.consumer.Resting? && t.readIndex < t.writeIndex
    ensures Runs(s, more, after) && after.producer == t.producer && after.consumer.Resting?
    ensures after.readIndex == t.readIndex + 1 && after.writeIndex == t.writeIndex && after.seenRead == t.seenRead
  {
    hide Runs, Invariant;
    more, after := Onward(s, actions, t, BeginPop);
    Observed(s, more, after);
    more, after := Onward(s, more, after, LoadWrite(after.writeIndex));
    more, after := Onward(s, more, after, TestEmpty);
    more, after := Onward(s, more, after, CopySlot);
    more, after := Onward(s, more, after, StoreRead);
  }
}
