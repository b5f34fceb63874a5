/** The queue of client sockets that the accepting thread and the worker threads share. */
module SocketQueue {
  import opened Wrappers
  import opened Numbers

  // ---------- the ring buffer ----------

  datatype Ring = Ring(data: seq<int>, front: nat, rear: nat, count: nat) {
    predicate Ok() {
      front < |data| && count <= |data| && rear == (front + count) % |data|
    }

    /** What is in the queue, the oldest first. */
    function Items(): (r: seq<int>)
      requires Ok()
      ensures |r| == count
    {
      seq(count, i requires 0 <= i => data[(front + i) % |data|])
    }

    function Put(x: int): Ring
      requires Ok() && count < |data|
    {
      Ring(data[rear := x], front, (rear + 1) % |data|, count + 1)
    }

    function Take(): Ring
      requires Ok() && count > 0
    {
      Ring(data, (front + 1) % |data|, rear, count - 1)
    }
  }

  /** Places less than a whole round apart are different. */
  lemma OtherPlace(a: nat, b: nat, n: nat)
    requires a < b < a + n
    ensures a % n != b % n
  {
    var r := a % n + (b - a);
    if r < n { DivMod(b, n, a / n, r); } else { DivMod(b, n, a / n + 1, r - n); }
  }

  lemma NextPlace(a: nat, b: nat, n: nat)
    requires n > 0
    ensures (a % n + b) % n == (a + b) % n
  {
    var q := (a % n + b) / n;
    Distribute(a / n, q, n);
    DivMod(a + b, n, a / n + q, (a % n + b) % n);
  }

  /** A new item goes behind all others. */
  lemma PutItems(r: Ring, x: int)
    requires r.Ok() && r.count < |r.data|
    ensures r.Put(x).Ok() && r.Put(x).Items() == r.Items() + [x]
  {
    var n, p := |r.data|, r.Put(x);
    NextPlace(r.front + r.count, 1, n);
    forall i | 0 <= i < r.count
      ensures p.Items()[i] == r.Items()[i]
    {
      OtherPlace(r.front + i, r.front + r.count, n);
    }
  }

  /** The oldest item is taken. */
  lemma TakeItems(r: Ring)
    requires r.Ok() && r.count > 0
    ensures r.Take().Ok() && r.Items() == [r.data[r.front]] + r.Take().Items()
  {
    TakeOk(r);
    FirstItem(r);
    hide Ring.Items;
    forall i: nat | i + 1 < r.count
      ensures r.Take().Items()[i] == r.Items()[i + 1]
    {
      TakeAt(r, i);
    }
  }

  lemma FirstItem(r: Ring)
    requires r.Ok() && r.count > 0
    ensures r.Items()[0] == r.data[r.front]
  {
    DivMod(r.front, |r.data|, 0, r.front);
  }

  lemma TakeOk(r: Ring)
    requires r.Ok() && r.count > 0
    ensures r.Take().Ok()
  {
    SameRear(r.front, r.count, |r.data|);
  }

  lemma SameRear(front: nat, count: nat, n: nat)
    requires front < n && 0 < count
    ensures ((front + 1) % n + (count - 1)) % n == (front + count) % n && (front + 1) % n < n
  {
    NextPlace(front + 1, count - 1, n);
    assert front + 1 + (count - 1) == front + count;
  }

  lemma TakeAt(r: Ring, i: nat)
    requires r.Ok() && i + 1 < r.count && r.Take().Ok()
    ensures r.Take().Items()[i] == r.Items()[i + 1]
  {
    hide Ring.Items, Ring.Ok;
    ItemAt(r, i + 1);
    ItemAt(r.Take(), i);
    SamePlace(r.front, i, |r.data|);
  }

  lemma SamePlace(front: nat, i: nat, n: nat)
    requires n > 0
    ensures ((front + 1) % n + i) % n == (front + (i + 1)) % n
  {
    NextPlace(front + 1, i, n);
    assert front + 1 + i == front + (i + 1);
  }

  lemma ItemAt(r: Ring, i: nat)
    requires r.Ok() && i < r.count
    ensures |r.data| > 0 && (r.front + i) % |r.data| < |r.data| && r.Items()[i] == r.data[(r.front + i) % |r.data|]
  {
    hide Ring.Ok;
    RingSize(r);
  }

  lemma RingSize(r: Ring)
    requires r.Ok()
    ensures |r.data| > 0
  {}

  /** The queue as the threads share it; its methods are what runs under the mutex. */
  class Queue {
    const data: array<int>
    var front: nat
    var rear: nat
    var count: nat

    ghost predicate Valid()
      reads this, data
    {
      Snapshot().Ok()
    }

    function Snapshot(): Ring
      reads this, data
    {
      Ring(data[..], front, rear, count)
    }

    constructor (capacity: nat)
      requires capacity > 0
      ensures fresh(data) && data.Length == capacity && Valid() && Snapshot().Items() == []
    {
      data := new int[capacity](_ => 0);
      front, rear, count := 0, 0, 0;
    }

    /** The part of a push after the wait for a free place. */
    method Store(client: int)
      requires Valid() && count < data.Length
      modifies this`rear, this`count, data
      ensures Valid() && Snapshot() == old(Snapshot()).Put(client)
      ensures Snapshot().Items() == old(Snapshot().Items()) + [client]
    {
      ghost var r := Snapshot();
      PutItems(r, client);
      data[rear] := client;
      rear := (rear + 1) % data.Length;
      count := count + 1;
      assert Snapshot() == r.Put(client);
    }

    /** The part of a pop after the wait for an item. */
    method Fetch() returns (client: int)
      requires Valid() && count > 0
      modifies this`front, this`count
      ensures Valid() && Snapshot() == old(Snapshot()).Take()
      ensures old(Snapshot().Items()) == [client] + Snapshot().Items()
    {
      ghost var r := Snapshot();
      TakeItems(r);
      client := data[front];
      front := (front + 1) % data.Length;
      count := count - 1;
      assert Snapshot() == r.Take();
    }
  }

  // ---------- the threads ----------

  datatype Role = Producer | Consumer

  /** Where a thread is in its push or its pop. */
  datatype Pc =
    | Outside    // before the lock, or between two calls
    | Testing    // holds the mutex, at the test of the wait loop
    | Asleep     // waits for its condition
    | Woken      // was woken, and wants the mutex again
    | Changed    // has changed the queue, and is about to signal
    | Leaving    // has signalled, and is about to unlock

  datatype Thread = Thread(role: Role, pc: Pc, item: int)

  datatype State = State(q: Ring, owner: Option<nat>, ts: seq<Thread>, pushed: seq<int>, popped: seq<int>)

  predicate InSection(pc: Pc) {
    pc == Testing || pc == Changed || pc == Leaving
  }

  /** The condition a thread of role `r` waits on is not met. */
  predicate Blocked(q: Ring, r: Role) {
    match r
    case Producer => q.count == |q.data|
    case Consumer => q.count == 0
  }

  function Goes(s: State, i: nat, pc: Pc): seq<Thread>
    requires i < |s.ts|
  {
    s.ts[i := s.ts[i].(pc := pc)]
  }

  /** A thread gets the mutex: at the start of a call, or on its way back from a wait. */
  predicate Lock(s: State, s': State, i: nat)
    requires i < |s.ts|
  {
    && s.owner == None && (s.ts[i].pc == Outside || s.ts[i].pc == Woken)
    && s' == s.(owner := Some(i), ts := Goes(s, i, Testing))
  }

  /** A producer accepts the next client before it pushes. */
  predicate Accept(s: State, s': State, i: nat)
    requires i < |s.ts|
  {
    && s.ts[i].role == Producer && s.ts[i].pc == Outside
    && |s'.ts| == |s.ts| && s' == s.(ts := s.ts[i := s.ts[i].(item := s'.ts[i].item)])
  }

  /** Waiting gives the mutex back and sleeps, in one step. */
  predicate Wait(s: State, s': State, i: nat)
    requires i < |s.ts|
  {
    && s.ts[i].pc == Testing && Blocked(s.q, s.ts[i].role)
    && s' == s.(owner := None, ts := Goes(s, i, Asleep))
  }

  predicate Push(s: State, s': State, i: nat)
    requires i < |s.ts|
  {
    && s.ts[i].role == Producer && s.ts[i].pc == Testing && s.q.Ok() && !Blocked(s.q, Producer)
    && s' == s.(q := s.q.Put(s.ts[i].item), ts := Goes(s, i, Changed), pushed := s.pushed + [s.ts[i].item])
  }

  predicate Pop(s: State, s': State, i: nat)
    requires i < |s.ts|
  {
    && s.ts[i].role == Consumer && s.ts[i].pc == Testing && s.q.Ok() && !Blocked(s.q, Consumer)
    && var client := s.q.data[s.q.front];
       s' == s.(q := s.q.Take(), ts := s.ts[i := Thread(Consumer, Changed, client)], popped := s.popped + [client])
  }

  predicate Sleeps(t: Thread, r: Role) {
    t.role == r && t.pc == Asleep
  }

  function Other(r: Role): Role {
    if r == Producer then Consumer else Producer
  }

  /** A signal wakes at least one of the threads that wait on the condition, if there are any. */
  predicate Signal(s: State, s': State, i: nat)
    requires i < |s.ts|
  {
    var r := Other(s.ts[i].role);
    && s.ts[i].pc == Changed
    && |s'.ts| == |s.ts| && s' == s.(ts := s'.ts) && s'.ts[i] == s.ts[i].(pc := Leaving)
    && (forall j :: 0 <= j < |s.ts| && j != i ==>
          s'.ts[j] == s.ts[j] || (Sleeps(s.ts[j], r) && s'.ts[j] == s.ts[j].(pc := Woken)))
    && ((exists j :: 0 <= j < |s.ts| && Sleeps(s.ts[j], r)) ==>
          exists j :: 0 <= j < |s.ts| && Sleeps(s.ts[j], r) && s'.ts[j].pc == Woken)
  }

  predicate Unlock(s: State, s': State, i: nat)
    requires i < |s.ts|
  {
    s.ts[i].pc == Leaving && s' == s.(owner := None, ts := Goes(s, i, Outside))
  }

  /** A waiting thread may wake up without a signal. */
  predicate Spurious(s: State, s': State, i: nat)
    requires i < |s.ts|
  {
    s.ts[i].pc == Asleep && s' == s.(ts := Goes(s, i, Woken))
  }

  /** A step that thread `i` takes by itself. */
  predicate Works(s: State, s': State, i: nat) {
    i < |s.ts| &&
    (Lock(s, s', i) || Wait(s, s', i) || Push(s, s', i) || Pop(s, s', i) || Signal(s, s', i) || Unlock(s, s', i))
  }

  predicate Step(s: State, s': State, i: nat) {
    Works(s, s', i) || (i < |s.ts| && (Spurious(s, s', i) || Accept(s, s', i)))
  }

  /** Any number of producers and consumers, and an empty queue. */
  predicate Init(s: State) {
    && s.q.Ok() && s.q.count == 0 && s.owner == None && s.pushed == [] && s.popped == []
    && (forall i :: 0 <= i < |s.ts| ==> s.ts[i].pc == Outside)
    && Plays(s.ts, Producer) && Plays(s.ts, Consumer)
  }

  predicate Plays(ts: seq<Thread>, r: Role) {
    exists i :: 0 <= i < |ts| && ts[i].role == r
  }

  /** Some thread of role `r` does not sleep. */
  predicate Active(ts: seq<Thread>, r: Role) {
    exists i :: 0 <= i < |ts| && ts[i].role == r && ts[i].pc != Asleep
  }

  /** Some thread of role `r` has changed the queue but has not signalled yet. */
  predicate Signalling(ts: seq<Thread>, r: Role) {
    exists i :: 0 <= i < |ts| && ts[i].role == r && ts[i].pc == Changed
  }

  // ---------- what every step keeps ----------

  /** What was popped is a prefix of what was pushed; the rest is in the queue, in order. */
  predicate InOrder(s: State) {
    s.q.Ok() && s.pushed == s.popped + s.q.Items()
  }

  /** Only the owner of the mutex is between lock and unlock. */
  predicate Exclusive(s: State) {
    && (s.owner.Some? ==> s.owner.value < |s.ts| && InSection(s.ts[s.owner.value].pc))
    && forall i :: 0 <= i < |s.ts| && InSection(s.ts[i].pc) ==> s.owner == Some(i)
  }

  /** No wake-up is lost: a thread that could go on sleeps only if another is awake, or is about to be woken. */
  predicate NoneLost(s: State, r: Role) {
    !Blocked(s.q, r) ==> Active(s.ts, r) || Signalling(s.ts, Other(r))
  }

  predicate Inv(s: State) {
    && InOrder(s) && Exclusive(s) && Plays(s.ts, Producer) && Plays(s.ts, Consumer)
    && NoneLost(s, Producer) && NoneLost(s, Consumer)
  }

  lemma InitInv(s: State)
    requires Init(s)
    ensures Inv(s)
  {
    assert s.q.Items() == [];
    var p :| 0 <= p < |s.ts| && s.ts[p].role == Producer;
    var c :| 0 <= c < |s.ts| && s.ts[c].role == Consumer;
    assert s.ts[p].pc != Asleep && s.ts[c].pc != Asleep;
  }

  lemma StepInOrder(s: State, s': State, i: nat)
    requires Inv(s) && Step(s, s', i)
    ensures InOrder(s')
  {
    hide Plays, NoneLost, Exclusive;
    if Works(s, s', i) {
      if Push(s, s', i) {
        PutItems(s.q, s.ts[i].item);
      } else if Pop(s, s', i) {
        TakeItems(s.q);
      }
    }
  }

  lemma StepExclusive(s: State, s': State, i: nat)
    requires Inv(s) && Step(s, s', i)
    ensures Exclusive(s')
  {
    hide InOrder, Plays, NoneLost, Ring.Items;
  }

  lemma StepPlays(s: State, s': State, i: nat, r: Role)
    requires Inv(s) && Step(s, s', i)
    ensures |s'.ts| == |s.ts| && Plays(s'.ts, r)
    ensures forall j :: 0 <= j < |s.ts| ==> s'.ts[j].role == s.ts[j].role
  {
    hide InOrder, NoneLost, Exclusive, Ring.Items;
    var p :| 0 <= p < |s.ts| && s.ts[p].role == r;
    assert s'.ts[p].role == r;
  }

  /** After a signal nobody on the other side sleeps alone. */
  lemma SignalWakes(s: State, s': State, i: nat)
    requires Inv(s) && i < |s.ts| && Signal(s, s', i)
    ensures Active(s'.ts, Other(s.ts[i].role))
  {
    hide InOrder, NoneLost, Exclusive, Ring.Items;
    var r := Other(s.ts[i].role);
    if j :| 0 <= j < |s.ts| && Sleeps(s.ts[j], r) {
      var k :| 0 <= k < |s.ts| && Sleeps(s.ts[k], r) && s'.ts[k].pc == Woken;
      assert s'.ts[k].role == r;
    } else {
      var p :| 0 <= p < |s.ts| && s.ts[p].role == r;
      assert !Sleeps(s.ts[p], r);
      assert s'.ts[p] == s.ts[p];
    }
  }

  lemma StepNoneLost(s: State, s': State, i: nat, r: Role)
    requires Inv(s) && Step(s, s', i)
    ensures NoneLost(s', r)
  {
    hide InOrder, Exclusive, Ring.Items;
    var me := s.ts[i];
    if Signal(s, s', i) && me.role == Other(r) {
      SignalWakes(s, s', i);
    } else if Blocked(s'.q, r) {
    } else if s'.ts[i].pc == Changed && me.role == Other(r) {
      assert Signalling(s'.ts, Other(r));
    } else if me.role == r && s'.ts[i].pc != Asleep {
      assert Active(s'.ts, r);
    } else {
      OthersStay(s, s', i, r);
    }
  }

  /** A step that neither puts the last active thread to sleep nor signals keeps who is active. */
  lemma OthersStay(s: State, s': State, i: nat, r: Role)
    requires Inv(s) && Step(s, s', i) && !Blocked(s'.q, r)
    requires !(Signal(s, s', i) && s.ts[i].role == Other(r))
    requires !(s'.ts[i].pc == Changed && s.ts[i].role == Other(r))
    requires !(s.ts[i].role == r && s'.ts[i].pc != Asleep)
    ensures NoneLost(s', r)
  {
    hide InOrder, Exclusive, Ring.Items;
    assert !Blocked(s.q, r) && s.ts[i].role == Other(r);
    if Active(s.ts, r) {
      var p :| 0 <= p < |s.ts| && s.ts[p].role == r && s.ts[p].pc != Asleep;
      assert s'.ts[p].role == r && s'.ts[p].pc != Asleep;
    } else {
      var c :| 0 <= c < |s.ts| && s.ts[c].role == Other(r) && s.ts[c].pc == Changed;
      assert c != i;
      assert s'.ts[c] == s.ts[c];
    }
  }

  lemma StepInv(s: State, s': State, i: nat)
    requires Inv(s) && Step(s, s', i)
    ensures Inv(s')
  {
    StepInOrder(s, s', i);
    StepExclusive(s, s', i);
    StepPlays(s, s', i, Producer);
    StepPlays(s, s', i, Consumer);
    StepNoneLost(s, s', i, Producer);
    StepNoneLost(s, s', i, Consumer);
  }

  // ---------- whole runs ----------

  /** An interleaving: `who[k]` takes the step from state `k`. */
  predicate Run(states: seq<State>, who: seq<nat>) {
    && |states| == |who| + 1 && Init(states[0])
    && forall k :: 0 <= k < |who| ==> Step(states[k], states[k + 1], who[k])
  }

  lemma {:induction false} RunInv(states: seq<State>, who: seq<nat>, k: nat)
    requires Run(states, who) && k < |states|
    ensures Inv(states[k])
  {
    hide Inv, Init, Step;
    if k == 0 {
      InitInv(states[0]);
    } else {
      RunInv(states, who, k - 1);
      assert Step(states[k - 1], states[k - 1 + 1], who[k - 1]);
      StepInv(states[k - 1], states[k], who[k - 1]);
    }
  }

  /** First in, first out, in every interleaving, and never more than the capacity. */
  lemma FirstInFirstOut(states: seq<State>, who: seq<nat>, k: nat)
    requires Run(states, who) && k < |states|
    ensures states[k].popped <= states[k].pushed
    ensures |states[k].pushed| - |states[k].popped| == states[k].q.count <= |states[k].q.data|
  {
    RunInv(states, who, k);
  }

  /** In every run, consumers asleep that nobody is about to wake mean an empty queue, and producers a full one. */
  lemma AsleepMeansBlocked(states: seq<State>, who: seq<nat>, k: nat, r: Role)
    requires Run(states, who) && k < |states|
    ensures !Active(states[k].ts, r) && !Signalling(states[k].ts, Other(r)) ==>
              states[k].q.count == if r == Consumer then 0 else |states[k].q.data|
  {
    hide Run, Active, Signalling;
    RunInv(states, who, k);
    if !Active(states[k].ts, r) && !Signalling(states[k].ts, Other(r)) { QuietMeansBlocked(states[k], r); }
  }

  lemma QuietMeansBlocked(s: State, r: Role)
    requires Inv(s) && !Active(s.ts, r) && !Signalling(s.ts, Other(r))
    ensures s.q.count == if r == Consumer then 0 else |s.q.data|
  {}

  /** In no state of any run is everybody stuck: some thread can go on without a spurious wake-up. */
  lemma NoDeadlock(states: seq<State>, who: seq<nat>, k: nat)
    requires Run(states, who) && k < |states|
    ensures exists i, s' :: Works(states[k], s', i)
  {
    hide Run, Init;
    RunInv(states, who, k);
    var i, s' := SomeoneWorks(states[k]);
  }

  lemma SomeoneWorks(s: State) returns (i: nat, s': State)
    requires Inv(s)
    ensures Works(s, s', i)
  {
    if s.owner.Some? {
      i := s.owner.value;
      s' := OwnerWorks(s);
    } else {
      i := SomeoneReady(s);
      s' := s.(owner := Some(i), ts := Goes(s, i, Testing));
      assert Lock(s, s', i);
    }
  }

  /** With the mutex free, not everybody can be asleep: the queue cannot be empty and full at once. */
  lemma SomeoneReady(s: State) returns (i: nat)
    requires Inv(s) && s.owner == None
    ensures i < |s.ts| && (s.ts[i].pc == Outside || s.ts[i].pc == Woken)
  {
    assert !Signalling(s.ts, Producer) && !Signalling(s.ts, Consumer);
    if Active(s.ts, Consumer) {
      i :| 0 <= i < |s.ts| && s.ts[i].role == Consumer && s.ts[i].pc != Asleep;
    } else {
      QuietMeansBlocked(s, Consumer);
      i :| 0 <= i < |s.ts| && s.ts[i].role == Producer && s.ts[i].pc != Asleep;
    }
  }

  /** The owner of the mutex can always go on, towards giving it back. */
  lemma OwnerWorks(s: State) returns (s': State)
    requires Inv(s) && s.owner.Some?
    ensures Works(s, s', s.owner.value) && StepsToFree(s') < StepsToFree(s)
    ensures var me := s.ts[s.owner.value];
            me.pc == Testing && !Blocked(s.q, me.role) ==> Done(s', me.role) == Done(s, me.role) + 1
    ensures forall r :: !Blocked(s.q, r) ==>
              Done(s', r) == Done(s, r) + 1 || (Done(s', r) == Done(s, r) && !Blocked(s'.q, r))
  {
    var i := s.owner.value;
    var me := s.ts[i];
    if me.pc == Testing {
      if Blocked(s.q, me.role) {
        s' := s.(owner := None, ts := Goes(s, i, Asleep));
      } else if me.role == Producer {
        s' := s.(q := s.q.Put(me.item), ts := Goes(s, i, Changed), pushed := s.pushed + [me.item]);
      } else {
        var client := s.q.data[s.q.front];
        s' := s.(q := s.q.Take(), ts := s.ts[i := Thread(Consumer, Changed, client)], popped := s.popped + [client]);
      }
    } else if me.pc == Changed {
      s' := SignalAll(s, i);
    } else {
      s' := s.(owner := None, ts := Goes(s, i, Outside));
    }
  }

  /** How far the owner of the mutex is from giving it back. */
  function StepsToFree(s: State): nat {
    if s.owner.None? || s.owner.value >= |s.ts| then 0
    else match s.ts[s.owner.value].pc
      case Testing => 3
      case Changed => 2
      case _ => 1
  }

  /** How many pushes or pops have been done. */
  function Done(s: State, r: Role): nat {
    if r == Producer then |s.pushed| else |s.popped|
  }

  /** `n` steps, none of them a spurious wake-up, lead from `s` to `s'`. */
  ghost predicate Reaches(s: State, s': State, n: nat)
    decreases n
  {
    if n == 0 then s == s' else exists m, i :: Works(s, m, i) && Reaches(m, s', n - 1)
  }

  lemma ReachStep(s: State, m: State, i: nat, s': State, n: nat)
    requires Works(s, m, i) && Reaches(m, s', n)
    ensures Reaches(s, s', n + 1)
  {}

  /** From every state of every run, a push or a pop that is not blocked can come to its end. */
  lemma AlwaysGoesOn(states: seq<State>, who: seq<nat>, k: nat, r: Role)
    requires Run(states, who) && k < |states| && !Blocked(states[k].q, r)
    ensures exists s', n :: Reaches(states[k], s', n) && Done(s', r) == Done(states[k], r) + 1
  {
    hide Run, Inv, Reaches, Done;
    RunInv(states, who, k);
    var s', n := CanGoOn(states[k], r);
  }

  lemma {:induction false} CanGoOn(s: State, r: Role) returns (s': State, n: nat)
    requires Inv(s) && !Blocked(s.q, r)
    ensures Reaches(s, s', n) && Done(s', r) == Done(s, r) + 1
    decreases StepsToFree(s)
  {
    hide Works, Reaches;
    var m, i;
    if s.owner.None? {
      i := ReadyThread(s, r);
      m := s.(owner := Some(i), ts := Goes(s, i, Testing));
      LockWorks(s, m, i);
      StepInv(s, m, i);
      s' := OwnerWorks(m);
      n := 0;
    } else {
      i := s.owner.value;
      m := OwnerWorks(s);
      WorksIsStep(s, m, i);
      StepInv(s, m, i);
      if Done(m, r) > Done(s, r) {
        s', n := m, 0;
        Nothing(m);
        ReachStep(s, m, i, s', n);
        n := 1;
        return;
      }
      s', n := CanGoOn(m, r);
      ReachStep(s, m, i, s', n);
      n := n + 1;
      return;
    }
    Nothing(s');
    ReachStep(m, s', i, s', 0);
    ReachStep(s, m, i, s', 1);
    n := 2;
  }

  lemma Nothing(s: State)
    ensures Reaches(s, s, 0)
  {}

  lemma LockWorks(s: State, m: State, i: nat)
    requires i < |s.ts| && Lock(s, m, i)
    ensures Works(s, m, i) && Step(s, m, i)
  {}

  lemma WorksIsStep(s: State, m: State, i: nat)
    requires Works(s, m, i)
    ensures Step(s, m, i)
  {}

  lemma ReadyThread(s: State, r: Role) returns (i: nat)
    requires Inv(s) && s.owner == None && !Blocked(s.q, r)
    ensures i < |s.ts| && s.ts[i].role == r && (s.ts[i].pc == Outside || s.ts[i].pc == Woken)
  {
    assert !Signalling(s.ts, Other(r));
    i :| 0 <= i < |s.ts| && s.ts[i].role == r && s.ts[i].pc != Asleep;
  }

  /** A signal is always possible; here it wakes everybody who waits. */
  lemma SignalAll(s: State, i: nat) returns (s': State)
    requires i < |s.ts| && s.ts[i].pc == Changed
    ensures Signal(s, s', i)
  {
    var r := Other(s.ts[i].role);
    var ts := seq(|s.ts|, j requires 0 <= j < |s.ts| =>
      if j == i then s.ts[i].(pc := Leaving) else if Sleeps(s.ts[j], r) then s.ts[j].(pc := Woken) else s.ts[j]);
    s' := s.(ts := ts);
    if j :| 0 <= j < |s.ts| && Sleeps(s.ts[j], r) {
      assert j != i && s'.ts[j].pc == Woken;
    }
  }
}
