/** Agents get somewhere: programs that are carried out leave the counters and queues that the handlers promise. */
module HandleRuns {
  import opened Bytes
  import opened Forum
  import opened Wire
  import opened Store
  import opened Ownership

  // ------------------------------------------------------------- one program, undisturbed

  function Goes(a: nat, n: nat): seq<Move> {
    if n == 0 then [] else [Go(a)] + Goes(a, n - 1)
  }

  ghost predicate NoPops(todo: seq<Op>) {
    forall k :: 0 <= k < |todo| ==> !todo[k].Pop?
  }

  lemma {:induction false} AddsAndDeletesDoNotPop(fs: seq<Found>)
    ensures NoPops(Adds(fs)) && NoPops(Deletes(fs))
  {
    if fs != [] {
      AddsAndDeletesDoNotPop(fs[1..]);
    }
  }

  lemma ProgramsDoNotPop(ts: seq<Thread>, id: u64, r: Request)
    ensures NoPops(Program(ts, id, r))
  {
    if r.Find? {
      AddsAndDeletesDoNotPop(Matches(ts, r.part));
    }
  }

  /** The agent has done these operations and the others nothing. */
  ghost predicate Done(w: World, a: nat, todo: seq<Op>, w': World)
    requires a < |w.agents|
  {
    && |w'.agents| == |w.agents| && w'.agents[a].todo == []
    && (forall b :: 0 <= b < |w.agents| && b != a ==> w'.agents[b] == w.agents[b])
    && forall q :: In(w'.h, q) == In(w.h, q) + PushedTo(q, todo)
  }

  lemma DoPushes(h: Handles, held: Held, op: Op, q: Queue)
    requires !op.Pop?
    ensures In(Do(h, held, op).0, q) == In(h, q) + if op.Push? && op.q == q then [op.id] else []
    ensures Do(h, held, op).2 == []
  {}

  /** One operation of the agent. */
  lemma StepIsDone(w: World, a: nat)
    requires a < |w.agents| && w.agents[a].todo != [] && !w.agents[a].todo[0].Pop?
    ensures var w1, op := StepAgent(w, a), w.agents[a].todo[0];
      && |w1.agents| == |w.agents| && w1.agents[a].todo == w.agents[a].todo[1..]
      && (forall b :: 0 <= b < |w.agents| && b != a ==> w1.agents[b] == w.agents[b])
      && forall q :: In(w1.h, q) == In(w.h, q) + if op.Push? && op.q == q then [op.id] else []
  {
    forall q {
      DoPushes(w.h, w.agents[a].held, w.agents[a].todo[0], q);
    }
  }

  lemma DoneAfterStep(w: World, a: nat, w1: World, w2: World)
    requires a < |w.agents| && w.agents[a].todo != [] && |w1.agents| == |w.agents|
    requires forall b :: 0 <= b < |w.agents| && b != a ==> w1.agents[b] == w.agents[b]
    requires var op := w.agents[a].todo[0];
      forall q :: In(w1.h, q) == In(w.h, q) + if op.Push? && op.q == q then [op.id] else []
    requires Done(w1, a, w.agents[a].todo[1..], w2)
    ensures Done(w, a, w.agents[a].todo, w2)
  {
    hide In;
  }

  lemma {:induction false} ProgramRuns(w: World, a: nat)
    requires a < |w.agents| && NoPops(w.agents[a].todo)
    ensures var ms := Goes(a, |w.agents[a].todo|);
      RunOk(w, ms) && Done(w, a, w.agents[a].todo, After(w, ms))
    decreases |w.agents[a].todo|
  {
    var todo := w.agents[a].todo;
    if todo == [] {
      assert forall q :: In(w.h, q) + PushedTo(q, []) == In(w.h, q);
    } else {
      var w1, ms := StepAgent(w, a), Goes(a, |todo|);
      StepIsDone(w, a);
      assert w1.agents[a].todo == todo[1..] && NoPops(todo[1..]);
      assert ms[0] == Go(a) && ms[1..] == Goes(a, |todo[1..]|);
      hide StepAgent, In, Done;
      ProgramRuns(w1, a);
      DoneAfterStep(w, a, w1, After(w1, ms[1..]));
    }
  }

  // ------------------------------------------------------------------- served requests

  /** Registry and save queues are those of the store. */
  ghost predicate Matching(h: Handles, s: State) {
    h.registry == IdsOf(s.threads) && h.infoQ == s.infoQ && h.authorQ == s.authorQ
  }

  /** A connection serves the request from start to end. */
  function Serving(a: nat, s: State, r: Request): seq<Move> {
    [Serve(a, s.threads, s.nextId, r)] + Goes(a, |Program(s.threads, s.nextId, r)|)
  }

  lemma IdleHoldsNothing(w: World, a: nat)
    requires Sound(w) && a < |w.agents| && w.agents[a].todo == []
    ensures w.agents[a] == Agent([], multiset{})
  {
    assert Balanced(w.agents[a].todo, w.agents[a].held, multiset(w.h.registry));
  }

  lemma ServeStarts(w: World, a: nat, s: State, r: Request)
    requires Sound(w) && a < |w.agents| && w.agents[a].todo == [] && Matching(w.h, s)
    ensures MoveOk(w, Serve(a, s.threads, s.nextId, r))
    ensures var w1 := Make(w, Serve(a, s.threads, s.nextId, r));
      && w1.h == w.h && |w1.agents| == |w.agents|
      && w1.agents[a] == Agent(Program(s.threads, s.nextId, r), w.agents[a].held)
      && forall b :: 0 <= b < |w.agents| && b != a ==> w1.agents[b] == w.agents[b]
  {
    forall k | 0 <= k < |s.threads| ensures s.threads[k].id in multiset(w.h.registry) {
      assert w.h.registry[k] == s.threads[k].id;
    }
    hide Program;
  }

  lemma ServeRuns(w: World, a: nat, s: State, r: Request)
    requires Sound(w) && a < |w.agents| && w.agents[a].todo == [] && Matching(w.h, s)
    ensures RunOk(w, Serving(a, s, r)) && Sound(After(w, Serving(a, s, r)))
    ensures After(w, Serving(a, s, r)).agents == w.agents
    ensures forall q :: In(After(w, Serving(a, s, r)).h, q)
                     == In(w.h, q) + PushedTo(q, Program(s.threads, s.nextId, r))
  {
    var m, p, ms := Serve(a, s.threads, s.nextId, r), Program(s.threads, s.nextId, r), Serving(a, s, r);
    ServeStarts(w, a, s, r);
    ProgramsDoNotPop(s.threads, s.nextId, r);
    var w1 := Make(w, m);
    assert ms[0] == m && ms[1..] == Goes(a, |p|);
    IdleHoldsNothing(w, a);
    hide Make, MoveOk, Sound, Program, Goes;
    ProgramRuns(w1, a);
    CountersCountHandles(w, ms);
    var w2 := After(w, ms);
    assert w2 == After(w1, Goes(a, |p|));
    IdleHoldsNothing(w2, a);
    assert w2.agents == w.agents;
  }

  /** What the queues of a served request gain, the counters gain: nothing else is taken or lost. */
  lemma CountsGrow(w: World, w': World, a: seq<u64>, b: seq<u64>, c: seq<u64>)
    requires Conserved(w) && Conserved(w') && w'.agents == w.agents
    requires w'.h.registry == w.h.registry + a && w'.h.infoQ == w.h.infoQ + b && w'.h.authorQ == w.h.authorQ + c
    requires w'.h.historyQ == w.h.historyQ
    ensures w'.h.refs == w.h.refs + multiset(a) + multiset(b) + multiset(c)
  {}

  lemma HandlerQueues(s: State, r: Request, o: Oracle)
    ensures var s' := Handle(s, r, o).0;
      && IdsOf(s'.threads) == IdsOf(s.threads) + QueuedBy(Registry, s, r)
      && s'.infoQ == s.infoQ + QueuedBy(InfoQ, s, r) && s'.authorQ == s.authorQ + QueuedBy(AuthorQ, s, r)
    ensures forall q :: PushedTo(q, Program(s.threads, s.nextId, r)) == QueuedBy(q, s, r)
    ensures QueuedBy(HistoryQ, s, r) == []
  {
    ProgramsPushWhatHandlersQueue(s, r, o);
    forall q {
      ProgramPushes(q, s, r);
    }
    hide Handle, Program, PushedTo, IdsOf;
  }

  /** The four queues one by one. */
  lemma Queues(h: Handles, h': Handles, p: seq<Op>)
    requires forall q :: In(h', q) == In(h, q) + PushedTo(q, p)
    ensures h'.registry == h.registry + PushedTo(Registry, p) && h'.infoQ == h.infoQ + PushedTo(InfoQ, p)
    ensures h'.authorQ == h.authorQ + PushedTo(AuthorQ, p) && h'.historyQ == h.historyQ + PushedTo(HistoryQ, p)
  {
    assert forall q :: In(h', q) == In(h, q) + PushedTo(q, p);
    assert In(h', Registry) == h'.registry && In(h', InfoQ) == h'.infoQ;
    assert In(h', AuthorQ) == h'.authorQ && In(h', HistoryQ) == h'.historyQ;
    hide PushedTo;
  }

  /**
    A request is carried through to its end: the agent is idle again and holds nothing, the other agents are as they
    were, registry and save queues are those the handler leaves, and the counters have grown by what was queued.
   */
  lemma RequestIsServed(w: World, a: nat, s: State, r: Request, o: Oracle)
    requires Sound(w) && a < |w.agents| && w.agents[a].todo == [] && Matching(w.h, s)
    ensures RunOk(w, Serving(a, s, r))
    ensures var w', s' := After(w, Serving(a, s, r)), Handle(s, r, o).0;
      && Sound(w') && w'.agents == w.agents
      && Matching(w'.h, s') && w'.h.historyQ == w.h.historyQ
      && w'.h.refs == w.h.refs + multiset(QueuedBy(Registry, s, r)) + multiset(QueuedBy(InfoQ, s, r))
                       + multiset(QueuedBy(AuthorQ, s, r))
  {
    ServeRuns(w, a, s, r);
    HandlerQueues(s, r, o);
    hide Handle, Program, PushedTo, Serving, After, RunOk, IdsOf, QueuedBy, In, AllBalanced, StoredAreRegistered,
      Conserved;
    var w' := After(w, Serving(a, s, r));
    Queues(w.h, w'.h, Program(s.threads, s.nextId, r));
    CountsGrow(w, w', QueuedBy(Registry, s, r), QueuedBy(InfoQ, s, r), QueuedBy(AuthorQ, s, r));
  }

  // ---------------------------------------------------------------------- writer turns

  lemma TurnSteps(w: World, a: nat, q: Ownership.Queue)
    requires a < |w.agents| && w.agents[a] == Agent([], multiset{}) && q != Registry && In(w.h, q) != []
    ensures var w1 := Make(w, Write(a, q));
      var w2 := StepAgent(w1, a);
      var w3 := StepAgent(w2, a);
      && |w3.agents| == |w.agents| && w3.agents[a].todo == []
      && (forall b :: 0 <= b < |w.agents| && b != a ==> w3.agents[b] == w.agents[b])
      && In(w3.h, q) == In(w.h, q)[1..] && forall p :: p != q ==> In(w3.h, p) == In(w.h, p)
  {
    var w2 := StepAgent(Make(w, Write(a, q)), a);
    assert w2.agents[a].todo == [Delete(In(w.h, q)[0])] + [];
    assert w2.h == WithQueue(w.h, q, In(w.h, q)[1..]);
  }

  lemma MoveFirst(w: World, m: Move, ms: seq<Move>)
    requires MoveOk(w, m) && RunOk(Make(w, m), ms)
    ensures RunOk(w, [m] + ms) && After(w, [m] + ms) == After(Make(w, m), ms)
  {
    assert ([m] + ms)[1..] == ms;
    hide Make, MoveOk;
  }

  lemma NoMoves(w: World)
    ensures RunOk(w, []) && After(w, []) == w
  {}

  lemma GoIsStep(w: World, a: nat)
    ensures MoveOk(w, Go(a)) && Make(w, Go(a)) == StepAgent(w, a)
  {
    hide StepAgent;
  }

  lemma ThreeMoves(w: World, m: Move, a: nat)
    requires MoveOk(w, m)
    ensures RunOk(w, [m, Go(a), Go(a)])
    ensures After(w, [m, Go(a), Go(a)]) == StepAgent(StepAgent(Make(w, m), a), a)
  {
    hide *;
    var w1 := Make(w, m);
    var w2 := StepAgent(w1, a);
    GoIsStep(w1, a);
    GoIsStep(w2, a);
    NoMoves(StepAgent(w2, a));
    MoveFirst(w2, Go(a), []);
    MoveFirst(w1, Go(a), [Go(a)] + []);
    MoveFirst(w, m, [Go(a)] + ([Go(a)] + []));
    assert [m] + ([Go(a)] + ([Go(a)] + [])) == [m, Go(a), Go(a)];
  }

  lemma OneLessCounted(w: World, w': World, q: Ownership.Queue)
    requires Conserved(w) && Conserved(w') && w'.agents == w.agents && In(w.h, q) != []
    requires In(w'.h, q) == In(w.h, q)[1..] && forall p :: p != q ==> In(w'.h, p) == In(w.h, p)
    ensures w'.h.refs + multiset{In(w.h, q)[0]} == w.h.refs
  {
    var h := WithQueue(w.h, q, In(w.h, q)[1..]);
    QueuesAfterPop(w.h, w'.h, q);
    hide Stored, HeldBy, In, WithQueue;
    SameQueues(h, w'.h);
    StoredPop(w.h, q);
    OneLess(w.h.refs, w'.h.refs, Stored(w.h), Stored(w'.h), HeldBy(w.agents), multiset{In(w.h, q)[0]});
  }

  lemma QueuesAfterPop(h: Handles, h': Handles, q: Ownership.Queue)
    requires In(h, q) != [] && In(h', q) == In(h, q)[1..] && forall p :: p != q ==> In(h', p) == In(h, p)
    ensures forall p :: In(WithQueue(h, q, In(h, q)[1..]), p) == In(h', p)
  {}

  lemma OneLess(refs: Held, refs': Held, stored: Held, stored': Held, held: Held, x: Held)
    requires refs == stored + held && refs' == stored' + held && stored' + x == stored
    ensures refs' + x == refs
  {
    forall id ensures (refs' + x)[id] == refs[id] {}
  }

  lemma SameQueues(h: Handles, h': Handles)
    requires forall q :: In(h, q) == In(h', q)
    ensures Stored(h) == Stored(h')
  {
    assert In(h, Registry) == In(h', Registry) && In(h, InfoQ) == In(h', InfoQ);
    assert In(h, AuthorQ) == In(h', AuthorQ) && In(h, HistoryQ) == In(h', HistoryQ);
  }

  /** A writer takes the first handle of its queue and deletes it. */
  lemma WriterTurnIsDone(w: World, a: nat, q: Ownership.Queue)
    requires Sound(w) && a < |w.agents| && w.agents[a].todo == [] && q != Registry && In(w.h, q) != []
    ensures RunOk(w, [Write(a, q), Go(a), Go(a)])
    ensures var w' := After(w, [Write(a, q), Go(a), Go(a)]);
      && Sound(w') && w'.agents == w.agents
      && In(w'.h, q) == In(w.h, q)[1..] && (forall p :: p != q ==> In(w'.h, p) == In(w.h, p))
      && w'.h.refs + multiset{In(w.h, q)[0]} == w.h.refs
  {
    var ms := [Write(a, q), Go(a), Go(a)];
    IdleHoldsNothing(w, a);
    TurnSteps(w, a, q);
    ThreeMoves(w, Write(a, q), a);
    CountersCountHandles(w, ms);
    var w' := After(w, ms);
    IdleHoldsNothing(w', a);
    hide Make, StepAgent, After, RunOk, In, Conserved;
    assert w'.agents == w.agents;
    OneLessCounted(w, w', q);
  }

  // --------------------------------------------------------- among other agents' moves

  function OwnMoves(a: nat, ms: seq<Move>): nat {
    if ms == [] then 0 else (if ms[0] == Go(a) then 1 else 0) + OwnMoves(a, ms[1..])
  }

  /** Nobody hands this agent new work. */
  ghost predicate LeftAlone(a: nat, ms: seq<Move>) {
    forall k :: 0 <= k < |ms| ==> !((ms[k].Serve? || ms[k].Write?) && ms[k].a == a)
  }

  lemma OthersDoNotAdvance(w: World, a: nat, m: Move)
    requires a < |w.agents| && MoveOk(w, m) && NoPops(w.agents[a].todo) && (m == Go(a) ==> w.agents[a].todo != [])
    requires !((m.Serve? || m.Write?) && m.a == a)
    ensures |Make(w, m).agents| == |w.agents|
    ensures Make(w, m).agents[a].todo == w.agents[a].todo[if m == Go(a) then 1 else 0..]
  {
    if m == Go(a) {
      StepIsDone(w, a);
    }
    hide Do, Program;
  }

  /** In any interleaving an agent that has made n moves of its own has n operations less to do. */
  lemma {:induction false} AgentAdvances(w: World, a: nat, ms: seq<Move>)
    requires RunOk(w, ms) && a < |w.agents| && NoPops(w.agents[a].todo) && LeftAlone(a, ms)
    requires OwnMoves(a, ms) <= |w.agents[a].todo|
    ensures |After(w, ms).agents| == |w.agents|
    ensures After(w, ms).agents[a].todo == w.agents[a].todo[OwnMoves(a, ms)..]
    decreases |ms|
  {
    if ms != [] {
      var m, w1 := ms[0], Make(w, ms[0]);
      OthersDoNotAdvance(w, a, m);
      hide Make, MoveOk;
      AgentAdvances(w1, a, ms[1..]);
    }
  }

  /** Why programs must balance: one deletion too many destroys a thread that is still registered. */
  lemma OneDeletionTooMany(id: u64)
    ensures var w := World(Handles(multiset{id}, [id], [], [], [], multiset{}), [Agent([Delete(id)], multiset{})]);
      StepAgent(w, 0).h.destroyed == multiset{id} && !AllBalanced(w)
  {
    var w := World(Handles(multiset{id}, [id], [], [], [], multiset{}), [Agent([Delete(id)], multiset{})]);
    assert !Balanced(w.agents[0].todo, w.agents[0].held, multiset(w.h.registry));
  }

  // ------------------------------------------------------------ held while it is served

  /** What an agent that starts with nothing holds after n operations. */
  function HeldAfterFirst(todo: seq<Op>, held: Held, n: nat): Held
    requires n <= |todo|
  {
    if n == 0 then held else HeldAfterFirst(todo[1..], HeldAfter(todo[0], held), n - 1)
  }

  lemma HeldAfterTwo(a: Op, rest: seq<Op>, held: Held, n: nat)
    requires 0 < n <= |rest| + 1
    ensures HeldAfterFirst([a] + rest, held, n) == HeldAfterFirst(rest, HeldAfter(a, held), n - 1)
  {
    assert ([a] + rest)[1..] == rest;
  }

  /** From its lookup to its exit a handler holds a handle on the thread it works on, and at the exit no more. */
  lemma HeldWhileServed(ts: seq<Thread>, id: u64, r: Request, wanted: u64, n: nat)
    requires r == Get(wanted) || (r.Post? && r.id == wanted)
    requires IndexOf(ts, wanted) >= 0
    ensures var p := Program(ts, id, r);
      |p| >= 2 && (0 < n < |p| ==> HeldAfterFirst(p, multiset{}, n)[wanted] > 0)
  {
    var p, one := Program(ts, id, r), multiset{wanted};
    var rest := if r.Get? then [Delete(wanted)] else FinishProgram(wanted, r.body);
    assert p == [AddRegistered(wanted)] + rest;
    if 0 < n < |p| {
      HeldAfterTwo(AddRegistered(wanted), rest, multiset{}, n);
      assert multiset{} + one == one;
      if n > 1 {
        assert rest == [Add(wanted)] + [Push(InfoQ, wanted), Delete(wanted)];
        HeldAfterTwo(Add(wanted), [Push(InfoQ, wanted), Delete(wanted)], one, n - 1);
        if n > 2 {
          assert [Push(InfoQ, wanted), Delete(wanted)] == [Push(InfoQ, wanted)] + [Delete(wanted)];
          HeldAfterTwo(Push(InfoQ, wanted), [Delete(wanted)], one + one, n - 2);
        }
      }
    }
  }

  /** FTHR takes one handle for each thread it found, and gives each back. */
  lemma {:induction false} FoundAreHeld(fs: seq<Found>)
    ensures |Adds(fs)| == |Deletes(fs)| == |fs|
    ensures forall k :: 0 <= k < |fs| ==> Adds(fs)[k] == AddRegistered(fs[k].id) && Deletes(fs)[k] == Delete(fs[k].id)
  {
    if fs != [] {
      FoundAreHeld(fs[1..]);
    }
  }
}
