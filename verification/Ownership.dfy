/**
  Who holds which thread, one queue operation or counter change at a time. Any number of connections and
  writers run their programs in any interleaving.
 */
module Ownership {
  import opened Bytes
  import opened Forum
  import opened Wire
  import opened Store

  type Held = multiset<u64>

  datatype Queue = Registry | InfoQ | AuthorQ | HistoryQ

  datatype Op =
    | New(id: u64)            // sharedptr_create
    | AddRegistered(id: u64)  // sharedptr_add of the handle in the registry
    | Add(id: u64)            // sharedptr_add of a handle of one's own
    | Push(q: Queue, id: u64) // queue_push
    | Pop(q: Queue)           // queue_pop by a writer, which then deletes what it popped
    | Delete(id: u64)         // sharedptr_delete

  /** Counters, queues of handles, and the threads whose destructor has run. */
  datatype Handles = Handles(
    refs: Held, registry: seq<u64>, infoQ: seq<u64>, authorQ: seq<u64>, historyQ: seq<u64>, destroyed: Held
  )

  function In(h: Handles, q: Queue): seq<u64> {
    match q
    case Registry => h.registry
    case InfoQ => h.infoQ
    case AuthorQ => h.authorQ
    case HistoryQ => h.historyQ
  }

  function WithQueue(h: Handles, q: Queue, ids: seq<u64>): Handles {
    match q
    case Registry => h.(registry := ids)
    case InfoQ => h.(infoQ := ids)
    case AuthorQ => h.(authorQ := ids)
    case HistoryQ => h.(historyQ := ids)
  }

  /** A connection or a writer: what it has still to do, and its own handles, a find result's included. */
  datatype Agent = Agent(todo: seq<Op>, held: Held)

  datatype World = World(h: Handles, agents: seq<Agent>)

  /** One operation of an agent that holds `held`: the new counters and queues, its handles, what it does next. */
  function Do(h: Handles, held: Held, op: Op): (Handles, Held, seq<Op>) {
    match op
    case New(id) => (h.(refs := h.refs + multiset{id}), held + multiset{id}, [])
    case AddRegistered(id) => (h.(refs := h.refs + multiset{id}), held + multiset{id}, [])
    case Add(id) => (h.(refs := h.refs + multiset{id}), held + multiset{id}, [])
    case Push(q, id) => (WithQueue(h, q, In(h, q) + [id]), held - multiset{id}, [])
    case Pop(q) =>
      var ids := In(h, q);
      if ids == [] then (h, held, [])
      else (WithQueue(h, q, ids[1..]), held + multiset{ids[0]}, [Delete(ids[0])])
    case Delete(id) =>
      var refs := h.refs - multiset{id};
      (h.(refs := refs, destroyed := h.destroyed + if refs[id] == 0 then multiset{id} else multiset{}),
       held - multiset{id}, [])
  }

  function StepAgent(w: World, a: nat): World {
    if a >= |w.agents| || w.agents[a].todo == [] then w else
    var agent := w.agents[a];
    var (h, held, more) := Do(w.h, agent.held, agent.todo[0]);
    World(h, w.agents[a := Agent(more + agent.todo[1..], held)])
  }

  // --------------------------------------------------------------- handler programs

  function Adds(fs: seq<Found>): seq<Op> {
    if fs == [] then [] else [AddRegistered(fs[0].id)] + Adds(fs[1..])
  }

  function Deletes(fs: seq<Found>): seq<Op> {
    if fs == [] then [] else [Delete(fs[0].id)] + Deletes(fs[1..])
  }

  lemma {:induction false} AddsSnoc(fs: seq<Found>, f: Found)
    ensures Adds(fs + [f]) == Adds(fs) + [AddRegistered(f.id)]
  {
    if fs == [] {
      assert fs + [f] == [f] && Adds([]) == [];
    } else {
      assert (fs + [f])[1..] == fs[1..] + [f];
      AddsSnoc(fs[1..], f);
    }
  }

  lemma {:induction false} DeletesSnoc(fs: seq<Found>, f: Found)
    ensures Deletes(fs + [f]) == Deletes(fs) + [Delete(f.id)]
  {
    if fs == [] {
      assert fs + [f] == [f] && Deletes([]) == [];
    } else {
      assert (fs + [f])[1..] == fs[1..] + [f];
      DeletesSnoc(fs[1..], f);
    }
  }

  function CreateProgram(id: u64): seq<Op> {
    [New(id), Push(Registry, id), AddRegistered(id),
     Add(id), Push(InfoQ, id), Add(id), Push(AuthorQ, id), Delete(id)]
  }

  /** CMSG after the lookup: a good text queues the thread, every exit deletes the handle. */
  function FinishProgram(id: u64, body: Body): seq<Op> {
    if body.Text? then [Add(id), Push(InfoQ, id), Delete(id)] else [Delete(id)]
  }

  /** What a handler does to handles, on each of its paths; `id` is the id a new thread would get. */
  function Program(ts: seq<Thread>, id: u64, r: Request): seq<Op> {
    match r
    case Get(wanted) => if IndexOf(ts, wanted) < 0 then [] else [AddRegistered(wanted), Delete(wanted)]
    case Create(_) => CreateProgram(id)
    case Find(part) => var fs := Matches(ts, part); Adds(fs) + Deletes(fs)
    case Post(wanted, body) =>
      if IndexOf(ts, wanted) < 0 then [] else [AddRegistered(wanted)] + FinishProgram(wanted, body)
    case _ => []
  }

  /** What a writer does to handles until its queue, which holds `ids`, is empty. */
  function Turns(q: Queue, ids: seq<u64>): seq<Op> {
    if ids == [] then [] else [Pop(q), Delete(ids[0])] + Turns(q, ids[1..])
  }

  /** What an agent may do: add only what it can reach, give away only what it holds of a registered thread. */
  ghost predicate Allowed(op: Op, held: Held, registry: Held) {
    match op
    case New(_) => true
    case AddRegistered(id) => id in registry
    case Add(id) => id in held
    case Push(q, id) => id in held && (q == Registry || id in registry)
    case Pop(q) => q != Registry
    case Delete(id) => id in held && id in registry
  }

  /** What it holds afterwards; a popped handle is deleted next, so a pop comes to nothing. */
  function HeldAfter(op: Op, held: Held): Held {
    match op
    case New(id) => held + multiset{id}
    case AddRegistered(id) => held + multiset{id}
    case Add(id) => held + multiset{id}
    case Push(_, id) => held - multiset{id}
    case Pop(_) => held
    case Delete(id) => held - multiset{id}
  }

  function RegisteredAfter(op: Op, registry: Held): Held {
    if op.Push? && op.q == Registry then registry + multiset{op.id} else registry
  }

  /** A program that only does what it may, and ends holding nothing. */
  ghost predicate Balanced(todo: seq<Op>, held: Held, registry: Held) {
    if todo == [] then held == multiset{}
    else
      && Allowed(todo[0], held, registry)
      && Balanced(todo[1..], HeldAfter(todo[0], held), RegisteredAfter(todo[0], registry))
  }

  lemma BalancedCons(op: Op, rest: seq<Op>, held: Held, held': Held, registry: Held, registry': Held)
    requires Allowed(op, held, registry)
    requires held' == HeldAfter(op, held) && registry' == RegisteredAfter(op, registry)
    requires Balanced(rest, held', registry')
    ensures Balanced([op] + rest, held, registry)
  {
    assert ([op] + rest)[1..] == rest;
  }

  lemma NothingBalanced(registry: Held)
    ensures Balanced([], multiset{}, registry)
  {}

  /** Other agents only ever register more threads. */
  lemma {:induction false} BalancedGrows(todo: seq<Op>, held: Held, registry: Held, more: Held)
    requires Balanced(todo, held, registry) && registry <= more
    ensures Balanced(todo, held, more)
    decreases |todo|
  {
    if todo != [] {
      var op := todo[0];
      BalancedGrows(todo[1..], HeldAfter(op, held), RegisteredAfter(op, registry), RegisteredAfter(op, more));
    }
  }

  // --------------------------------------------------------------------- invariant

  function HeldBy(agents: seq<Agent>): Held {
    if agents == [] then multiset{} else agents[0].held + HeldBy(agents[1..])
  }

  /** Every handle that sits in a queue, the registry's own included. */
  function Stored(h: Handles): Held {
    multiset(h.registry) + multiset(h.infoQ) + multiset(h.authorQ) + multiset(h.historyQ)
  }

  /** The counters are exactly the handles: one in the registry, the rest queued or held. */
  ghost predicate Conserved(w: World) {
    w.h.refs == Stored(w.h) + HeldBy(w.agents)
  }

  ghost predicate AllBalanced(w: World) {
    forall a :: 0 <= a < |w.agents| ==> Balanced(w.agents[a].todo, w.agents[a].held, multiset(w.h.registry))
  }

  ghost predicate StoredAreRegistered(h: Handles) {
    forall id :: id in Stored(h) ==> id in multiset(h.registry)
  }

  ghost predicate Sound(w: World) {
    Conserved(w) && AllBalanced(w) && StoredAreRegistered(w.h) && w.h.destroyed == multiset{}
  }

  lemma Exchange(a: Held, b: Held, c: Held)
    ensures (a + b) + c == (c + b) + a
  {}

  lemma {:induction false} HeldUpdate(agents: seq<Agent>, a: nat, x: Agent)
    requires a < |agents|
    ensures HeldBy(agents[a := x]) + agents[a].held == HeldBy(agents) + x.held
    decreases |agents|
  {
    var first, rest := agents[0].held, agents[1..];
    if a > 0 {
      var rest' := rest[a - 1 := x];
      HeldUpdate(rest, a - 1, x);
      assert agents[a := x][1..] == rest';
      assert (first + HeldBy(rest')) + agents[a].held == first + (HeldBy(rest') + agents[a].held);
      assert (first + HeldBy(rest)) + x.held == first + (HeldBy(rest) + x.held);
    } else {
      assert agents[a := x][1..] == rest;
      Exchange(x.held, HeldBy(rest), first);
    }
  }

  lemma {:induction false} HeldInAll(agents: seq<Agent>, a: nat)
    requires a < |agents|
    ensures agents[a].held <= HeldBy(agents)
    decreases |agents|
  {
    if a > 0 {
      HeldInAll(agents[1..], a - 1);
    }
  }

  lemma StoredPush(h: Handles, q: Queue, id: u64)
    ensures Stored(WithQueue(h, q, In(h, q) + [id])) == Stored(h) + multiset{id}
  {}

  lemma StoredPop(h: Handles, q: Queue)
    requires In(h, q) != []
    ensures Stored(WithQueue(h, q, In(h, q)[1..])) + multiset{In(h, q)[0]} == Stored(h)
  {
    var ids := In(h, q);
    assert ids == [ids[0]] + ids[1..];
  }

  /** Handles stored and held changed together with the counters. */
  ghost predicate Flow(refs: Held, stored: Held, held: Held, refs': Held, stored': Held, held': Held) {
    refs' + (stored + held) == refs + (stored' + held')
  }

  lemma Taken(refs: Held, stored: Held, held: Held, x: Held)
    ensures Flow(refs, stored, held, refs + x, stored, held + x)
  {}

  lemma Kept(refs: Held, stored: Held, held: Held)
    ensures Flow(refs, stored, held, refs, stored, held)
  {}

  lemma Dropped(refs: Held, stored: Held, held: Held, x: Held)
    requires x <= held && x <= refs
    ensures Flow(refs, stored, held, refs - x, stored, held - x)
  {}

  lemma Stowed(refs: Held, stored: Held, held: Held, x: Held)
    requires x <= held
    ensures Flow(refs, stored, held, refs, stored + x, held - x)
  {}

  lemma Fetched(refs: Held, stored: Held, held: Held, x: Held)
    ensures Flow(refs, stored + x, held, refs, stored, held + x)
  {}

  /** Handles are neither made nor lost except as the counters say. */
  lemma DoConserves(h: Handles, held: Held, op: Op)
    requires held <= h.refs
    requires op.Push? || op.Delete? ==> op.id in held
    ensures var (h', held', _) := Do(h, held, op);
      Flow(h.refs, Stored(h), held, h'.refs, Stored(h'), held')
  {
    hide Flow, Stored;
    match op
    case Push(q, id) =>
      StoredPush(h, q, id);
      Stowed(h.refs, Stored(h), held, multiset{id});
    case Pop(q) =>
      if In(h, q) == [] {
        Kept(h.refs, Stored(h), held);
      } else {
        StoredPop(h, q);
        Fetched(h.refs, Stored(WithQueue(h, q, In(h, q)[1..])), held, multiset{In(h, q)[0]});
      }
    case Delete(id) =>
      SameStored(h, Do(h, held, op).0);
      Dropped(h.refs, Stored(h), held, multiset{id});
    case _ =>
      SameStored(h, Do(h, held, op).0);
      Taken(h.refs, Stored(h), held, multiset{op.id});
  }

  lemma SameStored(h: Handles, h': Handles)
    requires h'.registry == h.registry && h'.infoQ == h.infoQ && h'.authorQ == h.authorQ && h'.historyQ == h.historyQ
    ensures Stored(h') == Stored(h)
  {}

  lemma PutBack(held: Held, id: u64)
    ensures (held + multiset{id}) - multiset{id} == held
  {}

  lemma InStored(h: Handles, q: Queue)
    requires In(h, q) != []
    ensures In(h, q)[0] in Stored(h)
  {
    assert In(h, q)[0] in multiset(In(h, q));
  }

  lemma DoFollows(h: Handles, held: Held, op: Op)
    requires Allowed(op, held, multiset(h.registry))
    requires !op.Pop? || In(h, op.q) == []
    ensures var (h', held', more) := Do(h, held, op);
      && multiset(h'.registry) == RegisteredAfter(op, multiset(h.registry))
      && multiset(h.registry) <= multiset(h'.registry)
      && held' == HeldAfter(op, held) && more == []
  {}

  lemma DeleteBalanced(id: u64, rest: seq<Op>, held: Held, registry: Held)
    requires id in registry && Balanced(rest, held, registry)
    ensures Balanced([Delete(id)] + rest, held + multiset{id}, registry)
  {
    hide Balanced;
    PutBack(held, id);
    BalancedCons(Delete(id), rest, held + multiset{id}, held, registry, registry);
  }

  /** The program that remains is balanced, popped handles included. */
  lemma DoBalanced(h: Handles, held: Held, op: Op, rest: seq<Op>)
    requires Allowed(op, held, multiset(h.registry)) && StoredAreRegistered(h)
    requires Balanced(rest, HeldAfter(op, held), RegisteredAfter(op, multiset(h.registry)))
    ensures var (h', held', more) := Do(h, held, op);
      Balanced(more + rest, held', multiset(h'.registry)) && multiset(h.registry) <= multiset(h'.registry)
  {
    hide Stored, Balanced;
    if op.Pop? && In(h, op.q) != [] {
      InStored(h, op.q);
      DeleteBalanced(In(h, op.q)[0], rest, held, multiset(h.registry));
    } else {
      DoFollows(h, held, op);
      hide Do, HeldAfter, RegisteredAfter;
      assert [] + rest == rest;
    }
  }

  /** The registry's own handle is still there when any other is deleted. */
  lemma DoDestroysNothing(h: Handles, held: Held, op: Op)
    requires Allowed(op, held, multiset(h.registry))
    requires multiset(h.registry) + held <= h.refs
    ensures Do(h, held, op).0.destroyed == h.destroyed
  {
    if op.Delete? {
      assert (multiset(h.registry) + held)[op.id] >= 2;
    }
  }

  lemma DoKeepsRegistered(h: Handles, held: Held, op: Op)
    requires Allowed(op, held, multiset(h.registry)) && StoredAreRegistered(h)
    ensures StoredAreRegistered(Do(h, held, op).0)
  {
    var h' := Do(h, held, op).0;
    hide Stored;
    match op
    case Push(q, id) => StoredPush(h, q, id);
    case Pop(q) => if In(h, q) != [] { StoredPop(h, q); }
    case _ => SameStored(h, h');
  }

  lemma Cancel(refs: Held, stored: Held, all: Held, held: Held, refs': Held, stored': Held, all': Held, held': Held)
    requires refs == stored + all && Flow(refs, stored, held, refs', stored', held')
    requires all' + held == all + held'
    ensures refs' == stored' + all'
  {
    forall x ensures refs'[x] == (stored' + all')[x] {
      assert (refs' + (stored + held))[x] == (refs + (stored' + held'))[x];
      assert (all' + held)[x] == (all + held')[x];
    }
  }

  lemma HeldAreCounted(w: World, a: nat)
    requires Conserved(w) && a < |w.agents|
    ensures multiset(w.h.registry) + w.agents[a].held <= w.h.refs
  {
    HeldInAll(w.agents, a);
    assert multiset(w.h.registry) <= Stored(w.h);
  }

  lemma StepConserves(w: World, a: nat)
    requires Sound(w) && a < |w.agents| && w.agents[a].todo != []
    ensures Conserved(StepAgent(w, a))
  {
    var agent := w.agents[a];
    var op, rest := agent.todo[0], agent.todo[1..];
    var (h', held', more) := Do(w.h, agent.held, op);
    assert Balanced(agent.todo, agent.held, multiset(w.h.registry));
    HeldAreCounted(w, a);
    DoConserves(w.h, agent.held, op);
    HeldUpdate(w.agents, a, Agent(more + rest, held'));
    hide Stored, HeldBy, Do;
    Cancel(w.h.refs, Stored(w.h), HeldBy(w.agents), agent.held,
           h'.refs, Stored(h'), HeldBy(StepAgent(w, a).agents), held');
  }

  lemma StepKeepsBalance(w: World, a: nat)
    requires Sound(w) && a < |w.agents| && w.agents[a].todo != []
    ensures AllBalanced(StepAgent(w, a))
  {
    var agent := w.agents[a];
    var w' := StepAgent(w, a);
    assert Balanced(agent.todo, agent.held, multiset(w.h.registry));
    DoBalanced(w.h, agent.held, agent.todo[0], agent.todo[1..]);
    hide Do;
    forall b | 0 <= b < |w'.agents|
      ensures Balanced(w'.agents[b].todo, w'.agents[b].held, multiset(w'.h.registry))
    {
      if b != a {
        BalancedGrows(w.agents[b].todo, w.agents[b].held, multiset(w.h.registry), multiset(w'.h.registry));
      }
    }
  }

  /** One operation of any agent keeps counters and handles in step, and destroys no thread. */
  lemma StepKeepsSound(w: World, a: nat)
    requires Sound(w)
    ensures Sound(StepAgent(w, a))
  {
    if a < |w.agents| && w.agents[a].todo != [] {
      var agent := w.agents[a];
      assert Balanced(agent.todo, agent.held, multiset(w.h.registry));
      StepConserves(w, a);
      StepKeepsBalance(w, a);
      HeldAreCounted(w, a);
      DoDestroysNothing(w.h, agent.held, agent.todo[0]);
      DoKeepsRegistered(w.h, agent.held, agent.todo[0]);
    }
  }

  // -------------------------------------------------- handler programs are balanced

  function FoundIds(fs: seq<Found>): Held {
    if fs == [] then multiset{} else FoundIds(fs[1..]) + multiset{fs[0].id}
  }

  lemma {:induction false} DeletesBalanced(fs: seq<Found>, registry: Held)
    requires forall k :: 0 <= k < |fs| ==> fs[k].id in registry
    ensures Balanced(Deletes(fs), FoundIds(fs), registry)
    decreases |fs|
  {
    if fs != [] {
      DeletesBalanced(fs[1..], registry);
      PutBack(FoundIds(fs[1..]), fs[0].id);
      assert Deletes(fs)[1..] == Deletes(fs[1..]);
    }
  }

  lemma AddBalanced(id: u64, rest: seq<Op>, held: Held, registry: Held)
    requires id in registry && Balanced(rest, held + multiset{id}, registry)
    ensures Balanced([AddRegistered(id)] + rest, held, registry)
  {
    hide Balanced;
    BalancedCons(AddRegistered(id), rest, held, held + multiset{id}, registry, registry);
  }

  lemma Regroup(held: Held, ids: Held, x: Held)
    ensures held + (ids + x) == (held + x) + ids
  {}

  lemma {:induction false} AddsBalanced(fs: seq<Found>, rest: seq<Op>, held: Held, registry: Held)
    requires forall k :: 0 <= k < |fs| ==> fs[k].id in registry
    requires Balanced(rest, held + FoundIds(fs), registry)
    ensures Balanced(Adds(fs) + rest, held, registry)
    decreases |fs|
  {
    hide Balanced;
    if fs == [] {
      assert Adds(fs) + rest == rest && held + multiset{} == held;
    } else {
      var id, fs' := fs[0].id, fs[1..];
      assert Adds(fs) + rest == [AddRegistered(id)] + (Adds(fs') + rest);
      Regroup(held, FoundIds(fs'), multiset{id});
      AddsBalanced(fs', rest, held + multiset{id}, registry);
      AddBalanced(id, Adds(fs') + rest, held, registry);
    }
  }

  lemma {:induction false} MatchesAreRegistered(ts: seq<Thread>, part: bytes, registry: Held)
    requires forall k :: 0 <= k < |ts| ==> ts[k].id in registry
    ensures forall k :: 0 <= k < |Matches(ts, part)| ==> Matches(ts, part)[k].id in registry
    decreases |ts|
  {
    if ts != [] {
      MatchesAreRegistered(ts[1..], part, registry);
    }
  }

  /** Two operations that take a handle and give it up again, before a balanced rest. */
  lemma TakeAndGive(take: Op, give: Op, rest: seq<Op>, held: Held, registry: Held)
    requires Allowed(take, held, registry) && (take.AddRegistered? || take.Add?)
    requires (give.Push? && give.q != Registry) || give.Delete?
    requires give.id == take.id && take.id in registry && Balanced(rest, held, registry)
    ensures Balanced([take, give] + rest, held, registry)
  {
    hide Balanced;
    PutBack(held, take.id);
    var more := held + multiset{take.id};
    BalancedCons(give, rest, more, held, registry, registry);
    BalancedCons(take, [give] + rest, held, more, registry, registry);
    assert [take] + ([give] + rest) == [take, give] + rest;
  }

  lemma DeleteLast(id: u64, registry: Held)
    requires id in registry
    ensures Balanced([Delete(id)], multiset{id}, registry)
  {
    NothingBalanced(registry);
    hide Balanced;
    BalancedCons(Delete(id), [], multiset{id}, multiset{}, registry, registry);
    assert [Delete(id)] + [] == [Delete(id)];
  }

  lemma CreateBalanced(id: u64, registry: Held)
    ensures Balanced(CreateProgram(id), multiset{}, registry)
  {
    hide Balanced;
    var none, one, more := multiset{}, multiset{id}, registry + multiset{id};
    var p8 := [Delete(id)];
    DeleteLast(id, more);
    TakeAndGive(Add(id), Push(AuthorQ, id), p8, one, more);
    var p6 := [Add(id), Push(AuthorQ, id)] + p8;
    TakeAndGive(Add(id), Push(InfoQ, id), p6, one, more);
    var p4 := [Add(id), Push(InfoQ, id)] + p6;
    BalancedCons(AddRegistered(id), p4, none, one, more, more);
    var p3 := [AddRegistered(id)] + p4;
    BalancedCons(Push(Registry, id), p3, one, none, registry, more);
    BalancedCons(New(id), [Push(Registry, id)] + p3, none, one, registry, registry);
    assert [New(id)] + ([Push(Registry, id)] + p3) == CreateProgram(id);
  }

  lemma PostBalanced(id: u64, body: Body, registry: Held)
    requires id in registry
    ensures Balanced([AddRegistered(id)] + FinishProgram(id, body), multiset{}, registry)
  {
    hide Balanced;
    DeleteLast(id, registry);
    if body.Text? {
      TakeAndGive(Add(id), Push(InfoQ, id), [Delete(id)], multiset{id}, registry);
      assert [Add(id), Push(InfoQ, id)] + [Delete(id)] == FinishProgram(id, body);
    }
    BalancedCons(AddRegistered(id), FinishProgram(id, body), multiset{}, multiset{id}, registry, registry);
  }

  lemma LookupBalanced(id: u64, registry: Held)
    requires id in registry
    ensures Balanced([AddRegistered(id), Delete(id)], multiset{}, registry)
  {
    NothingBalanced(registry);
    hide Balanced;
    TakeAndGive(AddRegistered(id), Delete(id), [], multiset{}, registry);
    assert [AddRegistered(id), Delete(id)] + [] == [AddRegistered(id), Delete(id)];
  }

  /** Every exit path of every handler balances what it takes. */
  lemma ProgramsBalance(ts: seq<Thread>, id: u64, r: Request, registry: Held)
    requires forall k :: 0 <= k < |ts| ==> ts[k].id in registry
    ensures Balanced(Program(ts, id, r), multiset{}, registry)
  {
    match r
    case Get(wanted) =>
      if IndexOf(ts, wanted) >= 0 { LookupBalanced(wanted, registry); }
    case Create(_) => CreateBalanced(id, registry);
    case Find(part) =>
      var fs := Matches(ts, part);
      MatchesAreRegistered(ts, part, registry);
      DeletesBalanced(fs, registry);
      assert multiset{} + FoundIds(fs) == FoundIds(fs);
      AddsBalanced(fs, Deletes(fs), multiset{}, registry);
    case Post(wanted, body) =>
      if IndexOf(ts, wanted) >= 0 {
        PostBalanced(wanted, body, registry);
      }
    case _ =>
  }

  // ---------------------------------------------------------------------- whole runs

  /** A connection starts on a request with the registry it sees, a writer starts a turn, anyone goes on. */
  datatype Move =
    | Serve(a: nat, ts: seq<Thread>, id: u64, r: Request)
    | Write(a: nat, q: Queue)
    | Go(a: nat)

  ghost predicate MoveOk(w: World, m: Move) {
    match m
    case Serve(a, ts, _, _) =>
      && a < |w.agents| && w.agents[a].todo == []
      && forall k :: 0 <= k < |ts| ==> ts[k].id in multiset(w.h.registry)
    case Write(a, q) => a < |w.agents| && w.agents[a].todo == [] && q != Registry
    case Go(_) => true
  }

  function Assign(w: World, a: nat, todo: seq<Op>): World
    requires a < |w.agents|
  {
    w.(agents := w.agents[a := w.agents[a].(todo := todo)])
  }

  ghost function Make(w: World, m: Move): World
    requires MoveOk(w, m)
  {
    match m
    case Serve(a, ts, id, r) => Assign(w, a, Program(ts, id, r))
    case Write(a, q) => Assign(w, a, [Pop(q)])
    case Go(a) => StepAgent(w, a)
  }

  lemma AssignKeepsSound(w: World, a: nat, todo: seq<Op>)
    requires Sound(w) && a < |w.agents| && w.agents[a].todo == []
    requires Balanced(todo, multiset{}, multiset(w.h.registry))
    ensures Sound(Assign(w, a, todo))
  {
    assert Balanced(w.agents[a].todo, w.agents[a].held, multiset(w.h.registry));
    HeldUpdate(w.agents, a, w.agents[a].(todo := todo));
    Uncount(HeldBy(Assign(w, a, todo).agents), HeldBy(w.agents), w.agents[a].held);
  }

  lemma Uncount(a: Held, b: Held, x: Held)
    requires a + x == b + x
    ensures a == b
  {
    forall i ensures a[i] == b[i] {
      assert (a + x)[i] == (b + x)[i];
    }
  }

  lemma MoveKeepsSound(w: World, m: Move)
    requires Sound(w) && MoveOk(w, m)
    ensures Sound(Make(w, m))
  {
    match m
    case Serve(a, ts, id, r) =>
      ProgramsBalance(ts, id, r, multiset(w.h.registry));
      AssignKeepsSound(w, a, Program(ts, id, r));
    case Write(a, q) =>
      var registry := multiset(w.h.registry);
      NothingBalanced(registry);
      BalancedCons(Pop(q), [], multiset{}, multiset{}, registry, registry);
      assert [Pop(q)] + [] == [Pop(q)];
      AssignKeepsSound(w, a, [Pop(q)]);
    case Go(a) => StepKeepsSound(w, a);
  }

  ghost predicate RunOk(w: World, ms: seq<Move>)
    decreases |ms|
  {
    ms == [] || (MoveOk(w, ms[0]) && RunOk(Make(w, ms[0]), ms[1..]))
  }

  ghost function After(w: World, ms: seq<Move>): World
    requires RunOk(w, ms)
    decreases |ms|
  {
    if ms == [] then w else After(Make(w, ms[0]), ms[1..])
  }

  /** In every interleaving each counter is exactly its handles, and no thread is destroyed while registered. */
  lemma {:induction false} CountersCountHandles(w: World, ms: seq<Move>)
    requires Sound(w) && RunOk(w, ms)
    ensures Conserved(After(w, ms)) && After(w, ms).h.destroyed == multiset{}
    ensures Sound(After(w, ms))
    decreases |ms|
  {
    if ms != [] {
      MoveKeepsSound(w, ms[0]);
      CountersCountHandles(Make(w, ms[0]), ms[1..]);
    }
  }

  ghost predicate Idle(w: World) {
    forall a :: 0 <= a < |w.agents| ==> w.agents[a].todo == []
  }

  lemma {:induction false} NobodyHolds(agents: seq<Agent>)
    requires forall a :: 0 <= a < |agents| ==> agents[a].held == multiset{}
    ensures HeldBy(agents) == multiset{}
    decreases |agents|
  {
    if agents != [] {
      NobodyHolds(agents[1..]);
    }
  }

  /** Once every agent has finished, each count is one for the registry plus the queued handles. */
  lemma IdleCounts(w: World, id: u64)
    requires Sound(w) && Idle(w)
    ensures w.h.refs[id] == multiset(w.h.registry)[id]
      + multiset(w.h.infoQ)[id] + multiset(w.h.authorQ)[id] + multiset(w.h.historyQ)[id]
  {
    forall a | 0 <= a < |w.agents| ensures w.agents[a].held == multiset{} {
      assert Balanced(w.agents[a].todo, w.agents[a].held, multiset(w.h.registry));
    }
    NobodyHolds(w.agents);
  }

  /** Right after `startup`: one handle each, nothing queued, nobody busy. */
  lemma StartupIsSound(ids: seq<u64>, agents: seq<Agent>)
    requires forall a :: 0 <= a < |agents| ==> agents[a] == Agent([], multiset{})
    ensures Sound(World(Handles(multiset(ids), ids, [], [], [], multiset{}), agents))
  {
    NobodyHolds(agents);
  }

  /** A writer's pops, each followed by the deletion that popping brings about, come to its whole trace. */
  lemma TurnsFollowPops(h: Handles, held: Held, q: Queue)
    ensures Turns(q, In(h, q)) ==
      if In(h, q) == [] then []
      else var (h', _, more) := Do(h, held, Pop(q)); [Pop(q)] + more + Turns(q, In(h', q))
  {}

  // ------------------------------------------------ the programs are those of the handlers

  /** What a program pushes onto a queue, in order. */
  function PushedTo(q: Queue, todo: seq<Op>): seq<u64> {
    if todo == [] then []
    else (if todo[0].Push? && todo[0].q == q then [todo[0].id] else []) + PushedTo(q, todo[1..])
  }

  lemma {:induction false} PushedToAppend(q: Queue, a: seq<Op>, b: seq<Op>)
    ensures PushedTo(q, a + b) == PushedTo(q, a) + PushedTo(q, b)
    decreases |a|
  {
    if a == [] {
      assert a + b == b;
    } else {
      assert (a + b)[1..] == a[1..] + b;
      PushedToAppend(q, a[1..], b);
    }
  }

  lemma {:induction false} FindPushesNothing(q: Queue, fs: seq<Found>)
    ensures PushedTo(q, Adds(fs)) == [] && PushedTo(q, Deletes(fs)) == []
    decreases |fs|
  {
    if fs != [] {
      FindPushesNothing(q, fs[1..]);
      assert Adds(fs)[1..] == Adds(fs[1..]) && Deletes(fs)[1..] == Deletes(fs[1..]);
    }
  }

  lemma CreatePushes(q: Queue, id: u64)
    ensures PushedTo(q, CreateProgram(id)) == if q == HistoryQ then [] else [id]
  {
    var a, b := [New(id), Push(Registry, id)], [AddRegistered(id), Add(id)];
    var c, d := [Push(InfoQ, id), Add(id)], [Push(AuthorQ, id), Delete(id)];
    assert CreateProgram(id) == a + (b + (c + d));
    PushedToAppend(q, a, b + (c + d));
    PushedToAppend(q, b, c + d);
    PushedToAppend(q, c, d);
    PairPushes(q, a);
    PairPushes(q, b);
    PairPushes(q, c);
    PairPushes(q, d);
  }

  lemma PairPushes(q: Queue, p: seq<Op>)
    requires |p| == 2
    ensures PushedTo(q, p) == (if p[0].Push? && p[0].q == q then [p[0].id] else [])
      + (if p[1].Push? && p[1].q == q then [p[1].id] else [])
  {
    assert PushedTo(q, p[1..][1..]) == [];
    assert p[1..][0] == p[1];
  }

  lemma PostPushes(q: Queue, id: u64, body: Body)
    ensures PushedTo(q, [AddRegistered(id)] + FinishProgram(id, body)) == if q == InfoQ && body.Text? then [id] else []
  {
    if body.Text? {
      var a, b := [AddRegistered(id), Add(id)], [Push(InfoQ, id), Delete(id)];
      assert [AddRegistered(id)] + FinishProgram(id, body) == a + b;
      PushedToAppend(q, a, b);
      PairPushes(q, a);
      PairPushes(q, b);
    } else {
      PairPushes(q, [AddRegistered(id)] + FinishProgram(id, body));
    }
  }

  lemma SameIds(ts: seq<Thread>, us: seq<Thread>)
    requires |ts| == |us| && forall k :: 0 <= k < |ts| ==> ts[k].id == us[k].id
    ensures IdsOf(ts) == IdsOf(us)
  {}

  lemma HandleKeepsIds(s: State, r: Request, o: Oracle)
    requires !r.Create?
    ensures IdsOf(Handle(s, r, o).0.threads) == IdsOf(s.threads)
  {
    hide TokenFlag, MessageCount;
    SameIds(Handle(s, r, o).0.threads, s.threads);
  }

  /** A handler's program pushes exactly the handles that the handler registers and queues. */
  lemma ProgramsPushWhatHandlersQueue(s: State, r: Request, o: Oracle)
    ensures var p, s' := Program(s.threads, s.nextId, r), Handle(s, r, o).0;
      && IdsOf(s'.threads) == IdsOf(s.threads) + PushedTo(Registry, p)
      && s'.infoQ == s.infoQ + PushedTo(InfoQ, p)
      && s'.authorQ == s.authorQ + PushedTo(AuthorQ, p)
      && PushedTo(HistoryQ, p) == []
  {
    forall q { ProgramPushes(q, s, r); }
    hide PushedTo, Program;
    if r.Create? {
      assert IdsOf(Handle(s, r, o).0.threads) == IdsOf(s.threads) + [s.nextId];
    } else {
      HandleKeepsIds(s, r, o);
      hide IdsOf;
      assert IdsOf(s.threads) + [] == IdsOf(s.threads) && s.infoQ + [] == s.infoQ && s.authorQ + [] == s.authorQ;
    }
  }

  /** The ids that Handle adds to one queue for this request. */
  function QueuedBy(q: Queue, s: State, r: Request): seq<u64> {
    match r
    case Create(_) => if q == HistoryQ then [] else [s.nextId]
    case Post(id, body) => if q == InfoQ && body.Text? && IndexOf(s.threads, id) >= 0 then [id] else []
    case _ => []
  }

  lemma ProgramPushes(q: Queue, s: State, r: Request)
    ensures PushedTo(q, Program(s.threads, s.nextId, r)) == QueuedBy(q, s, r)
  {
    match r
    case Get(id) => PairPushes(q, [AddRegistered(id), Delete(id)]);
    case Create(_) => CreatePushes(q, s.nextId);
    case Post(id, body) => PostPushes(q, id, body);
    case Find(part) =>
      var fs := Matches(s.threads, part);
      FindPushesNothing(q, fs);
      PushedToAppend(q, Adds(fs), Deletes(fs));
    case _ =>
  }
}
