/** Which messages `cleanup` destructs: those the message queue still holds, and those of every destructed thread. */
module MessageCleanup {
  import opened Bytes
  import opened Forum
  import opened ForumIo
  import opened Store
  import opened Eager

  function QueuedKeys(q: seq<Pending>): seq<MessageKey> {
    seq(|q|, k requires 0 <= k < |q| => (q[k].owner, q[k].msg.id))
  }

  function KeysOf(t: Thread): seq<MessageKey> {
    seq(|t.messages|, k requires 0 <= k < |t.messages| => (t.id, t.messages[k].id))
  }

  /** The messages of all threads, thread by thread. */
  function KeysOfAll(ts: seq<Thread>): seq<MessageKey> {
    if ts == [] then [] else KeysOf(ts[0]) + KeysOfAll(ts[1..])
  }

  /** The message destructor calls of `cleanup`, as `Teardown.CleanUpAfterRun` logs them. */
  function Destructions(s: State): seq<MessageKey> {
    QueuedKeys(s.msgQ) + KeysOfAll(s.threads)
  }

  lemma {:induction false} CountOfDistinct<X>(s: seq<X>, x: X)
    requires forall i, j :: 0 <= i < j < |s| ==> s[i] != s[j]
    ensures multiset(s)[x] == if x in s then 1 else 0
    decreases |s|
  {
    if s != [] {
      CountOfDistinct(s[1..], x);
      assert s == [s[0]] + s[1..];
      assert s[0] !in s[1..];
    }
  }

  lemma {:induction false} KeyHasOwner(ts: seq<Thread>, k: MessageKey)
    requires k in KeysOfAll(ts)
    ensures exists i :: 0 <= i < |ts| && k in KeysOf(ts[i]) && ts[i].id == k.0
    decreases |ts|
  {
    if k in KeysOf(ts[0]) {
      assert ts[0].id == k.0;
    } else {
      KeyHasOwner(ts[1..], k);
      var i :| 0 <= i < |ts[1..]| && k in KeysOf(ts[1..][i]) && ts[1..][i].id == k.0;
      assert ts[1..][i] == ts[i + 1];
    }
  }

  lemma {:induction false} OwnerHasKey(ts: seq<Thread>, i: nat, k: MessageKey)
    requires i < |ts| && k in KeysOf(ts[i])
    ensures k in KeysOfAll(ts)
    decreases |ts|
  {
    if i > 0 {
      OwnerHasKey(ts[1..], i - 1, k);
    }
  }

  ghost predicate NumberedApart(t: Thread) {
    forall i, j :: 0 <= i < j < |t.messages| ==> t.messages[i].id != t.messages[j].id
  }

  /** The threads' destructors reach no message twice. */
  lemma {:induction false} ThreadsDestructOnce(ts: seq<Thread>, k: MessageKey)
    requires DistinctIds(ts) && forall i :: 0 <= i < |ts| ==> NumberedApart(ts[i])
    ensures multiset(KeysOfAll(ts))[k] == if k in KeysOfAll(ts) then 1 else 0
    decreases |ts|
  {
    if ts != [] {
      var rest := ts[1..];
      ThreadsDestructOnce(rest, k);
      assert NumberedApart(ts[0]);
      CountOfDistinct(KeysOf(ts[0]), k);
      if k in KeysOfAll(rest) {
        KeyHasOwner(rest, k);
        var i :| 0 <= i < |rest| && rest[i].id == k.0;
        assert ts[i + 1].id != ts[0].id;
      }
      assert multiset(KeysOfAll(ts)) == multiset(KeysOf(ts[0])) + multiset(KeysOfAll(rest));
    }
  }

  lemma {:induction false} QueuedIsPending(q: seq<Pending>, k: nat)
    requires k < |q|
    ensures q[k].msg in PendingOf(q, q[k].owner)
    decreases |q|
  {
    if k > 0 {
      QueuedIsPending(q[1..], k - 1);
    }
  }

  lemma PendingInMemory(t: Thread, e: Thread, d: Dir, pending: seq<Message>, m: Message)
    requires InMemory(t, e, pending) && LogTracks(e, d, pending) && m in pending
    ensures (e.id, m.id) in KeysOf(t)
  {
    assert m in Logged(e.messages, pending) + pending;
    var j :| 0 <= j < |t.messages| && t.messages[j] == m;
    assert KeysOf(t)[j] == (e.id, m.id);
  }

  /** A queued message also belongs to its thread, which is in memory because it was posted to. */
  lemma QueuedIsOwned(s: State, f: EagerForum, k: nat)
    requires Simulates(s, f) && k < |s.msgQ|
    ensures (s.msgQ[k].owner, s.msgQ[k].msg.id) in KeysOfAll(s.threads)
  {
    var p := s.msgQ[k];
    assert HasId(f.threads, p.owner);
    var i :| 0 <= i < |f.threads| && f.threads[i].id == p.owner;
    assert TracksAt(s, f, i);
    QueuedIsPending(s.msgQ, k);
    hide PendingOf, LogTracks, InMemory, InfoSaved, AuthorSaved, GoodThread;
    PendingInMemory(s.threads[i], f.threads[i], DirOf(s.dirs, p.owner), PendingOf(s.msgQ, p.owner), p.msg);
    OwnerHasKey(s.threads, i, (p.owner, p.msg.id));
  }

  lemma ThreadsAreDistinct(s: State, f: EagerForum)
    requires Simulates(s, f)
    ensures DistinctIds(s.threads) && forall i :: 0 <= i < |s.threads| ==> NumberedApart(s.threads[i])
  {
    forall i | 0 <= i < |s.threads| ensures NumberedApart(s.threads[i]) && s.threads[i].id == f.threads[i].id {
      assert TracksAt(s, f, i);
      assert GoodHistory(f.threads[i]);
    }
  }

  /** A message is destructed once by its thread, and once more for every time it is still queued. */
  lemma DestructionCount(s: State, f: EagerForum, k: MessageKey)
    requires Simulates(s, f)
    ensures multiset(Destructions(s))[k]
         == multiset(QueuedKeys(s.msgQ))[k] + if k in KeysOfAll(s.threads) then 1 else 0
  {
    ThreadsAreDistinct(s, f);
    ThreadsDestructOnce(s.threads, k);
    assert multiset(Destructions(s)) == multiset(QueuedKeys(s.msgQ)) + multiset(KeysOfAll(s.threads));
  }

  /** `cleanup` destructs every message in memory exactly once if and only if the message queue is drained. */
  lemma EachMessageOnceIffDrained(s: State, f: EagerForum)
    requires Simulates(s, f)
    ensures (forall k :: k in KeysOfAll(s.threads) ==> multiset(Destructions(s))[k] == 1) <==> s.msgQ == []
  {
    if s.msgQ == [] {
      forall k | k in KeysOfAll(s.threads) ensures multiset(Destructions(s))[k] == 1 {
        DestructionCount(s, f, k);
        assert QueuedKeys(s.msgQ) == [];
      }
    } else {
      var k := QueuedKeys(s.msgQ)[0];
      QueuedIsOwned(s, f, 0);
      DestructionCount(s, f, k);
      assert k in multiset(QueuedKeys(s.msgQ));
    }
  }

  /** Nothing else is destructed: every call is on a message of a thread in memory. */
  lemma OnlyOwnedMessages(s: State, f: EagerForum, k: MessageKey)
    requires Simulates(s, f) && k in Destructions(s)
    ensures k in KeysOfAll(s.threads)
  {
    if k in QueuedKeys(s.msgQ) {
      var i :| 0 <= i < |s.msgQ| && QueuedKeys(s.msgQ)[i] == k;
      QueuedIsOwned(s, f, i);
    }
  }
}
