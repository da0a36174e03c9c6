/** A thread as an object to be freed: its list of messages is a linked queue of its own. */
module ThreadObject {
  import opened Bytes
  import opened Forum
  import opened LinkedQueue

  class HeapThread {
    const id: u64
    var messages: Queue?<MessageKey>
    ghost var live: bool
    ghost var Repr: set<object>

    /** A live thread whose queue and nodes belong to it alone. */
    ghost predicate Whole()
      reads this, Repr
    {
      && live && this in Repr
      && messages != null && messages in Repr && (forall n :: n in messages.nodes ==> n in Repr)
      && messages.Valid() && messages.destruct == LemessageDelete
    }

    ghost function Keys(): seq<MessageKey>
      requires Whole()
      reads this, Repr
    {
      messages.contents
    }

    constructor (id: u64)
      ensures Whole() && fresh(Repr) && Keys() == [] && this.id == id
    {
      this.id := id;
      var queue := new Queue<MessageKey>(LemessageDelete);
      messages, live := queue, true;
      Repr := {this, queue};
    }

    /** The list's share of `lemessage_create`. */
    method AddMessage(number: u64)
      requires Whole()
      modifies Repr
      ensures Whole() && fresh(Repr - old(Repr))
      ensures Keys() == old(Keys()) + [(id, number)]
    {
      var _ := messages.Push(Some((id, number)));
      Repr := Repr + set n | n in messages.nodes;
    }

    /** `lethread_delete`: the message queue goes first, and takes every message with it. */
    method LethreadDelete(log: Destructor<MessageKey>)
      requires Whole() && log !in Repr
      modifies Repr, log
      ensures !live && messages == null
      ensures log.destroyed == old(log.destroyed) + old(Keys())
    {
      if messages != null {
        messages.Delete(log);
        messages := null;
      }
      live := false;
    }
  }
}
