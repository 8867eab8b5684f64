/**
 A HIP stream's work queue: the fields of `WorkQueue`, what each of its lock sections does to them, and the class whose
 methods are those sections. QueueSystem composes the same functions into runs of many queues and threads.
 */
module WorkQueue {

  /** The template's Error, with its ok value named. */
  datatype Error = Ok | Failure(code: int)

  /** An item on some queue: done once that queue has finished that numbered item. */
  datatype Marker = Marker(queue: nat, number: nat)

  datatype Item = Item(number: nat, after: seq<Marker>)

  /** The fields that live under the lock, with the copies that are read without it. */
  datatype Fields = Fields(submitted: nat, completed: nat, hint: nat, items: seq<Item>, inlineOn: bool, error: Error,
                           failedSince: bool)

  const EMPTY := Fields(0, 0, 0, [], false, Ok, false)

  function Submitted(f: Fields, after: seq<Marker>): Fields {
    f.(submitted := f.submitted + 1, items := f.items + [Item(f.submitted + 1, after)])
  }

  /** Nothing is queued or running. */
  predicate Free(f: Fields) { f.completed == f.submitted && !f.inlineOn }

  function Claimed(f: Fields): Fields { f.(submitted := f.submitted + 1, inlineOn := true) }

  predicate CanTake(f: Fields) { f.items != [] && !f.inlineOn }

  function Taken(f: Fields): Fields
    requires f.items != []
  {
    f.(items := f.items[1..])
  }

  /** note_failure: the first failure since the last take_error is kept. */
  function Noted(f: Fields, e: Error): Fields {
    if e == Ok || f.error != Ok then f else f.(error := e, failedSince := true)
  }

  /** The stores that end an item, one at a time: the count, the failure, then the copy readers spin on. */
  function Counted(f: Fields, number: nat): Fields { f.(completed := number, inlineOn := false) }

  function Published(f: Fields): Fields { f.(hint := f.completed) }

  function ErrorTaken(f: Fields): Fields { f.(failedSince := false, error := Ok) }

  /** How many items are out of the deque and not counted as done. */
  function Held(f: Fields): int { f.submitted - |f.items| - f.completed }

  /**
   What every lock section keeps: at most one item is out of the deque; the numbers not done are the one held and then
   the deque's, in order, up to the last given out; the copy is not ahead of the count; a failure is kept exactly with
   its flag.
   */
  predicate Consistent(f: Fields) {
    && f.hint <= f.completed && 0 <= Held(f) <= 1 && (f.inlineOn ==> Held(f) == 1)
    && (forall i | 0 <= i < |f.items| :: f.items[i].number == f.completed + Held(f) + 1 + i)
    && (f.failedSince <==> f.error != Ok)
  }

  /** The number is in the deque, or is that of the item out of it. */
  predicate Unfinished(f: Fields, number: nat) {
    (exists i | 0 <= i < |f.items| :: f.items[i].number == number) || (Held(f) == 1 && number == f.completed + 1)
  }

  /** Of the numbers given out, and 0, those unfinished are exactly those past the completed count. */
  lemma {:induction false} UnfinishedIsPast(f: Fields, number: nat)
    requires Consistent(f) && number <= f.submitted
    ensures Unfinished(f, number) <==> number > f.completed
  {
    if number > f.completed + Held(f) {
      assert f.items[number - f.completed - Held(f) - 1].number == number;
    }
  }

  class Queue {
    var submitted: nat
    var completed: nat
    var hint: nat
    var items: seq<Item>
    var inlineOn: bool
    var error: Error
    var failedSince: bool

    ghost function View(): Fields
      reads this
    {
      Fields(submitted, completed, hint, items, inlineOn, error, failedSince)
    }

    ghost predicate Valid()
      reads this
    {
      Consistent(View())
    }

    constructor ()
      ensures Valid() && View() == EMPTY
    {
      submitted, completed, hint, items, inlineOn, error, failedSince := 0, 0, 0, [], false, Ok, false;
    }

    /** The lock section of submit; returns the item's number. */
    method Submit(after: seq<Marker>) returns (number: nat)
      requires Valid()
      modifies this
      ensures Valid() && View() == Submitted(old(View()), after)
      ensures number == submitted && Unfinished(View(), number) && !Unfinished(old(View()), number)
    {
      number := submitted + 1;
      submitted := number;
      items := items + [Item(number, after)];
      assert items[|items| - 1].number == number;
    }

    /** run_inline's first lock section: claims the next number if nothing is queued or running. */
    method ClaimInline() returns (claimed: bool, number: nat)
      requires Valid()
      modifies this
      ensures Valid() && claimed == Free(old(View()))
      ensures View() == if claimed then Claimed(old(View())) else old(View())
      ensures claimed <==> Held(old(View())) == 0 && old(items) == []
      ensures claimed ==> number == submitted == completed + 1 && Unfinished(View(), number)
    {
      number := 0;
      if completed != submitted || inlineOn {
        return false, number;
      }
      number := submitted + 1;
      submitted := number;
      inlineOn := true;
      claimed := true;
    }

    method NoteFailure(e: Error)
      requires Valid()
      modifies this`error, this`failedSince
      ensures Valid() && View() == Noted(old(View()), e)
      ensures failedSince <==> old(failedSince) || e != Ok
      ensures error == if old(error) != Ok then old(error) else e
    {
      if e == Ok || error != Ok {
        return;
      }
      error := e;
      failedSince := true;
    }

    /** run_inline's second lock section, with the number its first one claimed. */
    method FinishInline(number: nat, e: Error)
      requires Valid() && inlineOn && number == completed + 1
      modifies this
      ensures Valid() && View() == Published(Noted(Counted(old(View()), number), e))
      ensures Held(View()) == 0 && !Unfinished(View(), number) && hint == completed
    {
      completed := number;
      inlineOn := false;
      NoteFailure(e);
      hint := number;
    }

    /** The thread's lock section that takes the front item, having finished the one before. */
    method TakeFront() returns (item: Item)
      requires Valid() && CanTake(View()) && Held(View()) == 0
      modifies this`items
      ensures Valid() && item == old(items)[0] && View() == Taken(old(View()))
      ensures item.number == completed + 1 && Held(View()) == 1
    {
      item := items[0];
      items := items[1..];
    }

    /** The thread's lock section at the end of the item it took. */
    method FinishItem(item: Item, e: Error)
      requires Valid() && !inlineOn && Held(View()) == 1 && item.number == completed + 1
      modifies this
      ensures Valid() && View() == Published(Noted(Counted(old(View()), item.number), e))
      ensures Held(View()) == 0 && !Unfinished(View(), item.number) && hint == completed
    {
      completed := item.number;
      NoteFailure(e);
      hint := item.number;
    }

    /** A yes, by the copy or by the count, means the item is neither queued nor running; a no that it is. */
    method Done(number: nat) returns (done: bool)
      requires Valid()
      ensures number <= submitted ==> (done <==> !Unfinished(View(), number))
      ensures number > submitted ==> !done
    {
      if number <= submitted {
        UnfinishedIsPast(View(), number);
      }
      if hint >= number {
        return true;
      }
      done := completed >= number;
    }

    method TakeError() returns (e: Error)
      requires Valid()
      modifies this`error, this`failedSince
      ensures Valid() && error == Ok && e == old(error)
      ensures View() == if old(failedSince) then ErrorTaken(old(View())) else old(View())
    {
      if !failedSince {
        return Ok;
      }
      failedSince := false;
      e := error;
      error := Ok;
    }
  }
}
