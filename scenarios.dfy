/** Clients of the buffer that derive concrete behaviours of the buffer from the
    operations' contracts alone. */
module Scenarios {
  import opened Iterable
  import opened CircularBuffers

  /** Pushing onto an empty buffer and shifting straight away returns the pushed item
      and leaves the buffer empty. */
  method PushThenShift<T>(capacity: nat, x: T) returns (r: Option<T>, sizeAfter: nat)
    requires capacity > 0
    ensures r == Some(x) && sizeAfter == 0
  {
    var b := new CircularBuffer(capacity, NoItems);
    var _ := b.Push(x);
    r := b.Shift();
    sizeAfter := b.Length();
  }

  /** On a buffer that is not full, `unshift(x)` then `shift()` returns `x` and restores
      the elements. */
  method UnshiftThenShift<T>(capacity: nat, init: seq<T>, x: T) returns (r: Option<T>, after: seq<T>)
    requires |init| < capacity
    ensures r == Some(x) && after == init
  {
    var b := new CircularBuffer(capacity, FromArray(init));
    var _ := b.Unshift(x);
    r := b.Shift();
    after := b.Iterate();
  }

  /** Capacity 3: pushing 1, 2, 3, 4 evicts 1; unshifting 9 then evicts the newest, 4. */
  method EvictionAtBothEnds() returns (afterPushes: seq<int>, afterUnshift: seq<int>)
    ensures afterPushes == [2, 3, 4]
    ensures afterUnshift == [9, 2, 3]
  {
    var b := new CircularBuffer(3, NoItems);
    var n := b.Push(1);
    n := b.Push(2);
    n := b.Push(3);
    n := b.Push(4);
    afterPushes := b.Iterate();
    n := b.Unshift(9);
    afterUnshift := b.Iterate();
  }

  /** Capacity 2 over the array [10, 20, 30] keeps [20, 30]; the same elements given as a
      plain iterable end up the same. */
  method ConstructorKeepsLatest() returns (fromArray: seq<int>, fromIterable: seq<int>)
    ensures fromArray == [20, 30] && fromIterable == [20, 30]
  {
    var a := new CircularBuffer(2, FromArray([10, 20, 30]));
    fromArray := a.Iterate();
    var b := new CircularBuffer(2, FromIterable([10, 20, 30]));
    fromIterable := b.Iterate();
  }

  /** `toArray` on a capacity-5 buffer holding three elements gives exactly those three. */
  method ToArrayOfPartlyFilled<T>(a: T, b: T, c: T) returns (arr: array<Option<T>>)
    ensures arr.Length == 3 && arr[..] == [Some(a), Some(b), Some(c)]
  {
    var buf := new CircularBuffer(5, NoItems);
    var n := buf.Push(a);
    n := buf.Push(b);
    n := buf.Push(c);
    arr := buf.ToArray();
  }

  /** On an empty buffer `pop` and `shift` return nothing, and indexed access fails. */
  method EmptyBufferAccess<T>(capacity: nat, x: T) returns (popped: Option<T>, shifted: Option<T>,
                                                          read: Result<Option<T>>, written: Result<()>)
    ensures popped == None && shifted == None
    ensures read == Failure(IndexOutOfRange) && written == Failure(IndexOutOfRange)
  {
    var b := new CircularBuffer(capacity, NoItems);
    popped := b.Pop();
    shifted := b.Shift();
    read := b.GetElementAt(0);
    written := b.SetElementAt(0, x);
  }

  /** A capacity-2 buffer after pushing 1, 2, 3 holds [2, 3] with `start == 1`: `pop` as
      written returns 2, the element in physical slot 1, where the last element is 3. */
  method PopReturnsWrongSlot() returns (asWritten: Option<int>, intended: Option<int>)
    ensures asWritten == Some(2)
    ensures intended == Some(3)
  {
    var b := new CircularBuffer(2, NoItems);
    var n := b.Push(1);
    n := b.Push(2);
    n := b.Push(3);
    assert b.Contents == [2, 3] && b.start == 1;
    assert b.items[b.Slot(0)] == Some(2);
    asWritten := b.Pop();
    var c := new CircularBuffer(2, NoItems);
    n := c.Push(1);
    n := c.Push(2);
    n := c.Push(3);
    intended := c.PopLast();
  }

  /** Unshifting 1 onto an empty capacity-3 buffer puts it in slot 2 with `start == 2`:
      `pop` as written then reads slot 0, which was never written, and returns nothing
      from a buffer that held one element. */
  method UnshiftThenPopReturnsHole() returns (asWritten: Option<int>, intended: Option<int>, sizeAfter: nat)
    ensures asWritten == None && sizeAfter == 0
    ensures intended == Some(1)
  {
    var b := new CircularBuffer(3, NoItems);
    var n := b.Unshift(1);
    asWritten := b.Pop();
    sizeAfter := b.Length();
    var c := new CircularBuffer(3, NoItems);
    n := c.Unshift(1);
    intended := c.PopLast();
  }
}
