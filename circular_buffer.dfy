/** A fixed-capacity ring buffer that overwrites on overflow (CircularBuffer in
    src/circularBuffer.ts).

    Logical element `i` of the buffer lives in physical slot `(start + i) % capacity`
    of `items`. A slot the source never wrote, or one whose element was removed, is
    whatever JavaScript left there; `None` stands for `undefined`. */
module CircularBuffers {
  import opened Iterable

  datatype Error = InvalidCapacity | IndexOutOfRange

  datatype Result<R> = Success(value: R) | Failure(error: Error)

  /** What the constructor is given: nothing, an array, or any other iterable, whose
      elements are listed in iteration order. */
  datatype InitItems<T> = NoItems | FromArray(elements: seq<T>) | FromIterable(elements: seq<T>)

  /** The last `capacity` elements of `s`, in order. */
  function Latest<T>(s: seq<T>, capacity: nat): (r: seq<T>)
    ensures |r| == if |s| < capacity then |s| else capacity
    ensures r == s[|s| - |r|..]
  {
    if |s| > capacity then s[|s| - capacity..] else s
  }

  // Arithmetic on physical slots.

  lemma WrapMod(k: nat, c: nat)
    requires c > 0
    ensures k < c ==> k % c == k
    ensures c <= k < 2 * c ==> k % c == k - c
  {
  }

  lemma MulAtLeast(c: nat, d: int)
    ensures d >= 1 ==> c * d >= c
    ensures d <= -1 ==> c * d + c <= 0
  {
  }

  lemma ModUnique(a: nat, c: nat, q: int, m: int)
    requires c > 0 && 0 <= m < c && a == c * q + m
    ensures a % c == m
  {
    var q', m' := a / c, a % c;
    assert c * (q - q') == m' - m;
    MulAtLeast(c, q - q');
  }

  /** Adding `start` to an index and reducing modulo `c` only depends on the index
      modulo `c`. */
  lemma ModAddReduce(index: nat, start: nat, c: nat)
    requires c > 0 && start < c
    ensures (index + start) % c == (index % c + start) % c
  {
    var q, m := index / c, index % c;
    if m + start < c {
      ModUnique(index + start, c, q, m + start);
      ModUnique(m + start, c, 0, m + start);
    } else {
      ModUnique(index + start, c, q + 1, m + start - c);
      ModUnique(m + start, c, 1, m + start - c);
    }
  }

  class CircularBuffer<T> {
    const capacity: nat
    const items: array<Option<T>>
    var size: nat
    var start: nat
    /** The buffer's elements, oldest first. */
    ghost var Contents: seq<T>

    ghost predicate Valid()
      reads this, items
    {
      items.Length == capacity &&
      size <= capacity && |Contents| == size &&
      (capacity == 0 ==> start == 0) &&
      (capacity > 0 ==> start < capacity) &&
      forall i :: 0 <= i < size ==> items[Slot(i)] == Some(Contents[i])
    }

    /** The physical slot of logical position `index < capacity`: `start + index`,
        wrapped once past the end of storage. */
    ghost function Slot(index: nat): nat
      reads this
    {
      if start + index < capacity then start + index else start + index - capacity
    }

    /** `getIndex`: the physical slot of logical position `index`. */
    function GetIndex(index: nat): (slot: nat)
      reads this
      requires capacity > 0
      ensures slot < capacity
      ensures start < capacity && index < capacity ==> slot == Slot(index)
    {
      WrapMod(index + start, capacity);
      (index + start) % capacity
    }

    /** Any index reaches the same slot as its remainder modulo `capacity`. */
    lemma GetIndexWraps(index: nat)
      requires capacity > 0 && start < capacity
      ensures index % capacity < capacity
      ensures GetIndex(index) == Slot(index % capacity)
      ensures index < capacity ==> index % capacity == index
    {
      ModAddReduce(index, start, capacity);
      WrapMod(index % capacity + start, capacity);
      WrapMod(index, capacity);
    }

    /** The `length` getter. */
    function Length(): (n: nat)
      reads this, items
      requires Valid()
      ensures n == |Contents|
    {
      size
    }

    /** The buffer's override of `guessLength`, which `toArray` uses. */
    function GuessLength(): (n: nat)
      reads this, items
      requires Valid()
      ensures n == |Contents|
    {
      Length()
    }

    /** The constructor for a capacity that has passed the negative check. An array is
        copied, keeping its last `capacity` elements; any other iterable is pushed element
        by element, which ends with the same contents. */
    constructor (capacity: nat, init: InitItems<T>)
      requires init.FromIterable? && capacity == 0 ==> init.elements == []
      ensures Valid() && fresh(items)
      ensures this.capacity == capacity
      ensures Contents == if init.NoItems? then [] else Latest(init.elements, capacity)
      ensures !init.FromIterable? ==> start == 0
      ensures !init.FromIterable? ==>
                forall i :: 0 <= i < capacity ==> items[i] == if i < |Contents| then Some(Contents[i]) else None
    {
      this.capacity := capacity;
      match init {
        case FromArray(xs) =>
          var kept := Latest(xs, capacity);
          items := new Option<T>[capacity](i => if 0 <= i < |kept| then Some(kept[i]) else None);
          size := |kept|;
          Contents := kept;
        case _ =>
          items := new Option<T>[capacity](_ => None);
          size := 0;
          Contents := [];
      }
      start := 0;
      new;
      if init.FromIterable? {
        var xs := init.elements;
        var k := 0;
        while k < |xs|
          invariant 0 <= k <= |xs|
          invariant Valid() && fresh(items) && this.capacity == capacity
          invariant Contents == Latest(xs[..k], capacity)
        {
          PushKeepsLatest(xs, k, capacity);
          var _ := Push(xs[k]);
          k := k + 1;
        }
        assert xs[..|xs|] == xs;
      }
    }

    /** `clear`: empties the buffer; the storage is kept. */
    method Clear()
      requires Valid()
      modifies this
      ensures Valid() && start == 0 && size == 0 && Contents == []
    {
      start := 0;
      size := 0;
      Contents := [];
    }

    /** `getEelementAt`: fails on an empty buffer; otherwise reads the slot the index
        maps to, so an index past the end wraps around instead of failing. */
    function GetElementAt(index: nat): (r: Result<Option<T>>)
      reads this, items
      requires Valid()
      ensures r.Failure? <==> size == 0
      ensures r.Failure? ==> r.error == IndexOutOfRange
      ensures index < size ==> r == Success(Some(Contents[index])) && r.value == ElementAt(Contents, index)
      ensures size > 0 && index % capacity < size ==> r == Success(Some(Contents[index % capacity]))
    {
      if size == 0 then Failure(IndexOutOfRange)
      else
        GetIndexWraps(index);
        Success(items[GetIndex(index)])
    }

    /** `push`: appends `item`; on a full buffer the oldest element is evicted first. */
    method Push(item: T) returns (newSize: nat)
      requires Valid() && capacity > 0
      modifies this, items
      ensures Valid()
      ensures old(size) < capacity ==> Contents == old(Contents) + [item] && start == old(start)
      ensures old(size) == capacity ==>
                Contents == old(Contents)[1..] + [item] && start == (old(start) + 1) % capacity
      ensures newSize == |Contents|
      ensures items[..] == old(items[..])[(old(start) + old(size)) % capacity := Some(item)]
    {
      WrapMod(start + size, capacity);
      ghost var target := (start + size) % capacity;
      if size == capacity {
        WrapMod(start + 1, capacity);
        var _ := Shift();
      }
      WrapMod(start + size, capacity);
      var index := (start + size) % capacity;
      assert index == Slot(size) && index == target;
      items[index] := Some(item);
      size := size + 1;
      Contents := Contents + [item];
      newSize := size;
    }

    /** `pop`, as written: shortens the buffer by one, but returns physical slot
        `size - 1`, which holds the last element only when `start == 0`. */
    method Pop() returns (r: Option<T>)
      requires Valid()
      modifies this
      ensures Valid() && start == old(start)
      ensures old(size) == 0 ==> r == None && size == 0 && Contents == old(Contents)
      ensures old(size) > 0 ==>
                size == old(size) - 1 && Contents == old(Contents)[..size] && r == items[size]
      ensures old(size) > 0 && start == 0 ==> r == Some(old(Contents)[old(size) - 1])
    {
      if size == 0 {
        return None;
      }
      size := size - 1;
      r := items[size];
      Contents := Contents[..size];
    }

    /** `pop` as intended: removes and returns the logical last element. */
    method PopLast() returns (r: Option<T>)
      requires Valid()
      modifies this
      ensures Valid() && start == old(start)
      ensures old(size) == 0 ==> r == None && size == 0 && Contents == old(Contents)
      ensures old(size) > 0 ==>
                size == old(size) - 1 && Contents == old(Contents)[..size] &&
                r == Some(old(Contents)[old(size) - 1])
    {
      if size == 0 {
        return None;
      }
      size := size - 1;
      r := items[GetIndex(size)];
      Contents := Contents[..size];
    }

    /** `setEelementAt`: fails on an empty buffer; otherwise writes the slot the index maps
        to. An index that wraps onto a slot outside the live range changes no element. */
    method SetElementAt(index: nat, element: T) returns (r: Result<()>)
      requires Valid()
      modifies this, items
      ensures Valid() && size == old(size) && start == old(start)
      ensures r.Failure? <==> size == 0
      ensures r.Failure? ==> r.error == IndexOutOfRange && Contents == old(Contents) && items[..] == old(items[..])
      ensures r.Success? ==> items[..] == old(items[..])[GetIndex(index) := Some(element)]
      ensures r.Success? && index < size ==> Contents == old(Contents)[index := element]
      ensures r.Success? ==>
        Contents == if index % capacity < size then old(Contents)[index % capacity := element] else old(Contents)
    {
      if size == 0 {
        return Failure(IndexOutOfRange);
      }
      GetIndexWraps(index);
      var slot := GetIndex(index);
      items[slot] := Some(element);
      var m := index % capacity;
      if m < size {
        Contents := Contents[m := element];
      }
      r := Success(());
    }

    /** `shift`: removes and returns the oldest element, advancing `start` with wraparound. */
    method Shift() returns (r: Option<T>)
      requires Valid()
      modifies this
      ensures Valid()
      ensures old(size) == 0 ==> r == None && size == 0 && start == old(start) && Contents == old(Contents)
      ensures old(size) > 0 ==>
                r == Some(old(Contents)[0]) && Contents == old(Contents)[1..] &&
                start == (old(start) + 1) % capacity
    {
      if size == 0 {
        return None;
      }
      var index := start;
      size := size - 1;
      start := start + 1;
      if start == capacity {
        start := 0;
      }
      r := items[index];
      Contents := Contents[1..];
      WrapMod(old(start) + 1, capacity);
      forall i | 0 <= i < size
        ensures items[Slot(i)] == Some(Contents[i])
      {
        assert Slot(i) == old(Slot(i + 1));
        assert old(items[Slot(i + 1)]) == Some(old(Contents)[i + 1]);
      }
    }

    /** `unshift`: prepends `item`; on a full buffer the newest element is evicted first. */
    method Unshift(item: T) returns (newSize: nat)
      requires Valid() && capacity > 0
      modifies this, items
      ensures Valid()
      ensures old(size) < capacity ==> Contents == [item] + old(Contents)
      ensures old(size) == capacity ==> Contents == [item] + old(Contents)[..old(size) - 1]
      ensures start == (old(start) + capacity - 1) % capacity
      ensures newSize == |Contents|
      ensures items[..] == old(items[..])[start := Some(item)]
    {
      if size == capacity {
        var _ := Pop();
      }
      label Evicted:
      var decremented: int := start - 1;
      start := if decremented < 0 then capacity - 1 else decremented;
      items[start] := Some(item);
      size := size + 1;
      Contents := [item] + Contents;
      newSize := size;
      WrapMod(old(start) + capacity - 1, capacity);
      assert Slot(0) == start;
      forall i | 1 <= i < size
        ensures items[Slot(i)] == Some(Contents[i])
      {
        assert Slot(i) == old@Evicted(Slot(i - 1));
        assert old@Evicted(items[Slot(i - 1)]) == Some(old@Evicted(Contents)[i - 1]);
      }
    }

    /** `[Symbol.iterator]`: walks the physical slots from `start`, wrapping at the end of
        storage, for `size` steps. */
    method Iterate() returns (xs: seq<T>)
      requires Valid()
      ensures xs == Contents
    {
      var c := capacity;
      var len := size;
      var i := start;
      var j := 0;
      xs := [];
      while j < len
        invariant 0 <= j <= len
        invariant xs == Contents[..j]
        invariant j < len ==> i == Slot(j)
      {
        var value := items[i];
        i := i + 1;
        j := j + 1;
        if i == c {
          i := 0;
        }
        xs := xs + [value.value];
      }
    }

    /** The inherited `toArray`, fed by the iterator and this buffer's length guess. */
    method ToArray() returns (arr: array<Option<T>>)
      requires Valid()
      ensures fresh(arr) && arr.Length == |Contents|
      ensures forall i :: 0 <= i < |Contents| ==> arr[i] == Some(Contents[i])
    {
      var xs := Iterate();
      arr := Iterable.ToArray(xs, GuessLength());
    }
  }

  /** One step of the iterable constructor path: pushing `xs[k]` onto the latest
      `capacity` elements of `xs[..k]` leaves the latest `capacity` elements of `xs[..k + 1]`. */
  lemma PushKeepsLatest<T>(xs: seq<T>, k: nat, capacity: nat)
    requires k < |xs| && capacity > 0
    ensures var c := Latest(xs[..k], capacity);
      (if |c| == capacity then c[1..] + [xs[k]] else c + [xs[k]]) == Latest(xs[..k + 1], capacity)
  {
    var s, x := xs[..k], xs[k];
    var c := Latest(s, capacity);
    assert xs[..k + 1] == s + [x];
    if |c| == capacity {
      assert c[1..] + [x] == (s + [x])[|s| + 1 - capacity..];
    }
  }

  /** The constructor with the source's capacity check: a negative capacity is refused
      and no buffer is produced. */
  method Create<T>(capacity: int, init: InitItems<T>) returns (r: Result<CircularBuffer<T>>)
    requires init.FromIterable? && capacity == 0 ==> init.elements == []
    ensures r.Failure? <==> capacity < 0
    ensures r.Failure? ==> r.error == InvalidCapacity
    ensures r.Success? ==>
              fresh(r.value) && fresh(r.value.items) && r.value.Valid() &&
              r.value.capacity == capacity &&
              r.value.Contents == if init.NoItems? then [] else Latest(init.elements, capacity)
  {
    if capacity < 0 {
      return Failure(InvalidCapacity);
    }
    var b := new CircularBuffer(capacity, init);
    r := Success(b);
  }
}
