// The growable array of the tree-sitter runtime, with sizes and capacities that
// are 32-bit numbers and wrap around.
module GrowArray {

  const U32: nat := 0x1_0000_0000

  // The number modulo 2^32.
  function Wrap(x: int): (r: nat)
    ensures r < U32
    decreases if x < 0 then -x + U32 else x
  {
    if x < 0 then Wrap(x + U32) else if x >= U32 then Wrap(x - U32) else x
  }

  lemma {:induction false} WrapIsRemainder(x: int)
    ensures Wrap(x) == x % U32
    decreases if x < 0 then -x + U32 else x
  {
    if x < 0 {
      WrapIsRemainder(x + U32);
    } else if x >= U32 {
      WrapIsRemainder(x - U32);
    }
  }

  // The capacity that growing by count asks for.
  function GrownCapacity(size: nat, capacity: nat, count: nat): nat {
    var newSize := Wrap(size + count);
    if newSize <= capacity then capacity
    else
      var doubled := Wrap(capacity * 2);
      var atLeast8 := if doubled < 8 then 8 else doubled;
      if atLeast8 < newSize then newSize else atLeast8
  }

  // Growing provides enough room, also when doubling the capacity wraps, as long as
  // the new size itself does not wrap.
  lemma GrownCapacitySuffices(size: nat, capacity: nat, count: nat)
    requires size + count < U32
    ensures GrownCapacity(size, capacity, count) >= size + count
  {
  }

  // From half the address range on, doubling a full array wraps: every push then
  // moves the whole array for one more element of room.
  lemma DoublingWrapsAtHalf(size: nat)
    requires U32 / 2 <= size < U32 - 1
    ensures GrownCapacity(size, size, 1) == size + 1
  {
    assert Wrap(size * 2) == size * 2 - U32;
  }

  // The capacity after m pushes onto an empty array, and the elements moved by them.
  function CapacityAfter(m: nat): nat {
    if m == 0 then 0 else GrownCapacity(m - 1, CapacityAfter(m - 1), 1)
  }

  function MovesOf(m: nat): nat {
    if m == 0 then 0
    else MovesOf(m - 1) + if CapacityAfter(m) > CapacityAfter(m - 1) then m - 1 else 0
  }

  // Capacities are 8, 16, 32, ... up to half the address range.
  function Block(k: nat): nat {
    if k == 0 then 8 else 2 * Block(k - 1)
  }

  lemma {:induction false} BlocksGrow(k: nat, l: nat)
    requires k < l
    ensures 2 * Block(k) <= Block(l)
    decreases l
  {
    if k < l - 1 { BlocksGrow(k, l - 1); }
  }

  lemma LastBlock()
    ensures Block(28) == U32 / 2
  {
    assert Block(4) == 128;
    assert Block(8) == 2048;
    assert Block(12) == 0x8000;
    assert Block(16) == 0x8_0000;
    assert Block(20) == 0x80_0000;
    assert Block(24) == 0x800_0000;
  }

  // One push within a block, and one that doubles it.
  lemma PushInBlock(m: nat, c: nat)
    requires 1 <= m && CapacityAfter(m) == c && m <= c < U32 / 2
    ensures m < c ==> CapacityAfter(m + 1) == c && MovesOf(m + 1) == MovesOf(m)
    ensures m == c && 8 <= c ==> CapacityAfter(m + 1) == 2 * c && MovesOf(m + 1) == MovesOf(m) + m
  {
  }

  lemma PushInLastBlock(m: nat, c: nat)
    requires 1 <= m < c < U32 && CapacityAfter(m) == c
    ensures CapacityAfter(m + 1) == c && MovesOf(m + 1) == MovesOf(m)
  {
  }

  lemma FirstPush()
    ensures CapacityAfter(1) == 8 && MovesOf(1) == 0
  {
    assert CapacityAfter(0) == 0;
  }

  // While the array has at most 2^31 elements, its capacity is the smallest block
  // that holds them, and all smaller blocks have been moved once.
  lemma {:induction false} DoublingPhase(m: nat) returns (k: nat)
    requires 1 <= m <= U32 / 2
    ensures k <= 28 && m <= Block(k) && (k == 0 || Block(k) < 2 * m)
    ensures CapacityAfter(m) == Block(k) && MovesOf(m) == Block(k) - 8
    decreases m
  {
    if m == 1 {
      FirstPush();
      k := 0;
    } else {
      k := DoublingPhase(m - 1);
      k := NextBlock(m - 1, k);
    }
  }

  lemma NextBlock(m: nat, k: nat) returns (k': nat)
    requires 1 <= m < U32 / 2 && k <= 28 && m <= Block(k) && (k == 0 || Block(k) < 2 * m)
    requires CapacityAfter(m) == Block(k) && MovesOf(m) == Block(k) - 8
    ensures k' <= 28 && m + 1 <= Block(k') && (k' == 0 || Block(k') < 2 * (m + 1))
    ensures CapacityAfter(m + 1) == Block(k') && MovesOf(m + 1) == Block(k') - 8
  {
    LastBlock();
    if k == 28 {
      PushInLastBlock(m, Block(k));
      return k;
    }
    BlocksGrow(k, 28);
    BlockIsLarge(k);
    PushInBlock(m, Block(k));
    k' := if m < Block(k) then k else k + 1;
  }

  lemma {:induction false} BlockIsLarge(k: nat)
    ensures Block(k) >= 8
  {
    if k > 0 { BlockIsLarge(k - 1); }
  }

  lemma AtHalf(m: nat)
    requires m == U32 / 2
    ensures CapacityAfter(m) == m && MovesOf(m) == m - 8
  {
    LastBlock();
    var k := DoublingPhase(m);
    if k < 28 { BlocksGrow(k, 28); }
    assert k == 28;
  }

  lemma FullArrayMoves(m: nat)
    requires U32 / 2 <= m < U32 - 1 && CapacityAfter(m) == m
    ensures CapacityAfter(m + 1) == m + 1 && MovesOf(m + 1) == MovesOf(m) + m
  {
    DoublingWrapsAtHalf(m);
  }

  // From a full array of that size on, every push moves the whole array.
  lemma {:induction false} WrappedPhase(from: nat, m: nat)
    requires U32 / 2 <= from <= m < U32 && CapacityAfter(from) == from
    ensures CapacityAfter(m) == m && MovesOf(m) >= MovesOf(from) + 2 * (m - from)
    decreases m
  {
    if m > from {
      WrappedPhase(from, m - 1);
      FullArrayMoves(m - 1);
    }
  }

  // The first two pushes beyond half the address range.
  lemma JustBeyondHalf(h: nat)
    requires h == U32 / 2
    ensures CapacityAfter(h + 2) == h + 2
    ensures MovesOf(h + 1) == 2 * h - 8 && MovesOf(h + 2) == 3 * h - 7
  {
    AtHalf(h);
    FullArrayMoves(h);
    FullArrayMoves(h + 1);
  }

  // The moves of m pushes onto an empty array are paid for by two for each push,
  // exactly up to one push beyond half the address range.
  lemma PushesMoveLinearly(m: nat)
    requires m < U32
    ensures MovesOf(m) <= 2 * m <==> m <= U32 / 2 + 1
  {
    var h := U32 / 2;
    if m > h {
      JustBeyondHalf(h);
      if m > h + 1 { WrappedPhase(h + 2, m); }
    } else if m > 0 {
      var k := DoublingPhase(m);
    }
  }

  // What the next push does to the capacity and the moves, and what that means.
  lemma OneMorePush(m: nat, capacity: nat, moves: nat)
    requires m + 1 < U32 && capacity == CapacityAfter(m) && moves == MovesOf(m)
    ensures var capacity' := GrownCapacity(m, capacity, 1);
            var moves' := if capacity' > capacity then moves + m else moves;
            && CapacityAfter(m + 1) == capacity' && MovesOf(m + 1) == moves'
            && (moves' <= 2 * (m + 1) <==> m + 1 <= U32 / 2 + 1)
  {
    PushesMoveLinearly(m + 1);
  }

  // The first push that breaks the bound is number 2^31 + 2.
  lemma FirstPushBeyondTheBound(m: nat)
    requires m == U32 / 2 + 2
    ensures MovesOf(m) == 3 * (U32 / 2) - 7 && MovesOf(m) > 2 * m && MovesOf(m - 1) <= 2 * (m - 1)
  {
    JustBeyondHalf(m - 2);
  }

  // r is s with the elements from position at on replaced by those of e.
  ghost predicate Overwrites<T>(s: seq<T>, at: nat, e: seq<T>, r: seq<T>) {
    && |r| == |s| && at + |e| <= |s|
    && (forall k :: 0 <= k < |e| ==> r[at + k] == e[k])
    && forall k :: 0 <= k < |s| && !(at <= k < at + |e|) ==> r[k] == s[k]
  }

  // memmove of count elements inside one array; the two ranges may overlap.
  method MoveWithin<T>(a: array<T>, source: nat, target: nat, count: nat)
    requires source + count <= a.Length && target + count <= a.Length
    modifies a
    ensures Overwrites(old(a[..]), target, old(a[..])[source..source + count], a[..])
  {
    forall k | 0 <= k < count {
      a[target + k] := a[source + k];
    }
  }

  // memcpy of elements into an array.
  method CopyInto<T>(a: array<T>, target: nat, elements: seq<T>)
    requires target + |elements| <= a.Length
    modifies a
    ensures Overwrites(old(a[..]), target, elements, a[..])
  {
    forall k | 0 <= k < |elements| {
      a[target + k] := elements[k];
    }
  }

  method PushAtEnd<T>(a: array<T>, size: nat, x: T)
    requires size < a.Length
    modifies a
    ensures a[..size + 1] == old(a[..size]) + [x]
  {
    a[size] := x;
  }

  // Moving the tail and then writing the new elements splices, whichever of the two
  // counts is larger.
  lemma MovesMakeASplice<T>(s: seq<T>, buffer: seq<T>, moved: seq<T>, filled: seq<T>,
                            index: nat, oldCount: nat, elements: seq<T>)
    requires index + oldCount <= |s| <= |buffer| && s == buffer[..|s|]
    requires Overwrites(buffer, index + |elements|, buffer[index + oldCount..|s|], moved)
    requires Overwrites(moved, index, elements, filled)
    ensures filled[..|s| - oldCount + |elements|] == s[..index] + elements + s[index + oldCount..]
  {
    var r, tail := filled[..|s| - oldCount + |elements|], s[index + oldCount..];
    assert tail == buffer[index + oldCount..|s|];
    forall k | 0 <= k < |r| ensures r[k] == (s[..index] + elements + tail)[k] {
      if index + |elements| <= k {
        assert moved[index + |elements| + (k - index - |elements|)] == tail[k - index - |elements|];
      } else if index <= k {
        assert filled[index + (k - index)] == elements[k - index];
      }
    }
  }

  predicate Ascending(s: seq<int>) {
    forall i, j :: 0 <= i < j < |s| ==> s[i] <= s[j]
  }

  // Sorted without duplicates.
  predicate Sorted(s: seq<int>) {
    forall i, j :: 0 <= i < j < |s| ==> s[i] < s[j]
  }

  class GrowArray<T(0)> {
    var contents: array<T>
    var size: nat
    // Elements moved to a new allocation so far.
    ghost var copied: nat

    ghost predicate Valid()
      reads this
    {
      size <= contents.Length < U32
    }

    ghost function Elements(): seq<T>
      reads this, contents
      requires Valid()
    {
      contents[..size]
    }

    constructor ()
      ensures Valid() && fresh(contents) && Elements() == [] && contents.Length == 0 && BuiltByPushes()
    {
      contents, size, copied := new T[0], 0, 0;
    }

    method Reserve(newCapacity: nat)
      requires Valid() && newCapacity < U32
      modifies this`contents, this`copied
      ensures Valid() && (contents == old(contents) || fresh(contents))
      ensures contents.Length == if newCapacity > old(contents.Length) then newCapacity else old(contents.Length)
      ensures Elements() == old(Elements())
      ensures copied == if newCapacity > old(contents.Length) then old(copied) + size else old(copied)
    {
      if newCapacity > contents.Length {
        var moved := new T[newCapacity];
        forall k | 0 <= k < size {
          moved[k] := contents[k];
        }
        contents, copied := moved, copied + size;
        assert contents[..size] == old(contents[..size]);
      }
    }

    method Grow(count: nat)
      requires Valid() && count < U32
      modifies this`contents, this`copied
      ensures Valid() && (contents == old(contents) || fresh(contents))
      ensures contents.Length == GrownCapacity(size, old(contents.Length), count)
      ensures size + count < U32 ==> size + count <= contents.Length
      ensures Elements() == old(Elements())
      ensures copied == if contents.Length > old(contents.Length) then old(copied) + size else old(copied)
    {
      if size + count < U32 {
        GrownCapacitySuffices(size, contents.Length, count);
      }
      var newSize := Wrap(size + count);
      if newSize > contents.Length {
        var newCapacity := Wrap(contents.Length * 2);
        if newCapacity < 8 {
          newCapacity := 8;
        }
        if newCapacity < newSize {
          newCapacity := newSize;
        }
        Reserve(newCapacity);
      }
    }

    // An array built by pushes alone has the capacity and the moves of that many.
    ghost predicate BuiltByPushes()
      reads this, contents
    {
      size < U32 && contents.Length == CapacityAfter(size) && copied == MovesOf(size)
    }

    method Push(x: T)
      requires Valid() && size + 1 < U32
      modifies this, contents
      ensures Valid() && (contents == old(contents) || fresh(contents))
      ensures Elements() == old(Elements()) + [x]
      ensures old(BuiltByPushes()) ==> BuiltByPushes()
      ensures old(BuiltByPushes()) ==> (copied <= 2 * size <==> size <= U32 / 2 + 1)
    {
      if BuiltByPushes() {
        OneMorePush(size, contents.Length, copied);
      }
      Grow(1);
      PushAtEnd(contents, size, x);
      size := size + 1;
    }

    // Replaces oldCount elements at index by the given ones; memmove first.
    method Splice(index: nat, oldCount: nat, elements: seq<T>)
      requires Valid() && index + oldCount <= size && size - oldCount + |elements| < U32
      modifies this, contents
      ensures Valid() && (contents == old(contents) || fresh(contents))
      ensures Elements() == old(Elements()[..index]) + elements + old(Elements()[index + oldCount..])
    {
      var newSize := Wrap(size + |elements| - oldCount);
      var oldEnd := Wrap(index + oldCount);
      var newEnd := Wrap(index + |elements|);
      Reserve(newSize);
      ghost var s, buffer := old(Elements()), contents[..];
      if size > oldEnd {
        MoveWithin(contents, oldEnd, newEnd, size - oldEnd);
      }
      ghost var moved := contents[..];
      CopyInto(contents, index, elements);
      MovesMakeASplice(s, buffer, moved, contents[..], index, oldCount, elements);
      size := newSize;
      assert Elements() == contents[..][..newSize];
    }

    method Erase(index: nat)
      requires Valid() && index < size
      modifies this, contents
      ensures Valid() && contents == old(contents)
      ensures Elements() == old(Elements()[..index]) + old(Elements()[index + 1..])
    {
      ghost var s, buffer := Elements(), contents[..];
      MoveWithin(contents, index + 1, index, size - index - 1);
      size := size - 1;
      MovesMakeASplice(s, buffer, contents[..], contents[..], index, 1, []);
      assert Elements() == contents[..][..size];
    }
  }

  // The binary search, halving the number of candidates from index on.  It ends at the
  // last of the elements equal to the needle, or where the needle belongs.
  method SearchSorted(a: GrowArray<int>, needle: int) returns (index: nat, found: bool)
    requires a.Valid() && Ascending(a.Elements())
    ensures index <= a.size
    ensures found <==> needle in a.Elements()
    ensures found ==> index < a.size && a.Elements()[index] == needle
    ensures forall k :: 0 <= k < index ==> a.Elements()[k] <= needle
    ensures forall k :: index < k < a.size ==> a.Elements()[k] > needle
    ensures !found ==> index < a.size ==> a.Elements()[index] > needle
    ensures !found || Sorted(a.Elements()) ==> forall k :: 0 <= k < index ==> a.Elements()[k] < needle
  {
    index, found := 0, false;
    var size := a.size - index;
    ghost var s := a.Elements();
    if size == 0 {
      return;
    }
    while size > 1
      invariant 1 <= size && index + size <= a.size
      invariant index > 0 ==> s[index] <= needle
      invariant index + size < a.size ==> s[index + size] > needle
    {
      var half := size / 2;
      var mid := index + half;
      assert s[mid] == a.contents[mid];
      if a.contents[mid] <= needle {
        index := mid;
      }
      size := size - half;
    }
    assert s[index] == a.contents[index];
    SearchEnds(s, needle, index);
    if a.contents[index] == needle {
      found := true;
    } else if a.contents[index] < needle {
      index := index + 1;
    }
  }

  // One candidate is left: what it says about all elements.
  lemma SearchEnds(s: seq<int>, needle: int, index: nat)
    requires Ascending(s) && index < |s| && (index > 0 ==> s[index] <= needle)
    requires index + 1 < |s| ==> s[index + 1] > needle
    ensures forall k :: 0 <= k < index ==> s[k] <= s[index] && s[k] <= needle
    ensures forall k :: index < k < |s| ==> s[k] > needle
    ensures needle in s <==> s[index] == needle
    ensures Sorted(s) ==> forall k :: 0 <= k < index ==> s[k] < s[index]
  {
    if needle in s {
      var k :| 0 <= k < |s| && s[k] == needle;
      assert k <= index && s[k] <= s[index];
    }
  }

  // Inserting keeps the array sorted and without duplicates.
  method InsertSorted(a: GrowArray<int>, value: int)
    requires a.Valid() && Sorted(a.Elements()) && a.size + 1 < U32
    modifies a, a.contents
    ensures a.Valid() && Sorted(a.Elements())
    ensures forall x :: x in a.Elements() <==> x in old(a.Elements()) || x == value
  {
    var index, found := SearchSorted(a, value);
    if !found {
      ghost var s := a.Elements();
      a.Splice(index, 0, [value]);
      assert a.Elements() == s[..index] + [value] + s[index..];
      InsertionKeepsSorted(s, index, value);
    }
  }

  lemma InsertionKeepsSorted(s: seq<int>, index: nat, value: int)
    requires Sorted(s) && index <= |s|
    requires (forall k :: 0 <= k < index ==> s[k] < value) && (forall k :: index <= k < |s| ==> s[k] > value)
    ensures Sorted(s[..index] + [value] + s[index..])
    ensures forall x :: x in s[..index] + [value] + s[index..] <==> x in s || x == value
  {
    var t := s[..index] + [value] + s[index..];
    assert forall k :: 0 <= k < |t| ==> t[k] == if k < index then s[k] else if k == index then value else s[k - 1];
    forall x ensures x in t <==> x in s || x == value {
      assert t[index] == value;
      if x in s {
        var k :| 0 <= k < |s| && s[k] == x;
        assert t[if k < index then k else k + 1] == x;
      }
    }
  }
}
