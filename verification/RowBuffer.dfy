// A fixed-size buffer of rows and the number in use.
module RowBuffer {

  class Rows<T(0)> {
    const data: array<T>
    var count: nat

    ghost predicate Valid() reads this, data { count <= data.Length }

    ghost function Contents(): (s: seq<T>)
      requires Valid()
      reads this, data
    {
      data[..count]
    }

    constructor (capacity: nat)
      ensures Valid() && fresh(data) && data.Length == capacity && Contents() == []
    {
      data := new T[capacity];
      count := 0;
    }

    function Get(i: nat): (x: T)
      requires Valid() && i < count
      reads this, data
      ensures x == Contents()[i]
    {
      data[i]
    }

    method Push(x: T)
      requires Valid() && count < data.Length
      modifies this`count, data
      ensures Valid() && Contents() == old(Contents()) + [x]
    {
      data[count] := x;
      count := count + 1;
    }

    method Set(i: nat, x: T)
      requires Valid() && i < count
      modifies data
      ensures Valid() && Contents() == old(Contents())[i := x]
    {
      data[i] := x;
    }

    // Rows after the removed one move forward by one place.
    method RemoveAt(i: nat)
      requires Valid() && i < count
      modifies this`count, data
      ensures Valid() && Contents() == old(Contents())[..i] + old(Contents())[i + 1..]
    {
      count := count - 1;
      for k := i to count
        invariant count == old(count) - 1
        invariant forall j :: 0 <= j < i ==> data[j] == old(data[j])
        invariant forall j :: i <= j < k ==> data[j] == old(data[j + 1])
        invariant forall j :: k <= j < data.Length ==> data[j] == old(data[j])
      {
        data[k] := data[k + 1];
      }
    }

    method Clear()
      requires Valid()
      modifies this`count
      ensures Valid() && Contents() == []
    {
      count := 0;
    }

    // Takes over the rows of another buffer of the same size.
    method CopyFrom(other: Rows<T>)
      requires Valid() && other.Valid() && other.count <= data.Length && other.data != data
      modifies this`count, data
      ensures Valid() && Contents() == old(other.Contents())
    {
      for k := 0 to other.count
        invariant forall j :: 0 <= j < k ==> data[j] == other.data[j]
      {
        data[k] := other.data[k];
      }
      count := other.count;
    }
  }
}
