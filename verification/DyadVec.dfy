// The growable vector of src/net/dyad.c.
module DyadVec {

  class Vec<T(0)> {
    var data: array<T>  // its length is the capacity
    var length: nat

    ghost predicate Valid()
      reads this
    {
      length <= data.Length
    }

    ghost function Contents(): seq<T>
      requires Valid()
      reads this, data
    {
      data[..length]
    }

    // vec_init
    constructor ()
      ensures Valid() && fresh(data) && Contents() == [] && data.Length == 0
    {
      data := new T[0];
      length := 0;
    }

    // vec_expand: the capacity doubles when the next element does not fit.
    method Expand()
      requires Valid()
      modifies this
      ensures Valid() && (data == old(data) || fresh(data))
      ensures length == old(length) < data.Length
      ensures data.Length == if old(length < data.Length) then old(data.Length)
        else if old(data.Length) == 0 then 1 else 2 * old(data.Length)
      ensures Contents() == old(Contents())
    {
      if length + 1 > data.Length {
        var capacity := if data.Length == 0 then 1 else 2 * data.Length;
        var bigger := new T[capacity];
        forall i | 0 <= i < length {
          bigger[i] := data[i];
        }
        data := bigger;
      }
    }

    // vec_push
    method Push(x: T)
      requires Valid()
      modifies this, data
      ensures Valid() && (data == old(data) || fresh(data))
      ensures Contents() == old(Contents()) + [x]
    {
      Expand();
      data[length] := x;
      length := length + 1;
    }

    // vec_clear
    method Clear()
      requires Valid()
      modifies `length
      ensures Valid() && Contents() == []
    {
      length := 0;
    }

    // vec_splice: memmove of what follows the removed elements.
    method Splice(start: nat, count: nat)
      requires Valid() && start + count <= length
      modifies this, data
      ensures Valid() && data == old(data)
      ensures Contents() == old(Contents()[..start] + Contents()[start + count..])
    {
      ghost var was := Contents();
      var rest := length - start - count;
      var i := 0;
      while i < rest
        invariant 0 <= i <= rest && length == old(length) && data == old(data)
        invariant forall j :: 0 <= j < start ==> data[j] == was[j]
        invariant forall j :: start <= j < start + i ==> data[j] == was[j + count]
        invariant forall j :: start + i <= j < length ==> data[j] == was[j]
      {
        data[start + i] := data[start + count + i];
        i := i + 1;
      }
      length := length - count;
    }
  }
}
