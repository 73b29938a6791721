/** The walker's shared list of names. Every method in concurrentarray.go holds the list's mutex from
    its first to its last statement, so each call is one atomic step: `AddIfAbsent` and `RemoveFirst`
    are the effects of those steps, and the crawl's transition system uses them as such. */
module ConcurrentArrays {
  import opened Tally

  function AddIfAbsent<T(==)>(data: seq<T>, value: T): seq<T> {
    if value in data then data else data + [value]
  }

  function RemoveFirst<T(==)>(data: seq<T>, value: T): seq<T> {
    if data == [] then []
    else if data[0] == value then data[1..]
    else [data[0]] + RemoveFirst(data[1..], value)
  }

  /** Adding never repeats a value, and grows the list exactly when the value was missing. */
  lemma AddIfAbsentKeepsDistinct<T>(data: seq<T>, value: T)
    requires Distinct(data)
    ensures var r := AddIfAbsent(data, value);
      Distinct(r) && value in r && data <= r && (|r| == |data| <==> value in data)
      && forall x :: x in r <==> x in data || x == value
  {
    var r := AddIfAbsent(data, value);
    assert value !in data ==> r[|data|] == value;
    forall x ensures x in r <==> x in data || x == value { }
  }

  lemma {:induction false} RemoveFirstAt<T>(data: seq<T>, value: T, i: nat)
    requires i < |data| && data[i] == value && value !in data[..i]
    ensures RemoveFirst(data, value) == data[..i] + data[i + 1..]
  {
    if i > 0 {
      assert data[0] in data[..i];
      assert data[1..][..i - 1] == data[..i][1..];
      RemoveFirstAt(data[1..], value, i - 1);
      assert data[..i] == [data[0]] + data[1..][..i - 1];
    }
  }

  lemma {:induction false} RemoveFirstAbsent<T>(data: seq<T>, value: T)
    requires value !in data
    ensures RemoveFirst(data, value) == data
  {
    if data != [] {
      assert forall x :: x in data[1..] ==> x in data;
      RemoveFirstAbsent(data[1..], value);
    }
  }

  /** Removing undoes adding, on every list that did not hold the value. */
  lemma RemoveUndoesAdd<T>(data: seq<T>, value: T)
    requires value !in data
    ensures RemoveFirst(AddIfAbsent(data, value), value) == data
  {
    var r := AddIfAbsent(data, value);
    assert r[..|data|] == data && r[|data| + 1..] == [];
    RemoveFirstAt(r, value, |data|);
  }

  class ConcurrentArray<T(==)> {
    var data: seq<T>

    constructor ()
      ensures data == []
    {
      data := [];
    }

    method Contains(value: T) returns (found: bool)
      ensures found <==> value in data
    {
      for i := 0 to |data|
        invariant value !in data[..i]
      {
        if data[i] == value {
          return true;
        }
      }
      return false;
    }

    method ContainsOrSet(value: T) returns (found: bool)
      modifies this
      ensures found <==> value in old(data)
      ensures data == AddIfAbsent(old(data), value)
    {
      for i := 0 to |data|
        invariant data == old(data)
        invariant value !in data[..i]
      {
        if data[i] == value {
          return true;
        }
      }
      data := data + [value];
      return false;
    }

    method Append(value: T)
      modifies this
      ensures data == old(data) + [value]
    {
      data := data + [value];
    }

    method Remove(value: T)
      modifies this
      ensures data == RemoveFirst(old(data), value)
    {
      for i := 0 to |data|
        invariant data == old(data)
        invariant value !in data[..i]
      {
        if data[i] == value {
          RemoveFirstAt(data, value, i);
          data := data[..i] + data[i + 1..];
          return;
        }
      }
      RemoveFirstAbsent(data, value);
    }

    method Len() returns (n: nat)
      ensures n == |data|
    {
      n := |data|;
    }
  }
}
