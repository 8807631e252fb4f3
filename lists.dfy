/**
 * A Python `list[str]` as the source mutates it: an object over an array
 * that grows on `append` and shifts left on `remove`.
 */
module Lists {

  /** `lst.remove(x)` on values: drops the first element equal to `x`. */
  function RemoveFirst(s: seq<string>, x: string): (r: seq<string>)
    ensures x in s ==> |r| == |s| - 1
    ensures x !in s ==> r == s
  {
    if s == [] then []
    else if s[0] == x then s[1..]
    else [s[0]] + RemoveFirst(s[1..], x)
  }

  /** Removing the first `x` found at index `i` keeps what lies before and after it. */
  lemma {:induction false} RemoveFirstAt(s: seq<string>, x: string, i: nat)
    requires i < |s| && s[i] == x
    requires forall k :: 0 <= k < i ==> s[k] != x
    ensures RemoveFirst(s, x) == s[..i] + s[i + 1..]
  {
    if i > 0 {
      RemoveFirstAt(s[1..], x, i - 1);
      assert s[1..][..i - 1] == s[1..i];
      assert s[..i] == [s[0]] + s[1..i];
    }
  }

  class StringList {
    var elems: array<string>
    var size: nat

    ghost predicate Valid()
      reads this
    {
      size <= elems.Length
    }

    /** The list's current elements, in order. */
    ghost function Contents(): seq<string>
      reads this, elems
      requires Valid()
    {
      elems[..size]
    }

    /** `[]` */
    constructor ()
      ensures Valid() && fresh(elems)
      ensures Contents() == []
    {
      elems := new string[4](_ => "");
      size := 0;
    }

    /** `lst.append(x)` */
    method Append(x: string)
      requires Valid()
      modifies this, elems
      ensures Valid()
      ensures elems == old(elems) || fresh(elems)
      ensures Contents() == old(Contents()) + [x]
    {
      if size == elems.Length {
        var bigger := new string[2 * size + 1](_ => "");
        var i := 0;
        while i < size
          invariant 0 <= i <= size == old(size) == elems.Length < bigger.Length
          invariant elems == old(elems) && elems[..] == old(elems[..])
          invariant bigger[..i] == elems[..i]
        {
          bigger[i] := elems[i];
          i := i + 1;
        }
        assert bigger[..size] == elems[..size];
        elems := bigger;
      }
      elems[size] := x;
      size := size + 1;
    }

    /** `lst[i]` */
    method Get(i: nat) returns (x: string)
      requires Valid() && i < size
      ensures x == Contents()[i]
    {
      x := elems[i];
    }

    /** The position of the first `x`, or `size` when there is none. */
    method IndexOf(x: string) returns (i: nat)
      requires Valid()
      ensures i <= size
      ensures i < size ==> Contents()[i] == x
      ensures forall k :: 0 <= k < i ==> Contents()[k] != x
    {
      i := 0;
      while i < size && elems[i] != x
        invariant i <= size
        invariant forall k :: 0 <= k < i ==> elems[k] != x
      {
        i := i + 1;
      }
    }

    /** `del lst[i]`: shifts the elements after `i` one place left. */
    method DeleteAt(i: nat)
      requires Valid() && i < size
      modifies this, elems
      ensures Valid() && elems == old(elems)
      ensures Contents() == old(Contents()[..i]) + old(Contents()[i + 1..])
    {
      ghost var before := elems[..size];
      var j := i;
      while j + 1 < size
        invariant size == |before| && elems == old(elems) && size <= elems.Length
        invariant i <= j < size
        invariant forall k :: 0 <= k < i ==> elems[k] == before[k]
        invariant forall k :: i <= k < j ==> elems[k] == before[k + 1]
        invariant forall k :: j < k < size ==> elems[k] == before[k]
      {
        elems[j] := elems[j + 1];
        j := j + 1;
      }
      size := size - 1;
      ghost var after := before[..i] + before[i + 1..];
      assert |elems[..size]| == |after|;
      forall k | 0 <= k < size ensures elems[..size][k] == after[k] {
        if k < i {
          assert after[k] == before[k];
        } else {
          assert after[k] == before[k + 1];
        }
      }
    }

    /**
     * `lst.remove(x)`: drops the first element equal to `x` and shifts the rest
     * left; `found` is false where Python raises `ValueError`.
     */
    method Remove(x: string) returns (found: bool)
      requires Valid()
      modifies this, elems
      ensures Valid() && elems == old(elems)
      ensures found <==> x in old(Contents())
      ensures Contents() == RemoveFirst(old(Contents()), x)
    {
      var i := IndexOf(x);
      if i == size {
        assert x !in Contents();
        return false;
      }
      RemoveFirstAt(Contents(), x, i);
      DeleteAt(i);
      found := true;
    }
  }
}
