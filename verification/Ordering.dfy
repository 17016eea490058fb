/** Start and termination orders (internal/s/spec.go). */
module Ordering {
  import opened Types

  function Reverse<T>(s: seq<T>): (r: seq<T>)
    ensures |r| == |s|
    ensures forall i :: 0 <= i < |s| ==> r[i] == s[|s| - 1 - i]
  {
    if s == [] then [] else Reverse(s[1..]) + [s[0]]
  }

  function SortStart<T>(o: Order, s: seq<T>): seq<T> {
    if o.LeftToRight? then s else Reverse(s)
  }

  function SortTermination<T>(o: Order, s: seq<T>): seq<T> {
    if o.LeftToRight? then Reverse(s) else s
  }

  lemma {:induction false} ReverseReverse<T>(s: seq<T>)
    ensures Reverse(Reverse(s)) == s
  {
    assert forall i :: 0 <= i < |s| ==> Reverse(Reverse(s))[i] == s[i];
  }

  lemma {:induction false} ReverseConcat<T>(a: seq<T>, b: seq<T>)
    ensures Reverse(a + b) == Reverse(b) + Reverse(a)
  {
    var l, r := Reverse(a + b), Reverse(b) + Reverse(a);
    assert |l| == |r|;
    forall i | 0 <= i < |l| ensures l[i] == r[i] {
    }
  }

  /** Whatever the configured order, children stop in exactly the reverse of the order in
      which they start, and both orders visit the same children. */
  lemma StopReversesStart<T>(o: Order, s: seq<T>)
    ensures SortTermination(o, s) == Reverse(SortStart(o, s))
    ensures forall x :: x in SortTermination(o, s) <==> x in s
    ensures forall x :: x in SortStart(o, s) <==> x in s
  {
    ReverseReverse(s);
    SameElements(s);
  }

  lemma {:induction false} SameElements<T>(s: seq<T>)
    ensures forall x :: x in Reverse(s) <==> x in s
  {
    forall x | x in s ensures x in Reverse(s) {
      var i :| 0 <= i < |s| && s[i] == x;
      assert Reverse(s)[|s| - 1 - i] == x;
    }
  }

  /** The two-index swap loop, on the copy that the source makes first. */
  method ReverseInPlace<T>(input: array<T>)
    modifies input
    ensures input[..] == Reverse(old(input[..]))
  {
    var i, j := 0, input.Length - 1;
    while i < j
      invariant 0 <= i && i + j == input.Length - 1
      invariant i <= j + 1
      invariant forall k :: 0 <= k < i ==> input[k] == old(input[input.Length - 1 - k])
      invariant forall k :: j < k < input.Length ==> input[k] == old(input[input.Length - 1 - k])
      invariant forall k :: i <= k <= j ==> input[k] == old(input[k])
    {
      input[i], input[j] := input[j], input[i];
      i, j := i + 1, j - 1;
    }
    assert forall k :: 0 <= k < input.Length ==> input[k] == Reverse(old(input[..]))[k];
  }

  method SortStartCopy<T>(o: Order, input0: seq<T>) returns (sorted: seq<T>)
    ensures sorted == SortStart(o, input0)
  {
    var input := new T[|input0|](i requires 0 <= i < |input0| => input0[i]);
    assert input[..] == input0;
    if o.RightToLeft? {
      ReverseInPlace(input);
    }
    sorted := input[..];
  }

  method SortTerminationCopy<T>(o: Order, input0: seq<T>) returns (sorted: seq<T>)
    ensures sorted == SortTermination(o, input0)
  {
    var input := new T[|input0|](i requires 0 <= i < |input0| => input0[i]);
    assert input[..] == input0;
    if o.LeftToRight? {
      ReverseInPlace(input);
    }
    sorted := input[..];
  }
}
