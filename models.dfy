/** `Void`: the unit response type for requests that return nothing. It has one
    value, every two values are equal, and every comparison is a tie. */
module Models {

  /** A task that has already completed with a result: `Task.FromResult`. */
  datatype CompletedTask<T> = FromResult(result: T)

  datatype Void = Void {
    /** The single static instance `_value`. */
    static function Value(): Void {
      Void
    }

    /** A completed task holding the single instance. */
    static function Task(): (t: CompletedTask<Void>)
      ensures t.result == Value()
    {
      FromResult(Void)
    }

    /** `IComparable<Void>.CompareTo`: every two values tie. */
    function CompareTo(other: Void): (r: int)
      ensures r == 0
    {
      0
    }

    /** `IComparable.CompareTo(object)`: a tie whatever the argument, of any type. */
    function CompareToObject<T>(obj: T): (r: int)
      ensures r == 0
    {
      0
    }

    /** `IEquatable<Void>.Equals`: true for any two values. */
    function Equals(other: Void): (r: bool)
      ensures r
      ensures r <==> this == other
    {
      true
    }
  }

  /** There is only one `Void`: every value is the static instance, and the
      completed task holds it. */
  lemma SingleInstance(w: Void)
    ensures w == Void.Value()
    ensures Void.Task().result == w
  {
  }

  /** The ordering is a total preorder consistent with `Equals`: a comparison is
      a tie exactly when the values are equal, reversing the arguments negates
      it, and it is transitive. */
  lemma CompareToAgreesWithEquals(a: Void, b: Void, c: Void)
    ensures a.CompareTo(b) == 0 <==> a.Equals(b)
    ensures a.CompareTo(b) == -b.CompareTo(a)
    ensures a.CompareTo(b) <= 0 && b.CompareTo(c) <= 0 ==> a.CompareTo(c) <= 0
  {
  }

  /** Both comparisons give the same answer when the object is a `Void`. */
  lemma CompareToOverloadsAgree(a: Void, b: Void)
    ensures a.CompareTo(b) == a.CompareToObject(b)
  {
  }
}
