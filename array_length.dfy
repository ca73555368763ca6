/** `ArrayFieldField.Length`: the element count of an array-valued field, and resizing it by
    allocating a new array and copying the common prefix. */
module ArrayLength {

  /** The contents after resizing `s` to `n` elements: the common prefix is kept and new slots hold
      the element type's default value `zero`. */
  function Resized<T>(s: seq<T>, n: nat, zero: T): (r: seq<T>)
    ensures |r| == n
    ensures forall k :: 0 <= k < n ==> r[k] == (if k < |s| then s[k] else zero)
  {
    if n <= |s| then s[..n] else s + seq(n - |s|, _ => zero)
  }

  /** Resizing to the current length changes nothing. */
  lemma {:induction false} ResizedToSameLength<T>(s: seq<T>, zero: T)
    ensures Resized(s, |s|, zero) == s
  {
  }

  /** Growing and then shrinking back restores the original contents. */
  lemma {:induction false} GrowThenShrink<T>(s: seq<T>, n: nat, zero: T)
    requires n >= |s|
    ensures Resized(Resized(s, n, zero), |s|, zero) == s
  {
  }

  /** The first min(old, new) elements survive any resize. */
  lemma {:induction false} ResizedKeepsPrefix<T>(s: seq<T>, n: nat, zero: T)
    ensures var m := if n < |s| then n else |s|; Resized(s, n, zero)[..m] == s[..m]
  {
  }

  /** How a call of the setter ends: the new contents are in place (possibly the old array, when
      the count did not change), or it throws because the array is null or the count negative. */
  datatype SetLengthOutcome = Written | NullArray | NegativeLength

  /** The array field of a bound object, as ArrayFieldField reads and writes it. `zero` is the
      default value of the element type, which fresh array slots hold. */
  class ArrayFieldField<T> {
    var value: array?<T>
    const zero: T

    constructor (value: array?<T>, zero: T)
      ensures this.value == value && this.zero == zero
    {
      this.value := value;
      this.zero := zero;
    }

    /** The getter: the element count, 0 for a null array. */
    function Length(): (n: nat)
      reads this
      ensures value == null ==> n == 0
      ensures value != null ==> n == value.Length
    {
      if value != null then value.Length else 0
    }

    /** The setter. A null array makes reading its count throw (`NullArray`) before anything is
        written; asking for the current count leaves the field untouched; a negative count makes
        the array allocation throw (`NegativeLength`) before anything is written; any other count
        stores a fresh array of exactly that length holding the old prefix. */
    method SetLength(n: int) returns (outcome: SetLengthOutcome)
      modifies this
      ensures outcome == NullArray <==> old(value) == null
      ensures outcome == NegativeLength <==> old(value) != null && n != old(value.Length) && n < 0
      ensures outcome != Written || n == old(value.Length) ==> value == old(value)
      ensures outcome == Written && n != old(value.Length) ==> fresh(value)
      ensures outcome == Written ==>
        old(value) != null && value != null && value.Length == n && value[..] == Resized(old(value[..]), n, zero)
    {
      var oldArr := value;
      if oldArr == null {
        return NullArray;
      }
      outcome := Written;
      if n != oldArr.Length {
        if n < 0 {
          return NegativeLength;
        }
        var z := zero;
        var newArr := new T[n](_ => z);
        var count := if oldArr.Length < newArr.Length then oldArr.Length else newArr.Length;
        for i := 0 to count
          invariant forall k :: 0 <= k < i ==> newArr[k] == oldArr[k]
          invariant forall k :: i <= k < n ==> newArr[k] == z
        {
          newArr[i] := oldArr[i];
        }
        value := newArr;
      } else {
        ResizedToSameLength(oldArr[..], zero);
      }
    }
  }
}
