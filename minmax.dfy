/**
 * Model of src/better-minmax.ts: `min` and `max` over a number array, which
 * throw a RangeError on an empty array and otherwise fold Math.min / Math.max
 * over every element with forEach.
 */
module MinMax {

  /** What `min` / `max` produce: a value, or the RangeError they throw. */
  datatype Outcome = Ok(value: int) | RangeError(message: string)

  const NoValues: string := "No values given"

  /** The least element of a non-empty sequence (specification of `min`). */
  function SeqMin(s: seq<int>): (m: int)
    requires |s| > 0
    ensures m in s
    ensures forall x :: x in s ==> m <= x
  {
    if |s| == 1 then s[0]
    else
      var rest := SeqMin(s[1..]);
      assert s == [s[0]] + s[1..];
      if s[0] <= rest then s[0] else rest
  }

  /** The greatest element of a non-empty sequence (specification of `max`). */
  function SeqMax(s: seq<int>): (m: int)
    requires |s| > 0
    ensures m in s
    ensures forall x :: x in s ==> x <= m
  {
    if |s| == 1 then s[0]
    else
      var rest := SeqMax(s[1..]);
      assert s == [s[0]] + s[1..];
      if s[0] >= rest then s[0] else rest
  }

  /** A lower bound that is an element is the minimum. */
  lemma SeqMinUnique(s: seq<int>, v: int)
    requires v in s && forall x :: x in s ==> v <= x
    ensures SeqMin(s) == v
  {
  }

  /** An upper bound that is an element is the maximum. */
  lemma SeqMaxUnique(s: seq<int>, v: int)
    requires v in s && forall x :: x in s ==> x <= v
    ensures SeqMax(s) == v
  {
  }

  /**
   * `min(values)`: RangeError on an empty array; otherwise the running
   * minimum of every element. The array is only read (no modifies clause).
   */
  method Min(values: array<int>) returns (r: Outcome)
    ensures values.Length == 0 <==> r.RangeError?
    ensures r.RangeError? ==> r.message == NoValues
    ensures r.Ok? ==> r.value in values[..]
    ensures r.Ok? ==> forall i :: 0 <= i < values.Length ==> r.value <= values[i]
  {
    if values.Length == 0 {
      return RangeError(NoValues);
    }
    var v := values[0];
    for i := 0 to values.Length
      invariant exists k :: 0 <= k < values.Length && v == values[k]
      invariant forall j :: 0 <= j < i ==> v <= values[j]
    {
      v := if values[i] < v then values[i] else v;
    }
    return Ok(v);
  }

  /**
   * `max(values)`: RangeError on an empty array; otherwise the running
   * maximum of every element. The array is only read (no modifies clause).
   */
  method Max(values: array<int>) returns (r: Outcome)
    ensures values.Length == 0 <==> r.RangeError?
    ensures r.RangeError? ==> r.message == NoValues
    ensures r.Ok? ==> r.value in values[..]
    ensures r.Ok? ==> forall i :: 0 <= i < values.Length ==> values[i] <= r.value
  {
    if values.Length == 0 {
      return RangeError(NoValues);
    }
    var v := values[0];
    for i := 0 to values.Length
      invariant exists k :: 0 <= k < values.Length && v == values[k]
      invariant forall j :: 0 <= j < i ==> values[j] <= v
    {
      v := if values[i] > v then values[i] else v;
    }
    return Ok(v);
  }
}
