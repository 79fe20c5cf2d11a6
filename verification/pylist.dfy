/**
 Python list subscripting, as used for the CPU's `ram` and `reg` lists: a subscript
 `i` of a list of length `n` is accepted when `-n <= i < n`, a negative subscript
 counts from the end, and any other subscript raises IndexError.
 */
module PyList {
  import opened Wrappers

  /** True iff `i` is an accepted subscript of a list of length `n`. */
  predicate InRange(n: nat, i: int) {
    -(n as int) <= i < n
  }

  /** The cell that an accepted subscript designates. */
  function Cell(n: nat, i: int): (k: nat)
    requires InRange(n, i)
    ensures k < n
    ensures i >= 0 ==> k == i
    ensures i < 0 ==> k - n == i
  {
    if i >= 0 then i else n + i
  }

  /** `s[i]` */
  function Get(s: seq<int>, i: int): (r: Result<int>)
    ensures r.Ok? <==> InRange(|s|, i)
    ensures r.Err? ==> r.fault == IndexError
    ensures r.Ok? ==> r.value == s[Cell(|s|, i)]
  {
    if InRange(|s|, i) then Ok(s[Cell(|s|, i)]) else Err(IndexError)
  }

  /** `s[i] = v`, returning the updated list. */
  function Set(s: seq<int>, i: int, v: int): (r: Result<seq<int>>)
    ensures r.Ok? <==> InRange(|s|, i)
    ensures r.Err? ==> r.fault == IndexError
    ensures r.Ok? ==> |r.value| == |s|
    ensures r.Ok? ==> r.value[Cell(|s|, i)] == v
    ensures r.Ok? ==> forall k :: 0 <= k < |s| && k != Cell(|s|, i) ==> r.value[k] == s[k]
  {
    if InRange(|s|, i) then Ok(s[Cell(|s|, i) := v]) else Err(IndexError)
  }

  /** Reading back a cell just written yields the written value. */
  lemma SetThenGet(s: seq<int>, i: int, v: int)
    requires InRange(|s|, i)
    ensures Set(s, i, v).Ok?
    ensures Get(Set(s, i, v).value, i) == Ok(v)
  {
  }

  /** Writing one cell leaves every subscript that designates another cell as it was. */
  lemma SetThenGetOther(s: seq<int>, i: int, v: int, j: int)
    requires InRange(|s|, i)
    requires !InRange(|s|, j) || Cell(|s|, j) != Cell(|s|, i)
    ensures Get(Set(s, i, v).value, j) == Get(s, j)
  {
  }
}
