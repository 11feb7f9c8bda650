/**
 * The parts of Python's list semantics tinyboot.py relies on: `pop` from the end,
 * subscripts that count negative indexes from the end, and simple slices whose bounds are
 * clamped to the list, so that reading a slice never fails and assigning to one can grow
 * or shrink the list.
 */
module PyLists {
  import opened Wrappers

  /** The exceptions the interpreter can raise. */
  datatype PyError =
    | IndexError   // pop from an empty list, subscript out of range, reading past the program
    | KeyError     // a byte with no run-time action, a jump with no target
    | ValueError   // `int()` of text that is not a number, `chr()` of a value above 255
    | AssertionError

  /** `stack.pop()`: the last element and the list without it. */
  function Pop<T>(s: seq<T>): (r: Result<(T, seq<T>), PyError>)
    ensures r.Ok? <==> |s| > 0
    ensures r.Ok? ==> r.value.1 + [r.value.0] == s
    ensures r.Err? ==> r.error == IndexError
  {
    if |s| == 0 then Err(IndexError) else Ok((s[|s| - 1], s[..|s| - 1]))
  }

  /** A slice bound: a negative one counts from the end; both are clamped to `[0, n]`. */
  function SliceBound(i: int, n: nat): (r: nat)
    ensures r <= n
    ensures 0 <= i <= n ==> r == i
    ensures 0 <= i + n && i < 0 ==> r == i + n
    ensures i + n < 0 ==> r == 0
    ensures i > n ==> r == n
  {
    if i < 0 then (if i + n < 0 then 0 else i + n)
    else if i > n then n
    else i
  }

  /** `s[lo:hi]`. */
  function Slice<T>(s: seq<T>, lo: int, hi: int): (r: seq<T>)
    ensures var a := SliceBound(lo, |s|); var b := SliceBound(hi, |s|);
      r == if b <= a then [] else s[a..b]
  {
    var a := SliceBound(lo, |s|);
    var b := SliceBound(hi, |s|);
    s[a .. if b < a then a else b]
  }

  /** `s[lo:hi] = vals`: the clamped window is replaced by `vals`, whatever its length. */
  function SliceAssign<T>(s: seq<T>, lo: int, hi: int, vals: seq<T>): (r: seq<T>)
    ensures var a := SliceBound(lo, |s|);
      var b := if SliceBound(hi, |s|) < a then a else SliceBound(hi, |s|);
      && |r| == |s| - (b - a) + |vals|
      && r[..a] == s[..a]
      && r[a .. a + |vals|] == vals
      && r[a + |vals|..] == s[b..]
  {
    var a := SliceBound(lo, |s|);
    var b := SliceBound(hi, |s|);
    s[..a] + vals + s[if b < a then a else b ..]
  }

  /** The position `s[i]` refers to: counted from the end when negative; `None` when out of range. */
  function Subscript(i: int, n: nat): (r: Option<nat>)
    ensures r.Some? <==> 0 <= i + n && i < n
    ensures r.Some? ==> r.value == if i < 0 then i + n else i
  {
    if 0 <= i < n then Some(i)
    else if 0 <= i + n && i < 0 then Some(i + n)
    else None
  }

  /**
   * Reading back a window just assigned at a start inside the list gives what was assigned,
   * even when the window ran past the end and the list grew.
   */
  lemma SliceOfSliceAssign<T>(s: seq<T>, lo: int, vals: seq<T>)
    requires 0 <= lo <= |s|
    ensures Slice(SliceAssign(s, lo, lo + |vals|, vals), lo, lo + |vals|) == vals
  {
    var r := SliceAssign(s, lo, lo + |vals|, vals);
    assert |r| >= lo + |vals|;
    assert r[lo .. lo + |vals|] == vals;
  }

  /** A window wholly inside the list keeps its length and every byte outside it. */
  lemma SliceAssignInside<T>(s: seq<T>, lo: int, vals: seq<T>)
    requires 0 <= lo && lo + |vals| <= |s|
    ensures var r := SliceAssign(s, lo, lo + |vals|, vals);
      && |r| == |s|
      && forall i :: 0 <= i < |s| && !(lo <= i < lo + |vals|) ==> r[i] == s[i]
  {
    var r := SliceAssign(s, lo, lo + |vals|, vals);
    forall i | 0 <= i < |s| && !(lo <= i < lo + |vals|) ensures r[i] == s[i] {
      if i < lo {
        assert r[..lo][i] == s[..lo][i];
      } else {
        assert r[lo + |vals| ..][i - lo - |vals|] == s[lo + |vals| ..][i - lo - |vals|];
      }
    }
  }
}
