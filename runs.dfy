/**
 * Run-length expansion. A run is a value together with a repeat count, and a
 * sequence of runs expands to every run's copies laid out one run after
 * another. This is the shape of a Python list built by calling
 * `out.extend([x] * n)` once per record: the slot list of a location and the
 * flat list of vehicle lengths of a query are both built that way.
 */
module Runs {

  /** `count` copies of `value`. */
  datatype Run<T> = Run(value: T, count: nat)

  /** `n` copies of `x`, Python's `[x] * n`. */
  function Repeat<T>(x: T, n: nat): (r: seq<T>)
    ensures |r| == n
    ensures forall i :: 0 <= i < n ==> r[i] == x
  {
    if n == 0 then [] else [x] + Repeat(x, n - 1)
  }

  /** Every run's copies, run after run. */
  function Expand<T>(rs: seq<Run<T>>): seq<T>
  {
    if rs == [] then [] else Repeat(rs[0].value, rs[0].count) + Expand(rs[1..])
  }

  /** Sum of the repeat counts. */
  function TotalCount<T>(rs: seq<Run<T>>): nat
  {
    if rs == [] then 0 else rs[0].count + TotalCount(rs[1..])
  }

  /** Expanding a concatenation expands each part in turn. */
  lemma {:induction false} ExpandConcat<T>(a: seq<Run<T>>, b: seq<Run<T>>)
    ensures Expand(a + b) == Expand(a) + Expand(b)
  {
    if a == [] {
      assert a + b == b;
    } else {
      assert (a + b)[1..] == a[1..] + b;
      ExpandConcat(a[1..], b);
    }
  }

  /** Appending one run appends exactly its copies: one `extend` step. */
  lemma ExpandSnoc<T>(rs: seq<Run<T>>, r: Run<T>)
    ensures Expand(rs + [r]) == Expand(rs) + Repeat(r.value, r.count)
  {
    ExpandConcat(rs, [r]);
    assert [r][1..] == [];
  }

  /**
   * Run `p` occupies a block of exactly `rs[p].count` positions, preceded by
   * the expansion of the runs before it and followed by that of the runs
   * after it: nothing is reordered, dropped or duplicated.
   */
  lemma ExpandSplit<T>(rs: seq<Run<T>>, p: nat)
    requires p < |rs|
    ensures Expand(rs) == Expand(rs[..p]) + Repeat(rs[p].value, rs[p].count) + Expand(rs[p + 1..])
  {
    assert rs == rs[..p] + rs[p..];
    ExpandConcat(rs[..p], rs[p..]);
    ExpandDrop(rs, p);
    var before, run, after := Expand(rs[..p]), Repeat(rs[p].value, rs[p].count), Expand(rs[p + 1..]);
    assert before + (run + after) == before + run + after;
  }

  /** Expanding a suffix starts with the copies of its first run. */
  lemma ExpandDrop<T>(rs: seq<Run<T>>, p: nat)
    requires p < |rs|
    ensures Expand(rs[p..]) == Repeat(rs[p].value, rs[p].count) + Expand(rs[p + 1..])
  {
  }

  /** The expanded length is the sum of the counts. */
  lemma {:induction false} ExpandLength<T>(rs: seq<Run<T>>)
    ensures |Expand(rs)| == TotalCount(rs)
  {
    if rs != [] {
      ExpandLength(rs[1..]);
    }
  }

  /** Every element of the expansion is the value of a run with a non-zero count. */
  lemma {:induction false} ExpandMember<T>(rs: seq<Run<T>>, j: nat)
    requires j < |Expand(rs)|
    ensures exists p :: 0 <= p < |rs| && rs[p].count > 0 && Expand(rs)[j] == rs[p].value
  {
    if j < rs[0].count {
      assert Expand(rs)[j] == rs[0].value;
    } else {
      ExpandMember(rs[1..], j - rs[0].count);
      var p :| 0 <= p < |rs[1..]| && rs[1..][p].count > 0 && Expand(rs[1..])[j - rs[0].count] == rs[1..][p].value;
      assert rs[p + 1] == rs[1..][p];
    }
  }
}
