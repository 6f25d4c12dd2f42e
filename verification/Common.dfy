/**
What several parts of the model need: 64-bit numbers, rounding to pages,
optional values, edits of sequences and sizes of sets.
*/
module Common {
  const U64 := 0x1_0000_0000_0000_0000
  const PAGE_SIZE := 4096

  type u64 = x: nat | x < U64

  datatype Option<+T> = None | Some(value: T)

  function InsertAt<T>(s: seq<T>, n: nat, x: T): seq<T>
    requires n <= |s|
  {
    s[..n] + [x] + s[n..]
  }

  function RemoveAt<T>(s: seq<T>, n: nat): seq<T>
    requires n < |s|
  {
    s[..n] + s[n + 1..]
  }

  ghost predicate Distinct<T>(s: seq<T>) {
    forall i, j :: 0 <= i < j < |s| ==> s[i] != s[j]
  }

  lemma {:induction false} SubsetSize<T>(a: set<T>, b: set<T>)
    requires a <= b
    ensures |a| <= |b|
    decreases a
  {
    if a != {} {
      var x :| x in a;
      SubsetSize(a - {x}, b - {x});
    }
  }

  /** align_up and align_down to whole pages, in 64-bit arithmetic. */
  function AlignUp(x: nat): nat {
    (x + (PAGE_SIZE - 1)) % U64 / PAGE_SIZE * PAGE_SIZE
  }

  function AlignDown(x: nat): nat {
    x / PAGE_SIZE * PAGE_SIZE
  }
}
