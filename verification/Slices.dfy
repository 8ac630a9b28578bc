/** In-place slice writes shared by the modules that fill fixed buffers. */
module Slices {

  /** `a[at..at + |s|].copy_from_slice(s)`: the slice takes the value of `s`, nothing else moves. */
  method CopyInto<T>(a: array<T>, at: nat, s: seq<T>)
    requires at + |s| <= a.Length
    modifies a
    ensures a[..] == old(a[..at]) + s + old(a[at + |s|..])
  {
    forall k | 0 <= k < |s| {
      a[at + k] := s[k];
    }
  }

  /** The same write, element by element. */
  method Put<T>(a: array<T>, at: nat, s: seq<T>)
    requires at + |s| <= a.Length
    modifies a
    ensures forall i :: at <= i < at + |s| ==> a[i] == s[i - at]
    ensures forall i :: 0 <= i < a.Length && !(at <= i < at + |s|) ==> a[i] == old(a[i])
  {
    forall k | 0 <= k < |s| {
      a[at + k] := s[k];
    }
  }

  /** `a[from..to].fill(value)`. */
  method Fill<T>(a: array<T>, from: nat, to: nat, value: T)
    requires from <= to <= a.Length
    modifies a
    ensures a[..] == old(a[..from]) + seq(to - from, _ => value) + old(a[to..])
  {
    forall k | from <= k < to {
      a[k] := value;
    }
  }

  /** A slice is two sequences in a row exactly when its two parts are those. */
  lemma SliceOfTwo<T>(s: seq<T>, at: nat, a: seq<T>, b: seq<T>)
    requires at + |a| + |b| <= |s|
    ensures s[at..at + |a| + |b|] == a + b
            <==> s[at..at + |a|] == a && s[at + |a|..at + |a| + |b|] == b
  {
    var whole, first, second := s[at..at + |a| + |b|], s[at..at + |a|], s[at + |a|..at + |a| + |b|];
    assert whole == first + second;
    if whole == a + b {
      assert first == whole[..|a|] && second == whole[|a|..];
    }
  }

  /** The concatenation of a list of slices. */
  function Flatten<T>(parts: seq<seq<T>>): seq<T>
  {
    if parts == [] then [] else Flatten(parts[..|parts| - 1]) + parts[|parts| - 1]
  }

  lemma {:induction false} FlattenAppend<T>(a: seq<seq<T>>, b: seq<seq<T>>)
    ensures Flatten(a + b) == Flatten(a) + Flatten(b)
  {
    if b == [] {
      assert a + b == a;
    } else {
      var n := |b| - 1;
      assert (a + b)[..|a| + n] == a + b[..n];
      FlattenAppend(a, b[..n]);
    }
  }

  lemma FlattenOne<T>(a: seq<T>)
    ensures Flatten([a]) == a
  {
    assert [a][..0] == [];
  }

  lemma FlattenTwo<T>(a: seq<T>, b: seq<T>)
    ensures Flatten([a, b]) == a + b
  {
    FlattenOne(a);
    assert [a, b][..1] == [a];
  }

  lemma FlattenThree<T>(a: seq<T>, b: seq<T>, c: seq<T>)
    ensures Flatten([a, b, c]) == a + b + c
  {
    FlattenTwo(a, b);
    assert [a, b, c][..2] == [a, b];
  }

  lemma FlattenFive<T>(a: seq<T>, b: seq<T>, c: seq<T>, d: seq<T>, e: seq<T>)
    ensures Flatten([a, b, c, d, e]) == a + b + c + d + e
  {
    FlattenThree(a, b, c);
    assert [a, b, c, d, e][..4] == [a, b, c, d] && [a, b, c, d][..3] == [a, b, c];
  }
}
