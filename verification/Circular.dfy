/** Queues in a circular sequence: where they are and how they grow and shrink. */
module Circular {
  function Wrap(p: nat, n: nat): nat {
    if p >= n then p - n else p
  }

  /** The `count` elements from `out` on, around the end of the sequence. */
  function Window<T>(data: seq<T>, out: nat, count: nat): (q: seq<T>)
    requires out < |data| && count <= |data|
    ensures |q| == count
  {
    seq(count, k requires 0 <= k < count => data[Wrap(out + k, |data|)])
  }

  /** Putting an element behind the last one appends it. */
  lemma WindowAppends<T>(data: seq<T>, out: nat, count: nat, x: T)
    requires out < |data| && count < |data|
    ensures Window(data[Wrap(out + count, |data|) := x], out, count + 1) == Window(data, out, count) + [x]
  {
    var end := Wrap(out + count, |data|);
    var after := data[end := x];
    forall k | 0 <= k < count + 1 ensures Window(after, out, count + 1)[k] == (Window(data, out, count) + [x])[k] {
      assert k < count ==> Wrap(out + k, |data|) != end;
    }
  }

  /** The place behind a window that is not the whole sequence is not in it. */
  lemma BehindWindow<T>(data: seq<T>, out: nat, count: nat, x: T)
    requires out < |data| && count < |data|
    ensures Window(data[Wrap(out + count, |data|) := x], out, count) == Window(data, out, count)
  {
    var end := Wrap(out + count, |data|);
    forall k | 0 <= k < count ensures Window(data[end := x], out, count)[k] == Window(data, out, count)[k] {
      assert Wrap(out + k, |data|) != end;
    }
  }

  /** Leaving out the first element. */
  lemma WindowDropsFirst<T>(data: seq<T>, out: nat, count: nat)
    requires out < |data| && 0 < count <= |data|
    ensures Window(data, out, count) == [data[out]] + Window(data, Wrap(out + 1, |data|), count - 1)
  {
    var rest := Window(data, Wrap(out + 1, |data|), count - 1);
    forall k | 0 <= k < count ensures Window(data, out, count)[k] == ([data[out]] + rest)[k] {
      if k == 0 {
        assert Wrap(out + k, |data|) == out;
      } else {
        assert Wrap(Wrap(out + 1, |data|) + (k - 1), |data|) == Wrap(out + k, |data|);
        assert ([data[out]] + rest)[k] == rest[k - 1];
      }
    }
  }

  /** The element just before a window that is not the whole sequence is not in it. */
  lemma BeforeWindow<T>(data: seq<T>, out: nat, count: nat, x: T)
    requires out < |data| && count < |data|
    ensures Window(data[out := x], Wrap(out + 1, |data|), count) == Window(data, Wrap(out + 1, |data|), count)
  {
    var next := Wrap(out + 1, |data|);
    forall k | 0 <= k < count ensures Window(data[out := x], next, count)[k] == Window(data, next, count)[k] {
      assert Wrap(next + k, |data|) != out;
    }
  }
}
