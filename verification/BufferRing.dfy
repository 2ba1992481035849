/**
 Circular doubly linked lists threaded through two index arrays, as the buffer cache
 threads its buffers through `prev` and `next`.
 */
module BufferRing {

  function Succ(i: nat, n: nat): nat { if i + 1 == n then 0 else i + 1 }
  function Pred(i: nat, n: nat): nat requires n > 0 { if i == 0 then n - 1 else i - 1 }

  ghost predicate NoRepeats(r: seq<nat>) {
    forall i, j :: 0 <= i < j < |r| ==> r[i] != r[j]
  }

  /** `next` and `prev` link the elements of `r`, in this order, into one circle. */
  ghost predicate Circle(next: seq<nat>, prev: seq<nat>, r: seq<nat>) {
    && |r| > 0 && |next| == |prev|
    && NoRepeats(r)
    && (forall i :: 0 <= i < |r| ==> r[i] < |next|)
    && (forall i {:trigger next[r[i]]} :: 0 <= i < |r| ==> next[r[i]] == r[Succ(i, |r|)])
    && (forall i {:trigger prev[r[i]]} :: 0 <= i < |r| ==> prev[r[i]] == r[Pred(i, |r|)])
  }

  /** `r` without its `k`-th element. */
  function Without(r: seq<nat>, k: nat): (s: seq<nat>)
    requires k < |r|
  {
    r[..k] + r[k + 1..]
  }

  /** `r` with `b` inserted after its first element. */
  function PushedFront(r: seq<nat>, b: nat): (s: seq<nat>)
    requires |r| > 0
  {
    [r[0], b] + r[1..]
  }

  /** Taking `b` out by linking its neighbours leaves a circle of the others. */
  lemma Unlink(next: seq<nat>, prev: seq<nat>, r: seq<nat>, k: nat)
    requires Circle(next, prev, r) && 0 < k < |r|
    ensures var b := r[k];
      && next[b] < |prev| && prev[b] < |next|
      && Circle(next[prev[b] := next[b]], prev[next[b] := prev[b]], Without(r, k))
      && b !in Without(r, k)
  {
    var b := r[k];
    var n, s := |r|, Without(r, k);
    var next', prev' := next[prev[b] := next[b]], prev[next[b] := prev[b]];
    assert next[b] == r[Succ(k, n)] && prev[b] == r[k - 1];
    assert forall i :: 0 <= i < |s| ==> s[i] == r[if i < k then i else i + 1];
    forall i | 0 <= i < |s|
      ensures next'[s[i]] == s[Succ(i, |s|)] && prev'[s[i]] == s[Pred(i, |s|)]
    {
      var j := if i < k then i else i + 1;
      assert s[i] == r[j] && next[r[j]] == r[Succ(j, n)] && prev[r[j]] == r[Pred(j, n)];
    }
  }

  /** Linking `b` in after the head of a circle that does not contain it. */
  lemma PushFront(next: seq<nat>, prev: seq<nat>, r: seq<nat>, b: nat)
    requires Circle(next, prev, r) && b < |next| && b !in r
    ensures var h := r[0];
      && next[h] < |next|
      && Circle(next[b := next[h]][h := b], prev[b := h][next[h] := b], PushedFront(r, b))
  {
    var h, s := r[0], PushedFront(r, b);
    var f := next[h];
    assert f == r[Succ(0, |r|)];
    var next', prev' := next[b := f][h := b], prev[b := h][f := b];
    assert forall i :: 2 <= i < |s| ==> s[i] == r[i - 1];
    forall i | 0 <= i < |s|
      ensures s[i] < |next| && next'[s[i]] == s[Succ(i, |s|)] && prev'[s[i]] == s[Pred(i, |s|)]
    {
      if 2 <= i {
        assert s[i] == r[i - 1] && next[r[i - 1]] == r[Succ(i - 1, |r|)] && prev[r[i - 1]] == r[i - 2];
      }
    }
  }
}
