/** Sequence operations the conversion logic borrows from Python's builtins:
    `max(xs, key=...)`, which returns the first of several maximal elements,
    and `list.remove(x)`, which deletes the first occurrence of `x`. */
module SeqOps {

  datatype Option<T> = None | Some(value: T)

  /** `k` is where Python's `max` stops: no key is larger than `keys[k]`,
      and every key before position `k` is strictly smaller. */
  predicate IsFirstMax(keys: seq<int>, k: nat) {
    && k < |keys|
    && (forall j | 0 <= j < |keys| :: keys[j] <= keys[k])
    && (forall j | 0 <= j < k :: keys[j] < keys[k])
  }

  /** Left-to-right scan that replaces the best index only on a strictly larger key. */
  function FirstMaxIndex(keys: seq<int>): (k: nat)
    requires |keys| > 0
    ensures IsFirstMax(keys, k)
  {
    if |keys| == 1 then 0
    else
      var front := keys[..|keys| - 1];
      var k := FirstMaxIndex(front);
      assert forall j | 0 <= j < |front| :: front[j] == keys[j];
      if keys[|keys| - 1] > keys[k] then |keys| - 1 else k
  }

  /** The first maximum is determined by its two defining properties. */
  lemma FirstMaxUnique(keys: seq<int>, k1: nat, k2: nat)
    requires IsFirstMax(keys, k1) && IsFirstMax(keys, k2)
    ensures k1 == k2
  {
    assert keys[k1] == keys[k2];
  }

  /** When equal elements have equal keys, the first maximum of the keys
      sits at the first occurrence of its element. */
  lemma FirstMaxIsFirstOccurrence<T>(s: seq<T>, keys: seq<int>, k: nat)
    requires |keys| == |s| && IsFirstMax(keys, k)
    requires forall i, j | 0 <= i < |s| && 0 <= j < |s| && s[i] == s[j] :: keys[i] == keys[j]
    ensures forall j | 0 <= j < k :: s[j] != s[k]
  {
    forall j | 0 <= j < k ensures s[j] != s[k] {
      assert keys[j] < keys[k];
    }
  }

  /** Deletes the first occurrence of `x`; exactly one copy of `x` goes. */
  function RemoveFirst<T(==)>(s: seq<T>, x: T): (r: seq<T>)
    requires x in s
    ensures |r| == |s| - 1
    ensures multiset(r) == multiset(s) - multiset{x}
  {
    assert s == [s[0]] + s[1..];
    if s[0] == x then s[1..] else [s[0]] + RemoveFirst(s[1..], x)
  }

  /** Cutting position `k` out of `s` is keeping its head and cutting
      position `k - 1` out of its tail. */
  lemma CutAtTail<T>(s: seq<T>, k: nat)
    requires 0 < k < |s|
    ensures [s[0]] + (s[1..][..k - 1] + s[1..][k..]) == s[..k] + s[k + 1..]
  {
  }

  /** When position `k` holds the first occurrence of its element, removing
      that element cuts out position `k` and keeps the rest in order. */
  lemma {:induction false} RemoveFirstAt<T>(s: seq<T>, k: nat)
    requires k < |s| && forall j | 0 <= j < k :: s[j] != s[k]
    ensures RemoveFirst(s, s[k]) == s[..k] + s[k + 1..]
  {
    if k > 0 {
      var t := s[1..];
      assert t[k - 1] == s[k] && s[0] != s[k];
      forall j | 0 <= j < k - 1 ensures t[j] != t[k - 1] {
        assert t[j] == s[j + 1];
      }
      RemoveFirstAt(t, k - 1);
      CutAtTail(s, k);
    }
  }
}
