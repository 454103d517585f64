/** The three operations of Python's built-in list that the board handlers
    use: `pop(i)`, `insert(i, x)` and `remove(x)`, with Python's rules for
    negative and out-of-range indices. */
module PyList {
  import opened Wrappers

  /** The position that `pop(i)` removes from a list of length n. A negative i
      counts from the end; None where Python raises IndexError. */
  function PopIndex(i: int, n: nat): (k: Option<nat>)
    ensures k.Some? <==> 0 <= i + n && i < n
    ensures k.Some? ==> k.value < n && (k.value == i || k.value == i + n)
  {
    if 0 <= i < n then Some(i)
    else if i < 0 && 0 <= i + n then Some(i + n)
    else None
  }

  /** The position at which `insert(i, x)` places x in a list of length n.
      A negative i counts from the end; an index past either end is clamped
      to that end instead of failing. */
  function InsertIndex(i: int, n: nat): (p: nat)
    ensures p <= n
    ensures 0 <= i <= n ==> p == i
    ensures n < i ==> p == n
    ensures i < 0 <= i + n ==> p == i + n
    ensures i + n < 0 ==> p == 0
  {
    if i < 0 then (if i + n < 0 then 0 else i + n)
    else if n < i then n
    else i
  }

  /** The list after `insert(i, x)`: x sits at InsertIndex(i, |s|), the
      elements before it are unchanged and the ones from there on shift up. */
  function Insert<T>(s: seq<T>, i: int, x: T): (r: seq<T>)
    ensures var p := InsertIndex(i, |s|);
      |r| == |s| + 1 && r[p] == x && r[..p] == s[..p] && r[p + 1..] == s[p..]
    ensures multiset(r) == multiset(s) + multiset{x}
  {
    var p := InsertIndex(i, |s|);
    assert s == s[..p] + s[p..];
    s[..p] + [x] + s[p..]
  }

  /** The list after `pop` has taken out the element at position k. */
  function Without<T>(s: seq<T>, k: nat): (r: seq<T>)
    requires k < |s|
    ensures |r| == |s| - 1 && r[..k] == s[..k] && r[k..] == s[k + 1..]
    ensures multiset(s) == multiset(r) + multiset{s[k]}
  {
    assert s == s[..k] + [s[k]] + s[k + 1..];
    s[..k] + s[k + 1..]
  }

  /** The list after `remove(x)`: the first element equal to x is dropped.
      Python raises ValueError when x is absent; the handler never calls it so. */
  function RemoveFirst<T(==)>(s: seq<T>, x: T): (r: seq<T>)
    requires x in s
    ensures |r| == |s| - 1
    ensures multiset(s) == multiset(r) + multiset{x}
  {
    if s[0] == x then
      assert s == [s[0]] + s[1..];
      s[1..]
    else
      assert s == [s[0]] + s[1..];
      [s[0]] + RemoveFirst(s[1..], x)
  }

  /** `remove(x)` drops exactly the element at the first position holding x. */
  lemma {:induction false} RemoveFirstAt<T>(s: seq<T>, x: T, k: nat)
    requires k < |s| && s[k] == x
    requires forall m :: 0 <= m < k ==> s[m] != x
    ensures RemoveFirst(s, x) == Without(s, k)
  {
    if k > 0 {
      RemoveFirstAt(s[1..], x, k - 1);
      assert Without(s, k) == [s[0]] + Without(s[1..], k - 1);
    }
  }

  /** Inserting a popped element back at the position it was popped from
      restores the list. */
  lemma InsertWithout<T>(s: seq<T>, k: nat)
    requires k < |s|
    ensures InsertIndex(k, |s| - 1) == k
    ensures Insert(Without(s, k), k, s[k]) == s
  {
    var w := Without(s, k);
    assert Insert(w, k, s[k]) == s[..k] + [s[k]] + s[k + 1..];
    assert s == s[..k] + [s[k]] + s[k + 1..];
  }

  /** Popping at a non-negative in-range insertion index takes back the
      inserted element and restores the list. */
  lemma WithoutInsert<T>(s: seq<T>, j: nat, x: T)
    requires j <= |s|
    ensures PopIndex(j, |s| + 1) == Some(j)
    ensures Insert(s, j, x)[j] == x
    ensures Without(Insert(s, j, x), j) == s
  {
    var t := Insert(s, j, x);
    assert Without(t, j) == s[..j] + s[j..];
    assert s == s[..j] + s[j..];
  }
}
