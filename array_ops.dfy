/** The JavaScript array operations the components build their updates from:
    `findIndex`, `find`, `filter`, `splice`, `map` and assignment by index.
    Every one returns a new sequence; the components never alias a list. */
module ArrayOps {
  import opened Types

  /** `s.findIndex(p)`: the lowest index whose element satisfies `p`, `None` for -1. */
  function FindIndex<T>(s: seq<T>, p: T -> bool): (r: Option<nat>)
    ensures r.Some? ==> r.value < |s| && p(s[r.value])
    ensures r.Some? ==> forall j :: 0 <= j < r.value ==> !p(s[j])
    ensures r.None? <==> forall j :: 0 <= j < |s| ==> !p(s[j])
  {
    if |s| == 0 then None
    else if p(s[0]) then Some(0)
    else
      match FindIndex(s[1..], p)
      case None => None
      case Some(i) => Some(i + 1)
  }

  /** `s.find(p)`: the first element satisfying `p`. */
  function Find<T>(s: seq<T>, p: T -> bool): (r: Option<T>)
    ensures r.Some? <==> exists j :: 0 <= j < |s| && p(s[j])
    ensures r.Some? ==> p(r.value) && r.value in s
    ensures r.Some? ==>
      exists i :: (0 <= i < |s| && s[i] == r.value &&
                   forall j :: 0 <= j < i ==> !p(s[j]))
  {
    match FindIndex(s, p)
    case None => None
    case Some(i) => Some(s[i])
  }

  /** `s.filter((_, j) => j !== i)`: drop the element at index `i`. */
  function RemoveAt<T>(s: seq<T>, i: nat): (r: seq<T>)
    requires i < |s|
    ensures |r| == |s| - 1
    ensures forall j :: 0 <= j < i ==> r[j] == s[j]
    ensures forall j :: i <= j < |r| ==> r[j] == s[j + 1]
  {
    s[..i] + s[i + 1..]
  }

  /** `copy.splice(i, 0, v)`: insert `v` before index `i`; a start past the end
      is clamped to the length, as `splice` does. */
  function InsertAt<T>(s: seq<T>, i: nat, v: T): (r: seq<T>)
    ensures |r| == |s| + 1
    ensures var at := if i <= |s| then i else |s|;
      r[at] == v &&
      (forall j :: 0 <= j < at ==> r[j] == s[j]) &&
      (forall j :: at < j < |r| ==> r[j] == s[j - 1])
  {
    var at := if i <= |s| then i else |s|;
    s[..at] + [v] + s[at..]
  }

  /** `copy[k] = v`. An index inside the list replaces one element and an index
      equal to the length appends. JavaScript would leave holes for an index
      past the end; the model keeps the list unchanged then. */
  function WriteAt<T>(s: seq<T>, k: nat, v: T): (r: seq<T>)
    ensures k < |s| ==> |r| == |s| && r[k] == v && forall j :: 0 <= j < |s| && j != k ==> r[j] == s[j]
    ensures k == |s| ==> r == s + [v]
    ensures k > |s| ==> r == s
  {
    if k < |s| then s[k := v] else if k == |s| then s + [v] else s
  }

  /** `s.filter(keep)`: the kept elements, in their original order. */
  function Filter<T(!new)>(s: seq<T>, keep: T -> bool): (r: seq<T>)
    ensures |r| <= |s|
    ensures forall j :: 0 <= j < |r| ==> keep(r[j])
    ensures forall v :: multiset(r)[v] == if keep(v) then multiset(s)[v] else 0
  {
    if |s| == 0 then []
    else
      assert s == [s[0]] + s[1..];
      var rest := Filter(s[1..], keep);
      if keep(s[0]) then [s[0]] + rest else rest
  }

  /** `s.map(e => sel(e) ? f(e) : e)`: rewrite the selected elements in place. */
  function MapWhere<T>(s: seq<T>, sel: T -> bool, f: T -> T): (r: seq<T>)
    ensures |r| == |s|
    ensures forall j :: 0 <= j < |s| ==> r[j] == if sel(s[j]) then f(s[j]) else s[j]
  {
    seq(|s|, j requires 0 <= j < |s| => if sel(s[j]) then f(s[j]) else s[j])
  }

  /** Removing the element at `i` and splicing it back in at `i` restores the list. */
  lemma {:induction false} InsertRemoveRoundTrip<T>(s: seq<T>, i: nat)
    requires i < |s|
    ensures InsertAt(RemoveAt(s, i), i, s[i]) == s
  {
    var r := InsertAt(RemoveAt(s, i), i, s[i]);
    assert |r| == |s|;
    forall j | 0 <= j < |s| ensures r[j] == s[j] {
    }
  }

  /** Splicing `v` in at `i` and then removing index `i` restores the list. */
  lemma {:induction false} RemoveInsertRoundTrip<T>(s: seq<T>, i: nat, v: T)
    requires i <= |s|
    ensures RemoveAt(InsertAt(s, i, v), i) == s
  {
    var r := RemoveAt(InsertAt(s, i, v), i);
    assert |r| == |s|;
    forall j | 0 <= j < |s| ensures r[j] == s[j] {
    }
  }

  /** Filtering keeps the relative order: what a filter returns is an
      order-preserving selection of the input (a subsequence). */
  ghost predicate Subsequence<T>(r: seq<T>, s: seq<T>)
    decreases |s|
  {
    if |r| == 0 then true
    else if |s| == 0 then false
    else if r[0] == s[0] then Subsequence(r[1..], s[1..])
    else Subsequence(r, s[1..])
  }

  lemma {:induction false} FilterKeepsOrder<T(!new)>(s: seq<T>, keep: T -> bool)
    ensures Subsequence(Filter(s, keep), s)
  {
    if |s| > 0 {
      FilterKeepsOrder(s[1..], keep);
      var rest := Filter(s[1..], keep);
      if keep(s[0]) {
        assert Filter(s, keep) == [s[0]] + rest;
        assert ([s[0]] + rest)[1..] == rest;
      } else {
        SubsequenceSkipHead(rest, s);
      }
    }
  }

  lemma {:induction false} SubsequenceSkipHead<T>(r: seq<T>, s: seq<T>)
    requires |s| > 0
    requires Subsequence(r, s[1..])
    ensures Subsequence(r, s)
    decreases |s|, 0
  {
    if |r| > 0 && r[0] == s[0] {
      SubsequenceDropHead(r, s[1..]);
    }
  }

  lemma {:induction false} SubsequenceDropHead<T>(r: seq<T>, s: seq<T>)
    requires |r| > 0
    requires Subsequence(r, s)
    ensures Subsequence(r[1..], s)
    decreases |s|, 1
  {
    if |s| > 0 {
      if r[0] != s[0] {
        SubsequenceDropHead(r, s[1..]);
      }
      SubsequenceSkipHead(r[1..], s);
    }
  }
}
