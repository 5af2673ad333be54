// Doubly linked lists whose links are indices into a table, with `end` as the null index: the shape of
// the buddy free lists (kernel/kernel/pmm.c) and of the allocator lists (kernel/kernel/kmm.c).

module Links {
  import opened Basics

  // A store to a table; a store past the modelled memory leaves it alone.
  function Store(s: seq<nat>, i: nat, v: nat): (r: seq<nat>)
    ensures |r| == |s|
  {
    if i < |s| then s[i := v] else s
  }

  function At(s: seq<nat>, k: nat, end: nat): nat {
    if k < |s| then s[k] else end
  }

  ghost predicate NextLinks(next: seq<nat>, head: nat, end: nat, s: seq<nat>) {
    && head == At(s, 0, end)
    && (forall k :: 0 <= k < |s| ==> s[k] < end && s[k] < |next|)
    && (forall k :: 0 <= k < |s| ==> next[s[k]] == At(s, k + 1, end))
  }

  ghost predicate PrevLinks(prev: seq<nat>, s: seq<nat>) {
    && (forall k :: 0 <= k < |s| ==> s[k] < |prev|)
    && (forall k :: 0 < k < |s| ==> prev[s[k]] == s[k - 1])
  }

  // `s` is what following `next` from `head` visits, and the back links of all but the first agree.
  ghost predicate Chain(prev: seq<nat>, next: seq<nat>, head: nat, end: nat, s: seq<nat>) {
    NextLinks(next, head, end, s) && PrevLinks(prev, s) && Distinct(s)
  }

  // The back link of the first element says that nothing precedes it.
  ghost predicate HeadClean(prev: seq<nat>, end: nat, s: seq<nat>) {
    s != [] ==> s[0] < |prev| && prev[s[0]] == end
  }

  function Without(s: seq<nat>, k: nat): seq<nat>
    requires k < |s|
  {
    s[..k] + s[k + 1..]
  }

  lemma WithoutMembers(s: seq<nat>, k: nat, x: nat)
    requires k < |s| && Distinct(s)
    ensures x in Without(s, k) <==> x in s && x != s[k]
  {
  }

  // Only the links of the listed elements matter.
  lemma ChainStable(prev: seq<nat>, next: seq<nat>, prev': seq<nat>, next': seq<nat>, head: nat, end: nat, s: seq<nat>)
    requires Chain(prev, next, head, end, s)
    requires |prev'| == |prev| && |next'| == |next|
    requires forall x :: x in s ==> next'[x] == next[x] && (x != s[0] ==> prev'[x] == prev[x])
    ensures Chain(prev', next', head, end, s)
  {
  }

  lemma ChainPop(prev: seq<nat>, next: seq<nat>, head: nat, end: nat, s: seq<nat>)
    requires Chain(prev, next, head, end, s) && s != []
    ensures Chain(prev, next, next[head], end, s[1..])
    ensures forall x :: x in s[1..] <==> x in s && x != head
  {
  }

  lemma ChainPush(prev: seq<nat>, next: seq<nat>, prev': seq<nat>, next': seq<nat>, head: nat, end: nat, s: seq<nat>,
          x: nat)
    requires Chain(prev, next, head, end, s)
    requires |prev'| == |prev| && |next'| == |next|
    requires x !in s && x < end && x < |prev| && x < |next| && next'[x] == head
    requires forall y :: y in s ==> next'[y] == next[y] && prev'[y] == (if y == s[0] then x else prev[y])
    ensures Chain(prev', next', x, end, [x] + s)
  {
    var r := [x] + s;
    forall k | 0 <= k < |r|
      ensures r[k] < end && next'[r[k]] == At(r, k + 1, end) && (k > 0 ==> prev'[r[k]] == r[k - 1])
    {
      if k > 0 {
        assert r[k] == s[k - 1] && s[k - 1] in s;
        assert At(r, k + 1, end) == At(s, k, end);
      }
    }
  }

  lemma WithoutAt(s: seq<nat>, k: nat)
    requires k < |s|
    ensures forall j :: 0 <= j < |s| - 1 ==> Without(s, k)[j] == s[if j < k then j else j + 1]
    ensures Distinct(s) ==> Distinct(Without(s, k))
  {
  }

  // Taking the k-th element out; as in the merge loop (kernel/kernel/pmm.c:239-249).
  lemma UnlinkNext(next: seq<nat>, next': seq<nat>, head: nat, head': nat, end: nat, s: seq<nat>, k: nat)
    requires NextLinks(next, head, end, s) && Distinct(s) && k < |s| && |next'| == |next|
    requires head' == if k == 0 then next[s[0]] else head
    requires forall j :: 0 <= j < |s| && j != k ==> next'[s[j]] == if j + 1 == k then next[s[k]] else next[s[j]]
    ensures NextLinks(next', head', end, Without(s, k))
  {
    WithoutAt(s, k);
    assert next[s[k]] == At(s, k + 1, end);
  }

  lemma UnlinkPrev(prev: seq<nat>, prev': seq<nat>, s: seq<nat>, k: nat)
    requires PrevLinks(prev, s) && Distinct(s) && k < |s| && |prev'| == |prev|
    requires forall j :: 0 <= j < |s| && j != k ==> prev'[s[j]] == if j == k + 1 then prev[s[k]] else prev[s[j]]
    ensures PrevLinks(prev', Without(s, k))
  {
  }
}
