// Circular doubly linked lists threaded through their nodes, with a dummy head
// (the lists of util/cache.cc and db/snapshot.h). The link memory is a map for
// each of the two fields; several lists may share it.
module Rings {

  // Node i of a ring: the head, then the items, then the head again.
  function At<N>(head: N, items: seq<N>, i: nat): N
    requires i <= |items| + 1
  {
    if i == 0 || i == |items| + 1 then head else items[i - 1]
  }

  ghost predicate NoRepeats<N>(head: N, items: seq<N>) {
    head !in items && forall i, j :: 0 <= i < j < |items| ==> items[i] != items[j]
  }

  // The links go round from the head over the items, both ways.
  ghost predicate IsRing<N>(next: map<N, N>, prev: map<N, N>, head: N, items: seq<N>) {
    && NoRepeats(head, items)
    && forall i :: 0 <= i <= |items| ==> Joined(next, prev, head, items, i)
  }

  // Node i and the one after it point at each other.
  ghost predicate Joined<N>(next: map<N, N>, prev: map<N, N>, head: N, items: seq<N>, i: nat)
    requires i <= |items|
  {
    var a, b := At(head, items, i), At(head, items, i + 1);
    a in next && next[a] == b && b in prev && prev[b] == a
  }

  function Without<N>(items: seq<N>, i: nat): seq<N>
    requires i < |items|
  {
    items[..i] + items[i + 1..]
  }

  // e->next->prev = e->prev; e->prev->next = e->next.
  method Unlink<N>(next: map<N, N>, prev: map<N, N>, e: N, ghost head: N, ghost items: seq<N>, ghost i: nat)
    returns (next': map<N, N>, prev': map<N, N>)
    requires IsRing(next, prev, head, items) && i < |items| && items[i] == e
    ensures IsRing(next', prev', head, Without(items, i))
    ensures SameElsewhere(next, next', head, items) && SameElsewhere(prev, prev', head, items)
  {
    Neighbours(next, prev, head, items, i);
    prev' := prev[next[e] := prev[e]];
    next' := next[prev[e] := next[e]];
    UnlinkKeeps(next, prev, head, items, i);
  }

  // Inserts e just before the head.
  method Append<N>(next: map<N, N>, prev: map<N, N>, list: N, e: N, ghost items: seq<N>)
    returns (next': map<N, N>, prev': map<N, N>)
    requires IsRing(next, prev, list, items) && e != list && e !in items
    ensures IsRing(next', prev', list, items + [e])
    ensures SameElsewhere(next, next', list, items + [e]) && SameElsewhere(prev, prev', list, items + [e])
  {
    LastIsBeforeHead(next, prev, list, items);
    next' := next[e := list];
    prev' := prev[e := prev[list]];
    next' := next'[prev'[e] := e];
    prev' := prev'[next'[e] := e];
    AppendKeeps(next, prev, list, e, items);
  }

  // Only links of the ring's own nodes have changed.
  ghost predicate SameElsewhere<N>(links: map<N, N>, links': map<N, N>, head: N, items: seq<N>) {
    forall n :: n in links && n != head && n !in items ==> n in links' && links'[n] == links[n]
  }

  lemma OtherRing<N>(next: map<N, N>, prev: map<N, N>, next': map<N, N>, prev': map<N, N>, head: N, items: seq<N>,
      head': N, items': seq<N>)
    requires IsRing(next, prev, head, items)
    requires SameElsewhere(next, next', head', items') && SameElsewhere(prev, prev', head', items')
    requires head != head' && head !in items' && head' !in items && forall n :: n in items ==> n !in items'
    ensures IsRing(next', prev', head, items)
  {
    forall i | 0 <= i <= |items| ensures Joined(next', prev', head, items, i) {
      assert Joined(next, prev, head, items, i);
      assert At(head, items, i) != head' && At(head, items, i) !in items';
      assert At(head, items, i + 1) != head' && At(head, items, i + 1) !in items';
    }
  }

  lemma Neighbours<N>(next: map<N, N>, prev: map<N, N>, head: N, items: seq<N>, i: nat)
    requires IsRing(next, prev, head, items) && i < |items|
    ensures items[i] in next && next[items[i]] == At(head, items, i + 2)
    ensures items[i] in prev && prev[items[i]] == At(head, items, i)
    ensures At(head, items, i) == head || At(head, items, i) in items
    ensures At(head, items, i + 2) == head || At(head, items, i + 2) in items
  {
    assert Joined(next, prev, head, items, i) && Joined(next, prev, head, items, i + 1);
  }

  lemma LastIsBeforeHead<N>(next: map<N, N>, prev: map<N, N>, head: N, items: seq<N>)
    requires IsRing(next, prev, head, items)
    ensures head in prev && prev[head] == At(head, items, |items|) && head in next
    ensures prev[head] == head || prev[head] in items
  {
    assert Joined(next, prev, head, items, |items|) && Joined(next, prev, head, items, 0);
  }

  lemma FirstIsAfterHead<N>(next: map<N, N>, prev: map<N, N>, head: N, items: seq<N>)
    requires IsRing(next, prev, head, items)
    ensures head in next && next[head] == if items == [] then head else items[0]
  {
    assert Joined(next, prev, head, items, 0);
  }

  lemma UnlinkKeeps<N>(next: map<N, N>, prev: map<N, N>, head: N, items: seq<N>, i: nat)
    requires IsRing(next, prev, head, items) && i < |items|
    requires items[i] in next && items[i] in prev
    ensures var e := items[i]; IsRing(next[prev[e] := next[e]], prev[next[e] := prev[e]], head, Without(items, i))
  {
    var e, rest := items[i], Without(items, i);
    Neighbours(next, prev, head, items, i);
    var next', prev' := next[prev[e] := next[e]], prev[next[e] := prev[e]];
    assert NoRepeats(head, rest);
    forall k | 0 <= k <= |rest| ensures Joined(next', prev', head, rest, k) {
      // Node k of the rest is node k or k + 1 of the ring.
      var a, b := if k <= i then k else k + 1, if k < i then k + 1 else k + 2;
      assert At(head, rest, k) == At(head, items, a) && At(head, rest, k + 1) == At(head, items, b);
      DistinctNodes(head, items, a, i);
      DistinctNodes(head, items, b - 1, i + 1);
      assert Joined(next, prev, head, items, a) && Joined(next, prev, head, items, b - 1);
    }
  }

  // Different places, different nodes; the ends coincide.
  lemma DistinctNodes<N>(head: N, items: seq<N>, a: nat, b: nat)
    requires NoRepeats(head, items) && a <= |items| && b <= |items|
    ensures At(head, items, a) == At(head, items, b) <==> a == b
    ensures At(head, items, a + 1) == At(head, items, b + 1) <==> a == b
  {
  }

  lemma AppendKeeps<N>(next: map<N, N>, prev: map<N, N>, head: N, e: N, items: seq<N>)
    requires IsRing(next, prev, head, items) && e != head && e !in items
    requires head in prev
    ensures IsRing(next[e := head][prev[head] := e], prev[e := prev[head]][head := e], head, items + [e])
  {
    var all, last := items + [e], prev[head];
    LastIsBeforeHead(next, prev, head, items);
    var next', prev' := next[e := head][last := e], prev[e := last][head := e];
    assert NoRepeats(head, all);
    forall k | 0 <= k <= |all| ensures Joined(next', prev', head, all, k) {
      if k < |items| {
        assert Joined(next, prev, head, items, k);
        assert At(head, all, k) == At(head, items, k) && At(head, all, k + 1) == At(head, items, k + 1);
        DistinctNodes(head, items, k, |items|);
      } else if k == |items| {
        assert At(head, all, k) == At(head, items, k) == last;
      }
    }
  }
}
