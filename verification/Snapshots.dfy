// The list of live snapshots, oldest first (db/snapshot.h).
module Snapshots {
  import opened Keys
  import opened Rings

  datatype Node = Head | Snapshot(id: nat, sn: nat)

  class SnapshotList {
    var next: map<Node, Node>
    var prev: map<Node, Node>
    var created: nat
    ghost var items: seq<Node>

    ghost predicate Ok()
      reads this
    {
      && IsRing(next, prev, Head, items)
      && (forall i :: 0 <= i < |items| ==> items[i].Snapshot? && items[i].id < created)
      && forall i, j :: 0 <= i < j < |items| ==> items[i].sn <= items[j].sn
    }

    constructor ()
      ensures Ok() && items == []
    {
      next, prev, created, items := map[Head := Head], map[Head := Head], 0, [];
    }

    method Empty() returns (r: bool)
      requires Ok()
      ensures r <==> items == []
    {
      FirstIsAfterHead(next, prev, Head, items);
      r := next[Head] == Head;
    }

    // The sequence number compaction may not disturb anything at or below.
    method Oldest() returns (s: Node)
      requires Ok() && items != []
      ensures s == items[0] && forall i :: 0 <= i < |items| ==> s.sn <= items[i].sn
    {
      FirstIsAfterHead(next, prev, Head, items);
      s := next[Head];
    }

    method Newest() returns (s: Node)
      requires Ok() && items != []
      ensures s == items[|items| - 1] && forall i :: 0 <= i < |items| ==> items[i].sn <= s.sn
    {
      LastIsBeforeHead(next, prev, Head, items);
      s := prev[Head];
    }

    method New(sn: nat) returns (s: Node)
      requires Ok() && (items == [] || items[|items| - 1].sn <= sn)
      modifies this
      ensures Ok() && s.Snapshot? && s.sn == sn && s !in old(items) && items == old(items) + [s]
    {
      s := Snapshot(created, sn);
      created := created + 1;
      next, prev := Append(next, prev, Head, s, items);
      items := items + [s];
    }

    method Delete(s: Node)
      requires Ok() && s in items
      modifies this
      ensures Ok() && s !in items
      ensures exists i :: 0 <= i < |old(items)| && old(items)[i] == s && items == Without(old(items), i)
    {
      ghost var i :| 0 <= i < |items| && items[i] == s;
      next, prev := Unlink(next, prev, s, Head, items, i);
      items := Without(items, i);
    }
  }
}
