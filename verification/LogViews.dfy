// The groups that can be read from the logs, as one ordered run: by log number,
// and within a log by place.
module LogViews {
  import opened Keys
  import opened Recoveries

  type View = map<nat, seq<Group>>

  ghost function Es(g: Group): set<Entry> {
    if GroupOk(g) then EntriesOf(g) else {}
  }

  // The place (m, j) comes before the place (n, i).
  predicate Prior(m: nat, j: nat, n: nat, i: nat) {
    m < n || (m == n && j < i)
  }

  // The entries of the logs from lo on that come before the place (n, i).
  ghost function Upto(v: View, lo: nat, n: nat, i: nat): set<Entry> {
    set m, j, e | m in v && 0 <= j < |v[m]| && lo <= m && Prior(m, j, n, i) && e in Es(v[m][j]) :: e
  }

  // The entries at the place (n, i) and after it.
  ghost function Onward(v: View, n: nat, i: nat): set<Entry> {
    set m, j, e | m in v && 0 <= j < |v[m]| && !Prior(m, j, n, i) && e in Es(v[m][j]) :: e
  }

  // From log lo on, sequence numbers rise from group to group.
  ghost predicate Ordered(v: View, lo: nat) {
    forall m, j, n, i :: m in v && n in v && lo <= m && 0 <= j < |v[m]| && 0 <= i < |v[n]| && Prior(m, j, n, i) ==>
      LastOf(v[m][j]) < v[n][i].sn
  }

  ghost predicate Before(a: set<Entry>, b: set<Entry>) {
    forall x, y :: x in a && y in b ==> x.key.sn < y.key.sn
  }

  // All entries come before the groups of the logs from lo on.
  ghost predicate Older(es: set<Entry>, v: View, lo: nat) {
    forall e, m, j :: e in es && m in v && lo <= m && 0 <= j < |v[m]| ==> e.key.sn < v[m][j].sn
  }

  // No group from lo on reaches past this sequence number.
  ghost predicate Bounded(v: View, lo: nat, last: nat) {
    forall m, j :: m in v && lo <= m && 0 <= j < |v[m]| ==> LastOf(v[m][j]) <= last
  }

  ghost predicate NoneAfter(v: View, n: nat) {
    forall m :: m in v ==> m <= n
  }

  lemma EsFacts(g: Group, e: Entry)
    requires e in Es(g)
    ensures g.sn <= e.key.sn <= LastOf(g)
    ensures forall f :: f in Es(g) && f.key.sn == e.key.sn ==> f == e
  {
    GroupFacts(g);
  }

  lemma Placed(v: View, m: nat, j: nat, e: Entry)
    requires m in v && j < |v[m]| && e in Es(v[m][j])
    ensures forall lo: nat, n: nat, i: nat :: lo <= m && Prior(m, j, n, i) ==> e in Upto(v, lo, n, i)
    ensures forall n: nat, i: nat :: !Prior(m, j, n, i) ==> e in Onward(v, n, i)
  {
  }

  lemma PlaceUpto(v: View, lo: nat, n: nat, i: nat, e: Entry) returns (m: nat, j: nat)
    requires e in Upto(v, lo, n, i)
    ensures m in v && j < |v[m]| && lo <= m && Prior(m, j, n, i) && e in Es(v[m][j])
  {
    m, j :| m in v && 0 <= j < |v[m]| && lo <= m && Prior(m, j, n, i) && e in Es(v[m][j]);
  }

  lemma PlaceOnward(v: View, n: nat, i: nat, e: Entry) returns (m: nat, j: nat)
    requires e in Onward(v, n, i)
    ensures m in v && j < |v[m]| && !Prior(m, j, n, i) && e in Es(v[m][j])
  {
    m, j :| m in v && 0 <= j < |v[m]| && !Prior(m, j, n, i) && e in Es(v[m][j]);
  }

  // ----- order -----

  lemma Split(v: View, lo: nat, n: nat, i: nat)
    requires lo <= n
    ensures Onward(v, lo, 0) == Upto(v, lo, n, i) + Onward(v, n, i)
  {
    hide Es;
    forall e ensures e in Onward(v, lo, 0) <==> e in Upto(v, lo, n, i) + Onward(v, n, i) {
      if e in Onward(v, lo, 0) {
        var m, j := PlaceOnward(v, lo, 0, e);
        Placed(v, m, j, e);
      }
      if e in Upto(v, lo, n, i) {
        var m, j := PlaceUpto(v, lo, n, i, e);
        Placed(v, m, j, e);
      }
      if e in Onward(v, n, i) {
        var m, j := PlaceOnward(v, n, i, e);
        Placed(v, m, j, e);
      }
    }
  }

  lemma UptoBeforeOnward(v: View, lo: nat, n: nat, i: nat)
    requires Ordered(v, lo)
    ensures Before(Upto(v, lo, n, i), Onward(v, n, i))
  {
    hide Es;
    forall x, y | x in Upto(v, lo, n, i) && y in Onward(v, n, i) ensures x.key.sn < y.key.sn {
      var m, j := PlaceUpto(v, lo, n, i, x);
      var k, l := PlaceOnward(v, n, i, y);
      EsFacts(v[m][j], x);
      EsFacts(v[k][l], y);
    }
  }

  lemma OlderBefore(es: set<Entry>, v: View, lo: nat, n: nat, i: nat)
    requires Older(es, v, lo) && lo <= n
    ensures Before(es, Onward(v, n, i))
    ensures Before(es, Upto(v, lo, n, i))
  {
    hide Es;
    forall x, y | x in es && (y in Onward(v, n, i) || y in Upto(v, lo, n, i)) ensures x.key.sn < y.key.sn {
      var m, j;
      if y in Onward(v, n, i) {
        m, j := PlaceOnward(v, n, i, y);
      } else {
        m, j := PlaceUpto(v, lo, n, i, y);
      }
      EsFacts(v[m][j], y);
    }
  }

  // No sequence number is used twice in the logs.
  lemma LogsDistinct(v: View, lo: nat)
    requires Ordered(v, lo)
    ensures Distinct(Onward(v, lo, 0))
  {
    hide Es;
    forall x, y | x in Onward(v, lo, 0) && y in Onward(v, lo, 0) && x.key.sn == y.key.sn ensures x == y {
      var m, j := PlaceOnward(v, lo, 0, x);
      var k, l := PlaceOnward(v, lo, 0, y);
      EsFacts(v[m][j], x);
      EsFacts(v[k][l], y);
      assert Prior(m, j, k, l) || Prior(k, l, m, j) || (m == k && j == l);
    }
  }

  lemma Narrower(v: View, lo: nat, lo': nat, es: set<Entry>, last: nat)
    requires lo <= lo'
    ensures Ordered(v, lo) ==> Ordered(v, lo')
    ensures Older(es, v, lo) ==> Older(es, v, lo')
    ensures Bounded(v, lo, last) ==> Bounded(v, lo', last)
  {
    hide LastOf;
  }

  lemma UptoOlder(v: View, lo: nat, n: nat)
    requires Ordered(v, lo)
    ensures Older(Upto(v, lo, n, 0), v, n)
  {
    hide Es;
    forall e, m, j | e in Upto(v, lo, n, 0) && m in v && n <= m && 0 <= j < |v[m]| ensures e.key.sn < v[m][j].sn {
      var k, l := PlaceUpto(v, lo, n, 0, e);
      EsFacts(v[k][l], e);
      assert Prior(k, l, m, j);
    }
  }

  lemma SplitUpto(v: View, lo: nat, n: nat, i: nat)
    requires lo <= n
    ensures Upto(v, lo, n, i) == Upto(v, lo, n, 0) + Upto(v, n, n, i)
  {
    hide Es;
    forall e ensures e in Upto(v, lo, n, i) <==> e in Upto(v, lo, n, 0) + Upto(v, n, n, i) {
      if e in Upto(v, lo, n, i) {
        var k, l := PlaceUpto(v, lo, n, i, e);
        Placed(v, k, l, e);
      }
      if e in Upto(v, lo, n, 0) {
        var k, l := PlaceUpto(v, lo, n, 0, e);
        Placed(v, k, l, e);
      }
      if e in Upto(v, n, n, i) {
        var k, l := PlaceUpto(v, n, n, i, e);
        Placed(v, k, l, e);
      }
    }
  }

  // Entries before the last log are not touched by what settles in it.
  lemma SettledEntries(v: View, n: nat, safe: nat, lo: nat, last: nat)
    requires n in v && safe <= |v[n]| && Bounded(v[n := v[n][..safe]], lo, last)
    ensures forall e :: e in Upto(v, lo, n, 0) ==> e.key.sn <= last
  {
    hide Es;
    forall e | e in Upto(v, lo, n, 0) ensures e.key.sn <= last {
      var m, j := PlaceUpto(v, lo, n, 0, e);
      EsFacts(v[m][j], e);
      assert v[n := v[n][..safe]][m][j] == v[m][j];
    }
  }

  lemma NothingUpto(v: View, n: nat)
    ensures Upto(v, n, n, 0) == {}
  {
  }

  // ----- changes -----

  lemma AppendGroup(v: View, n: nat, g: Group, lo: nat, m: nat, i: nat)
    requires n in v && (m < n || (m == n && i <= |v[n]|))
    ensures var v' := v[n := v[n] + [g]];
      Onward(v', m, i) == Onward(v, m, i) + Es(g) && Upto(v', lo, m, i) == Upto(v, lo, m, i)
  {
    hide Es;
    var v' := v[n := v[n] + [g]];
    forall e ensures e in Onward(v', m, i) <==> e in Onward(v, m, i) + Es(g) {
      if e in Onward(v', m, i) {
        var k, l := PlaceOnward(v', m, i, e);
        if k != n || l < |v[n]| {
          assert v[k][l] == v'[k][l];
          Placed(v, k, l, e);
        }
      }
      if e in Onward(v, m, i) {
        var k, l := PlaceOnward(v, m, i, e);
        assert v[k][l] == v'[k][l];
        Placed(v', k, l, e);
      }
      if e in Es(g) {
        assert v'[n][|v[n]|] == g;
        Placed(v', n, |v[n]|, e);
      }
    }
    forall e ensures e in Upto(v', lo, m, i) <==> e in Upto(v, lo, m, i) {
      if e in Upto(v', lo, m, i) {
        var k, l := PlaceUpto(v', lo, m, i, e);
        assert v[k][l] == v'[k][l];
        Placed(v, k, l, e);
      }
      if e in Upto(v, lo, m, i) {
        var k, l := PlaceUpto(v, lo, m, i, e);
        assert v[k][l] == v'[k][l];
        Placed(v', k, l, e);
      }
    }
  }

  lemma AppendOrdered(v: View, n: nat, g: Group, lo: nat, last: nat, es: set<Entry>)
    requires n in v && Ordered(v, lo) && Bounded(v, lo, last) && g.sn == last + 1 && NoneAfter(v, n)
    requires Older(es, v, lo) && forall e :: e in es ==> e.key.sn <= last
    ensures Ordered(v[n := v[n] + [g]], lo) && Older(es, v[n := v[n] + [g]], lo)
  {
    hide LastOf, Es;
  }

  lemma NewLog(v: View, n: nat, lo: nat, m: nat, i: nat)
    requires forall k :: k in v ==> k < n
    ensures var v' := v[n := []];
      Onward(v', m, i) == Onward(v, m, i) && Upto(v', lo, m, i) == Upto(v, lo, m, i)
    ensures Upto(v[n := []], lo, n, 0) == Onward(v, lo, 0) && Onward(v[n := []], n, 0) == {}
  {
    hide Es;
    var v' := v[n := []];
    forall e ensures e in Onward(v', m, i) <==> e in Onward(v, m, i) {
      if e in Onward(v', m, i) {
        var k, l := PlaceOnward(v', m, i, e);
        Placed(v, k, l, e);
      }
      if e in Onward(v, m, i) {
        var k, l := PlaceOnward(v, m, i, e);
        Placed(v', k, l, e);
      }
    }
    forall e ensures e in Upto(v', lo, m, i) <==> e in Upto(v, lo, m, i) {
      if e in Upto(v', lo, m, i) {
        var k, l := PlaceUpto(v', lo, m, i, e);
        Placed(v, k, l, e);
      }
      if e in Upto(v, lo, m, i) {
        var k, l := PlaceUpto(v, lo, m, i, e);
        Placed(v', k, l, e);
      }
    }
    forall e ensures e in Upto(v', lo, n, 0) <==> e in Onward(v, lo, 0) {
      if e in Upto(v', lo, n, 0) {
        var k, l := PlaceUpto(v', lo, n, 0, e);
        Placed(v, k, l, e);
      }
      if e in Onward(v, lo, 0) {
        var k, l := PlaceOnward(v, lo, 0, e);
        Placed(v', k, l, e);
      }
    }
  }

  lemma NewLogKeeps(v: View, n: nat, lo: nat, last: nat, es: set<Entry>)
    requires n !in v
    ensures Ordered(v, lo) ==> Ordered(v[n := []], lo)
    ensures Older(es, v, lo) ==> Older(es, v[n := []], lo)
    ensures Bounded(v, lo, last) ==> Bounded(v[n := []], lo, last)
  {
    hide LastOf;
  }

  lemma DropLog(v: View, n: nat, lo: nat, m: nat, i: nat)
    requires n < lo <= m
    ensures Onward(v - {n}, m, i) == Onward(v, m, i) && Upto(v - {n}, lo, m, i) == Upto(v, lo, m, i)
  {
    hide Es;
    var v' := v - {n};
    forall e ensures e in Onward(v', m, i) <==> e in Onward(v, m, i) {
      if e in Onward(v', m, i) {
        var k, l := PlaceOnward(v', m, i, e);
        Placed(v, k, l, e);
      }
      if e in Onward(v, m, i) {
        var k, l := PlaceOnward(v, m, i, e);
        Placed(v', k, l, e);
      }
    }
    forall e ensures e in Upto(v', lo, m, i) <==> e in Upto(v, lo, m, i) {
      if e in Upto(v', lo, m, i) {
        var k, l := PlaceUpto(v', lo, m, i, e);
        Placed(v, k, l, e);
      }
      if e in Upto(v, lo, m, i) {
        var k, l := PlaceUpto(v, lo, m, i, e);
        Placed(v', k, l, e);
      }
    }
  }

  lemma DropKeeps(v: View, n: nat, lo: nat, last: nat, es: set<Entry>)
    ensures Ordered(v, lo) ==> Ordered(v - {n}, lo)
    ensures Older(es, v, lo) ==> Older(es, v - {n}, lo)
    ensures Bounded(v, lo, last) ==> Bounded(v - {n}, lo, last)
  {
    hide LastOf;
  }

  // The last log keeps its first c groups.
  lemma CutLog(v: View, n: nat, c: nat, lo: nat, i: nat)
    requires n in v && c <= |v[n]| && NoneAfter(v, n) && i <= c && lo <= n
    ensures var v' := v[n := v[n][..c]];
      Upto(v', lo, n, i) == Upto(v, lo, n, i) && Onward(v', lo, 0) == Upto(v, lo, n, c)
  {
    hide Es;
    var v' := v[n := v[n][..c]];
    forall e ensures e in Upto(v', lo, n, i) <==> e in Upto(v, lo, n, i) {
      if e in Upto(v', lo, n, i) {
        var k, l := PlaceUpto(v', lo, n, i, e);
        assert v[k][l] == v'[k][l];
        Placed(v, k, l, e);
      }
      if e in Upto(v, lo, n, i) {
        var k, l := PlaceUpto(v, lo, n, i, e);
        assert v[k][l] == v'[k][l];
        Placed(v', k, l, e);
      }
    }
    forall e ensures e in Onward(v', lo, 0) <==> e in Upto(v, lo, n, c) {
      if e in Onward(v', lo, 0) {
        var k, l := PlaceOnward(v', lo, 0, e);
        assert v[k][l] == v'[k][l];
        Placed(v, k, l, e);
      }
      if e in Upto(v, lo, n, c) {
        var k, l := PlaceUpto(v, lo, n, c, e);
        assert v[k][l] == v'[k][l];
        Placed(v', k, l, e);
      }
    }
  }

  lemma CutKeeps(v: View, n: nat, c: nat, lo: nat, last: nat, es: set<Entry>)
    requires n in v && c <= |v[n]|
    ensures Ordered(v, lo) ==> Ordered(v[n := v[n][..c]], lo)
    ensures Older(es, v, lo) ==> Older(es, v[n := v[n][..c]], lo)
  {
    hide LastOf;
  }

  // ----- reading on -----

  lemma OneGroup(v: View, lo: nat, n: nat, i: nat)
    requires n in v && i < |v[n]| && lo <= n
    ensures Upto(v, lo, n, i + 1) == Upto(v, lo, n, i) + Es(v[n][i])
    ensures Onward(v, n, i) == Es(v[n][i]) + Onward(v, n, i + 1)
  {
    hide Es;
    forall e ensures e in Upto(v, lo, n, i + 1) <==> e in Upto(v, lo, n, i) + Es(v[n][i]) {
      if e in Upto(v, lo, n, i + 1) {
        var k, l := PlaceUpto(v, lo, n, i + 1, e);
        Placed(v, k, l, e);
      }
      if e in Upto(v, lo, n, i) {
        var k, l := PlaceUpto(v, lo, n, i, e);
        Placed(v, k, l, e);
      }
      if e in Es(v[n][i]) {
        Placed(v, n, i, e);
      }
    }
    forall e ensures e in Onward(v, n, i) <==> e in Es(v[n][i]) + Onward(v, n, i + 1) {
      if e in Onward(v, n, i) {
        var k, l := PlaceOnward(v, n, i, e);
        Placed(v, k, l, e);
      }
      if e in Onward(v, n, i + 1) {
        var k, l := PlaceOnward(v, n, i + 1, e);
        Placed(v, k, l, e);
      }
      if e in Es(v[n][i]) {
        Placed(v, n, i, e);
      }
    }
  }

  // No group lies between the two places.
  ghost predicate NothingBetween(v: View, n: nat, i: nat, n': nat) {
    && n < n' && (n in v ==> i >= |v[n]|)
    && forall m :: m in v && n < m < n' ==> v[m] == []
  }

  lemma SkipAhead(v: View, lo: nat, n: nat, i: nat, n': nat)
    requires NothingBetween(v, n, i, n')
    ensures Upto(v, lo, n', 0) == Upto(v, lo, n, i) && Onward(v, n', 0) == Onward(v, n, i)
  {
    hide Es;
    forall e ensures e in Upto(v, lo, n', 0) <==> e in Upto(v, lo, n, i) {
      if e in Upto(v, lo, n', 0) {
        var k, l := PlaceUpto(v, lo, n', 0, e);
        Placed(v, k, l, e);
      }
      if e in Upto(v, lo, n, i) {
        var k, l := PlaceUpto(v, lo, n, i, e);
        Placed(v, k, l, e);
      }
    }
    forall e ensures e in Onward(v, n', 0) <==> e in Onward(v, n, i) {
      if e in Onward(v, n', 0) {
        var k, l := PlaceOnward(v, n', 0, e);
        Placed(v, k, l, e);
      }
      if e in Onward(v, n, i) {
        var k, l := PlaceOnward(v, n, i, e);
        Placed(v, k, l, e);
      }
    }
  }

  lemma NothingOnward(v: View, n: nat, i: nat)
    requires forall m :: m in v ==> m < n
    ensures Onward(v, n, i) == {}
  {
  }

  // A log numbered past all others, with nothing in it, is all there is from
  // its number on.
  lemma EmptyTop(v: View, n: nat, es: set<Entry>, last: nat)
    requires forall m :: m in v ==> m < n
    ensures Ordered(v[n := []], n) && Older(es, v[n := []], n) && Bounded(v[n := []], n, last)
  {
  }

  lemma DropSettled(v: View, k: nat, n: nat, safe: nat, lo: nat, last: nat)
    requires k != n && n in v && safe <= |v[n]| && Bounded(v[n := v[n][..safe]], lo, last)
    ensures Bounded((v - {k})[n := v[n][..safe]], lo, last)
  {
    hide LastOf;
    var settled, settled' := v[n := v[n][..safe]], (v - {k})[n := v[n][..safe]];
    forall m, j | m in settled' && lo <= m && 0 <= j < |settled'[m]| ensures LastOf(settled'[m][j]) <= last {
      assert settled[m][j] == settled'[m][j];
    }
  }
}
