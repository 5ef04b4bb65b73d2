// The default comparator: byte strings in memcmp order, a prefix first
// (util/comparator.cc, Slice::compare), with the shortened keys that index
// blocks use.
module Bytewise {
  import opened Keys

  predicate Before(a: Bytes, b: Bytes) {
    b != [] && (a == [] || a[0] < b[0] || (a[0] == b[0] && Before(a[1..], b[1..])))
  }

  // ----- common prefixes -----

  function CommonPrefix(a: Bytes, b: Bytes): (n: nat)
    ensures n <= |a| && n <= |b| && a[..n] == b[..n]
    ensures n < |a| && n < |b| ==> a[n] != b[n]
  {
    if a == [] || b == [] || a[0] != b[0] then 0
    else
      assert a == [a[0]] + a[1..] && b == [b[0]] + b[1..];
      1 + CommonPrefix(a[1..], b[1..])
  }

  lemma {:induction false} CommonPrefixIs(a: Bytes, b: Bytes, n: nat)
    requires n <= |a| && n <= |b| && a[..n] == b[..n] && (n < |a| && n < |b| ==> a[n] != b[n])
    ensures CommonPrefix(a, b) == n
  {
    var m := CommonPrefix(a, b);
    hide CommonPrefix;
    assert forall k :: 0 <= k < n ==> a[k] == a[..n][k] == b[..n][k] == b[k];
    assert forall k :: 0 <= k < m ==> a[k] == a[..m][k] == b[..m][k] == b[k];
  }

  // The loop that compares two keys byte by byte.
  method SharedLength(lastKey: Bytes, key: Bytes) returns (shared: nat)
    ensures shared == CommonPrefix(lastKey, key)
  {
    hide CommonPrefix;
    shared := 0;
    var minLength := if |lastKey| < |key| then |lastKey| else |key|;
    while shared < minLength && lastKey[shared] == key[shared]
      invariant shared <= minLength && lastKey[..shared] == key[..shared]
    {
      shared := shared + 1;
    }
    CommonPrefixIs(lastKey, key, shared);
  }

  // ----- a total order, and its place among the reals -----

  lemma {:induction false} Trichotomy(a: Bytes, b: Bytes)
    ensures a == b || Before(a, b) || Before(b, a)
    ensures !(Before(a, b) && Before(b, a)) && !Before(a, a)
  {
    if a != [] {
      Trichotomy(a[1..], a[1..]);
      if b != [] {
        Trichotomy(a[1..], b[1..]);
        assert a == [a[0]] + a[1..] && b == [b[0]] + b[1..];
      }
    }
  }

  // Keys read as digits 1 to 256 after the point, in base 257.
  function Rank(b: Bytes): (r: real)
    ensures 0.0 <= r < 1.0
  {
    if b == [] then 0.0 else (b[0] as real + 1.0 + Rank(b[1..])) / 257.0
  }

  // The embedding under which a user key is a real number elsewhere.
  lemma {:induction false} RankIsOrder(a: Bytes, b: Bytes)
    ensures Before(a, b) <==> Rank(a) < Rank(b)
    ensures a == b <==> Rank(a) == Rank(b)
  {
    if a != [] && b != [] {
      RankIsOrder(a[1..], b[1..]);
      assert a == [a[0]] + a[1..] && b == [b[0]] + b[1..];
    }
  }

  lemma BeforeIsTransitive(a: Bytes, b: Bytes, c: Bytes)
    requires Before(a, b) && Before(b, c)
    ensures Before(a, c)
  {
    RankIsOrder(a, b);
    RankIsOrder(b, c);
    RankIsOrder(a, c);
  }

  lemma {:induction false} FirstDifference(a: Bytes, b: Bytes, d: nat)
    requires d <= |a| && d <= |b| && a[..d] == b[..d]
    requires d < |a| && d < |b| ==> a[d] != b[d]
    ensures Before(a, b) <==> d < |b| && (d == |a| || a[d] < b[d])
    ensures Before(b, a) <==> d < |a| && (d == |b| || b[d] < a[d])
  {
    if d > 0 {
      assert a[0] == a[..d][0] && b[0] == b[..d][0];
      assert a[1..][..d - 1] == a[..d][1..] && b[1..][..d - 1] == b[..d][1..];
      FirstDifference(a[1..], b[1..], d - 1);
    }
  }

  method Compare(a: Bytes, b: Bytes) returns (r: int)
    ensures r < 0 <==> Before(a, b)
    ensures r > 0 <==> Before(b, a)
    ensures r == 0 <==> a == b
  {
    var d := SharedLength(a, b);
    FirstDifference(a, b, d);
    Trichotomy(a, b);
    if d < |a| && d < |b| {
      r := a[d] as int - b[d] as int;
    } else {
      r := if |a| < |b| then -1 else if |a| > |b| then 1 else 0;
      assert r == 0 ==> a[..d] == a && b[..d] == b;
    }
  }

  // ----- shortened keys -----

  // A key that separates start from limit, no longer than start. Left alone
  // when one is a prefix of the other, or start is not below limit, or their
  // first different bytes are neighbours.
  method FindShortestSeparator(start: Bytes, limit: Bytes) returns (r: Bytes)
    ensures r == start || (Before(start, r) && Before(r, limit) && |r| <= |start|)
    ensures var d := CommonPrefix(start, limit);
      if d < |start| && d < |limit| && start[d] as int + 1 < limit[d] as int then
        |r| == d + 1 && r[..d] == start[..d] && r[d] as int == start[d] as int + 1
      else
        r == start
  {
    hide CommonPrefix;
    r := start;
    var d := SharedLength(start, limit);
    if d < |start| && d < |limit| {
      var diff := start[d];
      if diff < 0xff && diff + 1 < limit[d] {
        r := start[..d] + [diff + 1];
        FirstDifference(start, r, d);
        assert r[..d] == start[..d] == limit[..d];
        FirstDifference(r, limit, d);
      }
    }
  }

  ghost predicate AllOnes(b: Bytes) {
    forall i :: 0 <= i < |b| ==> b[i] == 0xff
  }

  // The least of the shortest keys above `key`, by raising its first byte that
  // can be raised; a run of 0xff stays.
  method FindShortSuccessor(key: Bytes) returns (r: Bytes)
    ensures AllOnes(key) ==> r == key
    ensures !AllOnes(key) ==> Before(key, r) && |r| <= |key|
    ensures !AllOnes(key) ==> forall s :: Before(key, s) ==> |r| < |s| || (|r| == |s| && !Before(s, r))
  {
    r := key;
    for i := 0 to |key|
      invariant r == key && AllOnes(key[..i])
    {
      if key[i] != 0xff {
        r := key[..i] + [key[i] + 1];
        FirstDifference(key, r, i);
        forall s | Before(key, s) ensures |r| < |s| || (|r| == |s| && !Before(s, r)) {
          SuccessorIsLeast(key, i, s);
        }
        return;
      }
      assert forall j :: 0 <= j < i ==> key[..i + 1][j] == key[..i][j];
    }
    assert key[..|key|] == key;
  }

  lemma {:induction false} SuccessorIsLeast(key: Bytes, i: nat, s: Bytes)
    requires i < |key| && key[i] != 0xff && AllOnes(key[..i]) && Before(key, s)
    ensures i < |s| && (|s| == i + 1 ==> !Before(s, key[..i] + [key[i] + 1]))
  {
    var r := key[..i] + [key[i] + 1];
    var d := CommonPrefix(key, s);
    hide CommonPrefix, Before;
    FirstDifference(key, s, d);
    assert d >= i by { OnesKept(key, i); }
    if |s| == i + 1 {
      assert s[..i] == s[..d][..i] == key[..d][..i] == r[..i];
      if s[i] == r[i] {
        assert s == s[..i] + [s[i]] == r;
        Trichotomy(s, s);
      } else {
        FirstDifference(s, r, i);
      }
    }
  }

  lemma OnesKept(key: Bytes, i: nat)
    requires i <= |key| && AllOnes(key[..i])
    ensures forall j :: 0 <= j < i ==> key[j] == 0xff
  {
    assert forall j :: 0 <= j < i ==> key[j] == key[..i][j];
  }
}
