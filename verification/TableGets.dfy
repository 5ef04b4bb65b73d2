// A point lookup in a table, from the bytes of the file to the answer that
// Version::Get works with (db/version_set.cc, SaveValue; db/table_cache.cc, Get).
module TableGets {
  import opened Keys
  import opened Blocks
  import opened InternalKeys
  import opened TableRuns
  import opened Tables
  import Bytewise
  import Codings
  import TableBuilders
  import Versions

  // What SaveValue makes of the entry that was found; None stands for a
  // corrupted key.
  method SaveValue(found: Option<Pair>, user: Bytes) returns (r: Option<Versions.Saver>)
    ensures found == None ==> r == Some(Versions.NotFound)
    ensures found.Some? ==>
      match ParseInternalKey(found.value.key)
      case None => r == None
      case Some(p) =>
        r == Some(if p.user != user then Versions.NotFound
                  else if p.kind == Value then Versions.Found(found.value.value) else Versions.Deleted)
  {
    r := Some(Versions.NotFound);
    if found.Some? {
      var parsed := ParseInternalKey(found.value.key);
      if parsed == None {
        r := None;
      } else {
        var c := Bytewise.Compare(parsed.value.user, user);
        if c == 0 {
          r := Some(if parsed.value.kind == Value then Versions.Found(found.value.value) else Versions.Deleted);
        }
      }
    }
  }

  // The place of a lookup key among the bytes is its place among the entries.
  lemma PlaceIs(es: seq<Pair>, user: Bytes, s: Sequence, n: nat)
    requires Legible(es) && n < |es|
    ensures IsLowerBound(es, KeyBefore, LookupInternalKey(user, s), n) <==>
      && (forall k :: 0 <= k < n ==> Less(AbstractEntries(es)[k].key, SeekKey(Bytewise.Rank(user), s)))
      && !Less(AbstractEntries(es)[n].key, SeekKey(Bytewise.Rank(user), s))
  {
    hide KeyBefore, Less, ParseInternalKey, Encode, Bytewise.Rank;
    var key, p := LookupInternalKey(user, s), ParsedKey(user, s, Value);
    InternalKeyRoundTrip(p, key);
    forall k | 0 <= k < |es|
      ensures KeyBefore(es[k].key, key) <==> Less(AbstractEntries(es)[k].key, SeekKey(Bytewise.Rank(user), s))
    {
      assert es[k] in es;
      KeyOrder(es[k].key, key);
    }
  }

  lemma UserKeyIs(b: Bytes, user: Bytes)
    requires ParseInternalKey(b).Some?
    ensures ParseInternalKey(b).value.user == UserPart(b)
    ensures AbstractKey(b).user == Bytewise.Rank(user) <==> UserPart(b) == user
    ensures AbstractKey(b).kind == ParseInternalKey(b).value.kind
  {
    hide Bytewise.Rank;
    Bytewise.RankIsOrder(UserPart(b), user);
  }

  // What SaveValue is to say of an entry that was found.
  function Saved(found: Option<Pair>, user: Bytes): Versions.Saver
    requires found.Some? ==> ParseInternalKey(found.value.key).Some?
  {
    if found == None || ParseInternalKey(found.value.key).value.user != user then Versions.NotFound
    else if ParseInternalKey(found.value.key).value.kind == Value then Versions.Found(found.value.value)
    else Versions.Deleted
  }

  // The first place at or after the lookup key decides the read.
  lemma PlaceDecides(es: seq<Pair>, user: Bytes, s: Sequence, i: nat)
    requires Legible(es) && Keys.Sorted(AbstractEntries(es)) && Distinct(ToSet(AbstractEntries(es)))
    requires i <= |es| && forall k :: 0 <= k < i ==> Less(AbstractEntries(es)[k].key, SeekKey(Bytewise.Rank(user), s))
    requires i < |es| ==> !Less(AbstractEntries(es)[i].key, SeekKey(Bytewise.Rank(user), s))
    ensures Versions.SaverOf(Newest(ToSet(AbstractEntries(es)), Bytewise.Rank(user), s)) ==
      Saved(if i < |es| then Some(es[i]) else None, user)
  {
    hide Less, ParseInternalKey, Bytewise.Rank, Keys.Sorted, Distinct;
    var run, u := AbstractEntries(es), Bytewise.Rank(user);
    SeekDecides(run, u, s, i);
    if i < |es| {
      assert es[i] in es;
      UserKeyIs(es[i].key, user);
      if run[i].key.user == u {
        NewestIs(ToSet(run), u, s, run[i]);
      } else {
        NothingVisible(ToSet(run), u, s);
      }
    } else {
      NothingVisible(ToSet(run), u, s);
    }
  }

  // Any two first places are one.
  lemma OnePlace(es: seq<Pair>, user: Bytes, s: Sequence, i: nat, found: Option<Pair>)
    requires Legible(es) && i <= |es| && Answers(es, LookupInternalKey(user, s), found)
    requires forall k :: 0 <= k < i ==> Less(AbstractEntries(es)[k].key, SeekKey(Bytewise.Rank(user), s))
    requires i < |es| ==> !Less(AbstractEntries(es)[i].key, SeekKey(Bytewise.Rank(user), s))
    ensures found.Some? ==> i < |es| && found.value == es[i]
    ensures i < |es| && UserPart(es[i].key) == user ==> found == Some(es[i])
  {
    hide KeyBefore, Less, ParseInternalKey, Encode, Bytewise.Rank, IsLowerBound;
    var key := LookupInternalKey(user, s);
    EncodedParts(ParsedKey(user, s, Value));
    if found.Some? {
      var n :| 0 <= n < |es| && es[n] == found.value && IsLowerBound(es, KeyBefore, key, n);
      PlaceIs(es, user, s, n);
    }
    if i < |es| {
      PlaceIs(es, user, s, i);
      assert IsFirst(es, key, es[i]);
    }
  }

  // An answer of the table is the read of its entries.
  lemma AnswerDecides(es: seq<Pair>, user: Bytes, s: Sequence, found: Option<Pair>)
    requires Legible(es) && Keys.Sorted(AbstractEntries(es)) && Distinct(ToSet(AbstractEntries(es)))
    requires Answers(es, LookupInternalKey(user, s), found)
    ensures found.Some? ==> found.value in es
    ensures Versions.SaverOf(Newest(ToSet(AbstractEntries(es)), Bytewise.Rank(user), s)) == Saved(found, user)
  {
    hide Less, ParseInternalKey, Bytewise.Rank, Keys.Sorted, Distinct, Answers, Versions.SaverOf;
    var run := AbstractEntries(es);
    var i := Versions.LowerBound(run, SeekKey(Bytewise.Rank(user), s));
    OnePlace(es, user, s, i, found);
    PlaceDecides(es, user, s, i);
    if i < |es| {
      assert es[i] in es;
      UserKeyIs(es[i].key, user);
    }
  }

  lemma {:induction false} AbstractSorted(es: seq<Pair>)
    requires Legible(es) && TableBuilders.Sorted(es)
    ensures Keys.Sorted(AbstractEntries(es)) && forall e :: e in es ==> |e.key| >= 8
  {
    hide KeyBefore, Less, AbstractKey;
    forall i, j | 0 <= i < j < |es| ensures Less(AbstractEntries(es)[i].key, AbstractEntries(es)[j].key) {
      assert es[i] in es && es[j] in es;
      KeyOrder(es[i].key, es[j].key);
    }
  }

  // A table is built from entries, opened and asked for a user key at a
  // snapshot: the answer is the one that Versions.Match gives for a table of
  // these entries.
  method BuildAndMatch(
    es: seq<Pair>, interval: nat, blockSize: nat, policyBits: Option<nat>, hasPolicy: bool, user: Bytes, s: Sequence,
    verify: bool) returns (file: Bytes, r: Option<Versions.Saver>)
    requires interval >= 1 && TableBuilders.Sorted(es) && Legible(es) && Distinct(ToSet(AbstractEntries(es)))
    ensures |file| < Codings.TWO_32 ==>
      r == Some(Versions.SaverOf(Newest(ToSet(AbstractEntries(es)), Bytewise.Rank(user), s)))
  {
    hide TableBuilders.Sorted, Answers, ParseInternalKey, Distinct, Newest, Bytewise.Rank, Versions.SaverOf;
    AbstractSorted(es);
    var found;
    file, found := BuildAndGet(es, interval, blockSize, policyBits, hasPolicy, LookupInternalKey(user, s), verify);
    if |file| < Codings.TWO_32 {
      AnswerDecides(es, user, s, found);
    }
    r := SaveValue(found, user);
  }
}
