// Internal keys as byte strings: the user key, then sequence number and type
// packed into eight bytes (db/dbformat.h, db/dbformat.cc).
module InternalKeys {
  import opened Keys
  import opened Codings
  import Bytewise

  datatype ParsedKey = ParsedKey(user: Bytes, sn: Sequence, kind: Kind)

  // The key as the rest of the model has it.
  function Abstract(p: ParsedKey): InternalKey {
    InternalKey(Bytewise.Rank(p.user), p.sn, p.kind)
  }

  // AppendInternalKey.
  function Encode(p: ParsedKey): (b: Bytes)
    ensures |b| == |p.user| + 8
  {
    p.user + Fixed(Tag(Abstract(p)), 8)
  }

  // Callers pass at least eight bytes; shorter strings get a reading only to
  // keep the order total.
  function UserPart(b: Bytes): (u: Bytes)
    ensures |u| <= |b|
  {
    if |b| < 8 then [] else b[..|b| - 8]
  }

  function TagPart(b: Bytes): nat {
    FixedValue(b[|UserPart(b)|..])
  }

  function ParseInternalKey(b: Bytes): Option<ParsedKey> {
    if |b| < 8 then None else
    var num := TagPart(b);
    LastEight(b);
    if num % 256 == 0 then Some(ParsedKey(UserPart(b), num / 256, Deletion))
    else if num % 256 == 1 then Some(ParsedKey(UserPart(b), num / 256, Value))
    else None
  }

  lemma LastEight(b: Bytes)
    requires |b| >= 8
    ensures TagPart(b) < TWO_64 && TagPart(b) / 256 <= MAX_SEQUENCE
    ensures b == UserPart(b) + Fixed(TagPart(b), 8)
  {
    hide Fixed, FixedValue, Power;
    var last := b[|b| - 8..];
    FixedParse(last);
    PowersOf256();
    assert b[|UserPart(b)|..] == last;
    assert b == UserPart(b) + last;
  }

  // Encoding and parsing are inverse, both ways.
  lemma {:induction false} InternalKeyRoundTrip(p: ParsedKey, b: Bytes)
    ensures ParseInternalKey(Encode(p)) == Some(p)
    ensures ParseInternalKey(b) == Some(p) ==> b == Encode(p)
  {
    hide Fixed, FixedValue;
    var t := Tag(Abstract(p));
    EncodedParts(p);
    RemainderIs(t, 256, p.sn, if p.kind == Deletion then 0 else 1);
    if ParseInternalKey(b) == Some(p) {
      LastEight(b);
    }
  }

  lemma {:induction false} EncodedParts(p: ParsedKey)
    ensures UserPart(Encode(p)) == p.user && TagPart(Encode(p)) == Tag(Abstract(p))
  {
    hide Fixed, FixedValue;
    var t := Tag(Abstract(p));
    PowersOf256();
    FixedRoundTrip(t, 8);
    RemainderIs(t, TWO_64, 0, t);
    assert Encode(p)[|p.user|..] == Fixed(t, 8);
  }

  // InternalKeyComparator::Compare, below zero.
  predicate KeyBefore(a: Bytes, b: Bytes) {
    || Bytewise.Before(UserPart(a), UserPart(b))
    || (UserPart(a) == UserPart(b) && TagPart(a) > TagPart(b))
  }

  // The comparator on encodings is the order on keys.
  lemma ComparatorIsOrder(p: ParsedKey, q: ParsedKey)
    ensures KeyBefore(Encode(p), Encode(q)) <==> Less(Abstract(p), Abstract(q))
  {
    EncodedParts(p);
    EncodedParts(q);
    Bytewise.RankIsOrder(p.user, q.user);
  }

  lemma KeyBeforeIsStrict(a: Bytes, b: Bytes, c: Bytes)
    ensures !KeyBefore(a, a)
    ensures KeyBefore(a, b) && KeyBefore(b, c) ==> KeyBefore(a, c)
    ensures KeyBefore(a, b) ==> KeyBefore(a, c) || KeyBefore(c, b)
  {
    Bytewise.RankIsOrder(UserPart(a), UserPart(b));
    Bytewise.RankIsOrder(UserPart(b), UserPart(c));
    Bytewise.RankIsOrder(UserPart(a), UserPart(c));
    Bytewise.RankIsOrder(UserPart(c), UserPart(b));
    Bytewise.Trichotomy(UserPart(a), UserPart(a));
  }

  method Compare(akey: Bytes, bkey: Bytes) returns (r: int)
    requires |akey| >= 8 && |bkey| >= 8
    ensures r < 0 <==> KeyBefore(akey, bkey)
    ensures r > 0 <==> KeyBefore(bkey, akey)
    ensures r == 0 <==> akey == bkey
  {
    hide Fixed, FixedValue;
    r := Bytewise.Compare(UserPart(akey), UserPart(bkey));
    Bytewise.Trichotomy(UserPart(akey), UserPart(bkey));
    LastEight(akey);
    LastEight(bkey);
    if r == 0 {
      var anum, bnum := TagPart(akey), TagPart(bkey);
      if anum > bnum {
        r := -1;
      } else if anum < bnum {
        r := 1;
      }
    }
  }

  // The first possible key of a user key: what a shortened key ends in.
  function FirstKeyOf(user: Bytes): Bytes {
    Encode(ParsedKey(user, MAX_SEQUENCE, Value))
  }

  // Unchanged, or shorter and strictly between: and then its user key is
  // strictly below that of limit, so that no key of limit's user key, at any
  // sequence number, is at or below the separator.
  method FindShortestSeparator(start: Bytes, limit: Bytes) returns (r: Bytes)
    requires |start| >= 8 && |limit| >= 8
    ensures || r == start
            || (&& KeyBefore(start, r) && KeyBefore(r, limit) && 8 <= |r| < |start|
                && Bytewise.Before(UserPart(start), UserPart(r)) && Bytewise.Before(UserPart(r), UserPart(limit))
                && r == FirstKeyOf(UserPart(r)))
  {
    var tmp := Bytewise.FindShortestSeparator(UserPart(start), UserPart(limit));
    var c := Bytewise.Compare(UserPart(start), tmp);
    if |tmp| < |UserPart(start)| && c < 0 {
      r := FirstKeyOf(tmp);
      EncodedParts(ParsedKey(tmp, MAX_SEQUENCE, Value));
    } else {
      r := start;
    }
  }

  method FindShortSuccessor(key: Bytes) returns (r: Bytes)
    requires |key| >= 8
    ensures || r == key
            || (&& KeyBefore(key, r) && 8 <= |r| < |key| && Bytewise.Before(UserPart(key), UserPart(r))
                && r == FirstKeyOf(UserPart(r)))
  {
    var tmp := Bytewise.FindShortSuccessor(UserPart(key));
    var c := Bytewise.Compare(UserPart(key), tmp);
    if |tmp| < |UserPart(key)| && c < 0 {
      r := FirstKeyOf(tmp);
      EncodedParts(ParsedKey(tmp, MAX_SEQUENCE, Value));
    } else {
      r := key;
    }
  }

  // ----- LookupKey -----

  function LookupInternalKey(user: Bytes, s: Sequence): Bytes {
    Encode(ParsedKey(user, s, Value))
  }

  // What the memtable is searched for. The length is a 32-bit sum.
  function LookupMemtableKey(user: Bytes, s: Sequence): Bytes {
    Varint((|user| % TWO_32 + 8) % TWO_32) + LookupInternalKey(user, s)
  }

  // The memtable's comparator finds the internal key in front of whatever
  // follows; the internal key is the seek key of the user key, before every
  // entry of it not newer than s and after every newer one.
  lemma LookupKeyIs(user: Bytes, s: Sequence, rest: Bytes, p: ParsedKey)
    ensures |user| + 8 < TWO_32 <==>
            ParsePrefixed(LookupMemtableKey(user, s) + rest) ==
              Some((LookupInternalKey(user, s), |LookupMemtableKey(user, s)|))
    ensures Abstract(ParsedKey(user, s, Value)) == SeekKey(Bytewise.Rank(user), s)
    ensures p.user == user ==> (KeyBefore(Encode(p), LookupInternalKey(user, s)) <==> p.sn > s)
  {
    hide Varint, ParseVarint;
    var key := LookupInternalKey(user, s);
    AddMod(|user|, 8, TWO_32);
    assert LookupMemtableKey(user, s) == Prefixed(key);
    PrefixedRoundTrip(key, rest);
    ComparatorIsOrder(p, ParsedKey(user, s, Value));
  }
}
