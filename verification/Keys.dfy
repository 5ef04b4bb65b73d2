// Internal keys, entries, and the flat specification of a read: the newest
// entry of a user key whose sequence number does not exceed the snapshot.
module Keys {

  // A user key, known only through its place in the user comparator's order.
  // Every countable total order embeds in the reals, so nothing is lost for
  // byte strings under any comparator; `Bytewise.Rank` gives the embedding for
  // the default comparator.
  type UserKey = real

  type Byte = b: int | 0 <= b < 256
  type Bytes = seq<Byte>

  const MAX_SEQUENCE: nat := 0xff_ffff_ffff_ffff

  type Sequence = n: nat | n <= MAX_SEQUENCE

  datatype Option<+T> = None | Some(value: T)

  // kTypeDeletion and kTypeValue.
  datatype Kind = Deletion | Value

  datatype InternalKey = InternalKey(user: UserKey, sn: Sequence, kind: Kind)

  datatype Entry = Entry(key: InternalKey, value: Bytes)

  // One operation of a batch; a deletion has no value.
  datatype Op = Op(kind: Kind, user: UserKey, value: Bytes)

  // The sequence number and type packed into one integer.
  function Tag(k: InternalKey): nat {
    k.sn * 256 + (if k.kind == Deletion then 0 else 1)
  }

  // User key ascending, then packed sequence number and type descending.
  predicate Less(a: InternalKey, b: InternalKey) {
    a.user < b.user || (a.user == b.user && Tag(a) > Tag(b))
  }

  // The first possible internal key of `u` at sequence number `s`.
  function SeekKey(u: UserKey, s: Sequence): InternalKey {
    InternalKey(u, s, Value)
  }

  ghost predicate Sorted(es: seq<Entry>) {
    forall i, j :: 0 <= i < j < |es| ==> Less(es[i].key, es[j].key)
  }

  ghost function ToSet(es: seq<Entry>): set<Entry> {
    set e | e in es
  }

  // No sequence number is used twice for a user key.
  ghost predicate Distinct(es: set<Entry>) {
    forall x, y :: x in es && y in es && x.key.user == y.key.user && x.key.sn == y.key.sn ==> x == y
  }

  ghost predicate Visible(es: set<Entry>, u: UserKey, s: nat, e: Entry) {
    e in es && e.key.user == u && e.key.sn <= s
  }

  ghost predicate IsNewest(es: set<Entry>, u: UserKey, s: nat, e: Entry) {
    Visible(es, u, s, e) && forall x :: Visible(es, u, s, x) ==> x.key.sn <= e.key.sn
  }

  ghost function Newest(es: set<Entry>, u: UserKey, s: nat): Option<Entry> {
    if exists e :: IsNewest(es, u, s, e) then
      var e :| IsNewest(es, u, s, e);
      Some(e)
    else
      None
  }

  // What a reader of `u` at snapshot `s` gets: no entry and a deletion are alike.
  ghost function Read(es: set<Entry>, u: UserKey, s: nat): Option<Bytes> {
    match Newest(es, u, s)
    case Some(e) => if e.key.kind == Value then Some(e.value) else None
    case None => None
  }

  lemma NewestIs(es: set<Entry>, u: UserKey, s: nat, e: Entry)
    requires Distinct(es) && IsNewest(es, u, s, e)
    ensures Newest(es, u, s) == Some(e)
  {
    var x := Newest(es, u, s).value;
    assert IsNewest(es, u, s, x);
  }

  // A user key with any visible entry has a newest one.
  lemma {:induction false} NewestExists(es: set<Entry>, u: UserKey, s: nat, e: Entry)
    requires Visible(es, u, s, e)
    ensures Newest(es, u, s).Some?
    ensures IsNewest(es, u, s, Newest(es, u, s).value)
    ensures e.key.sn <= Newest(es, u, s).value.key.sn
    decreases MAX_SEQUENCE - e.key.sn
  {
    if x :| Visible(es, u, s, x) && x.key.sn > e.key.sn {
      NewestExists(es, u, s, x);
    } else {
      assert IsNewest(es, u, s, e);
    }
  }

  lemma NothingVisible(es: set<Entry>, u: UserKey, s: nat)
    requires forall x :: !Visible(es, u, s, x)
    ensures Newest(es, u, s) == None && Read(es, u, s) == None
  {
  }

  // The first entry of a sorted run at or after the seek key of (u, s) decides
  // the read of u at s in that run.
  lemma SeekDecides(es: seq<Entry>, u: UserKey, s: Sequence, i: nat)
    requires Sorted(es) && i <= |es|
    requires forall k :: 0 <= k < i ==> Less(es[k].key, SeekKey(u, s))
    requires i < |es| ==> !Less(es[i].key, SeekKey(u, s))
    ensures i < |es| && es[i].key.user == u ==> IsNewest(ToSet(es), u, s, es[i])
    ensures i == |es| || es[i].key.user != u ==> forall x :: !Visible(ToSet(es), u, s, x)
  {
  }
}
