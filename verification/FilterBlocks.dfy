// The filter block of a table: one filter for every 2 KB of file offset, over
// the user keys of the blocks that start there (table/filter_block.cc,
// InternalFilterPolicy of db/dbformat.cc).
module FilterBlocks {
  import opened Keys
  import opened Codings
  import opened Blocks
  import opened Blooms
  import InternalKeys

  const FILTER_BASE_LG: Byte := 11
  const FILTER_BASE: nat := 2048

  function UserParts(keys: seq<Bytes>): (r: seq<Bytes>)
    ensures |r| == |keys| && forall i :: 0 <= i < |keys| ==> r[i] == InternalKeys.UserPart(keys[i])
  {
    seq(|keys|, i requires 0 <= i < |keys| => InternalKeys.UserPart(keys[i]))
  }

  // ----- keys kept end to end -----

  function Joined(ks: seq<Bytes>): Bytes {
    if ks == [] then [] else Joined(ks[..|ks| - 1]) + ks[|ks| - 1]
  }

  function Positions(ks: seq<Bytes>): (r: seq<nat>)
    ensures |r| == |ks|
  {
    if ks == [] then [] else Positions(ks[..|ks| - 1]) + [|Joined(ks[..|ks| - 1])|]
  }

  lemma {:induction false} JoinedAt(ks: seq<Bytes>, i: nat)
    requires i < |ks|
    ensures var from := Positions(ks)[i]; var to := (Positions(ks) + [|Joined(ks)|])[i + 1];
      from <= to <= |Joined(ks)| && Joined(ks)[from..to] == ks[i]
  {
    var front, last := ks[..|ks| - 1], ks[|ks| - 1];
    if i < |ks| - 1 {
      JoinedAt(front, i);
      var from, to := Positions(front)[i], (Positions(front) + [|Joined(front)|])[i + 1];
      assert Joined(ks)[from..to] == Joined(front)[from..to];
      assert (Positions(ks) + [|Joined(ks)|])[i + 1] == to;
    } else {
      assert Joined(ks)[|Joined(front)|..] == last;
    }
  }

  lemma {:induction false} JoinedAppend(ks: seq<Bytes>, k: Bytes)
    ensures Joined(ks + [k]) == Joined(ks) + k
    ensures Positions(ks + [k]) == Positions(ks) + [|Joined(ks)|]
  {
    assert (ks + [k])[..|ks|] == ks;
  }

  // ----- the layout -----

  // Bytes start..limit are the filter of these keys; nothing for no keys.
  ghost predicate HasFilter(data: Bytes, start: nat, limit: nat, keys: seq<Bytes>, bitsPerKey: nat) {
    && start <= limit <= |data|
    && if keys == [] then start == limit else IsFilter(data[start..limit], UserParts(keys), bitsPerKey)
  }

  ghost predicate FilterAt(data: Bytes, bounds: seq<nat>, keys: seq<Bytes>, bitsPerKey: nat, i: nat)
    requires i + 1 < |bounds|
  {
    bounds[i + 1] <= bounds[|bounds| - 1] && HasFilter(data, bounds[i], bounds[i + 1], keys, bitsPerKey)
  }

  ghost predicate HasFilters(data: Bytes, bounds: seq<nat>, filters: seq<seq<Bytes>>, bitsPerKey: nat) {
    && |bounds| == |filters| + 1
    && bounds[|filters|] <= |data|
    && forall i :: 0 <= i < |filters| ==> FilterAt(data, bounds, filters[i], bitsPerKey, i)
  }

  // The filters end to end, then where each starts and the last one ends, then
  // the base.
  ghost predicate IsLayout(data: Bytes, bounds: seq<nat>, filters: seq<seq<Bytes>>, bitsPerKey: nat) {
    && HasFilters(data, bounds, filters, bitsPerKey)
    && data[bounds[|filters|]..] == Words(bounds) + [FILTER_BASE_LG]
  }

  // A filter block whose offsets fit their 32 bits.
  ghost predicate IsFilterBlock(data: Bytes, filters: seq<seq<Bytes>>, bitsPerKey: nat) {
    |data| < TWO_32 && exists bounds :: IsLayout(data, bounds, filters, bitsPerKey)
  }

  // What the reader answers for a block at this offset and a key.
  ghost predicate MayMatch(filters: seq<seq<Bytes>>, bitsPerKey: nat, blockOffset: nat, key: Bytes) {
    var i := blockOffset / FILTER_BASE;
    i < |filters| ==> filters[i] != [] && AllProbesHit(UserParts(filters[i]), bitsPerKey, InternalKeys.UserPart(key))
  }

  // No false negatives: a key added under a block's offset, and every other
  // key of its user key, may match there.
  lemma AddedMayMatch(filters: seq<seq<Bytes>>, bitsPerKey: nat, blockOffset: nat, added: Bytes, key: Bytes)
    requires blockOffset / FILTER_BASE < |filters| && added in filters[blockOffset / FILTER_BASE]
    requires InternalKeys.UserPart(added) == InternalKeys.UserPart(key)
    ensures MayMatch(filters, bitsPerKey, blockOffset, key)
  {
    hide AllProbesHit;
    var keys := filters[blockOffset / FILTER_BASE];
    var i :| 0 <= i < |keys| && keys[i] == added;
    assert UserParts(keys)[i] == InternalKeys.UserPart(key);
    NoFalseNegative(UserParts(keys), bitsPerKey, InternalKeys.UserPart(key));
  }

  // ----- the builder -----

  class FilterBlockBuilder {
    const bitsPerKey: nat
    var keys: Bytes
    var start: seq<nat>
    var result: Bytes
    var filterOffsets: seq<nat>
    ghost var filters: seq<seq<Bytes>>
    ghost var pending: seq<Bytes>

    ghost predicate Ok()
      reads this
    {
      && keys == Joined(pending) && start == Positions(pending)
      && |filterOffsets| == |filters|
      && HasFilters(result, filterOffsets + [|result|], filters, bitsPerKey)
    }

    // The keys of the i-th filter, made or still to be made.
    ghost function KeysAt(i: nat): seq<Bytes>
      reads `filters, `pending
    {
      if i < |filters| then filters[i] else if i == |filters| then pending else []
    }

    ghost function AllKeys(): (r: seq<seq<Bytes>>)
      reads `filters, `pending
      ensures |r| == |filters| + 1 && forall i :: 0 <= i < |r| ==> r[i] == KeysAt(i)
    {
      filters + [pending]
    }

    constructor (policyBits: nat)
      ensures Ok() && filters == [] && pending == [] && bitsPerKey == policyBits
    {
      bitsPerKey, keys, start, result, filterOffsets := policyBits, [], [], [], [];
      filters, pending := [], [];
    }

    // Makes filters until it is the turn of the one for this offset.
    method StartBlock(blockOffset: nat)
      requires Ok() && blockOffset / FILTER_BASE >= |filters|
      modifies this
      ensures Ok() && |filters| == blockOffset / FILTER_BASE
      ensures forall i: nat :: KeysAt(i) == old(KeysAt(i))
    {
      var filterIndex := blockOffset / FILTER_BASE;
      while filterIndex > |filterOffsets|
        invariant Ok() && |filters| <= filterIndex
        invariant forall i: nat :: KeysAt(i) == old(KeysAt(i))
      {
        GenerateFilter();
      }
    }

    method AddKey(key: Bytes)
      requires Ok()
      modifies `keys, `start, `pending
      ensures Ok() && pending == old(pending) + [key]
      ensures forall i: nat :: KeysAt(i) == old(KeysAt(i)) + if i == |filters| then [key] else []
    {
      JoinedAppend(pending, key);
      start := start + [|keys|];
      keys := keys + key;
      pending := pending + [key];
    }

    method Finish() returns (contents: Bytes, ghost all: seq<seq<Bytes>>)
      requires Ok()
      modifies this
      ensures |contents| < TWO_32 ==> IsFilterBlock(contents, all, bitsPerKey)
      ensures |all| == |old(filters)| + (if old(pending) == [] then 0 else 1)
      ensures forall i :: 0 <= i < |all| ==> all[i] == old(KeysAt(i))
    {
      hide HasFilters;
      if start != [] {
        GenerateFilter();
      }
      all := filters;
      contents := AppendOffsets();
    }

    method AppendOffsets() returns (contents: Bytes)
      requires Ok()
      modifies `result
      ensures |contents| < TWO_32 ==> IsFilterBlock(contents, filters, bitsPerKey)
    {
      hide HasFilters;
      ghost var body, bounds := result, filterOffsets + [|result|];
      var arrayOffset := |result|;
      for i := 0 to |filterOffsets|
        invariant result == body + Words(filterOffsets[..i])
      {
        assert filterOffsets[..i + 1][..i] == filterOffsets[..i];
        result := result + Fixed(filterOffsets[i] % TWO_32, 4);
      }
      assert filterOffsets[..|filterOffsets|] == filterOffsets;
      assert bounds[..|filterOffsets|] == filterOffsets;
      result := result + Fixed(arrayOffset % TWO_32, 4) + [FILTER_BASE_LG];
      contents := result;
      Trailing(body, contents, bounds);
      MoreBytesKeepFilters(body, contents, bounds, filters, bitsPerKey);
      assert IsLayout(contents, bounds, filters, bitsPerKey);
    }

    method GenerateFilter()
      requires Ok()
      modifies this
      ensures Ok() && filters == old(filters) + [old(pending)] && pending == []
    {
      hide IsFilter, HasFilters, Joined, Positions;
      NothingJoined();
      if |start| == 0 {
        NewFilter(result, result, filterOffsets, filters, pending, bitsPerKey);
        filterOffsets := filterOffsets + [|result|];
        filters := filters + [pending];
        return;
      }
      var tmpKeys := FlattenedKeys();
      ghost var was := result;
      filterOffsets := filterOffsets + [|result|];
      result := CreateFilter(tmpKeys, bitsPerKey, result);
      NewFilter(was, result, old(filterOffsets), filters, pending, bitsPerKey);
      filters := filters + [pending];
      keys, start, pending := [], [], [];
    }

    // The keys cut apart again, without their tags.
    method FlattenedKeys() returns (tmpKeys: seq<Bytes>)
      requires Ok()
      ensures tmpKeys == UserParts(pending)
    {
      hide Joined, Positions;
      var ends := start + [|keys|];
      tmpKeys := [];
      for i := 0 to |start|
        invariant tmpKeys == UserParts(pending)[..i]
      {
        JoinedAt(pending, i);
        tmpKeys := tmpKeys + [InternalKeys.UserPart(keys[ends[i]..ends[i + 1]])];
      }
    }
  }

  lemma NothingJoined()
    ensures Joined([]) == [] && Positions([]) == []
  {
  }

  lemma Trailing(body: Bytes, contents: Bytes, bounds: seq<nat>)
    requires |bounds| > 0 && bounds[|bounds| - 1] == |body|
    requires contents == body + Words(bounds[..|bounds| - 1]) + Fixed(|body| % TWO_32, 4) + [FILTER_BASE_LG]
    ensures body <= contents && contents[|body|..] == Words(bounds) + [FILTER_BASE_LG]
  {
    hide Fixed, Words;
    var tail := Words(bounds[..|bounds| - 1]) + Fixed(|body| % TWO_32, 4);
    assert Words(bounds) == tail by { LastWord(bounds); }
    assert contents == body + (tail + [FILTER_BASE_LG]);
  }

  lemma LastWord(ws: seq<nat>)
    requires ws != []
    ensures Words(ws) == Words(ws[..|ws| - 1]) + Fixed(ws[|ws| - 1] % TWO_32, 4)
  {
  }

  lemma MoreBytesKeepFilter(was: Bytes, now: Bytes, start: nat, limit: nat, keys: seq<Bytes>, bitsPerKey: nat)
    requires was <= now && HasFilter(was, start, limit, keys, bitsPerKey)
    ensures HasFilter(now, start, limit, keys, bitsPerKey)
  {
    assert now[start..limit] == was[start..limit];
  }

  lemma MoreBytesKeepFilters(was: Bytes, now: Bytes, bounds: seq<nat>, filters: seq<seq<Bytes>>, bitsPerKey: nat)
    requires was <= now && HasFilters(was, bounds, filters, bitsPerKey)
    ensures HasFilters(now, bounds, filters, bitsPerKey)
  {
    hide HasFilter;
    forall i | 0 <= i < |filters| ensures FilterAt(now, bounds, filters[i], bitsPerKey, i) {
      assert FilterAt(was, bounds, filters[i], bitsPerKey, i);
      MoreBytesKeepFilter(was, now, bounds[i], bounds[i + 1], filters[i], bitsPerKey);
    }
  }

  lemma NewFilter(was: Bytes, now: Bytes, offsets: seq<nat>, filters: seq<seq<Bytes>>, keys: seq<Bytes>,
      bitsPerKey: nat)
    requires HasFilters(was, offsets + [|was|], filters, bitsPerKey) && was <= now
    requires if keys == [] then now == was else IsFilter(now[|was|..], UserParts(keys), bitsPerKey)
    ensures HasFilters(now, offsets + [|was|] + [|now|], filters + [keys], bitsPerKey)
  {
    hide HasFilter, IsFilter;
    var bounds, bounds', filters' := offsets + [|was|], offsets + [|was|] + [|now|], filters + [keys];
    forall i | 0 <= i < |filters'| ensures FilterAt(now, bounds', filters'[i], bitsPerKey, i) {
      if i < |filters| {
        assert FilterAt(was, bounds, filters[i], bitsPerKey, i);
        MoreBytesKeepFilter(was, now, bounds[i], bounds[i + 1], filters[i], bitsPerKey);
      } else {
        LastFilter(was, now, keys, bitsPerKey);
      }
    }
  }

  lemma LastFilter(was: Bytes, now: Bytes, keys: seq<Bytes>, bitsPerKey: nat)
    requires was <= now
    requires if keys == [] then now == was else IsFilter(now[|was|..], UserParts(keys), bitsPerKey)
    ensures HasFilter(now, |was|, |now|, keys, bitsPerKey)
  {
    hide IsFilter;
    assert now[|was|..|now|] == now[|was|..];
  }

  // ----- the reader -----

  // Word i of the bounds, from the end of the filters.
  lemma BoundAt(data: Bytes, bounds: seq<nat>, filters: seq<seq<Bytes>>, bitsPerKey: nat, i: nat)
    requires IsLayout(data, bounds, filters, bitsPerKey) && |data| < TWO_32 && i <= |filters|
    ensures var at := bounds[|filters|] + 4 * i;
      at + 5 <= |data| && bounds[i] < TWO_32 && FixedValue(data[at..at + 4]) == bounds[i]
    ensures |data| == bounds[|filters|] + 4 * |filters| + 5 && data[|data| - 1] == FILTER_BASE_LG
  {
    hide Fixed, FixedValue, HasFilter;
    var limit := bounds[|filters|];
    var tail := data[limit..];
    WordAt(bounds, i);
    assert tail[4 * i..4 * i + 4] == Words(bounds)[4 * i..4 * i + 4];
    assert data[limit + 4 * i..limit + 4 * i + 4] == tail[4 * i..4 * i + 4];
    assert tail[|tail| - 1] == FILTER_BASE_LG;
    assert bounds[i] <= limit by {
      if i < |filters| {
        assert FilterAt(data, bounds, filters[i], bitsPerKey, i);
        StartBeforeEnd(data, bounds[i], bounds[i + 1], filters[i], bitsPerKey);
      }
    }
    FixedIs(bounds[i]);
  }

  lemma StartBeforeEnd(data: Bytes, start: nat, limit: nat, keys: seq<Bytes>, bitsPerKey: nat)
    requires HasFilter(data, start, limit, keys, bitsPerKey)
    ensures start <= limit <= |data|
  {
  }

  class FilterBlockReader {
    const data: Bytes
    const offset: nat
    const num: nat
    const baseLg: nat

    // The offsets and the word after them are within the data.
    ghost predicate Ok() {
      num > 0 ==> offset + 4 * num + 5 <= |data|
    }

    ghost predicate Opened(filters: seq<seq<Bytes>>, bitsPerKey: nat) {
      && |data| < TWO_32 && num == |filters| && baseLg == FILTER_BASE_LG as nat
      && exists bounds :: IsLayout(data, bounds, filters, bitsPerKey) && offset == bounds[|filters|]
    }

    // Bytes too short, or with an offset past their end, make a reader to which
    // everything may match.
    constructor (contents: Bytes, ghost filters: seq<seq<Bytes>>, ghost bitsPerKey: nat)
      ensures Ok()
      ensures IsFilterBlock(contents, filters, bitsPerKey) ==> Opened(filters, bitsPerKey)
    {
      hide IsLayout, FixedValue;
      var n := |contents|;
      var d: Bytes, at, count, lg := [], 0, 0, 0;
      if n >= 5 {
        var word := contents[n - 5..];
        var lastWord := DecodeFixed32(word);
        assert word[..4] == contents[n - 5..n - 1];
        lg := contents[n - 1];
        if lastWord <= n - 5 {
          d, at, count := contents, lastWord, (n - 5 - lastWord) / 4;
        }
      }
      data, offset, num, baseLg := d, at, count, lg;
      if IsFilterBlock(contents, filters, bitsPerKey) {
        var bounds :| IsLayout(contents, bounds, filters, bitsPerKey);
        LayoutBounds(contents, bounds, filters, bitsPerKey);
        BoundAt(contents, bounds, filters, bitsPerKey, |filters|);
      }
    }

    // True for anything malformed.
    method KeyMayMatch(blockOffset: nat, key: Bytes, ghost filters: seq<seq<Bytes>>, ghost bitsPerKey: nat)
      returns (r: bool)
      requires Ok()
      ensures Opened(filters, bitsPerKey) ==> (r <==> MayMatch(filters, bitsPerKey, blockOffset, key))
    {
      hide IsLayout, FixedValue, Blooms.Matches, AllProbesHit, IsFilter;
      var index := blockOffset / Power(2, baseLg);
      PowerOf2To11();
      if index < num {
        var start := DecodeFixed32(data[offset + index * 4..]);
        var limit := DecodeFixed32(data[offset + index * 4 + 4..]);
        if Opened(filters, bitsPerKey) {
          FoundFilter(filters, bitsPerKey, index, start, limit);
        }
        if start <= limit && limit <= offset {
          r := Blooms.KeyMayMatch(InternalKeys.UserPart(key), data[start..limit]);
          if Opened(filters, bitsPerKey) {
            FilterHere(data, start, limit, filters[index], bitsPerKey, InternalKeys.UserPart(key));
          }
          return;
        } else if start == limit {
          return false;
        }
      }
      return true;
    }

    lemma FoundFilter(filters: seq<seq<Bytes>>, bitsPerKey: nat, index: nat, start: nat, limit: nat)
      requires Ok() && Opened(filters, bitsPerKey) && index < num
      requires start == FixedValue(data[offset + index * 4..][..4])
      requires limit == FixedValue(data[offset + index * 4 + 4..][..4])
      ensures start <= limit <= offset && HasFilter(data, start, limit, filters[index], bitsPerKey)
    {
      hide FixedValue, HasFilter;
      var bounds :| IsLayout(data, bounds, filters, bitsPerKey) && offset == bounds[|filters|];
      BoundAt(data, bounds, filters, bitsPerKey, index);
      BoundAt(data, bounds, filters, bitsPerKey, index + 1);
      var at := offset + 4 * index;
      assert data[at..][..4] == data[at..at + 4] && data[at + 4..][..4] == data[at + 4..at + 8];
      assert FilterAt(data, bounds, filters[index], bitsPerKey, index);
      StartBeforeEnd(data, start, limit, filters[index], bitsPerKey);
    }
  }

  lemma LayoutBounds(data: Bytes, bounds: seq<nat>, filters: seq<seq<Bytes>>, bitsPerKey: nat)
    requires IsLayout(data, bounds, filters, bitsPerKey)
    ensures |bounds| == |filters| + 1 && bounds[|filters|] <= |data|
  {
  }

  lemma PowerOf2To11()
    ensures Power(2, 11) == FILTER_BASE
  {
    assert Power(2, 2) == 4;
    assert Power(2, 4) == 16;
    assert Power(2, 6) == 64;
    assert Power(2, 8) == 256;
    assert Power(2, 10) == 1024;
  }

  lemma FilterHere(data: Bytes, start: nat, limit: nat, keys: seq<Bytes>, bitsPerKey: nat, key: Bytes)
    requires HasFilter(data, start, limit, keys, bitsPerKey)
    ensures Matches(data[start..limit], key) <==> keys != [] && AllProbesHit(UserParts(keys), bitsPerKey, key)
  {
    hide AllProbesHit, IsFilter;
    if keys != [] {
      FilterAnswers(data[start..limit], UserParts(keys), bitsPerKey, key);
    }
  }
}
