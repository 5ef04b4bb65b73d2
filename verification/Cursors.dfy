// Bidirectional cursors over a sorted run of entries. Position |entries| is the
// one invalid position, as in every iterator of the source.
module Cursors {
  import opened Keys
  import opened Versions

  // Which way an iterator moved last.
  datatype Direction = Forward | Reverse

  function Last(es: seq<Entry>): (pos: nat) {
    if es == [] then 0 else |es| - 1
  }

  function Before(es: seq<Entry>, pos: nat): (r: nat)
    requires pos < |es|
  {
    if pos == 0 then |es| else pos - 1
  }

  // An iterator known by its contract only: a memtable, table or level iterator.
  class EntryIterator {
    const entries: seq<Entry>
    var pos: nat

    ghost predicate Ok()
      reads this
    {
      Sorted(entries) && pos <= |entries|
    }

    constructor (es: seq<Entry>)
      requires Sorted(es)
      ensures Ok() && entries == es && pos == |es|
    {
      entries, pos := es, |es|;
    }

    predicate Valid()
      reads this
    {
      pos < |entries|
    }

    function Key(): InternalKey
      requires Valid()
      reads this
    {
      entries[pos].key
    }

    function Value(): Bytes
      requires Valid()
      reads this
    {
      entries[pos].value
    }

    method SeekToFirst()
      requires Ok()
      modifies this
      ensures Ok() && pos == 0
    {
      pos := 0;
    }

    method SeekToLast()
      requires Ok()
      modifies this
      ensures Ok() && pos == Last(entries)
    {
      pos := Last(entries);
    }

    method Seek(target: InternalKey)
      requires Ok()
      modifies this
      ensures Ok() && pos == LowerBound(entries, target)
    {
      pos := LowerBound(entries, target);
    }

    method Next()
      requires Ok() && Valid()
      modifies this
      ensures Ok() && pos == old(pos) + 1
    {
      pos := pos + 1;
    }

    method Prev()
      requires Ok() && Valid()
      modifies this
      ensures Ok() && pos == Before(entries, old(pos))
    {
      pos := Before(entries, pos);
    }
  }
}
