// Recovering the version from the MANIFEST (VersionSet::Recover,
// db/version_set.cc): log records, decoded as edits, applied to one builder.
module Manifests {
  import opened Keys
  import opened Codings
  import opened Versions
  import opened Builders
  import VersionEdits
  import InternalKeys
  import Logs

  // ----- edits as the builder sees them -----

  function KeyOf(b: Bytes): InternalKey {
    match InternalKeys.ParseInternalKey(b)
    case Some(p) => InternalKeys.Abstract(p)
    case None => InternalKey(0.0, 0, Deletion)
  }

  // The file that metadata names, with the table contents of its number.
  function FileOf(m: VersionEdits.FileMeta, tables: map<nat, seq<Entry>>): File {
    File(m.number, m.size, KeyOf(m.smallest), KeyOf(m.largest), if m.number in tables then tables[m.number] else [])
  }

  function Abstract(e: VersionEdits.Edit, tables: map<nat, seq<Entry>>): (r: Edit)
    ensures |r.added| == |e.newFiles|
  {
    Edit(set d | d in e.deletedFiles :: d,
         seq(|e.newFiles|, i requires 0 <= i < |e.newFiles| => (e.newFiles[i].0, FileOf(e.newFiles[i].1, tables))))
  }

  function AbstractAll(es: seq<VersionEdits.Edit>, tables: map<nat, seq<Entry>>): (r: seq<Edit>)
    ensures |r| == |es| && forall i :: 0 <= i < |es| ==> r[i] == Abstract(es[i], tables)
  {
    seq(|es|, i requires 0 <= i < |es| => Abstract(es[i], tables))
  }

  function Recorded(es: seq<VersionEdits.Edit>): (r: seq<Bytes>)
    ensures |r| == |es| && forall i :: 0 <= i < |es| ==> r[i] == VersionEdits.Encoded(VersionEdits.Items(es[i]))
  {
    seq(|es|, i requires 0 <= i < |es| => VersionEdits.Encoded(VersionEdits.Items(es[i])))
  }

  // The last number set, if any.
  function LastSet(ns: seq<Option<nat>>): Option<nat> {
    if ns == [] then None
    else if ns[|ns| - 1].Some? then ns[|ns| - 1]
    else LastSet(ns[..|ns| - 1])
  }

  function NextFiles(es: seq<VersionEdits.Edit>): seq<Option<nat>> {
    seq(|es|, i requires 0 <= i < |es| => es[i].nextFileNumber)
  }

  function LastSequences(es: seq<VersionEdits.Edit>): seq<Option<nat>> {
    seq(|es|, i requires 0 <= i < |es| => es[i].lastSequence)
  }

  function LogNumbers(es: seq<VersionEdits.Edit>): seq<Option<nat>> {
    seq(|es|, i requires 0 <= i < |es| => es[i].logNumber)
  }

  function PrevLogNumbers(es: seq<VersionEdits.Edit>): seq<Option<nat>> {
    seq(|es|, i requires 0 <= i < |es| => es[i].prevLogNumber)
  }

  lemma {:induction false} OneMore(ns: seq<Option<nat>>, n: Option<nat>)
    ensures LastSet(ns + [n]) == if n.Some? then n else LastSet(ns)
  {
    assert (ns + [n])[..|ns|] == ns;
  }

  // ----- what was written -----

  // The edits of a run of the database, fit to be encoded, and the versions
  // that installing them one by one made.
  ghost predicate IsRun(es: seq<VersionEdits.Edit>, tables: map<nat, seq<Entry>>, versions: seq<Version>) {
    && (forall i :: 0 <= i < |es| ==>
          VersionEdits.EditFits(es[i]) && EditOk(Abstract(es[i], tables)))
    && History(AbstractAll(es, tables), versions)
    && NamesUnique(AbstractAll(es, tables))
  }

  datatype Recovered = Recovered(
    version: Version, nextFileNumber: nat, lastSequence: nat, logNumber: nat, prevLogNumber: nat)

  // The state after the first n edits.
  ghost predicate IsStateAfter(r: Recovered, es: seq<VersionEdits.Edit>, versions: seq<Version>, n: nat)
    requires n <= |es| && |versions| == |es| + 1
  {
    var done := es[..n];
    && r.version == versions[n]
    && LastSet(NextFiles(done)).Some? && r.nextFileNumber == LastSet(NextFiles(done)).value + 1
    && LastSet(LastSequences(done)) == Some(r.lastSequence)
    && LastSet(LogNumbers(done)) == Some(r.logNumber)
    && r.prevLogNumber == (match LastSet(PrevLogNumbers(done)) case Some(x) => x case None => 0)
  }

  // Only this comparator is named.
  ghost predicate Compares(es: seq<VersionEdits.Edit>, comparator: Bytes) {
    forall i :: 0 <= i < |es| ==> es[i].comparator == None || es[i].comparator == Some(comparator)
  }

  // Enough for recovery to go on: these three have been set.
  ghost predicate HasNumbers(es: seq<VersionEdits.Edit>) {
    LastSet(NextFiles(es)).Some? && LastSet(LogNumbers(es)).Some? && LastSet(LastSequences(es)).Some?
  }

  // ----- recovery -----

  // Some of the numbers set so far.
  datatype Numbers = Numbers(
    nextFile: Option<nat>, lastSequence: Option<nat>, logNumber: Option<nat>, prevLogNumber: Option<nat>)

  ghost predicate AreLast(n: Numbers, es: seq<VersionEdits.Edit>) {
    && n.nextFile == LastSet(NextFiles(es)) && n.lastSequence == LastSet(LastSequences(es))
    && n.logNumber == LastSet(LogNumbers(es)) && n.prevLogNumber == LastSet(PrevLogNumbers(es))
  }

  function Or(n: Option<nat>, m: Option<nat>): Option<nat> {
    if n.Some? then n else m
  }

  function Updated(n: Numbers, e: VersionEdits.Edit): Numbers {
    Numbers(Or(e.nextFileNumber, n.nextFile), Or(e.lastSequence, n.lastSequence),
            Or(e.logNumber, n.logNumber), Or(e.prevLogNumber, n.prevLogNumber))
  }

  lemma {:induction false} UpdatedAreLast(n: Numbers, es: seq<VersionEdits.Edit>, i: nat)
    requires i < |es| && AreLast(n, es[..i])
    ensures AreLast(Updated(n, es[i]), es[..i + 1])
  {
    hide LastSet;
    var was, now := es[..i], es[..i + 1];
    OneMore(NextFiles(was), es[i].nextFileNumber);
    OneMore(LastSequences(was), es[i].lastSequence);
    OneMore(LogNumbers(was), es[i].logNumber);
    OneMore(PrevLogNumbers(was), es[i].prevLogNumber);
    assert NextFiles(now) == NextFiles(was) + [es[i].nextFileNumber];
    assert LastSequences(now) == LastSequences(was) + [es[i].lastSequence];
    assert LogNumbers(now) == LogNumbers(was) + [es[i].logNumber];
    assert PrevLogNumbers(now) == PrevLogNumbers(was) + [es[i].prevLogNumber];
  }

  // Where the builder stands after the first n edits.
  ghost predicate Caught(builder: Builder, es: seq<VersionEdits.Edit>, tables: map<nat, seq<Entry>>,
      versions: seq<Version>, n: nat)
    requires |versions| == |es| + 1 && n <= |es|
    reads builder
  {
    && builder.Valid() && builder.base == EMPTY_VERSION && |versions[n]| == NUM_LEVELS
    && (forall l :: 0 <= l < NUM_LEVELS ==> Live([], builder.levels[l]) == FilesOf(versions[n][l]))
    && (forall l, f :: 0 <= l < NUM_LEVELS && f in builder.levels[l].addedFiles ==> AddedBy(AbstractAll(es, tables), f))
  }

  lemma StartsCaught(builder: Builder, es: seq<VersionEdits.Edit>, tables: map<nat, seq<Entry>>,
      versions: seq<Version>)
    requires builder.Valid() && builder.base == EMPTY_VERSION
    requires builder.levels == seq(NUM_LEVELS, _ => LevelState({}, []))
    requires |versions| == |es| + 1 && versions[0] == EMPTY_VERSION
    ensures Caught(builder, es, tables, versions, 0)
  {
    forall l | 0 <= l < NUM_LEVELS ensures Live([], builder.levels[l]) == FilesOf(versions[0][l]) {
      assert builder.levels[l].addedFiles == [];
    }
  }

  lemma RunShape(es: seq<VersionEdits.Edit>, tables: map<nat, seq<Entry>>, versions: seq<Version>)
    requires IsRun(es, tables, versions)
    ensures |versions| == |es| + 1 && versions[0] == EMPTY_VERSION
    ensures forall i :: 0 <= i <= |es| ==> |versions[i]| == NUM_LEVELS
    ensures forall i, l :: 0 <= i <= |es| && 0 <= l < NUM_LEVELS ==> SortedFiles(versions[i][l])
  {
    HistoryShape(AbstractAll(es, tables), versions);
  }

  // Decoding a record into a new edit gives the edit back.
  lemma DecodesTo(es: seq<VersionEdits.Edit>, tables: map<nat, seq<Entry>>, versions: seq<Version>, i: nat,
      into: VersionEdits.Edit)
    requires IsRun(es, tables, versions) && i < |es| && into.compactPointers == []
    ensures VersionEdits.Decoded(Recorded(es)[i], VersionEdits.Cleared(into)) == Some(es[i])
  {
    hide VersionEdits.Encoded, VersionEdits.Decoded, VersionEdits.Items, History, NamesUnique, VersionEdits.EditFits;
    assert VersionEdits.EditFits(es[i]);
    VersionEdits.EditRoundTrip(es[i], into);
    assert [] + es[i].compactPointers == es[i].compactPointers;
  }

  lemma NothingSet(es: seq<VersionEdits.Edit>)
    ensures AreLast(Numbers(None, None, None, None), es[..0])
  {
  }

  method ApplyDecoded(
    builder: Builder, e: VersionEdits.Edit, tables: map<nat, seq<Entry>>, ghost es: seq<VersionEdits.Edit>,
    ghost versions: seq<Version>, ghost i: nat)
    requires IsRun(es, tables, versions) && i < |es| && e == es[i]
    requires |versions| == |es| + 1 && Caught(builder, es, tables, versions, i)
    modifies builder
    ensures Caught(builder, es, tables, versions, i + 1)
  {
    hide VersionEdits.EditFits, Abstract;
    ghost var edits := AbstractAll(es, tables);
    forall l | 0 <= l < NUM_LEVELS ensures NamesAgree(Known([], builder.levels[l]), edits[i]) {
      AgreesWithPast(edits, i, builder.levels[l]);
    }
    RunShape(es, tables, versions);
    builder.Apply(Abstract(e, tables));
    assert edits[i].added[..|edits[i].added|] == edits[i].added;
    assert Edited(versions[i], edits[i], versions[i + 1]);
  }

  method SaveCaught(
    builder: Builder, ghost es: seq<VersionEdits.Edit>, ghost tables: map<nat, seq<Entry>>,
    ghost versions: seq<Version>,
    ghost n: nat) returns (v: Version)
    requires IsRun(es, tables, versions) && n <= |es| && |versions| == |es| + 1
    requires Caught(builder, es, tables, versions, n)
    ensures v == versions[n]
  {
    hide VersionEdits.EditFits, Abstract;
    RunShape(es, tables, versions);
    v := builder.SaveTo();
    forall l | 0 <= l < NUM_LEVELS ensures v[l] == versions[n][l] {
      assert forall f :: f in v[l] <==> f in Live([], builder.levels[l]);
      ListIsUnique(v[l], versions[n][l]);
    }
  }

  // VersionSet::MarkFileNumberUsed.
  function MarkFileNumberUsed(nextFileNumber: nat, number: nat): (r: nat)
    ensures r > number && r >= nextFileNumber
  {
    if nextFileNumber <= number then number + 1 else nextFileNumber
  }

  function ValueOr<T>(x: Option<T>, otherwise: T): T {
    if x.Some? then x.value else otherwise
  }

  // VersionSet::Recover reading a MANIFEST of which only some bytes may have
  // survived: it gets the state after the edits that survived whole, unless
  // one names another comparator or together they leave a number unset.
  method Recover(
    file: Bytes, tables: map<nat, seq<Entry>>, comparator: Bytes, ghost es: seq<VersionEdits.Edit>,
    ghost versions: seq<Version>) returns (r: Option<Recovered>, n: nat)
    requires IsRun(es, tables, versions) && file <= Logs.LogOf(Recorded(es))
    ensures n <= |es| && Logs.IsWhole(Recorded(es), |file|, n)
    ensures r.Some? <==> Compares(es[..n], comparator) && HasNumbers(es[..n])
    ensures r.Some? ==> |versions| == |es| + 1 && IsStateAfter(r.value, es, versions, n)
  {
    hide Logs.LogOf, Logs.IsWhole, IsRun, AreLast, Caught, Builder.Valid, LastSet, NextFiles, LastSequences,
      LogNumbers, PrevLogNumbers, VersionEdits.Encoded, VersionEdits.Items, VersionEdits.Decoded, HasNumbers,
      IsStateAfter;
    r := None;
    var records, corruptions := Logs.ReadAll(file, Recorded(es));
    n := |records|;
    RunShape(es, tables, versions);
    var builder := new Builder(EMPTY_VERSION);
    StartsCaught(builder, es, tables, versions);
    var numbers := Numbers(None, None, None, None);
    NothingSet(es);
    for i := 0 to |records|
      invariant fresh(builder) && Caught(builder, es, tables, versions, i) && AreLast(numbers, es[..i])
      invariant Compares(es[..i], comparator)
    {
      var edit := new VersionEdits.VersionEdit();
      DecodesTo(es, tables, versions, i, edit.State());
      assert records[i] == Recorded(es)[i];
      var ok := edit.DecodeFrom(records[i]);
      if !ok {
        return;
      }
      if edit.comparator.Some? && edit.comparator != Some(comparator) {
        assert es[..n][i].comparator != Some(comparator);
        return;
      }
      var e := VersionEdits.Edit(edit.comparator, edit.logNumber, edit.prevLogNumber, edit.nextFileNumber,
        edit.lastSequence, edit.compactPointers, edit.deletedFiles, edit.newFiles);
      ApplyDecoded(builder, e, tables, es, versions, i);
      UpdatedAreLast(numbers, es, i);
      numbers := Updated(numbers, e);
      assert forall j :: 0 <= j < i ==> es[..i + 1][j] == es[..i][j];
    }
    NumbersSay(numbers, es, versions, n);
    // The log numbers are marked as used in the counter of the new VersionSet,
    // which the recorded number replaces below.
    var nextFileNumber := 2;
    var prev := ValueOr(numbers.prevLogNumber, 0);
    nextFileNumber := MarkFileNumberUsed(nextFileNumber, prev);
    nextFileNumber := MarkFileNumberUsed(nextFileNumber, ValueOr(numbers.logNumber, 0));
    if numbers.nextFile.Some? && numbers.logNumber.Some? && numbers.lastSequence.Some? {
      var v := SaveCaught(builder, es, tables, versions, n);
      nextFileNumber := numbers.nextFile.value + 1;
      r := Some(Recovered(v, nextFileNumber, numbers.lastSequence.value, numbers.logNumber.value, prev));
    }
  }

  lemma NumbersSay(numbers: Numbers, es: seq<VersionEdits.Edit>, versions: seq<Version>, n: nat)
    requires n <= |es| && AreLast(numbers, es[..n]) && |versions| == |es| + 1
    ensures HasNumbers(es[..n]) <==> numbers.nextFile.Some? && numbers.logNumber.Some? && numbers.lastSequence.Some?
    ensures HasNumbers(es[..n]) ==>
      IsStateAfter(
        Recovered(versions[n], numbers.nextFile.value + 1, numbers.lastSequence.value, numbers.logNumber.value,
                  if numbers.prevLogNumber.Some? then numbers.prevLogNumber.value else 0), es, versions, n)
  {
    hide LastSet, NextFiles, LastSequences, LogNumbers, PrevLogNumbers;
  }
}
