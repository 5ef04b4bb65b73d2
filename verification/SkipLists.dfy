// The skip list of a memtable (db/skiplist.h): its pointer searches and
// insertion, and one writer linking a node level by level while readers search
// without a lock. Keys are never equal and nodes are never removed, so a node
// is named by its key; the link memory is a map from node and level.
module SkipLists {
  import opened Keys

  const MAX_HEIGHT: nat := 12

  datatype Node = Head | Item(key: real)

  // Absent links are uninitialised memory; None is the null pointer.
  type Links = map<(Node, nat), Option<real>>

  // ----- what the links mean -----

  predicate After(x: Node, k: real) {
    x.Head? || x.key < k
  }

  // r is the first key of the level after node x.
  ghost predicate IsNext(level: set<real>, x: Node, r: Option<real>) {
    match r
    case None => forall k :: k in level ==> !After(x, k)
    case Some(n) => n in level && After(x, n) && forall k :: k in level && After(x, k) ==> n <= k
  }

  ghost predicate OnLevel(level: set<real>, x: Node) {
    x.Head? || x.key in level
  }

  // The links at height i, from the head on, are the keys of the level in order.
  ghost predicate LevelLinked(next: Links, level: set<real>, i: nat) {
    forall x :: OnLevel(level, x) ==> (x, i) in next && IsNext(level, x, next[(x, i)])
  }

  // Every level is linked, and a sublist of the one below.
  ghost predicate Linked(next: Links, maxHeight: nat, levels: seq<set<real>>) {
    && 1 <= maxHeight <= MAX_HEIGHT == |levels|
    && (forall i :: 0 <= i < MAX_HEIGHT ==> LevelLinked(next, levels[i], i))
    && (forall i :: 0 <= i < MAX_HEIGHT - 1 ==> levels[i + 1] <= levels[i])
    && (forall i :: maxHeight <= i < MAX_HEIGHT ==> levels[i] == {})
  }

  // The earliest key at or after `key`.
  ghost predicate IsLeast(level: set<real>, key: real, r: Option<real>) {
    match r
    case None => forall k :: k in level ==> k < key
    case Some(n) => n in level && n >= key && forall k :: k in level && k >= key ==> n <= k
  }

  // The latest node before `key`.
  ghost predicate IsBefore(level: set<real>, key: real, x: Node) {
    OnLevel(level, x) && After(x, key) && forall k :: k in level && k < key ==> !After(x, k)
  }

  ghost predicate IsLast(level: set<real>, x: Node) {
    OnLevel(level, x) && forall k :: k in level ==> !After(x, k)
  }

  // null is considered infinite.
  predicate KeyIsAfterNode(key: real, n: Option<real>) {
    n.Some? && n.value < key
  }

  // A load that does not go on: the node is the latest before the key, and the
  // loaded pointer the earliest at or after it.
  lemma LoadDecides(level: set<real>, x: Node, key: real, n: Option<real>)
    requires OnLevel(level, x) && After(x, key) && IsNext(level, x, n) && !KeyIsAfterNode(key, n)
    ensures IsBefore(level, key, x) && IsLeast(level, key, n)
  {
  }

  // Linking `key` after node p, whose successor it takes over.
  lemma LinkLevel(next: Links, level: set<real>, i: nat, p: Node, key: real)
    requires LevelLinked(next, level, i) && IsBefore(level, key, p) && key !in level
    requires (Item(key), i) in next && (p, i) in next && next[(Item(key), i)] == next[(p, i)]
    ensures LevelLinked(next[(p, i) := Some(key)], level + {key}, i)
  {
    var t, all := next[(p, i) := Some(key)], level + {key};
    assert OnLevel(level, p);
    assert IsNext(level, p, next[(p, i)]);
    forall x | OnLevel(all, x) ensures (x, i) in t && IsNext(all, x, t[(x, i)]) {
      if x == p {
        assert IsNext(all, x, Some(key));
      } else if x == Item(key) {
        assert IsNext(all, x, next[(p, i)]);
      } else {
        assert OnLevel(level, x);
        NextUnmoved(level, p, key, x, next[(x, i)]);
      }
    }
  }

  lemma NextUnmoved(level: set<real>, p: Node, key: real, x: Node, r: Option<real>)
    requires IsBefore(level, key, p) && OnLevel(level, x) && x != p && IsNext(level, x, r)
    ensures IsNext(level + {key}, x, r)
  {
    if After(x, key) {
      // The node before the key lies after x, so x's successor does too.
      assert p.Item? && After(x, p.key);
    }
  }

  lemma OtherLevels(next: Links, level: set<real>, i: nat, p: Node, j: nat, r: Option<real>)
    requires LevelLinked(next, level, i) && (i != j || !OnLevel(level, p))
    ensures LevelLinked(next[(p, j) := r], level, i)
  {
  }

  class SkipList {
    var next: Links
    var maxHeight: nat
    ghost var levels: seq<set<real>>

    ghost predicate Ok()
      reads this
    {
      Linked(next, maxHeight, levels)
    }

    ghost function Contents(): set<real>
      requires Ok()
      reads this
    {
      levels[0]
    }

    constructor ()
      ensures Ok() && Contents() == {}
    {
      next := map i | 0 <= i < MAX_HEIGHT :: (Head, i) := None;
      maxHeight := 1;
      levels := seq(MAX_HEIGHT, i => {});
      new;
      forall i | 0 <= i < MAX_HEIGHT ensures LevelLinked(next, levels[i], i) {
        assert (Head, i) in next;
      }
    }

    method FindGreaterOrEqual(key: real) returns (r: Option<real>, prev: seq<Node>)
      requires Ok()
      ensures IsLeast(Contents(), key, r)
      ensures |prev| == MAX_HEIGHT && forall i :: 0 <= i < maxHeight ==> IsBefore(levels[i], key, prev[i])
    {
      hide LevelLinked, IsNext, IsBefore, IsLeast;
      prev := seq(MAX_HEIGHT, i => Head);
      var x, level := Head, maxHeight - 1;
      while true
        invariant 0 <= level < maxHeight && |prev| == MAX_HEIGHT
        invariant OnLevel(levels[level], x) && After(x, key)
        invariant forall i :: level < i < maxHeight ==> IsBefore(levels[i], key, prev[i])
        decreases level, Ahead(levels[level], x)
      {
        LinkAt(level, x);
        var n := next[(x, level)];
        if KeyIsAfterNode(key, n) {
          AheadShrinks(levels[level], x, n.value);
          x := Item(n.value);
        } else {
          LoadDecides(levels[level], x, key, n);
          prev := prev[level := x];
          if level == 0 {
            r := n;
            return;
          }
          level := level - 1;
        }
      }
    }

    method FindLessThan(key: real) returns (x: Node)
      requires Ok()
      ensures IsBefore(Contents(), key, x)
    {
      hide LevelLinked, IsNext, IsBefore, IsLeast;
      x := Head;
      var level := maxHeight - 1;
      while true
        invariant 0 <= level < maxHeight
        invariant OnLevel(levels[level], x) && After(x, key)
        decreases level, Ahead(levels[level], x)
      {
        LinkAt(level, x);
        var n := next[(x, level)];
        if n == None || n.value >= key {
          LoadDecides(levels[level], x, key, n);
          if level == 0 {
            return;
          }
          level := level - 1;
        } else {
          AheadShrinks(levels[level], x, n.value);
          x := Item(n.value);
        }
      }
    }

    method FindLast() returns (x: Node)
      requires Ok()
      ensures IsLast(Contents(), x)
    {
      hide LevelLinked;
      x := Head;
      var level := maxHeight - 1;
      while true
        invariant 0 <= level < maxHeight
        invariant OnLevel(levels[level], x)
        decreases level, Ahead(levels[level], x)
      {
        LinkAt(level, x);
        var n := next[(x, level)];
        if n == None {
          if level == 0 {
            return;
          }
          level := level - 1;
        } else {
          AheadShrinks(levels[level], x, n.value);
          x := Item(n.value);
        }
      }
    }

    lemma LinkAt(i: nat, x: Node)
      requires Ok() && i < MAX_HEIGHT && OnLevel(levels[i], x)
      ensures (x, i) in next && IsNext(levels[i], x, next[(x, i)])
    {
    }

    // Links a node of the chosen height, from the bottom up.
    method Insert(key: real, height: nat)
      requires Ok() && key !in Contents() && 1 <= height <= MAX_HEIGHT
      modifies this
      ensures Ok() && Contents() == old(Contents()) + {key}
      ensures forall i :: 0 <= i < MAX_HEIGHT ==> levels[i] == old(levels)[i] + if i < height then {key} else {}
    {
      var r, prev := FindGreaterOrEqual(key);
      hide LevelLinked, IsBefore;
      prev := RaiseHeight(key, height, prev);
      ghost var was := levels;
      SublistsMiss(was, key);
      for i := 0 to height
        invariant Ok() && height <= maxHeight
        invariant forall j :: 0 <= j < MAX_HEIGHT ==> levels[j] == was[j] + if j < i then {key} else {}
        invariant forall j :: i <= j < height ==> IsBefore(levels[j], key, prev[j])
      {
        SetOwnNext(key, i, prev[i]);
        Publish(key, i, prev[i]);
      }
    }

    method RaiseHeight(key: real, height: nat, prev: seq<Node>) returns (r: seq<Node>)
      requires Ok() && height <= MAX_HEIGHT == |prev|
      requires forall i :: 0 <= i < maxHeight ==> IsBefore(levels[i], key, prev[i])
      modifies this`maxHeight
      ensures Ok() && height <= maxHeight && |r| == MAX_HEIGHT
      ensures forall i :: 0 <= i < maxHeight ==> IsBefore(levels[i], key, r[i])
    {
      hide LevelLinked, IsBefore;
      r := prev;
      if height > maxHeight {
        for i := maxHeight to height
          invariant |r| == MAX_HEIGHT
          invariant forall j :: 0 <= j < i ==> IsBefore(levels[j], key, r[j])
        {
          r := r[i := Head];
          EmptyBefore(key);
        }
        maxHeight := height;
      }
    }

    // x->NoBarrier_SetNext(i, prev[i]->NoBarrier_Next(i)).
    method SetOwnNext(key: real, i: nat, p: Node)
      requires Ok() && i < MAX_HEIGHT && key !in levels[i] && IsBefore(levels[i], key, p)
      modifies this`next
      ensures Ok() && (Item(key), i) in next && (p, i) in next && next[(Item(key), i)] == next[(p, i)]
    {
      BeforeIsOn(levels[i], key, p);
      hide LevelLinked, IsBefore;
      LinkAt(i, p);
      forall j | 0 <= j < MAX_HEIGHT ensures LevelLinked(next[(Item(key), i) := next[(p, i)]], levels[j], j) {
        OtherLevels(next, levels[j], j, Item(key), i, next[(p, i)]);
      }
      next := next[(Item(key), i) := next[(p, i)]];
    }

    // prev[i]->SetNext(i, x).
    method Publish(key: real, i: nat, p: Node)
      requires Ok() && i < maxHeight && key !in levels[i] && (i > 0 ==> key in levels[i - 1])
      requires IsBefore(levels[i], key, p)
      requires (Item(key), i) in next && (p, i) in next && next[(Item(key), i)] == next[(p, i)]
      modifies this`next, this`levels
      ensures Ok() && levels == old(levels)[i := old(levels)[i] + {key}]
    {
      hide LevelLinked, IsBefore;
      LinkLevel(next, levels[i], i, p, key);
      forall j | 0 <= j < MAX_HEIGHT && j != i ensures LevelLinked(next[(p, i) := Some(key)], levels[j], j) {
        OtherLevels(next, levels[j], j, p, i, Some(key));
      }
      next := next[(p, i) := Some(key)];
      levels := levels[i := levels[i] + {key}];
    }

    method Contains(key: real) returns (r: bool)
      requires Ok()
      ensures r <==> key in Contents()
    {
      var x, _ := FindGreaterOrEqual(key);
      r := x == Some(key);
    }
  }

  // ----- termination of a search -----

  ghost function Ahead(level: set<real>, x: Node): set<real> {
    set k | k in level && After(x, k)
  }

  lemma AheadShrinks(level: set<real>, x: Node, n: real)
    requires n in level && After(x, n)
    ensures Ahead(level, Item(n)) < Ahead(level, x)
  {
    assert n in Ahead(level, x) && n !in Ahead(level, Item(n));
  }

  lemma EmptyBefore(key: real)
    ensures IsBefore({}, key, Head)
  {
  }

  lemma BeforeIsOn(level: set<real>, key: real, x: Node)
    requires IsBefore(level, key, x)
    ensures OnLevel(level, x)
  {
  }

  lemma {:induction false} SublistsMiss(levels: seq<set<real>>, key: real)
    requires |levels| == MAX_HEIGHT && key !in levels[0]
    requires forall i :: 0 <= i < MAX_HEIGHT - 1 ==> levels[i + 1] <= levels[i]
    ensures forall i :: 0 <= i < MAX_HEIGHT ==> key !in levels[i]
  {
    for i := 1 to MAX_HEIGHT
      invariant forall j :: 0 <= j < i ==> key !in levels[j]
    {
      assert levels[i - 1 + 1] <= levels[i - 1];
    }
  }

  // ----- iteration -----

  class Iterator {
    const list: SkipList
    var node: Option<real>

    constructor (l: SkipList)
      ensures list == l && node == None
    {
      list, node := l, None;
    }

    ghost predicate Ok()
      reads this, list
    {
      list.Ok() && (node.Some? ==> node.value in list.Contents())
    }

    method Next()
      requires Ok() && node.Some?
      modifies this
      ensures Ok() && IsNext(list.Contents(), Item(old(node.value)), node)
    {
      list.LinkAt(0, Item(node.value));
      node := list.next[(Item(node.value), 0)];
    }

    // Searches for the last node before the current one.
    method Prev()
      requires Ok() && node.Some?
      modifies this
      ensures Ok()
      ensures IsBefore(list.Contents(), old(node.value), if node.Some? then Item(node.value) else Head)
    {
      var x := list.FindLessThan(node.value);
      node := if x == Head then None else Some(x.key);
    }

    method Seek(target: real)
      requires list.Ok()
      modifies this
      ensures Ok() && IsLeast(list.Contents(), target, node)
    {
      var r, _ := list.FindGreaterOrEqual(target);
      node := r;
    }

    method SeekToFirst()
      requires list.Ok()
      modifies this
      ensures Ok() && IsNext(list.Contents(), Head, node)
    {
      list.LinkAt(0, Head);
      node := list.next[(Head, 0)];
    }

    method SeekToLast()
      requires list.Ok()
      modifies this
      ensures Ok() && IsLast(list.Contents(), if node.Some? then Item(node.value) else Head)
    {
      var x := list.FindLast();
      node := if x == Head then None else Some(x.key);
    }
  }

  // ----- one writer and lock-free readers -----

  // The writer, before it links level i; `raised` once the height is stored,
  // `ready` once its own link at that level is.
  datatype Writer =
    | Idle
    | Inserting(key: real, height: nat, prev: seq<Node>, raised: bool, i: nat, ready: bool)

  // What a search looks for: the first node at or after a key (Seek), the last
  // one before a key (Prev), or the last one of all (SeekToLast).
  datatype Goal = AtOrAfter(key: real) | Before(key: real) | Last

  // Readers do not affect each other, so one iterator stands for all: it stands
  // on a node or on none, or one of its searches is at node x of a level.
  datatype Reader =
    | At(node: Option<real>)
    | Searching(goal: Goal, x: Node, level: nat)

  // A loaded pointer that the search follows.
  predicate GoesOn(goal: Goal, n: Option<real>) {
    if goal.Last? then n.Some? else KeyIsAfterNode(goal.key, n)
  }

  // Where a search has led that ends at node x, whose next node is n.
  function Result(goal: Goal, x: Node, n: Option<real>): Option<real> {
    if goal.AtOrAfter? then n else if x.Head? then None else Some(x.key)
  }

  datatype State = State(next: Links, maxHeight: nat, levels: seq<set<real>>, writer: Writer, reader: Reader)

  datatype Step =
    | Begin(key: real, height: nat, prev: seq<Node>)
    | Raise
    | SetOwnNext
    | PublishLink
    | End
    | StartSearch(goal: Goal)
    | Load
    | LoadFirst
    | LoadNext

  // What the writer's own search leaves in prev: nobody else changes links.
  ghost predicate Searched(s: State, key: real, height: nat, prev: seq<Node>)
    requires |s.levels| == MAX_HEIGHT
  {
    && |prev| == MAX_HEIGHT && 1 <= height <= MAX_HEIGHT
    && (forall i :: 0 <= i < s.maxHeight && i < MAX_HEIGHT ==> IsBefore(s.levels[i], key, prev[i]))
    && (forall i :: s.maxHeight <= i < MAX_HEIGHT ==> prev[i] == Head)
  }

  ghost predicate Next(s: State, step: Step, t: State)
    requires |s.levels| == MAX_HEIGHT
  {
    match step
    case Begin(key, height, prev) =>
      && s.writer == Idle && key !in s.levels[0] && Searched(s, key, height, prev)
      && t == s.(writer := Inserting(key, height, prev, false, 0, false))
    case Raise =>
      && s.writer.Inserting? && !s.writer.raised
      && t == s.(maxHeight := if s.writer.height > s.maxHeight then s.writer.height else s.maxHeight,
                 writer := s.writer.(raised := true))
    case SetOwnNext =>
      && s.writer.Inserting? && s.writer.raised && !s.writer.ready && s.writer.i < s.writer.height
      && s.writer.i < |s.writer.prev|
      && var w := s.writer;
         && (w.prev[w.i], w.i) in s.next
         && t == s.(next := s.next[(Item(w.key), w.i) := s.next[(w.prev[w.i], w.i)]], writer := w.(ready := true))
    case PublishLink =>
      && s.writer.Inserting? && s.writer.ready && s.writer.i < |s.writer.prev| && s.writer.i < |s.levels|
      && var w := s.writer;
         t == s.(next := s.next[(w.prev[w.i], w.i) := Some(w.key)],
                 levels := s.levels[w.i := s.levels[w.i] + {w.key}],
                 writer := w.(i := w.i + 1, ready := false))
    case End =>
      s.writer.Inserting? && s.writer.raised && s.writer.i == s.writer.height && t == s.(writer := Idle)
    case StartSearch(goal) =>
      && s.reader.At? && (goal.Before? ==> s.reader.node == Some(goal.key))
      && s.maxHeight >= 1 && t == s.(reader := Searching(goal, Head, s.maxHeight - 1))
    case Load =>
      && s.reader.Searching? && (s.reader.x, s.reader.level) in s.next
      && var r, n := s.reader, s.next[(s.reader.x, s.reader.level)];
         t == s.(reader :=
           if GoesOn(r.goal, n) then r.(x := Item(n.value))
           else if r.level == 0 then At(Result(r.goal, r.x, n))
           else r.(level := r.level - 1))
    case LoadFirst =>
      s.reader.At? && (Head, 0) in s.next && t == s.(reader := At(s.next[(Head, 0)]))
    case LoadNext =>
      && s.reader.At? && s.reader.node.Some? && (Item(s.reader.node.value), 0) in s.next
      && t == s.(reader := At(s.next[(Item(s.reader.node.value), 0)]))
  }

  ghost predicate WriterOk(s: State)
    requires |s.levels| == MAX_HEIGHT
  {
    s.writer.Inserting? ==>
      var w := s.writer;
      && 1 <= w.height <= MAX_HEIGHT == |w.prev| && w.i <= w.height
      && (if w.raised then w.height <= s.maxHeight else w.i == 0 && !w.ready)
      && (forall l :: 0 <= l < w.i ==> w.key in s.levels[l])
      && (forall l :: w.i <= l < MAX_HEIGHT ==> w.key !in s.levels[l])
      && (forall l :: w.i <= l < w.height ==> IsBefore(s.levels[l], w.key, w.prev[l]))
      && (w.ready ==>
            && w.i < w.height && (Item(w.key), w.i) in s.next && (w.prev[w.i], w.i) in s.next
            && s.next[(Item(w.key), w.i)] == s.next[(w.prev[w.i], w.i)])
  }

  ghost predicate ReaderOk(levels: seq<set<real>>, reader: Reader)
    requires |levels| == MAX_HEIGHT
  {
    match reader
    case At(node) => node.Some? ==> node.value in levels[0]
    case Searching(goal, x, level) =>
      level < MAX_HEIGHT && OnLevel(levels[level], x) && (goal.Last? || After(x, goal.key))
  }

  ghost predicate Inv(s: State) {
    Linked(s.next, s.maxHeight, s.levels) && WriterOk(s) && ReaderOk(s.levels, s.reader)
  }

  // After any step every level is still a sorted, linked sublist of the one
  // below, and every reader is still on a linked node, in a search before its
  // target.
  lemma StepKeepsInv(s: State, step: Step, t: State)
    requires Inv(s) && Next(s, step, t)
    ensures Inv(t)
  {
    match step
    case Begin(key, height, prev) => BeginKeeps(s, key, height, prev, t);
    case SetOwnNext => SetOwnNextKeeps(s, t);
    case PublishLink => PublishKeeps(s, t);
    case Load => LoadKeeps(s, t);
    case LoadFirst => FirstIsExact(s, t);
    case LoadNext => NextIsExact(s, t);
    case _ => hide LevelLinked, IsBefore;
  }

  lemma BeginKeeps(s: State, key: real, height: nat, prev: seq<Node>, t: State)
    requires Inv(s) && Next(s, Begin(key, height, prev), t)
    ensures Inv(t)
  {
    hide LevelLinked, IsBefore;
    SublistsMiss(s.levels, key);
    EmptyBefore(key);
  }

  lemma SetOwnNextKeeps(s: State, t: State)
    requires Inv(s) && Next(s, SetOwnNext, t)
    ensures Inv(t)
  {
    hide LevelLinked, IsBefore;
    var w := s.writer;
    BeforeIsOn(s.levels[w.i], w.key, w.prev[w.i]);
    forall j | 0 <= j < MAX_HEIGHT ensures LevelLinked(t.next, s.levels[j], j) {
      OtherLevels(s.next, s.levels[j], j, Item(w.key), w.i, s.next[(w.prev[w.i], w.i)]);
    }
  }

  lemma PublishKeeps(s: State, t: State)
    requires Inv(s) && Next(s, PublishLink, t)
    ensures Inv(t)
  {
    hide LevelLinked, IsBefore;
    var w := s.writer;
    LinkLevel(s.next, s.levels[w.i], w.i, w.prev[w.i], w.key);
    forall j | 0 <= j < MAX_HEIGHT && j != w.i ensures LevelLinked(t.next, s.levels[j], j) {
      OtherLevels(s.next, s.levels[j], j, w.prev[w.i], w.i, Some(w.key));
    }
  }

  lemma LoadKeeps(s: State, t: State)
    requires Inv(s) && Next(s, Load, t)
    ensures Inv(t)
  {
    hide IsBefore;
    var r := s.reader;
    assert LevelLinked(s.next, s.levels[r.level], r.level);
    assert IsNext(s.levels[r.level], r.x, s.next[(r.x, r.level)]);
  }

  // FindLessThan and FindLast return the head where the iterator gets none.
  function NodeOf(r: Option<real>): Node {
    match r case None => Head case Some(k) => Item(k)
  }

  // A search that ends with this load leads, among the keys in the list at this
  // moment, to the least one at or after its key, to the greatest one before its
  // key, or to the last one, whatever the writer did since the search began.
  lemma SearchIsExact(s: State, t: State)
    requires Inv(s) && Next(s, Load, t) && t.reader.At?
    ensures t.levels == s.levels
    ensures match s.reader.goal
            case AtOrAfter(key) => IsLeast(t.levels[0], key, t.reader.node)
            case Before(key) => IsBefore(t.levels[0], key, NodeOf(t.reader.node))
            case Last => IsLast(t.levels[0], NodeOf(t.reader.node))
  {
    var r := s.reader;
    assert LevelLinked(s.next, s.levels[0], 0);
    assert IsNext(s.levels[0], r.x, s.next[(r.x, 0)]);
    if !r.goal.Last? {
      LoadDecides(s.levels[0], r.x, r.goal.key, s.next[(r.x, 0)]);
    }
  }

  // The one load of SeekToFirst leads to the first key of this moment.
  lemma FirstIsExact(s: State, t: State)
    requires Inv(s) && Next(s, LoadFirst, t)
    ensures t.levels == s.levels && IsNext(t.levels[0], Head, t.reader.node) && Inv(t)
  {
    assert LevelLinked(s.next, s.levels[0], 0);
    assert IsNext(s.levels[0], Head, s.next[(Head, 0)]);
    hide LevelLinked, IsBefore;
  }

  // The one load of Next leads to the first key of this moment after the
  // iterator's.
  lemma NextIsExact(s: State, t: State)
    requires Inv(s) && Next(s, LoadNext, t)
    ensures t.levels == s.levels && IsNext(t.levels[0], Item(s.reader.node.value), t.reader.node) && Inv(t)
  {
    assert LevelLinked(s.next, s.levels[0], 0);
    assert IsNext(s.levels[0], Item(s.reader.node.value), s.next[(Item(s.reader.node.value), 0)]);
    hide LevelLinked, IsBefore;
  }

  // Keys are never lost, so a key inserted before a search began is found.
  lemma KeysStay(s: State, step: Step, t: State)
    requires Inv(s) && Next(s, step, t)
    ensures s.levels[0] <= t.levels[0]
  {
  }

  ghost predicate IsRun(states: seq<State>, steps: seq<Step>) {
    && |states| == |steps| + 1
    && (forall i :: 0 <= i < |states| ==> |states[i].levels| == MAX_HEIGHT)
    && forall i :: 0 <= i < |steps| ==> Next(states[i], steps[i], states[i + 1])
  }

  lemma {:induction false} RunKeepsInv(states: seq<State>, steps: seq<Step>, n: nat)
    requires IsRun(states, steps) && Inv(states[0]) && n <= |steps|
    ensures Inv(states[n]) && states[0].levels[0] <= states[n].levels[0]
    decreases n
  {
    hide Inv;
    if n > 0 {
      RunKeepsInv(states, steps, n - 1);
      assert Next(states[n - 1], steps[n - 1], states[n]);
      StepKeepsInv(states[n - 1], steps[n - 1], states[n]);
      KeysStay(states[n - 1], steps[n - 1], states[n]);
    }
  }

  // A key present when the run starts is where a search for it leads.
  lemma PresentKeyIsFound(states: seq<State>, steps: seq<Step>, n: nat, key: real)
    requires IsRun(states, steps) && Inv(states[0]) && key in states[0].levels[0]
    requires n < |steps| && steps[n].Load? && states[n + 1].reader.At? && states[n].reader.goal == AtOrAfter(key)
    ensures states[n + 1].reader.node == Some(key)
  {
    RunKeepsInv(states, steps, n);
    SearchIsExact(states[n], states[n + 1]);
  }

  // The writer's steps, and Next on the iterator.
  predicate Scans(step: Step) {
    !step.StartSearch? && !step.Load? && !step.LoadFirst?
  }

  // A scan from a key to the end, with any insertions on the way, comes by every
  // later key that was there when it began.
  lemma {:induction false} ScanMeets(states: seq<State>, steps: seq<Step>, n: nat, key: real) returns (i: nat)
    requires IsRun(states, steps) && Inv(states[0]) && key in states[0].levels[0]
    requires n <= |steps| && forall j :: n <= j < |steps| ==> Scans(steps[j])
    requires states[n].reader.At? && states[n].reader.node.Some? && states[n].reader.node.value <= key
    requires states[|steps|].reader == At(None)
    ensures n <= i <= |steps| && states[i].reader == At(Some(key))
    decreases |steps| - n
  {
    if states[n].reader.node.value == key {
      i := n;
    } else {
      RunKeepsInv(states, steps, n);
      var s, t := states[n], states[n + 1];
      assert Next(s, steps[n], t);
      if steps[n].LoadNext? {
        NextIsExact(s, t);
        assert key in t.levels[0] && After(Item(s.reader.node.value), key);
      }
      i := ScanMeets(states, steps, n + 1, key);
    }
  }

  // The writer's steps, and Prev on the iterator.
  predicate ScansBack(step: Step) {
    (step.StartSearch? ==> step.goal.Before?) && !step.LoadFirst? && !step.LoadNext?
  }

  // On the way back to an earlier key: on a later one, or in a search from one.
  ghost predicate StillBehind(key: real, reader: Reader) {
    match reader
    case At(node) => node.Some? && node.value >= key
    case Searching(goal, _, _) => goal.Before? && goal.key > key
  }

  // The same for a scan backwards, which is a search for every key.
  lemma {:induction false} ScanBackMeets(states: seq<State>, steps: seq<Step>, n: nat, key: real) returns (i: nat)
    requires IsRun(states, steps) && Inv(states[0]) && key in states[0].levels[0]
    requires n <= |steps| && forall j :: n <= j < |steps| ==> ScansBack(steps[j])
    requires StillBehind(key, states[n].reader) && states[|steps|].reader == At(None)
    ensures n <= i <= |steps| && states[i].reader == At(Some(key))
    decreases |steps| - n
  {
    if states[n].reader == At(Some(key)) {
      i := n;
    } else {
      RunKeepsInv(states, steps, n);
      var s, t := states[n], states[n + 1];
      assert Next(s, steps[n], t);
      if steps[n].Load? && t.reader.At? {
        SearchIsExact(s, t);
        assert key in t.levels[0];
      }
      i := ScanBackMeets(states, steps, n + 1, key);
    }
  }
}
