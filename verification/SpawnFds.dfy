/**
 * posix_spawn file actions: the child's descriptor table is simulated in an
 * array of mappings while the actions are walked once, and then summarised as
 * three stdio descriptors, a list of inherited descriptors and a list of
 * explicit mappings. The meaning is the left-to-right effect of the actions on
 * a table in which every descriptor starts as the parent's own.
 */
module SpawnFds {
  import opened Wrappers
  import opened Bytes

  const PASS_LIMIT := 2048

  datatype Action =
    | Open(fd: int)
    | Close(fd: int)
    | Dup2(src: int, fd: int)
    | Chdir(path: Data)

  // ---- Meaning ----

  /** The descriptors the actions have touched: the parent descriptor behind each, or None if closed. */
  type Table = map<int, Option<int>>

  function Lookup(t: Table, fd: int): Option<int> {
    if fd in t then t[fd] else Some(fd)
  }

  /** One action, given what open() returned if it is an open; None when the spawn fails there. */
  function Apply(t: Table, a: Action, got: int): Option<Table> {
    match a
    case Open(fd) => if got < 0 || fd < 0 then None else Some(t[fd := Some(got)])
    case Close(fd) => if fd < 0 then None else Some(t[fd := None])
    case Dup2(src, fd) =>
      if src < 0 || Lookup(t, src).None? || fd < 0 then None else Some(t[fd := Lookup(t, src)])
    case Chdir(_) => Some(t)
  }

  /** The first `n` actions, left to right. */
  function Fold(actions: seq<Action>, opens: seq<int>, n: nat): Option<Table>
    requires n <= |actions| == |opens|
  {
    if n == 0 then Some(map[]) else
    var before := Fold(actions, opens, n - 1);
    if before.None? then None else Apply(before.value, actions[n - 1], opens[n - 1])
  }

  /** The actions that take effect: all of them, or those before the one that fails. */
  function Effective(actions: seq<Action>, opens: seq<int>, n: nat): (k: nat)
    requires n <= |actions| == |opens|
    ensures k <= n && Fold(actions, opens, k).Some?
    ensures k < n ==> Fold(actions, opens, k + 1).None?
    ensures k == n <==> Fold(actions, opens, n).Some?
  {
    if n == 0 then 0
    else if Fold(actions, opens, n).Some? then n
    else Effective(actions, opens, n - 1)
  }

  /** The descriptors opened in the parent by the first `n` actions, in order. */
  function Opened(actions: seq<Action>, opens: seq<int>, n: nat): (r: seq<int>)
    requires n <= |actions| == |opens|
    ensures |r| <= n
  {
    if n == 0 then []
    else Opened(actions, opens, n - 1) + (if actions[n - 1].Open? && opens[n - 1] >= 0 then [opens[n - 1]] else [])
  }

  // ---- The mapping array ----

  datatype Mapping = Mapping(child: int, parent: int, open: bool)

  function Meaning(m: Mapping): Option<int> {
    if m.open then Some(m.parent) else None
  }

  /** The slots with `m` in the place of its descriptor's slot, or at the end. */
  function Place(slots: seq<Mapping>, m: Mapping): (r: seq<Mapping>)
    ensures |slots| <= |r| <= |slots| + 1
  {
    var i := SlotOf(slots, m.child);
    if i < |slots| then slots[i := m] else slots + [m]
  }

  function SlotOf(slots: seq<Mapping>, child: int): (i: nat)
    ensures i <= |slots| && (i < |slots| ==> slots[i].child == child)
    ensures forall j :: 0 <= j < i ==> slots[j].child != child
  {
    if slots == [] || slots[0].child == child then 0 else 1 + SlotOf(slots[1..], child)
  }

  lemma SlotFound(slots: seq<Mapping>, child: int, i: nat)
    requires i <= |slots| && (i < |slots| ==> slots[i].child == child) &&
        forall j :: 0 <= j < i ==> slots[j].child != child
    ensures SlotOf(slots, child) == i
  {
  }

  /** The slot an action asks for, the table so far being `t`. */
  function Wanted(t: Table, a: Action, got: int): Option<Mapping> {
    match a
    case Open(fd) => Some(Mapping(fd, got, true))
    case Close(fd) => Some(Mapping(fd, -1, false))
    case Dup2(src, fd) => if Lookup(t, src).Some? then Some(Mapping(fd, Lookup(t, src).value, true)) else None
    case Chdir(_) => None
  }

  function Placed(slots: seq<Mapping>, m: Option<Mapping>): seq<Mapping> {
    if m.Some? then Place(slots, m.value) else slots
  }

  /** The slots after the first `n` actions. */
  function SlotsAfter(actions: seq<Action>, opens: seq<int>, n: nat): (r: seq<Mapping>)
    requires n <= |actions| == |opens| && Fold(actions, opens, n).Some?
    ensures |r| <= n
  {
    if n == 0 then [] else
    Placed(SlotsAfter(actions, opens, n - 1), Wanted(Fold(actions, opens, n - 1).value, actions[n - 1], opens[n - 1]))
  }

  /** The slots hold the table, one slot per touched descriptor. */
  ghost predicate Holds(slots: seq<Mapping>, t: Table) {
    && (forall i, j :: 0 <= i < j < |slots| ==> slots[i].child != slots[j].child)
    && (forall i :: 0 <= i < |slots| ==> slots[i].child in t && t[slots[i].child] == Meaning(slots[i]))
    && (forall fd :: fd in t ==> exists i :: 0 <= i < |slots| && slots[i].child == fd)
  }

  lemma HoldsUpdate(slots: seq<Mapping>, t: Table, i: nat, m: Mapping)
    requires Holds(slots, t) && i < |slots| && m.child == slots[i].child
    ensures Holds(slots[i := m], t[m.child := Meaning(m)])
  {
    var slots' := slots[i := m];
    forall fd | fd in t ensures exists k :: 0 <= k < |slots'| && slots'[k].child == fd {
      var k :| 0 <= k < |slots| && slots[k].child == fd;
      assert slots'[k].child == fd;
    }
  }

  lemma HoldsAppend(slots: seq<Mapping>, t: Table, m: Mapping)
    requires Holds(slots, t) && m.child !in t
    ensures Holds(slots + [m], t[m.child := Meaning(m)])
  {
    var slots' := slots + [m];
    forall fd | fd in t ensures exists k :: 0 <= k < |slots'| && slots'[k].child == fd {
      var k :| 0 <= k < |slots| && slots[k].child == fd;
      assert slots'[k].child == fd;
    }
    assert slots'[|slots|].child == m.child;
  }

  lemma NotTouched(slots: seq<Mapping>, t: Table, fd: int)
    requires Holds(slots, t) && forall i :: 0 <= i < |slots| ==> slots[i].child != fd
    ensures fd !in t
  {
  }

  lemma Touched(slots: seq<Mapping>, t: Table, i: nat)
    requires Holds(slots, t) && i < |slots|
    ensures slots[i].child in t && t[slots[i].child] == Meaning(slots[i])
  {
  }

  method SetChildMapping(maps: array<Mapping>, count: nat, child: int, parent: int, open: bool, ghost t: Table)
    returns (ok: bool, newCount: nat)
    requires count <= maps.Length && Holds(maps[..count], t)
    modifies maps
    ensures newCount <= maps.Length && count <= newCount <= count + 1
    ensures ok ==> Holds(maps[..newCount], t[child := if open then Some(parent) else None])
    ensures ok ==> maps[..newCount] == Place(old(maps[..count]), Mapping(child, parent, open))
    ensures !ok ==> newCount == count && maps[..] == old(maps[..])
    ensures ok <==> child >= 0 && (child in t || count < maps.Length)
  {
    if child < 0 {
      return false, count;
    }
    hide Holds;
    for i := 0 to count
      invariant maps[..] == old(maps[..])
      invariant forall j :: 0 <= j < i ==> maps[j].child != child
    {
      if maps[i].child == child {
        Touched(maps[..count], t, i);
        HoldsUpdate(maps[..count], t, i, Mapping(child, parent, open));
        SlotFound(maps[..count], child, i);
        maps[i] := Mapping(child, parent, open);
        assert maps[..count] == old(maps[..count])[i := Mapping(child, parent, open)];
        return true, count;
      }
    }
    NotTouched(maps[..count], t, child);
    if count >= maps.Length {
      return false, count;
    }
    HoldsAppend(maps[..count], t, Mapping(child, parent, open));
    SlotFound(maps[..count], child, count);
    maps[count] := Mapping(child, parent, open);
    assert maps[..count + 1] == old(maps[..count]) + [Mapping(child, parent, open)];
    return true, count + 1;
  }

  method ResolveChildParentFd(maps: array<Mapping>, count: nat, child: int, ghost t: Table)
    returns (parent: Option<int>)
    requires count <= maps.Length && Holds(maps[..count], t)
    ensures parent == if child < 0 then None else Lookup(t, child)
  {
    if child < 0 {
      return None;
    }
    for i := 0 to count
      invariant forall j :: 0 <= j < i ==> maps[j].child != child
    {
      if maps[i].child != child {
        continue;
      }
      assert maps[..count][i] == maps[i];
      if !maps[i].open {
        return None;
      }
      return Some(maps[i].parent);
    }
    assert child !in t;
    return Some(child);
  }

  /** What a stdio field of the request says for a table. */
  function Stdio(t: Table, fd: int): int {
    if Lookup(t, fd).Some? then Lookup(t, fd).value else -1
  }

  ghost predicate StdioOf(stdio: seq<int>, t: Table) {
    |stdio| == 3 && forall k :: 0 <= k < 3 ==> stdio[k] == Stdio(t, k)
  }

  /** One turn of the loop over the actions. */
  method ResolveAction(a: Action, got: int, stdio: array<int>, maps: array<Mapping>, fds: array<int>,
                       mapCount: nat, openedCount: nat, ghost t: Table)
    returns (ok: bool, newMaps: nat, newOpened: nat)
    requires mapCount < maps.Length && openedCount < fds.Length && stdio != fds
    requires Holds(maps[..mapCount], t) && StdioOf(stdio[..], t)
    modifies stdio, maps, fds
    ensures ok <==> Apply(t, a, got).Some?
    ensures newMaps <= mapCount + 1 && newOpened <= openedCount + 1
    ensures ok ==> Holds(maps[..newMaps], Apply(t, a, got).value) && StdioOf(stdio[..], Apply(t, a, got).value)
    ensures ok ==> maps[..newMaps] == Placed(old(maps[..mapCount]), Wanted(t, a, got))
    ensures fds[..newOpened] == old(fds[..openedCount]) + if a.Open? && got >= 0 then [got] else []
  {
    hide Holds, Place;
    newMaps, newOpened := mapCount, openedCount;
    match a
    case Open(fd) =>
      if got < 0 {
        return false, newMaps, newOpened;
      }
      fds[openedCount] := got;
      newOpened := openedCount + 1;
      ok, newMaps := SetChildMapping(maps, mapCount, fd, got, true, t);
      if ok && 0 <= fd <= 2 {
        stdio[fd] := got;
      }
    case Close(fd) =>
      ok, newMaps := SetChildMapping(maps, mapCount, fd, -1, false, t);
      if ok && 0 <= fd <= 2 {
        stdio[fd] := -1;
      }
    case Dup2(src, fd) =>
      var parent := ResolveChildParentFd(maps, mapCount, src, t);
      if parent.None? {
        return false, newMaps, newOpened;
      }
      ok, newMaps := SetChildMapping(maps, mapCount, fd, parent.value, true, t);
      if ok && 0 <= fd <= 2 {
        stdio[fd] := parent.value;
      }
    case Chdir(_) =>
      ok := true;
  }

  /**
   * Walks the actions once. The arrays have a slot per action and never
   * overflow; what was opened is recorded even when a later action fails.
   */
  method ResolveSpawnFds(actions: seq<Action>, opens: seq<int>, stdio: array<int>, maps: array<Mapping>,
                         fds: array<int>)
    returns (ok: bool, mapCount: nat, openedCount: nat)
    requires |opens| == |actions| <= maps.Length && |actions| <= fds.Length
    requires stdio.Length == 3 && stdio != fds
    modifies stdio, maps, fds
    ensures ok <==> Fold(actions, opens, |actions|).Some?
    ensures mapCount <= maps.Length && openedCount <= fds.Length
    ensures ok ==> maps[..mapCount] == SlotsAfter(actions, opens, |actions|)
    ensures ok ==> Holds(maps[..mapCount], Fold(actions, opens, |actions|).value)
    ensures ok ==> StdioOf(stdio[..], Fold(actions, opens, |actions|).value)
    ensures fds[..openedCount] == Opened(actions, opens, Attempted(actions, opens))
  {
    stdio[0], stdio[1], stdio[2] := 0, 1, 2;
    mapCount, openedCount := 0, 0;
    assert Holds(maps[..mapCount], map[]) && StdioOf(stdio[..], map[]);
    assert Fold(actions, opens, 0) == Some(map[]) && SlotsAfter(actions, opens, 0) == [] &&
        Opened(actions, opens, 0) == [];
    hide Holds, StdioOf, Apply, Place, Wanted, Placed, Fold, SlotsAfter, Opened;
    for i := 0 to |actions|
      invariant Fold(actions, opens, i).Some?
      invariant mapCount <= i && openedCount <= i
      invariant maps[..mapCount] == SlotsAfter(actions, opens, i)
      invariant Holds(maps[..mapCount], Fold(actions, opens, i).value)
      invariant StdioOf(stdio[..], Fold(actions, opens, i).value)
      invariant fds[..openedCount] == Opened(actions, opens, i)
    {
      StepActions(actions, opens, i);
      ok, mapCount, openedCount := ResolveAction(actions[i], opens[i], stdio, maps, fds, mapCount, openedCount,
                                                 Fold(actions, opens, i).value);
      if !ok {
        FailsAt(actions, opens, i);
        return;
      }
    }
    ok := true;
  }

  /** What one more action does to the fold, the slots and the opened descriptors. */
  lemma StepActions(actions: seq<Action>, opens: seq<int>, i: nat)
    requires i < |actions| == |opens| && Fold(actions, opens, i).Some?
    ensures Fold(actions, opens, i + 1) == Apply(Fold(actions, opens, i).value, actions[i], opens[i])
    ensures Fold(actions, opens, i + 1).Some? ==>
              SlotsAfter(actions, opens, i + 1) ==
              Placed(SlotsAfter(actions, opens, i), Wanted(Fold(actions, opens, i).value, actions[i], opens[i]))
    ensures Opened(actions, opens, i + 1) ==
            Opened(actions, opens, i) + if actions[i].Open? && opens[i] >= 0 then [opens[i]] else []
  {
    hide Apply, Placed, Wanted;
  }

  /** The actions whose open() was called: those that took effect and the one that failed. */
  function Attempted(actions: seq<Action>, opens: seq<int>): (k: nat)
    requires |actions| == |opens|
    ensures k <= |actions|
  {
    var e := Effective(actions, opens, |actions|);
    if e < |actions| then e + 1 else e
  }

  lemma {:induction false} FailsAt(actions: seq<Action>, opens: seq<int>, i: nat)
    requires |actions| == |opens| && i < |actions|
    requires Fold(actions, opens, i).Some? && Fold(actions, opens, i + 1).None?
    ensures Fold(actions, opens, |actions|).None? && Effective(actions, opens, |actions|) == i
  {
    StaysFailed(actions, opens, i + 1, |actions|);
    var e := Effective(actions, opens, |actions|);
    if e < i {
      StaysFailed(actions, opens, e + 1, i);
    } else if e > i {
      StaysFailed(actions, opens, i + 1, e);
    }
  }

  lemma {:induction false} StaysFailed(actions: seq<Action>, opens: seq<int>, i: nat, n: nat)
    requires i <= n <= |actions| == |opens|
    ensures Fold(actions, opens, i).None? ==> Fold(actions, opens, n).None?
  {
    if i >= n {
    } else {
      StaysFailed(actions, opens, i, n - 1);
    }
  }

  // ---- The request: what is inherited, what is mapped, what is closed ----

  /** The fd field of an action; a chdir leaves it zero. */
  function FdField(a: Action): int {
    if a.Chdir? then 0 else a.fd
  }

  /** Whether the last of the first `n` actions on `fd` closed it. */
  function ClosedBy(actions: seq<Action>, n: nat, fd: int): bool
    requires n <= |actions|
  {
    n > 0 &&
    var a := actions[n - 1];
    if FdField(a) == fd && a.Close? then true
    else if FdField(a) == fd && (a.Open? || a.Dup2?) then false
    else ClosedBy(actions, n - 1, fd)
  }

  /** The rescan of the actions agrees with the table the walk built. */
  lemma {:induction false} ClosedByAgrees(actions: seq<Action>, opens: seq<int>, n: nat, fd: int)
    requires n <= |actions| == |opens| && Fold(actions, opens, n).Some?
    ensures ClosedBy(actions, n, fd) <==> Lookup(Fold(actions, opens, n).value, fd).None?
  {
    if n == 0 {
    } else {
      ClosedByAgrees(actions, opens, n - 1, fd);
    }
  }

  method ChildFdIsClosed(actions: seq<Action>, fd: int) returns (closed: bool)
    ensures closed <==> ClosedBy(actions, |actions|, fd)
  {
    closed := false;
    for i := 0 to |actions|
      invariant closed <==> ClosedBy(actions, i, fd)
    {
      var a := actions[i];
      if FdField(a) != fd {
        continue;
      }
      if a.Close? {
        closed := true;
      } else if a.Open? || a.Dup2? {
        closed := false;
      }
    }
  }

  method ChildFdIsExplicitlyMapped(slots: seq<Mapping>, fd: int, ghost t: Table) returns (mapped: bool)
    requires Holds(slots, t)
    ensures mapped <==> fd in t && t[fd].Some?
  {
    for i := 0 to |slots|
      invariant forall j :: 0 <= j < i ==> slots[j].child != fd
    {
      if slots[i].child == fd {
        Touched(slots, t, i);
        return slots[i].open;
      }
    }
    NotTouched(slots, t, fd);
    return false;
  }

  function Range(lo: int, hi: int): (r: seq<int>)
    requires lo <= hi
    ensures |r| == hi - lo && forall i :: 0 <= i < |r| ==> r[i] == lo + i
  {
    seq(hi - lo, i => lo + i)
  }

  /** Those of `fds` that no action touched, in order. */
  function Untouched(t: Table, fds: seq<int>): (r: seq<int>)
    ensures forall x :: x in r <==> x in fds && x !in t
  {
    if fds == [] then []
    else Untouched(t, fds[..|fds| - 1]) + (if fds[|fds| - 1] in t then [] else [fds[|fds| - 1]])
  }

  /** The descriptors the child simply inherits. */
  function PassList(t: Table): seq<int> {
    Untouched(t, Range(3, PASS_LIMIT))
  }

  lemma PassListHas(t: Table, fd: int)
    ensures fd in PassList(t) <==> 3 <= fd < PASS_LIMIT && fd !in t
  {
    if 3 <= fd < PASS_LIMIT { assert Range(3, PASS_LIMIT)[fd - 3] == fd; }
  }

  /** The test both loops of the inherited list make. */
  method IsInherited(actions: seq<Action>, opens: seq<int>, slots: seq<Mapping>, fd: int, ghost t: Table)
    returns (inherited: bool)
    requires |actions| == |opens| && Fold(actions, opens, |actions|) == Some(t) && Holds(slots, t)
    ensures inherited <==> fd !in t
  {
    hide Holds, Fold;
    ClosedByAgrees(actions, opens, |actions|, fd);
    var closed := ChildFdIsClosed(actions, fd);
    var mapped := ChildFdIsExplicitlyMapped(slots, fd, t);
    return !closed && !mapped;
  }

  /** Counts the inherited descriptors, then lists them in an array of that size. */
  method PassFds(actions: seq<Action>, opens: seq<int>, slots: seq<Mapping>, ghost t: Table)
    returns (fds: array<int>)
    requires |actions| == |opens| && Fold(actions, opens, |actions|) == Some(t) && Holds(slots, t)
    ensures fresh(fds) && fds[..] == PassList(t)
  {
    hide Holds, Fold, Untouched;
    var count := 0;
    UntouchedNone(t);
    for fd := 3 to PASS_LIMIT
      invariant count == |Untouched(t, Range(3, fd))|
    {
      UntouchedNext(t, fd);
      var inherited := IsInherited(actions, opens, slots, fd, t);
      if inherited {
        count := count + 1;
      }
    }
    fds := new int[count];
    count := 0;
    for fd := 3 to PASS_LIMIT
      invariant fds.Length == |PassList(t)| && count <= fds.Length
      invariant fds[..count] == Untouched(t, Range(3, fd))
    {
      UntouchedNext(t, fd);
      UntouchedPrefix(t, fd + 1, PASS_LIMIT);
      var inherited := IsInherited(actions, opens, slots, fd, t);
      if inherited {
        ghost var before := fds[..count];
        fds[count] := fd;
        count := count + 1;
        assert fds[..count] == before + [fd];
      }
    }
    assert fds[..count] == fds[..];
  }

  lemma UntouchedNone(t: Table)
    ensures Untouched(t, Range(3, 3)) == []
  {
  }

  lemma UntouchedNext(t: Table, fd: int)
    requires 3 <= fd
    ensures Untouched(t, Range(3, fd + 1)) == Untouched(t, Range(3, fd)) + if fd in t then [] else [fd]
  {
    assert Range(3, fd + 1)[..fd - 3] == Range(3, fd);
  }

  lemma {:induction false} UntouchedPrefix(t: Table, fd: int, limit: int)
    requires 3 <= fd <= limit
    ensures |Untouched(t, Range(3, fd))| <= |Untouched(t, Range(3, limit))|
    decreases limit - fd
  {
    hide Untouched;
    if fd >= limit {
    } else {
      UntouchedNext(t, fd);
      UntouchedPrefix(t, fd + 1, limit);
    }
  }

  /** The explicit mappings of the request, as (parent, child) pairs. */
  function FdMap(slots: seq<Mapping>): seq<(int, int)> {
    if slots == [] then []
    else FdMap(slots[..|slots| - 1]) + Pairs(slots[|slots| - 1])
  }

  function Pairs(m: Mapping): seq<(int, int)> {
    if m.open && m.child >= 3 then [(m.parent, m.child)] else []
  }

  method BuildFdMap(slots: seq<Mapping>) returns (pairs: array<(int, int)>)
    ensures fresh(pairs) && pairs[..] == FdMap(slots)
  {
    var count := 0;
    for i := 0 to |slots|
      invariant count == |FdMap(slots[..i])|
    {
      assert slots[..i + 1][..i] == slots[..i];
      if slots[i].open && slots[i].child >= 3 {
        count := count + 1;
      }
    }
    assert slots[..|slots|] == slots;
    pairs := new (int, int)[count](_ => (0, 0));
    count := 0;
    for i := 0 to |slots|
      invariant pairs.Length == |FdMap(slots)| && count == |FdMap(slots[..i])| <= pairs.Length
      invariant pairs[..count] == FdMap(slots[..i])
    {
      FdMapGrows(slots, i);
      assert slots[..i + 1][..i] == slots[..i];
      if !slots[i].open || slots[i].child < 3 {
        continue;
      }
      ghost var before := pairs[..count];
      pairs[count] := (slots[i].parent, slots[i].child);
      count := count + 1;
      assert pairs[..count] == before + Pairs(slots[i]);
    }
    assert pairs[..count] == pairs[..];
  }

  lemma {:induction false} FdMapGrows(slots: seq<Mapping>, i: nat)
    requires i < |slots|
    ensures |FdMap(slots[..i + 1])| <= |FdMap(slots)|
    decreases |slots|
  {
    if i + 1 == |slots| {
      assert slots[..i + 1] == slots;
    } else {
      var less := slots[..|slots| - 1];
      FdMapGrows(less, i);
      assert less[..i + 1] == slots[..i + 1];
    }
  }

  lemma {:induction false} FdMapHas(slots: seq<Mapping>, t: Table, parent: int, child: int)
    requires Holds(slots, t)
    ensures (parent, child) in FdMap(slots) <==> child >= 3 && child in t && t[child] == Some(parent)
  {
    if (parent, child) in FdMap(slots) {
      var i := FdMapFrom(slots, parent, child);
      Touched(slots, t, i);
    }
    if child >= 3 && child in t && t[child] == Some(parent) {
      var i :| 0 <= i < |slots| && slots[i].child == child;
      Touched(slots, t, i);
      FdMapTo(slots, i);
    }
  }

  lemma {:induction false} FdMapFrom(slots: seq<Mapping>, parent: int, child: int) returns (i: nat)
    requires (parent, child) in FdMap(slots)
    ensures i < |slots| && slots[i] == Mapping(child, parent, true) && child >= 3
  {
    var last := |slots| - 1;
    if (parent, child) in FdMap(slots[..last]) {
      i := FdMapFrom(slots[..last], parent, child);
    } else {
      i := last;
    }
  }

  lemma {:induction false} FdMapTo(slots: seq<Mapping>, i: nat)
    requires i < |slots| && slots[i].open && slots[i].child >= 3
    ensures (slots[i].parent, slots[i].child) in FdMap(slots)
  {
    var last := |slots| - 1;
    if i >= last {
    } else {
      FdMapTo(slots[..last], i);
    }
  }

  // ---- Reading the request back ----

  /** The child's descriptor as the request describes it. */
  ghost function ReadBack(stdio: seq<int>, pass: seq<int>, fdMap: seq<(int, int)>, fd: int): Option<int>
    requires |stdio| == 3 && fd >= 0
  {
    if fd <= 2 then (if stdio[fd] == -1 then None else Some(stdio[fd]))
    else if p :| (p, fd) in fdMap then Some(p)
    else if fd in pass then Some(fd)
    else None
  }

  lemma ReadBackTable(t: Table, stdio: seq<int>, slots: seq<Mapping>, fd: int)
    requires fd >= 0 && Holds(slots, t) && StdioOf(stdio, t)
    requires Lookup(t, fd).Some? ==> Lookup(t, fd).value >= 0
    ensures ReadBack(stdio, PassList(t), FdMap(slots), fd) == Lookup(t, fd) <==> fd < PASS_LIMIT || fd in t
    ensures fd >= PASS_LIMIT && fd !in t ==> ReadBack(stdio, PassList(t), FdMap(slots), fd) == None
  {
    if fd > 2 {
      hide StdioOf;
      forall p ensures (p, fd) in FdMap(slots) <==> fd in t && t[fd] == Some(p) {
        FdMapHas(slots, t, p, fd);
      }
      hide Holds, FdMap;
      PassListHas(t, fd);
    }
  }

  /**
   * The request describes the folded table: exactly for every descriptor below
   * 2048, and above that exactly for those some action touched.
   */
  lemma RequestMeansTable(actions: seq<Action>, opens: seq<int>, stdio: seq<int>, slots: seq<Mapping>, fd: int)
    requires |actions| == |opens| && Fold(actions, opens, |actions|).Some? && fd >= 0
    requires Holds(slots, Fold(actions, opens, |actions|).value)
    requires StdioOf(stdio, Fold(actions, opens, |actions|).value)
    ensures var t := Fold(actions, opens, |actions|).value;
            ReadBack(stdio, PassList(t), FdMap(slots), fd) == Lookup(t, fd) <==> fd < PASS_LIMIT || fd in t
    ensures var t := Fold(actions, opens, |actions|).value;
            fd >= PASS_LIMIT && fd !in t ==> ReadBack(stdio, PassList(t), FdMap(slots), fd) == None
  {
    hide Fold, Holds, StdioOf, ReadBack, FdMap, PassList;
    ParentsAreDescriptors(actions, opens, |actions|, fd);
    ReadBackTable(Fold(actions, opens, |actions|).value, stdio, slots, fd);
  }

  lemma {:induction false} SlotsHold(actions: seq<Action>, opens: seq<int>, n: nat)
    requires n <= |actions| == |opens| && Fold(actions, opens, n).Some?
    ensures Holds(SlotsAfter(actions, opens, n), Fold(actions, opens, n).value)
  {
    if n == 0 {
    } else {
      SlotsHold(actions, opens, n - 1);
      var t, slots := Fold(actions, opens, n - 1).value, SlotsAfter(actions, opens, n - 1);
      var m := Wanted(t, actions[n - 1], opens[n - 1]);
      hide Holds, SlotsAfter, Fold;
      if m.Some? { PlaceHolds(slots, t, m.value); }
    }
  }

  lemma PlaceHolds(slots: seq<Mapping>, t: Table, m: Mapping)
    requires Holds(slots, t)
    ensures Holds(Place(slots, m), t[m.child := Meaning(m)])
  {
    var i := SlotOf(slots, m.child);
    if i < |slots| {
      HoldsUpdate(slots, t, i, m);
    } else {
      NotTouched(slots, t, m.child);
      HoldsAppend(slots, t, m);
    }
  }

  lemma {:induction false} ParentsAreDescriptors(actions: seq<Action>, opens: seq<int>, n: nat, fd: int)
    requires n <= |actions| == |opens| && Fold(actions, opens, n).Some? && fd >= 0
    ensures Lookup(Fold(actions, opens, n).value, fd).Some? ==> Lookup(Fold(actions, opens, n).value, fd).value >= 0
  {
    if n == 0 {
    } else {
      ParentsAreDescriptors(actions, opens, n - 1, fd);
      if actions[n - 1].Dup2? && actions[n - 1].src >= 0 {
        ParentsAreDescriptors(actions, opens, n - 1, actions[n - 1].src);
      }
    }
  }

  /** Each descriptor from 3 to 2047 is inherited, mapped or closed, and only one of these. */
  lemma RequestPartitions(actions: seq<Action>, opens: seq<int>, slots: seq<Mapping>, fd: int)
    requires |actions| == |opens| && Fold(actions, opens, |actions|).Some? && 3 <= fd < PASS_LIMIT
    requires Holds(slots, Fold(actions, opens, |actions|).value)
    ensures var t := Fold(actions, opens, |actions|).value;
            var passed, mapped := fd in PassList(t), exists p :: (p, fd) in FdMap(slots);
            var closed := ClosedBy(actions, |actions|, fd);
            && (passed || mapped || closed)
            && !(passed && mapped) && !(passed && closed) && !(mapped && closed)
  {
    var t := Fold(actions, opens, |actions|).value;
    ClosedByAgrees(actions, opens, |actions|, fd);
    PassListHas(t, fd);
    forall p ensures (p, fd) in FdMap(slots) <==> fd in t && t[fd] == Some(p) {
      FdMapHas(slots, t, p, fd);
    }
  }
}
