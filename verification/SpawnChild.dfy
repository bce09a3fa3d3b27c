/**
 What the forked child does to its descriptors before it becomes the new
 program: `move_above` and `child` of `spawn.c`.
 */
module SpawnChild {

  /** An entry of a descriptor table.  A file is any number that tells two apart. */
  datatype Desc = Desc(file: int, cloexec: bool)

  type Table = map<int, Desc>

  ghost predicate Numbered(t: Table) { forall k :: k in t ==> k >= 0 }

  const EMFILE: int := 24
  const EINVAL: int := 22
  const EBADF: int := 9

  /** How many numbers from `floor` up to `top` are free. */
  function Free(t: Table, floor: nat, top: nat): nat
    decreases top
  {
    if top <= floor then 0 else Free(t, floor, top - 1) + (if top - 1 in t then 0 else 1)
  }

  lemma {:induction false} FreeTaken(t: Table, floor: nat, top: nat, r: nat, d: Desc)
    requires floor <= r < top && r !in t
    ensures Free(t[r := d], floor, top) == Free(t, floor, top) - 1
    decreases top
  {
    if r < top - 1 { FreeTaken(t, floor, top - 1, r, d); } else { FreeSame(t, t[r := d], floor, top - 1); }
  }

  lemma {:induction false} FreeSame(t: Table, u: Table, floor: nat, top: nat)
    requires forall k :: floor <= k < top ==> (k in t <==> k in u)
    ensures Free(t, floor, top) == Free(u, floor, top)
    decreases top
  {
    if floor < top { FreeSame(t, u, floor, top - 1); }
  }

  lemma {:induction false} FreeNone(t: Table, floor: nat, top: nat)
    ensures Free(t, floor, top) == 0 <==> forall k :: floor <= k < top ==> k in t
    decreases top
  {
    if floor < top { FreeNone(t, floor, top - 1); }
  }

  /** How many of the first `n` sources sit in a slot that is filled before they are read. */
  function Below(fds: seq<int>, n: nat): nat
    requires n <= |fds|
  {
    if n == 0 then 0 else Below(fds, n - 1) + (if 0 <= fds[n - 1] < n - 1 then 1 else 0)
  }

  lemma {:induction false} BelowGrows(fds: seq<int>, m: nat, n: nat)
    requires m <= n <= |fds|
    ensures Below(fds, m) <= Below(fds, n)
  {
    if m < n { BelowGrows(fds, m, n - 1); }
  }

  /** What `execve` leaves open. */
  function Survivors(t: Table): Table {
    map k | k in t && !t[k].cloexec :: t[k]
  }

  /** A process's descriptors, and the system calls that change them. */
  class Process {
    var table: Table
    const limit: nat
    var errno: int

    constructor (table: Table, limit: nat)
      ensures this.table == table && this.limit == limit
    {
      this.table, this.limit, this.errno := table, limit, 0;
    }

    /** `fcntl(fd, F_DUPFD_CLOEXEC, floor)`: the lowest free number at or above the floor. */
    method DupAbove(fd: int, floor: nat) returns (r: int)
      modifies this
      ensures r >= 0 ==> fd >= 0 && fd in old(table) && floor <= r < limit && r !in old(table)
      ensures r >= 0 ==> table == old(table)[r := Desc(old(table)[fd].file, true)]
      ensures r >= 0 ==> forall k :: floor <= k < r ==> k in old(table)
      ensures r < 0 ==> table == old(table)
      ensures r < 0 ==> errno == if fd < 0 || fd !in table then EBADF else if floor >= limit then EINVAL else EMFILE
      ensures r < 0 && fd >= 0 && fd in table ==> forall k :: floor <= k < limit ==> k in table
    {
      if fd < 0 || fd !in table {
        errno := EBADF;
        return -1;
      }
      var k := floor;
      while k < limit && k in table
        invariant floor <= k && forall j :: floor <= j < k ==> j in table
        decreases limit - k
      {
        k := k + 1;
      }
      if k >= limit {
        errno := if floor >= limit then EINVAL else EMFILE;
        return -1;
      }
      table := table[k := Desc(table[fd].file, true)];
      r := k;
    }

    /** `dup2`, which clears close on exec on the descriptor it makes. */
    method Dup2(from: int, to: nat) returns (r: int)
      modifies this
      ensures r >= 0 <==> from >= 0 && from in old(table) && to < limit
      ensures r >= 0 ==> table == old(table)[to := if from == to then old(table)[to] else Desc(old(table)[from].file,
            false)]
      ensures r < 0 ==> table == old(table) && errno == EBADF
    {
      if from < 0 || from !in table || to >= limit {
        errno := EBADF;
        return -1;
      }
      if from != to { table := table[to := Desc(table[from].file, false)]; }
      r := to;
    }

    method Close(fd: nat)
      modifies this
      ensures table == old(table) - {fd}
    {
      table := table - {fd};
    }

    /** `fcntl(fd, F_SETFD, 0)` */
    method ClearCloexec(fd: nat) returns (r: int)
      modifies this
      ensures r >= 0 <==> fd in old(table)
      ensures r >= 0 ==> table == old(table)[fd := Desc(old(table)[fd].file, false)]
      ensures r < 0 ==> table == old(table) && errno == EBADF
    {
      if fd !in table {
        errno := EBADF;
        return -1;
      }
      table := table[fd := Desc(table[fd].file, false)];
      r := 0;
    }
  }

  // --- what the callers promise -----------------------------------------------------------

  /** Every named source is open, and none of them is the report pipe. */
  ghost predicate Sources(t: Table, fds: seq<int>, pipe: int) {
    forall i :: 0 <= i < |fds| && fds[i] >= 0 ==> fds[i] in t && t[fds[i]].file != pipe
  }

  /** `report` is the pipe's write end, and goes at the exec. */
  ghost predicate Reports(t: Table, report: int, pipe: int) {
    report >= 0 && report in t && t[report] == Desc(pipe, true)
  }

  /** Every descriptor for the pipe goes at the exec. */
  ghost predicate PipeGoes(t: Table, pipe: int) {
    forall k :: k in t && t[k].file == pipe ==> t[k].cloexec
  }

  // --- pass one ------------------------------------------------------------------------------

  /** A table with more in it, all of it at or above the floor and going at the exec. */
  ghost predicate Grown(before: Table, now: Table, floor: nat) {
    && (forall k :: k in before ==> k in now && now[k] == before[k])
    && (forall k :: k in now && k !in before ==> k >= floor && now[k].cloexec)
  }

  /** Slot `j`'s source after pass one: the same file, and not in a slot before `j`. */
  ghost predicate Ready(t: Table, source: int, named: int, before: Table, j: nat, count: nat) {
    if named < 0 then source == named
    else source >= 0 && source in t && named in before && t[source].file == before[named].file && (source >= j
          || source >= count)
  }

  /** A source is left alone, or it sat in a slot filled before its own and is now above them all. */
  predicate Left(source: int, named: int, j: nat, count: nat, limit: nat) {
    source == named || (0 <= named < j && count <= source < limit)
  }

  /** Why there was no number above the floor to be had. */
  function NoNumber(floor: nat, limit: nat): int { if floor >= limit then EINVAL else EMFILE }

  /** The first pass: whatever sits in a slot that is filled before it is read moves above them all. */
  method MoveAside(p: Process, fds: array<int>, ghost pipe: int) returns (ok: bool)
    requires Sources(p.table, fds[..], pipe)
    modifies p, fds
    ensures Grown(old(p.table), p.table, fds.Length)
    ensures PipeGoes(old(p.table), pipe) ==> PipeGoes(p.table, pipe)
    ensures ok ==> forall j :: 0 <= j < fds.Length ==>
      Ready(p.table, fds[j], old(fds[..])[j], old(p.table), j, fds.Length)
    ensures forall j :: 0 <= j < fds.Length ==> Left(fds[j], old(fds[..])[j], j, fds.Length, p.limit)
    ensures ok <==> Below(old(fds[..]), fds.Length) <= Free(old(p.table), fds.Length, p.limit)
    ensures !ok ==> p.errno == NoNumber(fds.Length, p.limit)
  {
    ghost var t0, s0 := p.table, fds[..];
    for i := 0 to fds.Length
      invariant Below(s0, i) + Free(p.table, fds.Length, p.limit) == Free(t0, fds.Length, p.limit)
      invariant Grown(t0, p.table, fds.Length)
      invariant PipeGoes(t0, pipe) ==> PipeGoes(p.table, pipe)
      invariant forall j :: 0 <= j < i ==> Ready(p.table, fds[j], s0[j], t0, j, fds.Length)
      invariant forall j :: i <= j < fds.Length ==> fds[j] == s0[j]
      invariant forall j :: 0 <= j < fds.Length ==> Left(fds[j], s0[j], j, fds.Length, p.limit)
    {
      if fds[i] >= 0 && fds[i] < i {
        ghost var was := p.table;
        var moved := p.DupAbove(fds[i], fds.Length);
        if moved < 0 {
          FreeNone(p.table, fds.Length, p.limit);
          BelowGrows(s0, i + 1, fds.Length);
          return false;
        }
        FreeTaken(was, fds.Length, p.limit, moved, p.table[moved]);
        fds[i] := moved;
      }
    }
    ok := true;
  }

  // --- pass two ------------------------------------------------------------------------------

  /** What a slot holds at the end: nothing, or the file its source names, kept across the exec. */
  ghost predicate Filled(t: Table, i: nat, source: int, from: Table) {
    if source < 0 then i !in t
    else source in from && i in t && t[i] == Desc(from[source].file, false)
  }

  /** One slot of the second pass. */
  method FillSlot(p: Process, i: nat, source: int) returns (ok: bool)
    modifies p
    ensures forall k :: k != i ==>
      (k in p.table <==> k in old(p.table)) && (k in p.table ==> p.table[k] == old(p.table)[k])
    ensures ok ==> Filled(p.table, i, source, old(p.table))
    ensures !ok ==> p.table == old(p.table) && p.errno == EBADF
    ensures ok <==> source < 0 || (source in old(p.table) && (source == i || i < p.limit))
  {
    if source < 0 {
      p.Close(i);
      return true;
    }
    if source == i {
      var r := p.ClearCloexec(i);
      return r >= 0;
    }
    var r := p.Dup2(source, i);
    ok := r >= 0;
  }

  /** Nothing has to be put in a slot at or past the limit. */
  predicate SlotFits(source: int, i: nat, limit: nat) { source < 0 || source == i || i < limit }

  ghost predicate SlotsFit(fds: seq<int>, limit: nat) {
    forall i :: 0 <= i < |fds| ==> SlotFits(fds[i], i, limit)
  }

  /** The second pass, into slots that nothing is reading from. */
  method FillSlots(p: Process, fds: array<int>) returns (ok: bool)
    requires Numbered(p.table)
    requires forall j :: 0 <= j < fds.Length && fds[j] >= 0 ==>
      fds[j] in p.table && (fds[j] >= j || fds[j] >= fds.Length)
    modifies p
    ensures Numbered(p.table)
    ensures forall k :: k >= fds.Length ==>
      (k in p.table <==> k in old(p.table)) && (k in p.table ==> p.table[k] == old(p.table)[k])
    ensures ok ==> forall j :: 0 <= j < fds.Length ==> Filled(p.table, j, fds[j], old(p.table))
    ensures ok <==> SlotsFit(fds[..], p.limit)
    ensures !ok ==> p.errno == EBADF
  {
    ghost var t1 := p.table;
    for i := 0 to fds.Length
      invariant SlotsFit(fds[..i], p.limit)
      invariant Numbered(p.table)
      invariant forall k :: k >= i ==> (k in p.table <==> k in t1) && (k in p.table ==> p.table[k] == t1[k])
      invariant forall j :: 0 <= j < i ==> Filled(p.table, j, fds[j], t1)
    {
      ok := FillSlot(p, i, fds[i]);
      assert ok <==> SlotFits(fds[i], i, p.limit);
      if !ok {
        assert fds[..][i] == fds[i];
        return;
      }
      assert fds[..i + 1] == fds[..i] + [fds[i]];
    }
    assert fds[..fds.Length] == fds[..];
    ok := true;
  }

  // --- the child -----------------------------------------------------------------------------

  /** How it ends: as the new program, or with an errno written to the report descriptor. */
  datatype End = Executed(table: Table) | Wrote(table: Table, to: int, errno: int)

  /** What the new program finds open: each named file in its slot, and above the slots what was kept anyway. */
  ghost predicate Arranged(t: Table, fds: seq<int>, before: Table) {
    && (forall i :: 0 <= i < |fds| ==>
          if fds[i] < 0 then i !in t
          else fds[i] in before && i in t && t[i] == Desc(before[fds[i]].file, false))
    && (forall k :: k >= |fds| ==> (k in t <==> k in before && !before[k].cloexec) && (k in t ==> t[k] == before[k]))
  }

  /** Both passes together. */
  method Arrange(p: Process, fds: array<int>, ghost pipe: int, ghost report: int) returns (ok: bool)
    requires Numbered(p.table) && Sources(p.table, fds[..], pipe) && PipeGoes(p.table, pipe)
    requires Reports(p.table, report, pipe) && report >= fds.Length
    modifies p, fds
    ensures Reports(p.table, report, pipe)
    ensures ok <==>
      Below(old(fds[..]), fds.Length) <= Free(old(p.table), fds.Length, p.limit) && SlotsFit(old(fds[..]), p.limit)
    ensures !ok ==>
      p.errno == (if Below(old(fds[..]), fds.Length) <= Free(old(p.table), fds.Length, p.limit) then EBADF
                  else NoNumber(fds.Length, p.limit))
    ensures ok ==> Arranged(Survivors(p.table), old(fds[..]), old(p.table)) && Numbered(Survivors(p.table))
    ensures ok ==> forall k :: k in Survivors(p.table) ==> Survivors(p.table)[k].file != pipe
  {
    ghost var t0, s0 := p.table, fds[..];
    ok := MoveAside(p, fds, pipe);
    if !ok { return; }
    ghost var t1 := p.table;
    forall j | 0 <= j < fds.Length && fds[j] >= 0 ensures fds[j] in p.table && (fds[j] >= j || fds[j] >= fds.Length) {
      assert Ready(t1, fds[j], s0[j], t0, j, fds.Length);
    }
    FitsAlike(t0, t1, s0, fds[..], p.limit);
    ok := FillSlots(p, fds);
    if ok {
      forall i | 0 <= i < fds.Length ensures Filled(p.table, i, s0[i], t0) {
        assert Ready(t1, fds[i], s0[i], t0, i, fds.Length);
        assert Filled(p.table, i, fds[i], t1);
      }
      ArrangedFrom(t0, t1, p.table, s0, pipe);
    }
  }

  /** The moves change nothing about which slots fit: above the limit there was nowhere to move to. */
  lemma {:induction false} FitsAlike(t0: Table, t1: Table, s0: seq<int>, fds: seq<int>, limit: nat)
    requires |s0| == |fds| && forall j :: 0 <= j < |fds| ==> Ready(t1, fds[j], s0[j], t0, j, |fds|)
    requires forall j :: 0 <= j < |fds| ==> Left(fds[j], s0[j], j, |fds|, limit)
    ensures SlotsFit(fds, limit) <==> SlotsFit(s0, limit)
  {
    forall j | 0 <= j < |fds| ensures SlotFits(fds[j], j, limit) <==> SlotFits(s0[j], j, limit) {
      assert Left(fds[j], s0[j], j, |fds|, limit);
    }
  }

  lemma {:induction false} ArrangedFrom(before: Table, moved: Table, now: Table, fds: seq<int>, pipe: int)
    requires Numbered(now) && Sources(before, fds, pipe) && Grown(before, moved, |fds|) && PipeGoes(moved, pipe)
    requires forall i :: 0 <= i < |fds| ==> Filled(now, i, fds[i], before)
    requires forall k :: k >= |fds| ==> (k in now <==> k in moved) && (k in now ==> now[k] == moved[k])
    ensures Arranged(Survivors(now), fds, before) && Numbered(Survivors(now))
    ensures forall k :: k in Survivors(now) ==> Survivors(now)[k].file != pipe
  {
    forall k | k in Survivors(now) ensures now[k].file != pipe {
      if k < |fds| { assert Filled(now, k, fds[k], before); }
    }
    forall i | 0 <= i < |fds|
      ensures if fds[i] < 0 then i !in Survivors(now)
              else fds[i] in before && i in Survivors(now) && Survivors(now)[i] == Desc(before[fds[i]].file, false)
    {
      assert Filled(now, i, fds[i], before);
    }
  }

  /** There is a free number above the slots for every descriptor that has to move there, the report's among them. */
  predicate Enough(t: Table, fds: seq<int>, report: int, limit: nat) {
    Below(fds, |fds|) + (if report < |fds| then 1 else 0) <= Free(t, |fds|, limit)
  }

  /** A table no longer than the limit, with room above it, always fits. */
  lemma {:induction false} ShortFits(fds: seq<int>, limit: nat)
    requires |fds| <= limit
    ensures SlotsFit(fds, limit)
  {
  }

  /**
   `child`.  `early` is the errno of the first of setsid, setpgid and chdir to
   fail, and `exec` that of an execve that does.
   */
  method Child(p: Process, fds: array<int>, report: int, early: int, exec: int, ghost pipe: int) returns (end: End)
    requires Numbered(p.table) && Sources(p.table, fds[..], pipe)
    requires Reports(p.table, report, pipe) && PipeGoes(p.table, pipe)
    modifies p, fds
    ensures end.Executed? ==> Arranged(end.table, old(fds[..]), old(p.table)) && Numbered(end.table)
    ensures end.Executed? ==> forall k :: k in end.table ==> end.table[k].file != pipe
    ensures end.Wrote? ==> end.to >= 0 && end.to in end.table && end.table[end.to].file == pipe
    ensures early != 0 ==> end == Wrote(old(p.table), report, early)
    ensures end.Executed? <==>
      early == 0 && exec == 0 && Enough(old(p.table), old(fds[..]), report, p.limit) && SlotsFit(old(fds[..]), p.limit)
    ensures early == 0 && end.Wrote? ==>
      end.errno == (if !Enough(old(p.table), old(fds[..]), report, p.limit) then NoNumber(fds.Length, p.limit)
                    else if !SlotsFit(old(fds[..]), p.limit) then EBADF
                    else exec)
  {
    ghost var t0 := p.table;
    if early != 0 { return Wrote(p.table, report, early); }
    var at := report;
    if at < fds.Length {
      var moved := p.DupAbove(at, fds.Length);
      if moved < 0 {
        FreeNone(p.table, fds.Length, p.limit);
        return Wrote(p.table, at, p.errno);
      }
      FreeTaken(t0, fds.Length, p.limit, moved, p.table[moved]);
      at := moved;
    }
    ghost var t1 := p.table;
    var ok := Arrange(p, fds, pipe, at);
    if !ok { return Wrote(p.table, at, p.errno); }
    if exec != 0 { return Wrote(p.table, at, exec); }
    ArrangedEarlier(t0, t1, Survivors(p.table), old(fds[..]));
    return Executed(Survivors(p.table));
  }

  /** Moving the report out of the way changes nothing the new program can see. */
  lemma {:induction false} ArrangedEarlier(before: Table, moved: Table, t: Table, fds: seq<int>)
    requires Arranged(t, fds, moved) && Grown(before, moved, |fds|)
    requires forall i :: 0 <= i < |fds| && fds[i] >= 0 ==> fds[i] in before
    ensures Arranged(t, fds, before)
  {
  }

  // --- the cases people name -------------------------------------------------------------------

  /** If everything else goes at the exec, the new program has the named slots and nothing more. */
  lemma {:induction false} OnlyNamed(t: Table, fds: seq<int>, before: Table)
    requires Arranged(t, fds, before) && Numbered(t) && forall k :: k in before && k >= |fds| ==> before[k].cloexec
    ensures forall k :: k in t <==> 0 <= k < |fds| && fds[k] >= 0
    ensures forall k :: k in t ==> t[k] == Desc(before[fds[k]].file, false)
  {
    forall k ensures k in t <==> 0 <= k < |fds| && fds[k] >= 0 {
      assert k in t ==> k >= 0;
    }
  }
}
