/**
 The case mappings as ranges: `case_state`, the one pass of `case_ranges`, and
 the lookup that undoes it.
 */
module UnicodeCases {
  import opened UnicodeOrbits

  const MAX_RUNE := 0x10FFFF
  const UPPER_LOWER := 0x11_0000

  datatype Kind = Uncased | Upper | Lower | Title | Missing

  /** How far a code point is from its three cases. */
  datatype Delta = Delta(upper: int, lower: int, title: int)

  const ZERO := Delta(0, 0, 0)
  const UP_LOW := Delta(0, 1, 0)
  const LOW_UP := Delta(-1, 0, -1)
  const SENTINEL := Delta(UPPER_LOWER, UPPER_LOWER, UPPER_LOWER)

  datatype CaseState = CaseState(point: nat, kind: Kind, delta: Delta)

  function Distance(to: nat, code: nat): int { if to == 0 then 0 else to - code }

  function KindOf(chars: Chars, code: nat): Kind
    requires code < |chars|
  {
    var ch := chars[code];
    if !ch.known then Missing
    else if ch.upper == code then Upper
    else if ch.lower == code then Lower
    else if ch.title == code then Title
    else if ch.lower != 0 then Upper
    else if ch.upper != 0 then Lower
    else Uncased
  }

  function DeltaOf(chars: Chars, code: nat): Delta
    requires code < |chars|
  {
    var ch := chars[code];
    if !ch.known then ZERO
    else Delta(Distance(ch.upper, code), Distance(ch.lower, code), Distance(ch.title, code))
  }

  /** `case_state` */
  function StateOf(chars: Chars, code: nat): CaseState
    requires code < |chars|
  {
    CaseState(code, KindOf(chars, code), DeltaOf(chars, code))
  }

  // --- what the database says ------------------------------------------------------------

  /** A code point's own cases: what the database maps it to, or itself. */
  function UpperOf(ch: Char, c: nat): nat { if ch.known && ch.upper != 0 then ch.upper else c }

  function LowerOf(ch: Char, c: nat): nat { if ch.known && ch.lower != 0 then ch.lower else c }

  function TitleOf(ch: Char, c: nat): nat { if ch.known && ch.title != 0 then ch.title else c }

  /** The deltas lead from a code point to its cases. */
  lemma {:induction false} DeltaLeads(chars: Chars, c: nat)
    requires c < |chars|
    ensures c + DeltaOf(chars, c).upper == UpperOf(chars[c], c)
    ensures c + DeltaOf(chars, c).lower == LowerOf(chars[c], c)
    ensures c + DeltaOf(chars, c).title == TitleOf(chars[c], c)
  {
  }

  /** A code point is upper, lower or title case if it maps to itself, or by the mappings it has. */
  predicate IsKind(ch: Char, c: nat, k: Kind) {
    match k
    case Missing => !ch.known
    case Upper => ch.known && (ch.upper == c || (ch.lower != c && ch.title != c && ch.lower != 0))
    case Lower => ch.known && ch.upper != c && (ch.lower == c || (ch.title != c && ch.lower == 0 && ch.upper != 0))
    case Title => ch.known && ch.upper != c && ch.lower != c && ch.title == c
    case Uncased => ch.known && c !in {ch.upper, ch.lower, ch.title} && ch.upper == 0 && ch.lower == 0
  }

  lemma {:induction false} KindExactly(chars: Chars, c: nat, k: Kind)
    requires c < |chars|
    ensures KindOf(chars, c) == k <==> IsKind(chars[c], c, k)
  {
  }

  // --- runs ----------------------------------------------------------------------------

  predicate UpperLowerAdjacent(c: CaseState, d: CaseState) {
    if c.kind == Upper && d.kind != Lower then false
    else if c.kind == Lower && d.kind != Upper then false
    else if c.kind == Lower then d.delta == UP_LOW && c.delta == LOW_UP
    else c.delta == UP_LOW && d.delta == LOW_UP
  }

  /** `_adjacent` */
  predicate Adjacent(c: CaseState, d: CaseState) {
    if d.point < c.point then Continues(d, c) else Continues(c, d)
  }

  predicate Continues(c: CaseState, d: CaseState) {
    if d.point != c.point + 1 then false
    else if d.kind != c.kind then UpperLowerAdjacent(c, d)
    else if c.kind == Uncased || c.kind == Missing then false
    else d.delta == c.delta
  }

  /** A code point continues the run of the one before it. */
  predicate Joined(chars: Chars, c: nat)
    requires c < |chars|
  {
    c > 0 && Adjacent(StateOf(chars, c), StateOf(chars, c - 1))
  }

  /** Where the run of a code point starts. */
  function Start(chars: Chars, c: nat): (s: nat)
    requires c < |chars|
    ensures s <= c
  {
    if Joined(chars, c) then Start(chars, c - 1) else c
  }

  predicate HasCase(k: Kind) { k != Uncased && k != Missing }

  // --- rows ------------------------------------------------------------------------------

  datatype Row = Row(lo: nat, hi: nat, delta: Delta)

  datatype Rows = Ok(rows: seq<Row>) | Refused(point: nat)

  /** `_emit`, for a run that starts and ends with these: no row, one row, or a refusal. */
  function Emit(lo: CaseState, hi: CaseState): Rows {
    if !HasCase(lo.kind) || lo.delta == ZERO then Ok([])
    else if hi.point > lo.point && lo.delta == UP_LOW then Ok([Row(lo.point, hi.point, SENTINEL)])
    else if hi.point > lo.point && lo.delta == LOW_UP then Refused(lo.point)
    else Ok([Row(lo.point, hi.point, lo.delta)])
  }

  /** The rows of the runs that end before code point `n - 1`'s does. */
  function RowsTo(chars: Chars, n: nat): Rows
    requires n <= |chars|
  {
    if n == 0 then Ok([])
    else
      match RowsTo(chars, n - 1)
      case Refused(p) => Refused(p)
      case Ok(rows) =>
        if n == 1 || Joined(chars, n - 1) then Ok(rows)
        else
          match Emit(StateOf(chars, Start(chars, n - 2)), StateOf(chars, n - 2))
          case Refused(p) => Refused(p)
          case Ok(more) => Ok(rows + more)
  }

  /** `case_ranges`: one pass, closing a run where the next code point does not continue it. */
  method CaseRanges(chars: Chars) returns (r: Rows)
    ensures r == RowsTo(chars, |chars|)
  {
    hide DeltaOf, UpperLowerAdjacent;
    var out: seq<Row> := [];
    var started := false;
    var start := CaseState(0, Uncased, ZERO);
    var previous := CaseState(0, Uncased, ZERO);
    for code := 0 to |chars|
      invariant RowsTo(chars, code) == Ok(out)
      invariant code == 0 ==> previous.point == 0 && !started
      invariant code > 0 ==> previous == StateOf(chars, code - 1)
      invariant code > 0 ==> (started <==> HasCase(KindOf(chars, Start(chars, code - 1))))
      invariant started ==> code > 0 && start == StateOf(chars, Start(chars, code - 1))
    {
      var state := StateOf(chars, code);
      if Adjacent(state, previous) {
        previous := state;
        continue;
      }
      if started {
        match Emit(start, previous)
        case Refused(p) =>
          RefusalStays(chars, code + 1, |chars|);
          return Refused(p);
        case Ok(more) => out := out + more;
      }
      started := false;
      if state.kind != Missing && state.kind != Uncased {
        start := state;
        started := true;
      }
      previous := state;
    }
    r := Ok(out);
  }

  lemma {:induction false} RefusalStays(chars: Chars, n: nat, m: nat)
    requires n <= m <= |chars| && RowsTo(chars, n).Refused?
    ensures RowsTo(chars, m) == RowsTo(chars, n)
  {
    if n < m { RefusalStays(chars, n, m - 1); }
  }

  // --- the lookup -----------------------------------------------------------------------------

  /** `_apply`: case 0 is upper, 1 is lower, 2 is title; an alternating row goes by the parity of the offset. */
  function Apply(row: Row, which: nat, r: nat): int {
    var delta := Part(row.delta, which);
    if delta > MAX_RUNE then row.lo + ((r - row.lo) / 2 * 2 + which % 2) else r + delta
  }

  function Part(d: Delta, which: nat): int {
    if which == 0 then d.upper else if which == 1 then d.lower else d.title
  }

  predicate InRow(row: Row, r: nat) { row.lo <= r <= row.hi }

  /** What the rows say of a code point: the row it is in, or nothing. */
  function Mapped(rows: seq<Row>, which: nat, r: nat): int {
    if rows == [] then r
    else if InRow(rows[|rows| - 1], r) then Apply(rows[|rows| - 1], which, r)
    else Mapped(rows[..|rows| - 1], which, r)
  }

  ghost predicate RowsOrdered(rows: seq<Row>) {
    && (forall i :: 0 <= i < |rows| ==> rows[i].lo <= rows[i].hi)
    && (forall i, j :: 0 <= i < j < |rows| ==> rows[i].hi < rows[j].lo)
  }

  lemma {:induction false} MappedAt(rows: seq<Row>, which: nat, r: nat, i: nat)
    requires RowsOrdered(rows) && i < |rows| && InRow(rows[i], r)
    ensures Mapped(rows, which, r) == Apply(rows[i], which, r)
  {
    if i < |rows| - 1 { MappedAt(rows[..|rows| - 1], which, r, i); }
  }

  lemma {:induction false} MappedOutside(rows: seq<Row>, which: nat, r: nat)
    requires forall i :: 0 <= i < |rows| ==> !InRow(rows[i], r)
    ensures Mapped(rows, which, r) == r
  {
    if rows != [] { MappedOutside(rows[..|rows| - 1], which, r); }
  }

  /** `_to_table`: the binary search over the rows. */
  method To(rows: seq<Row>, which: nat, r: nat) returns (mapped: int, found: bool)
    requires RowsOrdered(rows) && which < 3
    ensures mapped == Mapped(rows, which, r)
    ensures found <==> exists i :: 0 <= i < |rows| && InRow(rows[i], r)
  {
    var low, high := 0, |rows|;
    while low < high
      invariant 0 <= low <= high <= |rows|
      invariant forall i :: 0 <= i < low ==> rows[i].hi < r
      invariant forall i :: high <= i < |rows| ==> r < rows[i].lo
    {
      var middle := (low + high) / 2;
      if rows[middle].lo <= r <= rows[middle].hi {
        MappedAt(rows, which, r, middle);
        assert InRow(rows[middle], r);
        return Apply(rows[middle], which, r), true;
      }
      if r < rows[middle].lo { high := middle; } else { low := middle + 1; }
    }
    MappedOutside(rows, which, r);
    return r, false;
  }

  // --- the shape of a run ------------------------------------------------------------------------

  /** Where the run of a code point ends. */
  function EndOf(chars: Chars, c: nat): (e: nat)
    requires c < |chars|
    ensures c <= e < |chars|
    decreases |chars| - c
  {
    if c + 1 < |chars| && Joined(chars, c + 1) then EndOf(chars, c + 1) else c
  }

  /** Between a run's start and one of its points there is no other start. */
  lemma {:induction false} StartBetween(chars: Chars, c: nat, d: nat)
    requires c <= d < |chars| && Start(chars, d) <= c
    ensures Start(chars, c) == Start(chars, d)
  {
    if c < d { StartBetween(chars, c, d - 1); }
  }

  /** A run that the next point does not continue ends where it is. */
  lemma {:induction false} EndBetween(chars: Chars, c: nat, d: nat)
    requires c <= d < |chars| && Start(chars, d) <= c
    requires d + 1 == |chars| || !Joined(chars, d + 1)
    ensures EndOf(chars, c) == d
    decreases d - c
  {
    if c < d {
      StartBetween(chars, c + 1, d);
      EndBetween(chars, c + 1, d);
    }
  }

  predicate Swings(d: Delta) { d == UP_LOW || d == LOW_UP }

  lemma {:induction false} UncasedIsZero(chars: Chars, c: nat)
    requires c < |chars|
    ensures !HasCase(KindOf(chars, c)) ==> DeltaOf(chars, c).upper == 0 && DeltaOf(chars, c).lower == 0
    ensures KindOf(chars, c) == Missing ==> DeltaOf(chars, c) == ZERO
  {
  }

  /** What joins two neighbours: one kind and one delta, or the two ends of a swing. */
  lemma {:induction false} JoinedPair(chars: Chars, c: nat)
    requires 0 < c < |chars| && Joined(chars, c)
    ensures HasCase(KindOf(chars, c)) && HasCase(KindOf(chars, c - 1))
    ensures if KindOf(chars, c) == KindOf(chars, c - 1) then DeltaOf(chars, c) == DeltaOf(chars, c - 1)
            else Swings(DeltaOf(chars, c)) && Swings(DeltaOf(chars, c - 1))
                 && DeltaOf(chars, c) != DeltaOf(chars, c - 1)
  {
    UncasedIsZero(chars, c);
    UncasedIsZero(chars, c - 1);
  }

  /** Along a run the delta stays, or swings. */
  lemma {:induction false} RunShape(chars: Chars, c: nat)
    requires c < |chars|
    ensures var s := Start(chars, c);
      && (HasCase(KindOf(chars, c)) <==> HasCase(KindOf(chars, s)))
      && (Swings(DeltaOf(chars, c)) <==> Swings(DeltaOf(chars, s)))
      && (!Swings(DeltaOf(chars, s)) ==> DeltaOf(chars, c) == DeltaOf(chars, s))
  {
    if Joined(chars, c) {
      RunShape(chars, c - 1);
      JoinedPair(chars, c);
    }
  }

  /** Two neighbours of one kind that both call the other their case. */
  predicate Doubled(chars: Chars, c: nat)
    requires c < |chars|
  {
    && c > 0 && KindOf(chars, c) == KindOf(chars, c - 1) && HasCase(KindOf(chars, c))
    && DeltaOf(chars, c) == DeltaOf(chars, c - 1) && Swings(DeltaOf(chars, c))
  }

  function Other(d: Delta): Delta { if d == UP_LOW then LOW_UP else UP_LOW }

  /** Without doubled neighbours a swinging run swings at every step. */
  lemma {:induction false} RunSwings(chars: Chars, c: nat)
    requires c < |chars| && Swings(DeltaOf(chars, Start(chars, c)))
    requires forall d :: 0 <= d < |chars| ==> !Doubled(chars, d)
    ensures var s := Start(chars, c);
      DeltaOf(chars, c) == if (c - s) % 2 == 0 then DeltaOf(chars, s) else Other(DeltaOf(chars, s))
  {
    if Joined(chars, c) {
      RunSwings(chars, c - 1);
      JoinedPair(chars, c);
      assert !Doubled(chars, c);
    }
  }

  // --- what the rows say, run by run ----------------------------------------------------------------

  /** What the row of a run says of one of its points. */
  function RunSays(chars: Chars, s: nat, e: nat, which: nat, c: nat): int
    requires s < |chars| && e < |chars|
  {
    match Emit(StateOf(chars, s), StateOf(chars, e))
    case Ok(rows) => if rows == [] then c else Apply(rows[0], which, c)
    case Refused(_) => c
  }

  /** The rows are in order, and stop short of the run that is still open. */
  lemma {:induction false} RowsInOrder(chars: Chars, n: nat)
    requires 0 < n <= |chars| && RowsTo(chars, n).Ok?
    ensures var rows := RowsTo(chars, n).rows;
      RowsOrdered(rows) && forall i :: 0 <= i < |rows| ==> rows[i].hi < Start(chars, n - 1)
  {
    if n > 1 {
      RowsInOrder(chars, n - 1);
      if !Joined(chars, n - 1) {
        var s := Start(chars, n - 2);
        OrderedLonger(RowsTo(chars, n - 1).rows, Emit(StateOf(chars, s), StateOf(chars, n - 2)).rows, s, n - 1);
      }
    }
  }

  lemma {:induction false} OrderedLonger(rows: seq<Row>, more: seq<Row>, s: nat, n: nat)
    requires RowsOrdered(rows) && forall i :: 0 <= i < |rows| ==> rows[i].hi < s
    requires |more| <= 1 && s < n && (more != [] ==> s <= more[0].lo <= more[0].hi < n)
    ensures RowsOrdered(rows + more) && forall i :: 0 <= i < |rows + more| ==> (rows + more)[i].hi < n
  {
  }

  lemma {:induction false} MappedLonger(rows: seq<Row>, more: seq<Row>, which: nat, c: nat)
    requires |more| <= 1
    ensures more == [] || !InRow(more[0], c) ==> Mapped(rows + more, which, c) == Mapped(rows, which, c)
    ensures more != [] && InRow(more[0], c) ==> Mapped(rows + more, which, c) == Apply(more[0], which, c)
  {
    if more == [] {
      assert rows + more == rows;
    } else {
      assert (rows + more)[..|rows|] == rows;
    }
  }

  lemma {:induction false} EmitOne(lo: CaseState, hi: CaseState)
    ensures Emit(lo, hi).Ok? ==> |Emit(lo, hi).rows| <= 1
    ensures Emit(lo, hi).Ok? && Emit(lo, hi).rows != [] ==>
      Emit(lo, hi).rows[0].lo == lo.point && Emit(lo, hi).rows[0].hi == hi.point
  {
  }

  /** The points of the run that closes last get what its row says. */
  lemma {:induction false} LastSays(chars: Chars, n: nat, which: nat, c: nat)
    requires 1 < n <= |chars| && RowsTo(chars, n).Ok? && !Joined(chars, n - 1) && Start(chars, n - 2) <= c <= n - 2
    ensures Mapped(RowsTo(chars, n).rows, which, c) == RunSays(chars, Start(chars, n - 2), n - 2, which, c)
  {
    hide Emit, Apply, Mapped;
    var s := Start(chars, n - 2);
    var before, more := RowsTo(chars, n - 1).rows, Emit(StateOf(chars, s), StateOf(chars, n - 2)).rows;
    EmitOne(StateOf(chars, s), StateOf(chars, n - 2));
    MappedLonger(before, more, which, c);
    RowsInOrder(chars, n - 1);
    MappedOutside(before, which, c);
  }

  /** The points before it get what they got. */
  lemma {:induction false} EarlierSays(chars: Chars, n: nat, which: nat, c: nat)
    requires 1 < n <= |chars| && RowsTo(chars, n).Ok? && !Joined(chars, n - 1) && c < Start(chars, n - 2)
    ensures Mapped(RowsTo(chars, n).rows, which, c) == Mapped(RowsTo(chars, n - 1).rows, which, c)
  {
    hide Emit, Apply, Mapped;
    var s := Start(chars, n - 2);
    EmitOne(StateOf(chars, s), StateOf(chars, n - 2));
    MappedLonger(RowsTo(chars, n - 1).rows, Emit(StateOf(chars, s), StateOf(chars, n - 2)).rows, which, c);
  }

  /** Every point of a closed run gets what its own run's row says. */
  lemma {:induction false} ClosedSays(chars: Chars, n: nat, which: nat, c: nat)
    requires 0 < n <= |chars| && RowsTo(chars, n).Ok? && c < Start(chars, n - 1)
    ensures Mapped(RowsTo(chars, n).rows, which, c) == RunSays(chars, Start(chars, c), EndOf(chars, c), which, c)
    ensures Emit(StateOf(chars, Start(chars, c)), StateOf(chars, EndOf(chars, c))).Ok?
  {
    hide Emit, StateOf, Mapped, RunSays;
    if Joined(chars, n - 1) {
      ClosedSays(chars, n - 1, which, c);
    } else if n > 1 {
      if c < Start(chars, n - 2) {
        EarlierSays(chars, n, which, c);
        ClosedSays(chars, n - 1, which, c);
      } else {
        LastSays(chars, n, which, c);
        StartBetween(chars, c, n - 2);
        EndBetween(chars, c, n - 2);
      }
    }
  }

  /** What all the rows say of a code point. */
  lemma {:induction false} RowsSay(chars: Chars, which: nat, c: nat)
    requires c < |chars| && RowsTo(chars, |chars|).Ok?
    ensures Mapped(RowsTo(chars, |chars|).rows, which, c)
      == if c < Start(chars, |chars| - 1) then RunSays(chars, Start(chars, c), EndOf(chars, c), which, c) else c
    ensures c < Start(chars, |chars| - 1) ==> Emit(StateOf(chars, Start(chars, c)), StateOf(chars, EndOf(chars, c))).Ok?
  {
    if c < Start(chars, |chars| - 1) {
      ClosedSays(chars, |chars|, which, c);
    } else {
      RowsInOrder(chars, |chars|);
      MappedOutside(RowsTo(chars, |chars|).rows, which, c);
    }
  }

  // --- the theorem ---------------------------------------------------------------------------------------

  /** A database no bigger than Unicode, whose mappings are code points. */
  ghost predicate InRange(chars: Chars) {
    && 0 < |chars| <= MAX_RUNE + 1
    && forall c :: 0 <= c < |chars| ==>
      chars[c].upper <= MAX_RUNE && chars[c].lower <= MAX_RUNE && chars[c].title <= MAX_RUNE
  }

  /** The rows say what the database says of a code point: its mappings where it is known and has them. */
  ghost predicate Agrees(chars: Chars, rows: seq<Row>, c: nat)
    requires c < |chars|
  {
    var ch := chars[c];
    && Mapped(rows, 0, c) == (if ch.known && ch.upper != 0 then ch.upper else c)
    && Mapped(rows, 1, c) == (if ch.known && ch.lower != 0 then ch.lower else c)
    && Mapped(rows, 2, c) == (if ch.known && ch.title != 0 then ch.title else c)
  }

  /** A code point that is its own cases. */
  predicate Plain(ch: Char, c: nat) {
    ch.known ==> ch.upper in {0, c} && ch.lower in {0, c} && ch.title in {0, c}
  }

  /** A point that is upper and title case and has the next for its lower. */
  predicate SwingsUp(ch: Char, c: nat) {
    ch.known && ch.upper in {0, c} && ch.lower == c + 1 && ch.title in {0, c}
  }

  /** A point that is lower case and has the one before for its upper and its title. */
  predicate SwingsDown(ch: Char, c: nat) {
    ch.known && 0 < ch.upper == c - 1 == ch.title && ch.lower in {0, c}
  }

  /** Two neighbours of one kind that swing the same way. */
  ghost predicate Twice(chars: Chars, c: nat)
    requires 0 < c < |chars|
  {
    && (exists k :: HasCase(k) && IsKind(chars[c - 1], c - 1, k) && IsKind(chars[c], c, k))
    && ((SwingsUp(chars[c - 1], c - 1) && SwingsUp(chars[c], c))
        || (SwingsDown(chars[c - 1], c - 1) && SwingsDown(chars[c], c)))
  }

  /** The last point is its own cases, no neighbours swing the same way, and nothing has a title case only. */
  ghost predicate Regular(chars: Chars)
    requires |chars| > 0
  {
    && Plain(chars[|chars| - 1], |chars| - 1)
    && (forall c :: 0 < c < |chars| ==> !Twice(chars, c))
    && (forall c :: 0 < c < |chars| && chars[c].known && chars[c].upper == chars[c].lower == 0 ==>
          chars[c].title in {0, c})
  }

  lemma {:induction false} PlainDelta(chars: Chars, c: nat)
    requires c < |chars|
    ensures Plain(chars[c], c) <==> DeltaOf(chars, c) == ZERO
    ensures SwingsUp(chars[c], c) <==> DeltaOf(chars, c) == UP_LOW
    ensures SwingsDown(chars[c], c) <==> DeltaOf(chars, c) == LOW_UP
  {
  }

  lemma {:induction false} TwiceIsDoubled(chars: Chars, c: nat)
    requires 0 < c < |chars|
    ensures Twice(chars, c) <==> Doubled(chars, c)
  {
    PlainDelta(chars, c);
    PlainDelta(chars, c - 1);
    KindExactly(chars, c, KindOf(chars, c));
    KindExactly(chars, c - 1, KindOf(chars, c));
    if k :| HasCase(k) && IsKind(chars[c - 1], c - 1, k) && IsKind(chars[c], c, k) {
      KindExactly(chars, c, k);
      KindExactly(chars, c - 1, k);
    }
  }

  /** The same of the states the pass goes by. */
  ghost predicate Steady(chars: Chars)
    requires |chars| > 0
  {
    && DeltaOf(chars, |chars| - 1) == ZERO
    && (forall c :: 0 <= c < |chars| ==> !Doubled(chars, c))
    && (forall c :: 0 <= c < |chars| && KindOf(chars, c) == Uncased ==> DeltaOf(chars, c) == ZERO)
  }

  lemma {:induction false} RegularIsSteady(chars: Chars)
    requires |chars| > 0
    ensures Regular(chars) <==> Steady(chars)
  {
    PlainDelta(chars, |chars| - 1);
    forall c | 0 < c < |chars| ensures Twice(chars, c) <==> Doubled(chars, c) { TwiceIsDoubled(chars, c); }
    forall c | 0 <= c < |chars| && KindOf(chars, c) == Uncased
      ensures DeltaOf(chars, c) == ZERO <==> chars[c].title in {0, c}
      ensures c > 0 && chars[c].known && chars[c].upper == chars[c].lower == 0
    {
      PlainDelta(chars, c);
    }
    forall c | 0 < c < |chars| && chars[c].known && chars[c].upper == chars[c].lower == 0
      ensures KindOf(chars, c) == Uncased || chars[c].title == c
    {
    }
  }

  lemma {:induction false} ApplyPlain(chars: Chars, s: nat, e: nat, which: nat, c: nat)
    requires InRange(chars) && s < |chars|
    ensures Apply(Row(s, e, DeltaOf(chars, s)), which, c) == c + Part(DeltaOf(chars, s), which)
  {
  }

  lemma {:induction false} ApplySwing(s: nat, e: nat, c: nat)
    requires s <= c
    ensures var d := if (c - s) % 2 == 0 then UP_LOW else LOW_UP;
      && Apply(Row(s, e, SENTINEL), 0, c) == c + d.upper
      && Apply(Row(s, e, SENTINEL), 1, c) == c + d.lower
      && Apply(Row(s, e, SENTINEL), 2, c) == c + d.title
  {
  }

  lemma {:induction false} Alone(chars: Chars, c: nat)
    requires c < |chars| && !HasCase(KindOf(chars, c))
    ensures Start(chars, c) == c && EndOf(chars, c) == c
  {
    if Joined(chars, c) { JoinedPair(chars, c); }
    if c + 1 < |chars| && Joined(chars, c + 1) { JoinedPair(chars, c + 1); }
  }

  lemma {:induction false} RegularClosed(chars: Chars, rows: seq<Row>, c: nat)
    requires InRange(chars) && Steady(chars) && RowsTo(chars, |chars|) == Ok(rows)
    requires c < Start(chars, |chars| - 1) && HasCase(KindOf(chars, c))
    ensures Agrees(chars, rows, c)
  {
    var s, e := Start(chars, c), EndOf(chars, c);
    RowsSay(chars, 0, c);
    RowsSay(chars, 1, c);
    RowsSay(chars, 2, c);
    RunShape(chars, c);
    ApplyPlain(chars, s, e, 0, c);
    ApplyPlain(chars, s, e, 1, c);
    ApplyPlain(chars, s, e, 2, c);
    ApplySwing(s, e, c);
    if Swings(DeltaOf(chars, s)) { RunSwings(chars, c); }
  }

  /** A point in no row is its own cases, as its deltas say. */
  lemma {:induction false} ZeroAgrees(chars: Chars, rows: seq<Row>, c: nat)
    requires c < |chars| && DeltaOf(chars, c) == ZERO
    requires Mapped(rows, 0, c) == c && Mapped(rows, 1, c) == c && Mapped(rows, 2, c) == c
    ensures Agrees(chars, rows, c)
  {
    hide Mapped;
  }

  lemma {:induction false} UncasedSays(chars: Chars, which: nat, c: nat)
    requires c < |chars| && !HasCase(KindOf(chars, c))
    ensures RunSays(chars, Start(chars, c), EndOf(chars, c), which, c) == c
  {
    Alone(chars, c);
  }

  lemma {:induction false} UncasedAgrees(chars: Chars, rows: seq<Row>, c: nat)
    requires InRange(chars) && Steady(chars) && RowsTo(chars, |chars|) == Ok(rows) && c < |chars|
    requires !HasCase(KindOf(chars, c))
    ensures Agrees(chars, rows, c)
  {
    hide RowsTo, RunSays, Mapped, Start, EndOf, Agrees;
    RowsSay(chars, 0, c);
    RowsSay(chars, 1, c);
    RowsSay(chars, 2, c);
    UncasedSays(chars, 0, c);
    UncasedSays(chars, 1, c);
    UncasedSays(chars, 2, c);
    UncasedIsZero(chars, c);
    ZeroAgrees(chars, rows, c);
  }

  /** The run that is still open at the end is in no row, so nothing in it may have a case. */
  lemma {:induction false} OpenAgrees(chars: Chars, rows: seq<Row>, c: nat)
    requires InRange(chars) && Steady(chars) && RowsTo(chars, |chars|) == Ok(rows) && c < |chars|
    requires HasCase(KindOf(chars, c)) && Start(chars, |chars| - 1) <= c
    ensures Agrees(chars, rows, c)
  {
    hide RowsTo, RunSays, Mapped, Start, EndOf, Agrees;
    RowsSay(chars, 0, c);
    RowsSay(chars, 1, c);
    RowsSay(chars, 2, c);
    StartBetween(chars, c, |chars| - 1);
    RunShape(chars, c);
    RunShape(chars, |chars| - 1);
    ZeroAgrees(chars, rows, c);
  }

  lemma {:induction false} RegularAgrees(chars: Chars, rows: seq<Row>, c: nat)
    requires InRange(chars) && Steady(chars) && RowsTo(chars, |chars|) == Ok(rows) && c < |chars|
    ensures Agrees(chars, rows, c)
  {
    hide RowsTo, Start, Agrees;
    if !HasCase(KindOf(chars, c)) {
      UncasedAgrees(chars, rows, c);
    } else if c < Start(chars, |chars| - 1) {
      RegularClosed(chars, rows, c);
    } else {
      OpenAgrees(chars, rows, c);
    }
  }

  lemma {:induction false} AgreesRegular(chars: Chars, rows: seq<Row>)
    requires InRange(chars) && RowsTo(chars, |chars|) == Ok(rows)
    requires forall c :: 0 <= c < |chars| ==> Agrees(chars, rows, c)
    ensures Steady(chars)
  {
    LastIsZero(chars, rows);
    forall c | 0 <= c < |chars| ensures !Doubled(chars, c) {
      NotDoubled(chars, rows, c);
    }
    forall c | 0 <= c < |chars| && KindOf(chars, c) == Uncased ensures DeltaOf(chars, c) == ZERO {
      assert Agrees(chars, rows, c);
      RowsSay(chars, 2, c);
      Alone(chars, c);
      UncasedIsZero(chars, c);
    }
  }

  lemma {:induction false} LastIsZero(chars: Chars, rows: seq<Row>)
    requires InRange(chars) && RowsTo(chars, |chars|) == Ok(rows) && Agrees(chars, rows, |chars| - 1)
    ensures DeltaOf(chars, |chars| - 1) == ZERO
  {
    hide Mapped, RunSays, RowsTo, DeltaOf, KindOf;
    var c: nat := |chars| - 1;
    RowsSay(chars, 0, c);
    RowsSay(chars, 1, c);
    RowsSay(chars, 2, c);
    DeltaLeads(chars, c);
  }

  lemma {:induction false} DoubledRun(chars: Chars, c: nat)
    requires c < |chars| && Doubled(chars, c)
    ensures var s, e := Start(chars, c), EndOf(chars, c);
      && Start(chars, c - 1) == s && EndOf(chars, c - 1) == e && s < e
      && HasCase(KindOf(chars, s)) && Swings(DeltaOf(chars, s))
  {
    assert Joined(chars, c);
    RunShape(chars, c);
  }

  /** A run with doubled neighbours in it swings, and a swing tells them apart. */
  lemma {:induction false} DoubledSwings(chars: Chars, c: nat)
    requires c < |chars| && Doubled(chars, c)
    requires Emit(StateOf(chars, Start(chars, c)), StateOf(chars, EndOf(chars, c))).Ok?
    ensures var s, e := Start(chars, c), EndOf(chars, c);
      RunSays(chars, s, e, 1, c) - c != RunSays(chars, s, e, 1, c - 1) - (c - 1)
  {
    hide Start, EndOf, KindOf;
    DoubledRun(chars, c);
    var s, e := Start(chars, c), EndOf(chars, c);
    assert Emit(StateOf(chars, s), StateOf(chars, e)) == Ok([Row(s, e, SENTINEL)]);
    ApplySwing(s, e, c);
    ApplySwing(s, e, c - 1);
  }

  /** What the rows say of doubled neighbours: nothing, or two different things. */
  lemma {:induction false} DoubledSays(chars: Chars, rows: seq<Row>, c: nat)
    requires InRange(chars) && RowsTo(chars, |chars|) == Ok(rows) && c < |chars| && Doubled(chars, c)
    ensures || (Mapped(rows, 0, c) == c && Mapped(rows, 1, c) == c)
            || Mapped(rows, 1, c) - c != Mapped(rows, 1, c - 1) - (c - 1)
  {
    hide RowsTo, Emit, StateOf, RunSays, Mapped, Start, EndOf;
    DoubledRun(chars, c);
    RowsSay(chars, 0, c);
    RowsSay(chars, 1, c);
    RowsSay(chars, 1, c - 1);
    if c < Start(chars, |chars| - 1) { DoubledSwings(chars, c); }
  }

  /** A row for doubled neighbours would have to say the same of two points it tells apart. */
  lemma {:induction false} NotDoubled(chars: Chars, rows: seq<Row>, c: nat)
    requires InRange(chars) && RowsTo(chars, |chars|) == Ok(rows) && c < |chars|
    requires forall d :: 0 <= d < |chars| ==> Agrees(chars, rows, d)
    ensures !Doubled(chars, c)
  {
    if Doubled(chars, c) {
      assert Agrees(chars, rows, c) && Agrees(chars, rows, c - 1);
      DoubledSays(chars, rows, c);
    }
  }

  /**
   The compression preserves meaning exactly on regular databases: when it
   makes rows, they are in order, and they say of every code point what the
   database says if and only if the database is regular.
   */
  lemma {:induction false} RangesExactly(chars: Chars, rows: seq<Row>)
    requires InRange(chars) && RowsTo(chars, |chars|) == Ok(rows)
    ensures RowsOrdered(rows)
    ensures (forall c :: 0 <= c < |chars| ==> Agrees(chars, rows, c)) <==> Regular(chars)
  {
    RowsInOrder(chars, |chars|);
    RegularIsSteady(chars);
    if Regular(chars) {
      forall c | 0 <= c < |chars| ensures Agrees(chars, rows, c) { RegularAgrees(chars, rows, c); }
    }
    if forall c :: 0 <= c < |chars| ==> Agrees(chars, rows, c) { AgreesRegular(chars, rows); }
  }

  // --- which rows there are ---------------------------------------------------------------------------

  /** Two neighbours move alike. */
  predicate MoveAlike(chars: Chars, c: nat)
    requires 0 < c < |chars|
  {
    && UpperOf(chars[c], c) == UpperOf(chars[c - 1], c - 1) + 1
    && LowerOf(chars[c], c) == LowerOf(chars[c - 1], c - 1) + 1
    && TitleOf(chars[c], c) == TitleOf(chars[c - 1], c - 1) + 1
  }

  /** Two neighbours belong together: one kind moving alike, or the two ends of a swing. */
  ghost predicate OneRun(chars: Chars, c: nat)
    requires 0 < c < |chars|
  {
    || (MoveAlike(chars, c) && exists k :: HasCase(k) && IsKind(chars[c - 1], c - 1, k) && IsKind(chars[c], c, k))
    || (SwingsUp(chars[c - 1], c - 1) && SwingsDown(chars[c], c))
    || (SwingsDown(chars[c - 1], c - 1) && SwingsUp(chars[c], c) && IsKind(chars[c], c, Upper))
  }

  lemma {:induction false} JoinedExactly(chars: Chars, c: nat)
    requires 0 < c < |chars|
    ensures Joined(chars, c) <==> OneRun(chars, c)
  {
    DeltaLeads(chars, c);
    DeltaLeads(chars, c - 1);
    PlainDelta(chars, c);
    PlainDelta(chars, c - 1);
    KindExactly(chars, c, KindOf(chars, c));
    KindExactly(chars, c, Upper);
    KindExactly(chars, c - 1, KindOf(chars, c));
    if k :| HasCase(k) && IsKind(chars[c - 1], c - 1, k) && IsKind(chars[c], c, k) {
      KindExactly(chars, c, k);
      KindExactly(chars, c - 1, k);
    }
  }

  /** From one point to another nothing breaks the run. */
  ghost predicate Unbroken(chars: Chars, lo: nat, hi: nat)
    requires lo <= hi < |chars|
  {
    forall b :: lo < b <= hi ==> OneRun(chars, b)
  }

  lemma {:induction false} UnbrokenExactly(chars: Chars, lo: nat, hi: nat)
    requires lo <= hi < |chars|
    ensures Unbroken(chars, lo, hi) <==> Start(chars, hi) <= lo
  {
    if lo < hi {
      JoinedExactly(chars, hi);
      UnbrokenExactly(chars, lo, hi - 1);
      assert Unbroken(chars, lo, hi) <==> Unbroken(chars, lo, hi - 1) && OneRun(chars, hi);
    }
  }

  /** A run from `lo` to `hi` that is closed: it cannot be made longer at either end, and the points go on. */
  ghost predicate WholeRun(chars: Chars, lo: nat, hi: nat) {
    && lo <= hi && hi + 1 < |chars| && Unbroken(chars, lo, hi)
    && (lo > 0 ==> !OneRun(chars, lo)) && !OneRun(chars, hi + 1)
  }

  lemma {:induction false} WholeRunExactly(chars: Chars, lo: nat, hi: nat)
    requires lo <= hi && hi + 1 < |chars|
    ensures WholeRun(chars, lo, hi) <==> Start(chars, hi) == lo && !Joined(chars, hi + 1)
  {
    UnbrokenExactly(chars, lo, hi);
    JoinedExactly(chars, hi + 1);
    if lo > 0 {
      JoinedExactly(chars, lo);
      UnbrokenExactly(chars, lo - 1, hi);
      assert Unbroken(chars, lo - 1, hi) <==> Unbroken(chars, lo, hi) && OneRun(chars, lo);
    }
  }

  /** The row of a run: its ends, and either the mark of a swing or the moves of its first point. */
  ghost predicate RowOf(chars: Chars, row: Row) {
    && WholeRun(chars, row.lo, row.hi)
    && (exists k :: HasCase(k) && IsKind(chars[row.lo], row.lo, k))
    && !Plain(chars[row.lo], row.lo)
    && if row.lo < row.hi && SwingsUp(chars[row.lo], row.lo) then row.delta == SENTINEL
       else
         && row.lo + row.delta.upper == UpperOf(chars[row.lo], row.lo)
         && row.lo + row.delta.lower == LowerOf(chars[row.lo], row.lo)
         && row.lo + row.delta.title == TitleOf(chars[row.lo], row.lo)
  }

  /** What the pass emits for a run is that row, or nothing where there is none. */
  lemma {:induction false} EmitExactly(chars: Chars, row: Row)
    requires row.lo <= row.hi && row.hi + 1 < |chars| && Start(chars, row.hi) == row.lo && !Joined(chars, row.hi + 1)
    requires Emit(StateOf(chars, row.lo), StateOf(chars, row.hi)).Ok?
    ensures Emit(StateOf(chars, row.lo), StateOf(chars, row.hi)).rows == [row] <==> RowOf(chars, row)
  {
    hide Start, Joined, WholeRun;
    WholeRunExactly(chars, row.lo, row.hi);
    DeltaLeads(chars, row.lo);
    PlainDelta(chars, row.lo);
    KindExactly(chars, row.lo, KindOf(chars, row.lo));
    if k :| HasCase(k) && IsKind(chars[row.lo], row.lo, k) { KindExactly(chars, row.lo, k); }
  }

  /** The rows are those of the whole runs that end before the open one, and no others. */
  lemma {:induction false} RowsAre(chars: Chars, n: nat, row: Row)
    requires 0 < n <= |chars| && RowsTo(chars, n).Ok?
    ensures row in RowsTo(chars, n).rows <==> row.hi < Start(chars, n - 1) && RowOf(chars, row)
  {
    hide Emit, Plain, OneRun, Unbroken, KindOf, DeltaOf;
    if n > 1 {
      RowsAre(chars, n - 1, row);
      if !Joined(chars, n - 1) {
        var s := Start(chars, n - 2);
        EmitOne(StateOf(chars, s), StateOf(chars, n - 2));
        if row.lo == s && row.hi == n - 2 { EmitExactly(chars, row); }
        if row.hi < n - 1 && RowOf(chars, row) {
          WholeRunExactly(chars, row.lo, row.hi);
          if s <= row.hi { RunEndsAt(chars, row.lo, row.hi, n - 2); }
        }
      }
    }
  }

  /** Only the last point of a run ends it. */
  lemma {:induction false} RunEndsAt(chars: Chars, lo: nat, hi: nat, last: nat)
    requires hi <= last < |chars| && Start(chars, last) <= hi && Start(chars, hi) == lo
    requires hi + 1 < |chars| && !Joined(chars, hi + 1)
    ensures hi == last && lo == Start(chars, last)
  {
    StartBetween(chars, hi, last);
    if hi < last { StartBetween(chars, hi + 1, last); }
  }

  /** The last point's run is open: no row ends in it. */
  lemma {:induction false} OpenExactly(chars: Chars, hi: nat)
    requires hi + 1 < |chars| && !Joined(chars, hi + 1)
    ensures hi < Start(chars, |chars| - 1)
  {
    if Start(chars, |chars| - 1) <= hi { StartBetween(chars, hi + 1, |chars| - 1); }
  }

  /**
   Which rows come out, told from the database alone: one for each whole run
   of cased points that are not their own cases, and no other.
   */
  lemma {:induction false} RowsExactly(chars: Chars, rows: seq<Row>, row: Row)
    requires |chars| > 0 && RowsTo(chars, |chars|) == Ok(rows)
    ensures row in rows <==> RowOf(chars, row)
  {
    hide RowsTo, OneRun;
    RowsAre(chars, |chars|, row);
    if RowOf(chars, row) {
      WholeRunExactly(chars, row.lo, row.hi);
      OpenExactly(chars, row.hi);
    }
  }

  /** A closed run that starts at `c` in lower case and goes on: what the generator has no row for. */
  predicate Backwards(chars: Chars, c: nat, n: nat)
    requires 0 < n <= |chars|
  {
    c < Start(chars, n - 1) && Start(chars, c) == c && EndOf(chars, c) > c && DeltaOf(chars, c) == LOW_UP
  }

  lemma {:induction false} BackwardsNext(chars: Chars, n: nat, c: nat)
    requires 1 < n <= |chars| && c < |chars| && !Joined(chars, n - 1)
    ensures var s := Start(chars, n - 2);
      Backwards(chars, c, n) ==
        (Backwards(chars, c, n - 1) || (c == s && Emit(StateOf(chars, s), StateOf(chars, n - 2)).Refused?))
  {
    var s := Start(chars, n - 2);
    StartBetween(chars, s, n - 2);
    EndBetween(chars, s, n - 2);
    if s < c < n - 1 { StartBetween(chars, c, n - 2); }
    UncasedSwings(chars, s);
  }

  lemma {:induction false} UncasedSwings(chars: Chars, c: nat)
    requires c < |chars|
    ensures DeltaOf(chars, c) == LOW_UP ==> HasCase(KindOf(chars, c))
  {
  }

  /** And it refuses exactly those. */
  lemma {:induction false} RefusedExactly(chars: Chars, n: nat)
    requires 0 < n <= |chars|
    ensures RowsTo(chars, n).Refused? <==> exists c :: 0 <= c < |chars| && Backwards(chars, c, n)
  {
    if n > 1 {
      RefusedExactly(chars, n - 1);
      var m, s := n - 1, Start(chars, n - 2);
      if c :| 0 <= c < |chars| && Backwards(chars, c, n) {
        if !Joined(chars, n - 1) { BackwardsNext(chars, n, c); }
        assert Backwards(chars, c, m) || !Joined(chars, n - 1);
      }
      if c :| 0 <= c < |chars| && Backwards(chars, c, m) {
        if !Joined(chars, n - 1) { BackwardsNext(chars, n, c); }
        assert Backwards(chars, c, n);
      }
      if !Joined(chars, n - 1) { BackwardsNext(chars, n, s); }
    }
  }

  /** A run that a later point closes ends where it ends. */
  lemma {:induction false} EndJoined(chars: Chars, c: nat)
    requires c < |chars|
    ensures Start(chars, EndOf(chars, c)) == Start(chars, c)
    ensures EndOf(chars, c) + 1 < |chars| ==> !Joined(chars, EndOf(chars, c) + 1)
    decreases |chars| - c
  {
    hide Adjacent, StateOf;
    if c + 1 < |chars| && Joined(chars, c + 1) { EndJoined(chars, c + 1); }
  }

  lemma {:induction false} BackwardsExactly(chars: Chars, c: nat)
    requires 0 < |chars| && c < |chars|
    ensures Backwards(chars, c, |chars|)
      <==> c < EndOf(chars, c) && WholeRun(chars, c, EndOf(chars, c)) && SwingsDown(chars[c], c)
  {
    hide SwingsDown, DeltaOf, Unbroken, OneRun, Joined;
    var e := EndOf(chars, c);
    PlainDelta(chars, c);
    EndJoined(chars, c);
    if e + 1 < |chars| {
      WholeRunExactly(chars, c, e);
      OpenExactly(chars, e);
    } else {
      assert e == |chars| - 1;
    }
  }

  /** No table comes out exactly when a whole run of more than one point begins with a swing down. */
  lemma {:induction false} RefusedMeans(chars: Chars)
    requires |chars| > 0
    ensures RowsTo(chars, |chars|).Refused?
      <==> exists lo: nat, hi: nat :: lo < hi && WholeRun(chars, lo, hi) && SwingsDown(chars[lo], lo)
  {
    hide RowsTo, Backwards, SwingsDown, Unbroken, OneRun;
    RefusedExactly(chars, |chars|);
    if c :| 0 <= c < |chars| && Backwards(chars, c, |chars|) {
      BackwardsExactly(chars, c);
      assert c < EndOf(chars, c) && WholeRun(chars, c, EndOf(chars, c));
    }
    if lo: nat, hi: nat :| lo < hi && WholeRun(chars, lo, hi) && SwingsDown(chars[lo], lo) {
      WholeRunExactly(chars, lo, hi);
      StartBetween(chars, lo, hi);
      EndBetween(chars, lo, hi);
      BackwardsExactly(chars, lo);
    }
  }
}
