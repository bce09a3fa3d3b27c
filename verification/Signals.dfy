/**
 The signal take-over of `signal.c`: the handler, the pipe it writes to, and
 what is remembered so that a signal can be given back.  Signals arrive
 between any two statements; each gap is a call of `Arrive`, which runs the
 handler for whatever comes in there.
 */
module Signals {

  const SIGNAL_MAX := 64
  const EINVAL := 22
  const EINTR := 4

  /** What a signal does: `Deliver` is this file's handler, and nobody else installs it. */
  datatype Disposition = Default | Ignored | Deliver | Foreign(id: int)

  predicate InBounds(sig: int) { 1 <= sig <= SIGNAL_MAX }

  // --- what the entry points do to the dispositions, as values ------------------------------

  /** The dispositions in force, and the ones remembered. */
  datatype Book = Book(now: map<int, Disposition>, saved: set<int>, held: map<int, Disposition>)

  datatype Call = Catch(sig: int) | Ignore(sig: int) | Restore(sig: int)

  ghost predicate Complete(b: Book) {
    && (forall sig :: InBounds(sig) ==> sig in b.now)
    && (forall sig :: sig in b.saved ==> InBounds(sig) && sig in b.held)
  }

  /** Setting a disposition and remembering the one before it, unless one is remembered already. */
  function TakeOver(b: Book, sig: int, d: Disposition): Book {
    if sig !in b.now then b
    else Book(b.now[sig := d], b.saved + {sig}, if sig in b.saved then b.held else b.held[sig := b.now[sig]])
  }

  /** Putting back what was remembered, or the default. */
  function GiveBack(b: Book, sig: int): Book {
    if sig in b.saved && sig in b.held then Book(b.now[sig := b.held[sig]], b.saved - {sig}, b.held - {sig})
    else b.(now := b.now[sig := Default])
  }

  /** A call on a signal the system refuses to change, or that is out of range, does nothing. */
  function After(b: Book, call: Call, fixed: set<int>): Book {
    if !InBounds(call.sig) || call.sig in fixed then b
    else
      match call
      case Catch(sig) => TakeOver(b, sig, Deliver)
      case Ignore(sig) => TakeOver(b, sig, Ignored)
      case Restore(sig) => GiveBack(b, sig)
  }

  function AfterAll(b: Book, calls: seq<Call>, fixed: set<int>): Book {
    if calls == [] then b else After(AfterAll(b, calls[..|calls| - 1], fixed), calls[|calls| - 1], fixed)
  }

  /** What is remembered is never the handler, and the handler is only where something is remembered. */
  ghost predicate Honest(b: Book, fixed: set<int>) {
    && Complete(b)
    && (forall sig :: sig in b.saved ==> b.held[sig] != Deliver && sig !in fixed)
    && (forall sig :: InBounds(sig) && b.now[sig] == Deliver ==> sig in b.saved)
  }

  lemma {:induction false} HonestAlways(b: Book, calls: seq<Call>, fixed: set<int>)
    requires Honest(b, fixed)
    ensures Honest(AfterAll(b, calls, fixed), fixed)
  {
    if calls != [] { HonestAlways(b, calls[..|calls| - 1], fixed); }
  }

  lemma {:induction false} HonestOnce(b: Book, call: Call, fixed: set<int>)
    requires Honest(b, fixed)
    ensures Honest(After(b, call, fixed), fixed)
  {
    assert AfterAll(b, [], fixed) == b && [call][..0] == [];
    HonestAlways(b, [call], fixed);
  }

  predicate TakesOver(call: Call, sig: int) { call == Catch(sig) || call == Ignore(sig) }

  /** Until it is given back, the first disposition is either in force or remembered. */
  lemma {:induction false} FirstIsKept(b: Book, calls: seq<Call>, fixed: set<int>, sig: int)
    requires Honest(b, fixed) && InBounds(sig) && sig !in fixed && sig !in b.saved
    requires forall i :: 0 <= i < |calls| ==> calls[i] != Restore(sig)
    ensures var c := AfterAll(b, calls, fixed);
      && (sig in c.saved <==> exists i :: 0 <= i < |calls| && TakesOver(calls[i], sig))
      && (if sig in c.saved then sig in c.held && c.held[sig] == b.now[sig]
          else sig in c.now && c.now[sig] == b.now[sig])
  {
    if calls != [] {
      var init, last := calls[..|calls| - 1], calls[|calls| - 1];
      FirstIsKept(b, init, fixed, sig);
      HonestAlways(b, init, fixed);
      assert (exists i :: 0 <= i < |calls| && TakesOver(calls[i], sig))
        <==> TakesOver(last, sig) || exists i :: 0 <= i < |init| && TakesOver(init[i], sig)
      by {
        if TakesOver(last, sig) { assert TakesOver(calls[|calls| - 1], sig); }
        if i :| 0 <= i < |init| && TakesOver(init[i], sig) { assert TakesOver(calls[i], sig); }
      }
    }
  }

  /**
   After any mix of catches and ignores, of this signal and of others, giving
   it back reinstates what was there before the first of them; with none of
   them there is nothing remembered and it goes to the default.
   */
  lemma {:induction false} RestoreReinstates(b: Book, calls: seq<Call>, fixed: set<int>, sig: int)
    requires Honest(b, fixed) && InBounds(sig) && sig !in fixed && sig !in b.saved
    requires forall i :: 0 <= i < |calls| ==> calls[i] != Restore(sig)
    ensures var c := After(AfterAll(b, calls, fixed), Restore(sig), fixed);
      && sig !in c.saved && sig in c.now
      && c.now[sig] == if exists i :: 0 <= i < |calls| && TakesOver(calls[i], sig) then b.now[sig] else Default
  {
    FirstIsKept(b, calls, fixed, sig);
  }

  // --- the file itself ------------------------------------------------------------------------

  /** How one `write` of the handler ends, after being interrupted so many times. */
  datatype Written = Written(interruptions: nat, ok: bool, err: int)

  datatype Arrival = Arrival(sig: int, write: Written)

  /** What `pipe` and the two `fcntl`s come back with. */
  datatype PipeOutcome = Made(read: nat, write: nat) | Failed(err: int)

  /** The byte a signal puts into the pipe: its number, if it is delivered here and the write goes through. */
  function ByteOf(a: Arrival, now: seq<Disposition>): seq<int> {
    if 1 <= a.sig <= SIGNAL_MAX && a.sig < |now| && now[a.sig] == Deliver && a.write.ok then [a.sig] else []
  }

  /** The bytes of the signals of a gap, in the order they come in. */
  function Heard(arrivals: seq<Arrival>, now: seq<Disposition>): seq<int> {
    if arrivals == [] then []
    else Heard(arrivals[..|arrivals| - 1], now) + ByteOf(arrivals[|arrivals| - 1], now)
  }

  lemma {:induction false} HeardTogether(a: seq<Arrival>, b: seq<Arrival>, now: seq<Disposition>)
    ensures Heard(a + b, now) == Heard(a, now) + Heard(b, now)
  {
    if b == [] {
      assert a + b == a;
    } else {
      assert (a + b)[..|a + b| - 1] == a + b[..|b| - 1];
      HeardTogether(a, b[..|b| - 1], now);
    }
  }

  /** A signal among others puts its own number where its turn is, if the handler has it and the write goes through. */
  lemma {:induction false} HeardExactly(a: seq<Arrival>, x: Arrival, b: seq<Arrival>, now: seq<Disposition>)
    requires |now| == 65
    ensures Heard(a + [x] + b, now) ==
      Heard(a, now) + (if 1 <= x.sig <= 64 && now[x.sig] == Deliver && x.write.ok then [x.sig] else []) + Heard(b, now)
    ensures Heard([], now) == []
  {
    HeardTogether(a + [x], b, now);
    HeardTogether(a, [x], now);
    assert [x][..0] == [];
  }

  class Take {
    var sink: int
    var source: int
    var held: array<Disposition>
    var saved: array<bool>
    /** The process the file runs in: dispositions, `errno`, and the bytes in the pipe. */
    var now: array<Disposition>
    var errno: int
    var bytes: seq<int>
    /** The signals the system never lets anybody change. */
    const fixed: set<int>

    ghost predicate Shape()
      reads this`held, this`saved, this`now
    {
      held.Length == saved.Length == now.Length == SIGNAL_MAX + 1 && held != now
    }

    /** Holds between any two statements: nobody is delivered to without a pipe to write to. */
    ghost predicate Armed()
      reads this`held, this`saved, this`now, this`sink, now
    {
      Shape() && forall sig :: InBounds(sig) && now[sig] == Deliver ==> sink >= 0
    }

    /** Holds between calls. */
    ghost predicate Valid()
      reads this`held, this`saved, this`now, this`sink, this`source, now, held, saved
    {
      && Armed() && (source >= 0 <==> sink >= 0)
      && Honest(View(), fixed)
    }

    /** The dispositions as a value. */
    ghost function View(): Book
      reads this`held, this`saved, this`now, now, held, saved
      requires Shape()
    {
      Book(map sig | 1 <= sig <= SIGNAL_MAX :: now[sig],
           set sig | 1 <= sig <= SIGNAL_MAX && saved[sig],
           map sig | 1 <= sig <= SIGNAL_MAX && saved[sig] :: held[sig])
    }

    /** A process with these dispositions, none of them this file's handler. */
    constructor (start: array<Disposition>, fixed: set<int>)
      requires start.Length == SIGNAL_MAX + 1 && forall sig :: InBounds(sig) ==> start[sig] != Deliver
      ensures Valid() && now == start && sink == -1 && source == -1 && fresh(held) && fresh(saved)
      ensures View().saved == {} && this.fixed == fixed
    {
      this.fixed := fixed;
      now := start;
      sink, source, errno, bytes := -1, -1, 0, [];
      held := new Disposition[SIGNAL_MAX + 1](_ => Default);
      saved := new bool[SIGNAL_MAX + 1](_ => false);
    }

    /** `deliver`, for a signal whose disposition it is. */
    method Handle(sig: int, write: Written)
      requires Armed() && InBounds(sig) && now[sig] == Deliver
      modifies this`errno, this`bytes
      ensures errno == old(errno)
      ensures sink >= 0 && bytes == old(bytes) + (if write.ok then [sig % 256] else [])
    {
      var savedErrno := errno;
      var fd := sink;
      assert fd >= 0;
      var number := sig % 256;
      if fd >= 0 {
        var left := write.interruptions;
        while left > 0
          invariant bytes == old(bytes)
        {
          errno := EINTR;
          left := left - 1;
        }
        if write.ok { bytes := bytes + [number]; } else { errno := write.err; }
      }
      errno := savedErrno;
    }

    /** A gap between two statements: each signal that comes in and is delivered here runs the handler. */
    method Arrive(arrivals: seq<Arrival>)
      requires Armed()
      modifies this`errno, this`bytes
      ensures errno == old(errno)
      ensures bytes == old(bytes) + Heard(arrivals, now[..])
    {
      for i := 0 to |arrivals|
        invariant errno == old(errno)
        invariant bytes == old(bytes) + Heard(arrivals[..i], now[..])
      {
        var a := arrivals[i];
        assert arrivals[..i + 1][..i] == arrivals[..i];
        if 1 <= a.sig <= SIGNAL_MAX && now[a.sig] == Deliver { Handle(a.sig, a.write); }
      }
      assert arrivals[..|arrivals|] == arrivals;
    }

    /** `core_syscall_signal_pipe` */
    method Pipe(outcome: PipeOutcome, gaps: seq<seq<Arrival>>) returns (r: int)
      requires Valid() && |gaps| == 3
      modifies this`sink, this`source, this`errno, this`bytes
      ensures Valid()
      ensures old(source) >= 0 ==> r == source == old(source) && sink == old(sink)
      ensures old(source) < 0 && outcome.Made? ==> r == source == outcome.read && sink == outcome.write
      ensures old(source) < 0 && outcome.Failed? ==>
        r == -1 && source == old(source) && sink == old(sink) && errno == outcome.err
      ensures r < 0 || r == source
      ensures bytes == old(bytes) + Heard(gaps[0], now[..])
        + (if old(source) >= 0 then [] else Heard(gaps[if outcome.Failed? then 1 else 2], now[..]))
    {
      hide Heard;
      Arrive(gaps[0]);
      if source >= 0 { return source; }
      if outcome.Failed? {
        errno := outcome.err;
        Arrive(gaps[1]);
        return -1;
      }
      source := outcome.read;
      Arrive(gaps[2]);
      sink := outcome.write;
      return source;
    }

    /** `sigaction`: the one before, or a refusal for a signal that is fixed. */
    method Sigaction(sig: int, d: Disposition) returns (ok: bool, was: Disposition)
      requires Shape() && InBounds(sig)
      modifies now, this`errno
      ensures ok <==> sig !in fixed
      ensures ok ==> was == old(now[sig]) && now[sig] == d && errno == old(errno)
      ensures !ok ==> now[sig] == old(now[sig]) && errno == EINVAL
      ensures forall s :: 0 <= s < now.Length && s != sig ==> now[s] == old(now[s])
    {
      was := now[sig];
      ok := sig !in fixed;
      if ok { now[sig] := d; } else { errno := EINVAL; }
    }

    /** The end of a take-over: remember, unless something is remembered already. */
    method Remember(sig: int, was: Disposition)
      requires Shape() && InBounds(sig)
      modifies held, saved
      ensures saved[sig] && held[sig] == if old(saved[sig]) then old(held[sig]) else was
      ensures forall s :: 0 <= s < saved.Length && s != sig ==> saved[s] == old(saved[s]) && held[s] == old(held[s])
    {
      if !saved[sig] {
        held[sig] := was;
        saved[sig] := true;
      }
    }

    /** What the arrays hold once a take-over is done. */
    lemma {:induction false} TakenOver(before: Book, sig: int, d: Disposition)
      requires Shape() && InBounds(sig) && Honest(before, fixed)
      requires now[sig] == d && saved[sig]
      requires held[sig] == if sig in before.saved then before.held[sig] else before.now[sig]
      requires forall s :: InBounds(s) && s != sig ==>
        now[s] == before.now[s] && (saved[s] <==> s in before.saved) && (saved[s] ==> held[s] == before.held[s])
      requires before.held.Keys == before.saved && (forall s :: s in before.now ==> InBounds(s))
      ensures View() == TakeOver(before, sig, d)
    {
      var t := TakeOver(before, sig, d);
      assert View().now == t.now;
      assert View().saved == t.saved;
      assert View().held == t.held;
    }

    /** What the arrays hold once a signal is given back. */
    lemma {:induction false} GivenBack(before: Book, sig: int, d: Disposition, ok: bool)
      requires Shape() && InBounds(sig) && Honest(before, fixed) && (ok <==> sig !in fixed)
      requires d == if sig in before.saved then before.held[sig] else Default
      requires !saved[sig] && now[sig] == if ok then d else before.now[sig]
      requires forall s :: InBounds(s) && s != sig ==>
        now[s] == before.now[s] && (saved[s] <==> s in before.saved) && (saved[s] ==> held[s] == before.held[s])
      requires before.held.Keys == before.saved && (forall s :: s in before.now ==> InBounds(s))
      ensures View() == After(before, Restore(sig), fixed)
      ensures Honest(View(), fixed)
    {
      var t := After(before, Restore(sig), fixed);
      assert View().now == t.now;
      assert View().saved == t.saved;
      assert View().held == t.held;
      HonestOnce(before, Restore(sig), fixed);
    }

    /** The arrays as they are between the call of sigaction and the remembering. */
    method Settle(sig: int, d: Disposition, gap: seq<Arrival>, ghost before: Book) returns (r: int)
      requires Armed() && InBounds(sig) && before == View() && Honest(before, fixed)
      requires d == Ignored || (d == Deliver && sink >= 0)
      modifies this`errno, this`bytes, now, held, saved
      ensures r == 0 <==> sig !in fixed
      ensures Armed() && View() == (if sig in fixed then before else TakeOver(before, sig, d)) && Honest(View(), fixed)
      ensures bytes == old(bytes) + (if r == 0 then Heard(gap, now[..]) else [])
    {
      hide Heard;
      var ok, was := Sigaction(sig, d);
      if !ok {
        assert View().now == before.now;
        return errno;
      }
      Arrive(gap);
      Remember(sig, was);
      TakenOver(before, sig, d);
      HonestOnce(before, if d == Deliver then Catch(sig) else Ignore(sig), fixed);
      return 0;
    }

    /** `core_syscall_signal_catch` */
    method CatchSignal(sig: int, outcome: PipeOutcome, gaps: seq<seq<Arrival>>) returns (r: int)
      requires Valid() && |gaps| == 6 && (outcome.Failed? ==> outcome.err != 0)
      modifies this, now, held, saved
      ensures Valid() && now == old(now) && held == old(held) && saved == old(saved)
      ensures !InBounds(sig) ==> r == EINVAL
      ensures r == 0 ==> View() == After(old(View()), Catch(sig), fixed) && sink >= 0
      ensures r == 0 <==> InBounds(sig) && sig !in fixed && (old(source) >= 0 || outcome.Made?)
      ensures r != 0 ==> View() == old(View())
      ensures r == 0 ==>
        bytes == old(bytes) + Heard(gaps[0], old(now[..])) + (if old(source) >= 0 then []
                                                              else Heard(gaps[2], old(now[..])))
          + Heard(gaps[3], old(now[..])) + Heard(gaps[4], now[..]) + Heard(gaps[5], now[..])
    {
      hide Honest, Complete, TakeOver, Heard;
      if sig < 1 || sig > SIGNAL_MAX { return EINVAL; }
      var fd := Pipe(outcome, gaps[..3]);
      if fd < 0 { return errno; }
      Arrive(gaps[3]);
      ghost var before := View();
      r := Settle(sig, Deliver, gaps[4], before);
      Arrive(gaps[5]);
    }

    /** `core_syscall_signal_ignore`, by way of `set_to` with something to remember. */
    method IgnoreSignal(sig: int, gaps: seq<seq<Arrival>>) returns (r: int)
      requires Valid() && |gaps| == 3
      modifies this, now, held, saved
      ensures Valid() && now == old(now) && held == old(held) && saved == old(saved)
      ensures r == 0 <==> InBounds(sig) && sig !in fixed
      ensures View() == After(old(View()), Ignore(sig), fixed)
      ensures r == 0 ==>
        bytes == old(bytes) + Heard(gaps[0], old(now[..])) + Heard(gaps[1], now[..]) + Heard(gaps[2], now[..])
    {
      hide Honest, Complete, TakeOver, Heard;
      if sig < 1 || sig > SIGNAL_MAX { return EINVAL; }
      Arrive(gaps[0]);
      ghost var before := View();
      r := Settle(sig, Ignored, gaps[1], before);
      Arrive(gaps[2]);
    }

    /** Giving back a signal that is remembered; `saved` is cleared before `sigaction` is called. */
    method PutBack(sig: int, gap: seq<Arrival>, ghost before: Book) returns (r: int)
      requires Valid() && InBounds(sig) && saved[sig] && before == View()
      modifies this`errno, this`bytes, now, saved
      ensures r == 0 <==> sig !in fixed
      ensures Shape() && View() == After(before, Restore(sig), fixed) && Honest(View(), fixed)
      ensures Armed() && bytes == old(bytes) + Heard(gap, old(now[..]))
    {
      hide After, GiveBack, TakeOver, Heard;
      var back := held[sig];
      saved[sig] := false;
      Arrive(gap);
      var ok, was := Sigaction(sig, back);
      GivenBack(before, sig, back, ok);
      r := if ok then 0 else errno;
    }

    /** `core_syscall_signal_restore` */
    method RestoreSignal(sig: int, gaps: seq<seq<Arrival>>) returns (r: int)
      requires Valid() && |gaps| == 3
      modifies this, now, saved
      ensures Valid() && now == old(now) && held == old(held) && saved == old(saved)
      ensures r == 0 <==> InBounds(sig) && sig !in fixed
      ensures View() == After(old(View()), Restore(sig), fixed)
      ensures r == 0 ==>
        bytes == old(bytes) + Heard(gaps[0], old(now[..]))
          + (if old(saved[sig]) then Heard(gaps[1], old(now[..])) + Heard(gaps[2], now[..])
             else Heard(gaps[1], now[..]))
    {
      hide GiveBack, TakeOver, Honest, Complete, Heard;
      if sig < 1 || sig > SIGNAL_MAX { return EINVAL; }
      Arrive(gaps[0]);
      ghost var before := View();
      if saved[sig] {
        r := PutBack(sig, gaps[1], before);
        Arrive(gaps[2]);
        return;
      }
      var ok, was := Sigaction(sig, Default);
      GivenBack(before, sig, Default, ok);
      Arrive(gaps[1]);
      r := if ok then 0 else errno;
    }

    /** One call of an entry point.  What it changes is what the call is said to do, when it gives 0. */
    method Perform(step: Step) returns (r: int)
      requires Valid() && Ready(step)
      modifies this, now, held, saved
      ensures Valid() && now == old(now) && held == old(held) && saved == old(saved)
      ensures View() == if r == 0 then After(old(View()), step.call, fixed) else old(View())
    {
      match step.call
      case Catch(sig) => r := CatchSignal(sig, step.outcome, step.gaps);
      case Ignore(sig) => r := IgnoreSignal(sig, step.gaps[..3]);
      case Restore(sig) => r := RestoreSignal(sig, step.gaps[..3]);
    }

    /** Any run of calls, with signals arriving all the way through it. */
    method PerformAll(steps: seq<Step>) returns (results: seq<int>)
      requires Valid() && forall i :: 0 <= i < |steps| ==> Ready(steps[i])
      modifies this, now, held, saved
      ensures Valid() && now == old(now) && held == old(held) && saved == old(saved)
      ensures |results| == |steps| && View() == AfterAll(old(View()), Granted(steps, results), fixed)
    {
      results := [];
      for i := 0 to |steps|
        invariant Valid() && now == old(now) && held == old(held) && saved == old(saved)
        invariant |results| == i && View() == AfterAll(old(View()), Granted(steps[..i], results), fixed)
      {
        var r := Perform(steps[i]);
        GrantedNext(steps[..i], results, steps[i], r);
        assert steps[..i + 1] == steps[..i] + [steps[i]];
        AfterNext(old(View()), Granted(steps[..i], results), steps[i].call, fixed);
        results := results + [r];
      }
      assert steps[..|steps|] == steps;
    }

    /**
     A signal nobody holds yet, any run of calls that does not give it back, and
     then giving it back: the process has the disposition it started with if
     one of the calls took the signal over, and the default if none did.
     */
    method TakeAndRestore(steps: seq<Step>, sig: int, gaps: seq<seq<Arrival>>) returns (results: seq<int>, r: int)
      requires Valid() && InBounds(sig) && sig !in fixed && !saved[sig] && |gaps| == 3
      requires forall i :: 0 <= i < |steps| ==> Ready(steps[i]) && steps[i].call != Restore(sig)
      modifies this, now, held, saved
      ensures Valid() && now == old(now) && held == old(held) && saved == old(saved)
      ensures |results| == |steps| && r == 0 && !saved[sig]
      ensures now[sig] == if TookOver(steps, results, sig) then old(now[sig]) else Default
    {
      ghost var before := View();
      results := PerformAll(steps);
      ghost var calls := Granted(steps, results);
      GrantedTakes(steps, results, sig);
      RestoreReinstates(before, calls, fixed, sig);
      r := RestoreSignal(sig, gaps);
      assert now[sig] == View().now[sig] && (saved[sig] <==> sig in View().saved);
    }
  }

  // --- runs of calls -------------------------------------------------------------------------

  /** A call, what `pipe` would come back with in it, and the signals that arrive in its gaps. */
  datatype Step = Step(call: Call, outcome: PipeOutcome, gaps: seq<seq<Arrival>>)

  predicate Ready(step: Step) {
    |step.gaps| == 6 && (step.outcome.Failed? ==> step.outcome.err != 0)
  }

  /** The calls that gave 0. */
  function Granted(steps: seq<Step>, results: seq<int>): seq<Call>
    requires |steps| == |results|
  {
    if steps == [] then []
    else
      var last := |steps| - 1;
      Granted(steps[..last], results[..last]) + (if results[last] == 0 then [steps[last].call] else [])
  }

  lemma {:induction false} GrantedNext(steps: seq<Step>, results: seq<int>, step: Step, r: int)
    requires |steps| == |results|
    ensures Granted(steps + [step], results + [r]) == Granted(steps, results) + (if r == 0 then [step.call] else [])
  {
    assert (steps + [step])[..|steps|] == steps && (results + [r])[..|results|] == results;
  }

  lemma {:induction false} AfterNext(b: Book, calls: seq<Call>, call: Call, fixed: set<int>)
    ensures AfterAll(b, calls + [call], fixed) == After(AfterAll(b, calls, fixed), call, fixed)
    ensures calls + [] == calls
  {
    assert (calls + [call])[..|calls|] == calls;
  }

  /** The run has this call in it, and it gave 0. */
  ghost predicate Gives(steps: seq<Step>, results: seq<int>, c: Call)
    requires |steps| == |results|
  {
    exists i :: 0 <= i < |steps| && results[i] == 0 && steps[i].call == c
  }

  lemma {:induction false} GivesLast(steps: seq<Step>, results: seq<int>, c: Call)
    requires |steps| == |results| > 0
    ensures var last := |steps| - 1;
      Gives(steps, results, c) <==> Gives(steps[..last], results[..last],
                                          c) || (results[last] == 0 && steps[last].call == c)
  {
    var last := |steps| - 1;
    var init, ends := steps[..last], results[..last];
    if i :| 0 <= i < |steps| && results[i] == 0 && steps[i].call == c {
      if i < last { assert ends[i] == 0 && init[i].call == c; }
    }
    if i :| 0 <= i < |init| && ends[i] == 0 && init[i].call == c { assert results[i] == 0 && steps[i].call == c; }
  }

  lemma {:induction false} GrantedAre(steps: seq<Step>, results: seq<int>)
    requires |steps| == |results|
    ensures forall c :: c in Granted(steps, results) <==> Gives(steps, results, c)
  {
    hide Gives;
    if steps == [] {
      forall c ensures !Gives(steps, results, c) { NoneGive(steps, results, c); }
    } else {
      var last := |steps| - 1;
      GrantedAre(steps[..last], results[..last]);
      forall c ensures c in Granted(steps, results) <==> Gives(steps, results, c) { GivesLast(steps, results, c); }
    }
  }

  lemma {:induction false} NoneGive(steps: seq<Step>, results: seq<int>, c: Call)
    requires |steps| == |results| == 0
    ensures !Gives(steps, results, c)
  {
  }

  /** A call of the run took the signal over. */
  ghost predicate TookOver(steps: seq<Step>, results: seq<int>, sig: int)
    requires |steps| == |results|
  {
    exists i :: 0 <= i < |steps| && results[i] == 0 && TakesOver(steps[i].call, sig)
  }

  lemma {:induction false} GrantedTakes(steps: seq<Step>, results: seq<int>, sig: int)
    requires |steps| == |results| && forall i :: 0 <= i < |steps| ==> steps[i].call != Restore(sig)
    ensures var calls := Granted(steps, results);
      && (forall j :: 0 <= j < |calls| ==> calls[j] != Restore(sig))
      && ((exists j :: 0 <= j < |calls| && TakesOver(calls[j], sig)) <==> TookOver(steps, results, sig))
  {
    var calls := Granted(steps, results);
    GrantedAre(steps, results);
    forall j | 0 <= j < |calls| ensures Gives(steps, results, calls[j]) { assert calls[j] in calls; }
    if i :| 0 <= i < |steps| && results[i] == 0 && TakesOver(steps[i].call, sig) {
      assert Gives(steps, results, steps[i].call);
      var j :| 0 <= j < |calls| && calls[j] == steps[i].call;
      assert TakesOver(calls[j], sig);
    }
  }
}
