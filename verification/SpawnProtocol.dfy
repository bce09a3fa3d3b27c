/**
 `core_syscall_spawn` and its child as two processes that step one at a time in
 any order: the pipe, the fork, the read loop and the wait.

 The two share the pipe and nothing else.  A step is one system call; which
 process takes the next one, which calls fail, and when a signal interrupts
 the parent are left open, so what is proved holds of every interleaving.
 */
module SpawnProtocol {
  import SC = SpawnChild

  // --- the parent's descriptors --------------------------------------------------------

  datatype File = Other(id: int) | ReadEnd | WriteEnd

  type Files = map<nat, File>

  // --- where each process is --------------------------------------------------------------

  datatype Parent =
    | Begin
    | Piped(r: nat, w: nat)
    | Forking(r: nat, w: nat)
    | Refusing(r: nat, w: nat, err: int)
    | RefusedRead(w: nat, err: int)
    | Forked(r: nat, w: nat)
    | Reading(r: nat)
    | Got(r: nat, said: Said)
    | Reaping(err: int)
    | Done(result: Result)

  /** What `read` came back with: the errno the child wrote, or nothing. */
  datatype Said = Said(err: int) | Nothing

  datatype Result = Pid | Failure(err: int)

  datatype Child = Unborn | Holding | Setting | Running | Wrote | Dead

  /**
   The whole system.  `pipe` is what has been written and not read, `written`
   what the child ever wrote, `childWrite` whether the child still holds the
   write end, `reaped` whether its exit has been collected, and `broken` whether
   the parent's `read` failed for good.
   */
  datatype System = System(
    files: Files, parent: Parent, child: Child,
    pipe: seq<int>, written: seq<int>, childWrite: bool, reaped: bool, broken: bool)

  predicate Initial(s: System, files: Files) {
    && s == System(files, Begin, Unborn, [], [], false, false, false)
    && forall k :: k in files ==> files[k].Other?
  }

  // --- the parent's steps --------------------------------------------------------------------

  /** `pipe` takes two numbers that are free, or fails. */
  ghost predicate OpenPipe(s: System, t: System) {
    && s.parent.Begin?
    && ((exists err :: t == s.(parent := Done(Failure(err))))
        || exists r: nat, w: nat :: r != w && r !in s.files && w !in s.files
             && t == s.(files := s.files[r := ReadEnd][w := WriteEnd], parent := Piped(r, w)))
  }

  /** Close on exec on both ends, or give up. */
  ghost predicate MarkPipe(s: System, t: System) {
    && s.parent.Piped?
    && (t == s.(parent := Forking(s.parent.r, s.parent.w))
        || exists err :: t == s.(parent := Refusing(s.parent.r, s.parent.w, err)))
  }

  /** `fork`: the child gets a copy of everything, the write end with it, or there is no child. */
  ghost predicate Fork(s: System, t: System) {
    && s.parent.Forking?
    && (t == s.(parent := Forked(s.parent.r, s.parent.w), child := Holding, childWrite := true)
        || exists err :: t == s.(parent := Refusing(s.parent.r, s.parent.w, err)))
  }

  /** The two closes on the way out of a failure. */
  ghost predicate CloseBoth(s: System, t: System) {
    || (s.parent.Refusing? && t == s.(files := s.files - {s.parent.r}, parent := RefusedRead(s.parent.w, s.parent.err)))
    || (s.parent.RefusedRead? && t == s.(files := s.files - {s.parent.w}, parent := Done(Failure(s.parent.err))))
  }

  /** The parent lets go of its own write end, without which it would wait for itself. */
  ghost predicate CloseWrite(s: System, t: System) {
    s.parent.Forked? && t == s.(files := s.files - {s.parent.w}, parent := Reading(s.parent.r))
  }

  /** Whether anybody could still write. */
  predicate WriterLeft(s: System) {
    s.childWrite || exists k :: k in s.files && s.files[k] == WriteEnd
  }

  /** `read` gives what is there, or end of file when nobody is left to write, and blocks otherwise. */
  ghost predicate Read(s: System, t: System) {
    && s.parent.Reading?
    && (if s.pipe != [] then t == s.(pipe := s.pipe[1..], parent := Got(s.parent.r, Said(s.pipe[0])))
        else !WriterLeft(s) && t == s.(parent := Got(s.parent.r, Nothing)))
  }

  /** Or it fails with something that is no interruption, and the loop is left with nothing read. */
  ghost predicate ReadFails(s: System, t: System) {
    s.parent.Reading? && t == s.(parent := Got(s.parent.r, Nothing), broken := true)
  }

  /** A signal comes in while the parent waits, in either loop: round again. */
  ghost predicate Interrupted(s: System, t: System) {
    (s.parent.Reading? || s.parent.Reaping?) && t == s
  }

  /** The read end is closed, and the answer decides. */
  ghost predicate CloseRead(s: System, t: System) {
    && s.parent.Got?
    && t == s.(files := s.files - {s.parent.r},
               parent := match s.parent.said case Said(err) => Reaping(err) case Nothing => Done(Pid))
  }

  /** `waitpid` comes back once the child is dead, or at once when somebody else has collected it. */
  ghost predicate Reap(s: System, t: System) {
    && s.parent.Reaping? && s.child.Dead?
    && t == s.(reaped := true, parent := Done(Failure(s.parent.err)))
  }

  // --- the child's steps -------------------------------------------------------------------------

  /** It closes its read end, which nobody else can see. */
  ghost predicate ChildStarts(s: System, t: System) {
    s.child.Holding? && t == s.(child := Setting)
  }

  /** Everything works and `execve` succeeds: close on exec takes the write end away. */
  ghost predicate ChildExecs(s: System, t: System) {
    s.child.Setting? && t == s.(child := Running, childWrite := false)
  }

  /** Something fails: one write of one errno, which a pipe delivers whole. */
  ghost predicate ChildWrites(s: System, t: System) {
    s.child.Setting? && exists err :: t == s.(child := Wrote, pipe := s.pipe + [err], written := s.written + [err])
  }

  /** It exits, or is killed, which can happen anywhere. */
  ghost predicate ChildDies(s: System, t: System) {
    !s.child.Unborn? && !s.child.Dead? && t == s.(child := Dead, childWrite := false)
  }

  ghost predicate Step(s: System, t: System) {
    || OpenPipe(s, t) || MarkPipe(s, t) || Fork(s, t) || CloseBoth(s, t) || CloseWrite(s, t)
    || Read(s, t) || ReadFails(s, t) || Interrupted(s, t) || CloseRead(s, t) || Reap(s, t)
    || ChildStarts(s, t) || ChildExecs(s, t) || ChildWrites(s, t) || ChildDies(s, t)
  }

  // --- what every step keeps ------------------------------------------------------------------------

  /** The parent's descriptors at each point are the ones it came with and the ends it still has. */
  ghost predicate FilesAre(s: System, files: Files) {
    match s.parent
    case Begin => s.files == files
    case Piped(r, w) => r != w && r !in files && w !in files && s.files == files[r := ReadEnd][w := WriteEnd]
    case Forking(r, w) => r != w && r !in files && w !in files && s.files == files[r := ReadEnd][w := WriteEnd]
    case Forked(r, w) => r != w && r !in files && w !in files && s.files == files[r := ReadEnd][w := WriteEnd]
    case Refusing(r, w, _) => r != w && r !in files && w !in files && s.files == files[r := ReadEnd][w := WriteEnd]
    case RefusedRead(w, _) => w !in files && s.files == files[w := WriteEnd]
    case Reading(r) => r !in files && s.files == files[r := ReadEnd]
    case Got(r, _) => r !in files && s.files == files[r := ReadEnd]
    case Reaping(_) => s.files == files
    case Done(_) => s.files == files
  }

  /** Before the fork there is no child, and after it there is. */
  predicate Forks(p: Parent) {
    p.Forked? || p.Reading? || p.Got? || p.Reaping? || p == Done(Pid)
  }

  predicate Unforked(p: Parent) {
    p.Begin? || p.Piped? || p.Forking? || p.Refusing? || p.RefusedRead?
  }

  /** What has been written is either in the pipe or known to the parent, unless `read` failed. */
  ghost predicate Channel(s: System) {
    && |s.written| <= 1
    && (s.broken ==> (s.parent.Got? && s.parent.said.Nothing?) || s.parent == Done(Pid))
    && (s.child.Unborn? || s.child.Holding? || s.child.Setting? || s.child.Running? ==> s.written == [])
    && (s.child.Wrote? ==> |s.written| == 1)
    && match s.parent
       case Got(_, said) =>
         (match said
          case Said(err) => s.pipe == [] && s.written == [err]
          case Nothing => s.broken || (s.pipe == [] && s.written == [] && (s.child.Running? || s.child.Dead?)))
       case Reaping(err) => s.pipe == [] && s.written == [err]
       case Done(result) =>
         (match result
          case Pid => s.broken || (s.pipe == [] && s.written == [] && (s.child.Running? || s.child.Dead?))
          case Failure(err) => s.written == [] || (s.pipe == [] && s.written == [err]))
       case _ => s.pipe == s.written
  }

  ghost predicate Inv(s: System, files: Files) {
    && (forall k :: k in files ==> files[k].Other?)
    && FilesAre(s, files) && Channel(s)
    && (Forks(s.parent) ==> !s.child.Unborn?)
    && (Unforked(s.parent) ==> s.child.Unborn?)
    && (s.parent.Done? && s.parent.result.Failure? ==>
          || (s.child.Unborn? && !s.reaped && s.written == [])
          || (s.child.Dead? && s.reaped && s.written == [s.parent.result.err]))
    && (s.reaped ==> s.child.Dead? && s.parent.Done? && s.parent.result.Failure?)
    && (s.child.Holding? || s.child.Setting? || s.child.Wrote? ==> s.childWrite)
    && (s.childWrite ==> s.child.Holding? || s.child.Setting? || s.child.Wrote?)
  }

  lemma {:induction false} InitialInv(s: System, files: Files)
    requires Initial(s, files)
    ensures Inv(s, files)
  {
  }

  lemma {:induction false} ParentKeeps(s: System, t: System, files: Files)
    requires Inv(s, files)
    requires OpenPipe(s, t) || MarkPipe(s, t) || Fork(s, t) || CloseBoth(s, t) || CloseWrite(s, t)
    ensures Inv(t, files)
  {
  }

  lemma {:induction false} WaitKeeps(s: System, t: System, files: Files)
    requires Inv(s, files)
    requires Read(s, t) || ReadFails(s, t) || Interrupted(s, t) || CloseRead(s, t) || Reap(s, t)
    ensures Inv(t, files)
  {
    if s.parent.Reading? && s.pipe == [] { assert !s.childWrite || WriterLeft(s); }
  }

  lemma {:induction false} ChildKeeps(s: System, t: System, files: Files)
    requires Inv(s, files)
    requires ChildStarts(s, t) || ChildExecs(s, t) || ChildWrites(s, t) || ChildDies(s, t)
    ensures Inv(t, files)
  {
  }

  /** A run: states one step apart. */
  ghost predicate Run(run: seq<System>, files: Files) {
    run != [] && Initial(run[0], files) && forall i :: 0 < i < |run| ==> StepAt(run, i)
  }

  ghost predicate StepAt(run: seq<System>, i: nat)
    requires 0 < i < |run|
  {
    Step(run[i - 1], run[i])
  }

  lemma {:induction false} RunInv(run: seq<System>, files: Files)
    requires Run(run, files)
    ensures Inv(run[|run| - 1], files)
  {
    if |run| == 1 {
      InitialInv(run[0], files);
    } else {
      var init := run[..|run| - 1];
      forall i | 0 < i < |init| ensures StepAt(init, i) { assert StepAt(run, i); }
      RunInv(init, files);
      var s, t := run[|run| - 2], run[|run| - 1];
      assert StepAt(run, |run| - 1);
      if OpenPipe(s, t) || MarkPipe(s, t) || Fork(s, t) || CloseBoth(s, t) || CloseWrite(s, t) {
        ParentKeeps(s, t, files);
      } else if Read(s, t) || ReadFails(s, t) || Interrupted(s, t) || CloseRead(s, t) || Reap(s, t) {
        WaitKeeps(s, t, files);
      } else {
        ChildKeeps(s, t, files);
      }
    }
  }

  /**
   However the two interleave: when the parent has an answer its descriptors
   are what they were.  A failure means there was never a child, or it wrote
   exactly that errno and has been waited for.  A pid means the child wrote
   nothing and is past the point where it could, unless `read` failed.
   */
  lemma {:induction false} Answers(run: seq<System>, files: Files)
    requires Run(run, files) && run[|run| - 1].parent.Done?
    ensures var s := run[|run| - 1];
      && s.files == files
      && (s.parent.result.Pid? ==> s.broken || (s.written == [] && (s.child.Running? || s.child.Dead?)))
      && (s.parent.result.Failure? ==>
            s.child.Unborn? || (s.child.Dead? && s.reaped && s.written == [s.parent.result.err]))
      && (s.broken ==> s.parent.result.Pid?)
  {
    RunInv(run, files);
  }

  /** So among runs that fork, a pid is the answer exactly when no report was written or `read` failed. */
  lemma {:induction false} PidExactly(run: seq<System>, files: Files)
    requires Run(run, files) && run[|run| - 1].parent.Done? && !run[|run| - 1].child.Unborn?
    ensures var s := run[|run| - 1]; s.parent.result.Pid? <==> s.broken || s.written == []
  {
    Answers(run, files);
  }

  /** And after a pid nothing is ever written, unless `read` failed. */
  lemma {:induction false} PidIsFinal(s: System, t: System, files: Files)
    requires Inv(s, files) && s.parent == Done(Pid) && !s.broken && Step(s, t)
    ensures t.parent == Done(Pid) && t.written == [] && !t.broken
  {
  }

  /** A child that has written its errno, and a parent whose `read` then fails. */
  function Unheard(err: int): seq<System> {
    var begun := System(map[], Begin, Unborn, [], [], false, false, false);
    var both := map[0 := ReadEnd, 1 := WriteEnd];
    var read := map[0 := ReadEnd];
    [begun,
     begun.(files := both, parent := Piped(0, 1)),
     begun.(files := both, parent := Forking(0, 1)),
     System(both, Forked(0, 1), Holding, [], [], true, false, false),
     System(both, Forked(0, 1), Setting, [], [], true, false, false),
     System(both, Forked(0, 1), Wrote, [err], [err], true, false, false),
     System(read, Reading(0), Wrote, [err], [err], true, false, false),
     System(read, Got(0, Nothing), Wrote, [err], [err], true, false, true),
     System(map[], Done(Pid), Wrote, [err], [err], true, false, true)]
  }

  lemma {:induction false} UnheardOpens(err: int)
    ensures var run := Unheard(err); StepAt(run, 1) && StepAt(run, 2) && StepAt(run, 3)
  {
    var run := Unheard(err);
    assert run[1].files == run[0].files[0 := ReadEnd][1 := WriteEnd];
    assert OpenPipe(run[0], run[1]);
    assert MarkPipe(run[1], run[2]);
    assert Fork(run[2], run[3]);
  }

  lemma {:induction false} UnheardEnds(err: int)
    ensures var run := Unheard(err);
      StepAt(run, 4) && StepAt(run, 5) && StepAt(run, 6) && StepAt(run, 7) && StepAt(run, 8)
  {
    var run := Unheard(err);
    assert ChildStarts(run[3], run[4]);
    assert ChildWrites(run[4], run[5]);
    assert run[6].files == run[5].files - {1};
    assert CloseWrite(run[5], run[6]);
    assert ReadFails(run[6], run[7]);
    assert run[8].files == run[7].files - {0};
    assert CloseRead(run[7], run[8]);
  }

  /** The code then returns a pid for a child that said why it could not start. */
  lemma {:induction false} UnheardExample(err: int)
    ensures var run := Unheard(err);
      Run(run, map[]) && run[|run| - 1].parent == Done(Pid) && run[|run| - 1].written == [err]
  {
    hide Step;
    UnheardOpens(err);
    UnheardEnds(err);
  }

  // --- every answer does happen -----------------------------------------------------------------------

  ghost predicate Reachable(s: System, files: Files) {
    exists run :: Run(run, files) && run[|run| - 1] == s
  }

  lemma {:induction false} ReachInitial(s: System, files: Files)
    requires Initial(s, files)
    ensures Reachable(s, files)
  {
    assert Run([s], files);
  }

  lemma {:induction false} ReachNext(s: System, t: System, files: Files)
    requires Reachable(s, files) && Step(s, t)
    ensures Reachable(t, files)
  {
    hide Step;
    var run :| Run(run, files) && run[|run| - 1] == s;
    var more := run + [t];
    forall i | 0 < i < |more| ensures StepAt(more, i) { if i < |run| { assert StepAt(run, i); } }
    assert Run(more, files) && more[|more| - 1] == t;
  }

  /** The state after the fork, with the child about to be set up, for any numbers `pipe` gives. */
  lemma {:induction false} ReachSetting(files: Files, r: nat, w: nat) returns (s: System)
    requires r != w && r !in files && w !in files && forall k :: k in files ==> files[k].Other?
    ensures Reachable(s, files)
    ensures s == System(files[r := ReadEnd][w := WriteEnd], Forked(r, w), Setting, [], [], true, false, false)
  {
    hide Reachable;
    var a := System(files, Begin, Unborn, [], [], false, false, false);
    ReachInitial(a, files);
    var b := a.(files := files[r := ReadEnd][w := WriteEnd], parent := Piped(r, w));
    assert OpenPipe(a, b);
    ReachNext(a, b, files);
    var c := b.(parent := Forking(r, w));
    assert MarkPipe(b, c);
    ReachNext(b, c, files);
    var d := c.(parent := Forked(r, w), child := Holding, childWrite := true);
    assert Fork(c, d);
    ReachNext(c, d, files);
    s := d.(child := Setting);
    assert ChildStarts(d, s);
    ReachNext(d, s, files);
  }

  /** A pid with the program running; the errno of a child that was waited for; and one of a child that never was. */
  lemma {:induction false} AnswersHappen(files: Files, r: nat, w: nat, err: int)
    requires r != w && r !in files && w !in files && forall k :: k in files ==> files[k].Other?
    ensures Reachable(System(files, Done(Pid), Running, [], [], false, false, false), files)
    ensures Reachable(System(files, Done(Failure(err)), Dead, [], [err], false, true, false), files)
    ensures Reachable(System(files, Done(Failure(err)), Unborn, [], [], false, false, false), files)
  {
    hide Reachable;
    var s := ReachSetting(files, r, w);
    PidHappens(s, files, r, w);
    ErrnoHappens(s, files, r, w, err);
    var a := System(files, Begin, Unborn, [], [], false, false, false);
    ReachInitial(a, files);
    var z := a.(parent := Done(Failure(err)));
    assert OpenPipe(a, z);
    ReachNext(a, z, files);
  }

  lemma {:induction false} PidHappens(s: System, files: Files, r: nat, w: nat)
    requires Reachable(s, files) && r != w && r !in files && w !in files
    requires forall k :: k in files ==> files[k].Other?
    requires s == System(files[r := ReadEnd][w := WriteEnd], Forked(r, w), Setting, [], [], true, false, false)
    ensures Reachable(System(files, Done(Pid), Running, [], [], false, false, false), files)
  {
    hide Reachable;
    var a := s.(child := Running, childWrite := false);
    assert ChildExecs(s, a);
    ReachNext(s, a, files);
    assert a.files - {w} == files[r := ReadEnd];
    var b := a.(files := files[r := ReadEnd], parent := Reading(r));
    assert CloseWrite(a, b);
    ReachNext(a, b, files);
    var c := b.(parent := Got(r, Nothing));
    assert Read(b, c);
    ReachNext(b, c, files);
    assert c.files - {r} == files;
    var d := c.(files := files, parent := Done(Pid));
    assert CloseRead(c, d);
    ReachNext(c, d, files);
  }

  lemma {:induction false} ErrnoHappens(s: System, files: Files, r: nat, w: nat, err: int)
    requires Reachable(s, files) && r != w && r !in files && w !in files
    requires s == System(files[r := ReadEnd][w := WriteEnd], Forked(r, w), Setting, [], [], true, false, false)
    ensures Reachable(System(files, Done(Failure(err)), Dead, [], [err], false, true, false), files)
  {
    hide Reachable;
    var a := s.(child := Wrote, pipe := [err], written := [err]);
    assert ChildWrites(s, a);
    ReachNext(s, a, files);
    assert a.files - {w} == files[r := ReadEnd];
    var b := a.(files := files[r := ReadEnd], parent := Reading(r));
    assert CloseWrite(a, b);
    ReachNext(a, b, files);
    var c := b.(pipe := [], parent := Got(r, Said(err)));
    assert Read(b, c);
    ReachNext(b, c, files);
    assert c.files - {r} == files;
    var d := c.(files := files, parent := Reaping(err));
    assert CloseRead(c, d);
    ReachNext(c, d, files);
    var e := d.(child := Dead, childWrite := false);
    assert ChildDies(d, e);
    ReachNext(d, e, files);
    var f := e.(reaped := true, parent := Done(Failure(err)));
    assert Reap(e, f);
    ReachNext(e, f, files);
  }

  // --- the child's last step, done in earnest ---------------------------------------------------------

  ghost predicate HoldsPipe(t: SC.Table, pipe: int) {
    exists k :: k in t && t[k].file == pipe
  }

  /**
   `child` of `spawn.c`, run on a descriptor table, takes one of the two steps
   the protocol has for it: it becomes the program, and nothing it keeps is the
   pipe, or it writes its own errno to the write end, which it still holds.
   */
  method ChildSteps(s: System, p: SC.Process, fds: array<int>, report: int, early: int, exec: int, ghost pipe: int)
    returns (end: SC.End, ghost t: System)
    requires s.child.Setting? && s.childWrite
    requires SC.Numbered(p.table) && SC.Sources(p.table, fds[..], pipe)
    requires SC.Reports(p.table, report, pipe) && SC.PipeGoes(p.table, pipe)
    modifies p, fds
    ensures end.Executed? <==>
      && early == 0 && exec == 0
      && SC.Enough(old(p.table), old(fds[..]), report, p.limit) && SC.SlotsFit(old(fds[..]), p.limit)
    ensures end.Executed? ==> ChildExecs(s, t) && SC.Arranged(end.table, old(fds[..]), old(p.table))
    ensures end.Wrote? ==> ChildWrites(s, t) && t.written == s.written + [end.errno]
    ensures end.Wrote? ==> end.to in end.table && end.table[end.to].file == pipe
    ensures t.childWrite <==> HoldsPipe(end.table, pipe)
  {
    end := SC.Child(p, fds, report, early, exec, pipe);
    t := if end.Executed? then s.(child := Running, childWrite := false)
         else s.(child := Wrote, pipe := s.pipe + [end.errno], written := s.written + [end.errno]);
  }

  // --- it gets there ---------------------------------------------------------------------------------

  /** A step that is not an interruption. */
  ghost predicate Moves(s: System, t: System) {
    Step(s, t) && s != t
  }

  function ParentRank(p: Parent): nat {
    match p
    case Begin => 8
    case Piped(_, _) => 7
    case Forking(_, _) => 6
    case Refusing(_, _, _) => 2
    case RefusedRead(_, _) => 1
    case Forked(_, _) => 5
    case Reading(_) => 4
    case Got(_, _) => 3
    case Reaping(_) => 1
    case Done(_) => 0
  }

  function ChildRank(c: Child): nat {
    match c
    case Unborn => 4
    case Holding => 3
    case Setting => 2
    case Running => 1
    case Wrote => 1
    case Dead => 0
  }

  function Rank(s: System): nat { ParentRank(s.parent) + ChildRank(s.child) }

  /** Every step but an interruption uses something up, so only endless signals could keep it going. */
  lemma {:induction false} StepsDescend(s: System, t: System, files: Files)
    requires Inv(s, files) && Moves(s, t)
    ensures Rank(t) < Rank(s)
  {
  }

  /** The child can always do something until it is the program or dead. */
  lemma {:induction false} ChildMoves(s: System) returns (t: System)
    requires s.child.Holding? || s.child.Setting? || s.child.Wrote?
    ensures Moves(s, t)
  {
    if s.child.Holding? {
      t := s.(child := Setting);
      assert ChildStarts(s, t);
    } else {
      t := s.(child := Dead, childWrite := false);
      assert ChildDies(s, t);
    }
  }

  /** Until the parent has its answer something can move: neither ever waits for the other in vain. */
  lemma {:induction false} NeverStuck(s: System, files: Files) returns (t: System)
    requires Inv(s, files) && !s.parent.Done?
    ensures Moves(s, t)
  {
    match s.parent
    case Begin =>
      t := s.(parent := Done(Failure(0)));
      assert OpenPipe(s, t);
    case Piped(r, w) =>
      t := s.(parent := Forking(r, w));
      assert MarkPipe(s, t);
    case Forking(r, w) =>
      t := s.(parent := Forked(r, w), child := Holding, childWrite := true);
      assert Fork(s, t);
    case Refusing(r, w, err) =>
      t := s.(files := s.files - {r}, parent := RefusedRead(w, err));
      assert CloseBoth(s, t);
    case RefusedRead(w, err) =>
      t := s.(files := s.files - {w}, parent := Done(Failure(err)));
      assert CloseBoth(s, t);
    case Forked(r, w) =>
      t := s.(files := s.files - {w}, parent := Reading(r));
      assert CloseWrite(s, t);
    case Reading(r) => t := ReadingMoves(s, files);
    case Got(r, said) =>
      t := s.(files := s.files - {r}, parent := match said case Said(err) => Reaping(err) case Nothing => Done(Pid));
      assert CloseRead(s, t);
    case Reaping(err) => t := ReapingMoves(s, files);
  }

  /** Waiting in `read`: there is something, or an end of file, or a child that is still to act. */
  lemma {:induction false} ReadingMoves(s: System, files: Files) returns (t: System)
    requires Inv(s, files) && s.parent.Reading?
    ensures Moves(s, t)
  {
    if s.pipe != [] {
      t := s.(pipe := s.pipe[1..], parent := Got(s.parent.r, Said(s.pipe[0])));
      assert Read(s, t);
    } else if s.childWrite {
      t := ChildMoves(s);
    } else {
      t := s.(parent := Got(s.parent.r, Nothing));
      assert !WriterLeft(s);
      assert Read(s, t);
    }
  }

  /** Waiting for the child: it wrote, so all it has left to do is die. */
  lemma {:induction false} ReapingMoves(s: System, files: Files) returns (t: System)
    requires Inv(s, files) && s.parent.Reaping?
    ensures Moves(s, t)
  {
    if s.child.Dead? {
      t := s.(reaped := true, parent := Done(Failure(s.parent.err)));
      assert Reap(s, t);
    } else {
      t := ChildMoves(s);
    }
  }
}
