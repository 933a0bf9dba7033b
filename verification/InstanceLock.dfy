/**
 The single-instance lock as a concurrent protocol: managers in any number of
 processes open the anchor file, try an exclusive lock on their own open file
 description, hold it, drop it, or die at any point.

 Each step is one system call, so every interleaving of the managers is a run.
 */
module InstanceLock {
  import opened Prelude

  datatype Purpose = Probe | Acquire

  /** Where a manager is inside `is_running` or `acquire`. */
  datatype Call =
    | Idle
    | Opened(purpose: Purpose, fd: nat)
    | Locked(purpose: Purpose, fd: nat)

  /** One manager: its process, the guard it keeps, and the call it is in. */
  datatype Manager = Manager(proc: nat, lock: Option<nat>, call: Call)

  /**
   `anchor` is the inode the path names; `open` maps each open file description to its
   inode; `owner` maps each locked inode to the description that holds the lock;
   `content` is what each inode has been told about process ids.
   */
  datatype State = State(
    anchor: Option<nat>, nextInode: nat, nextFd: nat,
    open: map<nat, nat>, owner: map<nat, nat>, content: map<nat, int>,
    managers: map<nat, Manager>)

  datatype Event =
    | Spawn(m: nat, proc: nat)
    | Open(m: nat, purpose: Purpose)
    | TryLock(m: nat)
    | EndProbe(m: nat)
    /** Truncate and record the process id; when truncation fails the guard is dropped. */
    | Record(m: nat, truncated: bool)
    | Release(m: nat)
    | Die(proc: nat)
    /** Anybody may write anything into the anchor. */
    | Scribble(pid: int)
    /** Removing the anchor. No code of the program does this. */
    | Unlink

  const INITIAL := State(None, 0, 0, map[], map[], map[], map[])

  // ---------------------------------------------------------------------
  // The kernel
  // ---------------------------------------------------------------------

  /** Closing descriptions frees every lock they hold. */
  function Close(s: State, fds: set<nat>): State {
    s.(open := s.open - fds,
       owner := map i | i in s.owner && s.owner[i] !in fds :: s.owner[i])
  }

  function CallFds(c: Call): set<nat> {
    match c
    case Idle => {}
    case Opened(_, fd) => {fd}
    case Locked(_, fd) => {fd}
  }

  function LockFds(l: Option<nat>): set<nat> {
    if l.Some? then {l.value} else {}
  }

  function Fds(a: Manager): set<nat> {
    CallFds(a.call) + LockFds(a.lock)
  }

  function SetManager(s: State, m: nat, a: Manager): State {
    s.(managers := s.managers[m := a])
  }

  predicate IsLocked(s: State, inode: nat) {
    inode in s.owner
  }

  // ---------------------------------------------------------------------
  // Steps; a step that is not possible leaves the state alone
  // ---------------------------------------------------------------------

  /** Every description of a process. */
  function FdsOf(s: State, proc: nat): set<nat> {
    set m, fd | m in s.managers && s.managers[m].proc == proc && fd in Fds(s.managers[m]) :: fd
  }

  predicate InCall(s: State, m: nat) {
    m in s.managers && !s.managers[m].call.Idle?
  }

  function AfterOpen(s: State, m: nat, purpose: Purpose): State
    requires m in s.managers
  {
    var inode := if s.anchor.Some? then s.anchor.value else s.nextInode;
    var t := s.(anchor := Some(inode),
                nextInode := if s.anchor.Some? then s.nextInode else s.nextInode + 1,
                open := s.open[s.nextFd := inode],
                nextFd := s.nextFd + 1);
    SetManager(t, m, s.managers[m].(call := Opened(purpose, s.nextFd)))
  }

  function AfterTryLock(s: State, m: nat): State
    requires m in s.managers && s.managers[m].call.Opened? && s.managers[m].call.fd in s.open
  {
    var a := s.managers[m];
    var inode := s.open[a.call.fd];
    if IsLocked(s, inode)
    then SetManager(Close(s, {a.call.fd}), m, a.(call := Idle))
    else SetManager(s.(owner := s.owner[inode := a.call.fd]), m, a.(call := Locked(a.call.purpose, a.call.fd)))
  }

  function AfterRecord(s: State, m: nat, truncated: bool): State
    requires m in s.managers && s.managers[m].call.Locked?
  {
    var a := s.managers[m];
    if !truncated || a.call.fd !in s.open
    then SetManager(Close(s, {a.call.fd}), m, a.(call := Idle))
    else
      var t := s.(content := s.content[s.open[a.call.fd] := a.proc]);
      SetManager(Close(t, LockFds(a.lock) - {a.call.fd}), m, a.(lock := Some(a.call.fd), call := Idle))
  }

  function Step(s: State, e: Event): State {
    match e
    case Spawn(m, proc) =>
      if m in s.managers then s else SetManager(s, m, Manager(proc, None, Idle))
    case Open(m, purpose) =>
      if m in s.managers && s.managers[m].call.Idle? then AfterOpen(s, m, purpose) else s
    case TryLock(m) =>
      if m in s.managers && s.managers[m].call.Opened? && s.managers[m].call.fd in s.open
      then AfterTryLock(s, m) else s
    case EndProbe(m) =>
      if InCall(s, m) && s.managers[m].call.Locked? && s.managers[m].call.purpose == Probe
      then SetManager(Close(s, {s.managers[m].call.fd}), m, s.managers[m].(call := Idle)) else s
    case Record(m, truncated) =>
      if InCall(s, m) && s.managers[m].call.Locked? && s.managers[m].call.purpose == Acquire
      then AfterRecord(s, m, truncated) else s
    case Release(m) =>
      if m in s.managers && s.managers[m].call.Idle?
      then SetManager(Close(s, LockFds(s.managers[m].lock)), m, s.managers[m].(lock := None)) else s
    case Die(proc) =>
      Close(s, FdsOf(s, proc)).(managers := map m | m in s.managers && s.managers[m].proc != proc :: s.managers[m])
    case Scribble(pid) =>
      if s.anchor.Some? then s.(content := s.content[s.anchor.value := pid]) else s
    case Unlink => s.(anchor := None)
  }

  function Run(s: State, run: seq<Event>): State {
    if run == [] then s else Step(Run(s, run[..|run| - 1]), run[|run| - 1])
  }

  predicate NeverUnlinked(run: seq<Event>) {
    forall i :: 0 <= i < |run| ==> !run[i].Unlink?
  }

  // ---------------------------------------------------------------------
  // The invariant
  // ---------------------------------------------------------------------

  /** Manager `m` is using description `fd`. */
  predicate Uses(s: State, m: nat, fd: nat) {
    m in s.managers && fd in Fds(s.managers[m])
  }

  /** Manager `m` owns the lock through `fd`: it holds the guard, or is between lock and drop. */
  predicate HasLock(s: State, m: nat, fd: nat) {
    m in s.managers
    && (s.managers[m].lock == Some(fd) || (s.managers[m].call.Locked? && s.managers[m].call.fd == fd))
  }

  ghost predicate DescriptionsAreOwned(s: State) {
    && (forall m, fd :: Uses(s, m, fd) ==> fd in s.open)
    && (forall m, n, fd :: Uses(s, m, fd) && Uses(s, n, fd) ==> m == n)
    && (forall m :: m in s.managers && s.managers[m].lock.Some? ==>
          s.managers[m].lock.value !in CallFds(s.managers[m].call))
    && (forall fd :: fd in s.open ==> fd < s.nextFd)
  }

  /** Every description refers to the inode the path names: nobody unlinked it. */
  ghost predicate OneInode(s: State) {
    forall fd :: fd in s.open ==> s.anchor == Some(s.open[fd])
  }

  ghost predicate LocksAreHeld(s: State) {
    && (forall m, fd :: HasLock(s, m, fd) ==> fd in s.open && s.open[fd] in s.owner && s.owner[s.open[fd]] == fd)
    && (forall i :: i in s.owner ==> exists m :: HasLock(s, m, s.owner[i]))
    && (forall i :: i in s.owner ==> s.owner[i] in s.open && s.open[s.owner[i]] == i)
  }

  ghost predicate Inv(s: State) {
    DescriptionsAreOwned(s) && OneInode(s) && LocksAreHeld(s)
  }

  lemma SpawnKeeps(s: State, m: nat, proc: nat)
    requires Inv(s)
    ensures Inv(Step(s, Spawn(m, proc)))
  {
    var t := Step(s, Spawn(m, proc));
    assert forall n, fd :: Uses(t, n, fd) ==> Uses(s, n, fd);
    assert forall n, fd :: HasLock(t, n, fd) <==> HasLock(s, n, fd);
  }

  lemma OpenKeeps(s: State, m: nat, purpose: Purpose)
    requires Inv(s)
    ensures Inv(Step(s, Open(m, purpose)))
  {
    var t := Step(s, Open(m, purpose));
    assert forall n, fd :: Uses(t, n, fd) ==> Uses(s, n, fd) || (n == m && fd == s.nextFd);
    assert forall n, fd :: HasLock(t, n, fd) <==> HasLock(s, n, fd);
    forall n | n in t.managers && t.managers[n].lock.Some?
      ensures t.managers[n].lock.value !in CallFds(t.managers[n].call)
    {
      assert Uses(s, n, t.managers[n].lock.value);
    }
  }

  /** `t` is `s` with the descriptions `fds` closed and every mention of them dropped. */
  ghost predicate Dropped(s: State, t: State, fds: set<nat>) {
    && t == Close(s, fds).(managers := t.managers)
    && (forall n, fd :: Uses(t, n, fd) ==> Uses(s, n, fd) && fd !in fds)
    && (forall n, fd :: HasLock(t, n, fd) <==> HasLock(s, n, fd) && fd !in fds)
    && (forall n :: n in t.managers && t.managers[n].lock.Some? ==>
          n in s.managers && t.managers[n].lock == s.managers[n].lock
          && CallFds(t.managers[n].call) <= CallFds(s.managers[n].call))
  }

  lemma DropKeeps(s: State, t: State, fds: set<nat>)
    requires Inv(s) && Dropped(s, t, fds)
    ensures Inv(t)
  {
    forall i | i in t.owner ensures exists m :: HasLock(t, m, t.owner[i]) {
      var m :| HasLock(s, m, s.owner[i]);
      assert HasLock(t, m, t.owner[i]);
    }
  }

  /** A manager ends its call and its description is closed. */
  lemma EndCallKeeps(s: State, m: nat)
    requires Inv(s) && InCall(s, m)
    ensures var fd := s.managers[m].call.fd;
            Inv(SetManager(Close(s, {fd}), m, s.managers[m].(call := Idle)))
  {
    var fd := s.managers[m].call.fd;
    var t := SetManager(Close(s, {fd}), m, s.managers[m].(call := Idle));
    assert Uses(s, m, fd);
    forall n: nat, f: nat | Uses(t, n, f) ensures Uses(s, n, f) && f != fd {
      assert Uses(s, n, f);
      if n == m {
        assert s.managers[m].lock == Some(f);
      }
    }
    forall n, f ensures HasLock(t, n, f) <==> HasLock(s, n, f) && f != fd {
      if HasLock(s, n, f) {
        assert Uses(s, n, f);
      }
    }
    DropKeeps(s, t, {fd});
  }

  lemma TryLockKeeps(s: State, m: nat)
    requires Inv(s)
    ensures Inv(Step(s, TryLock(m)))
  {
    var t := Step(s, TryLock(m));
    if t != s {
      var fd := s.managers[m].call.fd;
      if IsLocked(s, s.open[fd]) {
        EndCallKeeps(s, m);
      } else {
        TakeKeeps(s, t, m);
      }
    }
  }

  lemma TakeKeeps(s: State, t: State, m: nat)
    requires Inv(s) && m in s.managers && s.managers[m].call.Opened? && s.managers[m].call.fd in s.open
    requires var a := s.managers[m];
             && !IsLocked(s, s.open[a.call.fd])
             && t == SetManager(s.(owner := s.owner[s.open[a.call.fd] := a.call.fd]), m,
                                a.(call := Locked(a.call.purpose, a.call.fd)))
    ensures Inv(t)
  {
    var fd := s.managers[m].call.fd;
    assert forall n, f :: Uses(t, n, f) <==> Uses(s, n, f);
    assert forall n, f :: HasLock(t, n, f) <==> HasLock(s, n, f) || (n == m && f == fd);
    assert forall n, f :: !HasLock(s, n, f);
    assert forall i :: i in t.owner ==> i == s.open[fd];
    assert HasLock(t, m, fd);
  }

  /** A locked call of a manager that keeps a guard cannot be: both would own the one inode. */
  lemma NoSecondGuard(s: State, m: nat)
    requires Inv(s) && m in s.managers && s.managers[m].call.Locked?
    ensures s.managers[m].lock == None
  {
    var a := s.managers[m];
    assert HasLock(s, m, a.call.fd) && a.call.fd in CallFds(a.call);
    assert a.lock.Some? ==> HasLock(s, m, a.lock.value);
  }

  lemma RecordKeeps(s: State, m: nat, truncated: bool)
    requires Inv(s)
    ensures Inv(Step(s, Record(m, truncated)))
  {
    var t := Step(s, Record(m, truncated));
    if InCall(s, m) && s.managers[m].call.Locked? && s.managers[m].call.purpose == Acquire {
      NoSecondGuard(s, m);
      var a := s.managers[m];
      if !truncated || a.call.fd !in s.open {
        EndCallKeeps(s, m);
      } else {
        assert t.open == s.open && t.owner == s.owner;
        assert forall n, f :: Uses(t, n, f) <==> Uses(s, n, f);
        assert forall n, f :: HasLock(t, n, f) <==> HasLock(s, n, f);
      }
    }
  }

  lemma ReleaseKeeps(s: State, m: nat)
    requires Inv(s)
    ensures Inv(Step(s, Release(m)))
  {
    var t := Step(s, Release(m));
    if m in s.managers && s.managers[m].call.Idle? {
      var fds := LockFds(s.managers[m].lock);
      assert forall f :: f in fds ==> Uses(s, m, f);
      forall n, f ensures HasLock(t, n, f) <==> HasLock(s, n, f) && f !in fds {
        if HasLock(s, n, f) {
          assert Uses(s, n, f);
        }
      }
      forall n: nat, f: nat | Uses(t, n, f) ensures Uses(s, n, f) && f !in fds {
        assert Uses(s, n, f);
      }
      DropKeeps(s, t, fds);
    }
  }

  lemma FdsOfProcess(s: State, proc: nat, m: nat, fd: nat)
    requires DescriptionsAreOwned(s) && Uses(s, m, fd)
    ensures fd in FdsOf(s, proc) <==> s.managers[m].proc == proc
  {
    if fd in FdsOf(s, proc) {
      var n :| n in s.managers && s.managers[n].proc == proc && fd in Fds(s.managers[n]);
      assert Uses(s, n, fd);
    }
  }

  lemma DieKeeps(s: State, proc: nat)
    requires Inv(s)
    ensures Inv(Step(s, Die(proc)))
  {
    var t := Step(s, Die(proc));
    var fds := FdsOf(s, proc);
    forall n: nat, f: nat | Uses(t, n, f) ensures Uses(s, n, f) && f !in fds {
      assert Uses(s, n, f);
      FdsOfProcess(s, proc, n, f);
    }
    forall n: nat, f: nat ensures HasLock(t, n, f) <==> HasLock(s, n, f) && f !in fds {
      if HasLock(s, n, f) {
        assert Uses(s, n, f);
        FdsOfProcess(s, proc, n, f);
      }
    }
    DropKeeps(s, t, fds);
  }

  lemma StepKeepsInv(s: State, e: Event)
    requires Inv(s) && !e.Unlink?
    ensures Inv(Step(s, e))
  {
    match e {
      case Spawn(m, proc) => SpawnKeeps(s, m, proc);
      case Open(m, purpose) => OpenKeeps(s, m, purpose);
      case TryLock(m) => TryLockKeeps(s, m);
      case EndProbe(m) =>
        if InCall(s, m) && s.managers[m].call.Locked? && s.managers[m].call.purpose == Probe {
          EndCallKeeps(s, m);
        }
      case Record(m, truncated) => RecordKeeps(s, m, truncated);
      case Release(m) => ReleaseKeeps(s, m);
      case Die(proc) => DieKeeps(s, proc);
      case Scribble(pid) =>
        var t := Step(s, e);
        assert forall n, f :: Uses(t, n, f) <==> Uses(s, n, f);
        assert forall n, f :: HasLock(t, n, f) <==> HasLock(s, n, f);
    }
  }

  lemma {:induction false} RunKeepsInv(run: seq<Event>)
    requires NeverUnlinked(run)
    ensures Inv(Run(INITIAL, run))
  {
    if run != [] {
      RunKeepsInv(run[..|run| - 1]);
      StepKeepsInv(Run(INITIAL, run[..|run| - 1]), run[|run| - 1]);
    }
  }

  // ---------------------------------------------------------------------
  // The theorems
  // ---------------------------------------------------------------------

  /** The manager is a running daemon: it keeps the guard. */
  predicate IsDaemon(s: State, m: nat) {
    m in s.managers && s.managers[m].lock.Some?
  }

  /**
   Mutual exclusion: over every interleaving of any number of managers and process deaths,
   as long as nobody unlinks the anchor, at most one daemon holds the instance lock.
   */
  lemma AtMostOneDaemon(run: seq<Event>, m: nat, n: nat)
    requires NeverUnlinked(run)
    requires IsDaemon(Run(INITIAL, run), m) && IsDaemon(Run(INITIAL, run), n)
    ensures m == n
  {
    RunKeepsInv(run);
    var s := Run(INITIAL, run);
    var x, y := s.managers[m].lock.value, s.managers[n].lock.value;
    assert HasLock(s, m, x) && HasLock(s, n, y);
    assert Uses(s, m, x) && Uses(s, n, y);
  }

  /** The path keeps naming the inode it named first. */
  lemma AnchorIsForever(s: State, e: Event)
    requires !e.Unlink? && s.anchor.Some?
    ensures Step(s, e).anchor == s.anchor
  {
  }

  /** The manager that owns the anchor's lock at this moment: daemon, probe or acquirer. */
  ghost predicate LockedBySomeone(s: State) {
    exists m, fd :: HasLock(s, m, fd)
  }

  /**
   A lock attempt is refused exactly when some live manager owns the lock right now: a
   daemon, or one that is between its lock and its drop. Nothing dead, and nothing
   written in the file, ever refuses it.
   */
  lemma RefusedExactlyWhenOwned(s: State, m: nat)
    requires Inv(s) && m in s.managers && s.managers[m].call.Opened?
    ensures Step(s, TryLock(m)).managers[m].call.Idle? <==> LockedBySomeone(s)
    ensures !LockedBySomeone(s) ==> Step(s, TryLock(m)).managers[m].call.Locked?
  {
    var fd := s.managers[m].call.fd;
    assert Uses(s, m, fd);
    if IsLocked(s, s.open[fd]) {
      var n :| HasLock(s, n, s.owner[s.open[fd]]);
      assert LockedBySomeone(s);
    }
    if LockedBySomeone(s) {
      var n, f :| HasLock(s, n, f);
      assert s.open[f] == s.open[fd];
    }
  }

  /** A probe that answers "not running" is right at that moment. */
  lemma ProbeNeverMissesADaemon(s: State, m: nat, n: nat)
    requires Inv(s) && m in s.managers && s.managers[m].call.Opened? && IsDaemon(s, n)
    ensures Step(s, TryLock(m)).managers[m].call.Idle?
  {
    assert HasLock(s, n, s.managers[n].lock.value);
    RefusedExactlyWhenOwned(s, m);
  }

  /** Death of the owner's process frees the lock at once. */
  lemma DeathFreesTheLock(s: State, m: nat, fd: nat)
    requires Inv(s) && HasLock(s, m, fd)
    ensures !LockedBySomeone(Step(s, Die(s.managers[m].proc)))
  {
    var proc := s.managers[m].proc;
    var t := Step(s, Die(proc));
    DieKeeps(s, proc);
    assert Uses(s, m, fd);
    forall n, f ensures HasLock(t, n, f) ==> HasLock(s, n, f) && n != m {}
    forall n, f ensures HasLock(s, n, f) ==> f == fd && n == m {
      assert HasLock(s, n, f) ==> Uses(s, n, f);
    }
  }

  /** With the lock free, an idle manager that acquires without interference becomes the daemon. */
  lemma FreeLockIsAcquired(s: State, m: nat)
    requires Inv(s) && m in s.managers && s.managers[m].call.Idle? && !LockedBySomeone(s)
    ensures IsDaemon(Step(Step(Step(s, Open(m, Acquire)), TryLock(m)), Record(m, true)), m)
  {
    var t := Step(s, Open(m, Acquire));
    OpenKeeps(s, m, Acquire);
    assert forall n, f :: HasLock(t, n, f) ==> HasLock(s, n, f);
    RefusedExactlyWhenOwned(t, m);
    TryLockKeeps(t, m);
    var u := Step(t, TryLock(m));
    assert HasLock(u, m, u.managers[m].call.fd);
  }

  /** The state with the recorded process ids erased. */
  function Forget(s: State): State {
    s.(content := map[])
  }

  lemma DeathIgnoresContent(s: State, proc: nat)
    ensures Forget(Step(s, Die(proc))) == Forget(Step(Forget(s), Die(proc)))
  {
    assert FdsOf(s, proc) == FdsOf(Forget(s), proc);
  }

  lemma RecordIgnoresContent(s: State, m: nat, truncated: bool)
    ensures Forget(Step(s, Record(m, truncated))) == Forget(Step(Forget(s), Record(m, truncated)))
  {
  }

  lemma TryLockIgnoresContent(s: State, m: nat)
    ensures Forget(Step(s, TryLock(m))) == Forget(Step(Forget(s), TryLock(m)))
  {
  }

  lemma StepIgnoresContent(s: State, e: Event)
    ensures Forget(Step(s, e)) == Forget(Step(Forget(s), e))
  {
    match e {
      case Spawn(m, proc) =>
      case Open(m, purpose) =>
      case TryLock(m) => TryLockIgnoresContent(s, m);
      case EndProbe(m) =>
      case Record(m, truncated) => RecordIgnoresContent(s, m, truncated);
      case Release(m) =>
      case Die(proc) => DeathIgnoresContent(s, proc);
      case Scribble(pid) =>
      case Unlink =>
    }
  }

  /** What is written in the file never changes how any run goes. */
  lemma {:induction false} RunIgnoresContent(s: State, t: State, run: seq<Event>)
    requires Forget(s) == Forget(t)
    ensures Forget(Run(s, run)) == Forget(Run(t, run))
  {
    if run != [] {
      var front := run[..|run| - 1];
      RunIgnoresContent(s, t, front);
      StepIgnoresContent(Run(s, front), run[|run| - 1]);
      StepIgnoresContent(Run(t, front), run[|run| - 1]);
    }
  }

  /** The event is a step of manager `n`, or the death of its process. */
  predicate ActsOn(s: State, e: Event, n: nat)
    requires n in s.managers
  {
    match e
    case Spawn(_, _) => false
    case Open(m, _) => m == n
    case TryLock(m) => m == n
    case EndProbe(m) => m == n
    case Record(m, _) => m == n
    case Release(m) => m == n
    case Die(proc) => proc == s.managers[n].proc
    case Scribble(_) => false
    case Unlink => false
  }

  /** Nobody else's step, and no other death, changes a manager or takes its lock. */
  lemma OthersAreUntouched(s: State, e: Event, n: nat)
    requires Inv(s) && n in s.managers && !ActsOn(s, e, n) && !e.Unlink?
    ensures var t := Step(s, e);
            && n in t.managers && t.managers[n] == s.managers[n]
            && forall fd :: HasLock(s, n, fd) ==> fd in t.open && t.open[fd] in t.owner && t.owner[t.open[fd]] == fd
  {
    StepKeepsInv(s, e);
    var t := Step(s, e);
    assert n in t.managers && t.managers[n] == s.managers[n];
    forall fd | HasLock(s, n, fd) ensures HasLock(t, n, fd) {}
  }

  // ---------------------------------------------------------------------
  // Why the anchor must stay, and what a probe can disturb
  // ---------------------------------------------------------------------

  /** A manager that had opened an inode nobody locks becomes a daemon on it. */
  lemma LateOpenerTakes(s: State, n: nat)
    requires n in s.managers && s.managers[n].lock.None? && s.managers[n].call.Opened?
    requires s.managers[n].call.purpose == Acquire
    requires s.managers[n].call.fd in s.open && s.open[s.managers[n].call.fd] !in s.owner
    ensures var t := Step(Step(s, TryLock(n)), Record(n, true));
            var fd := s.managers[n].call.fd;
            && IsDaemon(t, n) && t.anchor == s.anchor && t.nextInode == s.nextInode
            && t.owner == s.owner[s.open[fd] := fd] && t.open == s.open
            && t.managers == s.managers[n := Manager(s.managers[n].proc, Some(fd), Idle)]
  {
    var fd := s.managers[n].call.fd;
    var u := Step(s, TryLock(n));
    assert u.managers[n] == Manager(s.managers[n].proc, None, Locked(Acquire, fd)) && u.open == s.open;
    var t := Step(u, Record(n, true));
    assert t.owner == u.owner && t.open == u.open;
  }

  /** With the path gone, the next acquirer creates and locks a new inode. */
  lemma NewAnchorIsFree(s: State, m: nat)
    requires m in s.managers && s.managers[m].lock.None? && s.managers[m].call.Idle?
    requires s.anchor.None? && s.nextInode !in s.owner
    ensures var t := Step(Step(Step(s, Open(m, Acquire)), TryLock(m)), Record(m, true));
            IsDaemon(t, m) && forall n :: n != m && IsDaemon(s, n) ==> IsDaemon(t, n)
  {
    var u := Step(s, Open(m, Acquire));
    assert u.owner == s.owner && u.open[s.nextFd] == s.nextInode;
    LateOpenerTakes(u, m);
  }

  /**
   If releasing also unlinked the anchor, two daemons could run: from any state with a
   daemon and a manager that has opened the anchor but not yet tried the lock, one ends on
   the old inode and the other on a new inode behind the same path.
   */
  lemma UnlinkingBreaksExclusion(s: State, m: nat, n: nat)
    requires Inv(s) && IsDaemon(s, m) && s.managers[m].call.Idle?
    requires n in s.managers && s.managers[n].lock.None? && s.managers[n].call.Opened?
    requires s.managers[n].call.purpose == Acquire
    requires s.anchor.Some? && s.anchor.value < s.nextInode
    ensures var released := Step(Step(s, Release(m)), Unlink);
            var first := Step(Step(released, TryLock(n)), Record(n, true));
            var second := Step(Step(Step(first, Open(m, Acquire)), TryLock(m)), Record(m, true));
            m != n && IsDaemon(second, m) && IsDaemon(second, n)
  {
    var fd := s.managers[n].call.fd;
    var guard := s.managers[m].lock.value;
    assert Uses(s, n, fd) && Uses(s, m, guard) && HasLock(s, m, guard);
    var released := Step(Step(s, Release(m)), Unlink);
    assert released.open == s.open - {guard} && fd in released.open;
    assert released.owner == map[] by {
      forall i | i in s.owner ensures s.owner[i] == guard {
        assert s.owner[i] in s.open;
      }
    }
    LateOpenerTakes(released, n);
    var first := Step(Step(released, TryLock(n)), Record(n, true));
    assert first.owner == map[s.open[fd] := fd];
    NewAnchorIsFree(first, m);
  }

  lemma Extend(s: State, run: seq<Event>, e: Event)
    ensures Run(s, run + [e]) == Step(Run(s, run), e)
  {
    assert (run + [e])[..|run|] == run;
  }

  /** Two probes, the first between its lock and its drop. */
  lemma CollidingProbes() returns (run: seq<Event>, s: State)
    ensures s == Run(INITIAL, run) && NeverUnlinked(run) && (forall e :: e in run ==> !e.Record?)
    ensures 0 in s.managers && 1 in s.managers
    ensures s.managers[0].call.Locked? && s.managers[1] == Manager(11, None, Opened(Probe, 1))
  {
    run := [Spawn(0, 10)];
    s := Step(INITIAL, Spawn(0, 10));
    Extend(INITIAL, [], Spawn(0, 10));
    assert [] + [Spawn(0, 10)] == run;
    Extend(INITIAL, run, Spawn(1, 11));
    run, s := run + [Spawn(1, 11)], Step(s, Spawn(1, 11));
    Extend(INITIAL, run, Open(0, Probe));
    run, s := run + [Open(0, Probe)], Step(s, Open(0, Probe));
    Extend(INITIAL, run, Open(1, Probe));
    run, s := run + [Open(1, Probe)], Step(s, Open(1, Probe));
    assert s.managers[1] == Manager(11, None, Opened(Probe, 1)) && s.owner == map[];
    assert s.managers[0] == Manager(10, None, Opened(Probe, 0));
    Extend(INITIAL, run, TryLock(0));
    run, s := run + [TryLock(0)], Step(s, TryLock(0));
  }

  /**
   A probe in flight can make another probe answer "running", or refuse an acquisition,
   although no daemon was ever started.
   */
  lemma ProbesCanCollide()
    ensures exists run :: NeverUnlinked(run) && (forall m :: !IsDaemon(Run(INITIAL, run), m))
              && 1 in Run(INITIAL, run).managers && Run(INITIAL, run).managers[1].call.Opened?
              && Step(Run(INITIAL, run), TryLock(1)).managers[1].call.Idle?
  {
    var run, s := CollidingProbes();
    RunKeepsInv(run);
    NoRecordNoDaemon(run);
    assert HasLock(s, 0, s.managers[0].call.fd);
    RefusedExactlyWhenOwned(s, 1);
  }

  /** Somebody is between the lock and its drop or recording: a probe or an acquirer. */
  predicate SomeCallHoldsTheLock(s: State) {
    exists n :: n in s.managers && s.managers[n].call.Locked?
  }

  ghost predicate SomeDaemon(s: State) {
    exists n :: IsDaemon(s, n)
  }

  /** A call that holds the lock leaves no room for a daemon. */
  lemma LockedCallExcludesDaemons(s: State, n: nat)
    requires Inv(s) && n in s.managers && s.managers[n].call.Locked?
    ensures LockedBySomeone(s) && !SomeDaemon(s)
  {
    var fd := s.managers[n].call.fd;
    assert HasLock(s, n, fd) && Uses(s, n, fd);
    NoSecondGuard(s, n);
    forall k: nat | IsDaemon(s, k) ensures false {
      var guard := s.managers[k].lock.value;
      assert HasLock(s, k, guard) && Uses(s, k, guard);
    }
  }

  /**
   Whether a lock attempt is refused tells whether a daemon runs exactly when no other call
   holds the lock at that moment. So a probe is wrong, and an acquisition refused without a
   daemon, exactly while another probe or acquirer is between its lock and its next step.
   */
  lemma AnswerIsRightExactly(s: State, m: nat)
    requires Inv(s) && m in s.managers && s.managers[m].call.Opened?
    ensures (Step(s, TryLock(m)).managers[m].call.Idle? <==> SomeDaemon(s)) <==> !SomeCallHoldsTheLock(s)
  {
    RefusedExactlyWhenOwned(s, m);
    if SomeCallHoldsTheLock(s) {
      var n :| n in s.managers && s.managers[n].call.Locked?;
      LockedCallExcludesDaemons(s, n);
    } else if LockedBySomeone(s) {
      var n, fd :| HasLock(s, n, fd);
      assert IsDaemon(s, n);
    } else if SomeDaemon(s) {
      var n :| IsDaemon(s, n);
      assert HasLock(s, n, s.managers[n].lock.value);
    }
  }

  /** The same at every point of every run in which nobody unlinks the anchor. */
  lemma AnswersOverRuns(run: seq<Event>, m: nat)
    requires NeverUnlinked(run)
    requires m in Run(INITIAL, run).managers && Run(INITIAL, run).managers[m].call.Opened?
    ensures var s := Run(INITIAL, run);
            (Step(s, TryLock(m)).managers[m].call.Idle? <==> SomeDaemon(s)) <==> !SomeCallHoldsTheLock(s)
  {
    RunKeepsInv(run);
    AnswerIsRightExactly(Run(INITIAL, run), m);
  }

  lemma OnlyRecordMakesADaemon(s: State, e: Event, m: nat)
    requires !e.Record? && IsDaemon(Step(s, e), m)
    ensures IsDaemon(s, m)
  {
    match e {
      case Spawn(n, proc) =>
      case Open(n, purpose) =>
      case TryLock(n) =>
      case EndProbe(n) =>
      case Release(n) =>
      case Die(proc) =>
      case Scribble(pid) =>
      case Unlink =>
    }
  }

  lemma {:induction false} NoRecordNoDaemon(run: seq<Event>)
    requires forall e :: e in run ==> !e.Record?
    ensures forall m :: !IsDaemon(Run(INITIAL, run), m)
  {
    if run != [] {
      var front, e := run[..|run| - 1], run[|run| - 1];
      NoRecordNoDaemon(front);
      forall m: nat | IsDaemon(Run(INITIAL, run), m) ensures false {
        OnlyRecordMakesADaemon(Run(INITIAL, front), e, m);
      }
    }
  }

  // ---------------------------------------------------------------------
  // The recorded process id
  // ---------------------------------------------------------------------

  /** What the anchor says: the id that stopping a daemon sends its signal to. */
  function ReadPid(s: State): Option<int> {
    if s.anchor.Some? && s.anchor.value in s.content then Some(s.content[s.anchor.value]) else None
  }

  /** Any running daemon's process is the one that the anchor names. */
  ghost predicate PidNamesTheDaemon(s: State) {
    forall m :: IsDaemon(s, m) ==> ReadPid(s) == Some(s.managers[m].proc)
  }

  /** Only recording, scribbling and unlinking change what the anchor says. */
  lemma OthersKeepThePid(s: State, e: Event)
    requires !e.Record? && !e.Scribble? && !e.Unlink? && PidNamesTheDaemon(s)
    ensures PidNamesTheDaemon(Step(s, e)) && Step(s, e).content == s.content
  {
    var t := Step(s, e);
    forall m | IsDaemon(t, m) ensures ReadPid(t) == Some(t.managers[m].proc) {
      OnlyRecordMakesADaemon(s, e, m);
      assert t.managers[m].proc == s.managers[m].proc;
    }
  }

  lemma RecordWritesThePid(s: State, m: nat, truncated: bool)
    requires Inv(s) && PidNamesTheDaemon(s)
    ensures PidNamesTheDaemon(Step(s, Record(m, truncated)))
  {
    if InCall(s, m) && s.managers[m].call.Locked? && s.managers[m].call.purpose == Acquire {
      var t := Step(s, Record(m, truncated));
      LockedCallExcludesDaemons(s, m);
      assert Uses(s, m, s.managers[m].call.fd);
      forall n | IsDaemon(t, n) ensures ReadPid(t) == Some(t.managers[n].proc) {
        assert n != m ==> IsDaemon(s, n);
      }
    }
  }

  /** Nobody outside the program writes or removes the anchor. */
  predicate Undisturbed(run: seq<Event>) {
    forall i :: 0 <= i < |run| ==> !run[i].Unlink? && !run[i].Scribble?
  }

  /**
   Over every interleaving in which nobody else writes or removes the anchor: while a daemon
   runs, the anchor names its process, whatever an earlier daemon left there.
   */
  lemma {:induction false} PidNamesTheDaemonAlways(run: seq<Event>)
    requires Undisturbed(run)
    ensures PidNamesTheDaemon(Run(INITIAL, run))
  {
    if run != [] {
      var front, e := run[..|run| - 1], run[|run| - 1];
      PidNamesTheDaemonAlways(front);
      RunKeepsInv(front);
      if e.Record? {
        RecordWritesThePid(Run(INITIAL, front), e.m, e.truncated);
      } else {
        OthersKeepThePid(Run(INITIAL, front), e);
      }
    }
  }

  /** So at every point of such a run the anchor names a running daemon exactly when there is one. */
  lemma PidIsRightExactly(run: seq<Event>)
    requires Undisturbed(run)
    ensures var s := Run(INITIAL, run);
            (exists m :: IsDaemon(s, m) && ReadPid(s) == Some(s.managers[m].proc)) <==> SomeDaemon(s)
  {
    PidNamesTheDaemonAlways(run);
  }

  /** The id outlives its daemon: neither release nor death takes it back, so without a daemon it is stale. */
  lemma PidOutlivesTheDaemon(s: State, m: nat)
    requires Inv(s) && IsDaemon(s, m) && s.managers[m].call.Idle? && PidNamesTheDaemon(s)
    ensures var released := Step(s, Release(m));
            !SomeDaemon(released) && ReadPid(released) == Some(s.managers[m].proc)
    ensures var died := Step(s, Die(s.managers[m].proc));
            !SomeDaemon(died) && ReadPid(died) == Some(s.managers[m].proc)
  {
    ReleaseFreesTheLock(s, m);
    var guard := s.managers[m].lock.value;
    assert HasLock(s, m, guard);
    DeathFreesTheLock(s, m, guard);
    FreeMeansNoDaemon(Step(s, Release(m)));
    FreeMeansNoDaemon(Step(s, Die(s.managers[m].proc)));
  }

  lemma FreeMeansNoDaemon(s: State)
    requires !LockedBySomeone(s)
    ensures !SomeDaemon(s)
  {
    forall n: nat | IsDaemon(s, n) ensures false {
      assert HasLock(s, n, s.managers[n].lock.value);
    }
  }

  // ---------------------------------------------------------------------
  // The manager object, run without interference
  // ---------------------------------------------------------------------

  class Kernel {
    var s: State

    constructor ()
      ensures s == INITIAL
    {
      s := INITIAL;
    }

    method Do(e: Event)
      modifies this
      ensures s == Step(old(s), e)
    {
      s := Step(s, e);
    }
  }

  lemma LockFreedByDrop(s: State, m: nat, purpose: Purpose)
    requires Inv(s) && m in s.managers && s.managers[m].call.Idle?
    ensures var t := Step(s, Open(m, purpose));
            && Inv(t) && Inv(Step(t, TryLock(m)))
            && m in t.managers && t.managers[m].call == Opened(purpose, s.nextFd) && s.nextFd in t.open
            && t.managers[m].lock == s.managers[m].lock && t.owner == s.owner
            && (LockedBySomeone(t) <==> LockedBySomeone(s))
  {
    var t := Step(s, Open(m, purpose));
    OpenKeeps(s, m, purpose);
    TryLockKeeps(t, m);
    forall n, fd ensures HasLock(t, n, fd) <==> HasLock(s, n, fd) {}
  }

  /** An undisturbed probe: three steps that leave every lock as it was. */
  lemma ProbeEffect(s: State, m: nat)
    requires Inv(s) && m in s.managers && s.managers[m].call.Idle?
    ensures var u := Step(Step(s, Open(m, Probe)), TryLock(m));
            var v := Step(u, EndProbe(m));
            && m in u.managers && (u.managers[m].call.Idle? <==> LockedBySomeone(s))
            && Inv(v) && v.owner == s.owner && v.content == s.content
            && m in v.managers && v.managers[m].call.Idle? && v.managers[m].lock == s.managers[m].lock
  {
    LockFreedByDrop(s, m, Probe);
    var t := Step(s, Open(m, Probe));
    RefusedExactlyWhenOwned(t, m);
    assert Uses(t, m, s.nextFd);
    TriedLock(t, m);
    var u := Step(t, TryLock(m));
    StepKeepsInv(u, EndProbe(m));
  }

  /** The two outcomes of a lock attempt, and what dropping the new lock leaves. */
  lemma TriedLock(t: State, m: nat)
    requires Inv(t) && m in t.managers && t.managers[m].call.Opened? && t.managers[m].call.fd in t.open
    ensures var u := Step(t, TryLock(m));
            var fd := t.managers[m].call.fd;
            && m in u.managers && u.managers[m].lock == t.managers[m].lock
            && (u.managers[m].call.Idle? ==> u.owner == t.owner)
            && (!u.managers[m].call.Idle? ==>
                  u.managers[m].call == Locked(t.managers[m].call.purpose, fd) && fd in u.open
                  && Close(u, {fd}).owner == t.owner)
  {
    var u := Step(t, TryLock(m));
    var fd := t.managers[m].call.fd;
    assert Uses(t, m, fd);
    forall i | i in t.owner ensures t.owner[i] != fd {
      var n :| HasLock(t, n, t.owner[i]);
      assert Uses(t, n, t.owner[i]);
    }
    if !IsLocked(t, t.open[fd]) {
      assert Close(u, {fd}).owner == t.owner;
    } else {
      assert Close(t, {fd}).owner == t.owner;
    }
  }

  /** An undisturbed acquisition. */
  lemma AcquireEffect(s: State, m: nat, truncated: bool)
    requires Inv(s) && m in s.managers && s.managers[m].call.Idle?
    ensures var u := Step(Step(s, Open(m, Acquire)), TryLock(m));
            var v := Step(u, Record(m, truncated));
            && m in u.managers && (u.managers[m].call.Idle? <==> LockedBySomeone(s))
            && Inv(u) && (u.managers[m].call.Idle? ==> u.owner == s.owner && u.managers[m].lock == s.managers[m].lock)
            && Inv(v) && m in v.managers && v.managers[m].call.Idle?
            && (!LockedBySomeone(s) && truncated ==> v.managers[m].lock.Some?)
            && (!LockedBySomeone(s) && !truncated ==> v.owner == s.owner && v.managers[m].lock == s.managers[m].lock)
            && u.content == s.content && v.managers[m].proc == s.managers[m].proc
            && (!LockedBySomeone(s) && truncated ==> ReadPid(v) == Some(s.managers[m].proc))
            && (!LockedBySomeone(s) && !truncated ==> v.content == s.content)
  {
    LockFreedByDrop(s, m, Acquire);
    var t := Step(s, Open(m, Acquire));
    RefusedExactlyWhenOwned(t, m);
    assert Uses(t, m, s.nextFd);
    TriedLock(t, m);
    var u := Step(t, TryLock(m));
    StepKeepsInv(u, Record(m, truncated));
  }

  class PidManager {
    const kernel: Kernel
    const id: nat
    /** The guard kept while this process owns the instance lock. */
    var lock: Option<nat>

    /** Registered with the kernel, in no call, and the field mirrors the guard. */
    ghost predicate Valid()
      reads this, kernel
    {
      Inv(kernel.s) && id in kernel.s.managers && kernel.s.managers[id].call.Idle?
      && kernel.s.managers[id].lock == lock
    }

    constructor (kernel: Kernel, id: nat, proc: nat)
      requires Inv(kernel.s) && id !in kernel.s.managers
      modifies kernel
      ensures Valid() && this.kernel == kernel && this.id == id && lock == None
      ensures kernel.s == Step(old(kernel.s), Spawn(id, proc))
    {
      this.kernel := kernel;
      this.id := id;
      lock := None;
      new;
      SpawnKeeps(kernel.s, id, proc);
      kernel.Do(Spawn(id, proc));
    }

    /**
     Without interference the probe answers exactly whether the lock is owned, this
     manager's own guard included, and leaves every lock as it found it.
     */
    method IsRunning(openOk: bool) returns (running: bool)
      requires Valid()
      modifies kernel
      ensures Valid() && lock == old(lock)
      ensures running <==> openOk && old(LockedBySomeone(kernel.s))
      ensures kernel.s.owner == old(kernel.s.owner) && kernel.s.content == old(kernel.s.content)
    {
      if !openOk {
        return false;
      }
      ProbeEffect(kernel.s, id);
      kernel.Do(Open(id, Probe));
      kernel.Do(TryLock(id));
      running := kernel.s.managers[id].call.Idle?;
      kernel.Do(EndProbe(id));
    }

    /** Takes the lock exactly when it is free and the anchor can be opened and truncated. */
    method Acquire(openOk: bool, truncated: bool) returns (ok: bool)
      requires Valid()
      modifies this, kernel
      ensures Valid()
      ensures ok <==> openOk && truncated && !old(LockedBySomeone(kernel.s))
      ensures ok ==> IsDaemon(kernel.s, id) && ReadPid(kernel.s) == Some(old(kernel.s.managers[id].proc))
      ensures kernel.s.managers[id].proc == old(kernel.s.managers[id].proc)
      ensures !ok ==> lock == old(lock) && kernel.s.owner == old(kernel.s.owner)
      ensures !ok ==> kernel.s.content == old(kernel.s.content)
    {
      if !openOk {
        return false;
      }
      AcquireEffect(kernel.s, id, truncated);
      kernel.Do(Open(id, Purpose.Acquire));
      kernel.Do(TryLock(id));
      if kernel.s.managers[id].call.Idle? {
        return false;
      }
      kernel.Do(Record(id, truncated));
      lock := kernel.s.managers[id].lock;
      ok := truncated;
    }

    /** Reads the recorded process id. */
    method RecordedPid() returns (pid: Option<int>)
      ensures pid == ReadPid(kernel.s)
    {
      if kernel.s.anchor.Some? && kernel.s.anchor.value in kernel.s.content {
        return Some(kernel.s.content[kernel.s.anchor.value]);
      }
      return None;
    }

    /** Drops the guard; the anchor file stays. */
    method Release()
      requires Valid()
      modifies this, kernel
      ensures Valid() && lock == None
      ensures old(lock).Some? ==> !LockedBySomeone(kernel.s)
      ensures kernel.s.anchor == old(kernel.s.anchor) && kernel.s.content == old(kernel.s.content)
    {
      ghost var before := kernel.s;
      StepKeepsInv(kernel.s, Event.Release(id));
      kernel.Do(Event.Release(id));
      lock := None;
      ReleaseFreesTheLock(before, id);
    }
  }

  lemma ReleaseFreesTheLock(s: State, m: nat)
    requires Inv(s) && m in s.managers && s.managers[m].call.Idle?
    ensures s.managers[m].lock.Some? ==> !LockedBySomeone(Step(s, Release(m)))
  {
    if s.managers[m].lock.Some? {
      var fd := s.managers[m].lock.value;
      assert HasLock(s, m, fd) && Uses(s, m, fd);
      var t := Step(s, Release(m));
      forall n, f ensures HasLock(t, n, f) ==> HasLock(s, n, f) && !(n == m && f == fd) {}
      forall n, f ensures HasLock(s, n, f) ==> f == fd && n == m {
        assert HasLock(s, n, f) ==> Uses(s, n, f);
      }
    }
  }
}
