/** The lock-file protocol of unix/lock.c, as a step system.

    Any number of processes run `fsdo_lock` and `fsdo_unlock` on one path.  Each action below is
    one system call of one process, so every interleaving is a sequence of actions; a process may
    crash between any two of them.  An inode holds what `sprintf ("%10ld\n")` wrote into it. */
module LockProtocol {
  import opened Wrappers

  /** What a lock file holds: nothing (the creator crashed before its write) or a process ID. */
  datatype Content = Empty | Pid(pid: int)

  /** Where a process stands inside `fsdo_lock`.  `temp` is the inode of its TMP file, `fd` the
      inode it has open, `at` the time of its last read (HaveRead, Stale) or write (Sleeping). */
  datatype Pc =
    | Idle
    | Created(temp: nat)
    | Linking(temp: nat)
    | Opening(temp: nat)
    | Opened(temp: nat, fd: nat)
    | HaveRead(temp: nat, fd: nat, val: Content, at: nat)
    | Stale(temp: nat, fd: nat, val: Content, at: nat)
    | Sleeping(temp: nat, fd: nat, at: nat)
    | Reread(temp: nat, fd: nat)
    | Leaving(ok: bool)

  /** `held`: the process is between a TRUE return of `fsdo_lock` and its `fsdo_unlock`. */
  datatype Proc = Proc(alive: bool, held: bool, pc: Pc)

  datatype State = State(
    now: nat, path: Option<nat>, content: map<nat, Content>, procs: map<int, Proc>, next: nat)

  /** The design choices and assumptions the protocol rests on; each can be dropped on its own. */
  datatype Config = Config(
    checksInode: bool,     // the final stat/fstat comparison is made
    writesInTime: bool,    // the first read is followed by the write within five seconds
    sleepsFully: bool,     // sleep (5) is not cut short
    noLateErrors: bool,    // no I/O error after the breaker's write
    fileWritable: bool,    // the lock file opens read/write
    pidsFresh: bool)       // process IDs are not reused

  const STRICT := Config(true, true, true, true, true, true)

  const SLEEP: nat := 5

  datatype Action =
    | Tick
    | Spawn(p: int)
    | Crash(p: int)
    | Creat(p: int)
    | WriteTemp(p: int)
    | Link(p: int)
    | Open(p: int)
    | Read(p: int)
    | Kill(p: int, strangerExists: bool)
    | Write(p: int)
    | Remove(p: int)
    | Wake(p: int)
    | Stat(p: int)
    | Abort(p: int)
    | Return(p: int)
    | Unlock(p: int)

  // ---------- the step function ----------

  function At(s: State, p: int, pc: Pc): State
    requires p in s.procs
  {
    s.(procs := s.procs[p := s.procs[p].(pc := pc)])
  }

  predicate Mentions(pc: Pc, p: int) {
    (pc.HaveRead? || pc.Stale?) && pc.val == Pid(p)
  }

  /** No trace of `p` is left anywhere: what "not reused" means for a new process. */
  predicate Unused(s: State, p: int) {
    && p !in s.procs
    && (forall i <- s.content :: s.content[i] != Pid(p))
    && (forall q <- s.procs :: !Mentions(s.procs[q].pc, p))
  }

  predicate Lives(s: State, p: int) {
    p in s.procs && s.procs[p].alive
  }

  /** The retry loop's own view of an existing process: kill (pid, 0) gives 0 or EPERM.  About a
      process that is not one of ours the answer is the environment's. */
  predicate Exists(s: State, c: Content, strangerExists: bool) {
    c.Pid? && (if c.pid in s.procs then s.procs[c.pid].alive else strangerExists)
  }

  /** The state after an action, or None when the action cannot happen. */
  function Next(cfg: Config, s: State, a: Action): Option<State> {
    match a
    case Tick => Some(s.(now := s.now + 1))
    case Spawn(p) =>
      if Unused(s, p) || (!cfg.pidsFresh && !Lives(s, p)) then
        Some(s.(procs := s.procs[p := Proc(true, false, Idle)]))
      else None
    case _ =>
      if Lives(s, a.p) then NextOf(cfg, s, a, a.p, s.procs[a.p].pc) else None
  }

  function NextOf(cfg: Config, s: State, a: Action, p: int, pc: Pc): Option<State>
    requires !a.Tick? && Lives(s, p) && s.procs[p].pc == pc
  {
    match a
    case Crash(_) => Some(s.(procs := s.procs[p := Proc(false, false, Idle)]))
    // creat (ztempfile)
    case Creat(_) =>
      if pc.Idle? then
        Some(At(s.(content := s.content[s.next := Empty], next := s.next + 1), p, Created(s.next)))
      else None
    // write (o, "%10ld\n") into the temporary file
    case WriteTemp(_) =>
      if pc.Created? then
        Some(At(s.(content := s.content[pc.temp := Pid(p)]), p, Linking(pc.temp)))
      else None
    // link (ztempfile, zpath): atomic, fails when the path exists
    case Link(_) =>
      if !pc.Linking? then None
      else if s.path == None then Some(At(s.(path := Some(pc.temp)), p, Leaving(true)))
      else Some(At(s, p, Opening(pc.temp)))
    // open (zpath, O_RDWR): ENOENT goes back to the link
    case Open(_) =>
      if !pc.Opening? then None
      else if s.path == None then Some(At(s, p, Linking(pc.temp)))
      else Some(At(s, p, Opened(pc.temp, s.path.value)))
    // the first read; our own process ID means that the link did succeed
    case Read(_) =>
      if !pc.Opened? || pc.fd !in s.content then None
      else if s.content[pc.fd] == Pid(p) then Some(At(s, p, Leaving(true)))
      else Some(At(s, p, HaveRead(pc.temp, pc.fd, s.content[pc.fd], s.now)))
    // kill (ipid, 0), skipped for an empty file
    case Kill(_, strangerExists) =>
      if !pc.HaveRead? then None
      else if Exists(s, pc.val, strangerExists) then Some(At(s, p, Leaving(false)))
      else Some(At(s, p, Stale(pc.temp, pc.fd, pc.val, pc.at)))
    // lseek and write our process ID over the stale one
    case Write(_) =>
      if pc.Stale? && (cfg.writesInTime ==> s.now < pc.at + SLEEP) then
        Some(At(s.(content := s.content[pc.fd := Pid(p)]), p, Sleeping(pc.temp, pc.fd, s.now)))
      else None
    // the freadonly branch: remove (zpath) and try the link again
    case Remove(_) =>
      if pc.Stale? && !cfg.fileWritable then Some(At(s.(path := None), p, Linking(pc.temp)))
      else None
    // sleep (5) is over: lseek and read again
    case Wake(_) =>
      if !pc.Sleeping? || pc.fd !in s.content || (cfg.sleepsFully && s.now < pc.at + SLEEP) then None
      else if s.content[pc.fd] == Pid(p) then Some(At(s, p, Reread(pc.temp, pc.fd)))
      else Some(At(s, p, Linking(pc.temp)))
    // stat (zpath) against fstat (o)
    case Stat(_) =>
      if !pc.Reread? then None
      else if s.path == Some(pc.fd) || !cfg.checksInode then Some(At(s, p, Leaving(true)))
      else Some(At(s, p, Linking(pc.temp)))
    // any error exit of the loop
    case Abort(_) =>
      if pc.Idle? || pc.Leaving? || (cfg.noLateErrors && (pc.Sleeping? || pc.Reread?)) then None
      else Some(At(s, p, Leaving(false)))
    // remove (ztempfile) and return
    case Return(_) =>
      if pc.Leaving? then
        Some(s.(procs := s.procs[p := Proc(true, s.procs[p].held || pc.ok, Idle)]))
      else None
    // fsdo_unlock, by a process that holds the lock: remove (zpath), ENOENT counts as success
    case Unlock(_) =>
      if pc.Idle? && s.procs[p].held then
        Some(s.(path := None, procs := s.procs[p := Proc(true, false, Idle)]))
      else None
    case Spawn(_) => None
  }

  function Exec(cfg: Config, s: State, actions: seq<Action>): Option<State>
    decreases |actions|
  {
    if actions == [] then Some(s)
    else
      var r := Next(cfg, s, actions[0]);
      if r.None? then None else Exec(cfg, r.value, actions[1..])
  }

  /** Before any of our processes starts: there may be a lock file with anything in it. */
  predicate Initial(s: State) {
    && s.procs == map[]
    && (forall i <- s.content :: i < s.next)
    && (s.path.Some? ==> s.path.value in s.content)
  }

  predicate Holds(s: State, p: int) {
    Lives(s, p) && s.procs[p].held
  }

  ghost predicate Reachable(cfg: Config, s: State) {
    exists s0, actions :: Initial(s0) && Exec(cfg, s0, actions) == Some(s)
  }

  ghost predicate Excludes(cfg: Config) {
    forall s, p, q :: Reachable(cfg, s) && Holds(s, p) && Holds(s, q) ==> p == q
  }

  // ---------- the invariant ----------

  /** The lock is ours, or is about to be returned to us. */
  predicate Owns(s: State, p: int) {
    Lives(s, p) && (s.procs[p].held || s.procs[p].pc == Leaving(true))
  }

  predicate HasFd(pc: Pc) {
    pc.Opened? || pc.HaveRead? || pc.Stale? || pc.Sleeping? || pc.Reread?
  }

  predicate HasTemp(pc: Pc) {
    !pc.Idle? && !pc.Leaving?
  }

  /** `q` has read something other than `p` in inode `i` and may still write over it. */
  predicate Pending(s: State, q: int, i: nat, p: int) {
    && Lives(s, q)
    && var pc := s.procs[q].pc;
       (pc.HaveRead? || pc.Stale?) && pc.fd == i && pc.val != Pid(p)
  }

  predicate Threat(s: State, q: int, i: nat, p: int) {
    Pending(s, q, i, p) && s.now < s.procs[q].pc.at + SLEEP
  }

  /** `p`'s process ID is in inode `i` and nobody can put another one there in time. */
  ghost predicate Secure(s: State, i: nat, p: int) {
    && i in s.content && s.content[i] == Pid(p)
    && forall q :: !Threat(s, q, i, p)
  }

  /** The files a process has opened or made are there. */
  predicate HasFiles(s: State, p: int)
    requires p in s.procs
  {
    && (HasFd(s.procs[p].pc) ==> s.procs[p].pc.fd in s.content)
    && (HasTemp(s.procs[p].pc) ==> s.procs[p].pc.temp in s.content)
    && (!s.procs[p].alive ==> s.procs[p] == Proc(false, false, Idle))
  }

  predicate FilesOk(s: State) {
    && (forall i <- s.content :: i < s.next)
    && (s.path.Some? ==> s.path.value in s.content)
    && forall p <- s.procs :: HasFiles(s, p)
  }

  /** A temporary file that was not linked yet is private to its creator. */
  predicate TempPrivate(s: State, p: int)
    requires p in s.procs && HasTemp(s.procs[p].pc)
  {
    var t := s.procs[p].pc.temp;
    && s.path != Some(t)
    && (!s.procs[p].pc.Created? ==> t in s.content && s.content[t] == Pid(p))
    && forall q <- s.procs :: Avoids(s.procs[q].pc, t, q == p)
  }

  predicate Avoids(pc: Pc, t: int, own: bool) {
    (HasFd(pc) ==> pc.fd != t) && (own || !IsTemp(pc, t))
  }

  predicate IsTemp(pc: Pc, i: int) { HasTemp(pc) && pc.temp == i }

  predicate TempsPrivate(s: State) {
    forall p <- s.procs | HasTemp(s.procs[p].pc) :: TempPrivate(s, p)
  }

  /** A process that neither owns the lock nor waits after its write finds its own process ID
      nowhere it looks. */
  predicate Unnamed(s: State, p: int)
    requires p in s.procs && FilesOk(s)
  {
    var pc := s.procs[p].pc;
    && (s.path.Some? && !((pc.Sleeping? || pc.Reread?) && s.path.value == pc.fd) ==>
          s.content[s.path.value] != Pid(p))
    && (pc.Opened? ==> s.content[pc.fd] != Pid(p))
  }

  ghost predicate OwnerOk(s: State, p: int)
    requires p in s.procs
  {
    var pc := s.procs[p].pc;
    && s.path.Some? && Secure(s, s.path.value, p)
    && !pc.HaveRead? && !pc.Stale? && !pc.Sleeping? && !pc.Reread?
    && (pc.Opened? ==> s.path == Some(pc.fd))
  }

  /** What a process has read of another one. */
  predicate ReaderOk(s: State, p: int)
    requires p in s.procs
  {
    var pc := s.procs[p].pc;
    && (pc.HaveRead? || pc.Stale? ==> pc.val != Pid(p) && pc.at <= s.now)
    && (pc.Stale? && pc.val.Pid? ==> !Lives(s, pc.val.pid))
  }

  /** After its write a process has only earlier writers to fear, and after its sleep none. */
  ghost predicate WaiterOk(s: State, p: int)
    requires p in s.procs && FilesOk(s)
  {
    var pc := s.procs[p].pc;
    && (pc.Sleeping? ==>
          && pc.at <= s.now
          && (s.content[pc.fd] == Pid(p) ==>
                forall q :: Pending(s, q, pc.fd, p) ==> s.procs[q].pc.at <= pc.at))
    && (pc.Reread? ==> Secure(s, pc.fd, p))
  }

  ghost predicate ProcOk(s: State, p: int)
    requires p in s.procs && FilesOk(s)
  {
    && (Owns(s, p) ==> OwnerOk(s, p))
    && (Lives(s, p) && !Owns(s, p) ==> Unnamed(s, p))
    && ReaderOk(s, p) && WaiterOk(s, p)
  }

  ghost predicate Inv(s: State) {
    && FilesOk(s)
    && TempsPrivate(s)
    && forall p <- s.procs :: ProcOk(s, p)
  }

  lemma InitialInv(s: State)
    requires Initial(s)
    ensures Inv(s)
  {
  }

  /** Nobody may newly write over what r has put into a file. */
  ghost predicate NothingNew(s: State, t: State, r: int) {
    forall q, i {:trigger Pending(t, q, i, r)} | Pending(t, q, i, r) ::
      && Pending(s, q, i, r) && s.procs[q].pc.at == t.procs[q].pc.at
      && (Threat(t, q, i, r) ==> Threat(s, q, i, r))
  }

  lemma NoNewWriter(s: State, a: Action, t: State, r: int)
    requires Inv(s) && Next(STRICT, s, a) == Some(t) && !a.Read?
    ensures NothingNew(s, t, r)
  {
    forall q, i | Pending(t, q, i, r)
      ensures Pending(s, q, i, r) && s.procs[q].pc.at == t.procs[q].pc.at
      ensures Threat(t, q, i, r) ==> Threat(s, q, i, r)
    {
      assert q in s.procs ==> ProcOk(s, q);
    }
  }

  /** Files are never deleted, only unlinked, and a step moves one process. */
  lemma Grows(s: State, a: Action, t: State)
    requires Inv(s) && Next(STRICT, s, a) == Some(t)
    ensures s.content.Keys <= t.content.Keys
    ensures forall r <- t.procs | a.Tick? || r != a.p :: r in s.procs && t.procs[r] == s.procs[r]
  {
    if !a.Tick? && a.p in s.procs { assert HasFiles(s, a.p); }
  }

  lemma OwnFiles(s: State, a: Action, t: State)
    requires Inv(s) && Next(STRICT, s, a) == Some(t) && !a.Tick? && a.p in t.procs
    ensures HasFiles(t, a.p)
  {
    assert a.p in s.procs ==> HasFiles(s, a.p);
  }

  lemma FilesKept(s: State, a: Action, t: State)
    requires Inv(s) && Next(STRICT, s, a) == Some(t)
    ensures FilesOk(t)
  {
    Grows(s, a, t);
    forall p <- t.procs ensures HasFiles(t, p) {
      if a.Tick? || p != a.p { assert HasFiles(s, p); } else { OwnFiles(s, a, t); }
    }
    assert !a.Tick? && a.p in s.procs ==> HasFiles(s, a.p);
  }

  lemma OwnTemp(s: State, a: Action, t: State)
    requires Inv(s) && Next(STRICT, s, a) == Some(t)
    requires !a.Tick? && a.p in t.procs && HasTemp(t.procs[a.p].pc)
    ensures TempPrivate(t, a.p)
  {
    assert a.p in s.procs && HasTemp(s.procs[a.p].pc) ==> TempPrivate(s, a.p);
  }

  lemma ActorAvoids(s: State, a: Action, t: State, p: int)
    requires Inv(s) && Next(STRICT, s, a) == Some(t) && !a.Tick? && a.p in t.procs && p != a.p
    requires p in s.procs && HasTemp(s.procs[p].pc)
    ensures Avoids(t.procs[a.p].pc, s.procs[p].pc.temp, false)
  {
    assert TempPrivate(s, p) && HasFiles(s, p);
    if a.p in s.procs { assert Avoids(s.procs[a.p].pc, s.procs[p].pc.temp, false); }
  }

  lemma FileStays(s: State, a: Action, t: State, p: int)
    requires Inv(s) && Next(STRICT, s, a) == Some(t) && (a.Tick? || p != a.p)
    requires p in s.procs && HasTemp(s.procs[p].pc)
    ensures var i := s.procs[p].pc.temp;
            t.path != Some(i) && i in t.content && t.content[i] == s.content[i]
  {
    assert TempPrivate(s, p) && HasFiles(s, p);
    if !a.Tick? && a.p in s.procs { assert Avoids(s.procs[a.p].pc, s.procs[p].pc.temp, false); }
  }

  lemma OtherTemp(s: State, a: Action, t: State, p: int)
    requires Inv(s) && Next(STRICT, s, a) == Some(t)
    requires forall r <- t.procs | a.Tick? || r != a.p :: r in s.procs && t.procs[r] == s.procs[r]
    requires p in t.procs && HasTemp(t.procs[p].pc) && (a.Tick? || p != a.p)
    ensures TempPrivate(t, p)
  {
    assert TempPrivate(s, p);
    FileStays(s, a, t, p);
    if !a.Tick? && a.p in t.procs { ActorAvoids(s, a, t, p); }
  }

  lemma TempsKept(s: State, a: Action, t: State)
    requires Inv(s) && Next(STRICT, s, a) == Some(t)
    ensures TempsPrivate(t)
  {
    Grows(s, a, t);
    forall p <- t.procs | HasTemp(t.procs[p].pc) ensures TempPrivate(t, p) {
      if a.Tick? || p != a.p { OtherTemp(s, a, t, p); } else { OwnTemp(s, a, t); }
    }
  }

  lemma OtherOwner(s: State, a: Action, t: State, r: int)
    requires Inv(s) && Next(STRICT, s, a) == Some(t) && FilesOk(t)
    requires r in s.procs && r in t.procs && (a.Tick? || r != a.p) && !a.Read? && !a.Write?
    ensures Owns(t, r) ==> OwnerOk(t, r)
  {
    assert ProcOk(s, r);
    NoNewWriter(s, a, t, r);
  }

  lemma OtherUnnamed(s: State, a: Action, t: State, r: int)
    requires Inv(s) && Next(STRICT, s, a) == Some(t) && FilesOk(t)
    requires r in s.procs && r in t.procs && (a.Tick? || r != a.p) && !a.Read? && !a.Write?
    ensures Lives(t, r) && !Owns(t, r) ==> Unnamed(t, r)
  {
    assert ProcOk(s, r);
  }

  lemma SeenSame(s: State, a: Action, t: State, r: int)
    requires Inv(s) && Next(STRICT, s, a) == Some(t) && FilesOk(t)
    requires r in s.procs && r in t.procs && (a.Tick? || r != a.p) && !a.Read? && !a.Write?
    ensures t.procs[r] == s.procs[r] && s.now <= t.now
    ensures s.procs[r].pc.Stale? && s.procs[r].pc.val.Pid? ==>
              var p := s.procs[r].pc.val.pid; Lives(t, p) ==> Lives(s, p)
    ensures HasFd(s.procs[r].pc) ==> t.content[s.procs[r].pc.fd] == s.content[s.procs[r].pc.fd]
  {
    assert HasFiles(s, r);
    if a.WriteTemp? { assert TempPrivate(s, a.p); }
  }

  lemma OtherWaiter(s: State, t: State, r: int)
    requires FilesOk(s) && FilesOk(t) && r in s.procs && r in t.procs && WaiterOk(s, r)
    requires NothingNew(s, t, r) && t.procs[r] == s.procs[r] && s.now <= t.now
    requires HasFd(s.procs[r].pc) ==> t.content[s.procs[r].pc.fd] == s.content[s.procs[r].pc.fd]
    ensures WaiterOk(t, r)
  {
  }

  lemma OtherKept(s: State, a: Action, t: State, r: int)
    requires Inv(s) && Next(STRICT, s, a) == Some(t) && FilesOk(t)
    requires r in s.procs && r in t.procs && (a.Tick? || r != a.p) && !a.Read? && !a.Write?
    ensures ProcOk(t, r)
  {
    OtherOwner(s, a, t, r);
    OtherUnnamed(s, a, t, r);
    assert ProcOk(s, r);
    SeenSame(s, a, t, r);
    NoNewWriter(s, a, t, r);
    OtherWaiter(s, t, r);
  }

  /** What is the same for all steps but the two that make and carry out a threat. */
  lemma RestKept(s: State, a: Action, t: State)
    requires Inv(s) && Next(STRICT, s, a) == Some(t) && !a.Read? && !a.Write? && !a.Tick?
    ensures FilesOk(t) && TempsPrivate(t) && NothingNew(s, t, a.p)
    ensures forall r <- t.procs | r != a.p :: ProcOk(t, r)
  {
    FilesKept(s, a, t);
    TempsKept(s, a, t);
    NoNewWriter(s, a, t, a.p);
    forall r <- t.procs | r != a.p ensures ProcOk(t, r) { OtherKept(s, a, t, r); }
  }

  lemma TickInv(s: State, t: State)
    requires Inv(s) && Next(STRICT, s, Tick) == Some(t)
    ensures Inv(t)
  {
    FilesKept(s, Tick, t);
    TempsKept(s, Tick, t);
    forall r <- t.procs ensures ProcOk(t, r) { OtherKept(s, Tick, t, r); }
  }

  /** A process starts, with a process ID that is nowhere, or dies. */
  lemma LifeInv(s: State, a: Action, t: State)
    requires Inv(s) && Next(STRICT, s, a) == Some(t) && (a.Spawn? || a.Crash?)
    ensures Inv(t)
  {
    RestKept(s, a, t);
  }

  /** Making the private temporary file. */
  lemma CreatInv(s: State, a: Action, t: State)
    requires Inv(s) && Next(STRICT, s, a) == Some(t) && (a.Creat? || a.WriteTemp?)
    ensures Inv(t)
  {
    RestKept(s, a, t);
    assert ProcOk(s, a.p);
  }

  /** A link makes a private file, which names its creator, the lock file. */
  lemma LinkInv(s: State, a: Action, t: State)
    requires Inv(s) && Next(STRICT, s, a) == Some(t) && a.Link?
    ensures Inv(t)
  {
    RestKept(s, a, t);
    assert ProcOk(s, a.p);
  }

  /** An unlock unlinks the file of the one process that owns the lock. */
  lemma UnlockInv(s: State, a: Action, t: State)
    requires Inv(s) && Next(STRICT, s, a) == Some(t) && a.Unlock?
    ensures Inv(t)
  {
    RestKept(s, a, t);
    assert ProcOk(s, a.p);
  }

  /** The open of a file that another process may unlink at any time. */
  lemma OpenInv(s: State, a: Action, t: State)
    requires Inv(s) && Next(STRICT, s, a) == Some(t) && a.Open?
    ensures Inv(t)
  {
    RestKept(s, a, t);
    assert ProcOk(s, a.p);
  }

  /** A live process is never found stale. */
  lemma KillInv(s: State, a: Action, t: State)
    requires Inv(s) && Next(STRICT, s, a) == Some(t) && a.Kill?
    ensures Inv(t)
  {
    RestKept(s, a, t);
    assert ProcOk(s, a.p);
  }

  /** After the full sleep every pending writer is late, so a process ID still there stays. */
  lemma WakeInv(s: State, a: Action, t: State)
    requires Inv(s) && Next(STRICT, s, a) == Some(t) && a.Wake?
    ensures Inv(t)
  {
    RestKept(s, a, t);
    assert ProcOk(s, a.p);
  }

  /** The inode that survived the sleep is what the path names. */
  lemma StatInv(s: State, a: Action, t: State)
    requires Inv(s) && Next(STRICT, s, a) == Some(t) && a.Stat?
    ensures Inv(t)
  {
    RestKept(s, a, t);
    assert ProcOk(s, a.p);
  }

  /** The ways out of the loop. */
  lemma LeaveInv(s: State, a: Action, t: State)
    requires Inv(s) && Next(STRICT, s, a) == Some(t) && (a.Abort? || a.Return?)
    ensures Inv(t)
  {
    RestKept(s, a, t);
    assert ProcOk(s, a.p);
  }

  /** A read of a file that names a live process makes no threat to that process. */
  lemma ReadInv(s: State, a: Action, t: State)
    requires Inv(s) && Next(STRICT, s, a) == Some(t) && a.Read?
    ensures Inv(t)
  {
    FilesKept(s, a, t);
    TempsKept(s, a, t);
    var fd := s.procs[a.p].pc.fd;
    forall r <- t.procs ensures ProcOk(t, r) {
      assert ProcOk(s, r);
      forall q, i | s.content[fd] == Pid(r) || i != fd
        ensures Threat(t, q, i, r) ==> Threat(s, q, i, r)
        ensures Pending(t, q, i, r) ==> Pending(s, q, i, r)
      {
      }
    }
  }

  /** A write in time is a threat to every live process but the writer, so no other process owns
      the inode or is about to. */
  lemma WriteInv(s: State, a: Action, t: State)
    requires Inv(s) && Next(STRICT, s, a) == Some(t) && a.Write?
    ensures Inv(t)
  {
    FilesKept(s, a, t);
    TempsKept(s, a, t);
    var pc := s.procs[a.p].pc;
    forall r <- t.procs ensures ProcOk(t, r) {
      assert ProcOk(s, r) && ProcOk(s, a.p);
      assert Lives(s, r) ==> Threat(s, a.p, pc.fd, r);
      forall q, i
        ensures Threat(t, q, i, r) ==> Threat(s, q, i, r)
        ensures Pending(t, q, i, r) ==> Pending(s, q, i, r)
      {
        assert q in s.procs ==> ProcOk(s, q);
      }
    }
  }

  /** The timing argument of the source's comment: every step keeps the invariant. */
  lemma StepInv(s: State, a: Action, t: State)
    requires Inv(s) && Next(STRICT, s, a) == Some(t)
    ensures Inv(t)
  {
    match a
    case Tick => TickInv(s, t);
    case Spawn(_) => LifeInv(s, a, t);
    case Crash(_) => LifeInv(s, a, t);
    case Creat(_) => CreatInv(s, a, t);
    case WriteTemp(_) => CreatInv(s, a, t);
    case Link(_) => LinkInv(s, a, t);
    case Unlock(_) => UnlockInv(s, a, t);
    case Read(_) => ReadInv(s, a, t);
    case Write(_) => WriteInv(s, a, t);
    case Remove(_) => assert false;
    case Open(_) => OpenInv(s, a, t);
    case Kill(_, _) => KillInv(s, a, t);
    case Wake(_) => WakeInv(s, a, t);
    case Stat(_) => StatInv(s, a, t);
    case Abort(_) => LeaveInv(s, a, t);
    case Return(_) => LeaveInv(s, a, t);
  }

  lemma {:induction false} ExecInv(s: State, actions: seq<Action>, t: State)
    requires Inv(s) && Exec(STRICT, s, actions) == Some(t)
    ensures Inv(t)
    decreases |actions|
  {
    if actions != [] {
      var r := Next(STRICT, s, actions[0]).value;
      StepInv(s, actions[0], r);
      ExecInv(r, actions[1..], t);
    }
  }

  lemma ReachableInv(s: State)
    requires Reachable(STRICT, s)
    ensures Inv(s)
  {
    var s0, actions :| Initial(s0) && Exec(STRICT, s0, actions) == Some(s);
    InitialInv(s0);
    ExecInv(s0, actions, s);
  }

  // ---------- what holds of every run ----------

  /** While a process holds the lock, the path names a file with its process ID in it. */
  lemma HolderIsNamed(s: State, p: int)
    requires Reachable(STRICT, s) && Holds(s, p)
    ensures s.path.Some? && s.path.value in s.content && s.content[s.path.value] == Pid(p)
  {
    ReachableInv(s);
    assert ProcOk(s, p);
  }

  lemma MutualExclusion()
    ensures Excludes(STRICT)
  {
    forall s, p, q | Reachable(STRICT, s) && Holds(s, p) && Holds(s, q) ensures p == q {
      HolderIsNamed(s, p);
      HolderIsNamed(s, q);
    }
  }

  // ---------- runs ----------

  lemma {:induction false} ExecSnoc(cfg: Config, s: State, actions: seq<Action>, a: Action)
    requires Exec(cfg, s, actions).Some?
    ensures Exec(cfg, s, actions + [a]) == Next(cfg, Exec(cfg, s, actions).value, a)
    decreases |actions|
  {
    if actions == [] {
      assert Exec(cfg, s, [a]) == Next(cfg, s, a);
    } else {
      assert (actions + [a])[1..] == actions[1..] + [a];
      ExecSnoc(cfg, Next(cfg, s, actions[0]).value, actions[1..], a);
    }
  }

  /** One more step of a run. */
  lemma Then(cfg: Config, s: State, a: Action) returns (t: State)
    requires Reachable(cfg, s) && Next(cfg, s, a).Some?
    ensures Reachable(cfg, t) && Next(cfg, s, a) == Some(t)
  {
    t := Next(cfg, s, a).value;
    var s0, actions :| Initial(s0) && Exec(cfg, s0, actions) == Some(s);
    ExecSnoc(cfg, s0, actions, a);
  }

  predicate OthersKept(s: State, t: State, p: int) {
    s.procs.Keys <= t.procs.Keys && forall q <- s.procs | q != p :: t.procs[q] == s.procs[q]
  }

  predicate IdleOutside(s: State, p: int) {
    Lives(s, p) && s.procs[p] == Proc(true, false, Idle)
  }

  lemma LinksWhenFree(cfg: Config, s: State, p: int) returns (t: State)
    requires Reachable(cfg, s) && IdleOutside(s, p) && s.path == None
    ensures Reachable(cfg, t) && Holds(t, p) && OthersKept(s, t, p)
    ensures t == s.(path := Some(s.next), content := s.content[s.next := Pid(p)],
                    procs := s.procs[p := Proc(true, true, Idle)], next := s.next + 1)
  {
    t := Then(cfg, s, Creat(p));
    t := Then(cfg, t, WriteTemp(p));
    t := Then(cfg, t, Link(p));
    t := Then(cfg, t, Return(p));
  }

  /** `p` tries the lock and finds it taken, up to having the file open. */
  lemma OpensWhenTaken(cfg: Config, s: State, p: int) returns (t: State)
    requires Reachable(cfg, s) && IdleOutside(s, p)
    requires s.path.Some? && s.path.value in s.content && s.path.value < s.next
    ensures Reachable(cfg, t)
    ensures t == s.(content := s.content[s.next := Pid(p)], next := s.next + 1,
                    procs := s.procs[p := Proc(true, false, Opened(s.next, s.path.value))])
  {
    t := Then(cfg, s, Creat(p));
    t := Then(cfg, t, WriteTemp(p));
    t := Then(cfg, t, Link(p));
    t := Then(cfg, t, Open(p));
  }

  /** The read and the kill find the lock stale. */
  lemma FindsStale(cfg: Config, s: State, p: int) returns (t: State)
    requires Reachable(cfg, s) && Lives(s, p) && s.procs[p].pc.Opened?
    requires s.procs[p].pc.fd in s.content && s.content[s.procs[p].pc.fd] != Pid(p)
    requires !Exists(s, s.content[s.procs[p].pc.fd], false)
    ensures Reachable(cfg, t)
    ensures var pc := s.procs[p].pc;
            t == At(s, p, Stale(pc.temp, pc.fd, s.content[pc.fd], s.now))
  {
    t := Then(cfg, s, Read(p));
    t := Then(cfg, t, Kill(p, false));
  }

  lemma {:induction false} Waits(cfg: Config, s: State, k: nat) returns (t: State)
    requires Reachable(cfg, s)
    ensures Reachable(cfg, t) && t == s.(now := s.now + k)
    decreases k
  {
    t := s;
    if k > 0 {
      t := Then(cfg, s, Tick);
      t := Waits(cfg, t, k - 1);
    }
  }

  lemma MovedTwice(s: State, p: int, a: Proc, b: Proc)
    ensures s.procs[p := a][p := b] == s.procs[p := b]
  {
  }

  /** The checks of a sleeper whose process ID is still there, and the TRUE return. */
  lemma Wakes(cfg: Config, s: State, p: int) returns (t: State)
    requires Reachable(cfg, s) && Lives(s, p) && s.procs[p].pc.Sleeping?
    requires s.procs[p].pc.fd in s.content && s.content[s.procs[p].pc.fd] == Pid(p)
    requires cfg.sleepsFully ==> s.now >= s.procs[p].pc.at + SLEEP
    requires cfg.checksInode ==> s.path == Some(s.procs[p].pc.fd)
    ensures Reachable(cfg, t) && t == s.(procs := s.procs[p := Proc(true, true, Idle)])
  {
    var pc := s.procs[p].pc;
    t := Then(cfg, s, Wake(p));
    assert t == At(s, p, Reread(pc.temp, pc.fd));
    t := Then(cfg, t, Stat(p));
    MovedTwice(s, p, s.procs[p].(pc := Reread(pc.temp, pc.fd)), s.procs[p].(pc := Leaving(true)));
    assert t == At(s, p, Leaving(true));
    t := Then(cfg, t, Return(p));
    MovedTwice(s, p, s.procs[p].(pc := Leaving(true)), Proc(true, true, Idle));
  }

  /** From the write on, undisturbed for the time the sleep takes. */
  lemma Sleeps(cfg: Config, s: State, p: int, k: nat) returns (t: State)
    requires Reachable(cfg, s) && Lives(s, p) && s.procs[p].pc.Stale?
    requires cfg.writesInTime ==> s.now < s.procs[p].pc.at + SLEEP
    requires cfg.sleepsFully ==> k >= SLEEP
    requires cfg.checksInode ==> s.path == Some(s.procs[p].pc.fd)
    ensures Reachable(cfg, t)
    ensures t == s.(now := s.now + k, content := s.content[s.procs[p].pc.fd := Pid(p)],
                    procs := s.procs[p := Proc(true, true, Idle)])
  {
    var pc := s.procs[p].pc;
    t := Then(cfg, s, Write(p));
    t := Waits(cfg, t, k);
    var sleeper := s.procs[p].(pc := Sleeping(pc.temp, pc.fd, s.now));
    assert t.procs == s.procs[p := sleeper];
    MovedTwice(s, p, sleeper, Proc(true, true, Idle));
    t := Wakes(cfg, t, p);
  }

  /** Our own process ID in the file counts as a link that succeeded. */
  lemma FindsOwn(cfg: Config, s: State, p: int) returns (t: State)
    requires Reachable(cfg, s) && Lives(s, p) && s.procs[p].pc.Opened?
    requires s.procs[p].pc.fd in s.content && s.content[s.procs[p].pc.fd] == Pid(p)
    ensures Reachable(cfg, t) && t == s.(procs := s.procs[p := Proc(true, true, Idle)])
  {
    t := Then(cfg, s, Read(p));
    t := Then(cfg, t, Return(p));
  }

  /** An error after the write. */
  lemma FailsLate(cfg: Config, s: State, p: int) returns (t: State)
    requires Reachable(cfg, s) && Lives(s, p) && s.procs[p].pc.Stale? && !s.procs[p].held
    requires s.now < s.procs[p].pc.at + SLEEP && !cfg.noLateErrors
    ensures Reachable(cfg, t)
    ensures t == s.(content := s.content[s.procs[p].pc.fd := Pid(p)],
                    procs := s.procs[p := Proc(true, false, Idle)])
  {
    t := Then(cfg, s, Write(p));
    t := Then(cfg, t, Abort(p));
    t := Then(cfg, t, Return(p));
  }

  /** The read-only branch, and a link before anyone else's. */
  lemma Replaces(cfg: Config, s: State, p: int) returns (t: State)
    requires Reachable(cfg, s) && Lives(s, p) && s.procs[p].pc.Stale? && !cfg.fileWritable
    ensures Reachable(cfg, t)
    ensures t == s.(path := Some(s.procs[p].pc.temp),
                    procs := s.procs[p := Proc(true, true, Idle)])
  {
    t := Then(cfg, s, Remove(p));
    t := Then(cfg, t, Link(p));
    t := Then(cfg, t, Return(p));
  }

  /** A stale lock never blocks: from every reachable state in which the lock file names no live
      process, any idle process can go on to acquire the lock. */
  lemma StaleLockCanBeBroken(s: State, p: int) returns (t: State)
    requires Reachable(STRICT, s) && IdleOutside(s, p)
    requires s.path.Some? && s.path.value in s.content && s.content[s.path.value].Pid? ==>
               !Lives(s, s.content[s.path.value].pid)
    ensures Reachable(STRICT, t) && Holds(t, p) && OthersKept(s, t, p)
  {
    ReachableInv(s);
    if s.path == None {
      t := LinksWhenFree(STRICT, s, p);
    } else {
      t := OpensWhenTaken(STRICT, s, p);
      t := FindsStale(STRICT, t, p);
      t := Sleeps(STRICT, t, p, SLEEP);
    }
  }

  /** Nobody gives up but after an error or when the process named in the lock file exists: whoever
      finds the file gone or loses a race goes round again. */
  lemma GivesUpOnlyOnLiveOwner(cfg: Config, s: State, a: Action, t: State, p: int)
    requires Next(cfg, s, a) == Some(t) && p in s.procs && p in t.procs
    requires s.procs[p].pc != Leaving(false) && t.procs[p].pc == Leaving(false)
    ensures a == Abort(p) || (a.Kill? && a.p == p && s.procs[p].pc.HaveRead? && s.procs[p].pc.val.Pid?)
    ensures a.Kill? ==> var r := s.procs[p].pc.val.pid; if r in s.procs then Lives(s, r) else a.strangerExists
  {
  }

  // ---------- processes outside the model ----------

  /** r runs all the time: it is none of those that start, and the system says that it exists. */
  predicate LeavesRunning(actions: seq<Action>, r: int) {
    forall a | a in actions :: a != Spawn(r) && (a.Kill? ==> a.strangerExists)
  }

  /** What a process can be doing while the lock file of another program is respected. */
  predicate Keeps(pc: Pc, i: nat, r: int, next: nat) {
    && (HasTemp(pc) ==> pc.temp != i && pc.temp < next)
    && (HasFd(pc) ==> pc.fd == i && (pc.Opened? || pc.HaveRead?))
    && (pc.HaveRead? ==> pc.val == Pid(r))
    && pc != Leaving(true)
  }

  predicate Respected(s: State, i: nat, r: int) {
    && s.path == Some(i) && i in s.content && s.content[i] == Pid(r) && r !in s.procs
    && (forall j <- s.content :: j < s.next)
    && forall p <- s.procs :: !s.procs[p].held && Keeps(s.procs[p].pc, i, r, s.next)
  }

  lemma RespectedStill(cfg: Config, s: State, a: Action, t: State, i: nat, r: int)
    requires Respected(s, i, r) && LeavesRunning([a], r) && Next(cfg, s, a) == Some(t)
    ensures Respected(t, i, r)
  {
    assert a in [a];
    assert !a.Tick? && a.p in s.procs ==> Keeps(s.procs[a.p].pc, i, r, s.next) && !s.procs[a.p].held;
  }

  lemma {:induction false} RespectedInRuns(cfg: Config, s: State, actions: seq<Action>, t: State, i: nat, r: int)
    requires Respected(s, i, r) && LeavesRunning(actions, r) && Exec(cfg, s, actions) == Some(t)
    ensures Respected(t, i, r)
    decreases |actions|
  {
    if actions != [] {
      var u := Next(cfg, s, actions[0]).value;
      assert actions[0] in actions && LeavesRunning([actions[0]], r);
      assert forall a | a in actions[1..] :: a in actions;
      RespectedStill(cfg, s, actions[0], u, i, r);
      RespectedInRuns(cfg, u, actions[1..], t, i, r);
    }
  }

  /** The lock file of a running program that is none of our processes stays as it is, in every
      configuration, and nobody gets the lock. */
  lemma LiveStrangerKeepsLock(cfg: Config, s0: State, actions: seq<Action>, s: State, i: nat, r: int)
    requires Initial(s0) && s0.path == Some(i) && s0.content[i] == Pid(r)
    requires LeavesRunning(actions, r) && Exec(cfg, s0, actions) == Some(s)
    ensures s.path == Some(i) && i in s.content && s.content[i] == Pid(r)
    ensures forall p :: !Holds(s, p)
  {
    RespectedInRuns(cfg, s0, actions, s, i, r);
  }

  // ---------- what each assumption is for ----------

  /** A lock file left by a process that is gone. */
  const LEFT_BEHIND := State(0, Some(0), map[0 := Pid(99)], map[], 1)

  lemma Starts(cfg: Config, s: State)
    requires Initial(s)
    ensures Reachable(cfg, s)
  {
    assert Exec(cfg, s, []) == Some(s);
  }

  lemma OneFindsStale(cfg: Config) returns (s: State)
    ensures Reachable(cfg, s)
    ensures s == State(0, Some(0), map[0 := Pid(99), 1 := Pid(1)],
                       map[1 := Proc(true, false, Stale(1, 0, Pid(99), 0)), 2 := Proc(true, false, Idle)], 2)
  {
    s := LEFT_BEHIND;
    Starts(cfg, s);
    s := Then(cfg, s, Spawn(1));
    s := Then(cfg, s, Spawn(2));
    s := OpensWhenTaken(cfg, s, 1);
    s := FindsStale(cfg, s, 1);
    assert s.procs.Keys == {1, 2};
    assert s.content.Keys == {0, 1};
  }

  /** Two processes that both found the lock stale at time 0. */
  lemma TwoFindStale(cfg: Config) returns (s: State)
    ensures Reachable(cfg, s)
    ensures s == State(0, Some(0), map[0 := Pid(99), 1 := Pid(1), 2 := Pid(2)],
                       map[1 := Proc(true, false, Stale(1, 0, Pid(99), 0)),
                           2 := Proc(true, false, Stale(2, 0, Pid(99), 0))], 3)
  {
    s := OneFindsStale(cfg);
    s := OpensWhenTaken(cfg, s, 2);
    s := FindsStale(cfg, s, 2);
    assert s.procs.Keys == {1, 2};
    assert s.content.Keys == {0, 1, 2};
  }

  /** A breaker that is late with its write, as the source's comment admits. */
  lemma LateWriteRace(cfg: Config) returns (s: State)
    requires !cfg.writesInTime
    ensures Reachable(cfg, s) && Holds(s, 1) && Holds(s, 2)
  {
    s := TwoFindStale(cfg);
    s := Sleeps(cfg, s, 1, SLEEP);
    s := Sleeps(cfg, s, 2, SLEEP);
  }

  /** A sleep that a signal cuts short. */
  lemma ShortSleepRace(cfg: Config) returns (s: State)
    requires !cfg.sleepsFully
    ensures Reachable(cfg, s) && Holds(s, 1) && Holds(s, 2)
  {
    s := TwoFindStale(cfg);
    s := Sleeps(cfg, s, 1, 0);
    s := Sleeps(cfg, s, 2, SLEEP);
  }

  /** An error after the write leaves our process ID in the file; the next try takes it for a link
      that succeeded and does not wait. */
  lemma LateErrorRace(cfg: Config) returns (s: State)
    requires !cfg.noLateErrors
    ensures Reachable(cfg, s) && Holds(s, 1) && Holds(s, 2)
  {
    s := TwoFindStale(cfg);
    s := FailsLate(cfg, s, 1);
    s := OpensWhenTaken(cfg, s, 1);
    s := FindsOwn(cfg, s, 1);
    s := Sleeps(cfg, s, 2, SLEEP);
  }

  /** The read-only branch removes whatever the path names by then. */
  lemma RemoveRace(cfg: Config) returns (s: State)
    requires !cfg.fileWritable
    ensures Reachable(cfg, s) && Holds(s, 1) && Holds(s, 2)
  {
    s := TwoFindStale(cfg);
    s := Replaces(cfg, s, 1);
    s := Replaces(cfg, s, 2);
  }

  /** A process that gets the process ID of the stale lock after another one did the kill. */
  lemma ReusedPidRace(cfg: Config) returns (s: State)
    requires !cfg.pidsFresh
    ensures Reachable(cfg, s) && Holds(s, 99) && Holds(s, 2)
  {
    s := LEFT_BEHIND;
    Starts(cfg, s);
    s := Then(cfg, s, Spawn(2));
    s := OpensWhenTaken(cfg, s, 2);
    s := FindsStale(cfg, s, 2);
    s := Then(cfg, s, Spawn(99));
    s := OpensWhenTaken(cfg, s, 99);
    s := FindsOwn(cfg, s, 99);
    s := Sleeps(cfg, s, 2, SLEEP);
  }

  lemma UnlocksAndDies(cfg: Config, s: State, p: int) returns (t: State)
    requires Reachable(cfg, s) && Holds(s, p) && s.procs[p].pc.Idle?
    ensures Reachable(cfg, t)
    ensures t == s.(path := None, procs := s.procs[p := Proc(false, false, Idle)])
  {
    t := Then(cfg, s, Unlock(p));
    t := Then(cfg, t, Crash(p));
  }

  lemma ThreeStart(cfg: Config) returns (s: State)
    ensures Reachable(cfg, s)
    ensures s == State(0, None, map[], map[1 := Proc(true, false, Idle), 2 := Proc(true, false, Idle),
                                           3 := Proc(true, false, Idle)], 0)
  {
    s := State(0, None, map[], map[], 0);
    Starts(cfg, s);
    s := Then(cfg, s, Spawn(1));
    s := Then(cfg, s, Spawn(2));
    s := Then(cfg, s, Spawn(3));
  }

  lemma OpensBeforeUnlock(cfg: Config) returns (s: State)
    ensures Reachable(cfg, s)
    ensures s == State(0, Some(0), map[0 := Pid(1), 1 := Pid(2)],
                       map[1 := Proc(true, true, Idle), 2 := Proc(true, false, Opened(1, 0)),
                           3 := Proc(true, false, Idle)], 2)
  {
    s := ThreeStart(cfg);
    s := LinksWhenFree(cfg, s, 1);
    s := OpensWhenTaken(cfg, s, 2);
    assert s.procs.Keys == {1, 2, 3};
    assert s.content.Keys == {0, 1};
  }

  /** A breaker that opened the file before its owner unlocked it holds an unlinked inode. */
  lemma UnlinkedInodeRace(cfg: Config) returns (s: State)
    requires !cfg.checksInode
    ensures Reachable(cfg, s) && Holds(s, 2) && Holds(s, 3)
  {
    s := OpensBeforeUnlock(cfg);
    s := UnlocksAndDies(cfg, s, 1);
    s := FindsStale(cfg, s, 2);
    s := LinksWhenFree(cfg, s, 3);
    s := Sleeps(cfg, s, 2, SLEEP);
  }

  /** The protocol excludes exactly when every one of its checks and assumptions is in force. */
  lemma ExclusionIffStrict(cfg: Config)
    ensures Excludes(cfg) <==> cfg == STRICT
  {
    if !cfg.writesInTime {
      var s := LateWriteRace(cfg);
    } else if !cfg.sleepsFully {
      var s := ShortSleepRace(cfg);
    } else if !cfg.noLateErrors {
      var s := LateErrorRace(cfg);
    } else if !cfg.fileWritable {
      var s := RemoveRace(cfg);
    } else if !cfg.pidsFresh {
      var s := ReusedPidRace(cfg);
    } else if !cfg.checksInode {
      var s := UnlinkedInodeRace(cfg);
    } else {
      MutualExclusion();
    }
  }
}
