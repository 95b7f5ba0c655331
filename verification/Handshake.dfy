/** The stop/start handshake of unix/cusub.c: fsysdep_cu_copy in the parent, which signals the child
    once a second and waits for a byte on a pipe, and the loop of uscu_child, which copies the port
    to the terminal unless it is stopped. One step is one access to what the two share. */
module Handshake {
  import opened Wrappers

  /** SIGUSR1 and the reply CHILD_STARTED, SIGUSR2 and the reply CHILD_STOPPED. */
  datatype Kind = Start | Stop

  /** Where the parent is: past the loop of fsysdep_cu_copy, with the reply it waited for (armed: not
      past ignoring SIGALRM), reading the pipe, or past a call that returned FALSE. */
  datatype Parent = Idle(last: Kind, armed: bool) | Waiting(kind: Kind) | Failed

  /** Where the child is in its loop; isig is its local variable. */
  datatype Place = Top | Clear(isig: Option<Kind>) | Act(sig: Kind) | Reply(b: Kind)
                 | Work | Paused | Write | Read

  datatype State = State(parent: Parent,
                         pending: seq<Kind>,   // sent, not yet delivered
                         flag: Option<Kind>,   // iSchild_sig
                         at: Place,
                         stopped: bool,        // fstopped
                         cwrite: nat,
                         got: bool,            // fgot
                         alive: bool,
                         pipe: seq<Kind>,
                         shown: nat)           // characters written to the terminal

  datatype Action =
    | Call(kind: Kind, merge: bool)           // fsysdep_cu_copy is called, and sends the signal;
                                              // merge: into one that is pending already
    | Resend(merge: bool)                     // SIGALRM comes, and the signal is sent once more
    | Take                                    // the parent reads a byte from the pipe
    | Disarm                                  // it ignores SIGALRM, and the call returns
    | Hangup                                  // its read fails, or the pipe is at its end
    | Deliver(i: nat, interrupts: bool)       // the child's handler runs
    | Child                                   // the child's next step, if it cannot block or fail
    | Wrote(n: nat)                           // it writes to the terminal
    | Got(n: nat)                             // it reads from the port
    | Exit                                    // it gives up on an error

  /** How the system behaves: whether signals are delivered in the order they were sent. */
  datatype Config = Config(inOrder: bool)

  const BUFSIZE: nat := 1024

  function Sent(pending: seq<Kind>, k: Kind, merge: bool): seq<Kind> {
    if merge && k in pending then pending else pending + [k]
  }

  function Without(s: seq<Kind>, i: nat): seq<Kind>
    requires i < |s|
  {
    s[..i] + s[i + 1..]
  }

  /** iSsend_sig, which the last call has set. */
  function SendSig(p: Parent): Kind
    requires !p.Failed?
  {
    if p.Idle? then p.last else p.kind
  }

  predicate Enabled(cfg: Config, s: State, a: Action) {
    match a
    case Call(_, _) => s.parent.Idle? && !s.parent.armed
    case Resend(_) => s.parent.Waiting? || (s.parent.Idle? && s.parent.armed)
    case Take => s.parent.Waiting? && s.pipe != []
    case Disarm => s.parent.Idle? && s.parent.armed
    case Hangup => s.parent.Waiting?
    case Deliver(i, _) => s.alive && i < |s.pending| && (cfg.inOrder ==> i == 0)
    case Child => s.alive && !s.at.Paused? && !s.at.Write? && !s.at.Read?
    case Wrote(n) => s.alive && s.at.Write? && 0 < n <= s.cwrite
    case Got(n) => s.alive && s.at.Read? && n <= BUFSIZE && (n == 0 ==> !s.got)
    case Exit => s.alive && (s.at.Reply? || s.at.Write? || s.at.Read?)
  }

  /** The child's step between two accesses. */
  function ChildStep(s: State): State {
    match s.at
    case Top => s.(at := Clear(s.flag))
    case Clear(isig) => s.(flag := None, at := if isig.Some? then Act(isig.value) else Work)
    case Act(isig) =>
      if isig == Stop then s.(stopped := true, cwrite := 0, at := Reply(Stop))
      else s.(stopped := false, at := Reply(Start))
    case Reply(b) => s.(pipe := s.pipe + [b], at := Work)
    case Work => s.(at := if s.stopped then Paused else if s.cwrite > 0 then Write else Read)
    case _ => s
  }

  function Next(s: State, a: Action): State {
    match a
    case Call(k, merge) => s.(parent := Waiting(k), pending := Sent(s.pending, k, merge))
    case Resend(merge) =>
      if s.parent.Failed? then s else s.(pending := Sent(s.pending, SendSig(s.parent), merge))
    case Take =>
      if s.parent.Waiting? && s.pipe != [] then
        s.(pipe := s.pipe[1..],
           parent := if s.pipe[0] == s.parent.kind then Idle(s.pipe[0], true) else s.parent)
      else s
    case Disarm => if s.parent.Idle? then s.(parent := Idle(s.parent.last, false)) else s
    case Hangup => s.(parent := Failed)
    case Deliver(i, interrupts) =>
      if i < |s.pending| then
        s.(flag := Some(s.pending[i]), pending := Without(s.pending, i),
           at := if s.at.Paused? || ((s.at.Write? || s.at.Read?) && interrupts) then Top else s.at)
      else s
    case Child => ChildStep(s)
    case Wrote(n) =>
      if n <= s.cwrite then
        s.(shown := s.shown + n, cwrite := s.cwrite - n, at := if n == s.cwrite then Top else Write)
      else s
    case Got(n) => s.(got := s.got || n > 0, cwrite := n, at := Top)
    case Exit => s.(alive := false)
  }

  /** The child enters its loop copying; the parent has not called yet. */
  const INITIAL: State := State(Idle(Start, false), [], None, Top, false, 0, false, true, [], 0)

  predicate Possible(cfg: Config, s: State, acts: seq<Action>)
    decreases |acts|
  {
    acts == [] || (Enabled(cfg, s, acts[0]) && Possible(cfg, Next(s, acts[0]), acts[1..]))
  }

  function Run(s: State, acts: seq<Action>): State
    decreases |acts|
  {
    if acts == [] then s else Run(Next(s, acts[0]), acts[1..])
  }

  // ---------- safety ----------

  function Mode(s: State): Kind { if s.stopped then Stop else Start }

  /** What the child has taken up and not acted on. */
  function Hand(s: State): Option<Kind> {
    match s.at
    case Clear(isig) => isig
    case Act(sig) => Some(sig)
    case _ => None
  }

  /** Once k comes, only k comes. */
  predicate Settles(t: seq<Kind>, k: Kind) {
    forall i, j {:trigger t[i], t[j]} | 0 <= i < j < |t| :: t[i] == k ==> t[j] == k
  }

  predicate AllAre(t: seq<Kind>, k: Kind) { forall i | 0 <= i < |t| :: t[i] == k }

  predicate IsOr(m: Option<Kind>, k: Kind) { m.Some? ==> m.value == k }

  /** Replies, the child's mode, the signal in its hand, the one recorded and the ones pending, in
      the order they arose: once one of them is k, all later ones are. */
  predicate Follows(s: State, k: Kind) {
    && Settles(s.pipe, k)
    && (k in s.pipe ==> Mode(s) == k)
    && (Mode(s) == k ==> IsOr(Hand(s), k))
    && (Mode(s) == k || Hand(s) == Some(k) ==> IsOr(s.flag, k))
    && (Mode(s) == k || Hand(s) == Some(k) || s.flag == Some(k) ==> AllAre(s.pending, k))
    && Settles(s.pending, k)
  }

  /** Nothing but k anywhere. */
  predicate Only(s: State, k: Kind) {
    AllAre(s.pipe, k) && Mode(s) == k && IsOr(Hand(s), k) && IsOr(s.flag, k) && AllAre(s.pending, k)
  }

  predicate Inv(s: State) {
    && (s.at.Reply? ==> s.at.b == Mode(s))
    && (s.at.Write? || s.at.Read? ==> !s.stopped)
    && (s.parent.Idle? ==> Only(s, s.parent.last))
    && (s.parent.Waiting? ==> Follows(s, s.parent.kind))
  }

  lemma CallInv(s: State, k: Kind, merge: bool)
    requires Inv(s) && s.parent.Idle?
    ensures Inv(Next(s, Call(k, merge)))
  {
  }

  lemma ResendInv(s: State, merge: bool)
    requires Inv(s) && !s.parent.Failed?
    ensures Inv(Next(s, Resend(merge)))
  {
  }

  lemma TakeInv(s: State)
    requires Inv(s) && s.parent.Waiting? && s.pipe != []
    ensures Inv(Next(s, Take))
  {
    var k, t := s.parent.kind, Next(s, Take);
    if s.pipe[0] == k {
      assert k in s.pipe;
      forall i | 0 <= i < |t.pipe| ensures t.pipe[i] == k { assert s.pipe[i + 1] == k; }
    }
  }

  lemma DeliverInv(s: State, interrupts: bool)
    requires Inv(s) && s.pending != []
    ensures Inv(Next(s, Deliver(0, interrupts)))
  {
    var t := Next(s, Deliver(0, interrupts));
    assert t.pending == s.pending[1..];
    match s.parent
    case Idle(k, _) => assert Only(t, k);
    case Waiting(k) => FirstSettles(s.pending, k); assert Follows(t, k);
    case Failed =>
  }

  lemma FirstSettles(pending: seq<Kind>, k: Kind)
    requires pending != [] && Settles(pending, k)
    ensures Settles(pending[1..], k) && (pending[0] == k ==> AllAre(pending[1..], k))
    ensures AllAre(pending, k) ==> AllAre(pending[1..], k) && pending[0] == k
  {
  }

  lemma ChildInv(s: State)
    requires Inv(s)
    ensures Inv(ChildStep(s))
  {
    if s.at.Reply? { ReplyInv(s); } else { QuietStepInv(s); }
  }

  lemma QuietStepInv(s: State)
    requires Inv(s) && !s.at.Reply?
    ensures Inv(ChildStep(s))
  {
    assert ChildStep(s).pipe == s.pipe && ChildStep(s).pending == s.pending;
  }

  lemma ReplyInv(s: State)
    requires Inv(s) && s.at.Reply?
    ensures Inv(ChildStep(s))
  {
    var t := ChildStep(s);
    if s.parent.Waiting? {
      var k := s.parent.kind;
      forall i, j | 0 <= i < j < |t.pipe| ensures t.pipe[i] == k ==> t.pipe[j] == k {
        if j == |s.pipe| && t.pipe[i] == k { assert s.pipe[i] == k; }
      }
    }
  }

  /** What every step keeps, whichever it is, as long as signals are delivered in order. */
  lemma StepInv(cfg: Config, s: State, a: Action)
    requires cfg.inOrder && Inv(s) && Enabled(cfg, s, a)
    ensures Inv(Next(s, a))
  {
    match a
    case Call(k, merge) => CallInv(s, k, merge);
    case Resend(merge) => ResendInv(s, merge);
    case Take => TakeInv(s);
    case Deliver(i, interrupts) => DeliverInv(s, interrupts);
    case Child => ChildInv(s);
    case _ =>
  }

  lemma {:induction false} RunInv(cfg: Config, s: State, acts: seq<Action>)
    requires cfg.inOrder && Inv(s) && Possible(cfg, s, acts)
    ensures Inv(Run(s, acts))
    decreases |acts|
  {
    if acts != [] {
      StepInv(cfg, s, acts[0]);
      RunInv(cfg, Next(s, acts[0]), acts[1..]);
    }
  }

  /** fsysdep_cu_copy (FALSE) has had its reply, and (TRUE) has not been called since. */
  predicate ToldStopped(s: State) { s.parent.Idle? && s.parent.last == Stop }

  predicate NoCall(acts: seq<Action>) { forall a | a in acts :: !a.Call? }

  lemma {:induction false} NothingShown(cfg: Config, s: State, acts: seq<Action>)
    requires cfg.inOrder && Inv(s) && Possible(cfg, s, acts) && ToldStopped(s) && NoCall(acts)
    ensures Run(s, acts).shown == s.shown
    decreases |acts|
  {
    if acts != [] {
      StepInv(cfg, s, acts[0]);
      assert !acts[0].Call?;
      NothingShown(cfg, Next(s, acts[0]), acts[1..]);
    }
  }

  /** In every run: after a call that returned TRUE the child is in the mode asked for, and after a
      stop it writes nothing until the next call. */
  ghost predicate Obeys(cfg: Config) {
    forall acts {:trigger Possible(cfg, INITIAL, acts)} | Possible(cfg, INITIAL, acts) ::
      var s := Run(INITIAL, acts);
      s.parent.Idle? ==> Mode(s) == s.parent.last && (ToldStopped(s) ==> Quiet(cfg, s))
  }

  ghost predicate Quiet(cfg: Config, s: State) {
    forall more {:trigger Possible(cfg, s, more)} | Possible(cfg, s, more) && NoCall(more) ::
      Run(s, more).shown == s.shown
  }

  lemma InOrderObeys(cfg: Config)
    requires cfg.inOrder
    ensures Obeys(cfg)
  {
    forall acts | Possible(cfg, INITIAL, acts) && Run(INITIAL, acts).parent.Idle?
      ensures var s := Run(INITIAL, acts);
              Mode(s) == s.parent.last && (ToldStopped(s) ==> Quiet(cfg, s))
    {
      var s := Run(INITIAL, acts);
      RunInv(cfg, INITIAL, acts);
      forall more | ToldStopped(s) && Possible(cfg, s, more) && NoCall(more)
        ensures Run(s, more).shown == s.shown
      {
        NothingShown(cfg, s, more);
      }
    }
  }

  // ---------- what is shown ----------

  /** How many characters the child reads from the port in a run. */
  function Heard(acts: seq<Action>): nat {
    if acts == [] then 0 else (if acts[0].Got? then acts[0].n else 0) + Heard(acts[1..])
  }

  predicate NoStop(acts: seq<Action>) { forall a | a in acts :: !(a.Call? && a.kind == Stop) }

  /** No stop is anywhere, and the child reads only when it has written what it has. */
  predicate Copying(s: State) {
    && !s.stopped && !IsOrStop(Hand(s)) && !IsOrStop(s.flag) && Stop !in s.pending
    && (s.parent.Idle? ==> s.parent.last == Start) && (s.parent.Waiting? ==> s.parent.kind == Start)
    && (s.at.Reply? ==> s.at.b == Start) && (s.at.Read? ==> s.cwrite == 0) && Stop !in s.pipe
  }

  predicate IsOrStop(m: Option<Kind>) { m == Some(Stop) }

  lemma StillCopying(cfg: Config, s: State, a: Action)
    requires Copying(s) && Enabled(cfg, s, a) && NoStop([a])
    ensures Copying(Next(s, a))
  {
    assert a in [a];
  }

  lemma NoneLost(cfg: Config, s: State, a: Action)
    requires Copying(s) && Enabled(cfg, s, a) && NoStop([a])
    ensures Next(s, a).shown + Next(s, a).cwrite == s.shown + s.cwrite + Heard([a])
  {
    assert a in [a] && [a][1..] == [];
  }

  lemma {:induction false} CopiedAll(cfg: Config, s: State, acts: seq<Action>)
    requires Copying(s) && Possible(cfg, s, acts) && NoStop(acts)
    ensures Copying(Run(s, acts)) && Run(s, acts).shown + Run(s, acts).cwrite == s.shown + s.cwrite + Heard(acts)
    decreases |acts|
  {
    if acts != [] {
      assert acts[0] in acts && forall a | a in acts[1..] :: a in acts;
      StillCopying(cfg, s, acts[0]);
      NoneLost(cfg, s, acts[0]);
      assert [acts[0]][1..] == [];
      CopiedAll(cfg, Next(s, acts[0]), acts[1..]);
    }
  }

  /** As long as nobody asks for a stop, everything the child reads is shown or about to be, whatever
      signals interrupt it. */
  lemma NothingLost(cfg: Config, acts: seq<Action>)
    requires Possible(cfg, INITIAL, acts) && NoStop(acts)
    ensures Run(INITIAL, acts).shown + Run(INITIAL, acts).cwrite == Heard(acts)
  {
    CopiedAll(cfg, INITIAL, acts);
  }

  /** A child that has begun to copy goes on: it comes to write what it has read, and else to read. */
  lemma CopyingGoesOn(s: State)
    requires s.alive && s.at == Top && !s.stopped && s.flag == None
    ensures var t := ChildStep(ChildStep(ChildStep(s)));
            t == s.(at := if s.cwrite > 0 then Write else Read)
  {
  }

  // ---------- runs built step by step ----------

  lemma {:induction false} OneMore(cfg: Config, s: State, acts: seq<Action>, a: Action)
    requires Possible(cfg, s, acts) && Enabled(cfg, Run(s, acts), a)
    ensures Possible(cfg, s, acts + [a]) && Run(s, acts + [a]) == Next(Run(s, acts), a)
    decreases |acts|
  {
    if acts == [] {
      assert [a][1..] == [];
    } else {
      assert (acts + [a])[1..] == acts[1..] + [a];
      OneMore(cfg, Next(s, acts[0]), acts[1..], a);
    }
  }

  /** One of the steps by which a waiting parent and its child make progress. */
  predicate Helps(a: Action) { a.Resend? || a.Take? || a.Deliver? || a.Child? }

  ghost predicate Leads(cfg: Config, s: State, t: State) {
    exists acts :: Possible(cfg, s, acts) && Run(s, acts) == t && forall a | a in acts :: Helps(a)
  }

  lemma LeadsNowhere(cfg: Config, s: State)
    ensures Leads(cfg, s, s)
  {
    assert Possible(cfg, s, []) && Run(s, []) == s;
  }

  lemma LeadsOn(cfg: Config, s: State, t: State, a: Action)
    requires Leads(cfg, s, t) && Enabled(cfg, t, a) && Helps(a)
    ensures Leads(cfg, s, Next(t, a))
  {
    var acts :| Possible(cfg, s, acts) && Run(s, acts) == t && forall b | b in acts :: Helps(b);
    OneMore(cfg, s, acts, a);
    assert forall b | b in acts + [a] :: Helps(b);
  }

  predicate Blocked(at: Place) { at.Top? || at.Paused? || at.Write? || at.Read? }

  function StepsToBlock(at: Place): nat {
    match at
    case Clear(_) => 4
    case Act(_) => 3
    case Reply(_) => 2
    case Work => 1
    case _ => 0
  }

  /** What is known of the states of every run. */
  predicate Kept(cfg: Config, s: State) { cfg.inOrder ==> Inv(s) }

  lemma {:induction false} ChildBlocks(cfg: Config, s: State, t: State) returns (u: State)
    requires Leads(cfg, s, t) && t.alive && t.parent.Waiting? && Kept(cfg, t)
    ensures Leads(cfg, s, u) && u.alive && u.parent == t.parent && Blocked(u.at) && Kept(cfg, u)
    decreases StepsToBlock(t.at)
  {
    if Blocked(t.at) {
      u := t;
    } else {
      LeadsOn(cfg, s, t, Child);
      if cfg.inOrder { ChildInv(t); }
      u := ChildBlocks(cfg, s, ChildStep(t));
    }
  }

  /** The signals pending can be delivered with k as the last of them. */
  predicate CanBeLast(cfg: Config, pending: seq<Kind>, k: Kind) {
    if cfg.inOrder then pending != [] && pending[|pending| - 1] == k else k in pending
  }

  /** Which to deliver first for that: out of order, the one in front is kept back if it is k. */
  function FirstOf(cfg: Config, pending: seq<Kind>, k: Kind): nat {
    if !cfg.inOrder && |pending| > 1 && pending[0] == k then 1 else 0
  }

  lemma {:induction false} AllDelivered(cfg: Config, s: State, t: State, k: Kind) returns (u: State)
    requires Leads(cfg, s, t) && t.alive && t.parent == Waiting(k) && Blocked(t.at)
    requires CanBeLast(cfg, t.pending, k)
    ensures Leads(cfg, s, u) && u.alive && u.parent == t.parent
    ensures u.at == Top && u.flag == Some(k)
    decreases |t.pending|
  {
    var a := Deliver(FirstOf(cfg, t.pending, k), true);
    LeadsOn(cfg, s, t, a);
    u := Next(t, a);
    if u.pending != [] {
      u := AllDelivered(cfg, s, u, k);
    }
  }

  lemma Replies(cfg: Config, s: State, t: State, k: Kind) returns (u: State)
    requires Leads(cfg, s, t) && t.alive && t.parent == Waiting(k) && t.at == Top && t.flag == Some(k)
    ensures Leads(cfg, s, u) && u.parent == t.parent && u.pipe == t.pipe + [k]
  {
    LeadsOn(cfg, s, t, Child);
    var t1 := ChildStep(t);
    LeadsOn(cfg, s, t1, Child);
    var t2 := ChildStep(t1);
    LeadsOn(cfg, s, t2, Child);
    var t3 := ChildStep(t2);
    LeadsOn(cfg, s, t3, Child);
    u := ChildStep(t3);
  }

  lemma {:induction false} TakesReply(cfg: Config, s: State, t: State, k: Kind) returns (u: State)
    requires Leads(cfg, s, t) && t.parent == Waiting(k) && k in t.pipe
    ensures Leads(cfg, s, u) && u.parent == Idle(k, true)
    decreases |t.pipe|
  {
    LeadsOn(cfg, s, t, Take);
    u := Next(t, Take);
    if t.pipe[0] != k {
      u := TakesReply(cfg, s, u, k);
    }
  }

  lemma Resent(cfg: Config, s: State, k: Kind)
    requires Kept(cfg, s) && s.parent == Waiting(k)
    ensures CanBeLast(cfg, Sent(s.pending, k, k in s.pending), k)
  {
    if k in s.pending && cfg.inOrder {
      var i :| 0 <= i < |s.pending| && s.pending[i] == k;
      assert i < |s.pending| - 1 ==> s.pending[|s.pending| - 1] == k;
    }
  }

  /** In every run, in order or not, whatever got lost or was overtaken: as long as the child lives,
      resending can bring the reply. */
  lemma ResendingSucceeds(cfg: Config, acts: seq<Action>) returns (t: State)
    requires Possible(cfg, INITIAL, acts)
    requires Run(INITIAL, acts).parent.Waiting? && Run(INITIAL, acts).alive
    ensures Leads(cfg, Run(INITIAL, acts), t)
    ensures t.parent == Idle(Run(INITIAL, acts).parent.kind, true)
  {
    var s := Run(INITIAL, acts);
    var k := s.parent.kind;
    if cfg.inOrder { RunInv(cfg, INITIAL, acts); }
    LeadsNowhere(cfg, s);
    t := ChildBlocks(cfg, s, s);
    Resent(cfg, t, k);
    LeadsOn(cfg, s, t, Resend(k in t.pending));
    t := Next(t, Resend(k in t.pending));
    t := AllDelivered(cfg, s, t, k);
    t := Replies(cfg, s, t, k);
    t := TakesReply(cfg, s, t, k);
  }

  // ---------- signals out of order ----------

  /** A start has succeeded, a second SIGUSR1 is on its way. */
  const RESENT: State := State(Idle(Start, false), [Start], None, Work, false, 0, false, true, [], 0)

  /** A stop has succeeded although the SIGUSR1 has yet to come. */
  const OVERTAKEN: State := State(Idle(Stop, true), [Start], None, Work, true, 0, true, true, [], 0)

  lemma ToResent(cfg: Config) returns (acts: seq<Action>)
    ensures Possible(cfg, INITIAL, acts) && Run(INITIAL, acts) == RESENT
  {
    acts := [];
    OneMore(cfg, INITIAL, acts, Call(Start, false)); acts := acts + [Call(Start, false)];
    OneMore(cfg, INITIAL, acts, Deliver(0, false)); acts := acts + [Deliver(0, false)];
    OneMore(cfg, INITIAL, acts, Child); acts := acts + [Child];
    OneMore(cfg, INITIAL, acts, Child); acts := acts + [Child];
    OneMore(cfg, INITIAL, acts, Child); acts := acts + [Child];
    OneMore(cfg, INITIAL, acts, Child); acts := acts + [Child];
    OneMore(cfg, INITIAL, acts, Resend(false)); acts := acts + [Resend(false)];
    OneMore(cfg, INITIAL, acts, Take); acts := acts + [Take];
    OneMore(cfg, INITIAL, acts, Disarm); acts := acts + [Disarm];
  }

  lemma ToOvertaken(cfg: Config) returns (acts: seq<Action>)
    requires !cfg.inOrder
    ensures Possible(cfg, INITIAL, acts) && Run(INITIAL, acts) == OVERTAKEN
  {
    acts := ToResent(cfg);
    OneMore(cfg, INITIAL, acts, Call(Stop, false)); acts := acts + [Call(Stop, false)];
    OneMore(cfg, INITIAL, acts, Deliver(1, false)); acts := acts + [Deliver(1, false)];
    OneMore(cfg, INITIAL, acts, Child); acts := acts + [Child];
    OneMore(cfg, INITIAL, acts, Got(5)); acts := acts + [Got(5)];
    OneMore(cfg, INITIAL, acts, Child); acts := acts + [Child];
    OneMore(cfg, INITIAL, acts, Child); acts := acts + [Child];
    OneMore(cfg, INITIAL, acts, Child); acts := acts + [Child];
    OneMore(cfg, INITIAL, acts, Child); acts := acts + [Child];
    OneMore(cfg, INITIAL, acts, Take); acts := acts + [Take];
  }

  /** When a stop overtakes an earlier start, the child starts again after the stop was confirmed. */
  lemma StopOvertakesStart(cfg: Config)
    requires !cfg.inOrder
    ensures !Obeys(cfg)
  {
    var acts := ToOvertaken(cfg);
    OneMore(cfg, INITIAL, acts, Child); acts := acts + [Child];
    OneMore(cfg, INITIAL, acts, Deliver(0, true)); acts := acts + [Deliver(0, true)];
    OneMore(cfg, INITIAL, acts, Child); acts := acts + [Child];
    OneMore(cfg, INITIAL, acts, Child); acts := acts + [Child];
    OneMore(cfg, INITIAL, acts, Child); acts := acts + [Child];
    assert Mode(Run(INITIAL, acts)) == Start;
  }

  /** The handshake is right exactly if signals are delivered in the order they were sent. */
  lemma ObeysIffInOrder(cfg: Config)
    ensures Obeys(cfg) <==> cfg.inOrder
  {
    if cfg.inOrder { InOrderObeys(cfg); } else { StopOvertakesStart(cfg); }
  }
}
