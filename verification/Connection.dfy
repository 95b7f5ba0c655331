/** Reading and writing a connection: fsysdep_conn_io, fsysdep_conn_write and fsysdep_conn_read of
    unix/serial.c. What the system calls answer is arbitrary; when there are no answers left, a
    quit signal has arrived. */
module Connection {

  datatype Errno = EINTR | EAGAIN | EIO

  /** The answer to a system call; alarm tells whether SIGALRM came with it. */
  datatype Answer = Answer(result: int, data: seq<char>, errno: Errno, alarm: bool)

  /** Why a read ends: the bytes are there, SIGALRM has come or there was no time, a quit signal has
      come, a setting was refused, or the line does not answer. */
  datatype Stop = Enough | TimeOver | Quit | NotSet | Hangup

  /** A system call: a setting of the line, a read, a write, a select, or the write of one byte with an
      alarm set. */
  datatype Kind = Setting | Reading | Writing | Selecting | Timed

  datatype Call = Call(kind: Kind, answer: Answer)

  function Min(a: int, b: int): int { if a < b then a else b }

  const PATIENCE: int := 10

  /** The call is made again when a signal has interrupted it. */
  predicate Interrupted(a: Answer) { a.result < 0 && a.errno == EINTR }

  predicate WouldBlock(a: Answer) { a.result < 0 && a.errno == EAGAIN }

  predicate Broken(a: Answer) { a.result < 0 && a.errno == EIO }

  /** How many writes in a row, up to the last one and apart from interrupted ones, took nothing. */
  function Zeros(calls: seq<Answer>): nat {
    if calls == [] then 0
    else
      var n := |calls| - 1;
      if Interrupted(calls[n]) then Zeros(calls[..n])
      else if WouldBlock(calls[n]) || calls[n].result == 0 then 1 + Zeros(calls[..n])
      else 0
  }

  /** The last write failed, or was the tenth in a row to take nothing. */
  predicate WriteFails(calls: seq<Answer>) {
    calls != [] && (Broken(calls[|calls| - 1]) || Zeros(calls) >= 10)
  }

  /** No write failed. */
  predicate WritesGood(calls: seq<Answer>) {
    calls != [] ==> !WriteFails(calls) && WritesGood(calls[..|calls| - 1])
  }

  /** How many reads in a row, up to the last one and apart from interrupted ones, found nothing
      although they should have waited. */
  function Blocks(calls: seq<Answer>): nat {
    if calls == [] then 0
    else
      var n := |calls| - 1;
      if Interrupted(calls[n]) then Blocks(calls[..n])
      else if WouldBlock(calls[n]) then 1 + Blocks(calls[..n])
      else 0
  }

  /** The last read found the line hung up, failed, or was the third in a row to find nothing. */
  predicate ReadFails(calls: seq<Answer>) {
    && calls != []
    && var a := calls[|calls| - 1];
       (a.result >= 0 && a.data == []) || Broken(a) || Blocks(calls) > 2
  }

  predicate ReadsGood(calls: seq<Answer>) {
    calls != [] ==> !ReadFails(calls) && ReadsGood(calls[..|calls| - 1])
  }

  /** How many timed writes took nothing since a write last took something. */
  function Idle(log: seq<Call>): nat {
    if log == [] then 0
    else
      var n := |log| - 1;
      var c := log[n];
      if c.kind == Timed && c.answer.result == 0 then 1 + Idle(log[..n])
      else if (c.kind == Timed || c.kind == Writing) && c.answer.result > 0 then 0
      else Idle(log[..n])
  }

  predicate Refused(log: seq<Call>) {
    log != [] && log[|log| - 1].kind == Setting && log[|log| - 1].answer.result < 0
  }

  /** What ends fsysdep_conn_io: a setting that is refused, a read or write that fails, a timed write that
      fails or is the tenth in a row to take nothing. */
  predicate IoFails(log: seq<Call>) {
    && log != []
    && var c := log[|log| - 1];
       match c.kind
       case Setting => c.answer.result < 0
       case Reading => Broken(c.answer)
       case Writing => Broken(c.answer)
       case Selecting => false
       case Timed => (c.answer.result < 0 && c.answer.errno != EINTR)
                     || (c.answer.result == 0 && Idle(log) >= 10)
  }

  predicate IoGood(log: seq<Call>) {
    log != [] ==> !IoFails(log) && IoGood(log[..|log| - 1])
  }

  /** Nothing failed before the last call. */
  predicate IoGoodBefore(log: seq<Call>) { log != [] ==> IoGood(log[..|log| - 1]) }

  lemma Logged(log: seq<Call>, c: Call)
    requires IoGood(log)
    ensures var more := log + [c];
            && IoGoodBefore(more) && (IoGood(more) <==> !IoFails(more))
            && more != [] && more[|more| - 1] == c
            && Idle(more) == if c.kind == Timed && c.answer.result == 0 then Idle(log) + 1
                             else if (c.kind == Timed || c.kind == Writing) && c.answer.result > 0 then 0
                             else Idle(log)
  {
    var more := log + [c];
    assert more[|more| - 1] == c && more[..|more| - 1] == log;
  }

  lemma LogGrows(base: seq<Call>, log: seq<Call>, c: Call)
    ensures (base + log) + [c] == base + (log + [c])
  {
  }

  /** Counted from earlier on, a call fails all the more. */
  lemma {:induction false} IdleMore(base: seq<Call>, log: seq<Call>)
    ensures Idle(base + log) >= Idle(log)
    ensures IoFails(log) ==> IoFails(base + log)
  {
    var all := base + log;
    if log != [] {
      assert all[|all| - 1] == log[|log| - 1] && all[..|all| - 1] == base + log[..|log| - 1];
      IdleMore(base, log[..|log| - 1]);
    }
  }

  lemma {:induction false} ZerosMore(base: seq<Answer>, calls: seq<Answer>)
    ensures Zeros(base + calls) >= Zeros(calls)
    ensures WriteFails(calls) ==> WriteFails(base + calls)
  {
    var all := base + calls;
    if calls != [] {
      assert all[|all| - 1] == calls[|calls| - 1] && all[..|all| - 1] == base + calls[..|calls| - 1];
      ZerosMore(base, calls[..|calls| - 1]);
    }
  }

  lemma {:induction false} BlocksMore(base: seq<Answer>, calls: seq<Answer>)
    ensures Blocks(base + calls) >= Blocks(calls)
    ensures ReadFails(calls) ==> ReadFails(base + calls)
  {
    var all := base + calls;
    if calls != [] {
      assert all[|all| - 1] == calls[|calls| - 1] && all[..|all| - 1] == base + calls[..|calls| - 1];
      BlocksMore(base, calls[..|calls| - 1]);
    }
  }

  predicate AllInterrupted(log: seq<Call>) {
    log != [] ==> log[|log| - 1].kind == Writing && Interrupted(log[|log| - 1].answer)
                  && AllInterrupted(log[..|log| - 1])
  }

  /** A write that was repeated when it was interrupted, and what came of it. */
  predicate OnlyWrites(log: seq<Call>, ok: bool, did: nat, quit: bool) {
    if !ok && quit && AllInterrupted(log) then true
    else
      && log != []
      && AllInterrupted(log[..|log| - 1])
      && var c := log[|log| - 1];
         && c.kind == Writing
         && if !ok then Broken(c.answer)
            else if did > 0 then c.answer.result > 0 else WouldBlock(c.answer) || c.answer.result == 0
  }

  lemma InterruptedMore(log: seq<Call>, c: Call)
    requires AllInterrupted(log)
    ensures c.kind == Writing && Interrupted(c.answer) ==> AllInterrupted(log + [c])
    ensures (log + [c])[..|log|] == log && (log + [c])[|log|] == c
  {
  }

  lemma {:induction false} InterruptedLogged(calls: seq<Call>, logged: seq<Call>)
    requires IoGood(calls) && AllInterrupted(logged)
    ensures IoGood(calls + logged) && Idle(calls + logged) == Idle(calls)
  {
    if logged == [] {
      assert calls + logged == calls;
    } else {
      var n := |logged| - 1;
      InterruptedLogged(calls, logged[..n]);
      Logged(calls + logged[..n], logged[n]);
      assert calls + logged == (calls + logged[..n]) + [logged[n]];
    }
  }

  lemma WritesLogged(base: seq<Call>, calls: seq<Call>, logged: seq<Call>, ok: bool, did: nat, quit: bool)
    requires IoGood(calls) && OnlyWrites(logged, ok, did, quit)
    ensures var more := calls + logged;
            && (base + calls) + logged == base + more && IoGoodBefore(more)
            && (ok ==> IoGood(more) && Idle(more) == if did > 0 then 0 else Idle(calls))
            && (!ok ==> IoFails(more) || (quit && IoGood(more)))
  {
    LogsJoin(base, calls, logged);
    if !ok && quit && AllInterrupted(logged) {
      InterruptedLogged(calls, logged);
      Prefixes(calls + logged);
    } else {
      var n := |logged| - 1;
      InterruptedLogged(calls, logged[..n]);
      LastSplits(calls, logged);
      LastWrite(calls + logged[..n], logged[n], ok, did);
    }
  }

  lemma LogsJoin(a: seq<Call>, b: seq<Call>, c: seq<Call>)
    ensures (a + b) + c == a + (b + c)
  {
  }

  lemma LastSplits(calls: seq<Call>, logged: seq<Call>)
    requires logged != []
    ensures calls + logged == (calls + logged[..|logged| - 1]) + [logged[|logged| - 1]]
  {
  }

  lemma LastWrite(before: seq<Call>, c: Call, ok: bool, did: nat)
    requires IoGood(before) && c.kind == Writing
    requires if !ok then Broken(c.answer)
             else if did > 0 then c.answer.result > 0 else WouldBlock(c.answer) || c.answer.result == 0
    ensures var more := before + [c];
            && IoGoodBefore(more)
            && (ok ==> IoGood(more) && Idle(more) == if did > 0 then 0 else Idle(before))
            && (!ok ==> IoFails(more))
  {
    Logged(before, c);
  }

  lemma RefusedMore(base: seq<Call>, log: seq<Call>)
    ensures Refused(log) ==> Refused(base + log)
  {
    if log != [] { assert (base + log)[|base + log| - 1] == log[|log| - 1]; }
  }

  lemma Prefixes(log: seq<Call>)
    requires IoGood(log)
    ensures IoGoodBefore(log)
  {
  }

  /** The last read, if there was one, was not the end of the line, nor brought it enough. */
  predicate LeftWaiting(calls: seq<Answer>, short: bool) {
    calls != [] ==> var a := calls[|calls| - 1]; a.result < 0 || (short && a.data != [])
  }

  /** No read was begun after SIGALRM had come with an earlier one. */
  predicate NoneLate(calls: seq<Answer>) {
    forall k | 0 <= k < |calls| - 1 :: !calls[k].alarm
  }

  lemma OneMore(calls: seq<Answer>, a: Answer)
    ensures (calls + [a])[..|calls|] == calls && (calls + [a])[|calls|] == a
  {
  }

  /** What is sent grows by a prefix of what is left to send. */
  lemma SentMore(s: seq<char>, z: seq<char>, pos: nat, n: nat)
    requires pos <= |z| && n <= |z| - pos
    ensures s + z[..pos] + z[pos..][..n] == s + z[..pos + n]
  {
    assert z[..pos] + z[pos..][..n] == z[..pos + n];
    assert s + z[..pos] + z[pos..][..n] == s + (z[..pos] + z[pos..][..n]);
  }

  /** All writes but perhaps the last one were good. */
  predicate GoodBefore(calls: seq<Answer>) { calls != [] ==> WritesGood(calls[..|calls| - 1]) }

  lemma Associates(base: seq<Answer>, calls: seq<Answer>, a: Answer)
    ensures (base + calls) + [a] == base + (calls + [a])
  {
  }

  lemma WriteCounted(calls: seq<Answer>, a: Answer)
    requires WritesGood(calls)
    ensures var more := calls + [a];
            && GoodBefore(more) && more != [] && (WritesGood(more) <==> !WriteFails(more))
            && (Interrupted(a) ==> WritesGood(more) && Zeros(more) == Zeros(calls))
            && (Broken(a) ==> WriteFails(more))
            && (a.result >= 0 || WouldBlock(a) ==>
                  && Zeros(more) == (if a.result > 0 then 0 else Zeros(calls) + 1)
                  && (WriteFails(more) <==> Zeros(more) >= PATIENCE))
  {
    OneMore(calls, a);
    var more := calls + [a];
    assert more[|more| - 1] == a && more[..|more| - 1] == calls;
    assert Zeros(calls) < PATIENCE;
    if Interrupted(a) {
      assert Zeros(more) == Zeros(calls);
    } else if Broken(a) {
      assert WriteFails(more);
    } else {
      assert Zeros(more) == if a.result > 0 then 0 else Zeros(calls) + 1;
    }
  }

  lemma ReadCounted(calls: seq<Answer>, a: Answer)
    requires ReadsGood(calls)
    ensures var more := calls + [a];
            && more[..|calls|] == calls && (ReadsGood(more) <==> !ReadFails(more))
            && (Interrupted(a) ==> ReadsGood(more) && Blocks(more) == Blocks(calls))
            && (WouldBlock(a) ==> Blocks(more) == Blocks(calls) + 1 && (ReadFails(more) <==> Blocks(more) > 2))
            && (a.result >= 0 ==> Blocks(more) == 0 && (ReadFails(more) <==> a.data == []))
            && (Broken(a) ==> ReadFails(more))
    ensures NoneLate(calls) && (calls != [] ==> !calls[|calls| - 1].alarm) ==> NoneLate(calls + [a])
  {
    OneMore(calls, a);
    var more := calls + [a];
    assert more[|more| - 1] == a && more[..|more| - 1] == calls;
    if NoneLate(calls) && (calls != [] ==> !calls[|calls| - 1].alarm) {
      forall k | 0 <= k < |calls| ensures !(calls + [a])[k].alarm { assert (calls + [a])[k] == calls[k]; }
    }
  }

  class Conn {
    var world: seq<Answer>
    /** fSalarm. */
    var alarmed: bool
    const fterminal: bool
    /** cSmin, the minimum a read of the terminal waits for. */
    var smin: int
    /** Every byte the line has taken, and every byte it has delivered. */
    ghost var sent: seq<char>
    ghost var received: seq<char>
    /** The answers to all calls of write and of read. */
    ghost var writeCalls: seq<Answer>
    ghost var readCalls: seq<Answer>
    /** All system calls. */
    ghost var log: seq<Call>

    constructor (world: seq<Answer>, fterminal: bool)
      ensures this.world == world && sent == [] && received == []
    {
      this.world, this.fterminal := world, fterminal;
      alarmed, smin := false, 1;
      sent, received, writeCalls, readCalls, log := [], [], [], [], [];
    }

    // ---------- system calls ----------

    method Next(ghost kind: Kind) returns (a: Answer)
      requires world != []
      modifies this`world, this`alarmed, this`log
      ensures |world| == |old(world)| - 1 && a == old(world)[0] && log == old(log) + [Call(kind, a)]
      ensures alarmed == (old(alarmed) || a.alarm)
    {
      a := world[0];
      world := world[1..];
      alarmed := alarmed || a.alarm;
      log := log + [Call(kind, a)];
    }

    /** read: at most n bytes, or -1. */
    method Read(n: nat) returns (got: int, bytes: seq<char>, errno: Errno, ghost a: Answer)
      requires world != []
      modifies this`world, this`alarmed, this`received, this`readCalls, this`log
      ensures |world| == |old(world)| - 1 && readCalls == old(readCalls) + [a]
      ensures log == old(log) + [Call(Reading, a)]
      ensures |bytes| <= n && received == old(received) + bytes
      ensures got == (if a.result < 0 then -1 else |bytes|) && errno == a.errno
      ensures bytes == if a.result < 0 then [] else a.data[..Min(n, |a.data|)]
      ensures alarmed == (old(alarmed) || a.alarm)
    {
      var b := Next(Reading);
      a := b;
      errno := b.errno;
      readCalls := readCalls + [b];
      if b.result < 0 {
        return -1, [], errno, a;
      }
      bytes := b.data[..Min(n, |b.data|)];
      got := |bytes|;
      received := received + bytes;
    }

    /** write: a prefix of z is taken, or none. */
    method Write(z: seq<char>, ghost kind: Kind) returns (did: int, errno: Errno, ghost a: Answer)
      requires world != []
      modifies this`world, this`alarmed, this`sent, this`writeCalls, this`log
      ensures |world| == |old(world)| - 1 && writeCalls == old(writeCalls) + [a]
      ensures log == old(log) + [Call(kind, a)]
      ensures did == (if a.result < 0 then -1 else Min(a.result, |z|)) && errno == a.errno
      ensures sent == if did < 0 then old(sent) else old(sent) + z[..did]
    {
      var b := Next(kind);
      a := b;
      errno := b.errno;
      writeCalls := writeCalls + [b];
      did := if b.result < 0 then -1 else Min(b.result, |z|);
      if did >= 0 { sent := sent + z[..did]; }
    }

    /** fsblock; calls are those before it. */
    method Block(ghost base: seq<Call>, ghost calls: seq<Call>) returns (ok: bool, ghost more: seq<Call>)
      requires IoGood(calls) && log == base + calls
      modifies this`world, this`alarmed, this`log
      ensures |world| <= |old(world)| && log == base + more && IoGoodBefore(more)
      ensures ok ==> IoGood(more) && Idle(more) == Idle(calls)
      ensures !ok ==> Refused(more) || (world == [] && IoGood(more))
    {
      more := calls;
      ok := world != [];
      if ok {
        var a := Next(Setting);
        Logged(more, Call(Setting, a));
        LogGrows(base, more, Call(Setting, a));
        more := more + [Call(Setting, a)];
        ok := a.result >= 0;
      }
    }

    // ---------- fsysdep_conn_io ----------

    /** An unblocked read, repeated when a signal interrupts it; calls are those before it. */
    method ReadSome(n: nat, ghost base: seq<Call>, ghost calls: seq<Call>)
      returns (ok: bool, bytes: seq<char>, ghost more: seq<Call>)
      requires IoGood(calls) && log == base + calls
      modifies this`world, this`alarmed, this`received, this`readCalls, this`log
      ensures |bytes| <= n && received == old(received) + bytes
      ensures |world| <= |old(world)| && (ok ==> |world| < |old(world)|)
      ensures log == base + more && IoGoodBefore(more)
      ensures ok ==> IoGood(more) && Idle(more) == Idle(calls)
      ensures !ok ==> IoFails(more) || (world == [] && IoGood(more))
    {
      more := calls;
      while true
        invariant |world| <= |old(world)| && received == old(received)
        invariant log == base + more && IoGood(more) && Idle(more) == Idle(calls)
        decreases |world|
      {
        if world == [] {
          return false, [], more;
        }
        var again;
        again, ok, bytes, more := ReadOnce(n, base, more);
        if !again {
          return;
        }
      }
    }

    /** One such read; it is made again if it was interrupted. */
    method ReadOnce(n: nat, ghost base: seq<Call>, ghost calls: seq<Call>)
      returns (again: bool, ok: bool, bytes: seq<char>, ghost more: seq<Call>)
      requires world != [] && IoGood(calls) && log == base + calls
      modifies this`world, this`alarmed, this`received, this`readCalls, this`log
      ensures |bytes| <= n && received == old(received) + bytes && |world| < |old(world)|
      ensures log == base + more && IoGoodBefore(more)
      ensures again || ok ==> IoGood(more) && Idle(more) == Idle(calls)
      ensures more != [] && (again <==> Interrupted(more[|more| - 1].answer))
      ensures again ==> bytes == []
      ensures !again && !ok ==> IoFails(more)
    {
      var got, errno;
      ghost var a;
      got, bytes, errno, a := Read(n);
      Logged(calls, Call(Reading, a));
      LogGrows(base, calls, Call(Reading, a));
      more := calls + [Call(Reading, a)];
      again, ok := got < 0 && errno == EINTR, got >= 0 || errno == EAGAIN;
    }

    /** A write, repeated when a signal interrupts it; calls are the writes before it. */
    method WriteSome(z: seq<char>, ghost base: seq<Answer>, ghost calls: seq<Answer>)
      returns (ok: bool, did: nat, ghost more: seq<Answer>, ghost logged: seq<Call>)
      requires z != [] && WritesGood(calls) && writeCalls == base + calls
      modifies this`world, this`alarmed, this`sent, this`writeCalls, this`log
      ensures did <= |z| && sent == old(sent) + z[..did]
      ensures |world| <= |old(world)| && (ok ==> |world| < |old(world)|)
      ensures writeCalls == base + more && GoodBefore(more)
      ensures ok ==> more != [] && Zeros(more) == (if did > 0 then 0 else Zeros(calls) + 1)
                     && (WritesGood(more) <==> Zeros(more) < PATIENCE)
      ensures !ok ==> did == 0 && (WriteFails(more) || (world == [] && WritesGood(more)))
      ensures log == old(log) + logged && OnlyWrites(logged, ok, did, world == [])
    {
      more, logged := calls, [];
      while true
        invariant writeCalls == base + more && WritesGood(more) && Zeros(more) == Zeros(calls)
        invariant sent == old(sent) && |world| <= |old(world)|
        invariant log == old(log) + logged && AllInterrupted(logged)
        decreases |world|
      {
        if world == [] {
          return false, 0, more, logged;
        }
        var again;
        again, ok, did, more, logged := WriteOnce(z, base, more, old(log), logged);
        if !again {
          return;
        }
      }
    }

    /** One such write; it is made again if it was interrupted. */
    method WriteOnce(z: seq<char>, ghost base: seq<Answer>, ghost calls: seq<Answer>,
                     ghost before: seq<Call>, ghost log0: seq<Call>)
      returns (again: bool, ok: bool, did: nat, ghost more: seq<Answer>, ghost logged: seq<Call>)
      requires world != [] && z != [] && WritesGood(calls) && writeCalls == base + calls
      requires log == before + log0 && AllInterrupted(log0)
      modifies this`world, this`alarmed, this`sent, this`writeCalls, this`log
      ensures did <= |z| && sent == old(sent) + z[..did] && |world| < |old(world)|
      ensures writeCalls == base + more && GoodBefore(more) && more != []
      ensures log == before + logged
      ensures again ==> did == 0 && WritesGood(more) && Zeros(more) == Zeros(calls) && AllInterrupted(logged)
      ensures !again && ok ==> Zeros(more) == (if did > 0 then 0 else Zeros(calls) + 1)
                               && (WritesGood(more) <==> Zeros(more) < PATIENCE)
      ensures !again && !ok ==> did == 0 && WriteFails(more)
      ensures !again ==> OnlyWrites(logged, ok, did, world == [])
    {
      var d, errno;
      ghost var a;
      d, errno, a := Write(z, Writing);
      WriteCounted(calls, a);
      Associates(base, calls, a);
      LogGrows(before, log0, Call(Writing, a));
      InterruptedMore(log0, Call(Writing, a));
      more, logged := calls + [a], log0 + [Call(Writing, a)];
      again, ok, did := d < 0 && errno == EINTR, d >= 0 || errno == EAGAIN, if d >= 0 then d else 0;
    }

    /** Nothing could be written: wait, or write one byte with an alarm set. Ten such writes in a
        row that take nothing mean that the line is disconnected. */
    method Wait(z: seq<char>, zeros: nat, ghost base: seq<Call>, ghost calls: seq<Call>)
      returns (ok: bool, did: nat, czero: nat, ghost more: seq<Call>)
      requires z != [] && IoGood(calls) && log == base + calls && zeros == Idle(calls)
      modifies this`world, this`alarmed, this`sent, this`writeCalls, this`log
      ensures did <= |z| && sent == old(sent) + z[..did]
      ensures |world| <= |old(world)|
      ensures log == base + more && IoGoodBefore(more)
      ensures ok ==> IoGood(more) && czero == Idle(more)
      ensures !ok ==> IoFails(more) || (world == [] && IoGood(more))
      ensures old(world) != [] && (old(world)[0].result >= 0 || old(world)[0].errno == EINTR) ==>
                ok && did == 0 && |world| == |old(world)| - 1
    {
      ok, did, czero, more := false, 0, zeros, calls;
      if world == [] {
        return;
      }
      var c := Next(Selecting);
      Logged(more, Call(Selecting, c));
      LogGrows(base, more, Call(Selecting, c));
      more := more + [Call(Selecting, c)];
      if c.result >= 0 || c.errno == EINTR {
        return true, 0, zeros, more;
      }
      var blocked;
      blocked, more := Block(base, more);
      if !blocked || world == [] {
        return;
      }
      var d, errno;
      ghost var a;
      d, errno, a := Write(z[..1], Timed);
      Logged(more, Call(Timed, a));
      LogGrows(base, more, Call(Timed, a));
      more := more + [Call(Timed, a)];
      if d < 0 {
        ok := errno == EINTR;
      } else if d == 0 {
        czero := zeros + 1;
        ok := czero < PATIENCE;
      } else {
        assert z[..1][..d] == z[..d];
        ok, did, czero := true, d, 0;
      }
    }

    /** Reads and writes until either everything is written or the read buffer, cread characters
        of buf from at on, is full. This fails only if its last call failed or a quit signal came. */
    method Io(z: seq<char>, buf: array<char>, at: nat, cread: nat)
      returns (ok: bool, pcwrite: nat, pcread: nat, ghost calls: seq<Call>)
      requires at + cread <= buf.Length
      modifies this, buf
      ensures pcwrite <= |z| && sent == old(sent) + z[..pcwrite]
      ensures pcread <= cread && received == old(received) + buf[at..at + pcread]
      ensures forall k | 0 <= k < buf.Length && !(at <= k < at + pcread) :: buf[k] == old(buf[k])
      ensures ok ==> pcread == cread || pcwrite == |z|
      ensures log == old(log) + calls && IoGoodBefore(calls)
      ensures ok ==> IoGood(calls)
      ensures !ok ==> IoFails(calls) || world == []
      ensures |world| <= |old(world)|
    {
      var czero := 0;
      pcwrite, pcread, calls := 0, 0, [];
      while true
        invariant pcwrite <= |z| && sent == old(sent) + z[..pcwrite]
        invariant pcread <= cread && received == old(received) + buf[at..at + pcread]
        invariant forall k | 0 <= k < buf.Length && !(at <= k < at + pcread) :: buf[k] == old(buf[k])
        invariant log == old(log) + calls && IoGood(calls) && czero == Idle(calls)
        invariant |world| <= |old(world)|
        decreases |world|
      {
        ok, pcread, calls := ReadRound(buf, at, pcread, cread, old(log), calls, old(received));
        if !ok || pcread == cread || pcwrite == |z| {
          return;
        }
        var did;
        ok, did, czero, calls := WriteRound(z[pcwrite..], czero, old(log), calls);
        SentMore(old(sent), z, pcwrite, did);
        pcwrite := pcwrite + did;
        if !ok || pcwrite == |z| {
          return;
        }
      }
    }

    /** The unblocked read of a round. */
    method ReadRound(buf: array<char>, at: nat, n: nat, cread: nat, ghost base: seq<Call>, ghost calls: seq<Call>,
                     ghost before: seq<char>) returns (ok: bool, m: nat, ghost more: seq<Call>)
      requires n <= cread && at + cread <= buf.Length
      requires IoGood(calls) && log == base + calls && received == before + buf[at..at + n]
      modifies this`world, this`alarmed, this`received, this`readCalls, this`log, buf
      ensures n <= m <= cread && received == before + buf[at..at + m]
      ensures forall k | 0 <= k < buf.Length && !(at + n <= k < at + m) :: buf[k] == old(buf[k])
      ensures |world| <= |old(world)| && (ok ==> |world| < |old(world)|)
      ensures log == base + more && IoGoodBefore(more)
      ensures ok ==> IoGood(more) && Idle(more) == Idle(calls)
      ensures !ok ==> IoFails(more) || (world == [] && IoGood(more))
    {
      m := n;
      ok, more := Block(base, calls);
      if !ok {
        return;
      }
      var bytes;
      ok, bytes, more := ReadSome(cread - n, base, more);
      m := Store(buf, at, n, bytes);
    }

    /** The write of a round, and the wait if it took nothing. */
    method WriteRound(z: seq<char>, zeros: nat, ghost base: seq<Call>, ghost calls: seq<Call>)
      returns (ok: bool, did: nat, czero: nat, ghost more: seq<Call>)
      requires z != [] && IoGood(calls) && log == base + calls && zeros == Idle(calls)
      modifies this`world, this`alarmed, this`sent, this`writeCalls, this`log
      ensures did <= |z| && sent == old(sent) + z[..did] && |world| <= |old(world)|
      ensures log == base + more && IoGoodBefore(more)
      ensures ok ==> IoGood(more) && czero == Idle(more)
      ensures !ok ==> IoFails(more) || (world == [] && IoGood(more))
    {
      ghost var writes, logged;
      ok, did, writes, logged := WriteSome(z, writeCalls, []);
      czero := zeros;
      WritesLogged(base, calls, logged, ok, did, world == []);
      more := calls + logged;
      if ok {
        if did > 0 {
          czero := 0;
        } else {
          ok, did, czero, more := Wait(z, czero, base, more);
        }
      }
    }

    /** What has been read goes behind what was read before. */
    method Store(buf: array<char>, at: nat, n: nat, bytes: seq<char>) returns (m: nat)
      requires at + n + |bytes| <= buf.Length
      modifies buf
      ensures m == n + |bytes| && buf[at..at + m] == old(buf[at..at + n]) + bytes
      ensures forall k | 0 <= k < buf.Length && !(at + n <= k < at + m) :: buf[k] == old(buf[k])
    {
      forall k | 0 <= k < |bytes| { buf[at + n + k] := bytes[k]; }
      m := n + |bytes|;
    }

    // ---------- fsysdep_conn_write ----------

    /** Blocking writes. This fails when a write fails or is the tenth in a row to take nothing, when
        a quit signal has come, and when the line cannot be set to blocking; then nothing is written. */
    method WriteAll(z: seq<char>) returns (ok: bool, ghost did: nat, ghost calls: seq<Answer>)
      modifies this`world, this`alarmed, this`sent, this`writeCalls, this`log
      ensures did <= |z| && sent == old(sent) + z[..did]
      ensures writeCalls == old(writeCalls) + calls && GoodBefore(calls)
      ensures ok ==> did == |z| && WritesGood(calls)
      ensures !ok ==> WriteFails(calls) || Refused(log) || world == []
      ensures |world| <= |old(world)|
    {
      var czero, pos: nat := 0, 0;
      did, calls := 0, [];
      ghost var first, logged;
      ok, first := Block(log, []);
      if !ok {
        RefusedMore(old(log), first);
        return;
      }
      while pos < |z|
        invariant pos <= |z| && did == pos && sent == old(sent) + z[..pos]
        invariant writeCalls == old(writeCalls) + calls && WritesGood(calls) && czero == Zeros(calls)
        invariant |world| <= |old(world)|
        decreases |world|, |z| - pos
      {
        var d;
        ok, d, calls, logged := WriteSome(z[pos..], old(writeCalls), calls);
        SentMore(old(sent), z, pos, d);
        pos, did := pos + d, did + d;
        if !ok {
          return;
        }
        if d > 0 {
          czero := 0;
        } else {
          czero := czero + 1;
          if czero >= PATIENCE {
            ok := false;
            return;
          }
        }
      }
      ok := true;
    }

    // ---------- fsysdep_conn_read ----------

    /** The terminal is to wait for as many characters as are needed, up to 127. */
    method NeedMin(c: int) returns (ok: bool)
      modifies this`world, this`alarmed, this`smin, this`log
      ensures |world| <= |old(world)| && (!fterminal ==> ok && alarmed == old(alarmed))
      ensures !ok ==> Refused(log) || world == []
      ensures ok && fterminal ==> smin == Min(c, 127)
    {
      var csetmin := Min(c, 127);
      if !fterminal || smin == csetmin {
        return true;
      }
      while true
        invariant |world| <= |old(world)|
        decreases |world|
      {
        if world == [] {
          return false;
        }
        var a := Next(Setting);
        if a.result >= 0 {
          smin := csetmin;
          return true;
        }
        if a.errno != EINTR {
          return false;
        }
        if alarmed { alarmed := false; }
      }
    }

    /** One read, behind what was read before; calls are the earlier ones. */
    method ReadInto(buf: array<char>, at: nat, n: nat, cwant: nat, ghost base: seq<Answer>,
                    ghost calls: seq<Answer>, ghost before: seq<char>)
      returns (got: int, errno: Errno, m: nat, ghost more: seq<Answer>)
      requires world != [] && n <= cwant && at + cwant <= buf.Length
      requires ReadsGood(calls) && readCalls == base + calls && received == before + buf[at..at + n]
      modifies this`world, this`alarmed, this`received, this`readCalls, this`log, buf
      ensures |world| < |old(world)| && readCalls == base + more && m == (if got < 0 then n else n + got) <= cwant
      ensures received == before + buf[at..at + m]
      ensures forall k | 0 <= k < buf.Length && !(at + n <= k < at + m) :: buf[k] == old(buf[k])
      ensures more != [] && more[..|more| - 1] == calls && (ReadsGood(more) <==> !ReadFails(more))
      ensures got > 0 ==> ReadsGood(more) && Blocks(more) == 0
      ensures got == 0 && n < cwant ==> ReadFails(more)
      ensures got < 0 ==> match errno
                          case EINTR => ReadsGood(more) && Blocks(more) == Blocks(calls)
                          case EAGAIN => Blocks(more) == Blocks(calls) + 1 && (ReadFails(more) <==> Blocks(more) > 2)
                          case EIO => ReadFails(more)
      ensures alarmed == (old(alarmed) || more[|more| - 1].alarm)
      ensures got < 0 <==> more[|more| - 1].result < 0
      ensures NoneLate(calls) && (calls != [] ==> !calls[|calls| - 1].alarm) ==> NoneLate(more)
    {
      var bytes;
      ghost var a;
      got, bytes, errno, a := Read(cwant - n);
      ReadCounted(calls, a);
      Associates(base, calls, a);
      more := calls + [a];
      m := Store(buf, at, n, bytes);
    }

    /** Reads at least cmin bytes into cwant characters of buf from at on, unless the time is over. */
    method ReadAtLeast(buf: array<char>, at: nat, cwant: nat, cmin: nat, ctimeout: int)
      returns (ok: bool, pclen: nat, ghost why: Stop, ghost calls: seq<Answer>)
      requires at + cwant <= buf.Length && cmin <= cwant
      modifies this, buf
      ensures sent == old(sent) && writeCalls == old(writeCalls) && readCalls == old(readCalls) + calls
      ensures pclen <= cwant && received == old(received) + buf[at..at + pclen]
      ensures forall k | 0 <= k < buf.Length && !(at <= k < at + pclen) :: buf[k] == old(buf[k])
      ensures ok <==> why == Enough || why == TimeOver
      ensures calls != [] ==> ReadsGood(calls[..|calls| - 1])
      ensures why == Enough ==> pclen >= cmin && ReadsGood(calls)
      ensures why == TimeOver ==> ctimeout <= 0 || alarmed
      ensures why == TimeOver ==> LeftWaiting(calls, pclen < cmin)
      ensures why == Hangup ==> ReadFails(calls) || cwant == 0
      ensures why == Quit ==> world == []
      ensures why == NotSet ==> Refused(log) || world == []
      ensures ctimeout <= 0 ==> ok && pclen == 0 && calls == []
      ensures !fterminal ==> NoneLate(calls)
    {
      pclen, why, calls := 0, TimeOver, [];
      if ctimeout <= 0 {
        return true, 0, TimeOver, [];
      }
      ghost var first;
      ok, first := Block(log, []);
      if !ok {
        RefusedMore(old(log), first);
        return false, 0, NotSet, [];
      }
      alarmed := false;
      var cwouldblock := 0;
      while true
        invariant sent == old(sent) && writeCalls == old(writeCalls) && pclen <= cwant
        invariant readCalls == old(readCalls) + calls
        invariant received == old(received) + buf[at..at + pclen]
        invariant forall k | 0 <= k < buf.Length && !(at <= k < at + pclen) :: buf[k] == old(buf[k])
        invariant (pclen == 0 || pclen < cmin) && LeftWaiting(calls, pclen < cmin)
        invariant ReadsGood(calls) && cwouldblock == Blocks(calls)
        invariant !fterminal ==> NoneLate(calls) && (calls != [] && calls[|calls| - 1].alarm ==> alarmed)
        decreases |world|
      {
        ok := NeedMin(cmin - pclen);
        if !ok {
          return false, pclen, NotSet, calls;
        }
        if world == [] {
          return false, pclen, Quit, calls;
        }
        if alarmed {
          return true, pclen, TimeOver, calls;
        }
        var got, errno;
        got, errno, pclen, calls := ReadInto(buf, at, pclen, cwant, old(readCalls), calls, old(received));
        if got < 0 && alarmed {
          return true, pclen, TimeOver, calls;
        }
        if got < 0 && world == [] {
          return false, pclen, Quit, calls;
        }
        if got > 0 {
          cwouldblock := 0;
        } else if got < 0 && errno == EAGAIN && cwouldblock < 2 {
          cwouldblock := cwouldblock + 1;
        } else if !(got < 0 && errno == EINTR) {
          return false, pclen, Hangup, calls;
        }
        if pclen >= cmin {
          return true, pclen, Enough, calls;
        }
      }
    }
  }
}
