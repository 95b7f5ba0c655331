/** The circular receive buffer of prot.c, the connection that fills it, and the drain at the start
    of fsysdep_cu_init (unix/cusub.c). */
module Ring {
  import opened Connection

  const CRECBUFLEN: nat := 16384

  datatype Outcome = Done | Failed | NoRoom

  /** How much can be read at once: up to the end of the buffer or to the gap before start. */
  function Room(start: nat, end: nat): (crec: int)
    requires start < CRECBUFLEN && end < CRECBUFLEN
    ensures 0 <= crec < CRECBUFLEN
  {
    if end < start then start - end - 1
    else if start == 0 then CRECBUFLEN - end - 1 else CRECBUFLEN - end
  }

  /** What is queued. */
  function Queue(buf: seq<char>, start: nat, end: nat): (q: seq<char>)
    requires |buf| == CRECBUFLEN && start < CRECBUFLEN && end < CRECBUFLEN
    ensures start == end <==> q == []
    ensures |q| < CRECBUFLEN
  {
    if start <= end then buf[start..end] else buf[start..CRECBUFLEN] + buf[0..end]
  }

  lemma SameStretch(was: seq<char>, now: seq<char>, lo: nat, hi: nat)
    requires lo <= hi <= |was| == |now| && forall k | lo <= k < hi :: now[k] == was[k]
    ensures now[lo..hi] == was[lo..hi]
  {
  }

  lemma Joined(s: seq<char>, lo: nat, mid: nat, hi: nat)
    requires lo <= mid <= hi <= |s|
    ensures s[lo..hi] == s[lo..mid] + s[mid..hi]
  {
  }

  lemma Regroup(a: seq<char>, b: seq<char>, c: seq<char>)
    ensures a + (b + c) == (a + b) + c
  {
  }

  /** Bytes stored in the room at end join the queue at its end. */
  lemma Enqueued(was: seq<char>, now: seq<char>, start: nat, end: nat, n: nat, bytes: seq<char>)
    requires |was| == |now| == CRECBUFLEN && start < CRECBUFLEN && end < CRECBUFLEN
    requires n <= Room(start, end) && now[end..end + n] == bytes
    requires forall k | 0 <= k < CRECBUFLEN && !(end <= k < end + n) :: now[k] == was[k]
    ensures Queue(now, start, (end + n) % CRECBUFLEN) == Queue(was, start, end) + bytes
  {
    var next := (end + n) % CRECBUFLEN;
    if end < start {
      assert next == end + n;
      EnqueuedBefore(was, now, start, end, next, bytes);
    } else {
      EnqueuedAfter(was, now, start, end, end + n, bytes);
      assert next == if end + n < CRECBUFLEN then end + n else 0;
    }
  }

  lemma EnqueuedAfter(was: seq<char>, now: seq<char>, start: nat, end: nat, next: nat, bytes: seq<char>)
    requires |was| == |now| == CRECBUFLEN && start <= end <= next <= CRECBUFLEN && end < CRECBUFLEN
    requires (next == CRECBUFLEN ==> start > 0) && now[end..next] == bytes
    requires forall k | 0 <= k < CRECBUFLEN && !(end <= k < next) :: now[k] == was[k]
    ensures Queue(now, start, if next < CRECBUFLEN then next else 0) == Queue(was, start, end) + bytes
  {
    SameStretch(was, now, start, end);
    Joined(now, start, end, next);
    if next == CRECBUFLEN { NothingMore(now, start); }
  }

  lemma NothingMore(s: seq<char>, start: nat)
    requires |s| == CRECBUFLEN && 0 < start < CRECBUFLEN
    ensures Queue(s, start, 0) == s[start..CRECBUFLEN]
  {
    assert s[0..0] == [];
  }

  lemma EnqueuedBefore(was: seq<char>, now: seq<char>, start: nat, end: nat, next: nat, bytes: seq<char>)
    requires |was| == |now| == CRECBUFLEN && end <= next < start < CRECBUFLEN && now[end..next] == bytes
    requires forall k | 0 <= k < CRECBUFLEN && !(end <= k < next) :: now[k] == was[k]
    ensures Queue(now, start, next) == Queue(was, start, end) + bytes
  {
    SameStretch(was, now, start, CRECBUFLEN);
    SameStretch(was, now, 0, end);
    Joined(now, 0, end, next);
    Regroup(now[start..CRECBUFLEN], now[0..end], bytes);
  }

  /** The contiguous stretch at the head of the queue, or a part of it. */
  lemma Dequeued(buf: seq<char>, start: nat, end: nat, c: nat)
    requires |buf| == CRECBUFLEN && start < CRECBUFLEN && end < CRECBUFLEN && start != end
    requires 0 < c <= if end > start then end - start else CRECBUFLEN - start
    ensures Queue(buf, start, end) == buf[start..start + c] + Queue(buf, (start + c) % CRECBUFLEN, end)
  {
    var next := (start + c) % CRECBUFLEN;
    if start < end {
      assert next == start + c;
      Joined(buf, start, next, end);
    } else if start + c < CRECBUFLEN {
      assert next == start + c;
      Rewrapped(buf, start, next, end);
    } else {
      assert next == 0;
    }
  }

  lemma Rewrapped(buf: seq<char>, start: nat, next: nat, end: nat)
    requires |buf| == CRECBUFLEN && end < start <= next < CRECBUFLEN
    ensures Queue(buf, start, end) == buf[start..next] + Queue(buf, next, end)
  {
    Joined(buf, start, next, CRECBUFLEN);
    Regroup(buf[start..next], buf[next..CRECBUFLEN], buf[0..end]);
  }

  /** How many more contiguous stretches can be filled before there is no room. */
  function Stretches(start: nat, end: nat): (n: nat)
    requires start < CRECBUFLEN && end < CRECBUFLEN
    ensures n == 0 <==> Room(start, end) == 0
  {
    if Room(start, end) == 0 then 0 else if end < start || start <= 1 then 1 else 2
  }

  lemma FilledStretch(start: nat, end: nat)
    requires start < CRECBUFLEN && end < CRECBUFLEN && Room(start, end) > 0
    ensures Stretches(start, (end + Room(start, end)) % CRECBUFLEN) == Stretches(start, end) - 1
  {
  }

  /** What ends a call of fconn_io, or refuses a setting of the line. */
  predicate Down(log: seq<Call>) { IoFails(log) || Refused(log) }

  /** The last write failed or took nothing. */
  predicate TookNothing(calls: seq<Answer>) { calls != [] && calls[|calls| - 1].result <= 0 }

  lemma Split(q: seq<char>, gone: nat, bytes: seq<char>, rest: seq<char>)
    requires gone <= |q| && q[gone..] == bytes + rest
    ensures gone + |bytes| <= |q| && q[gone..gone + |bytes|] == bytes && q[gone + |bytes|..] == rest
    ensures forall n | 0 <= n <= |bytes| :: q[gone..gone + n] == bytes[..n]
  {
    assert q[gone..gone + |bytes|] == q[gone..][..|bytes|] == bytes;
    assert q[gone + |bytes|..] == q[gone..][|bytes|..] == rest;
    forall n | 0 <= n <= |bytes| ensures q[gone..gone + n] == bytes[..n] {
      assert q[gone..gone + n] == q[gone..][..n];
    }
  }

  lemma MoreOf(s: seq<char>, q: seq<char>, gone: nat, bytes: seq<char>, n: nat)
    requires gone + n <= |q| && n <= |bytes| && q[gone..gone + n] == bytes[..n]
    ensures s + q[..gone] + bytes[..n] == s + q[..gone + n]
  {
    Joined(q, 0, gone, gone + n);
    Regroup(s, q[..gone], bytes[..n]);
  }

  class Prot {
    const conn: Conn
    const buf: array<char>
    var start: nat
    var end: nat
    /** Every byte handed to a caller. */
    ghost var taken: seq<char>

    constructor (conn: Conn)
      requires conn.received == []
      ensures Valid() && fresh(buf) && this.conn == conn && Contents() == [] && taken == []
    {
      this.conn := conn;
      buf := new char[CRECBUFLEN];
      start, end := 0, 0;
      taken := [];
    }

    ghost predicate Indices()
      reads this
    {
      buf.Length == CRECBUFLEN && start < CRECBUFLEN && end < CRECBUFLEN
    }

    ghost function Contents(): seq<char>
      requires Indices()
      reads this, buf
    {
      Queue(buf[..], start, end)
    }

    /** First in, first out: what the connection delivered was handed out or is queued, in order. */
    ghost predicate Valid()
      reads this, buf, conn
    {
      Indices() && conn.received == taken + Contents()
    }

    /** n bytes that the connection stored at end are queued. */
    method Advance(n: nat, ghost was: seq<char>, ghost before: seq<char>)
      requires Indices() && n <= Room(start, end) && |was| == CRECBUFLEN
      requires forall k | 0 <= k < CRECBUFLEN && !(end <= k < end + n) :: buf[k] == was[k]
      requires before == taken + Queue(was, start, end)
      requires conn.received == before + buf[end..end + n]
      modifies this`end
      ensures Valid() && end == (old(end) + n) % CRECBUFLEN
    {
      ghost var now, bytes := buf[..], buf[end..end + n];
      assert now[end..end + n] == bytes;
      Enqueued(was, now, start, end, n, bytes);
      Regroup(taken, Queue(was, start, end), bytes);
      end := (end + n) % CRECBUFLEN;
    }

    /** fsend_data: everything is sent once, in order, with at most two calls of fconn_io and one of
        fconn_write. */
    method SendData(z: seq<char>, doRead: bool) returns (ok: bool, ghost ios: nat, ghost writes: nat)
      requires Valid()
      modifies this`end, buf, conn
      ensures Indices() && taken == old(taken) && start == old(start)
      ensures exists n | 0 <= n <= |z| :: conn.sent == old(conn.sent) + z[..n]
      ensures ok ==> Valid() && conn.sent == old(conn.sent) + z
      ensures !ok ==> Down(conn.log) || (writes == 1 && WriteFails(conn.writeCalls)) || conn.world == []
      ensures ios <= 2 && writes <= 1 && (doRead && writes == 1 ==> Room(start, end) == 0)
      ensures !doRead ==> conn.received == old(conn.received)
    {
      ios, writes := 0, 0;
      ghost var did: nat := 0;
      ghost var calls;
      if !doRead {
        ok, did, calls := conn.WriteAll(z);
        writes := 1;
        ZerosMore(old(conn.writeCalls), calls);
        return;
      }
      var pos: nat := 0;
      while pos < |z|
        invariant Valid() && taken == old(taken) && start == old(start)
        invariant pos <= |z| && conn.sent == old(conn.sent) + z[..pos]
        invariant ios + (if pos < |z| then Stretches(start, end) else 0) <= 2
        invariant writes == 0
        decreases |z| - pos, Stretches(start, end)
      {
        var crec := Room(start, end);
        if crec == 0 {
          ghost var before := conn.writeCalls;
          ok, did, calls := conn.WriteAll(z[pos..]);
          writes := 1;
          ZerosMore(before, calls);
          SentMore(old(conn.sent), z, pos, did);
          return;
        }
        ok, pos := SendSome(z, pos, old(conn.sent));
        ios := ios + 1;
        if !ok {
          return;
        }
      }
      ok := true;
    }

    /** One call of fconn_io: either everything is sent or a stretch of the buffer is filled. */
    method SendSome(z: seq<char>, pos: nat, ghost before: seq<char>) returns (ok: bool, next: nat)
      requires Valid() && pos < |z| && Room(start, end) > 0
      requires conn.sent == before + z[..pos]
      modifies this`end, buf, conn
      ensures pos <= next <= |z| && conn.sent == before + z[..next] && Indices()
      ensures !ok ==> Down(conn.log) || conn.world == []
      ensures ok ==> Valid() && (next == |z| || Stretches(start, end) == Stretches(start, old(end)) - 1)
    {
      var crec := Room(start, end);
      ghost var was, delivered := buf[..], conn.received;
      var csent, n;
      ghost var calls;
      ok, csent, n, calls := conn.Io(z[pos..], buf, end, crec);
      IdleMore(old(conn.log), calls);
      SentMore(before, z, pos, csent);
      next := pos + csent;
      if ok {
        if n == crec { FilledStretch(start, end); }
        Advance(n, was, delivered);
      }
    }

    /** freceive_data. */
    method ReceiveData(need: nat, ctimeout: int) returns (r: Outcome, crec: nat)
      requires Valid()
      modifies this`end, buf, conn
      ensures Indices() && taken == old(taken) && start == old(start) && conn.sent == old(conn.sent)
      ensures r == NoRoom <==> Room(start, old(end)) == 0
      ensures r == Failed ==> ReadFails(conn.readCalls) || Refused(conn.log) || conn.world == []
      ensures r == Done ==> Valid() && old(Contents()) <= Contents()
                            && |Contents()| == |old(Contents())| + crec
                            && (crec >= Min(need, Room(start, old(end))) || ctimeout <= 0 || conn.alarmed)
    {
      var cread := Room(start, end);
      if cread == 0 {
        return NoRoom, 0;
      }
      ghost var was, before, queued := buf[..], conn.received, Contents();
      var ok;
      ghost var why, calls;
      ghost var earlier := conn.readCalls;
      ok, crec, why, calls := conn.ReadAtLeast(buf, end, cread, Min(need, cread), ctimeout);
      BlocksMore(earlier, calls);
      if !ok {
        return Failed, crec;
      }
      Advance(crec, was, before);
      assert taken + Contents() == taken + queued + buf[old(end)..old(end) + crec];
      assert Contents() == (taken + Contents())[|taken|..];
      r := Done;
    }

    /** breceive_char: the next byte, -1 on timeout, -2 on error. There is always room. */
    method ReceiveChar(ctimeout: int) returns (b: int)
      requires Valid()
      modifies this, buf, conn
      ensures Indices() && conn.sent == old(conn.sent) && -2 <= b
      ensures b == -2 || Valid()
      ensures b < 0 ==> taken == old(taken) && old(Contents()) == []
      ensures b == -1 ==> ctimeout <= 0 || conn.alarmed
      ensures b == -2 ==> ReadFails(conn.readCalls) || Refused(conn.log) || conn.world == []
      ensures old(Contents()) != [] ==> b == old(Contents())[0] as int
      ensures b >= 0 ==> old(taken) < taken && |taken| == |old(taken)| + 1 && b == taken[|taken| - 1] as int
    {
      if start == end {
        var r, crec := ReceiveData(1, ctimeout);
        assert r != NoRoom;
        if r == Failed {
          return -2;
        }
        if crec == 0 {
          return -1;
        }
      }
      b := TakeChar();
    }

    method TakeChar() returns (b: int)
      requires Valid() && start != end
      modifies this
      ensures Valid() && b >= 0 && old(taken) < taken && |taken| == |old(taken)| + 1
      ensures b == old(Contents())[0] as int
      ensures b == taken[|taken| - 1] as int
    {
      Dequeued(buf[..], start, end, 1);
      var c := buf[start];
      ghost var first := buf[..][start..start + 1];
      assert first == [c];
      start := (start + 1) % CRECBUFLEN;
      Regroup(taken, first, Contents());
      taken := taken + [c];
      b := c as int;
    }

    /** The start of fsysdep_cu_init: what is queued is written out, stretch by stretch. */
    method Drain(out: Conn) returns (ok: bool)
      requires Valid() && out != conn
      modifies this, out
      ensures ok ==> Valid() && Contents() == [] && out.sent == old(out.sent) + old(Contents())
      ensures ok ==> taken == old(taken) + old(Contents())
      ensures exists n | 0 <= n <= |old(Contents())| :: out.sent == old(out.sent) + old(Contents())[..n]
      ensures !ok ==> TookNothing(out.writeCalls) || out.world == []
    {
      ghost var shown, queued := out.sent, Contents();
      assert out.sent == shown + queued[..0];
      ghost var gone: nat := 0;
      while end != start
        invariant Valid() && gone <= |queued| && Contents() == queued[gone..]
        invariant out.sent == shown + queued[..gone] && taken == old(taken) + queued[..gone]
        decreases |Contents()|
      {
        ok, gone := DrainStretch(out, queued, gone, shown, old(taken));
        if !ok {
          return;
        }
      }
      ok := true;
    }

    method DrainStretch(out: Conn, ghost queued: seq<char>, ghost gone: nat,
                        ghost shown: seq<char>, ghost before: seq<char>)
      returns (ok: bool, ghost went: nat)
      requires Valid() && out != conn && start != end
      requires gone <= |queued| && Contents() == queued[gone..]
      requires out.sent == shown + queued[..gone] && taken == before + queued[..gone]
      modifies this, out
      ensures gone <= went <= |queued| && out.sent == shown + queued[..went]
      ensures !ok ==> TookNothing(out.writeCalls) || out.world == []
      ensures ok ==> Valid() && gone < went && Contents() == queued[went..]
                     && taken == before + queued[..went]
    {
      var z, c;
      ghost var bytes, n;
      z, c, bytes := TakeStretch();
      Split(queued, gone, bytes, Contents());
      ok, n := WriteOut(out, z, c, bytes);
      MoreOf(shown, queued, gone, bytes, n);
      MoreOf(before, queued, gone, bytes, |bytes|);
      went := gone + n;
    }

    /** The contiguous stretch at the head of the queue leaves it. */
    method TakeStretch() returns (z: nat, c: nat, ghost bytes: seq<char>)
      requires Valid() && start != end
      modifies this
      ensures Valid() && bytes != [] && old(Contents()) == bytes + Contents()
      ensures taken == old(taken) + bytes
      ensures z + c <= CRECBUFLEN && buf[z..z + c] == bytes
    {
      z := start;
      c := if end > start then end - start else CRECBUFLEN - start;
      Dequeued(buf[..], start, end, c);
      bytes := buf[z..z + c];
      start := (start + c) % CRECBUFLEN;
      Regroup(taken, bytes, Contents());
      taken := taken + bytes;
    }

    /** Partial writes are continued; one that takes nothing is an error. */
    method WriteOut(out: Conn, from: nat, n: nat, ghost all: seq<char>) returns (ok: bool, ghost did: nat)
      requires from + n <= buf.Length && all == buf[from..from + n]
      modifies out
      ensures did <= n && out.sent == old(out.sent) + all[..did]
      ensures ok ==> did == n
      ensures !ok ==> TookNothing(out.writeCalls) || out.world == []
    {
      var z, c := from, n;
      did := 0;
      while c > 0
        invariant 0 <= c <= n && z == from + n - c && did == n - c
        invariant out.sent == old(out.sent) + all[..did]
      {
        if out.world == [] {
          return false, did;
        }
        var wrote, errno;
        ghost var a;
        wrote, errno, a := out.Write(buf[z..z + c], Writing);
        if wrote <= 0 {
          return false, did;
        }
        Joined(all, 0, did, did + wrote);
        assert all[did..did + wrote] == buf[z..z + c][..wrote];
        Regroup(old(out.sent), all[..did], all[did..did + wrote]);
        c, z, did := c - wrote, z + wrote, did + wrote;
      }
      ok := true;
    }
  }
}
