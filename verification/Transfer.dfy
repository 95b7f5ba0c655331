/** Copying files over the connection in cu.c: the loop of icutake, which receives up to an end
    marker, and fcusend_buf, which sends a buffer and checks its echo. */
module Transfer {

  // ---------- receiving ----------

  /** What a round of the receive loop finds: a byte (and whether it can be written to the file), or
      a timeout, a signal, an error of the port. */
  datatype Event = Byte(c: char, writable: bool) | Late | Signal | Broken

  datatype End = Complete | TimedOut | Interrupted | WriteError | Abort

  predicate Keeps(c: char, binary: bool) { c != '\r' || binary }

  /** The bytes of the events, without carriage returns unless in binary mode. */
  function Text(events: seq<Event>, binary: bool): (t: seq<char>)
    ensures |t| <= |events|
  {
    if events == [] then []
    else
      var e, t := events[|events| - 1], Text(events[..|events| - 1], binary);
      if e.Byte? && Keeps(e.c, binary) then t + [e.c] else t
  }

  function AllBytes(events: seq<Event>): seq<char> {
    if events == [] then []
    else (if events[0].Byte? then [events[0].c] else []) + AllBytes(events[1..])
  }

  function Without(s: seq<char>, c: char): seq<char> {
    if s == [] then [] else (if s[0] == c then [] else [s[0]]) + Without(s[1..], c)
  }

  lemma {:induction false} WithoutAppend(s: seq<char>, t: seq<char>, c: char)
    ensures Without(s + t, c) == Without(s, c) + Without(t, c)
  {
    if s == [] {
      assert s + t == t;
    } else {
      assert (s + t)[1..] == s[1..] + t;
      WithoutAppend(s[1..], t, c);
    }
  }

  lemma {:induction false} BytesTogether(a: seq<Event>, b: seq<Event>)
    ensures AllBytes(a + b) == AllBytes(a) + AllBytes(b)
  {
    if a == [] {
      assert a + b == b;
    } else {
      assert (a + b)[1..] == a[1..] + b && (a + b)[0] == a[0];
      BytesTogether(a[1..], b);
    }
  }

  /** Binary mode keeps every byte, the other mode all but the carriage returns. */
  lemma {:induction false} TextIs(events: seq<Event>)
    ensures Text(events, true) == AllBytes(events)
    ensures Text(events, false) == Without(AllBytes(events), '\r')
  {
    if events != [] {
      var n := |events| - 1;
      var e := events[n];
      TextIs(events[..n]);
      assert events == events[..n] + [e];
      BytesTogether(events[..n], [e]);
      WithoutAppend(AllBytes(events[..n]), AllBytes([e]), '\r');
    }
  }

  predicate OccursAt(m: seq<char>, s: seq<char>, i: int) {
    0 <= i <= |s| - |m| && s[i..i + |m|] == m
  }

  predicate Occurs(m: seq<char>, s: seq<char>) {
    exists i {:trigger OccursAt(m, s, i)} | 0 <= i <= |s| :: OccursAt(m, s, i)
  }

  /** One more character can complete an occurrence only at the end. */
  lemma OccursAtEnd(m: seq<char>, s: seq<char>, c: char)
    requires m != [] && !Occurs(m, s)
    ensures forall i | OccursAt(m, s + [c], i) :: i == |s| + 1 - |m|
  {
    forall i | 0 <= i <= |s| - |m| ensures OccursAt(m, s + [c], i) ==> OccursAt(m, s, i) {
      assert (s + [c])[i..i + |m|] == s[i..i + |m|];
    }
  }

  /** Between two rounds: everything but the window is in the file, and no marker has come. */
  predicate Holding(t: seq<char>, file: seq<char>, look: seq<char>, m: seq<char>) {
    t == file + look && |look| < |m| && !Occurs(m, t) && (file == [] || |look| == |m| - 1)
  }

  lemma Held(t: seq<char>, file: seq<char>, look: seq<char>, m: seq<char>, b: char)
    requires Holding(t, file, look, m)
    ensures var w := look + [b];
            if |w| < |m| then Holding(t + [b], file, w, m)
            else if w == m then t + [b] == file + m && forall i | OccursAt(m, t + [b], i) :: i == |file|
            else Holding(t + [b], file + [w[0]], w[1..], m)
  {
    var w, u := look + [b], t + [b];
    OccursAtEnd(m, t, b);
    assert u == file + w;
    if |w| == |m| {
      assert u[|file|..] == w;
      assert u == (file + [w[0]]) + w[1..];
    }
  }

  /** The receive loop. When the events run out, the next read times out. */
  method Take(zeof: seq<char>, binary: bool, events: seq<Event>)
    returns (end: End, file: seq<char>, used: nat)
    ensures used <= |events| && forall k | 0 <= k < used :: events[k].Byte?
    ensures match end
            case Complete => used > 0
            case TimedOut => used == |events| || events[used].Late?
            case Interrupted => used < |events| && events[used].Signal?
            case WriteError => used > 0 && !events[used - 1].writable
            case Abort => used < |events| && events[used].Broken?
    ensures var t := Text(events[..used], binary);
            match end
            case Complete =>
              && zeof != [] && t == file + zeof
              && forall i | OccursAt(zeof, t, i) :: i == |file|
            case TimedOut => file == t && (zeof != [] ==> !Occurs(zeof, t))
            case Interrupted =>
              if zeof == [] then file == t
              else !Occurs(zeof, t) && |file| == (if |t| < |zeof| then 0 else |t| + 1 - |zeof|) && file <= t
            case WriteError => file < t
            case Abort => file <= t
  {
    file, used := [], 0;
    var zlook := new char[|zeof|];
    var have: nat := 0;
    while true
      invariant used <= |events| && forall k | 0 <= k < used :: events[k].Byte?
      invariant zeof == [] ==> have == 0 && file == Text(events[..used], binary)
      invariant have <= |zeof|
      invariant zeof != [] ==> Holding(Text(events[..used], binary), file, zlook[..have], zeof)
      decreases |events| - used
    {
      ghost var t := Text(events[..used], binary);
      if used == |events| || events[used].Late? {
        if have > 0 { file := file + zlook[..have]; }
        return TimedOut, file, used;
      }
      if events[used].Signal? {
        return Interrupted, file, used;
      }
      if events[used].Broken? {
        return Abort, file, used;
      }
      var b := events[used].c;
      var writable := events[used].writable;
      assert events[..used + 1][..used] == events[..used];
      used := used + 1;
      if b == '\r' && !binary {
        continue;
      }
      assert Text(events[..used], binary) == t + [b];
      if |zeof| == 0 {
        if !writable {
          return WriteError, file, used;
        }
        file := file + [b];
      } else {
        var r;
        r, have, file := Window(zlook, have, b, writable, zeof, file, t);
        if r != None {
          return (if r == Matched then Complete else WriteError), file, used;
        }
      }
    }
  }

  datatype Verdict = None | Matched | Unwritable

  /** A byte enters the window; when the window is full, it is the marker or its first byte is
      written. */
  method Window(zlook: array<char>, n: nat, b: char, writable: bool, zeof: seq<char>, file: seq<char>,
                ghost t: seq<char>)
    returns (r: Verdict, have: nat, out: seq<char>)
    requires zlook.Length == |zeof| && n < |zeof| && Holding(t, file, zlook[..n], zeof)
    modifies zlook
    ensures match r
            case None => have < |zeof| && Holding(t + [b], out, zlook[..have], zeof)
            case Matched => t + [b] == out + zeof && forall i | OccursAt(zeof, t + [b], i) :: i == |out|
            case Unwritable => out < t + [b] && !writable
  {
    ghost var look := zlook[..n];
    ghost var w := look + [b];
    Held(t, file, look, zeof, b);
    zlook[n] := b;
    assert zlook[..n + 1] == w;
    have, out := n + 1, file;
    if have < |zeof| {
      return None, have, out;
    }
    assert zlook[..] == zlook[..n + 1] == w;
    if zeof == zlook[..] {
      return Matched, have, out;
    }
    if !writable {
      assert t + [b] == out + w;
      return Unwritable, have, out;
    }
    out := file + [zlook[0]];
    have := ShiftDown(zlook, w);
    r := None;
  }

  /** zmove: the window moves by one. */
  method ShiftDown(a: array<char>, ghost w: seq<char>) returns (n: nat)
    requires a.Length > 0 && w == a[..]
    modifies a
    ensures n == a.Length - 1 && a[..n] == w[1..]
  {
    var i := 0;
    while i < a.Length - 1
      invariant 0 <= i <= a.Length - 1
      invariant forall k | 0 <= k < i :: a[k] == w[k + 1]
      invariant forall k | i <= k < a.Length :: a[k] == w[k]
    {
      a[i] := a[i + 1];
      i := i + 1;
    }
    n := a.Length - 1;
  }

  // ---------- sending ----------

  /** isprint in the C locale. */
  predicate IsPrint(c: char) { ' ' <= c <= '~' }

  /** The variables of cu that sending looks at; '\0' as the first character switches a check off. */
  datatype Vars = Vars(binary: bool, binaryPrefix: seq<char>, echocheck: bool, echonl: char,
                       kill: char, resend: int)

  /** What is sent for a character of the file. */
  function Translated(v: Vars, c: char): (t: seq<char>)
    ensures |t| <= PrefixLength(v) + 1
  {
    if IsPrint(c) || c == '\t' then [c]
    else if c == '\n' then [if v.binary then '\n' else '\r']
    else if v.binary then v.binaryPrefix + [c]
    else []
  }

  /** Printable characters and tabs go out as they are and a newline as the end of a line; anything else
      goes out behind the prefix in binary mode, and otherwise not at all. */
  lemma TranslatedIs(v: Vars, c: char)
    ensures c == '\t' || 32 <= c as int < 127 ==> Translated(v, c) == [c]
    ensures c == '\n' ==> Translated(v, c) == if v.binary then ['\n'] else ['\r']
    ensures c != '\t' && c != '\n' && !(32 <= c as int < 127) ==>
              Translated(v, c) == if v.binary then v.binaryPrefix + [c] else []
  {
  }

  function PrefixLength(v: Vars): nat { if v.binary then |v.binaryPrefix| else 1 }

  function Translation(v: Vars, s: seq<char>): seq<char> {
    if s == [] then [] else Translated(v, s[0]) + Translation(v, s[1..])
  }

  lemma {:induction false} TranslationAppend(v: Vars, s: seq<char>, t: seq<char>)
    ensures Translation(v, s + t) == Translation(v, s) + Translation(v, t)
    decreases |s|
  {
    if s == [] {
      assert s + t == t;
    } else {
      assert (s + t)[1..] == s[1..] + t;
      TranslationAppend(v, s[1..], t);
    }
  }

  const CHUNK: nat := 64

  /** How much is sent before its echo is checked: a newline, or up to 64 characters before one. */
  predicate IsChunk(s: seq<char>, n: nat) {
    && 0 < n <= |s|
    && (s[0] == '\n' ==> n == 1)
    && (s[0] != '\n' ==> n <= 64 && '\n' !in s[..n]
                         && (n < |s| ==> n == 64 || s[n] == '\n'))
  }

  method ChunkLength(s: seq<char>) returns (csend: nat)
    requires s != []
    ensures IsChunk(s, csend)
  {
    csend := 1;
    if s[0] != '\n' {
      while csend < |s| && csend < CHUNK && s[csend] != '\n'
        invariant 1 <= csend <= |s| && csend <= CHUNK
        invariant '\n' !in s[..csend]
      {
        csend := csend + 1;
      }
    }
  }

  /** The characters of a translation whose echo is awaited. For a newline that is the character
      that was sent: echonl only says whether to wait. */
  function Awaited(v: Vars, z: seq<char>): seq<char> {
    if z == [] then []
    else if IsAwaited(v, z[0]) then [z[0]] + Awaited(v, z[1..])
    else Awaited(v, z[1..])
  }

  predicate IsAwaited(v: Vars, c: char) {
    if c == Newline(v) then v.echonl != '\0' else v.echocheck && !v.binary && IsPrint(c)
  }

  function Newline(v: Vars): char { if v.binary then '\n' else '\r' }

  /** The same for the characters of the file: what the checks of its chunks wait for. */
  function Echoed(v: Vars, s: seq<char>): seq<char> {
    if s == [] then [] else EchoOf(v, s[0]) + Echoed(v, s[1..])
  }

  function EchoOf(v: Vars, c: char): seq<char> {
    if c == '\n' then (if v.echonl == '\0' then [] else [Newline(v)])
    else if v.echocheck && !v.binary && IsPrint(c) then [c]
    else []
  }

  lemma {:induction false} EchoedAppend(v: Vars, s: seq<char>, t: seq<char>)
    ensures Echoed(v, s + t) == Echoed(v, s) + Echoed(v, t)
    decreases |s|
  {
    if s == [] {
      assert s + t == t;
    } else {
      assert (s + t)[1..] == s[1..] + t;
      EchoedAppend(v, s[1..], t);
    }
  }

  lemma {:induction false} AwaitedIsEchoed(v: Vars, s: seq<char>)
    requires !v.binary || s == ['\n']
    ensures Awaited(v, Translation(v, s)) == Echoed(v, s)
  {
    if s != [] {
      var t, rest := Translated(v, s[0]), Translation(v, s[1..]);
      if v.binary { assert s[1..] == []; } else { AwaitedIsEchoed(v, s[1..]); }
      assert t != [] ==> (t + rest)[0] == t[0] && (t + rest)[1..] == rest;
      assert t == [] ==> t + rest == rest;
    }
  }

  lemma {:induction false} NothingEchoed(v: Vars, s: seq<char>)
    requires !v.echocheck || v.binary
    requires '\n' !in s || v.echonl == '\0'
    ensures Echoed(v, s) == []
  {
    if s != [] { NothingEchoed(v, s[1..]); }
  }

  lemma {:induction false} NothingSent(v: Vars, s: seq<char>)
    requires Translation(v, s) == []
    ensures Echoed(v, s) == []
  {
    if s != [] {
      assert |Translation(v, s)| == |Translated(v, s[0])| + |Translation(v, s[1..])|;
      NothingSent(v, s[1..]);
    }
  }

  /** What the port delivers while an echo is awaited. */
  datatype Echo = Got(c: char) | NoMore | Quit | Lost

  /** The port delivers this at some point. */
  predicate Has(es: seq<Echo>, e: Echo) { es != [] && (es[0] == e || Has(es[1..], e)) }

  lemma {:induction false} HasIsIn(es: seq<Echo>, e: Echo)
    ensures Has(es, e) <==> e in es
  {
    if es != [] {
      HasIsIn(es[1..], e);
      assert es == [es[0]] + es[1..];
    }
  }

  datatype Wait = Seen(rest: seq<Echo>) | Missed(rest: seq<Echo>) | Cut | Dead

  /** Bytes are skipped until the awaited one comes. When the echoes run out, the time is over. */
  function Await(c: char, es: seq<Echo>): (w: Wait)
    ensures w.Seen? || w.Missed? ==> |w.rest| <= |es|
  {
    if es == [] then Missed([])
    else match es[0]
      case Got(b) => if b == c then Seen(es[1..]) else Await(c, es[1..])
      case NoMore => Missed(es[1..])
      case Quit => Cut
      case Lost => Dead
  }

  function AwaitAll(cs: seq<char>, es: seq<Echo>): (w: Wait)
    ensures w.Seen? || w.Missed? ==> |w.rest| <= |es|
    decreases |cs|
  {
    if cs == [] then Seen(es)
    else
      var w := Await(cs[0], es);
      if w.Seen? then AwaitAll(cs[1..], w.rest) else w
  }

  /** The check as documented: after a newline echonl is looked for. */
  function Documented(v: Vars, z: seq<char>): seq<char> {
    if z == [] then []
    else if z[0] == Newline(v) && v.echonl != '\0' then [v.echonl] + Documented(v, z[1..])
    else if IsAwaited(v, z[0]) then [z[0]] + Documented(v, z[1..])
    else Documented(v, z[1..])
  }

  /** Waiting for the ones comes to the same as waiting for the others. */
  ghost predicate SameCheck(cs: seq<char>, ds: seq<char>) {
    forall es {:trigger AwaitAll(cs, es)} :: AwaitAll(cs, es) == AwaitAll(ds, es)
  }

  function Echoing(cs: seq<char>): seq<Echo> {
    if cs == [] then [] else [Got(cs[0])] + Echoing(cs[1..])
  }

  lemma {:induction false} EchoIsSeen(cs: seq<char>)
    ensures AwaitAll(cs, Echoing(cs)).Seen?
  {
    if cs != [] {
      assert Echoing(cs)[1..] == Echoing(cs[1..]);
      EchoIsSeen(cs[1..]);
    }
  }

  /** An echo shows fewer characters than it has, or just these. */
  lemma {:induction false} SeenInEcho(ds: seq<char>, cs: seq<char>)
    requires AwaitAll(ds, Echoing(cs)).Seen?
    ensures |ds| <= |cs| && (|ds| == |cs| ==> ds == cs)
    decreases |cs|
  {
    if ds != [] && cs != [] {
      assert Echoing(cs)[1..] == Echoing(cs[1..]);
      if ds[0] == cs[0] {
        SeenInEcho(ds[1..], cs[1..]);
        assert ds == [ds[0]] + ds[1..] && cs == [cs[0]] + cs[1..];
      } else {
        assert AwaitAll(ds, Echoing(cs)) == AwaitAll(ds, Echoing(cs[1..]));
        SeenInEcho(ds, cs[1..]);
      }
    }
  }

  lemma SameCheckSameCharacters(cs: seq<char>, ds: seq<char>)
    requires SameCheck(cs, ds)
    ensures cs == ds
  {
    EchoIsSeen(cs);
    assert AwaitAll(cs, Echoing(cs)) == AwaitAll(ds, Echoing(cs));
    SeenInEcho(ds, cs);
    EchoIsSeen(ds);
    assert AwaitAll(cs, Echoing(ds)) == AwaitAll(ds, Echoing(ds));
    SeenInEcho(cs, ds);
  }

  lemma {:induction false} SameAsDocumented(v: Vars, z: seq<char>)
    ensures Awaited(v, z) == Documented(v, z)
            <==> Newline(v) !in z || v.echonl == '\0' || v.echonl == Newline(v)
  {
    if z != [] {
      SameAsDocumented(v, z[1..]);
      assert z == [z[0]] + z[1..];
      if IsAwaited(v, z[0]) {
        assert ([z[0]] + Awaited(v, z[1..]))[1..] == Awaited(v, z[1..]);
        assert Documented(v, z)[1..] == Documented(v, z[1..]);
      }
    }
  }

  /** After a newline echonl is to be looked for. The code looks for the character it sent, so the check
      of what was sent is the documented one exactly if the two are equal, or there is no newline in
      it, or none is to be checked. */
  lemma NewlineCheckAsDocumented(v: Vars, z: seq<char>)
    ensures SameCheck(Awaited(v, z), Documented(v, z))
            <==> Newline(v) !in z || v.echonl == '\0' || v.echonl == Newline(v)
  {
    SameAsDocumented(v, z);
    if SameCheck(Awaited(v, z), Documented(v, z)) {
      SameCheckSameCharacters(Awaited(v, z), Documented(v, z));
    }
  }

  // ---------- what an echo check establishes ----------

  /** The bytes among what the port delivers. */
  function Bytes(es: seq<Echo>): seq<char> {
    if es == [] then []
    else if es[0].Got? then [es[0].c] + Bytes(es[1..])
    else Bytes(es[1..])
  }

  /** cs occurs in bytes, in order, with anything in between. */
  predicate Within(cs: seq<char>, bytes: seq<char>) {
    cs == [] || (bytes != [] && Within(if cs[0] == bytes[0] then cs[1..] else cs, bytes[1..]))
  }

  lemma {:induction false} WithinTail(cs: seq<char>, bytes: seq<char>)
    requires cs != [] && Within(cs, bytes)
    ensures Within(cs[1..], bytes)
    decreases |bytes|, 0
  {
    if cs[0] == bytes[0] {
      WithinLonger(cs[1..], [bytes[0]], bytes[1..]);
      assert [bytes[0]] + bytes[1..] == bytes;
    } else {
      WithinTail(cs, bytes[1..]);
      WithinLonger(cs[1..], [bytes[0]], bytes[1..]);
      assert [bytes[0]] + bytes[1..] == bytes;
    }
  }

  /** More bytes in front do no harm. */
  lemma {:induction false} WithinLonger(cs: seq<char>, more: seq<char>, bytes: seq<char>)
    requires Within(cs, bytes)
    ensures Within(cs, more + bytes)
    decreases |bytes|, |more|
  {
    if more == [] {
      assert more + bytes == bytes;
    } else if cs != [] {
      assert (more + bytes)[1..] == more[1..] + bytes;
      WithinLonger(cs, more[1..], bytes);
      if cs[0] == more[0] {
        WithinTail(cs, bytes);
        WithinLonger(cs[1..], more[1..], bytes);
      }
    }
  }

  lemma {:induction false} WithinAppend(a: seq<char>, x: seq<char>, b: seq<char>, y: seq<char>)
    requires Within(a, x) && Within(b, y)
    ensures Within(a + b, x + y)
    decreases |x|
  {
    if a == [] {
      assert a + b == b;
      WithinLonger(b, x, y);
    } else {
      var c := if a[0] == x[0] then a[1..] else a;
      WithinAppend(c, x[1..], b, y);
      assert (x + y)[1..] == x[1..] + y && (x + y)[0] == x[0] && (a + b)[0] == a[0];
      assert (a + b)[1..] == a[1..] + b;
    }
  }

  lemma {:induction false} BytesAppend(a: seq<Echo>, b: seq<Echo>)
    ensures Bytes(a + b) == Bytes(a) + Bytes(b)
  {
    if a == [] {
      assert a + b == b;
    } else {
      assert (a + b)[1..] == a[1..] + b;
      BytesAppend(a[1..], b);
    }
  }

  /** rest is what is left of es. */
  predicate Left(rest: seq<Echo>, es: seq<Echo>): (b: bool)
    ensures b ==> |rest| <= |es|
  {
    rest == es || (es != [] && Left(rest, es[1..]))
  }

  lemma {:induction false} LeftIs(rest: seq<Echo>, es: seq<Echo>)
    ensures Left(rest, es) <==> |rest| <= |es| && rest == es[|es| - |rest|..]
    decreases |es|
  {
    if rest != es && es != [] {
      LeftIs(rest, es[1..]);
      if |rest| < |es| { assert es[1..][|es| - 1 - |rest|..] == es[|es| - |rest|..]; }
    }
  }

  lemma LeftNext(rest: seq<Echo>, es: seq<Echo>)
    requires Left(rest, es) && rest != []
    ensures Left(rest[1..], es)
  {
    LeftIs(rest, es);
    LeftIs(rest[1..], es);
  }

  /** What of es is gone when rest is left. */
  function Gone(es: seq<Echo>, rest: seq<Echo>): seq<Echo>
    requires |rest| <= |es|
  {
    es[..|es| - |rest|]
  }

  lemma LeftOfLeft(a: seq<Echo>, b: seq<Echo>, c: seq<Echo>)
    requires Left(b, a) && Left(c, b)
    ensures Left(c, a) && Bytes(Gone(a, c)) == Bytes(Gone(a, b)) + Bytes(Gone(b, c))
  {
    LeftStill(a, b, c);
    LeftIs(b, a);
    LeftIs(c, b);
    LeftIs(c, a);
    assert Gone(a, c) == Gone(a, b) + Gone(b, c);
    BytesAppend(Gone(a, b), Gone(b, c));
  }

  /** An awaited character that was seen is among the bytes passed over. */
  lemma {:induction false} AwaitWithin(c: char, es: seq<Echo>)
    ensures var w := Await(c, es);
            && (w.Seen? || w.Missed? ==> Left(w.rest, es))
            && (w.Seen? ==> Within([c], Bytes(Gone(es, w.rest))))
            && (w.Cut? ==> Has(es, Quit))
  {
    if es != [] && es[0].Got? {
      var w := Await(c, es);
      if es[0].c == c {
        assert Gone(es, es[1..]) == [es[0]] && [es[0]][1..] == [];
        assert Bytes([es[0]]) == [c] + [];
      } else {
        AwaitWithin(c, es[1..]);
        if w.Seen? {
          assert Gone(es, w.rest)[1..] == Gone(es[1..], w.rest);
          assert Bytes(Gone(es, w.rest))[1..] == Bytes(Gone(es[1..], w.rest));
        }
      }
    }
  }

  lemma {:induction false} AwaitAllWithin(cs: seq<char>, es: seq<Echo>)
    ensures var w := AwaitAll(cs, es);
            && (w.Seen? || w.Missed? ==> Left(w.rest, es))
            && (w.Seen? ==> Within(cs, Bytes(Gone(es, w.rest))))
            && (w.Cut? ==> Has(es, Quit))
    decreases |cs|
  {
    if cs != [] {
      var w := Await(cs[0], es);
      AwaitWithin(cs[0], es);
      if w.Seen? {
        AwaitAllWithin(cs[1..], w.rest);
        LeftHas(w.rest, es);
        var u := AwaitAll(cs[1..], w.rest);
        if u.Seen? || u.Missed? { LeftStill(es, w.rest, u.rest); }
        if u.Seen? {
          LeftOfLeft(es, w.rest, u.rest);
          WithinAppend([cs[0]], Bytes(Gone(es, w.rest)), cs[1..], Bytes(Gone(w.rest, u.rest)));
          assert [cs[0]] + cs[1..] == cs;
        }
      }
    }
  }

  datatype Sending = Sent | Refused | Aborted

  /** How a round ends. */
  datatype Round = Next | Retry | Stop(r: Sending)

  /** A round ends as the wait for the echo did. */
  predicate Ends(w: Wait, st: Round, echoes: seq<Echo>) {
    match w
    case Seen(rest) => st == Next && echoes == rest
    case Missed(rest) => st == Retry && echoes == rest
    case Cut => st == Stop(Refused)
    case Dead => st == Stop(Aborted)
  }

  /** Why a wait ended: the time was over, a quit signal came, or the port was lost. */
  lemma {:induction false} AwaitAllEnds(cs: seq<char>, es: seq<Echo>)
    ensures match AwaitAll(cs, es)
            case Seen(_) => true
            case Missed(rest) => Has(es, NoMore) || rest == []
            case Cut => Has(es, Quit)
            case Dead => Has(es, Lost)
    decreases |cs|
  {
    if cs != [] {
      AwaitEnds(cs[0], es);
      var w := Await(cs[0], es);
      if w.Seen? {
        AwaitWithin(cs[0], es);
        AwaitAllEnds(cs[1..], w.rest);
        LeftHas(w.rest, es);
      }
    }
  }

  lemma {:induction false} AwaitEnds(c: char, es: seq<Echo>)
    ensures match Await(c, es)
            case Seen(_) => true
            case Missed(rest) => Has(es, NoMore) || rest == []
            case Cut => Has(es, Quit)
            case Dead => Has(es, Lost)
  {
    if es != [] && es[0].Got? && es[0].c != c { AwaitEnds(c, es[1..]); }
  }

  lemma LeftStill(a: seq<Echo>, b: seq<Echo>, c: seq<Echo>)
    requires Left(b, a) && Left(c, b)
    ensures Left(c, a)
  {
    LeftIs(b, a);
    LeftIs(c, b);
    LeftIs(c, a);
  }

  lemma LeftHas(rest: seq<Echo>, es: seq<Echo>)
    requires Left(rest, es)
    ensures Has(rest, Quit) ==> Has(es, Quit)
    ensures Has(rest, Lost) ==> Has(es, Lost)
    ensures Has(rest, NoMore) ==> Has(es, NoMore)
  {
    LeftHasOne(rest, es, Quit);
    LeftHasOne(rest, es, Lost);
    LeftHasOne(rest, es, NoMore);
  }

  lemma LeftHasOne(rest: seq<Echo>, es: seq<Echo>, e: Echo)
    requires Left(rest, es)
    ensures Has(rest, e) ==> Has(es, e)
  {
    LeftIs(rest, es);
    HasIsIn(rest, e);
    HasIsIn(es, e);
  }

  /** What a wait for a chunk's echo found was there at the start. */
  lemma ChunkEnds(es: seq<Echo>, heard: seq<Echo>, rest: seq<Echo>, cs: seq<char>)
    requires Left(heard, es) && Left(rest, heard)
    ensures match AwaitAll(cs, rest)
            case Seen(_) => true
            case Missed(left) => Has(es, NoMore) || left == []
            case Cut => Has(es, Quit)
            case Dead => Has(es, Lost)
    ensures heard == [] ==> rest == []
  {
    AwaitAllEnds(cs, rest);
    LeftHas(rest, heard);
    LeftHas(heard, es);
  }

  /** The time was over once, or everything has come that will. */
  predicate Missing(es: seq<Echo>, rest: seq<Echo>) { Has(es, NoMore) || rest == [] }

  /** A quit signal came, or the port failed or was lost. */
  predicate Stops(r: Sending, es: seq<Echo>, failed: bool) {
    (r == Refused && Has(es, Quit)) || (r == Aborted && (failed || Has(es, Lost)))
  }

  /** Everything sent from since on was sent after the last kill character, or after was. */
  predicate SinceKill(was: seq<char>, sent: seq<char>, since: nat, kill: char) {
    was <= sent && |was| <= since <= |sent| && (since > |was| ==> sent[since - 1] == kill)
  }

  lemma GrownSince(was: seq<char>, before: seq<char>, sent: seq<char>, since: nat, kill: char)
    requires SinceKill(was, before, since, kill) && before <= sent
    ensures SinceKill(was, sent, since, kill)
  {
  }

  /** What a check of a chunk makes of the bytes since the chunk before. */
  lemma ChunkHeard(cs: seq<char>, es: seq<Echo>, rest: seq<Echo>, w: Wait)
    requires Left(rest, es) && w == AwaitAll(cs, rest)
    ensures w.Seen? || w.Missed? ==> Left(w.rest, es)
    ensures w.Seen? ==> Within(cs, Bytes(Gone(es, w.rest)))
    ensures w.Cut? ==> Has(es, Quit)
  {
    AwaitAllWithin(cs, rest);
    if w.Seen? || w.Missed? { LeftOfLeft(es, rest, w.rest); }
    if w.Seen? { WithinLonger(cs, Bytes(Gone(es, rest)), Bytes(Gone(rest, w.rest))); }
  }

  /** One chunk more is heard. */
  lemma HeardMore(v: Vars, buf: seq<char>, pos: nat, next: nat, at: seq<Echo>, before: seq<Echo>, now: seq<Echo>)
    requires pos <= next <= |buf| && Left(before, at) && Left(now, before)
    requires Within(Echoed(v, buf[..pos]), Bytes(Gone(at, before)))
    requires Within(Echoed(v, buf[pos..next]), Bytes(Gone(before, now)))
    ensures Left(now, at) && Within(Echoed(v, buf[..next]), Bytes(Gone(at, now)))
  {
    LeftOfLeft(at, before, now);
    assert buf[..next] == buf[..pos] + buf[pos..next];
    EchoedAppend(v, buf[..pos], buf[pos..next]);
    WithinAppend(Echoed(v, buf[..pos]), Bytes(Gone(at, before)),
                 Echoed(v, buf[pos..next]), Bytes(Gone(before, now)));
  }

  /** One round of the check. */
  lemma CheckRound(v: Vars, z: seq<char>, i: nat, es: seq<Echo>)
    requires i < |z|
    ensures var w := Await(z[i], es);
            AwaitAll(Awaited(v, z[i..]), es)
            == if !IsAwaited(v, z[i]) then AwaitAll(Awaited(v, z[i + 1..]), es)
               else if w.Seen? then AwaitAll(Awaited(v, z[i + 1..]), w.rest) else w
  {
    assert z[i..][1..] == z[i + 1..];
    if IsAwaited(v, z[i]) {
      var cs := Awaited(v, z[i..]);
      assert cs[0] == z[i] && cs[1..] == Awaited(v, z[i + 1..]);
    }
  }

  class Sender {
    const v: Vars
    var echoes: seq<Echo>
    /** Every character sent. */
    ghost var sent: seq<char>
    ghost var kills: nat
    /** Whether the port has refused to send something. */
    ghost var failed: bool

    constructor (v: Vars, echoes: seq<Echo>)
      ensures this.v == v && this.echoes == echoes && sent == [] && kills == 0 && !failed
    {
      this.v, this.echoes := v, echoes;
      sent, kills, failed := [], 0, false;
    }

    /** fsend_data, which may fail. */
    method SendData(z: seq<char>) returns (ok: bool)
      modifies this`sent, this`failed
      ensures ok ==> sent == old(sent) + z && failed == old(failed)
      ensures !ok ==> sent == old(sent) && failed
    {
      ok := *;
      if ok { sent := sent + z; } else { failed := true; }
    }

    /** Some of the bytes that have come are discarded, so that they do not confuse the check. */
    method Discard()
      modifies this`echoes
      ensures Left(echoes, old(echoes))
    {
      var more := *;
      while more && echoes != [] && echoes[0].Got?
        invariant Left(echoes, old(echoes))
        decreases |echoes|
      {
        LeftNext(echoes, old(echoes));
        echoes := echoes[1..];
        more := *;
      }
    }

    /** The translation of a chunk into zsendbuf, which has room for it. */
    method Translate(s: seq<char>, zsendbuf: array<char>) returns (zput: nat)
      requires |s| <= CHUNK && zsendbuf.Length == CHUNK * (PrefixLength(v) + 1)
      modifies zsendbuf
      ensures zput <= zsendbuf.Length && zsendbuf[..zput] == Translation(v, s)
    {
      zput := 0;
      var i: nat := 0;
      while i < |s|
        invariant i <= |s| && zput <= zsendbuf.Length
        invariant zsendbuf[..zput] == Translation(v, s[..i])
      {
        TranslatedMore(v, s, i);
        TranslationFits(v, s[..i + 1]);
        zput := Put(zsendbuf, zput, Translated(v, s[i]));
        i := i + 1;
      }
      assert s[..i] == s;
    }

    method Put(zsendbuf: array<char>, at: nat, t: seq<char>) returns (zput: nat)
      requires at + |t| <= zsendbuf.Length
      modifies zsendbuf
      ensures zput == at + |t| && zsendbuf[..zput] == old(zsendbuf[..at]) + t
    {
      forall k | 0 <= k < |t| { zsendbuf[at + k] := t[k]; }
      zput := at + |t|;
    }

    /** One awaited character. */
    method AwaitEcho(c: char) returns (w: Wait)
      modifies this`echoes
      ensures w == Await(c, old(echoes))
      ensures w.Seen? || w.Missed? ==> echoes == w.rest
      ensures |echoes| <= |old(echoes)|
    {
      while echoes != [] && echoes[0].Got? && echoes[0].c != c
        invariant Await(c, echoes) == Await(c, old(echoes)) && |echoes| <= |old(echoes)|
        decreases |echoes|
      {
        echoes := echoes[1..];
      }
      if echoes == [] {
        return Missed([]);
      }
      var e := echoes[0];
      echoes := echoes[1..];
      match e
      case Got(_) => w := Seen(echoes);
      case NoMore => w := Missed(echoes);
      case Quit => w := Cut;
      case Lost => w := Dead;
    }

    /** Whether the check waits for this character. */
    predicate Waits(c: char) {
      if c == (if v.binary then '\n' else '\r') then v.echonl != '\0' else v.echocheck && IsPrint(c)
    }

    /** The echo of what has been sent. In binary mode only newlines, sent on their own, are checked. */
    method CheckEcho(zsendbuf: array<char>, zput: nat) returns (w: Wait)
      requires zput <= zsendbuf.Length && (v.binary ==> zsendbuf[..zput] == ['\n'])
      modifies this`echoes
      ensures w == AwaitAll(Awaited(v, zsendbuf[..zput]), old(echoes))
      ensures w.Seen? || w.Missed? ==> echoes == w.rest
    {
      ghost var z, es := zsendbuf[..zput], echoes;
      var zget: nat := 0;
      assert z[0..] == z;
      while zget < zput
        invariant zget <= zput
        invariant AwaitAll(Awaited(v, z[zget..]), echoes) == AwaitAll(Awaited(v, z), es)
      {
        var c := zsendbuf[zget];
        assert c == z[zget];
        CheckRound(v, z, zget, echoes);
        zget := zget + 1;
        if Waits(c) {
          w := AwaitEcho(c);
          if !w.Seen? {
            return;
          }
        }
      }
      assert z[zget..] == [];
      w := Seen(echoes);
    }

    /** A round of fcusend_buf: a chunk is sent, and its echo is awaited if it has to be. What comes of
        the wait, after some bytes have been discarded, decides how it ends. */
    method SendChunk(buf: seq<char>, pos: nat, zsendbuf: array<char>)
      returns (st: Round, next: nat, ghost rest: seq<Echo>)
      requires pos < |buf| && zsendbuf.Length == CHUNK * (PrefixLength(v) + 1)
      modifies this`sent, this`echoes, this`failed, zsendbuf
      ensures pos < next <= |buf| && Left(rest, old(echoes)) && old(sent) <= sent
      ensures st == Next || st == Retry ==> sent == old(sent) + Translation(v, buf[pos..next])
      ensures st == Next || st == Retry ==> Left(echoes, old(echoes)) && failed == old(failed)
      ensures st == Next ==> Within(Echoed(v, buf[pos..next]), Bytes(Gone(old(echoes), echoes)))
      ensures st.Stop? ==> st == Stop(if Has(old(echoes), Quit) && st.r == Refused then Refused else Aborted)
      ensures st == Stop(Aborted) ==> failed || Has(old(echoes), Lost)
      ensures st == Retry ==> Has(old(echoes), NoMore) || echoes == []
      ensures (st == Stop(Aborted) && failed) || Ends(AwaitAll(Echoed(v, buf[pos..next]), rest), st, echoes)
    {
      ghost var es := echoes;
      Discard();
      rest := echoes;
      var csend := ChunkLength(buf[pos..]);
      var fnl := buf[pos] == '\n';
      next := pos + csend;
      assert buf[pos..][..csend] == buf[pos..next];
      assert fnl ==> buf[pos..next] == ['\n'];
      var zput := Translate(buf[pos..next], zsendbuf);
      st := Next;
      if zput > 0 {
        var ok := SendData(zsendbuf[..zput]);
        if !ok {
          st := Stop(Aborted);
          return;
        }
        if (v.echocheck && !v.binary) || (fnl && v.echonl != '\0') {
          assert v.binary ==> zsendbuf[..zput] == ['\n'];
          var w := CheckEcho(zsendbuf, zput);
          AwaitedIsEchoed(v, buf[pos..next]);
          ChunkHeard(Echoed(v, buf[pos..next]), es, rest, w);
          ChunkEnds(es, es, rest, Echoed(v, buf[pos..next]));
          st := if w.Seen? then Next else if w.Missed? then Retry
                else if w.Dead? then Stop(Aborted) else Stop(Refused);
        } else {
          NothingEchoed(v, buf[pos..next]);
        }
      } else {
        NothingSent(v, buf[pos..next]);
      }
    }

    /** The kill character makes the other side forget the line. */
    method SendKill(ghost was: seq<char>) returns (ok: bool)
      requires was <= sent
      modifies this`sent, this`kills, this`failed
      ensures !ok ==> sent == old(sent) && kills == old(kills) && failed
      ensures ok ==> failed == old(failed) && |sent| > |was| && kills == old(kills) + 1
      ensures ok ==> SinceKill(was, sent, |sent|, v.kill)
    {
      ok := SendData([v.kill]);
      if ok { kills := kills + 1; }
    }

    /** What such a round means for the buffer. */
    method PassChunk(buf: seq<char>, pos: nat, zsendbuf: array<char>, ghost es: seq<Echo>)
      returns (st: Round, next: nat)
      requires Left(echoes, es) && pos < |buf| && zsendbuf.Length == CHUNK * (PrefixLength(v) + 1)
      modifies this`sent, this`echoes, this`failed, zsendbuf
      ensures pos < next <= |buf| && old(sent) <= sent
      ensures st == Next || st == Retry ==> sent == old(sent) + Translation(v, buf[pos..next])
      ensures st == Next || st == Retry ==> Left(echoes, old(echoes)) && Left(echoes, es)
      ensures st == Next ==> Within(Echoed(v, buf[pos..next]), Bytes(Gone(old(echoes), echoes)))
      ensures st == Retry ==> Missing(es, echoes)
      ensures st.Stop? ==> Stops(st.r, es, failed)
    {
      LeftHas(echoes, es);
      ghost var rest;
      st, next, rest := SendChunk(buf, pos, zsendbuf);
      if st == Next || st == Retry { LeftStill(es, old(echoes), echoes); }
    }

    /** One turn of fcusend_buf: a chunk is passed, or the line is killed and begun again, or it is over. */
    method Turn(buf: seq<char>, pos: nat, ctries: nat, zsendbuf: array<char>, ghost was: seq<char>,
                ghost es: seq<Echo>, ghost since0: nat, ghost at0: seq<Echo>)
      returns (over: bool, r: Sending, next: nat, tries: nat, ghost since: nat, ghost at: seq<Echo>)
      requires pos < |buf| && zsendbuf.Length == CHUNK * (PrefixLength(v) + 1)
      requires Going(v, buf, pos, was, sent, es, echoes, since0, at0)
      modifies this, zsendbuf
      ensures !over ==> next <= |buf| && Going(v, buf, next, was, sent, es, echoes, since, at)
      ensures !over ==>
                || (tries == ctries && pos < next && since == since0 && at == at0 && kills == old(kills))
                || (tries == ctries + 1 < v.resend && kills == old(kills) + 1 && !v.binary && v.kill != '\0'
                    && Missing(es, echoes) && since > |was|)
      ensures |echoes| <= |old(echoes)| || over
      ensures over ==> since == since0 && at == at0 && kills == old(kills) && SinceKill(was, sent, since, v.kill)
      ensures over ==> || Stops(r, es, failed)
                       || (r == Refused && Missing(es, echoes)
                           && (v.binary || v.kill == '\0' || ctries + 1 >= v.resend))
    {
      over, r, next, tries, since, at := true, Refused, pos, ctries, since0, at0;
      ghost var before, heard := sent, echoes;
      if echoes != [] && echoes[0].Quit? {
        QuitLeft(echoes, es);
        return;
      }
      var st;
      st, next := PassChunk(buf, pos, zsendbuf, es);
      GrownSince(was, before, sent, since, v.kill);
      if st.Stop? {
        r := st.r;
        return;
      }
      if st == Next {
        ChunkDone(v, buf, pos, next, was, before, sent, es, heard, echoes, since, at);
        over := false;
      } else if !v.binary && v.kill != '\0' && ctries + 1 < v.resend {
        var ok := Restart(buf, was, es);
        if ok {
          over, next, tries, since, at := false, 0, ctries + 1, |sent|, echoes;
        } else {
          r := Aborted;
        }
      }
    }

    /** The line is killed, to be sent from its beginning. */
    method Restart(buf: seq<char>, ghost was: seq<char>, ghost es: seq<Echo>) returns (ok: bool)
      requires was <= sent && Left(echoes, es)
      modifies this`sent, this`kills, this`failed
      ensures !ok ==> sent == old(sent) && kills == old(kills) && failed
      ensures ok ==> kills == old(kills) + 1 && |sent| > |was|
                     && Going(v, buf, 0, was, sent, es, echoes, |sent|, echoes)
    {
      ok := SendKill(was);
      if ok { Begun(v, buf, was, sent, es, echoes, |sent|, echoes); }
    }

    /** fcusend_buf. */
    method SendBuf(buf: seq<char>) returns (r: Sending, ghost since: nat, ghost at: seq<Echo>)
      modifies this
      ensures SinceKill(old(sent), sent, since, v.kill)
      ensures r == Sent ==> sent[since..] == Translation(v, buf)
      ensures Left(at, old(echoes)) && (kills == old(kills) ==> at == old(echoes))
      ensures r == Sent ==> Left(echoes, at) && Within(Echoed(v, buf), Bytes(Gone(at, echoes)))
      ensures r == Sent || Stops(r, old(echoes), failed)
              || (r == Refused && Missing(old(echoes), echoes)
                  && (v.binary || v.kill == '\0' || kills == old(kills) + Most(v.resend - 1)))
      ensures since > |old(sent)| <==> kills > old(kills)
      ensures old(kills) <= kills <= old(kills) + Most(v.resend - 1)
      ensures kills > old(kills) && r == Sent ==> Missing(old(echoes), echoes)
      ensures v.binary || v.kill == '\0' ==> kills == old(kills)
    {
      var ctries, pos: nat := 0, 0;
      var zsendbuf := new char[CHUNK * (PrefixLength(v) + 1)];
      since, at := |sent|, echoes;
      ghost var was, es := sent, echoes;
      Begun(v, buf, was, sent, es, echoes, since, at);
      while pos < |buf|
        invariant pos <= |buf| && Going(v, buf, pos, was, sent, es, echoes, since, at)
        invariant ctries == 0 ==> at == es
        invariant since > |was| <==> kills > old(kills)
        invariant kills == old(kills) + ctries && 0 <= ctries <= Most(v.resend - 1)
        invariant v.binary || v.kill == '\0' ==> ctries == 0
        invariant ctries > 0 ==> Missing(es, echoes)
        decreases v.resend - ctries, |buf| - pos
      {
        var over;
        over, r, pos, ctries, since, at := Turn(buf, pos, ctries, zsendbuf, was, es, since, at);
        if over {
          return;
        }
      }
      assert buf[..pos] == buf;
      r := Sent;
    }
  }

  /** After pos characters of the buffer: what was sent and heard since the last kill. */
  ghost predicate Going(v: Vars, buf: seq<char>, pos: nat, was: seq<char>, sent: seq<char>,
                        es: seq<Echo>, echoes: seq<Echo>, since: nat, at: seq<Echo>)
    requires pos <= |buf|
  {
    && SinceKill(was, sent, since, v.kill) && sent[since..] == Translation(v, buf[..pos])
    && Left(at, es) && Left(echoes, at) && Left(echoes, es)
    && Within(Echoed(v, buf[..pos]), Bytes(Gone(at, echoes)))
  }

  lemma Begun(v: Vars, buf: seq<char>, was: seq<char>, sent: seq<char>,
              es: seq<Echo>, echoes: seq<Echo>, since: nat, at: seq<Echo>)
    requires SinceKill(was, sent, since, v.kill) && since == |sent|
    requires Left(echoes, es) && at == echoes
    ensures Going(v, buf, 0, was, sent, es, echoes, since, at)
  {
    assert sent[since..] == [] && buf[..0] == [];
  }

  /** A chunk has been sent, and its echo has come. */
  lemma ChunkDone(v: Vars, buf: seq<char>, pos: nat, next: nat, was: seq<char>, before: seq<char>, sent: seq<char>,
              es: seq<Echo>, heard: seq<Echo>, echoes: seq<Echo>, since: nat, at: seq<Echo>)
    requires pos <= next <= |buf| && Going(v, buf, pos, was, before, es, heard, since, at)
    requires sent == before + Translation(v, buf[pos..next]) && Left(echoes, heard)
    requires Within(Echoed(v, buf[pos..next]), Bytes(Gone(heard, echoes)))
    ensures Going(v, buf, next, was, sent, es, echoes, since, at)
  {
    GrownSince(was, before, sent, since, v.kill);
    SentSince(v, buf, pos, next, before, sent, since);
    HeardMore(v, buf, pos, next, at, heard, echoes);
    LeftStill(es, heard, echoes);
  }

  lemma QuitLeft(rest: seq<Echo>, es: seq<Echo>)
    requires Left(rest, es) && rest != [] && rest[0].Quit?
    ensures Has(es, Quit)
  {
    LeftHas(rest, es);
  }

  function Most(i: int): nat { if i < 0 then 0 else i }

  lemma SentSince(v: Vars, buf: seq<char>, pos: nat, next: nat, before: seq<char>, sent: seq<char>, since: nat)
    requires pos <= next <= |buf| && since <= |before|
    requires before[since..] == Translation(v, buf[..pos])
    requires sent == before + Translation(v, buf[pos..next])
    ensures sent[since..] == Translation(v, buf[..next])
  {
    SentChunk(v, buf, pos, next);
    assert sent[since..] == before[since..] + Translation(v, buf[pos..next]);
  }

  lemma SentChunk(v: Vars, buf: seq<char>, pos: nat, next: nat)
    requires pos <= next <= |buf|
    ensures Translation(v, buf[..next]) == Translation(v, buf[..pos]) + Translation(v, buf[pos..next])
  {
    assert buf[..next] == buf[..pos] + buf[pos..next];
    TranslationAppend(v, buf[..pos], buf[pos..next]);
  }

  lemma TranslatedMore(v: Vars, s: seq<char>, i: nat)
    requires i < |s|
    ensures Translation(v, s[..i + 1]) == Translation(v, s[..i]) + Translated(v, s[i])
  {
    SentChunk(v, s, i, i + 1);
    assert s[i..i + 1] == [s[i]];
    assert Translation(v, [s[i]]) == Translated(v, s[i]) + [];
  }

  lemma {:induction false} TranslationBound(v: Vars, s: seq<char>)
    ensures |Translation(v, s)| <= |s| * (PrefixLength(v) + 1)
  {
    if s != [] {
      TranslationBound(v, s[1..]);
      OneMore(|s[1..]|, PrefixLength(v) + 1);
    }
  }

  lemma OneMore(a: nat, n: nat)
    ensures (a + 1) * n == a * n + n
  {
  }

  /** zsendbuf is never overrun. */
  lemma TranslationFits(v: Vars, s: seq<char>)
    requires |s| <= CHUNK
    ensures |Translation(v, s)| <= CHUNK * (PrefixLength(v) + 1)
  {
    TranslationBound(v, s);
    AtMost(|s|, CHUNK, PrefixLength(v) + 1);
  }

  lemma AtMost(a: nat, b: nat, n: nat)
    requires a <= b
    ensures a * n <= b * n
  {
  }
}
