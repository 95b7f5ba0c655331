/** Names of spool files (unix/filnam.c): the sequence number, numbers in base 62, and the loops that
    look for a name that is not taken. */
module Names {

  type Name = seq<char>

  function Pow(b: nat, n: nat): (p: nat)
    requires b > 0
    ensures p > 0
  {
    if n == 0 then 1 else Pow(b, n - 1) * b
  }

  // ---------- the sequence number ----------

  const CSEQLEN: nat := 4

  predicate IsSeqChar(c: char) { '0' <= c <= '9' || 'A' <= c <= 'Z' }

  /** The value of a character of ZCHARS; any other character counts as the last one, Z. */
  function SeqDigit(c: char): (d: nat)
    ensures d < 36
  {
    if '0' <= c <= '9' then c as int - '0' as int
    else if 'A' <= c <= 'Z' then c as int - 'A' as int + 10
    else 35
  }

  function SeqValue(s: Name): nat {
    if s == [] then 0 else SeqValue(s[..|s| - 1]) * 36 + SeqDigit(s[|s| - 1])
  }

  const ZCHARS: Name := "0123456789ABCDEFGHIJKLMNOPQRSTUVWXYZ"

  /** The value of a character is its place in ZCHARS. */
  lemma SeqDigitIsPlace(c: char)
    requires IsSeqChar(c)
    ensures ZCHARS[SeqDigit(c)] == c
  {
  }

  lemma PlaceIsSeqDigit(d: nat)
    requires d < 36
    ensures IsSeqChar(ZCHARS[d]) && SeqDigit(ZCHARS[d]) == d
  {
  }

  /** The next character of ZCHARS. */
  function NextChar(c: char): (d: char)
    requires IsSeqChar(c) && c != 'Z'
    ensures IsSeqChar(d) && SeqDigit(d) == SeqDigit(c) + 1
  {
    if c == '9' then 'A' else (c as int + 1) as char
  }

  /** What the loop of fscmd_seq makes of the sequence number. */
  function Succ(s: Name): (t: Name)
    ensures |t| == |s|
  {
    if s == [] then []
    else
      var n := |s| - 1;
      if IsSeqChar(s[n]) && s[n] != 'Z' then s[..n] + [NextChar(s[n])] else Succ(s[..n]) + ['0']
  }

  /** One more, modulo m. */
  function Up(v: nat, m: nat): nat { if v + 1 == m then 0 else v + 1 }

  /** One more, modulo the number of sequence numbers, whatever was in the file. */
  lemma {:induction false} SuccIsPlusOne(s: Name)
    ensures SeqValue(s) < Pow(36, |s|)
    ensures SeqValue(Succ(s)) == Up(SeqValue(s), Pow(36, |s|))
  {
    if s != [] {
      var n := |s| - 1;
      var r, t := s[..n], Succ(s);
      SuccIsPlusOne(r);
      assert t[..n] == if IsSeqChar(s[n]) && s[n] != 'Z' then r else Succ(r);
      Carry(SeqValue(r), SeqDigit(s[n]), Pow(36, n));
    }
  }

  lemma Carry(v: nat, d: nat, p: nat)
    requires v < p && d < 36
    ensures v * 36 + d < p * 36
    ensures Up(v * 36 + d, p * 36) == if d < 35 then v * 36 + d + 1 else Up(v, p) * 36
  {
  }

  /** The loop of fscmd_seq. */
  method Increment(zseq: array<char>)
    modifies zseq
    ensures zseq[..] == Succ(old(zseq[..]))
  {
    var i := zseq.Length - 1;
    ghost var s := zseq[..];
    assert s[..i + 1] == s && zseq[i + 1..] == [];
    while i >= 0
      invariant -1 <= i < zseq.Length
      invariant Counting(s, zseq[..], i + 1)
      decreases i
    {
      ghost var now := zseq[..];
      CountOn(s, now, i);
      if !IsSeqChar(zseq[i]) || zseq[i] == 'Z' {
        zseq[i] := '0';
        assert zseq[..] == now[i := '0'];
      } else {
        zseq[i] := NextChar(zseq[i]);
        assert zseq[..] == now[i := NextChar(now[i])];
        return;
      }
      i := i - 1;
    }
    assert s[..0] == [];
  }

  /** The first n characters are still to be counted up; now holds the others already. */
  predicate Counting(s: Name, now: Name, n: nat) {
    n <= |s| == |now| && now[..n] == s[..n] && Succ(s) == Succ(s[..n]) + now[n..]
  }

  lemma CountOn(s: Name, now: Name, i: nat)
    requires Counting(s, now, i + 1)
    ensures if IsSeqChar(now[i]) && now[i] != 'Z' then now[i := NextChar(now[i])] == Succ(s)
            else Counting(s, now[i := '0'], i)
  {
    var head := s[..i + 1];
    assert head[..i] == s[..i] && now[..i + 1][i] == now[i] == head[i];
    assert now[..i] == now[..i + 1][..i] == s[..i];
    if IsSeqChar(now[i]) && now[i] != 'Z' {
      assert now[i := NextChar(now[i])] == s[..i] + [NextChar(now[i])] + now[i + 1..];
    } else {
      assert now[i := '0'][i..] == ['0'] + now[i + 1..];
    }
  }

  /** The sequence file, and the names that are taken. */
  class Sequence {
    /** The first characters of the file, if it has enough of them. */
    var content: Name

    constructor (content: Name)
      ensures this.content == content
    {
      this.content := content;
    }

    /** fscmd_seq, when the file can be locked, read and written. */
    method FscmdSeq() returns (zseq: Name)
      modifies this
      ensures |zseq| == CSEQLEN && content == zseq
      ensures zseq == Succ(Read(old(content)))
    {
      var a := new char[CSEQLEN](i requires 0 <= i < CSEQLEN reads this => Read(content)[i]);
      assert a[..] == Read(content);
      Increment(a);
      zseq, content := a[..], a[..];
    }

    /** The loop of zsfile_name. It ends as soon as it comes to a name that is not taken; within a
        full cycle no sequence number comes twice. */
    method ZsfileName(prefix: Name, taken: set<Name>) returns (name: Name, ghost tries: nat)
      requires exists k :: 0 < k <= Pow(36, CSEQLEN) && SequenceName(prefix, Read(content), k) !in taken
      modifies this
      ensures name !in taken && 0 < tries <= Pow(36, CSEQLEN)
      ensures name == SequenceName(prefix, Read(old(content)), tries)
      ensures content == Iterated(Read(old(content)), tries)
      ensures forall k | 0 < k < tries :: SequenceName(prefix, Read(old(content)), k) in taken
    {
      ghost var s := Read(content);
      ghost var end :| 0 < end <= Pow(36, CSEQLEN) && SequenceName(prefix, s, end) !in taken;
      var zseq := FscmdSeq();
      name, tries := prefix + zseq, 1;
      assert Iterated(s, 0) == s;
      while name in taken
        invariant 0 < tries <= end && content == zseq == Iterated(s, tries) && name == SequenceName(prefix, s, tries)
        invariant forall k | 0 < k < tries :: SequenceName(prefix, s, k) in taken
        decreases end - tries
      {
        assert Read(content) == content;
        zseq := FscmdSeq();
        name, tries := prefix + zseq, tries + 1;
      }
    }
  }

  function Read(content: Name): (s: Name)
    ensures |s| == CSEQLEN
  {
    if |content| < CSEQLEN then "0000" else content[..CSEQLEN]
  }

  /** The name for the k-th sequence number after s. */
  function SequenceName(prefix: Name, s: Name, k: nat): Name { prefix + Iterated(s, k) }

  /** The sequence number after n increments. */
  function Iterated(s: Name, n: nat): (t: Name)
    ensures |t| == |s|
  {
    if n == 0 then s else Succ(Iterated(s, n - 1))
  }

  lemma ModUnique(x: int, m: nat, q: int, r: int)
    requires m > 0 && x == q * m + r && 0 <= r < m
    ensures x % m == r
  {
    var d := x / m - q;
    assert x == m * (x / m) + x % m;
    assert d * m == r - x % m;
    if d > 0 { AtLeast(d, m); } else if d < 0 { AtLeast(-d, m); }
  }

  lemma AtLeast(d: int, m: nat)
    requires d >= 1
    ensures d * m >= m
  {
  }

  /** Adding less than the modulus wraps at most once. */
  lemma AddMod(a: int, d: nat, m: nat)
    requires d < m
    ensures (a + d) % m == if a % m + d < m then a % m + d else a % m + d - m
  {
    var q, r := a / m, a % m;
    assert a == q * m + r;
    if r + d < m {
      ModUnique(a + d, m, q, r + d);
    } else {
      assert (q + 1) * m == q * m + m;
      ModUnique(a + d, m, q + 1, r + d - m);
    }
  }

  /** Numbers that are apart by less than the modulus differ modulo it. */
  lemma ModDistinct(a: int, b: int, m: nat)
    requires a < b < a + m
    ensures a % m != b % m
  {
    AddMod(a, b - a, m);
  }

  /** Counting n times from v on, modulo m. */
  function Counted(v: nat, n: nat, m: nat): nat {
    if n == 0 then v else Up(Counted(v, n - 1, m), m)
  }

  lemma {:induction false} CountedValue(v: nat, n: nat, m: nat, a: nat)
    requires v < m && a == v + n
    ensures Counted(v, n, m) == a % m
  {
    if n == 0 {
      SmallMod(v, m);
    } else {
      CountedValue(v, n - 1, m, a - 1);
      UpIsNext(a - 1, a, m);
    }
  }

  lemma UpIsNext(a: nat, b: nat, m: nat)
    requires m > 0 && b == a + 1
    ensures Up(a % m, m) == b % m
  {
    if m > 1 { AddMod(a, 1, m); }
  }

  lemma SmallMod(x: nat, m: nat)
    requires x < m
    ensures x % m == x
  {
  }

  lemma {:induction false} IteratedCounts(s: Name, n: nat, m: nat)
    requires m == Pow(36, |s|)
    ensures SeqValue(Iterated(s, n)) == Counted(SeqValue(s), n, m)
  {
    if n > 0 {
      IteratedCounts(s, n - 1, m);
      SuccIsPlusOne(Iterated(s, n - 1));
    }
  }

  lemma IteratedValue(s: Name, n: nat, m: nat)
    requires m == Pow(36, |s|)
    ensures SeqValue(Iterated(s, n)) == (SeqValue(s) + n) % m
  {
    SuccIsPlusOne(s);
    IteratedCounts(s, n, m);
    CountedValue(SeqValue(s), n, m, SeqValue(s) + n);
  }

  // ---------- fewer names taken than there are ----------

  function Candidates(cand: nat -> Name, n: nat): (r: set<Name>)
  {
    if n == 0 then {} else Candidates(cand, n - 1) + {cand(n - 1)}
  }

  lemma {:induction false} CandidateIs(cand: nat -> Name, n: nat, z: Name) returns (k: nat)
    requires z in Candidates(cand, n)
    ensures k < n && cand(k) == z
  {
    if z == cand(n - 1) { k := n - 1; } else { k := CandidateIs(cand, n - 1, z); }
  }

  lemma {:induction false} CandidatesCount(cand: nat -> Name, n: nat)
    requires forall i, j | 0 <= i < j < n :: cand(i) != cand(j)
    ensures |Candidates(cand, n)| == n
  {
    if n > 0 {
      CandidatesCount(cand, n - 1);
      if cand(n - 1) in Candidates(cand, n - 1) {
        var k := CandidateIs(cand, n - 1, cand(n - 1));
      }
    }
  }

  lemma SubsetCount(a: set<Name>, b: set<Name>)
    requires a <= b
    ensures |a| <= |b|
  {
    assert b == a + (b - a);
  }

  /** Among n different names one is free if fewer than n are taken. */
  lemma SomeNameIsFree(cand: nat -> Name, n: nat, taken: set<Name>)
    requires forall i, j | 0 <= i < j < n :: cand(i) != cand(j)
    requires |taken| < n
    ensures exists k :: 0 <= k < n && cand(k) !in taken
  {
    CandidatesCount(cand, n);
    if Candidates(cand, n) <= taken { SubsetCount(Candidates(cand, n), taken); }
    var z :| z in Candidates(cand, n) && z !in taken;
    var k := CandidateIs(cand, n, z);
  }

  /** zsfile_name ends if fewer names are taken than there are sequence numbers. */
  lemma SequenceLoopEnds(prefix: Name, s: Name, taken: set<Name>, n: nat)
    requires n == Pow(36, |s|) && |taken| < n
    ensures exists k :: 0 < k <= n && SequenceName(prefix, s, k) !in taken
  {
    forall i: nat, j: nat | 0 < i < j <= n ensures SequenceName(prefix, s, i) != SequenceName(prefix, s, j) {
      SequenceNamesDiffer(prefix, s, i, j, n);
    }
    SomeNumberIsFree(prefix, s, taken, n);
  }

  lemma SomeNumberIsFree(prefix: Name, s: Name, taken: set<Name>, n: nat)
    requires |taken| < n
    requires forall i: nat, j: nat | 0 < i < j <= n :: SequenceName(prefix, s, i) != SequenceName(prefix, s, j)
    ensures exists k :: 0 < k <= n && SequenceName(prefix, s, k) !in taken
  {
    var cand := Numbered(prefix, s);
    assert forall i: nat, j: nat | 0 <= i < j < n :: cand(i) != cand(j);
    SomeNameIsFree(cand, n, taken);
    var k :| 0 <= k < n && cand(k) !in taken;
    assert SequenceName(prefix, s, k + 1) !in taken;
  }

  function Numbered(prefix: Name, s: Name): nat -> Name {
    (k: nat) => SequenceName(prefix, s, k + 1)
  }

  lemma PrefixKeepsApart(prefix: Name, x: Name, y: Name)
    requires x != y
    ensures prefix + x != prefix + y
  {
    assert (prefix + x)[|prefix|..] == x && (prefix + y)[|prefix|..] == y;
  }

  lemma SequenceNamesDiffer(prefix: Name, s: Name, i: nat, j: nat, m: nat)
    requires i < j < i + m && m == Pow(36, |s|)
    ensures SequenceName(prefix, s, i) != SequenceName(prefix, s, j)
  {
    IteratedDiffer(s, i, j, m);
    PrefixKeepsApart(prefix, Iterated(s, i), Iterated(s, j));
  }

  lemma IteratedDiffer(s: Name, i: nat, j: nat, m: nat)
    requires i < j < i + m && m == Pow(36, |s|)
    ensures Iterated(s, i) != Iterated(s, j)
  {
    var a := SeqValue(s);
    IteratedValue(s, i, m);
    IteratedValue(s, j, m);
    ModDistinct(a + i, a + j, m);
    assert SeqValue(Iterated(s, i)) != SeqValue(Iterated(s, j));
  }

  // ---------- base 62 ----------

  function Digit62(d: nat): (c: char)
    requires d < 62
    ensures Value62(c) == d
  {
    if d < 26 then ('A' as int + d) as char
    else if d < 52 then ('a' as int + d - 26) as char
    else ('0' as int + d - 52) as char
  }

  function Value62(c: char): int {
    if 'A' <= c <= 'Z' then c as int - 'A' as int
    else if 'a' <= c <= 'z' then c as int - 'a' as int + 26
    else c as int - '0' as int + 52
  }

  /** The digits in their order. */
  lemma DigitsInOrder(d: nat)
    requires d < 62
    ensures Digit62(d) == ("ABCDEFGHIJKLMNOPQRSTUVWXYZ" + "abcdefghijklmnopqrstuvwxyz" + "0123456789")[d]
  {
  }

  function Base62(i: nat, c: nat): (z: Name)
    ensures |z| == c
  {
    if c == 0 then [] else Base62(i / 62, c - 1) + [Digit62(i % 62)]
  }

  /** usput62: c characters of z from at on. */
  method Usput62(n: nat, z: array<char>, at: nat, c: nat)
    requires at + c <= z.Length
    modifies z
    ensures z[at..at + c] == Base62(n, c)
    ensures z[..at] == old(z[..at]) && z[at + c..] == old(z[at + c..])
  {
    var i, k := n, c;
    ghost var was := z[..];
    assert z[at + c..at + c] == [];
    while k > 0
      invariant 0 <= k <= c && i >= 0
      invariant z[..at] == was[..at] && z[at + c..] == was[at + c..]
      invariant Base62(n, c) == Base62(i, k) + z[at + k..at + c]
    {
      k := k - 1;
      ghost var done := z[at + k + 1..at + c];
      z[at + k] := Digit62(i % 62);
      assert z[at + k..at + c] == [Digit62(i % 62)] + done;
      i := i / 62;
    }
  }

  /** Numbers that fit are told apart. */
  lemma {:induction false} Base62IsInjective(i: nat, j: nat, c: nat)
    requires i < Pow(62, c) && j < Pow(62, c) && Base62(i, c) == Base62(j, c)
    ensures i == j
  {
    if c > 0 {
      assert Base62(i, c)[..c - 1] == Base62(i / 62, c - 1) && Base62(j, c)[..c - 1] == Base62(j / 62, c - 1);
      assert Base62(i, c)[c - 1] == Digit62(i % 62) && Base62(j, c)[c - 1] == Digit62(j % 62);
      Base62IsInjective(i / 62, j / 62, c - 1);
    }
  }

  const DIGITS3: nat := 238328

  /** How many pairs of numbers of three digits there are: 62 to the sixth. */
  const MOMENTS: nat := DIGITS3 * DIGITS3

  /** A moment is a number of seconds and one of microseconds, of three digits each. */
  function CommandName(grade: char, t: nat, pid: nat): (z: Name)
    ensures |z| == 14
  {
    NameOf(grade, t / DIGITS3, t % DIGITS3, pid)
  }

  function NameOf(grade: char, isecs: nat, imicros: nat, pid: nat): (z: Name)
    ensures |z| == 14
  {
    ['C', '.', grade] + Base62(isecs, 3) + Base62(imicros, 3) + Base62(pid, 5)
  }

  method PutName(grade: char, isecs: nat, imicros: nat, pid: nat) returns (z: Name)
    ensures z == NameOf(grade, isecs, imicros, pid)
  {
    var ab := new char[14];
    ab[0], ab[1], ab[2] := 'C', '.', grade;
    assert ab[..3] == ['C', '.', grade];
    Usput62(isecs, ab, 3, 3);
    ghost var a := ab[..6];
    assert a == ['C', '.', grade] + Base62(isecs, 3);
    Usput62(imicros, ab, 6, 3);
    assert ab[..9] == a + Base62(imicros, 3);
    ghost var b := ab[..9];
    Usput62(pid, ab, 9, 5);
    z := ab[..];
    assert z == b + Base62(pid, 5);
  }

  lemma Parts(isecs: nat, imicros: nat)
    requires imicros < DIGITS3
    ensures (isecs * DIGITS3 + imicros) / DIGITS3 == isecs
    ensures (isecs * DIGITS3 + imicros) % DIGITS3 == imicros
  {
  }

  lemma CommandNameIsInjective(grade: char, t: nat, u: nat, pid: nat)
    requires t < MOMENTS && u < MOMENTS && CommandName(grade, t, pid) == CommandName(grade, u, pid)
    ensures t == u
  {
    var y, z := CommandName(grade, t, pid), CommandName(grade, u, pid);
    assert y[3..6] == Base62(t / DIGITS3, 3) && z[3..6] == Base62(u / DIGITS3, 3);
    assert y[6..9] == Base62(t % DIGITS3, 3) && z[6..9] == Base62(u % DIGITS3, 3);
    assert Pow(62, 3) == DIGITS3;
    Base62IsInjective(t / DIGITS3, u / DIGITS3, 3);
    Base62IsInjective(t % DIGITS3, u % DIGITS3, 3);
  }

  /** k moments back, over the beginning to the end. */
  function Back(t: nat, k: nat): (u: nat)
    ensures u < MOMENTS
  {
    (t - k) % MOMENTS
  }

  lemma BackOnce(t: nat, k: nat)
    ensures Back(t, k + 1) == if Back(t, k) == 0 then MOMENTS - 1 else Back(t, k) - 1
  {
    AddMod(t - k - 1, 1, MOMENTS);
  }

  /** zscmd_file ends if fewer names are taken than there are moments. */
  lemma CommandLoopEnds(grade: char, t: nat, pid: nat, taken: set<Name>)
    requires |taken| < MOMENTS
    ensures exists k {:trigger Back(t, k)} :: 0 <= k < MOMENTS && CommandName(grade, Back(t, k), pid) !in taken
  {
    var cand := (k: nat) => CommandName(grade, Back(t, k), pid);
    forall i: nat, j: nat | 0 <= i < j < MOMENTS ensures cand(i) != cand(j) {
      ModDistinct(t - j, t - i, MOMENTS);
      if cand(i) == cand(j) { CommandNameIsInjective(grade, Back(t, i), Back(t, j), pid); }
    }
    SomeNameIsFree(cand, MOMENTS, taken);
    var k :| 0 <= k < MOMENTS && cand(k) !in taken;
    assert CommandName(grade, Back(t, k), pid) !in taken;
  }

  /** zscmd_file: backward in time until a name is free. No name comes twice before that. */
  method ZscmdFile(grade: char, time: nat, micros: nat, pid: nat, taken: set<Name>)
    returns (name: Name, ghost tries: nat)
    requires var t := time % 86400 * DIGITS3 + micros % 1000000 / 5;
             exists k {:trigger Back(t, k)} :: 0 <= k < MOMENTS && CommandName(grade, Back(t, k), pid) !in taken
    ensures name !in taken && tries < MOMENTS
    ensures var t := time % 86400 * DIGITS3 + micros % 1000000 / 5;
            name == CommandName(grade, Back(t, tries), pid)
            && forall k | 0 <= k < tries :: CommandName(grade, Back(t, k), pid) in taken
  {
    var isecs, imicros := time % 86400, micros % 1000000 / 5;
    ghost var t := isecs * DIGITS3 + imicros;
    ghost var end :| 0 <= end < MOMENTS && CommandName(grade, Back(t, end), pid) !in taken;
    SmallMod(t, MOMENTS);
    tries := 0;
    while true
      invariant 0 <= isecs < DIGITS3 && 0 <= imicros < DIGITS3 && tries <= end
      invariant Back(t, tries) == isecs * DIGITS3 + imicros
      invariant forall k | 0 <= k < tries :: CommandName(grade, Back(t, k), pid) in taken
      decreases end - tries
    {
      Parts(isecs, imicros);
      name := PutName(grade, isecs, imicros, pid);
      if name !in taken {
        return;
      }
      BackOnce(t, tries);
      if imicros == 0 {
        imicros := DIGITS3;
        if isecs == 0 {
          isecs := DIGITS3;
        }
        isecs := isecs - 1;
      }
      imicros := imicros - 1;
      tries := tries + 1;
    }
  }
}
