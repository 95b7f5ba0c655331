/** Quoting and in-place unquoting of strings: lib/quotes.c and lib/escape.c. A C string is what
    precedes its terminating NUL. */
module Escape {

  type CString = seq<char>

  predicate IsByte(c: char) { c as int < 256 }

  /** What a C string can hold. */
  predicate IsCString(s: CString) {
    forall i | 0 <= i < |s| :: s[i] != '\0' && IsByte(s[i])
  }

  /** The string a pointer to s denotes, when s may hold a NUL. */
  function UpToNul(s: seq<char>): (r: CString)
    ensures |r| <= |s|
    ensures (forall i | 0 <= i < |s| :: s[i] != '\0') ==> r == s
  {
    if s == [] || s[0] == '\0' then [] else [s[0]] + UpToNul(s[1..])
  }

  // ---------- quoting ----------

  /** isgraph in the C locale. */
  predicate IsGraph(c: char) { '!' <= c <= '~' }

  function Digit(d: nat): (c: char)
    requires d < 8
    ensures IsOctal(c) && c as int - '0' as int == d && IsGraph(c)
  {
    ('0' as int + d) as char
  }

  function QuoteChar(c: char, backslashOnly: bool): (r: CString)
    requires IsByte(c)
    ensures 1 <= |r| <= 4
  {
    if c == '\\' then "\\\\"
    else if backslashOnly || IsGraph(c) then [c]
    else ['\\', Digit(c as int / 64), Digit(c as int / 8 % 8), Digit(c as int % 8)]
  }

  function Quote(s: CString, backslashOnly: bool): (r: CString)
    requires IsCString(s)
    ensures |s| <= |r| <= 4 * |s|
  {
    if s == [] then [] else QuoteChar(s[0], backslashOnly) + Quote(s[1..], backslashOnly)
  }

  /** zquote_cmd_string: the buffer of 4n + 1 characters always suffices. */
  method QuoteCommandString(orig: CString, backslashOnly: bool) returns (ret: array<char>, ghost to: nat)
    requires IsCString(orig)
    ensures fresh(ret) && to < ret.Length && ret[to] == '\0'
    ensures ret[..to] == Quote(orig, backslashOnly)
  {
    ret := new char[|orig| * 4 + 1];
    var t: nat, i: nat := 0, 0;
    while i < |orig|
      invariant 0 <= i <= |orig| && t <= 4 * i
      invariant ret[..t] + Quote(orig[i..], backslashOnly) == Quote(orig, backslashOnly)
    {
      ghost var done := ret[..t];
      var q := QuoteChar(orig[i], backslashOnly);
      t := Append(ret, t, q);
      QuoteRest(orig, i, backslashOnly, done);
      i := i + 1;
    }
    ret[t] := '\0';
    to := t;
  }

  lemma QuoteRest(s: CString, i: nat, backslashOnly: bool, done: CString)
    requires IsCString(s) && i < |s|
    ensures done + Quote(s[i..], backslashOnly)
            == (done + QuoteChar(s[i], backslashOnly)) + Quote(s[i + 1..], backslashOnly)
  {
    assert s[i..][1..] == s[i + 1..];
  }

  method Append(a: array<char>, t: nat, q: CString) returns (u: nat)
    requires t + |q| <= a.Length
    modifies a
    ensures u == t + |q| && a[..u] == old(a[..t]) + q
  {
    forall k | 0 <= k < |q| { a[t + k] := q[k]; }
    u := t + |q|;
  }

  // ---------- unquoting ----------

  predicate IsOctal(c: char) { '0' <= c <= '7' }

  predicate IsDigit(c: char) { '0' <= c <= '9' }

  predicate IsHex(c: char) { '0' <= c <= '9' || 'a' <= c <= 'f' || 'A' <= c <= 'F' }

  function HexValue(c: char): nat
    requires IsHex(c)
  {
    if IsDigit(c) then c as int - '0' as int
    else if 'A' <= c <= 'F' then c as int - 'A' as int + 10
    else c as int - 'a' as int + 10
  }

  function Value(c: char): int { c as int - '0' as int }

  datatype Piece = Piece(c: char, length: nat)

  /** The hexadecimal number s starts with, modulo 256, and its length; i precedes s. */
  function Hexadecimal(s: CString, i: nat): (p: Piece)
    requires i < 256
    ensures p.length <= |s|
    decreases |s|
  {
    if s == [] || !IsHex(s[0]) then Piece(i as char, 0)
    else
      var p := Hexadecimal(s[1..], (16 * i + HexValue(s[0])) % 256);
      Piece(p.c, 1 + p.length)
  }

  /** The character an escape sequence stands for, and the length of the sequence. */
  function Sequence(s: CString): (p: Piece)
    requires |s| >= 2
    ensures 2 <= p.length <= |s|
  {
    var c := s[1];
    if c == 'b' then Piece('\U{0008}', 2)
    else if c == 'n' then Piece('\n', 2)
    else if c == 'N' then Piece('\0', 2)
    else if c == 'r' then Piece('\r', 2)
    else if c == 's' then Piece(' ', 2)
    else if c == 't' then Piece('\t', 2)
    else if IsDigit(c) then
      if |s| == 2 || !IsOctal(s[2]) then Piece(Value(c) as char, 2)
      else if |s| == 3 || !IsOctal(s[3]) then Piece((8 * Value(c) + Value(s[2])) as char, 3)
      else Piece(((64 * Value(c) + 8 * Value(s[2]) + Value(s[3])) % 256) as char, 4)
    else if c == 'x' then
      var p := Hexadecimal(s[2..], 0);
      Piece(p.c, 2 + p.length)
    else Piece(c, 2)
  }

  /** The first character of the result. A backslash at the very end stands for itself. */
  function Head(s: CString): (p: Piece)
    requires s != []
    ensures 1 <= p.length <= |s|
  {
    if s[0] == '\\' && |s| > 1 then Sequence(s) else Piece(s[0], 1)
  }

  /** What cescape makes of a string. */
  function Unescape(s: CString): (r: seq<char>)
    ensures |r| <= |s|
  {
    if s == [] then [] else [Head(s).c] + Unescape(s[Head(s).length..])
  }

  /** A hexadecimal number, up to the NUL at e. */
  method DecodeHex(a: array<char>, from: nat, ghost e: nat) returns (c: char, next: nat)
    requires from <= e < a.Length && a[e] == '\0'
    ensures from <= next <= e
    ensures Piece(c, next - from) == Hexadecimal(a[from..e], 0)
  {
    var i: nat := 0;
    next := from;
    while IsHex(a[next])
      invariant from <= next <= e && i < 256
      invariant var p := Hexadecimal(a[next..e], i);
                Hexadecimal(a[from..e], 0) == Piece(p.c, next - from + p.length)
      decreases e - next
    {
      assert a[next..e][1..] == a[next + 1..e];
      i := (16 * i + HexValue(a[next])) % 256;
      next := next + 1;
    }
    c := i as char;
  }

  /** One escape sequence, up to the NUL at e. */
  method DecodeSequence(a: array<char>, from: nat, ghost e: nat) returns (c: char, next: nat)
    requires from + 1 < e < a.Length && a[e] == '\0'
    ensures from < next <= e
    ensures Piece(c, next - from) == Sequence(a[from..e])
  {
    ghost var s := a[from..e];
    c, next := a[from + 1], from + 2;
    assert c == s[1];
    if c == 'b' { c := '\U{0008}'; }
    else if c == 'n' { c := '\n'; }
    else if c == 'N' { c := '\0'; }
    else if c == 'r' { c := '\r'; }
    else if c == 's' { c := ' '; }
    else if c == 't' { c := '\t'; }
    else if IsDigit(c) {
      var i := Value(c);
      assert |s| > 2 ==> a[next] == s[2];
      assert |s| > 3 ==> a[next + 1] == s[3];
      if IsOctal(a[next]) {
        i := 8 * i + Value(a[next]);
        next := next + 1;
        if IsOctal(a[next]) {
          i := 8 * i + Value(a[next]);
          next := next + 1;
        }
      }
      c := (i % 256) as char;
    } else if c == 'x' {
      assert s[2..] == a[next..e];
      c, next := DecodeHex(a, next, e);
    }
  }

  /** The character to write next, and where to read on. */
  method NextPiece(a: array<char>, ghost now: seq<char>, from: nat, ghost e: nat)
    returns (c: char, next: nat)
    requires now == a[..] && from < e < |now| && IsCString(now[from..e]) && now[e] == '\0'
    ensures from < next <= e
    ensures Piece(c, next - from) == Head(now[from..e])
  {
    assert now[from..e] == a[from..e];
    ghost var s := a[from..e];
    c, next := a[from], from + 1;
    assert c == s[0];
    assert |s| > 1 ==> a[from + 1] == s[1];
    if c == '\\' && a[from + 1] != '\0' {
      c, next := DecodeSequence(a, from, e);
    }
  }

  /** In front of z and from `from` on nothing has changed. */
  ghost predicate Framed(was: seq<char>, now: seq<char>, z: nat, from: nat) {
    && |was| == |now|
    && forall k {:trigger now[k]} | 0 <= k < |was| && (k < z || from <= k) :: now[k] == was[k]
  }

  /** cescape between two rounds of its loop: what is written is the result up to what is read. */
  ghost predicate Rewriting(was: seq<char>, now: seq<char>, z: nat, to: nat, from: nat, e: nat) {
    && Framed(was, now, z, from) && z <= to <= from <= e < |was|
    && now[z..to] + Unescape(was[from..e]) == Unescape(was[z..e])
  }

  lemma Rewritten(was: seq<char>, now: seq<char>, z: nat, to: nat, from: nat, e: nat,
                  c: char, next: nat, then_: seq<char>)
    requires Rewriting(was, now, z, to, from, e) && from < next <= e
    requires Piece(c, next - from) == Head(was[from..e]) && then_ == now[to := c]
    ensures Rewriting(was, then_, z, to + 1, next, e)
  {
    FramedStill(was, now, z, from, to, c, next);
    RewrittenText(was[from..e], c, next - from, now[z..to], Unescape(was[z..e]), was[next..e], then_[z..to + 1]) by {
      Extended(now, z, to, c);
      Rest(was, from, next, e);
    }
  }

  lemma RewrittenText(s: CString, c: char, n: nat, done: seq<char>, whole: seq<char>, rest: CString, more: seq<char>)
    requires s != [] && Head(s) == Piece(c, n) && done + Unescape(s) == whole
    requires rest == s[n..] && more == done + [c]
    ensures more + Unescape(rest) == whole
  {
    PieceTaken(done, s, c, n, whole);
  }

  lemma FramedStill(was: seq<char>, now: seq<char>, z: nat, from: nat, to: nat, c: char, next: nat)
    requires Framed(was, now, z, from) && z <= to < next <= |now| && from <= next
    ensures Framed(was, now[to := c], z, next)
  {
  }

  lemma Extended(now: seq<char>, z: nat, to: nat, c: char)
    requires z <= to < |now|
    ensures now[to := c][z..to + 1] == now[z..to] + [c]
  {
  }

  lemma Rest(s: seq<char>, from: nat, next: nat, e: nat)
    requires from <= next <= e <= |s|
    ensures s[from..e][next - from..] == s[next..e]
  {
  }

  lemma PieceTaken(done: seq<char>, s: CString, c: char, n: nat, whole: seq<char>)
    requires s != [] && Head(s) == Piece(c, n) && done + Unescape(s) == whole
    ensures (done + [c]) + Unescape(s[n..]) == whole
  {
  }

  lemma Unread(was: seq<char>, now: seq<char>, z: nat, to: nat, from: nat, e: nat)
    requires Rewriting(was, now, z, to, from, e)
    requires was[e] == '\0' && IsCString(was[z..e])
    ensures now[from] == '\0' <==> from == e
    ensures now[from..e] == was[from..e] && IsCString(now[from..e]) && now[e] == '\0'
  {
    assert was[from..e] == was[z..e][from - z..];
    if from < e { assert was[from] == was[z..e][from - z]; }
  }

  /** A round of the loop. */
  method NextRound(a: array<char>, ghost s: seq<char>, ghost z: nat, to: nat, from: nat, ghost e: nat)
    returns (next: nat)
    requires Rewriting(s, a[..], z, to, from, e) && from < e
    requires s[e] == '\0' && IsCString(s[z..e])
    modifies a
    ensures from < next
    ensures Rewriting(s, a[..], z, to + 1, next, e)
  {
    ghost var now := a[..];
    Unread(s, now, z, to, from, e);
    var c;
    c, next := NextPiece(a, now, from, e);
    a[to] := c;
    assert a[..] == now[to := c];
    Rewritten(s, now, z, to, from, e, c, next, a[..]);
  }

  lemma Finished(was: seq<char>, now: seq<char>, z: nat, to: nat, e: nat, end: seq<char>)
    requires Rewriting(was, now, z, to, e, e) && was[e] == '\0' && end == now[to := '\0']
    ensures end[z..to] == Unescape(was[z..e]) && end[to] == '\0'
    ensures forall k | 0 <= k < z || e <= k < |was| :: end[k] == was[k]
  {
    assert was[e..e] == [];
    assert end[z..to] == now[z..to] == now[z..to] + [];
  }

  /** cescape: in place, the write position never passing the read position. */
  method Cescape(a: array<char>, z: nat, ghost e: nat) returns (n: nat)
    requires z <= e < a.Length && a[e] == '\0' && IsCString(a[z..e])
    modifies a
    ensures n == |Unescape(old(a[z..e]))| && z + n <= e
    ensures a[z..z + n] == Unescape(old(a[z..e])) && a[z + n] == '\0'
    ensures forall k | 0 <= k < z || e <= k < a.Length :: a[k] == old(a[k])
  {
    var to: nat, from: nat := z, z;
    ghost var s := a[..];
    assert s[z..e] == a[z..e];
    Unread(s, s, z, to, from, e);
    while a[from] != '\0'
      invariant Rewriting(s, a[..], z, to, from, e)
      invariant a[from] == '\0' <==> from == e
      decreases e - from
    {
      from := NextRound(a, s, z, to, from, e);
      to := to + 1;
      Unread(s, a[..], z, to, from, e);
    }
    ghost var now := a[..];
    n := to - z;
    a[to] := '\0';
    Finished(s, now, z, to, e, a[..]);
    assert a[..][z..z + n] == a[z..z + n];
  }

  // ---------- what the sequences mean ----------

  lemma Reads(head: CString, c: char, rest: CString)
    requires head != [] && Head(head + rest) == Piece(c, |head|)
    ensures Unescape(head + rest) == [c] + Unescape(rest)
  {
    assert (head + rest)[|head|..] == rest;
  }

  /** A character that is no backslash stands for itself, and so does a backslash at the very end. */
  lemma PlainMeans(c: char, rest: CString)
    requires c != '\\' || rest == []
    ensures Unescape([c] + rest) == [c] + Unescape(rest)
  {
    Reads([c], c, rest);
  }

  /** Backspace, newline, NUL, carriage return, space and tab; any other character but a digit and x is
      the character itself. */
  lemma LetterMeans(c: char, rest: CString)
    requires c != 'x' && !('0' <= c <= '9')
    ensures Unescape(['\\', c] + rest)
            == [match c
                case 'b' => 8 as char
                case 'n' => 10 as char
                case 'N' => 0 as char
                case 'r' => 13 as char
                case 's' => 32 as char
                case 't' => 9 as char
                case _ => c] + Unescape(rest)
  {
    var s := ['\\', c] + rest;
    assert s[0] == '\\' && s[1] == c;
    Reads(['\\', c], Sequence(s).c, rest);
  }

  predicate StartsOctal(s: CString) { s != [] && '0' <= s[0] <= '7' }

  /** A digit is followed by up to two octal digits; together they are one octal number, modulo 256. */
  lemma OctalMeans(i: nat, j: nat, k: nat, rest: CString)
    requires i < 10 && j < 8 && k < 8
    ensures var a, b, c := ('0' as int + i) as char, ('0' as int + j) as char, ('0' as int + k) as char;
            && (!StartsOctal(rest) ==> Unescape(['\\', a] + rest) == [i as char] + Unescape(rest))
            && (!StartsOctal(rest) ==> Unescape(['\\', a, b] + rest) == [(8 * i + j) as char] + Unescape(rest))
            && Unescape(['\\', a, b, c] + rest) == [((64 * i + 8 * j + k) % 256) as char] + Unescape(rest)
  {
    var a, b, c := ('0' as int + i) as char, ('0' as int + j) as char, ('0' as int + k) as char;
    if !StartsOctal(rest) {
      var s1, s2 := ['\\', a] + rest, ['\\', a, b] + rest;
      assert s1[1] == a && (|s1| > 2 ==> s1[2] == rest[0]);
      Reads(['\\', a], i as char, rest);
      assert s2[1] == a && s2[2] == b && (|s2| > 3 ==> s2[3] == rest[0]);
      Reads(['\\', a, b], (8 * i + j) as char, rest);
    }
    var s3 := ['\\', a, b, c] + rest;
    assert s3[1] == a && s3[2] == b && s3[3] == c;
    Reads(['\\', a, b, c], ((64 * i + 8 * j + k) % 256) as char, rest);
  }

  /** The number that hexadecimal digits denote. */
  function HexNumber(digits: seq<nat>): nat {
    if digits == [] then 0 else 16 * HexNumber(digits[..|digits| - 1]) + digits[|digits| - 1]
  }

  const LOWER := "0123456789abcdef"
  const UPPER := "0123456789ABCDEF"

  predicate IsHexDigit(c: char, d: nat) { d < 16 && (c == LOWER[d] || c == UPPER[d]) }

  /** These characters are the hexadecimal digits. */
  lemma HexDigits(c: char)
    ensures IsHex(c) <==> exists d :: IsHexDigit(c, d)
    ensures forall d | IsHexDigit(c, d) :: HexValue(c) == d
  {
    if IsHex(c) { assert IsHexDigit(c, HexValue(c)); }
  }

  lemma {:induction false} HexadecimalIs(s: CString, digits: seq<nat>, rest: CString, i: nat, n: nat)
    requires |s| == |digits| && (rest == [] || !IsHex(rest[0])) && i == n % 256
    requires forall k | 0 <= k < |s| :: IsHexDigit(s[k], digits[k])
    ensures Hexadecimal(s + rest, i) == Piece((HexFrom(n, digits) % 256) as char, |s|)
    decreases |s|
  {
    if s == [] {
      assert s + rest == rest;
    } else {
      HexDigits(s[0]);
      assert IsHexDigit(s[0], digits[0]);
      assert (s + rest)[1..] == s[1..] + rest;
      Modulo(n, i, digits[0]);
      HexadecimalIs(s[1..], digits[1..], rest, (16 * i + digits[0]) % 256, 16 * n + digits[0]);
    }
  }

  lemma Modulo(n: nat, i: nat, d: nat)
    requires i == n % 256
    ensures (16 * i + d) % 256 == (16 * n + d) % 256
  {
    var q := n / 256;
    assert n == 256 * q + i;
    Multiples(16 * q, 16 * i + d, 16 * n + d);
  }

  lemma Multiples(q: nat, y: nat, x: nat)
    requires x == 256 * q + y
    ensures x % 256 == y % 256
  {
  }

  function HexFrom(n: nat, digits: seq<nat>): nat
    decreases |digits|
  {
    if digits == [] then n else HexFrom(16 * n + digits[0], digits[1..])
  }

  lemma {:induction false} HexFromIs(n: nat, digits: seq<nat>)
    ensures digits != [] ==>
              HexFrom(n, digits) == 16 * HexFrom(n, digits[..|digits| - 1]) + digits[|digits| - 1]
    decreases |digits|
  {
    if |digits| > 1 {
      HexFromIs(16 * n + digits[0], digits[1..]);
      assert digits[1..][..|digits| - 2] == digits[..|digits| - 1][1..];
    } else if digits != [] {
      assert digits[1..] == [] && digits[..0] == [];
    }
  }

  lemma {:induction false} HexFromZero(digits: seq<nat>)
    ensures HexFrom(0, digits) == HexNumber(digits)
    decreases |digits|
  {
    if digits != [] {
      HexFromIs(0, digits);
      HexFromZero(digits[..|digits| - 1]);
    }
  }

  /** x is followed by any number of hexadecimal digits, of whose number the low eight bits count. */
  lemma HexMeans(s: CString, digits: seq<nat>, rest: CString)
    requires |s| == |digits| && (rest == [] || !IsHex(rest[0]))
    requires forall k | 0 <= k < |s| :: IsHexDigit(s[k], digits[k])
    ensures Unescape((['\\', 'x'] + s) + rest) == [(HexNumber(digits) % 256) as char] + Unescape(rest)
  {
    HexadecimalIs(s, digits, rest, 0, 0);
    HexFromZero(digits);
    HeadIsHex(s, rest);
    Reads(['\\', 'x'] + s, (HexNumber(digits) % 256) as char, rest);
  }

  lemma HeadIsHex(s: CString, rest: CString)
    ensures var p := Hexadecimal(s + rest, 0); Head((['\\', 'x'] + s) + rest) == Piece(p.c, 2 + p.length)
  {
    var all := (['\\', 'x'] + s) + rest;
    assert all[0] == '\\' && all[1] == 'x' && all[2..] == s + rest;
  }

  // ---------- what they are for ----------

  lemma HeadOfQuoted(c: char, backslashOnly: bool, rest: CString)
    requires IsByte(c)
    ensures var q := QuoteChar(c, backslashOnly); Head(q + rest) == Piece(c, |q|)
  {
    var q := QuoteChar(c, backslashOnly);
    var s := q + rest;
    assert forall i | 0 <= i < |q| :: s[i] == q[i];
    if |q| == 4 {
      OctalRoundTrip(c as int);
    }
  }

  /** Unquoting undoes quoting, in both modes, for every C string. */
  lemma {:induction false} UnescapeQuote(s: CString, backslashOnly: bool)
    requires IsCString(s)
    ensures Unescape(Quote(s, backslashOnly)) == s
  {
    if s != [] {
      var q, rest := QuoteChar(s[0], backslashOnly), Quote(s[1..], backslashOnly);
      HeadOfQuoted(s[0], backslashOnly, rest);
      assert (q + rest)[|q|..] == rest;
      UnescapeQuote(s[1..], backslashOnly);
    }
  }

  lemma OctalRoundTrip(i: nat)
    requires i < 256
    ensures 64 * (i / 64) + 8 * (i / 8 % 8) + i % 8 == i
  {
  }

  /** Exactly the strings with nothing to quote come through quoting unchanged. */
  lemma {:induction false} QuoteFixes(s: CString, backslashOnly: bool)
    requires IsCString(s)
    ensures Quote(s, backslashOnly) == s <==>
            forall i | 0 <= i < |s| :: s[i] != '\\' && (backslashOnly || IsGraph(s[i]))
  {
    if s != [] {
      var q, rest := QuoteChar(s[0], backslashOnly), Quote(s[1..], backslashOnly);
      QuoteFixes(s[1..], backslashOnly);
      assert |q| == 1 ==> (q + rest == s <==> q[0] == s[0] && rest == s[1..]);
      assert forall i | 1 <= i < |s| :: s[i] == s[1..][i - 1];
    }
  }

  /** A quoted string has no blanks, and is empty only if the string was. */
  lemma {:induction false} QuotedIsGraph(s: CString)
    requires IsCString(s)
    ensures forall i | 0 <= i < |Quote(s, false)| :: IsGraph(Quote(s, false)[i])
  {
    if s != [] {
      QuotedIsGraph(s[1..]);
    }
  }

  /** Exactly the strings without a backslash before their last character come through unchanged. */
  lemma {:induction false} UnescapeFixes(s: CString)
    ensures Unescape(s) == s <==> forall i | 0 <= i < |s| - 1 :: s[i] != '\\'
  {
    if s != [] {
      if s[0] != '\\' {
        UnescapeFixes(s[1..]);
        assert Unescape(s)[1..] == Unescape(s[1..]);
        if forall i | 0 <= i < |s[1..]| - 1 :: s[1..][i] != '\\' {
          forall i | 0 <= i < |s| - 1 ensures s[i] != '\\' {
            if i > 0 { assert s[i] == s[1..][i - 1]; }
          }
        }
      } else if |s| > 1 {
        assert |Unescape(s)| < |s|;
      }
    }
  }
}
