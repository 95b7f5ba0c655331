/** The messages of uuconf errors, cut to the size of a buffer: uuconf/errstr.c. */
module ErrorString {
  import opened Wrappers

  type Text = seq<char>

  /** struct sglobal, the parts a message is made of; strerror is the text for its errno. */
  datatype Global = Global(zfilename: Option<Text>, ilineno: int, strerror: Text)

  /** The bits of an error code, and its value in the low byte. */
  predicate HasErrno(ierr: nat) { ierr / 0x100 % 2 == 1 }

  predicate HasFilename(ierr: nat) { ierr / 0x200 % 2 == 1 }

  predicate HasLineno(ierr: nat) { ierr / 0x400 % 2 == 1 }

  function ErrorValue(ierr: nat): nat { ierr % 0x100 }

  // ---------- numbers ----------

  function Decimal(i: nat): (s: Text)
    ensures s != []
  {
    if i < 10 then [DigitChar(i)] else Decimal(i / 10) + [DigitChar(i % 10)]
  }

  function DigitChar(d: nat): char
    requires d < 10
  {
    ('0' as int + d) as char
  }

  function DecimalValue(s: Text): int {
    if s == [] then 0 else DecimalValue(s[..|s| - 1]) * 10 + (s[|s| - 1] as int - '0' as int)
  }

  lemma {:induction false} DecimalRoundTrip(i: nat)
    ensures DecimalValue(Decimal(i)) == i
  {
    var s := Decimal(i);
    if i >= 10 {
      DecimalRoundTrip(i / 10);
      assert s[..|s| - 1] == Decimal(i / 10);
    } else {
      assert s[..0] == [];
    }
  }

  lemma {:induction false} DecimalIsShort(i: nat, n: nat, p: nat)
    requires i < p && p == Power(n) && n > 0
    ensures |Decimal(i)| <= n
  {
    if i >= 10 { DecimalIsShort(i / 10, n - 1, Power(n - 1)); }
  }

  function Power(n: nat): (p: nat) { if n == 0 then 1 else 10 * Power(n - 1) }

  const NUMSIZE: nat := 100

  /** zeprint_num: from the end of the buffer backward. */
  method PrintNum(ab: array<char>, n: nat) returns (z: nat)
    requires ab.Length == NUMSIZE && n < 0x8000_0000
    modifies ab
    ensures z + |Decimal(n)| + 1 == ab.Length && ab[z..ab.Length - 1] == Decimal(n)
    ensures ab[ab.Length - 1] == '\0' && z >= 80
  {
    assert Power(10) == 10000000000;
    DecimalIsShort(n, 10, Power(10));
    ghost var full := Decimal(n);
    var i := n;
    z := ab.Length - 1;
    ab[z] := '\0';
    z := z - 1;
    ab[z] := DigitChar(i % 10);
    i := i / 10;
    assert ab[z..ab.Length - 1] == [DigitChar(n % 10)];
    while i != 0
      invariant 80 <= z < ab.Length - 1 && i >= 0 && ab[ab.Length - 1] == '\0'
      invariant full == (if i == 0 then [] else Decimal(i)) + ab[z..ab.Length - 1]
      decreases i
    {
      ghost var done := ab[z..ab.Length - 1];
      assert |Decimal(i)| + |done| <= 10;
      DecimalGrows(i, done);
      z := PutDigit(ab, z, i % 10, done);
      i := i / 10;
    }
  }

  method PutDigit(ab: array<char>, z: nat, d: nat, ghost done: Text) returns (y: nat)
    requires 0 < z < ab.Length && done == ab[z..ab.Length - 1] && d < 10
    modifies ab
    ensures y == z - 1 && ab[y..ab.Length - 1] == [DigitChar(d)] + done && ab[ab.Length - 1] == old(ab[ab.Length - 1])
  {
    y := z - 1;
    ab[y] := DigitChar(d);
  }

  lemma DecimalGrows(i: nat, done: Text)
    requires i > 0
    ensures Decimal(i) + done == (if i / 10 == 0 then [] else Decimal(i / 10)) + ([DigitChar(i % 10)] + done)
  {
  }

  // ---------- the message ----------

  function FilePart(g: Option<Global>, ierr: nat): Text {
    if HasFilename(ierr) && g.Some? && g.value.zfilename.Some? then g.value.zfilename.value + ":" else ""
  }

  function LinePart(g: Option<Global>, ierr: nat): Text {
    if FilePart(g, ierr) != "" && HasLineno(ierr) && g.Some? && g.value.ilineno > 0
    then Decimal(g.value.ilineno) + ":" else ""
  }

  function Message(value: nat): Text {
    match value
    case 0 => "no error"
    case 1 => "not found"
    case 2 => "fopen"
    case 3 => "fseek"
    case 4 => "malloc"
    case 5 => "syntax error"
    case _ => "error " + Decimal(value)
  }

  function ErrnoPart(g: Option<Global>, ierr: nat): Text {
    if HasErrno(ierr) && g.Some? then ": " + g.value.strerror else ""
  }

  /** The whole message: filename:lineno: message: errno. */
  function Full(g: Option<Global>, ierr: nat): Text {
    FilePart(g, ierr) + LinePart(g, ierr) + (if FilePart(g, ierr) != "" then " " else "")
    + Message(ErrorValue(ierr)) + ErrnoPart(g, ierr)
  }

  /** The texts of the codes in uuconf.h. */
  lemma Messages()
    ensures Message(0) == "no error" && Message(1) == "not found" && Message(2) == "fopen"
    ensures Message(3) == "fseek" && Message(4) == "malloc" && Message(5) == "syntax error"
    ensures forall v | v > 5 :: Message(v) == "error " + Decimal(v)
  {
  }

  lemma By256(n: nat, q: nat, r: nat)
    requires n == 256 * q + r && r < 256
    ensures n / 0x100 == q && n % 0x100 == r
  {
  }

  lemma By512(n: nat, q: nat, r: nat)
    requires n == 512 * q + r && r < 512
    ensures n / 0x200 == q
  {
  }

  lemma By1024(n: nat, q: nat, r: nat)
    requires n == 1024 * q + r && r < 1024
    ensures n / 0x400 == q
  {
  }

  function Bit(b: bool): nat { if b then 1 else 0 }

  /** The three parts that an error code asks for. */
  lemma Parts(ierr: nat, value: nat, e: bool, f: bool, l: bool, rest: nat)
    requires value < 0x100
    requires ierr == value + 0x100 * Bit(e) + 0x200 * Bit(f) + 0x400 * Bit(l) + 0x800 * rest
    ensures ErrorValue(ierr) == value && HasErrno(ierr) == e && HasFilename(ierr) == f && HasLineno(ierr) == l
  {
    var q2 := Bit(l) + 2 * rest;
    var q1 := Bit(f) + 2 * q2;
    var q0 := Bit(e) + 2 * q1;
    By256(ierr, q0, value);
    By512(ierr, q1, value + 256 * Bit(e));
    By1024(ierr, q2, value + 256 * Bit(e) + 512 * Bit(f));
    LowBit(e, q1, q0);
    LowBit(f, q2, q1);
    LowBit(l, rest, q2);
  }

  lemma LowBit(b: bool, q: nat, n: nat)
    requires n == Bit(b) + 2 * q
    ensures n % 2 == Bit(b)
  {
  }

  /** filename:lineno: message: errno. Without a filename there is no line number, and no space. */
  lemma Format(q: Global, ierr: nat, value: nat, e: bool, f: bool, l: bool, rest: nat)
    requires value < 0x100
    requires ierr == value + 0x100 * Bit(e) + 0x200 * Bit(f) + 0x400 * Bit(l) + 0x800 * rest
    ensures Full(None, ierr) == Message(value)
    ensures var message := Message(value) + if e then ": " + q.strerror else "";
            Full(Some(q), ierr)
            == if !f || q.zfilename.None? then message
               else if !l || q.ilineno <= 0 then q.zfilename.value + ": " + message
               else q.zfilename.value + ":" + Decimal(q.ilineno) + ": " + message
  {
    Parts(ierr, value, e, f, l, rest);
    var g := Some(q);
    var m, n := Message(value), ErrnoPart(g, ierr);
    assert FilePart(None, ierr) == LinePart(None, ierr) == ErrnoPart(None, ierr) == "";
    if f && q.zfilename.Some? {
      var z := q.zfilename.value;
      assert FilePart(g, ierr) == z + ":" && (z + ":")[|z|] == ':';
      if l && q.ilineno > 0 {
        var d := Decimal(q.ilineno);
        assert LinePart(g, ierr) == d + ":";
        assert (z + ":") + (d + ":") + " " + m + n == z + ":" + d + ": " + (m + n);
      } else {
        assert (z + ":") + "" + " " + m + n == z + ": " + (m + n);
      }
    } else {
      assert "" + "" + "" + m + n == m + n;
    }
  }

  /** As much of s as fits into n characters. */
  function Fit(s: Text, n: nat): (t: Text)
    ensures |t| <= n && t <= s && (t == s || |t| == n)
  {
    if |s| <= n then s else s[..n]
  }

  lemma FitMore(s: Text, t: Text, n: nat)
    ensures Fit(s + t, n) == Fit(s, n) + Fit(t, n - |Fit(s, n)|)
  {
    if |s| <= n < |s + t| { assert (s + t)[..n] == s + t[..n - |s|]; }
    if n < |s| { assert (s + t)[..n] == s[..n]; }
  }

  /** memcpy of as much of s as there is room for. */
  method Copy(zbuf: array<char>, at: nat, s: Text, ghost sofar: Text, ghost more: Text, n: nat)
    returns (next: nat)
    requires at <= n < zbuf.Length && zbuf[..at] == Fit(sofar, n) && more == sofar + s
    modifies zbuf
    ensures at <= next <= n && zbuf[..next] == Fit(more, n)
    ensures forall k | n <= k < zbuf.Length :: zbuf[k] == old(zbuf[k])
  {
    var t := Fit(s, n - at);
    FitMore(sofar, s, n);
    forall k | 0 <= k < |t| { zbuf[at + k] := t[k]; }
    next := at + |t|;
    assert zbuf[..next] == Fit(sofar, n) + t;
  }

  /** The text for an error without one: its number, with "error " put in front of it in the buffer. */
  method NumberedMessage(value: nat) returns (zmsg: Text)
    requires value < 0x100
    ensures zmsg == "error " + Decimal(value)
  {
    var abmsg := new char[NUMSIZE];
    var z := PrintNum(abmsg, value);
    ghost var number := abmsg[z..abmsg.Length - 1];
    forall k | 0 <= k < 6 { abmsg[z - 6 + k] := "error "[k]; }
    assert abmsg[z..abmsg.Length - 1] == number;
    assert abmsg[z - 6..z] == "error ";
    zmsg := abmsg[z - 6..abmsg.Length - 1];
    assert zmsg == abmsg[z - 6..z] + abmsg[z..abmsg.Length - 1];
  }

  method LineText(g: Option<Global>, ierr: nat) returns (zlineno: Text)
    requires g.Some? ==> g.value.ilineno < 0x8000_0000
    ensures zlineno == LinePart(g, ierr)
  {
    zlineno := "";
    if FilePart(g, ierr) != "" && HasLineno(ierr) && g.Some? && g.value.ilineno > 0 {
      var ab := new char[NUMSIZE];
      var z := PrintNum(ab, g.value.ilineno);
      zlineno := ab[z..ab.Length - 1] + ":";
    }
  }

  method MessageText(value: nat) returns (zmsg: Text)
    requires value < 0x100
    ensures zmsg == Message(value)
  {
    if value > 5 {
      zmsg := NumberedMessage(value);
    } else {
      zmsg := Message(value);
    }
  }

  /** uuconf_error_string: for a buffer of any size, the longest prefix of the message that fits, with
      a NUL behind it; nothing is written beyond the buffer, and the result does not depend on it. */
  method UuconfErrorString(g: Option<Global>, ierr: nat, zbuf: array<char>, cbuf: nat) returns (cret: nat)
    requires cbuf <= zbuf.Length && (g.Some? ==> g.value.ilineno < 0x8000_0000)
    modifies zbuf
    ensures cret == |Full(g, ierr)| + 1
    ensures cbuf > 0 ==> var t := Fit(Full(g, ierr), cbuf - 1); zbuf[..|t|] == t && zbuf[|t|] == '\0'
    ensures forall k | cbuf <= k < zbuf.Length :: zbuf[k] == old(zbuf[k])
  {
    var zfile, zerrno := FilePart(g, ierr), ErrnoPart(g, ierr);
    var zlineno := LineText(g, ierr);
    var zmsg := MessageText(ErrorValue(ierr));
    var space := if zfile != "" then " " else "";
    cret := |zfile| + |zlineno| + |space| + |zmsg| + |zerrno| + 1;
    if cbuf == 0 {
      return;
    }
    Fill(zbuf, cbuf - 1, zfile, zlineno, space, zmsg, zerrno, Full(g, ierr));
  }

  /** The parts of the message one after the other. */
  method Fill(zbuf: array<char>, n: nat, zfile: Text, zlineno: Text, space: Text, zmsg: Text, zerrno: Text,
              ghost full: Text)
    requires n < zbuf.Length && full == zfile + zlineno + space + zmsg + zerrno
    modifies zbuf
    ensures var t := Fit(full, n); zbuf[..|t|] == t && zbuf[|t|] == '\0'
    ensures forall k | n < k < zbuf.Length :: zbuf[k] == old(zbuf[k])
  {
    ghost var s1, s2 := zfile, zfile + zlineno;
    ghost var s3 := s2 + space;
    ghost var s4 := s3 + zmsg;
    assert zbuf[..0] == Fit("", n) && "" + zfile == s1;
    var z := Copy(zbuf, 0, zfile, "", s1, n);
    z := Copy(zbuf, z, zlineno, s1, s2, n);
    z := Copy(zbuf, z, space, s2, s3, n);
    z := Copy(zbuf, z, zmsg, s3, s4, n);
    z := Copy(zbuf, z, zerrno, s4, full, n);
    zbuf[z] := '\0';
    assert zbuf[..z] == Fit(full, n);
  }

  /** What the code says about the buffer: the message is cut exactly if it needs more. (uuconf.h says
      that it is cut when the result is less than the size.) */
  lemma CutIffTooLong(g: Option<Global>, ierr: nat, cbuf: nat)
    requires cbuf > 0
    ensures Fit(Full(g, ierr), cbuf - 1) == Full(g, ierr) <==> |Full(g, ierr)| + 1 <= cbuf
  {
  }
}
