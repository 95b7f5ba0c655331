/** Commands of the spool directory as lines of text: printed by zsysdep_spool_commands
    (unix/splcmd.c, with lib/quote.c) and read back by fparse_cmd (lib/parse.c). */
module Command {
  import opened Wrappers
  import opened Escape

  const WORD: int := 0x1_0000_0000

  /** int and unsigned int. */
  type Int = i: int | -0x8000_0000 <= i < 0x8000_0000
  type Uint = i: int | 0 <= i < WORD

  /** struct scmd, the parts that go through the file. */
  datatype Scmd = Scmd(bcmd: char, from: Option<CString>, to: Option<CString>, user: Option<CString>,
                       options: Option<CString>, temp: Option<CString>, mode: Uint,
                       notify: Option<CString>, bytes: int, cmd: Option<CString>, pos: int)

  predicate IsBlank(c: char) { c == ' ' || c == '\t' || c == '\n' }

  predicate BlankFree(s: CString) { forall i | 0 <= i < |s| :: !IsBlank(s[i]) }

  // ---------- printing ----------

  predicate FneedsQuotes(z: Option<CString>) {
    z.Some? && !BlankFree(z.value)
  }

  predicate FcmdNeedsQuotes(c: Scmd) {
    FneedsQuotes(c.from) || FneedsQuotes(c.to) || FneedsQuotes(c.user) || FneedsQuotes(c.notify)
  }

  predicate IsCStringOpt(z: Option<CString>) { z.Some? ==> IsCString(z.value) }

  function QuoteOpt(z: Option<CString>): Option<CString>
    requires IsCStringOpt(z)
  {
    if z.None? then None else Some(Quote(z.value, false))
  }

  function WithQ(options: CString): CString {
    if 'q' in options then options else options + "q"
  }

  /** uquote_cmd: cmd is never quoted. */
  function QuoteCmd(c: Scmd): Scmd
    requires IsCStringOpt(c.from) && IsCStringOpt(c.to) && IsCStringOpt(c.user) && IsCStringOpt(c.notify)
    requires c.options.Some?
  {
    c.(from := QuoteOpt(c.from), to := QuoteOpt(c.to), user := QuoteOpt(c.user),
       notify := QuoteOpt(c.notify), options := Some(WithQ(c.options.value)))
  }

  /** What a line is printed from: the command, quoted if need be. */
  function Printed(c: Scmd): Scmd
    requires Complete(c)
  {
    if FcmdNeedsQuotes(c) then QuoteCmd(c) else c
  }

  /** %o of a nonnegative number. */
  function Octal(n: nat): (s: CString)
    ensures s != []
  {
    if n < 8 then [Digit(n)] else Octal(n / 8) + [Digit(n % 8)]
  }

  predicate IsLetter(b: char) { b == 'S' || b == 'R' || b == 'X' || b == 'E' }

  /** The strings of a command that are printed are there, as spooling requires. */
  predicate Complete(c: Scmd) {
    && IsLetter(c.bcmd)
    && c.from.Some? && c.to.Some? && c.user.Some? && c.options.Some?
    && IsCString(c.from.value) && IsCString(c.to.value) && IsCString(c.user.value)
    && IsCString(c.options.value) && IsCStringOpt(c.notify)
    && (Sends(c) ==> c.temp.Some? && IsCString(c.temp.value))
    && (c.bcmd == 'E' ==> c.notify.Some? && c.cmd.Some? && IsCString(c.cmd.value))
  }

  predicate Sends(c: Scmd) { c.bcmd == 'S' || c.bcmd == 'E' }

  /** A string for %s; NULL prints as nothing. */
  function Text(z: Option<CString>): CString {
    if z.None? then "" else z.value
  }

  /** The line of a command, its fields from left to right. */
  function Line(c: Scmd): CString {
    [c.bcmd] + " " + (Text(c.from) + " " + (Text(c.to) + " " + (Text(c.user) + " " + LineOptions(c))))
  }

  function LineOptions(c: Scmd): CString {
    var options := "-" + Text(c.options);
    if Sends(c) then options + " " + (Text(c.temp) + " " + (("0" + Octal(c.mode)) + " " + LineNotify(c)))
    else options + "\n" + ""
  }

  function LineNotify(c: Scmd): CString {
    if c.bcmd == 'S' then Text(c.notify) + "\n" + ""
    else Text(c.notify) + " " + ("0" + " " + (Text(c.cmd) + "\n"))
  }

  /** The file of a list of commands. */
  function Spooled(cs: seq<Scmd>): CString {
    Joined(Entries(cs))
  }

  function Joined(lines: seq<CString>): CString {
    if lines == [] then [] else lines[0] + Joined(lines[1..])
  }

  function Entries(cs: seq<Scmd>): (lines: seq<CString>)
    ensures |lines| == |cs|
  {
    if cs == [] then [] else [Entry(cs[0])] + Entries(cs[1..])
  }

  lemma {:induction false} EntryAt(cs: seq<Scmd>, i: nat)
    requires i < |cs|
    ensures Entries(cs)[i] == Entry(cs[i])
  {
    if i > 0 { EntryAt(cs[1..], i - 1); }
  }

  function Entry(c: Scmd): CString {
    if Complete(c) then Line(Printed(c)) else []
  }

  // ---------- numbers ----------

  const LONG_MAX: int := 0x7fff_ffff_ffff_ffff

  /** isspace in the C locale. */
  predicate IsSpace(c: char) {
    c == ' ' || 9 <= c as int <= 13
  }

  predicate IsDigitOf(c: char, base: nat) {
    if base == 16 then IsHex(c) else IsDigit(c) && c as int - '0' as int < base
  }

  datatype Number = Number(value: int, rest: CString)

  /** The digits s starts with, i preceding them. */
  function Digits(s: CString, base: nat, i: int): (n: Number)
    ensures |n.rest| <= |s|
    decreases |s|
  {
    if s == [] || !IsDigitOf(s[0], base) then Number(i, s)
    else Digits(s[1..], base, base * i + HexValue(s[0]))
  }

  function SkipSpace(s: CString): (r: CString)
    ensures |r| <= |s|
  {
    if s == [] || !IsSpace(s[0]) then s else SkipSpace(s[1..])
  }

  function Magnitude(s: CString): (n: Number) {
    if |s| > 2 && s[0] == '0' && (s[1] == 'x' || s[1] == 'X') && IsHex(s[2]) then Digits(s[2..], 16, 0)
    else if s != [] && s[0] == '0' then Digits(s, 8, 0)
    else Digits(s, 10, 0)
  }

  function Clamp(i: int): int {
    if i > LONG_MAX then LONG_MAX else if i < -LONG_MAX - 1 then -LONG_MAX - 1 else i
  }

  /** strtol with base 0: nothing is consumed when there are no digits. */
  function Strtol(z: CString): Number {
    var s := SkipSpace(z);
    var negative := s != [] && s[0] == '-';
    var t := if s != [] && (s[0] == '-' || s[0] == '+') then s[1..] else s;
    var n := Magnitude(t);
    if n.rest == t then Number(0, z)
    else Number(Clamp(if negative then -n.value else n.value), n.rest)
  }

  /** The conversion of a long to an int. */
  function ToInt(i: int): Int {
    var w := i % WORD;
    if w >= 0x8000_0000 then w - WORD else w
  }

  /** The conversion of an int to an unsigned int. */
  function ToUint(i: Int): Uint { if i < 0 then i + WORD else i }

  // ---------- parsing ----------

  datatype Token = Token(word: CString, rest: CString)

  function SkipBlanks(s: CString): (r: CString)
    ensures |r| <= |s| && (r != [] ==> !IsBlank(r[0]))
  {
    if s == [] || !IsBlank(s[0]) then s else SkipBlanks(s[1..])
  }

  function Word(s: CString): (w: CString)
    ensures |w| <= |s| && BlankFree(w) && w == s[..|w|]
    ensures |w| < |s| ==> IsBlank(s[|w|])
  {
    if s == [] || IsBlank(s[0]) then [] else [s[0]] + Word(s[1..])
  }

  /** strtok with blanks: the next word, and what is left after the blank that ends it. */
  function NextToken(s: CString): (t: Option<Token>)
    ensures t.Some? ==> t.value.word != [] && |t.value.word| + |t.value.rest| <= |s|
  {
    var r := SkipBlanks(s);
    var w := Word(r);
    if r == [] then None
    else if |w| == |r| then Some(Token(w, []))
    else Some(Token(w, r[|w| + 1..]))
  }

  /** What strtok finds: the first longest run of other characters, if there is one. */
  lemma {:induction false} TokenFound(s: CString) returns (i: nat)
    ensures i <= |s| && forall k | 0 <= k < i :: IsBlank(s[k])
    ensures NextToken(s) == None <==> i == |s|
    ensures NextToken(s).Some? ==>
              var t := NextToken(s).value;
              && t.word != [] && BlankFree(t.word) && t.word <= s[i..]
              && if i + |t.word| == |s| then t.rest == []
                 else IsBlank(s[i + |t.word|]) && t.rest == s[i + |t.word| + 1..]
  {
    i := 0;
    if s != [] && IsBlank(s[0]) {
      i := TokenFound(s[1..]);
      assert SkipBlanks(s) == SkipBlanks(s[1..]) && NextToken(s) == NextToken(s[1..]);
      assert s[1..][i..] == s[i + 1..];
      i := i + 1;
    }
  }

  function UpToNewline(s: CString): (r: CString)
    ensures |r| <= |s|
  {
    if s == [] || s[0] == '\n' then [] else [s[0]] + UpToNewline(s[1..])
  }

  /** A command before its fields are read. */
  function Fresh(c: char): Scmd {
    Scmd(c, None, None, None, None, None, 0x1b6, None, -1, None, 0)
  }

  function FixMode(mode: Uint): Uint {
    if mode == 666 then 0x1b6 else if mode == 777 then 0x1ff else mode
  }

  function UnquoteOpt(z: Option<CString>): Option<CString> {
    if z.None? then None else Some(UpToNul(Unescape(z.value)))
  }

  /** ulunquote_cmd. */
  function Unquote(c: Scmd): Scmd {
    if c.options.None? || 'q' !in c.options.value then c
    else c.(from := UnquoteOpt(c.from), to := UnquoteOpt(c.to), user := UnquoteOpt(c.user),
            notify := UnquoteOpt(c.notify), cmd := UnquoteOpt(c.cmd))
  }

  datatype Start = Refused | Whole(c: Scmd) | Fields(b: char, rest: CString)

  /** The command letter. */
  function ParseLetter(line: CString): Start {
    match NextToken(line)
    case None => Refused
    case Some(Token(w, rest)) =>
      if !IsLetter(w[0]) && w[0] != 'H' && w[0] != 'P' then Refused
      else if w[0] == 'H' then
        if |w| == 1 then Whole(Fresh('H'))
        else if w[1] == 'Y' then Whole(Fresh('Y'))
        else if w[1] == 'N' then Whole(Fresh('N'))
        else Refused
      else if w[0] == 'P' then Whole(Fresh('P'))
      else if |w| > 1 then Refused
      else Fields(w[0], rest)
  }

  /** fparse_cmd. */
  function Parse(line: CString): Option<Scmd> {
    match ParseLetter(line)
    case Refused => None
    case Whole(c) => Some(c)
    case Fields(b, rest) => ParseFrom(Fresh(b), rest)
  }

  function ParseFrom(c: Scmd, s: CString): Option<Scmd> {
    match NextToken(s)
    case None => None
    case Some(t) => ParseTo(c.(from := Some(t.word)), t.rest)
  }

  function ParseTo(c: Scmd, s: CString): Option<Scmd> {
    match NextToken(s)
    case None => None
    case Some(t) => ParseUser(c.(to := Some(t.word)), t.rest)
  }

  function ParseUser(c: Scmd, s: CString): Option<Scmd> {
    match NextToken(s)
    case None => None
    case Some(t) => ParseOptions(c.(user := Some(t.word)), t.rest)
  }

  function ParseOptions(c: Scmd, s: CString): Option<Scmd> {
    match NextToken(s)
    case None => None
    case Some(t) =>
      if t.word[0] != '-' then None
      else
        var d := c.(options := Some(t.word[1..]));
        if d.bcmd == 'X' then Some(Unquote(d))
        else if d.bcmd == 'R' then Some(Unquote(ParseSize(d, t.rest)))
        else ParseTemp(d, t.rest)
  }

  function OrElse(n: Number, default: int): int {
    if n.rest == [] then n.value else default
  }

  /** The size a Taylor system asks for, or the position a SVR4 system sends after "dummy". */
  function ParseSize(c: Scmd, s: CString): Scmd {
    match NextToken(s)
    case None => c
    case Some(t) =>
      if t.word != "dummy" then c.(bytes := OrElse(Strtol(t.word), -1))
      else ParsePosition(c, t.rest, 3)
  }

  function ParsePosition(c: Scmd, s: CString, skip: nat): Scmd
    decreases skip
  {
    match NextToken(s)
    case None => c
    case Some(t) =>
      if skip > 0 then ParsePosition(c, t.rest, skip - 1)
      else c.(pos := OrElse(Strtol(t.word), 0))
  }

  function ParseTemp(c: Scmd, s: CString): Option<Scmd> {
    match NextToken(s)
    case None => None
    case Some(t) => ParseMode(c.(temp := Some(t.word)), t.rest)
  }

  function ParseMode(c: Scmd, s: CString): Option<Scmd> {
    match NextToken(s)
    case None => None
    case Some(t) =>
      var n := Strtol(t.word);
      if n.rest != [] then None
      else ParseNotify(c.(mode := FixMode(ToUint(ToInt(n.value)))), t.rest)
  }

  function ParseNotify(c: Scmd, s: CString): Option<Scmd> {
    match NextToken(s)
    case None => if c.bcmd == 'E' then None else Some(Unquote(c))
    case Some(t) =>
      var d := c.(notify := Some(t.word));
      if t.word != "dummy" then ParseBytes(d, t.rest)
      else
        match NextToken(t.rest)
        case None => Some(Unquote(d))
        case Some(u) => ParseBytes(d, u.rest)
  }

  function ParseBytes(c: Scmd, s: CString): Option<Scmd> {
    match NextToken(s)
    case None => if c.bcmd == 'E' then None else Some(Unquote(c))
    case Some(t) =>
      var d := c.(bytes := OrElse(Strtol(t.word), -1));
      if t.rest == [] then if c.bcmd == 'E' then None else Some(Unquote(d))
      else Some(Unquote(d.(cmd := Some(UpToNewline(t.rest)))))
  }

  // ---------- reading what was printed ----------

  lemma WordIs(w: CString, rest: CString)
    requires BlankFree(w) && (rest == [] || IsBlank(rest[0]))
    ensures Word(w + rest) == w
  {
    if w != [] {
      assert (w + rest)[1..] == w[1..] + rest;
      WordIs(w[1..], rest);
    }
  }

  /** A word and a blank in front of the rest of the line. */
  lemma TokenIs(w: CString, blank: char, rest: CString)
    requires BlankFree(w) && w != [] && IsBlank(blank)
    ensures NextToken(w + [blank] + rest) == Some(Token(w, rest))
  {
    var s := w + [blank] + rest;
    assert s == w + ([blank] + rest);
    WordIs(w, [blank] + rest);
    assert SkipBlanks(s) == s;
    assert s[|w| + 1..] == rest;
  }

  /** Words end at a space, a tab or a newline. */
  lemma BlanksSeparate(w: CString, v: CString, rest: CString)
    requires w != [] && BlankFree(w)
    ensures forall blank {:trigger IsBlank(blank)} | blank in " \t\n" ::
              NextToken([blank] + (w + [blank] + rest)) == Some(Token(w, rest))
    ensures BlankFree(v) <==> ' ' !in v && '\t' !in v && '\n' !in v
  {
    forall blank | blank in " \t\n"
      ensures NextToken([blank] + (w + [blank] + rest)) == Some(Token(w, rest))
    {
      var s := w + [blank] + rest;
      TokenIs(w, blank, rest);
      assert ([blank] + s)[1..] == s;
      assert NextToken([blank] + s) == NextToken(s);
    }
  }

  lemma NoToken(s: CString)
    requires forall i | 0 <= i < |s| :: IsBlank(s[i])
    ensures NextToken(s) == None
  {
    AllBlank(s);
  }

  lemma AllBlank(s: CString)
    requires forall i | 0 <= i < |s| :: IsBlank(s[i])
    ensures SkipBlanks(s) == []
  {
    if s != [] { AllBlank(s[1..]); }
  }

  lemma {:induction false} DigitsAppend(s: CString, c: char, base: nat, i: int)
    requires forall k | 0 <= k < |s| :: IsDigitOf(s[k], base)
    requires IsDigitOf(c, base)
    ensures Digits(s + [c], base, i) == Number(base * Digits(s, base, i).value + HexValue(c), [])
    decreases |s|
  {
    if s == [] {
      assert s + [c] == [c] && [c][1..] == [];
    } else {
      assert (s + [c])[1..] == s[1..] + [c];
      DigitsAppend(s[1..], c, base, base * i + HexValue(s[0]));
    }
  }

  lemma {:induction false} OctalDigits(n: nat)
    ensures forall k | 0 <= k < |Octal(n)| :: IsOctal(Octal(n)[k])
    ensures Digits(Octal(n), 8, 0) == Number(n, [])
  {
    if n < 8 {
      assert Octal(n)[1..] == [];
    } else {
      OctalDigits(n / 8);
      DigitsAppend(Octal(n / 8), Digit(n % 8), 8, 0);
    }
  }

  lemma StrtolOctal(n: nat)
    requires n <= LONG_MAX
    ensures Strtol("0" + Octal(n)) == Number(n, []) && BlankFree("0" + Octal(n))
  {
    var s := "0" + Octal(n);
    OctalDigits(n);
    assert s[1..] == Octal(n);
    assert s[1] == Octal(n)[0];
    assert Digits(s, 8, 0) == Digits(s[1..], 8, 0);
  }

  /** The mode goes out as an unsigned int and comes back as a long, an int and an unsigned int. */
  lemma ModeRoundTrip(mode: Uint)
    ensures var n := Strtol("0" + Octal(mode)); n.rest == [] && ToUint(ToInt(n.value)) == mode
  {
    StrtolOctal(mode);
    WidthsFit(mode);
  }

  lemma WidthsFit(mode: Uint)
    ensures ToUint(ToInt(mode)) == mode
  {
    assert mode % WORD == mode;
  }

  /** What holds of a command once its strings are quoted, or if they need no quotes. */
  predicate Clean(c: Scmd) {
    && Complete(c)
    && Text(c.from) != "" && Text(c.to) != "" && Text(c.user) != ""
    && BlankFree(Text(c.from)) && BlankFree(Text(c.to)) && BlankFree(Text(c.user))
    && BlankFree(Text(c.options))
    && (Sends(c) ==> Text(c.temp) != "" && BlankFree(Text(c.temp)) && BlankFree(Text(c.notify)))
    && (c.bcmd == 'E' ==> Text(c.notify) != "")
  }

  lemma ReadLetter(b: char, rest: CString)
    requires IsLetter(b)
    ensures ParseLetter([b] + " " + rest) == Fields(b, rest)
  {
    TokenIs([b], ' ', rest);
  }

  lemma ReadNames(d: Scmd, from: CString, to: CString, user: CString, rest: CString)
    requires from != "" && to != "" && user != ""
    requires BlankFree(from) && BlankFree(to) && BlankFree(user)
    ensures ParseFrom(d, from + " " + (to + " " + (user + " " + rest)))
            == ParseOptions(d.(from := Some(from), to := Some(to), user := Some(user)), rest)
  {
    TokenIs(from, ' ', to + " " + (user + " " + rest));
    TokenIs(to, ' ', user + " " + rest);
    TokenIs(user, ' ', rest);
  }

  lemma ReadHead(c: Scmd)
    requires Clean(c)
    ensures Parse(Line(c))
            == ParseOptions(Fresh(c.bcmd).(from := c.from, to := c.to, user := c.user), LineOptions(c))
  {
    ReadLetter(c.bcmd, Text(c.from) + " " + (Text(c.to) + " " + (Text(c.user) + " " + LineOptions(c))));
    ReadNames(Fresh(c.bcmd), Text(c.from), Text(c.to), Text(c.user), LineOptions(c));
  }

  lemma ReadRequest(c: Scmd, d: Scmd)
    requires Clean(c) && !Sends(c) && d.bcmd == c.bcmd
    ensures ParseOptions(d, LineOptions(c)) == Some(Unquote(d.(options := c.options)))
  {
    TokenIs("-" + Text(c.options), '\n', "");
    NoToken("");
  }

  lemma ReadMode(d: Scmd, mode: Uint, rest: CString)
    ensures ParseMode(d, ("0" + Octal(mode)) + " " + rest)
            == ParseNotify(d.(mode := FixMode(mode)), rest)
  {
    StrtolOctal(mode);
    ModeRoundTrip(mode);
    TokenIs("0" + Octal(mode), ' ', rest);
  }

  lemma ReadOptions(d: Scmd, options: CString, rest: CString)
    requires BlankFree(options) && Sends(d)
    ensures ParseOptions(d, ("-" + options) + " " + rest) == ParseTemp(d.(options := Some(options)), rest)
  {
    var w := "-" + options;
    TokenIs(w, ' ', rest);
    assert w[1..] == options;
  }

  lemma ReadTemp(d: Scmd, temp: CString, rest: CString)
    requires temp != "" && BlankFree(temp)
    ensures ParseTemp(d, temp + " " + rest) == ParseMode(d.(temp := Some(temp)), rest)
  {
    TokenIs(temp, ' ', rest);
  }

  lemma ReadSend(c: Scmd, d: Scmd)
    requires Clean(c) && Sends(c) && d.bcmd == c.bcmd
    ensures ParseOptions(d, LineOptions(c))
            == ParseNotify(d.(options := c.options, temp := c.temp, mode := FixMode(c.mode)), LineNotify(c))
  {
    var rest := ("0" + Octal(c.mode)) + " " + LineNotify(c);
    ReadOptions(d, Text(c.options), Text(c.temp) + " " + rest);
    ReadTemp(d.(options := c.options), Text(c.temp), rest);
    ReadMode(d.(options := c.options, temp := c.temp), c.mode, LineNotify(c));
  }

  /** NULL and the empty string are the same to the reader. */
  function NotEmpty(z: Option<CString>): Option<CString> {
    if Text(z) == "" then None else z
  }

  lemma ReadNotifyOfSend(c: Scmd, d: Scmd)
    requires Clean(c) && c.bcmd == d.bcmd == 'S' && d.notify == None
    ensures ParseNotify(d, LineNotify(c)) == Some(Unquote(d.(notify := NotEmpty(c.notify))))
  {
    NoToken("");
    if Text(c.notify) == "" {
      assert LineNotify(c) == "\n";
      NoToken("\n");
    } else {
      TokenIs(Text(c.notify), '\n', "");
    }
  }

  lemma ReadNotifyOfExecution(c: Scmd, d: Scmd)
    requires Clean(c) && c.bcmd == d.bcmd == 'E' && c.notify != Some("dummy")
    ensures ParseNotify(d, LineNotify(c))
            == Some(Unquote(d.(notify := c.notify, bytes := 0, cmd := Some(UpToNewline(Text(c.cmd) + "\n")))))
  {
    TokenIs(Text(c.notify), ' ', "0" + " " + (Text(c.cmd) + "\n"));
    TokenIs("0", ' ', Text(c.cmd) + "\n");
    ZeroSize();
  }

  lemma ZeroSize()
    ensures Strtol("0") == Number(0, [])
  {
    assert Digits("0", 8, 0) == Digits("0"[1..], 8, 0);
  }

  /** After "dummy" the size is skipped, and the first word of the command text is taken for it. */
  lemma DummyLosesText(c: Scmd, d: Scmd)
    requires Clean(c) && c.bcmd == d.bcmd == 'E' && c.notify == Some("dummy") && d.cmd == None
    ensures var r := ParseNotify(d, LineNotify(c));
            r.Some? && r.value.cmd.Some? ==> |r.value.cmd.value| < |Text(c.cmd)|
  {
    var text := Text(c.cmd) + "\n";
    TokenIs("dummy", ' ', "0" + " " + text);
    TokenIs("0", ' ', text);
    TokenShrinks(text);
  }

  lemma TokenShrinks(s: CString)
    ensures var t := NextToken(s); t.Some? && t.value.rest != [] ==> |t.value.rest| + 2 <= |s|
  {
  }

  // ---------- lines that others send ----------

  function Decimal(n: nat): (s: CString)
    ensures s != []
  {
    if n < 10 then [('0' as int + n) as char] else Decimal(n / 10) + [('0' as int + n % 10) as char]
  }

  lemma {:induction false} DecimalDigits(n: nat)
    ensures forall k | 0 <= k < |Decimal(n)| :: IsDigit(Decimal(n)[k])
    ensures Digits(Decimal(n), 10, 0) == Number(n, [])
    ensures n > 0 ==> Decimal(n)[0] != '0'
  {
    if n < 10 {
      assert Decimal(n)[1..] == [];
    } else {
      DecimalDigits(n / 10);
      DigitsAppend(Decimal(n / 10), ('0' as int + n % 10) as char, 10, 0);
    }
  }

  lemma StrtolDecimal(n: nat)
    requires n <= LONG_MAX
    ensures Strtol(Decimal(n)) == Number(n, []) && BlankFree(Decimal(n))
  {
    DecimalDigits(n);
    if n == 0 { ZeroSize(); }
  }

  /** White space and a plus sign may stand in front. */
  lemma StrtolPadded(space: CString, n: nat)
    requires forall i | 0 <= i < |space| :: space[i] as int in {9, 10, 11, 12, 13, 32}
    requires n <= LONG_MAX
    ensures Strtol(space + Decimal(n)) == Number(n, []) && Strtol(space + ("+" + Decimal(n))) == Number(n, [])
  {
    DecimalStart(n);
    SpaceSkipped(space, Decimal(n));
    SpaceSkipped(space, "+" + Decimal(n));
    StrtolAfterSpace(space + Decimal(n), n);
    StrtolAfterSpace(space + ("+" + Decimal(n)), n);
  }

  lemma DecimalStart(n: nat)
    ensures IsDigit(Decimal(n)[0])
  {
    DecimalDigits(n);
  }

  lemma StrtolAfterSpace(z: CString, n: nat)
    requires SkipSpace(z) == Decimal(n) || SkipSpace(z) == "+" + Decimal(n)
    requires n <= LONG_MAX
    ensures Strtol(z) == Number(n, [])
  {
    DecimalStart(n);
    MagnitudeOf(n);
    assert ("+" + Decimal(n))[1..] == Decimal(n) && ("+" + Decimal(n))[0] == '+';
  }

  lemma {:induction false} SpaceSkipped(space: CString, s: CString)
    requires forall i | 0 <= i < |space| :: space[i] as int in {9, 10, 11, 12, 13, 32}
    requires s == [] || !IsSpace(s[0])
    ensures SkipSpace(space + s) == s
  {
    if space == [] {
      assert space + s == s;
    } else {
      assert (space + s)[1..] == space[1..] + s && (space + s)[0] == space[0];
      SpaceSkipped(space[1..], s);
    }
  }

  /** Too large a number becomes the largest one, and a minus sign counts. */
  lemma StrtolSigned(n: nat)
    ensures Strtol(Decimal(n)) == Number(if n > LONG_MAX then LONG_MAX else n, [])
    ensures var m: int := 0 - n;
            Strtol("-" + Decimal(n)) == Number(if m < -LONG_MAX - 1 then -LONG_MAX - 1 else m, [])
  {
    DecimalDigits(n);
    var d := Decimal(n);
    assert d[0] in d;
    MagnitudeOf(n);
    assert ("-" + d)[1..] == d && SkipSpace("-" + d) == "-" + d;
  }

  lemma MagnitudeOf(n: nat)
    ensures Magnitude(Decimal(n)) == Number(n, [])
  {
    DecimalDigits(n);
    if n == 0 { assert Digits("0", 8, 0) == Digits("0"[1..], 8, 0); }
  }

  lemma {:induction false} HexDigitsRead(s: CString, digits: seq<nat>, i: nat)
    requires |s| == |digits| && forall k | 0 <= k < |s| :: IsHexDigit(s[k], digits[k])
    ensures Digits(s, 16, i) == Number(HexFrom(i, digits), [])
    decreases |s|
  {
    if s != [] {
      HexDigits(s[0]);
      assert IsHexDigit(s[0], digits[0]);
      HexDigitsRead(s[1..], digits[1..], 16 * i + digits[0]);
    }
  }

  /** A number may also be hexadecimal. */
  lemma StrtolHex(s: CString, digits: seq<nat>)
    requires s != [] && |s| == |digits| && forall k | 0 <= k < |s| :: IsHexDigit(s[k], digits[k])
    requires HexNumber(digits) <= LONG_MAX
    ensures Strtol("0x" + s) == Number(HexNumber(digits), [])
  {
    var z := "0x" + s;
    assert z[2] == s[0] && z[2..] == s && z[0] == '0' && z[1] == 'x';
    HexDigits(s[0]);
    assert IsHexDigit(s[0], digits[0]);
    HexDigitsRead(s, digits, 0);
    HexFromZero(digits);
  }

  /** A word that begins with none of a number's characters is no number at all. */
  lemma StrtolWord(w: CString)
    requires w != [] && !IsSpace(w[0]) && !IsDigit(w[0]) && w[0] != '-' && w[0] != '+'
    ensures Strtol(w).rest != []
  {
  }

  /** H asks for a hangup, HY and HN answer it, and P is a poll. */
  lemma HangupLines(rest: CString)
    ensures Parse("H" + "\n" + rest) == Some(Fresh('H')) && Parse("P" + "\n" + rest) == Some(Fresh('P'))
    ensures Parse("HY" + "\n" + rest) == Some(Fresh('Y')) && Parse("HN" + "\n" + rest) == Some(Fresh('N'))
  {
    TokenIs("H", '\n', rest);
    TokenIs("P", '\n', rest);
    TokenIs("HY", '\n', rest);
    TokenIs("HN", '\n', rest);
  }

  /** A letter that is none of these, or one of S, R, X and E with something behind it, is refused. */
  lemma RefusedLetter(w: CString, rest: CString)
    requires w != [] && BlankFree(w)
    requires w[0] !in "SRXEHP" || (w[0] in "SRXE" && |w| > 1) || (w[0] == 'H' && |w| > 1 && w[1] !in "YN")
    ensures Parse(w + "\n" + rest) == None
  {
    TokenIs(w, '\n', rest);
  }

  /** The names and options at the front of a line. */
  function Front(b: char, from: CString, to: CString, user: CString, options: CString, rest: CString): CString {
    [b] + " " + (from + " " + (to + " " + (user + " " + (("-" + options) + " " + rest))))
  }

  predicate IsWord(w: CString) { w != [] && BlankFree(w) }

  lemma ReadFront(b: char, from: CString, to: CString, user: CString, options: CString, rest: CString)
    requires IsLetter(b) && b != 'X' && IsWord(from) && IsWord(to) && IsWord(user) && BlankFree(options)
    ensures var c := Fresh(b).(from := Some(from), to := Some(to), user := Some(user), options := Some(options));
            Parse(Front(b, from, to, user, options, rest))
            == if b == 'R' then Some(Unquote(ParseSize(c, rest))) else ParseTemp(c, rest)
  {
    var tail := ("-" + options) + " " + rest;
    ReadLetter(b, from + " " + (to + " " + (user + " " + tail)));
    ReadNames(Fresh(b), from, to, user, tail);
    ReadDashed(Fresh(b).(from := Some(from), to := Some(to), user := Some(user)), options, rest);
  }

  lemma ReadDashed(d: Scmd, options: CString, rest: CString)
    requires BlankFree(options) && d.bcmd != 'X'
    ensures var c := d.(options := Some(options));
            ParseOptions(d, ("-" + options) + " " + rest)
            == if d.bcmd == 'R' then Some(Unquote(ParseSize(c, rest))) else ParseTemp(c, rest)
  {
    var w := "-" + options;
    TokenIs(w, ' ', rest);
    assert w[1..] == options;
  }

  /** A request may end with the size that the other side wants at most; what is no number is none. */
  lemma RequestWithSize(from: CString, to: CString, user: CString, options: CString, w: CString, n: nat)
    requires IsWord(from) && IsWord(to) && IsWord(user) && BlankFree(options)
    requires IsWord(w) && (w == Decimal(n) || (!IsDigit(w[0]) && !IsSpace(w[0]) && w[0] !in "-+")) && w != "dummy"
    requires n <= LONG_MAX
    ensures var r := Fresh('R').(from := Some(from), to := Some(to), user := Some(user), options := Some(options),
                                 bytes := if w == Decimal(n) then n else -1);
            Parse(Front('R', from, to, user, options, w + "\n" + "")) == Some(Unquote(r))
  {
    ReadFront('R', from, to, user, options, w + "\n" + "");
    TokenIs(w, '\n', "");
    if w == Decimal(n) { StrtolDecimal(n); } else { StrtolWord(w); }
  }

  /** A SVR4 system sends dummy, three fields and the position to restart from. */
  lemma RequestWithPosition(from: CString, to: CString, user: CString, options: CString,
                            w1: CString, w2: CString, w3: CString, n: nat)
    requires IsWord(from) && IsWord(to) && IsWord(user) && BlankFree(options)
    requires IsWord(w1) && IsWord(w2) && IsWord(w3) && n <= LONG_MAX
    ensures var r := Fresh('R').(from := Some(from), to := Some(to), user := Some(user), options := Some(options),
                                 pos := n);
            var rest := "dummy" + " " + (w1 + " " + (w2 + " " + (w3 + " " + (Decimal(n) + "\n" + ""))));
            Parse(Front('R', from, to, user, options, rest)) == Some(Unquote(r))
  {
    var last := Decimal(n) + "\n" + "";
    var c := Fresh('R').(from := Some(from), to := Some(to), user := Some(user), options := Some(options));
    ReadFront('R', from, to, user, options, "dummy" + " " + (w1 + " " + (w2 + " " + (w3 + " " + last))));
    ReadDummy(c, w1 + " " + (w2 + " " + (w3 + " " + last)));
    StrtolDecimal(n);
    ReadPosition(c, w1, w2, w3, Decimal(n));
  }

  lemma ReadDummy(c: Scmd, rest: CString)
    ensures ParseSize(c, "dummy" + " " + rest) == ParsePosition(c, rest, 3)
  {
    TokenIs("dummy", ' ', rest);
  }

  lemma ReadPosition(c: Scmd, w1: CString, w2: CString, w3: CString, w4: CString)
    requires IsWord(w1) && IsWord(w2) && IsWord(w3) && IsWord(w4)
    ensures ParsePosition(c, w1 + " " + (w2 + " " + (w3 + " " + (w4 + "\n" + ""))), 3)
            == c.(pos := OrElse(Strtol(w4), 0))
  {
    TokenIs(w1, ' ', w2 + " " + (w3 + " " + (w4 + "\n" + "")));
    TokenIs(w2, ' ', w3 + " " + (w4 + "\n" + ""));
    TokenIs(w3, ' ', w4 + "\n" + "");
    TokenIs(w4, '\n', "");
  }

  /** A mode may be decimal: 666 and 777 are then meant to be octal. Notify and size may follow. */
  lemma SendWithSize(from: CString, to: CString, user: CString, options: CString, temp: CString, mode: nat,
                     notify: CString, n: nat)
    requires IsWord(from) && IsWord(to) && IsWord(user) && BlankFree(options) && IsWord(temp)
    requires IsWord(notify) && notify != "dummy" && mode < 0x8000_0000 && n <= LONG_MAX
    ensures var r := Fresh('S').(from := Some(from), to := Some(to), user := Some(user), options := Some(options),
                                 temp := Some(temp), notify := Some(notify), bytes := n,
                                 mode := if mode == 666 then 438 else if mode == 777 then 511 else mode);
            var rest := temp + " " + (Decimal(mode) + " " + (notify + " " + (Decimal(n) + "\n" + "")));
            Parse(Front('S', from, to, user, options, rest)) == Some(Unquote(r))
  {
    var last := Decimal(n) + "\n" + "";
    ReadFront('S', from, to, user, options, temp + " " + (Decimal(mode) + " " + (notify + " " + last)));
    TokenIs(temp, ' ', Decimal(mode) + " " + (notify + " " + last));
    StrtolDecimal(mode);
    WidthsFit(mode);
    TokenIs(Decimal(mode), ' ', notify + " " + last);
    TokenIs(notify, ' ', last);
    StrtolDecimal(n);
    TokenIs(Decimal(n), '\n', "");
  }

  /** The size behind notify may be preceded by dummy, and the text of an execution follows it. */
  lemma ExecutionWithText(c: Scmd, notify: CString, w: CString, n: nat, text: CString)
    requires c.bcmd == 'E' && IsWord(notify) && IsWord(w) && n <= LONG_MAX && '\n' !in text
    ensures ParseNotify(c, "dummy" + " " + (w + " " + (Decimal(n) + " " + (text + "\n"))))
            == Some(Unquote(c.(notify := Some("dummy"), bytes := n, cmd := Some(text))))
    ensures notify != "dummy" ==>
              ParseNotify(c, notify + " " + (Decimal(n) + " " + (text + "\n")))
              == Some(Unquote(c.(notify := Some(notify), bytes := n, cmd := Some(text))))
  {
    StrtolDecimal(n);
    UpToNewlineIs(text);
    TokenIs(Decimal(n), ' ', text + "\n");
    TokenIs(w, ' ', Decimal(n) + " " + (text + "\n"));
    TokenIs("dummy", ' ', w + " " + (Decimal(n) + " " + (text + "\n")));
    TokenIs(notify, ' ', Decimal(n) + " " + (text + "\n"));
  }

  // ---------- the round trip ----------

  /** What uucp and uux spool. */
  predicate Spoolable(c: Scmd) {
    && Complete(c)
    && Text(c.from) != "" && Text(c.to) != "" && Text(c.user) != ""
    && BlankFree(Text(c.options))
    && (Sends(c) ==> Text(c.temp) != "" && BlankFree(Text(c.temp)))
    && (c.bcmd == 'E' ==> Text(c.notify) != "")
  }

  /** What is read back is the command, with q among the options if it had to be quoted. */
  predicate Recovered(c: Scmd, r: Option<Scmd>)
    requires Complete(c)
  {
    && r.Some? && r.value.bcmd == c.bcmd
    && r.value.from == c.from && r.value.to == c.to && r.value.user == c.user
    && r.value.options == Some(if FcmdNeedsQuotes(c) && 'q' !in Text(c.options) then Text(c.options) + "q"
                               else Text(c.options))
    && (Sends(c) ==> r.value.temp == c.temp && r.value.mode == c.mode)
    && (c.bcmd == 'S' ==> r.value.notify == NotEmpty(c.notify))
    && (c.bcmd == 'E' ==> r.value.notify == c.notify && r.value.cmd == c.cmd)
  }

  /** No backslash before the last character: unquoting such a string changes nothing. */
  predicate Fixed(s: CString) { forall i | 0 <= i < |s| - 1 :: s[i] != '\\' }

  /** The strings the reader unquotes although the printer did not quote them. */
  predicate UnquotingHarmless(c: Scmd) {
    && (c.bcmd == 'E' ==> Fixed(Text(c.cmd)))
    && (FcmdNeedsQuotes(c)
        || (Fixed(Text(c.from)) && Fixed(Text(c.to)) && Fixed(Text(c.user))
            && (Sends(c) ==> Fixed(Text(c.notify)))))
  }

  predicate Safe(c: Scmd) {
    && (Sends(c) ==> c.mode != 666 && c.mode != 777)
    && (c.bcmd == 'E' ==> c.notify != Some("dummy") && '\n' !in Text(c.cmd))
    && (FcmdNeedsQuotes(c) || 'q' in Text(c.options) ==> UnquotingHarmless(c))
  }

  lemma UnquotedIs(s: CString)
    requires IsCString(s)
    ensures UpToNul(Unescape(s)) == s <==> Fixed(s)
    ensures |UpToNul(Unescape(s))| <= |s|
  {
    UnescapeFixes(s);
    if !Fixed(s) { UnescapeShrinks(s); }
  }

  lemma UnescapeShrinks(s: CString)
    requires !Fixed(s)
    ensures |Unescape(s)| < |s|
  {
    if s[0] != '\\' {
      var i :| 0 <= i < |s| - 1 && s[i] == '\\';
      assert s[1..][i - 1] == '\\';
      UnescapeShrinks(s[1..]);
    }
  }

  lemma UnquotedQuote(s: CString)
    requires IsCString(s)
    ensures UpToNul(Unescape(Quote(s, false))) == s
    ensures BlankFree(Quote(s, false)) && IsCString(Quote(s, false))
  {
    UnescapeQuote(s, false);
    QuotedIsGraph(s);
  }

  lemma QuotedDummy(s: CString)
    requires IsCString(s)
    ensures Quote(s, false) == "dummy" <==> s == "dummy"
  {
    QuoteDummy();
    if Quote(s, false) == "dummy" {
      UnescapeQuote(s, false);
      UnescapeQuote("dummy", false);
    }
  }

  lemma QuoteDummy()
    ensures Quote("dummy", false) == "dummy"
  {
    assert "dummy"[1..] == "ummy" && "ummy"[1..] == "mmy" && "mmy"[1..] == "my" && "my"[1..] == "y";
    assert Quote("y", false) == "y";
    assert Quote("my", false) == "m" + "y";
    assert Quote("mmy", false) == "m" + "my";
    assert Quote("ummy", false) == "u" + "mmy";
    assert Quote("dummy", false) == "d" + "ummy";
  }

  lemma QuotedIsClean(c: Scmd)
    requires Spoolable(c)
    ensures Clean(QuoteCmd(c))
  {
    UnquotedQuote(Text(c.from));
    UnquotedQuote(Text(c.to));
    UnquotedQuote(Text(c.user));
    if c.notify.Some? { UnquotedQuote(c.notify.value); }
    WithQIsClean(Text(c.options));
  }

  lemma WithQIsClean(s: CString)
    requires IsCString(s) && BlankFree(s)
    ensures IsCString(WithQ(s)) && BlankFree(WithQ(s)) && 'q' in WithQ(s)
  {
    if 'q' !in s { assert (s + "q")[|s|] == 'q'; }
  }

  lemma PrintedIsClean(c: Scmd)
    requires Spoolable(c)
    ensures Clean(Printed(c))
  {
    if FcmdNeedsQuotes(c) { QuotedIsClean(c); }
  }

  /** What the reader makes of a line, unless it is confused by "dummy". */
  function Outcome(p: Scmd): Scmd {
    var d := Fresh(p.bcmd).(from := p.from, to := p.to, user := p.user, options := p.options);
    var e := d.(temp := p.temp, mode := FixMode(p.mode));
    Unquote(if p.bcmd == 'S' then e.(notify := NotEmpty(p.notify))
            else if p.bcmd == 'E' then
              e.(notify := p.notify, bytes := 0, cmd := Some(UpToNewline(Text(p.cmd) + "\n")))
            else d)
  }

  lemma ReadLine(p: Scmd)
    requires Clean(p)
    requires p.bcmd == 'E' ==> p.notify != Some("dummy")
    ensures Parse(Line(p)) == Some(Outcome(p))
  {
    var d := Fresh(p.bcmd).(from := p.from, to := p.to, user := p.user);
    ReadHead(p);
    if Sends(p) {
      ReadSend(p, d);
      var e := d.(options := p.options, temp := p.temp, mode := FixMode(p.mode));
      if p.bcmd == 'S' { ReadNotifyOfSend(p, e); } else { ReadNotifyOfExecution(p, e); }
    } else {
      ReadRequest(p, d);
    }
  }

  lemma DummyIsNotRecovered(c: Scmd, p: Scmd)
    requires Spoolable(c) && Clean(p) && p == Printed(c)
    requires c.bcmd == 'E' && p.notify == Some("dummy")
    ensures !Recovered(c, Parse(Line(p)))
  {
    var d := Fresh(p.bcmd).(from := p.from, to := p.to, user := p.user);
    ReadHead(p);
    ReadSend(p, d);
    DummyLosesText(p, d.(options := p.options, temp := p.temp, mode := FixMode(p.mode)));
  }

  lemma UpToNewlineIs(s: CString)
    ensures '\n' !in s ==> UpToNewline(s + "\n") == s
    ensures '\n' in s ==> |UpToNewline(s + "\n")| < |s|
  {
    if s != [] {
      assert (s + "\n")[1..] == s[1..] + "\n";
      UpToNewlineIs(s[1..]);
    }
  }

  lemma UpToNewlineIsCString(s: CString)
    requires IsCString(s)
    ensures IsCString(UpToNewline(s + "\n"))
  {
    if s != [] {
      assert (s + "\n")[1..] == s[1..] + "\n";
      UpToNewlineIsCString(s[1..]);
    }
  }

  /** Reading back a field of the printed command. */
  lemma FieldBack(z: Option<CString>, quoted: bool, unquote: bool)
    requires z.Some? && IsCString(z.value) && (quoted ==> unquote)
    ensures var p := if quoted then QuoteOpt(z) else z;
            var r := if unquote then UnquoteOpt(p) else p;
            r == z <==> (unquote && !quoted ==> Fixed(z.value))
  {
    UnquotedIs(z.value);
    UnquotedQuote(z.value);
  }

  /** The command text is cut at a newline and never quoted. */
  lemma TextBack(s: CString, unquote: bool)
    requires IsCString(s)
    ensures var p := UpToNewline(s + "\n");
            (if unquote then UpToNul(Unescape(p)) else p) == s <==> '\n' !in s && (unquote ==> Fixed(s))
  {
    UpToNewlineIs(s);
    UpToNewlineIsCString(s);
    UnquotedIs(UpToNewline(s + "\n"));
  }

  lemma RoundTripNames(c: Scmd)
    requires Spoolable(c)
    ensures var p := Printed(c); var r := Outcome(p);
            r.from == c.from && r.to == c.to && r.user == c.user
            <==> ('q' in Text(p.options) && !FcmdNeedsQuotes(c)
                  ==> Fixed(Text(c.from)) && Fixed(Text(c.to)) && Fixed(Text(c.user)))
  {
    var quoted := FcmdNeedsQuotes(c);
    var unquote := 'q' in Text(Printed(c).options);
    if quoted { WithQIsClean(Text(c.options)); }
    FieldBack(c.from, quoted, unquote);
    FieldBack(c.to, quoted, unquote);
    FieldBack(c.user, quoted, unquote);
  }

  lemma RoundTripNotify(c: Scmd)
    requires Spoolable(c) && Sends(c)
    ensures var p := Printed(c); var r := Outcome(p);
            r.notify == (if c.bcmd == 'S' then NotEmpty(c.notify) else c.notify)
            <==> ('q' in Text(p.options) && !FcmdNeedsQuotes(c) ==> Fixed(Text(c.notify)))
  {
    var quoted := FcmdNeedsQuotes(c);
    var unquote := 'q' in Text(Printed(c).options);
    if quoted { WithQIsClean(Text(c.options)); }
    if c.notify.Some? { FieldBack(c.notify, quoted, unquote); }
  }

  lemma RoundTripText(c: Scmd)
    requires Spoolable(c) && c.bcmd == 'E'
    ensures Outcome(Printed(c)).cmd == c.cmd
            <==> '\n' !in Text(c.cmd) && ('q' in Text(Printed(c).options) ==> Fixed(Text(c.cmd)))
  {
    TextBack(Text(c.cmd), 'q' in Text(Printed(c).options));
  }

  lemma Unquotes(c: Scmd)
    requires Spoolable(c)
    ensures 'q' in Text(Printed(c).options) <==> FcmdNeedsQuotes(c) || 'q' in Text(c.options)
  {
    WithQIsClean(Text(c.options));
  }

  /** The spool file gives back exactly the commands that are Safe. */
  lemma RoundTrip(c: Scmd)
    requires Spoolable(c)
    ensures Recovered(c, Parse(Line(Printed(c)))) <==> Safe(c)
  {
    var p := Printed(c);
    PrintedIsClean(c);
    if c.notify.Some? { QuotedDummy(c.notify.value); }
    if c.bcmd == 'E' && p.notify == Some("dummy") {
      DummyIsNotRecovered(c, p);
    } else {
      ReadLine(p);
      OutcomeIsRight(c);
    }
  }

  lemma OutcomeIsRight(c: Scmd)
    requires Spoolable(c) && (c.bcmd == 'E' ==> c.notify != Some("dummy"))
    ensures Recovered(c, Some(Outcome(Printed(c)))) <==> Safe(c)
  {
    Unquotes(c);
    RoundTripNames(c);
    if Sends(c) { RoundTripNotify(c); }
    if c.bcmd == 'E' { RoundTripText(c); }
  }

  // ---------- whole files ----------

  /** The strings that printing a command, recognized or not, looks at. */
  predicate Strings(c: Scmd) {
    && IsCStringOpt(c.from) && IsCStringOpt(c.to) && IsCStringOpt(c.user) && IsCStringOpt(c.notify)
    && c.options.Some?
    && (IsLetter(c.bcmd) ==> Complete(c))
  }

  predicate Known(cs: seq<Scmd>, i: nat)
    requires i < |cs|
  {
    IsLetter(cs[i].bcmd)
  }

  /** The lines of the first i commands. */
  function SpooledTo(cs: seq<Scmd>, i: nat): CString
    requires i <= |cs|
  {
    if i == 0 then [] else SpooledTo(cs, i - 1) + Entries(cs)[i - 1]
  }

  lemma {:induction false} SpooledUpTo(cs: seq<Scmd>, i: nat)
    requires i <= |cs|
    ensures SpooledTo(cs, i) == Joined(Entries(cs)[..i])
  {
    if i > 0 {
      SpooledUpTo(cs, i - 1);
      JoinedAppend(Entries(cs), i - 1);
    }
  }

  lemma SpooledIsAll(cs: seq<Scmd>)
    ensures SpooledTo(cs, |cs|) == Spooled(cs)
  {
    SpooledUpTo(cs, |cs|);
    assert Entries(cs)[..|cs|] == Entries(cs);
  }

  /** One round of the loop of zsysdep_spool_commands. */
  method PrintCommand(cs: seq<Scmd>, i: nat, file: CString) returns (ok: bool, more: CString)
    requires i < |cs| && Strings(cs[i]) && file == SpooledTo(cs, i)
    ensures ok <==> Known(cs, i)
    ensures ok ==> more == SpooledTo(cs, i + 1)
  {
    EntryAt(cs, i);
    var c := cs[i];
    ok, more := IsLetter(c.bcmd), file;
    if ok {
      var q := if FcmdNeedsQuotes(c) then QuoteCmd(c) else c;
      more := file + Line(q);
    }
  }

  /** The loop of zsysdep_spool_commands: an unrecognized command removes the file. */
  method SpoolCommands(cs: seq<Scmd>) returns (ok: bool, file: CString)
    requires forall i {:trigger Strings(cs[i])} | 0 <= i < |cs| :: Strings(cs[i])
    ensures ok <==> forall i {:trigger Known(cs, i)} | 0 <= i < |cs| :: Known(cs, i)
    ensures file == if ok then Spooled(cs) else []
  {
    file := [];
    var i: nat := 0;
    while i < |cs|
      invariant i <= |cs| && forall k {:trigger Known(cs, k)} | 0 <= k < i :: Known(cs, k)
      invariant file == SpooledTo(cs, i)
    {
      ok, file := PrintCommand(cs, i, file);
      if !ok {
        return false, [];
      }
      i := i + 1;
    }
    SpooledIsAll(cs);
    ok := true;
  }

  lemma {:induction false} JoinedAppend(lines: seq<CString>, i: nat)
    requires i < |lines|
    ensures Joined(lines[..i + 1]) == Joined(lines[..i]) + lines[i]
    decreases i
  {
    if i == 0 {
      assert lines[..1][1..] == [];
    } else {
      assert lines[..i + 1][1..] == lines[1..][..i] && lines[..i][1..] == lines[1..][..i - 1];
      JoinedAppend(lines[1..], i - 1);
    }
  }

  /** Reading the lines of a file one by one. */
  function ParseAll(file: CString): seq<Option<Scmd>>
    decreases |file|
  {
    if file == [] then []
    else
      var n := |UpToNewline(file)|;
      if n == |file| then [Parse(file)] else [Parse(file[..n + 1])] + ParseAll(file[n + 1..])
  }

  /** One line: a newline at the end and nowhere else. */
  predicate IsLine(s: CString) {
    s != [] && s[|s| - 1] == '\n' && '\n' !in s[..|s| - 1]
  }

  lemma Longer(a: CString, s: CString)
    requires '\n' !in a && IsLine(s)
    ensures IsLine(a + s)
  {
    assert (a + s)[..|a + s| - 1] == a + s[..|s| - 1];
  }

  lemma {:induction false} FirstLine(s: CString, rest: CString)
    requires IsLine(s)
    ensures |UpToNewline(s + rest)| == |s| - 1
  {
    assert (s + rest)[0] == s[0];
    if |s| == 1 {
    } else {
      assert s[0] == s[..|s| - 1][0];
      assert (s + rest)[1..] == s[1..] + rest;
      assert s[1..][..|s[1..]| - 1] == s[..|s| - 1][1..];
      FirstLine(s[1..], rest);
    }
  }

  lemma OctalIsBlankFree(n: nat)
    ensures BlankFree(Octal(n)) && '\n' !in Octal(n)
  {
    OctalDigits(n);
  }

  lemma NotifyIsLine(p: Scmd)
    requires Clean(p) && Sends(p) && (p.bcmd == 'E' ==> '\n' !in Text(p.cmd))
    ensures IsLine(LineNotify(p))
  {
    assert '\n' !in Text(p.notify);
    if p.bcmd == 'S' {
      Longer(Text(p.notify), "\n");
      assert LineNotify(p) == Text(p.notify) + "\n";
    } else {
      Longer(Text(p.cmd), "\n");
      Longer("0" + " ", Text(p.cmd) + "\n");
      Longer(Text(p.notify) + " ", "0" + " " + (Text(p.cmd) + "\n"));
    }
  }

  lemma OptionsIsLine(p: Scmd)
    requires Clean(p) && (p.bcmd == 'E' ==> '\n' !in Text(p.cmd))
    ensures IsLine(LineOptions(p))
  {
    var options := "-" + Text(p.options);
    assert '\n' !in options;
    if Sends(p) {
      NotifyIsLine(p);
      OctalIsBlankFree(p.mode);
      var mode := ("0" + Octal(p.mode)) + " ";
      Longer(mode, LineNotify(p));
      Longer(Text(p.temp) + " ", mode + LineNotify(p));
      Longer(options + " ", Text(p.temp) + " " + (mode + LineNotify(p)));
    } else {
      Longer(options, "\n");
      assert LineOptions(p) == options + "\n";
    }
  }

  lemma PrintedIsLine(p: Scmd)
    requires Clean(p) && (p.bcmd == 'E' ==> '\n' !in Text(p.cmd))
    ensures IsLine(Line(p))
  {
    OptionsIsLine(p);
    Longer(Text(p.user) + " ", LineOptions(p));
    Longer(Text(p.to) + " ", Text(p.user) + " " + LineOptions(p));
    Longer(Text(p.from) + " ", Text(p.to) + " " + (Text(p.user) + " " + LineOptions(p)));
    Longer([p.bcmd] + " ", Text(p.from) + " " + (Text(p.to) + " " + (Text(p.user) + " " + LineOptions(p))));
  }

  lemma ParseFirst(line: CString, rest: CString)
    requires IsLine(line)
    ensures ParseAll(line + rest) == [Parse(line)] + ParseAll(rest)
  {
    FirstLine(line, rest);
    var file := line + rest;
    assert file[..|line|] == line && file[|line|..] == rest;
  }

  predicate Lines(lines: seq<CString>) { forall i | 0 <= i < |lines| :: IsLine(lines[i]) }

  function Parsed(lines: seq<CString>): seq<Option<Scmd>> {
    if lines == [] then [] else [Parse(lines[0])] + Parsed(lines[1..])
  }

  lemma {:induction false} ParsedAt(lines: seq<CString>)
    ensures |Parsed(lines)| == |lines| && forall i | 0 <= i < |lines| :: Parsed(lines)[i] == Parse(lines[i])
  {
    if lines != [] { ParsedAt(lines[1..]); }
  }

  lemma {:induction false} ParseLines(lines: seq<CString>)
    requires Lines(lines)
    ensures ParseAll(Joined(lines)) == Parsed(lines)
  {
    if lines != [] {
      ParseFirst(lines[0], Joined(lines[1..]));
      ParseLines(lines[1..]);
    }
  }

  /** Reading a spool file gives back every command, in order. */
  lemma FileRoundTrip(cs: seq<Scmd>)
    requires forall i | 0 <= i < |cs| :: Complete(cs[i]) && Spoolable(cs[i]) && Safe(cs[i])
    ensures |ParseAll(Spooled(cs))| == |cs|
    ensures forall i | 0 <= i < |cs| :: Recovered(cs[i], ParseAll(Spooled(cs))[i])
  {
    forall i | 0 <= i < |cs| ensures IsLine(Entries(cs)[i]) && Recovered(cs[i], Parse(Entries(cs)[i])) {
      EntryAt(cs, i);
      EntryRoundTrip(cs[i]);
    }
    ParseLines(Entries(cs));
    ParsedAt(Entries(cs));
  }

  lemma EntryRoundTrip(c: Scmd)
    requires Complete(c) && Spoolable(c) && Safe(c)
    ensures IsLine(Entry(c)) && Recovered(c, Parse(Entry(c)))
  {
    PrintedIsClean(c);
    PrintedIsLine(Printed(c));
    RoundTrip(c);
  }
}
